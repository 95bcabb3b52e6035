/** The disk as log.c sees it: the list of block numbers in the header block, the log
    blocks behind the header, and the home blocks.  Everything here is about disk contents
    only, so it also describes what survives a crash.  Single-block writes are atomic. */
module LogDisk {

  const LOGSIZE: nat := 30

  /** A block is a sequence of words; the log copies whole blocks. */
  type Block = seq<nat>

  /** Contents of the home blocks, by block number. */
  type Contents = map<nat, Block>

  datatype Disk = Disk(header: seq<nat>, log: seq<Block>, home: Contents)

  /** The index at which `b` is listed, or `|lh|`: the search of log_write. */
  function IndexOf(lh: seq<nat>, b: nat): (i: nat)
    ensures i <= |lh|
    ensures i < |lh| ==> lh[i] == b
    ensures forall j :: 0 <= j < i ==> lh[j] != b
  {
    if lh == [] then 0 else if lh[0] == b then 0 else 1 + IndexOf(lh[1..], b)
  }

  ghost predicate Distinct(lh: seq<nat>) {
    forall i, j :: 0 <= i < j < |lh| ==> lh[i] != lh[j]
  }

  ghost function Elements(lh: seq<nat>): set<nat> { set b | b in lh }

  lemma {:induction false} DistinctCount(lh: seq<nat>)
    requires Distinct(lh)
    ensures |Elements(lh)| == |lh|
  {
    if lh != [] {
      DistinctCount(lh[1..]);
      assert Elements(lh) == Elements(lh[1..]) + {lh[0]};
    }
  }

  /** A list that may stand in the header: distinct home blocks that the log has room for. */
  ghost predicate Loggable(d: Disk, lh: seq<nat>) {
    && |lh| <= LOGSIZE && |lh| <= |d.log|
    && Distinct(lh)
    && forall i :: 0 <= i < |lh| ==> lh[i] in d.home
  }

  /** The guard of log_write: one more entry still fits. */
  predicate Room(d: Disk, n: nat) {
    n < LOGSIZE && n < |d.log|
  }

  /** A disk whose header lists a committed, perhaps empty, transaction. */
  ghost predicate Recoverable(d: Disk) {
    Loggable(d, d.header)
  }

  /** What recovery makes of the home blocks: the log copy of every listed block. */
  ghost function Recovered(d: Disk): (c: Contents)
    requires Recoverable(d)
    ensures c.Keys == d.home.Keys
  {
    map b | b in d.home :: if IndexOf(d.header, b) < |d.header| then d.log[IndexOf(d.header, b)] else d.home[b]
  }

  /** The disk after the first `k` copies of install_trans for the list `lh`. */
  ghost function Installed(d: Disk, lh: seq<nat>, k: nat): (e: Disk)
    requires Loggable(d, lh) && k <= |lh|
    ensures e.header == d.header && e.log == d.log && e.home.Keys == d.home.Keys
  {
    d.(home := map b | b in d.home :: if IndexOf(lh, b) < k then d.log[IndexOf(lh, b)] else d.home[b])
  }

  /** The disk after the first `k` copies of write_log, when the cache shows `v`. */
  ghost function Appended(d: Disk, lh: seq<nat>, v: Contents, k: nat): (e: Disk)
    requires Loggable(d, lh) && k <= |lh| && (forall b :: b in lh ==> b in v)
    ensures e.header == d.header && e.home == d.home && |e.log| == |d.log|
  {
    d.(log := seq(|d.log|, i requires 0 <= i < |d.log| => if i < k then v[lh[i]] else d.log[i]))
  }

  lemma InstallNone(d: Disk, lh: seq<nat>)
    requires Loggable(d, lh)
    ensures Installed(d, lh, 0) == d
  {
    assert Installed(d, lh, 0).home == d.home;
  }

  lemma InstallOneAt(d: Disk, lh: seq<nat>, k: nat, b: nat)
    requires Loggable(d, lh) && k < |lh| && b in d.home
    ensures Installed(d, lh, k + 1).home[b] == if b == lh[k] then d.log[k] else Installed(d, lh, k).home[b]
  {
    assert b == lh[k] <==> IndexOf(lh, b) == k;
  }

  /** One copy of install_trans, made from the disk as it is. */
  lemma InstallOne(d: Disk, lh: seq<nat>, k: nat)
    requires Loggable(d, lh) && k < |lh|
    ensures var e := Installed(d, lh, k);
            Installed(d, lh, k + 1) == e.(home := e.home[lh[k] := e.log[k]])
  {
    hide Installed, IndexOf;
    var e, f := Installed(d, lh, k), Installed(d, lh, k + 1);
    forall b | b in d.home ensures f.home[b] == e.home[lh[k] := e.log[k]][b] { InstallOneAt(d, lh, k, b); }
    assert f.home == e.home[lh[k] := e.log[k]];
  }

  // ---- recovery ---------------------------------------------------------------------

  /** The number of block writes of recover_from_log. */
  function RecoveryWrites(d: Disk): nat { |d.header| + 1 }

  /** The disk after `k` of them: the installs, then the empty header. */
  ghost function RecoveryState(d: Disk, k: nat): (e: Disk)
    requires Recoverable(d) && k <= RecoveryWrites(d)
    ensures e.log == d.log && e.home.Keys == d.home.Keys
  {
    if k <= |d.header| then Installed(d, d.header, k)
    else Installed(d, d.header, |d.header|).(header := [])
  }

  lemma InstalledKeepsRecovered(d: Disk, k: nat)
    requires Recoverable(d) && k <= |d.header|
    ensures Recoverable(Installed(d, d.header, k))
    ensures Recovered(Installed(d, d.header, k)) == Recovered(d)
  {
  }

  lemma InstalledAll(d: Disk)
    requires Recoverable(d)
    ensures Installed(d, d.header, |d.header|).home == Recovered(d)
  {
  }

  lemma EmptyHeader(d: Disk)
    requires d.header == []
    ensures Recoverable(d) && Recovered(d) == d.home
  {
  }

  /** Recovery may be cut short after any write: what is recovered stays the same.  When it
      finishes, the home blocks hold it and the log is empty. */
  lemma RecoveryStateKeepsRecovered(d: Disk, k: nat)
    requires Recoverable(d) && k <= RecoveryWrites(d)
    ensures Recoverable(RecoveryState(d, k))
    ensures Recovered(RecoveryState(d, k)) == Recovered(d)
    ensures k == RecoveryWrites(d) ==>
              RecoveryState(d, k).home == Recovered(d) && RecoveryState(d, k).header == []
  {
    if k <= |d.header| {
      InstalledKeepsRecovered(d, k);
    } else {
      InstalledAll(d);
      EmptyHeader(RecoveryState(d, k));
    }
  }

  /** A legal list of crash points: the i-th recovery attempt is cut after `cuts[i]` writes. */
  ghost predicate LegalCuts(d: Disk, cuts: seq<nat>)
    decreases |cuts|
  {
    cuts == [] ||
    (Recoverable(d) && cuts[0] <= RecoveryWrites(d) && LegalCuts(RecoveryState(d, cuts[0]), cuts[1..]))
  }

  /** The disk after that many interrupted recoveries, one after the other. */
  ghost function AfterCuts(d: Disk, cuts: seq<nat>): Disk
    requires LegalCuts(d, cuts)
    decreases |cuts|
  {
    if cuts == [] then d else AfterCuts(RecoveryState(d, cuts[0]), cuts[1..])
  }

  /** Any number of crashes during recovery, then one recovery that finishes. */
  lemma {:induction false} RepeatedRecovery(d: Disk, cuts: seq<nat>)
    requires Recoverable(d) && LegalCuts(d, cuts)
    ensures var e := AfterCuts(d, cuts);
            && Recoverable(e)
            && Recovered(e) == Recovered(d)
            && RecoveryState(e, RecoveryWrites(e)).home == Recovered(d)
    decreases |cuts|
  {
    if cuts == [] {
      RecoveryStateKeepsRecovered(d, RecoveryWrites(d));
    } else {
      RecoveryStateKeepsRecovered(d, cuts[0]);
      RepeatedRecovery(RecoveryState(d, cuts[0]), cuts[1..]);
    }
  }

  // ---- commit -----------------------------------------------------------------------

  /** What holds when commit starts: an empty header on disk, and a cache view `v` that
      differs from the disk at most on the listed blocks. */
  ghost predicate CommitReady(d: Disk, lh: seq<nat>, v: Contents) {
    && d.header == []
    && Loggable(d, lh)
    && v.Keys == d.home.Keys
    && forall b :: b in v && IndexOf(lh, b) == |lh| ==> v[b] == d.home[b]
  }

  /** The number of block writes of the commit of a non-empty list. */
  function CommitWrites(lh: seq<nat>): nat { 2 * |lh| + 2 }

  /** The disk just after the list reached the header block: the commit point. */
  ghost function CommitHead(d: Disk, lh: seq<nat>, v: Contents): (h: Disk)
    requires CommitReady(d, lh, v)
    ensures Recoverable(h) && |h.log| == |d.log| && h.home == d.home && h.header == lh
  {
    Appended(d, lh, v, |lh|).(header := lh)
  }

  /** The disk after `k` block writes of commit: those of write_log, then write_head, then
      install_trans and write_head again, which is what recovery would do from there. */
  ghost function CommitState(d: Disk, lh: seq<nat>, v: Contents, k: nat): (e: Disk)
    requires CommitReady(d, lh, v) && k <= CommitWrites(lh)
    ensures |e.log| == |d.log| && e.home.Keys == d.home.Keys
  {
    if k <= |lh| then Appended(d, lh, v, k) else RecoveryState(CommitHead(d, lh, v), k - |lh| - 1)
  }

  lemma CommitPointAt(d: Disk, lh: seq<nat>, v: Contents, b: nat)
    requires CommitReady(d, lh, v) && b in v
    ensures Recoverable(CommitHead(d, lh, v)) && b in Recovered(CommitHead(d, lh, v))
    ensures Recovered(CommitHead(d, lh, v))[b] == v[b]
  {
    var h, i := CommitHead(d, lh, v), IndexOf(lh, b);
    if i < |lh| { assert h.log[i] == v[lh[i]]; }
  }

  lemma CommitPoint(d: Disk, lh: seq<nat>, v: Contents)
    requires CommitReady(d, lh, v)
    ensures Recovered(CommitHead(d, lh, v)) == v
  {
    var h := CommitHead(d, lh, v);
    forall b | b in v ensures Recovered(h)[b] == v[b] { CommitPointAt(d, lh, v, b); }
  }

  /** Crash atomicity of one commit: cut after any write, the disk stands for the contents
      before the transaction until the header is written and for those after it from then
      on.  At the end the home blocks hold the new contents and the log is empty. */
  lemma CommitAtomic(d: Disk, lh: seq<nat>, v: Contents, k: nat)
    requires CommitReady(d, lh, v) && k <= CommitWrites(lh)
    ensures Recoverable(CommitState(d, lh, v, k))
    ensures Recovered(CommitState(d, lh, v, k)) == if k <= |lh| then d.home else v
    ensures k == CommitWrites(lh) ==>
              CommitState(d, lh, v, k).home == v && CommitState(d, lh, v, k).header == []
  {
    if k <= |lh| {
      EmptyHeader(CommitState(d, lh, v, k));
    } else {
      CommitPoint(d, lh, v);
      RecoveryStateKeepsRecovered(CommitHead(d, lh, v), k - |lh| - 1);
    }
  }

  /** Crash atomicity over whole histories: a crash after any write of commit, then any
      number of crashes during recovery, then a recovery that finishes, leaves the home
      blocks exactly as before the transaction or exactly as after it, and as after it
      exactly when the header with the list had reached the disk. */
  lemma CrashAtomicity(d: Disk, lh: seq<nat>, v: Contents, k: nat, cuts: seq<nat>)
    requires CommitReady(d, lh, v) && k <= CommitWrites(lh)
    requires LegalCuts(CommitState(d, lh, v, k), cuts)
    ensures var e := AfterCuts(CommitState(d, lh, v, k), cuts);
            && Recoverable(e)
            && RecoveryState(e, RecoveryWrites(e)).home == if k <= |lh| then d.home else v
  {
    CommitAtomic(d, lh, v, k);
    RepeatedRecovery(CommitState(d, lh, v, k), cuts);
  }
}
