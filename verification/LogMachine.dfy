/** The logging protocol as a state machine: file-system operations that begin, log blocks
    and end in any interleaving, the commit of the last one to end, a crash between any two
    block writes, and recovery.

    begin_op, log_write and end_op change the log under log.lock, so each is one step. */
module LogMachine {
  import opened LogDisk

  const MAXOPBLOCKS: nat := 10

  /** What the log is doing.  `k` block writes of a commit or of a recovery are done;
      `base` remembers the disk from which it started. */
  datatype Phase = Running | Committing(k: nat, base: Disk) | Recovering(k: nat, base: Disk)

  /** `view` is what bread returns for home blocks, `lh` the list in memory, `active` the
      operations between begin_op and end_op.  `committed` is history: the contents as of
      the last commit. */
  datatype Sys = Sys(
    disk: Disk, view: Contents, lh: seq<nat>, outstanding: nat, phase: Phase,
    active: set<nat>, next: nat, committed: Contents)

  datatype Action =
    | Begin
    | LogWrite(op: nat, b: nat, data: Block)
    | End(op: nat)
    | CommitWrite
    | CommitDone
    | Crash
    | RecoverWrite
    | RecoverDone

  /** The disk after power-up, about to be recovered. */
  ghost predicate Init(s: Sys) {
    && Recoverable(s.disk)
    && s.phase == Recovering(0, s.disk)
    && s.lh == s.disk.header
    && s.active == {} && s.outstanding == 0
    && s.committed == Recovered(s.disk)
  }

  predicate Enabled(s: Sys, a: Action) {
    match a
    case Begin =>
      // begin_op leaves its loop only in this case; otherwise it sleeps
      s.phase.Running? && |s.lh| + (s.outstanding + 1) * MAXOPBLOCKS <= LOGSIZE
    case LogWrite(op, b, data) =>
      op in s.active && b in s.view && Room(s.disk, |s.lh|)
    case End(op) => op in s.active
    case CommitWrite => s.phase.Committing? && s.lh != [] && s.phase.k < CommitWrites(s.lh)
    case CommitDone => s.phase.Committing? && (s.lh == [] || s.phase.k == CommitWrites(s.lh))
    case Crash => true
    case RecoverWrite => s.phase.Recovering? && s.phase.k <= |s.lh|
    case RecoverDone => s.phase.Recovering? && s.phase.k == |s.lh| + 1
  }

  function NextBegin(s: Sys): Sys {
    s.(outstanding := s.outstanding + 1, active := s.active + {s.next}, next := s.next + 1)
  }

  /** The list after log_write of `b`; a block already listed is absorbed. */
  function Logged(lh: seq<nat>, b: nat): seq<nat> {
    if IndexOf(lh, b) < |lh| then lh else lh + [b]
  }

  function NextLogWrite(s: Sys, b: nat, data: Block): Sys {
    s.(view := s.view[b := data], lh := Logged(s.lh, b))
  }

  function NextEnd(s: Sys, op: nat): Sys
    requires 1 <= s.outstanding
  {
    s.(outstanding := s.outstanding - 1, active := s.active - {op},
       phase := if s.outstanding == 1 then Committing(0, s.disk) else s.phase)
  }

  /** The `k`-th block write of commit, made from the disk and cache as they are now. */
  function CommitOne(d: Disk, lh: seq<nat>, v: Contents, k: nat): Disk
    requires |lh| <= |d.log| && (forall b :: b in lh ==> b in v) && k < CommitWrites(lh)
  {
    var n := |lh|;
    if k < n then d.(log := d.log[k := v[lh[k]]])
    else if k == n then d.(header := lh)
    else if k <= 2 * n then d.(home := d.home[lh[k - n - 1] := d.log[k - n - 1]])
    else d.(header := [])
  }

  function NextCommitWrite(s: Sys): Sys
    requires |s.lh| <= |s.disk.log| && (forall b :: b in s.lh ==> b in s.view)
    requires s.phase.Committing? && s.phase.k < CommitWrites(s.lh)
  {
    s.(disk := CommitOne(s.disk, s.lh, s.view, s.phase.k),
       phase := Committing(s.phase.k + 1, s.phase.base),
       committed := if s.phase.k == |s.lh| then s.view else s.committed)
  }

  function NextCommitDone(s: Sys): Sys {
    s.(phase := Running, lh := [])
  }

  /** The machine stops; after power-up read_head has read the list from disk. */
  function NextCrash(s: Sys): Sys {
    s.(phase := Recovering(0, s.disk), lh := s.disk.header, outstanding := 0, active := {})
  }

  /** The `k`-th block write of recovery. */
  function RecoverOne(d: Disk, lh: seq<nat>, k: nat): Disk
    requires |lh| <= |d.log| && k <= |lh|
  {
    if k < |lh| then d.(home := d.home[lh[k] := d.log[k]]) else d.(header := [])
  }

  function NextRecoverWrite(s: Sys): Sys
    requires |s.lh| <= |s.disk.log| && s.phase.Recovering? && s.phase.k <= |s.lh|
  {
    s.(disk := RecoverOne(s.disk, s.lh, s.phase.k), phase := Recovering(s.phase.k + 1, s.phase.base))
  }

  function NextRecoverDone(s: Sys): Sys {
    s.(phase := Running, lh := [], view := s.disk.home)
  }

  ghost function Next(s: Sys, a: Action): Sys
    requires Inv(s) && Enabled(s, a)
  {
    match a
    case Begin => NextBegin(s)
    case LogWrite(op, b, data) => NextLogWrite(s, b, data)
    case End(op) => NextEnd(s, op)
    case CommitWrite => NextCommitWrite(s)
    case CommitDone => NextCommitDone(s)
    case Crash => NextCrash(s)
    case RecoverWrite => NextRecoverWrite(s)
    case RecoverDone => NextRecoverDone(s)
  }

  // ---- the invariant ----------------------------------------------------------------

  /** A commit of a non-empty list after `k` of its writes. */
  ghost predicate CommitOk(s: Sys, k: nat, base: Disk) {
    && CommitReady(base, s.lh, s.view)
    && k <= CommitWrites(s.lh)
    && s.disk == CommitState(base, s.lh, s.view, k)
    && s.committed == if k <= |s.lh| then base.home else s.view
  }

  /** A recovery after `k` of its writes. */
  ghost predicate RecoverOk(s: Sys, k: nat, base: Disk) {
    && Recoverable(base) && s.lh == base.header
    && k <= RecoveryWrites(base) && s.disk == RecoveryState(base, k)
  }

  ghost predicate PhaseOk(s: Sys) {
    match s.phase
    case Running => CommitReady(s.disk, s.lh, s.view)
    case Committing(k, base) =>
      s.active == {} && if s.lh == [] then CommitReady(s.disk, s.lh, s.view) else CommitOk(s, k, base)
    case Recovering(k, base) => s.active == {} && RecoverOk(s, k, base)
  }

  /** Whatever the log is doing, the disk stands for the contents as of the last commit. */
  ghost predicate Inv(s: Sys) {
    && s.outstanding == |s.active|
    && (forall op :: op in s.active ==> op < s.next)
    && Recoverable(s.disk)
    && Recovered(s.disk) == s.committed
    && PhaseOk(s)
  }

  lemma InitInv(s: Sys)
    requires Init(s)
    ensures Inv(s)
  {
  }

  lemma StepBegin(s: Sys)
    requires Inv(s) && Enabled(s, Begin)
    ensures Inv(NextBegin(s))
  {
    var t := NextBegin(s);
    assert s.next !in s.active;
  }

  lemma LoggedList(lh: seq<nat>, b: nat, c: nat)
    ensures IndexOf(Logged(lh, b), c) < |Logged(lh, b)| <==> c == b || IndexOf(lh, c) < |lh|
  {
    var lh' := Logged(lh, b);
    assert lh'[..|lh|] == lh;
    if c == b { assert b in lh'; }
    if c in lh { assert lh'[IndexOf(lh, c)] == c; }
  }

  lemma LoggedLoggable(d: Disk, lh: seq<nat>, b: nat)
    requires Loggable(d, lh) && b in d.home && Room(d, |lh|)
    ensures Loggable(d, Logged(lh, b))
  {
  }

  lemma LogEntry(d: Disk, lh: seq<nat>, view: Contents, b: nat, data: Block)
    requires CommitReady(d, lh, view) && b in view && Room(d, |lh|)
    ensures CommitReady(d, Logged(lh, b), view[b := data])
  {
    LoggedLoggable(d, lh, b);
    forall c | c in view[b := data] && IndexOf(Logged(lh, b), c) == |Logged(lh, b)|
      ensures view[b := data][c] == d.home[c]
    {
      LoggedList(lh, b, c);
    }
  }

  lemma StepLogWrite(s: Sys, op: nat, b: nat, data: Block)
    requires Inv(s) && Enabled(s, LogWrite(op, b, data))
    ensures Inv(NextLogWrite(s, b, data))
  {
    LogEntry(s.disk, s.lh, s.view, b, data);
  }

  lemma StepEnd(s: Sys, op: nat)
    requires Inv(s) && Enabled(s, End(op))
    ensures Inv(NextEnd(s, op))
  {
    assert |s.active - {op}| == |s.active| - 1;
  }

  lemma AppendOne(d: Disk, lh: seq<nat>, v: Contents, k: nat)
    requires Loggable(d, lh) && k < |lh| && (forall b :: b in lh ==> b in v)
    ensures Appended(d, lh, v, k + 1) == Appended(d, lh, v, k).(log := Appended(d, lh, v, k).log[k := v[lh[k]]])
  {
    assert Appended(d, lh, v, k + 1).log == Appended(d, lh, v, k).log[k := v[lh[k]]];
  }

  lemma RecoverOneState(base: Disk, k: nat)
    requires Recoverable(base) && k < RecoveryWrites(base)
    ensures RecoverOne(RecoveryState(base, k), base.header, k) == RecoveryState(base, k + 1)
  {
    if k < |base.header| { InstallOne(base, base.header, k); }
  }

  lemma CommitOneState(base: Disk, lh: seq<nat>, v: Contents, k: nat)
    requires CommitReady(base, lh, v) && k < CommitWrites(lh)
    ensures CommitOne(CommitState(base, lh, v, k), lh, v, k) == CommitState(base, lh, v, k + 1)
  {
    if k < |lh| {
      AppendOne(base, lh, v, k);
    } else if k == |lh| {
      InstallNone(CommitHead(base, lh, v), lh);
    } else {
      RecoverOneState(CommitHead(base, lh, v), k - |lh| - 1);
    }
  }

  lemma StepCommitWrite(s: Sys)
    requires Inv(s) && Enabled(s, CommitWrite)
    ensures Inv(NextCommitWrite(s))
  {
    hide Recoverable, Recovered, CommitReady, CommitState, CommitOne;
    CommitOneState(s.phase.base, s.lh, s.view, s.phase.k);
    CommitAtomic(s.phase.base, s.lh, s.view, s.phase.k);
    CommitAtomic(s.phase.base, s.lh, s.view, s.phase.k + 1);
  }

  lemma StepCommitDone(s: Sys)
    requires Inv(s) && Enabled(s, CommitDone)
    ensures Inv(NextCommitDone(s))
  {
    if s.lh != [] { CommitAtomic(s.phase.base, s.lh, s.view, s.phase.k); }
  }

  lemma StepCrash(s: Sys)
    requires Inv(s)
    ensures Inv(NextCrash(s))
  {
    InstallNone(s.disk, s.disk.header);
  }

  lemma StepRecoverWrite(s: Sys)
    requires Inv(s) && Enabled(s, RecoverWrite)
    ensures Inv(NextRecoverWrite(s))
  {
    hide Recoverable, Recovered, RecoveryState, RecoverOne;
    RecoverOneState(s.phase.base, s.phase.k);
    RecoveryStateKeepsRecovered(s.phase.base, s.phase.k);
    RecoveryStateKeepsRecovered(s.phase.base, s.phase.k + 1);
  }

  lemma StepRecoverDone(s: Sys)
    requires Inv(s) && Enabled(s, RecoverDone)
    ensures Inv(NextRecoverDone(s))
  {
    RecoveryStateKeepsRecovered(s.phase.base, s.phase.k);
    EmptyHeader(s.disk);
  }

  lemma StepInv(s: Sys, a: Action)
    requires Inv(s) && Enabled(s, a)
    ensures Inv(Next(s, a))
  {
    match a
    case Begin => StepBegin(s);
    case LogWrite(op, b, data) => StepLogWrite(s, op, b, data);
    case End(op) => StepEnd(s, op);
    case CommitWrite => StepCommitWrite(s);
    case CommitDone => StepCommitDone(s);
    case Crash => StepCrash(s);
    case RecoverWrite => StepRecoverWrite(s);
    case RecoverDone => StepRecoverDone(s);
  }
}
