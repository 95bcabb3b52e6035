/** log.c as code over the buffer cache: what its functions write to the disk, block by
    block, and that this is what LogDisk says. */
module LogCode {
  import opened LogDisk
  import LogMachine
  import opened BufferCache

  /** The words of a header block: the count, then the list; the rest stays as it was. */
  function Header(h: Block, lh: seq<nat>): Block
    requires |lh| + 1 <= |h|
  {
    [|lh|] + lh + h[1 + |lh|..]
  }

  predicate HeaderShape(h: Block) {
    LOGSIZE + 1 <= |h| && h[0] <= LOGSIZE
  }

  function Listed(h: Block): seq<nat>
    requires HeaderShape(h)
  {
    h[1..1 + h[0]]
  }

  lemma HeaderLists(h: Block, lh: seq<nat>)
    requires LOGSIZE + 1 <= |h| && |lh| <= LOGSIZE
    ensures HeaderShape(Header(h, lh)) && Listed(Header(h, lh)) == lh
  {
  }

  /** The blocks the superblock gives to the log. */
  datatype Area = Area(start: nat, size: nat) {
    /** The block that holds entry `i` of the log. */
    function LogAt(i: nat): nat { start + 1 + i }

    predicate Fits(d: seq<Block>) { 1 <= size && start + size <= |d| }
    predicate Home(b: nat, disksize: nat) { b < disksize && (b < start || start + size <= b) }
  }

  ghost predicate Formatted(a: Area, d: seq<Block>) {
    a.Fits(d) && HeaderShape(d[a.start])
  }

  /** The disk as LogDisk describes it. */
  ghost function Parse(a: Area, d: seq<Block>): Disk
    requires Formatted(a, d)
  {
    Disk(Listed(d[a.start]), d[a.start + 1..a.start + a.size], map b: nat | b < |d| && a.Home(b, |d|) :: d[b])
  }

  lemma ParseLogWrite(a: Area, d: seq<Block>, i: nat, x: Block)
    requires Formatted(a, d) && i + 1 < a.size
    ensures Formatted(a, d[a.LogAt(i) := x])
    ensures Parse(a, d[a.LogAt(i) := x]) == Parse(a, d).(log := Parse(a, d).log[i := x])
  {
    var e := d[a.LogAt(i) := x];
    assert Parse(a, e).log == Parse(a, d).log[i := x];
    assert Parse(a, e).home == Parse(a, d).home;
  }

  lemma ParseHomeWrite(a: Area, d: seq<Block>, b: nat, x: Block)
    requires Formatted(a, d) && a.Home(b, |d|)
    ensures Formatted(a, d[b := x])
    ensures Parse(a, d[b := x]) == Parse(a, d).(home := Parse(a, d).home[b := x])
  {
    var e := d[b := x];
    assert Parse(a, e).log == Parse(a, d).log;
    assert Parse(a, e).home == Parse(a, d).home[b := x];
  }

  lemma ParseHeadWrite(a: Area, d: seq<Block>, lh: seq<nat>)
    requires Formatted(a, d) && |lh| <= LOGSIZE
    ensures var e := d[a.start := Header(d[a.start], lh)];
            Formatted(a, e) && Parse(a, e) == Parse(a, d).(header := lh)
  {
    var e := d[a.start := Header(d[a.start], lh)];
    assert Listed(e[a.start]) == lh;
    assert Parse(a, e).log == Parse(a, d).log;
    assert Parse(a, e).home == Parse(a, d).home;
  }

  /** The disks a commit and a recovery go through, one block write after the other. */
  ghost function CommitStates(d: Disk, lh: seq<nat>, v: Contents): (ds: seq<Disk>)
    requires CommitReady(d, lh, v)
    ensures |ds| == CommitWrites(lh) + 1 && forall k :: 0 <= k < |ds| ==> ds[k] == CommitState(d, lh, v, k)
  {
    seq(CommitWrites(lh) + 1, k requires 0 <= k <= CommitWrites(lh) => CommitState(d, lh, v, k))
  }

  ghost function RecoveryStates(d: Disk): (ds: seq<Disk>)
    requires Recoverable(d)
    ensures |ds| == RecoveryWrites(d) + 1 && forall k :: 0 <= k < |ds| ==> ds[k] == RecoveryState(d, k)
  {
    seq(RecoveryWrites(d) + 1, k requires 0 <= k <= RecoveryWrites(d) => RecoveryState(d, k))
  }

  /** The last write of a recovery empties the list. */
  lemma LastState(d: Disk)
    requires Recoverable(d)
    ensures RecoveryState(d, RecoveryWrites(d)) == RecoveryState(d, |d.header|).(header := [])
  {
  }

  /** After the first `m` writes the disk is `e`. */
  ghost predicate StateAt(a: Area, d0: seq<Block>, ws: seq<BlockWrite>, m: nat, e: Disk) {
    m <= |ws| && Formatted(a, Written(d0, ws[..m])) && Parse(a, Written(d0, ws[..m])) == e
  }

  /** The `k` writes behind the first `base` took the disk through the first `k` + 1 states
      of `ds`, stopping at each. */
  ghost predicate Traces(a: Area, d0: seq<Block>, ws: seq<BlockWrite>, base: nat, ds: seq<Disk>, k: nat) {
    && |ws| == base + k && k < |ds|
    && forall j :: 0 <= j <= k ==> StateAt(a, d0, ws, base + j, ds[j])
  }

  lemma TraceStart(a: Area, d0: seq<Block>, ws: seq<BlockWrite>, ds: seq<Disk>)
    requires 0 < |ds| && Formatted(a, Written(d0, ws)) && Parse(a, Written(d0, ws)) == ds[0]
    ensures Traces(a, d0, ws, |ws|, ds, 0)
  {
    assert ws[..|ws|] == ws;
  }

  lemma TraceStep(a: Area, d0: seq<Block>, ws: seq<BlockWrite>, w: BlockWrite, base: nat, ds: seq<Disk>, k: nat)
    requires Traces(a, d0, ws, base, ds, k) && k + 1 < |ds|
    requires Formatted(a, Written(d0, ws + [w])) && Parse(a, Written(d0, ws + [w])) == ds[k + 1]
    ensures Traces(a, d0, ws + [w], base, ds, k + 1)
  {
    var us := ws + [w];
    forall j | 0 <= j <= k + 1 ensures StateAt(a, d0, us, base + j, ds[j]) {
      if j <= k {
        assert StateAt(a, d0, ws, base + j, ds[j]);
        assert us[..base + j] == ws[..base + j];
      } else {
        assert us[..base + j] == us;
      }
    }
  }

  lemma TraceBound(a: Area, d0: seq<Block>, ws: seq<BlockWrite>, base: nat, ds: seq<Disk>, k: nat)
    requires Traces(a, d0, ws, base, ds, k)
    ensures k < |ds|
  {
  }

  /** `ds` goes on from its place `k` as `es` does, up to place `j`. */
  ghost predicate Continues(ds: seq<Disk>, k: nat, es: seq<Disk>, j: nat) {
    k + j < |ds| && j < |es| && forall i {:trigger es[i]} :: 0 <= i <= j ==> ds[k + i] == es[i]
  }

  /** A trace followed by a trace that starts where it ended. */
  lemma TraceJoin(a: Area, d0: seq<Block>, ws: seq<BlockWrite>, us: seq<BlockWrite>, base: nat,
                  ds: seq<Disk>, k: nat, es: seq<Disk>, j: nat)
    requires Traces(a, d0, ws, base, ds, k) && ws <= us && Traces(a, d0, us, |ws|, es, j)
    requires Continues(ds, k, es, j)
    ensures Traces(a, d0, us, base, ds, k + j)
  {
    forall i | 0 <= i <= k + j ensures StateAt(a, d0, us, base + i, ds[i]) {
      if i <= k {
        assert StateAt(a, d0, ws, base + i, ds[i]);
        assert us[..base + i] == ws[..base + i];
      } else {
        var t := i - k;
        assert StateAt(a, d0, us, |ws| + t, es[t]);
        assert ds[k + t] == es[t];
      }
    }
  }

  lemma AppendNone(d: Disk, lh: seq<nat>, v: Contents)
    requires CommitReady(d, lh, v)
    ensures Appended(d, lh, v, 0) == d == CommitState(d, lh, v, 0)
  {
    assert Appended(d, lh, v, 0).log == d.log;
  }

  lemma CommitHeadState(d: Disk, lh: seq<nat>, v: Contents)
    requires CommitReady(d, lh, v)
    ensures CommitHead(d, lh, v) == Appended(d, lh, v, |lh|).(header := lh)
    ensures CommitStates(d, lh, v)[|lh| + 1] == CommitHead(d, lh, v)
  {
    InstallNone(CommitHead(d, lh, v), lh);
  }

  lemma CommitContinues(d: Disk, lh: seq<nat>, v: Contents, j: nat)
    requires CommitReady(d, lh, v) && j <= RecoveryWrites(CommitHead(d, lh, v))
    ensures |lh| + 1 + j <= CommitWrites(lh)
    ensures Continues(CommitStates(d, lh, v), |lh| + 1, RecoveryStates(CommitHead(d, lh, v)), j)
  {
    hide CommitReady, Recoverable, RecoveryState, CommitState, CommitHead, CommitStates, RecoveryStates;
    var ds, es := CommitStates(d, lh, v), RecoveryStates(CommitHead(d, lh, v));
    forall i {:trigger es[i]} | 0 <= i <= j ensures ds[|lh| + 1 + i] == es[i] {
      AsRecovery(d, lh, v, i);
    }
  }

  lemma AsRecovery(d: Disk, lh: seq<nat>, v: Contents, i: nat)
    requires CommitReady(d, lh, v) && i <= RecoveryWrites(CommitHead(d, lh, v))
    ensures CommitStates(d, lh, v)[|lh| + 1 + i] == RecoveryStates(CommitHead(d, lh, v))[i]
  {
    hide CommitReady, Recoverable, RecoveryState, CommitHead, CommitStates, RecoveryStates;
    assert CommitStates(d, lh, v)[|lh| + 1 + i] == CommitState(d, lh, v, |lh| + 1 + i);
  }

  /** From its header write on, a commit goes through the states of a recovery. */
  lemma CommitEndsAsRecovery(a: Area, d0: seq<Block>, ws: seq<BlockWrite>, us: seq<BlockWrite>, base: nat,
                             d: Disk, lh: seq<nat>, v: Contents, j: nat)
    requires CommitReady(d, lh, v) && Traces(a, d0, ws, base, CommitStates(d, lh, v), |lh| + 1)
    requires ws <= us && Traces(a, d0, us, |ws|, RecoveryStates(CommitHead(d, lh, v)), j)
    ensures |lh| + 1 + j <= CommitWrites(lh)
    ensures Traces(a, d0, us, base, CommitStates(d, lh, v), |lh| + 1 + j)
  {
    hide Traces, CommitReady, Recoverable, CommitStates, RecoveryStates, Continues;
    TraceBound(a, d0, us, |ws|, RecoveryStates(CommitHead(d, lh, v)), j);
    CommitContinues(d, lh, v, j);
    TraceJoin(a, d0, ws, us, base, CommitStates(d, lh, v), |lh| + 1, RecoveryStates(CommitHead(d, lh, v)), j);
  }

  lemma IndexOfFirst(lh: seq<nat>, x: nat, i: nat)
    requires i <= |lh| && (i < |lh| ==> lh[i] == x) && forall j :: 0 <= j < i ==> lh[j] != x
    ensures IndexOf(lh, x) == i
  {
  }

  lemma UnpinOneMore(pins: set<nat>, lh: seq<nat>, k: nat)
    requires k < |lh|
    ensures pins - Elements(lh[..k]) - {lh[k]} == pins - Elements(lh[..k + 1])
  {
    assert lh[..k + 1] == lh[..k] + [lh[k]];
  }

  lemma NoneUnpinned(pins: set<nat>, lh: seq<nat>)
    ensures pins - Elements(lh[..0]) == pins
  {
  }

  lemma AllUnpinned(lh: seq<nat>)
    ensures Elements(lh) - Elements(lh) == {}
  {
  }

  /** A cache of `n` buffers with these blocks pinned has room to install the list: a buffer for the
      log's copy and, unless the first home block is cached, one for that. */
  ghost predicate Installable(pins: set<nat>, lh: seq<nat>, n: nat) {
    lh == [] || |pins| + (if lh[0] in pins then 1 else 2) <= n
  }

  lemma PinnedInstallable(pins: set<nat>, lh: seq<nat>, n: nat)
    requires Elements(lh) <= pins && |pins| < n
    ensures Installable(pins, lh, n)
  {
  }

  /** After the first round two buffers are free. */
  lemma InstallGoesOn(pins: set<nat>, lh: seq<nat>, k: nat, n: nat)
    requires 0 < k <= |lh| && Installable(pins, lh, n)
    ensures |pins - Elements(lh[..k])| + 2 <= n
  {
    assert lh[..k][0] == lh[0];
    if lh[0] in pins {
      Subset(pins - Elements(lh[..k]), pins - {lh[0]});
    } else {
      Subset(pins - Elements(lh[..k]), pins);
    }
  }

  /** Once the list is installed, the header block can be read if it could be before. */
  lemma Cleared(pins: set<nat>, lh: seq<nat>, n: nat)
    requires Installable(pins, lh, n)
    ensures |pins - Elements(lh)| < n <==> |pins| < n
    ensures lh != [] ==> |pins| < n
  {
    assert lh[..|lh|] == lh;
    if lh == [] {
      assert pins - Elements(lh) == pins;
    } else {
      InstallGoesOn(pins, lh, |lh|, n);
    }
  }

  lemma Subset(a: set<nat>, b: set<nat>)
    requires a <= b
    ensures |a| <= |b|
  {
    assert b == a + (b - a);
  }

  /** Readers of a block that is neither pinned nor in use see the disk. */
  lemma UnpinnedShowsDisk(bufs: seq<Buf>, n: nat, disk: seq<Block>, y: nat)
    requires Coherent(bufs, n, disk) && y < |disk| && y !in Pinned(bufs, n)
    requires forall i :: 0 <= i < n ==> !bufs[i].locked
    ensures View(bufs, n, disk, y) == disk[y]
  {
  }

  class Log {
    const bc: Bcache
    const area: Area
    var n: nat
    var block: seq<nat>
    var outstanding: nat
    var committing: bool

    /** lh.block[0..n): the blocks of the transaction being built. */
    ghost function Lh(): seq<nat>
      reads this
      requires n <= |block|
    {
      block[..n]
    }

    /** The cache is sound and the list names distinct home blocks the log has room for. */
    ghost predicate Sound()
      reads this, bc
    {
      && bc.Valid() && area.Fits(bc.disk)
      && |block| == LOGSIZE && n <= LOGSIZE && n + 1 <= area.size
      && Distinct(Lh()) && forall i :: 0 <= i < n ==> area.Home(block[i], |bc.disk|)
    }

    /** Nobody is using a buffer. */
    ghost predicate Idle()
      reads bc
    {
      |bc.bufs| == bc.n + 1 && forall i :: 0 <= i < bc.n ==> !bc.bufs[i].locked && bc.bufs[i].refcnt == 0
    }

    /** Not all buffers are pinned. */
    ghost predicate Spare()
      reads bc
    {
      bc.n <= |bc.bufs| && |Pinned(bc.bufs, bc.n)| < bc.n
    }

    /** `v` is what readers of home blocks see. */
    ghost predicate Sees(v: Contents)
      reads bc
      requires bc.Valid()
    {
      && (forall b :: b in v <==> area.Home(b, |bc.disk|))
      && (forall b :: b in v ==> bc.Shows(b) == v[b])
    }

    constructor (bc: Bcache, area: Area)
      requires bc.Valid() && area.Fits(bc.disk)
      ensures this.bc == bc && this.area == area
      ensures Sound() && n == 0 && outstanding == 0 && !committing
    {
      this.bc := bc;
      this.area := area;
      n := 0;
      block := seq(LOGSIZE, i => 0);
      outstanding := 0;
      committing := false;
    }

    lemma ValidFacts()
      requires bc.Valid()
      ensures bc.disk == Written(bc.disk0, bc.writes) && |bc.bufs| == bc.n + 1 && Coherent(bc.bufs, bc.n, bc.disk)
    {
    }

    /** Readers of a block that is neither pinned nor in use see the disk. */
    lemma UnpinnedShows(y: nat)
      requires bc.Valid() && Idle() && y < |bc.disk| && y !in Pinned(bc.bufs, bc.n)
      ensures bc.Shows(y) == bc.disk[y]
    {
      UnpinnedShowsDisk(bc.bufs, bc.n, bc.disk, y);
    }

    /** Only these two buffers are in use, once each. */
    ghost predicate OnlyHeld(s: nat, d: nat)
      reads bc
    {
      && |bc.bufs| == bc.n + 1 && s < bc.n && d < bc.n && bc.bufs[s].refcnt == 1 && bc.bufs[d].refcnt == 1
      && forall i :: 0 <= i < bc.n && i != s && i != d ==> !bc.bufs[i].locked && bc.bufs[i].refcnt == 0
    }

    /** A pinned block stays in the cache while another is read. */
    lemma PinnedStays(bufs: seq<Buf>, x: nat, y: nat, s: nat)
      requires bc.Valid() && bc.n <= |bufs| && y in Pinned(bufs, bc.n) && x != y && Coherent(bufs, bc.n, bc.disk)
      requires forall i :: 0 <= i < bc.n && i != s ==> bc.bufs[i] == bufs[i]
      requires s < bc.n && (Caches(bufs[s], ROOTDEV, x) || Unused(bufs[s]))
      ensures Readable(bc.bufs, bc.n, y)
    {
      var i :| 0 <= i < bc.n && bufs[i].dirty && bufs[i].blockno == y;
      assert i != s && Caches(bc.bufs[i], ROOTDEV, y);
    }

    /** With two buffers to spare there is one left while one is held. */
    lemma OneLeft(y: nat, s: nat)
      requires bc.Valid() && s < bc.n && |Pinned(bc.bufs, bc.n)| + 2 <= bc.n
      requires forall i :: 0 <= i < bc.n && i != s ==> bc.bufs[i].refcnt == 0
      ensures Readable(bc.bufs, bc.n, y)
    {
      if forall i :: 0 <= i < bc.n && i != s ==> bc.bufs[i].dirty {
        PinnedBut(bc.bufs, bc.n, bc.disk, bc.n, s);
      } else {
        var i :| 0 <= i < bc.n && i != s && !bc.bufs[i].dirty;
        assert Unused(bc.bufs[i]);
      }
    }

    /** With one buffer to spare there is none left, and every other cached block is pinned. */
    lemma NoneLeft(x: nat, y: nat, s: nat)
      requires bc.Valid() && bc.Holds(s, x) && x != y && x !in Pinned(bc.bufs, bc.n) && y !in Pinned(bc.bufs, bc.n)
      requires bc.n <= |Pinned(bc.bufs, bc.n)| + 1
      ensures !Readable(bc.bufs, bc.n, y)
    {
      PinnedApart(bc.bufs, bc.n, bc.disk, bc.n, s);
      forall i | 0 <= i < bc.n ensures !Caches(bc.bufs[i], ROOTDEV, y) && !Unused(bc.bufs[i]) {
        if i != s { assert bc.bufs[i].blockno in Pinned(bc.bufs, bc.n); }
      }
    }

    /** bread of one block, with no buffer in use. */
    method ReadOne(x: nat) returns (b: nat, ok: bool)
      requires bc.Valid() && Idle() && x < |bc.disk|
      modifies bc`bufs
      ensures bc.Valid() && |bc.bufs| == bc.n + 1 && (ok <==> Readable(old(bc.bufs), bc.n, x))
      ensures !ok ==> bc.bufs == old(bc.bufs)
      ensures ok ==> bc.Holds(b, x) && OnlyHeld(b, b) && bc.bufs[b].data == bc.Shows(x)
      ensures ok ==> (bc.bufs[b].dirty || bc.bufs[b].data == bc.disk[x])
      ensures ok ==> (Caches(old(bc.bufs)[b], ROOTDEV, x) || Unused(old(bc.bufs)[b]))
      ensures ok ==> forall i :: 0 <= i < bc.n && i != b ==> bc.bufs[i] == old(bc.bufs)[i]
      ensures forall z :: 0 <= z < |bc.disk| ==> bc.Shows(z) == old(bc.Shows(z))
      ensures Pinned(bc.bufs, bc.n) == Pinned(old(bc.bufs), bc.n)
    {
      hide Pinned, View;
      var r := bc.Bread(x);
      if r.NoBuffer? {
        return 0, false;
      }
      return r.b, true;
    }

    /** bread of two blocks, with no buffer in use. */
    method ReadBoth(x: nat, y: nat) returns (s: nat, d: nat, ok: bool)
      requires bc.Valid() && Idle() && x < |bc.disk| && y < |bc.disk| && x != y
      modifies bc`bufs
      ensures bc.Valid()
      ensures y in Pinned(old(bc.bufs), bc.n) ==> (ok <==> Readable(old(bc.bufs), bc.n, x))
      ensures x !in Pinned(old(bc.bufs), bc.n) ==>
                (ok <==> |Pinned(old(bc.bufs), bc.n)| + (if y in Pinned(old(bc.bufs), bc.n) then 1 else 2) <= bc.n)
      ensures ok ==> s != d && bc.Holds(s, x) && bc.Holds(d, y) && OnlyHeld(s, d)
      ensures ok ==> bc.bufs[s].data == bc.Shows(x) && bc.bufs[d].data == bc.Shows(y)
      ensures ok ==> (bc.bufs[s].dirty || bc.bufs[s].data == bc.disk[x])
      ensures ok ==> (bc.bufs[d].dirty || bc.bufs[d].data == bc.disk[y])
      ensures forall z :: 0 <= z < |bc.disk| ==> bc.Shows(z) == old(bc.Shows(z))
      ensures Pinned(bc.bufs, bc.n) == Pinned(old(bc.bufs), bc.n)
    {
      hide Bcache.Valid, Coherent, Pinned, View, Readable;
      d := 0;
      if x !in Pinned(bc.bufs, bc.n) { SpareIff(x); }
      ghost var t := bc.bufs;
      ValidFacts();
      s, ok := ReadOne(x);
      if !ok { return; }
      SecondReads(t, x, y, s);
      d, ok := ReadNext(s, x, y);
    }

    /** When a second block can be read while the first is held. */
    lemma SecondReads(t: seq<Buf>, x: nat, y: nat, s: nat)
      requires bc.Valid() && bc.Holds(s, x) && OnlyHeld(s, s) && x != y
      requires |t| == bc.n + 1 && Coherent(t, bc.n, bc.disk) && Pinned(t, bc.n) == Pinned(bc.bufs, bc.n)
      requires Caches(t[s], ROOTDEV, x) || Unused(t[s])
      requires forall i :: 0 <= i < bc.n && i != s ==> bc.bufs[i] == t[i]
      ensures y in Pinned(t, bc.n) ==> Readable(bc.bufs, bc.n, y)
      ensures |Pinned(t, bc.n)| + 2 <= bc.n ==> Readable(bc.bufs, bc.n, y)
      ensures x !in Pinned(t, bc.n) && y !in Pinned(t, bc.n) && bc.n <= |Pinned(t, bc.n)| + 1 ==>
                !Readable(bc.bufs, bc.n, y)
    {
      if y in Pinned(t, bc.n) {
        PinnedStays(t, x, y, s);
      } else if |Pinned(bc.bufs, bc.n)| + 2 <= bc.n {
        OneLeft(y, s);
      } else if x !in Pinned(t, bc.n) {
        NoneLeft(x, y, s);
      }
    }

    /** bread of a second block. */
    method ReadNext(s: nat, ghost x: nat, y: nat) returns (d: nat, ok: bool)
      requires bc.Valid() && bc.Holds(s, x) && OnlyHeld(s, s) && y < |bc.disk| && x != y
      modifies bc`bufs
      ensures bc.Valid() && (ok <==> Readable(old(bc.bufs), bc.n, y)) && |bc.bufs| == bc.n + 1
              && bc.bufs[s] == old(bc.bufs)[s]
      ensures ok ==> s != d && bc.Holds(d, y) && OnlyHeld(s, d)
      ensures ok ==> bc.bufs[d].data == bc.Shows(y) && (bc.bufs[d].dirty || bc.bufs[d].data == bc.disk[y])
      ensures forall z :: 0 <= z < |bc.disk| ==> bc.Shows(z) == old(bc.Shows(z))
      ensures Pinned(bc.bufs, bc.n) == Pinned(old(bc.bufs), bc.n)
    {
      hide Pinned, View;
      var r := bc.Bread(y);
      if r.NoBuffer? { return 0, false; }
      return r.b, true;
    }

    /** A block that is not pinned can be read exactly when there is a buffer to spare. */
    lemma SpareIff(x: nat)
      requires bc.Valid() && Idle() && x !in Pinned(bc.bufs, bc.n)
      ensures Readable(bc.bufs, bc.n, x) <==> Spare()
    {
      ReadableIff(bc.bufs, bc.n, bc.disk, x);
    }

    /** memmove into a held buffer and bwrite of it. */
    method WriteOver(d: nat, data: Block)
      requires bc.Valid() && d < bc.n && bc.Holds(d, bc.bufs[d].blockno)
      modifies bc
      ensures bc.Valid()
      ensures bc.bufs == old(bc.bufs)[d := old(bc.bufs)[d].(data := data, dirty := false)]
      ensures bc.disk == old(bc.disk)[bc.bufs[d].blockno := data]
      ensures bc.writes == old(bc.writes) + [BlockWrite(bc.bufs[d].blockno, data)]
      ensures forall z :: 0 <= z < |bc.disk| ==>
                bc.Shows(z) == if z == bc.bufs[d].blockno then data else old(bc.Shows(z))
      ensures Pinned(bc.bufs, bc.n) == Pinned(old(bc.bufs), bc.n) - {bc.bufs[d].blockno}
    {
      bc.Fill(d, data);
      bc.Bwrite(d);
    }

    method ReleaseBoth(s: nat, d: nat, ghost x: nat, ghost y: nat)
      requires bc.Valid() && bc.Holds(s, x) && bc.Holds(d, y) && x != y && OnlyHeld(s, d)
      requires bc.bufs[s].dirty || bc.bufs[s].data == bc.disk[x]
      requires bc.bufs[d].dirty || bc.bufs[d].data == bc.disk[y]
      modifies bc
      ensures bc.Valid() && bc.disk == old(bc.disk) && Idle() && bc.writes == old(bc.writes)
      ensures forall z :: 0 <= z < |bc.disk| ==> bc.Shows(z) == old(bc.Shows(z))
      ensures Pinned(bc.bufs, bc.n) == Pinned(old(bc.bufs), bc.n)
    {
      bc.Brelse(s);
      bc.Brelse(d);
    }

    /** The body of write_log's loop: the target is read first. */
    method CopyToLog(src: nat, dst: nat) returns (ok: bool)
      requires bc.Valid() && Idle() && src < |bc.disk| && dst < |bc.disk| && src != dst
      modifies bc
      ensures bc.Valid() && |bc.disk| == old(|bc.disk|)
      ensures ok ==> Idle() && bc.writes == old(bc.writes) + [BlockWrite(dst, old(bc.Shows(src)))]
      ensures !ok ==> bc.writes == old(bc.writes)
      ensures forall z :: 0 <= z < |bc.disk| ==>
                bc.Shows(z) == if ok && z == dst then old(bc.Shows(src)) else old(bc.Shows(z))
      ensures Pinned(bc.bufs, bc.n) == Pinned(old(bc.bufs), bc.n) - (if ok then {dst} else {})
      ensures src in Pinned(old(bc.bufs), bc.n) ==> (ok <==> Readable(old(bc.bufs), bc.n, dst))
    {
      hide Bcache.Valid, Pinned, View;
      var d, s;
      d, s, ok := ReadBoth(dst, src);
      if ok {
        WriteOver(d, bc.bufs[s].data);
        ReleaseBoth(s, d, src, dst);
      }
    }

    /** The body of install_trans's loop: the source is read first. */
    method CopyHome(src: nat, dst: nat) returns (ok: bool)
      requires bc.Valid() && Idle() && src < |bc.disk| && dst < |bc.disk| && src != dst
      modifies bc
      ensures bc.Valid() && |bc.disk| == old(|bc.disk|)
      ensures ok ==> Idle() && bc.writes == old(bc.writes) + [BlockWrite(dst, old(bc.Shows(src)))]
      ensures !ok ==> bc.writes == old(bc.writes)
      ensures forall z :: 0 <= z < |bc.disk| ==>
                bc.Shows(z) == if ok && z == dst then old(bc.Shows(src)) else old(bc.Shows(z))
      ensures Pinned(bc.bufs, bc.n) == Pinned(old(bc.bufs), bc.n) - (if ok then {dst} else {})
      ensures src !in Pinned(old(bc.bufs), bc.n) ==>
                (ok <==> |Pinned(old(bc.bufs), bc.n)| + (if dst in Pinned(old(bc.bufs), bc.n) then 1 else 2) <= bc.n)
    {
      hide Bcache.Valid, Pinned, View;
      var s, d;
      s, d, ok := ReadBoth(src, dst);
      if ok {
        WriteOver(d, bc.bufs[s].data);
        ReleaseBoth(s, d, src, dst);
      }
    }

    /** Between commits: exactly the listed blocks are pinned, and the log on disk is empty. */
    ghost predicate Quiet()
      reads this, bc
    {
      && Sound() && Pinned(bc.bufs, bc.n) == Elements(Lh())
      && Formatted(area, bc.disk) && Parse(area, bc.disk).header == []
    }

    lemma QuietFacts()
      requires Quiet()
      ensures bc.Valid() && Formatted(area, bc.disk) && n <= |block| && (Spare() <==> n < bc.n)
    {
      DistinctCount(Lh());
    }

    /** One round of write_log. */
    method WriteLogOne(tail: nat, ghost v: Contents) returns (ok: bool)
      requires Quiet() && Idle() && Sees(v) && tail < n && block[tail] in v
      modifies bc
      ensures bc.Valid() && |bc.disk| == old(|bc.disk|)
      ensures !ok ==> bc.writes == old(bc.writes)
      ensures ok <==> old(Spare())
      ensures ok ==> Quiet() && Idle() && Sees(v)
      ensures ok ==> bc.writes == old(bc.writes) + [BlockWrite(area.LogAt(tail), v[block[tail]])]
      ensures ok ==> Parse(area, bc.disk)
                     == old(Parse(area, bc.disk)).(log := old(Parse(area, bc.disk)).log[tail := v[block[tail]]])
    {
      hide Bcache.Valid, Pinned, Written, Parse, View, Readable;
      ValidFacts();
      SpareIff(area.LogAt(tail));
      ok := CopyToLog(block[tail], area.LogAt(tail));
      ValidFacts();
      if ok {
        WrittenOne(bc.disk0, old(bc.writes), BlockWrite(area.LogAt(tail), v[block[tail]]));
        ParseLogWrite(area, old(bc.disk), tail, v[block[tail]]);
      }
    }

    /** Copy the listed blocks from the cache to the log.  The disk goes through the first
        states of a commit; `k` is how far it got, all the way unless it panics. */
    method WriteLog(ghost d: Disk, ghost lh: seq<nat>, ghost v: Contents) returns (ok: bool, ghost k: nat)
      requires Quiet() && Idle() && Sees(v) && lh == Lh() && d == Parse(area, bc.disk) && CommitReady(d, lh, v)
      modifies bc
      ensures bc.Valid() && |bc.disk| == old(|bc.disk|) && old(bc.writes) <= bc.writes
      ensures k <= |lh| && Traces(area, bc.disk0, bc.writes, |old(bc.writes)|, CommitStates(d, lh, v), k)
      ensures ok <==> lh == [] || |lh| < bc.n
      ensures !ok ==> k == 0
      ensures ok ==> k == |lh| && Quiet() && Idle() && Sees(v)
    {
      hide Bcache.Valid, Quiet, Idle, Sees, Spare, Parse, Formatted, Traces, Written, Appended, CommitStates;
      QuietFacts();
      ValidFacts();
      var tail := 0;
      ghost var ds, base := CommitStates(d, lh, v), |bc.writes|;
      AppendNone(d, lh, v);
      TraceStart(area, bc.disk0, bc.writes, ds);
      k := 0;
      while tail < n
        invariant 0 <= tail <= n == |lh| <= |block| && k == tail && bc.Valid() && Formatted(area, bc.disk)
        invariant tail > 0 ==> n < bc.n
        invariant Quiet() && Idle() && Sees(v) && |bc.disk| == old(|bc.disk|) && old(bc.writes) <= bc.writes
        invariant Parse(area, bc.disk) == Appended(d, lh, v, tail)
        invariant Traces(area, bc.disk0, bc.writes, base, ds, tail)
      {
        assert block[tail] == lh[tail];
        ghost var ws := bc.writes;
        QuietFacts();
        ok := WriteLogOne(tail, v);
        if !ok { return; }
        QuietFacts();
        ValidFacts();
        LogMachine.AppendOne(d, lh, v, tail);
        TraceStep(area, bc.disk0, ws, BlockWrite(area.LogAt(tail), v[lh[tail]]), base, ds, tail);
        tail := tail + 1;
        k := tail;
      }
      ok := true;
    }

    /** No block of the log is pinned. */
    ghost predicate LogUnpinned()
      reads bc
    {
      bc.n <= |bc.bufs| && forall b :: b in Pinned(bc.bufs, bc.n) ==> area.Home(b, |bc.disk|)
    }

    /** One round of install_trans. */
    method InstallOne(tail: nat, ghost d: Disk) returns (ok: bool)
      requires Sound() && Idle() && Formatted(area, bc.disk) && LogUnpinned() && tail < n
      requires d == Parse(area, bc.disk)
      modifies bc
      ensures bc.Valid() && |bc.disk| == old(|bc.disk|)
      ensures !ok ==> bc.writes == old(bc.writes)
      ensures ok ==> Sound() && Idle() && Formatted(area, bc.disk) && LogUnpinned()
      ensures ok ==> Pinned(bc.bufs, bc.n) == Pinned(old(bc.bufs), bc.n) - {block[tail]}
      ensures ok ==> bc.writes == old(bc.writes) + [BlockWrite(block[tail], d.log[tail])]
      ensures ok ==> Parse(area, bc.disk) == d.(home := d.home[block[tail] := d.log[tail]])
      ensures ok <==> var pins := Pinned(old(bc.bufs), bc.n);
                      |pins| + (if block[tail] in pins then 1 else 2) <= bc.n
    {
      UnpinnedShows(area.LogAt(tail));
      ghost var x := d.log[tail];
      assert x == bc.disk[area.LogAt(tail)];
      ok := CopyHome(area.LogAt(tail), block[tail]);
      if ok {
        WrittenOne(bc.disk0, old(bc.writes), BlockWrite(block[tail], x));
        ParseHomeWrite(area, old(bc.disk), block[tail], x);
      }
    }

    /** Copy the listed blocks from the log to their homes: the first states of a recovery.  Only the first
        round can panic, so nothing has been written then. */
    method InstallTrans(ghost d: Disk) returns (ok: bool, ghost k: nat)
      requires Sound() && Idle() && Formatted(area, bc.disk) && LogUnpinned()
      requires d == Parse(area, bc.disk) && d.header == Lh() && Recoverable(d)
      modifies bc
      ensures bc.Valid() && |bc.disk| == old(|bc.disk|) && old(bc.writes) <= bc.writes
      ensures k <= |d.header| && Traces(area, bc.disk0, bc.writes, |old(bc.writes)|, RecoveryStates(d), k)
      ensures ok ==> k == |d.header| && Sound() && Idle() && Formatted(area, bc.disk) && LogUnpinned()
      ensures ok ==> Parse(area, bc.disk) == RecoveryState(d, k)
      ensures ok ==> Pinned(bc.bufs, bc.n) == Pinned(old(bc.bufs), bc.n) - Elements(d.header)
      ensures ok <==> Installable(Pinned(old(bc.bufs), bc.n), d.header, bc.n)
      ensures (!ok ==> k == 0) && (k == 0 ==> bc.writes == old(bc.writes))
    {
      hide Bcache.Valid, Pinned, Elements, Parse, Formatted, Traces, Written, Installed, RecoveryStates;
      ValidFacts();
      NoneUnpinned(Pinned(bc.bufs, bc.n), d.header);
      var tail := 0;
      ghost var lh, ds, base, pins := d.header, RecoveryStates(d), |bc.writes|, Pinned(bc.bufs, bc.n);
      InstallNone(d, lh);
      TraceStart(area, bc.disk0, bc.writes, ds);
      k := 0;
      while tail < n
        invariant 0 <= tail <= n == |lh| && k == tail && (tail == 0 ==> bc.writes == old(bc.writes))
        invariant tail > 0 ==> Installable(pins, lh, bc.n)
        invariant Sound() && Idle() && Formatted(area, bc.disk) && LogUnpinned()
        invariant |bc.disk| == old(|bc.disk|) && old(bc.writes) <= bc.writes
        invariant Parse(area, bc.disk) == Installed(d, lh, tail)
        invariant Traces(area, bc.disk0, bc.writes, base, ds, tail)
        invariant Pinned(bc.bufs, bc.n) == pins - Elements(lh[..tail])
      {
        assert block[tail] == lh[tail];
        ghost var ws := bc.writes;
        if tail > 0 { InstallGoesOn(pins, lh, tail, bc.n); }
        ok := InstallOne(tail, Installed(d, lh, tail));
        if !ok { return; }
        ValidFacts();
        LogDisk.InstallOne(d, lh, tail);
        TraceStep(area, bc.disk0, ws, BlockWrite(lh[tail], d.log[tail]), base, ds, tail);
        UnpinOneMore(pins, lh, tail);
        tail := tail + 1;
        k := tail;
      }
      assert lh[..n] == lh;
      ok := true;
    }

    /** The loop of write_head: put the list into the words of the header block. */
    method PackHeader(h: Block) returns (r: Block)
      requires |block| == LOGSIZE && n <= LOGSIZE && LOGSIZE + 1 <= |h|
      ensures r == Header(h, Lh())
    {
      r := h[0 := n];
      var i := 0;
      while i < n
        invariant 0 <= i <= n
        invariant r == [n] + block[..i] + h[1 + i..]
      {
        r := r[1 + i := block[i]];
        i := i + 1;
      }
    }

    /** memmove into the one held buffer, bwrite, brelse. */
    method WriteAndRelease(b: nat, data: Block)
      requires bc.Valid() && b < bc.n && bc.Holds(b, bc.bufs[b].blockno) && OnlyHeld(b, b)
      modifies bc
      ensures bc.Valid() && |bc.disk| == old(|bc.disk|) && Idle()
      ensures bc.writes == old(bc.writes) + [BlockWrite(old(bc.bufs)[b].blockno, data)]
      ensures forall z :: 0 <= z < |bc.disk| ==>
                bc.Shows(z) == if z == old(bc.bufs)[b].blockno then data else old(bc.Shows(z))
      ensures Pinned(bc.bufs, bc.n) == Pinned(old(bc.bufs), bc.n) - {old(bc.bufs)[b].blockno}
    {
      WriteOver(b, data);
      bc.Brelse(b);
    }

    /** Write the list to the header block. */
    method WriteHead() returns (ok: bool, ghost w: BlockWrite)
      requires Sound() && Idle() && Formatted(area, bc.disk) && LogUnpinned()
      modifies bc
      ensures bc.Valid() && |bc.disk| == old(|bc.disk|)
      ensures !ok ==> bc.writes == old(bc.writes)
      ensures ok ==> Sound() && Idle() && Formatted(area, bc.disk) && LogUnpinned()
      ensures ok ==> bc.writes == old(bc.writes) + [w]
      ensures ok ==> Parse(area, bc.disk) == old(Parse(area, bc.disk)).(header := Lh())
      ensures ok ==> Pinned(bc.bufs, bc.n) == Pinned(old(bc.bufs), bc.n)
      ensures ok ==> forall b :: area.Home(b, |bc.disk|) ==> bc.Shows(b) == old(bc.Shows(b))
      ensures ok <==> old(Spare())
    {
      hide Bcache.Valid, Pinned, Written, Parse, View, Readable;
      ValidFacts();
      UnpinnedShows(area.start);
      SpareIff(area.start);
      ghost var h := bc.disk[area.start];
      w := BlockWrite(area.start, Header(h, Lh()));
      var b;
      b, ok := ReadOne(area.start);
      if ok {
        ValidFacts();
        var h' := PackHeader(bc.bufs[b].data);
        WriteAndRelease(b, h');
        ValidFacts();
        WrittenOne(bc.disk0, old(bc.writes), w);
        ParseHeadWrite(area, old(bc.disk), Lh());
      }
    }

    /** What Quiet means for the disk: a commit may start. */
    lemma QuietReady(d: Disk, lh: seq<nat>, v: Contents)
      requires Quiet() && Idle() && Sees(v) && lh == Lh() && d == Parse(area, bc.disk)
      ensures CommitReady(d, lh, v) && LogUnpinned()
    {
      forall b | b in v && IndexOf(lh, b) == |lh| ensures v[b] == d.home[b] {
        UnpinnedShowsDisk(bc.bufs, bc.n, bc.disk, b);
      }
      assert v.Keys == d.home.Keys;
    }

    /** With nothing pinned and an empty list, in memory and on disk. */
    lemma NowQuiet()
      requires Sound() && n == 0 && Formatted(area, bc.disk) && Parse(area, bc.disk).header == []
      requires Pinned(bc.bufs, bc.n) == {}
      ensures Quiet()
    {
      assert Elements(Lh()) == {};
    }

    /** With nothing pinned or in use, readers see the disk. */
    lemma UnpinnedSees(v: Contents)
      requires Sound() && Idle() && Formatted(area, bc.disk) && Pinned(bc.bufs, bc.n) == {}
      requires v == Parse(area, bc.disk).home
      ensures Sees(v)
    {
      forall b | b in v ensures bc.Shows(b) == v[b] { UnpinnedShowsDisk(bc.bufs, bc.n, bc.disk, b); }
    }

    /** The end of commit and of recovery: install_trans, lh.n = 0, write_head. */
    method InstallAndClear(ghost d: Disk) returns (ok: bool, ghost k: nat)
      requires Sound() && Idle() && Formatted(area, bc.disk) && LogUnpinned()
      requires d == Parse(area, bc.disk) && d.header == Lh() && Recoverable(d)
      modifies this`n, bc
      ensures bc.Valid() && |bc.disk| == old(|bc.disk|) && old(bc.writes) <= bc.writes
      ensures k <= RecoveryWrites(d) && Traces(area, bc.disk0, bc.writes, |old(bc.writes)|, RecoveryStates(d), k)
      ensures ok ==> k == RecoveryWrites(d) && n == 0 && Sound() && Idle() && Formatted(area, bc.disk)
      ensures ok ==> Parse(area, bc.disk) == RecoveryState(d, k)
      ensures ok ==> Pinned(bc.bufs, bc.n) == Pinned(old(bc.bufs), bc.n) - Elements(d.header)
      ensures ok <==> old(Spare()) && Installable(Pinned(old(bc.bufs), bc.n), d.header, bc.n)
      ensures !ok ==> k == 0 && bc.writes == old(bc.writes)
    {
      hide Bcache.Valid, Pinned, Elements, Parse, Formatted, Traces, Written, Recoverable, Installable,
           RecoveryState, RecoveryStates, LogUnpinned;
      LastState(d);
      ok, k := InstallTrans(d);
      if !ok { return; }
      Cleared(Pinned(old(bc.bufs), bc.n), d.header, bc.n);
      n := 0;
      ghost var ws, w := bc.writes, BlockWrite(0, []);
      ok, w := WriteHead();
      if !ok { return; }
      ValidFacts();
      TraceStep(area, bc.disk0, ws, w, |old(bc.writes)|, RecoveryStates(d), k);
      k := k + 1;
    }

    /** Write the transaction to the log, commit it by writing the header, install it, and
        erase it.  The disk goes through the states of LogDisk's commit, one block write
        after the other; `k` is how far it got: all the way, or nowhere when it panics. */
    method Commit(ghost d: Disk, ghost lh: seq<nat>, ghost v: Contents) returns (ok: bool, ghost k: nat)
      requires Quiet() && Idle() && Sees(v) && lh == Lh() && d == Parse(area, bc.disk)
      modifies this`n, bc
      ensures bc.Valid() && |bc.disk| == old(|bc.disk|) && CommitReady(d, lh, v)
      ensures lh == [] ==> ok && bc.writes == old(bc.writes)
      ensures lh != [] ==> k <= CommitWrites(lh)
                           && Traces(area, bc.disk0, bc.writes, |old(bc.writes)|, CommitStates(d, lh, v), k)
      ensures lh != [] ==> k == if ok then CommitWrites(lh) else 0
      ensures ok <==> lh == [] || |lh| < bc.n
      ensures ok ==> n == 0 && Quiet() && Idle() && Sees(v)
    {
      QuietReady(d, lh, v);
      ok, k := true, 0;
      if n > 0 {
        ok, k := WriteLog(d, lh, v);
        if !ok { return; }
        CommitTraced(d, lh, v, |old(bc.writes)|, k);
        QuietReady(Appended(d, lh, v, |lh|), lh, v);
        ok, k := CommitTail(d, lh, v, |old(bc.writes)|);
      }
    }

    lemma CommitTraced(d: Disk, lh: seq<nat>, v: Contents, base: nat, k: nat)
      requires bc.Valid() && CommitReady(d, lh, v) && k <= |lh|
      requires Traces(area, bc.disk0, bc.writes, base, CommitStates(d, lh, v), k)
      ensures Formatted(area, bc.disk) && Parse(area, bc.disk) == Appended(d, lh, v, k)
    {
      assert StateAt(area, bc.disk0, bc.writes, base + k, CommitStates(d, lh, v)[k]);
      assert bc.writes[..base + k] == bc.writes;
    }

    /** The header write, the commit point. */
    method CommitHeader(ghost d: Disk, ghost lh: seq<nat>, ghost v: Contents, ghost base: nat) returns (ok: bool)
      requires Quiet() && Idle() && lh == Lh() && LogUnpinned() && CommitReady(d, lh, v)
      requires Parse(area, bc.disk) == Appended(d, lh, v, |lh|)
      requires Traces(area, bc.disk0, bc.writes, base, CommitStates(d, lh, v), |lh|)
      modifies bc
      ensures bc.Valid() && |bc.disk| == old(|bc.disk|) && bc.n <= |bc.bufs| && (ok <==> |lh| < bc.n)
      ensures !ok ==> bc.writes == old(bc.writes)
      ensures ok ==> Sound() && Idle() && Formatted(area, bc.disk) && LogUnpinned()
      ensures ok ==> Pinned(bc.bufs, bc.n) == Elements(lh) && |Elements(lh)| == |lh|
      ensures ok ==> Recoverable(CommitHead(d, lh, v)) && Parse(area, bc.disk) == CommitHead(d, lh, v)
      ensures ok ==> Traces(area, bc.disk0, bc.writes, base, CommitStates(d, lh, v), |lh| + 1)
    {
      hide Bcache.Valid, Pinned, Elements, Parse, Formatted, Traces, Written, Recoverable, Recovered, CommitReady,
           Appended,
           RecoveryState, CommitStates, Distinct;
      QuietFacts();
      ghost var ws, w := bc.writes, BlockWrite(0, []);
      ok, w := WriteHead();
      ValidFacts();
      if !ok { return; }
      CommitHeadState(d, lh, v);
      DistinctCount(lh);
      TraceStep(area, bc.disk0, ws, w, base, CommitStates(d, lh, v), |lh|);
    }

    /** commit from the header write on. */
    method CommitTail(ghost d: Disk, ghost lh: seq<nat>, ghost v: Contents, ghost base: nat)
      returns (ok: bool, ghost k: nat)
      requires Quiet() && Idle() && lh == Lh() && LogUnpinned() && CommitReady(d, lh, v)
      requires Parse(area, bc.disk) == Appended(d, lh, v, |lh|)
      requires Traces(area, bc.disk0, bc.writes, base, CommitStates(d, lh, v), |lh|)
      modifies this`n, bc
      ensures bc.Valid() && |bc.disk| == old(|bc.disk|)
      ensures k <= CommitWrites(lh) && Traces(area, bc.disk0, bc.writes, base, CommitStates(d, lh, v), k)
      ensures ok <==> |lh| < bc.n
      ensures ok ==> k == CommitWrites(lh) && n == 0 && Quiet() && Idle() && Sees(v)
    {
      hide Bcache.Valid, Pinned, Elements, Parse, Formatted, Traces, Written, Recoverable, Recovered, CommitReady,
           Appended,
           RecoveryState, RecoveryStates, CommitStates, Sees, Distinct, Installable, LogUnpinned;
      k := |lh|;
      ok := CommitHeader(d, lh, v, base);
      if !ok { return; }
      ghost var ws, j := bc.writes, 0;
      PinnedInstallable(Pinned(bc.bufs, bc.n), lh, bc.n);
      ok, j := InstallAndClear(CommitHead(d, lh, v));
      CommitEndsAsRecovery(area, bc.disk0, ws, bc.writes, base, d, lh, v, j);
      k := k + 1 + j;
      CommitAtomic(d, lh, v, k);
      AllUnpinned(lh);
      NowQuiet();
      UnpinnedSees(v);
    }

    /** The loop of read_head: take the list from the words of the header block. */
    method UnpackHeader(h: Block)
      requires |block| == LOGSIZE && HeaderShape(h)
      modifies this`n, this`block
      ensures |block| == LOGSIZE && n <= LOGSIZE && Lh() == Listed(h)
    {
      n := h[0];
      var i := 0;
      while i < n
        invariant 0 <= i <= n == h[0] && |block| == LOGSIZE
        invariant block[..i] == h[1..1 + i]
      {
        assert h[1..1 + (i + 1)] == h[1..1 + i] + [h[1 + i]];
        block := block[i := h[1 + i]];
        assert block[..i + 1] == block[..i] + [block[i]];
        i := i + 1;
      }
    }

    /** Read the list from the header block. */
    method ReadHead(ghost d: Disk) returns (ok: bool)
      requires bc.Valid() && Idle() && Formatted(area, bc.disk) && Pinned(bc.bufs, bc.n) == {} && |block| == LOGSIZE
      requires d == Parse(area, bc.disk) && Recoverable(d)
      modifies this`n, this`block, bc
      ensures bc.Valid() && bc.disk == old(bc.disk) && bc.writes == old(bc.writes)
      ensures ok <==> 1 <= bc.n
      ensures ok ==> Sound() && Idle() && Lh() == d.header && Pinned(bc.bufs, bc.n) == {}
    {
      UnpinnedShows(area.start);
      SpareIff(area.start);
      var b;
      b, ok := ReadOne(area.start);
      if ok {
        UnpackHeader(bc.bufs[b].data);
        bc.Brelse(b);
        forall i | 0 <= i < n ensures area.Home(block[i], |bc.disk|) { assert block[i] == d.header[i]; }
      }
    }

    /** Recovery at boot, over a cache that holds nothing yet.  The disk goes through the
        states of LogDisk's recovery, and when it is done readers see what it recovers. */
    method RecoverFromLog(ghost d: Disk) returns (ok: bool, ghost k: nat)
      requires bc.Valid() && Idle() && Formatted(area, bc.disk) && Pinned(bc.bufs, bc.n) == {} && |block| == LOGSIZE
      requires d == Parse(area, bc.disk) && Recoverable(d)
      modifies this`n, this`block, bc
      ensures bc.Valid() && |bc.disk| == old(|bc.disk|)
      ensures k <= RecoveryWrites(d) && Traces(area, bc.disk0, bc.writes, |old(bc.writes)|, RecoveryStates(d), k)
      ensures ok <==> 2 <= bc.n || (bc.n == 1 && d.header == [])
      ensures !ok ==> k == 0
      ensures ok ==> k == RecoveryWrites(d) && n == 0 && Quiet() && Idle() && Sees(Recovered(d))
    {
      k := 0;
      InstallNone(d, d.header);
      TraceStart(area, bc.disk0, bc.writes, RecoveryStates(d));
      hide Bcache.Valid, Parse, Formatted, Traces, Written, Recoverable, Recovered, RecoveryState;
      ok := ReadHead(d);
      if !ok { return; }
      ok, k := InstallAndClear(d);
      if !ok { return; }
      RecoveryStateKeepsRecovered(d, k);
      NowQuiet();
      UnpinnedSees(Recovered(d));
    }

    /** Record that the held buffer belongs to the transaction, and pin it.  `ok` is false
        where the source panics: no room for another entry, or no operation running. */
    method LogWrite(b: nat) returns (ok: bool)
      requires Quiet() && b < bc.n && bc.Holds(b, bc.bufs[b].blockno) && area.Home(bc.bufs[b].blockno, |bc.disk|)
      modifies this`n, this`block, bc
      ensures ok == (old(n) < LOGSIZE && old(n) + 1 < area.size && 1 <= outstanding)
      ensures bc.disk == old(bc.disk) && bc.writes == old(bc.writes)
      ensures Quiet() && forall y :: 0 <= y < |bc.disk| ==> bc.Shows(y) == old(bc.Shows(y))
      ensures bc.bufs == if ok then old(bc.bufs)[b := old(bc.bufs)[b].(dirty := true)] else old(bc.bufs)
      ensures Lh() == if ok then LogMachine.Logged(old(Lh()), old(bc.bufs)[b].blockno) else old(Lh())
    {
      hide Bcache.Valid, View, Parse, Formatted, Pinned;
      if n >= LOGSIZE || n + 1 >= area.size || outstanding < 1 {
        return false;
      }
      var x := bc.bufs[b].blockno;
      var i := FindEntry(x);
      ghost var lh := Lh();
      block := block[i := x];
      if i == n {
        n := n + 1;
      }
      assert Lh() == LogMachine.Logged(lh, x);
      assert Elements(Lh()) == Elements(lh) + {x};
      bc.Pin(b);
      ok := true;
    }

    /** When a home block can be read between commits. */
    lemma HomeReadable(b: nat)
      requires Quiet() && Idle()
      ensures Readable(bc.bufs, bc.n, b) <==> b in Lh() || n < bc.n
    {
      QuietFacts();
      if b in Lh() {
        assert b in Pinned(bc.bufs, bc.n);
        var i :| 0 <= i < bc.n && bc.bufs[i].dirty && bc.bufs[i].blockno == b;
        assert Caches(bc.bufs[i], ROOTDEV, b);
      } else {
        assert b !in Pinned(bc.bufs, bc.n);
        SpareIff(b);
      }
    }

    /** What an operation does to a block: bread, a change, log_write, brelse.  It panics exactly when
        there is no buffer or no room in the list; otherwise readers see the change and nothing else. */
    method Update(b: nat, data: Block, ghost v: Contents) returns (ok: bool)
      requires Quiet() && Idle() && Sees(v) && b in v && 1 <= outstanding
      modifies this`n, this`block, bc
      ensures ok <==> old(n) < LOGSIZE && old(n) + 1 < area.size && (b in old(Lh()) || old(n) < bc.n)
      ensures bc.disk == old(bc.disk) && bc.writes == old(bc.writes)
      ensures ok ==> Quiet() && Idle() && Sees(v[b := data]) && Lh() == LogMachine.Logged(old(Lh()), b)
    {
      hide Bcache.Valid, Coherent, View, Parse, Formatted, Pinned, Readable, Distinct;
      HomeReadable(b);
      var x;
      x, ok := ReadOne(b);
      if !ok { return; }
      ok := UpdateHeld(x, b, data, v);
    }

    /** The change to the held buffer, log_write and brelse. */
    method UpdateHeld(x: nat, ghost b: nat, data: Block, ghost v: Contents) returns (ok: bool)
      requires Quiet() && OnlyHeld(x, x) && bc.Holds(x, b) && Sees(v) && b in v && 1 <= outstanding
      modifies this`n, this`block, bc
      ensures ok <==> old(n) < LOGSIZE && old(n) + 1 < area.size
      ensures bc.disk == old(bc.disk) && bc.writes == old(bc.writes)
      ensures ok ==> Quiet() && Idle() && Sees(v[b := data]) && Lh() == LogMachine.Logged(old(Lh()), b)
    {
      hide Bcache.Valid, Coherent, View, Parse, Formatted, Pinned, Distinct, Elements;
      bc.Fill(x, data);
      SeesChange(v, b, data);
      ok := LogWrite(x);
      if ok { ReleaseHeld(x, v[b := data]); }
    }

    /** The one held buffer, pinned, is given up. */
    method ReleaseHeld(x: nat, ghost v: Contents)
      requires Quiet() && OnlyHeld(x, x) && bc.bufs[x].dirty && bc.Holds(x, bc.bufs[x].blockno) && Sees(v)
      modifies bc
      ensures bc.disk == old(bc.disk) && bc.writes == old(bc.writes)
      ensures Quiet() && Idle() && Sees(v)
    {
      hide Bcache.Valid, Coherent, View, Parse, Formatted, Pinned, Distinct, Elements, Lh;
      bc.Brelse(x);
      ValidFacts();
    }

    lemma SeesChange(v: Contents, b: nat, data: Block)
      requires bc.Valid() && b in v && (forall y :: y in v <==> area.Home(y, |bc.disk|))
      requires forall y :: y in v ==> y < |bc.disk| && bc.Shows(y) == if y == b then data else v[y]
      ensures Sees(v[b := data])
    {
    }

    /** The search of log_write. */
    method FindEntry(x: nat) returns (i: nat)
      requires n <= |block|
      ensures i == IndexOf(Lh(), x)
    {
      i := 0;
      while i < n
        invariant 0 <= i <= n
        invariant forall j :: 0 <= j < i ==> block[j] != x
      {
        if block[i] == x { break; }
        i := i + 1;
      }
      IndexOfFirst(Lh(), x, i);
    }

    /** One look at the log by begin_op; if it may not enter, the caller sleeps and looks
        again. */
    method BeginOp() returns (entered: bool)
      modifies this`outstanding
      ensures entered == (!committing && n + (old(outstanding) + 1) * LogMachine.MAXOPBLOCKS <= LOGSIZE)
      ensures outstanding == old(outstanding) + if entered then 1 else 0
    {
      if committing {
        entered := false;
      } else if n + (outstanding + 1) * LogMachine.MAXOPBLOCKS > LOGSIZE {
        entered := false;
      } else {
        outstanding := outstanding + 1;
        entered := true;
      }
    }

    /** The last operation to end commits; what readers see does not change.  `ok` is false
        where the source panics, in commit or because a commit is under way already. */
    method EndOp(ghost d: Disk, ghost lh: seq<nat>, ghost v: Contents) returns (ok: bool, ghost k: nat)
      requires Quiet() && Idle() && Sees(v) && lh == Lh() && d == Parse(area, bc.disk)
      requires 1 <= outstanding
      modifies this`n, this`outstanding, this`committing, bc
      ensures bc.Valid() && outstanding == old(outstanding) - 1
      ensures old(committing) ==> !ok && bc.writes == old(bc.writes)
      ensures ok <==> !old(committing) && (old(outstanding) > 1 || lh == [] || |lh| < bc.n)
      ensures !old(committing) && (old(outstanding) > 1 || lh == []) ==> bc.writes == old(bc.writes)
      ensures !old(committing) && old(outstanding) == 1 && lh != [] ==>
                && CommitReady(d, lh, v) && k == (if ok then CommitWrites(lh) else 0)
                && Traces(area, bc.disk0, bc.writes, |old(bc.writes)|, CommitStates(d, lh, v), k)
      ensures ok ==> !committing && Quiet() && Idle() && Sees(v) && n == if outstanding == 0 then 0 else old(n)
    {
      hide Bcache.Valid, Pinned, Elements, Parse, Formatted, Traces, Written, CommitReady, CommitStates, Sees, Distinct;
      outstanding := outstanding - 1;
      if committing {
        return false, 0;
      }
      ok, k := true, 0;
      if outstanding == 0 {
        committing := true;
        ok, k := Commit(d, lh, v);
        if ok { committing := false; }
      }
    }
  }
}
