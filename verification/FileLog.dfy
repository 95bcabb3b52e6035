/** A chunk of filewrite as a transaction of the log: the blocks that writei changes go through log_write,
    and what a crash at any point brings back is the file system before the chunk or after it. */
module FileLog {
  import opened Arith
  import opened BlockTree
  import opened InodeCode
  import opened FileBytes
  import opened OpLog
  import opened OpBudget
  import opened FileCode
  import LogDisk
  import LogMachine
  import LogCode
  import LogRun

  type Home = LogDisk.Contents
  type Sys = LogMachine.Sys

  /** Where the superblock says that inodes and bitmap begin, and the inodes in a block. */
  datatype Layout = Layout(inodestart: nat, bmapstart: nat, ipb: nat)

  // ---- the file system in blocks -------------------------------------------------------------

  /** A data or index block, in words. */
  function DataBlock(g: Geometry, b: Block): LogDisk.Block
    requires |b| == 4 * g.n
  {
    seq(g.n, k requires 0 <= k < g.n => Word(b, k))
  }

  /** The bits of `m` blocks from `b` on, as a number. */
  function BitWord(used: seq<bool>, b: nat, m: nat): nat
    decreases m
  {
    if m == 0 then 0 else (if b < |used| && used[b] then 1 else 0) + 2 * BitWord(used, b + 1, m - 1)
  }

  /** Block `k` of the bitmap. */
  function BitmapBlock(g: Geometry, used: seq<bool>, k: nat): LogDisk.Block {
    seq(g.n, j requires 0 <= j < g.n => BitWord(used, BitsPerBlock(g) * k + 32 * j, 32))
  }

  /** Word `j` of an inode; the first two hold type, device numbers and link count. */
  function InodeWord(x: Inode, j: nat): nat {
    if j < 2 then 0 else if j == 2 then x.size else if j - 3 < |x.addrs| then x.addrs[j - 3] else 0
  }

  /** Block `k` of the inodes. */
  function InodeBlock(ipb: nat, ns: seq<Inode>, k: nat): LogDisk.Block {
    seq(16 * ipb, j requires 0 <= j < 16 * ipb =>
      if ipb * k + j / 16 < |ns| then InodeWord(ns[ipb * k + j / 16], j % 16) else 0)
  }

  /** A block of the file system from the inodes on. */
  function BlockImage(l: Layout, g: Geometry, start: nat, d: Stored, b: nat): LogDisk.Block
    requires l.inodestart <= b && Sized(g.n, d.disk)
  {
    if start <= b then (if b < |d.disk| then DataBlock(g, d.disk[b]) else [])
    else if l.bmapstart <= b then BitmapBlock(g, d.used, b - l.bmapstart)
    else InodeBlock(l.ipb, d.dinodes, b - l.inodestart)
  }

  /** All home blocks; boot block and superblock are as in `base`. */
  ghost function Image(l: Layout, g: Geometry, start: nat, d: Stored, base: Home): (c: Home)
    requires Sized(g.n, d.disk)
    ensures c.Keys == base.Keys
  {
    map b | b in base :: if b < l.inodestart then base[b] else BlockImage(l, g, start, d, b)
  }

  /** The blocks behind what an operation has given to log_write. */
  function LogBlocks(l: Layout, m: Logged): set<nat>
    requires 0 < l.ipb
  {
    m.blocks + Shifted(l.bmapstart, m.bits) + InodeBlocks(l, m.inodes)
  }

  function Shifted(a: nat, s: set<nat>): set<nat> { set k | k in s :: Shift(a, k) }

  function Shift(a: nat, k: nat): nat { a + k }

  function InodeBlocks(l: Layout, s: set<nat>): set<nat>
    requires 0 < l.ipb
  {
    set i | i in s :: l.inodestart + InodeAt(l.ipb, i)
  }

  /** IBLOCK, from the first inode block. */
  function InodeAt(ipb: nat, i: nat): nat
    requires 0 < ipb
  {
    DivNonNegative(i, ipb);
    i / ipb
  }

  // ---- only logged blocks change ----------------------------------------------------------------

  lemma {:induction false} BitWordSame(used: seq<bool>, used': seq<bool>, b: nat, m: nat)
    requires |used| == |used'| && forall c :: b <= c < b + m && c < |used| ==> used[c] == used'[c]
    ensures BitWord(used, b, m) == BitWord(used', b, m)
    decreases m
  {
    if m > 0 { BitWordSame(used, used', b + 1, m - 1); }
  }

  /** The bits of word `j` of bitmap block `k`, whose first bit is `base`. */
  lemma BitInWord(g: Geometry, k: nat, base: nat, j: nat, c: nat)
    requires 0 < g.n && base == BitsPerBlock(g) * k && j < g.n && base + 32 * j <= c < base + 32 * j + 32
    ensures BitBlock(g, c) == k
  {
    assert c - base < 32 * g.n == BitsPerBlock(g);
    DivModUnique(c, BitsPerBlock(g), k, c - base);
  }

  lemma BitmapWordSame(g: Geometry, used: seq<bool>, used': seq<bool>, k: nat, base: nat, j: nat)
    requires 0 < g.n && base == BitsPerBlock(g) * k && j < g.n && |used| == |used'|
    requires forall c :: 0 <= c < |used| && BitBlock(g, c) == k ==> used[c] == used'[c]
    ensures BitWord(used, base + 32 * j, 32) == BitWord(used', base + 32 * j, 32)
  {
    hide BitBlock, BitsPerBlock, BitWord;
    forall c: nat | base + 32 * j <= c < base + 32 * j + 32 && c < |used| ensures used[c] == used'[c] {
      BitInWord(g, k, base, j, c);
    }
    BitWordSame(used, used', base + 32 * j, 32);
  }

  lemma BitmapSame(g: Geometry, used: seq<bool>, used': seq<bool>, k: nat)
    requires 0 < g.n && |used| == |used'|
    requires forall c :: 0 <= c < |used| && BitBlock(g, c) == k ==> used[c] == used'[c]
    ensures BitmapBlock(g, used, k) == BitmapBlock(g, used', k)
  {
    hide BitBlock, BitsPerBlock, BitWord;
    var base := BitsPerBlock(g) * k;
    forall j | 0 <= j < g.n ensures BitWord(used, base + 32 * j, 32) == BitWord(used', base + 32 * j, 32) {
      BitmapWordSame(g, used, used', k, base, j);
    }
  }

  lemma InodesSame(ipb: nat, ns: seq<Inode>, ns': seq<Inode>, k: nat)
    requires 0 < ipb && |ns| == |ns'|
    requires forall i :: 0 <= i < |ns| && InodeAt(ipb, i) == k ==> ns[i] == ns'[i]
    ensures InodeBlock(ipb, ns, k) == InodeBlock(ipb, ns', k)
  {
    forall j | 0 <= j < 16 * ipb && ipb * k + j / 16 < |ns| ensures ns[ipb * k + j / 16] == ns'[ipb * k + j / 16] {
      DivModUnique(ipb * k + j / 16, ipb, k, j / 16);
    }
  }

  lemma OnlyLogged(l: Layout, g: Geometry, start: nat, s: Stored, t: Stored, m: Logged, b: nat)
    requires 0 < g.n && 0 < l.ipb && Sized(g.n, s.disk) && Sized(g.n, t.disk) && Covered(g, s, Nothing, t, m)
    requires l.inodestart <= b && b !in LogBlocks(l, m)
    ensures BlockImage(l, g, start, t, b) == BlockImage(l, g, start, s, b)
  {
    hide DataBlock, BitmapBlock, InodeBlock;
    if start <= b {
    } else if l.bmapstart <= b {
      var k := b - l.bmapstart;
      assert Shift(l.bmapstart, k) == b;
      BitmapSame(g, s.used, t.used, k);
    } else {
      var k := b - l.inodestart;
      forall i | 0 <= i < |s.dinodes| && InodeAt(l.ipb, i) == k ensures s.dinodes[i] == t.dinodes[i] {
        assert i !in m.inodes;
      }
      InodesSame(l.ipb, s.dinodes, t.dinodes, k);
    }
  }

  /** `v` with the blocks `done` replaced. */
  ghost function Updated(v: Home, done: set<nat>, l: Layout, g: Geometry, start: nat, d: Stored): (c: Home)
    requires Sized(g.n, d.disk)
    ensures c.Keys == v.Keys
  {
    map b | b in v :: if b in done && l.inodestart <= b then BlockImage(l, g, start, d, b) else v[b]
  }

  /** Once all of them are replaced, readers see the new file system. */
  lemma AllUpdated(l: Layout, g: Geometry, start: nat, s: Stored, t: Stored, m: Logged, base: Home)
    requires 0 < g.n && 0 < l.ipb && Sized(g.n, s.disk) && Sized(g.n, t.disk) && Covered(g, s, Nothing, t, m)
    ensures Updated(Image(l, g, start, s, base), LogBlocks(l, m), l, g, start, t) == Image(l, g, start, t, base)
  {
    hide BlockImage, Covered, LogBlocks;
    var v, w := Image(l, g, start, s, base), Image(l, g, start, t, base);
    forall b | b in base ensures Updated(v, LogBlocks(l, m), l, g, start, t)[b] == w[b] {
      if l.inodestart <= b && b !in LogBlocks(l, m) { OnlyLogged(l, g, start, s, t, m, b); }
    }
  }

  lemma UpdatedNone(v: Home, l: Layout, g: Geometry, start: nat, d: Stored)
    requires Sized(g.n, d.disk)
    ensures Updated(v, {}, l, g, start, d) == v
  {
  }

  lemma UpdatedOne(v: Home, done: set<nat>, l: Layout, g: Geometry, start: nat, d: Stored, b: nat)
    requires Sized(g.n, d.disk) && b in v && l.inodestart <= b
    ensures Updated(v, done + {b}, l, g, start, d) ==
              Updated(v, done, l, g, start, d)[b := BlockImage(l, g, start, d, b)]
  {
    hide BlockImage;
  }

  // ---- how many, and where ------------------------------------------------------------------------

  lemma {:induction false} ShiftedCount(a: nat, s: set<nat>)
    ensures |Shifted(a, s)| <= |s|
    decreases |s|
  {
    if s != {} {
      var x :| x in s;
      ShiftedCount(a, s - {x});
      assert Shifted(a, s) == Shifted(a, s - {x}) + {Shift(a, x)};
    }
  }

  lemma {:induction false} InodeBlocksCount(l: Layout, s: set<nat>)
    requires 0 < l.ipb
    ensures |InodeBlocks(l, s)| <= |s|
    decreases |s|
  {
    if s != {} {
      var x :| x in s;
      InodeBlocksCount(l, s - {x});
      assert InodeBlocks(l, s) == InodeBlocks(l, s - {x}) + {l.inodestart + InodeAt(l.ipb, x)};
    }
  }

  lemma BlocksCount(l: Layout, m: Logged)
    requires 0 < l.ipb
    ensures |LogBlocks(l, m)| <= m.Count()
  {
    hide Shifted, InodeBlocks;
    ShiftedCount(l.bmapstart, m.bits);
    InodeBlocksCount(l, m.inodes);
    var bits := Shifted(l.bmapstart, m.bits);
    SubsetCount(m.blocks + bits, m.blocks, bits);
    SubsetCount(LogBlocks(l, m), m.blocks + bits, InodeBlocks(l, m.inodes));
  }

  /** mkfs's order: the log, the inodes, the bitmap, the data; everything from the inodes on is home. */
  ghost predicate Placed(l: Layout, g: Geometry, start: nat, size: nat, ninodes: nat, base: Home)
    requires 0 < g.n
  {
    && 0 < l.ipb && l.inodestart <= l.bmapstart && l.bmapstart + Bitmaps(g, size) <= start <= size
    && (forall i: nat :: i < ninodes ==> l.inodestart + InodeAt(l.ipb, i) < l.bmapstart)
    && (forall b :: l.inodestart <= b < size ==> b in base)
  }

  /** The blocks, bitmap blocks and inodes that a log names are on the disk. */
  ghost predicate InBounds(g: Geometry, start: nat, size: nat, ninodes: nat, m: Logged)
    requires 0 < g.n
  {
    && (forall b :: b in m.blocks ==> start <= b < size) && (forall k :: k in m.bits ==> k < Bitmaps(g, size))
    && (forall i :: i in m.inodes ==> i < ninodes)
  }

  lemma BlocksHome(l: Layout, g: Geometry, start: nat, size: nat, ninodes: nat, base: Home, m: Logged)
    requires 0 < g.n && Placed(l, g, start, size, ninodes, base) && InBounds(g, start, size, ninodes, m)
    ensures forall b :: b in LogBlocks(l, m) ==> b in base && l.inodestart <= b
  {
    hide Bitmaps, InodeAt;
  }

  // ---- the transaction ------------------------------------------------------------------------------

  /** The list and the cache hold `n` blocks. */
  predicate Roomy(n: nat, nlog: nat, nbuf: nat) { n <= LogDisk.LOGSIZE && n <= nlog && n <= nbuf }

  function Least(a: nat, b: nat): nat { if a < b then a else b }

  lemma ListOne(lh: seq<nat>, b: nat)
    requires b !in lh
    ensures LogMachine.Logged(lh, b) == lh + [b]
    ensures LogDisk.Elements(lh + [b]) == LogDisk.Elements(lh) + {b}
  {
  }

  /** The machine after log_write of `done`, each with its new contents. */
  ghost predicate HasLogged(s: Sys, t: Sys, done: set<nat>, l: Layout, g: Geometry, start: nat, d: Stored)
    requires Sized(g.n, d.disk)
  {
    && t == s.(view := Updated(s.view, done, l, g, start, d), lh := t.lh)
    && |t.lh| == |done| && LogDisk.Elements(t.lh) == done
  }

  lemma HasLoggedOne(s: Sys, t: Sys, done: set<nat>, l: Layout, g: Geometry, start: nat, d: Stored, b: nat, u: Sys)
    requires Sized(g.n, d.disk) && HasLogged(s, t, done, l, g, start, d) && b in s.view && l.inodestart <= b
    requires b !in done
    requires u == LogMachine.NextLogWrite(t, b, BlockImage(l, g, start, d, b))
    ensures HasLogged(s, u, done + {b}, l, g, start, d)
  {
    hide BlockImage, Updated;
    assert b !in t.lh by { assert b !in LogDisk.Elements(t.lh); }
    ListOne(t.lh, b);
    UpdatedOne(s.view, done, l, g, start, d, b);
  }

  /** log_write of one more block. */
  method WriteOne(log: LogCode.Log, ghost op: nat, b: nat, d: Stored, l: Layout, g: Geometry, start: nat,
                  ghost s: Sys, ghost done: set<nat>, ghost t: Sys)
    returns (ok: bool, ghost u: Sys)
    requires LogRun.Matches(log, t) && op in s.active && Sized(g.n, d.disk) && HasLogged(s, t, done, l, g, start, d)
    requires b in s.view && l.inodestart <= b && b !in done && Roomy(|done|, |s.disk.log|, log.bc.n)
    modifies log`n, log`block, log.bc
    ensures log.bc.disk == old(log.bc.disk)
    ensures ok <==> Roomy(|done| + 1, |s.disk.log|, log.bc.n)
    ensures ok ==> LogRun.Matches(log, u) && HasLogged(s, u, done + {b}, l, g, start, d)
  {
    hide LogRun.Matches, Updated, BlockImage, Sized, LogMachine.Logged, LogMachine.Inv;
    assert b !in t.lh by { assert b !in LogDisk.Elements(t.lh); }
    ok, u := LogRun.Write(log, op, b, BlockImage(l, g, start, d, b), t);
    if ok { HasLoggedOne(s, t, done, l, g, start, d, b, u); }
  }

  lemma HasLoggedNone(s: Sys, l: Layout, g: Geometry, start: nat, d: Stored)
    requires Sized(g.n, d.disk) && s.lh == []
    ensures HasLogged(s, s, {}, l, g, start, d)
  {
    hide BlockImage, Updated;
    UpdatedNone(s.view, l, g, start, d);
  }

  lemma OneFewer(blocks: set<nat>, todo: set<nat>, done: set<nat>, b: nat)
    requires b in todo && todo <= blocks && done == blocks - todo
    ensures done + {b} == blocks - (todo - {b}) && |todo - {b}| == |todo| - 1 && |done + {b}| == |done| + 1
  {
  }

  /** log_write of at most `k` of the blocks, each with its new contents. */
  method WriteBlocks(log: LogCode.Log, ghost op: nat, blocks: set<nat>, k: nat, d: Stored,
                     l: Layout, g: Geometry, start: nat, ghost s: Sys)
    returns (ok: bool, ghost done: set<nat>, ghost t: Sys)
    requires LogRun.Matches(log, s) && op in s.active && s.lh == [] && Sized(g.n, d.disk)
    requires forall b :: b in blocks ==> b in s.view && l.inodestart <= b
    modifies log`n, log`block, log.bc
    ensures log.bc.disk == old(log.bc.disk)
    ensures ok <==> Roomy(Least(k, |blocks|), |s.disk.log|, log.bc.n)
    ensures ok ==> done <= blocks && |done| == Least(k, |blocks|) && (|blocks| <= k ==> done == blocks)
    ensures ok ==> LogRun.Matches(log, t) && HasLogged(s, t, done, l, g, start, d)
  {
    hide LogRun.Matches, HasLogged, BlockImage, Sized;
    done, t, ok := {}, s, true;
    HasLoggedNone(s, l, g, start, d);
    var todo, i := blocks, 0;
    while todo != {} && i < k
      invariant ok && todo <= blocks && done == blocks - todo && |todo| + i == |blocks| && |done| == i <= k
      invariant LogRun.Matches(log, t) && HasLogged(s, t, done, l, g, start, d) && log.bc.disk == old(log.bc.disk)
      invariant Roomy(i, |s.disk.log|, log.bc.n)
      decreases |todo|
    {
      var b :| b in todo;
      ghost var u;
      ok, u := WriteOne(log, op, b, d, l, g, start, s, done, t);
      if !ok { return; }
      OneFewer(blocks, todo, done, b);
      t, done, todo, i := u, done + {b}, todo - {b}, i + 1;
    }
    if todo == {} { assert done == blocks; }
  }

  lemma AtPlaces(fs: Fs)
    requires fs.Valid()
    ensures fs.g.Valid() && Ok(fs.g, fs.State()) && Sized(fs.g.n, fs.disk)
    ensures forall q :: q in fs.tree ==> fs.start <= fs.tree[q] < |fs.disk|
  {
    forall q | q in fs.tree ensures fs.start <= fs.tree[q] < |fs.disk| { assert fs.tree[q] in fs.owner; }
  }

  lemma ChunkInBounds(fs: Fs, i: nat, off: nat, n: nat, s: Tree, m: Logged, grows: bool)
    requires fs.Valid() && i < |fs.inodes| && ChunkLogs(fs.g, i, off, n, s, Nothing, fs.tree, m, grows)
    ensures InBounds(fs.g, fs.start, |fs.disk|, |fs.inodes|, m)
  {
    hide Place, BlockOf, TreeOk, Marks, Extends, Mapped, OnTheWay, Bitmaps;
    AtPlaces(fs);
    var k := Bitmaps(fs.g, |fs.disk|);
    BitmapsAtMost(fs.g, |fs.disk|, k);
    forall q | q in fs.tree ensures BitBlock(fs.g, fs.tree[q]) < k { DivLessIff(fs.tree[q], BitsPerBlock(fs.g), k); }
  }

  /** Where power is cut: not at all, after `k` calls of log_write, or after `j` block writes of end_op; then the
      recoveries that are cut after `cuts` writes. */
  datatype Cut = Uncut | CutWriting(k: nat, cuts: seq<nat>) | CutEnding(j: nat, cuts: seq<nat>)

  /** The kernel does not panic: the blocks that are logged find room, and there is a buffer to commit or to
      recover with. */
  predicate Survives(cut: Cut, n: nat, nlog: nat, nbuf: nat) {
    match cut
    case Uncut => Roomy(n, nlog, nbuf) && (n == 0 || n < nbuf)
    case CutWriting(k, _) => Roomy(Least(k, n), nlog, nbuf) && 1 <= nbuf
    case CutEnding(_, _) => Roomy(n, nlog, nbuf) && 1 <= nbuf
  }

  /** All changes are there afterwards: power was not cut, or after the header had been written. */
  predicate Whole(cut: Cut, n: nat, nbuf: nat) {
    match cut
    case Uncut => true
    case CutWriting(_, _) => false
    case CutEnding(j, _) => 0 < n < nbuf && n < j
  }

  /** begin_op, log_write of the blocks with their new contents, and end_op, with power cut or not: afterwards
      readers see and the disk stands for all of the changes or for none. */
  method Transact(log0: LogCode.Log, blocks: set<nat>, d: Stored, l: Layout, g: Geometry, start: nat, cut: Cut,
                  ghost s: Sys)
    returns (log: LogCode.Log, alive: bool, ghost t: Sys)
    requires LogRun.Matches(log0, s) && s.active == {} && s.lh == [] && Sized(g.n, d.disk)
    requires forall b :: b in blocks ==> b in s.view && l.inodestart <= b
    modifies log0, log0.bc
    ensures alive <==> Survives(cut, |blocks|, |s.disk.log|, log0.bc.n)
    ensures alive ==> LogRun.Matches(log, t) && t.active == {} && t.lh == []
    ensures alive ==> t.view == t.committed ==
                      if Whole(cut, |blocks|, log0.bc.n) then Updated(s.view, blocks, l, g, start, d) else s.view
  {
    hide LogRun.Matches, Updated, BlockImage, Sized, LogMachine.Inv, LogRun.CutAt;
    LogRun.MatchesFacts(log0, s);
    LogRun.NothingListed(s);
    var entered;
    ghost var u;
    entered, u := LogRun.Begin(log0, s);
    ghost var op, done := s.next, {};
    log := log0;
    alive, done, t := WriteBlocks(log, op, blocks, if cut.CutWriting? then cut.k else |blocks|, d, l, g, start, u);
    if !alive { return; }
    LogRun.MatchesFacts(log, t);
    ghost var acts;
    match cut {
      case Uncut =>
        alive, t := LogRun.End(log, op, t);
      case CutWriting(k, cuts) =>
        log, alive, acts, t := LogRun.Restart(log.area, log.bc.n, log.bc.disk, cuts, t);
      case CutEnding(j, cuts) =>
        ghost var was := t;
        log, alive, acts, t := LogRun.EndAndCut(log, op, j, cuts, t);
        if alive { CutWhole(was, op, j, log0.bc.n, acts, t); }
    }
  }

  lemma CutWhole(s: Sys, op: nat, j: nat, nbuf: nat, acts: seq<LogMachine.Action>, t: Sys)
    requires s.outstanding == 1 && LogRun.CutAt(s, op, LogRun.CutWrites(s, j, nbuf), acts, t)
    ensures LogRun.BackTo(if 0 < |s.lh| < nbuf && |s.lh| < j then s.view else s.committed, s.next, t)
  {
  }

  /** writei on the file system alone: what it changes on disk is what it logs. */
  method FileChunk(fs: Fs, i: nat, src: seq<Byte>, off: nat) returns (w: int, ok: bool)
    requires Files(fs) && i < |fs.inodes| && off < UINT && |src| < UINT && MaxBytes(fs.g) < UINT
    modifies fs
    ensures fs.Valid() && fs.g.n > 0 && |fs.disk| == |old(fs.disk)| && |fs.inodes| == |old(fs.inodes)|
    ensures Sized(fs.g.n, fs.disk) && Sized(fs.g.n, old(fs.disk))
    ensures !ok ==> fs.Full() || Beyond(fs.g, off, |src|)
    ensures ok ==> Files(fs) && Covered(fs.g, old(fs.OnDisk()), Nothing, fs.OnDisk(), fs.log)
    ensures ok ==> InBounds(fs.g, fs.start, |fs.disk|, |fs.inodes|, fs.log)
    ensures ok && 3 <= fs.g.n && |src| <= 3 * fs.g.BlockSize() ==> Budgeted(fs.g, |fs.disk|, fs.log)
    ensures ok && off <= old(fs.inodes)[i].size && off + |src| <= MaxBytes(fs.g) ==>
              w == |src| && Written(fs.g, i, off, src, old(fs.State()), fs.State())
  {
    hide TreeOk, Written, Has, ChunkLogs, Budgeted, Covered, Marks, InBounds;
    AtPlaces(fs);
    ghost var t := fs.State();
    fs.log := Nothing;
    w, ok := Writei(fs, i, src, off);
    AtPlaces(fs);
    if !ok { return; }
    NothingInBounds(fs);
    NothingBudgeted(fs.g, |fs.disk|);
    ghost var grows := Grows(off, |src|, t.inodes[i].size);
    if w >= 0 { ChunkInBounds(fs, i, off, |src|, t.tree, fs.log, grows); }
    if |src| == 0 {
      NothingWritten(fs.g, i, off, t.tree, fs.tree, fs.log, grows, w);
    } else if |src| <= 3 * fs.g.BlockSize() {
      TxnBudgeted(fs.g, i, off, |src|, t, fs.State(), fs.log, grows, w);
    }
  }

  lemma NothingInBounds(fs: Fs)
    requires fs.Valid()
    ensures InBounds(fs.g, fs.start, |fs.disk|, |fs.inodes|, Nothing)
  {
  }

  lemma NothingWritten(g: Geometry, i: nat, off: nat, s: Tree, t: Tree, m: Logged, grows: bool, w: int)
    requires g.Valid() && if w < 0 then m == Nothing else ChunkLogs(g, i, off, 0, s, Nothing, t, m, grows)
    ensures m == Nothing
  {
  }

  /** One transaction of filewrite over the log: begin_op, writei, end_op.  Afterwards, whether or not power was
      cut, and wherever it was, readers see and the disk stands for the file system before the chunk, or the one
      after it: the latter if power was not cut, the former if it was cut before end_op, and inside end_op the
      latter exactly if the header had been written.  A cache that holds the chunk's blocks and one more, and a
      log that holds them, is all it takes. */
  method Chunk(log0: LogCode.Log, fs: Fs, l: Layout, i: nat, src: seq<Byte>, off: nat, cut: Cut, ghost base: Home,
               ghost s: Sys)
    returns (log: LogCode.Log, w: int, ok: bool, alive: bool, ghost t: Sys)
    requires LogRun.Matches(log0, s) && s.active == {} && s.lh == []
    requires Files(fs) && i < |fs.inodes| && off < UINT && |src| < UINT && MaxBytes(fs.g) < UINT && 0 < fs.g.n
    requires Placed(l, fs.g, fs.start, |fs.disk|, |fs.inodes|, base)
    requires Sized(fs.g.n, fs.disk) && s.view == Image(l, fs.g, fs.start, fs.OnDisk(), base)
    modifies fs, log0, log0.bc
    ensures fs.Valid() && Sized(fs.g.n, fs.disk) && (!ok ==> fs.Full() || Beyond(fs.g, off, |src|))
    ensures ok && off <= old(fs.inodes)[i].size && off + |src| <= MaxBytes(fs.g) ==>
              w == |src| && Written(fs.g, i, off, src, old(fs.State()), fs.State())
    ensures ok && alive ==> Files(fs) && LogRun.Matches(log, t) && t.active == {} && t.lh == []
    ensures ok && alive ==>
              var whole := Whole(cut, |LogBlocks(l, fs.log)|, log0.bc.n);
              t.view == t.committed == Image(l, fs.g, fs.start, if whole then fs.OnDisk() else old(fs.OnDisk()), base)
    ensures ok ==> (alive <==> Survives(cut, |LogBlocks(l, fs.log)|, |s.disk.log|, log0.bc.n))
    ensures var most := 9 + Bitmaps(fs.g, |fs.disk|);
            (&& ok && 3 <= fs.g.n && |src| <= 3 * fs.g.BlockSize()
             && Roomy(most, |s.disk.log|, log0.bc.n) && most < log0.bc.n) ==> alive
  {
    hide LogRun.Matches, Image, Updated, BlockImage, TreeOk, Marks, Has, Covered, Placed, InBounds, LogBlocks, Budgeted,
         Written, MaxBytes, Beyond, Bitmaps, Files;
    log, alive, t := log0, true, s;
    ghost var d0 := fs.OnDisk();
    w, ok := FileChunk(fs, i, src, off);
    if !ok { return; }
    PlacedFacts(l, fs.g, fs.start, |fs.disk|, |fs.inodes|, base);
    BlocksHome(l, fs.g, fs.start, |fs.disk|, |fs.inodes|, base, fs.log);
    BudgetCount(l, fs.g, |fs.disk|, fs.log);
    AllUpdated(l, fs.g, fs.start, d0, fs.OnDisk(), fs.log, base);
    var blocks := LogBlocks(l, fs.log);
    log, alive, t := Transact(log0, blocks, Stored(fs.disk, fs.used, fs.dinodes), l, fs.g, fs.start, cut, s);
    assert blocks == {} <==> |blocks| == 0;
  }

  lemma PlacedFacts(l: Layout, g: Geometry, start: nat, size: nat, ninodes: nat, base: Home)
    requires 0 < g.n && Placed(l, g, start, size, ninodes, base)
    ensures 0 < l.ipb
  {
  }

  lemma BudgetCount(l: Layout, g: Geometry, size: nat, m: Logged)
    requires 0 < g.n && 0 < l.ipb
    ensures Budgeted(g, size, m) ==> |LogBlocks(l, m)| <= 9 + Bitmaps(g, size)
  {
    hide Bitmaps, LogBlocks;
    BlocksCount(l, m);
  }
}
