/** readi, writei and filewrite as code, and that they treat a file as a flat byte array. */
module FileCode {
  import opened Arith
  import opened BlockTree
  import opened InodeCode
  import opened FileBytes
  import opened OpLog
  import opened OpBudget

  /** MAXFILE, in bytes: what writei tests against. */
  function MaxBytes(g: Geometry): nat {
    (NDIRECT + g.n + g.n2 + g.n3) * g.BlockSize()
  }

  /** A write that reaches a byte bmap cannot map. */
  predicate Beyond(g: Geometry, off: nat, n: nat) { 0 < n && g.Limit() * g.BlockSize() < off + n }

  /** bmap's range falls short of MAXFILE, because it does not rebase the block number. */
  lemma ShortOfMaxfile(g: Geometry)
    requires g.Valid()
    ensures g.Limit() * g.BlockSize() + (g.n + g.n2) * g.BlockSize() == MaxBytes(g)
    ensures g.Limit() * g.BlockSize() < MaxBytes(g)
  {
    var short, b := g.n + g.n2, g.BlockSize();
    assert (g.Limit() + short) * b == g.Limit() * b + short * b;
    MulMono(b, 1, short);
  }

  lemma BeyondIff(g: Geometry, off: nat, n: nat)
    requires 0 < g.n
    ensures Beyond(g, off, n) <==> exists o: nat :: off <= o < off + n && BlockOf(g, o) >= g.Limit()
  {
    forall o: nat ensures BlockOf(g, o) < g.Limit() <==> o < g.Limit() * g.BlockSize() {
      DivLessIff(o, g.BlockSize(), g.Limit());
    }
    if Beyond(g, off, n) { assert BlockOf(g, off + n - 1) >= g.Limit(); }
  }

  /** Every byte below a file's size is mapped, and the inodes on disk are those in memory. */
  ghost predicate Files(fs: Fs)
    reads fs
  {
    && fs.Valid() && fs.dinodes == fs.inodes
    && forall i: nat, o: nat :: i < |fs.inodes| && o < fs.inodes[i].size ==> Has(fs.g, fs.State(), i, o)
  }

  ghost function Contents(fs: Fs, i: nat): seq<Byte>
    reads fs
    requires Files(fs) && i < |fs.inodes|
  {
    Bytes(fs.g, fs.State(), i, 0, fs.inodes[i].size)
  }

  /** A byte array with `src` written at `off`, longer if need be. */
  function Overwritten(c: seq<Byte>, off: nat, src: seq<Byte>): seq<Byte>
    requires off <= |c|
  {
    c[..off] + src + if off + |src| < |c| then c[off + |src|..] else []
  }

  /** memmove into a block. */
  method Splice(b: Block, r: nat, src: seq<Byte>, tot: nat, m: nat) returns (c: Block)
    requires r + m <= |b| && tot + m <= |src|
    ensures Spliced(b, r, src, tot, m, c)
  {
    c := b[..r] + src[tot..tot + m] + b[r + m..];
  }

  lemma GrewSizes(i: nat, s: Snap, t: Snap)
    requires Grew(i, s, t)
    ensures |s.inodes| == |t.inodes| && |s.disk| == |t.disk|
  {
  }

  /** Contents and sizes do not matter to it. */
  lemma FirstFitSame(start: nat, s: Snap, t: Snap, u: Snap)
    requires u.tree == t.tree && u.owner == t.owner
    ensures FirstFit(start, s, t) <==> FirstFit(start, s, u)
  {
  }

  /** One round of writei's loop. */
  method WriteRound(fs: Fs, i: nat, at: nat, src: seq<Byte>, n: nat, tot: nat, ghost off: nat, ghost s: Snap,
                    ghost l: Logged)
    returns (m: nat, ok: bool)
    requires fs.Valid() && i < |fs.inodes| && tot < n <= |src| && at == off + tot
    requires Ok(fs.g, s) && Wrote(fs.g, i, off, src, tot, s, fs.State())
    requires BlockOf(fs.g, at) <= fs.g.Limit() ==>
               WriteLogs(fs.g, i, BlockOf(fs.g, off), BlockOf(fs.g, at), s.tree, l, fs.tree, fs.log)
    modifies fs`disk, fs`used, fs`inodes, fs`tree, fs`owner, fs`log
    ensures fs.Valid() && |fs.inodes| == |old(fs.inodes)| && |fs.disk| == |old(fs.disk)|
    ensures ok ==> 0 < m <= n - tot && Wrote(fs.g, i, off, src, tot + m, s, fs.State())
    ensures ok ==> WriteLogs(fs.g, i, BlockOf(fs.g, off), BlockOf(fs.g, at) + 1, s.tree, l, fs.tree, fs.log)
    ensures ok ==> BlockOf(fs.g, at + m - 1) == BlockOf(fs.g, at)
    ensures ok && tot + m < n ==> BlockOf(fs.g, at + m) == BlockOf(fs.g, at) + 1
    ensures Covered(fs.g, old(fs.OnDisk()), old(fs.log), fs.OnDisk(), fs.log)
    ensures FirstFit(fs.start, s, old(fs.State())) ==> FirstFit(fs.start, s, fs.State())
    ensures !ok ==> BlockOf(fs.g, at) >= fs.g.Limit() || fs.Full()
  {
    hide BlockOf, OffsetIn, TreeOk, Grew, Wrote, Spliced, Place, Allots, WriteLogs, Covered, Marks, FirstFit;
    ghost var t, lt := fs.State(), fs.log;
    var addr;
    var bn := BlockOf(fs.g, at);
    addr, ok := fs.Bmap(i, bn);
    GrewSizes(i, t, fs.State());
    if FirstFit(fs.start, s, t) { FirstFitTrans(fs.start, i, s, t, fs.State()); }
    m := 0;
    if !ok { return; }
    ghost var u, lu, du := fs.State(), fs.log, fs.OnDisk();
    var r := OffsetIn(fs.g, at);
    m := if n - tot < fs.g.BlockSize() - r then n - tot else fs.g.BlockSize() - r;
    BlockLength(fs.g, u, Place(fs.g, i, bn));
    var c := Splice(fs.disk[addr], r, src, tot, m);
    CoveredBlock(fs.g, du, lu, addr, c);
    fs.disk := fs.disk[addr := c];
    fs.log := fs.log.(blocks := fs.log.blocks + {addr});
    CoveredTrans(fs.g, old(fs.OnDisk()), old(fs.log), du, lu, fs.OnDisk(), fs.log);
    ghost var v := fs.State();
    FirstFitSame(fs.start, s, u, v);
    RoundEnd(fs.g, at, m);
    WriteLogsMore(fs.g, i, BlockOf(fs.g, off), bn, s.tree, l, t.tree, lt, u.tree, lu, fs.log);
    SplicedLength(u.disk[addr], r, src, tot, m, c);
    DataWritten(fs.g, u, v, i, bn, c);
    WroteMore(fs.g, i, off, src, tot, m, s, t, u, v, c);
  }

  /** A round ends with the block, unless the bytes do. */
  lemma RoundEnd(g: Geometry, at: nat, m: nat)
    requires 0 < g.n && 0 < m && OffsetIn(g, at) + m <= g.BlockSize()
    ensures BlockOf(g, at + m - 1) == BlockOf(g, at)
    ensures OffsetIn(g, at) + m == g.BlockSize() ==> BlockOf(g, at + m) == BlockOf(g, at) + 1
  {
    SameBlock(g, at, m - 1);
    DivModIs(at, g.BlockSize());
    if OffsetIn(g, at) + m == g.BlockSize() {
      DivModUnique(at + m, g.BlockSize(), BlockOf(g, at) + 1, 0);
    }
  }

  lemma SplicedLength(b: Block, r: nat, src: seq<Byte>, tot: nat, m: nat, c: Block)
    requires Spliced(b, r, src, tot, m, c)
    ensures |c| == |b|
  {
  }

  /** The uint test `off + n < off`. */
  predicate Wraps(off: nat, n: nat) {
    (off + n) % UINT < off
  }

  lemma WrapsIff(off: nat, n: nat)
    requires off < UINT && n < UINT
    ensures Wraps(off, n) <==> off + n >= UINT
  {
  }

  lemma WroteNothing(g: Geometry, i: nat, off: nat, src: seq<Byte>, s: Snap)
    requires Ok(g, s)
    ensures Wrote(g, i, off, src, 0, s, s)
  {
  }

  /** When all bytes are written and the size is set, the file is the old byte array with
      the new bytes put in, and the other files are as they were. */
  lemma WroteAll(g: Geometry, i: nat, off: nat, src: seq<Byte>, s: Snap, t: Snap, size: nat, size': nat)
    requires Ok(g, s) && Ok(g, t) && Wrote(g, i, off, src, |src|, s, t) && i < |s.inodes|
    requires off <= size && (forall o :: 0 <= o < size ==> Has(g, s, i, o))
    requires size' == if off + |src| > size then off + |src| else size
    ensures forall o :: 0 <= o < size' ==> Has(g, t, i, o)
    ensures Bytes(g, t, i, 0, size') == Overwritten(Bytes(g, s, i, 0, size), off, src)
  {
    hide TreeOk, Has, ByteAt;
    var b := Bytes(g, s, i, 0, size);
    forall o: nat | o < size' ensures Has(g, t, i, o)
      ensures ByteAt(g, t, i, o) == Overwritten(b, off, src)[o]
    {
      if off <= o < off + |src| {
        assert Has(g, t, i, o) && ByteAt(g, t, i, o) == src[o - off];
      } else {
        assert Has(g, s, i, o) && b[o] == ByteAt(g, s, i, o);
      }
    }
  }

  lemma WroteOthers(g: Geometry, i: nat, off: nat, src: seq<Byte>, s: Snap, t: Snap, j: nat, size: nat)
    requires Ok(g, s) && Ok(g, t) && Wrote(g, i, off, src, |src|, s, t) && j < |s.inodes| && j != i
    requires forall o :: 0 <= o < size ==> Has(g, s, j, o)
    ensures forall o :: 0 <= o < size ==> Has(g, t, j, o)
    ensures Bytes(g, t, j, 0, size) == Bytes(g, s, j, 0, size)
  {
    hide TreeOk, Has, ByteAt;
  }

  /** Sizes do not matter to the trees. */
  lemma SizeSet(g: Geometry, s: Snap, t: Snap, i: nat, size: nat)
    requires Ok(g, s) && i < |s.inodes| && t == s.(inodes := s.inodes[i := s.inodes[i].(size := size)])
    ensures Ok(g, t)
    ensures forall j: nat, o: nat :: Has(g, s, j, o) ==> Has(g, t, j, o) && ByteAt(g, t, j, o) == ByteAt(g, s, j, o)
  {
    hide Place, BlockOf, OffsetIn;
  }

  lemma SizeSetBytes(g: Geometry, s: Snap, t: Snap, i: nat, size: nat, j: nat, len: nat)
    requires Ok(g, s) && i < |s.inodes| && t == s.(inodes := s.inodes[i := s.inodes[i].(size := size)])
    requires forall o :: 0 <= o < len ==> Has(g, s, j, o)
    ensures Ok(g, t) && (forall o :: 0 <= o < len ==> Has(g, t, j, o))
    ensures Bytes(g, t, j, 0, len) == Bytes(g, s, j, 0, len)
  {
    SizeSet(g, s, t, i, size);
    hide TreeOk, Has, ByteAt;
  }

  /** What writei leaves of the files, in terms of snapshots. */
  ghost predicate Written(g: Geometry, i: nat, off: nat, src: seq<Byte>, s: Snap, t: Snap)
    requires Ok(g, s) && Ok(g, t) && i < |s.inodes| && off <= s.inodes[i].size
  {
    && |s.inodes| == |t.inodes|
    && (forall j: nat, o: nat :: j < |t.inodes| && o < t.inodes[j].size ==> Has(g, t, j, o))
    && (forall j: nat, o: nat :: j < |s.inodes| && o < s.inodes[j].size ==> Has(g, s, j, o))
    && Bytes(g, t, i, 0, t.inodes[i].size) == Overwritten(Bytes(g, s, i, 0, s.inodes[i].size), off, src)
    && (forall j: nat :: j < |s.inodes| && j != i ==>
          t.inodes[j] == s.inodes[j] && Bytes(g, t, j, 0, t.inodes[j].size) == Bytes(g, s, j, 0, s.inodes[j].size))
  }

  lemma WroteThenSized(g: Geometry, i: nat, off: nat, src: seq<Byte>, s: Snap, t: Snap, u: Snap)
    requires Ok(g, s) && Ok(g, t) && Wrote(g, i, off, src, |src|, s, t) && i < |s.inodes| && off <= s.inodes[i].size
    requires forall j: nat, o: nat :: j < |s.inodes| && o < s.inodes[j].size ==> Has(g, s, j, o)
    requires var size := s.inodes[i].size;
             u == t.(inodes := t.inodes[i := t.inodes[i].(size := if off + |src| > size then off + |src| else size)])
    ensures Ok(g, u) && Written(g, i, off, src, s, u)
  {
    hide TreeOk, Has, ByteAt, Bytes, Overwritten;
    var size, end := s.inodes[i].size, off + |src|;
    var size' := if end > size then end else size;
    WroteAll(g, i, off, src, s, t, size, size');
    SizeSetBytes(g, t, u, i, size', i, size');
    forall j: nat | j < |s.inodes| && j != i
      ensures (forall o: nat :: o < s.inodes[j].size ==> Has(g, u, j, o))
      ensures u.inodes[j] == s.inodes[j] && Bytes(g, u, j, 0, u.inodes[j].size) == Bytes(g, s, j, 0, s.inodes[j].size)
    {
      WroteOthers(g, i, off, src, s, t, j, s.inodes[j].size);
      SizeSetBytes(g, t, u, i, size', j, s.inodes[j].size);
    }
  }

  /** Write `src` to file `i` at `off`.  The result is -1, and nothing changes, if `off` lies
      beyond the end or the end would lie beyond MAXFILE or wrap around; `ok` is false where
      bmap panics, which takes a byte bmap cannot map or a full disk. */
  method Writei(fs: Fs, i: nat, src: seq<Byte>, off: nat) returns (r: int, ok: bool)
    requires Files(fs) && i < |fs.inodes| && off < UINT && |src| < UINT && MaxBytes(fs.g) < UINT
    modifies fs
    ensures fs.Valid() && |fs.inodes| == |old(fs.inodes)| && |fs.disk| == |old(fs.disk)|
    ensures old(fs.inodes)[i].size < off || MaxBytes(fs.g) < off + |src| ==>
              ok && r == -1 && fs.State() == old(fs.State()) && Files(fs)
    ensures ok && off <= old(fs.inodes)[i].size && off + |src| <= MaxBytes(fs.g) ==>
              r == |src| && Files(fs) && Written(fs.g, i, off, src, old(fs.State()), fs.State())
    ensures !ok ==> fs.Full() || Beyond(fs.g, off, |src|)
    ensures Beyond(fs.g, off, |src|) && off <= old(fs.inodes)[i].size && off + |src| <= MaxBytes(fs.g) ==> !ok
    ensures ok && r >= 0 ==> !Beyond(fs.g, off, |src|)
    ensures ok && r >= 0 ==>
              ChunkLogs(fs.g, i, off, |src|, old(fs.tree), old(fs.log), fs.tree, fs.log,
                  Grows(off, |src|, old(fs.inodes)[i].size))
    ensures ok && r < 0 ==> fs.log == old(fs.log) && fs.OnDisk() == old(fs.OnDisk())
    ensures ok ==> fs.g.n > 0 && Covered(fs.g, old(fs.OnDisk()), old(fs.log), fs.OnDisk(), fs.log)
    ensures ok ==> FirstFit(fs.start, old(fs.State()), fs.State())
  {
    hide TreeOk, Wrote, Has, BlockOf, Bytes, Overwritten, Geometry.Valid, ChunkLogs, Covered, Marks, FirstFit;
    FirstFitNot(fs.start, fs.State());
    Positive(fs);
    CoveredNothing(fs.g, fs.OnDisk(), fs.log);
    BeyondIff(fs.g, off, |src|);
    ok, r := true, -1;
    WrapsIff(off, |src|);
    if off > fs.inodes[i].size || Wraps(off, |src|) { return; }
    if off + |src| > MaxBytes(fs.g) { return; }
    ghost var s := fs.State();
    ok := WriteLoop(fs, i, src, off);
    if !ok { return; }
    ghost var t := fs.State();
    var end := off + |src|;
    WroteWithin(fs.g, i, off, src, s, t);
    WroteInside(fs.g, i, off, src, s, t);
    ghost var size := if end > s.inodes[i].size then end else s.inodes[i].size;
    ghost var u := t.(inodes := t.inodes[i := t.inodes[i].(size := size)]);
    WroteThenSized(fs.g, i, off, src, s, t, u);
    ChunkInode(fs.g, i, off, |src|, s.tree, old(fs.log), fs.tree, fs.log);
    if |src| > 0 && end > fs.inodes[i].size {
      ghost var d, l := fs.OnDisk(), fs.log;
      CoveredInode(fs.g, d, l, i, fs.inodes[i].(size := end));
      fs.inodes := fs.inodes[i := fs.inodes[i].(size := end)];
      // iupdate
      fs.dinodes := fs.dinodes[i := fs.inodes[i]];
      fs.log := fs.log.(inodes := fs.log.inodes + {i});
      CoveredTrans(fs.g, old(fs.OnDisk()), old(fs.log), d, l, fs.OnDisk(), fs.log);
    }
    assert fs.State() == u;
    FirstFitSame(fs.start, s, t, u);
    r := |src|;
  }

  /** The test before iupdate. */
  predicate Grows(off: nat, n: nat, size: nat) { n > 0 && off + n > size }

  lemma ChunkInode(g: Geometry, i: nat, off: nat, n: nat, s: Tree, l: Logged, t: Tree, m: Logged)
    requires g.Valid() && ChunkLogs(g, i, off, n, s, l, t, m, false)
    ensures n > 0 ==> ChunkLogs(g, i, off, n, s, l, t, m.(inodes := m.inodes + {i}), true)
  {
    hide WriteLogs, BlockOf;
    assert m.(inodes := m.inodes + {i}).(inodes := l.inodes) == m.(inodes := l.inodes);
  }

  lemma Positive(fs: Fs)
    requires fs.Valid()
    ensures 0 < fs.g.n
  {
  }

  /** What has been written could be mapped. */
  lemma WroteWithin(g: Geometry, i: nat, off: nat, src: seq<Byte>, s: Snap, t: Snap)
    requires Ok(g, s) && Ok(g, t) && Wrote(g, i, off, src, |src|, s, t)
    ensures forall o: nat :: off <= o < off + |src| ==> BlockOf(g, o) < g.Limit()
  {
    hide TreeOk, BlockOf, ByteAt;
    forall o: nat | off <= o < off + |src| ensures BlockOf(g, o) < g.Limit() { assert Has(g, t, i, o); }
  }

  /** A write inside the file allocates nothing. */
  lemma WroteInside(g: Geometry, i: nat, off: nat, src: seq<Byte>, s: Snap, t: Snap)
    requires Ok(g, s) && Ok(g, t) && Wrote(g, i, off, src, |src|, s, t) && i < |s.inodes|
    requires forall o: nat :: o < s.inodes[i].size ==> Has(g, s, i, o)
    ensures |t.inodes| == |s.inodes| && t.inodes[i].size == s.inodes[i].size
    ensures forall j: nat :: j < |s.inodes| && j != i ==> t.inodes[j] == s.inodes[j]
    ensures off + |src| <= s.inodes[i].size ==> t.inodes == s.inodes
  {
    hide TreeOk, Has, ByteAt;
  }

  lemma LoopStart(fs: Fs, i: nat, off: nat, src: seq<Byte>)
    requires fs.Valid()
    ensures Ok(fs.g, fs.State()) && Wrote(fs.g, i, off, src, 0, fs.State(), fs.State()) && 0 < fs.g.n && 0 < fs.g.n2
    ensures var lo := BlockOf(fs.g, off);
            lo <= fs.g.Limit() ==> WriteLogs(fs.g, i, lo, lo, fs.tree, fs.log, fs.tree, fs.log)
  {
    WroteNothing(fs.g, i, off, src, fs.State());
    var lo := BlockOf(fs.g, off);
    TreeClosed(fs.g, fs.State());
    if lo <= fs.g.Limit() { WriteLogsNothing(fs.g, i, lo, fs.tree, fs.log); }
  }

  lemma LoopEnd(g: Geometry, i: nat, off: nat, n: nat, s: Tree, l: Logged, t: Tree, m: Logged)
    requires g.Valid()
    requires if n == 0 then m == l else WriteLogs(g, i, BlockOf(g, off), BlockOf(g, off + n - 1) + 1, s, l, t, m)
    ensures ChunkLogs(g, i, off, n, s, l, t, m, false)
  {
    hide BlockOf, Fresh, Indexes, Spanned, BitsOf, Extends, Mapped, OnTheWay;
    assert n > 0 ==> m.(inodes := l.inodes) == m;
  }

  method WriteLoop(fs: Fs, i: nat, src: seq<Byte>, off: nat) returns (ok: bool)
    requires fs.Valid() && i < |fs.inodes|
    modifies fs`disk, fs`used, fs`inodes, fs`tree, fs`owner, fs`log
    ensures fs.Valid() && |fs.inodes| == |old(fs.inodes)| && |fs.disk| == |old(fs.disk)|
    ensures ok ==> Wrote(fs.g, i, off, src, |src|, old(fs.State()), fs.State())
    ensures ok ==> ChunkLogs(fs.g, i, off, |src|, old(fs.tree), old(fs.log), fs.tree, fs.log, false)
    ensures ok ==> fs.g.n > 0 && Covered(fs.g, old(fs.OnDisk()), old(fs.log), fs.OnDisk(), fs.log)
    ensures ok ==> FirstFit(fs.start, old(fs.State()), fs.State())
    ensures !ok ==> fs.Full() || exists o: nat :: off <= o < off + |src| && BlockOf(fs.g, o) >= fs.g.Limit()
  {
    hide BlockOf, Wrote, TreeOk, WriteLogs, ChunkLogs, Geometry.Valid, Covered, Marks, FirstFit;
    ghost var s, l := fs.State(), fs.log;
    LoopStart(fs, i, off, src);
    CoveredNothing(fs.g, fs.OnDisk(), l);
    FirstFitNot(fs.start, s);
    ghost var lo := BlockOf(fs.g, off);
    ghost var hi := lo;
    var tot := 0;
    ok := true;
    while tot < |src|
      invariant 0 <= tot <= |src| && ok && fs.Valid() && |fs.inodes| == |old(fs.inodes)| && |fs.disk| == |old(fs.disk)|
      invariant Ok(fs.g, s) && Wrote(fs.g, i, off, src, tot, s, fs.State())
      invariant tot < |src| ==> hi == BlockOf(fs.g, off + tot)
      invariant if tot == 0 then hi == lo && fs.log == l else hi == BlockOf(fs.g, off + tot - 1) + 1
      invariant tot > 0 || lo <= fs.g.Limit() ==> WriteLogs(fs.g, i, lo, hi, s.tree, l, fs.tree, fs.log)
      invariant Covered(fs.g, old(fs.OnDisk()), l, fs.OnDisk(), fs.log) && FirstFit(fs.start, s, fs.State())
      decreases |src| - tot
    {
      ghost var d, lt := fs.OnDisk(), fs.log;
      var m;
      m, ok := WriteRound(fs, i, off + tot, src, |src|, tot, off, s, l);
      if !ok { return; }
      CoveredTrans(fs.g, old(fs.OnDisk()), l, d, lt, fs.OnDisk(), fs.log);
      tot, hi := tot + m, hi + 1;
    }
    LoopEnd(fs.g, i, off, |src|, s.tree, l, fs.tree, fs.log);
  }

  /** `x` is what file `i` holds from `at` on. */
  ghost predicate Holds(g: Geometry, s: Snap, i: nat, at: nat, x: seq<Byte>)
    requires Ok(g, s)
  {
    forall o: nat :: at <= o < at + |x| ==> Has(g, s, i, o) && ByteAt(g, s, i, o) == x[o - at]
  }

  lemma HoldsMore(g: Geometry, s: Snap, i: nat, at: nat, x: seq<Byte>, y: seq<Byte>)
    requires Ok(g, s) && Holds(g, s, i, at, x) && Holds(g, s, i, at + |x|, y)
    ensures Holds(g, s, i, at, x + y)
  {
    hide TreeOk, Has, ByteAt;
  }

  lemma HoldsSlice(g: Geometry, s: Snap, i: nat, at: nat, x: seq<Byte>, size: nat)
    requires Ok(g, s) && Holds(g, s, i, at, x) && at + |x| <= size && forall o :: 0 <= o < size ==> Has(g, s, i, o)
    ensures x == Bytes(g, s, i, 0, size)[at..at + |x|]
  {
    hide TreeOk, Has, ByteAt;
    var b := Bytes(g, s, i, 0, size);
    forall k: nat | k < |x| ensures x[k] == b[at + k] { assert x[at + k - at] == ByteAt(g, s, i, at + k); }
  }

  lemma HoldsBlock(g: Geometry, s: Snap, i: nat, at: nat, m: nat)
    requires Ok(g, s) && Has(g, s, i, at) && OffsetIn(g, at) + m <= g.BlockSize()
    ensures var p := Place(g, i, BlockOf(g, at));
            && s.tree[p] < |s.disk| && |s.disk[s.tree[p]]| == g.BlockSize()
            && Holds(g, s, i, at, s.disk[s.tree[p]][OffsetIn(g, at)..OffsetIn(g, at) + m])
  {
    hide TreeOk, BlockOf, OffsetIn, Place;
    var p, r := Place(g, i, BlockOf(g, at)), OffsetIn(g, at);
    BlockLength(g, s, p);
    var x := s.disk[s.tree[p]][r..r + m];
    forall o: nat | at <= o < at + |x| ensures Has(g, s, i, o) && ByteAt(g, s, i, o) == x[o - at] {
      SameBlock(g, at, o - at);
    }
  }

  /** One round of readi: the block is there, and bmap changes nothing. */
  method ReadRound(fs: Fs, i: nat, at: nat, n: nat) returns (piece: seq<Byte>)
    requires fs.Valid() && i < |fs.inodes| && 0 < n && Has(fs.g, fs.State(), i, at)
    modifies fs`disk, fs`used, fs`inodes, fs`tree, fs`owner, fs`log
    ensures fs.Valid() && fs.State() == old(fs.State()) && fs.log == old(fs.log)
    ensures 0 < |piece| <= n && Holds(fs.g, fs.State(), i, at, piece)
  {
    hide TreeOk, Grew, BlockOf, OffsetIn, Place, Holds, Allots;
    var bn, r := BlockOf(fs.g, at), OffsetIn(fs.g, at);
    var m := if n < fs.g.BlockSize() - r then n else fs.g.BlockSize() - r;
    HoldsBlock(fs.g, fs.State(), i, at, m);
    var addr, ok := fs.Bmap(i, bn);
    AllotsSame(fs.g, Place(fs.g, i, bn), fs.tree, old(fs.log), fs.log);
    piece := fs.disk[addr][r..r + m];
  }

  /** Read up to `n` bytes of file `i` from `off`: -1 beyond the end, else the bytes there are. */
  method Readi(fs: Fs, i: nat, off: nat, n: nat) returns (dst: seq<Byte>, r: int)
    requires Files(fs) && i < |fs.inodes| && off < UINT && n < UINT
    modifies fs`disk, fs`used, fs`inodes, fs`tree, fs`owner, fs`log
    ensures Files(fs) && fs.State() == old(fs.State()) && fs.log == old(fs.log)
    ensures off > fs.inodes[i].size || off + n >= UINT ==> r == -1
    ensures off <= fs.inodes[i].size && off + n < UINT ==>
              && r == |dst| == (if off + n <= fs.inodes[i].size then n else fs.inodes[i].size - off)
              && dst == Contents(fs, i)[off..off + r]
  {
    hide TreeOk, Has, Holds, Bytes, Wraps;
    dst, r := [], -1;
    WrapsIff(off, n);
    if off > fs.inodes[i].size || Wraps(off, n) { return; }
    var len := if off + n > fs.inodes[i].size then fs.inodes[i].size - off else n;
    ghost var s := fs.State();
    HoldsNothing(fs.g, s, i, off);
    while |dst| < len
      invariant |dst| <= len && fs.Valid() && fs.State() == s && fs.log == old(fs.log) && Holds(fs.g, s, i, off, dst)
      decreases len - |dst|
    {
      var piece := ReadRound(fs, i, off + |dst|, len - |dst|);
      HoldsMore(fs.g, s, i, off, dst, piece);
      dst := dst + piece;
    }
    HoldsSlice(fs.g, s, i, off, dst, fs.inodes[i].size);
    r := len;
  }

  lemma HoldsNothing(g: Geometry, s: Snap, i: nat, at: nat)
    requires Ok(g, s)
    ensures Holds(g, s, i, at, [])
  {
  }

  lemma OverwrittenTwice(c: seq<Byte>, off: nat, a: seq<Byte>, b: seq<Byte>)
    requires off <= |c|
    ensures off + |a| <= |Overwritten(c, off, a)|
    ensures Overwritten(Overwritten(c, off, a), off + |a|, b) == Overwritten(c, off, a + b)
  {
  }

  lemma WrittenTwice(g: Geometry, i: nat, off: nat, a: seq<Byte>, b: seq<Byte>, s: Snap, t: Snap, u: Snap)
    requires Ok(g, s) && Ok(g, t) && Ok(g, u) && i < |s.inodes| && off <= s.inodes[i].size
    requires Written(g, i, off, a, s, t)
    ensures off + |a| <= t.inodes[i].size
    ensures Written(g, i, off + |a|, b, t, u) ==> Written(g, i, off, a + b, s, u)
  {
    hide TreeOk, Has, ByteAt, Overwritten;
    OverwrittenTwice(Bytes(g, s, i, 0, s.inodes[i].size), off, a, b);
  }

  lemma WrittenNothing(fs: Fs, i: nat, off: nat)
    requires Files(fs) && i < |fs.inodes| && off <= fs.inodes[i].size
    ensures Written(fs.g, i, off, [], fs.State(), fs.State())
  {
    hide TreeOk, Has, ByteAt, Bytes;
    var c := Bytes(fs.g, fs.State(), i, 0, fs.inodes[i].size);
    assert Overwritten(c, off, []) == c;
  }

  /** What a transaction of filewrite can log. */
  ghost predicate Budgeted(g: Geometry, size: nat, l: Logged)
    requires 0 < g.n
  {
    l.Count() <= 9 + |l.bits| && |l.bits| <= Bitmaps(g, size)
  }

  lemma ChunkBudgeted(g: Geometry, i: nat, off: nat, n: nat, s: Snap, t: Snap, m: Logged, grows: bool)
    requires Ok(g, s) && Ok(g, t) && 3 <= g.n && 0 < n <= 3 * g.BlockSize() && (off > 0 ==> Has(g, s, i, off - 1))
    requires ChunkLogs(g, i, off, n, s.tree, Nothing, t.tree, m, grows)
    ensures Budgeted(g, |t.disk|, m)
  {
    hide Place, BlockOf, Has, TreeOk, BitsOf, Bitmaps, ChunkLogs;
    ChunkBudget(g, i, off, n, s, t.tree, m, grows);
    ChunkBits(g, i, off, n, s, t, m, grows);
  }

  lemma TxnBudgeted(g: Geometry, i: nat, off: nat, n: nat, s: Snap, t: Snap, m: Logged, grows: bool, w: int)
    requires Ok(g, s) && Ok(g, t) && 0 < n <= 3 * g.BlockSize() && i < |s.inodes|
    requires forall o: nat :: o < s.inodes[i].size ==> Has(g, s, i, o)
    requires if w < 0 then m == Nothing
             else off <= s.inodes[i].size && ChunkLogs(g, i, off, n, s.tree, Nothing, t.tree, m, grows)
    ensures 3 <= g.n ==> Budgeted(g, |t.disk|, m)
  {
    hide Has, ChunkLogs, TreeOk, Budgeted;
    NothingBudgeted(g, |t.disk|);
    if 3 <= g.n && w >= 0 { ChunkBudgeted(g, i, off, n, s, t, m, grows); }
  }

  lemma NothingBudgeted(g: Geometry, size: nat)
    requires 0 < g.n
    ensures Budgeted(g, size, Nothing)
  {
  }

  /** The bytes that `n` chunks can hold. */
  function Capacity(g: Geometry, n: nat): nat { 3 * g.BlockSize() * n }

  lemma CapacityMore(g: Geometry, n: nat)
    ensures Capacity(g, 0) == 0 && Capacity(g, n + 1) == Capacity(g, n) + 3 * g.BlockSize()
  {
  }

  /** The first `k` bytes have been written, as far as the file's end lets them. */
  ghost predicate Progress(g: Geometry, i: nat, off: nat, src: seq<Byte>, k: nat, s: Snap, t: Snap) {
    && Ok(g, s) && Ok(g, t) && i < |s.inodes| == |t.inodes| && k <= |src|
    && if off <= s.inodes[i].size then Written(g, i, off, src[..k], s, t) else k == 0 && t == s
  }

  lemma ProgressNone(fs: Fs, i: nat, off: nat, src: seq<Byte>)
    requires Files(fs) && i < |fs.inodes|
    ensures Progress(fs.g, i, off, src, 0, fs.State(), fs.State())
  {
    assert src[..0] == [];
    if off <= fs.inodes[i].size { WrittenNothing(fs, i, off); }
  }

  lemma ProgressMore(g: Geometry, i: nat, off: nat, src: seq<Byte>, k: nat, n: nat, s: Snap, t: Snap, u: Snap)
    requires Progress(g, i, off, src, k, s, t) && k + n <= |src| && Ok(g, u) && off + k <= t.inodes[i].size
    requires off <= s.inodes[i].size && Written(g, i, off + k, src[k..k + n], t, u)
    ensures Progress(g, i, off, src, k + n, s, u)
  {
    hide TreeOk, Has, ByteAt, Overwritten;
    WrittenTwice(g, i, off, src[..k], src[k..k + n], s, t, u);
    assert src[..k] + src[k..k + n] == src[..k + n];
  }

  lemma ProgressEnd(g: Geometry, i: nat, off: nat, src: seq<Byte>, k: nat, s: Snap, t: Snap)
    requires Progress(g, i, off, src, k, s, t)
    ensures off <= s.inodes[i].size <==> off + k <= t.inodes[i].size
  {
    hide TreeOk, Has, ByteAt, Overwritten;
    if off <= s.inodes[i].size { WrittenTwice(g, i, off, src[..k], [], s, t, t); }
  }

  function ChunkLength(g: Geometry, n: nat): nat { if n > 3 * g.BlockSize() then 3 * g.BlockSize() else n }

  /** One transaction of filewrite: begin_op, writei of the next chunk, end_op. */
  method WriteChunk(fs: Fs, i: nat, src: seq<Byte>, k: nat, pos: nat, ghost off: nat, ghost s: Snap)
    returns (w: int, ok: bool)
    requires Files(fs) && i < |fs.inodes| && k < |src| && pos == off + k && off + |src| < UINT && MaxBytes(fs.g) < UINT
    requires Progress(fs.g, i, off, src, k, s, fs.State())
    modifies fs
    ensures fs.Valid() && |fs.inodes| == |old(fs.inodes)| && |fs.disk| == |old(fs.disk)|
    ensures !ok ==> fs.Full() || Beyond(fs.g, off, |src|)
    ensures ok ==> Files(fs) && w == if w < 0 then -1 else ChunkLength(fs.g, |src| - k)
    ensures ok ==> Progress(fs.g, i, off, src, if w < 0 then k else k + w, s, fs.State())
    ensures ok && w < 0 ==>
              off > s.inodes[i].size || (pos + 3 * fs.g.BlockSize() > MaxBytes(fs.g) && off + |src| > MaxBytes(fs.g))
    ensures ok && w >= 0 ==> 0 < w <= |src| - k && w <= 3 * fs.g.BlockSize() && !Beyond(fs.g, off, k + w)
    ensures ok && 3 <= fs.g.n ==> Budgeted(fs.g, |fs.disk|, fs.log)
  {
    hide TreeOk, Written, Has, ChunkLogs, Budgeted, Covered, Marks, Progress;
    Positive(fs);
    ghost var t := fs.State();
    ProgressEnd(fs.g, i, off, src, k, s, t);
    var n := ChunkLength(fs.g, |src| - k);
    // begin_op
    fs.log := Nothing;
    w, ok := Writei(fs, i, src[k..k + n], pos);
    if !ok { return; }
    TxnBudgeted(fs.g, i, pos, n, t, fs.State(), fs.log, Grows(pos, n, t.inodes[i].size), w);
    if w >= 0 { ProgressMore(fs.g, i, off, src, k, n, s, t, fs.State()); }
  }

  /** filewrite on a file of the file system: chunks of three blocks, each its own
      transaction, which logs `txns`.  All chunks together do what one flat write does; a result of
      -1 leaves the chunks before the refused one written, and `pos` behind them. */
  method Filewrite(fs: Fs, i: nat, off: nat, src: seq<Byte>) returns (r: int, pos: nat, ok: bool, txns: seq<Logged>)
    requires Files(fs) && i < |fs.inodes| && off + |src| < UINT && MaxBytes(fs.g) < UINT
    modifies fs
    ensures fs.Valid()
    ensures ok ==> Files(fs) && off <= pos <= off + |src|
    ensures ok && off <= old(fs.inodes)[i].size ==>
              Written(fs.g, i, off, src[..pos - off], old(fs.State()), fs.State())
    ensures ok && off > old(fs.inodes)[i].size ==> pos == off && fs.State() == old(fs.State())
    ensures ok ==> r == if pos == off + |src| then |src| else -1
    ensures ok && pos < off + |src| ==> off > old(fs.inodes)[i].size || pos + 3 * fs.g.BlockSize() > MaxBytes(fs.g)
    ensures !ok ==> fs.Full() || Beyond(fs.g, off, |src|)
    ensures Beyond(fs.g, off, |src|) && off <= old(fs.inodes)[i].size && off + |src| <= MaxBytes(fs.g) ==> !ok
    ensures 3 <= fs.g.n ==> forall k :: 0 <= k < |txns| ==> Budgeted(fs.g, |fs.disk|, txns[k])
    ensures ok ==> pos - off <= Capacity(fs.g, |txns|) && (txns != [] ==> fs.log == txns[|txns| - 1])
  {
    hide TreeOk, Written, Has, Budgeted, Capacity, Marks, Progress, Beyond, MaxBytes, ChunkLength, Files;
    FilesValid(fs);
    CapacityMore(fs.g, 0);
    var k := 0;
    ghost var s := fs.State();
    pos, ok, r, txns := off, true, -1, [];
    ProgressNone(fs, i, off, src);
    while k < |src|
      invariant 0 <= k <= |src| && pos == off + k && ok && fs.Valid() && Files(fs) && i < |fs.inodes|
      invariant |fs.disk| == |s.disk|
      invariant Progress(fs.g, i, off, src, k, s, fs.State())
      invariant k > 0 ==> !Beyond(fs.g, off, k)
      invariant k <= Capacity(fs.g, |txns|) && (txns != [] ==> fs.log == txns[|txns| - 1])
      invariant 3 <= fs.g.n ==> forall h :: 0 <= h < |txns| ==> Budgeted(fs.g, |fs.disk|, txns[h])
      decreases |src| - k
    {
      var w;
      w, ok := WriteChunk(fs, i, src, k, pos, off, s);
      if !ok { return; }
      CapacityMore(fs.g, |txns|);
      txns := txns + [fs.log];
      if w < 0 { break; }
      pos := pos + w;
      k := k + w;
    }
    if k == |src| { r := |src|; }
    ProgressMade(fs.g, i, off, src, k, s, fs.State());
    BeyondSome(fs.g, off, |src|);
  }

  lemma FilesValid(fs: Fs)
    requires Files(fs)
    ensures fs.Valid()
  {
  }

  lemma BeyondSome(g: Geometry, off: nat, n: nat)
    ensures Beyond(g, off, n) ==> n > 0
  {
  }

  lemma ProgressMade(g: Geometry, i: nat, off: nat, src: seq<Byte>, k: nat, s: Snap, t: Snap)
    requires Progress(g, i, off, src, k, s, t)
    ensures Ok(g, s) && Ok(g, t) && i < |s.inodes| && k <= |src|
    ensures if off <= s.inodes[i].size then Written(g, i, off, src[..k], s, t) else k == 0 && t == s
  {
  }

  /** A later read of the range returns what was written; the rest is as it was. */
  lemma ReadBack(c: seq<Byte>, off: nat, src: seq<Byte>)
    requires off <= |c|
    ensures var d := Overwritten(c, off, src);
            && |d| == (if off + |src| > |c| then off + |src| else |c|)
            && d[off..off + |src|] == src && d[..off] == c[..off]
            && (off + |src| <= |c| ==> d[off + |src|..] == c[off + |src|..])
  {
  }

  lemma OthersKeep(g: Geometry, s: Snap, t: Snap, i: nat, j: nat, o: nat)
    requires Ok(g, s) && Ok(g, t) && t.tree == TreeWithout(s.tree, i) && t.disk == s.disk
    requires i != j && j < |s.inodes| && Has(g, s, j, o)
    ensures Has(g, t, j, o) && ByteAt(g, t, j, o) == ByteAt(g, s, j, o)
  {
    PlaceWithin(g, j, BlockOf(g, o), |s.inodes|);
  }

  lemma OthersKeepBytes(g: Geometry, s: Snap, t: Snap, i: nat, j: nat, len: nat)
    requires Ok(g, s) && Ok(g, t) && t.tree == TreeWithout(s.tree, i) && t.disk == s.disk
    requires i != j && j < |s.inodes| && forall o: nat :: o < len ==> Has(g, s, j, o)
    ensures forall o: nat :: o < len ==> Has(g, t, j, o)
    ensures Bytes(g, t, j, 0, len) == Bytes(g, s, j, 0, len)
  {
    forall o: nat | o < len ensures Has(g, t, j, o) && ByteAt(g, t, j, o) == ByteAt(g, s, j, o) {
      OthersKeep(g, s, t, i, j, o);
    }
    hide TreeOk, Has, ByteAt;
  }

  /** itrunc empties one file and leaves the others' bytes alone. */
  method Truncate(fs: Fs, i: nat)
    requires Files(fs) && i < |fs.inodes|
    modifies fs
    ensures Files(fs) && |fs.inodes| == |old(fs.inodes)| && Contents(fs, i) == []
    ensures forall j: nat :: j < |fs.inodes| && j != i ==>
              fs.inodes[j] == old(fs.inodes)[j] && Contents(fs, j) == old(Contents(fs, j))
    ensures old(fs.log) == Nothing ==>
              fs.log == TruncLogs(fs.g, old(fs.State()), i) && fs.log.Count() <= 1 + Bitmaps(fs.g, |fs.disk|)
  {
    hide TreeOk, Has, Bytes, TreeWithout, BitsOf, Bitmaps;
    ghost var s := fs.State();
    TruncBound(fs.g, 0, |fs.disk|, s, i);
    var ok := fs.Itrunc(i);
    forall j: nat | j < |fs.inodes| && j != i
      ensures (forall o: nat :: o < s.inodes[j].size ==> Has(fs.g, fs.State(), j, o))
      ensures Bytes(fs.g, fs.State(), j, 0, s.inodes[j].size) == Bytes(fs.g, s, j, 0, s.inodes[j].size)
    {
      OthersKeepBytes(fs.g, s, fs.State(), i, j, s.inodes[j].size);
    }
  }

  datatype BlockOp = Map(i: nat, bn: nat) | Trunc(i: nat)

  /** bmap maps the block and moves nothing; itrunc takes exactly the file's places away. */
  ghost predicate Did(g: Geometry, op: BlockOp, s: Snap, t: Snap)
    requires g.Valid()
  {
    match op
    case Map(i, bn) => Grew(i, s, t) && bn < g.Limit() && Place(g, i, bn) in t.tree
    case Trunc(i) =>
      i < |s.inodes| && t.tree == TreeWithout(s.tree, i) && t.disk == s.disk
        && t.inodes == s.inodes[i := Inode(0, NoSlots())]
  }

  ghost predicate Follows(g: Geometry, ops: seq<BlockOp>, done: nat, states: seq<Snap>)
    requires g.Valid()
  {
    && done <= |ops| && |states| == done + 1
    && forall k :: 0 <= k < done ==> Did(g, ops[k], states[k], states[k + 1])
  }

  /** Any run of bmap and itrunc on any inodes keeps every marked data block at exactly one
      place of one inode, and frees no free block; it ends early only where bmap panics. */
  method RunBlockOps(fs: Fs, ops: seq<BlockOp>) returns (done: nat, ghost states: seq<Snap>)
    requires fs.Valid() && forall k :: 0 <= k < |ops| ==> ops[k].i < |fs.inodes|
    modifies fs
    ensures fs.Valid() && Follows(fs.g, ops, done, states) && states[0] == old(fs.State())
    ensures done == |ops| ==> states[done] == fs.State()
    ensures done < |ops| ==> ops[done].Map? && (ops[done].bn >= fs.g.Limit() || fs.Full())
  {
    hide TreeOk, Grew, TreeWithout, Place, Allots;
    ghost var n := |fs.inodes|;
    done, states := 0, [fs.State()];
    while done < |ops|
      invariant fs.Valid() && |fs.inodes| == n && Follows(fs.g, ops, done, states)
      invariant states[0] == old(fs.State()) && states[done] == fs.State()
    {
      match ops[done] {
        case Map(i, bn) =>
          ghost var s := fs.State();
          var addr, ok := fs.Bmap(i, bn);
          GrewSizes(i, s, fs.State());
          if !ok { return; }
        case Trunc(i) =>
          var ok := fs.Itrunc(i);
          assert ok;
      }
      states, done := states + [fs.State()], done + 1;
    }
  }
}
