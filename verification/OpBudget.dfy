/** How many blocks one operation on files gives to log_write, against MAXOPBLOCKS. */
module OpBudget {
  import opened Arith
  import opened BlockTree
  import opened InodeCode
  import opened FileBytes
  import opened OpLog
  import opened FileBuild
  import LogMachine

  // ---- counting ----------------------------------------------------------------------------

  /** The blocks at some places. */
  ghost function Image(k: set<Pos>, t: Tree): set<nat> {
    set q | q in k && q in t :: t[q]
  }

  lemma {:induction false} ImageCount(k: set<Pos>, t: Tree)
    ensures |Image(k, t)| <= |k|
    decreases |k|
  {
    if k == {} {
      assert Image(k, t) == {};
    } else {
      var p :| p in k;
      ImageCount(k - {p}, t);
      assert Image(k, t) == Image(k - {p}, t) + if p in t then {t[p]} else {};
    }
  }

  lemma {:induction false} SpannedCount(g: Geometry, i: nat, lo: nat, hi: nat, t: Tree)
    requires 0 < g.n && 0 < g.n2 && lo <= hi <= g.Limit()
    ensures |Spanned(g, i, lo, hi, t)| <= hi - lo
    decreases hi
  {
    hide Place;
    if lo < hi {
      SpannedCount(g, i, lo, hi - 1, t);
      var p := Place(g, i, hi - 1);
      var less := Spanned(g, i, lo, hi - 1, t);
      if p in t {
        assert Spanned(g, i, lo, hi, t) == less + {t[p]};
      } else {
        assert Spanned(g, i, lo, hi, t) == less;
      }
    } else {
      assert Spanned(g, i, lo, hi, t) == {};
    }
  }

  lemma {:induction false} BelowCount(bs: set<nat>, n: nat)
    requires forall b :: b in bs ==> b < n
    ensures |bs| <= n
    decreases n
  {
    if n == 0 {
      if b :| b in bs { assert false; }
    } else {
      BelowCount(bs - {n - 1}, n - 1);
    }
  }

  // ---- the index blocks above a place ---------------------------------------------------------

  /** The index blocks above a place. */
  function Above(p: Pos): set<Pos> {
    if p.Root? then {} else {p.parent} + Above(p.parent)
  }

  function Depth(p: Pos): nat {
    if p.Root? then 0 else Depth(p.parent) + 1
  }

  lemma {:induction false} AboveCount(p: Pos)
    ensures |Above(p)| <= Depth(p)
  {
    if p.Sub? { AboveCount(p.parent); }
  }

  lemma {:induction false} AboveIs(p: Pos, q: Pos)
    ensures q in Above(p) <==> p.Under(q) && q != p
  {
    if p.Sub? {
      AboveIs(p.parent, q);
      if p == q && p.parent.Under(p) { UnderSize(p, p.parent); }
    }
  }

  lemma {:induction false} UnderTrans(p: Pos, q: Pos, r: Pos)
    requires p.Under(q) && q.Under(r)
    ensures p.Under(r)
  {
    if p != q { UnderTrans(p.parent, q, r); }
  }

  /** How many index blocks a write that ends with block `last` can touch. */
  function IndexBound(g: Geometry, last: nat): nat {
    if last < NDIRECT then 0 else if last < NDIRECT + g.n then 1 else if last < NDIRECT + g.n2 then 3 else 4
  }

  /** The index blocks a write after block `c` can touch, if it ends with block `last`. */
  function Touched(g: Geometry, i: nat, c: nat, last: nat): set<Pos>
    requires g.Valid() && c <= last < g.Limit()
  {
    Above(Place(g, i, last)) + if c < NDIRECT then {} else {Place(g, i, c).parent}
  }

  lemma PlaceDepth(g: Geometry, i: nat, bn: nat)
    requires g.Valid() && bn < g.Limit()
    ensures Depth(Place(g, i, bn)) ==
            if bn < NDIRECT then 0 else if bn < NDIRECT + g.n then 1 else if bn < NDIRECT + g.n2 then 2 else 3
  {
    var p := Place(g, i, bn);
    if NDIRECT + g.n <= bn {
      assert Depth(p.parent.parent) == if bn < NDIRECT + g.n2 then 0 else 1;
    }
  }

  lemma TouchedCount(g: Geometry, i: nat, c: nat, last: nat)
    requires g.Valid() && c <= last < g.Limit()
    ensures |Touched(g, i, c, last)| <= IndexBound(g, last)
  {
    var p := Place(g, i, last);
    AboveCount(p);
    PlaceDepth(g, i, last);
    if NDIRECT <= last < NDIRECT + g.n {
      assert Above(p) == {Root(i, NDIRECT)};
      assert Touched(g, i, c, last) == {Root(i, NDIRECT)};
    }
  }

  lemma DivDiv(b: nat, n: nat, n2: nat)
    requires 0 < n && n2 == n * n && 0 < n2
    ensures 0 <= b / n && b / n2 == b / n / n && b % n2 / n == b / n % n
  {
    var q, r := b / n2, b % n2;
    DivModIs(b, n2);
    DivModIs(r, n);
    ModLess(b, n2);
    DivLess(r, n, n);
    ModLess(r, n);
    var k, l := r / n, r % n;
    assert b == n * (n * q + k) + l by { Assoc(n, n, q); assert n * (n * q + k) == n * (n * q) + n * k; }
    DivNonNegative(b, n2);
    DivModUnique(b, n, n * q + k, l);
    DivModUnique(n * q + k, n, q, k);
  }

  /** Blocks below the same word group hang below the same index block. */
  lemma SameLeaf(g: Geometry, i: nat, x: nat, y: nat)
    requires g.Valid() && NDIRECT <= x < g.Limit() && NDIRECT <= y < g.Limit()
    requires (x - NDIRECT) / g.n == (y - NDIRECT) / g.n
    ensures Place(g, i, x).Sub? && Place(g, i, y).Sub? && Place(g, i, x).parent == Place(g, i, y).parent
  {
    var a, b := x - NDIRECT, y - NDIRECT;
    DivLessIff(a, g.n, 1);
    DivLessIff(b, g.n, 1);
    DivLessIff(a, g.n, g.n);
    DivLessIff(b, g.n, g.n);
    DivDiv(a, g.n, g.n2);
    DivDiv(b, g.n, g.n2);
  }

  lemma Quotient(b: nat, n: nat)
    requires 0 < n
    ensures n * (b / n) <= b < n * (b / n) + n
  {
    DivModIs(b, n);
    ModLess(b, n);
  }

  lemma QuotientMono(n: nat, x: int, y: int)
    requires x < y
    ensures n * x + n <= n * y && (x + 2 <= y ==> n * x + n + n <= n * y)
  {
    MulMono(n, x + 1, y);
    if x + 2 <= y { MulMono(n, x + 2, y); }
  }

  /** At most one of four blocks in a row starts a new index block. */
  lemma OneBoundary(a: nat, b: nat, d: nat, n: nat)
    requires a <= b <= d <= a + 3 && 3 <= n && b / n != d / n
    ensures a / n == b / n
  {
    Quotient(a, n);
    Quotient(b, n);
    Quotient(d, n);
    Ordered(a, b, d, n, a / n, b / n, d / n);
  }

  lemma Ordered(a: nat, b: nat, d: nat, n: nat, x: int, y: int, z: int)
    requires a <= b <= d <= a + 3 && 3 <= n && y != z
    requires n * x <= a < n * x + n && n * y <= b < n * y + n && n * z <= d < n * z + n
    ensures x == y
  {
    if z < y { QuotientMono(n, z, y); assert false; }
    if y < x { QuotientMono(n, y, x); assert false; }
    if x < y { QuotientMono(n, x, z); assert false; }
  }

  // ---- one chunk of filewrite --------------------------------------------------------------------

  ghost predicate Closed(s: Tree) { forall q :: q in s && q.Sub? ==> q.parent in s }

  /** Nothing above a mapped place is new. */
  lemma AboveMapped(s: Tree, p: Pos, q: Pos)
    requires Closed(s) && p in s && p.Under(q)
    ensures q in s
  {
    if q !in s { UnderNothing(s, q, p); }
  }

  lemma AboveParent(p: Pos, q: Pos)
    requires p.Under(q) && q.Sub?
    ensures q.parent in Above(p)
  {
    AboveIs(p, q.parent);
    UnderTrans(p, q, q.parent);
    if p == q.parent { UnderSize(q, p); }
  }

  /** A new place on the way to block `bn` is its own, or that of an index block that a write after the
      mapped block `c` can touch; and so is the index block that names it. */
  lemma NewPlace(g: Geometry, i: nat, c: nat, bn: nat, last: nat, s: Tree, q: Pos)
    requires g.Valid() && 3 <= g.n && c <= bn <= last <= c + 3 && last < g.Limit()
    requires Closed(s) && Place(g, i, c) in s && Place(g, i, bn).Under(q) && q !in s
    ensures q == Place(g, i, bn) || q in Touched(g, i, c, last)
    ensures q.Sub? ==> q.parent in Touched(g, i, c, last)
  {
    hide Place;
    DirectPlace(g, i, bn);
    var p := Place(g, i, bn);
    AboveIs(p, q);
    if bn < NDIRECT { return; }
    if (bn - NDIRECT) / g.n == (last - NDIRECT) / g.n {
      SameLeaf(g, i, bn, last);
      if q.Sub? { AboveParent(p, q); }
    } else {
      Boundary(g, c, bn, last);
      SameLeaf(g, i, c, bn);
      if q != p {
        AboveIs(Place(g, i, c), q);
        AboveMapped(s, Place(g, i, c), q);
      }
    }
  }

  lemma DirectPlace(g: Geometry, i: nat, bn: nat)
    requires g.Valid() && bn < g.Limit()
    ensures Place(g, i, bn).Root? <==> bn < NDIRECT
  {
  }

  lemma Boundary(g: Geometry, c: nat, bn: nat, last: nat)
    requires 3 <= g.n && c <= bn <= last <= c + 3 && NDIRECT <= bn && (bn - NDIRECT) / g.n != (last - NDIRECT) / g.n
    ensures NDIRECT <= c && (c - NDIRECT) / g.n == (bn - NDIRECT) / g.n
  {
    DivLessIff(last - NDIRECT, g.n, 1);
    DivLessIff(bn - NDIRECT, g.n, 1);
    if c < NDIRECT {
      assert false;
    } else {
      OneBoundary(c - NDIRECT, bn - NDIRECT, last - NDIRECT, g.n);
    }
  }

  lemma NewBlock(g: Geometry, i: nat, lo: nat, hi: nat, c: nat, s: Tree, t: Tree, q: Pos)
    requires g.Valid() && 3 <= g.n && c <= lo < hi <= c + 4 && hi <= g.Limit() && Closed(s) && Place(g, i, c) in s
    requires Extends(s, t) && OnTheWay(g, i, lo, hi, s, t) && q in t && q !in s
    ensures t[q] in Spanned(g, i, lo, hi, t) + Image(Touched(g, i, c, hi - 1), t)
    ensures q.Sub? ==> q.parent in t && t[q.parent] in Image(Touched(g, i, c, hi - 1), t)
  {
    hide Place, Touched;
    var bn :| lo <= bn < hi && Place(g, i, bn).Under(q);
    NewPlace(g, i, c, bn, hi - 1, s, q);
  }

  lemma ChunkSubset(g: Geometry, i: nat, lo: nat, hi: nat, c: nat, s: Tree, t: Tree)
    requires g.Valid() && 3 <= g.n && c <= lo < hi <= c + 4 && hi <= g.Limit() && Closed(s) && Place(g, i, c) in s
    requires Extends(s, t) && OnTheWay(g, i, lo, hi, s, t)
    ensures Fresh(s, t) + Indexes(s, t) <= Spanned(g, i, lo, hi, t) + Image(Touched(g, i, c, hi - 1), t)
  {
    hide Place, Touched, OnTheWay, Spanned, Image, Extends, Closed;
    forall q | q in t && q !in s
      ensures t[q] in Spanned(g, i, lo, hi, t) + Image(Touched(g, i, c, hi - 1), t)
      ensures q.Sub? ==> q.parent in t && t[q.parent] in Image(Touched(g, i, c, hi - 1), t)
    {
      NewBlock(g, i, lo, hi, c, s, t, q);
    }
  }

  /** The blocks that a write of blocks `lo` to below `hi` logs, when block `c` was mapped. */
  lemma ChunkBlocks(g: Geometry, i: nat, lo: nat, hi: nat, c: nat, s: Tree, t: Tree, m: Logged)
    requires g.Valid() && 3 <= g.n && c <= lo < hi <= c + 4 && hi <= g.Limit() && Closed(s) && Place(g, i, c) in s
    requires WriteLogs(g, i, lo, hi, s, Nothing, t, m)
    ensures |m.blocks| <= hi - lo + IndexBound(g, hi - 1)
  {
    hide Place, Touched, OnTheWay, Spanned, Image, Extends, Closed, Fresh, Indexes, Mapped, BitsOf;
    var k := Touched(g, i, c, hi - 1);
    ChunkSubset(g, i, lo, hi, c, s, t);
    SubsetCount(m.blocks, Spanned(g, i, lo, hi, t), Image(k, t));
    SpannedCount(g, i, lo, hi, t);
    ImageCount(k, t);
    TouchedCount(g, i, c, hi - 1);
  }

  lemma SubsetCount(a: set<nat>, b: set<nat>, c: set<nat>)
    requires a <= b + c
    ensures |a| <= |b| + |c|
  {
    var rest := b + c - a;
    assert a + rest == b + c;
    assert b + c == b + (c - b);
  }

  /** The same for the first blocks of a file, which have no index blocks. */
  lemma FirstBlocks(g: Geometry, i: nat, lo: nat, hi: nat, s: Tree, t: Tree, m: Logged)
    requires g.Valid() && lo < hi <= NDIRECT && WriteLogs(g, i, lo, hi, s, Nothing, t, m)
    ensures |m.blocks| <= hi - lo
  {
    forall q | q in t && q !in s ensures t[q] in Spanned(g, i, lo, hi, t) && !q.Sub? {
      var bn :| lo <= bn < hi && Place(g, i, bn).Under(q);
    }
    assert m.blocks == Spanned(g, i, lo, hi, t);
    SpannedCount(g, i, lo, hi, t);
  }

  /** What writei of `n` bytes at `off` logs: the blocks it spans, and the inode when the file grows. */
  ghost predicate ChunkLogs(g: Geometry, i: nat, off: nat, n: nat, s: Tree, l: Logged, t: Tree, m: Logged, grows: bool)
    requires g.Valid()
  {
    if n == 0 then m == l
    else
      && WriteLogs(g, i, BlockOf(g, off), BlockOf(g, off + n - 1) + 1, s, l, t, m.(inodes := l.inodes))
      && m.inodes == if grows then l.inodes + {i} else l.inodes
  }

  lemma BlockSpan(g: Geometry, off: nat, n: nat)
    requires 0 < g.n && 0 < n <= 3 * g.BlockSize()
    ensures BlockOf(g, off) <= BlockOf(g, off + n - 1) <= BlockOf(g, off) + 3
    ensures OffsetIn(g, off) == 0 ==> BlockOf(g, off + n - 1) <= BlockOf(g, off) + 2
  {
    DivModIs(off, g.BlockSize());
    Quotient(off, g.BlockSize());
    Quotient(off + n - 1, g.BlockSize());
    Span(g.BlockSize(), BlockOf(g, off), BlockOf(g, off + n - 1), off, off + n - 1);
  }

  lemma Span(b: nat, x: int, y: int, off: int, end: int)
    requires b * x <= off < b * x + b && b * y <= end < b * y + b && off <= end < off + 3 * b
    ensures x <= y <= x + 3 && (off == b * x ==> y <= x + 2)
  {
    if y < x { MulMono(b, y + 1, x); assert false; }
    if y > x + 3 { MulMono(b, x + 4, y); assert false; }
    if y == x + 3 { assert b * y == b * x + 3 * b; }
  }

  /** The block before the first new one is mapped: a file has no holes. */
  lemma Before(g: Geometry, s: Snap, i: nat, off: nat) returns (c: nat)
    requires g.Valid() && 0 < off && Has(g, s, i, off - 1)
    ensures c < g.Limit() && Place(g, i, c) in s.tree
    ensures c == if OffsetIn(g, off) == 0 then BlockOf(g, off) - 1 else BlockOf(g, off)
  {
    var b := g.BlockSize();
    c := BlockOf(g, off - 1);
    DivModIs(off, b);
    Quotient(off, b);
    if OffsetIn(g, off) == 0 {
      DivModUnique(off - 1, b, BlockOf(g, off) - 1, b - 1);
    } else {
      DivModUnique(off - 1, b, BlockOf(g, off), OffsetIn(g, off) - 1);
    }
  }

  /** A chunk of filewrite logs at most four data blocks, at most four index blocks, the inode and the
      bitmap blocks of what it allocates; fewer index blocks where the tree is lower. */
  lemma ChunkBudget(g: Geometry, i: nat, off: nat, n: nat, s: Snap, t: Tree, m: Logged, grows: bool)
    requires Ok(g, s) && 3 <= g.n && 0 < n <= 3 * g.BlockSize() && (off > 0 ==> Has(g, s, i, off - 1))
    requires ChunkLogs(g, i, off, n, s.tree, Nothing, t, m, grows)
    ensures m.Count() <= 5 + IndexBound(g, BlockOf(g, off + n - 1)) + |m.bits|
    ensures m.Count() <= 9 + |m.bits|
  {
    hide Place, BlockOf, OffsetIn, WriteLogs, Has, IndexBound, TreeOk;
    var lo, last := BlockOf(g, off), BlockOf(g, off + n - 1);
    BlockSpan(g, off, n);
    IndexAtMost(g, last);
    TreeClosed(g, s);
    Ends(g, i, lo, last + 1, s.tree, Nothing, t, m.(inodes := {}));
    if off == 0 {
      FirstOfFile(g);
      FirstBlocks(g, i, lo, last + 1, s.tree, t, m.(inodes := {}));
    } else {
      var c := Before(g, s, i, off);
      ChunkBlocks(g, i, lo, last + 1, c, s.tree, t, m.(inodes := {}));
    }
  }

  lemma Ends(g: Geometry, i: nat, lo: nat, hi: nat, s: Tree, l: Logged, t: Tree, m: Logged)
    requires 0 < g.n && 0 < g.n2 && WriteLogs(g, i, lo, hi, s, l, t, m)
    ensures hi <= g.Limit()
  {
  }

  lemma IndexAtMost(g: Geometry, last: nat)
    ensures IndexBound(g, last) <= 4
  {
  }

  lemma FirstOfFile(g: Geometry)
    requires 0 < g.n
    ensures BlockOf(g, 0) == 0 == OffsetIn(g, 0)
  {
  }

  lemma TreeClosed(g: Geometry, s: Snap)
    requires Ok(g, s)
    ensures Closed(s.tree)
  {
  }

  /** The bitmap blocks of a disk of `size` blocks. */
  function Bitmaps(g: Geometry, size: nat): nat
    requires 0 < g.n
  {
    DivNonNegative(size + BitsPerBlock(g) - 1, BitsPerBlock(g));
    (size + BitsPerBlock(g) - 1) / BitsPerBlock(g)
  }

  lemma BitmapsAtMost(g: Geometry, size: nat, k: nat)
    requires 0 < g.n
    ensures Bitmaps(g, size) <= k <==> size <= BitsPerBlock(g) * k
  {
    var b := BitsPerBlock(g);
    DivLessIff(size + b - 1, b, k + 1);
    assert b * (k + 1) == b * k + b;
  }

  lemma BitsBound(g: Geometry, bs: set<nat>, size: nat)
    requires 0 < g.n && forall b :: b in bs ==> b < size
    ensures |BitsOf(g, bs)| <= Bitmaps(g, size)
  {
    var k := Bitmaps(g, size);
    BitmapsAtMost(g, size, k);
    forall b | b in bs ensures BitBlock(g, b) < k { DivLessIff(b, BitsPerBlock(g), k); }
    BelowCount(BitsOf(g, bs), k);
  }

  lemma ChunkBits(g: Geometry, i: nat, off: nat, n: nat, s: Snap, t: Snap, m: Logged, grows: bool)
    requires Ok(g, t) && 0 < n && ChunkLogs(g, i, off, n, s.tree, Nothing, t.tree, m, grows)
    ensures |m.bits| <= Bitmaps(g, |t.disk|)
  {
    hide Place, BlockOf, BitsOf, Bitmaps, Spanned, Mapped, OnTheWay, Extends, Indexes;
    TreeBelow(g, t);
    BitsBound(g, Fresh(s.tree, t.tree), |t.disk|);
  }

  lemma TreeBelow(g: Geometry, s: Snap)
    requires Ok(g, s)
    ensures forall q :: q in s.tree ==> s.tree[q] < |s.disk|
  {
  }

  /** A write over what is mapped logs the data blocks it spans and nothing else. */
  lemma RewriteLogs(g: Geometry, i: nat, off: nat, n: nat, s: Tree, l: Logged, m: Logged)
    requires g.Valid() && 0 < n && ChunkLogs(g, i, off, n, s, l, s, m, false)
    ensures BlockOf(g, off + n - 1) < g.Limit()
    ensures m == l.(blocks := l.blocks + Spanned(g, i, BlockOf(g, off), BlockOf(g, off + n - 1) + 1, s))
  {
    assert Fresh(s, s) == {} && Indexes(s, s) == {} && BitsOf(g, {}) == {};
  }

  // ---- itrunc ------------------------------------------------------------------------------------

  /** Inode `i` and the disk, whose blocks below `start` hold metadata. */
  ghost predicate FileOn(g: Geometry, start: nat, size: nat, s: Snap, i: nat) {
    Ok(g, s) && |s.disk| == size && i < |s.inodes| && forall b :: b in s.owner ==> start <= b
  }

  /** What itrunc of inode `i` logs: the bitmap blocks of the file's blocks, and the inode. */
  ghost function TruncLogs(g: Geometry, s: Snap, i: nat): Logged
    requires 0 < g.n
  {
    Logged(BitsOf(g, BlocksOf(s.tree, i, SLOTS)), {}, {i})
  }

  /** Every itrunc on a disk of that size keeps to its reservation. */
  ghost predicate TruncFits(g: Geometry, start: nat, size: nat)
    requires 0 < g.n
  {
    forall s: Snap, i: nat :: FileOn(g, start, size, s, i) ==> TruncLogs(g, s, i).Count() <= LogMachine.MAXOPBLOCKS
  }

  /** A block under each of the first ten bitmap blocks. */
  function Spread(g: Geometry, start: nat, j: nat): nat {
    if j == 0 then start else BitsPerBlock(g) * j
  }

  lemma SpreadBits(g: Geometry, start: nat, j: nat)
    requires 0 < g.n && start < BitsPerBlock(g)
    ensures BitBlock(g, Spread(g, start, j)) == j
  {
    DivModUnique(Spread(g, start, j), BitsPerBlock(g), j, if j == 0 then start else 0);
  }

  lemma SpreadApart(g: Geometry, start: nat, j: nat, h: nat)
    requires 0 < g.n && 0 < start < BitsPerBlock(g) && j < h
    ensures 0 < Spread(g, start, j) < Spread(g, start, h)
  {
    MulMono(BitsPerBlock(g), 1, h);
    if 0 < j {
      MulMono(BitsPerBlock(g), 1, j);
      MulMono(BitsPerBlock(g), j + 1, h);
    }
  }

  lemma SpreadWithin(g: Geometry, start: nat, size: nat, j: nat)
    requires 0 < g.n && 0 < start < BitsPerBlock(g) && BitsPerBlock(g) * 9 < size && j < NDIRECT
    ensures start <= Spread(g, start, j) < size
  {
    MulMono(BitsPerBlock(g), j, 9);
    if 0 < j { SpreadApart(g, start, 0, j); }
  }

  /** A file that itrunc takes more than its reservation to free. */
  lemma SpreadFile(g: Geometry, start: nat, size: nat) returns (s: Snap)
    requires g.Valid() && 0 < start < BitsPerBlock(g) && BitsPerBlock(g) * 9 < size <= UINT
    ensures FileOn(g, start, size, s, 0) && TruncLogs(g, s, 0).Count() == LogMachine.MAXOPBLOCKS + 1
  {
    hide TreeOk, BitsOf, Spread, BlocksOf, PlanOk, Laid, Among;
    var ps, bs: seq<nat> :=
      seq(NDIRECT, j requires 0 <= j => Root(0, j)), seq(NDIRECT, j requires 0 <= j => Spread(g, start, j));
    SpreadPlan(g, start, size, ps, bs);
    s := Build(g, size, 1, ps, bs, NDIRECT);
    SpreadTree(g, start, s, ps, bs);
    forall b | b in s.owner ensures start <= b {
      var j := LaidOwner(ps, bs, NDIRECT, s, b);
      SpreadWithin(g, start, size, j);
    }
    SpreadLogs(g, start, s);
  }

  lemma SpreadPlan(g: Geometry, start: nat, size: nat, ps: seq<Pos>, bs: seq<nat>)
    requires g.Valid() && 0 < start < BitsPerBlock(g) && BitsPerBlock(g) * 9 < size <= UINT && |ps| == |bs| == NDIRECT
    requires forall j :: 0 <= j < NDIRECT ==> ps[j] == Root(0, j) && bs[j] == Spread(g, start, j)
    ensures PlanOk(g, size, 1, ps, bs)
  {
    hide Spread, Among;
    Square(g);
    forall j | 0 <= j < NDIRECT ensures start <= bs[j] < size { SpreadWithin(g, start, size, j); }
    forall j, h | 0 <= j < h < NDIRECT ensures bs[j] != bs[h] { SpreadApart(g, start, j, h); }
  }

  lemma SpreadTree(g: Geometry, start: nat, s: Snap, ps: seq<Pos>, bs: seq<nat>)
    requires |ps| == |bs| == NDIRECT && Laid(ps, bs, NDIRECT, s)
    requires forall j :: 0 <= j < NDIRECT ==> ps[j] == Root(0, j) && bs[j] == Spread(g, start, j)
    ensures forall q :: q in s.tree <==> q.Root? && q.inum == 0 && q.slot < NDIRECT
    ensures forall j: nat :: j < NDIRECT ==> s.tree[Root(0, j)] == Spread(g, start, j)
  {
    hide Spread;
    forall q | q in s.tree ensures q.Root? && q.inum == 0 && q.slot < NDIRECT {
      var j := LaidOnly(ps, bs, NDIRECT, s, q);
    }
    forall j: nat | j < NDIRECT ensures Root(0, j) in s.tree && s.tree[Root(0, j)] == Spread(g, start, j) {
      assert ps[j] == Root(0, j);
    }
  }

  lemma SpreadLogs(g: Geometry, start: nat, s: Snap)
    requires 0 < g.n && start < BitsPerBlock(g)
    requires forall q :: q in s.tree <==> q.Root? && q.inum == 0 && q.slot < NDIRECT
    requires forall j: nat :: j < NDIRECT ==> s.tree[Root(0, j)] == Spread(g, start, j)
    ensures BitsOf(g, BlocksOf(s.tree, 0, SLOTS)) == {0, 1, 2, 3, 4, 5, 6, 7, 8, 9}
  {
    var bits := BitsOf(g, BlocksOf(s.tree, 0, SLOTS));
    forall j: nat | j < NDIRECT ensures j in bits {
      SpreadBits(g, start, j);
      assert Root(0, j) in s.tree && Root(0, j).Owner() == 0 && Root(0, j).Slot() < SLOTS;
      assert Spread(g, start, j) in BlocksOf(s.tree, 0, SLOTS);
    }
    forall q | q in s.tree ensures BitBlock(g, s.tree[q]) == q.slot {
      SpreadBits(g, start, q.slot);
    }
  }

  lemma TruncBound(g: Geometry, start: nat, size: nat, s: Snap, i: nat)
    requires FileOn(g, start, size, s, i)
    ensures TruncLogs(g, s, i).Count() <= 1 + Bitmaps(g, size)
  {
    TreeBelow(g, s);
    hide TreeOk, BitsOf, Bitmaps;
    BitsBound(g, BlocksOf(s.tree, i, SLOTS), size);
  }

  /** itrunc keeps to MAXOPBLOCKS exactly on disks of at most nine bitmap blocks. */
  lemma TruncFitsIff(g: Geometry, start: nat, size: nat)
    requires g.Valid() && 0 < start < BitsPerBlock(g) && size <= UINT
    ensures TruncFits(g, start, size) <==> Bitmaps(g, size) < LogMachine.MAXOPBLOCKS
  {
    hide FileOn, TruncLogs, Bitmaps;
    BitmapsAtMost(g, size, 9);
    if size <= BitsPerBlock(g) * 9 {
      forall s: Snap, i: nat | FileOn(g, start, size, s, i)
        ensures TruncLogs(g, s, i).Count() <= LogMachine.MAXOPBLOCKS
      {
        TruncBound(g, start, size, s, i);
      }
    } else {
      var s := SpreadFile(g, start, size);
    }
  }

  const FSSIZE: nat := 40000

  /** The disk that mkfs makes has ten. */
  lemma TruncExceeds(start: nat)
    requires 0 < start < 4096
    ensures !TruncFits(Geometry(128, 16384, 2097152), start, FSSIZE)
  {
    var g := Geometry(128, 16384, 2097152);
    BitmapsAtMost(g, FSSIZE, 9);
    TruncFitsIff(g, start, FSSIZE);
  }
}
