/** When every chunk of filewrite keeps to MAXOPBLOCKS: exactly, for each height of the tree and each number of
    bitmap blocks. */
module OpExact {
  import opened Arith
  import opened BlockTree
  import opened InodeCode
  import opened FileBytes
  import opened OpLog
  import opened OpBudget
  import opened FileBuild
  import LogMachine

  // ---- what a chunk allocates ------------------------------------------------------------------

  lemma {:induction false} BitsCount(g: Geometry, bs: set<nat>)
    requires 0 < g.n
    ensures |BitsOf(g, bs)| <= |bs|
    decreases |bs|
  {
    if bs == {} {
      assert BitsOf(g, bs) == {};
    } else {
      var b :| b in bs;
      BitsCount(g, bs - {b});
      assert BitsOf(g, bs) == BitsOf(g, bs - {b}) + {BitBlock(g, b)};
    }
  }

  /** The block before the chunk, or that it begins in, is mapped: at most three data blocks are new. */
  lemma FreshSubset(g: Geometry, i: nat, lo: nat, hi: nat, c: nat, s: Tree, t: Tree)
    requires g.Valid() && 3 <= g.n && c <= lo < hi <= c + 4 && hi <= g.Limit() && Closed(s) && Place(g, i, c) in s
    requires Extends(s, t) && OnTheWay(g, i, lo, hi, s, t)
    ensures Fresh(s, t) <= Spanned(g, i, c + 1, hi, t) + Image(Touched(g, i, c, hi - 1), t)
  {
    hide Place, Touched, Extends, Closed;
    forall q | q in t && q !in s ensures t[q] in Spanned(g, i, c + 1, hi, t) + Image(Touched(g, i, c, hi - 1), t) {
      var bn :| lo <= bn < hi && Place(g, i, bn).Under(q);
      NewPlace(g, i, c, bn, hi - 1, s, q);
    }
  }

  lemma FirstFresh(g: Geometry, i: nat, hi: nat, s: Tree, t: Tree)
    requires g.Valid() && hi <= NDIRECT && OnTheWay(g, i, 0, hi, s, t)
    ensures Fresh(s, t) <= Spanned(g, i, 0, hi, t)
  {
    forall q | q in t && q !in s ensures t[q] in Spanned(g, i, 0, hi, t) {
      var bn :| 0 <= bn < hi && Place(g, i, bn).Under(q);
    }
  }

  lemma FreshCount(g: Geometry, i: nat, off: nat, n: nat, s: Snap, t: Tree, m: Logged, grows: bool)
    requires Ok(g, s) && 3 <= g.n && 0 < n <= 3 * g.BlockSize() && (off > 0 ==> Has(g, s, i, off - 1))
    requires ChunkLogs(g, i, off, n, s.tree, Nothing, t, m, grows)
    ensures |m.bits| <= 3 + IndexBound(g, BlockOf(g, off + n - 1))
  {
    hide Place, BlockOf, OffsetIn, Has, IndexBound, TreeOk, Fresh, Spanned, Image, Touched, BitsOf, Mapped, OnTheWay,
         Indexes;
    var lo, last := BlockOf(g, off), BlockOf(g, off + n - 1);
    BlockSpan(g, off, n);
    TreeClosed(g, s);
    BitsCount(g, Fresh(s.tree, t));
    if off == 0 {
      FirstOfFile(g);
      FirstFresh(g, i, last + 1, s.tree, t);
      SubsetCount(Fresh(s.tree, t), Spanned(g, i, 0, last + 1, t), {});
      SpannedCount(g, i, 0, last + 1, t);
    } else {
      var c := Before(g, s, i, off);
      FreshSubset(g, i, lo, last + 1, c, s.tree, t);
      SubsetCount(Fresh(s.tree, t), Spanned(g, i, c + 1, last + 1, t), Image(Touched(g, i, c, last), t));
      SpannedCount(g, i, c + 1, last + 1, t);
      ImageCount(Touched(g, i, c, last), t);
      TouchedCount(g, i, c, last);
    }
  }

  // ---- every chunk ---------------------------------------------------------------------------------

  /** The levels of index blocks above the block. */
  function Level(g: Geometry, bn: nat): nat {
    if bn < NDIRECT then 0 else if bn < NDIRECT + g.n then 1 else if bn < NDIRECT + g.n2 then 2 else 3
  }

  /** A chunk of writei takes the disk from `s` to `t` and logs `m`: the file has no holes below `off`, and balloc
      takes the first free block. */
  ghost predicate IsChunk(g: Geometry, start: nat, size: nat, i: nat, off: nat, n: nat, s: Snap, t: Snap, m: Logged,
                          grows: bool)
    requires g.Valid()
  {
    && FileOn(g, start, size, s, i) && FileOn(g, start, size, t, i) && 0 < n <= 3 * g.BlockSize()
    && (forall o: nat :: o < off ==> Has(g, s, i, o))
    && ChunkLogs(g, i, off, n, s.tree, Nothing, t.tree, m, grows) && FirstFit(start, s, t)
  }

  /** Every chunk on a disk of that size whose last block has `h` levels above it keeps to its reservation. */
  ghost predicate ChunksFit(g: Geometry, start: nat, size: nat, h: nat)
    requires g.Valid()
  {
    forall i: nat, off: nat, n: nat, s: Snap, t: Snap, m: Logged, grows: bool ::
      IsChunk(g, start, size, i, off, n, s, t, m, grows) && Level(g, BlockOf(g, off + n - 1)) == h ==>
      m.Count() <= LogMachine.MAXOPBLOCKS
  }

  lemma ChunkCount(g: Geometry, start: nat, size: nat, i: nat, off: nat, n: nat, s: Snap, t: Snap, m: Logged,
                   grows: bool)
    requires g.Valid() && 3 <= g.n && IsChunk(g, start, size, i, off, n, s, t, m, grows)
    ensures var h := Level(g, BlockOf(g, off + n - 1));
            var b := Bitmaps(g, size);
            m.Count() <= if h == 0 then 8 else if h == 1 then 10 else if h == 2 then 8 + b else 9 + b
  {
    hide Place, BlockOf, Has, TreeOk, Bitmaps, ChunkLogs, FirstFit;
    ChunkBudget(g, i, off, n, s, t.tree, m, grows);
    ChunkBits(g, i, off, n, s, t, m, grows);
    FreshCount(g, i, off, n, s, t.tree, m, grows);
  }

  // ---- a file that ends where the next chunk needs a new branch of the tree --------------------------------

  /** The index blocks of the file, and its data blocks below NDIRECT + Indirect(g, h). */
  function IndexBlocks(g: Geometry, h: nat): nat { if h == 2 then 1 else g.n + 1 }

  function Indirect(g: Geometry, h: nat): int { if h == 2 then g.n - 1 else g.n2 - 2 }

  function IndexNo(k: nat): Pos {
    if k == 0 then Root(0, NDIRECT) else if k == 1 then Root(0, NDIRECT + 1) else Sub(Root(0, NDIRECT + 1), k - 1)
  }

  /** The file's places, index blocks before what hangs below them. */
  function PlaceNo(g: Geometry, h: nat, j: nat): Pos
    requires g.Valid() && j < NDIRECT + IndexBlocks(g, h) + g.n3
  {
    if j < NDIRECT then Root(0, j)
    else if j < NDIRECT + IndexBlocks(g, h) then IndexNo(j - NDIRECT)
    else Place(g, 0, j - IndexBlocks(g, h))
  }

  function FilePlaces(g: Geometry, h: nat): nat
    requires g.Valid() && 3 <= g.n
  {
    NDIRECT + IndexBlocks(g, h) + Indirect(g, h)
  }

  lemma Sizes(g: Geometry)
    requires g.Valid() && 3 <= g.n
    ensures g.n * 3 <= g.n2 && g.n2 * 3 <= g.n3
  {
    MulMono(g.n, 3, g.n);
    MulMono(g.n2, 3, g.n);
  }

  lemma PlaceNoWithin(g: Geometry, h: nat, j: nat, ninodes: nat)
    requires g.Valid() && 3 <= g.n && (h == 2 || h == 3) && j < FilePlaces(g, h) && 0 < ninodes
    ensures j < NDIRECT + IndexBlocks(g, h) + g.n3
    ensures PlaceNo(g, h, j).Within(ninodes, g.n) && PlaceNo(g, h, j).Owner() == 0
    ensures PlaceNo(g, h, j).Height() > 0 <==> NDIRECT <= j < NDIRECT + IndexBlocks(g, h)
  {
    Sizes(g);
    if NDIRECT + IndexBlocks(g, h) <= j {
      PlaceWithin(g, 0, j - IndexBlocks(g, h), ninodes);
    } else if NDIRECT + 2 <= j {
      ChildWithin(Root(0, NDIRECT + 1), ninodes, g.n, j - NDIRECT - 1);
    }
  }

  lemma DoubleParent(g: Geometry, h: nat, j: nat) returns (k: nat)
    requires g.Valid() && 3 <= g.n && h == 3 && j < FilePlaces(g, h) && j < NDIRECT + IndexBlocks(g, h) + g.n3
    requires NDIRECT + g.n <= j - IndexBlocks(g, h) < NDIRECT + g.n2
    ensures k < j && k < NDIRECT + IndexBlocks(g, h) + g.n3
    ensures PlaceNo(g, h, j).Sub? && PlaceNo(g, h, k) == PlaceNo(g, h, j).parent
  {
    var d := j - IndexBlocks(g, h) - NDIRECT;
    DivLess(d, g.n, g.n);
    DivLessIff(d, g.n, 1);
    var q := d / g.n;
    k := NDIRECT + 1 + q;
    assert 1 <= q < g.n && PlaceNo(g, h, k) == Sub(Root(0, NDIRECT + 1), q);
  }

  /** The place of a block's parent in the list. */
  lemma PlaceNoParent(g: Geometry, h: nat, j: nat) returns (k: nat)
    requires g.Valid() && 3 <= g.n && (h == 2 || h == 3) && j < FilePlaces(g, h)
    requires j < NDIRECT + IndexBlocks(g, h) + g.n3
    requires PlaceNo(g, h, j).Sub?
    ensures k < j && k < NDIRECT + IndexBlocks(g, h) + g.n3 && PlaceNo(g, h, k) == PlaceNo(g, h, j).parent
  {
    Sizes(g);
    if j < NDIRECT + IndexBlocks(g, h) {
      k := NDIRECT + 1;
    } else if j - IndexBlocks(g, h) < NDIRECT + g.n {
      k := NDIRECT;
    } else {
      k := DoubleParent(g, h, j);
    }
  }

  lemma PlaceNoApart(g: Geometry, h: nat, j: nat, k: nat)
    requires g.Valid() && 3 <= g.n && (h == 2 || h == 3) && j < k < FilePlaces(g, h)
    ensures k < NDIRECT + IndexBlocks(g, h) + g.n3 && PlaceNo(g, h, j) != PlaceNo(g, h, k)
  {
    PlaceNoWithin(g, h, j, 1);
    PlaceNoWithin(g, h, k, 1);
    if NDIRECT + IndexBlocks(g, h) <= j && PlaceNo(g, h, j) == PlaceNo(g, h, k) {
      PlaceInjective(g, 0, j - IndexBlocks(g, h), 0, k - IndexBlocks(g, h));
    }
  }

  /** The places that the chunk makes new, in the order in which bmap does. */
  function NewNo(g: Geometry, h: nat, j: nat): Pos
    requires g.Valid() && 3 <= g.n
  {
    if h == 2 then
      (if j == 0 then Sub(Root(0, NDIRECT), g.n - 1)
       else if j == 1 then Root(0, NDIRECT + 1)
       else if j == 2 then Sub(Root(0, NDIRECT + 1), 1)
       else if j == 3 then Sub(Sub(Root(0, NDIRECT + 1), 1), 0)
       else Sub(Sub(Root(0, NDIRECT + 1), 1), 1))
    else
      (if j == 0 then Sub(Sub(Root(0, NDIRECT + 1), g.n - 1), g.n - 2)
       else if j == 1 then Sub(Sub(Root(0, NDIRECT + 1), g.n - 1), g.n - 1)
       else if j == 2 then Root(0, NDIRECT + 2)
       else if j == 3 then Sub(Root(0, NDIRECT + 2), 1)
       else if j == 4 then Sub(Sub(Root(0, NDIRECT + 2), 1), 0)
       else Sub(Sub(Sub(Root(0, NDIRECT + 2), 1), 0), 0))
  }

  /** How many they are. */
  function NewPlaces(h: nat): nat { if h == 2 then 5 else 6 }

  lemma NewNoIs(g: Geometry, h: nat)
    requires g.Valid() && 3 <= g.n && (h == 2 || h == 3)
    ensures NDIRECT + Indirect(g, h) + 2 < g.Limit() && 0 <= Indirect(g, h)
    ensures var c := NDIRECT + Indirect(g, h);
            if h == 2
            then Place(g, 0, c) == NewNo(g, h, 0) && Place(g, 0, c + 1) == NewNo(g, h, 3)
                 && Place(g, 0, c + 2) == NewNo(g, h, 4)
            else Place(g, 0, c) == NewNo(g, h, 0) && Place(g, 0, c + 1) == NewNo(g, h, 1)
                 && Place(g, 0, c + 2) == NewNo(g, h, 5)
  {
    Sizes(g);
    if h == 2 {
      DivModUnique(g.n, g.n, 1, 0);
      DivModUnique(g.n + 1, g.n, 1, 1);
    } else {
      assert g.n * (g.n - 1) == g.n2 - g.n;
      DivModUnique(g.n2 - 2, g.n, g.n - 1, g.n - 2);
      DivModUnique(g.n2 - 1, g.n, g.n - 1, g.n - 1);
      DivModUnique(g.n2, g.n2, 1, 0);
      DivModUnique(g.n2, g.n, g.n, 0);
    }
  }

  lemma NewNoWithin(g: Geometry, h: nat, k: nat, ninodes: nat)
    requires g.Valid() && 3 <= g.n && (h == 2 || h == 3) && k < NewPlaces(h) && 0 < ninodes
    ensures NewNo(g, h, k).Within(ninodes, g.n) && NewNo(g, h, k).Owner() == 0
  {
    PathsWithin(0, ninodes, g.n, g.n - 1, 0, 0);
    PathsWithin(0, ninodes, g.n, 1, 0, 0);
    PathsWithin(0, ninodes, g.n, 1, 1, 0);
    PathsWithin(0, ninodes, g.n, g.n - 1, g.n - 2, 0);
    PathsWithin(0, ninodes, g.n, g.n - 1, g.n - 1, 0);
  }

  lemma PlacesDiffer(g: Geometry, x: nat, y: nat)
    requires g.Valid() && x < y < g.Limit()
    ensures Place(g, 0, x) != Place(g, 0, y)
  {
    if Place(g, 0, x) == Place(g, 0, y) { PlaceInjective(g, 0, x, 0, y); }
  }

  lemma NewNoApart(g: Geometry, h: nat, j: nat, k: nat)
    requires g.Valid() && 3 <= g.n && (h == 2 || h == 3) && j < FilePlaces(g, h) && k < NewPlaces(h)
    ensures j < NDIRECT + IndexBlocks(g, h) + g.n3 && PlaceNo(g, h, j) != NewNo(g, h, k)
  {
    PlaceNoWithin(g, h, j, 1);
    NewNoIs(g, h);
    if NDIRECT + IndexBlocks(g, h) <= j {
      var bn, c := j - IndexBlocks(g, h), NDIRECT + Indirect(g, h);
      PlacesDiffer(g, bn, c);
      PlacesDiffer(g, bn, c + 1);
      PlacesDiffer(g, bn, c + 2);
    }
  }

  lemma NewNoDistinct(g: Geometry, h: nat, j: nat, k: nat)
    requires g.Valid() && 3 <= g.n && (h == 2 || h == 3) && j < k < NewPlaces(h)
    ensures NewNo(g, h, j) != NewNo(g, h, k)
  {
  }

  // ---- where the blocks lie ------------------------------------------------------------------------------

  /** The free blocks are `f` to `f + r - 1` and `x`. */
  predicate FreeAt(f: nat, r: nat, x: nat, b: nat) { f <= b < f + r || b == x }

  /** The `j`-th of the other blocks. */
  function TakenNo(start: nat, f: nat, r: nat, x: nat, j: nat): nat {
    if start + j < f then start + j else if start + j + r < x then start + j + r else start + j + r + 1
  }

  function FreeNo(f: nat, r: nat, x: nat, k: nat): nat { if k < r then f + k else x }

  lemma TakenApart(start: nat, f: nat, r: nat, x: nat, j: nat, k: nat)
    requires start <= f && f + r <= x && j < k
    ensures start <= TakenNo(start, f, r, x, j) < TakenNo(start, f, r, x, k)
    ensures !FreeAt(f, r, x, TakenNo(start, f, r, x, j))
  {
  }

  lemma TakenOrFree(start: nat, f: nat, r: nat, x: nat, b: nat)
    requires start <= b < x && start <= f && f + r <= x && !FreeAt(f, r, x, b)
    ensures exists j: nat :: j < x - start - r && TakenNo(start, f, r, x, j) == b
  {
    assert TakenNo(start, f, r, x, if b < f then b - start else b - start - r) == b;
  }

  /** What the witness needs of the disk. */
  predicate Fitting(g: Geometry, h: nat, start: nat, size: nat, f: nat, x: nat) {
    && g.Valid() && 3 <= g.n && (h == 2 || h == 3) && 0 < start <= f && f + NewPlaces(h) - 1 <= x < size <= UINT
    && FilePlaces(g, h) + NewPlaces(h) <= size - start
  }

  /** The file's blocks, and those of other files, which fill the disk up to `x` but for the free blocks. */
  function Filled(g: Geometry, h: nat, start: nat, x: nat): nat
    requires g.Valid() && 3 <= g.n && (h == 2 || h == 3)
  {
    if FilePlaces(g, h) < x - start - (NewPlaces(h) - 1) then x - start - (NewPlaces(h) - 1) else FilePlaces(g, h)
  }

  ghost function PlanPlaces(g: Geometry, h: nat, start: nat, x: nat): (ps: seq<Pos>)
    requires g.Valid() && 3 <= g.n && (h == 2 || h == 3)
    ensures |ps| == Filled(g, h, start, x) + NewPlaces(h)
    ensures forall j :: 0 <= j < |ps| ==> ps[j] == PlanPlace(g, h, start, x, j)
  {
    seq(Filled(g, h, start, x) + NewPlaces(h), j requires 0 <= j => PlanPlace(g, h, start, x, j))
  }

  ghost function PlanPlace(g: Geometry, h: nat, start: nat, x: nat, j: nat): Pos
    requires g.Valid() && 3 <= g.n && (h == 2 || h == 3)
  {
    if j < FilePlaces(g, h) then PlaceNoWithin(g, h, j, 1); PlaceNo(g, h, j)
    else if j < Filled(g, h, start, x) then Root(1 + j / NDIRECT, j % NDIRECT)
    else NewNo(g, h, j - Filled(g, h, start, x))
  }

  ghost function PlanBlocks(g: Geometry, h: nat, start: nat, f: nat, x: nat): (bs: seq<nat>)
    requires g.Valid() && 3 <= g.n && (h == 2 || h == 3)
    ensures |bs| == Filled(g, h, start, x) + NewPlaces(h)
    ensures forall j :: 0 <= j < |bs| ==> bs[j] == PlanBlock(g, h, start, f, x, j)
  {
    seq(Filled(g, h, start, x) + NewPlaces(h), j requires 0 <= j => PlanBlock(g, h, start, f, x, j))
  }

  ghost function PlanBlock(g: Geometry, h: nat, start: nat, f: nat, x: nat, j: nat): nat
    requires g.Valid() && 3 <= g.n && (h == 2 || h == 3)
  {
    var r, n := NewPlaces(h) - 1, Filled(g, h, start, x);
    if j < n then TakenNo(start, f, r, x, j) else FreeNo(f, r, x, j - n)
  }

  lemma PlanBlocksOk(g: Geometry, h: nat, start: nat, size: nat, f: nat, x: nat)
    requires Fitting(g, h, start, size, f, x)
    ensures var bs := PlanBlocks(g, h, start, f, x);
            Distinct(bs) && forall j :: 0 <= j < |bs| ==> start <= bs[j] < size
  {
    hide FilePlaces;
    var bs, r, n := PlanBlocks(g, h, start, f, x), NewPlaces(h) - 1, Filled(g, h, start, x);
    forall j, k | 0 <= j < k < |bs| ensures bs[j] != bs[k] {
      TakenApart(start, f, r, x, j, k);
    }
  }

  lemma PlanPlaceApart(g: Geometry, h: nat, start: nat, x: nat, j: nat, k: nat)
    requires g.Valid() && 3 <= g.n && (h == 2 || h == 3) && j < k < Filled(g, h, start, x) + NewPlaces(h)
    ensures PlanPlace(g, h, start, x, j) != PlanPlace(g, h, start, x, k)
  {
    hide FilePlaces, PlaceNo, NewNo;
    var n := Filled(g, h, start, x);
    if j < FilePlaces(g, h) { PlaceNoWithin(g, h, j, 1); }
    if n <= k { NewNoWithin(g, h, k - n, 1); }
    if k < FilePlaces(g, h) {
      PlaceNoApart(g, h, j, k);
    } else if j < FilePlaces(g, h) && n <= k {
      NewNoApart(g, h, j, k - n);
    } else if n <= j {
      NewNoDistinct(g, h, j - n, k - n);
    }
  }

  lemma PlanPlaceWithin(g: Geometry, h: nat, start: nat, x: nat, j: nat)
    requires g.Valid() && 3 <= g.n && (h == 2 || h == 3) && j < Filled(g, h, start, x) + NewPlaces(h)
    ensures PlanPlace(g, h, start, x, j).Within(Filled(g, h, start, x) + 2, g.n)
  {
    hide FilePlaces, PlaceNo, NewNo;
    var n := Filled(g, h, start, x);
    if j < FilePlaces(g, h) {
      PlaceNoWithin(g, h, j, n + 2);
    } else if n <= j {
      NewNoWithin(g, h, j - n, n + 2);
    }
  }

  lemma PlanParent(g: Geometry, h: nat, start: nat, x: nat, j: nat)
    requires g.Valid() && 3 <= g.n && (h == 2 || h == 3) && j < Filled(g, h, start, x) + NewPlaces(h)
    requires PlanPlace(g, h, start, x, j).Sub?
    ensures Among(PlanPlaces(g, h, start, x), j, PlanPlace(g, h, start, x, j).parent)
  {
    var ps, n := PlanPlaces(g, h, start, x), Filled(g, h, start, x);
    if j < FilePlaces(g, h) {
      PlaceNoWithin(g, h, j, 1);
      var k := PlaceNoParent(g, h, j);
      assert ps[k] == PlanPlace(g, h, start, x, j).parent;
    } else {
      var k := NewNoParent(g, h, j - n);
      assert ps[if k < FilePlaces(g, h) then k else n + (k - FilePlaces(g, h))] == PlanPlace(g, h, start, x, j).parent;
    }
  }

  /** The parent of a new place, on the list of the file's places or after it. */
  lemma NewNoParent(g: Geometry, h: nat, j: nat) returns (k: nat)
    requires g.Valid() && 3 <= g.n && (h == 2 || h == 3) && j < NewPlaces(h) && NewNo(g, h, j).Sub?
    ensures k < FilePlaces(g, h) + j
    ensures if k < FilePlaces(g, h) then k < NDIRECT + IndexBlocks(g, h) + g.n3
                                         && PlaceNo(g, h, k) == NewNo(g, h, j).parent
            else NewNo(g, h, k - FilePlaces(g, h)) == NewNo(g, h, j).parent
  {
    Sizes(g);
    if h == 2 {
      k := if j == 0 then NDIRECT else if j == 2 then FilePlaces(g, h) + 1 else FilePlaces(g, h) + 2;
    } else {
      k := if j < 2 then NDIRECT + g.n else FilePlaces(g, h) + j - 1;
    }
  }

  lemma PlanIsOk(g: Geometry, h: nat, start: nat, size: nat, f: nat, x: nat)
    requires Fitting(g, h, start, size, f, x)
    ensures PlanOk(g, size, Filled(g, h, start, x) + 2, PlanPlaces(g, h, start, x), PlanBlocks(g, h, start, f, x))
  {
    hide FilePlaces, PlaceNo, NewNo, PlanPlace, PlanBlock, Among, Filled;
    var ps := PlanPlaces(g, h, start, x);
    PlanBlocksOk(g, h, start, size, f, x);
    forall j, k | 0 <= j < k < |ps| ensures ps[j] != ps[k] { PlanPlaceApart(g, h, start, x, j, k); }
    forall j | 0 <= j < |ps|
      ensures ps[j].Within(Filled(g, h, start, x) + 2, g.n) && (ps[j].Sub? ==> Among(ps, j, ps[j].parent))
    {
      PlanPlaceWithin(g, h, start, x, j);
      if ps[j].Sub? { PlanParent(g, h, start, x, j); }
    }
  }

  // ---- the chunk that goes over --------------------------------------------------------------------------

  /** The file ends with block `LastNo`, one byte of which is written. */
  function LastNo(g: Geometry, h: nat): nat
    requires g.Valid() && 3 <= g.n && (h == 2 || h == 3)
  {
    Sizes(g);
    NDIRECT + Indirect(g, h) - 1
  }

  /** The disks before and after. */
  ghost predicate Witness(g: Geometry, h: nat, start: nat, size: nat, f: nat, x: nat, s: Snap, t: Snap)
    requires g.Valid() && 3 <= g.n && (h == 2 || h == 3)
  {
    var ps, bs, n := PlanPlaces(g, h, start, x), PlanBlocks(g, h, start, f, x), Filled(g, h, start, x);
    && FileOn(g, start, size, s, 0) && FileOn(g, start, size, t, 0) && Laid(ps, bs, n, s) && Laid(ps, bs, |ps|, t)
  }

  lemma BuildBoth(g: Geometry, h: nat, start: nat, size: nat, f: nat, x: nat) returns (s: Snap, t: Snap)
    requires Fitting(g, h, start, size, f, x)
    ensures Witness(g, h, start, size, f, x, s, t)
  {
    hide FilePlaces, PlaceNo, NewNo, PlanPlace, PlanBlock, Filled, PlanOk, TreeOk, FileOn, Laid, Distinct;
    var ps, bs, n := PlanPlaces(g, h, start, x), PlanBlocks(g, h, start, f, x), Filled(g, h, start, x);
    PlanIsOk(g, h, start, size, f, x);
    PlanBlocksOk(g, h, start, size, f, x);
    s := BuildFile(g, start, size, n + 2, ps, bs, n);
    t := BuildFile(g, start, size, n + 2, ps, bs, |ps|);
  }

  lemma BuildFile(g: Geometry, start: nat, size: nat, ninodes: nat, ps: seq<Pos>, bs: seq<nat>, k: nat)
    returns (s: Snap)
    requires PlanOk(g, size, ninodes, ps, bs) && k <= |ps| == |bs| && 0 < ninodes
    requires forall j :: 0 <= j < |bs| ==> start <= bs[j] < size
    ensures FileOn(g, start, size, s, 0) && Laid(ps, bs, k, s)
  {
    hide PlanOk, TreeOk, Laid;
    s := Build(g, size, ninodes, ps, bs, k);
    forall b | b in s.owner ensures start <= b { var j := LaidOwner(ps, bs, k, s, b); }
  }

  lemma PlanAtFile(g: Geometry, h: nat, start: nat, x: nat, bn: nat) returns (j: nat)
    requires g.Valid() && 3 <= g.n && (h == 2 || h == 3) && bn <= LastNo(g, h)
    ensures bn < g.Limit() && j < FilePlaces(g, h) <= Filled(g, h, start, x)
    ensures PlanPlaces(g, h, start, x)[j] == Place(g, 0, bn)
  {
    Sizes(g);
    j := if bn < NDIRECT then bn else bn + IndexBlocks(g, h);
    PlaceNoWithin(g, h, j, 1);
    assert PlanPlace(g, h, start, x, j) == PlaceNo(g, h, j);
  }

  lemma PlanAtNew(g: Geometry, h: nat, start: nat, f: nat, x: nat, k: nat)
    requires g.Valid() && 3 <= g.n && (h == 2 || h == 3) && k < NewPlaces(h)
    ensures PlanPlaces(g, h, start, x)[Filled(g, h, start, x) + k] == NewNo(g, h, k)
    ensures PlanBlocks(g, h, start, f, x)[Filled(g, h, start, x) + k] == FreeNo(f, NewPlaces(h) - 1, x, k)
  {
    hide FilePlaces, PlaceNo, NewNo, FreeNo, TakenNo;
  }

  lemma PlanDistinct(g: Geometry, h: nat, start: nat, size: nat, f: nat, x: nat)
    requires Fitting(g, h, start, size, f, x)
    ensures Distinct(PlanPlaces(g, h, start, x))
  {
    hide FilePlaces, PlaceNo, NewNo, PlanPlace, PlanBlock, Among, Filled;
    PlanIsOk(g, h, start, size, f, x);
  }

  /** The file's blocks are where the plan puts them. */
  lemma FileMapped(g: Geometry, h: nat, start: nat, size: nat, f: nat, x: nat, s: Snap, t: Snap, bn: nat)
    requires Fitting(g, h, start, size, f, x) && Witness(g, h, start, size, f, x, s, t) && bn <= LastNo(g, h)
    ensures bn < g.Limit() && Place(g, 0, bn) in s.tree
  {
    hide FileOn, Laid, PlanPlaces, PlanBlocks, FilePlaces, Filled, Place;
    var j := PlanAtFile(g, h, start, x, bn);
    LaidAt(PlanPlaces(g, h, start, x), PlanBlocks(g, h, start, f, x), Filled(g, h, start, x), s, j);
  }

  lemma NewMapped(g: Geometry, h: nat, start: nat, size: nat, f: nat, x: nat, s: Snap, t: Snap, k: nat)
    requires Fitting(g, h, start, size, f, x) && Witness(g, h, start, size, f, x, s, t) && k < NewPlaces(h)
    ensures NewNo(g, h, k) in t.tree && NewNo(g, h, k) !in s.tree
    ensures t.tree[NewNo(g, h, k)] == FreeNo(f, NewPlaces(h) - 1, x, k)
  {
    hide FileOn, Laid, PlanPlaces, PlanBlocks, FilePlaces, Filled, NewNo;
    var ps, bs, n := PlanPlaces(g, h, start, x), PlanBlocks(g, h, start, f, x), Filled(g, h, start, x);
    PlanAtNew(g, h, start, f, x, k);
    PlanDistinct(g, h, start, size, f, x);
    LaidAt(ps, bs, |ps|, t, n + k);
    LaidNot(ps, bs, n, s, n + k);
  }

  lemma OnlyNew(g: Geometry, h: nat, start: nat, size: nat, f: nat, x: nat, s: Snap, t: Snap, q: Pos) returns (k: nat)
    requires Fitting(g, h, start, size, f, x) && Witness(g, h, start, size, f, x, s, t) && q in t.tree && q !in s.tree
    ensures k < NewPlaces(h) && q == NewNo(g, h, k)
  {
    hide FileOn, Laid, PlanPlaces, PlanBlocks, FilePlaces, Filled, NewNo;
    var ps, bs, n := PlanPlaces(g, h, start, x), PlanBlocks(g, h, start, f, x), Filled(g, h, start, x);
    var j := LaidOnly(ps, bs, |ps|, t, q);
    if j < n {
      LaidAt(ps, bs, n, s, j);
      assert false;
    }
    k := j - n;
    PlanAtNew(g, h, start, f, x, k);
  }

  lemma WitnessExtends(g: Geometry, h: nat, start: nat, size: nat, f: nat, x: nat, s: Snap, t: Snap)
    requires Fitting(g, h, start, size, f, x) && Witness(g, h, start, size, f, x, s, t)
    ensures Extends(s.tree, t.tree)
  {
    hide Laid, PlanPlaces, PlanBlocks, FilePlaces, Filled, TreeOk;
    TreeClosed(g, t);
    var ps, bs, n := PlanPlaces(g, h, start, x), PlanBlocks(g, h, start, f, x), Filled(g, h, start, x);
    forall q | q in s.tree ensures q in t.tree && t.tree[q] == s.tree[q] {
      var j := LaidOnly(ps, bs, n, s, q);
      LaidAt(ps, bs, n, s, j);
      LaidAt(ps, bs, |ps|, t, j);
    }
  }

  lemma WitnessFirstFit(g: Geometry, h: nat, start: nat, size: nat, f: nat, x: nat, s: Snap, t: Snap)
    requires Fitting(g, h, start, size, f, x) && Witness(g, h, start, size, f, x, s, t)
    ensures FirstFit(start, s, t)
  {
    hide FileOn, Laid, PlanPlaces, PlanBlocks, FilePlaces, Filled, NewNo, FreeNo;
    var ps, bs, n := PlanPlaces(g, h, start, x), PlanBlocks(g, h, start, f, x), Filled(g, h, start, x);
    forall b | b in s.owner ensures b in t.owner {
      var j := LaidOwner(ps, bs, n, s, b);
      LaidAt(ps, bs, |ps|, t, j);
    }
    forall q, b | q in t.tree && q !in s.tree && start <= b < t.tree[q] ensures b in t.owner {
      var k := OnlyNew(g, h, start, size, f, x, s, t, q);
      NewMapped(g, h, start, size, f, x, s, t, k);
      var j := PlanCovers(g, h, start, size, f, x, k, b);
      LaidAt(ps, bs, |ps|, t, j);
    }
  }

  /** Up to `x` every block is on the plan. */
  lemma PlanCovers(g: Geometry, h: nat, start: nat, size: nat, f: nat, x: nat, k: nat, b: nat) returns (j: nat)
    requires Fitting(g, h, start, size, f, x) && k < NewPlaces(h) && start <= b < FreeNo(f, NewPlaces(h) - 1, x, k)
    ensures j < |PlanBlocks(g, h, start, f, x)| && PlanBlocks(g, h, start, f, x)[j] == b
  {
    hide FilePlaces;
    var r, n := NewPlaces(h) - 1, Filled(g, h, start, x);
    if FreeAt(f, r, x, b) {
      j := n + (b - f);
      PlanAtNew(g, h, start, f, x, b - f);
    } else {
      TakenOrFree(start, f, r, x, b);
      j :| 0 <= j < x - start - r && TakenNo(start, f, r, x, j) == b;
    }
  }

  lemma ChunkPlaces(g: Geometry, h: nat)
    requires g.Valid() && 3 <= g.n && (h == 2 || h == 3)
    ensures var c := LastNo(g, h);
            && c + 3 < g.Limit() && Level(g, c + 3) == h && Place(g, 0, c + 1) == NewNo(g, h, 0)
            && Place(g, 0, c + 2) == NewNo(g, h, if h == 2 then 3 else 1)
              && Place(g, 0, c + 3) == NewNo(g, h, if h == 2 then 4 else 5)
  {
    Sizes(g);
    NewNoIs(g, h);
  }

  /** Which block of the chunk a new place is on the way to. */
  lemma NewOnTheWay(g: Geometry, h: nat, k: nat) returns (bn: nat)
    requires g.Valid() && 3 <= g.n && (h == 2 || h == 3) && k < NewPlaces(h)
    ensures LastNo(g, h) < bn <= LastNo(g, h) + 3 && bn < g.Limit() && Place(g, 0, bn).Under(NewNo(g, h, k))
  {
    ChunkPlaces(g, h);
    var c := LastNo(g, h);
    bn := if k == 0 then c + 1
          else if h == 2 then (if k < 4 then c + 2 else c + 3)
          else if k == 1 then c + 2
          else c + 3;
    NewUnder(g, h, k);
  }

  lemma NewUnder(g: Geometry, h: nat, k: nat)
    requires g.Valid() && 3 <= g.n && (h == 2 || h == 3) && k < NewPlaces(h)
    ensures NewNo(g, h, k).Under(NewNo(g, h, k))
    ensures h == 2 && 1 <= k <= 3 ==> NewNo(g, h, 3).Under(NewNo(g, h, k))
    ensures h == 3 && 2 <= k <= 5 ==> NewNo(g, h, 5).Under(NewNo(g, h, k))
  {
    if h == 2 {
      assert NewNo(g, h, 2).Under(NewNo(g, h, 1));
    } else {
      assert NewNo(g, h, 3).Under(NewNo(g, h, 2));
      assert NewNo(g, h, 4).Under(NewNo(g, h, 3)) && NewNo(g, h, 4).Under(NewNo(g, h, 2));
    }
  }

  lemma WitnessMapped(g: Geometry, h: nat, start: nat, size: nat, f: nat, x: nat, s: Snap, t: Snap)
    requires Fitting(g, h, start, size, f, x) && Witness(g, h, start, size, f, x, s, t)
    ensures LastNo(g, h) + 4 <= g.Limit() && Mapped(g, 0, LastNo(g, h), LastNo(g, h) + 4, t.tree)
    ensures OnTheWay(g, 0, LastNo(g, h), LastNo(g, h) + 4, s.tree, t.tree)
  {
    hide Witness, Fitting, LastNo, Place, NewNo, Extends;
    FittingFacts(g, h, start, size, f, x);
    var c := LastNo(g, h);
    ChunkPlaces(g, h);
    FileMapped(g, h, start, size, f, x, s, t, c);
    WitnessExtends(g, h, start, size, f, x, s, t);
    Kept(s.tree, t.tree, Place(g, 0, c));
    NewMapped(g, h, start, size, f, x, s, t, 0);
    NewMapped(g, h, start, size, f, x, s, t, if h == 2 then 3 else 1);
    NewMapped(g, h, start, size, f, x, s, t, if h == 2 then 4 else 5);
    forall bn | c <= bn < c + 4 ensures Place(g, 0, bn) in t.tree {}
    forall q | q in t.tree && q !in s.tree ensures exists bn :: c <= bn < c + 4 && Place(g, 0, bn).Under(q) {
      var k := OnlyNew(g, h, start, size, f, x, s, t, q);
      var bn := NewOnTheWay(g, h, k);
    }
  }

  lemma Kept(s: Tree, t: Tree, p: Pos)
    requires Extends(s, t) && p in s
    ensures p in t && t[p] == s[p]
  {
  }

  lemma FittingFacts(g: Geometry, h: nat, start: nat, size: nat, f: nat, x: nat)
    requires Fitting(g, h, start, size, f, x)
    ensures g.Valid() && 3 <= g.n && (h == 2 || h == 3)
  {
  }

  /** What the chunk logs. */
  ghost function WitnessLog(g: Geometry, h: nat, s: Snap, t: Snap): Logged
    requires g.Valid() && 3 <= g.n && (h == 2 || h == 3) && LastNo(g, h) + 4 <= g.Limit()
  {
    var added := Fresh(s.tree, t.tree);
    Logged(BitsOf(g, added), added + Indexes(s.tree, t.tree) + Spanned(g, 0, LastNo(g, h), LastNo(g, h) + 4, t.tree),
        {0})
  }

  lemma ChunkBytes(g: Geometry, c: nat)
    requires 0 < g.n
    ensures BlockOf(g, c * g.BlockSize() + 1) == c && BlockOf(g, c * g.BlockSize() + 1 + 3 * g.BlockSize() - 1) == c + 3
    ensures forall o: nat :: o < c * g.BlockSize() + 1 ==> BlockOf(g, o) <= c
  {
    var b := g.BlockSize();
    DivModUnique(c * b + 1, b, c, 1);
    DivModUnique(c * b + 3 * b, b, c + 3, 0);
    forall o: nat | o < c * b + 1 ensures BlockOf(g, o) <= c { DivLessIff(o, b, c + 1); }
  }

  lemma WitnessIsChunk(g: Geometry, h: nat, start: nat, size: nat, f: nat, x: nat, s: Snap, t: Snap)
    requires Fitting(g, h, start, size, f, x) && Witness(g, h, start, size, f, x, s, t)
    ensures LastNo(g, h) + 4 <= g.Limit()
    ensures var off := LastNo(g, h) * g.BlockSize() + 1;
            && IsChunk(g, start, size, 0, off, 3 * g.BlockSize(), s, t, WitnessLog(g, h, s, t), true)
            && Level(g, BlockOf(g, off + 3 * g.BlockSize() - 1)) == h
  {
    hide LastNo, Place, NewNo, Extends, Mapped, OnTheWay, Fresh, Indexes, Spanned, BitsOf, FirstFit, FilePlaces, Level,
         PlanPlaces, PlanBlocks, Filled, Laid, TreeOk, BlockOf;
    var c := LastNo(g, h);
    ChunkPlaces(g, h);
    ChunkBytes(g, c);
    WitnessExtends(g, h, start, size, f, x, s, t);
    WitnessFirstFit(g, h, start, size, f, x, s, t);
    WitnessMapped(g, h, start, size, f, x, s, t);
    forall o: nat | o < c * g.BlockSize() + 1 ensures Has(g, s, 0, o) {
      FileMapped(g, h, start, size, f, x, s, t, BlockOf(g, o));
    }
    var m := WitnessLog(g, h, s, t);
    assert m.(inodes := {}) == Logged(m.bits, m.blocks, {});
  }

  /** The numbers from `f` to `f + r - 1`. */
  ghost function Range(f: nat, r: nat): (bs: set<nat>)
    ensures |bs| == r && forall b :: b in bs <==> f <= b < f + r
  {
    if r == 0 then {} else Range(f, r - 1) + {f + r - 1}
  }

  lemma TakenAt(g: Geometry, h: nat, start: nat, size: nat, f: nat, x: nat, s: Snap, t: Snap, j: nat)
    requires Fitting(g, h, start, size, f, x) && Witness(g, h, start, size, f, x, s, t) && j < FilePlaces(g, h)
    ensures j < NDIRECT + IndexBlocks(g, h) + g.n3 && PlaceNo(g, h, j) in t.tree
    ensures !FreeAt(f, NewPlaces(h) - 1, x, t.tree[PlaceNo(g, h, j)])
  {
    hide FileOn, Laid, FilePlaces, PlaceNo, NewNo, Filled;
    var ps, bs := PlanPlaces(g, h, start, x), PlanBlocks(g, h, start, f, x);
    FilledAll(g, h, start, x);
    PlaceNoWithin(g, h, j, 1);
    assert ps[j] == PlanPlace(g, h, start, x, j);
    LaidAt(ps, bs, |ps|, t, j);
    TakenApart(start, f, NewPlaces(h) - 1, x, j, j + 1);
  }

  lemma FilledAll(g: Geometry, h: nat, start: nat, x: nat)
    requires g.Valid() && 3 <= g.n && (h == 2 || h == 3)
    ensures FilePlaces(g, h) <= Filled(g, h, start, x)
  {
  }

  /** The block that the chunk begins in, and the index block of the first new one. */
  lemma TwoMore(g: Geometry, h: nat, start: nat, size: nat, f: nat, x: nat, s: Snap, t: Snap) returns (y: nat, z: nat)
    requires Fitting(g, h, start, size, f, x) && Witness(g, h, start, size, f, x, s, t) && LastNo(g, h) + 4 <= g.Limit()
    ensures y != z && !FreeAt(f, NewPlaces(h) - 1, x, y) && !FreeAt(f, NewPlaces(h) - 1, x, z)
    ensures y in Spanned(g, 0, LastNo(g, h), LastNo(g, h) + 4, t.tree) && z in Indexes(s.tree, t.tree)
  {
    hide Witness, FreeAt, Extends, Place;
    var c := LastNo(g, h);
    var j := c + IndexBlocks(g, h);
    var k := NewNoParent(g, h, 0);
    TakenAt(g, h, start, size, f, x, s, t, j);
    TakenAt(g, h, start, size, f, x, s, t, k);
    NewMapped(g, h, start, size, f, x, s, t, 0);
    y, z := t.tree[PlaceNo(g, h, j)], t.tree[PlaceNo(g, h, k)];
    assert PlaceNo(g, h, j) == Place(g, 0, c) && PlaceNo(g, h, k) == NewNo(g, h, 0).parent;
    PlaceNoWithin(g, h, j, 1);
    PlaceNoWithin(g, h, k, 1);
    NewNoWithin(g, h, 0, 1);
    assert k != j;
    PlaceNoApart(g, h, k, j);
    WitnessInjective(g, h, start, size, f, x, s, t, PlaceNo(g, h, j), PlaceNo(g, h, k));
    assert z in Indexes(s.tree, t.tree);
  }

  lemma WitnessInjective(g: Geometry, h: nat, start: nat, size: nat, f: nat, x: nat, s: Snap, t: Snap, p: Pos, q: Pos)
    requires Fitting(g, h, start, size, f, x) && Witness(g, h, start, size, f, x, s, t) && p in t.tree && q in t.tree
    requires p != q
    ensures t.tree[p] != t.tree[q]
  {
    hide Laid, PlanPlaces, PlanBlocks, FilePlaces, Filled;
  }

  lemma WitnessFree(g: Geometry, h: nat, start: nat, size: nat, f: nat, x: nat, s: Snap, t: Snap, b: nat)
    requires Fitting(g, h, start, size, f, x) && Witness(g, h, start, size, f, x, s, t)
    requires FreeAt(f, NewPlaces(h) - 1, x, b)
    ensures b in Fresh(s.tree, t.tree)
  {
    hide Witness, NewNo, FilePlaces;
    NewMapped(g, h, start, size, f, x, s, t, if b == x then NewPlaces(h) - 1 else b - f);
  }

  lemma WitnessCount(g: Geometry, h: nat, start: nat, size: nat, f: nat, x: nat, s: Snap, t: Snap)
    requires Fitting(g, h, start, size, f, x) && Witness(g, h, start, size, f, x, s, t) && LastNo(g, h) + 4 <= g.Limit()
    ensures |WitnessLog(g, h, s, t).blocks| >= NewPlaces(h) + 2
    ensures forall b :: FreeAt(f, NewPlaces(h) - 1, x, b) ==> BitBlock(g, b) in WitnessLog(g, h, s, t).bits
  {
    hide Witness, LastNo, Fresh, Indexes, Spanned, FilePlaces;
    var r, m := NewPlaces(h) - 1, WitnessLog(g, h, s, t);
    var y, z := TwoMore(g, h, start, size, f, x, s, t);
    forall b: nat | FreeAt(f, r, x, b) ensures b in Fresh(s.tree, t.tree) {
      WitnessFree(g, h, start, size, f, x, s, t, b);
    }
    var range := Range(f, r);
    assert |range + {x} + {y} + {z}| == r + 3;
    assert range + {x} + {y} + {z} <= m.blocks;
    SubsetCount(range + {x} + {y} + {z}, m.blocks, {});
  }

  /** The bits of the free blocks are in three bitmap blocks, or in two. */
  predicate Straddles(g: Geometry, h: nat, f: nat, x: nat)
    requires 0 < g.n
  {
    if h == 2 then f == BitsPerBlock(g) - 1 && x == 2 * BitsPerBlock(g) else f < BitsPerBlock(g) <= x == f + 5
  }

  lemma StraddleBits(g: Geometry, h: nat, f: nat, x: nat, bits: set<nat>)
    requires 0 < g.n && (h == 2 || h == 3) && Straddles(g, h, f, x)
    requires forall b :: FreeAt(f, NewPlaces(h) - 1, x, b) ==> BitBlock(g, b) in bits
    ensures |bits| >= 5 - h
  {
    var p := BitsPerBlock(g);
    assert FreeAt(f, NewPlaces(h) - 1, x, f) && FreeAt(f, NewPlaces(h) - 1, x, x);
    DivModUnique(f, p, 0, f);
    if h == 2 {
      assert FreeAt(f, 4, x, p);
      DivModUnique(p, p, 1, 0);
      DivModUnique(2 * p, p, 2, 0);
      assert BitBlock(g, f) == 0 && BitBlock(g, p) == 1 && BitBlock(g, x) == 2;
      SubsetCount({0, 1, 2}, bits, {});
    } else {
      DivModUnique(x, p, 1, x - p);
      assert BitBlock(g, f) == 0 && BitBlock(g, x) == 1;
      SubsetCount({0, 1}, bits, {});
    }
  }

  /** A chunk that logs eleven blocks or more. */
  lemma ChunkExceeds(g: Geometry, h: nat, start: nat, size: nat, f: nat, x: nat)
    requires Fitting(g, h, start, size, f, x) && Straddles(g, h, f, x)
    ensures !ChunksFit(g, start, size, h)
  {
    hide Witness, LastNo, FilePlaces, IsChunk, Level, WitnessLog, BlockOf;
    var s, t := BuildBoth(g, h, start, size, f, x);
    WitnessIsChunk(g, h, start, size, f, x, s, t);
    WitnessCount(g, h, start, size, f, x, s, t);
    StraddleBits(g, h, f, x, WitnessLog(g, h, s, t).bits);
    LogsInode(g, h, s, t);
  }

  lemma LogsInode(g: Geometry, h: nat, s: Snap, t: Snap)
    requires g.Valid() && 3 <= g.n && (h == 2 || h == 3) && LastNo(g, h) + 4 <= g.Limit()
    ensures |WitnessLog(g, h, s, t).inodes| == 1
  {
  }

  // ---- how long a file can be -------------------------------------------------------------------------------

  /** The disk is large enough for a file with triple-indirect blocks. */
  predicate HoldsTriple(g: Geometry, start: nat, size: nat) { start + g.n2 + g.n + NDIRECT + 5 <= size }

  /** Blocks up to the first triple-indirect one are mapped, and with them their index blocks. */
  ghost predicate UpToTriple(g: Geometry, t: Tree)
    requires g.Valid()
  {
    && Closed(t) && NDIRECT + g.n2 < g.Limit()
    && forall bn: nat :: bn <= NDIRECT + g.n2 ==> Place(g, 0, bn) in t
  }

  lemma DoubleIndex(g: Geometry, t: Tree, k: nat)
    requires g.Valid() && 3 <= g.n && UpToTriple(g, t) && 1 <= k < g.n
    ensures Sub(Root(0, NDIRECT + 1), k) in t && Root(0, NDIRECT + 1) in t
  {
    Sizes(g);
    var b := g.n * k;
    MulMono(g.n, 1, k);
    MulMono(g.n, k + 1, g.n);
    assert g.n <= b && b + g.n <= g.n2;
    DivModUnique(b, g.n, k, 0);
    assert Place(g, 0, NDIRECT + b) in t;
  }

  lemma FileUpToTriple(g: Geometry, t: Tree, j: nat)
    requires g.Valid() && 3 <= g.n && UpToTriple(g, t) && j < FilePlaces(g, 3)
    ensures j < NDIRECT + IndexBlocks(g, 3) + g.n3 && PlaceNo(g, 3, j) in t
  {
    Sizes(g);
    if j < NDIRECT {
      assert Place(g, 0, j) in t;
    } else if NDIRECT + IndexBlocks(g, 3) <= j {
      assert Place(g, 0, j - IndexBlocks(g, 3)) in t;
    } else if j == NDIRECT {
      assert Place(g, 0, NDIRECT) in t;
    } else {
      DoubleIndex(g, t, if j == NDIRECT + 1 then 1 else j - NDIRECT - 1);
    }
  }

  lemma NewUpToTriple(g: Geometry, t: Tree, k: nat)
    requires g.Valid() && 3 <= g.n && UpToTriple(g, t) && k < NewPlaces(3)
    ensures NewNo(g, 3, k) in t
  {
    ChunkPlaces(g, 3);
    var c := LastNo(g, 3);
    assert Place(g, 0, c + 1) in t && Place(g, 0, c + 2) in t && Place(g, 0, c + 3) in t;
    NewUnder(g, 3, k);
    if 2 <= k { AboveMapped(t, NewNo(g, 3, 5), NewNo(g, 3, k)); }
  }

  ghost predicate OneToOne(t: Tree) {
    forall p, q :: p in t && q in t && p != q ==> t[p] != t[q]
  }

  lemma {:induction false} ImageExact(k: set<Pos>, t: Tree)
    requires k <= t.Keys && OneToOne(t)
    ensures |Image(k, t)| == |k|
    decreases |k|
  {
    if k == {} {
      assert Image(k, t) == {};
    } else {
      var p :| p in k;
      ImageExact(k - {p}, t);
      assert Image(k, t) == Image(k - {p}, t) + {t[p]};
      assert t[p] !in Image(k - {p}, t);
    }
  }

  ghost function Elements(ps: seq<Pos>): set<Pos> { set p | p in ps }

  lemma {:induction false} ElementsCount(ps: seq<Pos>)
    requires Distinct(ps)
    ensures |Elements(ps)| == |ps|
  {
    if ps != [] {
      var less := ps[..|ps| - 1];
      ElementsCount(less);
      assert Elements(ps) == Elements(less) + {ps[|ps| - 1]};
    }
  }

  /** A file with a triple-indirect block takes that many blocks. */
  lemma TripleHeld(g: Geometry, start: nat, size: nat, t: Tree)
    requires g.Valid() && 3 <= g.n && UpToTriple(g, t) && forall q :: q in t ==> start <= t[q] < size
    requires OneToOne(t)
    ensures HoldsTriple(g, start, size)
  {
    hide Place, PlaceNo, NewNo, FilePlaces, PlanPlace;
    var ps := PlanPlaces(g, 3, start, start);
    TripleLength(g, start);
    forall j | 0 <= j < |ps| ensures ps[j] in t { TriplePlace(g, start, t, j); }
    forall j, k | 0 <= j < k < |ps| ensures ps[j] != ps[k] { PlanPlaceApart(g, 3, start, start, j, k); }
    ElementsCount(ps);
    ImageExact(Elements(ps), t);
    assert start <= t[ps[0]] < size;
    SubsetCount(Image(Elements(ps), t), Range(start, size - start), {});
  }

  lemma TripleLength(g: Geometry, start: nat)
    requires g.Valid() && 3 <= g.n
    ensures |PlanPlaces(g, 3, start, start)| == g.n2 + g.n + NDIRECT + 5
  {
    Sizes(g);
  }

  lemma TriplePlace(g: Geometry, start: nat, t: Tree, j: nat)
    requires g.Valid() && 3 <= g.n && UpToTriple(g, t) && j < |PlanPlaces(g, 3, start, start)|
    ensures PlanPlaces(g, 3, start, start)[j] in t
  {
    hide Place, PlaceNo, NewNo;
    var n := Filled(g, 3, start, start);
    assert n == FilePlaces(g, 3);
    if j < n { FileUpToTriple(g, t, j); } else { NewUpToTriple(g, t, j - n); }
  }

  // ---- another inode's tree as that of inode 0 --------------------------------------------------------------

  function Moved(q: Pos, i: nat): Pos {
    match q
    case Root(_, slot) => Root(i, slot)
    case Sub(parent, idx) => Sub(Moved(parent, i), idx)
  }

  lemma {:induction false} MovedBack(q: Pos, i: nat, k: nat)
    ensures Moved(q, i).Owner() == i && Moved(Moved(q, k), i) == Moved(q, i) && (q.Owner() == i ==> Moved(q, i) == q)
  {
    if q.Sub? { MovedBack(q.parent, i, k); }
  }

  lemma MovedAll(i: nat)
    ensures forall q: Pos :: q.Owner() == i ==> Moved(Moved(q, 0), i) == q && Moved(q, 0).Owner() == 0
  {
    forall q: Pos | q.Owner() == i ensures Moved(Moved(q, 0), i) == q && Moved(q, 0).Owner() == 0 {
      MovedBack(q, i, 0);
      MovedBack(q, 0, 0);
    }
  }

  ghost function MovedTree(t: Tree, i: nat): Tree {
    map q | q in MovedPlaces(t, i) :: t[Moved(q, i)]
  }

  ghost function MovedPlaces(t: Tree, i: nat): (ps: set<Pos>)
    ensures forall q :: q in ps ==> Moved(q, i) in t && q.Owner() == 0
    ensures forall q :: q in t && q.Owner() == i ==> Moved(q, 0) in ps
  {
    MovedAll(i);
    set q | q in t && q.Owner() == i :: Moved(q, 0)
  }

  lemma MovedPlace(g: Geometry, i: nat, bn: nat)
    requires g.Valid() && bn < g.Limit()
    ensures Moved(Place(g, i, bn), 0) == Place(g, 0, bn)
  {
    var p, q := Place(g, i, bn), Place(g, 0, bn);
    if NDIRECT + g.n <= bn { assert Moved(p.parent.parent, 0) == q.parent.parent; }
  }

  lemma MovedOk(g: Geometry, start: nat, size: nat, t: Snap, i: nat)
    requires g.Valid() && FileOn(g, start, size, t, i) && NDIRECT + g.n2 < g.Limit()
    requires forall bn: nat :: bn <= NDIRECT + g.n2 ==> Place(g, i, bn) in t.tree
    ensures var u := MovedTree(t.tree, i);
            && UpToTriple(g, u) && (forall q :: q in u ==> start <= u[q] < size)
            && OneToOne(u)
  {
    hide TreeOk, Place;
    TreeClosed(g, t);
    TreeInjective(g, start, size, t, i);
    var u := MovedTree(t.tree, i);
    forall q | q in u && q.Sub? ensures q.parent in u {
      MovedBack(q, i, 0);
      MovedBack(q.parent, 0, i);
      assert Moved(q.parent, i) in t.tree && Moved(q.parent, i).Owner() == i;
    }
    forall bn: nat | bn <= NDIRECT + g.n2 ensures Place(g, 0, bn) in u {
      MovedPlace(g, i, bn);
      PlaceWithin(g, i, bn, |t.inodes|);
    }
    forall p, q | p in u && q in u && p != q ensures u[p] != u[q] {
      MovedBack(p, 0, i);
      MovedBack(q, 0, i);
    }
  }

  lemma TreeInjective(g: Geometry, start: nat, size: nat, t: Snap, i: nat)
    requires FileOn(g, start, size, t, i)
    ensures OneToOne(t.tree) && forall q :: q in t.tree ==> start <= t.tree[q] < size
  {
    forall q | q in t.tree ensures start <= t.tree[q] < size { assert t.tree[q] in t.owner; }
  }

  // ---- exactly -----------------------------------------------------------------------------------------------

  /** A chunk that ends with a triple-indirect block needs such a disk. */
  lemma ChunkHolds(g: Geometry, start: nat, size: nat, i: nat, off: nat, n: nat, s: Snap, t: Snap, m: Logged,
                   grows: bool)
    requires g.Valid() && 3 <= g.n && IsChunk(g, start, size, i, off, n, s, t, m, grows)
    requires Level(g, BlockOf(g, off + n - 1)) == 3
    ensures HoldsTriple(g, start, size)
  {
    hide Place, BlockOf, TreeOk, FirstFit, Fresh, Indexes, BitsOf, Spanned, OnTheWay;
    var lo, last := BlockOf(g, off), BlockOf(g, off + n - 1);
    forall bn: nat | bn <= last ensures bn < g.Limit() && Place(g, i, bn) in t.tree {
      if bn < lo {
        BlockBefore(g, off, bn);
        assert Has(g, s, i, bn * g.BlockSize());
      }
    }
    MovedOk(g, start, size, t, i);
    TripleHeld(g, start, size, MovedTree(t.tree, i));
  }

  lemma BlockBefore(g: Geometry, off: nat, bn: nat)
    requires 0 < g.n && bn < BlockOf(g, off)
    ensures bn * g.BlockSize() < off && BlockOf(g, bn * g.BlockSize()) == bn
  {
    var b := g.BlockSize();
    DivModUnique(bn * b, b, bn, 0);
    DivLessIff(off, b, bn + 1);
  }

  /** Every chunk keeps to MAXOPBLOCKS: always up to the single-indirect blocks, below the triple-indirect
      blocks exactly on disks with at most two bitmap blocks, and from there on exactly on disks with one,
      or too small for such a file. */
  lemma ChunksFitIff(g: Geometry, start: nat, size: nat, h: nat)
    requires g.Valid() && 3 <= g.n && 0 < start < BitsPerBlock(g) && size <= UINT && h <= 3
    ensures ChunksFit(g, start, size, h) <==>
              h < 2 || Bitmaps(g, size) <= 4 - h || (h == 3 && !HoldsTriple(g, start, size))
  {
    hide IsChunk, BlockOf, Bitmaps, ChunksFit;
    BitmapsAtMost(g, size, 2);
    BitmapsAtMost(g, size, 1);
    if h < 2 || Bitmaps(g, size) <= 4 - h || (h == 3 && !HoldsTriple(g, start, size)) {
      AllFit(g, start, size, h);
    } else if h == 2 {
      ChunkExceeds(g, h, start, size, BitsPerBlock(g) - 1, 2 * BitsPerBlock(g));
    } else {
      var f := if BitsPerBlock(g) + 5 <= size then BitsPerBlock(g) - 1 else size - 6;
      ChunkExceeds(g, h, start, size, f, f + 5);
    }
  }

  lemma AllFit(g: Geometry, start: nat, size: nat, h: nat)
    requires g.Valid() && 3 <= g.n && h <= 3
    requires h < 2 || Bitmaps(g, size) <= 4 - h || (h == 3 && !HoldsTriple(g, start, size))
    ensures ChunksFit(g, start, size, h)
  {
    hide FileOn, ChunkLogs, FirstFit, Has, BlockOf, Bitmaps, HoldsTriple;
    forall i: nat, off: nat, n: nat, s: Snap, t: Snap, m: Logged, grows: bool
      | IsChunk(g, start, size, i, off, n, s, t, m, grows) && Level(g, BlockOf(g, off + n - 1)) == h
      ensures m.Count() <= LogMachine.MAXOPBLOCKS
    {
      ChunkCount(g, start, size, i, off, n, s, t, m, grows);
      if h == 3 { ChunkHolds(g, start, size, i, off, n, s, t, m, grows); }
    }
  }

  /** On the disk that mkfs makes, chunks go over from the double-indirect blocks on. */
  lemma ChunksExceed(start: nat, h: nat)
    requires 0 < start < 4096 && h <= 3
    ensures ChunksFit(Geometry(128, 16384, 2097152), start, FSSIZE, h) <==> h < 2
  {
    var g := Geometry(128, 16384, 2097152);
    BitmapsAtMost(g, FSSIZE, 2);
    ChunksFitIff(g, start, FSSIZE, h);
  }
}
