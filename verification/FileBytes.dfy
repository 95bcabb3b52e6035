/** Files as flat byte arrays over the block trees. */
module FileBytes {
  import opened Arith
  import opened BlockTree
  import opened InodeCode

  /** The block of a file that holds byte `o`, and where in that block it is. */
  function BlockOf(g: Geometry, o: nat): nat
    requires 0 < g.n
  {
    DivNonNegative(o, g.BlockSize());
    o / g.BlockSize()
  }

  function OffsetIn(g: Geometry, o: nat): (r: nat)
    requires 0 < g.n
    ensures r < g.BlockSize()
  {
    o % g.BlockSize()
  }

  lemma SameBlock(g: Geometry, o: nat, t: nat)
    requires 0 < g.n && OffsetIn(g, o) + t < g.BlockSize()
    ensures BlockOf(g, o + t) == BlockOf(g, o) && OffsetIn(g, o + t) == OffsetIn(g, o) + t
  {
    DivModUnique(o + t, g.BlockSize(), BlockOf(g, o), OffsetIn(g, o) + t);
  }

  /** Two bytes of one block: they are as far apart in the file as in the block. */
  lemma BlockShared(g: Geometry, o: nat, u: nat)
    requires 0 < g.n && BlockOf(g, o) == BlockOf(g, u)
    ensures u - o == OffsetIn(g, u) - OffsetIn(g, o)
  {
    assert o == g.BlockSize() * (o / g.BlockSize()) + o % g.BlockSize();
    assert u == g.BlockSize() * (u / g.BlockSize()) + u % g.BlockSize();
  }

  ghost predicate Ok(g: Geometry, s: Snap) {
    g.Valid() && TreeOk(g.n, s.disk, s.inodes, s.tree, s.owner)
  }

  /** A block is mapped for byte `o` of file `i`. */
  ghost predicate Has(g: Geometry, s: Snap, i: nat, o: nat)
    requires g.Valid()
  {
    BlockOf(g, o) < g.Limit() && Place(g, i, BlockOf(g, o)) in s.tree
  }

  ghost function ByteAt(g: Geometry, s: Snap, i: nat, o: nat): Byte
    requires Ok(g, s) && Has(g, s, i, o)
  {
    s.disk[s.tree[Place(g, i, BlockOf(g, o))]][OffsetIn(g, o)]
  }

  /** The bytes of file `i` from `lo` on. */
  ghost function Bytes(g: Geometry, s: Snap, i: nat, lo: nat, len: nat): (r: seq<Byte>)
    requires Ok(g, s) && forall o :: lo <= o < lo + len ==> Has(g, s, i, o)
    ensures |r| == len && forall k :: 0 <= k < len ==> r[k] == ByteAt(g, s, i, lo + k)
  {
    if len == 0 then [] else Bytes(g, s, i, lo, len - 1) + [ByteAt(g, s, i, lo + len - 1)]
  }

  // ---- what a step of writei does to all files ------------------------------------------

  lemma GrewKeeps(g: Geometry, i: nat, s: Snap, t: Snap, j: nat, o: nat)
    requires Ok(g, s) && Ok(g, t) && Grew(i, s, t) && Has(g, s, j, o) && j < |s.inodes|
    ensures Has(g, t, j, o) && ByteAt(g, t, j, o) == ByteAt(g, s, j, o)
  {
    PlaceWithin(g, j, BlockOf(g, o), |s.inodes|);
  }

  /** A data block replaced. */
  lemma DataWritten(g: Geometry, s: Snap, t: Snap, i: nat, bn: nat, c: Block)
    requires Ok(g, s) && bn < g.Limit() && i < |s.inodes| && Place(g, i, bn) in s.tree && |c| == g.BlockSize()
    requires t == s.(disk := s.disk[s.tree[Place(g, i, bn)] := c])
    ensures Ok(g, t)
  {
    var p := Place(g, i, bn);
    PlaceWithin(g, i, bn, |s.inodes|);
    forall q, j | q in t.tree && q.Height() > 0 && 0 <= j < g.n && t.tree[q] < |t.disk|
      ensures Word(t.disk[t.tree[q]], j) == At(t.tree, Sub(q, j))
    {
      assert s.tree[q] != s.tree[p];
    }
  }

  lemma DataWrittenByte(g: Geometry, s: Snap, t: Snap, i: nat, bn: nat, c: Block, j: nat, o: nat)
    requires Ok(g, s) && Ok(g, t) && bn < g.Limit() && Place(g, i, bn) in s.tree && |c| == g.BlockSize()
    requires t == s.(disk := s.disk[s.tree[Place(g, i, bn)] := c]) && Has(g, s, j, o)
    ensures Has(g, t, j, o)
    ensures ByteAt(g, t, j, o) == if i == j && BlockOf(g, o) == bn then c[OffsetIn(g, o)] else ByteAt(g, s, j, o)
  {
    if Place(g, j, BlockOf(g, o)) == Place(g, i, bn) { PlaceInjective(g, j, BlockOf(g, o), i, bn); }
  }

  /** From `s` to `t` the first `tot` bytes of `src` have been written to file `i` at `off`:
      every byte of every file is as it was, but for those. */
  ghost predicate Wrote(g: Geometry, i: nat, off: nat, src: seq<Byte>, tot: nat, s: Snap, t: Snap)
    requires Ok(g, s) && Ok(g, t) && tot <= |src|
  {
    && |t.inodes| == |s.inodes|
    && (forall j :: 0 <= j < |s.inodes| ==>
          t.inodes[j].size == s.inodes[j].size && (j != i ==> t.inodes[j] == s.inodes[j]))
    && (forall j: nat, o: nat :: j < |s.inodes| && Has(g, s, j, o) ==>
          && Has(g, t, j, o)
          && ByteAt(g, t, j, o) == if j == i && off <= o < off + tot then src[o - off] else ByteAt(g, s, j, o))
    && (forall o: nat :: off <= o < off + tot ==> Has(g, t, i, o) && ByteAt(g, t, i, o) == src[o - off])
    && ((forall o: nat :: off <= o < off + tot ==> Has(g, s, i, o)) ==> t.inodes == s.inodes)
  }

  /** Block `c` is block `b` with `m` bytes of `src` put in at `r`. */
  ghost predicate Spliced(b: Block, r: nat, src: seq<Byte>, tot: nat, m: nat, c: Block) {
    && r + m <= |b| == |c| && tot + m <= |src|
    && forall k :: 0 <= k < |c| ==> c[k] == if r <= k < r + m then src[tot + k - r] else b[k]
  }

  /** One round of writei: bmap took `t` to `u`, memmove and log_write took `u` to `v`. */
  ghost predicate Round(g: Geometry, i: nat, at: nat, src: seq<Byte>, tot: nat, m: nat, t: Snap, u: Snap, v: Snap,
                        c: Block)
    requires Ok(g, t) && Ok(g, u)
  {
    && i < |t.inodes| && Grew(i, t, u) && Has(g, u, i, at)
    && (Has(g, t, i, at) ==> u == t)
    && Spliced(u.disk[u.tree[Place(g, i, BlockOf(g, at))]], OffsetIn(g, at), src, tot, m, c)
    && v == u.(disk := u.disk[u.tree[Place(g, i, BlockOf(g, at))] := c])
  }

  lemma BlockLength(g: Geometry, s: Snap, p: Pos)
    requires Ok(g, s) && p in s.tree
    ensures g.Valid() && s.tree[p] < |s.disk| && |s.disk[s.tree[p]]| == g.BlockSize()
  {
  }

  lemma RoundByte(g: Geometry, i: nat, at: nat, src: seq<Byte>, tot: nat, m: nat, t: Snap, u: Snap, v: Snap, c: Block,
                  j: nat, o: nat)
    requires Ok(g, t) && Ok(g, u) && Ok(g, v) && Round(g, i, at, src, tot, m, t, u, v, c)
    requires j < |t.inodes| && Has(g, u, j, o)
    ensures Has(g, v, j, o)
    ensures ByteAt(g, v, j, o) == if j == i && at <= o < at + m then src[tot + o - at] else ByteAt(g, u, j, o)
  {
    hide TreeOk, Grew, Place;
    var bn := BlockOf(g, at);
    BlockLength(g, u, Place(g, i, bn));
    DataWrittenByte(g, u, v, i, bn, c, j, o);
    if j == i {
      if at <= o < at + m {
        SameBlock(g, at, o - at);
      } else if BlockOf(g, o) == bn {
        BlockShared(g, at, o);
      }
    }
  }

  lemma RoundNew(g: Geometry, i: nat, at: nat, src: seq<Byte>, tot: nat, m: nat, t: Snap, u: Snap, v: Snap, c: Block,
                 o: nat)
    requires Ok(g, t) && Ok(g, u) && Ok(g, v) && Round(g, i, at, src, tot, m, t, u, v, c) && at <= o < at + m
    ensures Has(g, v, i, o) && ByteAt(g, v, i, o) == src[tot + o - at]
  {
    hide TreeOk, Grew, Place;
    BlockLength(g, u, Place(g, i, BlockOf(g, at)));
    SameBlock(g, at, o - at);
    RoundByte(g, i, at, src, tot, m, t, u, v, c, i, o);
  }

  lemma RoundOld(g: Geometry, i: nat, at: nat, src: seq<Byte>, tot: nat, m: nat, t: Snap, u: Snap, v: Snap, c: Block,
                 j: nat, o: nat)
    requires Ok(g, t) && Ok(g, u) && Ok(g, v) && Round(g, i, at, src, tot, m, t, u, v, c)
    requires j < |t.inodes| && Has(g, t, j, o)
    ensures Has(g, v, j, o)
    ensures ByteAt(g, v, j, o) == if j == i && at <= o < at + m then src[tot + o - at] else ByteAt(g, t, j, o)
  {
    GrewKeeps(g, i, t, u, j, o);
    RoundByte(g, i, at, src, tot, m, t, u, v, c, j, o);
  }

  lemma RoundInodes(g: Geometry, i: nat, at: nat, src: seq<Byte>, tot: nat, m: nat, t: Snap, u: Snap, v: Snap, c: Block)
    requires Ok(g, t) && Ok(g, u) && Round(g, i, at, src, tot, m, t, u, v, c)
    ensures |v.inodes| == |t.inodes| && i < |t.inodes|
    ensures forall j :: 0 <= j < |t.inodes| ==>
              v.inodes[j].size == t.inodes[j].size && (j != i ==> v.inodes[j] == t.inodes[j])
    ensures Has(g, t, i, at) ==> v.inodes == t.inodes
  {
  }

  /** The rounds of writei add up. */
  lemma WroteMore(g: Geometry, i: nat, off: nat, src: seq<Byte>, tot: nat, m: nat, s: Snap, t: Snap, u: Snap, v: Snap,
                  c: Block)
    requires Ok(g, s) && Ok(g, t) && Ok(g, u) && Ok(g, v) && 0 < m && tot + m <= |src|
    requires Wrote(g, i, off, src, tot, s, t) && Round(g, i, off + tot, src, tot, m, t, u, v, c)
    ensures Wrote(g, i, off, src, tot + m, s, v)
  {
    hide TreeOk, Round, Has, ByteAt;
    RoundInodes(g, i, off + tot, src, tot, m, t, u, v, c);
    forall j: nat, o: nat | j < |s.inodes| && Has(g, s, j, o)
      ensures Has(g, v, j, o)
      ensures ByteAt(g, v, j, o) == if j == i && off <= o < off + tot + m then src[o - off] else ByteAt(g, s, j, o)
    {
      RoundOld(g, i, off + tot, src, tot, m, t, u, v, c, j, o);
    }
    forall o: nat | off <= o < off + tot + m ensures Has(g, v, i, o) && ByteAt(g, v, i, o) == src[o - off] {
      if o < off + tot {
        RoundOld(g, i, off + tot, src, tot, m, t, u, v, c, i, o);
      } else {
        RoundNew(g, i, off + tot, src, tot, m, t, u, v, c, o);
      }
    }
    assert (forall o: nat :: off <= o < off + tot + m ==> Has(g, s, i, o)) ==> Has(g, s, i, off + tot);
  }
}
