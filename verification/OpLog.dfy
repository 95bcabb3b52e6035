/** Which blocks an operation on files gives to log_write. */
module OpLog {
  import opened Arith
  import opened BlockTree

  /** Bitmap blocks, blocks at places of files, and inodes handed to iupdate: three areas of the disk. */
  datatype Logged = Logged(bits: set<nat>, blocks: set<nat>, inodes: set<nat>) {
    function Count(): nat { |bits| + |blocks| + |inodes| }
  }

  const Nothing := Logged({}, {}, {})

  /** BPB, and which bitmap block has the bit of a block (BBLOCK, from the first of them). */
  function BitsPerBlock(g: Geometry): nat { 8 * g.BlockSize() }

  function BitBlock(g: Geometry, b: nat): nat
    requires 0 < g.n
  {
    DivNonNegative(b, BitsPerBlock(g));
    b / BitsPerBlock(g)
  }

  ghost function BitsOf(g: Geometry, bs: set<nat>): set<nat>
    requires 0 < g.n
  {
    set b | b in bs :: BitBlock(g, b)
  }

  lemma BitsUnion(g: Geometry, bs: set<nat>, cs: set<nat>)
    requires 0 < g.n
    ensures BitsOf(g, bs + cs) == BitsOf(g, bs) + BitsOf(g, cs)
  {
  }

  /** What of the file system is on disk: blocks, bitmap and inodes. */
  datatype Stored = Stored(disk: seq<Block>, used: seq<bool>, dinodes: seq<Inode>)

  /** From `s` to `t` nothing has changed that the log has not been given. */
  ghost predicate Covered(g: Geometry, s: Stored, l: Logged, t: Stored, m: Logged)
    requires 0 < g.n
  {
    && |t.disk| == |s.disk| && |t.used| == |s.used| && |t.dinodes| == |s.dinodes|
    && l.bits <= m.bits && l.blocks <= m.blocks && l.inodes <= m.inodes
    && (forall b :: 0 <= b < |s.disk| && t.disk[b] != s.disk[b] ==> b in m.blocks)
    && (forall b :: 0 <= b < |s.used| && t.used[b] != s.used[b] ==> BitBlock(g, b) in m.bits)
    && (forall i :: 0 <= i < |s.dinodes| && t.dinodes[i] != s.dinodes[i] ==> i in m.inodes)
  }

  lemma CoveredTrans(g: Geometry, s: Stored, l: Logged, t: Stored, m: Logged, u: Stored, n: Logged)
    requires 0 < g.n && Covered(g, s, l, t, m) && Covered(g, t, m, u, n)
    ensures Covered(g, s, l, u, n)
  {
    forall b | 0 <= b < |s.disk| && u.disk[b] != s.disk[b] ensures b in n.blocks {}
    forall b | 0 <= b < |s.used| && u.used[b] != s.used[b] ensures BitBlock(g, b) in n.bits {}
    forall i | 0 <= i < |s.dinodes| && u.dinodes[i] != s.dinodes[i] ensures i in n.inodes {}
  }

  /** One block changed and logged. */
  lemma CoveredBlock(g: Geometry, s: Stored, l: Logged, b: nat, c: Block)
    requires 0 < g.n && b < |s.disk|
    ensures Covered(g, s, l, s.(disk := s.disk[b := c]), l.(blocks := l.blocks + {b}))
  {
  }

  /** One inode updated and logged. */
  lemma CoveredInode(g: Geometry, s: Stored, l: Logged, i: nat, x: Inode)
    requires 0 < g.n && i < |s.dinodes|
    ensures Covered(g, s, l, s.(dinodes := s.dinodes[i := x]), l.(inodes := l.inodes + {i}))
  {
  }

  lemma CoveredNothing(g: Geometry, s: Stored, l: Logged)
    requires 0 < g.n
    ensures Covered(g, s, l, s, l)
  {
  }

  /** What bfree of each of those blocks adds to the log. */
  ghost function Freed(g: Geometry, l: Logged, bs: set<nat>): Logged
    requires 0 < g.n
  {
    l.(bits := l.bits + BitsOf(g, bs))
  }

  lemma FreedMore(g: Geometry, l: Logged, bs: set<nat>, cs: set<nat>)
    requires 0 < g.n
    ensures Freed(g, Freed(g, l, bs), cs) == Freed(g, l, bs + cs)
  {
    BitsUnion(g, bs, cs);
    assert l.bits + BitsOf(g, bs) + BitsOf(g, cs) == l.bits + BitsOf(g, bs + cs);
  }

  lemma FreedNone(g: Geometry, l: Logged)
    requires 0 < g.n
    ensures Freed(g, l, {}) == l
  {
    assert BitsOf(g, {}) == {};
  }

  lemma FreedOne(g: Geometry, l: Logged, b: nat)
    requires 0 < g.n
    ensures Freed(g, l, {b}) == l.(bits := l.bits + {BitBlock(g, b)})
  {
    assert BitsOf(g, {b}) == {BitBlock(g, b)};
  }

  /** The blocks at the places that `t` has and `s` has not, and the index blocks that name them. */
  ghost function Fresh(s: Tree, t: Tree): set<nat> {
    set q | q in t && q !in s :: t[q]
  }

  ghost function Indexes(s: Tree, t: Tree): set<nat> {
    set q | q in t && q !in s && q.Sub? && q.parent in t :: t[q.parent]
  }

  ghost predicate Extends(s: Tree, t: Tree) {
    && (forall q :: q in s ==> q in t && t[q] == s[q])
    && (forall q :: q in t && q.Sub? ==> q.parent in t)
  }

  lemma ExtendsTrans(s: Tree, t: Tree, u: Tree)
    requires Extends(s, t) && Extends(t, u)
    ensures Extends(s, u) && Fresh(s, u) == Fresh(s, t) + Fresh(t, u) && Indexes(s, u) == Indexes(s, t) + Indexes(t, u)
  {
    assert Fresh(s, u) == Fresh(s, t) + Fresh(t, u) by {
      forall q | q in u && q !in s ensures u[q] in Fresh(s, t) + Fresh(t, u) { if q in t { assert u[q] == t[q]; } }
      forall q | q in t && q !in s ensures t[q] in Fresh(s, u) { assert u[q] == t[q]; }
    }
    assert Indexes(s, u) == Indexes(s, t) + Indexes(t, u) by {
      forall q | q in u && q !in s && q.Sub? ensures u[q.parent] in Indexes(s, t) + Indexes(t, u) {
        if q in t { assert u[q.parent] == t[q.parent]; }
      }
      forall q | q in t && q !in s && q.Sub? ensures t[q.parent] in Indexes(s, u) { assert u[q.parent] == t[q.parent]; }
    }
  }

  /** From tree `s` to tree `t` places on the way to `p` were given blocks; logged since are exactly
      their bitmap blocks, the blocks themselves and the index blocks that name them. */
  ghost predicate Allots(g: Geometry, p: Pos, s: Tree, l: Logged, t: Tree, m: Logged)
    requires 0 < g.n
  {
    && Extends(s, t) && (forall q :: q in t && q !in s ==> p.Under(q))
    && m == Logged(l.bits + BitsOf(g, Fresh(s, t)), l.blocks + Fresh(s, t) + Indexes(s, t), l.inodes)
  }

  lemma AllotsNothing(g: Geometry, p: Pos, s: Tree, l: Logged)
    requires 0 < g.n && forall q :: q in s && q.Sub? ==> q.parent in s
    ensures Allots(g, p, s, l, s, l)
  {
    assert Fresh(s, s) == {} && Indexes(s, s) == {};
  }

  lemma AllotsSame(g: Geometry, p: Pos, s: Tree, l: Logged, m: Logged)
    requires 0 < g.n && Allots(g, p, s, l, s, m)
    ensures m == l
  {
    assert Fresh(s, s) == {} && Indexes(s, s) == {} && BitsOf(g, {}) == {};
  }

  /** balloc of block `b` for the place `p`. */
  lemma AllotsOne(g: Geometry, p: Pos, s: Tree, l: Logged, b: nat, m: Logged)
    requires 0 < g.n && p !in s && (forall q :: q in s && q.Sub? ==> q.parent in s) && (p.Sub? ==> p.parent in s)
    requires m == Logged(l.bits + {BitBlock(g, b)}, l.blocks + {b} + (if p.Sub? then {s[p.parent]} else {}), l.inodes)
    ensures Allots(g, p, s, l, s[p := b], m)
  {
    var t := s[p := b];
    assert Fresh(s, t) == {b} && BitsOf(g, {b}) == {BitBlock(g, b)};
    assert Indexes(s, t) == if p.Sub? then {s[p.parent]} else {};
  }

  lemma Regroup(l: set<nat>, f: set<nat>, i: set<nat>, s: set<nat>, f': set<nat>, i': set<nat>, x: set<nat>)
    ensures l + f + i + s + f' + i' + x == l + (f + f') + (i + i') + (s + x)
  {
  }

  /** First the index block at `q`, then the place `Sub(q, k)` below it. */
  lemma AllotsBelow(g: Geometry, q: Pos, k: nat, s: Tree, l: Logged, t: Tree, m: Logged, u: Tree, n: Logged)
    requires 0 < g.n && Allots(g, q, s, l, t, m) && Allots(g, Sub(q, k), t, m, u, n)
    ensures Allots(g, Sub(q, k), s, l, u, n)
  {
    hide Fresh, Indexes, BitsOf, Extends;
    ExtendsTrans(s, t, u);
    BitsUnion(g, Fresh(s, t), Fresh(t, u));
    Regroup(l.blocks, Fresh(s, t), Indexes(s, t), {}, Fresh(t, u), Indexes(t, u), {});
    forall r | r in u && r !in s ensures Sub(q, k).Under(r) {
      if r in t { assert q.Under(r); }
    }
  }

  // ---- a write of many blocks ---------------------------------------------------------------

  /** The blocks of file `i` from `lo` to below `hi`. */
  ghost function Spanned(g: Geometry, i: nat, lo: nat, hi: nat, t: Tree): set<nat>
    requires 0 < g.n && 0 < g.n2 && hi <= g.Limit()
  {
    set bn | lo <= bn < hi && Place(g, i, bn) in t :: t[Place(g, i, bn)]
  }

  ghost predicate Mapped(g: Geometry, i: nat, lo: nat, hi: nat, t: Tree)
    requires 0 < g.n && 0 < g.n2 && hi <= g.Limit()
  {
    forall bn :: lo <= bn < hi ==> Place(g, i, bn) in t
  }

  /** The new places are those blocks' and the index blocks' above them. */
  ghost predicate OnTheWay(g: Geometry, i: nat, lo: nat, hi: nat, s: Tree, t: Tree)
    requires 0 < g.n && 0 < g.n2 && hi <= g.Limit()
  {
    forall q :: q in t && q !in s ==> exists bn :: lo <= bn < hi && Place(g, i, bn).Under(q)
  }

  /** What a write to those blocks gives to log_write: each of them, what bmap allotted on the way to
      them, the index blocks that name it and its bitmap blocks. */
  ghost predicate WriteLogs(g: Geometry, i: nat, lo: nat, hi: nat, s: Tree, l: Logged, t: Tree, m: Logged)
    requires 0 < g.n && 0 < g.n2
  {
    && lo <= hi <= g.Limit() && Extends(s, t)
    && Mapped(g, i, lo, hi, t) && OnTheWay(g, i, lo, hi, s, t)
    && m == Logged(l.bits + BitsOf(g, Fresh(s, t)), l.blocks + Fresh(s, t) + Indexes(s, t) + Spanned(g, i, lo, hi, t),
      l.inodes)
  }

  lemma WriteLogsNothing(g: Geometry, i: nat, lo: nat, s: Tree, l: Logged)
    requires 0 < g.n && 0 < g.n2 && lo <= g.Limit() && forall q :: q in s && q.Sub? ==> q.parent in s
    ensures WriteLogs(g, i, lo, lo, s, l, s, l)
  {
    assert Fresh(s, s) == {} && Indexes(s, s) == {} && Spanned(g, i, lo, lo, s) == {};
  }

  lemma SpannedMore(g: Geometry, i: nat, lo: nat, hi: nat, t: Tree, u: Tree)
    requires 0 < g.n && 0 < g.n2 && lo <= hi < g.Limit() && Extends(t, u) && Place(g, i, hi) in u
    requires Mapped(g, i, lo, hi, t)
    ensures Mapped(g, i, lo, hi + 1, u)
    ensures Spanned(g, i, lo, hi + 1, u) == Spanned(g, i, lo, hi, t) + {u[Place(g, i, hi)]}
  {
    hide Place;
    forall bn | lo <= bn < hi ensures Place(g, i, bn) in u && u[Place(g, i, bn)] == t[Place(g, i, bn)] {}
  }

  lemma OnTheWayMore(g: Geometry, i: nat, lo: nat, hi: nat, s: Tree, t: Tree, u: Tree)
    requires 0 < g.n && 0 < g.n2 && lo <= hi < g.Limit() && OnTheWay(g, i, lo, hi, s, t)
    requires forall q :: q in u && q !in t ==> Place(g, i, hi).Under(q)
    ensures OnTheWay(g, i, lo, hi + 1, s, u)
  {
    hide Place;
    forall q | q in u && q !in s ensures exists bn :: lo <= bn < hi + 1 && Place(g, i, bn).Under(q) {
      if q in t {
        var bn :| lo <= bn < hi && Place(g, i, bn).Under(q);
      } else {
        assert Place(g, i, hi).Under(q);
      }
    }
  }

  /** One more block: bmap, and log_write of the block itself. */
  lemma WriteLogsMore(g: Geometry, i: nat, lo: nat, hi: nat, s: Tree, l: Logged, t: Tree, m: Logged, u: Tree, n: Logged,
                      n': Logged)
    requires 0 < g.n && 0 < g.n2 && WriteLogs(g, i, lo, hi, s, l, t, m) && hi < g.Limit() && Place(g, i, hi) in u
    requires Allots(g, Place(g, i, hi), t, m, u, n) && n' == n.(blocks := n.blocks + {u[Place(g, i, hi)]})
    ensures WriteLogs(g, i, lo, hi + 1, s, l, u, n')
  {
    hide Place, Fresh, Indexes, BitsOf, Spanned, Extends, Mapped, OnTheWay;
    ExtendsTrans(s, t, u);
    BitsUnion(g, Fresh(s, t), Fresh(t, u));
    SpannedMore(g, i, lo, hi, t, u);
    Regroup(l.blocks, Fresh(s, t), Indexes(s, t), Spanned(g, i, lo, hi, t), Fresh(t, u), Indexes(t, u),
        {u[Place(g, i, hi)]});
    OnTheWayMore(g, i, lo, hi, s, t, u);
  }
}
