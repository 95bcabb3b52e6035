/** File systems made to a plan: which block each place is to have, one after the other. */
module FileBuild {
  import opened Arith
  import opened BlockTree
  import opened InodeCode
  import opened FileBytes

  /** Places in an order in which they can be given the blocks `bs`, one after the other. */
  ghost predicate PlanOk(g: Geometry, size: nat, ninodes: nat, ps: seq<Pos>, bs: seq<nat>) {
    && g.Valid() && size <= UINT && |ps| == |bs| && Distinct(ps) && Distinct(bs)
    && (forall j :: 0 <= j < |ps| ==> ps[j].Within(ninodes, g.n) && (ps[j].Sub? ==> Among(ps, j, ps[j].parent)))
    && (forall j :: 0 <= j < |bs| ==> 0 < bs[j] < size)
  }

  ghost predicate Among<T(!new)>(xs: seq<T>, k: nat, x: T)
    requires k <= |xs|
  {
    exists j :: 0 <= j < k && xs[j] == x
  }

  ghost predicate Distinct<T(!new)>(xs: seq<T>) {
    forall j, k :: 0 <= j < k < |xs| ==> xs[j] != xs[k]
  }

  lemma AmongMore<T(!new)>(xs: seq<T>, k: nat, x: T)
    requires k < |xs|
    ensures Among(xs, k + 1, x) <==> Among(xs, k, x) || x == xs[k]
  {
    if Among(xs, k, x) { var j :| 0 <= j < k && xs[j] == x; }
    if x == xs[k] { assert 0 <= k < k + 1 && xs[k] == x; }
  }

  lemma NotAmong<T(!new)>(xs: seq<T>, k: nat)
    requires Distinct(xs) && k < |xs|
    ensures !Among(xs, k, xs[k])
  {
  }

  /** The first `k` have them, and nothing else. */
  ghost predicate Laid(ps: seq<Pos>, bs: seq<nat>, k: nat, s: Snap)
    requires k <= |ps| == |bs|
  {
    && (forall q :: q in s.tree <==> Among(ps, k, q)) && (forall b :: b in s.owner <==> Among(bs, k, b))
    && forall j :: 0 <= j < k ==> ps[j] in s.tree && s.tree[ps[j]] == bs[j]
  }

  lemma {:induction false} Build(g: Geometry, size: nat, ninodes: nat, ps: seq<Pos>, bs: seq<nat>, k: nat)
    returns (s: Snap)
    requires PlanOk(g, size, ninodes, ps, bs) && k <= |ps| == |bs|
    ensures Ok(g, s) && |s.disk| == size && |s.inodes| == ninodes && Laid(ps, bs, k, s)
    decreases k
  {
    hide PlanOk, Laid, Ok;
    if k == 0 {
      s := BuildNone(g, size, ninodes, ps, bs);
    } else {
      var r := Build(g, size, ninodes, ps, bs, k - 1);
      s := BuildOne(g, size, ninodes, ps, bs, k - 1, r);
    }
  }

  lemma BuildNone(g: Geometry, size: nat, ninodes: nat, ps: seq<Pos>, bs: seq<nat>) returns (s: Snap)
    requires PlanOk(g, size, ninodes, ps, bs)
    ensures Ok(g, s) && |s.disk| == size && |s.inodes| == ninodes && Laid(ps, bs, 0, s)
  {
    hide Distinct;
    s := Snap(seq(size, j => Zeroes(4 * g.n)), seq(ninodes, j => Inode(0, NoSlots())), map[], map[]);
  }

  lemma BuildOne(g: Geometry, size: nat, ninodes: nat, ps: seq<Pos>, bs: seq<nat>, k: nat, r: Snap) returns (s: Snap)
    requires PlanOk(g, size, ninodes, ps, bs) && k < |ps| == |bs|
    requires Ok(g, r) && |r.disk| == size && |r.inodes| == ninodes && Laid(ps, bs, k, r)
    ensures Ok(g, s) && |s.disk| == size && |s.inodes| == ninodes && Laid(ps, bs, k + 1, s)
  {
    hide TreeOk, Grew, Zeroes, PlanOk, Laid;
    var p, b := ps[k], bs[k];
    BuildFresh(g, size, ninodes, ps, bs, k, r);
    if p.Root? {
      RootSlots(g, r, p.inum);
      RootAllocatedOk(g.n, r, p.inum, p.slot, b);
      s := RootAllocated(g.n, r, p.inum, p.slot, b);
    } else {
      BlockLength(g, r, p.parent);
      SubAllocatedOk(g.n, r, p.parent, p.idx, b);
      s := SubAllocated(g.n, r, p.parent, p.idx, b);
    }
    LaidOne(ps, bs, k, r, s);
  }

  lemma BuildFresh(g: Geometry, size: nat, ninodes: nat, ps: seq<Pos>, bs: seq<nat>, k: nat, r: Snap)
    requires PlanOk(g, size, ninodes, ps, bs) && k < |ps| && Laid(ps, bs, k, r)
    ensures ps[k] !in r.tree && bs[k] !in r.owner && 0 < bs[k] < size <= UINT && ps[k].Within(ninodes, g.n)
    ensures ps[k].Sub? ==> ps[k].parent in r.tree
  {
    NotAmong(ps, k);
    NotAmong(bs, k);
  }

  lemma RootSlots(g: Geometry, s: Snap, i: nat)
    requires Ok(g, s) && i < |s.inodes|
    ensures |s.inodes[i].addrs| == SLOTS
  {
  }

  lemma LaidOne(ps: seq<Pos>, bs: seq<nat>, k: nat, r: Snap, s: Snap)
    requires k < |ps| == |bs| && Laid(ps, bs, k, r) && ps[k] !in r.tree && bs[k] !in r.owner
    requires s.tree == r.tree[ps[k] := bs[k]] && s.owner == r.owner[bs[k] := ps[k]]
    ensures Laid(ps, bs, k + 1, s)
  {
    hide Among;
    forall q ensures Among(ps, k + 1, q) <==> Among(ps, k, q) || q == ps[k] { AmongMore(ps, k, q); }
    forall b ensures Among(bs, k + 1, b) <==> Among(bs, k, b) || b == bs[k] { AmongMore(bs, k, b); }
  }

  lemma LaidAt(ps: seq<Pos>, bs: seq<nat>, k: nat, s: Snap, j: nat)
    requires j < k <= |ps| == |bs| && Laid(ps, bs, k, s)
    ensures ps[j] in s.tree && s.tree[ps[j]] == bs[j] && bs[j] in s.owner
  {
    assert Among(bs, k, bs[j]);
  }

  lemma LaidOnly(ps: seq<Pos>, bs: seq<nat>, k: nat, s: Snap, q: Pos) returns (j: nat)
    requires k <= |ps| == |bs| && Laid(ps, bs, k, s) && q in s.tree
    ensures j < k && ps[j] == q
  {
    assert Among(ps, k, q);
    j :| 0 <= j < k && ps[j] == q;
  }

  lemma LaidNot(ps: seq<Pos>, bs: seq<nat>, k: nat, s: Snap, j: nat)
    requires k <= j < |ps| == |bs| && Laid(ps, bs, k, s) && Distinct(ps)
    ensures ps[j] !in s.tree
  {
    assert ps[j] in s.tree <==> Among(ps, k, ps[j]);
  }

  lemma LaidOwner(ps: seq<Pos>, bs: seq<nat>, k: nat, s: Snap, b: nat) returns (j: nat)
    requires k <= |ps| == |bs| && Laid(ps, bs, k, s) && b in s.owner
    ensures j < k && bs[j] == b
  {
    assert Among(bs, k, b);
    j :| 0 <= j < k && bs[j] == b;
  }
}
