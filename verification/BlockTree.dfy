/** The blocks of all files as trees: direct blocks, and index blocks of one, two and three
    levels below the last three slots of an inode (fs.c, with NINDIRECT as a parameter `N`). */
module BlockTree {
  import opened Arith

  const NDIRECT: nat := 10
  const SLOTS: nat := NDIRECT + 3

  type Byte = x: int | 0 <= x < 256
  type Block = seq<Byte>

  datatype Inode = Inode(size: nat, addrs: seq<nat>)

  // ---- index blocks hold little-endian words -----------------------------------------

  /** Word `i` of a block, as (uint*)bp->data reads it. */
  function Word(b: Block, i: nat): (w: nat)
    requires 4 * i + 4 <= |b|
    ensures w < UINT
  {
    var b0: int, b1: int, b2: int, b3: int := b[4 * i], b[4 * i + 1], b[4 * i + 2], b[4 * i + 3];
    b0 + 256 * (b1 + 256 * (b2 + 256 * b3))
  }

  function WithWord(b: Block, i: nat, w: nat): (c: Block)
    requires 4 * i + 4 <= |b| && w < UINT
    ensures |c| == |b|
  {
    b[4 * i := w % 256][4 * i + 1 := w / 256 % 256][4 * i + 2 := w / 256 / 256 % 256][4 * i + 3 := w / 256 / 256 / 256]
  }

  lemma WordOfWithWord(b: Block, i: nat, w: nat, j: nat)
    requires 4 * i + 4 <= |b| && w < UINT && 4 * j + 4 <= |b|
    ensures Word(WithWord(b, i, w), j) == if i == j then w else Word(b, j)
  {
  }

  function Zeroes(n: nat): (b: Block)
    ensures |b| == n && forall i :: 0 <= i < n ==> b[i] == 0
  {
    seq(n, i => 0)
  }

  // ---- places in the trees -----------------------------------------------------------

  /** A slot of an inode, or a word of the index block at another place. */
  datatype Pos = Root(inum: nat, slot: nat) | Sub(parent: Pos, idx: nat) {
    /** Levels of index blocks from here down; a place of height 0 holds data. */
    function Height(): int {
      match this
      case Root(_, slot) => if slot < NDIRECT then 0 else slot - NDIRECT + 1
      case Sub(parent, _) => parent.Height() - 1
    }

    function Owner(): nat {
      match this
      case Root(inum, _) => inum
      case Sub(parent, _) => parent.Owner()
    }

    /** The slot of the inode this place hangs below. */
    function Slot(): nat {
      match this
      case Root(_, slot) => slot
      case Sub(parent, _) => parent.Slot()
    }

    /** This place is `p` or hangs below it. */
    predicate Under(p: Pos) {
      this == p || (this.Sub? && parent.Under(p))
    }

    /** Which word of the index block at `p` this place hangs below. */
    function Branch(p: Pos): nat
      requires Sub? && parent.Under(p)
    {
      if parent == p then idx else parent.Branch(p)
    }

    predicate Within(ninodes: nat, N: nat) {
      match this
      case Root(inum, slot) => inum < ninodes && slot < SLOTS
      case Sub(parent, idx) => parent.Within(ninodes, N) && parent.Height() > 0 && idx < N
    }
  }

  /** NINDIRECT, NDINDIRECT and NTINDIRECT. */
  datatype Geometry = Geometry(n: nat, n2: nat, n3: nat) {
    predicate Valid() { 2 <= n && n2 == n * n && n3 == n2 * n && n < n2 < n3 }

    /** The blocks bmap can map, a few less than MAXFILE. */
    function Limit(): nat { NDIRECT + n3 }

    function BlockSize(): nat { 4 * n }
  }

  /** The place of block `bn` of a file, as bmap divides it up: `bn` is not rebased between
      the levels, so word 0 of the double and triple roots is never used. */
  function Place(g: Geometry, inum: nat, bn: nat): (p: Pos)
    requires 0 < g.n && 0 < g.n2 && bn < g.Limit()
  {
    if bn < NDIRECT then Root(inum, bn)
    else
      var b := bn - NDIRECT;
      if b < g.n then Sub(Root(inum, NDIRECT), b)
      else if b < g.n2 then Sub(Sub(Root(inum, NDIRECT + 1), b / g.n), b % g.n)
      else Sub(Sub(Sub(Root(inum, NDIRECT + 2), b / g.n2), b % g.n2 / g.n), b % g.n)
  }

  /** A path of words below each of the three roots ends at a data block. */
  lemma PathsWithin(inum: nat, ninodes: nat, N: nat, a: nat, b: nat, c: nat)
    requires inum < ninodes && a < N && b < N && c < N
    ensures var p := Sub(Root(inum, NDIRECT), a); p.Within(ninodes, N) && p.Height() == 0 && p.Owner() == inum
    ensures var p := Sub(Sub(Root(inum, NDIRECT + 1), a), b);
            p.Within(ninodes, N) && p.Height() == 0 && p.Owner() == inum
    ensures var p := Sub(Sub(Sub(Root(inum, NDIRECT + 2), a), b), c);
            p.Within(ninodes, N) && p.Height() == 0 && p.Owner() == inum
  {
    ChildWithin(Root(inum, NDIRECT), ninodes, N, a);
    ChildWithin(Root(inum, NDIRECT + 1), ninodes, N, a);
    ChildWithin(Sub(Root(inum, NDIRECT + 1), a), ninodes, N, b);
    ChildWithin(Root(inum, NDIRECT + 2), ninodes, N, a);
    ChildWithin(Sub(Root(inum, NDIRECT + 2), a), ninodes, N, b);
    ChildWithin(Sub(Sub(Root(inum, NDIRECT + 2), a), b), ninodes, N, c);
  }

  lemma ChildWithin(p: Pos, ninodes: nat, N: nat, k: nat)
    requires p.Within(ninodes, N) && p.Height() > 0 && k < N
    ensures Sub(p, k).Within(ninodes, N) && Sub(p, k).Height() == p.Height() - 1 && Sub(p, k).Owner() == p.Owner()
  {
  }

  lemma PlaceWithin(g: Geometry, inum: nat, bn: nat, ninodes: nat)
    requires g.Valid() && bn < g.Limit() && inum < ninodes
    ensures Place(g, inum, bn).Within(ninodes, g.n) && Place(g, inum, bn).Height() == 0
    ensures Place(g, inum, bn).Owner() == inum
  {
    if bn < NDIRECT { return; }
    var b := bn - NDIRECT;
    ModLess(b, g.n);
    if b < g.n {
      PathsWithin(inum, ninodes, g.n, b, 0, 0);
    } else if b < g.n2 {
      DivLess(b, g.n, g.n);
      PathsWithin(inum, ninodes, g.n, b / g.n, b % g.n, 0);
    } else {
      DivLess(b, g.n2, g.n);
      ModLess(b, g.n2);
      DivLess(b % g.n2, g.n, g.n);
      PathsWithin(inum, ninodes, g.n, b / g.n2, b % g.n2 / g.n, b % g.n);
    }
  }

  /** The last word of a triple place is that of the remainder, since n divides n2. */
  lemma RemOfRem(b: nat, g: Geometry)
    requires g.Valid()
    ensures b % g.n2 % g.n == b % g.n
  {
    hide Geometry.Valid;
    Square(g);
    DivModIs(b, g.n2);
    RemStep(g.n, g.n2, b / g.n2, b % g.n2, b);
  }

  lemma Square(g: Geometry)
    requires g.Valid()
    ensures 0 < g.n && 0 < g.n2 && g.n2 == g.n * g.n
  {
  }

  lemma RemStep(n: nat, n2: nat, q: nat, r: nat, b: nat)
    requires 0 < n && n2 == n * n && b == n2 * q + r
    ensures b % n == r % n
  {
    Assoc(n, n, q);
    ModAddMultiple(r, n * q, n);
  }

  /** No two blocks of a file, and no two files, share a place. */
  lemma PlaceInjective(g: Geometry, i: nat, x: nat, j: nat, y: nat)
    requires g.Valid() && x < g.Limit() && y < g.Limit()
    requires Place(g, i, x) == Place(g, j, y)
    ensures i == j && x == y
  {
    if x >= NDIRECT && y >= NDIRECT {
      var a, b := x - NDIRECT, y - NDIRECT;
      if a < g.n {
      } else if a < g.n2 {
        SameDivMod(a, b, g.n);
      } else {
        RemOfRem(a, g);
        RemOfRem(b, g);
        SameDivMod(a % g.n2, b % g.n2, g.n);
        SameDivMod(a, b, g.n2);
      }
    }
  }

  // ---- which block is at which place ---------------------------------------------------

  type Tree = map<Pos, nat>
  type Owners = map<nat, Pos>

  /** The block number stored at a place, 0 for none. */
  ghost function At(tree: Tree, p: Pos): nat {
    if p in tree then tree[p] else 0
  }

  /** Every block belongs to one place, every place but a slot hangs below an index block. */
  ghost predicate Shape(ndisk: nat, ninodes: nat, N: nat, tree: Tree, owner: Owners) {
    && (forall p :: p in tree ==> 0 < tree[p] < ndisk && tree[p] in owner && owner[tree[p]] == p)
    && (forall p :: p in tree ==> p.Within(ninodes, N) && (p.Sub? ==> p.parent in tree))
    && (forall b :: b in owner ==> owner[b] in tree && tree[owner[b]] == b)
  }

  /** The inodes hold the block numbers of the roots. */
  ghost predicate RootsOk(inodes: seq<Inode>, tree: Tree) {
    && (forall i :: 0 <= i < |inodes| ==> |inodes[i].addrs| == SLOTS)
    && (forall i, s :: 0 <= i < |inodes| && 0 <= s < SLOTS ==> inodes[i].addrs[s] == At(tree, Root(i, s)))
  }

  ghost predicate Sized(N: nat, disk: seq<Block>) {
    |disk| <= UINT && forall b :: 0 <= b < |disk| ==> |disk[b]| == 4 * N
  }

  /** The index blocks hold the block numbers of the places below them. */
  ghost predicate WordsOk(N: nat, disk: seq<Block>, tree: Tree)
    requires Sized(N, disk)
  {
    forall p, j :: p in tree && p.Height() > 0 && 0 <= j < N && tree[p] < |disk| ==>
      Word(disk[tree[p]], j) == At(tree, Sub(p, j))
  }

  ghost predicate TreeOk(N: nat, disk: seq<Block>, inodes: seq<Inode>, tree: Tree, owner: Owners) {
    && Sized(N, disk)
    && Shape(|disk|, |inodes|, N, tree, owner)
    && RootsOk(inodes, tree)
    && WordsOk(N, disk, tree)
  }

  lemma ZeroWord(n: nat, j: nat)
    requires 4 * j + 4 <= n
    ensures Word(Zeroes(n), j) == 0
  {
  }

  lemma ShapeAlloc(ndisk: nat, ninodes: nat, N: nat, tree: Tree, owner: Owners, p: Pos, b: nat)
    requires Shape(ndisk, ninodes, N, tree, owner) && p !in tree && b !in owner && 0 < b < ndisk
    requires p.Within(ninodes, N) && (p.Sub? ==> p.parent in tree)
    ensures Shape(ndisk, ninodes, N, tree[p := b], owner[b := p])
  {
  }

  /** balloc of a block for an empty slot of an inode. */
  lemma AllocRoot(N: nat, disk: seq<Block>, inodes: seq<Inode>, tree: Tree, owner: Owners, i: nat, s: nat, b: nat)
    requires TreeOk(N, disk, inodes, tree, owner) && i < |inodes| && s < SLOTS && Root(i, s) !in tree
    requires 0 < b < |disk| && b !in owner
    ensures TreeOk(N, disk[b := Zeroes(4 * N)], inodes[i := inodes[i].(addrs := inodes[i].addrs[s := b])],
                   tree[Root(i, s) := b], owner[b := Root(i, s)])
  {
    var d', t' := disk[b := Zeroes(4 * N)], tree[Root(i, s) := b];
    ShapeAlloc(|disk|, |inodes|, N, tree, owner, Root(i, s), b);
    forall p, j | p in t' && p.Height() > 0 && 0 <= j < N && t'[p] < |d'|
      ensures Word(d'[t'[p]], j) == At(t', Sub(p, j))
    {
      if p == Root(i, s) { ZeroWord(4 * N, j); }
    }
  }

  /** Block `c` is block `b` with word `k` set to `w`. */
  ghost predicate WordSet(N: nat, b: Block, k: nat, w: nat, c: Block) {
    |b| == |c| == 4 * N && forall j :: 0 <= j < N ==> Word(c, j) == if j == k then w else Word(b, j)
  }

  lemma WithWordSets(N: nat, b: Block, k: nat, w: nat)
    requires |b| == 4 * N && k < N && w < UINT
    ensures WordSet(N, b, k, w, WithWord(b, k, w))
  {
    forall j | 0 <= j < N ensures Word(WithWord(b, k, w), j) == if j == k then w else Word(b, j) {
      WordOfWithWord(b, k, w, j);
    }
  }

  lemma AllocSubSized(N: nat, disk: seq<Block>, b: nat, x: nat, c: Block)
    requires Sized(N, disk) && b < |disk| && x < |disk| && |c| == 4 * N
    ensures Sized(N, disk[b := Zeroes(4 * N)][x := c])
  {
  }

  lemma AllocSubWord(N: nat, disk: seq<Block>, tree: Tree, owner: Owners, q: Pos, k: nat, b: nat,
                     c: Block, d': seq<Block>, t': Tree, p: Pos, j: nat, ninodes: nat)
    requires Sized(N, disk) && Shape(|disk|, ninodes, N, tree, owner) && WordsOk(N, disk, tree)
    requires q in tree && q.Height() > 0 && k < N && Sub(q, k) !in tree
    requires 0 < b < |disk| && b !in owner && WordSet(N, disk[tree[q]], k, b, c)
    requires d' == disk[b := Zeroes(4 * N)][tree[q] := c] && t' == tree[Sub(q, k) := b] && Sized(N, d')
    requires p in t' && p.Height() > 0 && 0 <= j < N
    ensures t'[p] < |d'| && Word(d'[t'[p]], j) == At(t', Sub(p, j))
  {
    if p == Sub(q, k) {
      ZeroWord(4 * N, j);
      assert Sub(p, j) !in tree;
    } else if p == q {
      assert Word(c, j) == if j == k then b else At(tree, Sub(q, j));
    } else {
      assert tree[p] != tree[q] && tree[p] != b;
      assert d'[tree[p]] == disk[tree[p]];
      assert Sub(p, j) != Sub(q, k);
    }
  }

  lemma AllocSubWords(N: nat, disk: seq<Block>, tree: Tree, owner: Owners, q: Pos, k: nat, b: nat,
                      c: Block, d': seq<Block>, t': Tree, ninodes: nat)
    requires Sized(N, disk) && Shape(|disk|, ninodes, N, tree, owner) && WordsOk(N, disk, tree)
    requires q in tree && q.Height() > 0 && k < N && Sub(q, k) !in tree
    requires 0 < b < |disk| && b !in owner && WordSet(N, disk[tree[q]], k, b, c)
    requires d' == disk[b := Zeroes(4 * N)][tree[q] := c] && t' == tree[Sub(q, k) := b] && Sized(N, d')
    ensures WordsOk(N, d', t')
  {
    forall p, j | p in t' && p.Height() > 0 && 0 <= j < N && t'[p] < |d'|
      ensures Word(d'[t'[p]], j) == At(t', Sub(p, j))
    {
      AllocSubWord(N, disk, tree, owner, q, k, b, c, d', t', p, j, ninodes);
    }
  }

  lemma RootsAllocSub(inodes: seq<Inode>, tree: Tree, p: Pos, b: nat)
    requires RootsOk(inodes, tree) && p.Sub?
    ensures RootsOk(inodes, tree[p := b])
  {
  }

  /** balloc of a block for an empty word of an index block. */
  lemma AllocSub(N: nat, disk: seq<Block>, inodes: seq<Inode>, tree: Tree, owner: Owners, q: Pos, k: nat, b: nat,
                 c: Block)
    requires TreeOk(N, disk, inodes, tree, owner) && q in tree && q.Height() > 0 && k < N && Sub(q, k) !in tree
    requires 0 < b < |disk| && b !in owner && WordSet(N, disk[tree[q]], k, b, c)
    ensures b != tree[q]
    ensures TreeOk(N, disk[b := Zeroes(4 * N)][tree[q] := c], inodes, tree[Sub(q, k) := b], owner[b := Sub(q, k)])
  {
    ShapeAlloc(|disk|, |inodes|, N, tree, owner, Sub(q, k), b);
    RootsAllocSub(inodes, tree, Sub(q, k), b);
    AllocSubSized(N, disk, b, tree[q], c);
    AllocSubWords(N, disk, tree, owner, q, k, b, c, disk[b := Zeroes(4 * N)][tree[q] := c], tree[Sub(q, k) := b],
                  |inodes|);
  }

  // ---- taking trees apart --------------------------------------------------------------

  /** The blocks at a place and below it. */
  ghost function BlocksUnder(tree: Tree, p: Pos): set<nat> {
    set q | q in tree && q.Under(p) :: tree[q]
  }

  /** The blocks below the first `j` words of the index block at `p`. */
  ghost function BlocksBelow(tree: Tree, p: Pos, j: nat): set<nat> {
    set q | q in tree && q.Sub? && q.parent.Under(p) && q.Branch(p) < j :: tree[q]
  }

  /** The blocks below the first `s` slots of inode `i`. */
  ghost function BlocksOf(tree: Tree, i: nat, s: nat): set<nat> {
    set q | q in tree && q.Owner() == i && q.Slot() < s :: tree[q]
  }

  lemma {:induction false} UnderSub(p: Pos, j: nat, q: Pos)
    ensures q.Under(Sub(p, j)) <==> q.Sub? && q.parent.Under(p) && q.Branch(p) == j
  {
    if q.Sub? && q != Sub(p, j) {
      UnderSub(p, j, q.parent);
      if q.parent == p { NotUnderChild(p, j); }
    }
  }

  lemma {:induction false} UnderSize(p: Pos, q: Pos)
    requires q.Under(p)
    ensures q.Height() <= p.Height() && (q != p ==> q.Height() < p.Height())
  {
    if q != p { UnderSize(p, q.parent); }
  }

  lemma NotUnderChild(p: Pos, j: nat)
    ensures !p.Under(Sub(p, j))
  {
    if p.Under(Sub(p, j)) { UnderSize(Sub(p, j), p); }
  }

  lemma {:induction false} UnderRoot(i: nat, s: nat, q: Pos)
    ensures q.Under(Root(i, s)) <==> q.Owner() == i && q.Slot() == s
  {
    if q.Sub? { UnderRoot(i, s, q.parent); }
  }

  lemma {:induction false} UnderNothing(tree: Tree, p: Pos, q: Pos)
    requires p !in tree && (forall r :: r in tree && r.Sub? ==> r.parent in tree) && q.Under(p)
    ensures q !in tree
  {
    if q != p { UnderNothing(tree, p, q.parent); }
  }

  /** One more word: the blocks below it, which are none if the word is empty. */
  lemma BelowOneMore(tree: Tree, p: Pos, j: nat)
    requires forall r :: r in tree && r.Sub? ==> r.parent in tree
    ensures BlocksBelow(tree, p, j + 1) == BlocksBelow(tree, p, j) + BlocksUnder(tree, Sub(p, j))
    ensures Sub(p, j) !in tree ==> BlocksUnder(tree, Sub(p, j)) == {}
  {
    forall q: Pos ensures q.Under(Sub(p, j)) <==> q.Sub? && q.parent.Under(p) && q.Branch(p) == j { UnderSub(p, j, q); }
    if Sub(p, j) !in tree {
      forall q: Pos | q.Under(Sub(p, j)) ensures q !in tree { UnderNothing(tree, Sub(p, j), q); }
    }
  }

  lemma BelowNone(tree: Tree, p: Pos)
    ensures BlocksBelow(tree, p, 0) == {}
  {
  }

  lemma BelowWithin(tree: Tree, p: Pos, j: nat, N: nat)
    requires j < N
    ensures BlocksUnder(tree, Sub(p, j)) <= BlocksBelow(tree, p, N)
  {
    forall q: Pos ensures q.Under(Sub(p, j)) <==> q.Sub? && q.parent.Under(p) && q.Branch(p) == j { UnderSub(p, j, q); }
  }

  lemma SlotsWithin(tree: Tree, i: nat, s: nat)
    requires s < SLOTS
    ensures BlocksUnder(tree, Root(i, s)) <= BlocksOf(tree, i, SLOTS)
  {
    forall q: Pos ensures q.Under(Root(i, s)) <==> q.Owner() == i && q.Slot() == s { UnderRoot(i, s, q); }
  }

  ghost predicate Injective(tree: Tree, owner: Owners) {
    forall p :: p in tree ==> tree[p] in owner && owner[tree[p]] == p
  }

  /** The blocks below different words differ. */
  lemma BelowDisjoint(tree: Tree, owner: Owners, p: Pos, j: nat)
    requires Injective(tree, owner)
    ensures BlocksBelow(tree, p, j) !! BlocksUnder(tree, Sub(p, j))
  {
    forall b | b in BlocksBelow(tree, p, j) && b in BlocksUnder(tree, Sub(p, j)) ensures false {
      var q := owner[b];
      UnderSub(p, j, q);
    }
  }

  lemma {:induction false} BranchWithin(ninodes: nat, N: nat, p: Pos, q: Pos)
    requires q.Within(ninodes, N) && q.Sub? && q.parent.Under(p)
    ensures q.Branch(p) < N
  {
    if q.parent != p { BranchWithin(ninodes, N, p, q.parent); }
  }

  /** All blocks under an index block: those below its words, and itself. */
  lemma BelowAll(tree: Tree, owner: Owners, ninodes: nat, N: nat, p: Pos)
    requires Injective(tree, owner) && p in tree && forall q :: q in tree ==> q.Within(ninodes, N)
    ensures BlocksUnder(tree, p) == BlocksBelow(tree, p, N) + {tree[p]}
    ensures tree[p] !in BlocksBelow(tree, p, N)
  {
    forall q: Pos | q in tree && q.Sub? && q.parent.Under(p) ensures q.Branch(p) < N {
      BranchWithin(ninodes, N, p, q);
    }
    if tree[p] in BlocksBelow(tree, p, N) {
      assert p.Sub? && p.parent.Under(p);
      UnderSize(p, p.parent);
    }
  }

  /** One more slot of an inode. */
  lemma SlotOneMore(tree: Tree, owner: Owners, i: nat, s: nat)
    requires Injective(tree, owner) && forall r :: r in tree && r.Sub? ==> r.parent in tree
    ensures BlocksOf(tree, i, s + 1) == BlocksOf(tree, i, s) + BlocksUnder(tree, Root(i, s))
    ensures BlocksOf(tree, i, s) !! BlocksUnder(tree, Root(i, s))
    ensures Root(i, s) !in tree ==> BlocksUnder(tree, Root(i, s)) == {}
  {
    forall q: Pos ensures q.Under(Root(i, s)) <==> q.Owner() == i && q.Slot() == s { UnderRoot(i, s, q); }
    if Root(i, s) !in tree {
      forall q: Pos | q.Under(Root(i, s)) ensures q !in tree { UnderNothing(tree, Root(i, s), q); }
    }
  }

  /** The blocks whose bit is set. */
  ghost function Marked(used: seq<bool>): set<nat> {
    set b: nat | b < |used| && used[b]
  }

  lemma MarkedFree(used: seq<bool>, b: nat)
    requires b < |used|
    ensures Marked(used[b := false]) == Marked(used) - {b}
  {
  }

  lemma FreeOneMore(marks: set<nat>, before: set<nat>, more: set<nat>, after: set<nat>)
    requires after == before + more
    ensures marks - before - more == marks - after
  {
  }

  /** The trees without those of inode `i`. */
  ghost function TreeWithout(tree: Tree, i: nat): Tree {
    map q | q in tree && q.Owner() != i :: tree[q]
  }

  ghost function OwnersWithout(owner: Owners, i: nat): Owners {
    map b | b in owner && owner[b].Owner() != i :: owner[b]
  }

  function NoSlots(): (a: seq<nat>)
    ensures |a| == SLOTS && forall s :: 0 <= s < SLOTS ==> a[s] == 0
  {
    seq(SLOTS, s => 0)
  }

  lemma ShapeWithout(ndisk: nat, ninodes: nat, N: nat, tree: Tree, owner: Owners, i: nat)
    requires Shape(ndisk, ninodes, N, tree, owner)
    ensures Shape(ndisk, ninodes, N, TreeWithout(tree, i), OwnersWithout(owner, i))
  {
  }

  lemma RootsWithout(inodes: seq<Inode>, tree: Tree, i: nat)
    requires RootsOk(inodes, tree) && i < |inodes|
    ensures RootsOk(inodes[i := Inode(0, NoSlots())], TreeWithout(tree, i))
  {
    var ns, t := inodes[i := Inode(0, NoSlots())], TreeWithout(tree, i);
    forall k, s | 0 <= k < |ns| && 0 <= s < SLOTS ensures ns[k].addrs[s] == At(t, Root(k, s)) {
      if k != i { assert inodes[k].addrs[s] == At(tree, Root(k, s)); }
    }
  }

  lemma WordsWithout(N: nat, disk: seq<Block>, tree: Tree, i: nat)
    requires Sized(N, disk) && WordsOk(N, disk, tree)
    ensures WordsOk(N, disk, TreeWithout(tree, i))
  {
    var t := TreeWithout(tree, i);
    forall p, j | p in t && p.Height() > 0 && 0 <= j < N && t[p] < |disk|
      ensures Word(disk[t[p]], j) == At(t, Sub(p, j))
    {
      assert Word(disk[tree[p]], j) == At(tree, Sub(p, j));
    }
  }

  lemma TreeWithoutOk(N: nat, disk: seq<Block>, inodes: seq<Inode>, tree: Tree, owner: Owners, i: nat)
    requires TreeOk(N, disk, inodes, tree, owner) && i < |inodes|
    ensures TreeOk(N, disk, inodes[i := Inode(0, NoSlots())], TreeWithout(tree, i), OwnersWithout(owner, i))
  {
    hide Shape, RootsOk, WordsOk, Sized, TreeWithout, OwnersWithout, NoSlots;
    ShapeWithout(|disk|, |inodes|, N, tree, owner, i);
    RootsWithout(inodes, tree, i);
    WordsWithout(N, disk, tree, i);
  }

  lemma {:induction false} SlotWithin(q: Pos, ninodes: nat, N: nat)
    requires q.Within(ninodes, N)
    ensures q.Slot() < SLOTS && q.Owner() < ninodes
  {
    if q.Sub? { SlotWithin(q.parent, ninodes, N); }
  }

  /** Clearing the bits of all blocks of inode `i` leaves exactly those of the others. */
  lemma MarksWithout(used: seq<bool>, used': seq<bool>, start: nat, ndisk: nat, ninodes: nat, N: nat,
                     tree: Tree, owner: Owners, i: nat)
    requires Shape(ndisk, ninodes, N, tree, owner) && |used| == |used'| == ndisk
    requires forall b :: 0 <= b < |used| ==> (used[b] <==> b < start || b in owner)
    requires forall b :: b in owner ==> start <= b
    requires Marked(used') == Marked(used) - BlocksOf(tree, i, SLOTS)
    ensures forall b :: 0 <= b < |used'| ==> (used'[b] <==> b < start || b in OwnersWithout(owner, i))
  {
    forall b: nat | b < |used'| ensures used'[b] <==> b < start || b in OwnersWithout(owner, i) {
      assert used'[b] <==> b in Marked(used');
      assert used[b] <==> b in Marked(used);
      if b in owner {
        SlotWithin(owner[b], ninodes, N);
        assert b == tree[owner[b]];
        assert b in BlocksOf(tree, i, SLOTS) <==> owner[b].Owner() == i;
      }
    }
  }
}
