/** fs.c's block layer as code: the block allocator, bmap, itrunc, readi and writei, over
    the blocks as the cache shows them. */
module InodeCode {
  import opened Arith
  import opened BlockTree
  import opened OpLog

  /** Everything an operation on files can change. */
  datatype Snap = Snap(disk: seq<Block>, inodes: seq<Inode>, tree: Tree, owner: Owners)

  /** From `s` to `t`, inode `i` has gained places, at blocks no place had; the new data
      blocks are zeroed, the blocks, sizes and inodes there were are as they were. */
  ghost predicate Grew(i: nat, s: Snap, t: Snap) {
    && |s.disk| == |t.disk| && |s.inodes| == |t.inodes|
    && (forall q :: q in s.tree ==> q in t.tree && t.tree[q] == s.tree[q])
    && (forall b :: b in s.owner ==> b in t.owner)
    && (forall q :: q in t.tree && q !in s.tree ==> q.Owner() == i && t.tree[q] !in s.owner)
    && (forall q :: q in t.tree && t.tree[q] < |t.disk| && q.Height() == 0 ==>
          t.disk[t.tree[q]] == if q in s.tree then s.disk[t.tree[q]] else Zeroes(|t.disk[t.tree[q]]|))
    && (forall j :: 0 <= j < |s.inodes| ==>
      t.inodes[j].size == s.inodes[j].size && (j != i ==> t.inodes[j] == s.inodes[j]))
  }

  lemma GrewNot(i: nat, s: Snap)
    ensures Grew(i, s, s)
  {
  }

  lemma GrewTrans(i: nat, s: Snap, t: Snap, u: Snap)
    requires Grew(i, s, t) && Grew(i, t, u)
    ensures Grew(i, s, u)
  {
  }

  /** The bits of the metadata and of the blocks at places are set, and no others. */
  ghost predicate Marks(used: seq<bool>, start: nat, owner: Owners) {
    && (forall b :: 0 <= b < |used| ==> (used[b] <==> b < start || b in owner))
    && (forall b :: b in owner ==> start <= b)
  }

  /** balloc takes the first free block: below a block that is new at its place none is free. */
  ghost predicate FirstFit(start: nat, s: Snap, t: Snap) {
    && (forall b :: b in s.owner ==> b in t.owner)
    && (forall q, b :: q in t.tree && q !in s.tree && start <= b < t.tree[q] ==> b in t.owner)
  }

  lemma FirstFitNot(start: nat, s: Snap)
    ensures FirstFit(start, s, s)
  {
  }

  lemma FirstFitTrans(start: nat, i: nat, s: Snap, t: Snap, u: Snap)
    requires FirstFit(start, s, t) && FirstFit(start, t, u) && Grew(i, t, u)
    ensures FirstFit(start, s, u)
  {
    forall q, b | q in u.tree && q !in s.tree && start <= b < u.tree[q] ensures b in u.owner {
      if q in t.tree { assert b in t.owner; }
    }
  }

  /** Block `b` put at `p`, all blocks below it marked. */
  lemma FirstFitOne(start: nat, used: seq<bool>, s: Snap, t: Snap, p: Pos, b: nat)
    requires Marks(used, start, s.owner) && b < |used| && (forall c :: 0 <= c < b ==> used[c])
    requires t.tree == s.tree[p := b] && t.owner == s.owner[b := p]
    ensures FirstFit(start, s, t)
  {
  }

  /** Putting a zeroed block at a new place, below an index block or not, is such a step. */
  lemma GrewAlloc(i: nat, s: Snap, t: Snap, p: Pos, b: nat, N: nat)
    requires Shape(|s.disk|, |s.inodes|, N, s.tree, s.owner) && p !in s.tree && b !in s.owner && p.Owner() == i
    requires t.tree == s.tree[p := b] && t.owner == s.owner[b := p] && 0 < b < |s.disk|
    requires |t.disk| == |s.disk| && t.disk[b] == Zeroes(|t.disk[b]|)
    requires forall q :: q in s.tree && q.Height() == 0 ==> t.disk[s.tree[q]] == s.disk[s.tree[q]]
    requires |t.inodes| == |s.inodes|
    requires forall j :: 0 <= j < |s.inodes| ==>
               t.inodes[j].size == s.inodes[j].size && (j != i ==> t.inodes[j] == s.inodes[j])
    ensures Grew(i, s, t)
  {
  }

  lemma OtherBlocks(s: Snap, q: Pos, b: nat, N: nat)
    requires Shape(|s.disk|, |s.inodes|, N, s.tree, s.owner) && q in s.tree && q.Height() > 0 && b !in s.owner
    ensures forall p :: p in s.tree && p.Height() == 0 ==> s.tree[p] != s.tree[q] && s.tree[p] != b
  {
  }

  ghost function RootAllocated(N: nat, s: Snap, i: nat, slot: nat, b: nat): Snap
    requires i < |s.inodes| && slot < |s.inodes[i].addrs| && b < |s.disk|
  {
    Snap(s.disk[b := Zeroes(4 * N)], s.inodes[i := s.inodes[i].(addrs := s.inodes[i].addrs[slot := b])],
         s.tree[Root(i, slot) := b], s.owner[b := Root(i, slot)])
  }

  lemma RootAllocatedOk(N: nat, s: Snap, i: nat, slot: nat, b: nat)
    requires TreeOk(N, s.disk, s.inodes, s.tree, s.owner) && i < |s.inodes| && slot < SLOTS == |s.inodes[i].addrs|
    requires Root(i, slot) !in s.tree && 0 < b < |s.disk| && b !in s.owner
    ensures var t := RootAllocated(N, s, i, slot, b); TreeOk(N, t.disk, t.inodes, t.tree, t.owner) && Grew(i, s, t)
  {
    AllocRoot(N, s.disk, s.inodes, s.tree, s.owner, i, slot, b);
    GrewAlloc(i, s, RootAllocated(N, s, i, slot, b), Root(i, slot), b, N);
  }

  ghost function SubAllocated(N: nat, s: Snap, q: Pos, k: nat, b: nat): Snap
    requires q in s.tree && s.tree[q] < |s.disk| && b < UINT && b < |s.disk| && 4 * k + 4 <= |s.disk[s.tree[q]]|
  {
    Snap(s.disk[b := Zeroes(4 * N)][s.tree[q] := WithWord(s.disk[s.tree[q]], k, b)], s.inodes,
         s.tree[Sub(q, k) := b], s.owner[b := Sub(q, k)])
  }

  lemma SubAllocatedOk(N: nat, s: Snap, q: Pos, k: nat, b: nat)
    requires TreeOk(N, s.disk, s.inodes, s.tree, s.owner) && q in s.tree && q.Height() > 0 && k < N
    requires Sub(q, k) !in s.tree && 0 < b < |s.disk| && b !in s.owner
    ensures var t := SubAllocated(N, s, q, k, b);
            TreeOk(N, t.disk, t.inodes, t.tree, t.owner) && Grew(q.Owner(), s, t)
  {
    WithWordSets(N, s.disk[s.tree[q]], k, b);
    var c := WithWord(s.disk[s.tree[q]], k, b);
    hide WithWord;
    AllocSub(N, s.disk, s.inodes, s.tree, s.owner, q, k, b, c);
    var t := SubAllocated(N, s, q, k, b);
    OtherBlocks(s, q, b, N);
    GrewAlloc(q.Owner(), s, t, Sub(q, k), b, N);
  }

  lemma MarksOne(used: seq<bool>, start: nat, owner: Owners, b: nat, p: Pos)
    requires Marks(used, start, owner) && b < |used| && !used[b]
    ensures b !in owner && start <= b && Marks(used[b := true], start, owner[b := p])
  {
  }

  class Fs {
    const g: Geometry
    /** The blocks below this one hold metadata. */
    const start: nat
    var disk: seq<Block>
    var used: seq<bool>
    var inodes: seq<Inode>
    /** The inodes on disk, as iupdate leaves them. */
    var dinodes: seq<Inode>
    /** What has been given to log_write since begin_op. */
    var log: Logged
    ghost var tree: Tree
    ghost var owner: Owners

    /** Each data block marked in the bitmap belongs to exactly one place of one inode, and
        every block at a place is marked. */
    ghost predicate Valid()
      reads this
    {
      && g.Valid() && 0 < start
      && TreeOk(g.n, disk, inodes, tree, owner)
      && |used| == |disk| && |dinodes| == |inodes| && Marks(used, start, owner)
    }

    /** Every bit of the bitmap is set. */
    ghost predicate Full()
      reads this
    {
      forall c :: 0 <= c < |used| ==> used[c]
    }

    ghost function State(): Snap
      reads this
    {
      Snap(disk, inodes, tree, owner)
    }

    ghost function OnDisk(): Stored
      reads this
    {
      Stored(disk, used, dinodes)
    }

    /** A file system made by mkfs without files: metadata marked, nothing else. */
    constructor (g: Geometry, start: nat, ndisk: nat, ninodes: nat)
      requires g.Valid() && 0 < start <= ndisk <= UINT
      ensures Valid() && this.g == g && this.start == start
      ensures |disk| == ndisk && |inodes| == ninodes && tree == map[] && dinodes == inodes
      ensures forall i :: 0 <= i < ninodes ==> inodes[i].size == 0
      ensures log == Nothing
    {
      this.g := g;
      this.start := start;
      disk := seq(ndisk, i => Zeroes(4 * g.n));
      used := seq(ndisk, i => i < start);
      inodes := seq(ninodes, i => Inode(0, seq(SLOTS, j => 0)));
      dinodes := seq(ninodes, i => Inode(0, seq(SLOTS, j => 0)));
      log := Nothing;
      tree := map[];
      owner := map[];
    }

    /** The first block whose bit is clear; it is marked and zeroed.  `ok` is false where
        the source panics: every bit is set. */
    method Balloc() returns (b: nat, ok: bool)
      requires |used| == |disk| && 0 < g.n
      modifies this`used, this`disk, this`log
      ensures ok ==> b < |old(disk)| && !old(used)[b] && forall c :: 0 <= c < b ==> old(used)[c]
      ensures ok ==> used == old(used)[b := true] && disk == old(disk)[b := Zeroes(4 * g.n)]
      ensures ok ==> log == old(log).(bits := old(log).bits + {BitBlock(g, b)}, blocks := old(log).blocks + {b})
      ensures Covered(g, old(OnDisk()), old(log), OnDisk(), log)
      ensures !ok ==> used == old(used) && disk == old(disk) && log == old(log)
      ensures !ok ==> forall c :: 0 <= c < |used| ==> used[c]
    {
      var bpb := BitsPerBlock(g);
      var base, k := 0, 0;
      while base < |disk|
        invariant 0 <= base && 0 <= k && base == bpb * k && used == old(used) && disk == old(disk) && log == old(log)
        invariant forall c :: 0 <= c < base && c < |disk| ==> used[c]
        decreases |disk| - base
      {
        var bi := 0;
        while bi < bpb && base + bi < |disk|
          invariant 0 <= bi <= bpb && used == old(used) && disk == old(disk) && log == old(log)
          invariant forall c :: 0 <= c < base + bi && c < |disk| ==> used[c]
        {
          if !used[base + bi] {
            b := base + bi;
            DivModUnique(b, bpb, k, bi);
            used := used[b := true];
            disk := disk[b := Zeroes(g.BlockSize())];
            log := log.(bits := log.bits + {k}, blocks := log.blocks + {b});
            ok := true;
            return;
          }
          bi := bi + 1;
        }
        base, k := base + bpb, k + 1;
      }
      b, ok := 0, false;
    }

    /** Clear the bit of a block; `ok` is false where the source panics: it is clear. */
    method Bfree(b: nat) returns (ok: bool)
      requires b < |used| && 0 < g.n
      modifies this`used, this`log
      ensures ok == old(used)[b]
      ensures used == old(used)[b := false]
      ensures log == old(log).(bits := old(log).bits + {BitBlock(g, b)})
    {
      ok := used[b];
      used := used[b := false];
      log := log.(bits := log.bits + {BitBlock(g, b)});
    }

    /** The block at a slot of an inode, allocated if need be. */
    method RootBlock(i: nat, s: nat) returns (addr: nat, ok: bool)
      requires Valid() && i < |inodes| && s < SLOTS
      modifies this`disk, this`used, this`inodes, this`tree, this`owner, this`log
      ensures Valid() && Grew(i, old(State()), State())
      ensures Root(i, s) in old(tree) ==> ok && State() == old(State())
      ensures ok ==> Root(i, s) in tree && addr == tree[Root(i, s)]
      ensures ok ==> Allots(g, Root(i, s), old(tree), old(log), tree, log)
      ensures g.n > 0 && Covered(g, old(OnDisk()), old(log), OnDisk(), log)
      ensures FirstFit(start, old(State()), State())
      ensures !ok ==> Full()
    {
      hide TreeOk, Grew, Allots, Covered, FirstFit;
      RootEntry(i, s);
      GrewNot(i, State());
      FirstFitNot(start, State());
      AllotsNothing(g, Root(i, s), tree, log);
      CoveredNothing(g, OnDisk(), log);
      addr, ok := inodes[i].addrs[s], true;
      if addr == 0 { addr, ok := NewRootBlock(i, s); }
    }

    lemma RootEntry(i: nat, s: nat)
      requires Valid() && i < |inodes| && s < SLOTS
      ensures |inodes[i].addrs| == SLOTS && inodes[i].addrs[s] == At(tree, Root(i, s))
      ensures Root(i, s) in tree ==> tree[Root(i, s)] > 0
      ensures Shape(|disk|, |inodes|, g.n, tree, owner)
    {
    }

    method NewRootBlock(i: nat, s: nat) returns (addr: nat, ok: bool)
      requires Valid() && i < |inodes| && s < SLOTS && Root(i, s) !in tree
      modifies this`disk, this`used, this`inodes, this`tree, this`owner, this`log
      ensures Valid() && Grew(i, old(State()), State())
      ensures ok ==> Root(i, s) in tree && addr == tree[Root(i, s)]
      ensures ok ==> Allots(g, Root(i, s), old(tree), old(log), tree, log)
      ensures g.n > 0 && Covered(g, old(OnDisk()), old(log), OnDisk(), log)
      ensures FirstFit(start, old(State()), State())
      ensures !ok ==> Full() && State() == old(State())
    {
      hide TreeOk, Shape, Grew, Allots, Covered, FirstFit, Zeroes, Marks;
      RootEntry(i, s);
      Parents();
      ghost var before := State();
      addr, ok := Balloc();
      if !ok {
        GrewNot(i, before);
        FirstFitNot(start, before);
        return;
      }
      MarksOne(old(used), start, owner, addr, Root(i, s));
      RootAllocatedOk(g.n, before, i, s, addr);
      inodes := inodes[i := inodes[i].(addrs := inodes[i].addrs[s := addr])];
      AllotsOne(g, Root(i, s), tree, old(log), addr, log);
      tree, owner := tree[Root(i, s) := addr], owner[addr := Root(i, s)];
      assert State() == RootAllocated(g.n, before, i, s, addr);
      FirstFitOne(start, old(used), before, State(), Root(i, s), addr);
    }

    /** The block named by a word of an index block, allocated if need be. */
    method SubBlock(index: nat, k: nat, ghost q: Pos) returns (addr: nat, ok: bool)
      requires Valid() && q in tree && q.Height() > 0 && index == tree[q] && k < g.n
      modifies this`disk, this`used, this`tree, this`owner, this`log
      ensures Valid() && Grew(q.Owner(), old(State()), State())
      ensures Sub(q, k) in old(tree) ==> ok && State() == old(State())
      ensures ok ==> Sub(q, k) in tree && addr == tree[Sub(q, k)]
      ensures ok ==> Allots(g, Sub(q, k), old(tree), old(log), tree, log)
      ensures g.n > 0 && Covered(g, old(OnDisk()), old(log), OnDisk(), log)
      ensures FirstFit(start, old(State()), State())
      ensures !ok ==> Full()
    {
      hide Allots, Covered, FirstFit;
      AllotsNothing(g, Sub(q, k), tree, log);
      CoveredNothing(g, OnDisk(), log);
      FirstFitNot(start, State());
      addr, ok := Word(disk[index], k), true;
      assert addr == At(tree, Sub(q, k));
      if addr == 0 {
        addr, ok := NewSubBlock(index, k, q);
      }
    }

    method NewSubBlock(index: nat, k: nat, ghost q: Pos) returns (addr: nat, ok: bool)
      requires Valid() && q in tree && q.Height() > 0 && index == tree[q] && k < g.n && Sub(q, k) !in tree
      modifies this`disk, this`used, this`tree, this`owner, this`log
      ensures Valid() && Grew(q.Owner(), old(State()), State())
      ensures ok ==> Sub(q, k) in tree && addr == tree[Sub(q, k)]
      ensures ok ==> Allots(g, Sub(q, k), old(tree), old(log), tree, log)
      ensures g.n > 0 && Covered(g, old(OnDisk()), old(log), OnDisk(), log)
      ensures FirstFit(start, old(State()), State())
      ensures !ok ==> Full()
    {
      hide WithWord, Word, TreeOk, Grew, Allots, FirstFit, Zeroes, Marks;
      IndexBlock(q);
      Parents();
      ghost var s := State();
      addr, ok := Balloc();
      if !ok {
        GrewNot(q.Owner(), s);
        FirstFitNot(start, s);
        return;
      }
      MarksOne(old(used), start, owner, addr, Sub(q, k));
      SubAllocatedOk(g.n, s, q, k, addr);
      disk := disk[index := WithWord(disk[index], k, addr)];
      log := log.(blocks := log.blocks + {index});
      AllotsOne(g, Sub(q, k), tree, old(log), addr, log);
      tree, owner := tree[Sub(q, k) := addr], owner[addr := Sub(q, k)];
      assert State() == SubAllocated(g.n, s, q, k, addr);
      FirstFitOne(start, old(used), s, State(), Sub(q, k), addr);
    }

    lemma Parents()
      requires Valid()
      ensures 0 < g.n && forall q :: q in tree && q.Sub? ==> q.parent in tree
    {
    }

    lemma IndexBlock(q: Pos)
      requires Valid() && q in tree
      ensures tree[q] < |disk| <= UINT && |disk[tree[q]]| == 4 * g.n && tree[q] in owner
    {
    }

    /** An index block exists if something hangs below it. */
    lemma Above(q: Pos, k: nat)
      requires Valid()
      ensures Sub(q, k) in tree ==> q in tree
    {
    }

    lemma Ordered()
      requires Valid()
      ensures g.Valid() && g.n <= g.n2 <= g.n3
    {
    }

    lemma DirectPlace(i: nat, bn: nat)
      requires Valid()
      ensures bn < NDIRECT ==> Place(g, i, bn) == Root(i, bn)
    {
    }

    /** The block of the file that holds its block `bn`, allocated with the index blocks
        above it if need be.  `ok` is false where the source panics: no such block, or no
        block left. */
    method Bmap(i: nat, bn: nat) returns (addr: nat, ok: bool)
      requires Valid() && i < |inodes|
      modifies this`disk, this`used, this`inodes, this`tree, this`owner, this`log
      ensures Valid() && Grew(i, old(State()), State())
      ensures ok ==> bn < g.Limit() && Place(g, i, bn) in tree && addr == tree[Place(g, i, bn)]
      ensures ok ==> Allots(g, Place(g, i, bn), old(tree), old(log), tree, log)
      ensures g.n > 0 && Covered(g, old(OnDisk()), old(log), OnDisk(), log)
      ensures FirstFit(start, old(State()), State())
      ensures bn < g.Limit() && Place(g, i, bn) in old(tree) ==> ok && State() == old(State())
      ensures bn >= g.Limit() ==> State() == old(State())
      ensures !ok ==> bn >= g.Limit() || Full()
    {
      hide Valid, Grew, Place, Geometry.Valid, Allots, Covered, FirstFit;
      Ordered();
      CoveredNothing(g, OnDisk(), log);
      FirstFitNot(start, State());
      DirectPlace(i, bn);
      if bn < NDIRECT {
        addr, ok := RootBlock(i, bn);
        return;
      }
      var b := bn - NDIRECT;
      if b < g.n {
        addr, ok := SingleBlock(i, b);
      } else if b < g.n2 {
        addr, ok := DoubleBlock(i, b);
      } else if b < g.n3 {
        addr, ok := TripleBlock(i, b);
      } else {
        addr, ok := 0, false;
        GrewNot(i, State());
      }
    }

    /** bmap's single-indirect case. */
    method SingleBlock(i: nat, b: nat) returns (addr: nat, ok: bool)
      requires Valid() && i < |inodes| && b < g.n
      modifies this`disk, this`used, this`inodes, this`tree, this`owner, this`log
      ensures Valid() && Grew(i, old(State()), State())
      ensures ok ==> Place(g, i, b + NDIRECT) in tree && addr == tree[Place(g, i, b + NDIRECT)]
      ensures ok ==> Allots(g, Place(g, i, b + NDIRECT), old(tree), old(log), tree, log)
      ensures g.n > 0 && Covered(g, old(OnDisk()), old(log), OnDisk(), log)
      ensures FirstFit(start, old(State()), State())
      ensures !ok ==> Full()
      ensures Place(g, i, b + NDIRECT) in old(tree) ==> ok && State() == old(State())
    {
      ghost var s0, r := State(), Root(i, NDIRECT);
      assert r.Height() == 1 && r.Owner() == i && Place(g, i, b + NDIRECT) == Sub(r, b);
      Above(r, b);
      hide Valid, Grew, Allots, Covered, FirstFit;
      addr, ok := RootBlock(i, NDIRECT);
      if !ok { return; }
      ghost var s1, l1, d1 := State(), log, OnDisk();
      addr, ok := SubBlock(addr, b, r);
      GrewTrans(i, s0, s1, State());
      FirstFitTrans(start, i, s0, s1, State());
      CoveredTrans(g, old(OnDisk()), old(log), d1, l1, OnDisk(), log);
      if ok { AllotsBelow(g, r, b, s0.tree, old(log), s1.tree, l1, tree, log); }
    }

    /** bmap's double-indirect case. */
    method DoubleBlock(i: nat, b: nat) returns (addr: nat, ok: bool)
      requires Valid() && i < |inodes| && g.n <= b < g.n2
      modifies this`disk, this`used, this`inodes, this`tree, this`owner, this`log
      ensures Valid() && Grew(i, old(State()), State())
      ensures ok ==> Place(g, i, b + NDIRECT) in tree && addr == tree[Place(g, i, b + NDIRECT)]
      ensures ok ==> Allots(g, Place(g, i, b + NDIRECT), old(tree), old(log), tree, log)
      ensures g.n > 0 && Covered(g, old(OnDisk()), old(log), OnDisk(), log)
      ensures FirstFit(start, old(State()), State())
      ensures !ok ==> Full()
      ensures Place(g, i, b + NDIRECT) in old(tree) ==> ok && State() == old(State())
    {
      DivLess(b, g.n, g.n);
      ModLess(b, g.n);
      var j, k := b / g.n, b % g.n;
      ghost var s0, r := State(), Root(i, NDIRECT + 1);
      ghost var p := Sub(r, j);
      assert r.Height() == 2 && r.Owner() == i && p.Height() == 1 && p.Owner() == i;
      assert Place(g, i, b + NDIRECT) == Sub(p, k);
      Above(r, j);
      Above(p, k);
      hide Valid, Grew, Place, Allots, Covered, FirstFit;
      addr, ok := RootBlock(i, NDIRECT + 1);
      if !ok { return; }
      ghost var s1, l1, d1 := State(), log, OnDisk();
      addr, ok := SubBlock(addr, j, r);
      GrewTrans(i, s0, s1, State());
      FirstFitTrans(start, i, s0, s1, State());
      CoveredTrans(g, old(OnDisk()), old(log), d1, l1, OnDisk(), log);
      if !ok { return; }
      AllotsBelow(g, r, j, s0.tree, old(log), s1.tree, l1, tree, log);
      ghost var s2, l2, d2 := State(), log, OnDisk();
      addr, ok := SubBlock(addr, k, p);
      GrewTrans(i, s0, s2, State());
      FirstFitTrans(start, i, s0, s2, State());
      CoveredTrans(g, old(OnDisk()), old(log), d2, l2, OnDisk(), log);
      if ok { AllotsBelow(g, p, k, s0.tree, old(log), s2.tree, l2, tree, log); }
    }

    /** The way to a triple-indirect block, and that what is above a mapped block is mapped. */
    lemma TriplePath(i: nat, b: nat)
      requires Valid() && g.n2 <= b < g.n3
      ensures 0 < g.n && 0 < g.n2 && 0 <= b / g.n2 < g.n && 0 <= b % g.n2 / g.n < g.n && 0 <= b % g.n < g.n
      ensures var r := Root(i, NDIRECT + 2);
              var p := Sub(r, b / g.n2);
              var q := Sub(p, b % g.n2 / g.n);
              && Place(g, i, b + NDIRECT) == Sub(q, b % g.n)
              && r.Height() == 3 && r.Owner() == i && p.Height() == 2 && p.Owner() == i && q.Height() == 1
                && q.Owner() == i
              && (Sub(q, b % g.n) in tree ==> q in tree) && (q in tree ==> p in tree) && (p in tree ==> r in tree)
    {
      DivLess(b, g.n2, g.n);
      ModLess(b, g.n2);
      DivLess(b % g.n2, g.n, g.n);
      ModLess(b, g.n);
      hide TreeOk;
      Parents();
    }

    /** bmap's triple-indirect case. */
    method TripleBlock(i: nat, b: nat) returns (addr: nat, ok: bool)
      requires Valid() && i < |inodes| && g.n2 <= b < g.n3
      modifies this`disk, this`used, this`inodes, this`tree, this`owner, this`log
      ensures Valid() && Grew(i, old(State()), State())
      ensures ok ==> Place(g, i, b + NDIRECT) in tree && addr == tree[Place(g, i, b + NDIRECT)]
      ensures ok ==> Allots(g, Place(g, i, b + NDIRECT), old(tree), old(log), tree, log)
      ensures g.n > 0 && Covered(g, old(OnDisk()), old(log), OnDisk(), log)
      ensures FirstFit(start, old(State()), State())
      ensures !ok ==> Full()
      ensures Place(g, i, b + NDIRECT) in old(tree) ==> ok && State() == old(State())
    {
      hide Valid, Grew, Place, Allots, Covered, FirstFit;
      TriplePath(i, b);
      var j, k, l := b / g.n2, b % g.n2 / g.n, b % g.n;
      ghost var s0, r := State(), Root(i, NDIRECT + 2);
      ghost var p := Sub(r, j);
      ghost var q := Sub(p, k);
      addr, ok := RootBlock(i, NDIRECT + 2);
      if !ok { return; }
      ghost var s1, l1, d1 := State(), log, OnDisk();
      addr, ok := SubBlock(addr, j, r);
      GrewTrans(i, s0, s1, State());
      FirstFitTrans(start, i, s0, s1, State());
      CoveredTrans(g, old(OnDisk()), old(log), d1, l1, OnDisk(), log);
      if !ok { return; }
      AllotsBelow(g, r, j, s0.tree, old(log), s1.tree, l1, tree, log);
      ghost var s2, l2, d2 := State(), log, OnDisk();
      addr, ok := SubBlock(addr, k, p);
      GrewTrans(i, s0, s2, State());
      FirstFitTrans(start, i, s0, s2, State());
      CoveredTrans(g, old(OnDisk()), old(log), d2, l2, OnDisk(), log);
      if !ok { return; }
      AllotsBelow(g, p, k, s0.tree, old(log), s2.tree, l2, tree, log);
      ghost var s3, l3, d3 := State(), log, OnDisk();
      addr, ok := SubBlock(addr, l, q);
      GrewTrans(i, s0, s3, State());
      FirstFitTrans(start, i, s0, s3, State());
      CoveredTrans(g, old(OnDisk()), old(log), d3, l3, OnDisk(), log);
      if ok { AllotsBelow(g, q, l, s0.tree, old(log), s3.tree, l3, tree, log); }
    }

    /** What freeing needs of the trees; it does not depend on the inodes' slots. */
    ghost predicate Standing(ninodes: nat)
      reads this
    {
      && 0 < g.n && Sized(g.n, disk) && Shape(|disk|, ninodes, g.n, tree, owner) && WordsOk(g.n, disk, tree)
      && |used| == |disk|
    }

    lemma StandingFacts(ninodes: nat)
      requires Standing(ninodes)
      ensures 0 < g.n && Injective(tree, owner)
      ensures forall r :: r in tree && r.Sub? ==> r.parent in tree
      ensures forall q :: q in tree ==> q.Within(ninodes, g.n) && tree[q] < |used|
    {
    }

    lemma IndexWord(ninodes: nat, p: Pos, j: nat)
      requires Standing(ninodes) && p in tree && p.Height() > 0 && j < g.n
      ensures tree[p] < |disk| && |disk[tree[p]]| == 4 * g.n
      ensures Word(disk[tree[p]], j) == At(tree, Sub(p, j)) && (Word(disk[tree[p]], j) == 0 <==> Sub(p, j) !in tree)
    {
    }

    /** Free what an index block names, by the loop of itrunc for blocks of height 1, 2 and
        3, and then the index block itself.  No block is freed twice: `ok` stays true. */
    method FreeIndex(addr: nat, ghost p: Pos, ghost ninodes: nat, height: int) returns (ok: bool)
      requires Standing(ninodes) && p in tree && p.Height() == height > 0 && addr == tree[p]
      requires BlocksUnder(tree, p) <= Marked(used)
      modifies this`used, this`log
      ensures ok && Standing(ninodes) && Marked(used) == old(Marked(used)) - BlocksUnder(tree, p)
      ensures 0 < g.n && log == Freed(g, old(log), BlocksUnder(tree, p))
      decreases height, 0
    {
      hide Standing, BlocksUnder, BlocksBelow, Marked, Word, Freed;
      StandingFacts(ninodes);
      FreedNone(g, log);
      ghost var marks, l := Marked(used), log;
      var j := 0;
      ok := true;
      BelowNone(tree, p);
      BelowAll(tree, owner, ninodes, g.n, p);
      while j < g.n
        invariant 0 <= j <= g.n && ok && Standing(ninodes)
        invariant Marked(used) == marks - BlocksBelow(tree, p, j) && log == Freed(g, l, BlocksBelow(tree, p, j))
      {
        IndexWord(ninodes, p, j);
        BelowOneMore(tree, p, j);
        BelowDisjoint(tree, owner, p, j);
        BelowWithin(tree, p, j, g.n);
        FreeOneMore(marks, BlocksBelow(tree, p, j), BlocksUnder(tree, Sub(p, j)), BlocksBelow(tree, p, j + 1));
        FreedMore(g, l, BlocksBelow(tree, p, j), BlocksUnder(tree, Sub(p, j)));
        FreedNone(g, log);
        var a := Word(disk[addr], j);
        if a != 0 {
          ok := FreePlace(a, Sub(p, j), ninodes, height - 1);
        }
        j := j + 1;
      }
      FreeOneMore(marks, BlocksBelow(tree, p, g.n), {tree[p]}, BlocksUnder(tree, p));
      FreedMore(g, l, BlocksBelow(tree, p, g.n), {tree[p]});
      ok := FreeBlock(addr, ninodes);
    }

    /** Free the block at a place, with what hangs below it. */
    method FreePlace(addr: nat, ghost p: Pos, ghost ninodes: nat, height: int) returns (ok: bool)
      requires Standing(ninodes) && p in tree && p.Height() == height >= 0 && addr == tree[p]
      requires BlocksUnder(tree, p) <= Marked(used)
      modifies this`used, this`log
      ensures ok && Standing(ninodes) && Marked(used) == old(Marked(used)) - BlocksUnder(tree, p)
      ensures 0 < g.n && log == Freed(g, old(log), BlocksUnder(tree, p))
      decreases height, 1
    {
      if height == 0 {
        DataAlone(ninodes, p);
        ok := FreeBlock(addr, ninodes);
      } else {
        ok := FreeIndex(addr, p, ninodes, height);
      }
    }

    method FreeBlock(addr: nat, ghost ninodes: nat) returns (ok: bool)
      requires Standing(ninodes) && addr in Marked(used)
      modifies this`used, this`log
      ensures ok && Standing(ninodes) && Marked(used) == old(Marked(used)) - {addr}
      ensures 0 < g.n && log == Freed(g, old(log), {addr})
    {
      MarkedFree(used, addr);
      FreedOne(g, log, addr);
      ok := Bfree(addr);
    }

    lemma DataAlone(ninodes: nat, p: Pos)
      requires Standing(ninodes) && p in tree && p.Height() == 0
      ensures BlocksUnder(tree, p) == {tree[p]}
    {
      forall q: Pos | q in tree && q.Under(p) ensures q == p {
        if q != p {
          UnderSize(p, q.parent);
        }
      }
    }

    /** The step of itrunc for one slot. */
    method TruncSlot(i: nat, s: nat, height: nat) returns (ok: bool)
      requires Standing(|inodes|) && i < |inodes| && |inodes[i].addrs| == SLOTS && s < SLOTS
      requires height == Root(i, s).Height() && inodes[i].addrs[s] == At(tree, Root(i, s))
      requires Root(i, s) in tree ==> tree[Root(i, s)] != 0
      requires BlocksUnder(tree, Root(i, s)) <= Marked(used)
      modifies this`used, this`inodes, this`log
      ensures ok && |inodes| == |old(inodes)| && Standing(|inodes|)
      ensures inodes == old(inodes)[i := old(inodes)[i].(addrs := old(inodes)[i].addrs[s := 0])]
      ensures Marked(used) == old(Marked(used)) - BlocksUnder(tree, Root(i, s))
      ensures 0 < g.n && log == Freed(g, old(log), BlocksUnder(tree, Root(i, s)))
    {
      ok := true;
      if inodes[i].addrs[s] != 0 {
        ok := FreePlace(inodes[i].addrs[s], Root(i, s), |inodes|, height);
        inodes := inodes[i := inodes[i].(addrs := inodes[i].addrs[s := 0])];
      } else {
        StandingFacts(|inodes|);
        SlotOneMore(tree, owner, i, s);
        FreedNone(g, log);
        assert inodes[i].addrs[s := 0] == inodes[i].addrs;
      }
    }

    /** What holds of the inode and the bitmap when the first `s` slots are done. */
    ghost predicate TruncatedTo(i: nat, s: nat, was: seq<Inode>, marks: set<nat>, l: Logged)
      reads this
      requires i < |was| && s <= SLOTS
    {
      && |inodes| == |was| && Standing(|inodes|) && |used| == |disk|
      && |was[i].addrs| == SLOTS && |inodes[i].addrs| == SLOTS
      && inodes == was[i := inodes[i]] && inodes[i].size == was[i].size
      && (forall t :: 0 <= t < SLOTS ==> inodes[i].addrs[t] == if t < s then 0 else was[i].addrs[t])
      && (forall t :: 0 <= t < SLOTS ==> was[i].addrs[t] == At(tree, Root(i, t)))
      && (forall q :: q in tree ==> tree[q] != 0)
      && BlocksOf(tree, i, SLOTS) <= marks
      && Marked(used) == marks - BlocksOf(tree, i, s) && log == Freed(g, l, BlocksOf(tree, i, s))
    }

    method TruncNext(i: nat, s: nat, height: nat, ghost was: seq<Inode>, ghost marks: set<nat>, ghost l: Logged)
      returns (ok: bool)
      requires i < |was| && s < SLOTS && TruncatedTo(i, s, was, marks, l) && height == Root(i, s).Height()
      modifies this`used, this`inodes, this`log
      ensures ok && TruncatedTo(i, s + 1, was, marks, l)
    {
      StandingFacts(|inodes|);
      SlotOneMore(tree, owner, i, s);
      SlotsWithin(tree, i, s);
      hide Standing, BlocksUnder, BlocksOf, Marked, Freed;
      FreedMore(g, l, BlocksOf(tree, i, s), BlocksUnder(tree, Root(i, s)));
      FreeOneMore(marks, BlocksOf(tree, i, s), BlocksUnder(tree, Root(i, s)), BlocksOf(tree, i, s + 1));
      ok := TruncSlot(i, s, height);
    }

    /** All slots, in the order of the source. */
    method TruncAll(i: nat) returns (ok: bool)
      requires Valid() && i < |inodes|
      modifies this`used, this`inodes, this`log
      ensures ok && TruncatedTo(i, SLOTS, old(inodes), old(Marked(used)), old(log))
    {
      hide Valid, TruncatedTo, Marked;
      TruncStart(i);
      ghost var was, marks, l := inodes, Marked(used), log;
      var s := 0;
      ok := true;
      while s < NDIRECT
        invariant 0 <= s <= NDIRECT && ok && TruncatedTo(i, s, was, marks, l)
      {
        ok := TruncNext(i, s, 0, was, marks, l);
        s := s + 1;
      }
      ok := TruncNext(i, NDIRECT, 1, was, marks, l);
      ok := TruncNext(i, NDIRECT + 1, 2, was, marks, l);
      ok := TruncNext(i, NDIRECT + 2, 3, was, marks, l);
    }

    /** Discard the contents of an inode: its blocks, and only they, lose their bits, each
        once (`ok` is true: no free block is freed), and nothing else changes. */
    method Itrunc(i: nat) returns (ok: bool)
      requires Valid() && i < |inodes|
      modifies this
      ensures ok && Valid() && disk == old(disk)
      ensures tree == TreeWithout(old(tree), i)
      ensures Marked(used) == old(Marked(used)) - BlocksOf(old(tree), i, SLOTS)
      ensures inodes == old(inodes)[i := Inode(0, NoSlots())]
      ensures dinodes == old(dinodes)[i := Inode(0, NoSlots())]
      ensures log.bits == old(log).bits + BitsOf(g, BlocksOf(old(tree), i, SLOTS))
      ensures log.blocks == old(log).blocks && log.inodes == old(log).inodes + {i}
    {
      ghost var was, used0, l := inodes, used, log;
      TreeWithoutOk(g.n, disk, inodes, tree, owner, i);
      hide TreeOk, TruncatedTo, Marked, BlocksOf;
      ok := TruncAll(i);
      TruncFinish(i, was, used0, l);
      inodes := inodes[i := inodes[i].(size := 0)];
      tree, owner := TreeWithout(tree, i), OwnersWithout(owner, i);
      // iupdate
      dinodes := dinodes[i := inodes[i]];
      log := log.(inodes := log.inodes + {i});
    }

    lemma TruncFinish(i: nat, was: seq<Inode>, used0: seq<bool>, l: Logged)
      requires i < |was| && TruncatedTo(i, SLOTS, was, Marked(used0), l) && |used0| == |disk|
      requires forall b :: 0 <= b < |used0| ==> (used0[b] <==> b < start || b in owner)
      requires forall b :: b in owner ==> start <= b
      ensures |inodes| == |was| && inodes[i := inodes[i].(size := 0)] == was[i := Inode(0, NoSlots())]
      ensures |used| == |disk| && Marked(used) == Marked(used0) - BlocksOf(tree, i, SLOTS)
      ensures 0 < g.n && log == Freed(g, l, BlocksOf(tree, i, SLOTS))
      ensures forall b :: 0 <= b < |used| ==> (used[b] <==> b < start || b in OwnersWithout(owner, i))
    {
      assert inodes[i].addrs == NoSlots();
      MarksWithout(used0, used, start, |disk|, |inodes|, g.n, tree, owner, i);
    }

    lemma TruncStart(i: nat)
      requires Valid() && i < |inodes|
      ensures TruncatedTo(i, 0, inodes, Marked(used), log)
    {
      FreedNone(g, log);
      assert BlocksOf(tree, i, 0) == {};
      forall b | b in BlocksOf(tree, i, SLOTS) ensures b in Marked(used) { assert b in owner; }
    }
  }
}
