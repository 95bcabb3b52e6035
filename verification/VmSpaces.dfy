/** The address spaces of all processes over whole runs: growproc, fork's copy, exec's new directory
    and freevm (proc.c over vm.c). */
module VmSpaces {
  import opened Arith
  import opened PageFrames
  import opened VmCode

  const KERNBASE: nat := USERPAGES * PGSIZE
  const HALF: int := 0x8000_0000   // an int goes from -HALF to HALF - 1

  /** A process's page directory and its size. */
  datatype Space = Space(d: int, sz: nat)

  /** No user page from `sz` on is mapped. */
  ghost predicate SpaceIn(fs: Frames, ow: Owners, sp: Space) {
    && sp.d in ow && ow[sp.d] == IsDir(sp.d) && sp.sz <= KERNBASE
    && forall w: nat :: w < USERPAGES && PteOf(fs, sp.d, w).Pte? ==> w < PagesUp(sp.sz)
  }

  /** Every user page below `sz` is mapped. */
  ghost predicate Whole(fs: Frames, sp: Space) {
    forall w: nat :: w < PagesUp(sp.sz) ==> PteOf(fs, sp.d, w).Pte?
  }

  ghost predicate SpacesIn(fs: Frames, ow: Owners, sps: seq<Space>) {
    && (forall k :: 0 <= k < |sps| ==> SpaceIn(fs, ow, sps[k]))
    && (forall i, j :: 0 <= i < j < |sps| ==> sps[i].d != sps[j].d)
  }

  ghost predicate AllWhole(fs: Frames, sps: seq<Space>) {
    forall k :: 0 <= k < |sps| ==> Whole(fs, sps[k])
  }

  /** An operation on `d` leaves every other space as it is. */
  lemma OtherSpaces(fs: Frames, free: seq<int>, ow: Owners, fs': Frames, ow': Owners, d: int, sps: seq<Space>)
    requires Ok(fs, free, ow) && Touches(fs, ow, fs', ow', d) && SpacesIn(fs, ow, sps)
    ensures forall k :: 0 <= k < |sps| && sps[k].d != d ==> SpaceIn(fs', ow', sps[k])
    ensures forall k :: 0 <= k < |sps| && sps[k].d != d ==> (Whole(fs', sps[k]) <==> Whole(fs, sps[k]))
  {
    forall k | 0 <= k < |sps| && sps[k].d != d
      ensures SpaceIn(fs', ow', sps[k]) && (Whole(fs', sps[k]) <==> Whole(fs, sps[k]))
    {
      OtherSpace(fs, free, ow, fs', ow', d, sps[k]);
    }
  }

  lemma OtherSpace(fs: Frames, free: seq<int>, ow: Owners, fs': Frames, ow': Owners, d: int, sp: Space)
    requires Ok(fs, free, ow) && Touches(fs, ow, fs', ow', d) && SpaceIn(fs, ow, sp) && sp.d != d
    ensures SpaceIn(fs', ow', sp) && (Whole(fs', sp) <==> Whole(fs, sp))
  {
    OthersKeep(fs, free, ow, fs', ow', d, sp.d, 0);
    forall w: nat | w < USERPAGES ensures PteOf(fs', sp.d, w) == PteOf(fs, sp.d, w) {
      OthersKeep(fs, free, ow, fs', ow', d, sp.d, w);
    }
  }

  /** Pages that show the same are mapped or unmapped alike. */
  lemma SameMapped(fs: Frames, free: seq<int>, ow: Owners, fs': Frames, free': seq<int>, ow': Owners, d: int, lo: nat,
                   hi: nat)
    requires Ok(fs, free, ow) && Ok(fs', free', ow') && d in ow && ow[d] == IsDir(d) && d in ow' && ow'[d] == IsDir(d)
    requires SameBut(fs, fs', d, lo, hi)
    ensures forall w: nat :: w < USERPAGES && !(lo <= w < hi) ==> (PteOf(fs', d, w).Pte? <==> PteOf(fs, d, w).Pte?)
  {
    forall w: nat | w < USERPAGES && !(lo <= w < hi) ensures PteOf(fs', d, w).Pte? <==> PteOf(fs, d, w).Pte? {
      SeesPte(fs, free, ow, d, w);
      SeesPte(fs', free', ow', d, w);
    }
  }

  /** A failed allocuvm. */
  lemma SameSpace(fs: Frames, free: seq<int>, ow: Owners, fs': Frames, free': seq<int>, ow': Owners, sp: Space)
    requires Ok(fs, free, ow) && Ok(fs', free', ow') && SpaceIn(fs, ow, sp) && sp.d in ow' && ow'[sp.d] == IsDir(sp.d)
    requires SameBut(fs, fs', sp.d, 0, 0)
    ensures SpaceIn(fs', ow', sp) && (Whole(fs', sp) <==> Whole(fs, sp))
  {
    SameMapped(fs, free, ow, fs', free', ow', sp.d, 0, 0);
    PagesBelow(sp.sz);
  }

  lemma PagesBelow(sz: nat)
    requires sz <= KERNBASE
    ensures PagesUp(sz) <= USERPAGES
  {
  }

  /** A successful allocuvm. */
  lemma GrownSpace(fs: Frames, free: seq<int>, ow: Owners, fs': Frames, free': seq<int>, ow': Owners, sp: Space,
                   sz: nat)
    requires Ok(fs, free, ow) && Ok(fs', free', ow') && SpaceIn(fs, ow, sp) && sp.d in ow' && ow'[sp.d] == IsDir(sp.d)
    requires sp.sz <= sz <= KERNBASE && SameBut(fs, fs', sp.d, PagesUp(sp.sz), PagesUp(sz))
    requires forall w: nat :: PagesUp(sp.sz) <= w < PagesUp(sz) ==> Sees(fs', sp.d, w).Seen?
    ensures SpaceIn(fs', ow', Space(sp.d, sz)) && (Whole(fs', Space(sp.d, sz)) <==> Whole(fs, sp))
  {
    SameMapped(fs, free, ow, fs', free', ow', sp.d, PagesUp(sp.sz), PagesUp(sz));
    PagesBelow(sz);
    forall w: nat | PagesUp(sp.sz) <= w < PagesUp(sz) ensures PteOf(fs', sp.d, w).Pte? {
      SeesPte(fs', free', ow', sp.d, w);
    }
    if Whole(fs', Space(sp.d, sz)) {
      forall w: nat | w < PagesUp(sp.sz) ensures PteOf(fs, sp.d, w).Pte? { assert PteOf(fs', sp.d, w).Pte?; }
    }
  }

  /** A deallocuvm to `newsz`, of which the process comes to know the size `sz`. */
  lemma ShrunkSpace(fs: Frames, free: seq<int>, ow: Owners, fs': Frames, free': seq<int>, ow': Owners, sp: Space,
                    newsz: nat, sz: nat)
    requires Ok(fs, free, ow) && Ok(fs', free', ow') && SpaceIn(fs, ow, sp) && sp.d in ow' && ow'[sp.d] == IsDir(sp.d)
    requires newsz <= sz <= sp.sz && SameBut(fs, fs', sp.d, PagesUp(newsz), PagesUp(sp.sz))
    requires forall w: nat :: PagesUp(newsz) <= w < PagesUp(sp.sz) ==> PteOf(fs', sp.d, w) == Absent
    ensures SpaceIn(fs', ow', Space(sp.d, sz))
    ensures Whole(fs, sp) ==> (Whole(fs', Space(sp.d, sz)) <==> PagesUp(sz) == PagesUp(newsz))
  {
    SameMapped(fs, free, ow, fs', free', ow', sp.d, PagesUp(newsz), PagesUp(sp.sz));
    PagesBelow(sp.sz);
    forall w: nat | w < USERPAGES && PteOf(fs', sp.d, w).Pte? ensures w < PagesUp(newsz) {
      assert !(PagesUp(newsz) <= w < PagesUp(sp.sz));
    }
    assert PagesUp(newsz) < PagesUp(sz) ==> PteOf(fs', sp.d, PagesUp(newsz)) == Absent;
    if Whole(fs, sp) && PagesUp(sz) == PagesUp(newsz) {
      forall w: nat | w < PagesUp(sz) ensures PteOf(fs', sp.d, w).Pte? { assert PteOf(fs, sp.d, w).Pte?; }
    }
  }

  lemma SameUpTo(fs: Frames, fs': Frames, d: int, newsz: nat, oldsz: nat, sz: nat)
    requires SameBut(fs, fs', d, PagesUp(newsz), PagesUp(oldsz)) && sz == if newsz >= oldsz then oldsz else newsz
    ensures SameBut(fs, fs', d, PagesUp(sz), PagesUp(oldsz))
  {
  }

  /** sbrk(-sz): every page is unmapped and growproc, which takes the new size 0 for a failure, keeps
      the old one. A copy of that space meets copyuvm's panic at its first page. */
  lemma EmptiedSpace(fs: Frames, sp: Space)
    requires 0 < sp.sz && forall w: nat :: w < PagesUp(sp.sz) ==> PteOf(fs, sp.d, w) == Absent
    ensures !Whole(fs, sp) && FirstHole(fs, sp.d, PagesUp(sp.sz)) == 0 < PagesUp(sp.sz)
  {
    assert PteOf(fs, sp.d, 0) == Absent;
  }

  /** A whole space has no hole for copyuvm to panic at, and one that is not has. */
  lemma WholeIff(fs: Frames, sp: Space)
    ensures Whole(fs, sp) <==> FirstHole(fs, sp.d, PagesUp(sp.sz)) == PagesUp(sp.sz)
  {
  }

  /** growproc's unsigned sum, for a size below 2^31 and a negative request. */
  lemma Wrapped(sz: nat, n: int)
    requires sz <= KERNBASE && -HALF <= n < 0
    ensures NewSize(sz, n) == if sz + n >= 0 then sz + n else sz + n + UINT
    ensures sz + n < 0 ==> sz <= NewSize(sz, n)
  {
  }

  datatype VmOp = New | Sbrk(k: nat, n: int) | Fork(k: nat) | Drop(k: nat)

  /** growproc's unsigned sum. */
  function NewSize(sz: nat, n: int): nat { (sz + n) % UINT }

  /** The request that unmaps everything and is reported as a failure. */
  predicate Empties(sz: nat, n: int) { 0 < sz && sz + n == 0 }

  /** All that the address spaces are. */
  datatype World = World(frames: Frames, free: seq<int>, owner: Owners, sps: seq<Space>)

  /** There are frames for `n` more bytes, and addresses. */
  ghost predicate Enough(w: World, k: nat, n: nat)
    requires k < |w.sps|
  {
    var sp := w.sps[k];
    && sp.sz + n < KERNBASE
    && Need(Tables(w.frames, sp.d), PagesUp(sp.sz), PagesUp(sp.sz + n)) <= |w.free|
  }

  /** The size that growproc leaves, and its result. */
  ghost function Resized(w: World, k: nat, n: int): nat
    requires k < |w.sps|
  {
    var sz := w.sps[k].sz;
    if n > 0 then (if Enough(w, k, n) then sz + n else sz) else if 0 < sz + n then sz + n else sz
  }

  ghost function GrowCode(w: World, k: nat, n: int): int
    requires k < |w.sps|
  {
    if n > 0 then (if Enough(w, k, n) then 0 else -1)
    else if n < 0 && (w.sps[k].sz == 0 || Empties(w.sps[k].sz, n)) then -1 else 0
  }

  /** Directory `d` shows what `d0` showed below `sz`, in frames that were free. */
  ghost predicate Twin(fs: Frames, ow: Owners, d0: int, fs': Frames, d: int, sz: nat) {
    forall w: nat :: w < PagesUp(sz) ==> Copied(Sees(fs, d0, w), Sees(fs', d, w), ow)
  }

  /** copyuvm has frames up to its first missing page, if there is one, or to the end. */
  ghost predicate CopyReaches(kmap: seq<Range>, w: World, k: nat)
    requires k < |w.sps|
  {
    CopyNeed(kmap, FirstHole(w.frames, w.sps[k].d, PagesUp(w.sps[k].sz))) <= |w.free|
  }

  /** The fork at which copyuvm panics. */
  ghost predicate Panics(op: VmOp, kmap: seq<Range>, w: World) {
    op.Fork? && op.k < |w.sps| && CopyReaches(kmap, w, op.k) && !Whole(w.frames, w.sps[op.k])
  }

  /** The sbrk that empties a process. */
  predicate EmptiesAt(op: VmOp, sps: seq<Space>) {
    op.Sbrk? && op.k < |sps| && Empties(sps[op.k].sz, op.n)
  }

  /** One more space, in a directory that was free. */
  ghost predicate Added(s: World, t: World, sz: nat) {
    && |t.sps| == |s.sps| + 1 && t.sps[..|s.sps|] == s.sps && t.sps[|s.sps|].sz == sz
    && t.sps[|s.sps|].d in s.owner && s.owner[t.sps[|s.sps|].d] == PageFrames.Free
    && Touches(s.frames, s.owner, t.frames, t.owner, t.sps[|s.sps|].d)
  }

  /** No space has changed. */
  ghost predicate Left(s: World, t: World) {
    t.sps == s.sps && Touches(s.frames, s.owner, t.frames, t.owner, NOBODY)
  }

  /** What an operation that does not panic does. */
  ghost predicate Did(op: VmOp, kmap: seq<Range>, s: World, t: World) {
    match op
    case New => if 1 + |KernelTables(kmap, |kmap|)| <= |s.free| then Added(s, t, 0) else Left(s, t)
    case Sbrk(k, n) =>
      if k < |s.sps| then
        && t.sps == s.sps[k := Space(s.sps[k].d, Resized(s, k, n))]
        && Touches(s.frames, s.owner, t.frames, t.owner, s.sps[k].d)
      else t == s
    case Fork(k) =>
      if k < |s.sps| then
        if CopyReaches(kmap, s, k)
        then Added(s, t, s.sps[k].sz) && Twin(s.frames, s.owner, s.sps[k].d, t.frames, t.sps[|s.sps|].d, s.sps[k].sz)
        else Left(s, t)
      else t == s
    case Drop(k) =>
      if k < |s.sps| then
        t.sps == s.sps[..k] + s.sps[k + 1..] && Purged(s.frames, s.owner, t.frames, t.owner, s.sps[k].d)
      else t == s
  }

  /** The operations one after the other: none panics, and from whole spaces each leads to whole spaces
      exactly if it empties no process. */
  ghost predicate Follows(ops: seq<VmOp>, kmap: seq<Range>, done: nat, states: seq<World>) {
    && done <= |ops| && |states| == done + 1
    && forall i :: 0 <= i < done ==> Follow(ops[i], kmap, states[i], states[i + 1])
  }

  ghost predicate Follow(op: VmOp, kmap: seq<Range>, s: World, t: World) {
    && !Panics(op, kmap, s) && Did(op, kmap, s, t)
    && (AllWhole(s.frames, s.sps) ==> (AllWhole(t.frames, t.sps) <==> !EmptiesAt(op, s.sps)))
  }

  lemma TouchesNothing(fs: Frames, free: seq<int>, ow: Owners, d: int)
    requires Ok(fs, free, ow)
    ensures Touches(fs, ow, fs, ow, d)
  {
  }

  class Spaces {
    const mem: Memory
    const kmap: seq<Range>
    var sps: seq<Space>

    ghost predicate Valid()
      reads this, mem
    {
      mem.Valid() && KmapOk(kmap) && SpacesIn(mem.frames, mem.owner, sps)
    }

    ghost function Now(): World
      reads this, mem
    {
      World(mem.frames, mem.free, mem.owner, sps)
    }

    ghost predicate Full()
      reads this, mem
    {
      AllWhole(mem.frames, sps)
    }

    constructor (mem: Memory, kmap: seq<Range>)
      requires mem.Valid() && KmapOk(kmap)
      ensures this.mem == mem && this.kmap == kmap && sps == [] && Valid() && Full()
    {
      this.mem, this.kmap, sps := mem, kmap, [];
    }

    /** Space `k` replaced, the others as they are. */
    lemma Replaced(free: seq<int>, fs: Frames, ow: Owners, k: nat, sp: Space)
      requires Ok(fs, free, ow) && SpacesIn(fs, ow, sps) && k < |sps| && sp.d == sps[k].d
      requires Touches(fs, ow, mem.frames, mem.owner, sp.d) && SpaceIn(mem.frames, mem.owner, sp)
      ensures SpacesIn(mem.frames, mem.owner, sps[k := sp])
      ensures AllWhole(fs, sps) ==> (AllWhole(mem.frames, sps[k := sp]) <==> Whole(mem.frames, sp))
    {
      hide Ok, Touches, SpaceIn, Whole;
      OtherSpaces(fs, free, ow, mem.frames, mem.owner, sp.d, sps);
      var r := sps[k := sp];
      assert r[k] == sp;
      forall i | 0 <= i < |r| && i != k
        ensures SpaceIn(mem.frames, mem.owner, r[i]) && (Whole(fs, sps[i]) ==> Whole(mem.frames, r[i]))
      {
        assert sps[i].d != sp.d;
      }
    }

    /** growproc for n > 0. */
    method Grow(k: nat, n: nat) returns (code: int)
      requires Valid() && k < |sps| && 0 < n < HALF
      modifies this`sps, mem
      ensures Valid() && |sps| == |old(sps)|
              && sps == old(sps)[k := Space(old(sps)[k].d, old(sps)[k].sz + if code == 0 then n else 0)]
      ensures code == 0 || code == -1
      ensures code == 0 <==> Enough(old(Now()), k, n)
      ensures Touches(old(mem.frames), old(mem.owner), mem.frames, mem.owner, sps[k].d)
      ensures old(Full()) ==> Full()
    {
      hide Ok, PteOf, SameBut, Touches, Sees, Tables, Need, SpaceIn, Whole, KmapOk, ZeroPage, AllWhole, SpacesIn;
      ghost var fs, fr, ow := mem.frames, mem.free, mem.owner;
      var sp := sps[k];
      Known(fs, ow, k);
      assert NewSize(sp.sz, n) == sp.sz + n;
      var sz, done := mem.AllocUvm(sp.d, sp.sz, NewSize(sp.sz, n));
      if sz == 0 {
        SameSpace(fs, fr, ow, mem.frames, mem.free, mem.owner, sp);
        Replaced(fr, fs, ow, k, sp);
        assert sps[k := sp] == sps;
        WholeAt(fs, k);
        return -1;
      }
      GrownSpace(fs, fr, ow, mem.frames, mem.free, mem.owner, sp, sz);
      Replaced(fr, fs, ow, k, Space(sp.d, sz));
      WholeAt(fs, k);
      sps := sps[k := Space(sp.d, sz)];
      return 0;
    }

    lemma WholeAt(fs: Frames, k: nat)
      requires k < |sps|
      ensures AllWhole(fs, sps) ==> Whole(fs, sps[k])
    {
    }

    lemma Known(fs: Frames, ow: Owners, k: nat)
      requires SpacesIn(fs, ow, sps) && k < |sps|
      ensures SpaceIn(fs, ow, sps[k]) && sps[k].d in ow && ow[sps[k].d] == IsDir(sps[k].d) && sps[k].sz <= KERNBASE
      ensures forall w: nat :: PagesUp(sps[k].sz) <= w < USERPAGES ==> PteOf(fs, sps[k].d, w) == Absent
    {
    }

    /** growproc for n < 0: a shrink below nothing changes nothing; a shrink to nothing unmaps everything
        but is reported as a failure, with the size as it was. */
    method Shrink(k: nat, n: int) returns (code: int)
      requires Valid() && k < |sps| && -HALF <= n < 0
      modifies this`sps, mem
      ensures Valid() && |sps| == |old(sps)|
      ensures sps == old(sps)[k := Space(old(sps)[k].d, old(sps)[k].sz + if 0 < old(sps)[k].sz + n then n else 0)]
      ensures code == if old(sps)[k].sz == 0 || Empties(old(sps)[k].sz, n) then -1 else 0
      ensures Empties(old(sps)[k].sz, n) ==>
                FirstHole(mem.frames, sps[k].d, PagesUp(sps[k].sz)) == 0 < PagesUp(sps[k].sz)
      ensures Touches(old(mem.frames), old(mem.owner), mem.frames, mem.owner, sps[k].d)
      ensures old(Full()) ==> (Full() <==> !Empties(old(sps)[k].sz, n))
    {
      hide Ok, PteOf, SameBut, Touches, Removes, SpaceIn, Whole, KmapOk, AllWhole, SpacesIn, FirstHole;
      ghost var fs, fr, ow := mem.frames, mem.free, mem.owner;
      var sp := sps[k];
      Known(fs, ow, k);
      ghost var newsz := NewSize(sp.sz, n);
      Wrapped(sp.sz, n);
      var sz := mem.DeallocUvm(sp.d, sp.sz, NewSize(sp.sz, n));
      RemovesTouches(fs, ow, mem.frames, mem.owner, sp.d);
      SameUpTo(fs, mem.frames, sp.d, NewSize(sp.sz, n), sp.sz, sz);
      var kept := if sz == 0 then sp.sz else sz;
      ShrunkSpace(fs, fr, ow, mem.frames, mem.free, mem.owner, sp, sz, kept);
      Replaced(fr, fs, ow, k, Space(sp.d, kept));
      WholeAt(fs, k);
      if sz == 0 {
        assert sps[k := Space(sp.d, kept)] == sps;
        if sp.sz > 0 { EmptiedSpace(mem.frames, sp); }
        return -1;
      }
      sps := sps[k := Space(sp.d, sz)];
      return 0;
    }

    /** growproc: sps[k].sz + n bytes; a process that does not empty itself keeps all its pages mapped,
        and only such a one. */
    method Growproc(k: nat, n: int) returns (code: int)
      requires Valid() && k < |sps| && -HALF <= n < HALF
      modifies this`sps, mem
      ensures Valid() && sps == old(sps)[k := Space(old(sps)[k].d, Resized(old(Now()), k, n))]
      ensures code == GrowCode(old(Now()), k, n)
      ensures Touches(old(mem.frames), old(mem.owner), mem.frames, mem.owner, sps[k].d)
      ensures Empties(old(sps)[k].sz, n) ==>
                FirstHole(mem.frames, sps[k].d, PagesUp(sps[k].sz)) == 0 < PagesUp(sps[k].sz)
      ensures old(Full()) ==> (Full() <==> !Empties(old(sps)[k].sz, n))
    {
      hide Ok, SpacesIn, AllWhole, KmapOk, Enough, Touches, FirstHole;
      TouchesNothing(mem.frames, mem.free, mem.owner, sps[k].d);
      if n > 0 {
        code := Grow(k, n);
      } else if n < 0 {
        code := Shrink(k, n);
      } else {
        code := 0;
      }
    }

    /** fork's copy of space `k`: `panic` where copyuvm panics, which takes a space that is not whole. */
    method Copy(k: nat) returns (code: int, panic: bool)
      requires Valid() && k < |sps|
      modifies this`sps, mem
      ensures Valid() && (old(Full()) ==> Full() && !panic)
      ensures panic <==> Panics(Fork(k), kmap, old(Now()))
      ensures code == 0 <==> CopyReaches(kmap, old(Now()), k) && Whole(old(mem.frames), old(sps)[k])
      ensures code == 0 || (code == -1 && sps == old(sps))
      ensures code == 0 ==> Added(old(Now()), Now(), old(sps)[k].sz)
      ensures code == 0 ==>
                Twin(old(mem.frames), old(mem.owner), old(sps)[k].d, mem.frames, sps[|old(sps)|].d, old(sps)[k].sz)
      ensures code == -1 && !panic ==> Left(old(Now()), Now())
    {
      hide Ok, PteOf, SameBut, Touches, Sees, Adds, Intact, CopyNeed, KernelTables, SpaceIn, Whole, AllWhole, SpacesIn,
           KmapOk, FirstHole;
      ghost var fs, fr, ow := mem.frames, mem.free, mem.owner;
      var sp := sps[k];
      Known(fs, ow, k);
      WholeAt(fs, k);
      WholeIff(fs, sp);
      Numbers(fs, fr, ow);
      var c := mem.CopyUvm(sp.d, sp.sz, kmap);
      if c.NoMemory? {
        IntactTouches(fs, ow, mem.frames, mem.owner);
        Unmoved(fr, fs, ow, NOBODY);
        return -1, false;
      }
      if c.Panic? {
        Unmoved(fr, fs, ow, c.lost);
        return -1, true;
      }
      AddsTouches(fs, ow, mem.frames, mem.owner, c.d);
      CopiedSpace(fs, fr, ow, sp, c.d);
      Joined(fr, fs, ow, Space(c.d, sp.sz));
      sps := sps + [Space(c.d, sp.sz)];
      return 0, false;
    }

    /** The copy is whole. */
    lemma CopiedSpace(fs: Frames, free: seq<int>, ow: Owners, sp: Space, d: int)
      requires Ok(mem.frames, mem.free, mem.owner) && d in mem.owner && mem.owner[d] == IsDir(d) && sp.sz <= KERNBASE
      requires forall w: nat :: w < PagesUp(sp.sz) ==> Copied(Sees(fs, sp.d, w), Sees(mem.frames, d, w), ow)
      requires forall w: nat :: PagesUp(sp.sz) <= w < USERPAGES ==> PteOf(mem.frames, d, w) == Absent
      ensures SpaceIn(mem.frames, mem.owner, Space(d, sp.sz)) && Whole(mem.frames, Space(d, sp.sz))
    {
      PagesBelow(sp.sz);
      forall w: nat | w < PagesUp(sp.sz) ensures PteOf(mem.frames, d, w).Pte? {
        assert Copied(Sees(fs, sp.d, w), Sees(mem.frames, d, w), ow);
        SeesPte(mem.frames, mem.free, mem.owner, d, w);
      }
    }

    /** All spaces as they are, and one more. */
    lemma Joined(free: seq<int>, fs: Frames, ow: Owners, sp: Space)
      requires Ok(fs, free, ow) && SpacesIn(fs, ow, sps) && sp.d in ow && ow[sp.d] == PageFrames.Free
      requires Touches(fs, ow, mem.frames, mem.owner, sp.d) && SpaceIn(mem.frames, mem.owner, sp)
      requires Whole(mem.frames, sp)
      ensures SpacesIn(mem.frames, mem.owner, sps + [sp]) && (AllWhole(fs, sps) ==> AllWhole(mem.frames, sps + [sp]))
    {
      OtherSpaces(fs, free, ow, mem.frames, mem.owner, sp.d, sps);
      forall i | 0 <= i < |sps| ensures sps[i].d != sp.d { assert SpaceIn(fs, ow, sps[i]); }
    }

    /** All spaces as they are. */
    lemma Unmoved(free: seq<int>, fs: Frames, ow: Owners, d: int)
      requires Ok(fs, free, ow) && SpacesIn(fs, ow, sps) && (d in ow ==> ow[d] == PageFrames.Free)
      requires Touches(fs, ow, mem.frames, mem.owner, d)
      ensures SpacesIn(mem.frames, mem.owner, sps) && (AllWhole(fs, sps) <==> AllWhole(mem.frames, sps))
    {
      OtherSpaces(fs, free, ow, mem.frames, mem.owner, d, sps);
      forall i | 0 <= i < |sps| ensures sps[i].d != d { assert SpaceIn(fs, ow, sps[i]); }
    }

    /** setupkvm for a new process; -1 exactly when there are too few frames. */
    method New() returns (code: int)
      requires Valid()
      modifies this`sps, mem
      ensures Valid() && (old(Full()) ==> Full())
      ensures code == 0 <==> 1 + |KernelTables(kmap, |kmap|)| <= |old(mem.free)|
      ensures code == 0 ==> Added(old(Now()), Now(), 0)
      ensures code != 0 ==> code == -1 && Left(old(Now()), Now())
    {
      hide Ok, PteOf, Touches, Adds, Intact, KernelTables, SpacesIn, AllWhole, KmapOk;
      ghost var fs, fr, ow := mem.frames, mem.free, mem.owner;
      Numbers(fs, fr, ow);
      var d := mem.SetupKvm(kmap);
      if d < 0 {
        IntactTouches(fs, ow, mem.frames, mem.owner);
        Unmoved(fr, fs, ow, NOBODY);
        return -1;
      }
      AddsTouches(fs, ow, mem.frames, mem.owner, d);
      Joined(fr, fs, ow, Space(d, 0));
      sps := sps + [Space(d, 0)];
      return 0;
    }

    /** freevm of space `k`. */
    method Remove(k: nat)
      requires Valid() && k < |sps|
      modifies this`sps, mem
      ensures Valid() && (old(Full()) ==> Full()) && sps == old(sps)[..k] + old(sps)[k + 1..]
      ensures Purged(old(mem.frames), old(mem.owner), mem.frames, mem.owner, old(sps)[k].d)
    {
      hide Ok, PteOf, Touches, Purged, SpaceIn, Whole, KmapOk;
      ghost var fs, fr, ow := mem.frames, mem.free, mem.owner;
      var d := sps[k].d;
      Known(fs, ow, k);
      mem.FreeVm(d);
      PurgedTouches(fs, ow, mem.frames, mem.owner, d);
      OtherSpaces(fs, fr, ow, mem.frames, mem.owner, d, sps);
      sps := sps[..k] + sps[k + 1..];
      forall i | 0 <= i < |sps|
        ensures SpaceIn(mem.frames, mem.owner, sps[i]) && (Whole(fs, sps[i]) ==> Whole(mem.frames, sps[i]))
      {
        var j := if i < k then i else i + 1;
        assert sps[i] == old(sps)[j] && old(sps)[j].d != d;
      }
    }

    /** One operation, by growproc's, copyuvm's, setupkvm's or freevm's code. */
    method Step(op: VmOp) returns (panic: bool)
      requires Valid() && (op.Sbrk? ==> -HALF <= op.n < HALF)
      modifies this`sps, mem
      ensures Valid() && (panic <==> Panics(op, kmap, old(Now())))
      ensures !panic ==> Follow(op, kmap, old(Now()), Now())
    {
      hide Ok, SpacesIn, AllWhole, Whole, KmapOk, CopyReaches, KernelTables, Touches, Resized, Twin, Purged, FirstHole;
      panic := false;
      match op {
        case New => var _ := New();
        case Sbrk(k, n) => if k < |sps| { var _ := Growproc(k, n); }
        case Fork(k) =>
          if k < |sps| {
            var code;
            code, panic := Copy(k);
          }
        case Drop(k) => if k < |sps| { Remove(k); }
      }
    }

    /** Any sequence of these on any number of address spaces, up to copyuvm's panic: every frame has
        exactly one place, and no space maps a page beyond its size.  From whole spaces on, every space
        stays whole up to the first sbrk that empties a process, so that nothing panics before. */
    method Run(ops: seq<VmOp>) returns (done: nat, ghost states: seq<World>)
      requires Valid() && forall i :: 0 <= i < |ops| && ops[i].Sbrk? ==> -HALF <= ops[i].n < HALF
      modifies this`sps, mem
      ensures Valid() && Follows(ops, kmap, done, states) && states[0] == old(Now())
      ensures done == |ops| ==> states[done] == Now()
      ensures done < |ops| ==> Panics(ops[done], kmap, states[done])
      ensures old(Full()) && (forall i :: 0 <= i < done ==> !EmptiesAt(ops[i], states[i].sps)) ==>
                done == |ops| && Full()
    {
      hide Ok, SpacesIn, AllWhole, KmapOk, Did, Panics;
      done, states := 0, [Now()];
      while done < |ops|
        invariant Valid() && Follows(ops, kmap, done, states) && states[0] == old(Now()) && states[done] == Now()
        invariant old(Full()) && (forall i :: 0 <= i < done ==> !EmptiesAt(ops[i], states[i].sps)) ==> Full()
      {
        if Full() { WholeCopies(ops[done], kmap, Now()); }
        var panic := Step(ops[done]);
        if panic { return; }
        states, done := states + [Now()], done + 1;
      }
    }
  }

  lemma WholeCopies(op: VmOp, kmap: seq<Range>, w: World)
    requires AllWhole(w.frames, w.sps)
    ensures !Panics(op, kmap, w)
  {
    if op.Fork? && op.k < |w.sps| { assert Whole(w.frames, w.sps[op.k]); }
  }
}
