/** vm.c's page-table functions and kalloc.c's free list over the machine's page frames. */
module VmCode {
  import opened PageFrames

  const PGSIZE: nat := 4096
  const NOBODY: int := -1
  const WRITABLE_USER: nat := 6   // PTE_W | PTE_U

  /** PGROUNDUP, in pages. */
  function PagesUp(sz: nat): nat { (sz + PGSIZE - 1) / PGSIZE }

  lemma Unchanged(fs: Frames, free: seq<int>, ow: Owners, d: int, lo: nat, hi: nat)
    requires Ok(fs, free, ow)
    ensures Removes(fs, ow, fs, ow, d) && Adds(fs, ow, fs, ow, d, NOBODY) && SameBut(fs, fs, d, lo, hi)
  {
  }

  lemma SameTrans(fs: Frames, fs1: Frames, fs2: Frames, d: int, lo: nat, hi: nat, a: nat)
    requires SameBut(fs, fs1, d, lo, hi) && SameBut(fs1, fs2, d, a, a + 1) && lo <= a < hi
    ensures SameBut(fs, fs2, d, lo, hi)
  {
  }

  lemma SameTwice(fs: Frames, fs1: Frames, fs2: Frames, d: int, a: nat)
    requires SameBut(fs, fs1, d, a, a + 1) && SameBut(fs1, fs2, d, a, a + 1)
    ensures SameBut(fs, fs2, d, a, a + 1)
  {
  }

  lemma NewFrameSees(fs: Frames, free: seq<int>, ow: Owners, d: int, mem: int, fs': Frames, vp: nat)
    requires Ok(fs, free, ow) && d in ow && ow[d] == IsDir(d)
    requires fs' == fs || (mem in ow && ow[mem] == Free && mem in fs' && fs' == fs[mem := fs'[mem]])
    requires forall w: nat :: PteOf(fs', d, w) == PteOf(fs, d, w)
    ensures SameBut(fs, fs', d, vp, vp + 1)
  {
    SeesKept(fs, free, ow, fs', d, vp, vp + 1);
  }

  /** A fresh frame, then its mapping. */
  lemma AddsFrame(fs: Frames, ow: Owners, fs1: Frames, ow1: Owners, fs2: Frames, ow2: Owners, d: int, mem: int)
    requires fs.Keys == ow.Keys && mem in ow && ow[mem] == Free && ow1 == ow[mem := Held] && mem in fs1
    requires fs1 == fs[mem := fs1[mem]]
    requires Adds(fs1, ow1, fs2, ow2, d, mem)
    ensures Adds(fs, ow, fs2, ow2, d, mem)
    ensures Belongs(ow2[mem], d) ==> Adds(fs, ow, fs2, ow2, d, NOBODY)
  {
    forall f | f in ow && f != mem ensures AddsAt(fs, ow, fs2, ow2, d, f) {
      assert AddsAt(fs1, ow1, fs2, ow2, d, f);
    }
  }

  /** The range is unmapped before and after, and the rest is as it was. */
  lemma Restored(fs: Frames, fs1: Frames, fs2: Frames, d: int, lo: nat, hi: nat)
    requires SameBut(fs, fs1, d, lo, hi) && SameBut(fs1, fs2, d, lo, hi)
    requires forall w: nat :: lo <= w < hi ==> PteOf(fs, d, w) == Absent && PteOf(fs2, d, w) == Absent
    ensures SameBut(fs, fs2, d, 0, 0)
  {
    forall w: nat | w < USERPAGES ensures Sees(fs2, d, w) == Sees(fs, d, w) {
      if lo <= w < hi { assert PteOf(fs, d, w) == Absent; }
    }
  }

  lemma HeldKept(fs: Frames, ow: Owners, fs': Frames, ow': Owners, d: int, mem: int)
    requires Removes(fs, ow, fs', ow', d)
    ensures mem in ow && ow[mem] == Held ==> mem in ow' && ow'[mem] == Held
  {
    if mem in ow { assert RemovesAt(fs, ow, fs', ow', d, mem); }
  }

  lemma Numbers(fs: Frames, free: seq<int>, ow: Owners)
    requires Ok(fs, free, ow)
    ensures fs.Keys == ow.Keys && forall f :: f in ow ==> 0 <= f
  {
  }

  lemma SameAll(fs: Frames, fs1: Frames, fs2: Frames, d: int)
    requires SameBut(fs, fs1, d, 0, 0) && SameBut(fs1, fs2, d, 0, 0)
    ensures SameBut(fs, fs2, d, 0, 0)
  {
  }

  lemma FreedSees(fs: Frames, free: seq<int>, ow: Owners, fs': Frames, d: int, f: int)
    requires Ok(fs, free, ow) && d in ow && ow[d] == IsDir(d) && f in ow && ow[f] == Held && f in fs
    requires fs' == fs[f := Junk]
    requires forall w: nat :: PteOf(fs', d, w) == PteOf(fs, d, w)
    ensures SameBut(fs, fs', d, 0, 0)
  {
    SeesKept(fs, free, ow, fs', d, 0, 0);
  }

  lemma RolledBack(fs: Frames, ow: Owners, fs1: Frames, ow1: Owners, fs2: Frames, ow2: Owners, fs3: Frames, ow3: Owners,
                   d: int, mem: int)
    requires Adds(fs, ow, fs1, ow1, d, mem) && Removes(fs1, ow1, fs2, ow2, d)
    requires mem >= 0 ==> mem in ow && ow[mem] == Free && mem in fs2 && mem in ow2
    requires if mem >= 0 then fs3 == fs2[mem := Junk] && ow3 == ow2[mem := Free] else fs3 == fs2 && ow3 == ow2
    requires forall f :: f in ow ==> 0 <= f
    ensures Touches(fs, ow, fs3, ow3, d)
  {
    forall f | f in ow ensures TouchesAt(fs, ow, fs3, ow3, d, f) {
      if f != mem { assert AddsAt(fs, ow, fs1, ow1, d, f) && RemovesAt(fs1, ow1, fs2, ow2, d, f); }
    }
  }

  /** A zeroed, writable user page in a frame that was free. */
  predicate Zeroed(v: Seen, ow: Owners) {
    v.Seen? && v.content == Data(ZeroPage()) && v.flags == WRITABLE_USER && v.frame in ow && ow[v.frame] == Free
  }

  lemma Start(fs: Frames, free: seq<int>, ow: Owners, d: int, lo: nat, hi: nat)
    requires Ok(fs, free, ow)
    ensures Adds(fs, ow, fs, ow, d, NOBODY) && Touches(fs, ow, fs, ow, d) && SameBut(fs, fs, d, lo, hi)
    ensures SameBut(fs, fs, d, 0, 0)
  {
  }

  /** A frame that is free now was free before, if frames only left the list. */
  lemma WasFree(fs: Frames, ow: Owners, fs1: Frames, ow1: Owners, d: int, f: int)
    requires Adds(fs, ow, fs1, ow1, d, NOBODY)
    ensures f != NOBODY && f in ow1 && ow1[f] == Free ==> f in ow && ow[f] == Free
  {
    if f in ow && f != NOBODY { assert AddsAt(fs, ow, fs1, ow1, d, f); }
  }

  lemma AddsJoin(fs: Frames, ow: Owners, fs1: Frames, ow1: Owners, fs2: Frames, ow2: Owners, d: int, g: int)
    requires Adds(fs, ow, fs1, ow1, d, NOBODY) && Adds(fs1, ow1, fs2, ow2, d, g) && NOBODY !in ow
    ensures Adds(fs, ow, fs2, ow2, d, g)
  {
    forall f | f in ow && f != g ensures AddsAt(fs, ow, fs2, ow2, d, f) {
      assert AddsAt(fs, ow, fs1, ow1, d, f) && AddsAt(fs1, ow1, fs2, ow2, d, f);
    }
  }

  lemma AddsTouches(fs: Frames, ow: Owners, fs1: Frames, ow1: Owners, d: int)
    requires Adds(fs, ow, fs1, ow1, d, NOBODY) && NOBODY !in ow
    ensures Touches(fs, ow, fs1, ow1, d)
  {
    forall f | f in ow ensures TouchesAt(fs, ow, fs1, ow1, d, f) { assert AddsAt(fs, ow, fs1, ow1, d, f); }
  }

  lemma ZeroedStep(fs: Frames, fs': Frames, d: int, lo: nat, a: nat, mem: int, ow: Owners)
    requires SameBut(fs, fs', d, a, a + 1) && a < USERPAGES && mem in ow && ow[mem] == Free
    requires forall w: nat :: lo <= w < a ==> Zeroed(Sees(fs, d, w), ow)
    requires PteOf(fs', d, a) == Pte(mem, WRITABLE_USER) && mem in fs' && fs'[mem] == Data(ZeroPage())
    ensures forall w: nat :: lo <= w < a + 1 ==> Zeroed(Sees(fs', d, w), ow)
  {
  }

  // ---- taking a directory apart -----------------------------------------------------------------------

  /** Everything that belonged to `d` is free; nothing else has changed. */
  ghost predicate Purged(fs: Frames, ow: Owners, fs': Frames, ow': Owners, d: int) {
    && ow'.Keys == ow.Keys
    && (forall f :: f in ow ==> ow'[f] == if Belongs(ow[f], d) then Free else ow[f])
    && (forall f :: f in ow && !Belongs(ow[f], d) && ow[f] != Free ==> f in fs && f in fs' && fs'[f] == fs[f])
  }

  /** `d` and its tables in hand, the first `i` of them free already. */
  ghost function Dismantled(ow: Owners, d: int, i: nat): Owners {
    map f | f in ow :: if f == d then Held
                       else if ow[f].IsTable? && ow[f].d == d then (if ow[f].i < i then Free else Held)
                       else ow[f]
  }

  ghost predicate Tree(ow: Owners, d: int, pdes: seq<int>) {
    && |pdes| == NPT && d in ow && ow[d] == IsDir(d)
    && (forall i :: 0 <= i < NPT && pdes[i] >= 0 ==> pdes[i] in ow && ow[pdes[i]] == IsTable(d, i))
    && (forall f :: f in ow ==> 0 <= f)
    && (forall f :: f in ow && Belongs(ow[f], d) ==> f == d || (ow[f].IsTable? && ow[f].i < NPT && pdes[ow[f].i] == f))
  }

  ghost predicate Others(fs: Frames, ow: Owners, fs': Frames, d: int) {
    fs'.Keys == ow.Keys && forall f :: f in ow && !Belongs(ow[f], d) ==> f in fs && fs'[f] == fs[f]
  }

  lemma OthersStep(fs: Frames, ow: Owners, fs1: Frames, fs2: Frames, d: int, f: int)
    requires Others(fs, ow, fs1, d) && f in ow && Belongs(ow[f], d) && fs2 == fs1[f := Junk]
    ensures Others(fs, ow, fs2, d)
  {
  }

  /** A directory without user pages owns itself and the tables in its entries, nothing else. */
  lemma TreeOf(fs: Frames, free: seq<int>, ow: Owners, d: int)
    requires Ok(fs, free, ow) && d in ow && ow[d] == IsDir(d)
    requires forall w: nat :: w < USERPAGES ==> PteOf(fs, d, w) == Absent
    ensures IsDirectory(fs, d) && Tree(ow, d, fs[d].pdes) && Others(fs, ow, fs, d)
  {
    assert FrameOk(fs, ow, d);
    forall f | f in ow && Belongs(ow[f], d)
      ensures f == d || (ow[f].IsTable? && ow[f].i < NPT && fs[d].pdes[ow[f].i] == f)
    {
      assert FrameOk(fs, ow, f);
    }
  }

  lemma DetachedOk(fs: Frames, free: seq<int>, ow: Owners, d: int, ow': Owners)
    requires Ok(fs, free, ow) && d in fs && fs[d].Dir? && Tree(ow, d, fs[d].pdes) && ow' == Dismantled(ow, d, 0)
    ensures Ok(fs, free, ow')
  {
    forall f | f in ow' ensures FrameOk(fs, ow', f) {
      assert FrameOk(fs, ow, f);
      if ow[f].IsTable? && ow[f].d != d { assert FrameOk(fs, ow, ow[f].d); }
    }
    forall f ensures f in free <==> f in ow' && ow'[f] == Free {
      assert f in free <==> f in ow && ow[f] == Free;
    }
  }

  lemma DismantledStep(ow: Owners, d: int, i: nat, pdes: seq<int>)
    requires Tree(ow, d, pdes) && i < |pdes|
    ensures Dismantled(ow, d, i + 1) == if pdes[i] >= 0 then Dismantled(ow, d, i)[pdes[i] := Free]
                                        else Dismantled(ow, d, i)
    ensures pdes[i] >= 0 ==> pdes[i] in Dismantled(ow, d, i) && Dismantled(ow, d, i)[pdes[i]] == Held && pdes[i] != d
    ensures pdes[i] >= 0 ==> pdes[i] in ow && Belongs(ow[pdes[i]], d)
  {
  }

  lemma DismantledAll(fs: Frames, ow: Owners, d: int, pdes: seq<int>, fs': Frames, ow': Owners)
    requires Tree(ow, d, pdes) && Others(fs, ow, fs', d) && ow' == Dismantled(ow, d, NPT)
    ensures d in ow' && ow'[d] == Held && Purged(fs, ow, fs'[d := Junk], ow'[d := Free], d)
  {
  }

  lemma PurgedAll(fs: Frames, ow: Owners, fs1: Frames, ow1: Owners, fs2: Frames, ow2: Owners, d: int)
    requires Removes(fs, ow, fs1, ow1, d) && Purged(fs1, ow1, fs2, ow2, d)
    ensures Purged(fs, ow, fs2, ow2, d)
  {
    forall f | f in ow ensures (ow2[f] == if Belongs(ow[f], d) then Free else ow[f])
                              && (!Belongs(ow[f], d) && ow[f] != Free ==> f in fs && f in fs2 && fs2[f] == fs[f]) {
      assert RemovesAt(fs, ow, fs1, ow1, d, f);
    }
  }

  // ---- new directories -------------------------------------------------------------------------------------

  /** One row of kmap, in pages. */
  datatype Range = Range(vp: nat, n: nat, pa: nat, perm: nat)

  /** The kernel's ranges lie above KERNBASE, in order and apart. */
  ghost predicate KmapOk(kmap: seq<Range>) {
    && (forall i :: 0 <= i < |kmap| ==>
      1 <= kmap[i].n && USERPAGES <= kmap[i].vp && kmap[i].vp + kmap[i].n <= NPT * NPT)
    && (forall i, j :: 0 <= i < j < |kmap| ==> kmap[i].vp + kmap[i].n <= kmap[j].vp)
  }

  ghost predicate RangeSeen(fs: Frames, d: int, r: Range) {
    forall w: nat :: r.vp <= w < r.vp + r.n ==> PteOf(fs, d, w) == Pte(r.pa + (w - r.vp), r.perm)
  }

  lemma RangeSeenNone(fs: Frames, d: int, r: Range)
    ensures RangeSeen(fs, d, r.(n := 0))
  {
  }

  lemma RangeSeenStep(fs: Frames, fs': Frames, d: int, r: Range, i: nat)
    requires RangeSeen(fs, d, r.(n := i)) && PteOf(fs', d, r.vp + i) == Pte(r.pa + i, r.perm)
    requires forall w: nat :: w != r.vp + i ==> PteOf(fs', d, w) == PteOf(fs, d, w)
    ensures RangeSeen(fs', d, r.(n := i + 1))
  {
  }

  /** The first `i` pages of range `r` are mapped, and the pages before it are as they were. */
  ghost predicate Mapping(fs0: Frames, fs: Frames, d: int, r: Range, i: nat) {
    && RangeSeen(fs, d, r.(n := i)) && Tables(fs, d) == Tables(fs0, d) + Pdx(r.vp, r.vp + i)
    && (forall w: nat :: w < USERPAGES || r.vp + i <= w ==> PteOf(fs, d, w) == Absent)
    && (forall w: nat :: w < r.vp ==> PteOf(fs, d, w) == PteOf(fs0, d, w))
  }

  lemma MappingNone(fs: Frames, d: int, r: Range)
    requires forall w: nat :: w < USERPAGES || r.vp <= w ==> PteOf(fs, d, w) == Absent
    ensures Mapping(fs, fs, d, r, 0)
  {
    hide PteOf, Tables, Pdx;
    NeedNone(Tables(fs, d), r.vp);
  }

  lemma MappingStep(fs0: Frames, fs: Frames, fs': Frames, d: int, r: Range, i: nat)
    requires USERPAGES <= r.vp && Mapping(fs0, fs, d, r, i) && PteOf(fs', d, r.vp + i) == Pte(r.pa + i, r.perm)
    requires forall w: nat :: w != r.vp + i ==> PteOf(fs', d, w) == PteOf(fs, d, w)
    requires Tables(fs', d) == Tables(fs, d) + {PDX(r.vp + i)}
    ensures Mapping(fs0, fs', d, r, i + 1)
  {
    hide PteOf, Tables, Pdx, RangeSeen;
    RangeSeenStep(fs, fs', d, r, i);
    NeedStep(Tables(fs0, d), r.vp, r.vp + i);
  }

  lemma MappingAt(fs0: Frames, fs: Frames, d: int, r: Range, i: nat)
    requires Mapping(fs0, fs, d, r, i)
    ensures PteOf(fs, d, r.vp + i) == Absent && Tables(fs, d) == Tables(fs0, d) + Pdx(r.vp, r.vp + i)
  {
    hide PteOf, Tables, Pdx, RangeSeen;
  }

  lemma MappingEnd(fs0: Frames, fs: Frames, d: int, r: Range, i: nat)
    requires Mapping(fs0, fs, d, r, i) && i <= r.n
    ensures forall w: nat :: w < USERPAGES || r.vp + r.n <= w ==> PteOf(fs, d, w) == Absent
    ensures forall w: nat :: w < r.vp ==> PteOf(fs, d, w) == PteOf(fs0, d, w)
    ensures i == r.n ==> RangeSeen(fs, d, r) && Tables(fs, d) == Tables(fs0, d) + Pdx(r.vp, r.vp + r.n)
  {
    hide PteOf, Tables, Pdx, RangeSeen;
    assert i == r.n ==> r.(n := i) == r;
  }

  /** A page table that cannot be had is one of those the whole range needs. */
  lemma MappingShort(fs0: Frames, fs: Frames, d: int, r: Range, i: nat)
    requires Mapping(fs0, fs, d, r, i) && i < r.n && PDX(r.vp + i) !in Tables(fs, d)
    ensures |Tables(fs, d)| < |Tables(fs0, d) + Pdx(r.vp, r.vp + r.n)|
  {
    hide PteOf, Tables, Pdx, RangeSeen;
    TablesStep(Tables(fs0, d), r.vp, r.vp + i, r.vp + r.n);
  }

  /** The page tables for the pages from `lo` up to `a`, then up to `a` + 1, then up to `hi`. */
  lemma TablesStep(t: set<nat>, lo: nat, a: nat, hi: nat)
    requires lo <= a < hi
    ensures t + Pdx(lo, a + 1) == t + Pdx(lo, a) + {PDX(a)}
    ensures |t + Pdx(lo, a + 1)| == |t + Pdx(lo, a)| + if PDX(a) in t + Pdx(lo, a) then 0 else 1
    ensures |t + Pdx(lo, a + 1)| <= |t + Pdx(lo, hi)|
  {
    NeedStep(t, lo, a);
    PdxMore(lo, a + 1, hi);
    Smaller(t + Pdx(lo, a + 1), t + Pdx(lo, hi));
  }

  /** The first `k` ranges are mapped as kmap says. */
  ghost predicate KernelSeen(fs: Frames, d: int, kmap: seq<Range>, k: nat)
    requires k <= |kmap|
  {
    forall i :: 0 <= i < k ==> RangeSeen(fs, d, kmap[i])
  }

  lemma KernelSeenNone(fs: Frames, d: int, kmap: seq<Range>)
    ensures KernelSeen(fs, d, kmap, 0)
  {
  }

  lemma KernelSeenStep(fs: Frames, fs': Frames, d: int, kmap: seq<Range>, k: nat)
    requires KmapOk(kmap) && k < |kmap| && KernelSeen(fs, d, kmap, k) && RangeSeen(fs', d, kmap[k])
    requires forall w: nat :: w < kmap[k].vp ==> PteOf(fs', d, w) == PteOf(fs, d, w)
    ensures KernelSeen(fs', d, kmap, k + 1)
  {
    forall i | 0 <= i < k ensures RangeSeen(fs', d, kmap[i]) { assert RangeSeen(fs, d, kmap[i]); }
  }

  /** The directory entries of the first `k` ranges. */
  ghost function KernelTables(kmap: seq<Range>, k: nat): set<nat>
    requires k <= |kmap|
  {
    if k == 0 then {} else KernelTables(kmap, k - 1) + Pdx(kmap[k - 1].vp, kmap[k - 1].vp + kmap[k - 1].n)
  }

  lemma {:induction false} KernelTablesMore(kmap: seq<Range>, k: nat)
    requires k <= |kmap|
    ensures |KernelTables(kmap, k)| <= |KernelTables(kmap, |kmap|)|
    decreases |kmap| - k
  {
    hide Pdx;
    if k < |kmap| {
      KernelTablesMore(kmap, k + 1);
      Smaller(KernelTables(kmap, k), KernelTables(kmap, k + 1));
    }
  }

  lemma NoTables(fs: Frames, d: int)
    requires d in fs && fs[d] == Dir(seq(NPT, _ => -1))
    ensures Tables(fs, d) == {}
  {
  }

  /** Every frame has the owner it had, and every frame in use its contents. */
  ghost predicate Intact(fs: Frames, ow: Owners, fs': Frames, ow': Owners) {
    ow' == ow && forall f :: f in ow && ow[f] != Free ==> f in fs && f in fs' && fs'[f] == fs[f]
  }

  lemma IntactRefl(fs: Frames, free: seq<int>, ow: Owners)
    requires Ok(fs, free, ow)
    ensures Intact(fs, ow, fs, ow)
  {
  }

  /** A change to one of `d`'s own frames adds nothing. */
  lemma AddsOwn(fs: Frames, ow: Owners, fs1: Frames, free: seq<int>, ow1: Owners, fs2: Frames, d: int, t: int)
    requires Adds(fs, ow, fs1, ow1, d, NOBODY) && Ok(fs1, free, ow1) && d in ow1 && ow1[d] == IsDir(d)
    requires IsDirectory(fs1, d) && t in fs1.Keys && t in fs2 && fs2 == fs1[t := fs2[t]]
    requires exists i :: 0 <= i < NPT && fs1[d].pdes[i] == t
    ensures Adds(fs, ow, fs2, ow1, d, NOBODY)
  {
    assert FrameOk(fs1, ow1, d);
    var i :| 0 <= i < NPT && fs1[d].pdes[i] == t;
    assert 0 <= t;
    assert Belongs(ow1[t], d);
    forall f | f in ow && f != NOBODY ensures AddsAt(fs, ow, fs2, ow1, d, f) {
      assert AddsAt(fs, ow, fs1, ow1, d, f);
    }
  }

  lemma DirAdded(fs: Frames, free: seq<int>, ow: Owners, free1: seq<int>, ow1: Owners, d: int, fs': Frames, ow': Owners)
    requires Ok(fs, free, ow) && d in ow && ow[d] == Free && Ok(fs, free1, ow1) && ow1 == ow[d := Held]
    requires fs' == fs[d := Dir(seq(NPT, _ => -1))] && ow' == ow1[d := IsDir(d)]
    ensures Ok(fs', free1, ow') && Adds(fs, ow, fs', ow', d, NOBODY)
    ensures forall w: nat :: PteOf(fs', d, w) == Absent
  {
    Filled(fs, free1, ow1, d, fs'[d], fs');
    forall f | f in ow' ensures FrameOk(fs', ow', f) { assert FrameOk(fs', ow1, f); }
    forall f ensures f in free1 <==> f in ow' && ow'[f] == Free {
      assert f in free1 <==> f in ow1 && ow1[f] == Free;
    }
  }

  /** What a directory took from the free list is back there once the directory is freed. */
  lemma AllBack(fs: Frames, free: seq<int>, ow: Owners, fs1: Frames, ow1: Owners, fs2: Frames, ow2: Owners, d: int)
    requires Ok(fs, free, ow) && d in ow && ow[d] == Free
    requires Adds(fs, ow, fs1, ow1, d, NOBODY) && Purged(fs1, ow1, fs2, ow2, d)
    ensures Intact(fs, ow, fs2, ow2)
  {
    forall f | f in ow ensures ow2[f] == ow[f] && (ow[f] != Free ==> f in fs && f in fs2 && fs2[f] == fs[f]) {
      assert FrameOk(fs, ow, f) && 0 <= f;
      assert AddsAt(fs, ow, fs1, ow1, d, f);
    }
  }

  /** Giving back the frame in hand. */
  lemma AddsFreed(fs: Frames, ow: Owners, fs1: Frames, ow1: Owners, fs2: Frames, ow2: Owners, d: int, mem: int)
    requires Adds(fs, ow, fs1, ow1, d, mem) && forall f :: f in ow ==> 0 <= f
    requires mem != NOBODY ==> mem in ow && ow[mem] == Free && mem in ow1 && mem in fs1
    requires if mem != NOBODY then fs2 == fs1[mem := Junk] && ow2 == ow1[mem := Free] else fs2 == fs1 && ow2 == ow1
    ensures Adds(fs, ow, fs2, ow2, d, NOBODY)
  {
    forall f | f in ow ensures AddsAt(fs, ow, fs2, ow2, d, f) {
      if f != mem { assert AddsAt(fs, ow, fs1, ow1, d, f); }
    }
  }

  datatype CopyResult = Made(d: int) | NoMemory | Panic(lost: int)

  /** The first page below `n` that is not mapped, or `n`. */
  ghost function FirstHole(fs: Frames, d: int, n: nat): (m: nat)
    ensures m <= n && (m < n ==> PteOf(fs, d, m) == Absent)
    ensures forall w: nat :: w < m ==> PteOf(fs, d, w).Pte?
  {
    if n == 0 then 0 else
    var m := FirstHole(fs, d, n - 1);
    if m < n - 1 then m else if PteOf(fs, d, n - 1).Pte? then n else n - 1
  }

  /** The frames it takes to copy `m` pages into a new directory. */
  ghost function CopyNeed(kmap: seq<Range>, m: nat): nat {
    1 + |KernelTables(kmap, |kmap|)| + Need(KernelTables(kmap, |kmap|), 0, m)
  }

  lemma CopyNeedZero(kmap: seq<Range>, m: nat)
    ensures 1 + |KernelTables(kmap, |kmap|)| == CopyNeed(kmap, 0) <= CopyNeed(kmap, m)
  {
    NeedNone(KernelTables(kmap, |kmap|), 0);
    NeedMore(KernelTables(kmap, |kmap|), 0, 0, m);
  }

  /** The same contents and rights, in a frame that was free. */
  predicate Copied(v: Seen, c: Seen, ow: Owners) {
    v.Seen? && c.Seen? && c.content == v.content && c.flags == v.flags && c.frame in ow && ow[c.frame] == Free
  }

  /** While `d` grows, `d0` shows what it showed. */
  lemma SourceKept(fs: Frames, free: seq<int>, ow: Owners, fs1: Frames, free1: seq<int>, ow1: Owners, d: int, d0: int,
                   w: nat)
    requires Ok(fs, free, ow) && Ok(fs1, free1, ow1) && Adds(fs, ow, fs1, ow1, d, NOBODY)
    requires d0 in ow && ow[d0] == IsDir(d0) && d0 != d && w < USERPAGES
    ensures d0 in ow1 && ow1[d0] == IsDir(d0) && PteOf(fs1, d0, w) == PteOf(fs, d0, w)
    ensures PteOf(fs, d0, w).Pte? ==>
              var f := PteOf(fs, d0, w).frame;
              f in fs1 && fs1[f].Data? && Sees(fs, d0, w) == Seen(f, fs1[f], PteOf(fs, d0, w).flags)
  {
    AddsTouches(fs, ow, fs1, ow1, d);
    OthersKeep(fs, free, ow, fs1, ow1, d, d0, w);
    if PteOf(fs, d0, w).Pte? { MappedOwned(fs1, free1, ow1, d0, w); }
  }

  lemma CopiedStep(fs: Frames, d0: int, fs1: Frames, fs2: Frames, d: int, a: nat, mem: int, ow: Owners)
    requires SameBut(fs1, fs2, d, a, a + 1) && a < USERPAGES && mem in ow && ow[mem] == Free
    requires forall w: nat :: w < a ==> Copied(Sees(fs, d0, w), Sees(fs1, d, w), ow)
    requires Sees(fs, d0, a).Seen? && PteOf(fs2, d, a) == Pte(mem, Sees(fs, d0, a).flags)
    requires mem in fs2 && fs2[mem] == Sees(fs, d0, a).content
    ensures forall w: nat :: w < a + 1 ==> Copied(Sees(fs, d0, w), Sees(fs2, d, w), ow)
  {
  }

  lemma FirstFreed(fs: Frames, free: seq<int>, ow: Owners, f: nat)
    requires Ok(fs, free, ow) && f !in ow && forall g :: g in ow ==> ow[g] == Free
    ensures Ok(fs[f := Junk], [f] + free, ow[f := Free])
  {
    forall g ensures g in [f] + free <==> g in ow[f := Free] && ow[f := Free][g] == Free {
      assert g in free <==> g in ow && ow[g] == Free;
    }
  }

  lemma SeesPte(fs: Frames, free: seq<int>, ow: Owners, d: int, w: nat)
    requires Ok(fs, free, ow) && d in ow && ow[d] == IsDir(d) && w < USERPAGES
    ensures PteOf(fs, d, w).Pte? <==> Sees(fs, d, w).Seen?
  {
    if PteOf(fs, d, w).Pte? { MappedOwned(fs, free, ow, d, w); }
  }

  lemma PurgedTouches(fs: Frames, ow: Owners, fs': Frames, ow': Owners, d: int)
    requires Purged(fs, ow, fs', ow', d)
    ensures Touches(fs, ow, fs', ow', d)
  {
    forall f | f in ow ensures TouchesAt(fs, ow, fs', ow', d, f) {}
  }

  lemma IntactTouches(fs: Frames, ow: Owners, fs': Frames, ow': Owners)
    requires Intact(fs, ow, fs', ow')
    ensures Touches(fs, ow, fs', ow', NOBODY)
  {
    forall f | f in ow ensures TouchesAt(fs, ow, fs', ow', NOBODY, f) {}
  }

  lemma RemovesTouches(fs: Frames, ow: Owners, fs': Frames, ow': Owners, d: int)
    requires Removes(fs, ow, fs', ow', d)
    ensures Touches(fs, ow, fs', ow', d)
  {
    forall f | f in ow ensures TouchesAt(fs, ow, fs', ow', d, f) { assert RemovesAt(fs, ow, fs', ow', d, f); }
  }

  lemma OneTableMore(fs: Frames, fs': Frames, d: int, i: nat)
    requires IsDirectory(fs, d) && IsDirectory(fs', d) && i < NPT && fs[d].pdes[i] < 0
    requires fs'[d].pdes == fs[d].pdes[i := fs'[d].pdes[i]] && fs'[d].pdes[i] >= 0
    ensures Tables(fs', d) == Tables(fs, d) + {i} && i !in Tables(fs, d) && |Tables(fs', d)| == |Tables(fs, d)| + 1
  {
  }

  lemma SameTables(fs: Frames, fs': Frames, d: int, t: int)
    requires t != d && t in fs' && fs' == fs[t := fs'[t]]
    ensures Tables(fs', d) == Tables(fs, d)
  {
  }

  /** Unmapping a page and freeing its frame. */
  lemma Dropped(fs: Frames, free: seq<int>, ow: Owners, d: int, t: int, vp: nat, f: int, fs1: Frames, ow1: Owners)
    requires Ok(fs, free, ow) && d in ow && ow[d] == IsDir(d) && IsDirectory(fs, d) && vp < USERPAGES
    requires PDX(vp) < NPT && fs[d].pdes[PDX(vp)] == t && IsTab(fs, t) && PteOf(fs, d, vp).Pte?
    requires PteOf(fs, d, vp).frame == f
    requires fs1 == fs[t := Table(fs[t].ptes[PTX(vp) := Absent])] && ow1 == ow[f := Held]
    ensures f in fs && f != t && f in ow && ow[f] == IsPage(d, vp) && t in ow && ow[t] == IsTable(d, PDX(vp))
    ensures Ok(fs1[f := Junk], [f] + free, ow1[f := Free]) && PteOf(fs1[f := Junk], d, vp) == Absent
    ensures forall w: nat :: w != vp ==> PteOf(fs1[f := Junk], d, w) == PteOf(fs, d, w)
    ensures SameBut(fs, fs1[f := Junk], d, vp, vp + 1)
    ensures Removes(fs, ow, fs1[f := Junk], ow1[f := Free], d)
  {
    var fs2, ow2 := fs1[f := Junk], ow1[f := Free];
    MappedOwned(fs, free, ow, d, vp);
    EntrySet(fs, free, ow, d, t, vp, Absent, fs1);
    PageDropped(fs, free, ow, d, t, vp, f, fs1, ow1);
    Pushed(fs1, free, ow1, f, fs2, ow2);
    DroppedKeeps(fs, free, ow, d, t, vp, f, fs2, ow2);
  }

  /** Mapping a page. */
  lemma Mapped(fs: Frames, free: seq<int>, ow: Owners, d: int, t: int, vp: nat, f: int, flags: nat, fs': Frames,
               ow': Owners)
    requires Ok(fs, free, ow) && d in ow && ow[d] == IsDir(d) && IsDirectory(fs, d) && vp < USERPAGES
    requires PDX(vp) < NPT && fs[d].pdes[PDX(vp)] == t && IsTab(fs, t) && fs[t].ptes[PTX(vp)] == Absent
    requires f in ow && ow[f] == Held && f in fs && fs[f].Data?
    requires fs' == fs[t := Table(fs[t].ptes[PTX(vp) := Pte(f, flags)])] && ow' == ow[f := IsPage(d, vp)]
    ensures t != f && Ok(fs', free, ow') && PteOf(fs', d, vp) == Pte(f, flags)
    ensures forall w: nat :: w != vp ==> PteOf(fs', d, w) == PteOf(fs, d, w)
    ensures SameBut(fs, fs', d, vp, vp + 1) && Adds(fs, ow, fs', ow', d, f) && Tables(fs', d) == Tables(fs, d)
  {
    EntrySet(fs, free, ow, d, t, vp, Pte(f, flags), fs');
    PageAdded(fs, free, ow, d, t, vp, f, flags, fs', ow');
    Numbers(fs, free, ow);
    hide Ok, PteOf;
    SeesKept(fs, free, ow, fs', d, vp, vp + 1);
    SameTables(fs, fs', d, t);
  }

  lemma AddsBut(fs: Frames, ow: Owners, fs': Frames, ow': Owners, d: int, g: int)
    requires Adds(fs, ow, fs', ow', d, NOBODY) && NOBODY !in ow
    ensures Adds(fs, ow, fs', ow', d, g)
  {
  }

  lemma SameThen(fs: Frames, fs1: Frames, fs2: Frames, d: int, a: nat)
    requires SameBut(fs, fs1, d, 0, 0) && SameBut(fs1, fs2, d, a, a + 1)
    ensures SameBut(fs, fs2, d, a, a + 1)
  {
  }

  lemma DroppedKeeps(fs: Frames, free: seq<int>, ow: Owners, d: int, t: int, vp: nat, f: int, fs2: Frames, ow2: Owners)
    requires Ok(fs, free, ow) && d in ow && ow[d] == IsDir(d) && t in ow && ow[t] == IsTable(d, PDX(vp)) && f in ow
    requires ow[f] == IsPage(d, vp)
    requires t in fs2 && fs2 == fs[t := fs2[t]][f := Junk] && ow2 == ow[f := Free]
    requires forall w: nat :: w != vp ==> PteOf(fs2, d, w) == PteOf(fs, d, w)
    ensures SameBut(fs, fs2, d, vp, vp + 1) && Removes(fs, ow, fs2, ow2, d)
  {
    Numbers(fs, free, ow);
    hide Ok, PteOf, SameBut;
    SeesKept(fs, free, ow, fs2, d, vp, vp + 1);
  }

  class Memory {
    var frames: Frames
    var free: seq<int>
    ghost var owner: Owners

    ghost predicate Valid()
      reads this
    {
      Ok(frames, free, owner)
    }

    /** A live page directory. */
    ghost predicate Has(d: int)
      reads this
    {
      d in owner && owner[d] == IsDir(d)
    }

    /** freerange: frames 0 to n-1 all go to the free list. */
    constructor (n: nat)
      ensures Valid() && (forall f :: f in owner <==> 0 <= f < n) && forall f :: f in owner ==> owner[f] == Free
    {
      frames, free, owner := map[], [], map[];
      new;
      for f := 0 to n
        invariant Valid() && (forall g :: g in owner <==> 0 <= g < f) && forall g :: g in owner ==> owner[g] == Free
      {
        FirstFreed(frames, free, owner, f);
        frames := frames[f := Junk];
        free := [f] + free;
        owner := owner[f := Free];
      }
    }

    method KAlloc() returns (f: int)
      requires Valid()
      modifies this`free, this`owner
      ensures Valid()
      ensures f < 0 ==> old(free) == [] && free == old(free) && owner == old(owner)
      ensures f >= 0 ==> f in old(owner) && old(owner)[f] == Free && owner == old(owner)[f := Held]
      ensures f >= 0 ==> |free| + 1 == |old(free)|
    {
      hide Ok;
      if free == [] { return -1; }
      f := free[0];
      Popped(frames, free, owner, f, owner[f := Held]);
      free := free[1..];
      owner := owner[f := Held];
    }

    method KFree(f: int)
      requires Valid() && f in owner && owner[f] == Held
      modifies this
      ensures Valid() && frames == old(frames)[f := Junk] && free == [f] + old(free) && owner == old(owner)[f := Free]
      ensures forall x, w :: x in owner && owner[x] == IsDir(x) ==> PteOf(frames, x, w) == PteOf(old(frames), x, w)
    {
      hide Ok;
      Pushed(frames, free, owner, f, frames[f := Junk], owner[f := Free]);
      frames := frames[f := Junk];
      free := [f] + free;
      owner := owner[f := Free];
    }

    /** walkpgdir's new page table for directory entry `i`. */
    method NewTable(d: int, i: nat) returns (t: int)
      requires Valid() && Has(d) && i < NPT && IsDirectory(frames, d) && frames[d].pdes[i] < 0
      modifies this
      ensures Valid() && Has(d)
      ensures t < 0 ==> frames == old(frames) && owner == old(owner) && free == old(free) == []
      ensures t >= 0 ==> IsDirectory(frames, d) && frames[d].pdes[i] == t && IsTab(frames, t)
      ensures t >= 0 ==> t in old(owner) && old(owner)[t] == Free && owner == old(owner)[t := IsTable(d, i)]
      ensures forall f :: f in old(owner) && f != d && old(owner)[f] != Free ==>
                f in old(frames) && f in frames && frames[f] == old(frames)[f]
      ensures forall w: nat :: PteOf(frames, d, w) == PteOf(old(frames), d, w)
      ensures t >= 0 ==> Tables(frames, d) == Tables(old(frames), d) + {i}
      ensures t >= 0 ==> |free| + |Tables(frames, d)| == |old(free)| + |Tables(old(frames), d)|
    {
      hide Ok, PteOf;
      Numbers(frames, free, owner);
      t := KAlloc();
      if t < 0 { return; }
      ghost var fs, ow := frames[t := Table(seq(NPT, _ => Absent))][d := Dir(frames[d].pdes[i := t])],
        owner[t := IsTable(d, i)];
      TableAdded(frames, free, owner, d, i, t, fs, ow);
      frames := frames[t := Table(seq(NPT, _ => Absent))];
      frames := frames[d := Dir(frames[d].pdes[i := t])];
      owner := ow;
      OneTableMore(old(frames), frames, d, i);
    }

    /** The directory and, if there is one, the page table at entry `i` are what they should be. */
    lemma Entry(d: int, i: nat)
      requires Valid() && Has(d) && i < NPT
      ensures IsDirectory(frames, d) && (frames[d].pdes[i] >= 0 ==> IsTab(frames, frames[d].pdes[i]))
      ensures i in Tables(frames, d) <==> frames[d].pdes[i] >= 0
      ensures frames[d].pdes[i] < 0 ==> forall w: nat :: PDX(w) == i ==> PteOf(frames, d, w) == Absent
    {
      assert FrameOk(frames, owner, d);
      if frames[d].pdes[i] >= 0 { assert FrameOk(frames, owner, frames[d].pdes[i]); }
    }

    /** walkpgdir: the page table for `vp`, made if need be and allowed. */
    method Walk(d: int, vp: nat, alloc: bool) returns (t: int)
      requires Valid() && Has(d) && PDX(vp) < NPT
      modifies this
      ensures Valid() && Has(d)
      ensures t >= 0 ==> IsDirectory(frames, d) && frames[d].pdes[PDX(vp)] == t && IsTab(frames, t)
      ensures t < 0 ==> frames == old(frames) && owner == old(owner) && free == old(free)
      ensures t < 0 ==> forall w: nat :: PDX(w) == PDX(vp) ==> PteOf(frames, d, w) == Absent
      ensures t < 0 && alloc ==> free == []
      ensures owner == old(owner) ==> frames == old(frames) && free == old(free)
      ensures owner != old(owner) ==>
                alloc && t in old(owner) && old(owner)[t] == Free && owner == old(owner)[t := IsTable(d, PDX(vp))]
      ensures forall f :: f in old(owner) && f != d && old(owner)[f] != Free ==>
                f in old(frames) && f in frames && frames[f] == old(frames)[f]
      ensures forall w: nat :: PteOf(frames, d, w) == PteOf(old(frames), d, w)
      ensures Adds(old(frames), old(owner), frames, owner, d, NOBODY) && SameBut(old(frames), frames, d, 0, 0)
      ensures |free| + |Tables(frames, d)| == |old(free)| + |Tables(old(frames), d)|
      ensures alloc && t >= 0 ==> Tables(frames, d) == Tables(old(frames), d) + {PDX(vp)}
      ensures t < 0 ==> PDX(vp) !in Tables(frames, d)
    {
      hide Ok, PteOf, Tables, SameBut;
      Numbers(frames, free, owner);
      Start(frames, free, owner, d, 0, 0);
      Entry(d, PDX(vp));
      t := frames[d].pdes[PDX(vp)];
      if t >= 0 {
        assert Tables(frames, d) + {PDX(vp)} == Tables(frames, d);
        return;
      }
      t := -1;
      if alloc {
        t := NewTable(d, PDX(vp));
        SeesKept(old(frames), old(free), old(owner), frames, d, 0, 0);
      }
    }

    /** mappages for one user page: the "remap" panic is unreachable when the page is not mapped. */
    method MapPage(d: int, vp: nat, f: int, flags: nat) returns (ok: bool)
      requires Valid() && Has(d) && vp < USERPAGES && f in owner && owner[f] == Held && f in frames && frames[f].Data?
      requires PteOf(frames, d, vp) == Absent
      modifies this
      ensures Valid() && Has(d) && SameBut(old(frames), frames, d, vp, vp + 1)
      ensures Adds(old(frames), old(owner), frames, owner, d, f) && f in owner && f in frames
      ensures frames[f] == old(frames)[f]
      ensures ok ==> PteOf(frames, d, vp) == Pte(f, flags) && owner[f] == IsPage(d, vp)
      ensures forall w: nat :: w != vp ==> PteOf(frames, d, w) == PteOf(old(frames), d, w)
      ensures !ok ==> frames == old(frames) && owner == old(owner) && free == old(free) == []
      ensures ok ==> Tables(frames, d) == Tables(old(frames), d) + {PDX(vp)}
      ensures ok ==> |free| + |Tables(frames, d)| == |old(free)| + |Tables(old(frames), d)|
      ensures !ok ==> PDX(vp) !in Tables(frames, d)
    {
      hide Ok, Tables, SameBut, Adds;
      Split(vp);
      Start(frames, free, owner, d, vp, vp + 1);
      Numbers(frames, free, owner);
      var t := Walk(d, vp, true);
      if t < 0 {
        AddsBut(old(frames), old(owner), frames, owner, d, f);
        return false;
      }
      Numbers(old(frames), old(free), old(owner));
      assert frames[t].ptes[PTX(vp)] == PteOf(frames, d, vp);
      ghost var fs, ow := frames[t := Table(frames[t].ptes[PTX(vp) := Pte(f, flags)])], owner[f := IsPage(d, vp)];
      Mapped(frames, free, owner, d, t, vp, f, flags, fs, ow);
      SameThen(old(frames), frames, fs, d, vp);
      AddsJoin(old(frames), old(owner), frames, owner, fs, ow, d, f);
      frames := frames[t := Table(frames[t].ptes[PTX(vp) := Pte(f, flags)])];
      owner := ow;
      return true;
    }

    /** deallocuvm's treatment of a mapped page. */
    method DropPage(d: int, t: int, vp: nat)
      requires Valid() && Has(d) && vp < USERPAGES && PDX(vp) < NPT && IsDirectory(frames, d)
      requires frames[d].pdes[PDX(vp)] == t
      requires IsTab(frames, t) && frames[t].ptes[PTX(vp)].Pte?
      modifies this
      ensures Valid() && Has(d) && SameBut(old(frames), frames, d, vp, vp + 1) && PteOf(frames, d, vp) == Absent
      ensures Removes(old(frames), old(owner), frames, owner, d)
      ensures forall w: nat :: w != vp ==> PteOf(frames, d, w) == PteOf(old(frames), d, w)
    {
      hide Ok, SameBut;
      var f := frames[t].ptes[PTX(vp)].frame;
      assert PteOf(frames, d, vp).frame == f;
      ghost var fs, ow := frames[t := Table(frames[t].ptes[PTX(vp) := Absent])], owner[f := Held];
      Dropped(frames, free, owner, d, t, vp, f, fs, ow);
      free := [f] + free;
      frames := frames[f := Junk];
      frames := frames[t := Table(frames[t].ptes[PTX(vp) := Absent])];
      owner := owner[f := Free];
      assert frames == fs[f := Junk] && owner == ow[f := Free];
    }

    /** One turn of deallocuvm's loop at page `a`: whatever was mapped there is freed; where there is
        no page table, the whole table's range is skipped. */
    method DropAt(d: int, a: nat) returns (b: nat)
      requires Valid() && Has(d) && a < USERPAGES
      modifies this
      ensures Valid() && Has(d) && a < b <= USERPAGES
      ensures Removes(old(frames), old(owner), frames, owner, d) && SameBut(old(frames), frames, d, a, a + 1)
      ensures forall w: nat :: a <= w < b ==> PteOf(frames, d, w) == Absent
      ensures forall w: nat :: w != a ==> PteOf(frames, d, w) == PteOf(old(frames), d, w)
    {
      hide Ok, Removes, SameBut;
      Split(a);
      var t := Walk(d, a, false);
      if t < 0 {
        Unchanged(frames, free, owner, d, a, a + 1);
        b := (PDX(a) + 1) * NPT - 1;
      } else {
        b := a;
        if frames[t].ptes[PTX(a)].Pte? {
          DropPage(d, t, a);
        } else {
          Unchanged(frames, free, owner, d, a, a + 1);
        }
      }
      b := b + 1;
    }

    /** deallocuvm: exactly the pages from PGROUNDUP(newsz) up to oldsz go back to the free list. */
    method DeallocUvm(d: int, oldsz: nat, newsz: nat) returns (r: nat)
      requires Valid() && Has(d) && oldsz <= USERPAGES * PGSIZE
      modifies this
      ensures Valid() && Has(d) && r == (if newsz >= oldsz then oldsz else newsz)
      ensures Removes(old(frames), old(owner), frames, owner, d)
      ensures SameBut(old(frames), frames, d, PagesUp(newsz), PagesUp(oldsz))
      ensures forall w: nat :: PagesUp(newsz) <= w < PagesUp(oldsz) ==> PteOf(frames, d, w) == Absent
    {
      hide Ok, Removes, SameBut, PteOf;
      Unchanged(frames, free, owner, d, PagesUp(newsz), PagesUp(oldsz));
      if newsz >= oldsz { return oldsz; }
      var a := PagesUp(newsz);
      while a * PGSIZE < oldsz
        invariant Valid() && Has(d) && PagesUp(newsz) <= a
        invariant Removes(old(frames), old(owner), frames, owner, d)
        invariant SameBut(old(frames), frames, d, PagesUp(newsz), PagesUp(oldsz))
        invariant forall w: nat :: PagesUp(newsz) <= w < a ==> PteOf(frames, d, w) == Absent
        decreases USERPAGES - a
      {
        ghost var fs, ow, a0 := frames, owner, a;
        a := DropAt(d, a);
        RemovesTrans(old(frames), old(owner), fs, ow, frames, owner, d);
        SameTrans(old(frames), fs, frames, d, PagesUp(newsz), PagesUp(oldsz), a0);
      }
      return newsz;
    }

    /** Take a frame and fill it; Held until it is mapped. */
    method NewFrame(page: Page) returns (mem: int)
      requires Valid()
      modifies this
      ensures Valid() && (mem < 0 ==> frames == old(frames) && owner == old(owner) && free == old(free) == [])
      ensures mem >= 0 ==> mem in old(owner) && old(owner)[mem] == Free && owner == old(owner)[mem := Held]
      ensures mem >= 0 ==> frames == old(frames)[mem := Data(page)] && |free| + 1 == |old(free)|
      ensures forall x, w :: x in old(owner) && old(owner)[x] == IsDir(x) ==>
                PteOf(frames, x, w) == PteOf(old(frames), x, w)
    {
      hide Ok, PteOf;
      mem := KAlloc();
      if mem < 0 { return; }
      Filled(frames, free, owner, mem, Data(page), frames[mem := Data(page)]);
      frames := frames[mem := Data(page)];
    }

    /** One more user page: a fresh frame, filled and mapped. When the mapping fails, the frame stays
        in the caller's hand. */
    method AddPage(d: int, vp: nat, page: Page, flags: nat) returns (ok: bool, mem: int)
      requires Valid() && Has(d) && vp < USERPAGES && PteOf(frames, d, vp) == Absent
      modifies this
      ensures Valid() && Has(d) && SameBut(old(frames), frames, d, vp, vp + 1)
      ensures mem >= 0 ==> mem in old(owner) && old(owner)[mem] == Free && mem in owner && mem in frames
      ensures mem < 0 ==> mem == NOBODY && !ok
      ensures ok ==> Adds(old(frames), old(owner), frames, owner, d, NOBODY)
      ensures ok ==> PteOf(frames, d, vp) == Pte(mem, flags) && frames[mem] == Data(page) && owner[mem] == IsPage(d, vp)
      ensures !ok ==> Adds(old(frames), old(owner), frames, owner, d, mem) && (mem >= 0 ==> owner[mem] == Held)
      ensures !ok ==> owner == if mem < 0 then old(owner) else old(owner)[mem := Held]
      ensures forall w: nat :: w != vp ==> PteOf(frames, d, w) == PteOf(old(frames), d, w)
      ensures ok ==> Tables(frames, d) == Tables(old(frames), d) + {PDX(vp)}
      ensures ok ==> |free| + |Tables(frames, d)| + 1 == |old(free)| + |Tables(old(frames), d)|
      ensures !ok ==> |old(free)| < 1 + if PDX(vp) in Tables(old(frames), d) then 0 else 1
    {
      mem := NewFrame(page);
      ghost var fs, ow := frames, owner;
      NewFrameSees(old(frames), old(free), old(owner), d, mem, frames, vp);
      assert mem >= 0 ==> mem != d;
      if mem >= 0 { SameTables(old(frames), frames, d, mem); }
      hide Ok, PteOf, SameBut;
      if mem < 0 {
        Unchanged(frames, free, owner, d, vp, vp + 1);
        return false, NOBODY;
      }
      ok := MapPage(d, vp, mem, flags);
      SameTwice(old(frames), fs, frames, d, vp);
      AddsFrame(old(frames), old(owner), fs, ow, frames, owner, d, mem);
    }

    /** allocuvm's way out: unmap what was added, and give back the frame in hand, if any. */
    method Rollback(d: int, oldsz: nat, newsz: nat, mem: int, ghost fs0: Frames, ghost ow0: Owners,
                    ghost free0: seq<int>)
      requires Valid() && Has(d) && oldsz <= newsz <= USERPAGES * PGSIZE
      requires Ok(fs0, free0, ow0) && Adds(fs0, ow0, frames, owner, d, mem)
      requires SameBut(fs0, frames, d, PagesUp(oldsz), PagesUp(newsz))
      requires mem >= 0 ==> mem in ow0 && ow0[mem] == Free && mem in owner && owner[mem] == Held
      requires forall w: nat :: PagesUp(oldsz) <= w < PagesUp(newsz) ==> PteOf(fs0, d, w) == Absent
      modifies this
      ensures Valid() && Has(d) && SameBut(fs0, frames, d, 0, 0) && Touches(fs0, ow0, frames, owner, d)
    {
      hide Ok, PteOf, SameBut, Adds, Removes, Touches;
      ghost var fs, ow := frames, owner;
      var _ := DeallocUvm(d, newsz, oldsz);
      Restored(fs0, fs, frames, d, PagesUp(oldsz), PagesUp(newsz));
      HeldKept(fs, ow, frames, owner, d, mem);
      ghost var fs2, free2, ow2 := frames, free, owner;
      Numbers(fs2, free2, ow2);
      if mem >= 0 {
        KFree(mem);
        FreedSees(fs2, free2, ow2, frames, d, mem);
        SameAll(fs0, fs2, frames, d);
      }
      Numbers(fs0, free0, ow0);
      RolledBack(fs0, ow0, fs, ow, fs2, ow2, frames, owner, d, mem);
    }

    /** allocuvm: on success exactly the pages from PGROUNDUP(oldsz) up to newsz are added, each a
        zeroed frame fresh from the free list; on failure the user mapping is as it was. Either way
        no other directory's frames are touched. */
    method AllocUvm(d: int, oldsz: nat, newsz: nat) returns (r: nat, ghost done: bool)
      requires Valid() && Has(d)
      requires forall w: nat :: PagesUp(oldsz) <= w < PagesUp(newsz) && w < USERPAGES ==> PteOf(frames, d, w) == Absent
      modifies this
      ensures Valid() && Has(d) && Touches(old(frames), old(owner), frames, owner, d)
      ensures r == if done then newsz else if newsz < USERPAGES * PGSIZE && newsz < oldsz then oldsz else 0
      ensures done ==> oldsz <= newsz < USERPAGES * PGSIZE
      ensures done ==> SameBut(old(frames), frames, d, PagesUp(oldsz), PagesUp(newsz))
      ensures done ==> forall w: nat :: PagesUp(oldsz) <= w < PagesUp(newsz) ==> Zeroed(Sees(frames, d, w), old(owner))
      ensures !done ==> SameBut(old(frames), frames, d, 0, 0)
      ensures done <==> oldsz <= newsz < USERPAGES * PGSIZE
                        && Need(Tables(old(frames), d), PagesUp(oldsz), PagesUp(newsz)) <= |old(free)|
    {
      hide Ok, PteOf, SameBut, Adds, Removes, Touches, Sees, ZeroPage, Tables, Pdx, Need;
      done := false;
      Numbers(frames, free, owner);
      Start(frames, free, owner, d, PagesUp(oldsz), PagesUp(newsz));
      if newsz >= USERPAGES * PGSIZE { return 0, false; }
      if newsz < oldsz { return oldsz, false; }
      var a := PagesUp(oldsz);
      ghost var t0, lo := Tables(frames, d), PagesUp(oldsz);
      NeedNone(t0, lo);
      while a * PGSIZE < newsz
        invariant Valid() && Has(d) && PagesUp(oldsz) <= a <= PagesUp(newsz)
        invariant Tables(frames, d) == t0 + Pdx(lo, a) && |old(free)| == |free| + Need(t0, lo, a)
        invariant Adds(old(frames), old(owner), frames, owner, d, NOBODY)
        invariant SameBut(old(frames), frames, d, PagesUp(oldsz), PagesUp(newsz))
        invariant forall w: nat :: PagesUp(oldsz) <= w < a ==> Zeroed(Sees(frames, d, w), old(owner))
        invariant forall w: nat :: a <= w < PagesUp(newsz) ==> PteOf(frames, d, w) == Absent
        decreases USERPAGES - a
      {
        ghost var fs, ow := frames, owner;
        var ok, mem := AddPage(d, a, ZeroPage(), WRITABLE_USER);
        SameTrans(old(frames), fs, frames, d, PagesUp(oldsz), PagesUp(newsz), a);
        WasFree(old(frames), old(owner), fs, ow, d, mem);
        NeedStep(t0, lo, a);
        NeedMore(t0, lo, a + 1, PagesUp(newsz));
        if !ok {
          AddsJoin(old(frames), old(owner), fs, ow, frames, owner, d, mem);
          Rollback(d, oldsz, newsz, mem, old(frames), old(owner), old(free));
          return 0, false;
        }
        AddsTrans(old(frames), old(owner), fs, ow, frames, owner, d, NOBODY);
        ZeroedStep(fs, frames, d, PagesUp(oldsz), a, mem, old(owner));
        a := a + 1;
      }
      Numbers(old(frames), old(free), old(owner));
      AddsTouches(old(frames), old(owner), frames, owner, d);
      return newsz, true;
    }

    /** freevm's second half: the page tables, then the directory itself. */
    method FreeTables(d: int)
      requires Valid() && Has(d) && forall w: nat :: w < USERPAGES ==> PteOf(frames, d, w) == Absent
      modifies this
      ensures Valid() && Purged(old(frames), old(owner), frames, owner, d)
    {
      hide Ok, PteOf, Dismantled, Tree, Others, Purged;
      TreeOf(frames, free, owner, d);
      DetachedOk(frames, free, owner, d, Dismantled(owner, d, 0));
      var pdes := frames[d].pdes;
      owner := Dismantled(owner, d, 0);
      for i := 0 to NPT
        invariant Valid() && d in frames && frames[d] == Dir(pdes) && owner == Dismantled(old(owner), d, i)
        invariant Others(old(frames), old(owner), frames, d)
      {
        ghost var fs := frames;
        DismantledStep(old(owner), d, i, pdes);
        if frames[d].pdes[i] >= 0 {
          KFree(frames[d].pdes[i]);
          OthersStep(old(frames), old(owner), fs, frames, d, pdes[i]);
        }
      }
      DismantledAll(old(frames), old(owner), d, pdes, frames, owner);
      KFree(d);
    }

    /** freevm: exactly the frames that the directory owned go back to the free list. */
    method FreeVm(d: int)
      requires Valid() && Has(d)
      modifies this
      ensures Valid() && Purged(old(frames), old(owner), frames, owner, d)
    {
      hide Ok, PteOf, SameBut, Removes, Purged;
      var _ := DeallocUvm(d, USERPAGES * PGSIZE, 0);
      assert PagesUp(0) == 0 && PagesUp(USERPAGES * PGSIZE) == USERPAGES;
      ghost var fs, ow := frames, owner;
      FreeTables(d);
      PurgedAll(old(frames), old(owner), fs, ow, frames, owner, d);
    }

    /** mappages for one kernel page. */
    method MapKernelPage(d: int, vp: nat, pa: nat, perm: nat) returns (ok: bool)
      requires Valid() && Has(d) && USERPAGES <= vp < NPT * NPT && PteOf(frames, d, vp) == Absent
      modifies this
      ensures Valid() && Has(d) && Adds(old(frames), old(owner), frames, owner, d, NOBODY)
      ensures forall w: nat :: w != vp ==> PteOf(frames, d, w) == PteOf(old(frames), d, w)
      ensures ok ==> PteOf(frames, d, vp) == Pte(pa, perm)
      ensures ok ==> Tables(frames, d) == Tables(old(frames), d) + {PDX(vp)}
      ensures ok ==> |free| + |Tables(frames, d)| == |old(free)| + |Tables(old(frames), d)|
      ensures !ok ==> frames == old(frames) && free == old(free) == [] && PDX(vp) !in Tables(frames, d)
    {
      Split(vp);
      var t := Walk(d, vp, true);
      if t < 0 { return false; }
      ghost var fs := frames[t := Table(frames[t].ptes[PTX(vp) := Pte(pa, perm)])];
      KernelMapped(frames, free, owner, d, t, vp, Pte(pa, perm), fs);
      AddsOwn(old(frames), old(owner), frames, free, owner, fs, d, t);
      SameTables(frames, fs, d, t);
      frames := frames[t := Table(frames[t].ptes[PTX(vp) := Pte(pa, perm)])];
      return true;
    }

    /** mappages over a kernel range. */
    method MapRange(d: int, k: Range) returns (ok: bool)
      requires Valid() && Has(d) && USERPAGES <= k.vp && k.vp + k.n <= NPT * NPT
      requires forall w: nat :: w < USERPAGES || k.vp <= w ==> PteOf(frames, d, w) == Absent
      modifies this
      ensures Valid() && Has(d) && Adds(old(frames), old(owner), frames, owner, d, NOBODY)
      ensures forall w: nat :: w < USERPAGES || k.vp + k.n <= w ==> PteOf(frames, d, w) == Absent
      ensures ok ==> RangeSeen(frames, d, k)
      ensures forall w: nat :: w < k.vp ==> PteOf(frames, d, w) == PteOf(old(frames), d, w)
      ensures ok ==> Tables(frames, d) == Tables(old(frames), d) + Pdx(k.vp, k.vp + k.n)
      ensures ok ==> |free| + |Tables(frames, d)| == |old(free)| + |Tables(old(frames), d)|
      ensures !ok ==> |old(free)| + |Tables(old(frames), d)| < |Tables(old(frames), d) + Pdx(k.vp, k.vp + k.n)|
    {
      hide Ok, PteOf, Adds, Tables, Pdx, RangeSeen, Mapping;
      MappingNone(frames, d, k);
      Start(frames, free, owner, d, 0, 0);
      for i := 0 to k.n
        invariant Valid() && Has(d) && Adds(old(frames), old(owner), frames, owner, d, NOBODY)
        invariant Mapping(old(frames), frames, d, k, i)
        invariant |free| + |Tables(frames, d)| == |old(free)| + |Tables(old(frames), d)|
      {
        ghost var fs, ow := frames, owner;
        MappingAt(old(frames), frames, d, k, i);
        ok := MapKernelPage(d, k.vp + i, k.pa + i, k.perm);
        AddsTrans(old(frames), old(owner), fs, ow, frames, owner, d, NOBODY);
        if !ok {
          MappingShort(old(frames), frames, d, k, i);
          MappingEnd(old(frames), frames, d, k, i);
          return;
        }
        MappingStep(old(frames), fs, frames, d, k, i);
      }
      MappingEnd(old(frames), frames, d, k, k.n);
      return true;
    }

    /** An empty directory. */
    method NewDir() returns (d: int)
      requires Valid()
      modifies this
      ensures Valid()
      ensures d < 0 ==> d == -1 && frames == old(frames) && owner == old(owner) && free == old(free) == []
      ensures d >= 0 ==> d in old(owner) && old(owner)[d] == Free && Has(d) && |free| + 1 == |old(free)|
      ensures d >= 0 ==> Adds(old(frames), old(owner), frames, owner, d, NOBODY) && Tables(frames, d) == {}
      ensures d >= 0 ==> forall w: nat :: PteOf(frames, d, w) == Absent
    {
      hide Ok, PteOf, Adds, Tables;
      d := KAlloc();
      if d < 0 { return -1; }
      DirAdded(old(frames), old(free), old(owner), free, owner, d, frames[d := Dir(seq(NPT, _ => -1))],
          owner[d := IsDir(d)]);
      frames := frames[d := Dir(seq(NPT, _ => -1))];
      owner := owner[d := IsDir(d)];
      NoTables(frames, d);
    }

    /** setupkvm's loop: all of the kernel's ranges, as far as the frames reach. */
    method MapKernel(d: int, kmap: seq<Range>) returns (ok: bool)
      requires Valid() && Has(d) && KmapOk(kmap) && Tables(frames, d) == {}
      requires forall w: nat :: PteOf(frames, d, w) == Absent
      modifies this
      ensures Valid() && Has(d) && Adds(old(frames), old(owner), frames, owner, d, NOBODY)
      ensures forall w: nat :: w < USERPAGES ==> PteOf(frames, d, w) == Absent
      ensures ok ==> KernelSeen(frames, d, kmap, |kmap|)
      ensures ok <==> |KernelTables(kmap, |kmap|)| <= |old(free)|
      ensures ok ==> Tables(frames, d) == KernelTables(kmap, |kmap|) && |free| + |Tables(frames, d)| == |old(free)|
    {
      hide Ok, PteOf, Adds, Tables, Pdx, KernelSeen, RangeSeen;
      KernelSeenNone(frames, d, kmap);
      Start(frames, free, owner, d, 0, 0);
      for k := 0 to |kmap|
        invariant Tables(frames, d) == KernelTables(kmap, k) && |free| + |Tables(frames, d)| == |old(free)|
        invariant Valid() && Has(d) && Adds(old(frames), old(owner), frames, owner, d, NOBODY)
        invariant forall w: nat :: w < USERPAGES ==> PteOf(frames, d, w) == Absent
        invariant forall w: nat :: k < |kmap| && kmap[k].vp <= w ==> PteOf(frames, d, w) == Absent
        invariant KernelSeen(frames, d, kmap, k)
      {
        ghost var fs, ow := frames, owner;
        ok := MapRange(d, kmap[k]);
        AddsTrans(old(frames), old(owner), fs, ow, frames, owner, d, NOBODY);
        KernelTablesMore(kmap, k + 1);
        if !ok { return; }
        KernelSeenStep(fs, frames, d, kmap, k);
      }
      ok := true;
    }

    /** setupkvm: a directory with the kernel's mappings and no user page; or every frame back, exactly
        when there are too few of them. */
    method SetupKvm(kmap: seq<Range>) returns (d: int)
      requires Valid() && KmapOk(kmap)
      modifies this
      ensures Valid()
      ensures d < 0 ==> Intact(old(frames), old(owner), frames, owner)
      ensures d >= 0 ==> d in old(owner) && old(owner)[d] == Free && Has(d)
      ensures d >= 0 ==> Adds(old(frames), old(owner), frames, owner, d, NOBODY)
      ensures d >= 0 ==> forall w: nat :: w < USERPAGES ==> PteOf(frames, d, w) == Absent
      ensures d >= 0 ==> KernelSeen(frames, d, kmap, |kmap|)
      ensures d >= 0 <==> 1 + |KernelTables(kmap, |kmap|)| <= |old(free)|
      ensures d >= 0 ==> Tables(frames, d) == KernelTables(kmap, |kmap|)
      ensures d >= 0 ==> |free| + |Tables(frames, d)| + 1 == |old(free)|
    {
      hide Ok, PteOf, Adds, Intact, Purged, Tables, KmapOk, KernelTables;
      IntactRefl(frames, free, owner);
      d := NewDir();
      if d < 0 { return -1; }
      ghost var fs, ow := frames, owner;
      var ok := MapKernel(d, kmap);
      AddsTrans(old(frames), old(owner), fs, ow, frames, owner, d, NOBODY);
      if !ok {
        fs, ow := frames, owner;
        FreeVm(d);
        AllBack(old(frames), old(free), old(owner), fs, ow, frames, owner, d);
        return -1;
      }
    }

    /** walkpgdir without allocation, read. */
    method Lookup(d: int, vp: nat) returns (pte: Pte)
      requires Valid() && Has(d) && vp < USERPAGES
      modifies this
      ensures frames == old(frames) && owner == old(owner) && free == old(free) && pte == PteOf(frames, d, vp)
    {
      Split(vp);
      var t := Walk(d, vp, false);
      if t < 0 { return Absent; }
      pte := frames[t].ptes[PTX(vp)];
    }

    /** copyuvm's way out. */
    method GiveUp(d: int, mem: int, ghost fs0: Frames, ghost free0: seq<int>, ghost ow0: Owners)
      requires Valid() && Has(d) && Ok(fs0, free0, ow0) && d in ow0 && ow0[d] == Free && d != mem
      requires Adds(fs0, ow0, frames, owner, d, mem)
      requires mem != NOBODY ==> mem in ow0 && ow0[mem] == Free && mem in owner && owner[mem] == Held
      modifies this
      ensures Valid() && Intact(fs0, ow0, frames, owner)
    {
      hide Ok, PteOf, Adds, Intact, Purged;
      ghost var fs, ow := frames, owner;
      Numbers(fs0, free0, ow0);
      Numbers(frames, free, owner);
      if mem >= 0 { KFree(mem); }
      AddsFreed(fs0, ow0, fs, ow, frames, owner, d, mem);
      fs, ow := frames, owner;
      FreeVm(d);
      AllBack(fs0, free0, ow0, fs, ow, frames, owner, d);
    }

    /** copyuvm: a directory that shows the same pages in frames of its own, all of them free
        before; or every frame back, exactly when there are too few of them; or the panic, exactly when
        the frames reach to a page below `sz` that is not mapped. The original and all other
        directories are untouched. */
    method CopyUvm(d0: int, sz: nat, kmap: seq<Range>) returns (r: CopyResult)
      requires Valid() && Has(d0) && sz <= USERPAGES * PGSIZE && KmapOk(kmap)
      modifies this
      ensures Valid()
      ensures var m := FirstHole(old(frames), d0, PagesUp(sz));
              && (r.NoMemory? <==> |old(free)| < CopyNeed(kmap, m))
              && (r.Panic? <==> CopyNeed(kmap, m) <= |old(free)| && m < PagesUp(sz))
      ensures r.NoMemory? ==> Intact(old(frames), old(owner), frames, owner)
      ensures r.Panic? ==> r.lost in old(owner) && old(owner)[r.lost] == Free
      ensures r.Panic? ==> Touches(old(frames), old(owner), frames, owner, r.lost)
      ensures r.Made? ==> r.d >= 0 && r.d in old(owner) && old(owner)[r.d] == Free && Has(r.d)
      ensures r.Made? ==> Adds(old(frames), old(owner), frames, owner, r.d, NOBODY)
      ensures r.Made? ==> forall w: nat :: w < PagesUp(sz) ==>
                Copied(Sees(old(frames), d0, w), Sees(frames, r.d, w), old(owner))
      ensures r.Made? ==> forall w: nat :: PagesUp(sz) <= w < USERPAGES ==> PteOf(frames, r.d, w) == Absent
    {
      hide Ok, PteOf, Adds, Intact, Purged, SameBut, Sees, Tables, Pdx, Need, KernelTables, KmapOk;
      ghost var m, t0 := FirstHole(frames, d0, PagesUp(sz)), KernelTables(kmap, |kmap|);
      Numbers(frames, free, owner);
      CopyNeedZero(kmap, m);
      var d := SetupKvm(kmap);
      if d < 0 { return NoMemory; }
      var i: nat := 0;
      NeedNone(t0, 0);
      while i * PGSIZE < sz
        invariant i <= m <= PagesUp(sz)
        invariant Tables(frames, d) == t0 + Pdx(0, i) && |old(free)| == |free| + 1 + |t0| + Need(t0, 0, i)
        invariant Valid() && Has(d) && Adds(old(frames), old(owner), frames, owner, d, NOBODY)
        invariant forall w: nat :: w < i ==> Copied(Sees(old(frames), d0, w), Sees(frames, d, w), old(owner))
        invariant forall w: nat :: i <= w < USERPAGES ==> PteOf(frames, d, w) == Absent
      {
        ghost var fs, ow := frames, owner;
        SourceKept(old(frames), old(free), old(owner), frames, free, owner, d, d0, i);
        var pte := Lookup(d0, i);
        if pte == Absent {
          AddsTouches(old(frames), old(owner), frames, owner, d);
          return Panic(d);
        }
        var ok, mem := AddPage(d, i, frames[pte.frame].page, pte.flags);
        WasFree(old(frames), old(owner), fs, ow, d, mem);
        Numbers(old(frames), old(free), old(owner));
        NeedStep(t0, 0, i);
        NeedMore(t0, 0, i + 1, m);
        if !ok {
          AddsJoin(old(frames), old(owner), fs, ow, frames, owner, d, mem);
          GiveUp(d, mem, old(frames), old(free), old(owner));
          return NoMemory;
        }
        AddsTrans(old(frames), old(owner), fs, ow, frames, owner, d, NOBODY);
        CopiedStep(old(frames), d0, fs, frames, d, i, mem, old(owner));
        i := i + 1;
      }
      return Made(d);
    }
  }
}
