/** Physical page frames and who owns them: the free list, page directories, page tables and the
    user pages they map (vm.c, kalloc.c). Addresses are counted in pages. */
module PageFrames {

  const NPT: nat := 1024        // entries of a page table, and of a directory
  const USERDIR: nat := 512     // directory entries below KERNBASE
  const USERPAGES: nat := USERDIR * NPT

  function PDX(vp: nat): nat { vp / NPT }
  function PTX(vp: nat): nat { vp % NPT }

  type Page = seq<nat>

  function ZeroPage(): Page { seq(4096, _ => 0) }

  datatype Pte = Absent | Pte(frame: int, flags: nat)

  /** What a frame holds; a directory entry is a frame number, or -1. */
  datatype Frame = Junk | Data(page: Page) | Table(ptes: seq<Pte>) | Dir(pdes: seq<int>)

  /** The one use a frame has. `Held` frames are in some other hand: a kernel stack, a pipe, or a
      function that has just taken them. */
  datatype Role = Free | Held | IsDir(d: int) | IsTable(d: int, i: nat) | IsPage(d: int, vp: nat)

  predicate Belongs(r: Role, d: int) { (r.IsDir? || r.IsTable? || r.IsPage?) && r.d == d }

  type Frames = map<int, Frame>
  type Owners = map<int, Role>

  predicate IsDirectory(fs: Frames, d: int) { d in fs && fs[d].Dir? && |fs[d].pdes| == NPT }

  predicate IsTab(fs: Frames, f: int) { 0 <= f && f in fs && fs[f].Table? && |fs[f].ptes| == NPT }

  /** The page table entry for page `vp`, Absent when there is no table for it. */
  function PteOf(fs: Frames, d: int, vp: nat): Pte {
    if IsDirectory(fs, d) && PDX(vp) < NPT && IsTab(fs, fs[d].pdes[PDX(vp)])
    then fs[fs[d].pdes[PDX(vp)]].ptes[PTX(vp)]
    else Absent
  }

  ghost predicate DirOk(fs: Frames, ow: Owners, d: int) {
    && IsDirectory(fs, d)
    && forall i :: 0 <= i < NPT && fs[d].pdes[i] >= 0 ==> fs[d].pdes[i] in ow && ow[fs[d].pdes[i]] == IsTable(d, i)
  }

  ghost predicate TableOk(fs: Frames, ow: Owners, f: int, d: int, i: nat) {
    && IsTab(fs, f) && i < NPT
    && d in ow && ow[d] == IsDir(d) && IsDirectory(fs, d) && fs[d].pdes[i] == f
    && (i < USERDIR ==> forall j :: 0 <= j < NPT && fs[f].ptes[j].Pte? ==>
          fs[f].ptes[j].frame in ow && ow[fs[f].ptes[j].frame] == IsPage(d, i * NPT + j))
  }

  ghost predicate PageOk(fs: Frames, ow: Owners, f: int, d: int, vp: nat) {
    && vp < USERPAGES && f in fs && fs[f].Data?
    && d in ow && ow[d] == IsDir(d)
    && PteOf(fs, d, vp).Pte? && PteOf(fs, d, vp).frame == f
  }

  ghost predicate FrameOk(fs: Frames, ow: Owners, f: int)
    requires f in ow
  {
    match ow[f]
    case Free => true
    case Held => true
    case IsDir(d) => d == f && DirOk(fs, ow, d)
    case IsTable(d, i) => TableOk(fs, ow, f, d, i)
    case IsPage(d, vp) => PageOk(fs, ow, f, d, vp)
  }

  /** Every frame is exactly where its owner says: on the free list, held, or in one place of one
      page directory's tree. */
  ghost predicate Ok(fs: Frames, free: seq<int>, ow: Owners) {
    && fs.Keys == ow.Keys
    && (forall i, j :: 0 <= i < j < |free| ==> free[i] != free[j])
    && (forall f :: f in free <==> f in ow && ow[f] == Free)
    && (forall f :: f in ow ==> 0 <= f && FrameOk(fs, ow, f))
  }

  lemma Split(vp: nat)
    ensures vp == PDX(vp) * NPT + PTX(vp) && PTX(vp) < NPT && (vp < USERPAGES <==> PDX(vp) < USERDIR)
  {
  }

  /** A mapped user page's frame is owned at that page. */
  lemma MappedOwned(fs: Frames, free: seq<int>, ow: Owners, d: int, vp: nat)
    requires Ok(fs, free, ow) && d in ow && ow[d] == IsDir(d) && vp < USERPAGES && PteOf(fs, d, vp).Pte?
    ensures PteOf(fs, d, vp).frame in ow && ow[PteOf(fs, d, vp).frame] == IsPage(d, vp)
    ensures PteOf(fs, d, vp).frame in fs && fs[PteOf(fs, d, vp).frame].Data?
  {
    Split(vp);
    assert FrameOk(fs, ow, d);
    var t := fs[d].pdes[PDX(vp)];
    assert FrameOk(fs, ow, t);
    assert fs[t].ptes[PTX(vp)].Pte?;
    assert FrameOk(fs, ow, PteOf(fs, d, vp).frame);
  }

  // ---- single changes -------------------------------------------------------------------------------

  /** A held frame becomes the page table for directory entry `i`. */
  lemma TableAdded(fs: Frames, free: seq<int>, ow: Owners, d: int, i: nat, t: int, fs': Frames, ow': Owners)
    requires Ok(fs, free, ow) && d in ow && ow[d] == IsDir(d) && IsDirectory(fs, d) && i < NPT && fs[d].pdes[i] < 0
    requires t in ow && ow[t] == Held
    requires fs' == fs[t := Table(seq(NPT, _ => Absent))][d := Dir(fs[d].pdes[i := t])] && ow' == ow[t := IsTable(d, i)]
    ensures Ok(fs', free, ow')
    ensures forall x, vp :: x in ow && ow[x] == IsDir(x) ==> PteOf(fs', x, vp) == PteOf(fs, x, vp)
  {
    assert FrameOk(fs, ow, d);
    forall x, vp | x in ow && ow[x] == IsDir(x) ensures PteOf(fs', x, vp) == PteOf(fs, x, vp) {
      assert FrameOk(fs, ow, x);
    }
    forall f | f in ow' ensures FrameOk(fs', ow', f) {
      assert FrameOk(fs, ow, f);
    }
  }

  /** Writing one page table entry changes what one directory has for one page. */
  lemma EntrySet(fs: Frames, free: seq<int>, ow: Owners, d: int, t: int, vp: nat, pte: Pte, fs': Frames)
    requires Ok(fs, free, ow) && d in ow && ow[d] == IsDir(d) && IsDirectory(fs, d)
    requires PDX(vp) < NPT && fs[d].pdes[PDX(vp)] == t && IsTab(fs, t)
    requires fs' == fs[t := Table(fs[t].ptes[PTX(vp) := pte])]
    ensures t in ow && ow[t] == IsTable(d, PDX(vp)) && PteOf(fs', d, vp) == pte
    ensures forall x, w :: x in ow && ow[x] == IsDir(x) && (x != d || w != vp) ==> PteOf(fs', x, w) == PteOf(fs, x, w)
  {
    Split(vp);
    assert FrameOk(fs, ow, d);
    forall x, w | x in ow && ow[x] == IsDir(x) && (x != d || w != vp) ensures PteOf(fs', x, w) == PteOf(fs, x, w) {
      assert FrameOk(fs, ow, x);
      Split(w);
    }
  }

  /** Frames whose tables and pages are where they were stay in order. */
  lemma FrameStays(fs: Frames, free: seq<int>, ow: Owners, fs': Frames, ow': Owners, d: int, t: int, vp: nat, g: int)
    requires Ok(fs, free, ow) && vp < USERPAGES && t in ow && ow[t] == IsTable(d, PDX(vp)) && t in fs && t in fs'
    requires ow'.Keys == ow.Keys && fs' == fs[t := fs'[t]] && IsTab(fs', t)
    requires forall x :: x in ow && !ow[x].IsPage? && ow[x] != Held ==> ow'[x] == ow[x]
    requires forall x :: x in ow && ow[x].IsPage? && ow[x] != IsPage(d, vp) ==> ow'[x] == ow[x]
    requires forall x, w :: x in ow && ow[x] == IsDir(x) && (x != d || w != vp) ==> PteOf(fs', x, w) == PteOf(fs, x, w)
    requires g in ow && g != t && ow'[g] == ow[g] && ow[g] != IsPage(d, vp)
    ensures FrameOk(fs', ow', g)
  {
    assert FrameOk(fs, ow, g) && FrameOk(fs, ow, t);
  }

  /** The page table itself. */
  lemma TableStays(fs: Frames, free: seq<int>, ow: Owners, fs': Frames, ow': Owners, d: int, t: int, vp: nat, pte: Pte)
    requires Ok(fs, free, ow) && vp < USERPAGES && t in ow && ow[t] == IsTable(d, PDX(vp)) && IsTab(fs, t) && t in fs'
    requires ow'.Keys == ow.Keys && fs' == fs[t := Table(fs[t].ptes[PTX(vp) := pte])] && ow'[t] == ow[t] && d in ow
    requires ow'[d] == ow[d]
    requires forall x :: x in ow && ow[x].IsPage? && ow[x] != IsPage(d, vp) ==> ow'[x] == ow[x]
    requires pte.Pte? ==> pte.frame in ow' && ow'[pte.frame] == IsPage(d, vp)
    ensures FrameOk(fs', ow', t)
  {
    Split(vp);
    assert FrameOk(fs, ow, t);
    forall j | 0 <= j < NPT && fs'[t].ptes[j].Pte?
      ensures fs'[t].ptes[j].frame in ow' && ow'[fs'[t].ptes[j].frame] == IsPage(d, PDX(vp) * NPT + j)
    {
      if j != PTX(vp) { assert fs[t].ptes[j].Pte?; }
    }
  }

  /** A held frame with data becomes user page `vp`. */
  lemma PageAdded(fs: Frames, free: seq<int>, ow: Owners, d: int, t: int, vp: nat, f: int, flags: nat, fs': Frames,
                  ow': Owners)
    requires Ok(fs, free, ow) && d in ow && ow[d] == IsDir(d) && IsDirectory(fs, d) && vp < USERPAGES
    requires PDX(vp) < NPT && fs[d].pdes[PDX(vp)] == t && IsTab(fs, t) && fs[t].ptes[PTX(vp)] == Absent
    requires f in ow && ow[f] == Held && f in fs && fs[f].Data?
    requires fs' == fs[t := Table(fs[t].ptes[PTX(vp) := Pte(f, flags)])] && ow' == ow[f := IsPage(d, vp)]
    ensures Ok(fs', free, ow')
    ensures PteOf(fs', d, vp) == Pte(f, flags)
    ensures forall x, w :: x in ow && ow[x] == IsDir(x) && (x != d || w != vp) ==> PteOf(fs', x, w) == PteOf(fs, x, w)
  {
    EntrySet(fs, free, ow, d, t, vp, Pte(f, flags), fs');
    TableStays(fs, free, ow, fs', ow', d, t, vp, Pte(f, flags));
    forall g | g in ow' && g != t && g != f ensures FrameOk(fs', ow', g) {
      assert FrameOk(fs, ow, g);
      FrameStays(fs, free, ow, fs', ow', d, t, vp, g);
    }
    hide PteOf, IsTab, IsDirectory;
    assert FrameOk(fs', ow', f);
  }

  /** User page `vp` is taken out; its frame is held. */
  lemma PageDropped(fs: Frames, free: seq<int>, ow: Owners, d: int, t: int, vp: nat, f: int, fs': Frames, ow': Owners)
    requires Ok(fs, free, ow) && d in ow && ow[d] == IsDir(d) && IsDirectory(fs, d) && vp < USERPAGES
    requires PDX(vp) < NPT && fs[d].pdes[PDX(vp)] == t && IsTab(fs, t) && fs[t].ptes[PTX(vp)].Pte?
    requires fs[t].ptes[PTX(vp)].frame == f
    requires f in ow && fs' == fs[t := Table(fs[t].ptes[PTX(vp) := Absent])] && ow' == ow[f := Held]
    ensures Ok(fs', free, ow')
    ensures PteOf(fs', d, vp) == Absent
    ensures forall x, w :: x in ow && ow[x] == IsDir(x) && (x != d || w != vp) ==> PteOf(fs', x, w) == PteOf(fs, x, w)
  {
    EntrySet(fs, free, ow, d, t, vp, Absent, fs');
    MappedOwned(fs, free, ow, d, vp);
    TableStays(fs, free, ow, fs', ow', d, t, vp, Absent);
    forall g | g in ow' && g != t && g != f ensures FrameOk(fs', ow', g) {
      assert FrameOk(fs, ow, g);
      FrameStays(fs, free, ow, fs', ow', d, t, vp, g);
    }
  }

  lemma Popped(fs: Frames, free: seq<int>, ow: Owners, f: int, ow': Owners)
    requires Ok(fs, free, ow) && free != [] && f == free[0] && ow' == ow[f := Held]
    ensures f in ow && ow[f] == Free && 0 <= f && Ok(fs, free[1..], ow')
  {
    assert f in free;
    forall g ensures g in free[1..] <==> g in ow' && ow'[g] == Free {
      assert free == [f] + free[1..];
    }
    forall g | g in ow' ensures FrameOk(fs, ow', g) { assert FrameOk(fs, ow, g); }
  }

  lemma Pushed(fs: Frames, free: seq<int>, ow: Owners, f: int, fs': Frames, ow': Owners)
    requires Ok(fs, free, ow) && f in ow && ow[f] == Held && fs' == fs[f := Junk] && ow' == ow[f := Free]
    ensures Ok(fs', [f] + free, ow')
    ensures forall x, w :: x in ow && ow[x] == IsDir(x) ==> PteOf(fs', x, w) == PteOf(fs, x, w)
  {
    forall x, w | x in ow && ow[x] == IsDir(x) ensures PteOf(fs', x, w) == PteOf(fs, x, w) {
      assert FrameOk(fs, ow, x);
    }
    forall g ensures g in [f] + free <==> g in ow' && ow'[g] == Free {
      assert g in free <==> g in ow && ow[g] == Free;
    }
    forall g | g in ow' ensures FrameOk(fs', ow', g) { assert FrameOk(fs, ow, g); }
  }

  /** Filling a held frame. */
  lemma Filled(fs: Frames, free: seq<int>, ow: Owners, f: int, x: Frame, fs': Frames)
    requires Ok(fs, free, ow) && f in ow && ow[f] == Held && fs' == fs[f := x]
    ensures Ok(fs', free, ow)
    ensures forall y, w :: y in ow && ow[y] == IsDir(y) ==> PteOf(fs', y, w) == PteOf(fs, y, w)
  {
    forall y, w | y in ow && ow[y] == IsDir(y) ensures PteOf(fs', y, w) == PteOf(fs, y, w) {
      assert FrameOk(fs, ow, y);
    }
    forall g | g in ow ensures FrameOk(fs', ow, g) { assert FrameOk(fs, ow, g); }
  }

  /** A kernel page is mapped: its frame is nobody's in particular. */
  lemma KernelMapped(fs: Frames, free: seq<int>, ow: Owners, d: int, t: int, vp: nat, pte: Pte, fs': Frames)
    requires Ok(fs, free, ow) && d in ow && ow[d] == IsDir(d) && IsDirectory(fs, d) && USERPAGES <= vp
    requires PDX(vp) < NPT && fs[d].pdes[PDX(vp)] == t && IsTab(fs, t)
    requires fs' == fs[t := Table(fs[t].ptes[PTX(vp) := pte])]
    ensures Ok(fs', free, ow)
    ensures forall x, w :: x in ow && ow[x] == IsDir(x) && (x != d || w != vp) ==> PteOf(fs', x, w) == PteOf(fs, x, w)
  {
    Split(vp);
    EntrySet(fs, free, ow, d, t, vp, pte, fs');
    assert FrameOk(fs, ow, d) && FrameOk(fs, ow, t);
    forall g | g in ow ensures FrameOk(fs', ow, g) { assert FrameOk(fs, ow, g); }
  }

  // ---- what an operation on one directory may touch ---------------------------------------------------

  /** Frames of others, and held ones, are left alone. */
  ghost predicate Apart(fs: Frames, ow: Owners, fs': Frames, d: int, f: int)
    requires f in ow
  {
    ow[f] != Free && !Belongs(ow[f], d) ==> f in fs && f in fs' && fs'[f] == fs[f]
  }

  ghost predicate AddsAt(fs: Frames, ow: Owners, fs': Frames, ow': Owners, d: int, f: int)
    requires f in ow && f in ow'
  {
    (ow'[f] == ow[f] || (ow[f] == Free && Belongs(ow'[f], d))) && Apart(fs, ow, fs', d, f)
  }

  /** Frames only went from the free list to `d`, but for the frame `g` in hand. */
  ghost predicate Adds(fs: Frames, ow: Owners, fs': Frames, ow': Owners, d: int, g: int) {
    ow'.Keys == ow.Keys && forall f :: f in ow && f != g ==> AddsAt(fs, ow, fs', ow', d, f)
  }

  ghost predicate RemovesAt(fs: Frames, ow: Owners, fs': Frames, ow': Owners, d: int, f: int)
    requires f in ow && f in ow'
  {
    (ow'[f] == ow[f] || (Belongs(ow[f], d) && ow'[f] == Free)) && Apart(fs, ow, fs', d, f)
  }

  /** Frames only went from `d` to the free list. */
  ghost predicate Removes(fs: Frames, ow: Owners, fs': Frames, ow': Owners, d: int) {
    ow'.Keys == ow.Keys && forall f :: f in ow ==> RemovesAt(fs, ow, fs', ow', d, f)
  }

  ghost predicate TouchesAt(fs: Frames, ow: Owners, fs': Frames, ow': Owners, d: int, f: int)
    requires f in ow && f in ow'
  {
    && (if ow[f] == Free || Belongs(ow[f], d) then ow'[f] == Free || Belongs(ow'[f], d) else ow'[f] == ow[f])
    && Apart(fs, ow, fs', d, f)
  }

  /** Only free frames and `d`'s own have changed. */
  ghost predicate Touches(fs: Frames, ow: Owners, fs': Frames, ow': Owners, d: int) {
    ow'.Keys == ow.Keys && forall f :: f in ow ==> TouchesAt(fs, ow, fs', ow', d, f)
  }

  lemma AddsTrans(fs: Frames, ow: Owners, fs1: Frames, ow1: Owners, fs2: Frames, ow2: Owners, d: int, g: int)
    requires Adds(fs, ow, fs1, ow1, d, g) && Adds(fs1, ow1, fs2, ow2, d, g)
    ensures Adds(fs, ow, fs2, ow2, d, g)
  {
    forall f | f in ow && f != g ensures AddsAt(fs, ow, fs2, ow2, d, f) {
      assert AddsAt(fs, ow, fs1, ow1, d, f) && AddsAt(fs1, ow1, fs2, ow2, d, f);
    }
  }

  lemma RemovesTrans(fs: Frames, ow: Owners, fs1: Frames, ow1: Owners, fs2: Frames, ow2: Owners, d: int)
    requires Removes(fs, ow, fs1, ow1, d) && Removes(fs1, ow1, fs2, ow2, d)
    ensures Removes(fs, ow, fs2, ow2, d)
  {
    forall f | f in ow ensures RemovesAt(fs, ow, fs2, ow2, d, f) {
      assert RemovesAt(fs, ow, fs1, ow1, d, f) && RemovesAt(fs1, ow1, fs2, ow2, d, f);
    }
  }

  /** Another directory maps what it mapped, page for page and byte for byte. */
  lemma OthersKeep(fs: Frames, free: seq<int>, ow: Owners, fs': Frames, ow': Owners, d: int, x: int, w: nat)
    requires Ok(fs, free, ow) && Touches(fs, ow, fs', ow', d) && x in ow && ow[x] == IsDir(x) && x != d && w < USERPAGES
    ensures x in ow' && ow'[x] == IsDir(x) && PteOf(fs', x, w) == PteOf(fs, x, w)
    ensures PteOf(fs, x, w).Pte? ==> PteOf(fs, x, w).frame in fs && PteOf(fs, x, w).frame in fs'
                                     && fs'[PteOf(fs, x, w).frame] == fs[PteOf(fs, x, w).frame]
  {
    Split(w);
    assert FrameOk(fs, ow, x) && TouchesAt(fs, ow, fs', ow', d, x);
    var t := fs[x].pdes[PDX(w)];
    if t >= 0 {
      assert FrameOk(fs, ow, t) && TouchesAt(fs, ow, fs', ow', d, t);
    }
    if PteOf(fs, x, w).Pte? {
      MappedOwned(fs, free, ow, x, w);
      assert TouchesAt(fs, ow, fs', ow', d, PteOf(fs, x, w).frame);
    }
  }

  // ---- what a directory shows ---------------------------------------------------------------------------

  datatype Seen = Unmapped | Seen(frame: int, content: Frame, flags: nat)

  function Sees(fs: Frames, d: int, vp: nat): Seen {
    var p := PteOf(fs, d, vp);
    if p.Pte? && p.frame in fs then Seen(p.frame, fs[p.frame], p.flags) else Unmapped
  }

  /** `d` shows the same at every user page outside lo..hi-1. */
  ghost predicate SameBut(fs: Frames, fs': Frames, d: int, lo: nat, hi: nat) {
    forall w: nat :: w < USERPAGES && !(lo <= w < hi) ==> Sees(fs', d, w) == Sees(fs, d, w)
  }

  lemma SeesKept(fs: Frames, free: seq<int>, ow: Owners, fs': Frames, d: int, lo: nat, hi: nat)
    requires Ok(fs, free, ow) && d in ow && ow[d] == IsDir(d)
    requires forall w: nat :: w < USERPAGES && !(lo <= w < hi) ==> PteOf(fs', d, w) == PteOf(fs, d, w)
    requires forall f: int, w: nat :: f in ow && ow[f] == IsPage(d, w) && !(lo <= w < hi) ==>
               f in fs' && f in fs && fs'[f] == fs[f]
    ensures SameBut(fs, fs', d, lo, hi)
  {
    forall w: nat | w < USERPAGES && !(lo <= w < hi) ensures Sees(fs', d, w) == Sees(fs, d, w) {
      if PteOf(fs, d, w).Pte? { MappedOwned(fs, free, ow, d, w); }
    }
  }

  // ---- counting -------------------------------------------------------------------------------------------

  /** The directory entries that have a page table. */
  ghost function Tables(fs: Frames, d: int): set<nat> {
    set i: nat | i < NPT && IsDirectory(fs, d) && fs[d].pdes[i] >= 0
  }

  /** The directory entries of the pages from `lo` up to `hi`. */
  ghost function Pdx(lo: nat, hi: nat): set<nat> { set w: nat | lo <= w < hi :: PDX(w) }

  lemma PdxOneMore(lo: nat, a: nat)
    requires lo <= a
    ensures Pdx(lo, a + 1) == Pdx(lo, a) + {PDX(a)}
  {
    forall x ensures x in Pdx(lo, a + 1) <==> x in Pdx(lo, a) + {PDX(a)} {}
  }

  lemma PdxNone(lo: nat)
    ensures Pdx(lo, lo) == {}
  {
  }

  lemma PdxMore(lo: nat, a: nat, hi: nat)
    requires a <= hi
    ensures Pdx(lo, a) <= Pdx(lo, hi)
  {
  }

  /** Adding a set to a set, one element first. */
  lemma Grown(t: set<nat>, x: nat)
    ensures |t + {x}| == |t| + if x in t then 0 else 1
  {
    if x in t { assert t + {x} == t; }
  }

  lemma Smaller(a: set<nat>, b: set<nat>)
    requires a <= b
    ensures |a| <= |b|
  {
    assert b == a + (b - a);
  }

  /** The frames it takes to map the pages from `lo` up to `hi`, in a directory with page tables for
      the entries in `t`: one a page, and one for every page table that is missing. */
  ghost function Need(t: set<nat>, lo: nat, hi: nat): (n: nat)
    requires lo <= hi
  {
    Smaller(t, t + Pdx(lo, hi));
    hi - lo + |t + Pdx(lo, hi)| - |t|
  }

  lemma NeedMore(t: set<nat>, lo: nat, a: nat, hi: nat)
    requires lo <= a <= hi
    ensures Need(t, lo, a) <= Need(t, lo, hi)
  {
    PdxMore(lo, a, hi);
    Smaller(t + Pdx(lo, a), t + Pdx(lo, hi));
  }

  /** No page: nothing is needed. */
  lemma NeedNone(t: set<nat>, lo: nat)
    ensures t + Pdx(lo, lo) == t && Need(t, lo, lo) == 0
  {
    PdxNone(lo);
    assert t + Pdx(lo, lo) == t;
  }

  /** One page more: a frame for it, and one for its page table unless that is there. */
  lemma NeedStep(t: set<nat>, lo: nat, a: nat)
    requires lo <= a
    ensures t + Pdx(lo, a + 1) == t + Pdx(lo, a) + {PDX(a)}
    ensures |t + Pdx(lo, a + 1)| == |t + Pdx(lo, a)| + if PDX(a) in t + Pdx(lo, a) then 0 else 1
    ensures Need(t, lo, a + 1) == Need(t, lo, a) + 1 + if PDX(a) in t + Pdx(lo, a) then 0 else 1
  {
    PdxOneMore(lo, a);
    assert t + Pdx(lo, a + 1) == t + Pdx(lo, a) + {PDX(a)};
    Grown(t + Pdx(lo, a), PDX(a));
  }
}
