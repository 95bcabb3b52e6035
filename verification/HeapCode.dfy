/** umalloc.c's malloc, free and morecore over a process's memory. */
module HeapCode {
  import opened Arith
  import opened HeapList

  const UNIT: nat := 8            // sizeof(Header)
  const MINUNITS: nat := 4096     // the least morecore asks for
  const MAXUNITS: nat := 0x1000_0000  // KERNBASE / sizeof(Header): user addresses end here

  /** malloc's result: null, a block, or a store to memory that sbrk has not given, which ends the process. */
  datatype Outcome = Null | Block(at: nat) | Fault

  /** The size in units, header included, with the unsigned addition's wrap-around. */
  function Nunits(nbytes: nat): nat { (nbytes + UNIT - 1) % UINT / UNIT + 1 }

  function MoreUnits(nunits: nat): nat { if nunits < MINUNITS then MINUNITS else nunits }

  /** The count of bytes that reaches sbrk, whose parameter is a signed int. */
  function SbrkCount(nu: nat): int {
    var c := nu * UNIT % UINT;
    if c < UINT / 2 then c else c - UINT
  }

  /** A block of Nunits(nbytes) units can hold nbytes, except for the last seven sizes. */
  lemma LargeEnoughIff(nbytes: nat)
    requires nbytes < UINT
    ensures (Nunits(nbytes) - 1) * UNIT >= nbytes <==> nbytes <= UINT - UNIT
    ensures nbytes > UINT - UNIT ==> Nunits(nbytes) == 1
  {
    if nbytes + 7 >= UINT { assert (nbytes + 7) % UINT == nbytes + 7 - UINT; }
  }

  /** sbrk is asked for what morecore needs exactly when the request stays below 2 GB. */
  lemma SbrkCountIff(nu: nat)
    requires 1 <= nu <= UINT / UNIT
    ensures SbrkCount(nu) == nu * UNIT <==> nu < MAXUNITS
    ensures SbrkCount(nu) > 0 <==> nu < MAXUNITS
  {
    if nu == UINT / UNIT { assert nu * UNIT == UINT; }
  }

  lemma NunitsRange(nbytes: nat)
    requires nbytes < UINT
    ensures 1 <= Nunits(nbytes) <= UINT / UNIT
  {
  }

  // ---- what the caller sees ---------------------------------------------------------------

  /** The units of the block at `a` that follow its header. */
  ghost function Payload(mem: Memory, a: nat): seq<Header> {
    if a < |mem| && 1 <= mem[a].size && a + mem[a].size <= |mem| then mem[a + 1..a + mem[a].size] else []
  }

  /** Every live block and its contents: what malloc's users see of the heap. */
  ghost function Buffers(mem: Memory, fl: seq<nat>, home: Tiling): (r: map<nat, seq<Header>>)
    ensures r.Keys == Live(fl, home)
  {
    map a | a in Live(fl, home) :: Payload(mem, a)
  }

  lemma NoneLive(fl: seq<nat>)
    ensures Live(fl, map[]) == {}
  {
  }

  lemma BlockFits(mem: Memory, home: Tiling, a: nat)
    requires Tiled(mem, home) && Start(home, a)
    ensures 1 <= a && a < |mem| && 1 <= mem[a].size && a + mem[a].size <= |mem|
    ensures forall u :: a <= u < a + mem[a].size ==> u in home && home[u] == a
  {
    assert InBlock(mem, a, a + mem[a].size - 1);
    forall u | a <= u < a + mem[a].size ensures u in home && home[u] == a { assert InBlock(mem, a, u); }
  }

  lemma PayloadKept(mem: Memory, m: Memory, home: Tiling, live: set<nat>, a: nat)
    requires Tiled(mem, home) && Start(home, a) && a in live && LiveKept(mem, m, home, live)
    ensures Payload(m, a) == Payload(mem, a)
  {
    BlockFits(mem, home, a);
    assert m[a] == mem[a];
    assert m[a + 1..a + mem[a].size] == mem[a + 1..a + mem[a].size];
  }

  lemma FreedBuffers(mem: Memory, fl: seq<nat>, home: Tiling, b: nat, m: Memory, l: seq<nat>, h: Tiling)
    requires HeapOk(mem, fl, home) && Live(l, h) == Live(fl, home) - {b}
    requires LiveKept(mem, m, home, Live(fl, home) - {b})
    ensures Buffers(m, l, h) == Buffers(mem, fl, home) - {b}
  {
    hide Tiled, LiveKept, Payload;
    forall a | a in Live(fl, home) - {b} ensures Payload(m, a) == Payload(mem, a) {
      PayloadKept(mem, m, home, Live(fl, home) - {b}, a);
    }
  }

  lemma GainedBuffers(mem: Memory, fl: seq<nat>, home: Tiling, m: Memory, l: seq<nat>, h: Tiling, b: nat)
    requires HeapOk(mem, fl, home) && Gained(mem, fl, home, m, l, h, b)
    ensures Buffers(m, l, h) == Buffers(mem, fl, home)[b := Payload(m, b)]
  {
    hide Tiled, LiveKept, Payload, ListOk, Apart;
    forall a | a in Live(fl, home) ensures Payload(m, a) == Payload(mem, a) {
      PayloadKept(mem, m, home, Live(fl, home), a);
    }
  }

  lemma GainedSize(mem: Memory, fl: seq<nat>, home: Tiling, m: Memory, l: seq<nat>, h: Tiling, b: nat)
    requires Gained(mem, fl, home, m, l, h, b)
    ensures b < |m| && |Payload(m, b)| == m[b].size - 1
  {
    assert b in Live(l, h);
    BlockFits(m, h, b);
  }

  /** Steps from index `i` to index `f` around a circle of `n`. */
  function Dist(i: nat, f: nat, n: nat): nat
    requires i < n && f < n
  {
    if i <= f then f - i else f + n - i
  }

  ghost predicate Sorted(fl: seq<nat>) { forall i, j :: 0 <= i < j < |fl| ==> fl[i] < fl[j] }

  /** The test of free's loop. */
  predicate Stops(mem: Memory, p: nat, b: nat)
    requires p < |mem|
  {
    (b > p && b < mem[p].ptr) || (p >= mem[p].ptr && (b > p || b < mem[p].ptr))
  }

  /** Where a block at `b` belongs: behind the last free block below it. */
  ghost function SlotOf(fl: seq<nat>, b: nat): (k: nat)
    requires 0 < |fl| && fl[0] < b && b !in fl && Sorted(fl)
    ensures k < |fl| && fl[k] < b && (k + 1 < |fl| ==> b < fl[k + 1])
    decreases |fl|
  {
    var k := |fl| - 1;
    if fl[k] < b then k else assert b !in fl[..k]; SlotOf(fl[..k], b)
  }

  lemma LiveFacts(mem: Memory, fl: seq<nat>, home: Tiling, b: nat)
    requires HeapOk(mem, fl, home) && b in Live(fl, home)
    ensures ListOk(mem, fl) && 0 < |fl| && fl[0] < b < |mem| && b !in fl && Sorted(fl)
  {
    assert Start(home, b);
  }

  /** free's loop stops at list index `k` exactly when the new block belongs behind it. */
  lemma StopIff(mem: Memory, fl: seq<nat>, k: nat, b: nat)
    requires ListOk(mem, fl) && k < |fl| && fl[0] < b && b !in fl && Sorted(fl)
    ensures fl[k] < |mem| && (Stops(mem, fl[k], b) <==> k == SlotOf(fl, b))
  {
    var s := SlotOf(fl, b);
    assert mem[fl[k]].ptr == Next(fl, k);
    if k < s { assert fl[k + 1] <= fl[s]; }
    if s < k { assert fl[s + 1] <= fl[k]; }
  }

  /** A block with room is not `base`, and its predecessor comes just before it on the list. */
  lemma OnList(mem: Memory, fl: seq<nat>, home: Tiling, i: nat, j: nat)
    requires HeapOk(mem, fl, home) && i < |fl| && j < |fl| && Next(fl, j) == fl[i] && 1 <= mem[fl[i]].size
    ensures 1 <= i && j == i - 1 && fl[i] + mem[fl[i]].size <= |mem|
  {
    BlockFits(mem, home, fl[i]);
  }

  lemma DroppedKeeps(mem: Memory, fl: seq<nat>, home: Tiling, j: nat)
    requires HeapOk(mem, fl, home) && j + 1 < |fl|
    ensures j < |Dropped(fl, j + 1)| && Dropped(fl, j + 1)[j] == fl[j] && fl[j] != fl[j + 1]
  {
  }

  /** No free block has `n` units. */
  ghost predicate NoFit(mem: Memory, fl: seq<nat>, n: nat) {
    forall k :: 0 <= k < |fl| && fl[k] < |mem| ==> mem[fl[k]].size < n
  }

  function Succ(i: nat, n: nat): nat { if i + 1 < n then i + 1 else 0 }

  lemma DistStep(i: nat, f: nat, t: nat, n: nat)
    requires i < n && f < n && t < n
    ensures Dist(i, i, n) == 0
    ensures Dist(i, t, n) <= Dist(i, f, n) && i != t ==> i != f
    ensures i != f ==> Dist(Succ(i, n), f, n) < Dist(i, f, n)
    ensures (Dist(i, t, n) <= Dist(i, f, n) && i != t) || (i == f && f <= t <= f + 1) ==>
              Dist(Succ(i, n), t, n) <= Dist(Succ(i, n), f, n)
  {
  }

  /** Between freep's successor and index `i`, exclusively, no block has `n` units. */
  ghost predicate Passed(mem: Memory, fl: seq<nat>, i: nat, f: nat, n: nat)
    requires i < |fl| && f < |fl|
  {
    forall k :: 0 <= k < |fl| && fl[k] < |mem| && Dist(k, f, |fl|) > Dist(i, f, |fl|) ==> mem[fl[k]].size < n
  }

  lemma PassedStep(mem: Memory, fl: seq<nat>, i: nat, f: nat, n: nat)
    requires i < |fl| && f < |fl| && Passed(mem, fl, i, f, n) && fl[i] < |mem| && mem[fl[i]].size < n
    ensures i == f ==> NoFit(mem, fl, n)
    ensures i != f ==> Passed(mem, fl, Succ(i, |fl|), f, n)
  {
    forall k | 0 <= k < |fl| && k != i && fl[k] < |mem| ensures Dist(k, f, |fl|) != Dist(i, f, |fl|) {}
  }

  lemma PassedNone(mem: Memory, fl: seq<nat>, f: nat, n: nat)
    requires f < |fl|
    ensures Passed(mem, fl, Succ(f, |fl|), f, n)
  {
  }

  /** Where malloc's search stands at index `i`: before the heap grew nothing fitted since freep, and the
      heap is as it was; after that the block at `t` fits, and is met before freep is. */
  ghost predicate Seeking(mem: Memory, fl: seq<nat>, i: nat, f: nat, t: nat, n: nat, grown: bool, m0: Memory,
                          l0: seq<nat>) {
    && i < |fl| && f < |fl|
    && if grown then
         && t < |fl| && fl[t] < |mem| && n <= mem[fl[t]].size
         && Dist(i, t, |fl|) <= Dist(i, f, |fl|) && NoFit(m0, l0, n)
       else mem == m0 && fl == l0 && Passed(mem, fl, i, f, n)
  }

  lemma SeekFirst(mem: Memory, fl: seq<nat>, f: nat, n: nat)
    requires f < |fl| && Succ(f, |fl|) < |fl|
    ensures Seeking(mem, fl, Succ(f, |fl|), f, 0, n, false, mem, fl)
  {
    PassedNone(mem, fl, f, n);
  }

  /** The block at `i` is too small. */
  lemma SeekOn(mem: Memory, fl: seq<nat>, i: nat, f: nat, t: nat, n: nat, grown: bool, m0: Memory, l0: seq<nat>)
    requires Seeking(mem, fl, i, f, t, n, grown, m0, l0) && fl[i] < |mem| && mem[fl[i]].size < n
    ensures i == f ==> !grown && NoFit(m0, l0, n)
    ensures i != f ==> Seeking(mem, fl, Succ(i, |fl|), f, t, n, grown, m0, l0)
    ensures i != f ==> Dist(Succ(i, |fl|), f, |fl|) < Dist(i, f, |fl|)
  {
    hide Passed, NoFit, Dist;
    if !grown { PassedStep(mem, fl, i, f, n); }
    DistStep(i, f, if grown then t else f, |fl|);
  }

  /** The search goes on after the heap has grown. */
  lemma SeekGrown(mem: Memory, fl: seq<nat>, f: nat, t: nat, n: nat, m0: Memory, l0: seq<nat>)
    requires NoFit(m0, l0, n) && f < |fl| && f <= t <= f + 1 && t < |fl| && fl[t] < |mem| && n <= mem[fl[t]].size
    ensures Seeking(mem, fl, Succ(f, |fl|), f, t, n, true, m0, l0)
  {
    DistStep(f, f, t, |fl|);
  }

  lemma FitsBelow(mem: Memory, fl: seq<nat>, home: Tiling, i: nat)
    requires HeapOk(mem, fl, home) && i < |fl| && |mem| <= MAXUNITS
    ensures fl[i] < |mem| && mem[fl[i]].size < MAXUNITS
  {
    if 1 <= i { BlockFits(mem, home, fl[i]); }
  }

  /** The list behind the search's two pointers. */
  lemma Follow(mem: Memory, fl: seq<nat>, home: Tiling, i: nat)
    requires HeapOk(mem, fl, home) && i < |fl|
    ensures fl[i] < |mem| && mem[fl[i]].ptr == fl[Succ(i, |fl|)] == Next(fl, i) < |mem| && Succ(i, |fl|) < |fl|
  {
    assert mem[fl[i]].ptr == Next(fl, i);
  }

  /** An address is on the list once. */
  lemma OnePlace(mem: Memory, fl: seq<nat>, home: Tiling, i: nat, j: nat)
    requires HeapOk(mem, fl, home) && i < |fl| && j < |fl| && fl[i] == fl[j]
    ensures i == j
  {
  }

  /** Live blocks are disjoint, and lie in memory obtained from sbrk. */
  lemma LiveDisjoint(mem: Memory, fl: seq<nat>, home: Tiling, a: nat, b: nat)
    requires HeapOk(mem, fl, home) && a in Live(fl, home) && b in Live(fl, home) && a < b
    ensures a + 1 + |Buffers(mem, fl, home)[a]| <= b
    ensures b + 1 + |Buffers(mem, fl, home)[b]| <= |mem|
    ensures forall u :: a <= u < a + 1 + |Buffers(mem, fl, home)[a]| ==> u in home
  {
    BlockFits(mem, home, a);
    BlockFits(mem, home, b);
    BlocksDisjoint(mem, home, a, b);
  }

  lemma HeldSize(mem: Memory, fl: seq<nat>, home: Tiling, a: nat)
    requires HeapOk(mem, fl, home) && a in Live(fl, home)
    ensures a < |mem| && |Payload(mem, a)| == mem[a].size - 1 && a + mem[a].size <= |mem|
    ensures Buffers(mem, fl, home)[a] == Payload(mem, a)
  {
    BlockFits(mem, home, a);
  }

  /** A unit past a live block's header is no header, free or live. */
  lemma PastHeader(mem: Memory, fl: seq<nat>, home: Tiling, a: nat, u: nat)
    requires HeapOk(mem, fl, home) && a in Live(fl, home) && InBlock(mem, a, u) && a < u
    ensures u in home && home[u] == a && !Start(home, u) && u !in fl && u != BASE
  {
    assert Start(home, a);
  }

  lemma StoredHeap(mem: Memory, fl: seq<nat>, home: Tiling, u: nat, m: Memory)
    requires HeapOk(mem, fl, home) && Apart(mem, fl) && u !in fl && !Start(home, u) && u < |mem| == |m|
    requires m == mem[u := m[u]]
    ensures HeapOk(m, fl, home) && Apart(m, fl)
  {
    forall k | 0 <= k < |fl| ensures m[fl[k]] == mem[fl[k]] {}
    forall v | v in home ensures InBlock(m, home[v], v) {
      assert Start(home, home[v]) && InBlock(mem, home[v], v);
    }
    forall x: nat, v: nat | Start(home, x) && InBlock(m, x, v) ensures v in home && home[v] == x {
      assert InBlock(mem, x, v);
    }
    forall k {:trigger Next(fl, k)} | 0 <= k < |fl| - 1 ensures fl[k] + m[fl[k]].size < Next(fl, k) {
      assert fl[k] + mem[fl[k]].size < Next(fl, k);
    }
  }

  lemma StoredAt(mem: Memory, fl: seq<nat>, home: Tiling, a: nat, i: nat, value: Header, m: Memory)
    requires HeapOk(mem, fl, home) && Apart(mem, fl) && a in Live(fl, home) && i < |Payload(mem, a)|
    requires a + 1 + i < |mem| && m == mem[a + 1 + i := value]
    ensures HeapOk(m, fl, home) && Apart(m, fl) && Tiled(mem, home)
    ensures LiveKept(mem, m, home, Live(fl, home) - {a}) && Payload(m, a) == Payload(mem, a)[i := value]
  {
    hide ListOk, Tiled, ApartBut;
    assert InBlock(mem, a, a + 1 + i);
    PastHeader(mem, fl, home, a, a + 1 + i);
    StoredHeap(mem, fl, home, a + 1 + i, m);
  }

  lemma StoredOk(mem: Memory, fl: seq<nat>, home: Tiling, a: nat, i: nat, value: Header, m: Memory)
    requires HeapOk(mem, fl, home) && Apart(mem, fl) && a in Live(fl, home) && i < |Payload(mem, a)|
    requires a + 1 + i < |mem| && m == mem[a + 1 + i := value]
    ensures HeapOk(m, fl, home) && Apart(m, fl)
    ensures Buffers(m, fl, home) == Buffers(mem, fl, home)[a := Payload(mem, a)[i := value]]
  {
    hide HeapOk, Apart, LiveKept, Payload;
    StoredAt(mem, fl, home, a, i, value, m);
    forall x | x in Live(fl, home) - {a} ensures Payload(m, x) == Payload(mem, x) {
      PayloadKept(mem, m, home, Live(fl, home) - {a}, x);
    }
  }

  /** A program's step: the kernel's answers to sbrk are part of malloc's. */
  datatype Op = Alloc(nbytes: nat, grant: bool, skip: nat) | Release(a: nat) | Write(a: nat, i: nat, value: Header)

  /** Some operation frees or writes the block at `a`. */
  predicate Named(ops: seq<Op>, a: nat) {
    exists k :: 0 <= k < |ops| && !ops[k].Alloc? && ops[k].a == a
  }

  /** The live blocks with their contents, and where the heap ends. */
  datatype View = View(contents: map<nat, seq<Header>>, brk: nat)

  /** What a step does; `len` is the memory there is.  malloc makes a fresh block of the right size, or
      nothing if sbrk gives nothing; free takes the block away; a store changes one unit. */
  ghost predicate Did(op: Op, len: nat, s: View, t: View) {
    match op
    case Alloc(nbytes, grant, skip) =>
      || (t.contents == s.contents && (!grant || s.brk + skip + MoreUnits(Nunits(nbytes)) > len))
      || exists a :: NewBlock(s.contents, t.contents, a, Nunits(nbytes))
    case Release(a) => t.contents == s.contents - {a}
    case Write(a, i, value) =>
      t.contents == if a in s.contents && i < |s.contents[a]| then s.contents[a := s.contents[a][i := value]]
                    else s.contents
  }

  ghost predicate NewBlock(c: map<nat, seq<Header>>, c': map<nat, seq<Header>>, a: nat, n: nat) {
    a !in c && a in c' && c' == c[a := c'[a]] && |c'[a]| + 1 == n
  }

  /** The request that ends the process. */
  predicate Faults(op: Op) { op.Alloc? && Nunits(op.nbytes) >= MAXUNITS }

  ghost predicate Follows(ops: seq<Op>, done: nat, len: nat, states: seq<View>) {
    && done <= |ops| && |states| == done + 1
    && forall k :: 0 <= k < done ==> !Faults(ops[k]) && Did(ops[k], len, states[k], states[k + 1])
  }

  class Heap {
    var mem: seq<Header>   // all user memory, in units; unit 0 stands for the static `base`
    var freep: int         // -1 before the first malloc
    var brk: nat           // everything sbrk has returned lies below
    var dead: bool         // the process has made a store to memory it has not been given
    ghost var fl: seq<nat>
    ghost var f: nat       // freep's place on the list
    ghost var home: Tiling

    ghost predicate Valid()
      reads this
    {
      && !dead && 1 <= brk <= |mem| <= MAXUNITS && (forall u :: u in home ==> u < brk)
      && if freep < 0 then home == map[] else HeapOk(mem, fl, home) && Apart(mem, fl) && f < |fl| && fl[f] == freep
    }

    /** The live blocks and their contents. */
    ghost function Contents(): map<nat, seq<Header>>
      reads this
    {
      Buffers(mem, fl, home)
    }

    ghost function Now(): View
      reads this
    {
      View(Contents(), brk)
    }

    constructor (memory: seq<Header>, start: nat)
      requires 1 <= start <= |memory| <= MAXUNITS
      ensures Valid() && mem == memory && brk == start && Contents() == map[] && home == map[]
    {
      mem, freep, brk, dead, fl, f, home := memory, -1, start, false, [], 0, map[];
    }

    /** free's search: the free block behind which `bp` belongs. */
    method FindSlot(bp: nat) returns (p: nat, ghost k: nat)
      requires Valid() && freep >= 0 && bp in Live(fl, home)
      ensures k < |fl| && p == fl[k] && p < bp && (k + 1 < |fl| ==> bp < fl[k + 1])
      ensures p < |mem| && bp < |mem| && mem[p].ptr < |mem|
    {
      hide HeapOk, ListOk, Apart, Live, Sorted, Stops, SlotOf;
      LiveFacts(mem, fl, home, bp);
      ghost var s := SlotOf(fl, bp);
      p, k := freep, f;
      StopIff(mem, fl, k, bp);
      Follow(mem, fl, home, k);
      while !Stops(mem, p, bp)
        invariant k < |fl| && p == fl[k] && p < |mem| && mem[p].ptr == fl[Succ(k, |fl|)] && mem[p].ptr < |mem|
        invariant Stops(mem, p, bp) <==> k == s
        decreases Dist(k, s, |fl|)
      {
        p, k := mem[p].ptr, Succ(k, |fl|);
        StopIff(mem, fl, k, bp);
        Follow(mem, fl, home, k);
      }
    }

    /** free's two coalescing steps. */
    method Coalesce(p: nat, bp: nat)
      requires p < |mem| && bp < |mem| && mem[p].ptr < |mem|
      modifies this`mem, this`freep
      ensures mem == Freed(old(mem), p, bp) && freep == p
    {
      var nx := mem[p].ptr;
      if bp + mem[bp].size == nx {
        mem := mem[bp := Header(mem[nx].ptr, mem[bp].size + mem[nx].size)];
      } else {
        mem := mem[bp := Header(nx, mem[bp].size)];
      }
      if p + mem[p].size == bp {
        mem := mem[p := Header(mem[bp].ptr, mem[p].size + mem[bp].size)];
      } else {
        mem := mem[p := Header(bp, mem[p].size)];
      }
      freep := p;
    }

    /** free: the block leaves the live ones; the others keep their contents, and no unit is lost. */
    method Free(bp: nat) returns (ghost t: nat)
      requires Valid() && bp in Contents()
      modifies this`mem, this`freep, this`fl, this`f, this`home
      ensures Valid() && freep >= 0 && |mem| == old(|mem|)
      ensures Contents() == old(Contents()) - {bp}
      ensures home.Keys == old(home.Keys)
      ensures f <= t <= f + 1 && t < |fl| && bp < |mem| && fl[t] < |mem| && mem[fl[t]].size >= old(mem)[bp].size
    {
      hide HeapOk, Apart, Freed, Live, LiveKept, Buffers;
      NoneLive(fl);
      var p, k := FindSlot(bp);
      ghost var l, h := FreedOk(mem, fl, home, k, bp, Freed(mem, p, bp));
      t := if fl[k] + mem[fl[k]].size == bp then k else k + 1;
      FreedBuffers(mem, fl, home, bp, Freed(mem, p, bp), l, h);
      Coalesce(p, bp);
      fl, f, home := l, k, h;
    }

    /** A fresh region becomes a live block, which morecore then frees. */
    method Extend(a: nat, nu: nat)
      requires Valid() && freep >= 0 && brk <= a && 0 < nu && a + nu <= |mem|
      modifies this`mem, this`brk, this`home
      ensures Valid() && |mem| == old(|mem|) && mem[a].size == nu
      ensures a in Contents() && a !in old(Contents()) && Contents() - {a} == old(Contents())
      ensures home == GrownHome(old(home), a, nu)
    {
      hide HeapOk, Apart, Live, Buffers, LiveKept;
      ghost var m, h := mem[a := Header(mem[a].ptr, nu)], GrownHome(home, a, nu);
      GrownOk(mem, fl, home, a, nu, m, h);
      GainedBuffers(mem, fl, home, m, fl, h, a);
      mem, brk, home := mem[a := Header(mem[a].ptr, nu)], a + nu, h;
    }

    /** morecore: `grant` is the kernel's decision, `skip` what others have added to the break. */
    method MoreCore(nunits: nat, grant: bool, skip: nat) returns (r: Outcome, ghost t: nat)
      requires Valid() && freep >= 0 && 1 <= nunits <= UINT / UNIT
      modifies this
      ensures if r.Fault? then dead else Valid() && freep >= 0 && |mem| == old(|mem|) && Contents() == old(Contents())
      ensures r.Fault? <==> nunits >= MAXUNITS
      ensures r.Null? ==> mem == old(mem) && fl == old(fl) && home == old(home) && brk == old(brk)
      ensures r.Null? ==> !grant || brk + skip + MoreUnits(nunits) > |mem|
      ensures r.Block? ==> r.at == freep && f <= t <= f + 1 && t < |fl| && fl[t] < |mem| && nunits <= mem[fl[t]].size
      ensures r.Block? ==> home.Keys == GrownHome(old(home), old(brk) + skip, MoreUnits(nunits)).Keys
    {
      hide HeapOk, Apart, Live, Buffers, GrownHome;
      t := 0;
      var nu := MoreUnits(nunits);
      SbrkCountIff(nu);
      if SbrkCount(nu) <= 0 {
        // sbrk takes memory away, if it does anything, and hp->s.size is stored beyond what is left
        dead := true;
        return Fault, t;
      }
      var a := brk + skip;
      if !grant || a + nu > |mem| { return Null, t; }
      Extend(a, nu);
      t := Free(a);
      r := Block(freep);
    }

    /** The first call to malloc sets up a list of `base` alone. */
    method Init()
      requires Valid()
      modifies this
      ensures Valid() && freep >= 0 && |mem| == old(|mem|) && brk == old(brk) && home == old(home)
      ensures Contents() == old(Contents())
      ensures old(freep) >= 0 ==> mem == old(mem) && fl == old(fl)
      ensures old(freep) < 0 ==> fl == [BASE]
    {
      if freep < 0 {
        NoneLive(fl);
        mem := mem[BASE := Header(BASE, 0)];
        freep, fl, f := BASE, [BASE], 0;
        NoneLive(fl);
      }
    }

    /** An exact fit: unlink the block. */
    method TakeWhole(prevp: nat, p: nat, ghost j: nat)
      requires Valid() && freep >= 0 && j + 1 < |fl| && p == fl[j + 1] && prevp == fl[j] && p < |mem| && prevp < |mem|
      modifies this`mem, this`freep, this`fl, this`f
      ensures Valid() && freep >= 0 && |mem| == old(|mem|)
      ensures p !in old(Contents()) && Contents() == old(Contents())[p := Payload(mem, p)]
      ensures |Payload(mem, p)| == old(mem)[p].size - 1
    {
      hide HeapOk, Apart, Live, LiveKept, Dropped, Payload;
      DroppedKeeps(mem, fl, home, j);
      ghost var m, l := mem[prevp := Header(mem[p].ptr, mem[prevp].size)], Dropped(fl, j + 1);
      TakenWhole(mem, fl, home, j, m, l);
      GainedBuffers(mem, fl, home, m, l, home, p);
      GainedSize(mem, fl, home, m, l, home, p);
      mem := mem[prevp := Header(mem[p].ptr, mem[prevp].size)];
      freep, fl, f := prevp, l, j;
    }

    /** A larger block: its tail is the new block. */
    method TakeTail(prevp: nat, p: nat, nunits: nat, ghost i: nat, ghost j: nat) returns (q: nat)
      requires Valid() && freep >= 0 && 1 <= i < |fl| && p == fl[i] && p < |mem| && j < |fl| && prevp == fl[j]
      requires 1 <= nunits < mem[p].size && p + mem[p].size <= |mem|
      modifies this`mem, this`freep, this`f, this`home
      ensures Valid() && freep >= 0 && |mem| == old(|mem|) && home.Keys == old(home.Keys)
      ensures q !in old(Contents()) && Contents() == old(Contents())[q := Payload(mem, q)]
      ensures |Payload(mem, q)| == nunits - 1
    {
      hide HeapOk, Apart, Live, LiveKept, Payload;
      q := p + mem[p].size - nunits;
      ghost var m := mem[p := Header(mem[p].ptr, mem[p].size - nunits)][q := Header(mem[q].ptr, nunits)];
      ghost var h := SplitHome(home, p, q);
      TakenTail(mem, fl, home, i, nunits, q, m, h);
      GainedBuffers(mem, fl, home, m, fl, h, q);
      GainedSize(mem, fl, home, m, fl, h, q);
      mem := mem[p := Header(mem[p].ptr, mem[p].size - nunits)];
      mem := mem[q := Header(mem[q].ptr, nunits)];
      home := h;
      freep, f := prevp, j;
    }

    /** Take `nunits` from the block `p`, which has them, at list index `i`. */
    method Take(prevp: nat, p: nat, nunits: nat, ghost i: nat, ghost j: nat) returns (q: nat)
      requires Valid() && freep >= 0 && i < |fl| && j < |fl| && p == fl[i] && prevp == fl[j] && Next(fl, j) == fl[i]
      requires p < |mem| && prevp < |mem| && 1 <= nunits <= mem[p].size
      modifies this`mem, this`freep, this`fl, this`f, this`home
      ensures Valid() && freep >= 0 && |mem| == old(|mem|) && home.Keys == old(home.Keys)
      ensures q !in old(Contents()) && Contents() == old(Contents())[q := Payload(mem, q)]
      ensures |Payload(mem, q)| == nunits - 1
    {
      hide HeapOk, Apart, Live, Payload, Buffers;
      OnList(mem, fl, home, i, j);
      if mem[p].size == nunits {
        TakeWhole(prevp, p, j);
        return p;
      }
      q := TakeTail(prevp, p, nunits, i, j);
    }

    /** malloc: either a new block of the right size, disjoint from every live one and fresh to the
        caller, or failure with nothing changed; the heap grows only when no free block is large enough. */
    method Malloc(nbytes: nat, grant: bool, skip: nat) returns (r: Outcome)
      requires Valid() && nbytes < UINT
      modifies this
      ensures if r.Fault? then dead else Valid() && |mem| == old(|mem|)
      ensures r.Block? ==> r.at !in old(Contents()) && Contents() == old(Contents())[r.at := Payload(mem, r.at)]
      ensures r.Block? ==> |Payload(mem, r.at)| == Nunits(nbytes) - 1
      ensures r.Null? ==> Contents() == old(Contents()) && home == old(home)
      ensures r.Fault? <==> Nunits(nbytes) >= MAXUNITS
      ensures r.Null? ==> !grant || old(brk) + skip + MoreUnits(Nunits(nbytes)) > |mem|
      ensures !r.Fault? && home.Keys != old(home.Keys) ==>
                home.Keys == GrownHome(old(home), old(brk) + skip, MoreUnits(Nunits(nbytes))).Keys
      ensures old(freep) >= 0 && !r.Fault? && (r.Null? || home.Keys != old(home.Keys)) ==>
                NoFit(old(mem), old(fl), Nunits(nbytes))
    {
      hide HeapOk, Apart, Live, Payload, Buffers, Nunits, GrownHome, NoFit, Seeking, Passed, Dist, Succ, Next;
      NunitsRange(nbytes);
      var nunits := Nunits(nbytes);
      Init();
      ghost var m0, l0, grown := mem, fl, false;
      ghost var t: nat := 0;
      var prevp: nat := freep;
      Follow(mem, fl, home, f);
      var p := mem[prevp].ptr;
      ghost var j: nat, i: nat := f, Succ(f, |fl|);
      SeekFirst(mem, fl, f, nunits);
      while true
        invariant Valid() && freep >= 0 && |mem| == old(|mem|) && i < |fl| && j < |fl|
        invariant p == fl[i] && prevp == fl[j] && Next(fl, j) == p && Contents() == old(Contents())
        invariant Seeking(mem, fl, i, f, t, nunits, grown, m0, l0) && (grown ==> NoFit(m0, l0, nunits))
        invariant home.Keys == if grown then GrownHome(old(home), old(brk) + skip, MoreUnits(nunits)).Keys
                               else old(home.Keys)
        invariant !grown ==> home == old(home) && brk == old(brk)
        decreases !grown, Dist(i, f, |fl|)
      {
        Follow(mem, fl, home, i);
        if mem[p].size >= nunits {
          FitsBelow(mem, fl, home, i);
          Follow(mem, fl, home, j);
          var q := Take(prevp, p, nunits, i, j);
          return Block(q);
        }
        SeekOn(mem, fl, i, f, t, nunits, grown, m0, l0);
        if p == freep {
          OnePlace(mem, fl, home, i, f);
          var more;
          more, t := MoreCore(nunits, grant, skip);
          if !more.Block? { return more; }
          p, i, grown := more.at, f, true;
          SeekGrown(mem, fl, f, t, nunits, m0, l0);
        }
        Follow(mem, fl, home, i);
        prevp, p := p, mem[p].ptr;
        j, i := i, Succ(i, |fl|);
      }
      assert false;
    }

    /** The program writes into a block it holds, past the header. */
    method Store(a: nat, i: nat, value: Header)
      requires Valid() && a in Contents() && i < |Contents()[a]|
      modifies this`mem
      ensures Valid() && |mem| == old(|mem|)
      ensures Contents() == old(Contents())[a := old(Contents())[a][i := value]]
    {
      hide HeapOk, Apart, Live, Payload, Buffers;
      NoneLive(fl);
      HeldSize(mem, fl, home, a);
      StoredOk(mem, fl, home, a, i, value, mem[a + 1 + i := value]);
      mem := mem[a + 1 + i := value];
    }

    /** One step of a program that names only blocks it holds. */
    method Step(op: Op, held: set<nat>) returns (held': set<nat>)
      requires Valid() && held == Contents().Keys && (op.Alloc? ==> op.nbytes < UINT)
      modifies this
      ensures if Faults(op) then dead else Valid() && |mem| == old(|mem|) && held' == Contents().Keys
      ensures !Faults(op) ==> Did(op, |mem|, old(Now()), Now())
    {
      hide HeapOk, Apart, Live, Payload, Buffers, Nunits, GrownHome, MoreUnits;
      held' := held;
      match op {
        case Alloc(nbytes, grant, skip) =>
          var r := Malloc(nbytes, grant, skip);
          if r.Block? {
            held' := held + {r.at};
            assert NewBlock(old(Contents()), Contents(), r.at, Nunits(nbytes));
          }
        case Release(a) =>
          if a in held {
            var _ := Free(a);
            held' := held - {a};
          }
        case Write(a, i, value) =>
          if a in held {
            NoneLive(fl);
            HeldSize(mem, fl, home, a);
            if i + 1 < mem[a].size { Store(a, i, value); }
          }
      }
    }

    /** Any program of malloc, free and stores through the pointers it holds, up to a request that ends
        it: the heap stays valid, and each step does to the live blocks what it says. */
    method Run(ops: seq<Op>, start: set<nat>) returns (held: set<nat>, done: nat, ghost states: seq<View>)
      requires Valid() && start == Contents().Keys
      requires forall k :: 0 <= k < |ops| && ops[k].Alloc? ==> ops[k].nbytes < UINT
      modifies this
      ensures Follows(ops, done, old(|mem|), states) && states[0] == old(Now())
      ensures done < |ops| ==> Faults(ops[done]) && dead
      ensures done == |ops| ==> Valid() && held == Contents().Keys && states[done] == Now()
    {
      hide HeapOk, Apart, Live, Payload, Buffers, Nunits, GrownHome, Did;
      held, done, states := start, 0, [Now()];
      while done < |ops|
        invariant Valid() && |mem| == old(|mem|) && held == Contents().Keys
        invariant Follows(ops, done, |mem|, states) && states[0] == old(Now()) && states[done] == Now()
      {
        held := Step(ops[done], held);
        if dead { return; }
        states, done := states + [Now()], done + 1;
      }
    }
  }

  /** A block that no operation names keeps its contents. */
  lemma {:induction false} UnnamedKept(ops: seq<Op>, done: nat, len: nat, states: seq<View>, a: nat)
    requires Follows(ops, done, len, states) && a in states[0].contents && !Named(ops, a)
    ensures a in states[done].contents && states[done].contents[a] == states[0].contents[a]
    decreases done
  {
    if done > 0 {
      assert Follows(ops, done - 1, len, states[..done]);
      UnnamedKept(ops, done - 1, len, states[..done], a);
      assert Did(ops[done - 1], len, states[done - 1], states[done]);
    }
  }
}
