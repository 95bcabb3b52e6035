/** pipe.c: a ring of PIPESIZE bytes between unsigned counters that wrap around, against the
    unbounded history of everything ever stored. */
module PipeRing {
  import opened Arith

  const PIPESIZE: nat := 512

  // ---- why the counters may wrap -----------------------------------------------------------------

  /** Slots survive the wrap-around of the counters exactly for ring sizes that divide 2^32. */
  lemma RingSizeIff(size: nat)
    requires 0 < size
    ensures (forall k: nat :: Slot(Wrap(k), size) == Slot(k, size)) <==> UINT % size == 0
  {
    if UINT % size == 0 {
      forall k: nat ensures Slot(Wrap(k), size) == Slot(k, size) { SlotWraps(k, size); }
    } else {
      assert Slot(Wrap(UINT), size) == 0 && Slot(UINT, size) != 0;
    }
  }

  function Slot(k: nat, size: nat): (s: nat)
    requires 0 < size
    ensures s < size
  {
    k % size
  }

  /** A count in an unsigned int. */
  function Wrap(k: nat): nat { k % UINT }

  lemma SlotWraps(k: nat, size: nat)
    requires 0 < size && UINT % size == 0
    ensures Slot(Wrap(k), size) == Slot(k, size)
  {
    var m := UINT / size;
    var q := k / UINT;
    assert k == q * UINT + k % UINT;
    assert q * UINT == size * (q * m) by { assert UINT == size * m; }
    ModAddMultiple(k % UINT, q * m, size);
  }

  lemma WrapNext(k: nat)
    ensures Wrap(Wrap(k) + 1) == Wrap(k + 1)
  {
  }

  /** Bytes less than a ring apart lie in different slots. */
  lemma SlotsApart(k: nat, n: nat)
    requires k < n < k + PIPESIZE
    ensures Slot(k, PIPESIZE) != Slot(n, PIPESIZE)
  {
  }

  /** The two tests on the wrapped counters, on the counts themselves. */
  lemma WrapTests(taken: nat, n: nat)
    requires taken <= n <= taken + PIPESIZE
    ensures Wrap(n) == Wrap(Wrap(taken) + PIPESIZE) <==> n == taken + PIPESIZE
    ensures Wrap(taken) == Wrap(n) <==> n == taken
  {
  }

  /** What a writer comes to: all its bytes stored, or the ring full; then it sleeps or gives up. */
  datatype Outcome = Done | Asleep | Failed

  datatype Op = Write(addr: seq<char>, killed: bool) | Read(n: nat, dead: bool) | CloseRead | CloseWrite

  /** A pipe as its users know it: every byte ever written, how many have been read, and which ends are open. */
  datatype View = View(stored: seq<char>, taken: nat, readopen: bool, writeopen: bool) {
    predicate Valid() { taken <= |stored| <= taken + PIPESIZE }
  }

  function Least(a: nat, b: nat): nat { if a < b then a else b }

  /** What a segment of a writer or of a reader makes of it. */
  function After(v: View, op: Op): (w: View)
    requires v.Valid()
    ensures w.Valid()
  {
    match op
    case Write(addr, killed) => v.(stored := v.stored + addr[..Least(|addr|, v.taken + PIPESIZE - |v.stored|)])
    case Read(n, dead) =>
      v.(taken := v.taken + if v.taken == |v.stored| && v.writeopen then 0 else Least(n, |v.stored| - v.taken))
    case CloseRead => v.(readopen := false)
    case CloseWrite => v.(writeopen := false)
  }

  /** The first `k` of them. */
  function AfterAll(v: View, ops: seq<Op>, k: nat): (w: View)
    requires v.Valid() && k <= |ops|
    ensures w.Valid()
  {
    if k == 0 then v else After(AfterAll(v, ops, k - 1), ops[k - 1])
  }

  class Pipe {
    const data: array<char>
    var nread: nat
    var nwrite: nat
    var readopen: bool
    var writeopen: bool
    ghost var stored: seq<char>   // every byte ever written, in order
    ghost var taken: nat          // how many of them have been read

    ghost predicate Valid()
      reads this, data
    {
      && data.Length == PIPESIZE && taken <= |stored| <= taken + PIPESIZE
      && nread == Wrap(taken) && nwrite == Wrap(|stored|)
      && forall k :: taken <= k < |stored| ==> data[Slot(k, PIPESIZE)] == stored[k]
    }

    ghost function Now(): View
      reads this
    {
      View(stored, taken, readopen, writeopen)
    }

    constructor ()
      ensures Valid() && stored == [] && taken == 0 && readopen && writeopen && fresh(data)
    {
      data := new char[PIPESIZE];
      nread, nwrite, readopen, writeopen, stored, taken := 0, 0, true, true, [], 0;
    }

    /** The two tests on the wrapped counters mean what they would mean on the history. */
    lemma Tests()
      requires Valid()
      ensures nwrite == Wrap(nread + PIPESIZE) <==> |stored| == taken + PIPESIZE
      ensures nread == nwrite <==> |stored| == taken
    {
      WrapTests(taken, |stored|);
    }

    /** Store one byte. */
    method Put(c: char)
      requires Valid() && |stored| < taken + PIPESIZE
      modifies this`nwrite, this`stored, data
      ensures Valid() && stored == old(stored) + [c]
    {
      hide Slot, Wrap;
      ghost var n := |stored|;
      SlotWraps(n, PIPESIZE);
      WrapNext(n);
      forall k | taken <= k < n ensures Slot(k, PIPESIZE) != Slot(n, PIPESIZE) { SlotsApart(k, n); }
      data[Slot(nwrite, PIPESIZE)] := c;
      nwrite := Wrap(nwrite + 1);
      stored := stored + [c];
    }

    /** Take the oldest byte. */
    method Get() returns (c: char)
      requires Valid() && taken < |stored|
      modifies this`nread, this`taken
      ensures Valid() && taken == old(taken) + 1 && c == stored[old(taken)]
    {
      hide Slot, Wrap;
      SlotWraps(taken, PIPESIZE);
      WrapNext(taken);
      c := data[Slot(nread, PIPESIZE)];
      nread := Wrap(nread + 1);
      taken := taken + 1;
    }

    /** pipewrite from byte `i` on, up to its end or its next sleep. */
    method WriteSegment(addr: seq<char>, i: nat, killed: bool) returns (j: nat, r: Outcome)
      requires Valid() && i <= |addr|
      modifies this`nwrite, this`stored, data
      ensures Valid() && i <= j <= |addr| && stored == old(stored) + addr[i..j]
      ensures r == Done <==> j == |addr|
      ensures j < |addr| ==> |stored| == taken + PIPESIZE && (r == Failed <==> !readopen || killed)
    {
      hide Slot, Wrap;
      j := i;
      while j < |addr|
        invariant Valid() && i <= j <= |addr| && stored == old(stored) + addr[i..j]
      {
        Tests();
        if nwrite == Wrap(nread + PIPESIZE) {
          return j, if !readopen || killed then Failed else Asleep;
        }
        Put(addr[j]);
        assert addr[i..j + 1] == addr[i..j] + [addr[j]];
        j := j + 1;
      }
      r := Done;
    }

    /** piperead once it has something to return: the oldest bytes, as many as there are and fit. */
    method ReadSegment(n: nat, dead: bool) returns (got: seq<char>, r: Outcome)
      requires Valid()
      modifies this`nread, this`taken
      ensures Valid() && taken == old(taken) + |got| <= |stored| && got == stored[old(taken)..taken]
      ensures r == Done ==> |got| == if |stored| - old(taken) < n then |stored| - old(taken) else n
      ensures r != Done ==> got == [] && old(taken) == |stored| && writeopen && (r == Failed <==> dead)
      ensures old(taken) == |stored| && writeopen ==> r != Done
    {
      hide Slot, Wrap;
      got := [];
      Tests();
      if nread == nwrite && writeopen { return [], if dead then Failed else Asleep; }
      while |got| < n
        invariant Valid() && taken == old(taken) + |got| <= |stored| && got == stored[old(taken)..taken] && |got| <= n
      {
        Tests();
        if nread == nwrite { break; }
        var c := Get();
        got := got + [c];
      }
      r := Done;
    }

    /** One segment: a writer stores what fits, a reader gets the oldest bytes. */
    method Step(op: Op) returns (got: seq<char>, put: seq<char>)
      requires Valid()
      modifies this, data
      ensures Valid() && Now() == After(old(Now()), op)
      ensures stored == old(stored) + put && taken == old(taken) + |got| && got == stored[old(taken)..taken]
    {
      hide Slot, Wrap;
      got, put := [], [];
      match op {
        case Write(addr, killed) =>
          var j, _ := WriteSegment(addr, 0, killed);
          put := addr[..j];
        case Read(n, dead) =>
          var r;
          got, r := ReadSegment(n, dead);
        case CloseRead => readopen := false;
        case CloseWrite => writeopen := false;
      }
    }

    /** Any interleaving of segments of writers and readers: each writer stores what fits, each reader gets the
        oldest bytes, and what was read is what was stored, in order. */
    method Run(ops: seq<Op>) returns (got: seq<char>, put: seq<char>)
      requires Valid()
      modifies this, data
      ensures Valid() && Now() == AfterAll(old(Now()), ops, |ops|)
      ensures stored == old(stored) + put && taken == old(taken) + |got| && got == stored[old(taken)..taken]
      ensures 0 <= |stored| - taken <= PIPESIZE
    {
      hide Slot, Wrap, After;
      got, put := [], [];
      for i := 0 to |ops|
        invariant Valid() && Now() == AfterAll(old(Now()), ops, i)
        invariant stored == old(stored) + put && taken == old(taken) + |got| && got == stored[old(taken)..taken]
      {
        var more, also := Step(ops[i]);
        got, put := got + more, put + also;
      }
    }
  }
}
