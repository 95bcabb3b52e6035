/** The scheduler of scheduler.c as functions of the process table and the MLFQ's own fields:
    reduce, boost, the choice of the next process, and the accounting after its turn. Pass
    values are natural numbers. */
module SchedState {
  import opened Circle

  const TICKETS: nat := 10000
  const MAXPASS: nat := 100000000
  const BOOST: nat := 200
  const LOWEST: nat := 2      // LQLEV

  datatype Kind = None | Mlfq | Stride

  datatype Proc = Proc(kind: Kind, runnable: bool, qlev: nat, ticks: nat, share: nat, pass: nat)

  /** share, pass, boosted and pin are the static `mlfq`. */
  datatype State = State(procs: seq<Proc>, share: nat, pass: nat, boosted: nat, pin: nat)

  predicate Ready(p: Proc, kind: Kind) { p.kind == kind && p.runnable }

  /** What the code relies on: a pin on the table, queue levels with a quantum, shares to divide by. */
  ghost predicate Wf(s: State) {
    && s.pin < |s.procs| && 0 < s.share
    && (forall i :: 0 <= i < |s.procs| ==> s.procs[i].qlev <= LOWEST)
    && (forall i :: 0 <= i < |s.procs| && s.procs[i].kind == Stride ==> 0 < s.procs[i].share)
  }

  // ---- reduce and boost -------------------------------------------------------------------

  predicate HoldsBack(p: Proc) { p.kind == Stride && p.pass < MAXPASS }

  predicate Reducible(s: State) {
    MAXPASS <= s.pass && forall i :: 0 <= i < |s.procs| ==> !HoldsBack(s.procs[i])
  }

  function Lowered(p: Proc): Proc
    requires !HoldsBack(p)
  {
    if p.kind == Stride then p.(pass := p.pass - MAXPASS) else p
  }

  function Reduced(s: State): State {
    if Reducible(s) then
      s.(pass := s.pass - MAXPASS, procs := seq(|s.procs|, i requires 0 <= i < |s.procs| => Lowered(s.procs[i])))
    else s
  }

  function Raised(p: Proc): Proc {
    if p.kind == Mlfq && p.qlev > 0 then p.(qlev := 0, pass := 0) else p
  }

  function Boosted(s: State): State {
    if s.boosted < BOOST then s
    else s.(boosted := 0, procs := seq(|s.procs|, i requires 0 <= i < |s.procs| => Raised(s.procs[i])))
  }

  // ---- the choice ---------------------------------------------------------------------------

  /** getstrideproc over the first `n` entries: the least pass, the first of equals. */
  function StrideIn(procs: seq<Proc>, n: nat): (r: int)
    requires n <= |procs|
    ensures -1 <= r < n
    ensures r < 0 ==> forall j :: 0 <= j < n ==> !Ready(procs[j], Stride)
    ensures r >= 0 ==> Ready(procs[r], Stride)
    ensures r >= 0 ==> forall j :: 0 <= j < n && Ready(procs[j], Stride) ==> procs[r].pass <= procs[j].pass
    ensures r >= 0 ==> forall j :: 0 <= j < r && Ready(procs[j], Stride) ==> procs[r].pass < procs[j].pass
  {
    if n == 0 then -1 else
    var r := StrideIn(procs, n - 1);
    if Ready(procs[n - 1], Stride) && (r < 0 || procs[n - 1].pass < procs[r].pass) then n - 1 else r
  }

  /** getmlfqproc from `d` places after the pin on: the first ready MLFQ process. */
  function MlfqFrom(procs: seq<Proc>, pin: nat, d: nat): (r: int)
    requires pin < |procs| && 1 <= d <= |procs|
    ensures -1 <= r < |procs|
    ensures r < 0 ==> forall e :: d <= e <= |procs| ==> !Ready(procs[At(pin, e, |procs|)], Mlfq)
    ensures r >= 0 ==> Ready(procs[r], Mlfq) && d <= Gap(pin, r, |procs|)
    ensures r >= 0 ==> forall e :: d <= e < Gap(pin, r, |procs|) ==> !Ready(procs[At(pin, e, |procs|)], Mlfq)
    decreases |procs| - d
  {
    var k := At(pin, d, |procs|);
    if Ready(procs[k], Mlfq) then k else if d == |procs| then -1 else MlfqFrom(procs, pin, d + 1)
  }

  /** The search at entry `p`, `d` places after the pin. */
  lemma FromStep(procs: seq<Proc>, pin: nat, d: nat, p: nat)
    requires pin < |procs| && 1 <= d <= |procs| && p < |procs| && (p == pin + d || p == pin + d - |procs|)
    ensures Ready(procs[p], Mlfq) ==> MlfqFrom(procs, pin, d) == p
    ensures !Ready(procs[p], Mlfq) && p == pin ==> MlfqFrom(procs, pin, d) == -1
    ensures !Ready(procs[p], Mlfq) && p != pin ==> d < |procs| && MlfqFrom(procs, pin, d) == MlfqFrom(procs, pin, d + 1)
  {
  }

  function Choose(procs: seq<Proc>, mlfqPass: nat, a: int, b: int): int
    requires a < |procs|
  {
    if a >= 0 && b >= 0 then (if procs[a].pass < mlfqPass then a else b) else if a >= 0 then a else b
  }

  /** getschedproc's answer. */
  function Pick(s: State): (k: int)
    requires s.pin < |s.procs|
    ensures -1 <= k < |s.procs|
  {
    Choose(s.procs, s.pass, StrideIn(s.procs, |s.procs|), MlfqFrom(s.procs, s.pin, 1))
  }

  function Pinned(s: State, k: int): State
    requires 0 <= k < |s.procs|
  {
    if s.procs[k].kind == Mlfq then s.(pin := k) else s
  }

  // ---- a turn and its accounting --------------------------------------------------------------

  function Quantum(p: Proc): (q: nat)
    ensures 5 <= q <= 20 && (p.kind == Stride ==> q == 5)
  {
    if p.kind == Stride then 5 else if p.qlev == 0 then 5 else if p.qlev == 1 then 10 else 20
  }

  /** The turn ends when the process blocks, at its `want`-th call of sched, or with its quantum. */
  function TurnTicks(p: Proc, want: nat): (t: nat)
    ensures 1 <= want ==> 1 <= t <= Quantum(p)
  {
    if want < Quantum(p) then want else Quantum(p)
  }

  function Ticked(p: Proc, t: nat): Proc {
    p.(ticks := t, pass := if p.kind == Mlfq then p.pass + t else p.pass)
  }

  function Allotment(qlev: nat): nat { if qlev == 0 then 20 else 40 }

  function Demoted(p: Proc): Proc {
    if p.kind == Mlfq && p.qlev < LOWEST && p.pass >= Allotment(p.qlev) then p.(qlev := p.qlev + 1, pass := 0) else p
  }

  /** What a turn of `t` ticks costs a client with `share`. */
  function Cost(t: nat, share: nat): nat
    requires 0 < share
  {
    TICKETS * t / share
  }

  /** The accounting once process `k` is back, its ticks counted. */
  function Charged(s: State, k: nat): State
    requires k < |s.procs| && 0 < s.share && (s.procs[k].kind == Stride ==> 0 < s.procs[k].share)
  {
    var p := s.procs[k];
    if p.kind == Stride then s.(procs := s.procs[k := p.(pass := p.pass + Cost(p.ticks, p.share))])
    else s.(pass := s.pass + Cost(p.ticks, s.share), boosted := s.boosted + p.ticks, procs := s.procs[k := Demoted(p)])
  }

  function Prepared(s: State): State { Boosted(Reduced(s)) }

  lemma PreparedWf(s: State)
    requires Wf(s)
    ensures Wf(Reduced(s)) && Wf(Prepared(s)) && |Prepared(s).procs| == |s.procs|
  {
  }

  /** The process that one pass of the scheduler's loop dispatches, or -1. */
  function Dispatched(s: State): (k: int)
    requires Wf(s)
  {
    PreparedWf(s);
    Pick(Prepared(s))
  }

  /** The rest of a round once `k` is chosen. */
  function Finished(s: State, k: nat, want: nat): (r: State)
    requires Wf(s) && k < |s.procs|
    ensures Wf(r) && |r.procs| == |s.procs|
  {
    var p := Pinned(s, k);
    Charged(p.(procs := p.procs[k := Ticked(p.procs[k], TurnTicks(p.procs[k], want))]), k)
  }

  /** One pass of the scheduler's loop; `want` is when the chosen process would block. */
  function Round(s: State, want: nat): (r: State)
    requires Wf(s)
    ensures Wf(r) && |r.procs| == |s.procs|
  {
    PreparedWf(s);
    var k := Pick(Prepared(s));
    if k < 0 then Prepared(s) else
    Finished(Prepared(s), k, want)
  }

  // ---- reduce is invisible ----------------------------------------------------------------------

  lemma {:induction false} StrideShifted(procs: seq<Proc>, q: seq<Proc>, n: nat)
    requires n <= |procs| == |q|
    requires forall i :: 0 <= i < |procs| ==> Ready(q[i], Stride) == Ready(procs[i], Stride)
    requires forall i :: 0 <= i < |procs| && procs[i].kind == Stride ==> q[i].pass == procs[i].pass - MAXPASS
    ensures StrideIn(q, n) == StrideIn(procs, n)
  {
    if n > 0 { StrideShifted(procs, q, n - 1); }
  }

  lemma {:induction false} MlfqSame(procs: seq<Proc>, q: seq<Proc>, pin: nat, d: nat)
    requires pin < |procs| == |q| && 1 <= d <= |procs|
    requires forall i :: 0 <= i < |procs| ==> Ready(q[i], Mlfq) == Ready(procs[i], Mlfq)
    ensures MlfqFrom(q, pin, d) == MlfqFrom(procs, pin, d)
    decreases |procs| - d
  {
    if d < |procs| { MlfqSame(procs, q, pin, d + 1); }
  }

  lemma SamePick(s: State)
    requires s.pin < |s.procs| && Reducible(s)
    ensures Pick(Reduced(s)) == Pick(s)
  {
    var r := Reduced(s);
    assert forall i :: 0 <= i < |s.procs| ==> r.procs[i] == Lowered(s.procs[i]) && !HoldsBack(s.procs[i]);
    StrideShifted(s.procs, r.procs, |s.procs|);
    MlfqSame(s.procs, r.procs, s.pin, 1);
  }

  /** reduce changes no difference of passes, no queue level and no choice. */
  lemma ReduceInvisible(s: State)
    requires s.pin < |s.procs|
    ensures var r := Reduced(s);
      && |r.procs| == |s.procs| && r.pin == s.pin
      && Pick(r) == Pick(s)
      && (forall i :: 0 <= i < |s.procs| && s.procs[i].kind == Stride ==>
        r.procs[i].pass - r.pass == s.procs[i].pass - s.pass)
      && (forall i :: 0 <= i < |s.procs| && s.procs[i].kind != Stride ==> r.procs[i] == s.procs[i])
  {
    hide Pick, StrideIn, MlfqFrom;
    if Reducible(s) { SamePick(s); }
  }

  /** A sleeping STRIDE process below MAXPASS keeps every pass as it is. */
  lemma HeldBack(s: State, i: nat)
    requires i < |s.procs| && s.procs[i].kind == Stride && s.procs[i].pass < MAXPASS
    ensures Reduced(s) == s
  {
    assert HoldsBack(s.procs[i]);
  }
}
