/** Bounded waiting: an MLFQ process that stays RUNNABLE is dispatched within an explicit number
    of rounds, whatever the other processes do. */
module SchedWait {
  import opened Arith
  import opened Circle
  import opened SchedState
  import opened SchedFair

  const LEAST: nat := 125    // what a STRIDE turn of one tick costs at the largest share, 80
  const MOST: nat := 80      // what an MLFQ turn of 20 ticks costs at the least share, 20, in LEASTs

  /** The shares that set_cpu_share allows. */
  ghost predicate SharesOk(s: State) {
    20 <= s.share && forall i :: 0 <= i < |s.procs| && s.procs[i].kind == Stride ==> s.procs[i].share <= 80
  }

  /** How many turns at most STRIDE process `p` is entitled to before the MLFQ, in units of LEAST. */
  function Lead(p: Proc, mlfqPass: nat): nat {
    if p.kind == Stride && p.pass < mlfqPass then (mlfqPass - p.pass + LEAST - 1) / LEAST else 0
  }

  function Debt(procs: seq<Proc>, mlfqPass: nat, n: nat): nat
    requires n <= |procs|
  {
    if n == 0 then 0 else Debt(procs, mlfqPass, n - 1) + Lead(procs[n - 1], mlfqPass)
  }

  function Strides(procs: seq<Proc>, n: nat): nat
    requires n <= |procs|
  {
    if n == 0 then 0 else Strides(procs, n - 1) + if procs[n - 1].kind == Stride then 1 else 0
  }

  /** The rounds that may pass before `w` runs. */
  function Bound(s: State, w: nat): (b: nat)
    requires s.pin < |s.procs| && w < |s.procs|
    ensures 1 <= b
  {
    Least(Gap(s.pin, w, |s.procs|), Strides(s.procs, |s.procs|));
    Gap(s.pin, w, |s.procs|) * (1 + MOST * Strides(s.procs, |s.procs|)) + Debt(s.procs, s.pass, |s.procs|)
  }

  lemma Least(gap: nat, k: nat)
    requires 1 <= gap
    ensures gap <= gap * (1 + MOST * k)
  {
  }

  // ---- how the debt moves ------------------------------------------------------------------------

  /** Entries with the same distance to the MLFQ's pass owe the same. */
  lemma {:induction false} DebtSame(procs: seq<Proc>, pass: nat, q: seq<Proc>, pass': nat, n: nat)
    requires n <= |procs| == |q|
    requires forall i :: 0 <= i < n ==> (q[i].kind == Stride <==> procs[i].kind == Stride)
    requires forall i :: 0 <= i < n && procs[i].kind == Stride ==> q[i].pass - pass' == procs[i].pass - pass
    ensures Debt(q, pass', n) == Debt(procs, pass, n) && Strides(q, n) == Strides(procs, n)
  {
    if n > 0 { DebtSame(procs, pass, q, pass', n - 1); }
  }

  lemma LeadDrops(p: Proc, q: Proc, pass: nat)
    requires p.kind == Stride && q.kind == Stride && p.pass < pass && p.pass + LEAST <= q.pass
    ensures Lead(q, pass) < Lead(p, pass)
  {
  }

  /** A STRIDE turn of a process below the MLFQ's pass pays off at least one unit. */
  lemma {:induction false} DebtPaid(procs: seq<Proc>, pass: nat, k: nat, q: Proc, n: nat)
    requires n <= |procs| && k < |procs| && procs[k].kind == Stride && q.kind == Stride
    requires procs[k].pass < pass && procs[k].pass + LEAST <= q.pass
    ensures Debt(procs[k := q], pass, n) <= Debt(procs, pass, n) - (if k < n then 1 else 0)
    ensures Strides(procs[k := q], n) == Strides(procs, n)
  {
    if n > 0 {
      DebtPaid(procs, pass, k, q, n - 1);
      if k == n - 1 { LeadDrops(procs[k], q, pass); }
    }
  }

  lemma LeadGrows(p: Proc, pass: nat, d: nat)
    requires d <= MOST * LEAST
    ensures Lead(p, pass + d) <= Lead(p, pass) + MOST
  {
  }

  /** An MLFQ turn adds at most MOST units for every STRIDE process. */
  lemma {:induction false} DebtGrows(procs: seq<Proc>, pass: nat, d: nat, n: nat)
    requires n <= |procs| && d <= MOST * LEAST
    ensures Debt(procs, pass + d, n) <= Debt(procs, pass, n) + MOST * Strides(procs, n)
  {
    if n > 0 {
      DebtGrows(procs, pass, d, n - 1);
      LeadGrows(procs[n - 1], pass, d);
    }
  }

  lemma LeastCost(t: nat, share: nat)
    requires 1 <= t && 0 < share <= 80
    ensures LEAST <= Cost(t, share)
  {
    var q := Cost(t, share);
    CostBounds(t, share);
    MulMono(q, share, 80);
  }

  lemma MostCost(t: nat, share: nat)
    requires t <= 20 <= share
    ensures Cost(t, share) <= MOST * LEAST
  {
    var q := Cost(t, share);
    CostBounds(t, share);
    MulMono(q, 20, share);
  }

  // ---- one round ---------------------------------------------------------------------------------

  lemma GapSplits(pin: nat, k: nat, w: nat, n: nat)
    requires pin < n && k < n && w < n && k != w && Gap(pin, k, n) <= Gap(pin, w, n)
    ensures Gap(pin, k, n) + Gap(k, w, n) == Gap(pin, w, n)
  {
  }

  /** getmlfqproc does not step over a process that waits. */
  lemma NotSkipped(s: State, w: nat)
    requires s.pin < |s.procs| && w < |s.procs| && Ready(s.procs[w], Mlfq)
    ensures var k := MlfqFrom(s.procs, s.pin, 1); k >= 0 && Gap(s.pin, k, |s.procs|) <= Gap(s.pin, w, |s.procs|)
  {
    assert At(s.pin, Gap(s.pin, w, |s.procs|), |s.procs|) == w;
  }

  lemma PreparedBound(s: State, w: nat)
    requires Wf(s) && w < |s.procs|
    ensures Wf(Prepared(s)) && |Prepared(s).procs| == |s.procs| && Bound(Prepared(s), w) == Bound(s, w)
    ensures SharesOk(s) ==> SharesOk(Prepared(s))
    ensures Ready(s.procs[w], Mlfq) ==> Ready(Prepared(s).procs[w], Mlfq)
  {
    PreparedWf(s);
    var r := Prepared(s);
    DebtSame(s.procs, s.pass, r.procs, r.pass, |s.procs|);
  }

  lemma StrideTurn(s: State, k: nat, want: nat, w: nat)
    requires Wf(s) && SharesOk(s) && k < |s.procs| && w < |s.procs| && 1 <= want
    requires s.procs[k].kind == Stride && s.procs[k].pass < s.pass
    ensures Bound(Finished(s, k, want), w) < Bound(s, w) && SharesOk(Finished(s, k, want))
  {
    var r := Finished(s, k, want);
    var t := TurnTicks(s.procs[k], want);
    LeastCost(t, s.procs[k].share);
    assert r.procs == s.procs[k := r.procs[k]] && r.pass == s.pass && r.pin == s.pin;
    DebtPaid(s.procs, s.pass, k, r.procs[k], |s.procs|);
  }

  lemma Nearer(g: nat, h: nat, unit: nat)
    requires h < g
    ensures h * (1 + unit) + unit < g * (1 + unit)
  {
    assert (h + 1) * (1 + unit) <= g * (1 + unit);
  }

  lemma MlfqTurn(s: State, k: nat, want: nat, w: nat)
    requires Wf(s) && SharesOk(s) && k < |s.procs| && w < |s.procs| && 1 <= want && k != w
    requires s.procs[k].kind == Mlfq && Gap(s.pin, k, |s.procs|) <= Gap(s.pin, w, |s.procs|)
    ensures Bound(Finished(s, k, want), w) < Bound(s, w) && SharesOk(Finished(s, k, want))
  {
    var r, n := Finished(s, k, want), |s.procs|;
    var t := TurnTicks(s.procs[k], want);
    MostCost(t, s.share);
    assert r.procs == s.procs[k := r.procs[k]] && r.procs[k].kind == Mlfq && r.pass == s.pass + Cost(t, s.share)
      && r.pin == k;
    DebtSame(s.procs, r.pass, r.procs, r.pass, n);
    DebtGrows(s.procs, s.pass, Cost(t, s.share), n);
    GapSplits(s.pin, k, w, n);
    Nearer(Gap(s.pin, w, n), Gap(k, w, n), MOST * Strides(s.procs, n));
  }

  /** A round that does not dispatch the waiting process brings it closer. */
  lemma RoundCloser(s: State, want: nat, w: nat)
    requires Wf(s) && SharesOk(s) && w < |s.procs| && Ready(s.procs[w], Mlfq) && 1 <= want && Dispatched(s) != w
    ensures Bound(Round(s, want), w) < Bound(s, w) && SharesOk(Round(s, want))
  {
    PreparedWf(s);
    PreparedBound(s, w);
    var p := Prepared(s);
    NotSkipped(p, w);
    var k := Pick(p);
    assert k >= 0 && k != w;
    assert Round(s, want) == Finished(p, k, want);
    if p.procs[k].kind == Stride {
      StrideTurn(p, k, want, w);
    } else {
      MlfqTurn(p, k, want, w);
    }
  }

  // ---- runs ----------------------------------------------------------------------------------------

  /** `es` drives the scheduler from `s`, with `w` ready in every round. */
  ghost predicate Waiting(s: State, es: seq<Env>, w: nat)
    requires Wf(s)
    decreases |es|
  {
    es != [] ==>
      && EnvOk(s, es[0]) && w < |s.procs| && Ready(es[0].procs[w], Mlfq)
      && Waiting(Step(s, es[0]), es[1..], w)
  }

  /** Some round of the run dispatches `w`. */
  ghost predicate Serves(s: State, es: seq<Env>, w: nat)
    requires Wf(s) && Waiting(s, es, w)
    decreases |es|
  {
    es != [] && (Dispatched(Before(s, es[0])) == w || Serves(Step(s, es[0]), es[1..], w))
  }

  lemma EnvBound(s: State, e: Env, w: nat)
    requires Wf(s) && EnvOk(s, e) && w < |s.procs|
    ensures Wf(Before(s, e)) && Bound(Before(s, e), w) == Bound(s, w) && (SharesOk(s) ==> SharesOk(Before(s, e)))
  {
    DebtSame(s.procs, s.pass, e.procs, s.pass, |s.procs|);
  }

  /** A ready MLFQ process runs within Bound(s, w) rounds. */
  lemma {:induction false} BoundedWaiting(s: State, es: seq<Env>, w: nat)
    requires Wf(s) && SharesOk(s) && w < |s.procs| && Waiting(s, es, w) && Bound(s, w) <= |es|
    ensures Serves(s, es, w)
    decreases |es|
  {
    var b := Before(s, es[0]);
    EnvBound(s, es[0], w);
    if Dispatched(b) != w {
      RoundCloser(b, es[0].want, w);
      BoundedWaiting(Step(s, es[0]), es[1..], w);
    }
  }

  /** There are such runs of every length: nothing keeps an MLFQ process from staying ready. */
  lemma {:induction false} WaitingRuns(s: State, w: nat, n: nat) returns (es: seq<Env>)
    requires Wf(s) && w < |s.procs| && s.procs[w].kind == Mlfq
    ensures |es| == n && Waiting(s, es, w)
    decreases n
  {
    if n == 0 { return []; }
    var e := Env(s.procs[w := s.procs[w].(runnable := true)], 1);
    assert EnvOk(s, e);
    KindsStay(Before(s, e), 1, w);
    var rest := WaitingRuns(Step(s, e), w, n - 1);
    es := [e] + rest;
  }

  lemma KindsStay(s: State, want: nat, w: nat)
    requires Wf(s) && w < |s.procs|
    ensures Round(s, want).procs[w].kind == s.procs[w].kind
  {
    hide Prepared, Pick, Finished, Wf;
    PreparedWf(s);
    PreparedKind(s, w);
    var k := Pick(Prepared(s));
    if k >= 0 { FinishedKind(Prepared(s), k, want, w); }
  }

  lemma PreparedKind(s: State, w: nat)
    requires w < |s.procs|
    ensures |Prepared(s).procs| == |s.procs| && Prepared(s).procs[w].kind == s.procs[w].kind
  {
  }

  lemma FinishedKind(s: State, k: nat, want: nat, w: nat)
    requires Wf(s) && k < |s.procs| && w < |s.procs|
    ensures Finished(s, k, want).procs[w].kind == s.procs[w].kind
  {
  }
}
