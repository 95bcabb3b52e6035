/** Stride fairness: the STRIDE processes and the MLFQ as a whole are clients; over any run in
    which a set of clients stays ready and shares are fixed, their passes stay close, so the ticks
    they get stay in proportion to their shares. */
module SchedFair {
  import opened Arith
  import opened Circle
  import opened SchedState

  /** A STRIDE process by its index, or the MLFQ as one client. */
  type Client = int

  const MLFQ: Client := -1

  predicate IsClient(s: State, c: Client) {
    c == MLFQ || (0 <= c < |s.procs| && s.procs[c].kind == Stride)
  }

  function PassOf(s: State, c: Client): nat
    requires IsClient(s, c)
  {
    if c == MLFQ then s.pass else s.procs[c].pass
  }

  function ShareOf(s: State, c: Client): nat
    requires IsClient(s, c)
  {
    if c == MLFQ then s.share else s.procs[c].share
  }

  /** The client that pays for process `k`. */
  function ClientOf(s: State, k: nat): Client
    requires k < |s.procs|
  {
    if s.procs[k].kind == Stride then k else MLFQ
  }

  /** A client with a process to run. */
  ghost predicate Active(s: State, c: Client) {
    if c == MLFQ then exists i :: 0 <= i < |s.procs| && Ready(s.procs[i], Mlfq)
    else 0 <= c < |s.procs| && Ready(s.procs[c], Stride)
  }

  // ---- one round ------------------------------------------------------------------------------

  lemma MlfqFound(s: State)
    requires s.pin < |s.procs|
    ensures Active(s, MLFQ) <==> MlfqFrom(s.procs, s.pin, 1) >= 0
  {
    if Active(s, MLFQ) {
      var i :| 0 <= i < |s.procs| && Ready(s.procs[i], Mlfq);
      var d := Gap(s.pin, i, |s.procs|);
      assert At(s.pin, d, |s.procs|) == i;
    }
  }

  /** getschedproc picks a client of least pass among the active ones. */
  lemma PickLeast(s: State, c: Client)
    requires s.pin < |s.procs| && Active(s, c)
    ensures var k := Pick(s);
      k >= 0 && s.procs[k].runnable && s.procs[k].kind != None && PassOf(s, ClientOf(s, k)) <= PassOf(s, c)
  {
    MlfqFound(s);
    var a := StrideIn(s.procs, |s.procs|);
    if c != MLFQ { assert Ready(s.procs[c], Stride); }
  }

  function Shift(s: State): nat { if Reducible(s) then MAXPASS else 0 }

  /** reduce and boost leave every client's standing alone. */
  lemma PreparedClients(s: State, c: Client)
    requires Wf(s) && IsClient(s, c)
    ensures IsClient(Prepared(s), c) && ShareOf(Prepared(s), c) == ShareOf(s, c)
    ensures PassOf(Prepared(s), c) + Shift(s) == PassOf(s, c)
    ensures Active(Prepared(s), c) <==> Active(s, c)
  {
    var r := Prepared(s);
    assert forall i :: 0 <= i < |s.procs| ==>
      r.procs[i].kind == s.procs[i].kind && r.procs[i].runnable == s.procs[i].runnable;
    assert forall i :: 0 <= i < |s.procs| ==> Ready(r.procs[i], Mlfq) == Ready(s.procs[i], Mlfq);
  }

  /** The ticks of the turn that a round gives. */
  function RoundTicks(s: State, want: nat): nat
    requires Wf(s)
  {
    PreparedWf(s);
    var k := Dispatched(s);
    if k < 0 then 0 else TurnTicks(Prepared(s).procs[k], want)
  }

  /** The client served by a round, or -2. */
  function Served(s: State): Client
    requires Wf(s)
  {
    PreparedWf(s);
    var k := Dispatched(s);
    if k < 0 then -2 else ClientOf(Prepared(s), k)
  }

  function LongestTurn(c: Client): nat { if c == MLFQ then 20 else 5 }

  /** A round raises the pass of the client it serves by the price of the turn, and no other. */
  lemma RoundClients(s: State, want: nat, c: Client)
    requires Wf(s) && IsClient(s, c) && 1 <= want
    ensures var r := Round(s, want);
      && IsClient(r, c) && ShareOf(r, c) == ShareOf(s, c) && 0 < ShareOf(s, c)
      && PassOf(r, c) + Shift(s) ==
        PassOf(s, c) + (if c == Served(s) then Cost(RoundTicks(s, want), ShareOf(s, c)) else 0)
    ensures c == Served(s) ==> 1 <= RoundTicks(s, want) <= LongestTurn(c)
  {
    hide Prepared, Pick, Wf, IsClient, PassOf, ShareOf, Finished, ClientOf, TurnTicks, Cost, Shift;
    PreparedWf(s);
    PreparedClients(s, c);
    var k := Pick(Prepared(s));
    if k >= 0 { FinishedClients(Prepared(s), k, want, c); }
    SharePositive(Prepared(s), c);
  }

  lemma SharePositive(s: State, c: Client)
    requires Wf(s) && IsClient(s, c)
    ensures 0 < ShareOf(s, c)
  {
  }

  /** The turn of process `k` is paid for by its client. */
  lemma FinishedClients(s: State, k: nat, want: nat, c: Client)
    requires Wf(s) && k < |s.procs| && IsClient(s, c) && 1 <= want
    ensures var r, t := Finished(s, k, want), TurnTicks(s.procs[k], want);
      && IsClient(r, c) && ShareOf(r, c) == ShareOf(s, c) && 0 < ShareOf(s, c)
      && PassOf(r, c) == PassOf(s, c) + (if c == ClientOf(s, k) then Cost(t, ShareOf(s, c)) else 0)
      && (c == ClientOf(s, k) ==> 1 <= t <= LongestTurn(c))
  {
  }

  lemma ServedLeast(s: State, c: Client)
    requires Wf(s) && Active(s, c) && IsClient(s, c)
    ensures IsClient(s, Served(s)) && PassOf(s, Served(s)) <= PassOf(s, c)
  {
    PreparedWf(s);
    PreparedClients(s, c);
    PickLeast(Prepared(s), c);
    var q := Served(s);
    assert Prepared(s).procs[Dispatched(s)].kind == s.procs[Dispatched(s)].kind;
    PreparedClients(s, q);
  }

  // ---- runs -------------------------------------------------------------------------------------

  /** What happens between two rounds: processes wake, block, fork and exit; the STRIDE processes,
      their shares and their passes stay. */
  datatype Env = Env(procs: seq<Proc>, want: nat)

  ghost predicate EnvOk(s: State, e: Env) {
    && |e.procs| == |s.procs| && 1 <= e.want
    && (forall i :: 0 <= i < |s.procs| ==> e.procs[i].qlev <= LOWEST)
    && (forall i :: 0 <= i < |s.procs| ==> (e.procs[i].kind == Stride <==> s.procs[i].kind == Stride))
    && (forall i :: 0 <= i < |s.procs| && s.procs[i].kind == Stride ==>
          e.procs[i].share == s.procs[i].share && e.procs[i].pass == s.procs[i].pass)
  }

  function Before(s: State, e: Env): State { s.(procs := e.procs) }

  function Step(s: State, e: Env): State
    requires Wf(s) && EnvOk(s, e)
  {
    Round(Before(s, e), e.want)
  }

  /** `es` drives the scheduler from `s`, and every client in `cs` is active in every round. */
  ghost predicate Steady(s: State, es: seq<Env>, cs: set<Client>)
    requires Wf(s)
    decreases |es|
  {
    es != [] ==>
      && EnvOk(s, es[0]) && (forall c :: c in cs ==> Active(Before(s, es[0]), c))
      && Steady(Step(s, es[0]), es[1..], cs)
  }

  ghost function Final(s: State, es: seq<Env>): State
    requires Wf(s) && Steady(s, es, {})
    decreases |es|
  {
    if es == [] then s else Final(Step(s, es[0]), es[1..])
  }

  lemma {:induction false} SteadyLess(s: State, es: seq<Env>, cs: set<Client>)
    requires Wf(s) && Steady(s, es, cs)
    ensures Steady(s, es, {})
    decreases |es|
  {
    if es != [] { SteadyLess(Step(s, es[0]), es[1..], cs); }
  }

  /** No two of the clients are more than `m` apart. */
  ghost predicate Within(s: State, cs: set<Client>, m: nat) {
    && (forall c :: c in cs ==> IsClient(s, c))
    && (forall a, b :: a in cs && b in cs ==> PassOf(s, a) <= PassOf(s, b) + m)
  }

  lemma Apart(s: State, cs: set<Client>, m: nat, a: Client, b: Client)
    requires Within(s, cs, m) && a in cs && b in cs
    ensures IsClient(s, a) && IsClient(s, b) && PassOf(s, a) <= PassOf(s, b) + m
  {
  }

  /** `m` is at least the price of any one turn of any of the clients. */
  ghost predicate Covers(s: State, cs: set<Client>, m: nat) {
    forall c :: c in cs ==> IsClient(s, c) && 0 < ShareOf(s, c) && Cost(LongestTurn(c), ShareOf(s, c)) <= m
  }

  lemma CostMonotone(t: nat, u: nat, share: nat)
    requires t <= u && 0 < share
    ensures Cost(t, share) <= Cost(u, share)
  {
    var q, r := Cost(t, share), Cost(u, share);
    if q > r { MulMono(share, r + 1, q); }
  }

  lemma StepClient(s: State, e: Env, c: Client)
    requires Wf(s) && EnvOk(s, e) && IsClient(s, c)
    ensures var b := Before(s, e);
      && Wf(b) && IsClient(b, c) && PassOf(b, c) == PassOf(s, c) && ShareOf(b, c) == ShareOf(s, c) && 0 < ShareOf(s, c)
      && IsClient(Step(s, e), c) && ShareOf(Step(s, e), c) == ShareOf(s, c)
      && PassOf(Step(s, e), c) + Shift(b) ==
        PassOf(s, c) + (if c == Served(b) then Cost(RoundTicks(b, e.want), ShareOf(s, c)) else 0)
      && (c == Served(b) ==> RoundTicks(b, e.want) <= LongestTurn(c))
  {
    RoundClients(Before(s, e), e.want, c);
  }

  /** One step keeps the spread. */
  lemma StepWithin(s: State, e: Env, cs: set<Client>, m: nat)
    requires Wf(s) && EnvOk(s, e) && Within(s, cs, m) && Covers(s, cs, m)
    requires forall c :: c in cs ==> Active(Before(s, e), c)
    ensures Within(Step(s, e), cs, m) && Covers(Step(s, e), cs, m)
  {
    var b, r := Before(s, e), Step(s, e);
    forall c | c in cs ensures IsClient(r, c) && ShareOf(r, c) == ShareOf(s, c) { StepClient(s, e, c); }
    forall x, y | x in cs && y in cs ensures PassOf(r, x) <= PassOf(r, y) + m {
      StepClient(s, e, x);
      StepClient(s, e, y);
      if x == Served(b) {
        ServedLeast(b, y);
        CostMonotone(RoundTicks(b, e.want), LongestTurn(x), ShareOf(s, x));
      }
    }
  }

  /** Over a whole run the spread stays within the larger of where it started and one turn's price. */
  lemma {:induction false} SpreadBounded(s: State, es: seq<Env>, cs: set<Client>, m: nat)
    requires Wf(s) && Steady(s, es, cs) && Within(s, cs, m) && Covers(s, cs, m)
    ensures (SteadyLess(s, es, cs); Within(Final(s, es), cs, m))
    decreases |es|
  {
    SteadyLess(s, es, cs);
    if es != [] {
      StepWithin(s, es[0], cs, m);
      SpreadBounded(Step(s, es[0]), es[1..], cs, m);
    }
  }

  // ---- ticks ---------------------------------------------------------------------------------

  /** The ticks that client `c` gets over a run. */
  ghost function Ticks(s: State, es: seq<Env>, c: Client): nat
    requires Wf(s) && Steady(s, es, {})
    decreases |es|
  {
    if es == [] then 0 else
    (if Served(Before(s, es[0])) == c then RoundTicks(Before(s, es[0]), es[0].want)
        else 0) + Ticks(Step(s, es[0]), es[1..], c)
  }

  /** Its turns. */
  ghost function Turns(s: State, es: seq<Env>, c: Client): nat
    requires Wf(s) && Steady(s, es, {})
    decreases |es|
  {
    if es == [] then 0 else (if Served(Before(s, es[0])) == c then 1 else 0) + Turns(Step(s, es[0]), es[1..], c)
  }

  /** What reduce takes off every pass over a run. */
  ghost function Shifts(s: State, es: seq<Env>): nat
    requires Wf(s) && Steady(s, es, {})
    decreases |es|
  {
    if es == [] then 0 else Shift(Before(s, es[0])) + Shifts(Step(s, es[0]), es[1..])
  }

  lemma CostBounds(t: nat, share: nat)
    requires 0 < share
    ensures share * Cost(t, share) <= TICKETS * t <= share * Cost(t, share) + share - 1
  {
  }

  lemma PaidMore(share: nat, own: int, rest: int, t: int, ts: int, n: nat)
    requires 0 < share
    requires share * own <= t <= share * own + share - 1
    requires share * rest <= ts <= share * rest + n * (share - 1)
    ensures share * (own + rest) <= t + ts <= share * (own + rest) + (n + 1) * (share - 1)
  {
    assert share * (own + rest) == share * own + share * rest;
    assert (n + 1) * (share - 1) == n * (share - 1) + (share - 1);
  }

  /** Each turn loses less than one unit of pass to the division. */
  lemma {:induction false} TicksPaid(s: State, es: seq<Env>, c: Client, share: nat) returns (gain: int)
    requires Wf(s) && Steady(s, es, {}) && IsClient(s, c) && ShareOf(s, c) == share
    ensures IsClient(Final(s, es), c) && PassOf(Final(s, es), c) + Shifts(s, es) == PassOf(s, c) + gain
    ensures 0 < share && share * gain <= TICKETS * Ticks(s, es, c) <= share * gain + Turns(s, es, c) * (share - 1)
    decreases |es|
  {
    hide Round, Served, RoundTicks, IsClient, PassOf, ShareOf, Wf, EnvOk, Shift, Cost;
    if es == [] {
      RoundClients(s, 1, c);
      return 0;
    }
    var b, r := Before(s, es[0]), Step(s, es[0]);
    StepClient(s, es[0], c);
    gain := TicksPaid(r, es[1..], c, share);
    if Served(b) == c {
      var t := RoundTicks(b, es[0].want);
      CostBounds(t, share);
      PaidMore(share, Cost(t, share), gain, TICKETS * t, TICKETS * Ticks(r, es[1..], c), Turns(r, es[1..], c));
      gain := Cost(t, share) + gain;
    }
  }

  lemma Swap(x: int, y: int, z: int)
    ensures (x * y) * z == (x * z) * y
  {
  }

  lemma Proportion(sa: nat, sb: nat, ga: int, gb: int, ta: int, tb: int, na: nat, m: nat)
    requires 0 < sa && 0 < sb && ga - gb <= 2 * m
    requires TICKETS * ta <= sa * ga + na * (sa - 1) && sb * gb <= TICKETS * tb
    ensures TICKETS * (ta * sb - tb * sa) <= sa * sb * (2 * m) + na * (sa - 1) * sb
  {
    var lost := na * (sa - 1);
    var k := sa * sb;
    MulMono(sb, TICKETS * ta, sa * ga + lost);
    MulMono(sa, sb * gb, TICKETS * tb);
    MulMono(k, ga - gb, 2 * m);
    assert (sa * ga + lost) * sb == (sa * ga) * sb + lost * sb;
    Swap(sa, ga, sb);
    Swap(sb, gb, sa);
    assert (ga - gb) * k == k * ga - k * gb;
  }

  /** Two clients that stay ready get ticks in proportion to their shares, up to the spread and the
      truncation of one division a turn. */
  lemma Fairness(s: State, es: seq<Env>, cs: set<Client>, m: nat, a: Client, b: Client)
    requires Wf(s) && Steady(s, es, cs) && Within(s, cs, m) && Covers(s, cs, m) && a in cs && b in cs
    ensures (SteadyLess(s, es, cs);
             TICKETS * (Ticks(s, es, a) * ShareOf(s, b) - Ticks(s, es, b) * ShareOf(s, a))
             <= ShareOf(s, a) * ShareOf(s, b) * (2 * m) + Turns(s, es, a) * (ShareOf(s, a) - 1) * ShareOf(s, b))
  {
    hide Ticks, Turns, Shifts, Final, Steady, Within, Covers, IsClient, PassOf, ShareOf, Wf;
    SteadyLess(s, es, cs);
    SpreadBounded(s, es, cs, m);
    Apart(s, cs, m, b, a);
    Apart(Final(s, es), cs, m, a, b);
    var ga := TicksPaid(s, es, a, ShareOf(s, a));
    var gb := TicksPaid(s, es, b, ShareOf(s, b));
    Proportion(ShareOf(s, a), ShareOf(s, b), ga, gb, Ticks(s, es, a), Ticks(s, es, b), Turns(s, es, a), m);
  }
}
