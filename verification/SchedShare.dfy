/** set_cpu_share and the sum of all shares. */
module SchedShare {
  import opened Arith
  import opened SchedState
  import opened SchedWait

  const WHOLE: nat := 100
  const FLOOR: nat := 20

  function Own(p: Proc): nat { if p.kind == Stride then p.share else 0 }

  /** What the MLFQ would keep, in unsigned arithmetic. */
  function Left(s: State, k: nat, req: int): nat
    requires k < |s.procs|
  {
    (s.share + Own(s.procs[k]) - req) % UINT
  }

  predicate Refused(s: State, k: nat, req: int)
    requires k < |s.procs|
  {
    0 < req && Left(s, k, req) < FLOOR
  }

  /** The state after process `k` asks for `req` percent. */
  function Asked(s: State, k: nat, req: int): State
    requires k < |s.procs|
  {
    var p := s.procs[k];
    if req <= 0 then
      if p.kind == Stride then
        s.(share := (s.share + p.share) % UINT, procs :=
            s.procs[k := p.(kind := Mlfq, qlev := 0, share := 0, pass := 0)])
      else s
    else if Refused(s, k, req) then s
    else s.(share := Left(s, k, req), procs :=
        s.procs[k := p.(kind := Stride, qlev := 0, share := req, pass := s.pass)])
  }

  function Given(procs: seq<Proc>, n: nat): nat
    requires n <= |procs|
  {
    if n == 0 then 0 else Given(procs, n - 1) + Own(procs[n - 1])
  }

  function Sum(s: State): nat { s.share + Given(s.procs, |s.procs|) }

  /** The shares add up, the MLFQ keeps its floor, and every STRIDE process has a share. */
  ghost predicate Conserved(s: State) {
    && Sum(s) == WHOLE && FLOOR <= s.share
    && (forall i :: 0 <= i < |s.procs| && s.procs[i].kind == Stride ==> 0 < s.procs[i].share)
  }

  lemma {:induction false} GivenUpdate(procs: seq<Proc>, k: nat, q: Proc, n: nat)
    requires n <= |procs| && k < |procs|
    ensures Given(procs[k := q], n) == Given(procs, n) + if k < n then Own(q) - Own(procs[k]) else 0
  {
    if n > 0 { GivenUpdate(procs, k, q, n - 1); }
  }

  lemma {:induction false} GivenAtLeast(procs: seq<Proc>, k: nat, n: nat)
    requires k < n <= |procs|
    ensures Own(procs[k]) <= Given(procs, n)
  {
    if k < n - 1 { GivenAtLeast(procs, k, n - 1); }
  }

  lemma ModShift(x: int, y: int)
    ensures (x % UINT + y) % UINT == (x + y) % UINT
  {
    var q := x / UINT;
    assert x + y == (x % UINT + y) + q * UINT;
    ModPlus(x % UINT + y, q);
  }

  lemma ModPlus(z: int, q: int)
    ensures (z + q * UINT) % UINT == z % UINT
  {
  }

  /** Modulo 2^32 the sum never changes, whatever is asked for. */
  lemma SumKept(s: State, k: nat, req: int)
    requires k < |s.procs|
    ensures Sum(Asked(s, k, req)) % UINT == Sum(s) % UINT
  {
    var r, n := Asked(s, k, req), |s.procs|;
    GivenUpdate(s.procs, k, r.procs[k], n);
    assert r.procs == s.procs[k := r.procs[k]];
    if req <= 0 {
      if s.procs[k].kind == Stride { ModShift(s.share + s.procs[k].share, Given(r.procs, n)); }
    } else if !Refused(s, k, req) {
      ModShift(s.share + Own(s.procs[k]) - req, Given(r.procs, n));
    }
  }

  /** A call keeps the shares in order exactly when it asks for no more than there is. */
  lemma ConservedIff(s: State, k: nat, req: int)
    requires Conserved(s) && k < |s.procs| && req < UINT / 2
    ensures Conserved(Asked(s, k, req)) <==> req <= s.share + Own(s.procs[k])
  {
    var r, n := Asked(s, k, req), |s.procs|;
    GivenUpdate(s.procs, k, r.procs[k], n);
    GivenAtLeast(s.procs, k, n);
    assert r.procs == s.procs[k := r.procs[k]];
    if req > s.share + Own(s.procs[k]) {
      assert Left(s, k, req) == s.share + Own(s.procs[k]) - req + UINT;
    }
  }

  /** The oversized request that set_cpu_share's unsigned test accepts. */
  lemma OversizedAccepted(s: State, k: nat)
    requires Conserved(s) && k < |s.procs|
    ensures var req := s.share + Own(s.procs[k]) + 1; !Refused(s, k, req) && !Conserved(Asked(s, k, req))
  {
    GivenAtLeast(s.procs, k, |s.procs|);
    ConservedIff(s, k, s.share + Own(s.procs[k]) + 1);
  }

  // ---- runs ---------------------------------------------------------------------------------------

  datatype Event = Ask(k: nat, req: int) | Fork(k: nat) | Exit(k: nat) | Reap(k: nat)

  /** fork takes an unused entry; exit gives the share back before the entry can be reaped. */
  ghost predicate Allowed(s: State, e: Event) {
    && e.k < |s.procs|
    && (e.Ask? ==> s.procs[e.k].kind != None && e.req <= s.share + Own(s.procs[e.k]))
    && (e.Fork? ==> s.procs[e.k].kind == None)
    && (e.Exit? ==> s.procs[e.k].kind != None)
    && (e.Reap? ==> s.procs[e.k].kind == Mlfq)
  }

  function After(s: State, e: Event): State
    requires e.k < |s.procs|
  {
    match e
    case Ask(k, req) => Asked(s, k, req)
    case Fork(k) => s.(procs := s.procs[k := s.procs[k].(kind := Mlfq, qlev := 0, pass := 0)])
    case Exit(k) => Asked(s, k, 0)
    case Reap(k) => s.(procs := s.procs[k := Proc(None, false, 0, 0, 0, 0)])
  }

  /** Reaping an entry keeps the sum exactly when its process had given its share back. */
  lemma ReapIff(s: State, k: nat)
    requires Conserved(s) && k < |s.procs|
    ensures Conserved(After(s, Reap(k))) <==> s.procs[k].kind != Stride
  {
    var r := After(s, Reap(k));
    GivenUpdate(s.procs, k, r.procs[k], |s.procs|);
  }

  lemma StepConserved(s: State, e: Event)
    requires Conserved(s) && Allowed(s, e)
    ensures Conserved(After(s, e)) && |After(s, e).procs| == |s.procs|
  {
    match e
    case Ask(k, req) => {
      GivenAtLeast(s.procs, k, |s.procs|);
      ConservedIff(s, k, req);
    }
    case Fork(k) => GivenUpdate(s.procs, k, s.procs[k].(kind := Mlfq, qlev := 0, pass := 0), |s.procs|);
    case Exit(k) => ConservedIff(s, k, 0);
    case Reap(k) => ReapIff(s, k);
  }

  ghost predicate Runs(s: State, es: seq<Event>)
    decreases |es|
  {
    es == [] || (Allowed(s, es[0]) && Runs(After(s, es[0]), es[1..]))
  }

  ghost function Ends(s: State, es: seq<Event>): State
    requires Runs(s, es)
    decreases |es|
  {
    if es == [] then s else Ends(After(s, es[0]), es[1..])
  }

  /** Shares are conserved over every run, and stay in the range that bounded waiting relies on. */
  lemma {:induction false} RunConserved(s: State, es: seq<Event>)
    requires Conserved(s) && Runs(s, es)
    ensures Conserved(Ends(s, es)) && SharesOk(Ends(s, es))
    decreases |es|
  {
    if es == [] {
      forall i | 0 <= i < |s.procs| && s.procs[i].kind == Stride ensures s.procs[i].share <= 80 {
        GivenAtLeast(s.procs, i, |s.procs|);
      }
    } else {
      StepConserved(s, es[0]);
      RunConserved(After(s, es[0]), es[1..]);
    }
  }
}
