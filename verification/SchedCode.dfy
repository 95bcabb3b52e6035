/** scheduler.c's loop body over its table: each function scans or updates the table in place and
    computes what SchedState says. */
module SchedCode {
  import opened Arith
  import opened SchedState
  import opened SchedShare

  function OneTick(p: Proc): Proc {
    p.(ticks := p.ticks + 1, pass := if p.kind == Mlfq then p.pass + 1 else p.pass)
  }

  class Scheduler {
    var procs: seq<Proc>
    var share: nat
    var pass: nat
    var boosted: nat
    var pin: nat

    function View(): State
      reads this
    {
      State(procs, share, pass, boosted, pin)
    }

    constructor (table: seq<Proc>)
      requires 0 < |table| && forall i :: 0 <= i < |table| ==> table[i].kind == None && table[i].qlev == 0
      ensures View() == State(table, 100, 0, 0, 0) && Wf(View())
    {
      procs, share, pass, boosted, pin := table, 100, 0, 0, 0;
    }

    method Reduce()
      modifies this`procs, this`pass
      ensures View() == Reduced(old(View()))
    {
      if pass < MAXPASS { return; }
      for i := 0 to |procs|
        invariant procs == old(procs) && pass == old(pass)
        invariant forall j :: 0 <= j < i ==> !HoldsBack(procs[j])
      {
        if procs[i].kind == Stride && procs[i].pass < MAXPASS { return; }
      }
      assert Reducible(old(View()));
      pass := pass - MAXPASS;
      for i := 0 to |procs|
        modifies this`procs
        invariant |procs| == |old(procs)|
        invariant forall j :: 0 <= j < i ==> procs[j] == Lowered(old(procs)[j])
        invariant forall j :: i <= j < |procs| ==> procs[j] == old(procs)[j]
      {
        if procs[i].kind == Stride { procs := procs[i := procs[i].(pass := procs[i].pass - MAXPASS)]; }
      }
      assert procs == Reduced(old(View())).procs;
    }

    method Boost()
      modifies this`procs, this`boosted
      ensures View() == Boosted(old(View()))
    {
      if boosted < BOOST { return; }
      for i := 0 to |procs|
        invariant |procs| == |old(procs)|
        invariant forall j :: 0 <= j < i ==> procs[j] == Raised(old(procs)[j])
        invariant forall j :: i <= j < |procs| ==> procs[j] == old(procs)[j]
      {
        if procs[i].kind == Mlfq && procs[i].qlev > 0 { procs := procs[i := procs[i].(qlev := 0, pass := 0)]; }
      }
      boosted := 0;
    }

    method GetStrideProc() returns (minproc: int)
      ensures minproc == StrideIn(procs, |procs|)
    {
      minproc := -1;
      for i := 0 to |procs|
        invariant minproc == StrideIn(procs, i)
      {
        if procs[i].kind == Stride && procs[i].runnable {
          if minproc < 0 {
            minproc := i;
          } else if procs[i].pass < procs[minproc].pass {
            minproc := i;
          }
        }
      }
    }

    method GetMlfqProc() returns (r: int)
      requires pin < |procs|
      ensures r == MlfqFrom(procs, pin, 1)
    {
      hide MlfqFrom;
      var p := pin + 1;
      ghost var d := 1;
      while true
        invariant 1 <= d <= |procs| && MlfqFrom(procs, pin, 1) == MlfqFrom(procs, pin, d)
        invariant p == pin + d || p == pin + d - |procs|
        invariant 0 <= p <= |procs|
        decreases |procs| - d, p
      {
        ghost var d0, p0 := d, p;
        while p < |procs|
          invariant d0 < d || (d0 == d && p == p0)
          invariant 1 <= d <= |procs| && MlfqFrom(procs, pin, 1) == MlfqFrom(procs, pin, d)
          invariant p == pin + d || p == pin + d - |procs|
          invariant 0 <= p <= |procs|
          decreases |procs| - p
        {
          FromStep(procs, pin, d, p);
          if procs[p].kind == Mlfq && procs[p].runnable { return p; }
          if p == pin { return -1; }
          p, d := p + 1, d + 1;
        }
        p := 0;
      }
      assert false;
    }

    method GetSchedProc() returns (p: int)
      requires pin < |procs|
      modifies this`pin
      ensures p == Pick(old(View()))
      ensures View() == if p < 0 then old(View()) else Pinned(old(View()), p)
    {
      var p1 := GetStrideProc();
      var p2 := GetMlfqProc();
      if p1 >= 0 && p2 >= 0 {
        p := if procs[p1].pass < pass then p1 else p2;
      } else if p1 >= 0 {
        p := p1;
      } else if p2 >= 0 {
        p := p2;
      } else {
        p := -1;
      }
      if p2 >= 0 && p == p2 { pin := p2; }
    }

    /** sched's part: count the tick and say whether the process goes on without the scheduler. */
    method Tick(k: nat, runnable: bool) returns (again: bool)
      requires k < |procs|
      modifies this`procs
      ensures procs == old(procs)[k := OneTick(old(procs)[k])]
      ensures again <==> runnable && procs[k].ticks < Quantum(procs[k])
    {
      procs := procs[k := procs[k].(ticks := procs[k].ticks + 1)];
      if procs[k].kind == Mlfq { procs := procs[k := procs[k].(pass := procs[k].pass + 1)]; }
      again := runnable && procs[k].ticks < Quantum(procs[k]);
    }

    /** The process's turn: it calls sched until its quantum is up or, at the `want`-th call, it is
        no longer RUNNABLE. */
    method Turn(k: nat, want: nat)
      requires k < |procs| && 1 <= want
      modifies this`procs
      ensures procs == old(procs)[k := Ticked(old(procs)[k], TurnTicks(old(procs)[k], want))]
    {
      procs := procs[k := procs[k].(ticks := 0)];
      var again := true;
      ghost var t := 0;
      while again
        invariant 0 <= t <= TurnTicks(old(procs)[k], want) && procs == old(procs)[k := Ticked(old(procs)[k], t)]
        invariant again <==> t < TurnTicks(old(procs)[k], want)
        decreases TurnTicks(old(procs)[k], want) - t
      {
        t := t + 1;
        again := Tick(k, procs[k].ticks + 1 < want);
      }
    }

    method Account(k: nat)
      requires k < |procs| && 0 < share && (procs[k].kind == Stride ==> 0 < procs[k].share)
      modifies this`procs, this`pass, this`boosted
      ensures View() == Charged(old(View()), k)
    {
      if procs[k].kind == Stride {
        procs := procs[k := procs[k].(pass := procs[k].pass + TICKETS * procs[k].ticks / procs[k].share)];
      } else {
        pass := pass + TICKETS * procs[k].ticks / share;
        boosted := boosted + procs[k].ticks;
      }
      if procs[k].kind == Mlfq && procs[k].qlev < LOWEST {
        if procs[k].pass >= Allotment(procs[k].qlev) {
          procs := procs[k := procs[k].(qlev := procs[k].qlev + 1, pass := 0)];
        }
      }
    }

    /** One pass of the scheduler's loop. */
    method Pass(want: nat) returns (p: int)
      requires Wf(View()) && 1 <= want
      modifies this
      ensures p == Dispatched(old(View())) && View() == Round(old(View()), want)
    {
      PreparedWf(View());
      Reduce();
      Boost();
      p := GetSchedProc();
      if p >= 0 {
        Turn(p, want);
        Account(p);
      }
    }

    /** set_cpu_share, called by process `k`. */
    method SetCpuShare(k: nat, req: int) returns (code: int)
      requires k < |procs| && share < UINT && procs[k].share < UINT && req < UINT / 2
      modifies this`procs, this`share
      ensures View() == Asked(old(View()), k, req)
      ensures code == if Refused(old(View()), k, req) then -1 else 0
    {
      if req <= 0 {
        if procs[k].kind == Stride {
          share := (share + procs[k].share) % UINT;
          procs := procs[k := procs[k].(kind := Mlfq, qlev := 0, share := 0, pass := 0)];
        }
        return 0;
      }
      var rest: nat;
      if procs[k].kind == Stride {
        rest := (share + procs[k].share - req) % UINT;
      } else {
        rest := (share - req) % UINT;
      }
      if rest < 20 { return -1; }
      share := rest;
      procs := procs[k := procs[k].(kind := Stride, qlev := 0, share := req, pass := pass)];
      return 0;
    }
  }
}
