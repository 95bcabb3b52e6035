/** The process and thread tables (proc.c, thread.c): a process's state caches the greatest state
    of its threads, in the order of the enum in proc.h. */
module ProcTable {
  import opened Circle

  /** enum procstate, in its order. */
  type PState = s: nat | s <= 5
  const UNUSED: PState := 0
  const ZOMBIE: PState := 1
  const EMBRYO: PState := 2
  const SLEEPING: PState := 3
  const RUNNING: PState := 4
  const RUNNABLE: PState := 5

  const NOBODY: int := -1

  /** `mp` is the process a thread belongs to, NOBODY for null. */
  datatype Thread = Thread(state: PState, tid: nat, mp: int, chan: int)

  datatype Proc = Proc(state: PState, pid: nat, pin: nat, parent: int, killed: bool)

  /** The greatest state among the first `n` threads that belong to `p`. */
  function MaxState(ts: seq<Thread>, p: nat, n: nat): PState
    requires n <= |ts|
  {
    if n == 0 then UNUSED else
    var m := MaxState(ts, p, n - 1);
    if ts[n - 1].mp == p && ts[n - 1].state > m then ts[n - 1].state else m
  }

  function Max(ts: seq<Thread>, p: nat): PState { MaxState(ts, p, |ts|) }

  lemma {:induction false} MaxAbove(ts: seq<Thread>, p: nat, n: nat, t: nat)
    requires t < n <= |ts| && ts[t].mp == p
    ensures ts[t].state <= MaxState(ts, p, n)
  {
    if t < n - 1 { MaxAbove(ts, p, n - 1, t); }
  }

  lemma {:induction false} MaxAttained(ts: seq<Thread>, p: nat, n: nat)
    requires n <= |ts| && MaxState(ts, p, n) != UNUSED
    ensures exists t :: 0 <= t < n && ts[t].mp == p && ts[t].state == MaxState(ts, p, n)
  {
    if ts[n - 1].mp == p && ts[n - 1].state == MaxState(ts, p, n) {
    } else {
      MaxAttained(ts, p, n - 1);
    }
  }

  /** The maximum is the one value that bounds every thread and that some thread has. */
  lemma MaxIs(ts: seq<Thread>, p: nat, m: PState)
    requires forall t :: 0 <= t < |ts| && ts[t].mp == p ==> ts[t].state <= m
    requires m == UNUSED || exists t :: 0 <= t < |ts| && ts[t].mp == p && ts[t].state == m
    ensures Max(ts, p) == m
  {
    if m != UNUSED {
      var t :| 0 <= t < |ts| && ts[t].mp == p && ts[t].state == m;
      MaxAbove(ts, p, |ts|, t);
    }
    if Max(ts, p) != UNUSED { MaxAttained(ts, p, |ts|); }
  }

  /** Every process's state is the greatest of its threads', but for a process that fork has not yet
      given a thread. */
  ghost predicate Cached(ps: seq<Proc>, ts: seq<Thread>, p: nat)
    requires p < |ps|
  {
    ps[p].state == Max(ts, p) || (ps[p].state == EMBRYO && Max(ts, p) == UNUSED)
  }

  ghost predicate Inv(ps: seq<Proc>, ts: seq<Thread>) {
    && (forall p :: 0 <= p < |ps| ==> Cached(ps, ts, p))
    && (forall p :: 0 <= p < |ps| && ps[p].state > EMBRYO ==> ps[p].pin < |ts|)
    && (forall t :: 0 <= t < |ts| ==> NOBODY <= ts[t].mp < |ps|)
    && (forall t :: 0 <= t < |ts| && ts[t].state == UNUSED ==> ts[t].mp == NOBODY)
    && (forall t :: 0 <= t < |ts| && ts[t].mp == NOBODY ==> ts[t].state == UNUSED || ts[t].state == EMBRYO)
  }

  /** Other processes do not notice a change to a thread that is not theirs before or after. */
  lemma {:induction false} MaxOther(ts: seq<Thread>, t: nat, x: Thread, p: nat, n: nat)
    requires t < |ts| && n <= |ts|
    requires ts[t].mp == p ==> ts[t].state == UNUSED
    requires x.mp == p ==> x.state == UNUSED
    ensures MaxState(ts[t := x], p, n) == MaxState(ts, p, n)
  {
    if n > 0 { MaxOther(ts, t, x, p, n - 1); }
  }

  /** setstate: give thread `t` of process `p` a state, and bring the process's up to date. */
  lemma SetKeeps(ps: seq<Proc>, ts: seq<Thread>, p: nat, t: nat, st: PState, ps': seq<Proc>, ts': seq<Thread>)
    requires Inv(ps, ts) && p < |ps| && t < |ts| && ts[t].mp == p && st != UNUSED
    requires st > EMBRYO ==> ps[p].pin < |ts|
    requires |ts'| == |ts| && ts' == ts[t := ts'[t]] && ts'[t].mp == p && ts'[t].state == st
    requires ps' == ps[p := ps[p].(state := Max(ts', p))]
    ensures Inv(ps', ts')
  {
    forall q | 0 <= q < |ps| ensures Cached(ps', ts', q) {
      assert Cached(ps, ts, q);
      if q != p { MaxOther(ts, t, ts'[t], q, |ts|); }
    }
    assert Cached(ps, ts, p);
    if ps'[p].state > EMBRYO && st <= EMBRYO {
      MaxAttained(ts', p, |ts|);
      var u :| 0 <= u < |ts| && ts'[u].mp == p && ts'[u].state == Max(ts', p);
      MaxAbove(ts, p, |ts|, u);
    }
  }

  /** The first branch of setstate: no need to look at the other threads. */
  lemma SetFast(ps: seq<Proc>, ts: seq<Thread>, p: nat, t: nat, st: PState, ts': seq<Thread>)
    requires Inv(ps, ts) && p < |ps| && t < |ts| && ts[t].mp == p && ps[p].state <= st
    requires |ts'| == |ts| && ts' == ts[t := ts'[t]] && ts'[t].mp == p && ts'[t].state == st
    ensures Max(ts', p) == st
  {
    assert Cached(ps, ts, p);
    forall u | 0 <= u < |ts| && ts'[u].mp == p ensures ts'[u].state <= st { MaxAbove(ts, p, |ts|, u); }
    MaxIs(ts', p, st);
  }

  // ---- steps that set no thread's state through setstate ----------------------------------------------

  /** A thread in the making joins a process that is at least EMBRYO. */
  lemma AttachKeeps(ps: seq<Proc>, ts: seq<Thread>, p: nat, t: nat, ts': seq<Thread>)
    requires Inv(ps, ts) && p < |ps| && t < |ts| && ts[t].mp == NOBODY && EMBRYO <= ps[p].state
    requires |ts'| == |ts| && ts' == ts[t := ts'[t]] && ts'[t].mp == p && ts'[t].state == EMBRYO
    ensures Inv(ps, ts')
  {
    forall q | 0 <= q < |ps| ensures Cached(ps, ts', q) {
      assert Cached(ps, ts, q);
      if q != p {
        MaxOther(ts, t, ts'[t], q, |ts|);
      } else {
        AttachMax(ts, t, ts'[t], p, |ts|);
      }
    }
  }

  lemma {:induction false} AttachMax(ts: seq<Thread>, t: nat, x: Thread, p: nat, n: nat)
    requires n <= |ts| && t < |ts| && ts[t].mp != p && x.mp == p
    ensures MaxState(ts[t := x], p, n) ==
              if t < n && MaxState(ts, p, n) < x.state then x.state else MaxState(ts, p, n)
  {
    if n > 0 { AttachMax(ts, t, x, p, n - 1); }
  }

  /** A zombie thread of a process with a running thread can go without notice. */
  lemma JoinKeeps(ps: seq<Proc>, ts: seq<Thread>, cur: nat, t: nat, ts': seq<Thread>)
    requires Inv(ps, ts) && cur < |ts| && t < |ts| && ts[cur].state == RUNNING && ts[t].state == ZOMBIE
    requires ts[t].mp == ts[cur].mp
    requires |ts'| == |ts| && ts' == ts[t := ts'[t]] && ts'[t].state == UNUSED && ts'[t].mp == NOBODY
    ensures Inv(ps, ts')
  {
    forall q | 0 <= q < |ps| ensures Cached(ps, ts', q) {
      assert Cached(ps, ts, q);
      if q != ts[t].mp {
        MaxOther(ts, t, ts'[t], q, |ts|);
      } else {
        MaxAbove(ts, q, |ts|, cur);
        MaxAttained(ts, q, |ts|);
        var u :| 0 <= u < |ts| && ts[u].mp == q && ts[u].state == Max(ts, q);
        assert ts'[u] == ts[u];
        forall v | 0 <= v < |ts| && ts'[v].mp == q ensures ts'[v].state <= Max(ts, q) { MaxAbove(ts, q, |ts|, v); }
        MaxIs(ts', q, Max(ts, q));
      }
    }
  }

  lemma {:induction false} MaxNone(ts: seq<Thread>, p: nat, n: nat)
    requires n <= |ts| && forall t :: 0 <= t < n ==> ts[t].mp != p
    ensures MaxState(ts, p, n) == UNUSED
  {
    if n > 0 { MaxNone(ts, p, n - 1); }
  }

  lemma {:induction false} MaxSame(ts: seq<Thread>, ts': seq<Thread>, p: nat, n: nat)
    requires n <= |ts| == |ts'|
    requires forall t :: 0 <= t < n ==> (ts'[t] == ts[t] || (ts[t].mp != p && ts'[t].mp != p))
    ensures MaxState(ts', p, n) == MaxState(ts, p, n)
  {
    if n > 0 { MaxSame(ts, ts', p, n - 1); }
  }

  /** The entry of a thread that wait or thread_join has freed. */
  function Cleared(x: Thread): Thread { Thread(UNUSED, 0, NOBODY, x.chan) }

  function Reaped(ts: seq<Thread>, p: nat): seq<Thread> {
    seq(|ts|, i requires 0 <= i < |ts| => if ts[i].mp == p then Cleared(ts[i]) else ts[i])
  }

  /** wait frees a process all of whose threads are zombies. */
  lemma ReapKeeps(ps: seq<Proc>, ts: seq<Thread>, p: nat, ps': seq<Proc>, ts': seq<Thread>)
    requires Inv(ps, ts) && p < |ps| && ps[p].state == ZOMBIE
    requires ts' == Reaped(ts, p) && |ps'| == |ps| && ps' == ps[p := ps'[p]] && ps'[p].state == UNUSED
    ensures Inv(ps', ts')
    ensures forall t :: 0 <= t < |ts| && ts[t].mp == p ==> ts[t].state == ZOMBIE
  {
    assert Cached(ps, ts, p);
    forall t | 0 <= t < |ts| && ts[t].mp == p ensures ts[t].state == ZOMBIE { MaxAbove(ts, p, |ts|, t); }
    forall q | 0 <= q < |ps| ensures Cached(ps', ts', q) {
      assert Cached(ps, ts, q);
      if q == p { MaxNone(ts', q, |ts|); } else { MaxSame(ts, ts', q, |ts|); }
    }
  }

  // ---- choosing a thread -----------------------------------------------------------------------------

  predicate Runs(x: Thread, p: nat) { x.mp == p && x.state == RUNNABLE }

  /** nextthd from `d` places after the pin on. */
  function ThreadFrom(ts: seq<Thread>, p: nat, pin: nat, d: nat): (r: int)
    requires pin < |ts| && 1 <= d <= |ts|
    ensures -1 <= r < |ts|
    ensures r < 0 ==> forall e :: d <= e <= |ts| ==> !Runs(ts[At(pin, e, |ts|)], p)
    ensures r >= 0 ==> Runs(ts[r], p) && d <= Gap(pin, r, |ts|)
    ensures r >= 0 ==> forall e :: d <= e < Gap(pin, r, |ts|) ==> !Runs(ts[At(pin, e, |ts|)], p)
    decreases |ts| - d
  {
    var k := At(pin, d, |ts|);
    if Runs(ts[k], p) then k else if d == |ts| then -1 else ThreadFrom(ts, p, pin, d + 1)
  }

  /** The search at the slot `t`, `d` places after the pin. */
  lemma FromStep(ts: seq<Thread>, p: nat, pin: nat, d: nat, t: nat)
    requires pin < |ts| && 1 <= d <= |ts| && t < |ts| && (t == pin + d || t == pin + d - |ts|)
    ensures Runs(ts[t], p) ==> ThreadFrom(ts, p, pin, d) == t
    ensures !Runs(ts[t], p) && t == pin ==> ThreadFrom(ts, p, pin, d) == -1
    ensures !Runs(ts[t], p) && t != pin ==> d < |ts| && ThreadFrom(ts, p, pin, d) == ThreadFrom(ts, p, pin, d + 1)
  {
  }

  /** A RUNNABLE process has a thread to run, so neither caller of nextthd can panic. */
  lemma RunnableHasThread(ps: seq<Proc>, ts: seq<Thread>, p: nat)
    requires Inv(ps, ts) && p < |ps| && ps[p].state == RUNNABLE
    ensures ps[p].pin < |ts| && ThreadFrom(ts, p, ps[p].pin, 1) >= 0
  {
    assert Cached(ps, ts, p);
    MaxAttained(ts, p, |ts|);
    var t :| 0 <= t < |ts| && ts[t].mp == p && ts[t].state == RUNNABLE;
    var d := Gap(ps[p].pin, t, |ts|);
    assert Runs(ts[At(ps[p].pin, d, |ts|)], p);
  }

  /** A process none of whose threads is above ZOMBIE is itself a zombie once it has threads. */
  lemma AllZombies(ps: seq<Proc>, ts: seq<Thread>, p: nat, t: nat)
    requires Inv(ps, ts) && p < |ps| && t < |ts| && ts[t].mp == p
    requires forall u :: 0 <= u < |ts| && ts[u].mp == p ==> ts[u].state == ZOMBIE
    ensures ps[p].state == ZOMBIE
  {
    assert Cached(ps, ts, p);
    MaxIs(ts, p, ZOMBIE);
  }

  /** The process of a thread above EMBRYO is at least that far, so its pin is set. */
  lemma PinSet(ps: seq<Proc>, ts: seq<Thread>, t: nat)
    requires Inv(ps, ts) && t < |ts| && ts[t].state > EMBRYO
    ensures 0 <= ts[t].mp < |ps| && ps[ts[t].mp].state >= ts[t].state && ps[ts[t].mp].pin < |ts|
  {
    assert Cached(ps, ts, ts[t].mp);
    MaxAbove(ts, ts[t].mp, |ts|, t);
  }

  /** Fields other than the state, or a valid pin, do not matter. */
  lemma SameStates(ps: seq<Proc>, ts: seq<Thread>, p: nat, x: Proc, ps': seq<Proc>)
    requires Inv(ps, ts) && p < |ps| && x.state == ps[p].state && (x.pin == ps[p].pin || x.pin < |ts|)
    requires ps' == ps[p := x]
    ensures Inv(ps', ts)
  {
    forall q | 0 <= q < |ps| ensures Cached(ps', ts, q) { assert Cached(ps, ts, q); }
  }

  lemma PinKeeps(ps: seq<Proc>, ts: seq<Thread>, p: nat, t: nat, ps': seq<Proc>)
    requires Inv(ps, ts) && p < |ps| && t < |ts| && ps' == ps[p := ps[p].(pin := t)]
    ensures Inv(ps', ts)
  {
    SameStates(ps, ts, p, ps[p].(pin := t), ps');
  }

  lemma StartKeeps(ps: seq<Proc>, ts: seq<Thread>, p: nat, x: Proc, ps': seq<Proc>)
    requires Inv(ps, ts) && p < |ps| && ps[p].state == UNUSED && x.state == EMBRYO
    requires ps' == ps[p := x]
    ensures Inv(ps', ts)
  {
    forall q | 0 <= q < |ps| ensures Cached(ps', ts, q) { assert Cached(ps, ts, q); }
  }

  /** fork gives an entry up again only before it has a thread. */
  lemma StopKeeps(ps: seq<Proc>, ts: seq<Thread>, p: nat, x: Proc, ps': seq<Proc>)
    requires Inv(ps, ts) && p < |ps| && Max(ts, p) == UNUSED && x.state == UNUSED
    requires ps' == ps[p := x]
    ensures Inv(ps', ts)
  {
    forall q | 0 <= q < |ps| ensures Cached(ps', ts, q) { assert Cached(ps, ts, q); }
  }

  lemma ChanKeeps(ps: seq<Proc>, ts: seq<Thread>, t: nat, chan: int, ts': seq<Thread>)
    requires Inv(ps, ts) && t < |ts| && ts' == ts[t := ts[t].(chan := chan)]
    ensures Inv(ps, ts')
  {
    forall q | 0 <= q < |ps| ensures Cached(ps, ts', q) {
      assert Cached(ps, ts, q);
      MaxStates(ts, ts', q, |ts|);
    }
  }

  lemma {:induction false} MaxStates(ts: seq<Thread>, ts': seq<Thread>, p: nat, n: nat)
    requires n <= |ts| == |ts'| && forall t :: 0 <= t < n ==> ts'[t].state == ts[t].state && ts'[t].mp == ts[t].mp
    ensures MaxState(ts', p, n) == MaxState(ts, p, n)
  {
    if n > 0 { MaxStates(ts, ts', p, n - 1); }
  }

  /** A thread that belongs to nobody is nobody's maximum. */
  lemma FreshKeeps(ps: seq<Proc>, ts: seq<Thread>, t: nat, ts': seq<Thread>)
    requires Inv(ps, ts) && t < |ts| && ts[t].mp == NOBODY && |ts'| == |ts| && ts' == ts[t := ts'[t]]
    requires ts'[t].mp == NOBODY && (ts'[t].state == EMBRYO || ts'[t].state == UNUSED)
    ensures Inv(ps, ts')
  {
    forall q | 0 <= q < |ps| ensures Cached(ps, ts', q) {
      assert Cached(ps, ts, q);
      MaxOther(ts, t, ts'[t], q, |ts|);
    }
  }

  lemma TopState(ts: seq<Thread>, p: nat, t: nat)
    requires t < |ts| && ts[t].mp == p && ts[t].state == RUNNABLE
    ensures Max(ts, p) == RUNNABLE
  {
    MaxAbove(ts, p, |ts|, t);
  }

  predicate Wakes(x: Thread, chan: int) { x.state == SLEEPING && x.chan == chan }

  predicate Rouses(x: Thread, p: nat) { x.state == SLEEPING && x.mp == p }

  /** Nothing but states differs; which states, the invariant says. */
  ghost predicate OnlyStates(ps: seq<Proc>, ps': seq<Proc>) {
    |ps'| == |ps| && forall q :: 0 <= q < |ps| ==> ps'[q] == ps[q].(state := ps'[q].state)
  }

  /** Zombies stay zombies, and nobody else becomes one. */
  ghost predicate ZombiesStay(ps: seq<Proc>, ps': seq<Proc>) {
    |ps'| == |ps| && forall q :: 0 <= q < |ps| ==> (ps'[q].state == ZOMBIE <==> ps[q].state == ZOMBIE)
  }

  /** A thread after a wakeup of those that wait for `chan`, if there was one. */
  function Noticed(x: Thread, chan: int, woken: bool): Thread {
    if woken && Wakes(x, chan) then x.(state := RUNNABLE) else x
  }

  datatype Event =
    | EExec(cur: nat)
    | EDispatch(p: nat) | ESched(p: nat, quantumLeft: bool) | EYield(t: nat) | ESleep(t: nat, chan: int)
    | EWakeup(chan: int) | EKill(pid: nat) | EFork(cur: nat, pid: nat, tid: nat, memory: bool, kstack: bool)
    | ECreate(cur: nat, tid: nat, kstack: bool) | EThreadExit(t: nat) | EExit(t: nat, init: nat)
    | EJoin(cur: nat, tid: nat) | EWait(cur: nat)

  /** Every other thread of `cur`'s process is a zombie. */
  ghost predicate Alone(ts: seq<Thread>, cur: nat)
    requires cur < |ts|
  {
    forall t :: 0 <= t < |ts| && t != cur && ts[t].mp == ts[cur].mp ==> ts[t].state == ZOMBIE
  }

  predicate ZombieChild(x: Proc, p: int) { x.parent == p && x.state == ZOMBIE }

  /** Among the first `n` processes there is a zombie child of `p`. */
  predicate Bereft(ps: seq<Proc>, p: int, n: nat)
    requires n <= |ps|
  {
    exists q :: 0 <= q < n && ZombieChild(ps[q], p)
  }

  predicate ZombieOf(x: Thread, p: int) { x.mp == p && x.state == ZOMBIE }

  datatype Tables = Tables(procs: seq<Proc>, threads: seq<Thread>)

  predicate IsRunning(s: Tables, t: nat) { t < |s.threads| && s.threads[t].state == RUNNING }

  predicate FreeProc(ps: seq<Proc>) { exists p :: 0 <= p < |ps| && ps[p].state == UNUSED }

  predicate FreeThread(ts: seq<Thread>) { exists t :: 0 <= t < |ts| && ts[t].state == UNUSED }

  ghost predicate SameThreads(ts: seq<Thread>, ts': seq<Thread>) {
    |ts'| == |ts| && forall t :: 0 <= t < |ts| ==> ts'[t].state == ts[t].state && ts'[t].mp == ts[t].mp
  }

  /** nextthd's thread runs, and is the pin. */
  ghost predicate Chosen(s: Tables, t: Tables, p: nat) {
    p < |s.procs| && s.procs[p].pin < |s.threads| &&
    var th := ThreadFrom(s.threads, p, s.procs[p].pin, 1);
    && 0 <= th < |s.threads| && t.threads == s.threads[th := s.threads[th].(state := RUNNING)]
    && t.procs == s.procs[p := s.procs[p].(state := Max(t.threads, p), pin := th)]
  }

  ghost predicate Killed(s: Tables, t: Tables, pid: nat, k: nat) {
    && k < |s.procs| == |t.procs| && s.procs[k].pid == pid && (forall q :: 0 <= q < k ==> s.procs[q].pid != pid)
    && t.procs == s.procs[k := s.procs[k].(killed := true, state := t.procs[k].state)]
    && RousesAll(s.threads, t.threads, k)
  }

  ghost predicate RousesAll(ts: seq<Thread>, ts': seq<Thread>, p: nat) {
    |ts'| == |ts| && forall i :: 0 <= i < |ts| ==>
      ts'[i] == if Rouses(ts[i], p) then ts[i].(state := RUNNABLE) else ts[i]
  }

  /** All waiters on the channel are woken but thread `cur`, which becomes `x`. */
  ghost predicate WakesBut(ts: seq<Thread>, ts': seq<Thread>, chan: int, cur: nat, x: Thread) {
    |ts'| == |ts| && forall i :: 0 <= i < |ts| ==> ts'[i] == if i == cur then x else Noticed(ts[i], chan, true)
  }

  ghost predicate Forked(s: Tables, t: Tables, cur: nat, pid: nat, tid: nat, np: nat, nth: nat) {
    && np < |s.procs| && s.procs[np].state == UNUSED && nth < |s.threads| && s.threads[nth].state == UNUSED
    && t.procs == s.procs[np := Proc(RUNNABLE, pid, nth, cur, s.procs[np].killed)]
    && t.threads == s.threads[nth := Thread(RUNNABLE, tid, np, s.threads[nth].chan)]
  }

  ghost predicate Created(s: Tables, t: Tables, cur: nat, tid: nat, th: nat) {
    && cur < |s.threads| && th < |s.threads| && s.threads[th].state == UNUSED && OnlyStates(s.procs, t.procs)
    && t.threads == s.threads[th := Thread(RUNNABLE, tid, s.threads[cur].mp, s.threads[th].chan)]
  }

  /** A zombie of the caller's process with that id loses its slot. */
  ghost predicate Collected(s: Tables, t: Tables, cur: nat, tid: nat, k: nat) {
    && cur < |s.threads| && k < |s.threads| && Joinable(s.threads[k], s.threads[cur].mp, tid)
    && t == s.(threads := s.threads[k := Cleared(s.threads[k])])
  }

  predicate Joinable(x: Thread, p: int, tid: nat) { ZombieOf(x, p) && x.tid == tid }

  /** A zombie child and all its threads lose their slots. */
  ghost predicate Buried(s: Tables, t: Tables, cur: nat, k: nat) {
    && k < |s.procs| && ZombieChild(s.procs[k], cur)
    && t == Tables(s.procs[k := Proc(UNUSED, 0, 0, NOBODY, false)], Reaped(s.threads, k))
  }

  /** What exec or exit by `cur` does: the process's sleepers are roused, and if there are none but zombies,
      the call goes on with `u`. */
  ghost predicate Rallied(s: Tables, u: Tables, cur: nat) {
    cur < |s.threads| && 0 <= s.threads[cur].mp && RousesAll(s.threads, u.threads, s.threads[cur].mp)
      && OnlyStates(s.procs, u.procs)
  }

  ghost predicate Freed(u: Tables, t: Tables, cur: nat) {
    && cur < |u.threads| == |t.threads| && t.procs == u.procs
    && forall i :: 0 <= i < |u.threads| ==>
         t.threads[i] == if i != cur && ZombieOf(u.threads[i], u.threads[cur].mp) then Cleared(u.threads[i])
                         else u.threads[i]
  }

  ghost predicate Exited(u: Tables, t: Tables, cur: nat, init: nat) {
    && cur < |u.threads| == |t.threads| && |t.procs| == |u.procs| && 0 <= u.threads[cur].mp < |u.procs|
    && t.threads[cur] == u.threads[cur].(state := ZOMBIE) && t.procs[u.threads[cur].mp].state == ZOMBIE
    && (forall q :: 0 <= q < |u.procs| ==>
          t.procs[q].parent == if u.procs[q].parent == u.threads[cur].mp then init else u.procs[q].parent)
    && (forall i :: 0 <= i < |u.threads| && i != cur ==>
          t.threads[i] == Noticed(Noticed(u.threads[i], u.procs[u.threads[cur].mp].parent, true), init,
                                  Bereft(u.procs, u.threads[cur].mp, |u.procs|)))
  }

  /** What a step does; process states that it does not give are the maximum of the threads'. */
  ghost predicate Did(e: Event, s: Tables, t: Tables) {
    match e
    case EExec(cur) =>
      if IsRunning(s, cur)
      then exists u :: Rallied(s, u, cur) && if Alone(u.threads, cur) then Freed(u, t, cur) else t == u
      else t == s
    case EDispatch(p) => if p < |s.procs| && s.procs[p].state == RUNNABLE then Chosen(s, t, p) else t == s
    case ESched(p, quantumLeft) =>
      if p < |s.procs| && s.procs[p].state == RUNNABLE && quantumLeft then Chosen(s, t, p) else t == s
    case EYield(th) =>
      if IsRunning(s, th)
      then t.threads == s.threads[th := s.threads[th].(state := RUNNABLE)] && OnlyStates(s.procs, t.procs)
      else t == s
    case ESleep(th, chan) =>
      if IsRunning(s, th)
      then t.threads == s.threads[th := s.threads[th].(state := SLEEPING, chan := chan)] && OnlyStates(s.procs, t.procs)
      else t == s
    case EWakeup(chan) =>
      && |t.threads| == |s.threads|
      && (forall i :: 0 <= i < |s.threads| ==> t.threads[i] == Noticed(s.threads[i], chan, true))
      && OnlyStates(s.procs, t.procs)
    case EKill(pid) =>
      if exists p :: 0 <= p < |s.procs| && s.procs[p].pid == pid then exists k :: Killed(s, t, pid, k) else t == s
    case EFork(cur, pid, tid, memory, kstack) =>
      if cur < |s.procs| && memory && kstack && FreeProc(s.procs) && FreeThread(s.threads)
      then exists np, nth :: Forked(s, t, cur, pid, tid, np, nth)
      else |t.procs| == |s.procs| && (forall p :: 0 <= p < |s.procs| ==> t.procs[p].state == s.procs[p].state)
           && SameThreads(s.threads, t.threads)
    case ECreate(cur, tid, kstack) =>
      if IsRunning(s, cur) && kstack && FreeThread(s.threads) then exists th :: Created(s, t, cur, tid, th)
      else t.procs == s.procs && SameThreads(s.threads, t.threads)
    case EThreadExit(th) =>
      if IsRunning(s, th)
      then WakesBut(s.threads, t.threads, s.threads[th].mp, th, s.threads[th].(state := ZOMBIE))
           && OnlyStates(s.procs, t.procs)
      else t == s
    case EExit(cur, init) =>
      if IsRunning(s, cur) && init < |s.procs| && init != s.threads[cur].mp
      then exists u :: Rallied(s, u, cur) && if Alone(u.threads, cur) then Exited(u, t, cur, init) else t == u
      else t == s
    case EJoin(cur, tid) =>
      if IsRunning(s, cur) && exists k :: 0 <= k < |s.threads| && Joinable(s.threads[k], s.threads[cur].mp, tid)
      then exists k :: Collected(s, t, cur, tid, k) else t == s
    case EWait(cur) =>
      if cur < |s.procs| && Bereft(s.procs, cur, |s.procs|) then exists k :: Buried(s, t, cur, k) else t == s
  }

  ghost predicate Follows(events: seq<Event>, states: seq<Tables>) {
    |states| == |events| + 1 && forall k :: 0 <= k < |events| ==> Did(events[k], states[k], states[k + 1])
  }

  /** What waiting for a child or a thread comes to after one scan. */
  datatype Scan = Found(k: nat) | Nothing | Wait

  class Ptable {
    var procs: seq<Proc>
    var threads: seq<Thread>

    ghost predicate Valid()
      reads this
    {
      Inv(procs, threads)
    }

    constructor (nproc: nat, nthread: nat)
      ensures Valid() && |procs| == nproc && |threads| == nthread
      ensures forall p :: 0 <= p < nproc ==> procs[p].state == UNUSED
    {
      procs := seq(nproc, i => Proc(UNUSED, 0, 0, NOBODY, false));
      threads := seq(nthread, i => Thread(UNUSED, 0, NOBODY, 0));
      new;
      forall p | 0 <= p < |procs| ensures Cached(procs, threads, p) { MaxNone(threads, p, |threads|); }
    }

    method SetState(p: nat, t: nat, st: PState)
      requires Valid() && p < |procs| && t < |threads| && threads[t].mp == p && st != UNUSED
      requires st > EMBRYO ==> procs[p].pin < |threads|
      modifies this
      ensures Valid()
      ensures threads == old(threads)[t := old(threads)[t].(state := st)]
      ensures procs == old(procs)[p := old(procs)[p].(state := Max(threads, p))]
    {
      threads := threads[t := threads[t].(state := st)];
      if procs[p].state <= st {
        SetFast(procs, old(threads), p, t, st, threads);
        SetKeeps(procs, old(threads), p, t, st, procs[p := procs[p].(state := st)], threads);
        procs := procs[p := procs[p].(state := st)];
        return;
      }
      var s := UNUSED;
      for i := 0 to |threads|
        invariant s == MaxState(threads, p, i)
      {
        if threads[i].mp == p && threads[i].state > s { s := threads[i].state; }
      }
      SetKeeps(procs, old(threads), p, t, st, procs[p := procs[p].(state := s)], threads);
      procs := procs[p := procs[p].(state := s)];
    }

    /** nextthd's search. */
    method FindThd(p: nat, pin: nat) returns (r: int)
      requires pin < |threads|
      ensures r == ThreadFrom(threads, p, pin, 1)
    {
      hide ThreadFrom;
      var t := pin + 1;
      ghost var d := 1;
      while true
        invariant 1 <= d <= |threads| && ThreadFrom(threads, p, pin, 1) == ThreadFrom(threads, p, pin, d)
        invariant t == pin + d || t == pin + d - |threads|
        invariant 0 <= t <= |threads|
        decreases |threads| - d, t
      {
        ghost var d0, t0 := d, t;
        while t < |threads|
          invariant d0 < d || (d0 == d && t == t0)
          invariant 1 <= d <= |threads| && ThreadFrom(threads, p, pin, 1) == ThreadFrom(threads, p, pin, d)
          invariant t == pin + d || t == pin + d - |threads|
          invariant 0 <= t <= |threads|
          decreases |threads| - t
        {
          FromStep(threads, p, pin, d, t);
          if threads[t].mp == p && threads[t].state == RUNNABLE { return t; }
          if t == pin { return -1; }
          t, d := t + 1, d + 1;
        }
        t := 0;
      }
      assert false;
    }

    /** nextthd: the next RUNNABLE thread of `p` after its pin, which moves there. */
    method NextThd(p: nat) returns (r: int)
      requires p < |procs| && procs[p].pin < |threads|
      modifies this`procs
      ensures r == ThreadFrom(threads, p, old(procs)[p].pin, 1)
      ensures procs == if r < 0 then old(procs) else old(procs)[p := old(procs)[p].(pin := r)]
    {
      r := FindThd(p, procs[p].pin);
      if r >= 0 { procs := procs[p := procs[p].(pin := r)]; }
    }

    /** The scheduler's dispatch of process `p`: "no thread in process" is unreachable. */
    method Dispatch(p: nat) returns (t: nat)
      requires Valid() && p < |procs| && procs[p].state == RUNNABLE
      modifies this
      ensures Valid() && t < |threads| && t == ThreadFrom(old(threads), p, old(procs)[p].pin, 1)
      ensures threads == old(threads)[t := old(threads)[t].(state := RUNNING)] && old(threads)[t].mp == p
      ensures procs == old(procs)[p := old(procs)[p].(state := Max(threads, p), pin := t)]
    {
      RunnableHasThread(procs, threads, p);
      var r := NextThd(p);
      t := r;
      PinKeeps(old(procs), threads, p, t, procs);
      SetState(p, t, RUNNING);
    }

    /** sched's own choice, made while the quantum lasts. */
    method SchedNext(p: nat, quantumLeft: bool) returns (t: int)
      requires Valid() && p < |procs|
      modifies this
      ensures Valid() && |threads| == |old(threads)|
      ensures t >= 0 <==> old(procs)[p].state == RUNNABLE && quantumLeft
      ensures 0 <= t ==> t < |threads| && t == ThreadFrom(old(threads), p, old(procs)[p].pin, 1)
      ensures 0 <= t ==> threads == old(threads)[t := old(threads)[t].(state := RUNNING)]
      ensures 0 <= t ==> procs == old(procs)[p := old(procs)[p].(state := Max(threads, p), pin := t)]
      ensures t < 0 ==> threads == old(threads) && procs == old(procs)
    {
      t := -1;
      if procs[p].state == RUNNABLE && quantumLeft { t := Dispatch(p); }
    }

    method Yield(t: nat)
      requires Valid() && t < |threads| && threads[t].state == RUNNING
      modifies this
      ensures Valid() && threads == old(threads)[t := old(threads)[t].(state := RUNNABLE)]
      ensures OnlyStates(old(procs), procs)
    {
      PinSet(procs, threads, t);
      SetState(threads[t].mp, t, RUNNABLE);
    }

    method Sleep(t: nat, chan: int)
      requires Valid() && t < |threads| && threads[t].state == RUNNING
      modifies this
      ensures Valid() && threads == old(threads)[t := old(threads)[t].(state := SLEEPING, chan := chan)]
      ensures OnlyStates(old(procs), procs)
    {
      PinSet(procs, threads, t);
      ChanKeeps(procs, threads, t, chan, threads[t := threads[t].(chan := chan)]);
      threads := threads[t := threads[t].(chan := chan)];
      SetState(threads[t].mp, t, SLEEPING);
    }

    /** wakeup1: exactly the sleepers on `chan` become RUNNABLE. */
    method Wakeup1(chan: int)
      requires Valid()
      modifies this
      ensures Valid() && |threads| == |old(threads)| && |procs| == |old(procs)|
      ensures forall i :: 0 <= i < |threads| ==>
                threads[i] == if Wakes(old(threads)[i], chan) then old(threads)[i].(state := RUNNABLE)
                  else old(threads)[i]
      ensures OnlyStates(old(procs), procs) && ZombiesStay(old(procs), procs)
    {
      for t := 0 to |threads|
        invariant Valid() && |threads| == |old(threads)| && |procs| == |old(procs)|
        invariant forall i :: 0 <= i < t ==>
                    threads[i] == if Wakes(old(threads)[i], chan) then old(threads)[i].(state := RUNNABLE)
                      else old(threads)[i]
        invariant forall i :: t <= i < |threads| ==> threads[i] == old(threads)[i]
        invariant OnlyStates(old(procs), procs) && ZombiesStay(old(procs), procs)
      {
        if threads[t].state == SLEEPING && threads[t].chan == chan {
          PinSet(procs, threads, t);
          SetState(threads[t].mp, t, RUNNABLE);
          TopState(threads, threads[t].mp, t);
        }
      }
    }

    /** kill and allthdexit wake every sleeping thread of `p`. */
    method RouseAll(p: nat)
      requires Valid() && p < |procs|
      modifies this
      ensures Valid() && |threads| == |old(threads)| && |procs| == |old(procs)|
      ensures forall i :: 0 <= i < |threads| ==>
                threads[i] == if Rouses(old(threads)[i], p) then old(threads)[i].(state := RUNNABLE)
                  else old(threads)[i]
      ensures procs == old(procs)[p := old(procs)[p].(state := procs[p].state)]
    {
      for t := 0 to |threads|
        invariant Valid() && |threads| == |old(threads)| && |procs| == |old(procs)|
        invariant forall i :: 0 <= i < t ==>
                    threads[i] == if Rouses(old(threads)[i], p) then old(threads)[i].(state := RUNNABLE)
                      else old(threads)[i]
        invariant forall i :: t <= i < |threads| ==> threads[i] == old(threads)[i]
        invariant procs == old(procs)[p := old(procs)[p].(state := procs[p].state)]
      {
        if threads[t].mp == p && threads[t].state == SLEEPING {
          PinSet(procs, threads, t);
          SetState(p, t, RUNNABLE);
        }
      }
    }

    /** kill: the first slot with the pid is marked, and exactly its sleeping threads are woken. */
    method Kill(pid: nat) returns (code: int, ghost k: nat)
      requires Valid()
      modifies this
      ensures Valid() && |threads| == |old(threads)| && |procs| == |old(procs)|
      ensures code == 0 <==> exists p :: 0 <= p < |procs| && old(procs)[p].pid == pid
      ensures code != 0 ==> code == -1 && procs == old(procs) && threads == old(threads)
      ensures code == 0 ==> k < |procs| && old(procs)[k].pid == pid
      ensures code == 0 ==> forall q :: 0 <= q < k ==> old(procs)[q].pid != pid
      ensures code == 0 ==> procs == old(procs)[k := old(procs)[k].(killed := true, state := procs[k].state)]
      ensures code == 0 ==> forall i :: 0 <= i < |threads| ==>
                threads[i] == if Rouses(old(threads)[i], k) then old(threads)[i].(state := RUNNABLE)
                  else old(threads)[i]
    {
      k := 0;
      for p := 0 to |procs|
        invariant procs == old(procs) && threads == old(threads)
        invariant forall q :: 0 <= q < p ==> procs[q].pid != pid
      {
        if procs[p].pid == pid {
          SameStates(procs, threads, p, procs[p].(killed := true), procs[p := procs[p].(killed := true)]);
          procs := procs[p := procs[p].(killed := true)];
          RouseAll(p);
          return 0, p;
        }
      }
      return -1, 0;
    }

    method AllocProc(pid: nat) returns (r: int)
      requires Valid()
      modifies this`procs
      ensures Valid() && r < |procs| == |old(procs)|
      ensures r < 0 <==> forall p :: 0 <= p < |procs| ==> old(procs)[p].state != UNUSED
      ensures r < 0 ==> procs == old(procs)
      ensures 0 <= r ==> Max(threads, r) == UNUSED
      ensures 0 <= r ==> old(procs)[r].state == UNUSED
      ensures 0 <= r ==> procs == old(procs)[r := old(procs)[r].(state := EMBRYO, pid := pid)]
    {
      for p := 0 to |procs|
        invariant procs == old(procs) && forall q :: 0 <= q < p ==> procs[q].state != UNUSED
      {
        if procs[p].state == UNUSED {
          assert Cached(procs, threads, p);
          StartKeeps(procs, threads, p, procs[p].(state := EMBRYO, pid := pid),
              procs[p := procs[p].(state := EMBRYO, pid := pid)]);
          procs := procs[p := procs[p].(state := EMBRYO, pid := pid)];
          return p;
        }
      }
      return -1;
    }

    /** allocthd; `kstack` says whether a kernel stack could be had. */
    method AllocThd(p: nat, tid: nat, kstack: bool) returns (r: int)
      requires Valid() && p < |procs| && EMBRYO <= procs[p].state
      modifies this`threads
      ensures Valid() && r < |threads| == |old(threads)|
      ensures 0 <= r ==> old(threads)[r].state == UNUSED
      ensures 0 <= r ==> threads == old(threads)[r := old(threads)[r].(state := EMBRYO, tid := tid, mp := p)]
      ensures r < 0 ==> forall q :: 0 <= q < |procs| ==> Max(threads, q) == Max(old(threads), q)
      ensures r < 0 ==> forall t :: 0 <= t < |threads| ==>
                threads[t].state == old(threads)[t].state && threads[t].mp == old(threads)[t].mp
      ensures r < 0 <==> !kstack || forall t :: 0 <= t < |threads| ==> old(threads)[t].state != UNUSED
    {
      for t := 0 to |threads|
        invariant threads == old(threads) && forall q :: 0 <= q < t ==> threads[q].state != UNUSED
      {
        if threads[t].state == UNUSED {
          FreshKeeps(procs, threads, t, threads[t := threads[t].(state := EMBRYO, tid := tid)]);
          threads := threads[t := threads[t].(state := EMBRYO, tid := tid)];
          if !kstack {
            FreshKeeps(procs, threads, t, threads[t := threads[t].(state := UNUSED)]);
            threads := threads[t := threads[t].(state := UNUSED)];
            forall q | 0 <= q < |procs| ensures Max(threads, q) == Max(old(threads), q) {
              MaxStates(old(threads), threads, q, |threads|);
            }
            return -1;
          }
          AttachKeeps(procs, threads, p, t, threads[t := threads[t].(mp := p)]);
          threads := threads[t := threads[t].(mp := p)];
          return t;
        }
      }
      return -1;
    }

    /** The end of fork and of thread_create: the new thread and its process become RUNNABLE. */
    method Publish(p: nat, t: nat)
      requires Valid() && p < |procs| && t < |threads| && threads[t].mp == p && procs[p].pin < |threads|
      modifies this
      ensures Valid() && threads == old(threads)[t := old(threads)[t].(state := RUNNABLE)]
      ensures procs == old(procs)[p := old(procs)[p].(state := RUNNABLE)]
    {
      ghost var ts := threads[t := threads[t].(state := RUNNABLE)];
      TopState(ts, p, t);
      SetKeeps(procs, threads, p, t, RUNNABLE, procs[p := procs[p].(state := RUNNABLE)], ts);
      procs := procs[p := procs[p].(state := RUNNABLE)];
      threads := threads[t := threads[t].(state := RUNNABLE)];
    }

    /** fork, by process `curproc`; `memory` says whether the address space could be copied. */
    method Fork(curproc: nat, pid: nat, tid: nat, memory: bool, kstack: bool) returns (np: int, nth: int)
      requires Valid() && curproc < |procs|
      modifies this
      ensures Valid() && |procs| == |old(procs)| && |threads| == |old(threads)|
      ensures 0 <= np ==> 0 <= nth < |threads| && np < |procs| && old(procs)[np].state == UNUSED
      ensures 0 <= np ==> old(threads)[nth].state == UNUSED
      ensures 0 <= np ==> procs == old(procs)[np := Proc(RUNNABLE, pid, nth, curproc, old(procs)[np].killed)]
      ensures 0 <= np ==> threads == old(threads)[nth := Thread(RUNNABLE, tid, np, old(threads)[nth].chan)]
      ensures 0 <= np <==> memory && kstack && (exists p :: 0 <= p < |procs| && old(procs)[p].state == UNUSED)
                           && exists t :: 0 <= t < |threads| && old(threads)[t].state == UNUSED
      ensures np < 0 ==> forall p :: 0 <= p < |procs| ==> procs[p].state == old(procs)[p].state
      ensures np < 0 ==> forall t :: 0 <= t < |threads| ==>
                threads[t].state == old(threads)[t].state && threads[t].mp == old(threads)[t].mp
    {
      nth := -1;
      np := AllocProc(pid);
      if np < 0 { return; }
      if memory { nth := AllocThd(np, tid, kstack); }
      if nth < 0 {
        StopKeeps(procs, threads, np, procs[np].(state := UNUSED), procs[np := procs[np].(state := UNUSED)]);
        procs := procs[np := procs[np].(state := UNUSED)];
        return -1, -1;
      }
      SameStates(procs, threads, np, procs[np].(pin := nth, parent := curproc),
          procs[np := procs[np].(pin := nth, parent := curproc)]);
      procs := procs[np := procs[np].(pin := nth, parent := curproc)];
      Publish(np, nth);
    }

    /** thread_create by the running thread `cur`. */
    method ThreadCreate(cur: nat, tid: nat, kstack: bool) returns (t: int)
      requires Valid() && cur < |threads| && threads[cur].state == RUNNING
      modifies this
      ensures Valid() && |procs| == |old(procs)| && |threads| == |old(threads)| && OnlyStates(old(procs), procs)
      ensures 0 <= t <==> kstack && exists u :: 0 <= u < |threads| && old(threads)[u].state == UNUSED
      ensures 0 <= t ==> t < |threads| && old(threads)[t].state == UNUSED
      ensures 0 <= t ==> threads == old(threads)[t := Thread(RUNNABLE, tid, old(threads)[cur].mp, old(threads)[t].chan)]
      ensures t < 0 ==> procs == old(procs) && SameThreads(old(threads), threads)
    {
      PinSet(procs, threads, cur);
      var p := threads[cur].mp;
      t := AllocThd(p, tid, kstack);
      if t >= 0 { Publish(p, t); }
    }

    /** The end of exit and of thread_exit. */
    method ThreadExit(t: nat, chan: int)
      requires Valid() && t < |threads| && threads[t].state == RUNNING
      modifies this
      ensures Valid() && |procs| == |old(procs)| && |threads| == |old(threads)|
      ensures threads[t] == old(threads)[t].(state := ZOMBIE) && OnlyStates(old(procs), procs)
      ensures forall i :: 0 <= i < |threads| && i != t ==>
                threads[i] == if Wakes(old(threads)[i], chan) then old(threads)[i].(state := RUNNABLE)
                  else old(threads)[i]
    {
      Wakeup1(chan);
      PinSet(procs, threads, t);
      SetState(threads[t].mp, t, ZOMBIE);
    }

    /** One scan of thread_join by the running thread `cur`. */
    method JoinScan(cur: nat, tid: nat) returns (r: Scan)
      requires Valid() && cur < |threads| && threads[cur].state == RUNNING
      modifies this`threads
      ensures Valid() && |threads| == |old(threads)|
      ensures r.Found? ==> r.k < |threads| && old(threads)[r.k].state == ZOMBIE && old(threads)[r.k].tid == tid
                           && old(threads)[r.k].mp == old(threads)[cur].mp
                           && threads == old(threads)[r.k := Cleared(old(threads)[r.k])]
      ensures !r.Found? ==> threads == old(threads)
      ensures r.Nothing? ==> forall t :: 0 <= t < |threads| && threads[t].mp == threads[cur].mp ==>
                threads[t].tid != tid
      ensures r.Wait? ==>
                forall t :: 0 <= t < |threads| && threads[t].mp == threads[cur].mp && threads[t].tid == tid ==>
                  threads[t].state != ZOMBIE
    {
      var havethds := false;
      for t := 0 to |threads|
        invariant threads == old(threads)
        invariant havethds <==> exists i :: 0 <= i < t && threads[i].mp == threads[cur].mp && threads[i].tid == tid
        invariant forall i :: 0 <= i < t && threads[i].mp == threads[cur].mp && threads[i].tid == tid ==>
                    threads[i].state != ZOMBIE
      {
        if threads[t].mp == threads[cur].mp && threads[t].tid == tid {
          havethds := true;
          if threads[t].state == ZOMBIE {
            JoinKeeps(procs, threads, cur, t, threads[t := Cleared(threads[t])]);
            threads := threads[t := Cleared(threads[t])];
            return Found(t);
          }
        }
      }
      return if havethds then Wait else Nothing;
    }

    /** wait's treatment of a zombie child: its threads were all zombies, and are freed. */
    method Reap(p: nat)
      requires Valid() && p < |procs| && procs[p].state == ZOMBIE
      modifies this
      ensures Valid() && threads == Reaped(old(threads), p)
      ensures forall t :: 0 <= t < |threads| && old(threads)[t].mp == p ==> old(threads)[t].state == ZOMBIE
      ensures procs == old(procs)[p := Proc(UNUSED, 0, 0, NOBODY, false)]
    {
      ReapKeeps(procs, threads, p, procs[p := Proc(UNUSED, 0, 0, NOBODY, false)], Reaped(threads, p));
      for t := 0 to |threads|
        invariant |threads| == |old(threads)| && procs == old(procs)
        invariant forall i :: 0 <= i < t ==> threads[i] == Reaped(old(threads), p)[i]
        invariant forall i :: t <= i < |threads| ==> threads[i] == old(threads)[i]
      {
        if threads[t].mp == p { threads := threads[t := Cleared(threads[t])]; }
      }
      assert threads == Reaped(old(threads), p);
      procs := procs[p := Proc(UNUSED, 0, 0, NOBODY, false)];
    }

    /** One scan of wait by process `cur`. */
    method WaitScan(cur: nat) returns (r: Scan)
      requires Valid() && cur < |procs|
      modifies this
      ensures Valid() && |procs| == |old(procs)| && |threads| == |old(threads)|
      ensures r.Found? ==> r.k < |procs| && old(procs)[r.k].parent == cur && old(procs)[r.k].state == ZOMBIE
      ensures r.Found? ==> forall t :: 0 <= t < |threads| && old(threads)[t].mp == r.k ==>
                old(threads)[t].state == ZOMBIE
      ensures r.Found? ==> threads == Reaped(old(threads), r.k)
      ensures r.Found? ==> procs == old(procs)[r.k := Proc(UNUSED, 0, 0, NOBODY, false)]
      ensures r.Wait? ==> forall p :: 0 <= p < |procs| && procs[p].parent == cur ==> procs[p].state != ZOMBIE
      ensures !r.Found? ==> procs == old(procs) && threads == old(threads)
      ensures r.Nothing? ==> forall p :: 0 <= p < |procs| ==> procs[p].parent != cur
    {
      var havekids := false;
      for p := 0 to |procs|
        invariant procs == old(procs) && threads == old(threads)
        invariant havekids <==> exists i :: 0 <= i < p && procs[i].parent == cur
        invariant forall i :: 0 <= i < p && procs[i].parent == cur ==> procs[i].state != ZOMBIE
      {
        if procs[p].parent == cur {
          havekids := true;
          if procs[p].state == ZOMBIE {
            Reap(p);
            return Found(p);
          }
        }
      }
      return if havekids then Wait else Nothing;
    }

    /** allthdexit's scan: is `cur` the only thread of its process that is left? */
    method AllExited(cur: nat) returns (all: bool)
      requires cur < |threads|
      ensures all <==> Alone(threads, cur)
    {
      for t := 0 to |threads|
        invariant forall i :: 0 <= i < t && i != cur && threads[i].mp == threads[cur].mp ==> threads[i].state == ZOMBIE
      {
        if t != cur && threads[t].mp == threads[cur].mp && threads[t].state != ZOMBIE { return false; }
      }
      return true;
    }

    /** exit's second loop: the children of `cur`'s process go to init, which is told of the zombies. */
    method PassToInit(cur: nat, initproc: nat)
      requires Valid() && cur < |threads| && threads[cur].state == RUNNING && initproc < |procs|
      requires Alone(threads, cur) && initproc != threads[cur].mp
      modifies this
      ensures Valid() && |procs| == |old(procs)| && |threads| == |old(threads)|
      ensures threads[cur] == old(threads)[cur] && Alone(threads, cur) && ZombiesStay(old(procs), procs)
      ensures forall q :: 0 <= q < |procs| ==>
                procs[q].parent == if old(procs)[q].parent == threads[cur].mp then initproc else old(procs)[q].parent
      ensures forall i :: 0 <= i < |threads| && i != cur ==>
                threads[i] == Noticed(old(threads)[i], initproc, Bereft(old(procs), threads[cur].mp, |procs|))
    {
      hide Inv, MaxState, Max;
      var p := threads[cur].mp;
      for q := 0 to |procs|
        invariant Valid() && |procs| == |old(procs)| && |threads| == |old(threads)|
        invariant threads[cur] == old(threads)[cur] && Alone(threads, cur) && ZombiesStay(old(procs), procs)
        invariant forall i :: 0 <= i < q ==>
                    procs[i].parent == if old(procs)[i].parent == p then initproc else old(procs)[i].parent
        invariant forall i :: q <= i < |procs| ==> procs[i].parent == old(procs)[i].parent
        invariant forall i :: 0 <= i < |threads| && i != cur ==>
                    threads[i] == Noticed(old(threads)[i], initproc, Bereft(old(procs), p, q))
      {
        if procs[q].parent == p {
          SameStates(procs, threads, q, procs[q].(parent := initproc), procs[q := procs[q].(parent := initproc)]);
          procs := procs[q := procs[q].(parent := initproc)];
          if procs[q].state == ZOMBIE { Wakeup1(initproc); }
        }
      }
    }

    /** The rest of exit once `cur` is alone: the process becomes a zombie, its children init's. */
    method FinishExit(cur: nat, initproc: nat)
      requires Valid() && cur < |threads| && threads[cur].state == RUNNING && initproc < |procs|
      requires Alone(threads, cur) && initproc != threads[cur].mp
      modifies this
      ensures Valid() && |procs| == |old(procs)| && |threads| == |old(threads)|
      ensures threads[cur] == old(threads)[cur].(state := ZOMBIE)
      ensures 0 <= threads[cur].mp < |procs| && procs[threads[cur].mp].state == ZOMBIE
      ensures forall q :: 0 <= q < |procs| ==>
                procs[q].parent == if old(procs)[q].parent == threads[cur].mp then initproc else old(procs)[q].parent
      ensures forall i :: 0 <= i < |threads| && i != cur ==>
                threads[i] == Noticed(Noticed(old(threads)[i], old(procs)[threads[cur].mp].parent, true), initproc,
                                      Bereft(old(procs), threads[cur].mp, |procs|))
    {
      hide Inv, MaxState, Max;
      PinSet(procs, threads, cur);
      var p := threads[cur].mp;
      Wakeup1(procs[p].parent);
      PassToInit(cur, initproc);
      PinSet(procs, threads, cur);
      SetState(p, cur, ZOMBIE);
      AllZombies(procs, threads, p, cur);
    }

    /** exec's loop once `cur` is alone: its process's zombie threads are freed. */
    method ExecFree(cur: nat)
      requires Valid() && cur < |threads| && threads[cur].state == RUNNING
      modifies this`threads
      ensures Valid() && |threads| == |old(threads)|
      ensures forall i :: 0 <= i < |threads| ==>
                threads[i] ==
                  if i != cur && ZombieOf(old(threads)[i], old(threads)[cur].mp) then Cleared(old(threads)[i])
                  else old(threads)[i]
    {
      for t := 0 to |threads|
        invariant Valid() && |threads| == |old(threads)| && threads[cur] == old(threads)[cur]
        invariant forall i :: 0 <= i < t ==>
                    threads[i] ==
                      if i != cur && ZombieOf(old(threads)[i], threads[cur].mp) then Cleared(old(threads)[i])
                      else old(threads)[i]
        invariant forall i :: t <= i < |threads| ==> threads[i] == old(threads)[i]
      {
        if t != cur && threads[t].mp == threads[cur].mp && threads[t].state == ZOMBIE {
          JoinKeeps(procs, threads, cur, t, threads[t := Cleared(threads[t])]);
          threads := threads[t := Cleared(threads[t])];
        }
      }
    }

    ghost function Now(): Tables
      reads this
    {
      Tables(procs, threads)
    }

    /** exec once the image is loaded, and exit: wait for the other threads, or go on without them. */
    method Last(cur: nat, init: nat, exec: bool)
      requires Valid() && IsRunning(Tables(procs, threads), cur)
               && (exec || (init < |procs| && init != threads[cur].mp))
      modifies this
      ensures Valid() && Did(if exec then EExec(cur) else EExit(cur, init), old(Now()), Now())
    {
      hide Inv, Max, MaxState;
      PinSet(procs, threads, cur);
      RouseAll(threads[cur].mp);
      ghost var u := Now();
      assert Rallied(old(Now()), u, cur);
      var all := AllExited(cur);
      if all {
        if exec { ExecFree(cur); } else { FinishExit(cur, init); }
      }
    }

    /** One event, if its caller and slots are there. */
    method Step(e: Event)
      requires Valid()
      modifies this
      ensures Valid() && Did(e, old(Now()), Now())
    {
      hide Inv, Max, MaxState, Rallied, Freed, Exited, Killed, Forked, Created, Collected, Buried;
      match e {
        case EExec(cur) => if cur < |threads| && threads[cur].state == RUNNING { Last(cur, 0, true); }
        case EDispatch(p) => if p < |procs| && procs[p].state == RUNNABLE { Pinned(p); var _ := Dispatch(p); }
        case ESched(p, quantumLeft) => if p < |procs| { Pinned(p); var _ := SchedNext(p, quantumLeft); }
        case EYield(t) => if t < |threads| && threads[t].state == RUNNING { Yield(t); }
        case ESleep(t, chan) => if t < |threads| && threads[t].state == RUNNING { Sleep(t, chan); }
        case EWakeup(chan) => Wakeup1(chan);
        case EThreadExit(t) => if t < |threads| && threads[t].state == RUNNING { ThreadExit(t, threads[t].mp); }
        case EExit(t, init) =>
          if t < |threads| && threads[t].state == RUNNING && init < |procs| && init != threads[t].mp {
            Last(t, init, false);
          }
        case EKill(_) => Search(e);
        case EFork(_, _, _, _, _) => Search(e);
        case ECreate(_, _, _) => Search(e);
        case EJoin(_, _) => Search(e);
        case EWait(_) => Search(e);
      }
    }

    /** The steps that search the tables. */
    method Search(e: Event)
      requires Valid() && (e.EKill? || e.EFork? || e.ECreate? || e.EJoin? || e.EWait?)
      modifies this
      ensures Valid() && Did(e, old(Now()), Now())
    {
      hide Inv, Max, MaxState, Rallied, Freed, Exited;
      match e {
        case EKill(pid) =>
          var code, k := Kill(pid);
          assert code == 0 ==> Killed(old(Now()), Now(), pid, k);
        case EFork(cur, pid, tid, memory, kstack) =>
          if cur < |procs| {
            var np, nth := Fork(cur, pid, tid, memory, kstack);
            assert 0 <= np ==> Forked(old(Now()), Now(), cur, pid, tid, np, nth);
          }
        case ECreate(cur, tid, kstack) =>
          if cur < |threads| && threads[cur].state == RUNNING {
            var t := ThreadCreate(cur, tid, kstack);
            assert 0 <= t ==> Created(old(Now()), Now(), cur, tid, t);
          }
        case EJoin(cur, tid) =>
          if cur < |threads| && threads[cur].state == RUNNING {
            var r := JoinScan(cur, tid);
            assert r.Found? ==> Collected(old(Now()), Now(), cur, tid, r.k);
          }
        case EWait(cur) =>
          if cur < |procs| {
            var r := WaitScan(cur);
            assert r.Found? ==> Buried(old(Now()), Now(), cur, r.k);
          }
      }
    }

    lemma Pinned(p: nat)
      requires Valid() && p < |procs|
      ensures procs[p].state == RUNNABLE ==> procs[p].pin < |threads|
    {
      assert Cached(procs, threads, p);
    }

    /** Any sequence of steps keeps every process's state the greatest of its threads'. */
    method Run(events: seq<Event>) returns (ghost states: seq<Tables>)
      requires Valid()
      modifies this
      ensures Valid() && Follows(events, states) && states[0] == old(Now()) && states[|events|] == Now()
    {
      hide Inv, Did;
      states := [Now()];
      for k := 0 to |events|
        invariant Valid() && Follows(events[..k], states) && states[0] == old(Now()) && states[k] == Now()
      {
        Step(events[k]);
        FollowsOne(events[..k], states, events[k], Now());
        assert events[..k] + [events[k]] == events[..k + 1];
        states := states + [Now()];
      }
      assert events[..|events|] == events;
    }
  }

  lemma FollowsOne(events: seq<Event>, states: seq<Tables>, e: Event, t: Tables)
    requires Follows(events, states) && Did(e, states[|events|], t)
    ensures Follows(events + [e], states + [t])
  {
    hide Did;
    var es, ss := events + [e], states + [t];
    forall k | 0 <= k < |es| ensures Did(es[k], ss[k], ss[k + 1]) {
      if k < |events| { assert Did(events[k], states[k], states[k + 1]); }
    }
  }
}
