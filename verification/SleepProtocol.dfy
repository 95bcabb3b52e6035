/** sleep and wakeup (proc.c) as used around one spinlock `lk` and one channel: threads test a
    condition under `lk`, sleep while it holds, and are woken by whoever may have ended it. One
    step is one lock operation or one change under a lock; steps of any number of threads
    interleave freely. */
module SleepProtocol {

  type Tid = nat

  const NONE: int := -1

  /** Where a thread is. */
  datatype Pc =
    | Out                 // not in the protocol
    | Want | Check        // acquiring lk to test the condition; holding it
    | S1 | S2 | S3 | S4   // sleep(): acquiring ptable.lock; holding both; lk released; marked SLEEPING
    | Asleep | Woken | W1 // switched away; marked RUNNABLE; running again, holding ptable.lock
    | Ask | Act           // acquiring lk to change the state; holding it
    | K0 | K1 | K2        // wakeup(): acquiring ptable.lock; holding both; sleepers marked
    | Leaving             // holding lk, about to release it
    | Table               // holding ptable.lock for something else

  predicate HasLk(pc: Pc) { pc in {Check, S1, S2, Act, K0, K1, K2, Leaving} }
  predicate HasTable(pc: Pc) { pc in {S2, S3, S4, W1, K1, K2, Table} }

  /** Past the release of lk inside sleep(), and not yet woken. */
  predicate Sleeper(pc: Pc) { pc in {S3, S4, Asleep} }

  /** The client: the condition to sleep on, what a thread does when it is over, what threads do
      under `lk` otherwise (with or without a wakeup), and what changes without `lk`. */
  datatype Rules<!R> = Rules(blocked: R -> bool, enter: (Tid, R) -> R,
                             change: (Tid, R, R, bool) -> bool, silent: (R, R) -> bool, inv: R -> bool)

  /** Only a change that is followed by a wakeup may end the condition. */
  ghost predicate Sound<R(!new)>(u: Rules<R>) {
    && (forall t, r :: u.inv(r) && !u.blocked(r) ==> u.inv(u.enter(t, r)))
    && (forall t, r, q, w :: u.change(t, r, q, w) && u.inv(r) ==> u.inv(q) && (!w && u.blocked(r) ==> u.blocked(q)))
    && (forall r, q :: u.silent(r, q) && u.inv(r) ==> u.inv(q) && (u.blocked(r) ==> u.blocked(q)))
  }

  /** `lk` and `table` name the holders of the two spinlocks. */
  datatype State<R> = State(r: R, pcs: seq<Pc>, lk: int, table: int)

  datatype Action<R> =
    | Begin(t: Tid, pc: Pc)                // Want, Ask or Table
    | Go(t: Tid)                           // the thread's next step, where it has only one
    | Change(t: Tid, q: R, wake: bool)
    | Kill(t: Tid)                         // kill() wakes a sleeper early
    | Silent(q: R)

  predicate LkFree<R>(s: State<R>) { s.lk == NONE }
  predicate TableFree<R>(s: State<R>) { s.table == NONE }

  ghost predicate Enabled<R>(u: Rules<R>, s: State<R>, a: Action<R>) {
    match a
    case Begin(t, pc) => t < |s.pcs| && s.pcs[t] == Out && (pc == Want || pc == Ask || (pc == Table && TableFree(s)))
    case Go(t) => t < |s.pcs| && (
      match s.pcs[t]
      case Out | Asleep | Act => false
      case Want | Ask => LkFree(s)
      case S1 | K0 | Woken => TableFree(s)
      case Check | S2 | S3 | S4 | W1 | K1 | K2 | Leaving | Table => true)
    case Change(t, q, wake) => t < |s.pcs| && s.pcs[t] == Act && u.change(t, s.r, q, wake)
    case Kill(t) => t < |s.pcs| && s.pcs[t] == Asleep && TableFree(s)
    case Silent(q) => u.silent(s.r, q)
  }

  function Move<R>(s: State<R>, t: Tid, pc: Pc): State<R>
    requires t < |s.pcs|
  {
    s.(pcs := s.pcs[t := pc])
  }

  /** wakeup1: every sleeper becomes RUNNABLE. */
  function Roused(pcs: seq<Pc>): seq<Pc> {
    seq(|pcs|, i requires 0 <= i < |pcs| => if pcs[i] == Asleep then Woken else pcs[i])
  }

  /** The one next step of thread `t`. */
  ghost function Advance<R>(u: Rules<R>, s: State<R>, t: Tid): State<R>
    requires t < |s.pcs|
  {
    match s.pcs[t]
    case Want => Move(s, t, Check).(lk := t)
    case Check => if u.blocked(s.r) then Move(s, t, S1) else Move(s, t, Leaving).(r := u.enter(t, s.r))
    case S1 => Move(s, t, S2).(table := t)
    case S2 => Move(s, t, S3).(lk := NONE)
    case S3 => Move(s, t, S4)
    case S4 => Move(s, t, Asleep).(table := NONE)
    case Woken => Move(s, t, W1).(table := t)
    case W1 => Move(s, t, Want).(table := NONE)
    case Ask => Move(s, t, Act).(lk := t)
    case K0 => Move(s, t, K1).(table := t)
    case K1 => s.(pcs := Roused(s.pcs)[t := K2])
    case K2 => Move(s, t, Leaving).(table := NONE)
    case Leaving => Move(s, t, Out).(lk := NONE)
    case Table => Move(s, t, Out).(table := NONE)
    case Out | Asleep | Act => s
  }

  ghost function Next<R>(u: Rules<R>, s: State<R>, a: Action<R>): State<R>
    requires Enabled(u, s, a)
  {
    match a
    case Begin(t, pc) => if pc == Table then Move(s, t, pc).(table := t) else Move(s, t, pc)
    case Go(t) => Advance(u, s, t)
    case Change(t, q, wake) => Move(s, t, if wake then K0 else Leaving).(r := q)
    case Kill(t) => Move(s, t, Woken)
    case Silent(q) => s.(r := q)
  }

  ghost predicate Init<R>(u: Rules<R>, s: State<R>) {
    u.inv(s.r) && LkFree(s) && TableFree(s) && forall t :: 0 <= t < |s.pcs| ==> s.pcs[t] == Out
  }

  // ---- the invariant -----------------------------------------------------------------------------

  /** Each lock is held by the one thread whose place says so. */
  ghost predicate Locks<R>(s: State<R>) {
    && (forall t :: 0 <= t < |s.pcs| ==> (HasLk(s.pcs[t]) <==> s.lk == t))
    && (forall t :: 0 <= t < |s.pcs| ==> (HasTable(s.pcs[t]) <==> s.table == t))
    && -1 <= s.lk < |s.pcs| && -1 <= s.table < |s.pcs|
  }

  /** A wakeup is on its way. */
  predicate Waking<R>(s: State<R>) { 0 <= s.lk < |s.pcs| && (s.pcs[s.lk] == K0 || s.pcs[s.lk] == K1) }

  ghost predicate Inv<R>(u: Rules<R>, s: State<R>) {
    && Locks(s) && u.inv(s.r)
    && (forall t :: 0 <= t < |s.pcs| && (s.pcs[t] == S1 || s.pcs[t] == S2) ==> u.blocked(s.r))
    && (forall t :: 0 <= t < |s.pcs| && Sleeper(s.pcs[t]) ==> u.blocked(s.r) || Waking(s))
  }

  /** A step moves at most one lock. */
  lemma AdvanceLocks<R(!new)>(u: Rules<R>, s: State<R>, t: Tid)
    requires Locks(s) && Enabled(u, s, Go(t))
    ensures Locks(Advance(u, s, t))
  {
  }

  lemma AdvanceInv<R(!new)>(u: Rules<R>, s: State<R>, t: Tid)
    requires Sound(u) && Inv(u, s) && Enabled(u, s, Go(t))
    ensures Inv(u, Advance(u, s, t))
  {
    AdvanceLocks(u, s, t);
    if s.pcs[t] == K1 {
      RousedInv(u, s, t);
    } else {
      MovedInv(u, s, t);
    }
  }

  /** The marking step of wakeup. */
  lemma RousedInv<R(!new)>(u: Rules<R>, s: State<R>, t: Tid)
    requires Inv(u, s) && t < |s.pcs| && s.pcs[t] == K1 && Locks(Advance(u, s, t))
    ensures Inv(u, Advance(u, s, t))
  {
    assert HasTable(s.pcs[t]) && HasLk(s.pcs[t]);
    forall i | 0 <= i < |s.pcs| && i != t ensures !HasTable(s.pcs[i]) && !HasLk(s.pcs[i]) {}
  }

  /** A step of one thread alone. */
  lemma MovedInv<R(!new)>(u: Rules<R>, s: State<R>, t: Tid)
    requires Sound(u) && Inv(u, s) && Enabled(u, s, Go(t)) && s.pcs[t] != K1 && Locks(Advance(u, s, t))
    ensures Inv(u, Advance(u, s, t))
  {
    var q := Advance(u, s, t);
    assert |q.pcs| == |s.pcs| && forall i :: 0 <= i < |s.pcs| && i != t ==> q.pcs[i] == s.pcs[i];
    if s.pcs[t] == Check {
      assert s.lk == t && !Waking(s);
    }
  }

  lemma NextInv<R(!new)>(u: Rules<R>, s: State<R>, a: Action<R>)
    requires Sound(u) && Inv(u, s) && Enabled(u, s, a)
    ensures Inv(u, Next(u, s, a))
  {
    if a.Go? { AdvanceInv(u, s, a.t); } else { OtherInv(u, s, a); }
  }

  lemma OtherInv<R(!new)>(u: Rules<R>, s: State<R>, a: Action<R>)
    requires Sound(u) && Inv(u, s) && Enabled(u, s, a) && !a.Go?
    ensures Inv(u, Next(u, s, a))
  {
    OtherLocks(u, s, a);
    if !a.Silent? {
      var q := Next(u, s, a);
      assert |q.pcs| == |s.pcs| && forall i :: 0 <= i < |s.pcs| && i != a.t ==> q.pcs[i] == s.pcs[i];
    }
  }

  lemma OtherLocks<R(!new)>(u: Rules<R>, s: State<R>, a: Action<R>)
    requires Locks(s) && Enabled(u, s, a) && !a.Go?
    ensures Locks(Next(u, s, a))
  {
  }

  // ---- runs --------------------------------------------------------------------------------------

  ghost predicate Runs<R>(u: Rules<R>, s: State<R>, acts: seq<Action<R>>)
    decreases |acts|
  {
    acts == [] || (Enabled(u, s, acts[0]) && Runs(u, Next(u, s, acts[0]), acts[1..]))
  }

  ghost function Final<R>(u: Rules<R>, s: State<R>, acts: seq<Action<R>>): State<R>
    requires Runs(u, s, acts)
    decreases |acts|
  {
    if acts == [] then s else Final(u, Next(u, s, acts[0]), acts[1..])
  }

  lemma {:induction false} RunInv<R(!new)>(u: Rules<R>, s: State<R>, acts: seq<Action<R>>)
    requires Sound(u) && Inv(u, s) && Runs(u, s, acts)
    ensures Inv(u, Final(u, s, acts))
    decreases |acts|
  {
    if acts != [] {
      NextInv(u, s, acts[0]);
      RunInv(u, Next(u, s, acts[0]), acts[1..]);
    }
  }

  /** In every interleaving: while lk is free, a sleeper's condition holds. */
  lemma NoLostWakeup<R(!new)>(u: Rules<R>, s: State<R>, acts: seq<Action<R>>, t: Tid)
    requires Sound(u) && Init(u, s) && Runs(u, s, acts)
    requires var f := Final(u, s, acts); LkFree(f) && t < |f.pcs| && Sleeper(f.pcs[t])
    ensures u.blocked(Final(u, s, acts).r)
  {
    RunInv(u, s, acts);
  }

  /** The marking step of wakeup leaves no sleeper, however the threads interleave. */
  lemma WakesAll<R(!new)>(u: Rules<R>, s: State<R>, acts: seq<Action<R>>, t: Tid, i: Tid)
    requires Sound(u) && Init(u, s) && Runs(u, s, acts)
    requires var f := Final(u, s, acts); t < |f.pcs| && f.pcs[t] == K1 && i < |f.pcs|
    ensures var q := Advance(u, Final(u, s, acts), t); |q.pcs| == |Final(u, s, acts).pcs| && !Sleeper(q.pcs[i])
  {
    RunInv(u, s, acts);
    var f := Final(u, s, acts);
    assert HasTable(f.pcs[t]) && (HasTable(f.pcs[i]) ==> i == t);
  }
}

/** Sleep locks (sleeplock.c). */
module SleepLocks {
  import opened SleepProtocol

  /** `owners`: the threads that have returned from acquiresleep and not yet given the lock up. */
  datatype SleepLk = SleepLk(locked: bool, owners: set<Tid>)

  ghost function LockRules(): Rules<SleepLk> {
    Rules(
      (r: SleepLk) => r.locked,
      (t, r: SleepLk) => SleepLk(true, r.owners + {t}),
      (t, r: SleepLk, q, w) => t in r.owners && q == SleepLk(false, r.owners - {t}) && w,
      (r, q) => false,
      (r: SleepLk) => |r.owners| == if r.locked then 1 else 0)
  }

  lemma LockSound()
    ensures Sound(LockRules())
  {
    var u := LockRules();
    forall t: Tid, r: SleepLk, q, w | u.change(t, r, q, w) && u.inv(r) ensures u.inv(q) {
      assert r.owners == {t} by { OnlyMember(r.owners, t); }
    }
  }

  lemma OnlyMember(s: set<Tid>, t: Tid)
    requires t in s && |s| <= 1
    ensures s == {t}
  {
    assert |s - {t}| == 0;
  }

  /** A sleep lock has at most one holder, is locked exactly when it has one, and nobody sleeps on
      it while it is free. */
  lemma SleepLockSafe(s: State<SleepLk>, acts: seq<Action<SleepLk>>)
    requires Init(LockRules(), s) && Runs(LockRules(), s, acts)
    ensures var f := Final(LockRules(), s, acts);
      && |f.r.owners| <= 1 && (f.r.locked <==> f.r.owners != {})
      && (LkFree(f) && !f.r.locked ==> forall t :: 0 <= t < |f.pcs| ==> !Sleeper(f.pcs[t]))
  {
    LockSound();
    RunInv(LockRules(), s, acts);
    var f := Final(LockRules(), s, acts);
    if f.r.locked { assert f.r.owners != {}; }
  }
}

/** begin_op and end_op (log.c). */
module LogSleep {
  import opened SleepProtocol
  import LogMachine
  import LogDisk

  datatype LogSt = LogSt(n: nat, outstanding: nat, committing: bool)

  predicate NoRoom(r: LogSt) { r.n + (r.outstanding + 1) * LogMachine.MAXOPBLOCKS > LogDisk.LOGSIZE }

  /** log_write inside an operation; end_op, with its wakeup or its decision to commit; the end of
      a commit. */
  predicate Changes(r: LogSt, q: LogSt, wake: bool) {
    || (r.outstanding >= 1 && !wake && (q == r || q == r.(n := r.n + 1)))
    || (r.outstanding > 1 && wake && q == r.(outstanding := r.outstanding - 1))
    || (r.outstanding == 1 && !wake && q == r.(outstanding := 0, committing := true))
    || (r.committing && r.n == 0 && wake && q == r.(committing := false))
  }

  ghost function LogRules(): Rules<LogSt> {
    Rules(
      (r: LogSt) => r.committing || NoRoom(r),
      (t, r: LogSt) => r.(outstanding := r.outstanding + 1),
      (t, r, q, w) => Changes(r, q, w),
      (r: LogSt, q) => r.committing && q == r.(n := 0),
      (r: LogSt) => (r.committing ==> r.outstanding == 0) && (!r.committing && r.outstanding == 0 ==> r.n == 0))
  }

  lemma LogSound()
    ensures Sound(LogRules())
  {
  }

  /** A thread asleep in begin_op while log.lock is free has a reason: a commit, or no room. The
      panic in end_op is unreachable, and nobody sleeps on an idle log. */
  lemma LogSleepSafe(s: State<LogSt>, acts: seq<Action<LogSt>>)
    requires Init(LogRules(), s) && Runs(LogRules(), s, acts)
    ensures var f := Final(LogRules(), s, acts);
      && (f.r.committing ==> f.r.outstanding == 0)
      && (LkFree(f) ==> forall t :: 0 <= t < |f.pcs| && Sleeper(f.pcs[t]) ==> f.r.committing || NoRoom(f.r))
      && (LkFree(f) && !f.r.committing && f.r.outstanding == 0 ==> forall t :: 0 <= t < |f.pcs| ==> !Sleeper(f.pcs[t]))
  {
    LogSound();
    RunInv(LogRules(), s, acts);
  }
}
