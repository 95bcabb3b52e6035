/** The reference: a disk with atomic group commit.  Writes of active operations change
    `current`; only a commit, possible when no operation is active, changes `durable`; a
    crash throws `current` away. */
module AtomicDisk {
  import opened LogDisk

  datatype Txn = Txn(durable: Contents, current: Contents, active: set<nat>)

  datatype Event = Open(op: nat) | Put(op: nat, b: nat, data: Block) | Close(op: nat) | Commit | Fail | Quiet

  predicate Allowed(t: Txn, e: Event) {
    match e
    case Open(op) => op !in t.active
    case Put(op, b, _) => op in t.active && b in t.current
    case Close(op) => op in t.active
    case Commit => t.active == {}
    case Fail => true
    case Quiet => true
  }

  function After(t: Txn, e: Event): Txn {
    match e
    case Open(op) => t.(active := t.active + {op})
    case Put(_, b, data) => t.(current := t.current[b := data])
    case Close(op) => t.(active := t.active - {op})
    case Commit => t.(durable := t.current)
    case Fail => Txn(t.durable, t.durable, {})
    case Quiet => t
  }

  predicate Follows(t: Txn, es: seq<Event>, u: Txn)
    decreases |es|
  {
    if es == [] then t == u else Allowed(t, es[0]) && Follows(After(t, es[0]), es[1..], u)
  }
}

/** The log machine refines the atomic disk, over every run. */
module LogRefinement {
  import opened LogDisk
  import opened LogMachine
  import opened AtomicDisk

  /** What the machine stands for: the recovered disk, and what bread shows. */
  ghost function Abs(s: Sys): Txn
    requires Inv(s)
  {
    Txn(Recovered(s.disk), if s.phase.Recovering? then Recovered(s.disk) else s.view, s.active)
  }

  /** The commit point is the header write; everything else commit and recovery do to the
      disk is invisible. */
  function EventOf(s: Sys, a: Action): Event {
    match a
    case Begin => Open(s.next)
    case LogWrite(op, b, data) => Put(op, b, data)
    case End(op) => Close(op)
    case CommitWrite => if s.phase.Committing? && s.phase.k == |s.lh| then AtomicDisk.Commit else Quiet
    case CommitDone => Quiet
    case Crash => Fail
    case RecoverWrite => Quiet
    case RecoverDone => Quiet
  }

  /** The disk stands for the last commit, and only a running log has active operations. */
  lemma AbsIs(s: Sys)
    requires Inv(s)
    ensures Abs(s) == Txn(s.committed, if s.phase.Recovering? then s.committed else s.view, s.active)
    ensures s.next !in s.active && (s.active != {} ==> s.phase.Running?)
  {
    hide Recovered, Recoverable, CommitState, CommitReady, RecoveryState;
  }

  /** Recovery ends with the last commit at home. */
  lemma RecoveredHome(s: Sys)
    requires Inv(s) && Enabled(s, RecoverDone)
    ensures s.disk.home == s.committed
  {
    hide Recoverable, CommitState, CommitReady, RecoveryState;
    RecoveryStateKeepsRecovered(s.phase.base, s.phase.k);
    assert s.disk.header == [] && s.disk.home == Recovered(s.disk);
  }

  /** One step of the log is one step of the atomic disk. */
  lemma StepRefines(s: Sys, a: Action)
    requires Inv(s) && Enabled(s, a)
    ensures Inv(Next(s, a))
    ensures Allowed(Abs(s), EventOf(s, a))
    ensures Abs(Next(s, a)) == After(Abs(s), EventOf(s, a))
  {
    hide Inv, Abs, CommitOne, RecoverOne, Logged;
    StepInv(s, a);
    AbsIs(s);
    AbsIs(Next(s, a));
    if a.RecoverDone? { RecoveredHome(s); }
  }

  /** Sequences of actions the machine can take from `s`. */
  ghost predicate Run(s: Sys, acts: seq<Action>)
    requires Inv(s)
    decreases |acts|
  {
    acts == [] || (Enabled(s, acts[0]) && (StepInv(s, acts[0]); Run(Next(s, acts[0]), acts[1..])))
  }

  ghost function RunState(s: Sys, acts: seq<Action>): (t: Sys)
    requires Inv(s) && Run(s, acts)
    ensures Inv(t)
    decreases |acts|
  {
    if acts == [] then s else StepInv(s, acts[0]); RunState(Next(s, acts[0]), acts[1..])
  }

  /** The events of a run. */
  ghost function Events(s: Sys, acts: seq<Action>): seq<Event>
    requires Inv(s) && Run(s, acts)
    decreases |acts|
  {
    if acts == [] then []
    else StepInv(s, acts[0]); [EventOf(s, acts[0])] + Events(Next(s, acts[0]), acts[1..])
  }

  /** Every run, with any interleaving of operations and any number of crashes, does to the
      disk exactly what the atomic disk does. */
  lemma {:induction false} RunRefines(s: Sys, acts: seq<Action>)
    requires Inv(s) && Run(s, acts)
    ensures Follows(Abs(s), Events(s, acts), Abs(RunState(s, acts)))
    decreases |acts|
  {
    if acts != [] {
      StepRefines(s, acts[0]);
      RunRefines(Next(s, acts[0]), acts[1..]);
      assert Events(s, acts)[1..] == Events(Next(s, acts[0]), acts[1..]);
    }
  }

  /** While commit runs no operation is active, so the panic in end_op cannot be reached,
      and nothing but the end of the commit and a crash changes the list in memory. */
  lemma FrozenWhileCommitting(s: Sys, a: Action)
    requires Inv(s) && s.phase.Committing? && Enabled(s, a)
    ensures s.active == {} && s.outstanding == 0
    ensures a.CommitWrite? || a.CommitDone? || a.Crash?
    ensures a.CommitWrite? ==> Next(s, a).lh == s.lh && Next(s, a).view == s.view
  {
  }
}

/** Which operations a crash can undo. */
module LogHistory {
  import opened LogDisk
  import opened LogMachine
  import opened LogRefinement

  datatype Write = Write(op: nat, b: nat, data: Block)

  /** All writes not lost in a crash, in order; the first `durable` are committed. */
  datatype History = History(origin: Contents, writes: seq<Write>, durable: nat)

  function NextHistory(h: History, s: Sys, a: Action): History
    requires h.durable <= |h.writes|
  {
    match a
    case LogWrite(op, b, data) => h.(writes := h.writes + [Write(op, b, data)])
    case CommitWrite => if EventOf(s, a).Commit? then h.(durable := |h.writes|) else h
    case Crash => h.(writes := h.writes[..h.durable])
    case _ => h
  }

  /** Home contents after a list of writes. */
  ghost function Replay(c: Contents, ws: seq<Write>): Contents {
    if ws == [] then c
    else var w := ws[|ws| - 1]; Replay(c, ws[..|ws| - 1])[w.b := w.data]
  }

  /** No operation has writes on both sides of the durable point, and none that is still
      active has a committed write. */
  ghost predicate Atomic(h: History, active: set<nat>, next: nat)
    requires h.durable <= |h.writes|
  {
    && (forall i :: 0 <= i < |h.writes| ==> h.writes[i].op < next)
    && (forall i, j :: 0 <= i < h.durable <= j < |h.writes| ==> h.writes[i].op != h.writes[j].op)
    && (forall i :: 0 <= i < h.durable ==> h.writes[i].op !in active)
  }

  /** The disk stands for the committed writes, the cache for all of them; those not yet
      committed are listed. */
  ghost predicate Agrees(h: History, s: Sys)
    requires h.durable <= |h.writes|
  {
    && s.committed == Replay(h.origin, h.writes[..h.durable])
    && (if s.phase.Recovering? then h.durable == |h.writes| else s.view == Replay(h.origin, h.writes))
    && if s.phase.Committing? && s.lh != [] && |s.lh| < s.phase.k then h.durable == |h.writes|
       else s.phase.Recovering? || forall i :: h.durable <= i < |h.writes| ==> h.writes[i].b in s.lh
  }

  ghost predicate HistInv(h: History, s: Sys) {
    h.durable <= |h.writes| && Atomic(h, s.active, s.next) && Agrees(h, s)
  }

  lemma LogWriteHist(h: History, s: Sys, op: nat, b: nat, data: Block)
    requires HistInv(h, s) && s.phase.Running? && op in s.active && op < s.next
    ensures HistInv(NextHistory(h, s, LogWrite(op, b, data)), NextLogWrite(s, b, data))
  {
    hide Agrees, Replay, Logged;
    LogWriteAgrees(h, s, op, b, data);
  }

  lemma LogWriteAgrees(h: History, s: Sys, op: nat, b: nat, data: Block)
    requires h.durable <= |h.writes| && Agrees(h, s) && s.phase.Running?
    ensures Agrees(NextHistory(h, s, LogWrite(op, b, data)), NextLogWrite(s, b, data))
  {
    hide Logged;
    var h' := NextHistory(h, s, LogWrite(op, b, data));
    assert h'.writes[..h.durable] == h.writes[..h.durable] && h'.writes[..|h.writes|] == h.writes;
    forall i | h.durable <= i < |h'.writes| ensures h'.writes[i].b in Logged(s.lh, b) {
      LoggedList(s.lh, b, h'.writes[i].b);
    }
  }

  lemma CommitWriteHist(h: History, s: Sys)
    requires HistInv(h, s) && Inv(s) && Enabled(s, CommitWrite)
    ensures HistInv(NextHistory(h, s, CommitWrite), NextCommitWrite(s))
  {
    hide CommitState, CommitReady, CommitOne, Recoverable, Recovered;
    assert h.writes[..|h.writes|] == h.writes;
  }

  lemma CommitDoneHist(h: History, s: Sys)
    requires HistInv(h, s) && Inv(s) && Enabled(s, CommitDone)
    ensures HistInv(h, NextCommitDone(s))
  {
  }

  lemma CrashHist(h: History, s: Sys)
    requires HistInv(h, s)
    ensures HistInv(NextHistory(h, s, Crash), NextCrash(s))
  {
    assert h.writes[..h.durable][..h.durable] == h.writes[..h.durable];
  }

  lemma RecoverDoneHist(h: History, s: Sys)
    requires HistInv(h, s) && Inv(s) && Enabled(s, RecoverDone)
    ensures HistInv(h, NextRecoverDone(s))
  {
    RecoveryStateKeepsRecovered(s.phase.base, s.phase.k);
    assert h.writes[..h.durable] == h.writes;
  }

  lemma StepHist(h: History, s: Sys, a: Action)
    requires Inv(s) && Enabled(s, a) && HistInv(h, s)
    ensures HistInv(NextHistory(h, s, a), Next(s, a))
  {
    hide Recoverable, Recovered, RecoverOk, CommitOk, CommitReady;
    match a
    case LogWrite(op, b, data) => LogWriteHist(h, s, op, b, data);
    case CommitWrite => CommitWriteHist(h, s);
    case CommitDone => CommitDoneHist(h, s);
    case Crash => CrashHist(h, s);
    case RecoverDone => RecoverDoneHist(h, s);
    case Begin =>
    case End(op) =>
    case RecoverWrite =>
  }

  ghost function RunHistory(h: History, s: Sys, acts: seq<Action>): History
    requires Inv(s) && Run(s, acts) && h.durable <= |h.writes|
    decreases |acts|
  {
    if acts == [] then h
    else StepInv(s, acts[0]); RunHistory(NextHistory(h, s, acts[0]), Next(s, acts[0]), acts[1..])
  }

  lemma {:induction false} RunHistInv(h: History, s: Sys, acts: seq<Action>)
    requires Inv(s) && Run(s, acts) && HistInv(h, s)
    ensures HistInv(RunHistory(h, s, acts), RunState(s, acts))
    decreases |acts|
  {
    if acts != [] {
      StepInv(s, acts[0]);
      StepHist(h, s, acts[0]);
      RunHistInv(NextHistory(h, s, acts[0]), Next(s, acts[0]), acts[1..]);
    }
  }

  /** All or nothing: after any run from power-up the disk stands for a prefix of the
      surviving writes, no operation has writes on both sides of its end, and no operation
      inside it is still active (so none will write again). */
  lemma AllOrNothing(s0: Sys, acts: seq<Action>)
    requires Init(s0) && (InitInv(s0); Run(s0, acts))
    ensures (InitInv(s0);
             var s := RunState(s0, acts);
             var h := RunHistory(History(Recovered(s0.disk), [], 0), s0, acts);
             && h.durable <= |h.writes|
             && Recovered(s.disk) == Replay(h.origin, h.writes[..h.durable])
             && Atomic(h, s.active, s.next))
  {
    InitInv(s0);
    RunHistInv(History(Recovered(s0.disk), [], 0), s0, acts);
  }
}
