/** begin_op's reservation: MAXOPBLOCKS entries for every operation it lets in.  When is it
    enough to keep log_write from panicking? */
module LogReservation {
  import opened LogDisk
  import opened LogMachine
  import opened LogRefinement

  /** History: the blocks logged since the last commit, by each active operation and by
      the operations that have ended. */
  datatype Use = Use(wrote: map<nat, set<nat>>, finished: set<nat>)

  function NextUse(u: Use, s: Sys, a: Action): Use {
    match a
    case Begin => u.(wrote := u.wrote[s.next := {}])
    case LogWrite(op, b, data) => if op in u.wrote then u.(wrote := u.wrote[op := u.wrote[op] + {b}]) else u
    case End(op) => if op in u.wrote then Use(u.wrote - {op}, u.finished + u.wrote[op]) else u
    case CommitDone => u.(finished := {})
    case Crash => Use(map[], {})
    case _ => u
  }

  /** The promise of MAXOPBLOCKS: no operation logs more distinct blocks than that. */
  predicate Budgeted(u: Use, a: Action) {
    a.LogWrite? && a.op in u.wrote ==> |u.wrote[a.op] + {a.b}| <= MAXOPBLOCKS
  }

  /** Every listed block is accounted for; the blocks of ended operations plus a full
      reservation for every active one fit. */
  ghost predicate Reserved(u: Use, s: Sys) {
    && u.wrote.Keys == s.active
    && (forall op :: op in u.wrote ==> |u.wrote[op]| <= MAXOPBLOCKS && forall b :: b in u.wrote[op] ==> b in s.lh)
    && |u.finished| + |s.active| * MAXOPBLOCKS <= LOGSIZE
    && (forall b :: b in u.finished ==> b in s.lh)
    && (s.phase.Recovering? ==> u.finished == {})
    && (!s.phase.Recovering? ==>
          forall b :: b in s.lh ==> b in u.finished || exists op :: op in u.wrote && b in u.wrote[op])
  }

  lemma {:induction false} SetWithinSeq(x: set<nat>, lh: seq<nat>)
    requires forall b :: b in x ==> b in lh
    ensures |x| <= |lh|
  {
    if lh == [] {
      assert x == {};
    } else {
      var y := x - {lh[0]};
      forall b | b in y ensures b in lh[1..] {}
      SetWithinSeq(y, lh[1..]);
      assert x <= y + {lh[0]};
      assert |x| <= |y + {lh[0]}| by { Subset(x, y + {lh[0]}); }
    }
  }

  lemma Subset(x: set<nat>, y: set<nat>)
    requires x <= y
    ensures |x| <= |y|
  {
    assert y == x + (y - x);
  }

  /** A set covered by `f` and the sets of the operations in `ops` has at most
      |f| + bounds elements, MAXOPBLOCKS for each operation. */
  lemma {:induction false} Covered(x: set<nat>, f: set<nat>, ops: set<nat>, wrote: map<nat, set<nat>>)
    requires forall op :: op in ops ==> op in wrote && |wrote[op]| <= MAXOPBLOCKS
    requires forall b :: b in x ==> b in f || exists op :: op in ops && b in wrote[op]
    ensures |x| <= |f| + |ops| * MAXOPBLOCKS
    decreases |ops|
  {
    if ops == {} {
      Subset(x, f);
    } else {
      var op :| op in ops;
      var y := x - wrote[op];
      var rest := ops - {op};
      forall b | b in y ensures b in f || exists o :: o in rest && b in wrote[o] {
        if b !in f {
          var o :| o in ops && b in wrote[o];
          assert o in rest;
        }
      }
      Covered(y, f, rest, wrote);
      Subset(x, y + wrote[op]);
      assert |y + wrote[op]| <= |y| + |wrote[op]|;
    }
  }

  lemma StepReserved(u: Use, s: Sys, a: Action)
    requires Inv(s) && Enabled(s, a) && Reserved(u, s) && Budgeted(u, a)
    ensures Reserved(NextUse(u, s, a), Next(s, a))
  {
    match a
    case Begin => BeginReserved(u, s);
    case LogWrite(op, b, data) => LogWriteReserved(u, s, op, b, data);
    case End(op) => EndReserved(u, s, op);
    case CommitWrite =>
    case CommitDone =>
    case Crash =>
    case RecoverWrite =>
    case RecoverDone =>
  }

  lemma BeginReserved(u: Use, s: Sys)
    requires Inv(s) && Enabled(s, Begin) && Reserved(u, s)
    ensures Reserved(NextUse(u, s, Begin), NextBegin(s))
  {
    hide PhaseOk, Recoverable, Recovered;
    SetWithinSeq(u.finished, s.lh);
    var u' := NextUse(u, s, Begin);
    assert s.next !in s.active && |s.active + {s.next}| == |s.active| + 1;
    forall b | b in s.lh ensures b in u'.finished || exists op :: op in u'.wrote && b in u'.wrote[op] {
      if b !in u.finished {
        var op :| op in u.wrote && b in u.wrote[op];
        assert op in u'.wrote && b in u'.wrote[op];
      }
    }
  }

  lemma LogWriteReserved(u: Use, s: Sys, op: nat, b: nat, data: Block)
    requires Reserved(u, s) && op in s.active && !s.phase.Recovering? && Budgeted(u, LogWrite(op, b, data))
    ensures Reserved(NextUse(u, s, LogWrite(op, b, data)), NextLogWrite(s, b, data))
  {
    var u' := NextUse(u, s, LogWrite(op, b, data));
    var lh' := Logged(s.lh, b);
    forall c ensures c in lh' <==> c == b || c in s.lh { LoggedList(s.lh, b, c); }
    forall c | c in lh' ensures c in u'.finished || exists o :: o in u'.wrote && c in u'.wrote[o] {
      if c == b {
        assert c in u'.wrote[op];
      } else if c !in u.finished {
        var o :| o in u.wrote && c in u.wrote[o];
        assert o in u'.wrote && c in u'.wrote[o];
      }
    }
  }

  lemma EndReserved(u: Use, s: Sys, op: nat)
    requires Inv(s) && Reserved(u, s) && op in s.active
    ensures Reserved(NextUse(u, s, End(op)), NextEnd(s, op))
  {
    hide Recoverable, Recovered, CommitOk, RecoverOk, CommitReady;
    assert !s.phase.Recovering?;
    var u' := NextUse(u, s, End(op));
    assert |s.active - {op}| == |s.active| - 1;
    assert |u'.finished| <= |u.finished| + |u.wrote[op]|;
    forall c | c in s.lh ensures c in u'.finished || exists o :: o in u'.wrote && c in u'.wrote[o] {
      if c !in u'.finished {
        var o :| o in u.wrote && c in u.wrote[o];
        assert o in u'.wrote && c in u'.wrote[o];
      }
    }
  }

  /** A run in which every operation keeps its promise. */
  ghost predicate BudgetedRun(u: Use, s: Sys, acts: seq<Action>)
    requires Inv(s) && Run(s, acts)
    decreases |acts|
  {
    acts == [] ||
    (Budgeted(u, acts[0]) &&
     (StepInv(s, acts[0]); BudgetedRun(NextUse(u, s, acts[0]), Next(s, acts[0]), acts[1..])))
  }

  ghost function RunUse(u: Use, s: Sys, acts: seq<Action>): Use
    requires Inv(s) && Run(s, acts)
    decreases |acts|
  {
    if acts == [] then u
    else StepInv(s, acts[0]); RunUse(NextUse(u, s, acts[0]), Next(s, acts[0]), acts[1..])
  }

  lemma {:induction false} RunReserved(u: Use, s: Sys, acts: seq<Action>)
    requires Inv(s) && Run(s, acts) && Reserved(u, s) && BudgetedRun(u, s, acts)
    ensures Reserved(RunUse(u, s, acts), RunState(s, acts))
    decreases |acts|
  {
    if acts != [] {
      StepInv(s, acts[0]);
      StepReserved(u, s, acts[0]);
      RunReserved(NextUse(u, s, acts[0]), Next(s, acts[0]), acts[1..]);
    }
  }

  /** The reservation invariant bounds the list: blocks of ended operations plus
      MAXOPBLOCKS per active one, minus what some operation has not used yet. */
  lemma ListBound(u: Use, s: Sys, op: nat)
    requires Inv(s) && Reserved(u, s) && op in s.active
    ensures |s.lh| <= |u.finished| + (|s.active| - 1) * MAXOPBLOCKS + |u.wrote[op]|
    ensures |s.lh| <= LOGSIZE
  {
    var x := Elements(s.lh);
    DistinctCount(s.lh);
    var rest := s.active - {op};
    var f := u.finished + u.wrote[op];
    forall b | b in x ensures b in f || exists o :: o in rest && b in u.wrote[o] {
      if b !in f {
        var o :| o in u.wrote && b in u.wrote[o];
        assert o in rest;
      }
    }
    Covered(x, f, rest, u.wrote);
    assert |f| <= |u.finished| + |u.wrote[op]|;
  }

  // ---- how large the log must be ----------------------------------------------------

  const NoUse := Use(map[], {})

  /** In no run from power-up on a disk with `m` log blocks does log_write panic for an
      operation that has logged fewer than MAXOPBLOCKS blocks. */
  ghost predicate GuardHolds(m: nat) {
    forall s0: Sys, acts: seq<Action>, op: nat ::
      Init(s0) && |s0.disk.log| == m && Inv(s0) && Run(s0, acts) && BudgetedRun(NoUse, s0, acts)
      && op in RunState(s0, acts).active && op in RunUse(NoUse, s0, acts).wrote
      && |RunUse(NoUse, s0, acts).wrote[op]| < MAXOPBLOCKS
      ==> Room(RunState(s0, acts).disk, |RunState(s0, acts).lh|)
  }

  lemma {:induction false} RunLogSize(s: Sys, acts: seq<Action>)
    requires Inv(s) && Run(s, acts)
    ensures |RunState(s, acts).disk.log| == |s.disk.log|
    decreases |acts|
  {
    if acts != [] {
      StepInv(s, acts[0]);
      RunLogSize(Next(s, acts[0]), acts[1..]);
    }
  }

  lemma EnoughLog(m: nat)
    requires LOGSIZE <= m
    ensures GuardHolds(m)
  {
    forall s0: Sys, acts: seq<Action>, op: nat |
      Init(s0) && |s0.disk.log| == m && Inv(s0) && Run(s0, acts) && BudgetedRun(NoUse, s0, acts)
      && op in RunState(s0, acts).active && op in RunUse(NoUse, s0, acts).wrote
      && |RunUse(NoUse, s0, acts).wrote[op]| < MAXOPBLOCKS
      ensures Room(RunState(s0, acts).disk, |RunState(s0, acts).lh|)
    {
      RunReserved(NoUse, s0, acts);
      RunLogSize(s0, acts);
      ListBound(RunUse(NoUse, s0, acts), RunState(s0, acts), op);
    }
  }

  lemma {:induction false} RunSnoc(u: Use, s: Sys, acts: seq<Action>, a: Action)
    requires Inv(s) && Run(s, acts) && Enabled(RunState(s, acts), a)
    ensures Run(s, acts + [a])
    ensures RunState(s, acts + [a]) == Next(RunState(s, acts), a)
    ensures RunUse(u, s, acts + [a]) == NextUse(RunUse(u, s, acts), RunState(s, acts), a)
    ensures BudgetedRun(u, s, acts) && Budgeted(RunUse(u, s, acts), a) ==> BudgetedRun(u, s, acts + [a])
    decreases |acts|
  {
    hide Inv, Enabled, NextUse, Next, Budgeted;
    if acts == [] {
      StepInv(s, a);
      assert [a][1..] == [];
    } else {
      StepInv(s, acts[0]);
      RunSnoc(NextUse(u, s, acts[0]), Next(s, acts[0]), acts[1..], a);
      assert (acts + [a])[0] == acts[0] && (acts + [a])[1..] == acts[1..] + [a];
    }
  }

  /** A run that fills the log: three operations, ten blocks each, `j` of them so far. */
  function Blocks(): seq<nat> { seq(LOGSIZE, i => i) }

  function EmptyHome(): Contents { map b | b in Blocks() :: [] }

  function PowerUp(m: nat): Sys {
    Sys(Disk([], seq(m, _ => []), EmptyHome()), EmptyHome(), [], 0,
        Recovering(0, Disk([], seq(m, _ => []), EmptyHome())), {}, 0, EmptyHome())
  }

  function FillActions(j: nat): seq<Action> {
    if j == 0 then [RecoverWrite, RecoverDone, Begin, Begin, Begin]
    else FillActions(j - 1) + [LogWrite((j - 1) / MAXOPBLOCKS, j - 1, [])]
  }

  function Filled(m: nat, j: nat): Sys {
    Sys(Disk([], seq(m, _ => []), EmptyHome()), EmptyHome(), seq(j, i => i), 3, Running, {0, 1, 2}, 3, EmptyHome())
  }

  /** The blocks operation `op` has logged among the first `j`. */
  function Slice(op: nat, j: nat): (x: set<nat>)
    ensures forall b :: b in x ==> b < j
    ensures |x| == if j <= op * MAXOPBLOCKS then 0
                   else if (op + 1) * MAXOPBLOCKS <= j then MAXOPBLOCKS
                   else j - op * MAXOPBLOCKS
  {
    if j == 0 then {}
    else if op * MAXOPBLOCKS <= j - 1 < (op + 1) * MAXOPBLOCKS then Slice(op, j - 1) + {j - 1}
    else Slice(op, j - 1)
  }

  function FilledUse(j: nat): Use {
    Use(map op | op in [0, 1, 2] :: Slice(op, j), {})
  }

  lemma PowerUpInit(m: nat)
    ensures Init(PowerUp(m)) && Inv(PowerUp(m))
  {
    assert Recovered(PowerUp(m).disk) == EmptyHome();
    InitInv(PowerUp(m));
  }

  ghost predicate Reaches(m: nat, acts: seq<Action>, s: Sys, u: Use) {
    && Inv(PowerUp(m)) && Run(PowerUp(m), acts) && BudgetedRun(NoUse, PowerUp(m), acts)
    && RunState(PowerUp(m), acts) == s && RunUse(NoUse, PowerUp(m), acts) == u
  }

  lemma ReachStep(m: nat, acts: seq<Action>, s: Sys, u: Use, a: Action)
    requires Reaches(m, acts, s, u) && Enabled(s, a) && Budgeted(u, a)
    ensures Inv(s) && Reaches(m, acts + [a], Next(s, a), NextUse(u, s, a))
  {
    RunSnoc(NoUse, PowerUp(m), acts, a);
  }

  /** The first `n` operation numbers. */
  function Upto(n: nat): set<nat> {
    if n == 0 then {} else Upto(n - 1) + {n - 1}
  }

  function NothingWrote(n: nat): map<nat, set<nat>> {
    if n == 0 then map[] else NothingWrote(n - 1)[n - 1 := {}]
  }

  /** After recovery of an empty log and `n` calls of begin_op. */
  function Ready(m: nat, n: nat): Sys {
    Sys(PowerUp(m).disk, EmptyHome(), [], n, Running, Upto(n), n, EmptyHome())
  }

  lemma ReachReady(m: nat)
    ensures Reaches(m, [RecoverWrite, RecoverDone], Ready(m, 0), NoUse)
  {
    PowerUpInit(m);
    var s0 := PowerUp(m);
    assert Reaches(m, [], s0, NoUse);
    ReachStep(m, [], s0, NoUse, RecoverWrite);
    assert [] + [RecoverWrite] == [RecoverWrite];
    var s1 := s0.(phase := Recovering(1, s0.disk));
    assert Next(s0, RecoverWrite) == s1;
    ReachStep(m, [RecoverWrite], s1, NoUse, RecoverDone);
    assert [RecoverWrite] + [RecoverDone] == [RecoverWrite, RecoverDone];
    assert Next(s1, RecoverDone) == Ready(m, 0);
  }

  lemma ReachBegin(m: nat, acts: seq<Action>, n: nat)
    requires n < 3 && Reaches(m, acts, Ready(m, n), Use(NothingWrote(n), {}))
    ensures Reaches(m, acts + [Begin], Ready(m, n + 1), Use(NothingWrote(n + 1), {}))
  {
    ReachStep(m, acts, Ready(m, n), Use(NothingWrote(n), {}), Begin);
  }

  lemma FillStart(m: nat)
    ensures Reaches(m, FillActions(0), Filled(m, 0), FilledUse(0))
  {
    ReachReady(m);
    ReachBegin(m, [RecoverWrite, RecoverDone], 0);
    ReachBegin(m, [RecoverWrite, RecoverDone] + [Begin], 1);
    ReachBegin(m, [RecoverWrite, RecoverDone] + [Begin] + [Begin], 2);
    assert [RecoverWrite, RecoverDone] + [Begin] + [Begin] + [Begin] == FillActions(0);
    ReadyIsFilled(m);
  }

  lemma ReadyIsFilled(m: nat)
    ensures Ready(m, 3) == Filled(m, 0) && NothingWrote(3) == FilledUse(0).wrote
  {
    assert Upto(3) == {0, 1, 2};
    assert Filled(m, 0).lh == [];
  }

  lemma FillOneState(m: nat, j: nat)
    requires j < m && j < LOGSIZE
    ensures Enabled(Filled(m, j), LogWrite(j / MAXOPBLOCKS, j, []))
    ensures NextLogWrite(Filled(m, j), j, []) == Filled(m, j + 1)
  {
    assert Blocks()[j] == j;
    assert Logged(Filled(m, j).lh, j) == Filled(m, j + 1).lh;
    assert EmptyHome()[j := []] == EmptyHome();
  }

  lemma SliceStep(op: nat, j: nat)
    ensures Slice(op, j + 1) == if op == j / MAXOPBLOCKS then Slice(op, j) + {j} else Slice(op, j)
  {
  }

  lemma FillOneUse(m: nat, j: nat)
    requires j < m && j < LOGSIZE
    ensures var a := LogWrite(j / MAXOPBLOCKS, j, []);
            Budgeted(FilledUse(j), a) && NextUse(FilledUse(j), Filled(m, j), a) == FilledUse(j + 1)
  {
    hide Slice, Filled;
    var u, v, op := FilledUse(j), FilledUse(j + 1), j / MAXOPBLOCKS;
    assert op in u.wrote;
    var w := u.wrote[op := u.wrote[op] + {j}];
    forall o | o in [0, 1, 2] ensures w[o] == v.wrote[o] { SliceStep(o, j); }
    assert w == v.wrote;
  }

  lemma {:induction false} FillRun(m: nat, j: nat)
    requires j <= m && j <= LOGSIZE
    ensures Reaches(m, FillActions(j), Filled(m, j), FilledUse(j))
  {
    hide Reaches, Filled, FilledUse, Enabled, Budgeted, Inv, NextLogWrite, NextUse;
    if j == 0 {
      FillStart(m);
    } else {
      FillRun(m, j - 1);
      FillOneState(m, j - 1);
      FillOneUse(m, j - 1);
      ReachStep(m, FillActions(j - 1), Filled(m, j - 1), FilledUse(j - 1), LogWrite((j - 1) / MAXOPBLOCKS, j - 1, []));
    }
  }

  lemma FullAt(m: nat, op: nat)
    requires m < LOGSIZE && op == m / MAXOPBLOCKS
    ensures op in Filled(m, m).active && op in FilledUse(m).wrote && |FilledUse(m).wrote[op]| < MAXOPBLOCKS
    ensures !Room(Filled(m, m).disk, |Filled(m, m).lh|)
  {
    assert op in [0, 1, 2];
  }

  lemma ShortLog(m: nat)
    requires m < LOGSIZE
    ensures !GuardHolds(m)
  {
    FullAt(m, m / MAXOPBLOCKS);
    PowerUpInit(m);
    FillRun(m, m);
  }

  /** The exact size: the reservation keeps log_write from panicking if and only if there
      are LOGSIZE log blocks behind the header, that is log.size >= LOGSIZE + 1.  The image
      mkfs writes has log.size == LOGSIZE, one block short. */
  lemma GuardHoldsIff(m: nat)
    ensures GuardHolds(m) <==> LOGSIZE <= m
  {
    if LOGSIZE <= m { EnoughLog(m); } else { ShortLog(m); }
  }

  lemma {:induction false} FirstInSlice(j: nat)
    requires 0 < j
    ensures 0 in Slice(0, j)
  {
    if j > 1 { FirstInSlice(j - 1); }
  }

  /** In every run within budget on a disk with `m` log blocks, an operation that has logged `w` blocks
      may log one of them again. */
  ghost predicate RepeatHolds(m: nat, w: nat) {
    forall s0: Sys, acts: seq<Action>, op: nat, b: nat ::
      Init(s0) && |s0.disk.log| == m && Inv(s0) && Run(s0, acts) && BudgetedRun(NoUse, s0, acts)
      && op in RunState(s0, acts).active && op in RunUse(NoUse, s0, acts).wrote
      && |RunUse(NoUse, s0, acts).wrote[op]| == w && b in RunUse(NoUse, s0, acts).wrote[op]
      ==> Room(RunState(s0, acts).disk, |RunState(s0, acts).lh|)
  }

  /** The run in which an operation has used up its budget and the list is full. */
  lemma FullOperation(m: nat, j: nat)
    requires j == LOGSIZE <= m
    ensures var s, u := Filled(m, j), FilledUse(j);
            && Reaches(m, FillActions(j), s, u) && 0 in s.active && 0 in u.wrote && 0 in u.wrote[0]
            && |u.wrote[0]| == MAXOPBLOCKS && !Room(s.disk, |s.lh|) && Budgeted(u, LogWrite(0, 0, []))
  {
    FirstInSlice(j);
    assert Slice(0, j) + {0} == Slice(0, j);
    FillRun(m, j);
  }

  /** log_write tests the list before it looks for the block. So even with a log of any size that
      GuardHoldsIff asks for, a block already logged may be refused: exactly to operations that have
      logged MAXOPBLOCKS blocks. */
  lemma RepeatHoldsIff(m: nat, w: nat)
    requires LOGSIZE <= m && w <= MAXOPBLOCKS
    ensures RepeatHolds(m, w) <==> w < MAXOPBLOCKS
  {
    if w < MAXOPBLOCKS {
      EnoughLog(m);
      assert GuardHolds(m);
    } else {
      PowerUpInit(m);
      var j: nat :| j == LOGSIZE;
      FullOperation(m, j);
    }
  }

  // ---- how many buffers the cache must have ------------------------------------------

  /** In no run within budget does commit find all `nbuf` buffers pinned (LogCode.Log.Commit says that
      it panics exactly then). */
  ghost predicate CommitFits(m: nat, nbuf: nat) {
    forall s0: Sys, acts: seq<Action> ::
      Init(s0) && |s0.disk.log| == m && Inv(s0) && Run(s0, acts) && BudgetedRun(NoUse, s0, acts)
      ==> RunState(s0, acts).lh == [] || |RunState(s0, acts).lh| < nbuf
  }

  lemma ListFits(s: Sys)
    requires Inv(s)
    ensures |s.lh| <= |s.disk.log| && |s.lh| <= LOGSIZE
  {
  }

  /** The longest list there can be. */
  function Longest(m: nat): nat { if m < LOGSIZE then m else LOGSIZE }

  /** Commit never runs out of buffers exactly when there are more of them than the longest list. */
  lemma CommitFitsIff(m: nat, nbuf: nat)
    ensures CommitFits(m, nbuf) <==> Longest(m) == 0 || Longest(m) < nbuf
  {
    if Longest(m) == 0 || Longest(m) < nbuf {
      forall s0: Sys, acts: seq<Action> |
        Init(s0) && |s0.disk.log| == m && Inv(s0) && Run(s0, acts) && BudgetedRun(NoUse, s0, acts)
        ensures RunState(s0, acts).lh == [] || |RunState(s0, acts).lh| < nbuf
      {
        RunInv(s0, acts);
        RunLogSize(s0, acts);
        ListFits(RunState(s0, acts));
      }
    } else {
      var j := Longest(m);
      PowerUpInit(m);
      FillRun(m, j);
      assert |Filled(m, j).lh| == j;
    }
  }

  /** With NBUF == LOGSIZE no log size serves: if log_write never panics for an operation within its
      budget, commit of a full list does; one more buffer would do. */
  lemma NoLogSize(nbuf: nat)
    ensures (exists m :: GuardHolds(m) && CommitFits(m, nbuf)) <==> LOGSIZE < nbuf
  {
    if LOGSIZE < nbuf {
      GuardHoldsIff(LOGSIZE);
      CommitFitsIff(LOGSIZE, nbuf);
    } else {
      forall m ensures !(GuardHolds(m) && CommitFits(m, nbuf)) {
        GuardHoldsIff(m);
        CommitFitsIff(m, nbuf);
      }
    }
  }

  lemma {:induction false} RunInv(s: Sys, acts: seq<Action>)
    requires Inv(s) && Run(s, acts)
    ensures Inv(RunState(s, acts))
    decreases |acts|
  {
    if acts != [] {
      StepInv(s, acts[0]);
      RunInv(Next(s, acts[0]), acts[1..]);
    }
  }
}
