/** Whole runs of log.c's functions over the cache, with power cuts after any block write, are runs of
    the state machine: what is proved of the machine holds of the code. */
module LogRun {
  import opened LogDisk
  import LogMachine
  import LogRefinement
  import LogHistory
  import opened BufferCache
  import opened LogCode

  type Sys = LogMachine.Sys
  type Action = LogMachine.Action

  // ---- runs of the machine ---------------------------------------------------------------------

  /** A run from `s` to `t`. */
  ghost predicate Leads(s: Sys, acts: seq<Action>, t: Sys) {
    LogMachine.Inv(s) && LogRefinement.Run(s, acts) && LogRefinement.RunState(s, acts) == t && LogMachine.Inv(t)
  }

  lemma {:induction false} LeadsJoin(s: Sys, a: seq<Action>, t: Sys, b: seq<Action>, u: Sys)
    requires Leads(s, a, t) && Leads(t, b, u)
    ensures Leads(s, a + b, u)
    decreases |a|
  {
    if a == [] {
      assert a + b == b;
    } else {
      LogMachine.StepInv(s, a[0]);
      var s' := LogMachine.Next(s, a[0]);
      assert Leads(s', a[1..], t);
      LeadsJoin(s', a[1..], t, b, u);
      assert (a + b)[0] == a[0] && (a + b)[1..] == a[1..] + b;
    }
  }

  lemma LeadsNone(s: Sys)
    requires LogMachine.Inv(s)
    ensures Leads(s, [], s)
  {
  }

  lemma LeadsOne(s: Sys, a: Action)
    requires LogMachine.Inv(s) && LogMachine.Enabled(s, a)
    ensures Leads(s, [a], LogMachine.Next(s, a))
  {
    LogMachine.StepInv(s, a);
    LeadsNone(LogMachine.Next(s, a));
    assert [a][1..] == [];
  }

  lemma LeadsStep(s: Sys, acts: seq<Action>, t: Sys, a: Action)
    requires Leads(s, acts, t) && LogMachine.Enabled(t, a)
    ensures Leads(s, acts + [a], LogMachine.Next(t, a))
  {
    LeadsOne(t, a);
    LeadsJoin(s, acts, t, [a], LogMachine.Next(t, a));
  }

  function Repeat(a: Action, j: nat): seq<Action> {
    if j == 0 then [] else Repeat(a, j - 1) + [a]
  }

  /** The machine after the first `j` writes of a commit that begins in `s`. */
  ghost function Committed(s: Sys, j: nat): Sys
    requires s.phase.Committing? && CommitReady(s.disk, s.lh, s.view) && j <= CommitWrites(s.lh)
  {
    s.(disk := CommitState(s.disk, s.lh, s.view, j), phase := LogMachine.Committing(j, s.disk),
       committed := if j <= |s.lh| then s.committed else s.view)
  }

  lemma CommitNone(s: Sys)
    requires LogMachine.Inv(s) && s.phase == LogMachine.Committing(0, s.disk) && s.lh != []
    ensures CommitReady(s.disk, s.lh, s.view) && Committed(s, 0) == s
  {
    AppendNone(s.disk, s.lh, s.view);
  }

  lemma {:induction false} CommitRun(s: Sys, j: nat)
    requires LogMachine.Inv(s) && s.phase == LogMachine.Committing(0, s.disk) && s.lh != [] && j <= CommitWrites(s.lh)
    ensures CommitReady(s.disk, s.lh, s.view) && Leads(s, Repeat(LogMachine.CommitWrite, j), Committed(s, j))
  {
    hide CommitReady, CommitState, Recoverable, Recovered, LogMachine.Inv;
    CommitNone(s);
    if j == 0 {
      LeadsNone(s);
    } else {
      CommitRun(s, j - 1);
      CommitOneStep(s, j - 1);
      LeadsStep(s, Repeat(LogMachine.CommitWrite, j - 1), Committed(s, j - 1), LogMachine.CommitWrite);
    }
  }

  lemma CommitOneStep(s: Sys, j: nat)
    requires LogMachine.Inv(s) && s.phase == LogMachine.Committing(0, s.disk) && s.lh != []
    requires CommitReady(s.disk, s.lh, s.view) && j < CommitWrites(s.lh) && LogMachine.Inv(Committed(s, j))
    ensures LogMachine.Enabled(Committed(s, j), LogMachine.CommitWrite)
    ensures LogMachine.Next(Committed(s, j), LogMachine.CommitWrite) == Committed(s, j + 1)
  {
    LogMachine.CommitOneState(s.disk, s.lh, s.view, j);
  }

  /** The machine after the first `j` writes of a recovery that begins in `s`. */
  ghost function Restored(s: Sys, j: nat): Sys
    requires s.phase.Recovering? && Recoverable(s.disk) && j <= RecoveryWrites(s.disk)
  {
    s.(disk := RecoveryState(s.disk, j), phase := LogMachine.Recovering(j, s.disk))
  }

  lemma RestoreNone(s: Sys)
    requires LogMachine.Inv(s) && s.phase == LogMachine.Recovering(0, s.disk)
    ensures Recoverable(s.disk) && Restored(s, 0) == s
  {
    InstallNone(s.disk, s.disk.header);
  }

  lemma {:induction false} RestoreRun(s: Sys, j: nat)
    requires LogMachine.Inv(s) && s.phase == LogMachine.Recovering(0, s.disk) && j <= RecoveryWrites(s.disk)
    ensures Recoverable(s.disk) && Leads(s, Repeat(LogMachine.RecoverWrite, j), Restored(s, j))
  {
    hide RecoveryState, Recoverable, Recovered, LogMachine.Inv;
    RestoreNone(s);
    if j == 0 {
      LeadsNone(s);
    } else {
      RestoreRun(s, j - 1);
      RestoreOneStep(s, j - 1);
      LeadsStep(s, Repeat(LogMachine.RecoverWrite, j - 1), Restored(s, j - 1), LogMachine.RecoverWrite);
    }
  }

  lemma RestoreList(s: Sys)
    requires LogMachine.Inv(s) && s.phase.Recovering?
    ensures s.lh == s.phase.base.header
  {
  }

  lemma RestoreOneStep(s: Sys, j: nat)
    requires LogMachine.Inv(s) && s.phase == LogMachine.Recovering(0, s.disk)
    requires Recoverable(s.disk) && j < RecoveryWrites(s.disk) && LogMachine.Inv(Restored(s, j))
    ensures LogMachine.Enabled(Restored(s, j), LogMachine.RecoverWrite)
    ensures LogMachine.Next(Restored(s, j), LogMachine.RecoverWrite) == Restored(s, j + 1)
  {
    hide RecoveryState, Recoverable, Recovered, LogMachine.Inv;
    RestoreList(s);
    LogMachine.RecoverOneState(s.disk, j);
  }

  // ---- one call, one stretch of the run ---------------------------------------------------------

  /** Between calls the code's log is the machine's: the same disk, list and count, and readers see
      the machine's view. */
  ghost predicate Matches(log: Log, s: Sys)
    reads log, log.bc
  {
    && log.Quiet() && log.Idle() && !log.committing && log.Sees(s.view)
    && s.phase == LogMachine.Running && s.disk == Parse(log.area, log.bc.disk)
    && s.lh == log.Lh() && s.outstanding == log.outstanding
    && LogMachine.Inv(s)
  }

  /** begin_op enters exactly when the machine may begin an operation, and then has begun it. */
  method Begin(log: Log, ghost s: Sys) returns (entered: bool, ghost t: Sys)
    requires Matches(log, s)
    modifies log`outstanding
    ensures entered <==> LogMachine.Enabled(s, LogMachine.Begin)
    ensures t == (if entered then LogMachine.Next(s, LogMachine.Begin) else s) && Matches(log, t)
  {
    hide Bcache.Valid, Parse, Formatted, Pinned, View, Recoverable, Recovered, CommitReady;
    entered := log.BeginOp();
    t := s;
    if entered {
      LogMachine.StepInv(s, LogMachine.Begin);
      t := LogMachine.Next(s, LogMachine.Begin);
    }
  }

  /** One block written by operation `op`: the machine's log_write, unless the kernel panics, which it does
      exactly when there is no room in the list or no buffer. */
  method Write(log: Log, ghost op: nat, b: nat, data: Block, ghost s: Sys) returns (ok: bool, ghost t: Sys)
    requires Matches(log, s) && op in s.active && b in s.view
    modifies log`n, log`block, log.bc
    ensures ok <==> LogMachine.Enabled(s, LogMachine.LogWrite(op, b, data)) && (b in s.lh || |s.lh| < log.bc.n)
    ensures log.bc.disk == old(log.bc.disk)
    ensures ok ==> t == LogMachine.Next(s, LogMachine.LogWrite(op, b, data)) && Matches(log, t)
  {
    hide Bcache.Valid, Formatted, Pinned, View, Recoverable, Recovered, CommitReady;
    t := s;
    SomeActive(s, op);
    ok := log.Update(b, data, s.view);
    if ok {
      LogMachine.StepInv(s, LogMachine.LogWrite(op, b, data));
      t := LogMachine.Next(s, LogMachine.LogWrite(op, b, data));
    }
  }

  lemma SomeActive(s: Sys, op: nat)
    requires LogMachine.Inv(s) && op in s.active
    ensures 1 <= s.outstanding && (s.outstanding == 1 ==> s.active - {op} == {})
  {
    assert s.active == {op} + (s.active - {op});
    assert |s.active| == 1 + |s.active - {op}|;
  }

  /** The machine's steps for an end_op that is cut after `j` block writes. */
  function EndActs(op: nat, j: nat): seq<Action> {
    if j == 0 then [] else [LogMachine.End(op)] + Repeat(LogMachine.CommitWrite, j)
  }

  /** Wherever the writes since `base` are cut, the disk is that of a run of the machine. */
  ghost predicate CutsRun(area: Area, disk0: seq<Block>, ws: seq<BlockWrite>, base: nat, s: Sys, op: nat) {
    && LogMachine.Inv(s) && base <= |ws|
    && forall j :: 0 <= j <= |ws| - base ==> CutRun(area, disk0, ws, base, s, op, j)
  }

  ghost predicate CutRun(area: Area, disk0: seq<Block>, ws: seq<BlockWrite>, base: nat, s: Sys, op: nat, j: nat)
    requires base + j <= |ws|
  {
    && Formatted(area, Written(disk0, ws[..base + j]))
    && LogMachine.Inv(s) && LogRefinement.Run(s, EndActs(op, j))
      && LogMachine.Inv(LogRefinement.RunState(s, EndActs(op, j)))
    && var e := LogRefinement.RunState(s, EndActs(op, j));
       && e.disk == Parse(area, Written(disk0, ws[..base + j])) && e.next == s.next
       && e.committed == (if j <= |s.lh| then s.committed else s.view) && (j <= |s.lh| ==> e.disk.header == [])
  }

  /** end_op's commit as far as it got. */
  lemma CutsTraced(area: Area, disk0: seq<Block>, ws: seq<BlockWrite>, base: nat, s: Sys, op: nat, k: nat)
    requires LogMachine.Inv(s) && s.phase == LogMachine.Running && op in s.active && s.outstanding == 1 && s.lh != []
    requires CommitReady(s.disk, s.lh, s.view) && k <= CommitWrites(s.lh)
    requires Traces(area, disk0, ws, base, CommitStates(s.disk, s.lh, s.view), k)
    ensures CutsRun(area, disk0, ws, base, s, op)
  {
    forall j | 0 <= j <= |ws| - base ensures CutRun(area, disk0, ws, base, s, op, j) {
      CutTraced(area, disk0, ws, base, s, op, k, j);
    }
  }

  lemma CutTraced(area: Area, disk0: seq<Block>, ws: seq<BlockWrite>, base: nat, s: Sys, op: nat, k: nat, j: nat)
    requires LogMachine.Inv(s) && s.phase == LogMachine.Running && op in s.active && s.outstanding == 1 && s.lh != []
    requires CommitReady(s.disk, s.lh, s.view) && k <= CommitWrites(s.lh)
    requires Traces(area, disk0, ws, base, CommitStates(s.disk, s.lh, s.view), k) && base + j <= |ws|
    ensures CutRun(area, disk0, ws, base, s, op, j)
  {
    assert StateAt(area, disk0, ws, base + j, CommitStates(s.disk, s.lh, s.view)[j]);
    hide CommitReady, Recoverable, Recovered, Traces, Formatted, Parse, Written, LogMachine.Inv;
    EndRun(s, op, j);
  }

  /** The state machine through end_op and the first `j` writes of its commit: the transaction is
      committed from the header write on. */
  lemma EndRun(s: Sys, op: nat, j: nat)
    requires LogMachine.Inv(s) && s.phase == LogMachine.Running && op in s.active && s.outstanding == 1 && s.lh != []
    requires CommitReady(s.disk, s.lh, s.view) && j <= CommitWrites(s.lh)
    ensures LogRefinement.Run(s, EndActs(op, j)) && LogMachine.Inv(LogRefinement.RunState(s, EndActs(op, j)))
    ensures var e := LogRefinement.RunState(s, EndActs(op, j));
            && e.disk == CommitState(s.disk, s.lh, s.view, j) && e.next == s.next
            && e.committed == (if j <= |s.lh| then s.committed else s.view) && (j <= |s.lh| ==> e.disk.header == [])
  {
    hide Recoverable, Recovered, CommitState;
    EndState(s, op, j);
    NotYet(s.disk, s.lh, s.view, j);
    if j == 0 {
      AppendNone(s.disk, s.lh, s.view);
      LeadsNone(s);
    }
  }

  lemma EndState(s: Sys, op: nat, j: nat)
    requires LogMachine.Inv(s) && s.phase == LogMachine.Running && op in s.active && s.outstanding == 1 && s.lh != []
    requires CommitReady(s.disk, s.lh, s.view) && j <= CommitWrites(s.lh)
    ensures var e := Ending(s, op);
            && LogMachine.Inv(e) && e.phase == LogMachine.Committing(0, s.disk)
            && e.disk == s.disk && e.lh == s.lh && e.view == s.view && e.committed == s.committed && e.next == s.next
            && Leads(s, [LogMachine.End(op)] + Repeat(LogMachine.CommitWrite, j), Committed(e, j))
  {
    hide CommitReady, Recoverable, Recovered, CommitState;
    LeadsOne(s, LogMachine.End(op));
    var e := Ending(s, op);
    CommitRun(e, j);
    LeadsJoin(s, [LogMachine.End(op)], e, Repeat(LogMachine.CommitWrite, j), Committed(e, j));
  }

  /** The machine just after the end of `op`. */
  ghost function Ending(s: Sys, op: nat): Sys
    requires LogMachine.Inv(s) && op in s.active
  {
    LogMachine.Next(s, LogMachine.End(op))
  }

  lemma NotYet(d: Disk, lh: seq<nat>, v: Contents, j: nat)
    requires CommitReady(d, lh, v) && j <= CommitWrites(lh)
    ensures j <= |lh| ==> CommitState(d, lh, v, j).header == []
  {
  }

  /** The block writes of an end_op that does not panic. */
  function EndWrites(s: Sys): nat {
    if s.outstanding == 1 && s.lh != [] then CommitWrites(s.lh) else 0
  }

  /** The machine's steps for the whole of an end_op: the last operation commits. */
  function EndWhole(s: Sys, op: nat): seq<Action> {
    [LogMachine.End(op)] +
    if s.outstanding > 1 then [] else Repeat(LogMachine.CommitWrite, EndWrites(s)) + [LogMachine.CommitDone]
  }

  /** They lead to a state with the same contents, which are durable if the operation was the last. */
  lemma EndWholeRun(s: Sys, op: nat) returns (t: Sys)
    requires LogMachine.Inv(s) && s.phase == LogMachine.Running && op in s.active
    ensures Leads(s, EndWhole(s, op), t) && LogMachine.Inv(t) && t.phase == LogMachine.Running
    ensures t.active == s.active - {op} && t.next == s.next
    ensures t.view == s.view && t.committed == (if s.outstanding == 1 then s.view else s.committed)
    ensures t.outstanding == s.outstanding - 1 && t.lh == if s.outstanding == 1 then [] else s.lh
    ensures t.disk == if EndWrites(s) == 0 then s.disk else CommitState(s.disk, s.lh, s.view, EndWrites(s))
  {
    hide Recoverable, Recovered, CommitState;
    SomeActive(s, op);
    if s.outstanding == 1 && s.lh != [] {
      t := Committing(s, op);
    } else {
      t := NotCommitting(s, op);
    }
  }

  /** end_op by operation `op`: the machine ends it and, if it was the last, commits.  Wherever the block
      writes of the call are cut, the disk is that of a run of the machine.  The call panics exactly
      when it has a list to commit and no buffer to do it with. */
  method End(log: Log, ghost op: nat, ghost s: Sys) returns (ok: bool, ghost t: Sys)
    requires Matches(log, s) && op in s.active
    modifies log`n, log`outstanding, log`committing, log.bc
    ensures ok <==> s.outstanding > 1 || s.lh == [] || |s.lh| < log.bc.n
    ensures log.bc.disk == Written(log.bc.disk0, log.bc.writes) && old(|log.bc.writes|) <= |log.bc.writes|
    ensures |log.bc.writes| == old(|log.bc.writes|) + if ok then EndWrites(s) else 0
    ensures CutsRun(log.area, log.bc.disk0, log.bc.writes, old(|log.bc.writes|), s, op)
    ensures ok ==> Leads(s, EndWhole(s, op), t) && Matches(log, t) && t.active == s.active - {op} && t.next == s.next
    ensures ok ==> t.view == s.view && t.committed == if s.outstanding == 1 then s.view else s.committed
    ensures ok ==> t.lh == if s.outstanding == 1 then [] else s.lh
  {
    hide Bcache.Valid, Coherent, Parse, Formatted, Pinned, View, Recoverable, Recovered, CommitReady, Traces,
         CommitStates,
         Written, Leads, CutsRun, CommitState;
    t := s;
    SomeActive(s, op);
    ghost var base := |log.bc.writes|;
    ghost var k;
    log.ValidFacts();
    ok, k := log.EndOp(s.disk, s.lh, s.view);
    log.ValidFacts();
    if s.outstanding == 1 && s.lh != [] {
      CutsTraced(log.area, log.bc.disk0, log.bc.writes, base, s, op, k);
      TraceEnd(log.area, log.bc.disk0, log.bc.writes, base, CommitStates(s.disk, s.lh, s.view), k);
    } else {
      CutsNone(log.area, log.bc.disk0, log.bc.writes, s, op);
    }
    if ok { t := EndWholeRun(s, op); }
  }

  /** Where a trace ends. */
  lemma TraceEnd(area: Area, disk0: seq<Block>, ws: seq<BlockWrite>, base: nat, ds: seq<Disk>, k: nat)
    requires Traces(area, disk0, ws, base, ds, k)
    ensures k < |ds| && |ws| == base + k && Formatted(area, Written(disk0, ws))
    ensures Parse(area, Written(disk0, ws)) == ds[k]
  {
    assert StateAt(area, disk0, ws, base + k, ds[k]);
    assert ws[..base + k] == ws;
  }

  lemma CutsNone(area: Area, disk0: seq<Block>, ws: seq<BlockWrite>, s: Sys, op: nat)
    requires LogMachine.Inv(s) && Formatted(area, Written(disk0, ws)) && s.disk == Parse(area, Written(disk0, ws))
    requires s.disk.header == []
    ensures CutsRun(area, disk0, ws, |ws|, s, op)
  {
    assert ws[..|ws|] == ws;
    assert CutRun(area, disk0, ws, |ws|, s, op, 0);
  }

  /** An end_op that commits nothing. */
  lemma NotCommitting(s: Sys, op: nat) returns (t: Sys)
    requires LogMachine.Inv(s) && s.phase == LogMachine.Running && op in s.active && (s.outstanding > 1 || s.lh == [])
    requires 1 <= s.outstanding
    ensures Leads(s, EndWhole(s, op), t)
    ensures t == s.(outstanding := s.outstanding - 1, active := s.active - {op})
    ensures s.outstanding == 1 ==> s.committed == s.view
  {
    LeadsOne(s, LogMachine.End(op));
    t := Ending(s, op);
    if s.outstanding == 1 {
      LeadsStep(s, [LogMachine.End(op)], t, LogMachine.CommitDone);
      t := LogMachine.Next(t, LogMachine.CommitDone);
      NothingListed(s);
    }
    assert EndWhole(s, op) == [LogMachine.End(op)] + if s.outstanding == 1 then [LogMachine.CommitDone] else [];
  }

  /** With nothing in the list readers see what is committed. */
  lemma NothingListed(s: Sys)
    requires LogMachine.Inv(s) && s.phase == LogMachine.Running && s.lh == []
    ensures s.committed == s.view
  {
    assert forall b :: b in s.view ==> IndexOf(s.lh, b) == |s.lh|;
  }

  /** An end_op that commits. */
  lemma Committing(s: Sys, op: nat) returns (t: Sys)
    requires LogMachine.Inv(s) && s.phase == LogMachine.Running && op in s.active && s.outstanding == 1 && s.lh != []
    ensures Leads(s, EndWhole(s, op), t)
    ensures CommitReady(s.disk, s.lh, s.view)
    ensures t == s.(outstanding := 0, active := s.active - {op}, lh := [], committed := s.view,
                    disk := CommitState(s.disk, s.lh, s.view, CommitWrites(s.lh)))
  {
    hide CommitReady, Recoverable, Recovered, CommitState;
    var k := CommitWrites(s.lh);
    EndState(s, op, k);
    var e := Ending(s, op);
    var acts := [LogMachine.End(op)] + Repeat(LogMachine.CommitWrite, k);
    LeadsStep(s, acts, Committed(e, k), LogMachine.CommitDone);
    assert acts + [LogMachine.CommitDone] == EndWhole(s, op);
    t := LogMachine.Next(Committed(e, k), LogMachine.CommitDone);
  }

  // ---- power cuts --------------------------------------------------------------------------------

  /** Boot on the disk `image`: a fresh cache, initlog and with it recover_from_log. */
  method Boot(area: Area, nbuf: nat, image: seq<Block>, ghost d: Disk) returns (log: Log, ok: bool, ghost k: nat)
    requires Formatted(area, image) && d == Parse(area, image) && Recoverable(d)
    ensures fresh(log) && fresh(log.bc) && log.area == area && log.bc.n == nbuf && log.bc.disk0 == image
    ensures log.bc.disk == Written(image, log.bc.writes)
    ensures k <= RecoveryWrites(d) && Traces(area, image, log.bc.writes, 0, RecoveryStates(d), k)
    ensures ok <==> 2 <= nbuf || (nbuf == 1 && d.header == [])
    ensures !ok ==> k < RecoveryWrites(d)
    ensures ok ==> k == RecoveryWrites(d) && log.Quiet() && log.Idle() && log.Sees(Recovered(d))
    ensures ok ==> log.n == 0 && log.outstanding == 0 && !log.committing
  {
    var bc := new Bcache.Binit(nbuf, image);
    log := new Log(bc, area);
    hide Coherent, View, Parse, Formatted, Recoverable, Recovered, Traces, RecoveryStates;
    ok, k := log.RecoverFromLog(d);
    log.ValidFacts();
  }

  /** The disk after the first `c` writes of a recovery is the machine's. */
  lemma BootCut(area: Area, image: seq<Block>, ws: seq<BlockWrite>, d: Disk, k: nat, c: nat)
    requires Recoverable(d) && k <= RecoveryWrites(d) && Traces(area, image, ws, 0, RecoveryStates(d), k) && c <= |ws|
    ensures Formatted(area, Written(image, ws[..c])) && Parse(area, Written(image, ws[..c])) == RecoveryState(d, c)
    ensures c <= RecoveryWrites(d)
  {
    assert StateAt(area, image, ws, 0 + c, RecoveryStates(d)[c]);
  }

  /** Steps of a crash and of recoveries, cut and finished. */
  ghost predicate Restarts(acts: seq<Action>) {
    acts != [] && acts[0].Crash? && forall i :: 0 <= i < |acts| ==>
      acts[i].Crash? || acts[i].RecoverWrite? || acts[i].RecoverDone?
  }

  lemma RestartsMore(acts: seq<Action>, c: nat, last: Action)
    requires Restarts(acts) && (last.Crash? || last.RecoverDone?)
    ensures Restarts(acts + Repeat(LogMachine.RecoverWrite, c) + [last])
  {
    OnlyRecoverWrites(c);
  }

  lemma {:induction false} OnlyRecoverWrites(c: nat)
    ensures forall i :: 0 <= i < |Repeat(LogMachine.RecoverWrite, c)| ==>
              Repeat(LogMachine.RecoverWrite, c)[i].RecoverWrite?
  {
    if c > 0 { OnlyRecoverWrites(c - 1); }
  }

  /** The log is up again with the contents `c`, and no operation of the time before. */
  ghost predicate BackTo(c: Contents, next: nat, t: Sys) {
    && t.phase == LogMachine.Running && t.view == t.committed == c && t.lh == []
    && t.active == {} && t.outstanding == 0 && t.next == next
  }

  /** The machine is about to recover the contents `c`. */
  ghost predicate Down(c: Contents, next: nat, t: Sys) {
    && LogMachine.Inv(t) && t.phase == LogMachine.Recovering(0, t.disk) && Recoverable(t.disk) && t.committed == c
    && t.active == {} && t.outstanding == 0 && t.next == next
  }

  /** Power is back: any number of recoveries cut after any of their writes, then one that is not.  The
      contents are those last committed.  It takes two buffers, or one if there is nothing to install. */
  method Restart(area: Area, nbuf: nat, image0: seq<Block>, cuts: seq<nat>, ghost s: Sys)
      returns (log: Log, ok: bool, ghost acts: seq<Action>, ghost t: Sys)
    requires LogMachine.Inv(s) && Formatted(area, image0) && s.disk == Parse(area, image0)
    ensures fresh(log) && fresh(log.bc) && log.area == area && log.bc.n == nbuf
    ensures ok <==> 2 <= nbuf || (nbuf == 1 && s.disk.header == [])
    ensures Leads(s, acts, t) && Restarts(acts) && (ok ==> Matches(log, t) && BackTo(s.committed, s.next, t))
  {
    hide Bcache.Valid, Coherent, View, Parse, Formatted, Recoverable, Recovered, Traces, RecoveryStates, RecoveryState,
         Written, Pinned, Leads, LogMachine.Inv, Restarts, Down;
    var image := image0;
    Crashed(s);
    acts, t := [LogMachine.Crash], LogMachine.Next(s, LogMachine.Crash);
    ghost var k;
    for i := 0 to |cuts|
      invariant Leads(s, acts, t) && Restarts(acts) && Down(s.committed, s.next, t)
      invariant nbuf == 1 ==> (t.disk.header == [] <==> s.disk.header == [])
      invariant Formatted(area, image) && t.disk == Parse(area, image)
    {
      DownFacts(s.committed, s.next, t);
      log, ok, k := Boot(area, nbuf, image, t.disk);
      TraceEnd(area, image, log.bc.writes, 0, RecoveryStates(t.disk), k);
      var c := if cuts[i] < |log.bc.writes| then cuts[i] else |log.bc.writes|;
      BootCut(area, image, log.bc.writes, t.disk, k, c);
      image := Written(image, log.bc.writes[..c]);
      acts, t := RecoveryCut(s, acts, t, c, s.committed, s.next);
    }
    DownFacts(s.committed, s.next, t);
    log, ok, k := Boot(area, nbuf, image, t.disk);
    if ok {
      TraceEnd(area, image, log.bc.writes, 0, RecoveryStates(t.disk), k);
      acts, t := Recovery(s, acts, t, s.committed, s.next);
    }
  }

  lemma DownFacts(c: Contents, next: nat, t: Sys)
    requires Down(c, next, t)
    ensures Recoverable(t.disk) && Recovered(t.disk) == c
  {
  }

  lemma Crashed(s: Sys)
    requires LogMachine.Inv(s)
    ensures var t := LogMachine.Next(s, LogMachine.Crash);
            Leads(s, [LogMachine.Crash], t) && Down(s.committed, s.next, t) && t.disk == s.disk
              && Restarts([LogMachine.Crash])
  {
    LeadsOne(s, LogMachine.Crash);
  }

  /** A recovery cut after `c` writes. */
  lemma RecoveryCut(s: Sys, before: seq<Action>, t0: Sys, c: nat, was: Contents, next: nat)
    returns (acts: seq<Action>, t: Sys)
    requires Leads(s, before, t0) && Restarts(before) && Down(was, next, t0)
    requires Recoverable(t0.disk) && c <= RecoveryWrites(t0.disk)
    ensures Leads(s, acts, t) && Restarts(acts) && Down(was, next, t)
    ensures t.disk == RecoveryState(t0.disk, c)
            && t.disk.header == if c < RecoveryWrites(t0.disk) then t0.disk.header else []
  {
    hide Recoverable, Recovered, Restarts;
    RestoreRun(t0, c);
    var r := Restored(t0, c);
    LeadsJoin(s, before, t0, Repeat(LogMachine.RecoverWrite, c), r);
    Crashed(r);
    t := LogMachine.Next(r, LogMachine.Crash);
    LeadsJoin(s, before + Repeat(LogMachine.RecoverWrite, c), r, [LogMachine.Crash], t);
    RestartsMore(before, c, LogMachine.Crash);
    acts := before + Repeat(LogMachine.RecoverWrite, c) + [LogMachine.Crash];
  }

  /** A recovery that finishes. */
  lemma Recovery(s: Sys, before: seq<Action>, t0: Sys, was: Contents, next: nat) returns (acts: seq<Action>, t: Sys)
    requires Leads(s, before, t0) && Down(was, next, t0)
    ensures Leads(s, acts, t) && LogMachine.Inv(t) && (Restarts(before) ==> Restarts(acts)) && BackTo(was, next, t)
    ensures Recoverable(t0.disk) && t.disk == RecoveryState(t0.disk, RecoveryWrites(t0.disk))
    ensures acts == before + Repeat(LogMachine.RecoverWrite, RecoveryWrites(t0.disk)) + [LogMachine.RecoverDone]
  {
    hide Recovered, Restarts, Recoverable;
    DownFacts(was, next, t0);
    var k := RecoveryWrites(t0.disk);
    RestoreRun(t0, k);
    var r := Restored(t0, k);
    RecoveryStateKeepsRecovered(t0.disk, k);
    LeadsJoin(s, before, t0, Repeat(LogMachine.RecoverWrite, k), r);
    acts := before + Repeat(LogMachine.RecoverWrite, k);
    assert LogMachine.Enabled(r, LogMachine.RecoverDone);
    LeadsStep(s, acts, r, LogMachine.RecoverDone);
    if Restarts(before) { RestartsMore(before, k, LogMachine.RecoverDone); }
    acts, t := acts + [LogMachine.RecoverDone], LogMachine.Next(r, LogMachine.RecoverDone);
  }

  /** What is done to the log: calls of operations, and power cuts, within an end_op after `j` of its
      block writes or between calls, each followed by recoveries cut after `cuts` writes. */
  datatype Call =
    | BeginCall | WriteCall(op: nat, b: nat, data: Block) | EndCall(op: nat)
    | CutInEnd(op: nat, j: nat, cuts: seq<nat>) | CutBetween(cuts: seq<nat>)

  /** The block writes of an end_op that are made before power is cut after the `j`-th: none if it panics. */
  function CutWrites(s: Sys, j: nat, nbuf: nat): nat {
    if EndWrites(s) > 0 && nbuf <= |s.lh| then 0 else if j < EndWrites(s) then j else EndWrites(s)
  }

  /** Power is cut in the end_op of operation `op` after `c` of its writes: the transaction is there
      afterwards exactly if the header had been written. */
  ghost predicate CutAt(s: Sys, op: nat, c: nat, acts: seq<Action>, t: Sys) {
    && EndActs(op, c) <= acts && Restarts(acts[|EndActs(op, c)|..])
    && BackTo(if c <= |s.lh| then s.committed else s.view, s.next, t)
  }

  /** A power cut in the end_op of operation `op`. */
  method EndAndCut(log0: Log, ghost op: nat, j: nat, cuts: seq<nat>, ghost s: Sys)
      returns (log: Log, ok: bool, ghost acts: seq<Action>, ghost t: Sys)
    requires Matches(log0, s) && op in s.active
    modifies log0`n, log0`outstanding, log0`committing, log0.bc
    ensures fresh(log) && fresh(log.bc) && log.area == log0.area && log.bc.n == log0.bc.n && (ok <==> 1 <= log.bc.n)
    ensures Leads(s, acts, t) && (ok ==> Matches(log, t) && CutAt(s, op, CutWrites(s, j, log0.bc.n), acts, t))
  {
    hide Bcache.Valid, Coherent, View, Parse, Formatted, Recoverable, Recovered, Written, Pinned, LogMachine.Inv,
         Matches,
         Restarts, BackTo, Repeat, Leads;
    var base := |log0.bc.writes|;
    var _, _ := End(log0, op, s);
    var cut := if j < |log0.bc.writes| - base then j else |log0.bc.writes| - base;
    ghost var c := CutWrites(s, j, log0.bc.n);
    var image := Written(log0.bc.disk0, log0.bc.writes[..base + cut]);
    CutLeads(log0.area, log0.bc.disk0, log0.bc.writes, base, s, op, c);
    ghost var e := LogRefinement.RunState(s, EndActs(op, c));
    ghost var more;
    log, ok, more, t := Restart(log0.area, log0.bc.n, image, cuts, e);
    LeadsJoin(s, EndActs(op, c), e, more, t);
    acts := EndActs(op, c) + more;
    assert acts[|EndActs(op, c)|..] == more;
  }

  lemma CutLeads(area: Area, disk0: seq<Block>, ws: seq<BlockWrite>, base: nat, s: Sys, op: nat, c: nat)
    requires CutsRun(area, disk0, ws, base, s, op) && base + c <= |ws|
    ensures CutRun(area, disk0, ws, base, s, op, c)
    ensures Leads(s, EndActs(op, c), LogRefinement.RunState(s, EndActs(op, c)))
  {
  }

  /** The calls at which the kernel panics: no room in the list or no buffer for a block, no buffer to
      commit with, or none at all to recover with. */
  ghost predicate Panics(call: Call, s: Sys, nbuf: nat) {
    match call
    case BeginCall => false
    case WriteCall(op, b, data) =>
      && op in s.active && b in s.view
      && !(LogMachine.Enabled(s, LogMachine.LogWrite(op, b, data)) && (b in s.lh || |s.lh| < nbuf))
    case EndCall(op) => op in s.active && EndWrites(s) > 0 && nbuf <= |s.lh|
    case CutInEnd(op, j, cuts) => op in s.active && nbuf == 0
    case CutBetween(cuts) => nbuf == 0
  }

  /** What a call that does not panic comes to: the steps of the machine that it is, and what they lead to. */
  ghost predicate Did(call: Call, s: Sys, nbuf: nat, acts: seq<Action>, t: Sys) {
    Leads(s, acts, t) &&
    match call
    case BeginCall => acts == if LogMachine.Enabled(s, LogMachine.Begin) then [LogMachine.Begin] else []
    case WriteCall(op, b, data) =>
      acts == if op in s.active && b in s.view then [LogMachine.LogWrite(op, b, data)] else []
    case EndCall(op) => acts == if op in s.active then EndWhole(s, op) else []
    case CutInEnd(op, j, cuts) =>
      if op in s.active then CutAt(s, op, CutWrites(s, j, nbuf), acts, t) else acts == []
    case CutBetween(cuts) => Restarts(acts) && BackTo(s.committed, s.next, t)
  }

  /** One call or power cut; `active` are the operations begun and not ended, `next` the number of the
      next one. */
  method Step(log0: Log, call: Call, active: set<nat>, next: nat, ghost s: Sys)
      returns (log: Log, alive: bool, active': set<nat>, next': nat, ghost acts: seq<Action>, ghost t: Sys)
    requires Matches(log0, s) && s.active == active && s.next == next
    modifies log0, log0.bc
    ensures log == log0 || fresh(log)
    ensures log.bc == log0.bc || fresh(log.bc)
    ensures log.area == log0.area && log.bc.n == log0.bc.n && (alive <==> !Panics(call, s, log0.bc.n))
    ensures alive ==> Did(call, s, log0.bc.n, acts, t) && Matches(log, t) && t.active == active' && t.next == next'
  {
    hide Bcache.Valid, LogMachine.Inv, Matches, Leads, Log.Quiet, LogMachine.Enabled, CutAt, Restarts;
    log, alive, active', next', acts, t := log0, true, active, next, [], s;
    MatchesFacts(log0, s);
    LeadsNone(s);
    match call {
      case BeginCall =>
        var entered;
        entered, t := Begin(log, s);
        if entered {
          LeadsOne(s, LogMachine.Begin);
          acts, active', next' := [LogMachine.Begin], active + {next}, next + 1;
        }
      case WriteCall(op, b, data) =>
        if op in active && log.area.Home(b, |log.bc.disk|) {
          alive, t := Write(log, op, b, data, s);
          if alive {
            LeadsOne(s, LogMachine.LogWrite(op, b, data));
            acts := [LogMachine.LogWrite(op, b, data)];
          }
        }
      case EndCall(op) =>
        if op in active {
          alive, t := End(log, op, s);
          acts, active' := EndWhole(s, op), active - {op};
        }
      case CutInEnd(op, j, cuts) =>
        if op in active {
          log, alive, acts, t := EndAndCut(log, op, j, cuts, s);
          CutBack(s, op, CutWrites(s, j, log0.bc.n), acts, t);
          active' := {};
        }
      case CutBetween(cuts) =>
        log, alive, acts, t := Restart(log.area, log.bc.n, log.bc.disk, cuts, s);
        active' := {};
    }
  }

  lemma CutBack(s: Sys, op: nat, c: nat, acts: seq<Action>, t: Sys)
    ensures CutAt(s, op, c, acts, t) ==> t.active == {} && t.next == s.next
  {
  }

  /** The steps of the first `k` calls. */
  function Joined(runs: seq<seq<Action>>, k: nat): seq<Action>
    requires k <= |runs|
  {
    if k == 0 then [] else Joined(runs, k - 1) + runs[k - 1]
  }

  /** A history of calls: the machine's states between them and its steps within each. */
  ghost predicate Follows(calls: seq<Call>, done: nat, states: seq<Sys>, runs: seq<seq<Action>>, nbuf: nat) {
    && done <= |calls| && |states| == done + 1 && |runs| == done
    && forall k :: 0 <= k < done ==>
      !Panics(calls[k], states[k], nbuf) && Did(calls[k], states[k], nbuf, runs[k], states[k + 1])
  }

  /** Any sequence of calls by any number of operations, and of power cuts, is a run of the machine, call
      by call; after every call the code's log is the machine's.  It ends with the first call that panics. */
  method Run(log0: Log, calls: seq<Call>, next0: nat, ghost s0: Sys)
      returns (log: Log, done: nat, ghost states: seq<Sys>, ghost runs: seq<seq<Action>>)
    requires Matches(log0, s0) && s0.active == {} && s0.next == next0
    modifies log0, log0.bc
    ensures Follows(calls, done, states, runs, log0.bc.n) && states[0] == s0
    ensures Leads(s0, Joined(runs, done), states[done])
    ensures done < |calls| ==> Panics(calls[done], states[done], log0.bc.n)
    ensures done == |calls| ==> Matches(log, states[done]) && log.area == log0.area
  {
    hide Bcache.Valid, LogMachine.Inv, Matches, Leads, Log.Quiet, LogMachine.Enabled, Did, Panics;
    log, done, states, runs := log0, 0, [s0], [];
    var active: set<nat>, next, alive := {}, next0, true;
    MatchesFacts(log0, s0);
    LeadsNone(s0);
    while done < |calls|
      invariant log.area == log0.area && log.bc.n == log0.bc.n && Follows(calls, done, states, runs, log0.bc.n)
      invariant states[0] == s0
      invariant Leads(s0, Joined(runs, done), states[done])
      invariant Matches(log, states[done]) && states[done].active == active && states[done].next == next
      invariant log == log0 || fresh(log)
      invariant log.bc == log0.bc || fresh(log.bc)
    {
      ghost var s := states[done];
      ghost var more, t;
      log, alive, active, next, more, t := Step(log, calls[done], active, next, s);
      if !alive { return; }
      DidLeads(calls[done], s, log0.bc.n, more, t);
      LeadsJoin(s0, Joined(runs, done), s, more, t);
      JoinedSame(runs, [more], done);
      states, runs, done := states + [t], runs + [more], done + 1;
    }
  }

  lemma DidLeads(call: Call, s: Sys, nbuf: nat, acts: seq<Action>, t: Sys)
    requires Did(call, s, nbuf, acts, t)
    ensures Leads(s, acts, t)
  {
  }

  lemma {:induction false} JoinedSame(runs: seq<seq<Action>>, more: seq<seq<Action>>, k: nat)
    requires k <= |runs|
    ensures Joined(runs + more, k) == Joined(runs, k)
  {
    if k > 0 { JoinedSame(runs, more, k - 1); }
  }

  /** The machine on a disk at power-up. */
  ghost function PoweredUp(d: Disk): (s: Sys)
    requires Recoverable(d)
    ensures LogMachine.Init(s)
  {
    LogMachine.Sys(d, d.home, d.header, 0, LogMachine.Recovering(0, d), {}, 0, Recovered(d))
  }

  /** The disk stands for a prefix of the writes that the run has not lost, no operation has writes on
      both sides of its end, and none inside it is still active. */
  ghost predicate AllOrNothing(s0: Sys, acts: seq<Action>, t: Sys, disk: Disk) {
    && LogMachine.Inv(s0) && LogRefinement.Run(s0, acts) && Recoverable(s0.disk) && Recoverable(disk)
    && var h := LogHistory.RunHistory(LogHistory.History(Recovered(s0.disk), [], 0), s0, acts);
       && h.durable <= |h.writes| && Recovered(disk) == LogHistory.Replay(h.origin, h.writes[..h.durable])
       && LogHistory.Atomic(h, t.active, t.next)
  }

  /** The code from power-up on: recovery, then any calls and power cuts.  What is on its disk afterwards
      is all or nothing of every operation. */
  method PowerUp(area: Area, nbuf: nat, image: seq<Block>, calls: seq<Call>)
      returns (log: Log, up: bool, done: nat, ghost states: seq<Sys>, ghost runs: seq<seq<Action>>,
          ghost acts: seq<Action>)
    requires Formatted(area, image) && Recoverable(Parse(area, image))
    ensures up <==> 2 <= nbuf || (nbuf == 1 && Parse(area, image).header == [])
    ensures up ==> Follows(calls, done, states, runs, nbuf) && BackTo(Recovered(Parse(area, image)), 0, states[0])
    ensures up ==>
              acts == Repeat(LogMachine.RecoverWrite, RecoveryWrites(Parse(area, image))) + [LogMachine.RecoverDone]
                      + Joined(runs, done)
    ensures up ==> Leads(PoweredUp(Parse(area, image)), acts, states[done])
    ensures up && done < |calls| ==> Panics(calls[done], states[done], nbuf)
    ensures up && done == |calls| ==>
              && Matches(log, states[done]) && log.area == area
              && AllOrNothing(PoweredUp(Parse(area, image)), acts, states[done], Parse(area, log.bc.disk))
  {
    hide Bcache.Valid, Coherent, View, Parse, Formatted, Recoverable, Recovered, Traces, RecoveryStates, RecoveryState,
         Written, Pinned, Leads, LogMachine.Inv, Did, Panics, AllOrNothing, Matches;
    ghost var d := Parse(area, image);
    ghost var s0, k := PoweredUp(d), 0;
    log, up, k := Boot(area, nbuf, image, d);
    done, states, runs, acts := 0, [s0], [], [];
    if !up { return; }
    TraceEnd(area, image, log.bc.writes, 0, RecoveryStates(d), k);
    ghost var s;
    acts, s := FirstRecovery(s0);
    BootMatches(log, d, s);
    log, done, states, runs := Run(log, calls, 0, s);
    LeadsJoin(s0, acts, s, Joined(runs, done), states[done]);
    acts := acts + Joined(runs, done);
    if done == |calls| { RunAllOrNothing(s0, acts, states[done], log); }
  }

  lemma FirstRecovery(s0: Sys) returns (acts: seq<Action>, s: Sys)
    requires LogMachine.Init(s0)
    ensures Leads(s0, acts, s) && LogMachine.Inv(s) && BackTo(Recovered(s0.disk), s0.next, s)
    ensures acts == Repeat(LogMachine.RecoverWrite, RecoveryWrites(s0.disk)) + [LogMachine.RecoverDone]
    ensures s.disk == RecoveryState(s0.disk, RecoveryWrites(s0.disk))
  {
    LogMachine.InitInv(s0);
    LeadsNone(s0);
    acts, s := Recovery(s0, [], s0, Recovered(s0.disk), s0.next);
  }

  lemma BootMatches(log: Log, d: Disk, s: Sys)
    requires log.Quiet() && s.disk == Parse(log.area, log.bc.disk)
    requires Recoverable(d) && LogMachine.Inv(s) && BackTo(Recovered(d), 0, s)
    requires log.Idle() && log.Sees(Recovered(d)) && log.n == 0 && log.outstanding == 0 && !log.committing
    ensures Matches(log, s)
  {
  }

  lemma RunAllOrNothing(s0: Sys, acts: seq<Action>, t: Sys, log: Log)
    requires LogMachine.Init(s0) && Leads(s0, acts, t) && Matches(log, t)
    ensures AllOrNothing(s0, acts, t, Parse(log.area, log.bc.disk))
  {
    LogHistory.AllOrNothing(s0, acts);
  }

  lemma MatchesFacts(log: Log, s: Sys)
    requires Matches(log, s)
    ensures LogMachine.Inv(s) && s.outstanding == log.outstanding && (s.active != {} ==> 1 <= s.outstanding)
    ensures (forall b :: b in s.view <==> log.area.Home(b, |log.bc.disk|))
    ensures Formatted(log.area, log.bc.disk) && s.disk == Parse(log.area, log.bc.disk) && s.disk.header == []
    ensures s.phase == LogMachine.Running
  {
  }
}
