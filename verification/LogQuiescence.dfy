/** What a crash brings back: the file system as it was at a moment when no operation was running. */
module LogQuiescence {
  import opened LogDisk
  import opened LogMachine
  import opened LogRefinement

  /** No operation is running, and the cache shows the file system. */
  ghost predicate Quiescent(s: Sys) { s.active == {} && !s.phase.Recovering? }

  /** `good` holds of what readers see at every quiescent moment of the run. */
  ghost predicate GoodWhenQuiet(s: Sys, acts: seq<Action>, good: Contents -> bool)
    requires Inv(s) && Run(s, acts)
    decreases |acts|
  {
    && (Quiescent(s) ==> good(s.view))
    && (acts != [] ==> (StepInv(s, acts[0]); GoodWhenQuiet(Next(s, acts[0]), acts[1..], good)))
  }

  /** The committed contents change only when the header is written, and then to the contents that
      readers see with no operation running. */
  lemma CommittedStep(s: Sys, a: Action)
    requires Inv(s) && Enabled(s, a)
    ensures Next(s, a).committed == s.committed || (Quiescent(s) && Next(s, a).committed == s.view)
  {
    hide CommitReady, CommitState, Recoverable, Recovered;
  }

  /** Any property that readers can rely on whenever no operation is running, such as the block map's
      invariants, holds of what recovery brings back after a crash at any point of any run. */
  lemma {:induction false} GoodAfterCrash(s: Sys, acts: seq<Action>, good: Contents -> bool)
    requires Inv(s) && Run(s, acts) && GoodWhenQuiet(s, acts, good) && good(s.committed)
    ensures good(Recovered(RunState(s, acts).disk))
    decreases |acts|
  {
    if acts != [] {
      StepInv(s, acts[0]);
      CommittedStep(s, acts[0]);
      GoodAfterCrash(Next(s, acts[0]), acts[1..], good);
    }
  }
}
