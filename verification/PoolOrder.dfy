/** The order in which a run of the pool handles its jobs: taken as dispatched, collected as
    reported, and collected only once everything has been dispatched. */
module PoolOrder {
  import opened WorkerPool

  /** Of the jobs still to be taken, earlier ones come first. */
  ghost predicate Ascending(s: State) {
    && (forall i, j :: 0 <= i < j < |s.inputQueue| && !s.inputQueue[j].isBreak ==>
          s.inputQueue[i].id < s.inputQueue[j].id)
    && (forall i, j :: 0 <= i < |s.inputQueue| && 0 <= j < |s.pending| ==> s.inputQueue[i].id < s.pending[j].id)
    && (forall i, j :: 0 <= i < j < |s.pending| ==> s.pending[i].id < s.pending[j].id)
  }

  /** The main thread collects only after dispatching every job and every stop token. */
  ghost predicate CollectsLast(c: Config, s: State) {
    s.collected != [] ==> s.pending == [] && s.tokensIssued == c.processors
  }

  lemma StepKeepsOrder(c: Config, s: State, step: Step)
    requires Enabled(c, s, step) && Ascending(s) && CollectsLast(c, s)
    ensures Ascending(Apply(c, s, step)) && CollectsLast(c, Apply(c, s, step))
  {
  }

  /** In every state of every run the jobs are taken in the order of dispatch, by whichever worker,
      and none is collected before all have been dispatched. */
  lemma {:induction false} TakenInOrder(c: Config, run: seq<State>, i: nat)
    requires IsRun(c, run) && i < |run|
    ensures Ascending(run[i]) && CollectsLast(c, run[i])
  {
    if i > 0 {
      TakenInOrder(c, run, i - 1);
      assert Next(c, run[i - 1], run[i]);
      var step :| Enabled(c, run[i - 1], step) && run[i] == Apply(c, run[i - 1], step);
      StepKeepsOrder(c, run[i - 1], step);
    }
  }

  /** What has been reported stays, and is collected in the order of the reports. */
  lemma {:induction false} CollectedAsReported(c: Config, run: seq<State>, i: nat, j: nat)
    requires IsRun(c, run) && i <= j < |run|
    ensures run[i].collected <= run[j].collected
    ensures run[i].collected + run[i].outputQueue <= run[j].collected + run[j].outputQueue
  {
    if i < j {
      CollectedAsReported(c, run, i, j - 1);
      assert Next(c, run[j - 1], run[j]);
      var step :| Enabled(c, run[j - 1], step) && run[j] == Apply(c, run[j - 1], step);
      StepExtends(c, run[j - 1], step);
    }
  }

  lemma StepExtends(c: Config, s: State, step: Step)
    requires Enabled(c, s, step)
    ensures var t := Apply(c, s, step);
      s.collected <= t.collected && s.collected + s.outputQueue <= t.collected + t.outputQueue
  {
    var t := Apply(c, s, step);
    if step.Collect? {
      assert s.outputQueue == [s.outputQueue[0]] + s.outputQueue[1..];
      assert t.collected + t.outputQueue == s.collected + s.outputQueue;
    } else if step.Put? {
      assert t.collected + t.outputQueue == s.collected + s.outputQueue + [s.workers[step.w].job];
    }
  }
}
