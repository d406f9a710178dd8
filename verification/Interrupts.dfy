/** What an interrupt does to a run of the pool: no new job is begun, and exactly the jobs that no
    worker had looked at yet are handed back. */
module Interrupts {
  import opened Totals
  import opened WorkerPool

  // ---- No new work

  /** The jobs being executed. */
  ghost function RunningIds(workers: seq<Worker>): set<int> {
    set w | 0 <= w < |workers| && workers[w].Running? :: workers[w].job.id
  }

  lemma {:induction false} AtMostOneEach(workers: seq<Worker>)
    ensures |RunningIds(workers)| <= |workers|
  {
    if workers != [] {
      var n := |workers| - 1;
      AtMostOneEach(workers[..n]);
      var last := if workers[n].Running? then {workers[n].job.id} else {};
      assert RunningIds(workers) == RunningIds(workers[..n]) + last;
    }
  }

  /** Nothing is executed that was not executed or being executed before. */
  ghost predicate OnlyFinishes(s0: State, s: State) {
    && s.threadExit
    && RunningIds(s.workers) <= RunningIds(s0.workers)
    && s.executed.Keys <= s0.executed.Keys + RunningIds(s0.workers)
  }

  lemma StepOnlyFinishes(c: Config, s0: State, s: State, step: Step)
    requires Enabled(c, s, step) && OnlyFinishes(s0, s)
    ensures OnlyFinishes(s0, Apply(c, s, step))
  {
    var t := Apply(c, s, step);
    forall id | id in RunningIds(t.workers) ensures id in RunningIds(s.workers) {
      var w :| 0 <= w < |t.workers| && t.workers[w].Running? && t.workers[w].job.id == id;
      assert t.workers[w] == s.workers[w];
    }
    if step.Run? {
      assert s.workers[step.w].job.id in RunningIds(s.workers);
    }
  }

  lemma {:induction false} LaterOnlyFinishes(c: Config, run: seq<State>, i: nat, j: nat)
    requires IsRun(c, run) && i <= j < |run| && run[i].threadExit
    ensures OnlyFinishes(run[i], run[j])
  {
    if i < j {
      LaterOnlyFinishes(c, run, i, j - 1);
      assert Next(c, run[j - 1], run[j]);
      var step :| Enabled(c, run[j - 1], step) && run[j] == Apply(c, run[j - 1], step);
      StepOnlyFinishes(c, run[i], run[j - 1], step);
    }
  }

  /** After an interrupt only jobs that a worker is executing at that moment are still executed, so
      at most as many as there are workers. */
  lemma NoNewWork(c: Config, run: seq<State>, i: nat, j: nat)
    requires IsRun(c, run) && i <= j < |run| && run[i].threadExit
    ensures forall id :: id in run[j].executed && id !in run[i].executed ==>
      exists w :: 0 <= w < |run[i].workers| && run[i].workers[w].Running? && run[i].workers[w].job.id == id
    ensures |run[j].executed.Keys - run[i].executed.Keys| <= |run[i].workers|
  {
    LaterOnlyFinishes(c, run, i, j);
    var more, running := run[j].executed.Keys - run[i].executed.Keys, RunningIds(run[i].workers);
    AtMostOneEach(run[i].workers);
    Smaller(more, running);
  }

  lemma Smaller<T>(a: set<T>, b: set<T>)
    requires a <= b
    ensures |a| <= |b|
  {
    assert b == a + (b - a);
  }

  // ---- Which jobs are handed back

  /** No worker has looked at the job: it is not yet put, queued, or taken and not inspected. */
  ghost predicate Untouched(s: State, id: int) {
    || (exists k :: 0 <= k < |s.pending| && s.pending[k].id == id)
    || (exists k :: 0 <= k < |s.inputQueue| && s.inputQueue[k].id == id)
    || (exists w :: 0 <= w < |s.workers| && s.workers[w].Holding? && s.workers[w].job.id == id)
  }

  /** Wherever the job is being executed or reported, it is marked as broken off or not. */
  ghost predicate Marked(s: State, id: int, broken: bool) {
    && (forall w :: 0 <= w < |s.workers| && s.workers[w].Running? && s.workers[w].job.id == id ==> !broken)
    && (forall w :: 0 <= w < |s.workers| && s.workers[w].Finishing? && s.workers[w].job.id == id ==>
          s.workers[w].job.isBreak == broken)
    && (forall k :: 0 <= k < |s.outputQueue| && s.outputQueue[k].id == id ==> s.outputQueue[k].isBreak == broken)
    && (forall k :: 0 <= k < |s.collected| && s.collected[k].id == id ==> s.collected[k].isBreak == broken)
  }

  lemma QueuedNowhereElse(s: State, id: int, q: seq<Job>, k: nat)
    requires Places(s, id) == 1 && (q == s.pending || q == s.inputQueue) && k < |q| && q[k].id == id
    ensures forall w :: 0 <= w < |s.workers| ==> Holds(id)(s.workers[w]) == 0
    ensures forall i :: 0 <= i < |s.outputQueue| ==> s.outputQueue[i].id != id
    ensures forall i :: 0 <= i < |s.collected| ==> s.collected[i].id != id
  {
    assert Own(id)(q[k]) == 1;
    TotalRange(s.pending, Own(id), 1);
    TotalRange(s.inputQueue, Own(id), 1);
    TotalRange(s.workers, Holds(id), 1);
    TotalRange(s.outputQueue, Own(id), 1);
    TotalRange(s.collected, Own(id), 1);
    NoneOwned(s.outputQueue, id);
    NoneOwned(s.collected, id);
  }

  ghost predicate HandedBack(s: State, id: int) {
    exists k :: 0 <= k < |s.collected| && s.collected[k].id == id && s.collected[k].isBreak
  }

  lemma UntouchedNotSeen(c: Config, s: State, id: int)
    requires OnePlace(c, s) && 0 <= id < |c.skips| && Untouched(s, id)
    ensures Marked(s, id, true)
  {
    assert Places(s, id) == 1;
    if k :| 0 <= k < |s.pending| && s.pending[k].id == id {
      QueuedNowhereElse(s, id, s.pending, k);
      NotAtWorkers(s, id);
    } else if k :| 0 <= k < |s.inputQueue| && s.inputQueue[k].id == id {
      QueuedNowhereElse(s, id, s.inputQueue, k);
      NotAtWorkers(s, id);
    } else {
      var w :| 0 <= w < |s.workers| && s.workers[w].Holding? && s.workers[w].job.id == id;
      WorkerAlone(c, s, w, id);
      forall v | 0 <= v < |s.workers| && (s.workers[v].Running? || s.workers[v].Finishing?)
        ensures s.workers[v].job.id != id
      {
        assert Holds(id)(s.workers[v]) == 0;
      }
    }
  }

  lemma NotAtWorkers(s: State, id: int)
    requires forall w :: 0 <= w < |s.workers| ==> Holds(id)(s.workers[w]) == 0
    ensures forall w :: 0 <= w < |s.workers| && (s.workers[w].Running? || s.workers[w].Finishing?) ==>
      s.workers[w].job.id != id
  {
    forall w | 0 <= w < |s.workers| && (s.workers[w].Running? || s.workers[w].Finishing?)
      ensures s.workers[w].job.id != id
    {
      assert Holds(id)(s.workers[w]) == 0;
    }
  }

  /** Before any interrupt every job that has been seen is unbroken. */
  lemma SeenUnbroken(c: Config, s: State, id: int)
    requires Shapes(c, s) && !s.threadExit
    ensures Marked(s, id, false)
  {
    forall w | 0 <= w < |s.workers| && s.workers[w].Finishing? ensures !s.workers[w].job.isBreak {
      assert WorkerOk(c, s, s.workers[w]);
    }
    forall k | 0 <= k < |s.outputQueue| ensures !s.outputQueue[k].isBreak {
      assert Result(c, s, s.outputQueue[k]);
    }
    forall k | 0 <= k < |s.collected| ensures !s.collected[k].isBreak {
      assert Result(c, s, s.collected[k]);
    }
  }

  /** Once interrupted, a job is marked by whether a worker had looked at it. */
  lemma StepMarks(c: Config, s: State, step: Step, id: int, broken: bool)
    requires Enabled(c, s, step) && Shapes(c, s) && s.threadExit && 0 <= id
    requires Marked(s, id, broken) && (broken || !Untouched(s, id))
    ensures Marked(Apply(c, s, step), id, broken) && (broken || !Untouched(Apply(c, s, step), id))
  {
    var t := Apply(c, s, step);
    if ByWorker(step) { assert WorkerOk(c, s, s.workers[step.w]); }
    if !broken { StepKeepsSeen(c, s, step, id); }
    forall w | 0 <= w < |t.workers| && (t.workers[w].Running? || t.workers[w].Finishing?) && t.workers[w].job.id == id
      ensures if t.workers[w].Running? then !broken else t.workers[w].job.isBreak == broken
    {
      if !ByWorker(step) || w != step.w { assert t.workers[w] == s.workers[w]; }
    }
  }

  lemma StepKeepsSeen(c: Config, s: State, step: Step, id: int)
    requires Enabled(c, s, step) && 0 <= id && !Untouched(s, id)
    ensures !Untouched(Apply(c, s, step), id)
  {
    var t := Apply(c, s, step);
    forall w | 0 <= w < |t.workers| && t.workers[w].Holding? ensures t.workers[w].job.id != id {
      if !ByWorker(step) || w != step.w { assert t.workers[w] == s.workers[w]; }
    }
  }

  /** After an interrupt: how the job is marked, which is decided once it is not untouched. */
  ghost predicate Settled(s: State, id: int, broken: bool) {
    s.threadExit && Marked(s, id, broken) && (broken || !Untouched(s, id))
  }

  lemma NextSettled(c: Config, s: State, t: State, id: int, broken: bool)
    requires Next(c, s, t) && Shapes(c, s) && 0 <= id && Settled(s, id, broken)
    ensures Settled(t, id, broken)
  {
    var step :| Enabled(c, s, step) && t == Apply(c, s, step);
    StepMarks(c, s, step, id, broken);
  }

  lemma InvParts(c: Config, run: seq<State>, i: nat)
    requires IsRun(c, run) && i < |run|
    ensures Shapes(c, run[i]) && OnePlace(c, run[i])
  {
    StateSafe(c, run, i);
  }

  lemma OneStepOn(c: Config, run: seq<State>, j: nat, id: int, broken: bool)
    requires IsRun(c, run) && 0 < j < |run| && 0 <= id && Settled(run[j - 1], id, broken)
    ensures Settled(run[j], id, broken)
  {
    InvParts(c, run, j - 1);
    NextSettled(c, run[j - 1], run[j], id, broken);
  }

  lemma {:induction false} LaterSettled(c: Config, run: seq<State>, i: nat, j: nat, id: int, broken: bool)
    requires IsRun(c, run) && i <= j < |run| && 0 <= id && Settled(run[i], id, broken)
    ensures Settled(run[j], id, broken)
  {
    if i < j {
      LaterSettled(c, run, i, j - 1, id, broken);
      OneStepOn(c, run, j, id, broken);
    }
  }

  lemma UntouchedSettled(c: Config, s: State, id: int)
    requires OnePlace(c, s) && 0 <= id < |c.skips| && Untouched(s, id) && s.threadExit
    ensures Settled(s, id, true)
  {
    UntouchedNotSeen(c, s, id);
  }

  /** The interrupt itself touches no job. */
  lemma SeenSettled(c: Config, s: State, t: State, id: int)
    requires Next(c, s, t) && Shapes(c, s) && !s.threadExit && t.threadExit && !Untouched(t, id)
    ensures Settled(t, id, false)
  {
    SeenUnbroken(c, s, id);
  }

  lemma SettledAtInterrupt(c: Config, run: seq<State>, i: nat, id: int)
    requires IsRun(c, run) && 0 < i < |run| && !run[i - 1].threadExit && run[i].threadExit
    requires 0 <= id < |c.skips|
    ensures Settled(run[i], id, Untouched(run[i], id))
  {
    var s, t := run[i - 1], run[i];
    InvParts(c, run, i);
    InvParts(c, run, i - 1);
    if Untouched(t, id) {
      UntouchedSettled(c, t, id);
    } else {
      SeenSettled(c, s, t, id);
    }
  }

  /** When a run interrupted at i is over, the jobs collected as broken off are exactly those that
      no worker had looked at by then, jobs to be skipped included, and none of them was executed. */
  lemma HandedBackIffUntouched(c: Config, run: seq<State>, i: nat)
    requires IsRun(c, run) && CanFinish(c) && Stuck(c, run[|run| - 1])
    requires 0 < i < |run| && !run[i - 1].threadExit && run[i].threadExit
    ensures var s := run[|run| - 1];
      forall k :: 0 <= k < |s.collected| ==> (s.collected[k].isBreak <==> Untouched(run[i], s.collected[k].id))
    ensures var s := run[|run| - 1];
      forall id :: 0 <= id < |c.skips| && Untouched(run[i], id) ==> HandedBack(s, id) && id !in s.executed
  {
    var s := run[|run| - 1];
    StuckRunsAreComplete(c, run);
    forall k | 0 <= k < |s.collected|
      ensures s.collected[k].isBreak <==> Untouched(run[i], s.collected[k].id)
      ensures s.collected[k].isBreak ==> s.collected[k].id !in s.executed
    {
      var id := s.collected[k].id;
      assert Result(c, s, s.collected[k]);
      SettledAtInterrupt(c, run, i, id);
      LaterSettled(c, run, i, |run| - 1, id, Untouched(run[i], id));
    }
    forall id | 0 <= id < |c.skips| && Untouched(run[i], id)
      ensures HandedBack(s, id) && id !in s.executed
    {
      TotalRange(s.collected, Own(id), 1);
      var k :| 0 <= k < |s.collected| && Own(id)(s.collected[k]) > 0;
      assert s.collected[k].id == id;
    }
  }
}
