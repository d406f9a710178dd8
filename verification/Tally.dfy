/** Counting the collected results, the exit status, and what both mean for a run of the pool. */
module Tally {
  import opened Interrupts
  import opened Totals
  import opened WorkerPool

  // ---- The headings a result can be counted under

  ghost function Interrupted(j: Job): int { if j.isBreak then 1 else 0 }

  ghost function Skipped(j: Job): int { if !j.isBreak && j.isSkip then 1 else 0 }

  ghost function Returned(code: int): Job -> int {
    (j: Job) => if !j.isBreak && !j.isSkip && j.returncode == code then 1 else 0
  }

  ghost function Crashed(j: Job): int { if !j.isBreak && !j.isSkip && j.returncode !in {0, 1, 2} then 1 else 0 }

  datatype Counts = Counts(passed: nat, failed: nat, skipped: nat, crashed: nat, valgrindErrors: nat)

  ghost predicate Counted(results: seq<Job>, n: Counts) {
    && n.passed == Total(results, Returned(0)) && n.failed == Total(results, Returned(1))
    && n.valgrindErrors == Total(results, Returned(2)) && n.crashed == Total(results, Crashed)
    && n.skipped == Total(results, Skipped)
  }

  /** The collection loop. */
  method CountResults(results: seq<Job>) returns (n: Counts)
    ensures Counted(results, n)
  {
    n := Counts(0, 0, 0, 0, 0);
    for i := 0 to |results|
      invariant Counted(results[..i], n)
    {
      var job := results[i];
      assert results[..i + 1][..i] == results[..i];
      if job.isBreak {
        continue;
      }
      if job.isSkip {
        n := n.(skipped := n.skipped + 1);
      } else if job.returncode == 0 {
        n := n.(passed := n.passed + 1);
      } else if job.returncode == 1 {
        n := n.(failed := n.failed + 1);
      } else if job.returncode == 2 {
        n := n.(valgrindErrors := n.valgrindErrors + 1);
      } else {
        n := n.(crashed := n.crashed + 1);
      }
    }
    assert results[..|results|] == results;
  }

  function ExitStatus(n: Counts, totalTests: nat): int {
    if n.passed + n.skipped == totalTests then 0 else 1
  }

  /** Every result is counted under exactly one heading. */
  lemma {:induction false} HeadingsPartition(results: seq<Job>, n: Counts)
    requires Counted(results, n)
    ensures n.passed + n.failed + n.skipped + n.crashed + n.valgrindErrors + Total(results, Interrupted) == |results|
  {
    if results != [] {
      var init := results[..|results| - 1];
      var m := CountsOf(init);
      HeadingsPartition(init, m);
    }
  }

  lemma {:induction false} CountsOf(results: seq<Job>) returns (n: Counts)
    ensures Counted(results, n)
  {
    TotalRange(results, Returned(0), 1);
    TotalRange(results, Returned(1), 1);
    TotalRange(results, Returned(2), 1);
    TotalRange(results, Crashed, 1);
    TotalRange(results, Skipped, 1);
    n := Counts(Total(results, Returned(0)), Total(results, Returned(1)), Total(results, Skipped),
                Total(results, Crashed), Total(results, Returned(2)));
  }

  predicate PassedOrSkipped(j: Job) {
    !j.isBreak && (j.isSkip || j.returncode == 0)
  }

  lemma {:induction false} PassedOrSkippedAll(results: seq<Job>)
    ensures Total(results, Returned(0)) + Total(results, Skipped) <= |results|
    ensures Total(results, Returned(0)) + Total(results, Skipped) == |results| <==>
      forall i :: 0 <= i < |results| ==> PassedOrSkipped(results[i])
  {
    if results != [] {
      var init := results[..|results| - 1];
      PassedOrSkippedAll(init);
      assert forall i :: 0 <= i < |init| ==> init[i] == results[i];
    }
  }

  // ---- What the counts mean for a run that came to its end

  /** The job was really executed and returned the code. */
  ghost predicate ReturnedIn(s: State, id: int, code: int) {
    id in s.executed && s.executed[id] == code
  }

  /** The ids of the results that f counts. */
  ghost function IdsWhere(q: seq<Job>, f: Job -> int): set<int> {
    set i | 0 <= i < |q| && f(q[i]) == 1 :: q[i].id
  }

  /** When no id occurs twice, as many results are counted as there are ids of counted results. */
  lemma {:induction false} TotalIsCardinality(q: seq<Job>, f: Job -> int)
    requires forall i :: 0 <= i < |q| ==> f(q[i]) in {0, 1}
    requires forall i, j :: 0 <= i < j < |q| ==> q[i].id != q[j].id
    ensures Total(q, f) == |IdsWhere(q, f)|
  {
    if q != [] {
      var n := |q| - 1;
      TotalIsCardinality(q[..n], f);
      assert q[n].id !in IdsWhere(q[..n], f);
      assert IdsWhere(q, f) == IdsWhere(q[..n], f) + if f(q[n]) == 1 then {q[n].id} else {};
    }
  }

  lemma {:induction false} TwiceCounts(q: seq<Job>, i: nat, j: nat)
    requires i < j < |q| && q[i].id == q[j].id
    ensures Total(q, Own(q[i].id)) >= 2
  {
    var id := q[i].id;
    TotalRange(q[..|q| - 1], Own(id), 1);
    if j < |q| - 1 {
      TwiceCounts(q[..|q| - 1], i, j);
    } else {
      assert q[..|q| - 1][i] == q[i];
      assert Own(id)(q[i]) == 1;
    }
  }

  /** The collected results: each job once, with what happened to it. */
  ghost predicate Complete(c: Config, s: State) {
    && (forall i :: 0 <= i < |s.collected| ==> Result(c, s, s.collected[i]))
    && (forall i, j :: 0 <= i < j < |s.collected| ==> s.collected[i].id != s.collected[j].id)
    && (forall id :: 0 <= id < |c.skips| ==> CollectedAs(s, id))
  }

  ghost predicate CollectedAs(s: State, id: int) {
    exists i :: 0 <= i < |s.collected| && s.collected[i].id == id
  }

  lemma FinishedIsComplete(c: Config, run: seq<State>)
    requires IsRun(c, run) && CanFinish(c) && Stuck(c, run[|run| - 1])
    ensures Complete(c, run[|run| - 1])
  {
    var s := run[|run| - 1];
    StuckRunsAreComplete(c, run);
    forall i, j | 0 <= i < j < |s.collected| ensures s.collected[i].id != s.collected[j].id {
      assert Result(c, s, s.collected[i]);
      if s.collected[i].id == s.collected[j].id { TwiceCounts(s.collected, i, j); }
    }
    forall id | 0 <= id < |c.skips| ensures CollectedAs(s, id) {
      TotalRange(s.collected, Own(id), 1);
      var i :| 0 <= i < |s.collected| && Own(id)(s.collected[i]) > 0;
    }
  }

  lemma ReturnedIds(c: Config, s: State, code: int)
    requires Complete(c, s)
    ensures IdsWhere(s.collected, Returned(code)) == set id | 0 <= id < |c.skips| && ReturnedIn(s, id, code)
  {
    forall i | 0 <= i < |s.collected|
      ensures 0 <= s.collected[i].id < |c.skips|
      ensures Returned(code)(s.collected[i]) == 1 <==> ReturnedIn(s, s.collected[i].id, code)
    {
      assert Result(c, s, s.collected[i]);
    }
    forall id | 0 <= id < |c.skips| && ReturnedIn(s, id, code) ensures id in IdsWhere(s.collected, Returned(code)) {
      assert CollectedAs(s, id);
    }
  }

  lemma CrashedIds(c: Config, s: State)
    requires Complete(c, s)
    ensures IdsWhere(s.collected, Crashed) ==
      set id | 0 <= id < |c.skips| && id in s.executed && s.executed[id] !in {0, 1, 2}
  {
    forall i | 0 <= i < |s.collected|
      ensures var id := s.collected[i].id;
        0 <= id < |c.skips| && (Crashed(s.collected[i]) == 1 <==> id in s.executed && s.executed[id] !in {0, 1, 2})
    {
      assert Result(c, s, s.collected[i]);
    }
    forall id | 0 <= id < |c.skips| && id in s.executed && s.executed[id] !in {0, 1, 2}
      ensures id in IdsWhere(s.collected, Crashed)
    {
      assert CollectedAs(s, id);
    }
  }

  lemma SkippedIds(c: Config, s: State)
    requires Complete(c, s)
    ensures IdsWhere(s.collected, Skipped) == set id | 0 <= id < |c.skips| && c.skips[id] && !HandedBack(s, id)
  {
    forall i | 0 <= i < |s.collected|
      ensures var id := s.collected[i].id;
        0 <= id < |c.skips| && (Skipped(s.collected[i]) == 1 <==> c.skips[id] && !HandedBack(s, id))
    {
      assert Result(c, s, s.collected[i]);
    }
    forall id | 0 <= id < |c.skips| && c.skips[id] && !HandedBack(s, id)
      ensures id in IdsWhere(s.collected, Skipped)
    {
      assert CollectedAs(s, id);
    }
  }

  /** For every run that came to its end, the counters said of the jobs themselves: how many were
      really executed with code 0, with 1, with 2 and with any other code, and how many of those to
      be skipped were not handed back. */
  lemma CountsOfARun(c: Config, run: seq<State>, n: Counts)
    requires IsRun(c, run) && CanFinish(c) && Stuck(c, run[|run| - 1]) && Counted(run[|run| - 1].collected, n)
    ensures var s := run[|run| - 1];
      && n.passed == |set id | 0 <= id < |c.skips| && ReturnedIn(s, id, 0)|
      && n.failed == |set id | 0 <= id < |c.skips| && ReturnedIn(s, id, 1)|
      && n.valgrindErrors == |set id | 0 <= id < |c.skips| && ReturnedIn(s, id, 2)|
      && n.crashed == |set id | 0 <= id < |c.skips| && id in s.executed && s.executed[id] !in {0, 1, 2}|
      && n.skipped == |set id | 0 <= id < |c.skips| && c.skips[id] && !HandedBack(s, id)|
  {
    var s := run[|run| - 1];
    FinishedIsComplete(c, run);
    ReturnedIds(c, s, 0);
    ReturnedIds(c, s, 1);
    ReturnedIds(c, s, 2);
    CrashedIds(c, s);
    SkippedIds(c, s);
    TotalIsCardinality(s.collected, Returned(0));
    TotalIsCardinality(s.collected, Returned(1));
    TotalIsCardinality(s.collected, Returned(2));
    TotalIsCardinality(s.collected, Crashed);
    TotalIsCardinality(s.collected, Skipped);
  }

  /** For every run that came to its end: the headings add up to the number of jobs, and
      the exit status is 0 exactly when every result passed or was skipped. */
  lemma VerdictOfARun(c: Config, run: seq<State>, n: Counts)
    requires IsRun(c, run) && CanFinish(c) && Stuck(c, run[|run| - 1]) && Counted(run[|run| - 1].collected, n)
    ensures var s := run[|run| - 1];
      && n.passed + n.failed + n.skipped + n.crashed + n.valgrindErrors + Total(s.collected, Interrupted) == |c.skips|
      && (!s.threadExit ==> Total(s.collected, Interrupted) == 0)
      && (ExitStatus(n, |c.skips|) == 0 <==>
          (forall i :: 0 <= i < |s.collected| ==> PassedOrSkipped(s.collected[i])))
  {
    var s := run[|run| - 1];
    StuckRunsAreComplete(c, run);
    HeadingsPartition(s.collected, n);
    PassedOrSkippedAll(s.collected);
    if !s.threadExit {
      forall i | 0 <= i < |s.collected| ensures Interrupted(s.collected[i]) == 0 {
        assert Result(c, s, s.collected[i]);
      }
      AllZero(s.collected, Interrupted);
    }
  }

  /** Exit status 0 in terms of the dispatched jobs: each one not marked skip was really
      executed and returned 0, and no interrupted job was handed back. */
  lemma CleanExitMeansAllPassed(c: Config, run: seq<State>, n: Counts)
    requires IsRun(c, run) && CanFinish(c) && Stuck(c, run[|run| - 1]) && Counted(run[|run| - 1].collected, n)
    ensures var s := run[|run| - 1];
      && (ExitStatus(n, |c.skips|) == 0 <==>
          && (forall id :: 0 <= id < |c.skips| && !c.skips[id] ==> ReturnedIn(s, id, 0))
          && (forall i :: 0 <= i < |s.collected| ==> !s.collected[i].isBreak))
      && (forall id :: 0 <= id < |c.skips| && c.skips[id] ==> id !in s.executed)
  {
    var s := run[|run| - 1];
    StuckRunsAreComplete(c, run);
    FinishedIsComplete(c, run);
    PassedOrSkippedAll(s.collected);
    forall id | 0 <= id < |c.skips|
      ensures c.skips[id] ==> id !in s.executed
      ensures ExitStatus(n, |c.skips|) == 0 && !c.skips[id] ==> ReturnedIn(s, id, 0)
    {
      assert CollectedAs(s, id);
      var i :| 0 <= i < |s.collected| && s.collected[i].id == id;
      assert Result(c, s, s.collected[i]);
    }
    if
      && (forall id :: 0 <= id < |c.skips| && !c.skips[id] ==> ReturnedIn(s, id, 0))
      && (forall i :: 0 <= i < |s.collected| ==> !s.collected[i].isBreak)
    {
      forall i | 0 <= i < |s.collected| ensures PassedOrSkipped(s.collected[i]) {
        assert Result(c, s, s.collected[i]);
      }
    }
  }
}
