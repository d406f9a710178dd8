/** Where a run of the shell stops and what it has started by then, said of the pipeline alone. */
module ShellStops {
  import opened ShellSyntax
  import opened ShellRoundTrip
  import opened ShellRun
  import opened Wrappers

  /** The run gets past the node at an even position: it is not the last one, and it is a command
      whose following operator does not stop, or a cd that names a directory. */
  predicate Passes(p: seq<Node>, oracle: Oracle, k: nat)
    requires k < |p|
  {
    && k + 1 < |p|
    && (p[k].Command? && p[k + 1].And? ==> oracle(k) == 0)
    && (p[k].Command? && p[k + 1].Or? ==> oracle(k) != 0)
    && (p[k].Chdir? ==> p[k].dir.Some?)
  }

  /** m is the first even position the run does not get past. */
  ghost predicate StopsFirstAt(p: seq<Node>, oracle: Oracle, m: nat) {
    && m < |p| && m % 2 == 0 && !Passes(p, oracle, m)
    && forall k :: 0 <= k < m && k % 2 == 0 ==> Passes(p, oracle, k)
  }

  /** What stopping there means: the status of the command, or the error of a last cd or of one
      without a directory. */
  function OutcomeAt(p: seq<Node>, oracle: Oracle, m: nat): Outcome
    requires m < |p|
  {
    if p[m].Command? then Returned(oracle(m)) else if m + 1 == |p| then IndexError else TypeError
  }

  /** Whether the command at k reads from a pipe: a cd in between does not cut the pipe off. */
  predicate PipedAt(p: seq<Node>, k: nat)
    requires k < |p|
  {
    k >= 2 && if p[k - 2].Chdir? then PipedAt(p, k - 2) else p[k - 1].Pipe?
  }

  /** The working directory at k: all cd's before it, joined. */
  function CwdAt(p: seq<Node>, k: nat): string
    requires k < |p|
  {
    if k < 2 then "."
    else if p[k - 2].Chdir? && p[k - 2].dir.Some? then PathJoin(CwdAt(p, k - 2), p[k - 2].dir.value)
    else CwdAt(p, k - 2)
  }

  /** Exactly the commands at the even positions from i to m are started, in that order, each
      with its own redirections, input and directory. */
  ghost predicate StartsBetween(p: seq<Node>, i: nat, m: nat, started: seq<Process>)
    requires m < |p|
  {
    && (forall x :: 0 <= x < |started| ==> StartedRight(p, i, m, started[x]))
    && (forall x, y :: 0 <= x < y < |started| ==> started[x].at < started[y].at)
    && (forall k :: i <= k <= m && k % 2 == 0 && p[k].Command? ==> StartedAt(started, k))
  }

  ghost predicate StartedRight(p: seq<Node>, i: nat, m: nat, process: Process)
    requires m < |p|
  {
    var k := process.at;
    i <= k <= m && k % 2 == 0 && p[k].Command? && StartedAs(process, p[k], PipedAt(p, k), CwdAt(p, k))
  }

  /** The command's own words, assignments and outputs; as input the pipe if there is one, else the
      file named, else what the runner has; the directory unless that is the initial one. */
  ghost predicate StartedAs(process: Process, c: Node, piped: bool, cwd: string)
    requires c.Command?
  {
    && process.argv == c.argv && process.env == c.env && process.stdout == c.stdout && process.stderr == c.stderr
    && (process.stdin.FromPipe? <==> piped)
    && (!piped && c.stdin.Some? ==> process.stdin == FromFile(c.stdin.value))
    && (!piped && c.stdin.None? ==> process.stdin == Inherited)
    && (cwd == "." ==> process.cwd == None)
    && (cwd != "." ==> process.cwd == Some(cwd))
  }

  ghost predicate StartedAt(started: seq<Process>, k: nat) {
    exists x :: 0 <= x < |started| && started[x].at == k
  }

  lemma StartsAfterCd(p: seq<Node>, i: nat, m: nat, rest: seq<Process>)
    requires i % 2 == 0 && i + 2 <= m < |p| && p[i].Chdir? && StartsBetween(p, i + 2, m, rest)
    ensures StartsBetween(p, i, m, rest)
  {
    forall x | 0 <= x < |rest| ensures StartedRight(p, i, m, rest[x]) {
      assert StartedRight(p, i + 2, m, rest[x]);
    }
  }

  lemma StartsAfterCommand(p: seq<Node>, i: nat, m: nat, first: Process, rest: seq<Process>)
    requires i % 2 == 0 && i + 2 <= m < |p| && StartsBetween(p, i + 2, m, rest)
    requires p[i].Command? && first == Start(p, i, PipedAt(p, i), CwdAt(p, i))
    ensures StartsBetween(p, i, m, [first] + rest)
  {
    var started := [first] + rest;
    forall x | 0 <= x < |started| ensures StartedRight(p, i, m, started[x]) && (x > 0 ==> started[x].at > i) {
      if x > 0 { assert StartedRight(p, i + 2, m, rest[x - 1]); }
    }
    forall k | i <= k <= m && k % 2 == 0 && p[k].Command? ensures StartedAt(started, k) {
      StillStarted(first, rest, k);
    }
  }

  lemma StillStarted(first: Process, rest: seq<Process>, k: nat)
    ensures first.at == k || StartedAt(rest, k) ==> StartedAt([first] + rest, k)
  {
    assert ([first] + rest)[0] == first;
    if x :| 0 <= x < |rest| && rest[x].at == k {
      assert ([first] + rest)[x + 1] == rest[x];
    }
  }

  /** A run begun at a position that everything before was got past. */
  lemma {:induction false} RunStopsFrom(p: seq<Node>, i: nat, oracle: Oracle) returns (m: nat)
    requires WellFormed(p) && i < |p| && i % 2 == 0
    requires forall k :: 0 <= k < i && k % 2 == 0 ==> Passes(p, oracle, k)
    ensures i <= m && StopsFirstAt(p, oracle, m)
    ensures var r := RunFrom(p, i, PipedAt(p, i), CwdAt(p, i), oracle);
      r.outcome == OutcomeAt(p, oracle, m) && StartsBetween(p, i, m, r.started)
    decreases |p| - i
  {
    Alternates(p, i);
    if Passes(p, oracle, i) {
      Alternates(p, i + 1);
      m := RunStopsFrom(p, i + 2, oracle);
      var rest := RunFrom(p, i + 2, PipedAt(p, i + 2), CwdAt(p, i + 2), oracle).started;
      if p[i].Chdir? {
        StartsAfterCd(p, i, m, rest);
      } else {
        StartsAfterCommand(p, i, m, Start(p, i, PipedAt(p, i), CwdAt(p, i)), rest);
      }
    } else {
      m := i;
      if p[i].Command? {
        assert [Start(p, i, PipedAt(p, i), CwdAt(p, i))][0].at == i;
      }
    }
  }

  /** Left to right up to the first short circuit or error, and no further. */
  ghost predicate RunsAsWritten(p: seq<Node>, oracle: Oracle, trace: Trace) {
    exists m ::
      StopsFirstAt(p, oracle, m) && trace.outcome == OutcomeAt(p, oracle, m) && StartsBetween(p, 0, m, trace.started)
  }

  lemma RunStops(p: seq<Node>, oracle: Oracle)
    requires WellFormed(p)
    ensures RunsAsWritten(p, oracle, RunFrom(p, 0, false, ".", oracle))
  {
    var m := RunStopsFrom(p, 0, oracle);
  }

  /** The runner: left to right up to the first short circuit or error, with the status of the
      last command started. On a normal return every file it opened is closed. */
  method Run(p: seq<Node>, oracle: Oracle) returns (trace: Trace, opens: seq<string>, closed: set<nat>)
    requires WellFormed(p)
    ensures trace == RunFrom(p, 0, false, ".", oracle) && RunsAsWritten(p, oracle, trace)
    ensures trace.outcome.Returned? ==> opens == OpensForAll(trace.started) && Covers(closed, |opens|)
  {
    trace, opens, closed := RunLoop(p, oracle);
    RunStops(p, oracle);
  }
}
