/** When the runner's short circuits agree with POSIX AND-OR lists (section 2.9.3 of
    POSIX.1-2017 XCU): operators of equal precedence, each group run or skipped on the
    status so far, a pipe's status being its last command's (section 2.9.2). */
module ShellPosix {
  import opened ShellSyntax
  import opened ShellRoundTrip
  import opened ShellRun

  datatype Result = Result(ran: seq<nat>, status: int)

  /** A pipeline whose cd's name a directory, are followed by something and do not stand
      inside a pipe. */
  ghost predicate Runnable(p: seq<Node>) {
    && WellFormed(p)
    && forall i :: 0 <= i < |p| && p[i].Chdir? ==>
        p[i].dir.Some? && i + 1 < |p| && (i == 0 || !p[i - 1].Pipe?)
  }

  /** The list from position i on, running or skipping its first pipe, with the status so
      far. A cd that runs has status 0. */
  function Posix(p: seq<Node>, i: nat, run: bool, status: int, oracle: Oracle): Result
    requires i < |p| && i % 2 == 0 && |p| % 2 == 1
    decreases |p| - i
  {
    var now := if !run then status else if p[i].Chdir? then 0 else oracle(i);
    var me := if run && p[i].Command? then [i] else [];
    if i + 1 == |p| then Result(me, now)
    else
      var goOn := if p[i + 1].And? then now == 0 else if p[i + 1].Or? then now != 0 else run;
      var rest := Posix(p, i + 2, goOn, now, oracle);
      Result(me + rest.ran, rest.status)
  }

  function Positions(started: seq<Process>): seq<nat> {
    if started == [] then [] else [started[0].at] + Positions(started[1..])
  }

  /** Same commands run in the same order, same status. */
  ghost predicate Agrees(p: seq<Node>, oracle: Oracle)
    requires WellFormed(p)
  {
    var code := RunFrom(p, 0, false, ".", oracle);
    var posix := Posix(p, 0, true, 0, oracle);
    Positions(code.started) == posix.ran && code.outcome == Returned(posix.status)
  }

  /** No operator that follows a command is followed later by the other operator. */
  ghost predicate Uniform(p: seq<Node>) {
    forall j, k :: Listing(p, j) && Listing(p, k) && j < k && p[j - 1].Command? ==> p[k] == p[j]
  }

  /** Position j holds an && or ||. */
  predicate Listing(p: seq<Node>, j: int) {
    0 < j < |p| && (p[j].And? || p[j].Or?)
  }

  /** Once stopped, a list whose later operators are all the same stays stopped. */
  lemma {:induction false} StaysStopped(p: seq<Node>, i: nat, status: int, op: Node, oracle: Oracle)
    requires WellFormed(p) && i < |p| && i % 2 == 0 && (op.And? || op.Or?) && Stops(op, status)
    requires forall k :: Listing(p, k) && i < k ==> p[k] == op
    ensures Posix(p, i, false, status, oracle) == Result([], status)
    decreases |p| - i
  {
    Alternates(p, i);
    if i + 1 < |p| {
      assert !p[i + 1].Pipe? ==> Listing(p, i + 1);
      StaysStopped(p, i + 2, status, op, oracle);
    }
  }

  /** A group that POSIX runs gets a command started. */
  lemma {:induction false} RunningStarts(p: seq<Node>, i: nat, status: int, oracle: Oracle)
    requires Runnable(p) && i < |p| && i % 2 == 0
    ensures Posix(p, i, true, status, oracle).ran != []
    decreases |p| - i
  {
    Alternates(p, i);
    if p[i].Chdir? {
      RunningStarts(p, i + 2, 0, oracle);
    }
  }

  /** A stopped list resumes at the first operator of the other kind. */
  lemma {:induction false} Resumes(p: seq<Node>, i: nat, status: int, op: Node, k: nat, oracle: Oracle)
    requires Runnable(p) && i < |p| && i % 2 == 0 && (op.And? || op.Or?) && Stops(op, status)
    requires Listing(p, k) && i < k && p[k] != op
    ensures Posix(p, i, false, status, oracle).ran != []
    decreases |p| - i
  {
    Alternates(p, i);
    Alternates(p, k);
    var next := p[i + 1];
    if next.Pipe? || next == op {
      assert k != i + 1;
      Alternates(p, i + 2);
      Resumes(p, i + 2, status, op, k, oracle);
    } else {
      RunningStarts(p, i + 2, status, oracle);
    }
  }

  /** A command that does not end the run is the first started, by the runner and by POSIX. */
  lemma BothGoOn(p: seq<Node>, i: nat, piped: bool, cwd: string, status: int, oracle: Oracle)
    requires Runnable(p) && i + 1 < |p| && i % 2 == 0 && p[i].Command? && !Stops(p[i + 1], oracle(i))
    ensures
      && i + 2 < |p|
      && var code, rest := RunFrom(p, i, piped, cwd, oracle), RunFrom(p, i + 2, p[i + 1].Pipe?, cwd, oracle);
      && Positions(code.started) == [i] + Positions(rest.started) && code.outcome == rest.outcome
    ensures
      var posix, rest := Posix(p, i, true, status, oracle), Posix(p, i + 2, true, oracle(i), oracle);
      posix.ran == [i] + rest.ran && posix.status == rest.status
  {
    Alternates(p, i);
    var rest := RunFrom(p, i + 2, p[i + 1].Pipe?, cwd, oracle).started;
    var started := RunFrom(p, i, piped, cwd, oracle).started;
    assert started == [Start(p, i, piped, cwd)] + rest;
    assert started[1..] == rest;
  }

  lemma BothPassCd(p: seq<Node>, i: nat, piped: bool, cwd: string, status: int, oracle: Oracle)
    requires Runnable(p) && i < |p| && i % 2 == 0 && p[i].Chdir?
    ensures i + 2 < |p|
    ensures RunFrom(p, i, piped, cwd, oracle) == RunFrom(p, i + 2, piped, PathJoin(cwd, p[i].dir.value), oracle)
    ensures Posix(p, i, true, status, oracle) == Posix(p, i + 2, true, 0, oracle)
  {
    Alternates(p, i);
  }

  lemma {:induction false} UniformAgreesFrom(p: seq<Node>, i: nat, piped: bool, cwd: string, status: int,
                                             oracle: Oracle)
    requires Runnable(p) && Uniform(p) && i < |p| && i % 2 == 0
    ensures
      var code, posix := RunFrom(p, i, piped, cwd, oracle), Posix(p, i, true, status, oracle);
      Positions(code.started) == posix.ran && code.outcome == Returned(posix.status)
    decreases |p| - i
  {
    Alternates(p, i);
    if p[i].Chdir? {
      BothPassCd(p, i, piped, cwd, status, oracle);
      UniformAgreesFrom(p, i + 2, piped, PathJoin(cwd, p[i].dir.value), 0, oracle);
    } else if i + 1 == |p| || Stops(p[i + 1], oracle(i)) {
      BothEnd(p, i, piped, cwd, status, oracle);
    } else {
      BothGoOn(p, i, piped, cwd, status, oracle);
      UniformAgreesFrom(p, i + 2, p[i + 1].Pipe?, cwd, oracle(i), oracle);
    }
  }

  lemma BothEnd(p: seq<Node>, i: nat, piped: bool, cwd: string, status: int, oracle: Oracle)
    requires Runnable(p) && Uniform(p) && i < |p| && i % 2 == 0 && p[i].Command?
    requires i + 1 == |p| || Stops(p[i + 1], oracle(i))
    ensures
      var code, posix := RunFrom(p, i, piped, cwd, oracle), Posix(p, i, true, status, oracle);
      Positions(code.started) == posix.ran == [i] && code.outcome == Returned(posix.status)
  {
    CommandEnds(p, oracle, i, piped, cwd);
    assert Positions([Start(p, i, piped, cwd)][1..]) == [];
    if i + 1 < |p| {
      assert Listing(p, i + 1);
      StaysStopped(p, i + 2, oracle(i), p[i + 1], oracle);
    }
  }

  /** Statuses that let everything before position j proceed and stop the run at j. */
  function StopAt(p: seq<Node>, j: nat): Oracle {
    (n: nat) => if n + 1 < |p| && (p[n + 1].And? <==> n + 1 < j) then 0 else 1
  }

  /** After a command that ends the run, POSIX goes on at a later operator of the other kind. */
  lemma OnlyPosixGoesOn(p: seq<Node>, i: nat, k: nat, piped: bool, cwd: string, status: int, oracle: Oracle)
    requires Runnable(p) && i % 2 == 0 && Listing(p, i + 1) && Listing(p, k) && i + 1 < k
    requires p[i].Command? && p[k] != p[i + 1] && Stops(p[i + 1], oracle(i))
    ensures Positions(RunFrom(p, i, piped, cwd, oracle).started) != Posix(p, i, true, status, oracle).ran
  {
    Alternates(p, i);
    Alternates(p, k);
    CommandEnds(p, oracle, i, piped, cwd);
    Resumes(p, i + 2, oracle(i), p[i + 1], k, oracle);
    assert Positions([Start(p, i, piped, cwd)][1..]) == [];
  }

  lemma FirstApart(x: nat, a: seq<nat>, b: seq<nat>)
    requires a != b
    ensures [x] + a != [x] + b
  {
    assert ([x] + a)[1..] == a && ([x] + b)[1..] == b;
  }

  /** The statuses let every operator before position j proceed and stop the run at j. */
  ghost predicate HaltsAt(p: seq<Node>, j: nat, oracle: Oracle) {
    && 0 < j < |p| && Stops(p[j], oracle(j - 1))
    && forall n: nat :: n + 1 < j ==> !Stops(p[n + 1], oracle(n))
  }

  lemma StopAtHalts(p: seq<Node>, j: nat)
    requires Listing(p, j)
    ensures HaltsAt(p, j, StopAt(p, j))
  {
  }

  /** Where the statuses stop the run at an operator, and one of the other kind follows later,
      POSIX goes on to a command that the runner does not start. */
  lemma {:induction false} DivergesFrom(p: seq<Node>, i: nat, j: nat, k: nat, piped: bool, cwd: string, status: int,
                                        oracle: Oracle)
    requires Runnable(p) && Listing(p, j) && Listing(p, k) && j < k && p[j - 1].Command? && p[k] != p[j]
    requires HaltsAt(p, j, oracle) && i < j && i % 2 == 0
    ensures
      var code, posix := RunFrom(p, i, piped, cwd, oracle), Posix(p, i, true, status, oracle);
      Positions(code.started) != posix.ran
    decreases |p| - i
  {
    Alternates(p, i);
    Alternates(p, j);
    if i + 1 == j {
      OnlyPosixGoesOn(p, i, k, piped, cwd, status, oracle);
    } else if p[i].Chdir? {
      DivergesFrom(p, i + 2, j, k, piped, PathJoin(cwd, p[i].dir.value), 0, oracle);
      BothPassCd(p, i, piped, cwd, status, oracle);
    } else {
      DivergesFrom(p, i + 2, j, k, p[i + 1].Pipe?, cwd, oracle(i), oracle);
      StillApart(p, i, piped, cwd, status, oracle);
    }
  }

  lemma StillApart(p: seq<Node>, i: nat, piped: bool, cwd: string, status: int, oracle: Oracle)
    requires Runnable(p) && i + 2 < |p| && i % 2 == 0 && p[i].Command? && !Stops(p[i + 1], oracle(i))
    requires
      var code, posix := RunFrom(p, i + 2, p[i + 1].Pipe?, cwd, oracle), Posix(p, i + 2, true, oracle(i), oracle);
      Positions(code.started) != posix.ran
    ensures
      var code, posix := RunFrom(p, i, piped, cwd, oracle), Posix(p, i, true, status, oracle);
      Positions(code.started) != posix.ran
  {
    BothGoOn(p, i, piped, cwd, status, oracle);
    var code := Positions(RunFrom(p, i + 2, p[i + 1].Pipe?, cwd, oracle).started);
    var posix := Posix(p, i + 2, true, oracle(i), oracle).ran;
    FirstApart(i, code, posix);
  }

  /** The runner agrees with POSIX whatever the commands return, exactly when no operator
      after a command is followed later by the other operator. */
  lemma AgreesIffUniform(p: seq<Node>)
    requires Runnable(p)
    ensures (forall oracle :: Agrees(p, oracle)) <==> Uniform(p)
  {
    if Uniform(p) {
      forall oracle ensures Agrees(p, oracle) {
        UniformAgreesFrom(p, 0, false, ".", 0, oracle);
      }
    } else {
      var j, k :| Listing(p, j) && Listing(p, k) && j < k && p[j - 1].Command? && p[k] != p[j];
      StopAtHalts(p, j);
      DivergesFrom(p, 0, j, k, false, ".", 0, StopAt(p, j));
      assert !Agrees(p, StopAt(p, j));
    }
  }

  /** The list a && b || c. */
  function MixedList(): seq<Node> {
    [NewCommand("a", map[]), And, NewCommand("b", map[]), Or, NewCommand("c", map[])]
  }

  lemma MixedListRunnable()
    ensures Runnable(MixedList())
  {
    var p := MixedList();
    forall i | 0 <= i < |p| ensures SlotOk(p, i) {}
  }

  lemma PosixSkipsOne(p: seq<Node>, oracle: Oracle)
    requires |p| == 5 && p[0].Command? && p[1].And? && p[3].Or? && p[4].Command? && oracle(0) != 0
    ensures Posix(p, 0, true, 0, oracle) == Result([0, 4], oracle(4))
  {
    assert Posix(p, 4, true, oracle(0), oracle) == Result([4], oracle(4));
    assert Posix(p, 2, false, oracle(0), oracle) == Result([4], oracle(4));
  }

  /** When a fails, the runner stops there with a's status; POSIX goes on to c. */
  lemma MixedListDiverges(oracle: Oracle)
    requires oracle(0) != 0
    ensures Runnable(MixedList())
    ensures var code := RunFrom(MixedList(), 0, false, ".", oracle);
      Positions(code.started) == [0] && code.outcome == Returned(oracle(0))
    ensures Posix(MixedList(), 0, true, 0, oracle) == Result([0, 4], oracle(4))
  {
    var p := MixedList();
    MixedListRunnable();
    CommandEnds(p, oracle, 0, false, ".");
    assert Positions([Start(p, 0, false, ".")][1..]) == [];
    PosixSkipsOne(p, oracle);
  }
}
