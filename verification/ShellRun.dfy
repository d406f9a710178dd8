/** Running a parsed pipeline: processes, redirections, short circuits, and the comparison
    with POSIX AND-OR lists. An oracle gives the exit status of the command at each
    position of the pipeline. */
module ShellRun {
  import opened ShellSyntax
  import opened ShellRoundTrip
  import opened Wrappers

  type Oracle = nat -> int

  datatype Input = Inherited | FromPipe | FromFile(name: string)

  /** One started process: its position in the pipeline and what it was started with. */
  datatype Process = Process(at: nat, argv: seq<string>, stdin: Input, stdout: Stdout, stderr: Stderr,
                             env: map<string, string>, cwd: Option<string>)

  datatype Outcome = Returned(code: int) | IndexError | TypeError

  datatype Trace = Trace(started: seq<Process>, outcome: Outcome)

  function PathJoin(a: string, b: string): string {
    if b != "" && b[0] == '/' then b
    else if a == "" || a[|a| - 1] == '/' then a + b
    else a + "/" + b
  }

  predicate Absolute(dir: string) {
    dir != "" && dir[0] == '/'
  }

  /** An absolute directory replaces the one so far; a relative one follows it after a single slash,
      which is added unless it is there already. */
  lemma PathJoinMeans(a: string, b: string)
    ensures Absolute(b) ==> PathJoin(a, b) == b
    ensures !Absolute(b) && a == "" ==> PathJoin(a, b) == b
    ensures !Absolute(b) && a != "" ==>
      var stem := if a[|a| - 1] == '/' then a[..|a| - 1] else a;
      PathJoin(a, b) == stem + "/" + b
  {
    if a != "" && a[|a| - 1] == '/' { assert a == a[..|a| - 1] + "/"; }
  }

  function Start(p: seq<Node>, i: nat, piped: bool, cwd: string): Process
    requires i < |p| && p[i].Command?
  {
    var c := p[i];
    var stdin := if piped then FromPipe else if c.stdin.Some? then FromFile(c.stdin.value) else Inherited;
    Process(i, c.argv, stdin, c.stdout, c.stderr, c.env, if cwd == "." then None else Some(cwd))
  }

  /** Whether an operator ends the run given the status on its left. */
  predicate Stops(op: Node, status: int) {
    (op.Or? && status == 0) || (op.And? && status != 0)
  }

  lemma Alternates(p: seq<Node>, i: nat)
    requires WellFormed(p) && i < |p|
    ensures i % 2 == 0 ==> p[i].Command? || p[i].Chdir?
    ensures i % 2 == 0 && i + 1 < |p| ==> IsOp(p[i + 1]) && i + 2 < |p| && (p[i].Chdir? ==> p[i + 1].And?)
    ensures i % 2 == 1 ==> IsOp(p[i])
  {
    assert SlotOk(p, i);
    if i + 1 < |p| { assert SlotOk(p, i + 1); }
  }

  /** What the runner does from position i on. */
  function RunFrom(p: seq<Node>, i: nat, piped: bool, cwd: string, oracle: Oracle): Trace
    requires WellFormed(p) && i < |p| && i % 2 == 0
    decreases |p| - i
  {
    Alternates(p, i);
    if p[i].Chdir? then
      if i + 1 == |p| then Trace([], IndexError)
      else if p[i].dir.None? then Trace([], TypeError)
      else RunFrom(p, i + 2, piped, PathJoin(cwd, p[i].dir.value), oracle)
    else
      var process := Start(p, i, piped, cwd);
      if i + 1 == |p| then Trace([process], Returned(oracle(i)))
      else if Stops(p[i + 1], oracle(i)) then Trace([process], Returned(oracle(i)))
      else
        var rest := RunFrom(p, i + 2, p[i + 1].Pipe?, cwd, oracle);
        Trace([process] + rest.started, rest.outcome)
  }

  /** The files a process makes the runner open, in order; the null device is shared and
      not opened. */
  function OpensFor(process: Process): seq<string> {
    (if process.stdin.FromFile? then [process.stdin.name] else [])
    + (if process.stdout.OutFile? && !IsNull(process.stdout.name) then [process.stdout.name] else [])
    + (if process.stderr.ErrFile? && !IsNull(process.stderr.name) then [process.stderr.name] else [])
  }

  predicate IsNull(name: string) {
    name in ["NUL:", "/dev/null"]
  }

  /** The files opened for one process, each once and in this order: its input file, its output file
      and its error file, of which the null device is never opened. */
  lemma OpenedFiles(process: Process)
    ensures var opens := OpensFor(process);
      var input, output, error := process.stdin.FromFile?, process.stdout.OutFile?, process.stderr.ErrFile?;
      && (forall f :: f in opens <==>
            || (input && f == process.stdin.name)
            || (output && f == process.stdout.name && f != "NUL:" && f != "/dev/null")
            || (error && f == process.stderr.name && f != "NUL:" && f != "/dev/null"))
      && |opens| == (if input then 1 else 0) + (if output && !IsNull(process.stdout.name) then 1 else 0)
           + (if error && !IsNull(process.stderr.name) then 1 else 0)
      && (input ==> opens != [] && opens[0] == process.stdin.name)
      && (error && !IsNull(process.stderr.name) ==> opens != [] && opens[|opens| - 1] == process.stderr.name)
  {
  }

  function OpensForAll(started: seq<Process>): seq<string> {
    if started == [] then [] else OpensForAll(started[..|started| - 1]) + OpensFor(started[|started| - 1])
  }

  /** Wait for every process of a pipe; the result is the last one's status. */
  method ExecPipedCommands(waits: seq<int>) returns (retval: int)
    requires waits != []
    ensures retval == waits[|waits| - 1]
  {
    var retvals: seq<int> := [];
    for i := 0 to |waits|
      invariant retvals == waits[..i]
    {
      retvals := retvals + [waits[i]];
    }
    assert retvals == waits;
    retval := 0;
    for i := 0 to |retvals|
      invariant retval == 0 && forall j :: 0 <= j < i ==> retvals[j] == 0
    {
      if retvals[i] != 0 {
        retval := retvals[|retvals| - 1];
        break;
      }
    }
  }

  datatype FileRef = DevNull | Handle(handle: nat)

  /** Open an output file, or hand out the shared null device. */
  method OpenOutFile(name: string, opens0: seq<string>) returns (f: FileRef, opens: seq<string>)
    ensures IsNull(name) ==> f == DevNull && opens == opens0
    ensures !IsNull(name) ==> f == Handle(|opens0|) && opens == opens0 + [name]
  {
    if IsNull(name) {
      return DevNull, opens0;
    }
    return Handle(|opens0|), opens0 + [name];
  }

  /** Close every file in the list that is not the null device. */
  method CloseFiles(files: seq<FileRef>, closed0: set<nat>) returns (closed: set<nat>)
    ensures closed == closed0 + Handles(files)
  {
    closed := closed0;
    for i := 0 to |files|
      invariant closed == closed0 + Handles(files[..i])
    {
      assert files[..i + 1] == files[..i] + [files[i]];
      if !files[i].DevNull? {
        closed := closed + {files[i].handle};
      }
    }
    assert files[..|files|] == files;
  }

  function Handles(files: seq<FileRef>): set<nat> {
    set f | f in files && f.Handle? :: f.handle
  }

  /** The handles 0 .. n-1, which is all of them when n files have been opened. */
  ghost predicate Covers(s: set<nat>, n: nat) {
    forall h: nat {:trigger h in s} :: h in s <==> h < n
  }

  lemma HandlesGrow(files: seq<FileRef>, f: FileRef)
    ensures Handles(files + [f]) == Handles(files) + if f.Handle? then {f.handle} else {}
  {
    forall h | h in Handles(files) + (if f.Handle? then {f.handle} else {}) ensures h in Handles(files + [f]) {
      assert h in Handles(files) ==> Handle(h) in files + [f];
      assert f in files + [f];
    }
  }

  /** Putting the newest handle, or the null device, on the list keeps every open file
      either closed or listed. */
  lemma ListingKeepsCover(closed: set<nat>, files: seq<FileRef>, n: nat, f: FileRef)
    requires Covers(closed + Handles(files), n)
    ensures f == DevNull ==> Covers(closed + Handles(files + [f]), n)
    ensures f == Handle(n) ==> Covers(closed + Handles(files + [f]), n + 1)
  {
    HandlesGrow(files, f);
    var before, after := closed + Handles(files), closed + Handles(files + [f]);
    assert after == before + if f.Handle? then {f.handle} else {};
    forall h: nat ensures h in after <==> h in before || (f.Handle? && h == f.handle) {}
  }

  /** Open what one command redirects. Every file opened is put on the list to close. */
  method OpenRedirections(process: Process, opens0: seq<string>, files0: seq<FileRef>, ghost closed: set<nat>)
    returns (opens: seq<string>, files: seq<FileRef>)
    requires Covers(closed + Handles(files0), |opens0|)
    ensures opens == opens0 + OpensFor(process)
    ensures Covers(closed + Handles(files), |opens|)
  {
    opens, files := opens0, files0;
    if process.stdin.FromFile? {
      ListingKeepsCover(closed, files, |opens|, Handle(|opens|));
      files := files + [Handle(|opens|)];
      opens := opens + [process.stdin.name];
    }
    if process.stdout.OutFile? {
      opens, files := OpenAndList(process.stdout.name, opens, files, closed);
    }
    if process.stderr.ErrFile? {
      opens, files := OpenAndList(process.stderr.name, opens, files, closed);
    }
  }

  method OpenAndList(name: string, opens0: seq<string>, files0: seq<FileRef>, ghost closed: set<nat>)
    returns (opens: seq<string>, files: seq<FileRef>)
    requires Covers(closed + Handles(files0), |opens0|)
    ensures opens == opens0 + if IsNull(name) then [] else [name]
    ensures Covers(closed + Handles(files), |opens|)
  {
    var f: FileRef;
    f, opens := OpenOutFile(name, opens0);
    files := files0 + [f];
    ListingKeepsCover(closed, files0, |opens0|, f);
  }

  /** The state of the run loop at position i, against what remains to be run. */
  ghost predicate RunState(p: seq<Node>, oracle: Oracle, goal: Trace, i: nat, piped: bool, cwd: string,
                           started: seq<Process>, opens: seq<string>, open: set<nat>) {
    && WellFormed(p) && i < |p| && i % 2 == 0
    && var rest := RunFrom(p, i, piped, cwd, oracle);
    && goal == Trace(started + rest.started, rest.outcome)
    && opens == OpensForAll(started)
    && Covers(open, |opens|)
  }

  lemma ChdirStep(p: seq<Node>, oracle: Oracle, goal: Trace, i: nat, piped: bool, cwd: string, started: seq<Process>,
                  opens: seq<string>, open: set<nat>)
    requires RunState(p, oracle, goal, i, piped, cwd, started, opens, open) && p[i].Chdir?
    ensures i + 1 < |p| ==> p[i + 1].And? && i + 2 < |p|
    ensures i + 1 < |p| && p[i].dir.Some? ==>
      RunState(p, oracle, goal, i + 2, piped, PathJoin(cwd, p[i].dir.value), started, opens, open)
  {
    Alternates(p, i);
  }

  lemma CommandStarted(p: seq<Node>, oracle: Oracle, goal: Trace, i: nat, piped: bool, cwd: string, started: seq<Process>,
                       opens: seq<string>, open: set<nat>, opens1: seq<string>, open1: set<nat>)
    requires RunState(p, oracle, goal, i, piped, cwd, started, opens, open) && p[i].Command?
    requires opens1 == opens + OpensFor(Start(p, i, piped, cwd)) && Covers(open1, |opens1|)
    ensures var now := started + [Start(p, i, piped, cwd)];
      && opens1 == OpensForAll(now)
      && (i + 1 < |p| ==> IsOp(p[i + 1]) && i + 2 < |p|)
      && (if i + 1 == |p| || Stops(p[i + 1], oracle(i)) then
            goal == Trace(now, Returned(oracle(i)))
          else RunState(p, oracle, goal, i + 2, p[i + 1].Pipe?, cwd, now, opens1, open1))
  {
    OpensForOneMore(started, Start(p, i, piped, cwd));
    if i + 1 < |p| && !Stops(p[i + 1], oracle(i)) {
      CommandGoesOn(p, oracle, i, piped, cwd, started);
    } else {
      CommandEnds(p, oracle, i, piped, cwd);
    }
  }

  lemma OpensForOneMore(started: seq<Process>, process: Process)
    ensures OpensForAll(started + [process]) == OpensForAll(started) + OpensFor(process)
  {
    assert (started + [process])[..|started|] == started;
  }

  lemma CommandEnds(p: seq<Node>, oracle: Oracle, i: nat, piped: bool, cwd: string)
    requires WellFormed(p) && i < |p| && i % 2 == 0 && p[i].Command?
    requires i + 1 == |p| || Stops(p[i + 1], oracle(i))
    ensures RunFrom(p, i, piped, cwd, oracle) == Trace([Start(p, i, piped, cwd)], Returned(oracle(i)))
    ensures i + 1 < |p| ==> IsOp(p[i + 1]) && i + 2 < |p|
  {
    Alternates(p, i);
  }

  lemma CommandGoesOn(p: seq<Node>, oracle: Oracle, i: nat, piped: bool, cwd: string, started: seq<Process>)
    requires WellFormed(p) && i + 1 < |p| && i % 2 == 0 && p[i].Command? && !Stops(p[i + 1], oracle(i))
    ensures i + 2 < |p| && IsOp(p[i + 1]) &&
      var now := started + [Start(p, i, piped, cwd)];
      var all, rest := RunFrom(p, i, piped, cwd, oracle), RunFrom(p, i + 2, p[i + 1].Pipe?, cwd, oracle);
      started + all.started == now + rest.started && all.outcome == rest.outcome
  {
    Alternates(p, i);
    var process, rest := Start(p, i, piped, cwd), RunFrom(p, i + 2, p[i + 1].Pipe?, cwd, oracle);
    assert started + ([process] + rest.started) == (started + [process]) + rest.started;
  }

  /** Start the command at one position of the pipeline with its redirections. */
  method StartCommand(p: seq<Node>, ghost oracle: Oracle, ghost goal: Trace, at: nat, piped: bool, cwd: string,
                      started0: seq<Process>, opens0: seq<string>, files0: seq<FileRef>, ghost closed: set<nat>)
    returns (started: seq<Process>, opens: seq<string>, files: seq<FileRef>, ghost open: set<nat>)
    requires RunState(p, oracle, goal, at, piped, cwd, started0, opens0, closed + Handles(files0)) && !p[at].Chdir?
    ensures at + 1 < |p| ==> IsOp(p[at + 1]) && at + 2 < |p|
    ensures open == closed + Handles(files) && opens == OpensForAll(started) && Covers(open, |opens|)
    ensures at + 1 == |p| || Stops(p[at + 1], oracle(at)) ==>
      goal == Trace(started, Returned(oracle(at)))
    ensures at + 1 < |p| && !Stops(p[at + 1], oracle(at)) ==>
      RunState(p, oracle, goal, at + 2, p[at + 1].Pipe?, cwd, started, opens, open)
  {
    Alternates(p, at);
    var process := Start(p, at, piped, cwd);
    opens, files := OpenRedirections(process, opens0, files0, closed);
    open := closed + Handles(files);
    CommandStarted(p, oracle, goal, at, piped, cwd, started0, opens0, closed + Handles(files0), opens, open);
    started := started0 + [process];
  }

  /** The statuses the processes of a pipe will be reaped with. */
  function Waits(pipedCommands: seq<nat>, oracle: Oracle): (waits: seq<int>)
    ensures |waits| == |pipedCommands| && forall k :: 0 <= k < |waits| ==> waits[k] == oracle(pipedCommands[k])
  {
    seq(|pipedCommands|, k requires 0 <= k < |pipedCommands| => oracle(pipedCommands[k]))
  }

  /** Wait for a whole pipe, then close what was opened for it. */
  method FinishPipe(pipedCommands: seq<nat>, oracle: Oracle, files: seq<FileRef>, closed0: set<nat>)
    returns (retval: int, closed: set<nat>)
    requires pipedCommands != []
    ensures retval == oracle(pipedCommands[|pipedCommands| - 1])
    ensures closed == closed0 + Handles(files) && closed + Handles([]) == closed
  {
    retval := ExecPipedCommands(Waits(pipedCommands, oracle));
    closed := CloseFiles(files, closed0);
  }

  /** Go on with the pipe, or finish it and decide by its status whether the run stops. */
  method TakeOperator(nextNode: Node, pipedCommands0: seq<nat>, oracle: Oracle, files0: seq<FileRef>, closed0: set<nat>)
    returns (stop: bool, retval: int, piped: bool, pipedCommands: seq<nat>, files: seq<FileRef>, closed: set<nat>)
    requires IsOp(nextNode) && pipedCommands0 != []
    ensures closed + Handles(files) == closed0 + Handles(files0)
    ensures stop <==> Stops(nextNode, oracle(pipedCommands0[|pipedCommands0| - 1]))
    ensures stop ==> retval == oracle(pipedCommands0[|pipedCommands0| - 1]) && closed == closed0 + Handles(files0)
    ensures !stop ==> piped == nextNode.Pipe? && pipedCommands == if piped then pipedCommands0 else []
  {
    retval, piped, pipedCommands, files, closed := 0, true, pipedCommands0, files0, closed0;
    if nextNode.Pipe? {
      return false, retval, piped, pipedCommands, files, closed;
    }
    retval, closed := FinishPipe(pipedCommands0, oracle, files0, closed0);
    files := [];
    if nextNode.Or? && retval == 0 {
      return true, retval, piped, pipedCommands, files, closed;
    }
    if nextNode.And? && retval != 0 {
      return true, retval, piped, pipedCommands, files, closed;
    }
    stop, piped, pipedCommands := false, false, [];
  }

  ghost predicate Remains(p: seq<Node>, i: nat, pipeline: seq<Node>) {
    i <= |p| && pipeline == p[i..]
  }

  /** Take the next node off the front of what remains, and tell its position. */
  method Pop(p: seq<Node>, pipeline: seq<Node>) returns (node: Node, at: nat, rest: seq<Node>)
    requires pipeline != [] && |pipeline| <= |p| && Remains(p, |p| - |pipeline|, pipeline)
    ensures at == |p| - |pipeline| && node == p[at] && Remains(p, at + 1, rest)
    ensures |rest| == |pipeline| - 1
  {
    at := |p| - |pipeline|;
    node, rest := pipeline[0], pipeline[1..];
  }

  /** The run loop, non-verbose. On a normal return every file it opened is closed. */
  method RunLoop(p: seq<Node>, oracle: Oracle) returns (trace: Trace, opens: seq<string>, closed: set<nat>)
    requires WellFormed(p)
    ensures trace == RunFrom(p, 0, false, ".", oracle)
    ensures trace.outcome.Returned? ==> opens == OpensForAll(trace.started) && Covers(closed, |opens|)
  {
    var pipeline := p;
    var filesToClose: seq<FileRef> := [];
    var pipedCommands: seq<nat> := [];
    var piped := false;
    var cwd := ".";
    var started: seq<Process> := [];
    opens, closed := [], {};
    ghost var i, goal := 0, RunFrom(p, 0, false, ".", oracle);
    ghost var open: set<nat> := {};
    while true
      invariant RunState(p, oracle, goal, i, piped, cwd, started, opens, open) && open == closed + Handles(filesToClose)
      invariant Remains(p, i, pipeline)
      decreases |pipeline|
    {
      var node, at;
      node, at, pipeline := Pop(p, pipeline);
      if node.Chdir? {
        ChdirStep(p, oracle, goal, i, piped, cwd, started, opens, open);
        if pipeline == [] {
          return Trace(started, IndexError), opens, closed;
        }
        var nextOp, skipped;
        nextOp, skipped, pipeline := Pop(p, pipeline);
        if node.dir.None? {
          return Trace(started, TypeError), opens, closed;
        }
        cwd := PathJoin(cwd, node.dir.value);
        i := i + 2;
        continue;
      }
      started, opens, filesToClose, open :=
        StartCommand(p, oracle, goal, at, piped, cwd, started, opens, filesToClose, closed);
      pipedCommands := pipedCommands + [at];
      if pipeline == [] {
        var retval;
        retval, closed := FinishPipe(pipedCommands, oracle, filesToClose, closed);
        return Trace(started, Returned(retval)), opens, closed;
      }
      var nextNode, skipped, stop, retval;
      nextNode, skipped, pipeline := Pop(p, pipeline);
      stop, retval, piped, pipedCommands, filesToClose, closed :=
        TakeOperator(nextNode, pipedCommands, oracle, filesToClose, closed);
      if stop {
        return Trace(started, Returned(retval)), opens, closed;
      }
      i := i + 2;
    }
  }
}
