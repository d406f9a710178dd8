/** The mini shell's pipeline nodes and its token parser, as a state machine and as the
    loop of the class that runs it. */
module ShellSyntax {
  import opened Wrappers

  datatype Stdout = OutInherit | OutFile(name: string) | OutPipe
  datatype Stderr = ErrInherit | ErrFile(name: string) | ErrStdout

  /** A pipeline element. argv[0] is the command's name; an empty env is the absence of
      assignments. */
  datatype Node =
    | Command(argv: seq<string>, stdin: Option<string>, stdout: Stdout, stderr: Stderr, env: map<string, string>)
    | Chdir(dir: Option<string>)
    | Pipe | And | Or

  predicate IsOp(n: Node) {
    n.Pipe? || n.And? || n.Or?
  }

  predicate IsOperatorToken(w: string) {
    w in [">", "2>", "2>&1", "<", "|", "&&", "||"]
  }

  predicate IsKeyChar(c: char) {
    'a' <= c <= 'z' || 'A' <= c <= 'Z' || '0' <= c <= '9' || c == '_'
  }

  predicate IsSpace(c: char) {
    || c in " \t\n\r\U{B}\U{C}\U{1C}\U{1D}\U{1E}\U{1F}\U{85}\U{A0}\U{1680}"
    || '\U{2000}' <= c <= '\U{200A}'
    || c in "\U{2028}\U{2029}\U{202F}\U{205F}\U{3000}"
  }

  predicate IsKey(k: string) {
    k != "" && forall i :: 0 <= i < |k| ==> IsKeyChar(k[i])
  }

  predicate IsValue(v: string) {
    v != "" && forall i :: 0 <= i < |v| ==> !IsSpace(v[i])
  }

  function KeyPrefix(w: string): (n: nat)
    ensures n <= |w| && (forall i :: 0 <= i < n ==> IsKeyChar(w[i])) && (n < |w| ==> !IsKeyChar(w[n]))
  {
    if w == "" || !IsKeyChar(w[0]) then 0 else 1 + KeyPrefix(w[1..])
  }

  function WithoutNewline(s: string): string {
    if s != "" && s[|s| - 1] == '\n' then s[..|s| - 1] else s
  }

  /** A key, an equals sign and a value without blanks; one final newline is let pass by
      the end anchor and is not part of the value. */
  function EnvMatch(w: string): Option<(string, string)> {
    var n := KeyPrefix(w);
    if n == 0 || n == |w| || w[n] != '=' then None
    else
      var v := WithoutNewline(w[n + 1..]);
      if IsValue(v) then Some((w[..n], v)) else None
  }

  datatype Mode = BEGIN | COMMAND | CHDIR | STDERR | STDOUT | STDIN

  datatype ParseState = ParseState(mode: Mode, current: Option<Node>, env: map<string, string>, done: seq<Node>)

  const START := ParseState(BEGIN, None, map[], [])

  function NewCommand(name: string, env: map<string, string>): Node {
    Command([name], None, OutInherit, ErrInherit, env)
  }

  /** One token; None is a failed assertion. */
  function Step(s: ParseState, token: string): Option<ParseState> {
    match s.mode
    case BEGIN =>
      var m := EnvMatch(token);
      if m.Some? then Some(s.(env := s.env[m.value.0 := m.value.1]))
      else if s.current.Some? then None
      else if token == "cd" then
        if s.env == map[] then Some(s.(current := Some(Chdir(None)), mode := CHDIR)) else None
      else Some(s.(current := Some(NewCommand(token, s.env)), env := map[], mode := COMMAND))
    case CHDIR =>
      if token == "&&" then CommitThen(s, And)
      else if s.current.Some? && s.current.value.Chdir? && s.current.value.dir.None? then
        Some(s.(current := Some(Chdir(Some(token)))))
      else None
    case _ =>
      if s.current.Some? && s.current.value.Command? then CommandStep(s, s.current.value, token) else None
  }

  function CommandStep(s: ParseState, c: Node, token: string): Option<ParseState>
    requires c.Command? && s.mode != BEGIN && s.mode != CHDIR
  {
    match s.mode
    case STDOUT =>
      if c.stdout.OutInherit? then Some(s.(current := Some(c.(stdout := OutFile(token))), mode := COMMAND)) else None
    case STDERR =>
      if c.stderr.ErrInherit? then Some(s.(current := Some(c.(stderr := ErrFile(token))), mode := COMMAND)) else None
    case STDIN =>
      if c.stdin.None? then Some(s.(current := Some(c.(stdin := Some(token))), mode := COMMAND)) else None
    case COMMAND =>
      if token == ">" then Some(s.(mode := STDOUT))
      else if token == "2>" then Some(s.(mode := STDERR))
      else if token == "2>&1" then
        if c.stderr.ErrInherit? then Some(s.(current := Some(c.(stderr := ErrStdout)))) else None
      else if token == "<" then Some(s.(mode := STDIN))
      else if token == "|" then
        if c.stdout.OutInherit? then CommitThen(s.(current := Some(c.(stdout := OutPipe))), Pipe) else None
      else if token == "&&" then CommitThen(s, And)
      else if token == "||" then CommitThen(s, Or)
      else Some(s.(current := Some(c.(argv := c.argv + [token]))))
  }

  function CommitThen(s: ParseState, op: Node): Option<ParseState> {
    if s.current.Some? then
      Some(ParseState(BEGIN, None, s.env, s.done + [s.current.value, op]))
    else None
  }

  function Steps(s: ParseState, tokens: seq<string>): Option<ParseState>
    decreases |tokens|
  {
    if tokens == [] then Some(s)
    else
      var next := Step(s, tokens[0]);
      if next.None? then None else Steps(next.value, tokens[1..])
  }

  /** The final commit: whatever the mode, a command must be under construction. */
  function Finish(s: ParseState): Option<seq<Node>> {
    if s.current.Some? then Some(s.done + [s.current.value]) else None
  }

  function Parse(tokens: seq<string>): Option<seq<Node>> {
    var s := Steps(START, tokens);
    if s.None? then None else Finish(s.value)
  }

  lemma {:induction false} StepsAppend(s: ParseState, a: seq<string>, b: seq<string>)
    ensures Steps(s, a + b) == if Steps(s, a).None? then None else Steps(Steps(s, a).value, b)
    decreases |a|
  {
    if a == [] {
      assert a + b == b;
    } else {
      var next := Step(s, a[0]);
      assert (a + b)[0] == a[0] && (a + b)[1..] == a[1..] + b;
      if next.Some? { StepsAppend(next.value, a[1..], b); }
    }
  }

  lemma StepsOne(s: ParseState, token: string)
    ensures Steps(s, [token]) == Step(s, token)
  {
    var next := Step(s, token);
    if next.Some? { assert Steps(next.value, [token][1..]) == next; }
  }

  lemma StepsLast(s: ParseState, tokens: seq<string>, i: nat)
    requires i < |tokens|
    ensures Steps(s, tokens[..i + 1]) ==
      if Steps(s, tokens[..i]).None? then None else Step(Steps(s, tokens[..i]).value, tokens[i])
  {
    assert tokens[..i + 1] == tokens[..i] + [tokens[i]];
    StepsAppend(s, tokens[..i], [tokens[i]]);
    if Steps(s, tokens[..i]).Some? { StepsOne(Steps(s, tokens[..i]).value, tokens[i]); }
  }

  lemma FailureSticks(s: ParseState, tokens: seq<string>, i: nat)
    requires i <= |tokens| && Steps(s, tokens[..i]).None?
    ensures Steps(s, tokens).None?
  {
    assert tokens == tokens[..i] + tokens[i..];
    StepsAppend(s, tokens[..i], tokens[i..]);
  }

  /** The parser object. The command being built is a value here: nothing else refers to it
      until it is committed. */
  class Pipeline {
    var currentCommand: Option<Node>
    var pipeline: seq<Node>

    constructor ()
      ensures currentCommand == None && pipeline == []
    {
      currentCommand, pipeline := None, [];
    }

    /** Appends the command under construction; false is the failed assertion. */
    method CommitCommand() returns (ok: bool)
      modifies this
      ensures ok <==> old(currentCommand).Some?
      ensures ok ==> currentCommand == None && pipeline == old(pipeline) + [old(currentCommand).value]
      ensures !ok ==> unchanged(this)
    {
      if currentCommand.None? {
        return false;
      }
      pipeline := pipeline + [currentCommand.value];
      currentCommand := None;
      return true;
    }

    /** The token loop. It succeeds exactly when the state machine does and leaves its
        pipeline in the object. */
    method ParseTokens(command: seq<string>) returns (ok: bool)
      modifies this
      ensures ok <==> Parse(command).Some?
      ensures ok ==> pipeline == Parse(command).value && currentCommand == None
    {
      currentCommand, pipeline := None, [];
      var tokens := command;
      var state := BEGIN;
      var envVars: map<string, string> := map[];
      ghost var i := 0;
      while tokens != []
        invariant 0 <= i <= |command| && tokens == command[i..]
        invariant Steps(START, command[..i]) == Some(ParseState(state, currentCommand, envVars, pipeline))
        invariant BuildsWhatItSays(state, currentCommand)
        decreases |tokens|
      {
        var token := tokens[0];
        ghost var before := ParseState(state, currentCommand, envVars, pipeline);
        StepsLast(START, command, i);
        tokens, i := tokens[1..], i + 1;
        if Step(before, token).None? { FailureSticks(START, command, i); }
        match state {
          case BEGIN =>
            var envVarMatch := EnvMatch(token);
            if envVarMatch.Some? {
              envVars := envVars[envVarMatch.value.0 := envVarMatch.value.1];
            } else {
              if currentCommand.Some? { return false; }
              if token == "cd" {
                currentCommand := Some(Chdir(None));
                if envVars != map[] { return false; }
                state := CHDIR;
              } else {
                currentCommand := Some(NewCommand(token, envVars));
                envVars := map[];
                state := COMMAND;
              }
            }
          case COMMAND =>
            var c := currentCommand.value;
            if token == ">" {
              state := STDOUT;
            } else if token == "2>" {
              state := STDERR;
            } else if token == "2>&1" {
              if !c.stderr.ErrInherit? { return false; }
              currentCommand := Some(c.(stderr := ErrStdout));
            } else if token == "<" {
              state := STDIN;
            } else if token == "|" {
              if !c.stdout.OutInherit? { return false; }
              currentCommand := Some(c.(stdout := OutPipe));
              var committed := CommitCommand();
              pipeline := pipeline + [Pipe];
              assert pipeline == before.done + [pipeline[|before.done|], Pipe];
              state := BEGIN;
            } else if token == "&&" {
              var committed := CommitCommand();
              pipeline := pipeline + [And];
              assert pipeline == before.done + [pipeline[|before.done|], And];
              state := BEGIN;
            } else if token == "||" {
              var committed := CommitCommand();
              pipeline := pipeline + [Or];
              assert pipeline == before.done + [pipeline[|before.done|], Or];
              state := BEGIN;
            } else {
              currentCommand := Some(c.(argv := c.argv + [token]));
            }
          case CHDIR =>
            if token == "&&" {
              var committed := CommitCommand();
              pipeline := pipeline + [And];
              assert pipeline == before.done + [pipeline[|before.done|], And];
              state := BEGIN;
            } else {
              if currentCommand.value.dir.Some? { return false; }
              currentCommand := Some(Chdir(Some(token)));
            }
          case STDOUT =>
            var c := currentCommand.value;
            if !c.stdout.OutInherit? { return false; }
            currentCommand := Some(c.(stdout := OutFile(token)));
            state := COMMAND;
          case STDERR =>
            var c := currentCommand.value;
            if !c.stderr.ErrInherit? { return false; }
            currentCommand := Some(c.(stderr := ErrFile(token)));
            state := COMMAND;
          case STDIN =>
            var c := currentCommand.value;
            if !c.stdin.None? { return false; }
            currentCommand := Some(c.(stdin := Some(token)));
            state := COMMAND;
        }
      }
      assert command[..i] == command;
      ok := CommitCommand();
    }
  }

  /** In every mode but BEGIN a node of the mode's kind is under construction. */
  predicate BuildsWhatItSays(mode: Mode, current: Option<Node>) {
    match mode
    case BEGIN => current.None?
    case CHDIR => current.Some? && current.value.Chdir?
    case _ => current.Some? && current.value.Command?
  }
}
