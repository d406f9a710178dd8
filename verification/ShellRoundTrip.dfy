/** What the shell parser accepts, what it yields, and that parsing undoes printing. */
module ShellRoundTrip {
  import opened Sequences
  import opened ShellSyntax
  import opened Wrappers

  // ---- Well-formed pipelines

  /** The word assigns the value to the key; a final newline is not part of the value. */
  predicate Assigns(w: string, k: string, v: string) {
    IsKey(k) && IsValue(v) && (w == k + "=" + v || w == k + "=" + v + "\n")
  }

  ghost predicate IsAssignment(w: string) {
    exists k, v :: Assigns(w, k, v)
  }

  ghost predicate NodeOk(n: Node) {
    match n
    case Command(argv, _, _, _, env) =>
      && argv != [] && argv[0] != "cd" && !IsAssignment(argv[0])
      && (forall i :: 1 <= i < |argv| ==> !IsOperatorToken(argv[i]))
      && (forall k :: k in env ==> IsKey(k) && IsValue(env[k]))
    case Chdir(dir) => dir != Some("&&")
    case _ => false
  }

  /** The operator that may follow a node: a pipe exactly after a command whose output is
      piped, and only && after a cd. */
  predicate Joined(n: Node, op: Node) {
    match n
    case Command(_, _, stdout, _, _) => IsOp(op) && (stdout.OutPipe? <==> op.Pipe?)
    case Chdir(_) => op.And?
    case _ => false
  }

  ghost predicate SlotOk(p: seq<Node>, i: nat)
    requires i < |p|
  {
    if i % 2 == 0 then
      && NodeOk(p[i])
      && (if i + 1 < |p| then Joined(p[i], p[i + 1]) else !(p[i].Command? && p[i].stdout.OutPipe?))
    else IsOp(p[i])
  }

  /** Commands and operators alternate, ending with a command. */
  ghost predicate WellFormed(p: seq<Node>) {
    |p| % 2 == 1 && forall i :: 0 <= i < |p| ==> SlotOk(p, i)
  }

  // ---- Everything accepted is well-formed

  /** Pairs of a finished command and the operator after it. */
  ghost predicate DoneOk(done: seq<Node>) {
    |done| % 2 == 0 && forall i :: 0 <= i < |done| ==> SlotOk(done, i)
  }

  ghost predicate StateOk(s: ParseState) {
    && DoneOk(s.done)
    && BuildsWhatItSays(s.mode, s.current)
    && (forall k :: k in s.env ==> IsKey(k) && IsValue(s.env[k]))
    && (s.current.Some? ==> NodeOk(s.current.value) && !(s.current.value.Command? && s.current.value.stdout.OutPipe?))
  }

  lemma {:induction false} KeyPrefixUpTo(k: string, rest: string)
    requires (forall i :: 0 <= i < |k| ==> IsKeyChar(k[i])) && rest != "" && !IsKeyChar(rest[0])
    ensures KeyPrefix(k + rest) == |k|
  {
    if k == "" {
      assert k + rest == rest;
    } else {
      assert (k + rest)[0] == k[0] && (k + rest)[1..] == k[1..] + rest;
      KeyPrefixUpTo(k[1..], rest);
    }
  }

  lemma NewlineTaken(v: string, end: string)
    requires IsValue(v) && end in ["", "\n"]
    ensures WithoutNewline(v + end) == v
  {
    assert !IsSpace(v[|v| - 1]) && IsSpace('\n');
    if end == "\n" { assert (v + end)[..|v|] == v; } else { assert v + end == v; }
  }

  lemma AssignmentMatches(k: string, v: string, end: string)
    requires IsKey(k) && IsValue(v) && end in ["", "\n"]
    ensures EnvMatch(k + "=" + v + end) == Some((k, v))
  {
    var w, tail := k + "=" + v + end, "=" + (v + end);
    assert w == k + tail;
    KeyPrefixUpTo(k, tail);
    assert w[|k|] == '=' && w[..|k|] == k;
    assert w[|k| + 1..] == v + end;
    NewlineTaken(v, end);
  }

  lemma NewlineBack(s: string)
    ensures s == WithoutNewline(s) || s == WithoutNewline(s) + "\n"
  {
    if s != "" { assert s == s[..|s| - 1] + [s[|s| - 1]]; }
  }

  lemma NewlineLast(k: string, v: string, rest: string)
    requires rest == v || rest == v + "\n"
    ensures k + "=" + rest == k + "=" + v || k + "=" + rest == k + "=" + v + "\n"
  {
    assert k + "=" + (v + "\n") == k + "=" + v + "\n";
  }

  lemma SplitAtEquals(w: string)
    requires EnvMatch(w).Some?
    ensures var n := KeyPrefix(w);
      n < |w| && w == w[..n] + "=" + w[n + 1..] && EnvMatch(w).value == (w[..n], WithoutNewline(w[n + 1..]))
  {
    CutAt(w, KeyPrefix(w));
  }

  lemma CutAt(w: string, n: nat)
    requires n < |w| && w[n] == '='
    ensures w == w[..n] + "=" + w[n + 1..]
  {
    assert [w[n]] == "=";
  }

  lemma MatchedIsAssignment(w: string)
    requires EnvMatch(w).Some?
    ensures Assigns(w, EnvMatch(w).value.0, EnvMatch(w).value.1)
  {
    var n := KeyPrefix(w);
    SplitAtEquals(w);
    NewlineBack(w[n + 1..]);
    NewlineLast(w[..n], WithoutNewline(w[n + 1..]), w[n + 1..]);
  }

  /** The pattern matches exactly the assignments, with their key and value. */
  lemma EnvMatchIff(w: string, k: string, v: string)
    ensures EnvMatch(w) == Some((k, v)) <==> Assigns(w, k, v)
  {
    if EnvMatch(w) == Some((k, v)) { MatchedIsAssignment(w); }
    if Assigns(w, k, v) {
      AssignmentMatches(k, v, "");
      AssignmentMatches(k, v, "\n");
      assert k + "=" + v + "" == k + "=" + v;
    }
  }

  lemma NoMatchIff(w: string)
    ensures EnvMatch(w).None? <==> !IsAssignment(w)
  {
    if EnvMatch(w).Some? { MatchedIsAssignment(w); }
    if k, v :| Assigns(w, k, v) { EnvMatchIff(w, k, v); }
  }

  lemma CommitOk(s: ParseState, n: Node, op: Node)
    requires DoneOk(s.done) && NodeOk(n) && Joined(n, op) && IsOp(op)
    ensures DoneOk(s.done + [n, op])
  {
    var longer := s.done + [n, op];
    forall i | 0 <= i < |longer| ensures SlotOk(longer, i) {
      if i < |s.done| {
        assert SlotOk(s.done, i);
      }
    }
  }

  lemma StepKeepsOk(s: ParseState, token: string)
    requires StateOk(s) && Step(s, token).Some?
    ensures StateOk(Step(s, token).value)
  {
    match s.mode
    case BEGIN =>
      NoMatchIff(token);
      if EnvMatch(token).Some? { MatchedIsAssignment(token); }
    case CHDIR =>
      if token == "&&" { CommitOk(s, s.current.value, And); }
    case COMMAND =>
      CommandStepKeepsOk(s, token);
    case _ =>
  }

  lemma CommandStepKeepsOk(s: ParseState, token: string)
    requires StateOk(s) && s.mode == COMMAND && Step(s, token).Some?
    ensures StateOk(Step(s, token).value)
  {
    var c := s.current.value;
    if token == "|" {
      CommitOk(s, c.(stdout := OutPipe), Pipe);
    } else if token == "&&" {
      CommitOk(s, c, And);
    } else if token == "||" {
      CommitOk(s, c, Or);
    }
  }

  lemma {:induction false} StepsKeepOk(s: ParseState, tokens: seq<string>)
    requires StateOk(s) && Steps(s, tokens).Some?
    ensures StateOk(Steps(s, tokens).value)
    decreases |tokens|
  {
    if tokens != [] {
      StepKeepsOk(s, tokens[0]);
      StepsKeepOk(Step(s, tokens[0]).value, tokens[1..]);
    }
  }

  lemma ParsedIsWellFormed(tokens: seq<string>)
    requires Parse(tokens).Some?
    ensures WellFormed(Parse(tokens).value)
  {
    StepsKeepOk(START, tokens);
    var s := Steps(START, tokens).value;
    var p := Parse(tokens).value;
    forall i | 0 <= i < |p| ensures SlotOk(p, i) {
      if i < |s.done| { assert SlotOk(s.done, i); }
    }
  }

  // ---- Writing a pipeline down

  /** One word or redirection after a command's name. */
  datatype Item = Arg(word: string) | In(file: string) | Out(file: string) | Err(file: string) | ErrToOut

  /** An assignment as written, perhaps with a newline at its end. */
  datatype Assignment = Assignment(key: string, value: string, newline: bool) {
    function Token(): string { key + "=" + value + if newline then "\n" else "" }

    predicate Valid() { IsKey(key) && IsValue(value) }
  }

  /** How one node is written: the order of its assignments and of its items. */
  datatype Source = Simple(assigns: seq<Assignment>, items: seq<Item>) | Cd

  function ItemTokens(item: Item): seq<string> {
    match item
    case Arg(w) => [w]
    case In(f) => ["<", f]
    case Out(f) => [">", f]
    case Err(f) => ["2>", f]
    case ErrToOut => ["2>&1"]
  }

  function ItemsTokens(items: seq<Item>): seq<string> {
    if items == [] then [] else ItemTokens(items[0]) + ItemsTokens(items[1..])
  }

  function AssignTokens(assigns: seq<Assignment>): seq<string> {
    if assigns == [] then [] else [assigns[0].Token()] + AssignTokens(assigns[1..])
  }

  function Assigned(env: map<string, string>, assigns: seq<Assignment>): map<string, string>
    decreases |assigns|
  {
    if assigns == [] then env else Assigned(env[assigns[0].key := assigns[0].value], assigns[1..])
  }

  ghost predicate AllValid(assigns: seq<Assignment>) {
    forall i :: 0 <= i < |assigns| ==> assigns[i].Valid()
  }

  /** The values f finds in the items, in order. */
  function Collect<A>(items: seq<Item>, f: Item -> Option<A>): seq<A> {
    if items == [] then []
    else
      match f(items[0])
      case None => Collect(items[1..], f)
      case Some(a) => [a] + Collect(items[1..], f)
  }

  function WordOf(item: Item): Option<string> { if item.Arg? then Some(item.word) else None }

  function InputOf(item: Item): Option<string> { if item.In? then Some(item.file) else None }

  function OutputOf(item: Item): Option<string> { if item.Out? then Some(item.file) else None }

  function ErrorOf(item: Item): Option<Stderr> {
    match item case Err(f) => Some(ErrFile(f)) case ErrToOut => Some(ErrStdout) case _ => None
  }

  function Args(items: seq<Item>): seq<string> { Collect(items, WordOf) }

  function Inputs(items: seq<Item>): seq<string> { Collect(items, InputOf) }

  function Outputs(items: seq<Item>): seq<string> { Collect(items, OutputOf) }

  function Errors(items: seq<Item>): seq<Stderr> { Collect(items, ErrorOf) }

  /** The source spells out exactly the node's words, assignments and redirections, each
      redirection at most once, in any order. */
  ghost predicate Writes(src: Source, n: Node) {
    match n
    case Command(argv, stdin, stdout, stderr, env) =>
      && src.Simple? && argv != []
      && AllValid(src.assigns)
      && Assigned(map[], src.assigns) == env
      && Args(src.items) == argv[1..]
      && Inputs(src.items) == (if stdin.Some? then [stdin.value] else [])
      && Outputs(src.items) == (if stdout.OutFile? then [stdout.name] else [])
      && Errors(src.items) == (if stderr.ErrInherit? then [] else [stderr])
    case Chdir(_) => src.Cd?
    case _ => false
  }

  function NodeTokens(src: Source, n: Node): seq<string> {
    match n
    case Command(argv, _, _, _, _) =>
      if src.Simple? && argv != [] then AssignTokens(src.assigns) + [argv[0]] + ItemsTokens(src.items) else []
    case Chdir(dir) => ["cd"] + if dir.Some? then [dir.value] else []
    case Pipe => ["|"]
    case And => ["&&"]
    case Or => ["||"]
  }

  /** The tokens of nodes that each have their operator, srcs[i] telling how node 2 * i is written. */
  function PrintPairs(done: seq<Node>, srcs: seq<Source>): seq<string>
    requires |done| == 2 * |srcs|
  {
    if srcs == [] then []
    else
      var n := |srcs| - 1;
      PrintPairs(done[..2 * n], srcs[..n]) + NodeTokens(srcs[n], done[2 * n]) + NodeTokens(Cd, done[2 * n + 1])
  }

  function Print(p: seq<Node>, srcs: seq<Source>): seq<string>
    requires |p| == 2 * |srcs| - 1
  {
    var n := |srcs| - 1;
    PrintPairs(p[..2 * n], srcs[..n]) + NodeTokens(srcs[n], p[2 * n])
  }

  ghost predicate WritesAll(p: seq<Node>, srcs: seq<Source>) {
    && |p| == 2 * |srcs| - 1
    && forall i {:trigger WritesAt(p, srcs, i)} :: 0 <= i < |srcs| ==> WritesAt(p, srcs, i)
  }

  ghost predicate WritesAt(p: seq<Node>, srcs: seq<Source>, i: int)
    requires |p| == 2 * |srcs| - 1 && 0 <= i < |srcs|
  {
    Writes(srcs[i], p[2 * i])
  }

  // ---- Reading back one node

  lemma {:induction false} AssignsRead(s: ParseState, assigns: seq<Assignment>)
    requires s.mode == BEGIN && AllValid(assigns)
    ensures Steps(s, AssignTokens(assigns)) == Some(s.(env := Assigned(s.env, assigns)))
    decreases |assigns|
  {
    if assigns != [] {
      var a := assigns[0];
      assert a.Valid();
      AssignmentMatches(a.key, a.value, if a.newline then "\n" else "");
      AssignsRead(s.(env := s.env[a.key := a.value]), assigns[1..]);
      assert AssignTokens(assigns)[0] == a.Token();
      assert AssignTokens(assigns)[1..] == AssignTokens(assigns[1..]);
    }
  }

  /** The items fit what the command under construction has left open. */
  ghost predicate ItemsFit(c: Node, items: seq<Item>) {
    && c.Command?
    && (forall i :: 0 <= i < |items| && items[i].Arg? ==> !IsOperatorToken(items[i].word))
    && |Inputs(items)| <= (if c.stdin.None? then 1 else 0)
    && |Outputs(items)| <= (if c.stdout.OutInherit? then 1 else 0)
    && |Errors(items)| <= (if c.stderr.ErrInherit? then 1 else 0)
  }

  ghost function WithItems(c: Node, items: seq<Item>): Node
    requires c.Command?
  {
    Command(c.argv + Args(items),
            if Inputs(items) == [] then c.stdin else Some(Inputs(items)[0]),
            if Outputs(items) == [] then c.stdout else OutFile(Outputs(items)[0]),
            if Errors(items) == [] then c.stderr else Errors(items)[0],
            c.env)
  }

  /** The command under construction after one item. */
  ghost function WithItem(c: Node, item: Item): Node
    requires c.Command?
  {
    match item
    case Arg(w) => c.(argv := c.argv + [w])
    case In(f) => c.(stdin := Some(f))
    case Out(f) => c.(stdout := OutFile(f))
    case Err(f) => c.(stderr := ErrFile(f))
    case ErrToOut => c.(stderr := ErrStdout)
  }

  lemma {:induction false} ItemsRead(s: ParseState, c: Node, items: seq<Item>)
    requires s.mode == COMMAND && s.current == Some(c) && ItemsFit(c, items)
    ensures Steps(s, ItemsTokens(items)) == Some(s.(current := Some(WithItems(c, items))))
    decreases |items|
  {
    if items == [] {
      assert c.argv + [] == c.argv;
    } else {
      var d := WithItem(c, items[0]);
      FirstItemFits(c, items);
      ItemMerges(c, items);
      ItemRead(s, c, items[0]);
      ItemsRead(s.(current := Some(d)), d, items[1..]);
      StepsAppend(s, ItemTokens(items[0]), ItemsTokens(items[1..]));
    }
  }

  lemma ItemRead(s: ParseState, c: Node, item: Item)
    requires s.mode == COMMAND && s.current == Some(c) && ItemsFit(c, [item])
    ensures Steps(s, ItemTokens(item)) == Some(s.(current := Some(WithItem(c, item))))
  {
    CollectOne(item, InputOf);
    CollectOne(item, OutputOf);
    CollectOne(item, ErrorOf);
    match item
    case Arg(w) =>
      assert [item][0].Arg?;
      StepsOne(s, w);
    case In(f) => TwoSteps(s, "<", f);
    case Out(f) => TwoSteps(s, ">", f);
    case Err(f) => TwoSteps(s, "2>", f);
    case ErrToOut => StepsOne(s, "2>&1");
  }

  lemma FirstItemFits(c: Node, items: seq<Item>)
    requires items != [] && ItemsFit(c, items)
    ensures ItemsFit(c, [items[0]])
  {
    CollectOne(items[0], InputOf);
    CollectOne(items[0], OutputOf);
    CollectOne(items[0], ErrorOf);
  }

  lemma CollectOne<A>(item: Item, f: Item -> Option<A>)
    ensures Collect([item], f) == if f(item).None? then [] else [f(item).value]
  {
    assert [item][1..] == [];
  }

  lemma ItemMerges(c: Node, items: seq<Item>)
    requires items != [] && ItemsFit(c, items)
    ensures WithItems(WithItem(c, items[0]), items[1..]) == WithItems(c, items)
  {
    var a, b := WithItems(WithItem(c, items[0]), items[1..]), WithItems(c, items);
    assert a.argv == b.argv;
    assert a.stdin == b.stdin;
    assert a.stdout == b.stdout;
    assert a.stderr == b.stderr;
  }

  lemma TwoSteps(s: ParseState, a: string, b: string)
    requires Step(s, a).Some?
    ensures Steps(s, [a, b]) == Step(Step(s, a).value, b)
  {
    assert [a, b][1..] == [b];
    StepsOne(Step(s, a).value, b);
  }

  lemma {:induction false} ArgsAreArgItems(items: seq<Item>, i: nat)
    requires i < |items| && items[i].Arg?
    ensures items[i].word in Args(items)
  {
    if i > 0 { ArgsAreArgItems(items[1..], i - 1); }
  }

  /** The node as it stands under construction before its operator is seen. */
  function Unpiped(n: Node): Node {
    if n.Command? && n.stdout.OutPipe? then n.(stdout := OutInherit) else n
  }

  lemma NodeRead(done: seq<Node>, src: Source, n: Node)
    requires NodeOk(n) && Writes(src, n)
    ensures Steps(ParseState(BEGIN, None, map[], done), NodeTokens(src, n)) ==
      Some(ParseState(if n.Command? then COMMAND else CHDIR, Some(Unpiped(n)), map[], done))
  {
    if n.Command? {
      CommandRead(done, src, n);
    } else {
      ChdirRead(done, n.dir);
    }
  }

  lemma ChdirRead(done: seq<Node>, dir: Option<string>)
    requires dir != Some("&&")
    ensures Steps(ParseState(BEGIN, None, map[], done), NodeTokens(Cd, Chdir(dir))) ==
      Some(ParseState(CHDIR, Some(Chdir(dir)), map[], done))
  {
    var s := ParseState(BEGIN, None, map[], done);
    assert EnvMatch("cd").None? by { KeyPrefixAll("cd"); }
    if dir.Some? {
      TwoSteps(s, "cd", dir.value);
      assert ["cd"] + [dir.value] == ["cd", dir.value];
    } else {
      StepsOne(s, "cd");
      assert ["cd"] + [] == ["cd"];
    }
  }

  lemma CommandRead(done: seq<Node>, src: Source, n: Node)
    requires n.Command? && NodeOk(n) && Writes(src, n)
    ensures Steps(ParseState(BEGIN, None, map[], done), NodeTokens(src, n)) ==
      Some(ParseState(COMMAND, Some(Unpiped(n)), map[], done))
  {
    var s := ParseState(BEGIN, None, map[], done);
    var named, c := s.(env := n.env), NewCommand(n.argv[0], n.env);
    var head, tail := AssignTokens(src.assigns) + [n.argv[0]], ItemsTokens(src.items);
    assert Steps(s, head) == Some(ParseState(COMMAND, Some(c), map[], done)) by {
      NoMatchIff(n.argv[0]);
      AssignsRead(s, src.assigns);
      StepsOne(named, n.argv[0]);
      StepsAppend(s, AssignTokens(src.assigns), [n.argv[0]]);
    }
    assert Steps(ParseState(COMMAND, Some(c), map[], done), tail) ==
      Some(ParseState(COMMAND, Some(Unpiped(n)), map[], done)) by {
      WrittenItemsFit(src, n, c);
      ItemsRead(ParseState(COMMAND, Some(c), map[], done), c, src.items);
    }
    StepsAppend(s, head, tail);
  }

  lemma WrittenItemsFit(src: Source, n: Node, c: Node)
    requires n.Command? && NodeOk(n) && Writes(src, n) && c == NewCommand(n.argv[0], n.env)
    ensures ItemsFit(c, src.items) && WithItems(c, src.items) == Unpiped(n)
  {
    forall i | 0 <= i < |src.items| && src.items[i].Arg? ensures !IsOperatorToken(src.items[i].word) {
      ArgsAreArgItems(src.items, i);
      var j :| 0 <= j < |n.argv[1..]| && n.argv[1..][j] == src.items[i].word;
      assert n.argv[j + 1] == n.argv[1..][j];
    }
    assert [n.argv[0]] + n.argv[1..] == n.argv;
  }

  lemma KeyPrefixAll(w: string)
    requires forall i :: 0 <= i < |w| ==> IsKeyChar(w[i])
    ensures KeyPrefix(w) == |w|
  {
  }

  lemma OperatorRead(done: seq<Node>, n: Node, op: Node)
    requires NodeOk(n) && Joined(n, op)
    ensures Steps(ParseState(if n.Command? then COMMAND else CHDIR, Some(Unpiped(n)), map[], done), NodeTokens(Cd, op)) ==
      Some(ParseState(BEGIN, None, map[], done + [n, op]))
  {
    var s := ParseState(if n.Command? then COMMAND else CHDIR, Some(Unpiped(n)), map[], done);
    StepsOne(s, NodeTokens(Cd, op)[0]);
  }

  // ---- The round trip

  ghost predicate WritesPairs(done: seq<Node>, srcs: seq<Source>) {
    |done| == 2 * |srcs| && forall i :: 0 <= i < |srcs| ==> Writes(srcs[i], done[2 * i])
  }

  lemma {:induction false} PairsRead(done: seq<Node>, srcs: seq<Source>)
    requires DoneOk(done) && WritesPairs(done, srcs)
    ensures Steps(START, PrintPairs(done, srcs)) == Some(ParseState(BEGIN, None, map[], done))
  {
    if srcs != [] {
      var n := |srcs| - 1;
      FewerPairs(done, srcs);
      PairsRead(done[..2 * n], srcs[..n]);
      PairAppended(PrintPairs(done[..2 * n], srcs[..n]), done[..2 * n], srcs[n], done[2 * n], done[2 * n + 1]);
      assert done == done[..2 * n] + [done[2 * n], done[2 * n + 1]];
    } else {
      assert done == [];
    }
  }

  lemma PairAppended(before: seq<string>, done: seq<Node>, src: Source, n: Node, op: Node)
    requires Steps(START, before) == Some(ParseState(BEGIN, None, map[], done))
    requires NodeOk(n) && Writes(src, n) && Joined(n, op)
    ensures Steps(START, before + NodeTokens(src, n) + NodeTokens(Cd, op)) ==
      Some(ParseState(BEGIN, None, map[], done + [n, op]))
  {
    NodeRead(done, src, n);
    OperatorRead(done, n, op);
    StepsAppend(START, before, NodeTokens(src, n));
    StepsAppend(START, before + NodeTokens(src, n), NodeTokens(Cd, op));
  }

  lemma FewerPairs(done: seq<Node>, srcs: seq<Source>)
    requires DoneOk(done) && WritesPairs(done, srcs) && srcs != []
    ensures var n := |srcs| - 1;
      && DoneOk(done[..2 * n]) && WritesPairs(done[..2 * n], srcs[..n])
      && NodeOk(done[2 * n]) && Writes(srcs[n], done[2 * n]) && Joined(done[2 * n], done[2 * n + 1])
  {
    var n := |srcs| - 1;
    forall i | 0 <= i < 2 * n ensures SlotOk(done[..2 * n], i) {
      assert SlotOk(done, i);
    }
    assert SlotOk(done, 2 * n);
  }

  lemma AllButLast(p: seq<Node>, srcs: seq<Source>)
    requires WellFormed(p) && WritesAll(p, srcs)
    ensures var n := |srcs| - 1;
      && DoneOk(p[..2 * n]) && WritesPairs(p[..2 * n], srcs[..n])
      && NodeOk(p[2 * n]) && Writes(srcs[n], p[2 * n]) && Unpiped(p[2 * n]) == p[2 * n]
  {
    var n := |srcs| - 1;
    forall i | 0 <= i < 2 * n ensures SlotOk(p[..2 * n], i) {
      assert SlotOk(p, i);
    }
    forall i | 0 <= i < n ensures Writes(srcs[i], p[..2 * n][2 * i]) {
      assert WritesAt(p, srcs, i);
    }
    assert SlotOk(p, 2 * n) && WritesAt(p, srcs, n);
  }

  function ReadMode(last: Node): Mode {
    if last.Command? then COMMAND else CHDIR
  }

  /** The state in which a written pipeline leaves the parser. */
  lemma PrintedReads(p: seq<Node>, srcs: seq<Source>)
    requires WellFormed(p) && WritesAll(p, srcs)
    ensures Steps(START, Print(p, srcs)) ==
      Some(ParseState(ReadMode(p[|p| - 1]), Some(p[|p| - 1]), map[], p[..|p| - 1]))
  {
    var n := |srcs| - 1;
    var init, last := p[..2 * n], p[2 * n];
    AllButLast(p, srcs);
    PairsRead(init, srcs[..n]);
    NodeRead(init, srcs[n], last);
    StepsAppend(START, PrintPairs(init, srcs[..n]), NodeTokens(srcs[n], last));
  }

  /** Parsing undoes printing, however the printer orders assignments and redirections. */
  lemma ParseUndoesPrint(p: seq<Node>, srcs: seq<Source>)
    requires WellFormed(p) && WritesAll(p, srcs)
    ensures Parse(Print(p, srcs)) == Some(p)
  {
    PrintedReads(p, srcs);
    assert p[..|p| - 1] + [p[|p| - 1]] == p;
  }

  // ---- Every well-formed pipeline can be written

  lemma {:induction false} SomeAssigns(base: map<string, string>, env: map<string, string>)
    returns (assigns: seq<Assignment>)
    ensures Assigned(base, assigns) == base + env
    ensures Binds(env, assigns)
    decreases |env|
  {
    if env == map[] {
      assert base + env == base;
      return [];
    }
    var k :| k in env;
    var others := SomeAssigns(base[k := env[k]], env - {k});
    assigns := [Assignment(k, env[k], false)] + others;
    assert assigns[1..] == others;
    OneMoreKey(base, env, k);
    BindsOneMore(env, k, others);
  }

  ghost predicate Binds(env: map<string, string>, assigns: seq<Assignment>) {
    forall i :: 0 <= i < |assigns| ==> assigns[i].key in env && assigns[i].value == env[assigns[i].key]
  }

  lemma OneMoreKey(base: map<string, string>, env: map<string, string>, k: string)
    requires k in env
    ensures base[k := env[k]] + (env - {k}) == base + env
  {
  }

  lemma BindsOneMore(env: map<string, string>, k: string, others: seq<Assignment>)
    requires k in env && Binds(env - {k}, others)
    ensures Binds(env, [Assignment(k, env[k], false)] + others)
  {
  }

  /** The error redirection of a command, then in front of it the output redirection,
      the input redirection and the words. */
  function ErrItems(n: Node): (items: seq<Item>)
    requires n.Command?
    ensures Args(items) == [] && Inputs(items) == [] && Outputs(items) == []
    ensures Errors(items) == if n.stderr.ErrInherit? then [] else [n.stderr]
  {
    match n.stderr
    case ErrInherit => []
    case ErrFile(f) =>
      CollectOne(Err(f), WordOf);
      CollectOne(Err(f), InputOf);
      CollectOne(Err(f), OutputOf);
      CollectOne(Err(f), ErrorOf);
      [Err(f)]
    case ErrStdout => [ErrToOut]
  }

  function OutItems(n: Node): (items: seq<Item>)
    requires n.Command?
    ensures Args(items) == [] && Inputs(items) == [] && Errors(items) == Errors(ErrItems(n))
    ensures Outputs(items) == if n.stdout.OutFile? then [n.stdout.name] else []
  {
    if n.stdout.OutFile? then [Out(n.stdout.name)] + ErrItems(n) else ErrItems(n)
  }

  function InItems(n: Node): (items: seq<Item>)
    requires n.Command?
    ensures Args(items) == [] && Outputs(items) == Outputs(OutItems(n)) && Errors(items) == Errors(ErrItems(n))
    ensures Inputs(items) == if n.stdin.Some? then [n.stdin.value] else []
  {
    if n.stdin.Some? then [In(n.stdin.value)] + OutItems(n) else OutItems(n)
  }

  function WordItems(words: seq<string>, tail: seq<Item>): (items: seq<Item>)
    ensures Args(items) == words + Args(tail) && Inputs(items) == Inputs(tail)
    ensures Outputs(items) == Outputs(tail) && Errors(items) == Errors(tail)
  {
    if words == [] then tail else [Arg(words[0])] + WordItems(words[1..], tail)
  }

  lemma SomeSource(n: Node) returns (src: Source)
    requires NodeOk(n)
    ensures Writes(src, n)
  {
    if n.Chdir? {
      return Cd;
    }
    var assigns := SomeAssigns(map[], n.env);
    src := Simple(assigns, WordItems(n.argv[1..], InItems(n)));
    assert map[] + n.env == n.env;
    assert n.argv[1..] + [] == n.argv[1..];
  }

  lemma {:induction false} SomeSources(p: seq<Node>) returns (srcs: seq<Source>)
    requires WellFormed(p)
    ensures WritesAll(p, srcs)
    decreases |p|
  {
    assert SlotOk(p, 0);
    var src := SomeSource(p[0]);
    if |p| == 1 {
      srcs := [src];
    } else {
      forall i | 0 <= i < |p[2..]| ensures SlotOk(p[2..], i) {
        assert SlotOk(p, i + 2);
      }
      var rest := SomeSources(p[2..]);
      srcs := [src] + rest;
      forall i | 0 <= i < |srcs| ensures WritesAt(p, srcs, i) {
        if i > 0 { assert WritesAt(p[2..], rest, i - 1); }
      }
    }
  }

  /** The pipelines the parser can produce are exactly the well-formed ones. */
  lemma ParserRange(p: seq<Node>)
    ensures WellFormed(p) <==> exists tokens :: Parse(tokens) == Some(p)
  {
    if WellFormed(p) {
      var srcs := SomeSources(p);
      ParseUndoesPrint(p, srcs);
    }
    if tokens :| Parse(tokens) == Some(p) {
      ParsedIsWellFormed(tokens);
    }
  }
}
