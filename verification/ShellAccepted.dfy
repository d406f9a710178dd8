/** The token lists the shell parser accepts are exactly the written pipelines, apart from one
    redirection sign left dangling at the end. */
module ShellAccepted {
  import opened Sequences
  import opened ShellRoundTrip
  import opened ShellSyntax
  import opened Wrappers

  // ---- How the tokens read so far were written

  /** How the nodes committed and the one under construction were written. */
  datatype History = History(srcs: seq<Source>, assigns: seq<Assignment>, items: seq<Item>)

  /** The redirection sign whose file has not come yet. */
  function Awaiting(mode: Mode): seq<string> {
    match mode case STDOUT => [">"] case STDERR => ["2>"] case STDIN => ["<"] case _ => []
  }

  ghost predicate Explains(h: History, s: ParseState, tokens: seq<string>) {
    && WritesPairs(s.done, h.srcs)
    && match s.mode
       case BEGIN => AssignsExplained(h, s, tokens)
       case CHDIR => CdExplained(h, s, tokens)
       case _ => CommandExplained(h, s, tokens)
  }

  ghost predicate AssignsExplained(h: History, s: ParseState, tokens: seq<string>)
    requires WritesPairs(s.done, h.srcs)
  {
    && s.current.None? && AllValid(h.assigns) && s.env == Assigned(map[], h.assigns)
    && tokens == PrintPairs(s.done, h.srcs) + AssignTokens(h.assigns)
  }

  ghost predicate CdExplained(h: History, s: ParseState, tokens: seq<string>)
    requires WritesPairs(s.done, h.srcs)
  {
    && s.current.Some? && s.current.value.Chdir? && s.env == map[]
    && tokens == PrintPairs(s.done, h.srcs) + NodeTokens(Cd, s.current.value)
  }

  ghost predicate CommandExplained(h: History, s: ParseState, tokens: seq<string>)
    requires WritesPairs(s.done, h.srcs)
  {
    && s.current.Some? && s.current.value.Command? && !s.current.value.stdout.OutPipe? && s.env == map[]
    && Writes(Simple(h.assigns, h.items), s.current.value)
    && tokens == PrintPairs(s.done, h.srcs) + NodeTokens(Simple(h.assigns, h.items), s.current.value) + Awaiting(s.mode)
  }

  // ---- One more of each

  lemma {:induction false} AssignTokensOneMore(assigns: seq<Assignment>, a: Assignment)
    ensures AssignTokens(assigns + [a]) == AssignTokens(assigns) + [a.Token()]
  {
    if assigns == [] {
      assert [a][1..] == [] && [] + [a] == [a];
    } else {
      assert (assigns + [a])[1..] == assigns[1..] + [a];
      AssignTokensOneMore(assigns[1..], a);
    }
  }

  lemma {:induction false} AssignedOneMore(env: map<string, string>, assigns: seq<Assignment>, a: Assignment)
    ensures Assigned(env, assigns + [a]) == Assigned(env, assigns)[a.key := a.value]
    decreases |assigns|
  {
    if assigns == [] {
      assert [a][1..] == [] && [] + [a] == [a];
    } else {
      assert (assigns + [a])[1..] == assigns[1..] + [a];
      AssignedOneMore(env[assigns[0].key := assigns[0].value], assigns[1..], a);
    }
  }

  lemma {:induction false} AssignedKeeps(env: map<string, string>, assigns: seq<Assignment>)
    ensures env.Keys <= Assigned(env, assigns).Keys
    ensures assigns != [] ==> Assigned(env, assigns) != map[]
    decreases |assigns|
  {
    if assigns != [] {
      var more := env[assigns[0].key := assigns[0].value];
      AssignedKeeps(more, assigns[1..]);
      assert assigns[0].key in more.Keys;
    }
  }

  lemma {:induction false} ItemsTokensOneMore(items: seq<Item>, item: Item)
    ensures ItemsTokens(items + [item]) == ItemsTokens(items) + ItemTokens(item)
  {
    if items == [] {
      assert [item][1..] == [] && [] + [item] == [item];
    } else {
      assert (items + [item])[1..] == items[1..] + [item];
      ItemsTokensOneMore(items[1..], item);
      Regroup(ItemTokens(items[0]), ItemsTokens(items[1..]), ItemTokens(item));
    }
  }

  lemma {:induction false} CollectOneMore<A>(items: seq<Item>, item: Item, f: Item -> Option<A>)
    ensures Collect(items + [item], f) == Collect(items, f) + if f(item).None? then [] else [f(item).value]
  {
    if items == [] {
      assert [] + [item] == [item];
      CollectOne(item, f);
    } else {
      assert (items + [item])[1..] == items[1..] + [item];
      CollectOneMore(items[1..], item, f);
    }
  }

  lemma FoundOneMore(items: seq<Item>, item: Item)
    ensures var more := items + [item];
      && Args(more) == Args(items) + (if item.Arg? then [item.word] else [])
      && Inputs(more) == Inputs(items) + (if item.In? then [item.file] else [])
      && Outputs(more) == Outputs(items) + (if item.Out? then [item.file] else [])
      && Errors(more) == Errors(items) + (if ErrorOf(item).Some? then [ErrorOf(item).value] else [])
  {
    CollectOneMore(items, item, WordOf);
    CollectOneMore(items, item, InputOf);
    CollectOneMore(items, item, OutputOf);
    CollectOneMore(items, item, ErrorOf);
  }

  ghost predicate LeftOpen(c: Node, item: Item)
    requires c.Command?
  {
    && (item.In? ==> c.stdin.None?) && (item.Out? ==> c.stdout.OutInherit?)
    && (item.Err? || item.ErrToOut? ==> c.stderr.ErrInherit?)
  }

  /** A command with one item more. */
  lemma WritesOneMore(assigns: seq<Assignment>, items: seq<Item>, item: Item, c: Node)
    requires c.Command? && LeftOpen(c, item) && Writes(Simple(assigns, items), c)
    ensures Writes(Simple(assigns, items + [item]), WithItem(c, item))
  {
    FoundOneMore(items, item);
    if item.Arg? { assert (c.argv + [item.word])[1..] == c.argv[1..] + [item.word]; }
  }

  lemma TokensOneMore(assigns: seq<Assignment>, items: seq<Item>, item: Item, c: Node)
    requires c.Command? && c.argv != []
    ensures NodeTokens(Simple(assigns, items + [item]), WithItem(c, item)) ==
      NodeTokens(Simple(assigns, items), c) + ItemTokens(item)
  {
    ItemsTokensOneMore(items, item);
    Regroup(AssignTokens(assigns) + [c.argv[0]], ItemsTokens(items), ItemTokens(item));
  }

  lemma PairsOneMore(done: seq<Node>, srcs: seq<Source>, src: Source, n: Node, op: Node)
    requires WritesPairs(done, srcs) && Writes(src, n)
    ensures WritesPairs(done + [n, op], srcs + [src])
    ensures PrintPairs(done + [n, op], srcs + [src]) == PrintPairs(done, srcs) + NodeTokens(src, n) + NodeTokens(Cd, op)
  {
    var longer, more := done + [n, op], srcs + [src];
    assert longer[..2 * |srcs|] == done && more[..|srcs|] == srcs;
    forall i | 0 <= i < |more| ensures Writes(more[i], longer[2 * i]) {
      if i < |srcs| { assert Writes(srcs[i], done[2 * i]); }
    }
  }

  // ---- One more token

  lemma AssignmentSeen(h: History, s: ParseState, tokens: seq<string>, token: string) returns (next: History)
    requires s.mode == BEGIN && Explains(h, s, tokens) && EnvMatch(token).Some?
    ensures Explains(next, Step(s, token).value, tokens + [token])
  {
    MatchedIsAssignment(token);
    var (k, v) := EnvMatch(token).value;
    var a := Assignment(k, v, token != k + "=" + v);
    AssignTokensOneMore(h.assigns, a);
    AssignedOneMore(map[], h.assigns, a);
    assert k + "=" + v + "" == k + "=" + v;
    assert a.Token() == token;
    next := h.(assigns := h.assigns + [a]);
    Regroup(PrintPairs(s.done, h.srcs), AssignTokens(h.assigns), [token]);
  }

  lemma CdSeen(h: History, s: ParseState, tokens: seq<string>)
    requires s.mode == BEGIN && Explains(h, s, tokens) && s.env == map[]
    ensures Explains(h, s.(current := Some(Chdir(None)), mode := CHDIR), tokens + ["cd"])
  {
    AssignedKeeps(map[], h.assigns);
    var before := PrintPairs(s.done, h.srcs);
    assert h.assigns == [] && before + [] == before;
    assert ["cd"] + [] == ["cd"];
  }

  lemma NameSeen(h: History, s: ParseState, tokens: seq<string>, token: string, next: History)
    requires s.mode == BEGIN && Explains(h, s, tokens) && next == h.(items := [])
    ensures Explains(next, s.(current := Some(NewCommand(token, s.env)), env := map[], mode := COMMAND), tokens + [token])
  {
    var before, prefix, c := PrintPairs(s.done, h.srcs), AssignTokens(h.assigns), NewCommand(token, s.env);
    var src := Simple(next.assigns, next.items);
    assert Writes(src, c);
    assert NodeTokens(src, c) == prefix + [token] + [];
    assert tokens + [token] == before + (prefix + [token] + []) + [];
  }

  lemma CdGoesOn(h: History, s: ParseState, tokens: seq<string>, token: string) returns (next: History)
    requires s.mode == CHDIR && Explains(h, s, tokens) && Step(s, token).Some?
    ensures Explains(next, Step(s, token).value, tokens + [token])
  {
    var n := s.current.value;
    if token == "&&" {
      next := History(h.srcs + [Cd], [], []);
      PairsOneMore(s.done, h.srcs, Cd, n, And);
      assert tokens + [token] == PrintPairs(s.done, h.srcs) + NodeTokens(Cd, n) + NodeTokens(Cd, And) + [];
    } else {
      next := h;
      assert ["cd"] + [] + [token] == ["cd"] + [token];
    }
  }

  lemma ItemAdded(h: History, s: ParseState, tokens: seq<string>, token: string, item: Item)
    requires s.mode in {COMMAND, STDOUT, STDERR, STDIN} && Explains(h, s, tokens)
    requires ItemTokens(item) == Awaiting(s.mode) + [token]
    requires LeftOpen(s.current.value, item)
    ensures Explains(h.(items := h.items + [item]),
                     s.(current := Some(WithItem(s.current.value, item)), mode := COMMAND), tokens + [token])
  {
    var c := s.current.value;
    var before, written := PrintPairs(s.done, h.srcs), NodeTokens(Simple(h.assigns, h.items), c);
    WritesOneMore(h.assigns, h.items, item, c);
    TokensOneMore(h.assigns, h.items, item, c);
    FileAppended(before, written, Awaiting(s.mode), token);
  }

  lemma FileAppended(before: seq<string>, written: seq<string>, sign: seq<string>, token: string)
    ensures (before + written + sign) + [token] == before + (written + (sign + [token])) + []
  {
  }

  lemma FileNamed(h: History, s: ParseState, tokens: seq<string>, token: string) returns (next: History)
    requires s.mode in {STDOUT, STDERR, STDIN} && Explains(h, s, tokens) && Step(s, token).Some?
    ensures Explains(next, Step(s, token).value, tokens + [token])
  {
    var item := match s.mode case STDOUT => Out(token) case STDERR => Err(token) case _ => In(token);
    next := h.(items := h.items + [item]);
    ItemAdded(h, s, tokens, token, item);
  }

  lemma ItemSeen(h: History, s: ParseState, tokens: seq<string>, token: string) returns (next: History)
    requires s.mode == COMMAND && Explains(h, s, tokens) && Step(s, token).Some?
    requires token !in [">", "2>", "<", "|", "&&", "||"]
    ensures Explains(next, Step(s, token).value, tokens + [token])
  {
    var item := if token == "2>&1" then ErrToOut else Arg(token);
    next := h.(items := h.items + [item]);
    ItemAdded(h, s, tokens, token, item);
    assert Step(s, token) == Some(s.(current := Some(WithItem(s.current.value, item)), mode := COMMAND));
  }

  lemma OperatorSeen(h: History, s: ParseState, tokens: seq<string>, n: Node, op: Node, token: string)
    returns (next: History)
    requires s.mode == COMMAND && Explains(h, s, tokens)
    requires n.Command? && n.argv == s.current.value.argv && NodeTokens(Cd, op) == [token]
    requires Writes(Simple(h.assigns, h.items), n)
    ensures Explains(next, ParseState(BEGIN, None, map[], s.done + [n, op]), tokens + [token])
  {
    var src := Simple(h.assigns, h.items);
    var before, written := PrintPairs(s.done, h.srcs), NodeTokens(src, n);
    assert NodeTokens(src, s.current.value) == written;
    next := History(h.srcs + [src], [], []);
    PairsOneMore(s.done, h.srcs, src, n, op);
    OperatorAppended(before, written, [token]);
  }

  lemma OperatorAppended(before: seq<string>, written: seq<string>, op: seq<string>)
    ensures (before + written + []) + op == before + written + op + []
  {
  }

  lemma StillWrites(src: Source, c: Node)
    requires c.Command? && c.stdout.OutInherit? && Writes(src, c)
    ensures Writes(src, c.(stdout := OutPipe))
  {
  }

  lemma PipeSeen(h: History, s: ParseState, tokens: seq<string>) returns (next: History)
    requires s.mode == COMMAND && Explains(h, s, tokens) && s.current.value.stdout.OutInherit?
    ensures var piped := s.current.value.(stdout := OutPipe);
      Explains(next, ParseState(BEGIN, None, map[], s.done + [piped, Pipe]), tokens + ["|"])
  {
    StillWrites(Simple(h.assigns, h.items), s.current.value);
    next := OperatorSeen(h, s, tokens, s.current.value.(stdout := OutPipe), Pipe, "|");
  }

  lemma ConnectorSeen(h: History, s: ParseState, tokens: seq<string>, token: string) returns (next: History)
    requires s.mode == COMMAND && Explains(h, s, tokens) && token in ["&&", "||"]
    ensures var op := if token == "&&" then And else Or;
      Explains(next, ParseState(BEGIN, None, map[], s.done + [s.current.value, op]), tokens + [token])
  {
    next := OperatorSeen(h, s, tokens, s.current.value, if token == "&&" then And else Or, token);
  }

  lemma OperatorStep(s: ParseState, c: Node, token: string)
    requires s.mode == COMMAND && s.current == Some(c) && c.Command? && s.env == map[] && Step(s, token).Some?
    ensures token == "|" ==>
      c.stdout.OutInherit?
      && Step(s, token) == Some(ParseState(BEGIN, None, map[], s.done + [c.(stdout := OutPipe), Pipe]))
    ensures token == "&&" ==> Step(s, token) == Some(ParseState(BEGIN, None, map[], s.done + [c, And]))
    ensures token == "||" ==> Step(s, token) == Some(ParseState(BEGIN, None, map[], s.done + [c, Or]))
  {
  }

  lemma SignSeen(h: History, s: ParseState, tokens: seq<string>, token: string)
    requires s.mode == COMMAND && Explains(h, s, tokens) && token in [">", "2>", "<"]
    ensures Step(s, token).Some? && Explains(h, Step(s, token).value, tokens + [token])
  {
    var written := PrintPairs(s.done, h.srcs) + NodeTokens(Simple(h.assigns, h.items), s.current.value);
    assert tokens == written;
  }

  lemma CommandGoesOn(h: History, s: ParseState, tokens: seq<string>, token: string) returns (next: History)
    requires s.mode == COMMAND && Explains(h, s, tokens) && Step(s, token).Some?
    ensures Explains(next, Step(s, token).value, tokens + [token])
  {
    OperatorStep(s, s.current.value, token);
    if token == "|" {
      next := PipeSeen(h, s, tokens);
    } else if token in ["&&", "||"] {
      next := ConnectorSeen(h, s, tokens, token);
    } else if token in [">", "2>", "<"] {
      SignSeen(h, s, tokens, token);
      next := h;
    } else {
      next := ItemSeen(h, s, tokens, token);
    }
  }

  lemma BeginGoesOn(h: History, s: ParseState, tokens: seq<string>, token: string) returns (next: History)
    requires s.mode == BEGIN && Explains(h, s, tokens) && Step(s, token).Some?
    ensures Explains(next, Step(s, token).value, tokens + [token])
  {
    if EnvMatch(token).Some? {
      next := AssignmentSeen(h, s, tokens, token);
    } else if token == "cd" {
      CdSeen(h, s, tokens);
      next := h;
    } else {
      next := h.(items := []);
      NameSeen(h, s, tokens, token, next);
    }
  }

  lemma TokenExplained(h: History, s: ParseState, tokens: seq<string>, token: string) returns (next: History)
    requires Explains(h, s, tokens) && Step(s, token).Some?
    ensures Explains(next, Step(s, token).value, tokens + [token])
  {
    match s.mode
    case BEGIN => next := BeginGoesOn(h, s, tokens, token);
    case CHDIR => next := CdGoesOn(h, s, tokens, token);
    case COMMAND => next := CommandGoesOn(h, s, tokens, token);
    case _ => next := FileNamed(h, s, tokens, token);
  }

  lemma {:induction false} TokensExplained(h: History, s: ParseState, before: seq<string>, tokens: seq<string>)
    returns (last: History)
    requires Explains(h, s, before) && Steps(s, tokens).Some?
    ensures Explains(last, Steps(s, tokens).value, before + tokens)
    decreases |tokens|
  {
    if tokens == [] {
      last := h;
      assert before + [] == before;
    } else {
      var next := TokenExplained(h, s, before, tokens[0]);
      last := TokensExplained(next, Step(s, tokens[0]).value, before + [tokens[0]], tokens[1..]);
      FirstMoved(before, tokens);
    }
  }

  lemma FirstMoved(before: seq<string>, tokens: seq<string>)
    requires tokens != []
    ensures before + [tokens[0]] + tokens[1..] == before + tokens
  {
  }

  lemma NothingExplained() returns (h: History)
    ensures Explains(h, START, [])
  {
    h := History([], [], []);
  }

  // ---- Accepted token lists

  /** What may be left over after a pipeline: nothing, or a redirection sign after a command. */
  ghost predicate Dangling(p: seq<Node>, rest: seq<string>) {
    rest == [] || (p != [] && p[|p| - 1].Command? && rest in [[">"], ["2>"], ["<"]])
  }

  ghost predicate WrittenAs(p: seq<Node>, srcs: seq<Source>, rest: seq<string>, tokens: seq<string>) {
    WritesAll(p, srcs) && Dangling(p, rest) && tokens == Print(p, srcs) + rest
  }

  lemma AcceptedIsWritten(tokens: seq<string>) returns (srcs: seq<Source>, rest: seq<string>)
    requires Parse(tokens).Some?
    ensures WrittenAs(Parse(tokens).value, srcs, rest, tokens)
  {
    var s := Steps(START, tokens).value;
    var h0 := NothingExplained();
    var h := TokensExplained(h0, START, [], tokens);
    assert [] + tokens == tokens;
    srcs, rest := FinishExplained(h, s, tokens);
  }

  lemma FinishExplained(h: History, s: ParseState, tokens: seq<string>) returns (srcs: seq<Source>, rest: seq<string>)
    requires Explains(h, s, tokens) && s.current.Some?
    ensures WrittenAs(s.done + [s.current.value], srcs, rest, tokens)
  {
    var n := s.current.value;
    var src := if s.mode == CHDIR then Cd else Simple(h.assigns, h.items);
    srcs, rest := h.srcs + [src], Awaiting(s.mode);
    LastWritten(s.done, h.srcs, n, src);
    assert tokens == PrintPairs(s.done, h.srcs) + NodeTokens(src, n) + rest;
  }

  lemma LastWritten(done: seq<Node>, srcs: seq<Source>, n: Node, src: Source)
    requires WritesPairs(done, srcs) && Writes(src, n)
    ensures WritesAll(done + [n], srcs + [src])
    ensures Print(done + [n], srcs + [src]) == PrintPairs(done, srcs) + NodeTokens(src, n)
  {
    var p, more := done + [n], srcs + [src];
    assert p[..2 * |srcs|] == done && more[..|srcs|] == srcs;
    forall i | 0 <= i < |more| ensures WritesAt(p, more, i) {
      if i < |srcs| { assert Writes(srcs[i], done[2 * i]); }
    }
  }

  lemma SignIgnored(s: ParseState, n: Node, sign: string)
    requires s.mode == COMMAND && s.current == Some(n) && n.Command? && sign in [">", "2>", "<"]
    ensures Steps(s, [sign]).Some? && Finish(Steps(s, [sign]).value) == Some(s.done + [n])
  {
    StepsOne(s, sign);
  }

  lemma WrittenIsAccepted(p: seq<Node>, srcs: seq<Source>, rest: seq<string>, tokens: seq<string>)
    requires WellFormed(p) && WrittenAs(p, srcs, rest, tokens)
    ensures Parse(tokens) == Some(p)
  {
    if rest == [] {
      ParseUndoesPrint(p, srcs);
      assert tokens == Print(p, srcs);
    } else {
      var last := p[|p| - 1];
      PrintedReads(p, srcs);
      StepsAppend(START, Print(p, srcs), rest);
      SignIgnored(ParseState(COMMAND, Some(last), map[], p[..|p| - 1]), last, rest[0]);
      assert rest == [rest[0]] && p[..|p| - 1] + [last] == p;
    }
  }

  /** The parser yields a pipeline for exactly the token lists that write it: assignments, perhaps
      with a final newline, the name, then words and redirections in any order. A last redirection
      sign without a file is ignored. */
  lemma AcceptedIffWritten(tokens: seq<string>, p: seq<Node>)
    ensures Parse(tokens) == Some(p) <==> WellFormed(p) && exists srcs, rest :: WrittenAs(p, srcs, rest, tokens)
  {
    if Parse(tokens) == Some(p) {
      ParsedIsWellFormed(tokens);
      var srcs, rest := AcceptedIsWritten(tokens);
    }
    if WellFormed(p) {
      if srcs, rest :| WrittenAs(p, srcs, rest, tokens) {
        WrittenIsAccepted(p, srcs, rest, tokens);
      }
    }
  }
}
