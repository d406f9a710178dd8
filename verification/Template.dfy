/** Substituting variables in a template by escaping, rewriting and formatting, against the
    direct replacement it is meant to perform. */
module Template {
  import opened Sequences
  import opened Wrappers

  datatype Result = Ok(text: string) | KeyError(name: string) | BadFormat

  type Dict = map<string, string>

  /** Which characters the word class of the pattern contains. All that matters about it:
      it has none of the four characters with a meaning of their own here. */
  ghost predicate WordClass(word: char -> bool) {
    !word('%') && !word('@') && !word('(') && !word(')')
  }

  function Escape(code: string): string {
    if code == "" then "" else (if code[0] == '%' then "%%" else [code[0]]) + Escape(code[1..])
  }

  function WordSpan(word: char -> bool, s: string): (n: nat)
    ensures n <= |s| && (forall i :: 0 <= i < n ==> word(s[i])) && (n < |s| ==> !word(s[n]))
  {
    if s == "" || !word(s[0]) then 0 else 1 + WordSpan(word, s[1..])
  }

  /** The name of an at-sign, one or more word characters, and an at-sign at the start of s. */
  function MatchAt(word: char -> bool, s: string): (m: Option<string>)
    ensures m.Some? ==> m.value != "" && |m.value| + 2 <= |s|
  {
    if s == "" || s[0] != '@' then None
    else
      var n := WordSpan(word, s[1..]);
      if n == 0 || n + 1 >= |s| || s[n + 1] != '@' then None else Some(s[1..n + 1])
  }

  /** Replace every leftmost, non-overlapping match by a format directive. */
  function Rewrite(word: char -> bool, s: string): string
    decreases |s|
  {
    if s == "" then ""
    else
      var m := MatchAt(word, s);
      if m.Some? then "%(" + m.value + ")s" + Rewrite(word, s[|m.value| + 2..])
      else [s[0]] + Rewrite(word, s[1..])
  }

  function Names(word: char -> bool, s: string): seq<string>
    decreases |s|
  {
    if s == "" then []
    else
      var m := MatchAt(word, s);
      if m.Some? then [m.value] + Names(word, s[|m.value| + 2..]) else Names(word, s[1..])
  }

  function Prepend(prefix: string, r: Result): Result {
    if r.Ok? then Ok(prefix + r.text) else r
  }

  /** How far the first closing parenthesis is. */
  function CloseAt(s: string): (n: nat)
    ensures n <= |s| && (n < |s| ==> s[n] == ')') && ')' !in s[..n]
  {
    if s == "" || s[0] == ')' then 0
    else
      var n := CloseAt(s[1..]);
      assert s[..n + 1] == [s[0]] + s[1..][..n];
      n + 1
  }

  /** The formatting operator: a doubled percent sign, and named string directives. */
  function Format(s: string, di: Dict): Result
    decreases |s|
  {
    if s == "" then Ok("")
    else if s[0] != '%' then Prepend([s[0]], Format(s[1..], di))
    else if |s| > 1 && s[1] == '%' then Prepend("%", Format(s[2..], di))
    else if |s| > 1 && s[1] == '(' then
      var n := CloseAt(s[2..]);
      var name := s[2..n + 2];
      if n + 3 >= |s| || s[n + 3] != 's' then BadFormat
      else if name !in di then KeyError(name)
      else Prepend(di[name], Format(s[n + 4..], di))
    else BadFormat
  }

  /** The reference: replace each leftmost, non-overlapping match by its value and leave
      every other character, percent signs included, as it is. */
  function Direct(word: char -> bool, code: string, di: Dict): Result
    decreases |code|
  {
    if code == "" then Ok("")
    else
      var m := MatchAt(word, code);
      if m.None? then Prepend([code[0]], Direct(word, code[1..], di))
      else if m.value !in di then KeyError(m.value)
      else Prepend(di[m.value], Direct(word, code[|m.value| + 2..], di))
  }

  // ---- Escaping neither makes nor breaks a match

  lemma {:induction false} EscapeConcat(a: string, b: string)
    ensures Escape(a + b) == Escape(a) + Escape(b)
  {
    if a == "" {
      assert a + b == b;
    } else {
      assert (a + b)[0] == a[0] && (a + b)[1..] == a[1..] + b;
      EscapeConcat(a[1..], b);
    }
  }

  lemma {:induction false} EscapeWords(word: char -> bool, s: string)
    requires WordClass(word) && forall i :: 0 <= i < |s| ==> word(s[i])
    ensures Escape(s) == s
  {
    if s != "" { EscapeWords(word, s[1..]); }
  }

  lemma EscapeHead(s: string)
    requires s != ""
    ensures Escape(s) != "" && Escape(s)[0] == s[0]
  {
  }

  lemma {:induction false} SpanOfConcat(word: char -> bool, a: string, b: string)
    requires (forall i :: 0 <= i < |a| ==> word(a[i])) && (b == "" || !word(b[0]))
    ensures WordSpan(word, a + b) == |a|
  {
    if a == "" {
      assert a + b == b;
    } else {
      assert (a + b)[0] == a[0] && (a + b)[1..] == a[1..] + b;
      SpanOfConcat(word, a[1..], b);
    }
  }

  /** The text after an at-sign: its word characters, then the rest, escaped or not. */
  lemma EscapedSpan(word: char -> bool, t: string) returns (w: string, rest: string)
    requires WordClass(word)
    ensures t == w + rest && Escape(t) == w + Escape(rest)
    ensures WordSpan(word, t) == |w| == WordSpan(word, Escape(t)) && w == t[..|w|]
  {
    var n := WordSpan(word, t);
    w, rest := t[..n], t[n..];
    assert t == w + rest;
    EscapeConcat(w, rest);
    EscapeWords(word, w);
    if rest != "" { EscapeHead(rest); }
    SpanOfConcat(word, w, Escape(rest));
  }

  /** An at-sign followed by a maximal word: a match exactly if the word is not empty and
      an at-sign comes next. */
  lemma MatchForm(word: char -> bool, w: string, rest: string)
    requires (forall i :: 0 <= i < |w| ==> word(w[i])) && (rest == "" || !word(rest[0]))
    ensures var s := "@" + (w + rest);
      && MatchAt(word, s) == (if w != "" && rest != "" && rest[0] == '@' then Some(w) else None)
      && (rest != "" ==> s[|w| + 2..] == rest[1..])
  {
    var s := "@" + (w + rest);
    assert s[1..] == w + rest;
    SpanOfConcat(word, w, rest);
    if rest != "" {
      assert s[|w| + 1] == rest[0];
      assert s[1..|w| + 1] == w;
    }
  }

  /** The pattern matches at the start of a text exactly an at-sign, a name and an at-sign. */
  lemma MatchIff(word: char -> bool, s: string, name: string)
    requires WordClass(word)
    ensures MatchAt(word, s) == Some(name) <==>
      name != "" && (forall i :: 0 <= i < |name| ==> word(name[i])) && "@" + name + "@" <= s
  {
    if MatchAt(word, s) == Some(name) {
      SpanIsWord(word, s[1..], name);
      assert s[..|name| + 2] == "@" + name + "@";
    }
    if name != "" && (forall i :: 0 <= i < |name| ==> word(name[i])) && "@" + name + "@" <= s {
      var rest := s[|name| + 1..];
      assert s[|name| + 1] == ("@" + name + "@")[|name| + 1] == '@';
      assert s == "@" + (name + rest);
      MatchForm(word, name, rest);
    }
  }

  lemma EscapedMatch(word: char -> bool, s: string)
    requires WordClass(word) && s != "" && s[0] == '@'
    ensures MatchAt(word, Escape(s)) == MatchAt(word, s)
    ensures MatchAt(word, s).Some? ==>
      var n := |MatchAt(word, s).value| + 2;
      n <= |Escape(s)| && Escape(s)[n..] == Escape(s[n..])
  {
    var w, rest := EscapedSpan(word, s[1..]);
    assert s == "@" + (w + rest);
    assert Escape(s) == "@" + (w + Escape(rest));
    SpanIsWord(word, s[1..], w);
    if rest != "" {
      EscapeHead(rest);
      assert s[1..][|w|] == rest[0];
      MarksEscapeThemselves(rest);
    }
    MatchForm(word, w, rest);
    MatchForm(word, w, Escape(rest));
  }

  lemma SpanIsWord(word: char -> bool, t: string, w: string)
    requires |w| == WordSpan(word, t) && w == t[..|w|]
    ensures forall i :: 0 <= i < |w| ==> word(w[i])
  {
  }

  lemma MarksEscapeThemselves(s: string)
    requires s != ""
    ensures s[0] == '@' ==> Escape(s)[1..] == Escape(s[1..])
  {
  }

  // ---- The theorem

  lemma {:induction false} FormatDirective(name: string, rest: string, di: Dict)
    requires ')' !in name
    ensures Format("%(" + name + ")s" + rest, di) ==
      if name in di then Prepend(di[name], Format(rest, di)) else KeyError(name)
  {
    var s := "%(" + name + ")s" + rest;
    assert s[2..] == name + (")s" + rest);
    CloseAfter(name, ")s" + rest);
    assert s[2..|name| + 2] == name && s[|name| + 3] == 's' && s[|name| + 4..] == rest;
  }

  lemma {:induction false} CloseAfter(name: string, rest: string)
    requires ')' !in name && rest != "" && rest[0] == ')'
    ensures CloseAt(name + rest) == |name|
  {
    if name == "" {
      assert name + rest == rest;
    } else {
      assert (name + rest)[0] == name[0] && (name + rest)[1..] == name[1..] + rest;
      assert name[0] in name;
      CloseAfter(name[1..], rest);
    }
  }

  /** Formatting the escaped and rewritten template is direct replacement: same text, or
      the same missing name, for every template and every dictionary. */
  lemma {:induction false} EscapingIsDirect(word: char -> bool, code: string, di: Dict)
    requires WordClass(word)
    ensures Format(Rewrite(word, Escape(code)), di) == Direct(word, code, di)
    decreases |code|
  {
    if code == "" {
    } else if code[0] == '@' && MatchAt(word, code).Some? {
      MatchStep(word, code, di);
    } else {
      EscapingIsDirect(word, code[1..], di);
      if code[0] == '%' {
        PercentStep(word, code);
        assert ("%%" + Rewrite(word, Escape(code[1..])))[2..] == Rewrite(word, Escape(code[1..]));
      } else {
        PlainStep(word, code);
        assert ([code[0]] + Rewrite(word, Escape(code[1..])))[1..] == Rewrite(word, Escape(code[1..]));
      }
    }
  }

  lemma RewritePlain(word: char -> bool, c: char, rest: string)
    requires c != '@'
    ensures Rewrite(word, [c] + rest) == [c] + Rewrite(word, rest)
    ensures Names(word, [c] + rest) == Names(word, rest)
  {
    assert ([c] + rest)[1..] == rest;
  }

  lemma PercentStep(word: char -> bool, code: string)
    requires WordClass(word) && code != "" && code[0] == '%'
    ensures Rewrite(word, Escape(code)) == "%%" + Rewrite(word, Escape(code[1..]))
    ensures Names(word, Escape(code)) == Names(word, Escape(code[1..]))
  {
    RewriteTwoPlain(word, '%', Escape(code[1..]));
    assert ['%', '%'] == "%%";
  }

  lemma RewriteTwoPlain(word: char -> bool, c: char, rest: string)
    requires c != '@'
    ensures Rewrite(word, [c, c] + rest) == [c, c] + Rewrite(word, rest)
    ensures Names(word, [c, c] + rest) == Names(word, rest)
  {
    var one, two := [c] + rest, [c, c] + rest;
    var rewritten := Rewrite(word, rest);
    assert two == [c] + one;
    RewritePlain(word, c, one);
    RewritePlain(word, c, rest);
    Regroup([c], [c], rewritten);
    assert [c] + [c] == [c, c];
  }

  lemma PlainStep(word: char -> bool, code: string)
    requires WordClass(word) && code != "" && code[0] != '%' && MatchAt(word, code).None?
    ensures Rewrite(word, Escape(code)) == [code[0]] + Rewrite(word, Escape(code[1..]))
    ensures Names(word, Escape(code)) == Names(word, Escape(code[1..]))
  {
    assert Escape(code)[1..] == Escape(code[1..]);
    if code[0] == '@' { EscapedMatch(word, code); }
  }

  /** One match taken off the front, in the three functions that look for it. */
  lemma MatchAhead(word: char -> bool, s: string, name: string, rest: string, di: Dict)
    requires MatchAt(word, s) == Some(name) && rest == s[|name| + 2..]
    ensures Rewrite(word, s) == "%(" + name + ")s" + Rewrite(word, rest)
    ensures Names(word, s) == [name] + Names(word, rest)
    ensures Direct(word, s, di) == if name in di then Prepend(di[name], Direct(word, rest, di)) else KeyError(name)
  {
  }

  lemma MatchStep(word: char -> bool, code: string, di: Dict)
    requires WordClass(word) && MatchAt(word, code).Some?
    ensures Format(Rewrite(word, Escape(code)), di) == Direct(word, code, di)
    decreases |code|, 0
  {
    var name := MatchAt(word, code).value;
    var rest := code[|name| + 2..];
    EscapedMatch(word, code);
    MatchAhead(word, code, name, rest, di);
    MatchAhead(word, Escape(code), name, Escape(rest), di);
    EscapingIsDirect(word, rest, di);
    NameIsWord(word, code);
    FormatDirective(name, Rewrite(word, Escape(rest)), di);
  }

  lemma NameIsWord(word: char -> bool, s: string)
    requires WordClass(word) && MatchAt(word, s).Some?
    ensures ')' !in MatchAt(word, s).value
  {
    var name := MatchAt(word, s).value;
    forall i | 0 <= i < |name| ensures word(name[i]) {
      assert name[i] == s[1..][i];
    }
  }

  lemma NoMatchAhead(word: char -> bool, s: string)
    requires s != "" && MatchAt(word, s).None?
    ensures Names(word, s) == Names(word, s[1..])
  {
  }

  lemma {:induction false} EscapedNames(word: char -> bool, code: string)
    requires WordClass(word)
    ensures Names(word, Escape(code)) == Names(word, code)
    decreases |code|
  {
    if code == "" {
    } else if MatchAt(word, code).Some? {
      var name := MatchAt(word, code).value;
      var rest := code[|name| + 2..];
      EscapedMatch(word, code);
      MatchAhead(word, code, name, rest, map[]);
      MatchAhead(word, Escape(code), name, Escape(rest), map[]);
      EscapedNames(word, rest);
    } else {
      NoMatchAhead(word, code);
      EscapedNames(word, code[1..]);
      if code[0] == '%' { PercentStep(word, code); } else { PlainStep(word, code); }
    }
  }

  ghost predicate Covers(di: Dict, names: seq<string>) {
    forall i :: 0 <= i < |names| ==> names[i] in di
  }

  /** Substitution succeeds exactly when the dictionary covers the template's names. */
  lemma {:induction false} OkIffCovered(word: char -> bool, code: string, di: Dict)
    ensures Direct(word, code, di).Ok? <==> Covers(di, Names(word, code))
    decreases |code|
  {
    if code == "" {
    } else if MatchAt(word, code).None? {
      OkIffCovered(word, code[1..], di);
    } else {
      var name := MatchAt(word, code).value;
      var rest := code[|name| + 2..];
      OkIffCovered(word, rest, di);
      CoversOneMore(di, name, Names(word, rest));
    }
  }

  lemma CoversOneMore(di: Dict, name: string, names: seq<string>)
    ensures Covers(di, [name] + names) <==> name in di && Covers(di, names)
  {
    if Covers(di, [name] + names) {
      assert ([name] + names)[0] in di;
      forall i | 0 <= i < |names| ensures names[i] in di {
        assert ([name] + names)[i + 1] == names[i];
      }
    }
  }

  // ---- The function of a substitution task and the dictionary it shares

  /** The environment lookup: the name itself or, when that is empty, its upper case. */
  function Lookup(env: string -> string, upper: string -> string, name: string): string {
    if env(name) != "" then env(name) else env(upper(name))
  }

  ghost function Filled(env: string -> string, upper: string -> string, names: seq<string>): Dict {
    map name | name in names :: Lookup(env, upper, name)
  }

  /** The dictionary a template is formatted with: the one given or, when that is empty,
      one filled from the environment with the template's own names. */
  ghost function DictFor(word: char -> bool, dict: Dict, env: string -> string, upper: string -> string,
                         code: string): Dict
  {
    if dict == map[] then Filled(env, upper, Names(word, code)) else dict
  }

  /** A task generator. Its tasks share its dictionary object. */
  class Generator {
    var dict: Dict

    constructor (dict: Dict)
      ensures this.dict == dict
    {
      this.dict := dict;
    }

    method SubstFunc(word: char -> bool, env: string -> string, upper: string -> string,
                     input: string) returns (r: Result)
      requires WordClass(word)
      modifies this
      ensures dict == DictFor(word, old(dict), env, upper, input)
      ensures old(dict) != map[] ==> dict == old(dict)
      ensures old(dict) == map[] ==>
        && (forall name :: name in dict <==> name in Names(word, input))
        && (forall name :: name in dict && env(name) != "" ==> dict[name] == env(name))
        && (forall name :: name in dict && env(name) == "" ==> dict[name] == env(upper(name)))
      ensures r == Direct(word, input, dict)
    {
      var code := Escape(input);
      var s := Rewrite(word, code);
      if dict == map[] {
        var names := Names(word, code);
        EscapedNames(word, input);
        for k := 0 to |names|
          invariant dict == Filled(env, upper, names[..k])
        {
          assert names[..k + 1] == names[..k] + [names[k]];
          dict := dict[names[k] := Lookup(env, upper, names[k])];
        }
        assert names[..|names|] == names;
      }
      EscapingIsDirect(word, input, dict);
      r := Format(s, dict);
    }
  }

  /** A generator without a dictionary of its own never fails on its first template. On a
      second one it fails exactly when that needs a name the first did not have, unless
      the first had no names at all. */
  lemma SecondTemplate(word: char -> bool, env: string -> string, upper: string -> string, first: string,
                       second: string)
    requires WordClass(word)
    ensures var d1 := DictFor(word, map[], env, upper, first);
      var d2 := DictFor(word, d1, env, upper, second);
      && Direct(word, first, d1).Ok?
      && (Direct(word, second, d2).Ok? <==>
          || Names(word, first) == []
          || forall i :: 0 <= i < |Names(word, second)| ==> Names(word, second)[i] in Names(word, first))
  {
    var names := Names(word, first);
    var d1 := DictFor(word, map[], env, upper, first);
    var d2 := DictFor(word, d1, env, upper, second);
    OkIffCovered(word, first, d1);
    OkIffCovered(word, second, d2);
    if names != [] {
      assert names[0] in d1;
    }
  }

  lemma OneName(word: char -> bool, name: string)
    requires WordClass(word) && |name| == 1 && word(name[0])
    ensures MatchAt(word, "@" + name + "@") == Some(name) && Names(word, "@" + name + "@") == [name]
  {
    var s := "@" + name + "@";
    MatchForm(word, name, "@");
    assert s == "@" + (name + "@");
    assert s[|name| + 2..] == "";
    MatchAhead(word, s, name, "", map[]);
  }

  /** After a template with one name, one with another name is missing it, whatever the
      environment. */
  lemma SecondTemplateFails(word: char -> bool, env: string -> string, upper: string -> string, a: string, b: string)
    requires WordClass(word) && |a| == |b| == 1 && word(a[0]) && word(b[0]) && a != b
    ensures var first, second := "@" + a + "@", "@" + b + "@";
      var d1 := DictFor(word, map[], env, upper, first);
      && Direct(word, first, d1).Ok?
      && Direct(word, second, DictFor(word, d1, env, upper, second)) == KeyError(b)
  {
    var first, second := "@" + a + "@", "@" + b + "@";
    OneName(word, a);
    OneName(word, b);
    SecondTemplate(word, env, upper, first, second);
    var d1 := DictFor(word, map[], env, upper, first);
    assert a in d1 && b !in d1;
    assert second[|b| + 2..] == "";
    MatchAhead(word, second, b, "", d1);
  }
}
