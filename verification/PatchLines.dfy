/** What each line of a diff is read as, for every line: the patterns said as prefixes and numerals. */
module PatchLines {
  import opened Decimal
  import opened PatchRoundTrip
  import opened PatchText
  import opened Wrappers

  ghost predicate Numeral(digits: string, n: int) {
    digits != "" && AllDigits(digits) && Read(digits) == n
  }

  /** A chunk header with these four numerals, whatever comes after it. */
  ghost predicate IsHeader(s: string, a: string, b: string, c: string, d: string) {
    exists rest :: s == "@@ -" + a + ("," + b + (" +" + c + ("," + d + (" @@" + rest))))
  }

  lemma NumberFound(prefix: string, s: string) returns (digits: string)
    requires NumberAfter(prefix, s).Some?
    ensures Numeral(digits, NumberAfter(prefix, s).value.0) && s == prefix + digits + NumberAfter(prefix, s).value.1
  {
    var rest := s[|prefix|..];
    var n := DigitSpan(rest);
    digits := rest[..n];
    assert s == prefix + rest && rest == digits + rest[n..];
  }

  lemma NumeralRead(prefix: string, digits: string, rest: string)
    requires digits != "" && AllDigits(digits) && (rest == "" || !IsDigit(rest[0]))
    ensures Read(digits) >= 0 && NumberAfter(prefix, prefix + digits + rest) == Some((Read(digits), rest))
  {
    var s := prefix + digits + rest;
    ReadNonNegative(digits);
    assert s[|prefix|..] == digits + rest;
    DigitSpanUpTo(digits, rest);
    assert (digits + rest)[..|digits|] == digits && (digits + rest)[|digits|..] == rest;
  }

  lemma HeaderParts(s: string) returns (r1: string, r2: string, r3: string, r4: string)
    requires HeaderNumbers(s).Some?
    ensures var (m, n, p, q) := HeaderNumbers(s).value;
      && NumberAfter("@@ -", s) == Some((m, r1)) && NumberAfter(",", r1) == Some((n, r2))
      && NumberAfter(" +", r2) == Some((p, r3)) && NumberAfter(",", r3) == Some((q, r4))
    ensures " @@" <= r4
  {
    r1 := NumberAfter("@@ -", s).value.1;
    r2 := NumberAfter(",", r1).value.1;
    r3 := NumberAfter(" +", r2).value.1;
    r4 := NumberAfter(",", r3).value.1;
  }

  lemma HeaderFound(s: string, m: nat, n: nat, p: nat, q: nat)
    returns (a: string, b: string, c: string, d: string)
    requires HeaderNumbers(s) == Some((m, n, p, q))
    ensures IsHeader(s, a, b, c, d) && Numeral(a, m) && Numeral(b, n) && Numeral(c, p) && Numeral(d, q)
  {
    var r1, r2, r3, r4 := HeaderParts(s);
    a := NumberFound("@@ -", s);
    b := NumberFound(",", r1);
    c := NumberFound(" +", r2);
    d := NumberFound(",", r3);
    EndsHeader(s, a, b, c, d, r4);
  }

  lemma EndsHeader(s: string, a: string, b: string, c: string, d: string, rest: string)
    requires s == "@@ -" + a + ("," + b + (" +" + c + ("," + d + rest))) && " @@" <= rest
    ensures IsHeader(s, a, b, c, d)
  {
    assert rest == " @@" + rest[3..];
  }

  lemma NumeralsRead(a: string, b: string, c: string, d: string, rest: string)
    requires Numeral(a, Read(a)) && Numeral(b, Read(b)) && Numeral(c, Read(c)) && Numeral(d, Read(d)) && " @@" <= rest
    ensures Read(a) >= 0 && Read(b) >= 0 && Read(c) >= 0 && Read(d) >= 0
    ensures HeaderNumbers("@@ -" + a + ("," + b + (" +" + c + ("," + d + rest)))) ==
      Some((Read(a), Read(b), Read(c), Read(d)))
  {
    var r3 := "," + d + rest;
    var r2 := " +" + c + r3;
    var r1 := "," + b + r2;
    NumeralRead("@@ -", a, r1);
    NumeralRead(",", b, r2);
    NumeralRead(" +", c, r3);
    NumeralRead(",", d, rest);
  }

  /** The header pattern matches exactly the headers, leading zeros allowed, with their numbers. */
  lemma HeaderIff(s: string, m: nat, n: nat, p: nat, q: nat)
    ensures HeaderNumbers(s) == Some((m, n, p, q)) <==>
      exists a, b, c, d ::
        IsHeader(s, a, b, c, d) && Numeral(a, m) && Numeral(b, n) && Numeral(c, p) && Numeral(d, q)
  {
    if HeaderNumbers(s) == Some((m, n, p, q)) {
      var a, b, c, d := HeaderFound(s, m, n, p, q);
    }
    if a, b, c, d :|
      IsHeader(s, a, b, c, d) && Numeral(a, m) && Numeral(b, n) && Numeral(c, p) && Numeral(d, q)
    {
      var rest :| s == "@@ -" + a + ("," + b + (" +" + c + ("," + d + (" @@" + rest))));
      NumeralsRead(a, b, c, d, " @@" + rest);
    }
  }

  // ---- Whole lines

  lemma PrefixOfEnded(prefix: string, t: string, end: string)
    requires OneLine(prefix) && end in ["", "\n"]
    ensures prefix <= t + end <==> prefix <= t
  {
    if prefix <= t { assert (t + end)[..|prefix|] == t[..|prefix|]; }
    if end == "\n" {
      if prefix <= t + end { PrefixOfLine(prefix, t); }
    } else {
      assert t + end == t;
    }
  }

  lemma AfterLine(prefix: string, t: string, end: string)
    requires OneLine(prefix) && OneLine(t) && end in ["", "\n"]
    ensures After(prefix, t + end) == if prefix <= t then Some(t[|prefix|..]) else None
  {
    PrefixOfEnded(prefix, t, end);
    if prefix <= t {
      assert (t + end)[|prefix|..] == t[|prefix|..] + end;
      LineEnded(t[|prefix|..], end);
    }
  }

  lemma LineEnded(t: string, end: string)
    requires OneLine(t) && end in ["", "\n"]
    ensures ToEnd(t + end) == Some(t)
  {
    if end == "\n" { assert (t + end)[..|t|] == t; } else { assert t + end == t; }
  }

  /** What a line is read as, with or without its newline: a file name, a chunk header, a removed,
      added or context line, or an error, tried in this order. */
  lemma LineReadAs(t: string, end: string)
    requires OneLine(t) && end in ["", "\n"]
    ensures Classify(t + end) ==
      if "--- " <= t then FileSrc(t[4..])
      else if "+++ " <= t then FileDst(t[4..])
      else if HeaderNumbers(t + end).Some? then
        Header(HeaderNumbers(t + end).value.0, HeaderNumbers(t + end).value.2)
      else if "-" <= t then Body(Line(SRC, t[1..]))
      else if "+" <= t then Body(Line(DST, t[1..]))
      else if " " <= t then Body(Line(BOTH, t[1..]))
      else Bad
  {
    AfterLine("--- ", t, end);
    AfterLine("+++ ", t, end);
    AfterLine("-", t, end);
    AfterLine("+", t, end);
    AfterLine(" ", t, end);
  }
}
