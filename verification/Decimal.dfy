/** Decimal numerals as the formatter prints them and int reads them. */
module Decimal {

  predicate IsDigit(c: char) {
    '0' <= c <= '9'
  }

  ghost predicate AllDigits(s: string) {
    forall i :: 0 <= i < |s| ==> IsDigit(s[i])
  }

  function DigitChar(d: nat): (c: char)
    requires d < 10
    ensures IsDigit(c) && DigitValue(c) == d
  {
    ['0', '1', '2', '3', '4', '5', '6', '7', '8', '9'][d]
  }

  function DigitValue(c: char): int {
    c as int - '0' as int
  }

  function Show(n: nat): (s: string)
    ensures s != "" && AllDigits(s)
  {
    if n < 10 then [DigitChar(n)] else Show(n / 10) + [DigitChar(n % 10)]
  }

  function Read(s: string): int {
    if s == "" then 0 else 10 * Read(s[..|s| - 1]) + DigitValue(s[|s| - 1])
  }

  lemma {:induction false} ReadShow(n: nat)
    ensures Read(Show(n)) == n
  {
    if n >= 10 {
      ReadShow(n / 10);
      assert Show(n)[..|Show(n)| - 1] == Show(n / 10);
    } else {
      assert Show(n)[..0] == "";
    }
  }

  lemma {:induction false} ShowHead(n: nat)
    ensures Show(n)[0] == '0' <==> n == 0
  {
    if n >= 10 { ShowHead(n / 10); }
  }

  lemma {:induction false} ReadHead(s: string)
    requires AllDigits(s) && s != "" && s[0] != '0'
    ensures Read(s) >= 1
  {
    if |s| > 1 {
      ReadHead(s[..|s| - 1]);
    } else {
      assert s[..0] == "";
    }
  }

  lemma {:induction false} ReadNonNegative(s: string)
    requires AllDigits(s)
    ensures Read(s) >= 0
  {
    if s != "" { ReadNonNegative(s[..|s| - 1]); }
  }

  /** How many leading digits a string has. */
  function DigitSpan(s: string): (n: nat)
    ensures n <= |s| && AllDigits(s[..n]) && (n < |s| ==> !IsDigit(s[n]))
  {
    if s == "" || !IsDigit(s[0]) then 0
    else
      var n := DigitSpan(s[1..]);
      assert s[..n + 1] == [s[0]] + s[1..][..n];
      n + 1
  }

  lemma {:induction false} DigitSpanUpTo(digits: string, rest: string)
    requires AllDigits(digits) && (rest == "" || !IsDigit(rest[0]))
    ensures DigitSpan(digits + rest) == |digits|
  {
    if digits == "" {
      assert digits + rest == rest;
    } else {
      assert (digits + rest)[0] == digits[0] && (digits + rest)[1..] == digits[1..] + rest;
      DigitSpanUpTo(digits[1..], rest);
    }
  }

  lemma {:induction false} ShowRead(s: string)
    requires AllDigits(s) && s != "" && s[0] != '0'
    ensures Read(s) >= 0 && Show(Read(s)) == s
  {
    var init, c := s[..|s| - 1], s[|s| - 1];
    assert s == init + [c];
    if init == "" {
      assert DigitChar(DigitValue(c)) == c;
    } else {
      ReadHead(init);
      ShowRead(init);
      assert Read(s) / 10 == Read(init) && Read(s) % 10 == DigitValue(c);
      assert DigitChar(DigitValue(c)) == c;
    }
  }

  /** Printing gives back the digits read exactly when there is no zero in front. */
  lemma ShowReadIff(s: string)
    requires AllDigits(s) && s != ""
    ensures Read(s) >= 0 && (Show(Read(s)) == s <==> s == "0" || s[0] != '0')
  {
    ReadNonNegative(s);
    if s[0] != '0' {
      ShowRead(s);
    } else if |s| == 1 {
      assert s == "0" && s[..0] == "";
    } else {
      assert |Show(0)| == 1;
      ShowHead(Read(s));
    }
  }
}
