/** Fixed-width binary numerals: conversion through hexadecimal, and the ripple-carry counter
    that lists all of one width. */
module BinaryStrings {
  import opened Wrappers

  datatype Outcome = Ok(digits: string) | ValueError | KeyError

  const HEX := "0123456789abcdef"

  /** The four binary digits a hexadecimal digit is mapped to; other characters have no key. */
  function HexToBin(c: char): Option<string> {
    match c
    case '0' => Some("0000") case '1' => Some("0001") case '2' => Some("0010") case '3' => Some("0011")
    case '4' => Some("0100") case '5' => Some("0101") case '6' => Some("0110") case '7' => Some("0111")
    case '8' => Some("1000") case '9' => Some("1001") case 'a' => Some("1010") case 'b' => Some("1011")
    case 'c' => Some("1100") case 'd' => Some("1101") case 'e' => Some("1110") case 'f' => Some("1111")
    case _ => None
  }

  function HexDigits(i: nat): string {
    if i < 16 then [HEX[i]] else HexDigits(i / 16) + [HEX[i % 16]]
  }

  /** hex(i) without its first two characters: "0x" of a natural number, "-0" of a negative one. */
  function HexTail(i: int): string {
    if i >= 0 then HexDigits(i) else "x" + HexDigits(-i)
  }

  function MapDigits(s: string): Option<string> {
    if s == "" then Some("")
    else
      var init := MapDigits(s[..|s| - 1]);
      var last := HexToBin(s[|s| - 1]);
      if init.Some? && last.Some? then Some(init.value + last.value) else None
  }

  /** Where the slice bound -n falls in a sequence of the given length. */
  function SliceBound(n: int, length: nat): (k: nat)
    ensures k <= length
  {
    if n > 0 then (if n <= length then length - n else 0)
    else if -n <= length then -n else length
  }

  function Zeros(n: nat): string {
    seq(n, _ => '0')
  }

  /** Shrink or zero-pad to the width; an error when a one would be cut off. */
  function Fit(mapped: string, n: int): Outcome {
    var k := SliceBound(n, |mapped|);
    if '1' in mapped[..k] then ValueError
    else Ok(Zeros(if n > |mapped| - k then n - (|mapped| - k) else 0) + mapped[k..])
  }

  function Int2Bin(i: int, n: int): Outcome {
    var mapped := MapDigits(HexTail(i));
    if mapped.None? then KeyError else Fit(mapped.value, n)
  }

  // ---- What a string of binary digits means

  predicate IsBit(c: char) {
    c == '0' || c == '1'
  }

  ghost predicate AllBits(s: string) {
    forall i :: 0 <= i < |s| ==> IsBit(s[i])
  }

  function Bit(c: char): (b: nat)
    ensures b <= 1
  {
    if c == '1' then 1 else 0
  }

  function Value(s: string): nat {
    if s == "" then 0 else 2 * Value(s[..|s| - 1]) + Bit(s[|s| - 1])
  }

  function Bin2Int(s: string): Option<nat> {
    if s != "" && forall i :: 0 <= i < |s| ==> IsBit(s[i]) then Some(Value(s)) else None
  }

  function Pow2(n: nat): (p: nat)
    ensures p > 0
  {
    if n == 0 then 1 else 2 * Pow2(n - 1)
  }

  lemma {:induction false} ValueAppend(a: string, b: string)
    ensures Value(a + b) == Value(a) * Pow2(|b|) + Value(b)
  {
    if b == "" {
      assert a + b == a;
    } else {
      var init := b[..|b| - 1];
      ValueAppend(a, init);
      assert (a + b)[..|a + b| - 1] == a + init;
      assert Value(a) * Pow2(|b|) == 2 * (Value(a) * Pow2(|init|));
    }
  }

  lemma {:induction false} ValueBelow(s: string)
    ensures Value(s) < Pow2(|s|)
  {
    if s != "" { ValueBelow(s[..|s| - 1]); }
  }

  lemma {:induction false} ZeroValue(s: string)
    requires AllBits(s)
    ensures Value(s) == 0 <==> '1' !in s
  {
    if s != "" {
      var init := s[..|s| - 1];
      ZeroValue(init);
      assert s == init + [s[|s| - 1]];
    }
  }

  /** Width and value determine the string. */
  lemma {:induction false} SameValueSame(s: string, t: string)
    requires AllBits(s) && AllBits(t) && |s| == |t| && Value(s) == Value(t)
    ensures s == t
  {
    if s != "" {
      SameValueSame(s[..|s| - 1], t[..|t| - 1]);
      assert s == s[..|s| - 1] + [s[|s| - 1]] && t == t[..|t| - 1] + [t[|t| - 1]];
    }
  }

  // ---- The conversion is exact

  lemma FourBits(b: string)
    requires |b| == 4
    ensures Value(b) == 8 * Bit(b[0]) + 4 * Bit(b[1]) + 2 * Bit(b[2]) + Bit(b[3])
  {
    assert b[..3][..2] == b[..2] && b[..2][..1] == b[..1] && b[..1][..0] == "";
    assert Value(b[..1]) == Bit(b[0]);
    assert Value(b[..2]) == 2 * Bit(b[0]) + Bit(b[1]);
  }

  /** The table's entry for a hexadecimal digit is its four binary digits. */
  predicate EntryRight(d: nat)
    requires d < 16
  {
    var b := HexToBin(HEX[d]);
    && b.Some? && |b.value| == 4 && (forall i :: 0 <= i < 4 ==> IsBit(b.value[i]))
    && 8 * Bit(b.value[0]) + 4 * Bit(b.value[1]) + 2 * Bit(b.value[2]) + Bit(b.value[3]) == d
  }

  lemma LowEntries(d: nat)
    requires d < 8
    ensures EntryRight(d)
  {
  }

  lemma HighEntries(d: nat)
    requires 8 <= d < 16
    ensures EntryRight(d)
  {
  }

  lemma Nibble(d: nat) returns (b: string)
    requires d < 16
    ensures HexToBin(HEX[d]) == Some(b) && |b| == 4 && AllBits(b) && Value(b) == d
  {
    if d < 8 { LowEntries(d); } else { HighEntries(d); }
    b := HexToBin(HEX[d]).value;
    FourBits(b);
  }

  lemma MapOneMore(s: string, c: char, last: string)
    requires MapDigits(s).Some? && HexToBin(c) == Some(last)
    ensures MapDigits(s + [c]) == Some(MapDigits(s).value + last)
  {
    assert (s + [c])[..|s|] == s;
  }

  /** The digits a natural number is mapped to are those of a binary numeral of it. */
  lemma {:induction false} Mapping(i: nat) returns (b: string)
    ensures MapDigits(HexDigits(i)) == Some(b) && b != "" && AllBits(b) && Value(b) == i
  {
    if i < 16 {
      b := MapSmall(i);
    } else {
      var init := Mapping(i / 16);
      b := MapNext(i, init);
    }
  }

  lemma MapSmall(i: nat) returns (b: string)
    requires i < 16
    ensures MapDigits(HexDigits(i)) == Some(b) && b != "" && AllBits(b) && Value(b) == i
  {
    b := Nibble(i);
    MapOneMore("", HEX[i], b);
    assert "" + [HEX[i]] == HexDigits(i) && "" + b == b;
  }

  lemma MapNext(i: nat, init: string) returns (b: string)
    requires i >= 16 && MapDigits(HexDigits(i / 16)) == Some(init) && AllBits(init) && Value(init) == i / 16
    ensures MapDigits(HexDigits(i)) == Some(b) && b != "" && AllBits(b) && Value(b) == i
  {
    var high, low := i / 16, i % 16;
    var digits := HexDigits(high);
    var last := Nibble(low);
    assert HexDigits(i) == digits + [HEX[low]];
    MapOneMore(digits, HEX[low], last);
    b := init + last;
    AppendNibble(init, last);
  }

  lemma AppendNibble(init: string, last: string)
    requires |last| == 4
    ensures Value(init + last) == 16 * Value(init) + Value(last)
  {
    ValueAppend(init, last);
    assert Pow2(4) == 16;
  }

  lemma {:induction false} NoKeyForX(s: string)
    requires s != "" && s[0] == 'x'
    ensures MapDigits(s).None?
  {
    if |s| > 1 { NoKeyForX(s[..|s| - 1]); }
  }

  lemma {:induction false} ZerosInFront(m: nat, s: string)
    requires AllBits(s)
    ensures AllBits(Zeros(m) + s) && Value(Zeros(m) + s) == Value(s)
  {
    ZeroValue(Zeros(m));
    ValueAppend(Zeros(m), s);
  }

  lemma CutKeepsValue(b: string, k: nat)
    requires AllBits(b) && k <= |b| && '1' !in b[..k]
    ensures Value(b[k..]) == Value(b)
  {
    assert b == b[..k] + b[k..];
    ValueAppend(b[..k], b[k..]);
    ZeroValue(b[..k]);
    assert 0 * Pow2(|b[k..]|) == 0;
  }

  lemma FitKeepsValue(b: string, n: int)
    requires AllBits(b)
    ensures Fit(b, n).Ok? ==> AllBits(Fit(b, n).digits) && Value(Fit(b, n).digits) == Value(b)
  {
    if Fit(b, n).Ok? {
      var k := SliceBound(n, |b|);
      CutKeepsValue(b, k);
      ZerosInFront(if n > |b| - k then n - (|b| - k) else 0, b[k..]);
    }
  }

  lemma FitsIffSmall(b: string, n: nat)
    requires AllBits(b) && n >= 1
    ensures Fit(b, n).Ok? <==> Value(b) < Pow2(n)
    ensures Fit(b, n).Ok? ==> |Fit(b, n).digits| == n
  {
    FitKeepsValue(b, n);
    if Fit(b, n).Ok? {
      ValueBelow(Fit(b, n).digits);
    } else {
      var k := SliceBound(n, |b|);
      assert b == b[..k] + b[k..];
      ValueAppend(b[..k], b[k..]);
      ZeroValue(b[..k]);
      AtLeastProduct(Value(b[..k]), Pow2(|b[k..]|));
    }
  }

  /** Whatever the width asked for, a result is a binary numeral of the number converted; a
      negative number has none. */
  lemma ResultMeansNumber(i: int, n: int)
    ensures i < 0 <==> Int2Bin(i, n).KeyError?
    ensures Int2Bin(i, n).Ok? ==> AllBits(Int2Bin(i, n).digits) && Value(Int2Bin(i, n).digits) == i
  {
    if i < 0 {
      NoKeyForX(HexTail(i));
    } else {
      var b := Mapping(i);
      FitKeepsValue(b, n);
    }
  }

  /** For a positive width: the number converts exactly when it fits, to that many digits. */
  lemma ConvertsIffFits(i: int, n: nat)
    requires n >= 1
    ensures Int2Bin(i, n).Ok? <==> 0 <= i < Pow2(n)
    ensures Int2Bin(i, n).ValueError? <==> i >= Pow2(n)
    ensures Int2Bin(i, n).Ok? ==> |Int2Bin(i, n).digits| == n
  {
    if i < 0 {
      NoKeyForX(HexTail(i));
    } else {
      var b := Mapping(i);
      FitsIffSmall(b, n);
    }
  }

  lemma AtLeastProduct(a: nat, p: nat)
    requires a >= 1
    ensures a * p >= p
  {
    assert a * p == (a - 1) * p + p;
  }

  /** What is promised: the n-digit numeral of i where there is one, and otherwise an error. */
  predicate KeepsPromise(i: int, n: int) {
    match Int2Bin(i, n)
    case Ok(digits) => |digits| == n && Value(digits) == i
    case _ => n < 0 || !(0 <= i < Pow2(n))
  }

  /** Zero is never rejected: its mapped digits are four zeros, whatever is cut off. */
  lemma ZeroAccepted(n: int)
    ensures Int2Bin(0, n).Ok?
    ensures n <= 0 ==> Int2Bin(0, n).digits == Zeros(4 - SliceBound(n, 4))
  {
    assert HexDigits(0) == "0";
    MapOneMore("", '0', "0000");
    assert "" + ['0'] == "0" && "" + "0000" == "0000";
    var k := SliceBound(n, 4);
    assert "0000"[k..] == Zeros(4 - k);
    assert Zeros(0) + Zeros(4 - k) == Zeros(4 - k);
  }

  /** The promise holds for every number at exactly the positive widths. */
  lemma PromiseIffPositiveWidth(n: int)
    ensures (forall i :: KeepsPromise(i, n)) <==> n >= 1
  {
    if n >= 1 {
      forall i ensures KeepsPromise(i, n) {
        ConvertsIffFits(i, n);
        ResultMeansNumber(i, n);
      }
    } else {
      ZeroAccepted(n);
      assert !KeepsPromise(0, n);
    }
  }

  /** A width of zero rejects nothing: the truncation test looks at an empty slice, and a
      nonempty string comes back. */
  lemma ZeroWidthAccepts(i: nat)
    ensures Int2Bin(i, 0).Ok? && Int2Bin(i, 0).digits != ""
  {
    var b := Mapping(i);
    assert b[..0] == "";
  }

  lemma OneMapped()
    ensures MapDigits(HexTail(1)) == Some("0001")
  {
    assert HexDigits(1) == "1";
    MapOneMore("", '1', "0001");
    assert "" + ['1'] == "1" && "" + "0001" == "0001";
  }

  lemma OneCut()
    ensures Fit("0001", -1) == Ok("001")
  {
    assert "0001"[..1] == "0" && "0001"[1..] == "001" && Zeros(0) + "001" == "001";
  }

  /** A negative width cuts off leading digits instead: 1 at width -1 gives three digits. */
  lemma NegativeWidthCuts()
    ensures Int2Bin(1, -1) == Ok("001") && !KeepsPromise(1, -1)
  {
    OneMapped();
    OneCut();
  }

  /** Reading back what was converted. */
  lemma ReadBack(i: int, n: nat)
    requires n >= 1 && 0 <= i < Pow2(n)
    ensures Int2Bin(i, n).Ok? && Bin2Int(Int2Bin(i, n).digits) == Some(i)
  {
    ConvertsIffFits(i, n);
    ResultMeansNumber(i, n);
  }

  /** Converting back what was read. */
  lemma ConvertBack(s: string)
    requires Bin2Int(s).Some?
    ensures Int2Bin(Bin2Int(s).value, |s|) == Ok(s)
  {
    ValueBelow(s);
    ConvertsIffFits(Value(s), |s|);
    ResultMeansNumber(Value(s), |s|);
    SameValueSame(Int2Bin(Value(s), |s|).digits, s);
  }

  // ---- The counter

  /** The value of digits held least significant first. */
  function LowValue(v: seq<char>): nat {
    if v == [] then 0 else Bit(v[0]) + 2 * LowValue(v[1..])
  }

  function Reversed(v: seq<char>): (r: string)
    ensures |r| == |v|
  {
    if v == [] then [] else Reversed(v[1..]) + [v[0]]
  }

  lemma ValueOneMore(s: string, c: char)
    ensures Value(s + [c]) == 2 * Value(s) + Bit(c)
  {
    assert (s + [c])[..|s|] == s;
  }

  lemma ReversedStep(v: seq<char>, high: string)
    requires v != [] && high == Reversed(v[1..])
    ensures Value(Reversed(v)) == 2 * Value(high) + Bit(v[0])
  {
    assert Reversed(v) == high + [v[0]];
    ValueOneMore(high, v[0]);
  }

  lemma {:induction false} ReversedValue(v: seq<char>)
    ensures Value(Reversed(v)) == LowValue(v)
  {
    if v != [] {
      var high := Reversed(v[1..]);
      ReversedStep(v, high);
      ReversedValue(v[1..]);
    }
  }

  lemma {:induction false} ReversedBits(v: seq<char>)
    requires AllBits(v)
    ensures AllBits(Reversed(v))
  {
    if v != [] { ReversedBits(v[1..]); }
  }

  lemma {:induction false} LowValueReplace(v: seq<char>, i: nat, c: char)
    requires i < |v|
    ensures LowValue(v[i := c]) == LowValue(v) + Pow2(i) * (Bit(c) - Bit(v[i]))
  {
    if i == 0 {
      assert v[0 := c][1..] == v[1..];
    } else {
      LowValueReplace(v[1..], i - 1, c);
      assert v[i := c][1..] == v[1..][i - 1 := c];
      assert Pow2(i) * (Bit(c) - Bit(v[i])) == 2 * (Pow2(i - 1) * (Bit(c) - Bit(v[i])));
    }
  }

  lemma {:induction false} LowZero(v: seq<char>)
    requires forall i :: 0 <= i < |v| ==> v[i] == '0'
    ensures LowValue(v) == 0
  {
    if v != [] { LowZero(v[1..]); }
  }

  /** The first count numerals of the width are listed, in order. */
  ghost predicate Listed(l: seq<string>, bits: nat) {
    forall j :: 0 <= j < |l| ==> |l[j]| == bits && AllBits(l[j]) && Value(l[j]) == j
  }

  /** The digits hold one less than the target plus the carry still to be added at place i. */
  ghost predicate Rippling(v: seq<char>, toggle: seq<nat>, i: nat, target: nat) {
    && |toggle| == |v| + 1 && i <= |v| && AllBits(v)
    && toggle[i] <= 1 && (forall k :: i < k < |toggle| ==> toggle[k] == 0)
    && LowValue(v) + Pow2(i) * toggle[i] == target
  }

  lemma RippleStep(v: seq<char>, toggle: seq<nat>, i: nat, target: nat)
    requires Rippling(v, toggle, i, target) && i < |v| && toggle[i] == 1
    ensures v[i] == '0' ==> Rippling(v[i := '1'], toggle[i + 1 := 0], i + 1, target)
    ensures v[i] != '0' ==> Rippling(v[i := '0'], toggle[i + 1 := 1], i + 1, target)
  {
    LowValueReplace(v, i, if v[i] == '0' then '1' else '0');
    assert IsBit(v[i]);
    assert Pow2(i) * toggle[i] == Pow2(i);
  }

  /** Once the carry is placed or has run off the end, the counter reads the target, or has
      wrapped around at two to the width. */
  lemma RippleDone(v: seq<char>, toggle: seq<nat>, i: nat, target: nat)
    requires Rippling(v, toggle, i, target) && (i == |v| || toggle[i] == 0) && target <= Pow2(|v|)
    ensures toggle[|v|] <= 1 && (toggle[|v|] == 1 <==> target == Pow2(|v|))
    ensures toggle[|v|] == 0 ==> LowValue(v) == target
  {
    ReversedValue(v);
    ValueBelow(Reversed(v));
    assert Pow2(i) * 0 == 0 && Pow2(i) * 1 == Pow2(i);
  }

  lemma ListOneMore(l: seq<string>, v: seq<char>)
    requires Listed(l, |v|) && AllBits(v) && LowValue(v) == |l|
    ensures Listed(l + [Reversed(v)], |v|)
  {
    ReversedValue(v);
    ReversedBits(v);
  }

  lemma ListedAreConversions(l: seq<string>, bits: nat)
    requires bits >= 1 && Listed(l, bits) && |l| <= Pow2(bits)
    ensures forall i :: 0 <= i < |l| ==> Int2Bin(i, bits) == Ok(l[i])
  {
    forall i | 0 <= i < |l| ensures Int2Bin(i, bits) == Ok(l[i]) {
      ConvertsIffFits(i, bits);
      ResultMeansNumber(i, bits);
      SameValueSame(Int2Bin(i, bits).digits, l[i]);
    }
  }

  /** All numerals of the width, each the conversion of its index; none for width zero. */
  method BinaryRange(bits: nat) returns (l: seq<string>)
    ensures bits == 0 ==> l == []
    ensures bits >= 1 ==> |l| == Pow2(bits) && forall i :: 0 <= i < |l| ==> Int2Bin(i, bits) == Ok(l[i])
  {
    l := [];
    var v := new char[bits](_ => '0');
    LowZero(v[..]);
    var toggle: array<nat> := new nat[bits + 1](k => if k == 0 then 1 else 0);
    while toggle[bits] != 1
      invariant v.Length == bits && toggle.Length == bits + 1 && fresh(v) && fresh(toggle)
      invariant bits == 0 ==> toggle[bits] == 1 && l == []
      invariant AllBits(v[..]) && Listed(l, bits) && |l| <= Pow2(bits) && toggle[bits] <= 1
      invariant bits > 0 ==> (toggle[bits] == 1 <==> |l| == Pow2(bits))
      invariant toggle[bits] == 0 ==> LowValue(v[..]) == |l|
      decreases Pow2(bits) - |l|
    {
      ListOneMore(l, v[..]);
      l := l + [Reversed(v[..])];
      toggle := new nat[bits + 1](k => if k == 0 then 1 else 0);
      var i := 0;
      assert Pow2(0) * toggle[0] == 1;
      while i < bits && toggle[i] == 1
        invariant Rippling(v[..], toggle[..], i, |l|) && v.Length == bits && toggle.Length == bits + 1
        invariant fresh(v) && fresh(toggle)
      {
        RippleStep(v[..], toggle[..], i, |l|);
        ghost var v0, toggle0 := v[..], toggle[..];
        if toggle[i] != 0 {
          if v[i] == '0' {
            v[i] := '1';
            toggle[i + 1] := 0;
            assert v[..] == v0[i := '1'] && toggle[..] == toggle0[i + 1 := 0];
          } else {
            v[i] := '0';
            toggle[i + 1] := 1;
            assert v[..] == v0[i := '0'] && toggle[..] == toggle0[i + 1 := 1];
          }
        }
        i := i + 1;
      }
      RippleDone(v[..], toggle[..], i, |l|);
    }
    if bits >= 1 { ListedAreConversions(l, bits); }
  }
}
