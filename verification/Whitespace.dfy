/** Undoing trailing-whitespace changes in a patch set, as a function on values. */
module Whitespace {
  import opened PatchText
  import opened Sequences
  import opened Wrappers

  /** The greedy pattern takes exactly one blank off the end: what is before it, and it. */
  function TrailingBlank(s: string): Option<(string, string)> {
    var t := if s != "" && s[|s| - 1] == '\n' then s[..|s| - 1] else s;
    if '\n' in t || t == "" || t[|t| - 1] !in " \t" then None
    else Some((t[..|t| - 1], [t[|t| - 1]]))
  }

  /** Positions of the source-side and of the destination-side lines. */
  function SrcAt(lines: seq<Line>): (at: seq<nat>)
    ensures forall m :: 0 <= m < |at| ==> at[m] < |lines| && lines[at[m]].IsSrc()
    ensures forall m, n :: 0 <= m < n < |at| ==> at[m] < at[n]
  {
    if lines == [] then []
    else SrcAt(lines[..|lines| - 1]) + if lines[|lines| - 1].IsSrc() then [|lines| - 1] else []
  }

  function DstAt(lines: seq<Line>): (at: seq<nat>)
    ensures forall m :: 0 <= m < |at| ==> at[m] < |lines| && lines[at[m]].IsDst()
    ensures forall m, n :: 0 <= m < n < |at| ==> at[m] < at[n]
  {
    if lines == [] then []
    else DstAt(lines[..|lines| - 1]) + if lines[|lines| - 1].IsDst() then [|lines| - 1] else []
  }

  lemma {:induction false} SrcAtAll(lines: seq<Line>, k: nat)
    requires k < |lines| && lines[k].IsSrc()
    ensures k in SrcAt(lines)
  {
    if k < |lines| - 1 { SrcAtAll(lines[..|lines| - 1], k); }
  }

  /** Compare line a of the source side with line b of the destination side. */
  predicate Fires(lines: seq<Line>, a: nat, b: nat)
    requires a < |lines| && b < |lines|
  {
    var m := TrailingBlank(lines[a].text);
    m.Some? && m.value.0 == lines[b].text
  }

  function Touch(lines: seq<Line>, a: nat, b: nat): (touched: seq<Line>)
    requires a < |lines| && b < |lines|
    ensures |touched| == |lines|
  {
    if Fires(lines, a, b)
    then lines[b := lines[b].(text := lines[b].text + TrailingBlank(lines[a].text).value.1)]
    else lines
  }

  function Min(a: nat, b: nat): nat { if a < b then a else b }

  /** Positions of two views of the lines: in range, and no destination position twice. */
  ghost predicate Views(lines: seq<Line>, src: seq<nat>, dst: seq<nat>) {
    && (forall m :: 0 <= m < |src| ==> src[m] < |lines| && lines[src[m]].IsSrc())
    && (forall m :: 0 <= m < |dst| ==> dst[m] < |lines| && lines[dst[m]].IsDst())
    && Distinct(dst)
  }

  predicate Reach(lines: seq<Line>, src: seq<nat>, dst: seq<nat>, n: nat) {
    && n <= |src| && n <= |dst|
    && (forall m :: 0 <= m < |src| ==> src[m] < |lines|) && (forall m :: 0 <= m < |dst| ==> dst[m] < |lines|)
  }

  /** The lines after the first n comparisons. */
  function Compared(lines: seq<Line>, src: seq<nat>, dst: seq<nat>, n: nat): (after: seq<Line>)
    requires Reach(lines, src, dst, n)
    ensures |after| == |lines|
  {
    if n == 0 then lines else Touch(Compared(lines, src, dst, n - 1), src[n - 1], dst[n - 1])
  }

  /** A whole chunk. When the destination side is shorter, the missing line ends it with
      an index error. */
  function PassLines(lines: seq<Line>): seq<Line> {
    ComparedSoFar(lines, Min(|SrcAt(lines)|, |DstAt(lines)|))
  }

  function ComparedSoFar(lines: seq<Line>, n: nat): (after: seq<Line>)
    requires n <= Min(|SrcAt(lines)|, |DstAt(lines)|)
    ensures |after| == |lines|
  {
    Compared(lines, SrcAt(lines), DstAt(lines), n)
  }

  lemma ViewsAt(lines: seq<Line>)
    ensures Views(lines, SrcAt(lines), DstAt(lines))
  {
  }

  predicate RunsOut(lines: seq<Line>) {
    |DstAt(lines)| < |SrcAt(lines)|
  }

  function WithChunk(ps: Patchset, i: nat, j: nat, c: Chunk): Patchset
    requires i < |ps| && j < |ps[i].chunks|
  {
    ps[i := ps[i].(chunks := ps[i].chunks[j := c])]
  }

  function PassChunk(c: Chunk): Chunk {
    c.(lines := PassLines(c.lines))
  }

  /** The rest of the double loop from chunk j of patch i; an index error ends it. */
  function PassFrom(ps: Patchset, i: nat, j: nat): Patchset
    requires i <= |ps| && (i < |ps| ==> j <= |ps[i].chunks|)
    decreases |ps| - i, if i < |ps| then |ps[i].chunks| - j else 0
  {
    if i == |ps| then ps
    else if j == |ps[i].chunks| then PassFrom(ps, i + 1, 0)
    else
      var c := ps[i].chunks[j];
      var next := WithChunk(ps, i, j, PassChunk(c));
      if RunsOut(c.lines) then next else PassFrom(next, i, j + 1)
  }

  function PassAll(ps: Patchset): Patchset {
    PassFrom(ps, 0, 0)
  }

  // ---- What one chunk keeps

  /** The same line, or a destination-side line longer by exactly one space or tab. */
  predicate Kept(before: Line, after: Line) {
    after == before
    || (before.IsDst() && after.kind == before.kind
        && (after.text == before.text + " " || after.text == before.text + "\t"))
  }

  /** A line no comparison has met as a destination is as it was. */
  lemma {:induction false} UnmetAsBefore(lines: seq<Line>, src: seq<nat>, dst: seq<nat>, n: nat, k: nat)
    requires Reach(lines, src, dst, n) && k < |lines| && k !in dst[..n]
    ensures Compared(lines, src, dst, n)[k] == lines[k]
  {
    if n > 0 {
      assert dst[..n] == dst[..n - 1] + [dst[n - 1]];
      UnmetAsBefore(lines, src, dst, n - 1, k);
      TouchElsewhere(Compared(lines, src, dst, n - 1), src[n - 1], dst[n - 1], k);
    }
  }

  lemma TouchElsewhere(lines: seq<Line>, a: nat, b: nat, k: nat)
    requires a < |lines| && b < |lines| && k < |lines| && k != b
    ensures Touch(lines, a, b)[k] == lines[k]
  {
  }

  lemma TouchHere(lines: seq<Line>, a: nat, b: nat)
    requires a < |lines| && b < |lines| && lines[b].IsDst()
    ensures Kept(lines[b], Touch(lines, a, b)[b])
    ensures Touch(lines, a, b)[b] != lines[b] <==> Fires(lines, a, b)
  {
    BlankIsBlank(lines[a].text);
  }

  /** Before its own comparison a destination line is as parsed. */
  lemma UnmetYet(lines: seq<Line>, src: seq<nat>, dst: seq<nat>, m: nat)
    requires Views(lines, src, dst) && m < |src| && m < |dst|
    ensures Compared(lines, src, dst, m)[dst[m]] == lines[dst[m]]
  {
    UnmetAsBefore(lines, src, dst, m, dst[m]);
  }

  /** Its own comparison leaves it longer by one blank exactly if it fires. */
  lemma AtItsOwn(lines: seq<Line>, src: seq<nat>, dst: seq<nat>, m: nat)
    requires Views(lines, src, dst) && m < |src| && m < |dst|
    ensures var k, now := dst[m], Compared(lines, src, dst, m);
      var after := Compared(lines, src, dst, m + 1)[k];
      Kept(lines[k], after) && (after != lines[k] <==> Fires(now, src[m], k))
  {
    var now := Compared(lines, src, dst, m);
    UnmetYet(lines, src, dst, m);
    assert now[dst[m]].IsDst();
    TouchHere(now, src[m], dst[m]);
    assert Compared(lines, src, dst, m + 1) == Touch(now, src[m], dst[m]);
  }

  /** A destination line met by comparison m is longer by one blank exactly if that
      comparison fired; later ones do not touch it. */
  lemma MetOnce(lines: seq<Line>, src: seq<nat>, dst: seq<nat>, n: nat, m: nat)
    requires Views(lines, src, dst) && m < n <= Min(|src|, |dst|)
    ensures var k, now := dst[m], Compared(lines, src, dst, m);
      var after := Compared(lines, src, dst, n)[k];
      Kept(lines[k], after) && (after != lines[k] <==> Fires(now, src[m], k))
  {
    AtItsOwn(lines, src, dst, m);
    var next: nat := m + 1;
    StaysAfter(lines, src, dst, next, n, m);
  }

  /** A destination line is not touched by later comparisons. */
  lemma {:induction false} StaysAfter(lines: seq<Line>, src: seq<nat>, dst: seq<nat>, n: nat, most: nat, m: nat)
    requires Views(lines, src, dst) && m < n <= most <= Min(|src|, |dst|)
    ensures Compared(lines, src, dst, most)[dst[m]] == Compared(lines, src, dst, n)[dst[m]]
  {
    if n < most {
      StaysAfter(lines, src, dst, n, most - 1, m);
      TouchElsewhere(Compared(lines, src, dst, most - 1), src[most - 1], dst[most - 1], dst[m]);
    }
  }

  /** After n comparisons every line is kept in the sense above. */
  lemma AfterKeeps(lines: seq<Line>, src: seq<nat>, dst: seq<nat>, n: nat, k: nat)
    requires Views(lines, src, dst) && n <= Min(|src|, |dst|) && k < |lines|
    ensures Kept(lines[k], Compared(lines, src, dst, n)[k])
  {
    if k in dst[..n] {
      var m :| 0 <= m < n && dst[m] == k;
      MetOnce(lines, src, dst, n, m);
    } else {
      UnmetAsBefore(lines, src, dst, n, k);
    }
  }

  lemma BlankIsBlank(s: string)
    ensures TrailingBlank(s).Some? ==> TrailingBlank(s).value.1 in [" ", "\t"]
  {
  }

  /** Kinds and counts never change; each text stays or, on the destination side only,
      grows by exactly one space or tab. */
  lemma PassKeeps(lines: seq<Line>)
    ensures |PassLines(lines)| == |lines|
    ensures forall k :: 0 <= k < |lines| ==> Kept(lines[k], PassLines(lines)[k])
  {
    var src, dst := SrcAt(lines), DstAt(lines);
    ViewsAt(lines);
    forall k | 0 <= k < |lines| ensures Kept(lines[k], PassLines(lines)[k]) {
      AfterKeeps(lines, src, dst, Min(|src|, |dst|), k);
    }
  }

  // ---- When the source side is kept

  /** Whether a comparison fires depends on its two lines only. */
  lemma NothingTouched(lines: seq<Line>, now: seq<Line>, a: nat, b: nat)
    requires |now| == |lines| && a < |lines| && b < |lines|
    requires now[a] == lines[a] && now[b] == lines[b] && !Fires(lines, a, b)
    ensures Touch(now, a, b) == now
  {
  }

  /** None of the first n comparisons, on the lines as they were parsed, is between a line and a
      context line that lacks only its last blank. */
  ghost predicate Quiet(lines: seq<Line>, src: seq<nat>, dst: seq<nat>, n: nat)
    requires Reach(lines, src, dst, n)
  {
    forall m :: 0 <= m < n ==> !FiresOnContext(lines, src[m], dst[m])
  }

  predicate FiresOnContext(lines: seq<Line>, a: nat, b: nat)
    requires a < |lines| && b < |lines|
  {
    lines[b].IsSrc() && Fires(lines, a, b)
  }

  /** While it has been quiet, every source line is as parsed. */
  lemma {:induction false} SourceUnmoved(lines: seq<Line>, src: seq<nat>, dst: seq<nat>, n: nat, k: nat)
    requires Views(lines, src, dst) && n <= Min(|src|, |dst|) && Quiet(lines, src, dst, n)
    requires k < |lines| && lines[k].IsSrc()
    ensures Compared(lines, src, dst, n)[k] == lines[k]
  {
    if n > 0 {
      var a, b, now := src[n - 1], dst[n - 1], Compared(lines, src, dst, n - 1);
      assert !FiresOnContext(lines, a, b);
      SourceUnmoved(lines, src, dst, n - 1, k);
      if k == b {
        SourceUnmoved(lines, src, dst, n - 1, a);
        NothingTouched(lines, now, a, b);
      } else {
        TouchElsewhere(now, a, b, k);
      }
    }
  }

  /** The first comparison that fires on a context line changes that line for good. */
  lemma {:induction false} FirstFiringShows(lines: seq<Line>, src: seq<nat>, dst: seq<nat>, n: nat, most: nat)
    returns (k: nat)
    requires Views(lines, src, dst) && n < most <= Min(|src|, |dst|) && FiresOnContext(lines, src[n], dst[n])
    ensures k < |lines| && lines[k].IsSrc() && Compared(lines, src, dst, most)[k] != lines[k]
  {
    if Quiet(lines, src, dst, n) {
      k := dst[n];
      SourceUnmoved(lines, src, dst, n, src[n]);
      UnmetYet(lines, src, dst, n);
      MetOnce(lines, src, dst, most, n);
    } else {
      var m :| 0 <= m < n && FiresOnContext(lines, src[m], dst[m]);
      k := FirstFiringShows(lines, src, dst, m, most);
    }
  }

  lemma QuietKeepsSource(lines: seq<Line>)
    requires Quiet(lines, SrcAt(lines), DstAt(lines), Min(|SrcAt(lines)|, |DstAt(lines)|))
    ensures forall k :: 0 <= k < |lines| && lines[k].IsSrc() ==> PassLines(lines)[k] == lines[k]
  {
    var src, dst := SrcAt(lines), DstAt(lines);
    ViewsAt(lines);
    forall k | 0 <= k < |lines| && lines[k].IsSrc() ensures PassLines(lines)[k] == lines[k] {
      SourceUnmoved(lines, src, dst, Min(|src|, |dst|), k);
    }
  }

  lemma FiringMovesSource(lines: seq<Line>, n: nat) returns (k: nat)
    requires n < Min(|SrcAt(lines)|, |DstAt(lines)|) && FiresOnContext(lines, SrcAt(lines)[n], DstAt(lines)[n])
    ensures k < |lines| && lines[k].IsSrc() && PassLines(lines)[k] != lines[k]
  {
    var src, dst := SrcAt(lines), DstAt(lines);
    ViewsAt(lines);
    k := FirstFiringShows(lines, src, dst, n, Min(|src|, |dst|));
  }

  /** Because context lines belong to both sides, the source texts are all unchanged exactly
      when, on the lines as they were parsed, no source line at the index of a context line on
      the destination side is that context line and one blank. */
  lemma SourceKeptIff(lines: seq<Line>)
    ensures var src, dst := SrcAt(lines), DstAt(lines);
      (forall k :: 0 <= k < |lines| && lines[k].IsSrc() ==> PassLines(lines)[k] == lines[k]) <==>
      (forall n :: 0 <= n < |src| && n < |dst| && lines[dst[n]].IsSrc() ==> !Fires(lines, src[n], dst[n]))
  {
    var src, dst := SrcAt(lines), DstAt(lines);
    if Quiet(lines, src, dst, Min(|src|, |dst|)) {
      QuietKeepsSource(lines);
      forall n | 0 <= n < |src| && n < |dst| && lines[dst[n]].IsSrc() ensures !Fires(lines, src[n], dst[n]) {
        assert !FiresOnContext(lines, src[n], dst[n]);
      }
    } else {
      var n :| 0 <= n < Min(|src|, |dst|) && FiresOnContext(lines, src[n], dst[n]);
      var k := FiringMovesSource(lines, n);
      assert lines[dst[n]].IsSrc() && Fires(lines, src[n], dst[n]);
    }
  }

  /** A context line can be changed: here it is compared with the removed line above it. */
  lemma ContextLineCanChange()
    ensures var lines := [Line(SRC, "a "), Line(BOTH, "a")];
      && PassLines(lines) == [Line(SRC, "a "), Line(BOTH, "a ")]
      && SrcAt(lines) == [0, 1] && DstAt(lines) == [1] && !Aligned(lines) && FiresOnContext(lines, 0, 1)
  {
    var lines := [Line(SRC, "a "), Line(BOTH, "a")];
    RemovedThenContext(lines);
    OneComparison(lines, 0, 1);
    OneBlankLess(lines);
  }

  lemma OneComparison(lines: seq<Line>, a: nat, b: nat)
    requires a < |lines| && b < |lines|
    ensures Compared(lines, [a, b], [b], 1) == Touch(lines, a, b)
  {
    assert Compared(lines, [a, b], [b], 1) == Touch(Compared(lines, [a, b], [b], 0), a, b);
  }

  lemma OneBlankLess(lines: seq<Line>)
    requires lines == [Line(SRC, "a "), Line(BOTH, "a")]
    ensures Fires(lines, 0, 1) && Touch(lines, 0, 1) == [Line(SRC, "a "), Line(BOTH, "a ")]
  {
    assert "a "[..1] == "a" && ["a "[1]] == " ";
    assert "a" + " " == "a ";
  }

  /** A removed line and a context line: the one comparison is between the two. */
  lemma RemovedThenContext(lines: seq<Line>)
    requires |lines| == 2 && lines[0].kind == SRC && lines[1].kind == BOTH
    ensures SrcAt(lines) == [0, 1] && DstAt(lines) == [1] && !Aligned(lines)
  {
    var first := lines[..1];
    assert first[..0] == [];
    assert SrcAt(first) == [0] && DstAt(first) == [];
  }

  // ---- Aligned chunks

  /** Enough destination lines, and each context line at the same index on both sides. */
  predicate Aligned(lines: seq<Line>) {
    SideBySide(SrcAt(lines), DstAt(lines))
  }

  predicate SideBySide(src: seq<nat>, dst: seq<nat>) {
    |src| <= |dst| && forall m, n :: 0 <= m < |src| && 0 <= n < |dst| && src[m] == dst[n] ==> m == n
  }

  /** A comparison of a line with itself never fires, so an aligned chunk is quiet. */
  lemma AlignedQuiet(lines: seq<Line>)
    requires Aligned(lines)
    ensures Quiet(lines, SrcAt(lines), DstAt(lines), |SrcAt(lines)|)
  {
    var src, dst := SrcAt(lines), DstAt(lines);
    forall n | 0 <= n < |src| ensures !FiresOnContext(lines, src[n], dst[n]) {
      if lines[dst[n]].IsSrc() {
        SrcAtAll(lines, dst[n]);
        var m :| 0 <= m < |src| && src[m] == dst[n];
      }
    }
  }

  ghost predicate NewlineFreeLines(lines: seq<Line>) {
    forall k :: 0 <= k < |lines| ==> '\n' !in lines[k].text
  }

  /** Every source line is unchanged, and the destination line at each index becomes the source
      line at that index if it lacked only its last blank, and is unchanged otherwise. */
  ghost predicate BlanksRestored(lines: seq<Line>, after: seq<Line>) {
    && |after| == |lines|
    && (forall k :: 0 <= k < |lines| && lines[k].IsSrc() ==> after[k] == lines[k])
    && (forall n :: 0 <= n < |SrcAt(lines)| && n < |DstAt(lines)| ==>
          after[DstAt(lines)[n]].text == Restored(lines[SrcAt(lines)[n]].text, lines[DstAt(lines)[n]].text))
    && (forall n :: |SrcAt(lines)| <= n < |DstAt(lines)| ==> after[DstAt(lines)[n]] == lines[DstAt(lines)[n]])
  }

  ghost function Restored(s: string, d: string): string {
    if s == d + " " || s == d + "\t" then s else d
  }

  /** What the pass is for, on an aligned chunk. */
  lemma AlignedPass(lines: seq<Line>)
    requires Aligned(lines) && NewlineFreeLines(lines)
    ensures BlanksRestored(lines, PassLines(lines))
  {
    var src, dst := SrcAt(lines), DstAt(lines);
    ViewsAt(lines);
    AlignedQuiet(lines);
    forall k | 0 <= k < |lines| && lines[k].IsSrc() ensures PassLines(lines)[k] == lines[k] {
      SourceUnmoved(lines, src, dst, |src|, k);
    }
    forall n | 0 <= n < |src|
      ensures PassLines(lines)[dst[n]].text == Restored(lines[src[n]].text, lines[dst[n]].text)
    {
      AlignedOne(lines, src, dst, n);
    }
    forall n | |src| <= n < |dst| ensures PassLines(lines)[dst[n]] == lines[dst[n]] {
      UnmetAsBefore(lines, src, dst, |src|, dst[n]);
    }
  }

  lemma AlignedOne(lines: seq<Line>, src: seq<nat>, dst: seq<nat>, n: nat)
    requires Views(lines, src, dst) && |src| <= |dst| && Quiet(lines, src, dst, |src|) && n < |src|
    requires '\n' !in lines[src[n]].text
    ensures Compared(lines, src, dst, |src|)[dst[n]].text == Restored(lines[src[n]].text, lines[dst[n]].text)
  {
    SourceUnmoved(lines, src, dst, n, src[n]);
    UnmetYet(lines, src, dst, n);
    BlankSplits(lines[src[n]].text, lines[dst[n]].text);
    StaysAfter(lines, src, dst, n + 1, |src|, n);
  }

  /** For texts without newlines the pattern matches exactly a one-blank extension. */
  lemma BlankSplits(s: string, d: string)
    requires '\n' !in s
    ensures (TrailingBlank(s).Some? && TrailingBlank(s).value.0 == d) <==> (s == d + " " || s == d + "\t")
    ensures TrailingBlank(s).Some? && TrailingBlank(s).value.0 == d ==> d + TrailingBlank(s).value.1 == s
  {
    if s == d + " " || s == d + "\t" {
      assert s[..|s| - 1] == d;
    }
    if s != "" {
      assert s == s[..|s| - 1] + [s[|s| - 1]];
      assert s[|s| - 1] in s;
    }
  }

  /** Two missing blanks are not restored, although the chunk is aligned: the comparison asks for
      a text that lacks one. */
  lemma TwoBlanksStayMissing()
    ensures var lines := [Line(SRC, "a  "), Line(DST, "a")];
      Aligned(lines) && PassLines(lines) == lines
  {
    var lines := [Line(SRC, "a  "), Line(DST, "a")];
    RemovedThenAdded(lines);
    assert !Fires(lines, 0, 1) by {
      assert |TrailingBlank("a  ").value.0| == 2;
    }
    assert Compared(lines, [0], [1], 1) == Touch(Compared(lines, [0], [1], 0), 0, 1);
  }

  /** A removed line and an added line: the one comparison is between the two. */
  lemma RemovedThenAdded(lines: seq<Line>)
    requires |lines| == 2 && lines[0].kind == SRC && lines[1].kind == DST
    ensures SrcAt(lines) == [0] && DstAt(lines) == [1] && Aligned(lines)
  {
    var first := lines[..1];
    assert first[..0] == [];
    assert SrcAt(first) == [0] && DstAt(first) == [];
  }

  // ---- The whole patch set

  /** Chunk b of patch a comes before chunk y of patch x. */
  predicate Before(a: nat, b: nat, x: nat, y: nat) {
    a < x || (a == x && b < y)
  }

  /** No chunk from (i, j) up to and without (a, b) ends the pass. */
  ghost predicate NoneRunsOut(ps: Patchset, i: nat, j: nat, a: nat, b: nat) {
    forall x: nat, y: nat :: x < |ps| && y < |ps[x].chunks| && !Before(x, y, i, j) && Before(x, y, a, b) ==>
      !RunsOut(ps[x].chunks[y].lines)
  }

  lemma NoneRunsOutNext(ps: Patchset, next: Patchset, i: nat, j: nat, a: nat, b: nat)
    requires i < |ps| && j < |ps[i].chunks| && !Before(a, b, i, j + 1)
    requires next == WithChunk(ps, i, j, PassChunk(ps[i].chunks[j])) && !RunsOut(ps[i].chunks[j].lines)
    ensures NoneRunsOut(next, i, j + 1, a, b) <==> NoneRunsOut(ps, i, j, a, b)
  {
    forall x: nat, y: nat | x < |ps| && y < |ps[x].chunks| && !Before(x, y, i, j)
      ensures (x, y) == (i, j) || (!Before(x, y, i, j + 1) && next[x].chunks[y] == ps[x].chunks[y])
    {}
  }

  lemma NoneRunsOutBeyond(ps: Patchset, i: nat, j: nat, a: nat, b: nat)
    requires i < |ps| && j == |ps[i].chunks| && a < |ps| && b < |ps[a].chunks|
    ensures NoneRunsOut(ps, i + 1, 0, a, b) <==> NoneRunsOut(ps, i, j, a, b)
    ensures Before(a, b, i + 1, 0) <==> Before(a, b, i, j)
  {
  }

  /** The patch set afterwards has the same shape, and chunk b of patch a passed or as it was. */
  ghost predicate Treated(ps: Patchset, after: Patchset, a: nat, b: nat, passed: bool)
    requires a < |ps| && b < |ps[a].chunks|
  {
    && |after| == |ps| && after[a].src == ps[a].src && after[a].dst == ps[a].dst
    && |after[a].chunks| == |ps[a].chunks|
    && after[a].chunks[b] == if passed then PassChunk(ps[a].chunks[b]) else ps[a].chunks[b]
  }

  ghost predicate Reached(ps: Patchset, i: nat, j: nat, a: nat, b: nat) {
    !Before(a, b, i, j) && NoneRunsOut(ps, i, j, a, b)
  }

  /** A chunk that runs out is the last one passed. */
  lemma TreatedLast(ps: Patchset, i: nat, j: nat, a: nat, b: nat)
    requires i < |ps| && j < |ps[i].chunks| && a < |ps| && b < |ps[a].chunks| && RunsOut(ps[i].chunks[j].lines)
    ensures Treated(ps, WithChunk(ps, i, j, PassChunk(ps[i].chunks[j])), a, b, Reached(ps, i, j, a, b))
  {
    assert Before(i, j, a, b) ==> !NoneRunsOut(ps, i, j, a, b);
  }

  lemma TreatedNext(ps: Patchset, next: Patchset, i: nat, j: nat, a: nat, b: nat, after: Patchset)
    requires i < |ps| && j < |ps[i].chunks| && a < |ps| && b < |ps[a].chunks|
    requires next == WithChunk(ps, i, j, PassChunk(ps[i].chunks[j])) && !RunsOut(ps[i].chunks[j].lines)
    requires Treated(next, after, a, b, Reached(next, i, j + 1, a, b))
    ensures Treated(ps, after, a, b, Reached(ps, i, j, a, b))
  {
    if !Before(a, b, i, j + 1) {
      NoneRunsOutNext(ps, next, i, j, a, b);
      assert next[a].chunks[b] == ps[a].chunks[b];
    }
  }

  lemma {:induction false} PassFromExact(ps: Patchset, i: nat, j: nat, a: nat, b: nat)
    requires i <= |ps| && (i < |ps| ==> j <= |ps[i].chunks|)
    requires a < |ps| && b < |ps[a].chunks|
    ensures Treated(ps, PassFrom(ps, i, j), a, b, Reached(ps, i, j, a, b))
    decreases |ps| - i, if i < |ps| then |ps[i].chunks| - j else 0
  {
    if i == |ps| {
    } else if j == |ps[i].chunks| {
      PassFromExact(ps, i + 1, 0, a, b);
      NoneRunsOutBeyond(ps, i, j, a, b);
    } else {
      var next := WithChunk(ps, i, j, PassChunk(ps[i].chunks[j]));
      if RunsOut(ps[i].chunks[j].lines) {
        TreatedLast(ps, i, j, a, b);
      } else {
        PassFromExact(next, i, j + 1, a, b);
        TreatedNext(ps, next, i, j, a, b, PassFrom(next, i, j + 1));
      }
    }
  }

  /** The whole pass: it reaches exactly the chunks with no run-out chunk before them, the run-out
      chunk itself included; each chunk reached is passed, every other is as it was. */
  lemma PassAllExact(ps: Patchset, a: nat, b: nat)
    requires a < |ps| && b < |ps[a].chunks|
    ensures
      var r := PassAll(ps);
      && |r| == |ps| && r[a].src == ps[a].src && r[a].dst == ps[a].dst && |r[a].chunks| == |ps[a].chunks|
      && r[a].chunks[b] == if NoneRunsOut(ps, 0, 0, a, b) then PassChunk(ps[a].chunks[b]) else ps[a].chunks[b]
  {
    PassFromExact(ps, 0, 0, a, b);
  }

  /** The pass keeps every patch, chunk and kind; a line's text stays or, on the
      destination side, grows by exactly one space or tab. */
  lemma PassAllKeeps(ps: Patchset, a: nat, b: nat, k: nat)
    requires a < |ps| && b < |ps[a].chunks| && k < |ps[a].chunks[b].lines|
    ensures
      var r := PassAll(ps);
      && |r| == |ps| && |r[a].chunks| == |ps[a].chunks|
      && |r[a].chunks[b].lines| == |ps[a].chunks[b].lines|
      && Kept(ps[a].chunks[b].lines[k], r[a].chunks[b].lines[k])
  {
    PassAllExact(ps, a, b);
    PassKeeps(ps[a].chunks[b].lines);
  }

  // ---- Parsed patch sets

  ghost predicate NewlineFreePatches(ps: Patchset) {
    forall x, y :: 0 <= x < |ps| && 0 <= y < |ps[x].chunks| ==> NewlineFreeLines(ps[x].chunks[y].lines)
  }

  lemma CaptureNewlineFree(prefix: string, s: string)
    ensures After(prefix, s).Some? ==> '\n' !in After(prefix, s).value
  {
  }

  lemma ClassifiedNewlineFree(s: string)
    ensures Classify(s).Body? ==> '\n' !in Classify(s).line.text
  {
    CaptureNewlineFree("-", s);
    CaptureNewlineFree("+", s);
    CaptureNewlineFree(" ", s);
  }

  lemma StepNewlineFree(s: ParseState, item: Parsed)
    requires Points(s) && NewlineFreePatches(s.patches) && Step(s, item).Some?
    requires item.Body? ==> '\n' !in item.line.text
    ensures NewlineFreePatches(Step(s, item).value.patches)
  {
  }

  ghost predicate NewlineFreeItems(items: seq<Parsed>) {
    forall i :: 0 <= i < |items| && items[i].Body? ==> '\n' !in items[i].line.text
  }

  lemma {:induction false} StepsNewlineFree(s: ParseState, items: seq<Parsed>)
    requires Points(s)
    ensures NewlineFreePatches(s.patches) && NewlineFreeItems(items) && Steps(s, items).Some? ==>
      NewlineFreePatches(Steps(s, items).value.patches)
    decreases |items|
  {
    if NewlineFreePatches(s.patches) && NewlineFreeItems(items) && Steps(s, items).Some? && items != [] {
      StepNewlineFree(s, items[0]);
      StepsNewlineFree(Step(s, items[0]).value, items[1..]);
    }
  }

  /** The patterns capture no newline, so parsed texts have none. */
  lemma ParsedNewlineFree(generator: seq<string>)
    requires ParsePatchset(generator).Some?
    ensures NewlineFreePatches(ParsePatchset(generator).value)
  {
    forall i | 0 <= i < |generator| ensures Classify(generator[i]).Body? ==> '\n' !in Classify(generator[i]).line.text {
      ClassifiedNewlineFree(generator[i]);
    }
    StepsNewlineFree(START, ClassifyAll(generator));
  }

  /** What the pass is for: in every aligned chunk that it reaches, it restores the blanks and
      changes nothing else. */
  lemma AlignedPassAll(generator: seq<string>, a: nat, b: nat)
    requires ParsePatchset(generator).Some?
    requires var ps := ParsePatchset(generator).value;
      && a < |ps| && b < |ps[a].chunks|
      && NoneRunsOut(ps, 0, 0, a, b) && Aligned(ps[a].chunks[b].lines)
    ensures
      var ps := ParsePatchset(generator).value;
      var r := PassAll(ps);
      && |r| == |ps| && r[a].src == ps[a].src && r[a].dst == ps[a].dst && |r[a].chunks| == |ps[a].chunks|
      && r[a].chunks[b].srcPos == ps[a].chunks[b].srcPos && r[a].chunks[b].dstPos == ps[a].chunks[b].dstPos
      && BlanksRestored(ps[a].chunks[b].lines, r[a].chunks[b].lines)
  {
    var ps := ParsePatchset(generator).value;
    ParsedNewlineFree(generator);
    PassAllExact(ps, a, b);
    AlignedPass(ps[a].chunks[b].lines);
  }
}
