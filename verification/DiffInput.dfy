/** Unified diffs as the standard library writes them, where a range of one line leaves its count
    out: which of them the parser accepts. */
module DiffInput {
  import opened Decimal
  import opened PatchRoundTrip
  import opened PatchText
  import opened Sequences
  import opened Wrappers

  /** A range of lines: its position and, unless it is one line, its length. */
  function Range(pos: nat, length: nat): string {
    Show(pos) + if length == 1 then "" else "," + Show(length)
  }

  function DiffHeader(a: nat, b: nat, c: nat, d: nat): string {
    "@@ -" + Range(a, b) + " +" + Range(c, d) + " @@"
  }

  predicate SingleLine(c: Chunk) {
    |SrcLines(c.lines)| == 1 || |DstLines(c.lines)| == 1
  }

  function DiffChunkTexts(chunks: seq<Chunk>): seq<string> {
    if chunks == [] then []
    else
      var c := chunks[0];
      [DiffHeader(c.srcPos, |SrcLines(c.lines)|, c.dstPos, |DstLines(c.lines)|)] + BodyTexts(c.lines)
      + DiffChunkTexts(chunks[1..])
  }

  function DiffPatchTexts(p: Patch): seq<string> {
    ["--- " + p.src, "+++ " + p.dst] + DiffChunkTexts(p.chunks)
  }

  /** The lines of the diff, without their newlines. */
  function DiffTexts(ps: Patchset): seq<string> {
    if ps == [] then [] else DiffPatchTexts(ps[0]) + DiffTexts(ps[1..])
  }

  ghost predicate NoSingleLine(ps: Patchset) {
    forall i :: 0 <= i < |ps| ==> NoneSingle(ps[i].chunks)
  }

  ghost predicate NoneSingle(chunks: seq<Chunk>) {
    forall j :: 0 <= j < |chunks| ==> !SingleLine(chunks[j])
  }

  // ---- One header

  lemma NoNumber(prefix: string, s: string)
    requires prefix != "" && s != "" && s[0] != prefix[0]
    ensures NumberAfter(prefix, s).None?
  {
  }

  /** Without the first count the second number is missing. */
  lemma FirstCountMissing(a: nat, rest: string)
    requires rest != "" && rest[0] == ' '
    ensures HeaderNumbers("@@ -" + Show(a) + rest).None?
  {
    NumberRead("@@ -", a, rest);
    NoNumber(",", rest);
  }

  /** Without the second count the fourth number is missing. */
  lemma SecondCountMissing(a: nat, b: nat, c: nat, rest: string)
    requires rest != "" && rest[0] == ' '
    ensures HeaderNumbers("@@ -" + Show(a) + ("," + Show(b) + (" +" + Show(c) + rest))).None?
  {
    var r2 := " +" + Show(c) + rest;
    var r1 := "," + Show(b) + r2;
    NumberRead("@@ -", a, r1);
    NumberRead(",", b, r2);
    NumberRead(" +", c, rest);
    NoNumber(",", rest);
  }

  lemma NoHeaderIsBad(s: string)
    requires s != "" && s[0] == '@'
    ensures HeaderNumbers(s).None? ==> Classify(s) == Bad
  {
    OtherMark("--- ", s);
    OtherMark("+++ ", s);
    OtherMark("-", s);
    OtherMark("+", s);
    OtherMark(" ", s);
  }

  lemma FirstSingleBad(a: nat, c: nat, d: nat)
    ensures Classify(DiffHeader(a, 1, c, d) + "\n") == Bad
  {
    var start, rest := "@@ -" + Show(a), " +" + Range(c, d) + " @@" + "\n";
    var s := DiffHeader(a, 1, c, d) + "\n";
    assert "@@ -" + Range(a, 1) == start;
    assert s == start + rest;
    FirstCountMissing(a, rest);
    NoHeaderIsBad(s);
  }

  lemma SecondSingleBad(a: nat, b: nat, c: nat)
    requires b != 1
    ensures Classify(DiffHeader(a, b, c, 1) + "\n") == Bad
  {
    var rest := " @@" + "\n";
    var start, count, position := "@@ -" + Show(a), "," + Show(b), " +" + Show(c);
    var s := DiffHeader(a, b, c, 1) + "\n";
    assert "@@ -" + Range(a, b) == start + count;
    assert " +" + Range(c, 1) == position;
    assert s == start + (count + (position + rest));
    SecondCountMissing(a, b, c, rest);
    NoHeaderIsBad(s);
  }

  lemma BothCountsRead(a: nat, b: nat, c: nat, d: nat)
    requires b != 1 && d != 1
    ensures Classify(DiffHeader(a, b, c, d) + "\n") == Header(a, c)
  {
    var rest := " @@" + "\n";
    var start, count, position, length := "@@ -" + Show(a), "," + Show(b), " +" + Show(c), "," + Show(d);
    var s := DiffHeader(a, b, c, d) + "\n";
    assert "@@ -" + Range(a, b) == start + count;
    assert " +" + Range(c, d) == position + length;
    assert s == start + (count + (position + (length + rest)));
    FourNumbersRead(a, b, c, d, rest);
    HeaderMatched(s);
  }

  /** A header is read with its two positions, unless one of its ranges is a single line. */
  lemma DiffHeaderRead(a: nat, b: nat, c: nat, d: nat)
    ensures Classify(DiffHeader(a, b, c, d) + "\n") == if b == 1 || d == 1 then Bad else Header(a, c)
  {
    if b == 1 {
      FirstSingleBad(a, c, d);
    } else if d == 1 {
      SecondSingleBad(a, b, c);
    } else {
      BothCountsRead(a, b, c, d);
    }
  }

  // ---- The whole diff

  /** A file has been named, and a chunk opened. */
  predicate Open(s: ParseState) {
    Points(s) && s.patches != [] && s.current.Some?
  }

  /** Once a chunk is open, body lines are accepted, mistaken ones included. */
  lemma {:induction false} BodiesAccepted(s: ParseState, lines: seq<Line>)
    requires Open(s) && forall k :: 0 <= k < |lines| ==> OneLine(lines[k].text)
    ensures var r := Steps(s, ClassifyAll(Terminated(BodyTexts(lines)))); r.Some? && Open(r.value)
    decreases |lines|
  {
    if lines != [] {
      var text := LineText(lines[0]);
      var item := Classify(text + "\n");
      BodyRead(lines[0]);
      OneTextMore(s, text, BodyTexts(lines[1..]));
      BodiesAccepted(Step(s, item).value, lines[1..]);
    }
  }

  lemma OneTextMore(s: ParseState, text: string, texts: seq<string>)
    requires Points(s)
    ensures var next := Step(s, Classify(text + "\n"));
      Steps(s, ClassifyAll(Terminated([text] + texts))) ==
        if next.None? then None else Steps(next.value, ClassifyAll(Terminated(texts)))
  {
    var items := ClassifyAll(Terminated([text] + texts));
    ClassifyConcat([text], texts);
    ClassifyOne(text);
    assert items[0] == Classify(text + "\n") && items[1..] == ClassifyAll(Terminated(texts));
  }

  lemma TextsAppend(s: ParseState, a: seq<string>, b: seq<string>)
    requires Points(s)
    ensures var first := Steps(s, ClassifyAll(Terminated(a)));
      Steps(s, ClassifyAll(Terminated(a + b))) ==
        if first.None? then None else Steps(first.value, ClassifyAll(Terminated(b)))
  {
    ClassifyConcat(a, b);
    StepsAppend(s, ClassifyAll(Terminated(a)), ClassifyAll(Terminated(b)));
  }

  ghost predicate ChunkLinesFree(chunks: seq<Chunk>) {
    forall j, k :: 0 <= j < |chunks| && 0 <= k < |chunks[j].lines| ==> OneLine(chunks[j].lines[k].text)
  }

  /** After a file line the chunks are accepted exactly if none has a single-line range. */
  lemma {:induction false} ChunksAccepted(s: ParseState, chunks: seq<Chunk>)
    requires Points(s) && s.patches != [] && ChunkLinesFree(chunks)
    ensures var r := Steps(s, ClassifyAll(Terminated(DiffChunkTexts(chunks))));
      (r.Some? <==> NoneSingle(chunks)) && (r.Some? ==> r.value.patches != [])
    decreases |chunks|
  {
    if chunks != [] {
      var c := chunks[0];
      var b, d := |SrcLines(c.lines)|, |DstLines(c.lines)|;
      var header := DiffHeader(c.srcPos, b, c.dstPos, d);
      DiffHeaderRead(c.srcPos, b, c.dstPos, d);
      Regroup([header], BodyTexts(c.lines), DiffChunkTexts(chunks[1..]));
      OneTextMore(s, header, BodyTexts(c.lines) + DiffChunkTexts(chunks[1..]));
      if !SingleLine(c) {
        var begun := Step(s, Header(c.srcPos, c.dstPos)).value;
        TextsAppend(begun, BodyTexts(c.lines), DiffChunkTexts(chunks[1..]));
        BodiesAccepted(begun, c.lines);
        ChunksAccepted(Steps(begun, ClassifyAll(Terminated(BodyTexts(c.lines)))).value, chunks[1..]);
        assert forall j :: 1 <= j < |chunks| ==> chunks[j] == chunks[1..][j - 1];
      }
    }
  }

  /** The two file lines of a patch are accepted whatever came before. */
  lemma FileLinesAccepted(s: ParseState, src: string, dst: string, texts: seq<string>) returns (begun: ParseState)
    requires Points(s) && OneLine(src) && OneLine(dst)
    ensures Points(begun) && begun.patches != []
    ensures Steps(s, ClassifyAll(Terminated(["--- " + src, "+++ " + dst] + texts))) ==
      Steps(begun, ClassifyAll(Terminated(texts)))
  {
    FileSrcRead(src);
    FileDstRead(dst);
    var named := Step(s, FileSrc(src)).value;
    begun := Step(named, FileDst(dst)).value;
    OneTextMore(s, "--- " + src, ["+++ " + dst] + texts);
    OneTextMore(named, "+++ " + dst, texts);
    assert ["--- " + src, "+++ " + dst] + texts == ["--- " + src] + (["+++ " + dst] + texts);
  }

  lemma {:induction false} PatchesAccepted(s: ParseState, ps: Patchset)
    requires Points(s) && NewlineFree(ps)
    ensures Steps(s, ClassifyAll(Terminated(DiffTexts(ps)))).Some? <==> NoSingleLine(ps)
    decreases |ps|
  {
    if ps != [] {
      var p, rest := ps[0], DiffTexts(ps[1..]);
      assert PatchNewlineFree(p);
      var chunkTexts := DiffChunkTexts(p.chunks);
      Regroup(["--- " + p.src, "+++ " + p.dst], chunkTexts, rest);
      var begun := FileLinesAccepted(s, p.src, p.dst, chunkTexts + rest);
      TextsAppend(begun, chunkTexts, rest);
      ChunksAccepted(begun, p.chunks);
      var after := Steps(begun, ClassifyAll(Terminated(chunkTexts)));
      if after.Some? { PatchesAccepted(after.value, ps[1..]); }
      FirstAndRest(ps);
    }
  }

  lemma FirstAndRest(ps: Patchset)
    requires ps != []
    ensures NoSingleLine(ps) <==> NoneSingle(ps[0].chunks) && NoSingleLine(ps[1..])
  {
    assert forall i :: 1 <= i < |ps| ==> ps[i] == ps[1..][i - 1];
  }

  /** The parser raises exactly when some chunk is a single line on one of its sides. */
  lemma AcceptedIffNoSingleLine(ps: Patchset)
    requires NewlineFree(ps)
    ensures ParsePatchset(Terminated(DiffTexts(ps))).Some? <==> NoSingleLine(ps)
  {
    PatchesAccepted(START, ps);
  }

  lemma {:induction false} SameChunkTexts(chunks: seq<Chunk>)
    requires NoneSingle(chunks)
    ensures DiffChunkTexts(chunks) == ChunkTexts(chunks)
  {
    if chunks != [] {
      var c := chunks[0];
      assert DiffHeader(c.srcPos, |SrcLines(c.lines)|, c.dstPos, |DstLines(c.lines)|) == HeaderText(c);
      SameChunkTexts(chunks[1..]);
    }
  }

  /** Without single-line ranges the diff is what the printer of patches would write. */
  lemma {:induction false} SameTexts(ps: Patchset)
    requires NoSingleLine(ps)
    ensures DiffTexts(ps) == PatchsetTexts(ps)
  {
    if ps != [] {
      SameChunkTexts(ps[0].chunks);
      SameTexts(ps[1..]);
    }
  }

  /** A diff is read as the patch set it describes exactly when, besides, no line is mistaken for a
      file name. */
  lemma ReadIffCleanDiff(ps: Patchset)
    requires NewlineFree(ps)
    ensures ParsePatchset(Terminated(DiffTexts(ps))) == Some(ps) <==> NoSingleLine(ps) && Unmistaken(ps)
  {
    AcceptedIffNoSingleLine(ps);
    if NoSingleLine(ps) {
      SameTexts(ps);
      PatchsetOneLine(ps);
      FileLinesJoined(PatchsetTexts(ps));
      RoundTripIffUnmistaken(ps);
    }
  }

  lemma RemovedThenAdded(lines: seq<Line>)
    requires |lines| == 2 && lines[0].kind == SRC && lines[1].kind == DST
    ensures SrcLines(lines) == [lines[0]] && DstLines(lines) == [lines[1]]
    ensures BodyTexts(lines) == ["-" + lines[0].text, "+" + lines[1].text]
  {
    var first, second := lines[..1], lines[1..];
    assert first[..0] == [] && second[1..] == [];
    assert SrcLines(first) == [lines[0]] && DstLines(first) == [];
    assert BodyTexts(second) == ["+" + lines[1].text];
  }

  lemma OneLineChunkTexts(lines: seq<Line>)
    requires |lines| == 2 && lines[0].kind == SRC && lines[1].kind == DST
    ensures DiffChunkTexts([Chunk(1, 1, lines)]) == ["@@ -1 +1 @@", "-" + lines[0].text, "+" + lines[1].text]
    ensures SingleLine(Chunk(1, 1, lines))
  {
    RemovedThenAdded(lines);
    assert Show(1) == "1" && Range(1, 1) == "1";
    assert DiffHeader(1, 1, 1, 1) == "@@ -1 +1 @@";
    assert [Chunk(1, 1, lines)][1..] == [];
  }

  /** The diff of two different files of one line each. */
  lemma OneLineFilesRaise(src: string, dst: string, removed: string, added: string)
    requires OneLine(src) && OneLine(dst) && OneLine(removed) && OneLine(added)
    ensures ParsePatchset(Terminated(["--- " + src, "+++ " + dst] + ["@@ -1 +1 @@", "-" + removed, "+" + added])).None?
  {
    var p := Patch(src, dst, [Chunk(1, 1, [Line(SRC, removed), Line(DST, added)])]);
    OneLineChunkTexts(p.chunks[0].lines);
    assert DiffTexts([p]) == DiffPatchTexts(p);
    AcceptedIffNoSingleLine([p]);
    assert !NoneSingle([p][0].chunks);
  }
}
