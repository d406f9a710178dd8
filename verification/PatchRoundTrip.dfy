/** Parsing the written form of a patch set gives the patch set back, exactly when no
    removed or added line is taken for a file name. */
module PatchRoundTrip {
  import opened Decimal
  import opened PatchText
  import opened Sequences
  import opened Totals
  import opened Wrappers

  // ---- The written file is read back line by line

  ghost predicate OneLine(s: string) {
    '\n' !in s
  }

  function Terminated(texts: seq<string>): seq<string> {
    if texts == [] then [] else [texts[0] + "\n"] + Terminated(texts[1..])
  }

  lemma {:induction false} FirstFileLine(begun: string, t: string, rest: string)
    requires OneLine(t)
    ensures FileLinesFrom(begun, t + "\n" + rest) == [begun + t + "\n"] + FileLinesFrom("", rest)
    decreases |t|
  {
    var s := t + "\n" + rest;
    if t == "" {
      assert s[0] == '\n' && s[1..] == rest && begun + "" == begun;
    } else {
      assert s[0] == t[0] && s[1..] == t[1..] + "\n" + rest;
      FirstFileLine(begun + [t[0]], t[1..], rest);
      assert begun + [t[0]] + t[1..] == begun + t;
    }
  }

  lemma {:induction false} FileLinesJoined(texts: seq<string>)
    requires forall i :: 0 <= i < |texts| ==> OneLine(texts[i])
    ensures FileLines(Joined(texts)) == Terminated(texts)
  {
    if texts != [] {
      FirstFileLine("", texts[0], Joined(texts[1..]));
      FileLinesJoined(texts[1..]);
      assert "" + texts[0] == texts[0];
    }
  }

  lemma {:induction false} TerminatedConcat(a: seq<string>, b: seq<string>)
    ensures Terminated(a + b) == Terminated(a) + Terminated(b)
  {
    if a == [] {
      assert a + b == b;
    } else {
      assert (a + b)[0] == a[0] && (a + b)[1..] == a[1..] + b;
      TerminatedConcat(a[1..], b);
    }
  }

  // ---- Which pattern a written line meets

  lemma ToEndOfLine(t: string)
    requires OneLine(t)
    ensures ToEnd(t + "\n") == Some(t)
  {
    assert (t + "\n")[..|t|] == t;
  }

  lemma AfterPrefix(prefix: string, t: string)
    requires OneLine(t)
    ensures After(prefix, prefix + t + "\n") == Some(t)
  {
    assert (prefix + t + "\n")[|prefix|..] == t + "\n";
    ToEndOfLine(t);
  }

  lemma FileSrcRead(name: string)
    requires OneLine(name)
    ensures Classify("--- " + name + "\n") == FileSrc(name)
  {
    AfterPrefix("--- ", name);
  }

  lemma FileDstRead(name: string)
    requires OneLine(name)
    ensures Classify("+++ " + name + "\n") == FileDst(name)
  {
    OtherMark("--- ", "+++ " + name + "\n");
    AfterPrefix("+++ ", name);
  }

  lemma NumberRead(prefix: string, n: nat, rest: string)
    requires rest == "" || !IsDigit(rest[0])
    ensures NumberAfter(prefix, prefix + Show(n) + rest) == Some((n, rest))
  {
    var s := prefix + Show(n) + rest;
    assert s[|prefix|..] == Show(n) + rest;
    DigitSpanUpTo(Show(n), rest);
    assert (Show(n) + rest)[..|Show(n)|] == Show(n);
    assert (Show(n) + rest)[|Show(n)|..] == rest;
    ReadShow(n);
  }

  /** The four numbers of a header line, read one after the other from the left. */
  lemma FourNumbersRead(a: nat, b: nat, c: nat, d: nat, rest: string)
    requires " @@" <= rest
    ensures HeaderNumbers("@@ -" + Show(a) + ("," + Show(b) + (" +" + Show(c) + ("," + Show(d) + rest)))) == Some((a, b, c, d))
  {
    var r3 := "," + Show(d) + rest;
    var r2 := " +" + Show(c) + r3;
    var r1 := "," + Show(b) + r2;
    NumberRead("@@ -", a, r1);
    NumberRead(",", b, r2);
    NumberRead(" +", c, r3);
    NumberRead(",", d, rest);
  }

  lemma HeaderRegroups(c: Chunk)
    ensures HeaderText(c) + "\n" ==
      "@@ -" + Show(c.srcPos) + ("," + Show(|SrcLines(c.lines)|) + (" +" + Show(c.dstPos)
      + ("," + Show(|DstLines(c.lines)|) + (" @@" + "\n"))))
  {
    var a, b := Show(c.srcPos), Show(|SrcLines(c.lines)|);
    var d, e := Show(c.dstPos), Show(|DstLines(c.lines)|);
    var p2 := "@@ -" + a;
    var p4 := p2 + "," + b;
    var p6 := p4 + " +" + d;
    var p8 := p6 + "," + e;
    var r4 := " @@" + "\n";
    Regroup(p8, " @@", "\n");
    RegroupTwo(p6, ",", e, r4);
    RegroupTwo(p4, " +", d, "," + e + r4);
    RegroupTwo(p2, ",", b, " +" + d + ("," + e + r4));
  }

  lemma RegroupTwo(p: string, x: string, y: string, z: string)
    ensures (p + x + y) + z == p + (x + y + z)
  {
    Regroup(p + x, y, z);
    Regroup(p, x, y + z);
    Regroup(x, y, z);
  }

  /** The header carries the positions and, as its counts, the numbers of source-side and
      destination-side lines. */
  lemma HeaderRead(c: Chunk)
    ensures HeaderNumbers(HeaderText(c) + "\n") == Some((c.srcPos, |SrcLines(c.lines)|, c.dstPos, |DstLines(c.lines)|))
    ensures Classify(HeaderText(c) + "\n") == Header(c.srcPos, c.dstPos)
  {
    HeaderRegroups(c);
    FourNumbersRead(c.srcPos, |SrcLines(c.lines)|, c.dstPos, |DstLines(c.lines)|, " @@" + "\n");
    HeaderMatched(HeaderText(c) + "\n");
  }

  lemma HeaderMatched(s: string)
    ensures HeaderNumbers(s).Some? ==> Classify(s) == Header(HeaderNumbers(s).value.0, HeaderNumbers(s).value.2)
  {
    if HeaderNumbers(s).Some? {
      HeaderStart(s);
      OtherMark("--- ", s);
      OtherMark("+++ ", s);
    }
  }

  lemma HeaderStart(s: string)
    ensures HeaderNumbers(s).Some? ==> s != "" && s[0] == '@'
  {
    if HeaderNumbers(s).Some? { NumberStart("@@ -", s); }
  }

  lemma NumberStart(prefix: string, s: string)
    requires NumberAfter(prefix, s).Some? && prefix != ""
    ensures s != "" && s[0] == prefix[0]
  {
  }

  /** A line whose first character differs does not meet the pattern. */
  lemma OtherMark(prefix: string, s: string)
    requires prefix != "" && s != "" && s[0] != prefix[0]
    ensures After(prefix, s).None?
  {
  }

  /** A removed line that reads like a source file name, or an added one that reads like a
      destination file name, once the marker is in front. */
  predicate Mistaken(l: Line) {
    (l.kind == SRC && "-- " <= l.text) || (l.kind == DST && "++ " <= l.text)
  }

  lemma BodyRead(l: Line)
    requires OneLine(l.text)
    ensures !Mistaken(l) ==> Classify(LineText(l) + "\n") == Body(l)
    ensures Mistaken(l) ==> Classify(LineText(l) + "\n").FileSrc? || Classify(LineText(l) + "\n").FileDst?
  {
    match l.kind
    case SRC => RemovedRead(l.text);
    case DST => AddedRead(l.text);
    case BOTH => ContextRead(l.text);
  }

  lemma NotAHeader(s: string)
    requires s != "" && s[0] != '@'
    ensures HeaderNumbers(s).None?
  {
    HeaderStart(s);
  }

  lemma ContextRead(t: string)
    requires OneLine(t)
    ensures Classify(" " + t + "\n") == Body(Line(BOTH, t))
  {
    var s := " " + t + "\n";
    assert s[0] == ' ';
    OtherMark("--- ", s);
    OtherMark("+++ ", s);
    NotAHeader(s);
    OtherMark("-", s);
    OtherMark("+", s);
    AfterPrefix(" ", t);
  }

  lemma RemovedRead(t: string)
    requires OneLine(t)
    ensures Classify("-" + t + "\n") == if "-- " <= t then FileSrc(t[3..]) else Body(Line(SRC, t))
  {
    var s := "-" + t + "\n";
    assert s[0] == '-';
    OtherMark("+++ ", s);
    NotAHeader(s);
    AfterPrefix("-", t);
    MarkedPrefix("-", "-- ", t);
    assert "-" + "-- " == "--- ";
    if "-- " <= t { MistakenTail("-", "-- ", t); }
  }

  lemma AddedRead(t: string)
    requires OneLine(t)
    ensures Classify("+" + t + "\n") == if "++ " <= t then FileDst(t[3..]) else Body(Line(DST, t))
  {
    var s := "+" + t + "\n";
    assert s[0] == '+';
    OtherMark("--- ", s);
    NotAHeader(s);
    OtherMark("-", s);
    AfterPrefix("+", t);
    MarkedPrefix("+", "++ ", t);
    assert "+" + "++ " == "+++ ";
    if "++ " <= t { MistakenTail("+", "++ ", t); }
  }

  lemma MarkedPrefix(mark: string, prefix: string, t: string)
    requires OneLine(prefix)
    ensures mark + prefix <= mark + t + "\n" <==> prefix <= t
  {
    var s := mark + t + "\n";
    assert s[|mark|..] == t + "\n";
    if mark + prefix <= s {
      assert prefix == (mark + prefix)[|mark|..];
      assert prefix <= t + "\n";
      PrefixOfLine(prefix, t);
    }
  }

  lemma PrefixOfLine(prefix: string, t: string)
    requires prefix <= t + "\n"
    ensures prefix <= t || '\n' in prefix
  {
    if |t| < |prefix| {
      assert prefix[|t|] == '\n';
    }
  }

  lemma MistakenTail(mark: string, prefix: string, t: string)
    requires prefix <= t && OneLine(t)
    ensures After(mark + prefix, mark + t + "\n") == Some(t[|prefix|..])
  {
    var tail := t[|prefix|..];
    assert OneLine(tail);
    assert t == prefix + tail;
    Regroup(mark, prefix, tail);
    AfterPrefix(mark + prefix, tail);
  }

  // ---- The classified lines of a written patch set

  function BodyItems(lines: seq<Line>): seq<Parsed> {
    if lines == [] then [] else [Body(lines[0])] + BodyItems(lines[1..])
  }

  function ChunkItems(chunks: seq<Chunk>): seq<Parsed> {
    if chunks == [] then []
    else [Header(chunks[0].srcPos, chunks[0].dstPos)] + BodyItems(chunks[0].lines) + ChunkItems(chunks[1..])
  }

  function PatchItems(p: Patch): seq<Parsed> {
    [FileSrc(p.src), FileDst(p.dst)] + ChunkItems(p.chunks)
  }

  function PatchsetItems(ps: Patchset): seq<Parsed> {
    if ps == [] then [] else PatchItems(ps[0]) + PatchsetItems(ps[1..])
  }

  ghost predicate LinesReadable(lines: seq<Line>) {
    forall i :: 0 <= i < |lines| ==> OneLine(lines[i].text) && !Mistaken(lines[i])
  }

  ghost predicate ChunksReadable(chunks: seq<Chunk>) {
    forall i :: 0 <= i < |chunks| ==> LinesReadable(chunks[i].lines)
  }

  ghost predicate Readable(p: Patch) {
    OneLine(p.src) && OneLine(p.dst) && ChunksReadable(p.chunks)
  }

  lemma ClassifyConcat(a: seq<string>, b: seq<string>)
    ensures ClassifyAll(Terminated(a + b)) == ClassifyAll(Terminated(a)) + ClassifyAll(Terminated(b))
  {
    TerminatedConcat(a, b);
  }

  lemma ClassifyOne(text: string)
    ensures ClassifyAll(Terminated([text])) == [Classify(text + "\n")]
  {
    assert Terminated([text]) == [text + "\n"];
  }

  lemma {:induction false} BodiesClassified(lines: seq<Line>)
    requires LinesReadable(lines)
    ensures ClassifyAll(Terminated(BodyTexts(lines))) == BodyItems(lines)
  {
    if lines != [] {
      BodyRead(lines[0]);
      ClassifyOne(LineText(lines[0]));
      BodiesClassified(lines[1..]);
      ClassifyConcat([LineText(lines[0])], BodyTexts(lines[1..]));
    }
  }

  lemma {:induction false} ChunksClassified(chunks: seq<Chunk>)
    requires ChunksReadable(chunks)
    ensures ClassifyAll(Terminated(ChunkTexts(chunks))) == ChunkItems(chunks)
  {
    if chunks != [] {
      HeaderRead(chunks[0]);
      ClassifyOne(HeaderText(chunks[0]));
      BodiesClassified(chunks[0].lines);
      ClassifyConcat([HeaderText(chunks[0])], BodyTexts(chunks[0].lines));
      ChunksClassified(chunks[1..]);
      ClassifyConcat([HeaderText(chunks[0])] + BodyTexts(chunks[0].lines), ChunkTexts(chunks[1..]));
    }
  }

  lemma PatchClassified(p: Patch)
    requires Readable(p)
    ensures ClassifyAll(Terminated(PatchTexts(p))) == PatchItems(p)
  {
    var a, b := "--- " + p.src, "+++ " + p.dst;
    FileSrcRead(p.src);
    FileDstRead(p.dst);
    ClassifyOne(a);
    ClassifyOne(b);
    ClassifyConcat([a], [b]);
    assert [a] + [b] == [a, b];
    ChunksClassified(p.chunks);
    ClassifyConcat([a, b], ChunkTexts(p.chunks));
  }

  lemma {:induction false} PatchsetClassified(ps: Patchset)
    requires forall i :: 0 <= i < |ps| ==> Readable(ps[i])
    ensures ClassifyAll(Terminated(PatchsetTexts(ps))) == PatchsetItems(ps)
  {
    if ps != [] {
      PatchClassified(ps[0]);
      PatchsetClassified(ps[1..]);
      ClassifyConcat(PatchTexts(ps[0]), PatchsetTexts(ps[1..]));
    }
  }

  // ---- Building the patch set back from its items

  /** The state while the last chunk of the last patch is being filled. */
  function Filling(done: Patchset, p: Patch, chunks: seq<Chunk>, c: Chunk): (s: ParseState)
    ensures Points(s)
  {
    ParseState(done + [p.(chunks := chunks + [c])], Some((|done|, |chunks|)))
  }

  lemma LastReplaced<A>(s: seq<A>, x: A, y: A)
    ensures (s + [x])[|s| := y] == s + [y]
  {
  }

  lemma LineAdded(done: Patchset, p: Patch, chunks: seq<Chunk>, c: Chunk, l: Line)
    ensures Step(Filling(done, p, chunks, c), Body(l)) == Some(Filling(done, p, chunks, c.(lines := c.lines + [l])))
  {
    var d := c.(lines := c.lines + [l]);
    LastReplaced(chunks, c, d);
    LastReplaced(done, p.(chunks := chunks + [c]), p.(chunks := chunks + [d]));
  }

  lemma {:induction false} BodiesBuilt(done: Patchset, p: Patch, chunks: seq<Chunk>, c: Chunk, lines: seq<Line>)
    ensures Steps(Filling(done, p, chunks, c), BodyItems(lines)) ==
      Some(Filling(done, p, chunks, c.(lines := c.lines + lines)))
    decreases |lines|
  {
    if lines == [] {
      assert c.lines + [] == c.lines;
    } else {
      LineAdded(done, p, chunks, c, lines[0]);
      BodiesBuilt(done, p, chunks, c.(lines := c.lines + [lines[0]]), lines[1..]);
      assert c.lines + [lines[0]] + lines[1..] == c.lines + lines;
      assert BodyItems(lines)[1..] == BodyItems(lines[1..]);
    }
  }

  lemma OneChunkBuilt(done: Patchset, p: Patch, chunks: seq<Chunk>, c: Chunk, s: ParseState)
    requires Points(s) && s.patches == done + [p.(chunks := chunks)]
    ensures Steps(s, [Header(c.srcPos, c.dstPos)] + BodyItems(c.lines)) == Some(Filling(done, p, chunks, c))
  {
    var empty := Chunk(c.srcPos, c.dstPos, []);
    var items := [Header(c.srcPos, c.dstPos)] + BodyItems(c.lines);
    LastReplaced(done, p.(chunks := chunks), p.(chunks := chunks + [empty]));
    assert Step(s, items[0]) == Some(Filling(done, p, chunks, empty));
    BodiesBuilt(done, p, chunks, empty, c.lines);
    assert [] + c.lines == c.lines;
    assert items[1..] == BodyItems(c.lines);
  }

  lemma {:induction false} ChunksBuilt(done: Patchset, p: Patch, chunks: seq<Chunk>, more: seq<Chunk>, s: ParseState)
    returns (r: ParseState)
    requires Points(s) && s.patches == done + [p.(chunks := chunks)]
    ensures Points(r) && r.patches == done + [p.(chunks := chunks + more)]
    ensures Steps(s, ChunkItems(more)) == Some(r)
    decreases |more|
  {
    if more == [] {
      assert chunks + [] == chunks;
      return s;
    }
    var c := more[0];
    OneChunkBuilt(done, p, chunks, c, s);
    r := ChunksBuilt(done, p, chunks + [c], more[1..], Filling(done, p, chunks, c));
    assert chunks + [c] + more[1..] == chunks + more;
    StepsAppend(s, [Header(c.srcPos, c.dstPos)] + BodyItems(c.lines), ChunkItems(more[1..]));
  }

  lemma NamesBuilt(done: Patchset, p: Patch, s: ParseState)
    requires Points(s) && s.patches == done
    ensures Steps(s, [FileSrc(p.src), FileDst(p.dst)]) == Some(s.(patches := done + [p.(chunks := [])]))
  {
    var named := s.(patches := done + [Patch(p.src, "", [])]);
    assert Step(s, FileSrc(p.src)) == Some(named);
    LastReplaced(done, Patch(p.src, "", []), p.(chunks := []));
    assert Step(named, FileDst(p.dst)) == Some(s.(patches := done + [p.(chunks := [])]));
    assert [FileSrc(p.src), FileDst(p.dst)][1..] == [FileDst(p.dst)];
    var rest := [FileDst(p.dst)];
    assert rest[1..] == [];
    assert Steps(named, rest) == Some(s.(patches := done + [p.(chunks := [])]));
  }

  lemma PatchBuilt(done: Patchset, p: Patch, s: ParseState) returns (r: ParseState)
    requires Points(s) && s.patches == done
    ensures Points(r) && r.patches == done + [p]
    ensures Steps(s, PatchItems(p)) == Some(r)
  {
    NamesBuilt(done, p, s);
    r := ChunksBuilt(done, p, [], p.chunks, s.(patches := done + [p.(chunks := [])]));
    assert [] + p.chunks == p.chunks;
    StepsAppend(s, [FileSrc(p.src), FileDst(p.dst)], ChunkItems(p.chunks));
  }

  lemma {:induction false} PatchsetBuilt(done: Patchset, ps: Patchset, s: ParseState) returns (r: ParseState)
    requires Points(s) && s.patches == done
    ensures Points(r) && r.patches == done + ps
    ensures Steps(s, PatchsetItems(ps)) == Some(r)
    decreases |ps|
  {
    if ps == [] {
      assert done + [] == done;
      return s;
    }
    var mid := PatchBuilt(done, ps[0], s);
    r := PatchsetBuilt(done + [ps[0]], ps[1..], mid);
    assert done + [ps[0]] + ps[1..] == done + ps;
    StepsAppend(s, PatchItems(ps[0]), PatchsetItems(ps[1..]));
  }

  // ---- The theorem, both ways

  ghost predicate NewlineFree(ps: Patchset) {
    forall i :: 0 <= i < |ps| ==> PatchNewlineFree(ps[i])
  }

  ghost predicate PatchNewlineFree(p: Patch) {
    && OneLine(p.src) && OneLine(p.dst)
    && forall j, k :: 0 <= j < |p.chunks| && 0 <= k < |p.chunks[j].lines| ==> OneLine(p.chunks[j].lines[k].text)
  }

  /** No removed line starts with "-- " and no added line with "++ ". */
  ghost predicate Unmistaken(ps: Patchset) {
    forall i, j, k :: 0 <= i < |ps| && 0 <= j < |ps[i].chunks| && 0 <= k < |ps[i].chunks[j].lines| ==>
      !Mistaken(ps[i].chunks[j].lines[k])
  }

  lemma ShowOneLine(n: nat)
    ensures OneLine(Show(n))
  {
  }

  lemma HeaderOneLine(c: Chunk)
    ensures OneLine(HeaderText(c))
  {
    ShowOneLine(c.srcPos);
    ShowOneLine(c.dstPos);
    ShowOneLine(|SrcLines(c.lines)|);
    ShowOneLine(|DstLines(c.lines)|);
  }

  ghost predicate AllOneLine(texts: seq<string>) {
    forall i :: 0 <= i < |texts| ==> OneLine(texts[i])
  }

  lemma {:induction false} BodiesOneLine(lines: seq<Line>)
    requires forall k :: 0 <= k < |lines| ==> OneLine(lines[k].text)
    ensures AllOneLine(BodyTexts(lines))
  {
    if lines != [] { BodiesOneLine(lines[1..]); }
  }

  lemma {:induction false} ChunksOneLine(chunks: seq<Chunk>)
    requires forall j, k :: 0 <= j < |chunks| && 0 <= k < |chunks[j].lines| ==> OneLine(chunks[j].lines[k].text)
    ensures AllOneLine(ChunkTexts(chunks))
  {
    if chunks != [] {
      HeaderOneLine(chunks[0]);
      BodiesOneLine(chunks[0].lines);
      ChunksOneLine(chunks[1..]);
    }
  }

  lemma PatchOneLine(p: Patch)
    requires PatchNewlineFree(p)
    ensures AllOneLine(PatchTexts(p))
  {
    ChunksOneLine(p.chunks);
  }

  lemma {:induction false} PatchsetOneLine(ps: Patchset)
    requires NewlineFree(ps)
    ensures AllOneLine(PatchsetTexts(ps))
  {
    if ps != [] {
      PatchOneLine(ps[0]);
      PatchsetOneLine(ps[1..]);
    }
  }

  // How many lines patch sets and items hold.

  ghost function ChunkSize(c: Chunk): int { |c.lines| }

  ghost function PatchSize(p: Patch): int { Total(p.chunks, ChunkSize) }

  ghost function IsBody(item: Parsed): int { if item.Body? then 1 else 0 }

  lemma StepSize(s: ParseState, item: Parsed)
    requires Points(s) && Step(s, item).Some?
    ensures Total(Step(s, item).value.patches, PatchSize) == Total(s.patches, PatchSize) + IsBody(item)
  {
    match item
    case FileSrc(name) => PatchAdded(s.patches, name);
    case FileDst(name) => PatchNamed(s.patches, |s.patches| - 1, name);
    case Header(srcPos, dstPos) => ChunkAdded(s.patches, |s.patches| - 1, Chunk(srcPos, dstPos, []));
    case Body(l) => OneLineMore(s.patches, s.current.value.0, s.current.value.1, l);
    case Bad =>
  }

  lemma PatchAdded(ps: Patchset, name: string)
    ensures Total(ps + [Patch(name, "", [])], PatchSize) == Total(ps, PatchSize)
  {
    TotalPush(ps, Patch(name, "", []), PatchSize);
  }

  lemma PatchNamed(ps: Patchset, i: nat, name: string)
    requires i < |ps|
    ensures Total(ps[i := ps[i].(dst := name)], PatchSize) == Total(ps, PatchSize)
  {
    TotalReplace(ps, i, ps[i].(dst := name), PatchSize);
  }

  lemma ChunkAdded(ps: Patchset, i: nat, c: Chunk)
    requires i < |ps| && c.lines == []
    ensures Total(ps[i := ps[i].(chunks := ps[i].chunks + [c])], PatchSize) == Total(ps, PatchSize)
  {
    TotalPush(ps[i].chunks, c, ChunkSize);
    TotalReplace(ps, i, ps[i].(chunks := ps[i].chunks + [c]), PatchSize);
  }

  lemma OneLineMore(ps: Patchset, i: nat, j: nat, l: Line)
    requires i < |ps| && j < |ps[i].chunks|
    ensures Total(AddLine(ps, i, j, l), PatchSize) == Total(ps, PatchSize) + 1
  {
    var c := ps[i].chunks[j];
    var d := c.(lines := c.lines + [l]);
    TotalReplace(ps[i].chunks, j, d, ChunkSize);
    TotalReplace(ps, i, ps[i].(chunks := ps[i].chunks[j := d]), PatchSize);
  }

  lemma {:induction false} StepsSize(s: ParseState, items: seq<Parsed>)
    requires Points(s) && Steps(s, items).Some?
    ensures Total(Steps(s, items).value.patches, PatchSize) == Total(s.patches, PatchSize) + Total(items, IsBody)
    decreases |items|
  {
    if items != [] {
      StepSize(s, items[0]);
      StepsSize(Step(s, items[0]).value, items[1..]);
      TotalPop(items, IsBody);
    }
  }

  // How many of the lines of a patch set are mistaken for file names when read back.

  ghost function IsMistaken(l: Line): int { if Mistaken(l) then 1 else 0 }

  ghost function ChunkMistakes(c: Chunk): int { Total(c.lines, IsMistaken) }

  ghost function PatchMistakes(p: Patch): int { Total(p.chunks, ChunkMistakes) }

  /** The body lines recognised when the texts are read back. */
  ghost function BodiesIn(texts: seq<string>): int {
    Total(ClassifyAll(Terminated(texts)), IsBody)
  }

  lemma BodiesInConcat(a: seq<string>, b: seq<string>)
    ensures BodiesIn(a + b) == BodiesIn(a) + BodiesIn(b)
  {
    ClassifyConcat(a, b);
    TotalConcat(ClassifyAll(Terminated(a)), ClassifyAll(Terminated(b)), IsBody);
  }

  lemma BodiesInOne(text: string)
    ensures BodiesIn([text]) == IsBody(Classify(text + "\n"))
  {
    ClassifyOne(text);
    TotalOne(Classify(text + "\n"), IsBody);
  }

  lemma {:induction false} BodiesInBody(lines: seq<Line>)
    requires forall k :: 0 <= k < |lines| ==> OneLine(lines[k].text)
    ensures BodiesIn(BodyTexts(lines)) == |lines| - Total(lines, IsMistaken)
  {
    if lines != [] {
      BodyRead(lines[0]);
      BodiesInOne(LineText(lines[0]));
      BodiesInBody(lines[1..]);
      BodiesInConcat([LineText(lines[0])], BodyTexts(lines[1..]));
      TotalPop(lines, IsMistaken);
    }
  }

  lemma {:induction false} BodiesInChunks(chunks: seq<Chunk>)
    requires forall j, k :: 0 <= j < |chunks| && 0 <= k < |chunks[j].lines| ==> OneLine(chunks[j].lines[k].text)
    ensures BodiesIn(ChunkTexts(chunks)) == Total(chunks, ChunkSize) - Total(chunks, ChunkMistakes)
  {
    if chunks != [] {
      var header, body := [HeaderText(chunks[0])], BodyTexts(chunks[0].lines);
      HeaderRead(chunks[0]);
      BodiesInOne(HeaderText(chunks[0]));
      BodiesInBody(chunks[0].lines);
      BodiesInChunks(chunks[1..]);
      BodiesInConcat(header, body);
      BodiesInConcat(header + body, ChunkTexts(chunks[1..]));
      TotalPop(chunks, ChunkSize);
      TotalPop(chunks, ChunkMistakes);
    }
  }

  lemma BodiesInPatch(p: Patch)
    requires PatchNewlineFree(p)
    ensures BodiesIn(PatchTexts(p)) == PatchSize(p) - PatchMistakes(p)
  {
    var a, b := "--- " + p.src, "+++ " + p.dst;
    FileSrcRead(p.src);
    FileDstRead(p.dst);
    BodiesInOne(a);
    BodiesInOne(b);
    BodiesInConcat([a], [b]);
    assert [a] + [b] == [a, b];
    BodiesInChunks(p.chunks);
    BodiesInConcat([a, b], ChunkTexts(p.chunks));
  }

  lemma {:induction false} BodiesInPatchset(ps: Patchset)
    requires NewlineFree(ps)
    ensures BodiesIn(PatchsetTexts(ps)) == Total(ps, PatchSize) - Total(ps, PatchMistakes)
  {
    if ps != [] {
      BodiesInPatch(ps[0]);
      BodiesInPatchset(ps[1..]);
      BodiesInConcat(PatchTexts(ps[0]), PatchsetTexts(ps[1..]));
      TotalPop(ps, PatchSize);
      TotalPop(ps, PatchMistakes);
    }
  }

  lemma MistakesShow(ps: Patchset)
    requires !Unmistaken(ps)
    ensures Total(ps, PatchMistakes) > 0
  {
    var i, j, k :| 0 <= i < |ps| && 0 <= j < |ps[i].chunks| && 0 <= k < |ps[i].chunks[j].lines|
      && Mistaken(ps[i].chunks[j].lines[k]);
    TotalPositive(ps[i].chunks[j].lines, IsMistaken, k);
    forall c: Chunk ensures ChunkMistakes(c) >= 0 { TotalNonNegative(c.lines, IsMistaken); }
    TotalPositive(ps[i].chunks, ChunkMistakes, j);
    forall p: Patch ensures PatchMistakes(p) >= 0 { TotalNonNegative(p.chunks, ChunkMistakes); }
    TotalPositive(ps, PatchMistakes, i);
  }

  /** Parsing what was written gives back the same patches, chunks, kinds and texts
      exactly when no line is mistaken for a file name. */
  lemma RoundTripIffUnmistaken(ps: Patchset)
    requires NewlineFree(ps)
    ensures ParsePatchset(FileLines(Write(ps))) == Some(ps) <==> Unmistaken(ps)
  {
    var texts := PatchsetTexts(ps);
    PatchsetOneLine(ps);
    FileLinesJoined(texts);
    if Unmistaken(ps) {
      forall i | 0 <= i < |ps| ensures Readable(ps[i]) {
        assert PatchNewlineFree(ps[i]);
      }
      PatchsetClassified(ps);
      var r := PatchsetBuilt([], ps, START);
      assert [] + ps == ps;
    } else if Steps(START, ClassifyAll(Terminated(texts))).Some? {
      StepsSize(START, ClassifyAll(Terminated(texts)));
      BodiesInPatchset(ps);
      MistakesShow(ps);
    }
  }
}
