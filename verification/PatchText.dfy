/** Unified-diff patch sets as values: how they are written and how lines are parsed. */
module PatchText {
  import opened Decimal
  import opened Wrappers

  datatype Kind = SRC | DST | BOTH

  datatype Line = Line(kind: Kind, text: string) {
    predicate IsSrc() { kind == SRC || kind == BOTH }

    predicate IsDst() { kind == DST || kind == BOTH }
  }

  datatype Chunk = Chunk(srcPos: nat, dstPos: nat, lines: seq<Line>)

  datatype Patch = Patch(src: string, dst: string, chunks: seq<Chunk>)

  type Patchset = seq<Patch>

  function SrcLines(lines: seq<Line>): seq<Line> {
    if lines == [] then []
    else SrcLines(lines[..|lines| - 1]) + if lines[|lines| - 1].IsSrc() then [lines[|lines| - 1]] else []
  }

  function DstLines(lines: seq<Line>): seq<Line> {
    if lines == [] then []
    else DstLines(lines[..|lines| - 1]) + if lines[|lines| - 1].IsDst() then [lines[|lines| - 1]] else []
  }

  // ---- Writing

  function LineText(l: Line): string {
    (match l.kind case SRC => "-" case DST => "+" case BOTH => " ") + l.text
  }

  function HeaderText(c: Chunk): string {
    "@@ -" + Show(c.srcPos) + "," + Show(|SrcLines(c.lines)|) + " +" + Show(c.dstPos) + "," + Show(|DstLines(c.lines)|) + " @@"
  }

  function BodyTexts(lines: seq<Line>): seq<string> {
    if lines == [] then [] else [LineText(lines[0])] + BodyTexts(lines[1..])
  }

  function ChunkTexts(chunks: seq<Chunk>): seq<string> {
    if chunks == [] then []
    else [HeaderText(chunks[0])] + BodyTexts(chunks[0].lines) + ChunkTexts(chunks[1..])
  }

  function PatchTexts(p: Patch): seq<string> {
    ["--- " + p.src, "+++ " + p.dst] + ChunkTexts(p.chunks)
  }

  function PatchsetTexts(ps: Patchset): seq<string> {
    if ps == [] then [] else PatchTexts(ps[0]) + PatchsetTexts(ps[1..])
  }

  /** The file: every line ended by a newline. */
  function Joined(texts: seq<string>): string {
    if texts == [] then "" else texts[0] + "\n" + Joined(texts[1..])
  }

  function Write(ps: Patchset): string {
    Joined(PatchsetTexts(ps))
  }

  /** Iterating over a file: lines with their newline, the last one perhaps without. */
  function FileLines(s: string): seq<string> {
    FileLinesFrom("", s)
  }

  function FileLinesFrom(begun: string, s: string): seq<string>
    decreases |s|
  {
    if s == "" then (if begun == "" then [] else [begun])
    else if s[0] == '\n' then [begun + "\n"] + FileLinesFrom("", s[1..])
    else FileLinesFrom(begun + [s[0]], s[1..])
  }

  // ---- Parsing one line

  datatype Parsed = FileSrc(name: string) | FileDst(name: string) | Header(srcPos: nat, dstPos: nat) | Body(line: Line) | Bad

  /** A dot-star group followed by the end anchor, which lets one final newline pass. */
  function ToEnd(s: string): Option<string> {
    var t := if s != "" && s[|s| - 1] == '\n' then s[..|s| - 1] else s;
    if '\n' in t then None else Some(t)
  }

  /** The rest of s after a fixed prefix, captured up to the end. */
  function After(prefix: string, s: string): Option<string> {
    if prefix <= s then ToEnd(s[|prefix|..]) else None
  }

  /** A number after a fixed prefix: its value and what follows. */
  function NumberAfter(prefix: string, s: string): Option<(nat, string)> {
    if !(prefix <= s) then None
    else
      var rest := s[|prefix|..];
      var n := DigitSpan(rest);
      if n == 0 then None else (ReadNonNegative(rest[..n]); Some((Read(rest[..n]), rest[n..])))
  }

  /** The four numbers of a chunk header; anything may follow it. */
  function HeaderNumbers(s: string): Option<(nat, nat, nat, nat)> {
    var a := NumberAfter("@@ -", s);
    if a.None? then None else
    var b := NumberAfter(",", a.value.1);
    if b.None? then None else
    var c := NumberAfter(" +", b.value.1);
    if c.None? then None else
    var d := NumberAfter(",", c.value.1);
    if d.None? || !(" @@" <= d.value.1) then None
    else Some((a.value.0, b.value.0, c.value.0, d.value.0))
  }

  /** The six patterns in the order they are tried. */
  function Classify(s: string): Parsed {
    if After("--- ", s).Some? then FileSrc(After("--- ", s).value)
    else if After("+++ ", s).Some? then FileDst(After("+++ ", s).value)
    else if HeaderNumbers(s).Some? then Header(HeaderNumbers(s).value.0, HeaderNumbers(s).value.2)
    else if After("-", s).Some? then Body(Line(SRC, After("-", s).value))
    else if After("+", s).Some? then Body(Line(DST, After("+", s).value))
    else if After(" ", s).Some? then Body(Line(BOTH, After(" ", s).value))
    else Bad
  }

  // ---- Parsing a patch set

  /** The patches so far and which chunk the last header opened. A new file does not close
      that chunk. */
  datatype ParseState = ParseState(patches: Patchset, current: Option<(nat, nat)>)

  const START := ParseState([], None)

  predicate Points(s: ParseState) {
    s.current.Some? ==>
      s.current.value.0 < |s.patches| && s.current.value.1 < |s.patches[s.current.value.0].chunks|
  }

  function AddLine(ps: Patchset, i: nat, j: nat, l: Line): Patchset
    requires i < |ps| && j < |ps[i].chunks|
  {
    var chunk := ps[i].chunks[j];
    ps[i := ps[i].(chunks := ps[i].chunks[j := chunk.(lines := chunk.lines + [l])])]
  }

  /** One classified line; None is any of the exceptions. */
  function Step(s: ParseState, item: Parsed): (r: Option<ParseState>)
    requires Points(s)
    ensures r.Some? ==> Points(r.value)
  {
    var last := |s.patches| - 1;
    match item
    case FileSrc(name) => Some(s.(patches := s.patches + [Patch(name, "", [])]))
    case FileDst(name) =>
      if s.patches == [] then None else Some(s.(patches := s.patches[last := s.patches[last].(dst := name)]))
    case Header(srcPos, dstPos) =>
      if s.patches == [] then None
      else
        var p := s.patches[last];
        Some(ParseState(s.patches[last := p.(chunks := p.chunks + [Chunk(srcPos, dstPos, [])])],
                        Some((last, |p.chunks|))))
    case Body(l) =>
      if s.current.None? then None
      else Some(s.(patches := AddLine(s.patches, s.current.value.0, s.current.value.1, l)))
    case Bad => None
  }

  function Steps(s: ParseState, items: seq<Parsed>): (r: Option<ParseState>)
    requires Points(s)
    ensures r.Some? ==> Points(r.value)
    decreases |items|
  {
    if items == [] then Some(s)
    else
      var next := Step(s, items[0]);
      if next.None? then None else Steps(next.value, items[1..])
  }

  lemma {:induction false} StepsAppend(s: ParseState, a: seq<Parsed>, b: seq<Parsed>)
    requires Points(s)
    ensures Steps(s, a + b) == if Steps(s, a).None? then None else Steps(Steps(s, a).value, b)
    decreases |a|
  {
    if a == [] {
      assert a + b == b;
    } else {
      assert (a + b)[0] == a[0] && (a + b)[1..] == a[1..] + b;
      var next := Step(s, a[0]);
      if next.Some? { StepsAppend(next.value, a[1..], b); }
    }
  }

  function ClassifyAll(lines: seq<string>): (items: seq<Parsed>)
    ensures |items| == |lines|
  {
    seq(|lines|, i requires 0 <= i < |lines| => Classify(lines[i]))
  }

  function ParsePatchset(lines: seq<string>): Option<Patchset> {
    var s := Steps(START, ClassifyAll(lines));
    if s.None? then None else Some(s.value.patches)
  }
}
