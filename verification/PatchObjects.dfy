/** The parser's objects on the heap: patches hold chunks, chunks hold line objects, and
    the source-side and destination-side views of a chunk share those line objects. */
module PatchObjects {
  import opened PatchText
  import opened Wrappers

  class PatchChunkLine {
    var kind: Option<Kind>
    var line: string
    ghost var place: (nat, nat, nat)     // patch, chunk and line index

    constructor ()
      ensures kind == None && line == ""
    {
      kind, line := None, "";
    }

    method SetSrc(text: string)
      modifies this`kind, this`line
      ensures kind == Some(SRC) && line == text
    {
      kind, line := Some(SRC), text;
    }

    method SetDst(text: string)
      modifies this`kind, this`line
      ensures kind == Some(DST) && line == text
    {
      kind, line := Some(DST), text;
    }

    method SetBoth(text: string)
      modifies this`kind, this`line
      ensures kind == Some(BOTH) && line == text
    {
      kind, line := Some(BOTH), text;
    }

    method AppendToLine(s: string)
      modifies this`line
      ensures line == old(line) + s
    {
      line := line + s;
    }

    predicate IsSrc()
      reads this
    {
      kind == Some(SRC) || kind == Some(BOTH)
    }

    predicate IsDst()
      reads this
    {
      kind == Some(DST) || kind == Some(BOTH)
    }
  }

  class PatchChunk {
    const srcPos: nat
    const dstPos: nat
    var lines: seq<PatchChunkLine>
    ghost var place: (nat, nat)          // patch and chunk index

    constructor (srcPos: nat, dstPos: nat)
      ensures this.srcPos == srcPos && this.dstPos == dstPos && lines == []
    {
      this.srcPos, this.dstPos, lines := srcPos, dstPos, [];
    }

    method AddLine(l: PatchChunkLine)
      modifies this`lines
      ensures lines == old(lines) + [l]
    {
      lines := lines + [l];
    }

    /** The source-side line objects, shared with the chunk, not copied. */
    method Src() returns (src: seq<PatchChunkLine>)
      ensures src == SrcOf(lines)
    {
      src := [];
      for n := 0 to |lines|
        invariant src == SrcOf(lines[..n])
      {
        assert lines[..n + 1][..n] == lines[..n];
        if lines[n].IsSrc() {
          src := src + [lines[n]];
        }
      }
      assert lines[..|lines|] == lines;
    }

    method Dst() returns (dst: seq<PatchChunkLine>)
      ensures dst == DstOf(lines)
    {
      dst := [];
      for n := 0 to |lines|
        invariant dst == DstOf(lines[..n])
      {
        assert lines[..n + 1][..n] == lines[..n];
        if lines[n].IsDst() {
          dst := dst + [lines[n]];
        }
      }
      assert lines[..|lines|] == lines;
    }
  }

  function SrcOf(lines: seq<PatchChunkLine>): seq<PatchChunkLine>
    reads lines
  {
    if lines == [] then []
    else SrcOf(lines[..|lines| - 1]) + if lines[|lines| - 1].IsSrc() then [lines[|lines| - 1]] else []
  }

  function DstOf(lines: seq<PatchChunkLine>): seq<PatchChunkLine>
    reads lines
  {
    if lines == [] then []
    else DstOf(lines[..|lines| - 1]) + if lines[|lines| - 1].IsDst() then [lines[|lines| - 1]] else []
  }

  class PatchObject {
    var src: string
    var dst: string
    var chunks: seq<PatchChunk>
    ghost var place: nat

    constructor ()
      ensures src == "" && dst == "" && chunks == []
    {
      src, dst, chunks := "", "", [];
    }

    method SetSrc(name: string)
      modifies this`src
      ensures src == name
    {
      src := name;
    }

    method SetDst(name: string)
      modifies this`dst
      ensures dst == name
    {
      dst := name;
    }

    method AddChunk(c: PatchChunk)
      modifies this`chunks
      ensures chunks == old(chunks) + [c]
    {
      chunks := chunks + [c];
    }
  }

  ghost predicate PatchesHold(patchset: seq<PatchObject>, ps: Patchset)
    reads *
  {
    && |patchset| == |ps|
    && forall i :: 0 <= i < |ps| ==>
        patchset[i].place == i && patchset[i].src == ps[i].src && patchset[i].dst == ps[i].dst
        && |patchset[i].chunks| == |ps[i].chunks|
  }

  /** The objects spell out exactly the value, each object in one place only. */
  ghost predicate Holds(patchset: seq<PatchObject>, ps: Patchset)
    reads *
  {
    && PatchesHold(patchset, ps)
    && forall i, j :: 0 <= i < |ps| && 0 <= j < |ps[i].chunks| ==>
        ChunkHolds(patchset[i].chunks[j], ps[i].chunks[j], i, j)
  }

  ghost predicate ChunkHolds(c: PatchChunk, v: Chunk, i: nat, j: nat)
    reads c, c.lines
  {
    && c.place == (i, j) && c.srcPos == v.srcPos && c.dstPos == v.dstPos && |c.lines| == |v.lines|
    && forall k :: 0 <= k < |v.lines| ==> LineHolds(c.lines[k], v.lines[k], i, j, k)
  }

  ghost predicate LineHolds(l: PatchChunkLine, v: Line, i: nat, j: nat, k: nat)
    reads l
  {
    l.place == (i, j, k) && l.kind == Some(v.kind) && l.line == v.text
  }

  /** All the objects of a patch set are in the set. */
  ghost predicate Inside(patchset: seq<PatchObject>, repr: set<object>)
    reads *
  {
    && (forall i :: 0 <= i < |patchset| ==> patchset[i] in repr)
    && (forall i, j :: 0 <= i < |patchset| && 0 <= j < |patchset[i].chunks| ==> patchset[i].chunks[j] in repr)
    && (forall i, j, k ::
        0 <= i < |patchset| && 0 <= j < |patchset[i].chunks| && 0 <= k < |patchset[i].chunks[j].lines| ==>
          patchset[i].chunks[j].lines[k] in repr)
  }

  /** The parser's variables stand for the parser state: the objects hold its patches and
      the current chunk, if any, is the one it points at. */
  ghost predicate Stands(patchset: seq<PatchObject>, current: PatchChunk?, s: ParseState, repr: set<object>)
    reads *
  {
    && Points(s) && Holds(patchset, s.patches) && Inside(patchset, repr)
    && (if s.current.None? then current == null
        else current == patchset[s.current.value.0].chunks[s.current.value.1])
  }

  method StepFileSrc(patchset0: seq<PatchObject>, current: PatchChunk?, name: string, ghost s: ParseState,
                     ghost repr0: set<object>)
    returns (patchset: seq<PatchObject>, ghost repr: set<object>)
    requires Stands(patchset0, current, s, repr0)
    ensures Stands(patchset, current, Step(s, FileSrc(name)).value, repr) && fresh(repr - repr0)
  {
    var currentPatch := new PatchObject();
    currentPatch.place := |patchset0|;
    patchset := patchset0 + [currentPatch];
    currentPatch.SetSrc(name);
    repr := repr0 + {currentPatch};
    ghost var t := Step(s, FileSrc(name)).value;
    forall i, j | 0 <= i < |t.patches| && 0 <= j < |t.patches[i].chunks|
      ensures patchset[i].chunks[j] in repr && ChunkHolds(patchset[i].chunks[j], t.patches[i].chunks[j], i, j)
      ensures forall k :: 0 <= k < |patchset[i].chunks[j].lines| ==> patchset[i].chunks[j].lines[k] in repr
    {
      assert i < |patchset0| && patchset[i] == patchset0[i];
      assert ChunkHolds(patchset0[i].chunks[j], s.patches[i].chunks[j], i, j);
    }
  }

  method StepFileDst(patchset: seq<PatchObject>, currentPatch: PatchObject, current: PatchChunk?, name: string,
                     ghost s: ParseState, ghost repr: set<object>)
    requires Stands(patchset, current, s, repr) && patchset != [] && currentPatch == patchset[|patchset| - 1]
    modifies currentPatch`dst
    ensures Stands(patchset, current, Step(s, FileDst(name)).value, repr)
  {
    currentPatch.SetDst(name);
  }

  method StepHeader(patchset: seq<PatchObject>, currentPatch: PatchObject, current0: PatchChunk?, srcPos: nat,
                    dstPos: nat,
                    ghost s: ParseState, ghost repr0: set<object>)
    returns (current: PatchChunk, ghost repr: set<object>)
    requires Stands(patchset, current0, s, repr0) && patchset != [] && currentPatch == patchset[|patchset| - 1]
    modifies currentPatch`chunks
    ensures Stands(patchset, current, Step(s, Header(srcPos, dstPos)).value, repr) && fresh(repr - repr0)
  {
    ghost var last := |patchset| - 1;
    ghost var t := Step(s, Header(srcPos, dstPos)).value;
    current := new PatchChunk(srcPos, dstPos);
    current.place := (last, |currentPatch.chunks|);
    repr := repr0 + {current};
    label before:
    assert forall i :: 0 <= i < |patchset| && patchset[i] == currentPatch ==> i == last;
    currentPatch.AddChunk(current);
    forall i, j | 0 <= i < |t.patches| && 0 <= j < |t.patches[i].chunks|
      ensures patchset[i].chunks[j] in repr && ChunkHolds(patchset[i].chunks[j], t.patches[i].chunks[j], i, j)
      ensures forall k :: 0 <= k < |patchset[i].chunks[j].lines| ==> patchset[i].chunks[j].lines[k] in repr
    {
      if i < last || j < |s.patches[last].chunks| {
        assert patchset[i].chunks[j] == old@before(patchset[i].chunks[j]);
        assert old@before(ChunkHolds(patchset[i].chunks[j], s.patches[i].chunks[j], i, j));
      }
    }
  }

  method NewLine(line: Line, ghost i: nat, ghost j: nat, ghost k: nat) returns (l: PatchChunkLine)
    ensures fresh(l) && LineHolds(l, line, i, j, k)
  {
    l := new PatchChunkLine();
    match line.kind {
      case SRC => l.SetSrc(line.text);
      case DST => l.SetDst(line.text);
      case BOTH => l.SetBoth(line.text);
    }
    l.place := (i, j, k);
  }

  method StepBody(patchset: seq<PatchObject>, current: PatchChunk, line: Line, ghost s: ParseState,
                  ghost repr0: set<object>)
    returns (ghost repr: set<object>)
    requires Stands(patchset, current, s, repr0)
    modifies current`lines
    ensures Stands(patchset, current, Step(s, Body(line)).value, repr) && fresh(repr - repr0)
  {
    ghost var t := Step(s, Body(line)).value;
    ghost var (pi, pj) := s.current.value;
    assert ChunkHolds(current, s.patches[pi].chunks[pj], pi, pj);
    var l := NewLine(line, pi, pj, |current.lines|);
    repr := repr0 + {l};
    label before:
    current.AddLine(l);
    forall i, j | 0 <= i < |t.patches| && 0 <= j < |t.patches[i].chunks|
      ensures ChunkHolds(patchset[i].chunks[j], t.patches[i].chunks[j], i, j)
      ensures forall k :: 0 <= k < |patchset[i].chunks[j].lines| ==> patchset[i].chunks[j].lines[k] in repr
    {
      assert old@before(ChunkHolds(patchset[i].chunks[j], s.patches[i].chunks[j], i, j));
      if i == pi && j == pj {
        AppendedHolds(current, s.patches[pi].chunks[pj], line, l);
      } else {
        assert patchset[i].chunks[j] != current;
      }
    }
  }

  lemma AppendedHolds(c: PatchChunk, v: Chunk, line: Line, l: PatchChunkLine)
    requires c.lines != [] && c.lines[|c.lines| - 1] == l && |c.lines| == |v.lines| + 1
    requires c.srcPos == v.srcPos && c.dstPos == v.dstPos
    requires forall k :: 0 <= k < |v.lines| ==> LineHolds(c.lines[k], v.lines[k], c.place.0, c.place.1, k)
    requires LineHolds(l, line, c.place.0, c.place.1, |v.lines|)
    ensures ChunkHolds(c, v.(lines := v.lines + [line]), c.place.0, c.place.1)
  {
  }

  lemma StepsOneMore(s: ParseState, items: seq<Parsed>, n: nat)
    requires Points(s) && n < |items|
    ensures Steps(s, items[..n + 1]) ==
      if Steps(s, items[..n]).None? then None else Step(Steps(s, items[..n]).value, items[n])
    ensures Steps(s, items[..n + 1]).None? ==> Steps(s, items).None?
  {
    assert items[..n + 1] == items[..n] + [items[n]];
    StepsAppend(s, items[..n], [items[n]]);
    assert [items[n]][1..] == [];
    assert items == items[..n + 1] + items[n + 1..];
    StepsAppend(s, items[..n + 1], items[n + 1..]);
  }

  /** One turn of the parser's loop. */
  method ParseLine(patchset0: seq<PatchObject>, current0: PatchChunk?, item: Parsed, ghost s: ParseState,
                   ghost repr0: set<object>)
    returns (ok: bool, patchset: seq<PatchObject>, current: PatchChunk?, ghost repr: set<object>)
    requires Stands(patchset0, current0, s, repr0)
    modifies repr0
    ensures ok <==> Step(s, item).Some?
    ensures ok ==> Stands(patchset, current, Step(s, item).value, repr) && fresh(repr - repr0)
  {
    ok, patchset, current, repr := true, patchset0, current0, repr0;
    match item {
      case FileSrc(name) =>
        patchset, repr := StepFileSrc(patchset, current, name, s, repr);
      case FileDst(name) =>
        if patchset == [] {
          return false, [], null, {};
        }
        StepFileDst(patchset, patchset[|patchset| - 1], current, name, s, repr);
      case Header(srcPos, dstPos) =>
        if patchset == [] {
          return false, [], null, {};
        }
        current, repr := StepHeader(patchset, patchset[|patchset| - 1], current, srcPos, dstPos, s, repr);
      case Body(line) =>
        if current == null {
          return false, [], null, {};
        }
        repr := StepBody(patchset, current, line, s, repr);
      case Bad =>
        return false, [], null, {};
    }
  }

  /** The parser on objects. It fails exactly when the value parser does; otherwise its
      objects are new and hold the value parser's result. */
  method ParsePatchset(generator: seq<string>) returns (ok: bool, patchset: seq<PatchObject>, ghost repr: set<object>)
    ensures ok <==> PatchText.ParsePatchset(generator).Some?
    ensures ok ==> Holds(patchset, PatchText.ParsePatchset(generator).value)
    ensures ok ==> Inside(patchset, repr) && fresh(repr)
  {
    ok, patchset, repr := true, [], {};
    var currentChunk: PatchChunk? := null;
    ghost var items := ClassifyAll(generator);
    ghost var s := START;
    for n := 0 to |generator|
      invariant ok && Steps(START, items[..n]) == Some(s)
      invariant Stands(patchset, currentChunk, s, repr) && fresh(repr)
    {
      StepsOneMore(START, items, n);
      ok, patchset, currentChunk, repr := ParseLine(patchset, currentChunk, Classify(generator[n]), s, repr);
      if !ok {
        return;
      }
      s := Step(s, items[n]).value;
    }
    assert items[..|generator|] == items;
  }
}
