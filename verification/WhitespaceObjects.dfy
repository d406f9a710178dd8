/** The whitespace pass on the shared line objects: appending to a destination line changes
    the chunk, and a context line is in both views. */
module WhitespaceObjects {
  import opened PatchText
  import opened PatchObjects
  import opened Whitespace
  import opened Wrappers

  /** The two views of a chunk pick its own line objects at the expected positions. */
  lemma {:induction false} ViewsPick(objects: seq<PatchChunkLine>, lines: seq<Line>)
    requires |objects| == |lines| && forall k :: 0 <= k < |lines| ==> objects[k].kind == Some(lines[k].kind)
    ensures |SrcOf(objects)| == |SrcAt(lines)| && |DstOf(objects)| == |DstAt(lines)|
    ensures forall m :: 0 <= m < |SrcAt(lines)| ==> SrcOf(objects)[m] == objects[SrcAt(lines)[m]]
    ensures forall m :: 0 <= m < |DstAt(lines)| ==> DstOf(objects)[m] == objects[DstAt(lines)[m]]
  {
    if lines != [] {
      ViewsPick(objects[..|objects| - 1], lines[..|lines| - 1]);
    }
  }

  /** One comparison on objects. */
  method CompareLines(c: PatchChunk, ghost v: Chunk, ghost i: nat, ghost j: nat, s: PatchChunkLine, d: PatchChunkLine,
                      ghost a: nat, ghost b: nat)
    requires ChunkHolds(c, v, i, j) && a < |v.lines| && b < |v.lines| && s == c.lines[a] && d == c.lines[b]
    modifies d`line
    ensures ChunkHolds(c, v.(lines := Touch(v.lines, a, b)), i, j)
  {
    assert LineHolds(s, v.lines[a], i, j, a) && LineHolds(d, v.lines[b], i, j, b);
    assert forall k :: 0 <= k < |v.lines| && k != b ==> LineHolds(c.lines[k], v.lines[k], i, j, k) && c.lines[k] != d;
    var m := TrailingBlank(s.line);
    if m.Some? && m.value.0 == d.line {
      d.AppendToLine(m.value.1);
    }
  }

  /** The two lists hold the chunk's own line objects at the expected positions. */
  ghost predicate ViewsOf(c: PatchChunk, lines: seq<Line>, src: seq<PatchChunkLine>, dst: seq<PatchChunkLine>)
    reads c
  {
    && |c.lines| == |lines| && |src| == |SrcAt(lines)| && |dst| == |DstAt(lines)|
    && (forall m :: 0 <= m < |src| ==> src[m] == c.lines[SrcAt(lines)[m]])
    && (forall m :: 0 <= m < |dst| ==> dst[m] == c.lines[DstAt(lines)[m]])
  }

  method BothViews(c: PatchChunk, ghost v: Chunk, ghost i: nat, ghost j: nat)
    returns (src: seq<PatchChunkLine>, dst: seq<PatchChunkLine>)
    requires ChunkHolds(c, v, i, j)
    ensures ViewsOf(c, v.lines, src, dst)
  {
    KindsHeld(c, v, i, j);
    ViewsPick(c.lines, v.lines);
    src := c.Src();
    dst := c.Dst();
  }

  /** The comparisons of one chunk; false is the index error. */
  method PassChunkObjects(c: PatchChunk, ghost v: Chunk, ghost i: nat, ghost j: nat) returns (ok: bool)
    requires ChunkHolds(c, v, i, j)
    modifies c.lines
    ensures ok <==> !RunsOut(v.lines)
    ensures ChunkHolds(c, PassChunk(v), i, j)
  {
    var src, dst := BothViews(c, v, i, j);
    ok := true;
    var n := 0;
    while n < |src|
      invariant ok && 0 <= n <= Min(|src|, |dst|) && ViewsOf(c, v.lines, src, dst) && c.lines == old(c.lines)
      invariant ChunkHolds(c, v.(lines := ComparedSoFar(v.lines, n)), i, j)
    {
      if n >= |dst| {
        ok := false;
        break;
      }
      ComparePair(c, v, i, j, src, dst, n);
      n := n + 1;
    }
    assert n == Min(|SrcAt(v.lines)|, |DstAt(v.lines)|);
  }

  method ComparePair(c: PatchChunk, ghost v: Chunk, ghost i: nat, ghost j: nat, src: seq<PatchChunkLine>,
                     dst: seq<PatchChunkLine>, n: nat)
    requires ViewsOf(c, v.lines, src, dst) && n < |src| && n < |dst|
    requires ChunkHolds(c, v.(lines := ComparedSoFar(v.lines, n)), i, j)
    modifies c.lines
    ensures ViewsOf(c, v.lines, src, dst)
    ensures ChunkHolds(c, v.(lines := ComparedSoFar(v.lines, n + 1)), i, j)
  {
    assert dst[n] in c.lines;
    CompareLines(c, v.(lines := ComparedSoFar(v.lines, n)), i, j, src[n], dst[n], SrcAt(v.lines)[n], DstAt(v.lines)[n]);
  }

  lemma KindsHeld(c: PatchChunk, v: Chunk, i: nat, j: nat)
    requires ChunkHolds(c, v, i, j)
    ensures forall k :: 0 <= k < |v.lines| ==> c.lines[k].kind == Some(v.lines[k].kind)
  {
    forall k | 0 <= k < |v.lines| ensures c.lines[k].kind == Some(v.lines[k].kind) {
      assert LineHolds(c.lines[k], v.lines[k], i, j, k);
    }
  }

  /** Every chunk of the patch set but one. */
  ghost predicate OthersHold(patchset: seq<PatchObject>, v: Patchset, i: nat, j: nat)
    requires PatchesHold(patchset, v)
    reads *
  {
    forall a, b :: 0 <= a < |v| && 0 <= b < |v[a].chunks| && (a != i || b != j) ==>
      ChunkHolds(patchset[a].chunks[b], v[a].chunks[b], a, b)
  }

  lemma OneChanged(patchset: seq<PatchObject>, v: Patchset, i: nat, j: nat, c: Chunk)
    requires i < |v| && j < |v[i].chunks| && PatchesHold(patchset, v) && OthersHold(patchset, v, i, j)
    requires ChunkHolds(patchset[i].chunks[j], c, i, j)
    ensures Holds(patchset, WithChunk(v, i, j, c))
  {
  }

  /** One chunk of a whole patch set. */
  method PassOne(patchset: seq<PatchObject>, i: nat, j: nat, ghost v: Patchset,
                 ghost repr: set<object>) returns (ok: bool)
    requires Holds(patchset, v) && Inside(patchset, repr) && i < |v| && j < |v[i].chunks|
    modifies patchset[i].chunks[j].lines
    ensures ok <==> !RunsOut(v[i].chunks[j].lines)
    ensures Holds(patchset, WithChunk(v, i, j, PassChunk(v[i].chunks[j]))) && Inside(patchset, repr)
  {
    ghost var touched := patchset[i].chunks[j].lines;
    assert ChunkHolds(patchset[i].chunks[j], v[i].chunks[j], i, j);
    forall l | l in touched ensures l.place.0 == i && l.place.1 == j {
      var k :| 0 <= k < |touched| && touched[k] == l;
      assert LineHolds(touched[k], v[i].chunks[j].lines[k], i, j, k);
    }
    ok := PassChunkObjects(patchset[i].chunks[j], v[i].chunks[j], i, j);
    forall a, b | 0 <= a < |v| && 0 <= b < |v[a].chunks| && (a != i || b != j)
      ensures ChunkHolds(patchset[a].chunks[b], v[a].chunks[b], a, b)
    {
      assert old(ChunkHolds(patchset[a].chunks[b], v[a].chunks[b], a, b));
      forall k | 0 <= k < |v[a].chunks[b].lines|
        ensures LineHolds(patchset[a].chunks[b].lines[k], v[a].chunks[b].lines[k], a, b, k)
      {
        assert old(LineHolds(patchset[a].chunks[b].lines[k], v[a].chunks[b].lines[k], a, b, k));
        assert patchset[a].chunks[b].lines[k] !in touched;
      }
    }
    OneChanged(patchset, v, i, j, PassChunk(v[i].chunks[j]));
  }

  /** The chunks of one patch; false is the index error, which ends the whole pass. */
  method PassPatch(patchset: seq<PatchObject>, i: nat, ghost v0: Patchset, ghost repr: set<object>)
    returns (ok: bool, ghost v: Patchset)
    requires Holds(patchset, v0) && Inside(patchset, repr) && i < |v0|
    modifies repr
    ensures Holds(patchset, v) && Inside(patchset, repr)
    ensures PassFrom(v0, i, 0) == if ok then PassFrom(v, i + 1, 0) else v
  {
    v := v0;
    var j := 0;
    while j < |patchset[i].chunks|
      invariant Holds(patchset, v) && Inside(patchset, repr)
      invariant 0 <= j <= |v[i].chunks| && PassFrom(v, i, j) == PassFrom(v0, i, 0)
      decreases |patchset[i].chunks| - j
    {
      ok := PassOne(patchset, i, j, v, repr);
      v := WithChunk(v, i, j, PassChunk(v[i].chunks[j]));
      if !ok {
        return;
      }
      j := j + 1;
    }
    ok := true;
  }

  /** Parse the patch set and pass over it. An exception of the parser is passed on (false);
      an index error ends the pass and the patch set is returned as it is by then. */
  method RemoveTrailingWhitespaceChanges(generator: seq<string>)
    returns (ok: bool, patchset: seq<PatchObject>, ghost repr: set<object>)
    ensures ok <==> PatchText.ParsePatchset(generator).Some?
    ensures ok ==> Holds(patchset, PassAll(PatchText.ParsePatchset(generator).value)) && fresh(repr)
  {
    ok, patchset, repr := PatchObjects.ParsePatchset(generator);
    if !ok {
      return;
    }
    ghost var v := PatchText.ParsePatchset(generator).value;
    ghost var goal := PassAll(v);
    for i := 0 to |patchset|
      invariant ok && Holds(patchset, v) && Inside(patchset, repr) && fresh(repr)
      invariant PassFrom(v, i, 0) == goal
    {
      var inRange;
      inRange, v := PassPatch(patchset, i, v, repr);
      if !inRange {
        return;
      }
    }
  }
}
