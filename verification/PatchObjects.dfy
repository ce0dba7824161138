/** The line objects of a patchset that has been read, and the whole of undoing its trailing-whitespace
    removal: reading, building the shared objects, rewriting them in place. */
module PatchObjects {
  import opened Wrappers
  import opened PatchText
  import opened PatchRewrite

  method MakeLine(l: Line) returns (made: PatchChunkLine)
    ensures fresh(made) && made.kind == Some(l.kind) && made.text == l.text
  {
    made := new PatchChunkLine();
    match l.kind {
      case Src => made.SetSrc(l.text);
      case Dst => made.SetDst(l.text);
      case Both => made.SetBoth(l.text);
    }
  }

  /** One new object per line. */
  method MakeLines(lines: seq<Line>) returns (objects: seq<PatchChunkLine>)
    ensures forall l :: l in objects ==> fresh(l)
    ensures ValidLines(objects) && Values(objects) == lines
  {
    hide Values;
    objects := [];
    for i := 0 to |lines|
      invariant |objects| == i && (forall k :: 0 <= k < i ==> fresh(objects[k]))
      invariant forall k :: 0 <= k < i ==> objects[k].kind == Some(lines[k].kind) && objects[k].text == lines[k].text
      invariant forall j, k :: 0 <= j < k < i ==> objects[j] != objects[k]
    {
      var made := MakeLine(lines[i]);
      objects := objects + [made];
    }
    assert |Values(objects)| == |lines|;
  }

  /** The objects' values are the chunks' lines. */
  ghost predicate Hold(objects: seq<seq<PatchChunkLine>>, chunks: seq<Chunk>, all: set<PatchChunkLine>)
    reads all
    requires ValidChunks(objects, all)
  {
    |objects| == |chunks| && forall c :: 0 <= c < |objects| ==> Values(objects[c]) == chunks[c].lines
  }

  /** All line objects of all chunks, none of them in two places. */
  method MakeChunks(chunks: seq<Chunk>) returns (objects: seq<seq<PatchChunkLine>>, ghost all: set<PatchChunkLine>)
    ensures fresh(all) && ValidChunks(objects, all) && Hold(objects, chunks, all)
  {
    hide ValidLines, Values;
    objects, all := [], {};
    for i := 0 to |chunks|
      invariant fresh(all) && ValidChunks(objects, all) && Hold(objects, chunks[..i], all)
    {
      var lines := MakeLines(chunks[i].lines);
      objects := objects + [lines];
      all := all + set l | l in lines;
    }
    assert chunks[..|chunks|] == chunks;
  }

  /** What becomes of the chunks: rewritten up to and including the first whose source view is the
      longer one, as they were after it. */
  ghost predicate AreRewritten(objects: seq<seq<PatchChunkLine>>, chunks: seq<Chunk>, touched: nat,
                               all: set<PatchChunkLine>)
    reads all
    requires ValidChunks(objects, all)
  {
    && |objects| == |chunks| && touched <= |chunks|
    && (forall c :: 0 <= c < touched ==> Values(objects[c]) == RewriteChunkLines(chunks[c].lines))
    && (forall c :: touched <= c < |chunks| ==> Values(objects[c]) == chunks[c].lines)
    && (forall c :: 0 <= c < touched - 1 ==> Completes(chunks[c].lines))
    && (touched < |chunks| ==> touched > 0 && !Completes(chunks[touched - 1].lines))
  }

  /** The whole operation on a text; None is the exception of the reader. */
  method RewriteText(text: seq<string>)
    returns (patchset: Option<seq<Patch>>, objects: seq<seq<PatchChunkLine>>,
             ghost touched: nat, ghost all: set<PatchChunkLine>)
    ensures patchset == Parse(text)
    ensures fresh(all) && ValidChunks(objects, all)
    ensures patchset.Some? ==> AreRewritten(objects, AllChunks(patchset.value), touched, all)
  {
    hide Parse, RewriteChunkLines, Completes, Values, ValidLines;
    objects, touched, all := [], 0, {};
    patchset := ParsePatchset(text);
    if patchset.Some? {
      objects, all := MakeChunks(AllChunks(patchset.value));
      touched := RemoveTrailingWhitespaceChanges(objects, all);
    }
  }
}
