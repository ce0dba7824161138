/** Exactly which texts the unified-diff reader gets through. */
module PatchReadable {
  import opened PatchText
  import opened PatchHeaders
  import opened PatchRoundTrip
  import opened Wrappers

  predicate IsSrcName(line: string) {
    "--- " <= line
  }

  predicate IsDstName(line: string) {
    "+++ " <= line
  }

  /** Neither a file name nor a chunk header. */
  ghost predicate IsBody(line: string) {
    !IsSrcName(line) && !IsDstName(line) && !IsHeader(line)
  }

  ghost predicate IsKnown(line: string) {
    IsBody(line) ==> line != [] && line[0] in {'-', '+', ' '}
  }

  ghost predicate SomeSrcName(lines: seq<string>) {
    exists i :: 0 <= i < |lines| && IsSrcName(lines[i])
  }

  ghost predicate SomeHeader(lines: seq<string>) {
    exists i :: 0 <= i < |lines| && IsHeader(lines[i])
  }

  /** Every line has a known form; second file names and chunk headers come after some first
      file name, and body lines after some chunk header. */
  ghost predicate IsReadable(lines: seq<string>) {
    forall i :: 0 <= i < |lines| ==> Fits(lines[..i], lines[i])
  }

  ghost predicate Fits(before: seq<string>, line: string) {
    && IsKnown(line)
    && (IsDstName(line) || IsHeader(line) ==> SomeSrcName(before))
    && (IsBody(line) ==> SomeHeader(before))
  }

  lemma FormsDiffer(line: string)
    ensures !(IsSrcName(line) && IsDstName(line))
    ensures IsHeader(line) ==> !IsSrcName(line) && !IsDstName(line) && MatchChunkStart(line).Some?
    ensures IsBody(line) <==> IsBodyLine(line)
  {
    assert "--- "[0] == '-' && "+++ "[0] == '+';
    HeaderIff(line);
    hide IsHeader, MatchChunkStart;
  }

  lemma ReadLineSome(r: Reader, line: string)
    requires AtOk(r)
    ensures ReadLine(r, line).Some? <==>
      IsKnown(line) && (IsDstName(line) || IsHeader(line) ==> r.patches != []) && (IsBody(line) ==> r.at.Some?)
    ensures ReadLine(r, line).Some? ==> var next := ReadLine(r, line).value;
      && (next.patches != [] <==> r.patches != [] || IsSrcName(line))
      && (next.at.Some? <==> r.at.Some? || IsHeader(line))
  {
    FormsDiffer(line);
    HeaderIff(line);
    hide MatchChunkStart, IsHeader;
  }

  lemma ReadableSnoc(lines: seq<string>)
    requires lines != []
    ensures var init, line := lines[..|lines| - 1], lines[|lines| - 1];
      && (IsReadable(lines) <==> IsReadable(init) && Fits(init, line))
      && (SomeSrcName(lines) <==> SomeSrcName(init) || IsSrcName(line))
      && (SomeHeader(lines) <==> SomeHeader(init) || IsHeader(line))
  {
    hide IsSrcName, IsHeader, Fits;
    var init := lines[..|lines| - 1];
    assert forall i :: 0 <= i < |init| ==> init[i] == lines[i] && init[..i] == lines[..i];
  }

  /** The reader gets through exactly the readable inputs. */
  lemma {:induction false} ReadableFrom(lines: seq<string>)
    ensures ReadFrom(Empty, lines).Some? <==> IsReadable(lines)
    ensures ReadFrom(Empty, lines).Some? ==> var r := ReadFrom(Empty, lines).value;
      (r.patches != [] <==> SomeSrcName(lines)) && (r.at.Some? <==> SomeHeader(lines))
    decreases |lines|
  {
    if lines != [] {
      hide ReadFrom, ReadLine, IsReadable, SomeSrcName, SomeHeader, IsKnown, IsDstName, IsHeader, IsSrcName, IsBody;
      var init, line := lines[..|lines| - 1], lines[|lines| - 1];
      ReadableFrom(init);
      ReadableSnoc(lines);
      ReadSnoc(init, line);
      assert lines == init + [line];
      if ReadFrom(Empty, init).Some? {
        ReadLineSome(ReadFrom(Empty, init).value, line);
      }
    }
  }

  lemma ReadSnoc(init: seq<string>, line: string)
    ensures ReadFrom(Empty, init + [line]) ==
      if ReadFrom(Empty, init).None? then None else ReadLine(ReadFrom(Empty, init).value, line)
  {
    ReadAppend(Empty, init, [line]);
    if ReadFrom(Empty, init).Some? {
      ReadOne(ReadFrom(Empty, init).value, line);
    }
  }

  /** A text can be read iff it is readable; otherwise some line raises. */
  lemma ReadableIff(lines: seq<string>)
    ensures Parse(lines).Some? <==> IsReadable(lines)
  {
    ReadableFrom(lines);
    hide IsReadable, ReadFrom;
  }

  // ---------- what is read ----------

  /** The line a body line stands for. */
  function LineOf(line: string): Line
    requires line != []
  {
    Line(if line[0] == '-' then Src else if line[0] == '+' then Dst else Both, line[1..])
  }

  ghost function OneMore(chunks: seq<Chunk>, l: Line): seq<Chunk> {
    if chunks == [] then []
    else
      var n := |chunks| - 1;
      chunks[n := chunks[n].(lines := chunks[n].lines + [l])]
  }

  ghost function NextBlocks(blocks: seq<Chunk>, line: string): seq<Chunk> {
    if IsSrcName(line) || IsDstName(line) then blocks
    else
      var m := MatchChunkStart(line);
      if m.Some? then blocks + [Chunk(m.value.0, m.value.2, [])]
      else if line != [] then OneMore(blocks, LineOf(line))
      else blocks
  }

  /** A chunk for every header, with the body lines up to the next header; file names do not end it. */
  ghost function Blocks(lines: seq<string>): seq<Chunk> {
    if lines == [] then [] else NextBlocks(Blocks(lines[..|lines| - 1]), lines[|lines| - 1])
  }

  ghost function NextNames(names: seq<(string, string)>, line: string): seq<(string, string)> {
    if IsSrcName(line) then names + [(line[4..], "")]
    else if IsDstName(line) && names != [] then names[|names| - 1 := (names[|names| - 1].0, line[4..])]
    else names
  }

  /** A pair of file names for every first file name, with the last second one before the next. */
  ghost function Names(lines: seq<string>): seq<(string, string)> {
    if lines == [] then [] else NextNames(Names(lines[..|lines| - 1]), lines[|lines| - 1])
  }

  ghost function NamesOf(patches: seq<Patch>): seq<(string, string)> {
    if patches == [] then []
    else NamesOf(patches[..|patches| - 1]) + [(patches[|patches| - 1].src, patches[|patches| - 1].dst)]
  }

  /** The current chunk is the last one of all. */
  ghost predicate AtLast(r: Reader) {
    match r.at
    case None => forall p :: 0 <= p < |r.patches| ==> r.patches[p].chunks == []
    case Some((p, k)) =>
      && p < |r.patches| && k + 1 == |r.patches[p].chunks|
      && forall q :: p < q < |r.patches| ==> r.patches[q].chunks == []
  }

  lemma {:induction false} OnlyUpTo(patches: seq<Patch>, p: nat)
    requires p < |patches| && forall q :: p < q < |patches| ==> patches[q].chunks == []
    ensures AllChunks(patches) == AllChunks(patches[..p]) + patches[p].chunks
    decreases |patches|
  {
    var init := patches[..|patches| - 1];
    if p < |init| {
      OnlyUpTo(init, p);
      assert init[..p] == patches[..p];
      assert AllChunks(init) + [] == AllChunks(init);
    }
  }

  lemma {:induction false} NoChunks(patches: seq<Patch>)
    requires forall p :: 0 <= p < |patches| ==> patches[p].chunks == []
    ensures AllChunks(patches) == []
  {
    if patches != [] {
      NoChunks(patches[..|patches| - 1]);
    }
  }

  lemma BodyRead(r: Reader, l: Line)
    requires AtOk(r) && AtLast(r) && r.at.Some?
    ensures AtLast(AddLine(r, l)) && AllChunks(AddLine(r, l).patches) == OneMore(AllChunks(r.patches), l)
    ensures |AddLine(r, l).patches| == |r.patches|
    ensures forall q :: 0 <= q < |r.patches| ==>
      AddLine(r, l).patches[q].src == r.patches[q].src && AddLine(r, l).patches[q].dst == r.patches[q].dst
  {
    var (p, k) := r.at.value;
    var after := AddLine(r, l).patches;
    OnlyUpTo(r.patches, p);
    OnlyUpTo(after, p);
    assert after[..p] == r.patches[..p];
    assert OneMore(AllChunks(r.patches), l) == AllChunks(r.patches[..p]) + OneMore(r.patches[p].chunks, l);
  }

  lemma OpenRead(r: Reader, srcPos: nat, dstPos: nat)
    requires r.patches != []
    ensures var next := OpenChunk(r, srcPos, dstPos);
      && AtLast(next) && AllChunks(next.patches) == AllChunks(r.patches) + [Chunk(srcPos, dstPos, [])]
      && NamesOf(next.patches) == NamesOf(r.patches)
  {
    var n := |r.patches| - 1;
    var next := OpenChunk(r, srcPos, dstPos);
    assert next.patches[..n] == r.patches[..n];
  }

  lemma {:induction false} SameNames(a: seq<Patch>, b: seq<Patch>)
    requires |a| == |b| && forall q :: 0 <= q < |a| ==> a[q].src == b[q].src && a[q].dst == b[q].dst
    ensures NamesOf(a) == NamesOf(b)
  {
    if a != [] {
      SameNames(a[..|a| - 1], b[..|b| - 1]);
    }
  }

  lemma NameRead(r: Reader, line: string)
    requires AtOk(r) && AtLast(r) && ReadLine(r, line).Some? && (IsSrcName(line) || IsDstName(line))
    ensures var next := ReadLine(r, line).value;
      AtLast(next) && AllChunks(next.patches) == AllChunks(r.patches)
      && NamesOf(next.patches) == NextNames(NamesOf(r.patches), line)
  {
    FormsDiffer(line);
    hide MatchChunkStart, IsHeader, AtLast, AllChunks, NamesOf;
    if IsSrcName(line) {
      PatchOpened(r, line[4..]);
    } else {
      DstNamed(r, line[4..]);
    }
  }

  lemma PatchOpened(r: Reader, src: string)
    requires AtOk(r) && AtLast(r)
    ensures var next := r.(patches := r.patches + [Patch(src, "", [])]);
      AtLast(next) && AllChunks(next.patches) == AllChunks(r.patches)
      && NamesOf(next.patches) == NamesOf(r.patches) + [(src, "")]
  {
    var next := r.(patches := r.patches + [Patch(src, "", [])]);
    assert next.patches[..|r.patches|] == r.patches;
    assert AllChunks(r.patches) + [] == AllChunks(r.patches);
  }

  lemma DstNamed(r: Reader, dst: string)
    requires AtOk(r) && AtLast(r) && r.patches != []
    ensures var n := |r.patches| - 1;
      var next, names := r.(patches := r.patches[n := r.patches[n].(dst := dst)]), NamesOf(r.patches);
      AtLast(next) && AllChunks(next.patches) == AllChunks(r.patches) && names != []
      && NamesOf(next.patches) == names[|names| - 1 := (names[|names| - 1].0, dst)]
  {
    var n := |r.patches| - 1;
    var next := r.(patches := r.patches[n := r.patches[n].(dst := dst)]);
    assert next.patches[..n] == r.patches[..n];
  }

  lemma LineReadsBlock(r: Reader, line: string)
    requires AtOk(r) && AtLast(r) && ReadLine(r, line).Some?
    ensures var next := ReadLine(r, line).value;
      AtLast(next) && AllChunks(next.patches) == NextBlocks(AllChunks(r.patches), line)
      && NamesOf(next.patches) == NextNames(NamesOf(r.patches), line)
  {
    hide MatchChunkStart, AtLast, AllChunks, OneMore, AddLine, OpenChunk;
    if IsSrcName(line) || IsDstName(line) {
      NameRead(r, line);
    } else if MatchChunkStart(line).Some? {
      OpenRead(r, MatchChunkStart(line).value.0, MatchChunkStart(line).value.2);
    } else {
      BodyRead(r, LineOf(line));
      SameNames(AddLine(r, LineOf(line)).patches, r.patches);
    }
  }

  lemma {:induction false} BlocksReadFrom(lines: seq<string>)
    requires ReadFrom(Empty, lines).Some?
    ensures var r := ReadFrom(Empty, lines).value;
      AtLast(r) && AllChunks(r.patches) == Blocks(lines) && NamesOf(r.patches) == Names(lines)
    decreases |lines|
  {
    if lines != [] {
      var init, line := lines[..|lines| - 1], lines[|lines| - 1];
      assert lines == init + [line];
      ReadSnoc(init, line);
      hide ReadFrom, ReadLine, AllChunks, AtLast, NamesOf, NextBlocks, NextNames;
      BlocksReadFrom(init);
      LineReadsBlock(ReadFrom(Empty, init).value, line);
    }
  }

  /** The chunks read are the blocks of the text and the file names its names, whatever patch a block
      was begun in. */
  lemma ReadsBlocks(lines: seq<string>)
    requires Parse(lines).Some?
    ensures AllChunks(Parse(lines).value) == Blocks(lines) && NamesOf(Parse(lines).value) == Names(lines)
  {
    BlocksReadFrom(lines);
    hide ReadFrom, AllChunks, NamesOf, Blocks, Names;
  }
}
