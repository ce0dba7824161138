/** Which patchsets survive being written and read back. */
module PatchRoundTrip {
  import opened PatchText
  import opened Sums
  import opened Wrappers

  /** A body line that, once written, looks like a file name line. */
  predicate LooksLikeHeader(l: Line) {
    (l.kind == Src && "-- " <= l.text) || (l.kind == Dst && "++ " <= l.text)
  }

  ghost predicate NoneLooksLikeHeader(patches: seq<Patch>) {
    forall p, c, l :: p in patches && c in p.chunks && l in c.lines ==> !LooksLikeHeader(l)
  }

  // ---------- single lines ----------

  lemma {:induction false} DigitsThenRest(digits: string, rest: string)
    requires digits != [] && forall i :: 0 <= i < |digits| ==> IsDigit(digits[i])
    requires rest == [] || !IsDigit(rest[0])
    ensures TakeNumber(digits + rest) == Some((ParseNat(digits), rest))
  {
    var s := digits + rest;
    assert forall i :: 0 <= i < |digits| ==> IsDigit(s[i]);
    assert rest != [] ==> s[|digits|] == rest[0];
    assert DigitPrefix(s) == |digits|;
    assert s[..|digits|] == digits && s[|digits|..] == rest;
  }

  lemma NumberThenRest(n: nat, rest: string)
    requires rest == [] || !IsDigit(rest[0])
    ensures TakeNumber(Decimal(n) + rest) == Some((n, rest))
  {
    DigitsThenRest(Decimal(n), rest);
    DecimalRoundTrip(n);
  }

  lemma AfterPrefix(prefix: string, rest: string)
    ensures After(prefix, prefix + rest) == Some(rest)
  {
  }

  lemma HeaderMatches(c: Chunk)
    ensures MatchChunkStart(Header(c)) == Some((c.srcPos, |SrcView(c.lines)|, c.dstPos, |DstView(c.lines)|))
  {
    var n1, n2, n3, n4 := c.srcPos, |SrcView(c.lines)|, c.dstPos, |DstView(c.lines)|;
    var s8 := " @@";
    var s7 := Decimal(n4) + s8;
    var s6 := "," + s7;
    var s5 := Decimal(n3) + s6;
    var s4 := " +" + s5;
    var s3 := Decimal(n2) + s4;
    var s2 := "," + s3;
    var s1 := Decimal(n1) + s2;
    assert Header(c) == "@@ -" + s1;
    hide Decimal, SrcView, DstView, After, TakeNumber;
    AfterPrefix("@@ -", s1);
    NumberThenRest(n1, s2);
    AfterPrefix(",", s3);
    NumberThenRest(n2, s4);
    AfterPrefix(" +", s5);
    NumberThenRest(n3, s6);
    AfterPrefix(",", s7);
    NumberThenRest(n4, s8);
  }

  lemma WrittenLineForm(l: Line)
    ensures var w := WriteLine(l);
      && w != [] && w[1..] == l.text && w[0] == (match l.kind case Src => '-' case Dst => '+' case Both => ' ')
      && MatchChunkStart(w) == None
      && ("--- " <= w <==> l.kind == Src && "-- " <= l.text)
      && ("+++ " <= w <==> l.kind == Dst && "++ " <= l.text)
  {
    var w := WriteLine(l);
    assert w[0] != '@';
    assert !("@@ -" <= w);
    assert "--- "[1..] == "-- " && "+++ "[1..] == "++ ";
    PrefixTail("--- ", w);
    PrefixTail("+++ ", w);
  }

  lemma PrefixTail(p: string, w: string)
    requires p != [] && w != []
    ensures p <= w <==> p[0] == w[0] && p[1..] <= w[1..]
  {
    assert p == [p[0]] + p[1..] && w == [w[0]] + w[1..];
  }

  ghost const RemovedOrShared: string -> nat := (w: string) => if w != [] && w[0] in {'-', ' '} then 1 else 0
  ghost const AddedOrShared: string -> nat := (w: string) => if w != [] && w[0] in {'+', ' '} then 1 else 0

  lemma {:induction false} ViewsCountBody(lines: seq<Line>)
    ensures |SrcView(lines)| == Sum(WriteLines(lines), RemovedOrShared)
    ensures |DstView(lines)| == Sum(WriteLines(lines), AddedOrShared)
  {
    if lines != [] {
      var init, l := lines[..|lines| - 1], lines[|lines| - 1];
      ViewsCountBody(init);
      WrittenLineForm(l);
      SumSnoc(WriteLines(init), WriteLine(l), RemovedOrShared);
      SumSnoc(WriteLines(init), WriteLine(l), AddedOrShared);
    }
  }

  /** The header of a written chunk carries its positions and, on either side, the number of
      body lines that follow for that side. */
  lemma HeaderCountsBody(c: Chunk)
    ensures MatchChunkStart(Header(c)) ==
      Some((c.srcPos, Sum(WriteLines(c.lines), RemovedOrShared), c.dstPos, Sum(WriteLines(c.lines), AddedOrShared)))
  {
    HeaderMatches(c);
    ViewsCountBody(c.lines);
  }

  lemma PlainLineRead(r: Reader, l: Line)
    requires AtOk(r) && r.at.Some? && !LooksLikeHeader(l)
    ensures ReadLine(r, WriteLine(l)) == Some(AddLine(r, l))
  {
    WrittenLineForm(l);
    hide MatchChunkStart, WriteLine, AddLine;
    assert Line(l.kind, l.text) == l;
  }

  // ---------- reading what was written ----------

  lemma {:induction false} ReadAppend(r: Reader, s: seq<string>, t: seq<string>)
    requires AtOk(r)
    ensures ReadFrom(r, s + t) == match ReadFrom(r, s) case None => None case Some(next) => ReadFrom(next, t)
    decreases |s|
  {
    hide ReadLine;
    if s == [] {
      assert s + t == t;
    } else {
      assert (s + t)[0] == s[0] && (s + t)[1..] == s[1..] + t;
      var next := ReadLine(r, s[0]);
      if next.Some? {
        ReadAppend(next.value, s[1..], t);
      }
    }
  }

  lemma ReadOne(r: Reader, line: string)
    requires AtOk(r)
    ensures ReadFrom(r, [line]) == ReadLine(r, line)
  {
    hide ReadLine;
    if ReadLine(r, line).Some? {
      assert ReadFrom(ReadLine(r, line).value, []) == ReadLine(r, line);
    }
  }

  /** The reader just after the header of a chunk with the given lines read so far. */
  ghost function InChunk(done: seq<Patch>, p: Patch, c: Chunk): Reader {
    Reader(done + [p.(chunks := p.chunks + [c])], Some((|done|, |p.chunks|)))
  }

  lemma InChunkAdd(done: seq<Patch>, p: Patch, c: Chunk, l: Line)
    ensures AtOk(InChunk(done, p, c))
    ensures AddLine(InChunk(done, p, c), l) == InChunk(done, p, c.(lines := c.lines + [l]))
  {
    var r := InChunk(done, p, c);
    var chunks := p.chunks + [c];
    assert r.patches[|done|] == p.(chunks := chunks);
    assert chunks[|p.chunks| := c.(lines := c.lines + [l])] == p.chunks + [c.(lines := c.lines + [l])];
  }

  lemma {:induction false} LinesRead(done: seq<Patch>, p: Patch, srcPos: nat, dstPos: nat, lines: seq<Line>)
    requires forall l :: l in lines ==> !LooksLikeHeader(l)
    ensures AtOk(InChunk(done, p, Chunk(srcPos, dstPos, [])))
    ensures ReadFrom(InChunk(done, p, Chunk(srcPos, dstPos, [])), WriteLines(lines))
         == Some(InChunk(done, p, Chunk(srcPos, dstPos, lines)))
  {
    var start := InChunk(done, p, Chunk(srcPos, dstPos, []));
    if lines != [] {
      var init, l := lines[..|lines| - 1], lines[|lines| - 1];
      assert lines == init + [l];
      LinesRead(done, p, srcPos, dstPos, init);
      var mid := InChunk(done, p, Chunk(srcPos, dstPos, init));
      InChunkAdd(done, p, Chunk(srcPos, dstPos, init), l);
      hide InChunk, ReadLine, LooksLikeHeader;
      PlainLineRead(mid, l);
      ReadAppend(start, WriteLines(init), [WriteLine(l)]);
      ReadOne(mid, WriteLine(l));
    }
  }

  lemma HeaderForm(c: Chunk)
    ensures !("--- " <= Header(c)) && !("+++ " <= Header(c))
  {
    assert Header(c)[0] == '@';
  }

  lemma HeaderRead(done: seq<Patch>, p: Patch, c: Chunk, at: Option<(nat, nat)>)
    requires AtOk(Reader(done + [p], at))
    ensures ReadLine(Reader(done + [p], at), Header(c)) == Some(InChunk(done, p, Chunk(c.srcPos, c.dstPos, [])))
  {
    HeaderMatches(c);
    HeaderForm(c);
    hide MatchChunkStart, Header, AtOk;
    assert (done + [p])[|done| := p.(chunks := p.chunks + [Chunk(c.srcPos, c.dstPos, [])])]
        == done + [p.(chunks := p.chunks + [Chunk(c.srcPos, c.dstPos, [])])];
  }

  ghost function AtLast(done: seq<Patch>, chunks: seq<Chunk>, at: Option<(nat, nat)>): Option<(nat, nat)> {
    if chunks == [] then at else Some((|done|, |chunks| - 1))
  }

  lemma {:induction false} ChunksRead(done: seq<Patch>, src: string, dst: string, chunks: seq<Chunk>,
                                      at: Option<(nat, nat)>)
    requires forall c, l :: c in chunks && l in c.lines ==> !LooksLikeHeader(l)
    requires AtOk(Reader(done + [Patch(src, dst, [])], at))
    ensures ReadFrom(Reader(done + [Patch(src, dst, [])], at), WriteChunks(chunks))
         == Some(Reader(done + [Patch(src, dst, chunks)], AtLast(done, chunks, at)))
  {
    if chunks != [] {
      hide ReadLine, LooksLikeHeader, Header;
      var init, c := chunks[..|chunks| - 1], chunks[|chunks| - 1];
      assert chunks == init + [c];
      ChunksRead(done, src, dst, init, at);
      var start := Reader(done + [Patch(src, dst, [])], at);
      var p := Patch(src, dst, init);
      var mid := Reader(done + [p], AtLast(done, init, at));
      ReadAppend(start, WriteChunks(init), WriteChunk(c));
      ChunkRead(done, p, c, AtLast(done, init, at));
    }
  }

  lemma ChunkRead(done: seq<Patch>, p: Patch, c: Chunk, at: Option<(nat, nat)>)
    requires forall l :: l in c.lines ==> !LooksLikeHeader(l)
    requires AtOk(Reader(done + [p], at))
    ensures ReadFrom(Reader(done + [p], at), WriteChunk(c)) == Some(InChunk(done, p, c))
  {
    hide ReadLine, LooksLikeHeader, Header, InChunk;
    var r := Reader(done + [p], at);
    HeaderRead(done, p, c, at);
    ReadOne(r, Header(c));
    ReadAppend(r, [Header(c)], WriteLines(c.lines));
    LinesRead(done, p, c.srcPos, c.dstPos, c.lines);
  }

  lemma NamesRead(done: seq<Patch>, p: Patch, at: Option<(nat, nat)>)
    requires AtOk(Reader(done, at))
    ensures AtOk(Reader(done + [Patch(p.src, p.dst, [])], at))
    ensures ReadFrom(Reader(done, at), ["--- " + p.src, "+++ " + p.dst])
         == Some(Reader(done + [Patch(p.src, p.dst, [])], at))
  {
    var r0 := Reader(done, at);
    var r1 := Reader(done + [Patch(p.src, "", [])], at);
    var r2 := Reader(done + [Patch(p.src, p.dst, [])], at);
    assert AtOk(r1) && AtOk(r2);
    var a, b := "--- " + p.src, "+++ " + p.dst;
    assert a[4..] == p.src && b[4..] == p.dst;
    assert ReadLine(r0, a) == Some(r1);
    assert b[0] == '+' && !("--- " <= b);
    assert r1.patches[|done| := Patch(p.src, p.dst, [])] == r2.patches;
    assert ReadLine(r1, b) == Some(r2);
    hide ReadLine;
    ReadOne(r0, a);
    ReadOne(r1, b);
    ReadAppend(r0, [a], [b]);
    assert [a] + [b] == [a, b];
  }

  lemma {:induction false} PatchesRead(patches: seq<Patch>) returns (at: Option<(nat, nat)>)
    requires NoneLooksLikeHeader(patches)
    ensures AtOk(Reader(patches, at)) && ReadFrom(Empty, Write(patches)) == Some(Reader(patches, at))
  {
    if patches == [] {
      at := None;
    } else {
      hide ReadLine, LooksLikeHeader;
      var done, p := patches[..|patches| - 1], patches[|patches| - 1];
      assert patches == done + [p];
      var at0 := PatchesRead(done);
      var names := ["--- " + p.src, "+++ " + p.dst];
      NamesRead(done, p, at0);
      ChunksRead(done, p.src, p.dst, p.chunks, at0);
      ReadAppend(Reader(done, at0), names, WriteChunks(p.chunks));
      ReadAppend(Empty, Write(done), WritePatch(p));
      at := AtLast(done, p.chunks, at0);
    }
  }

  // ---------- what is lost otherwise ----------

  ghost const LinesIn: Chunk -> nat := (c: Chunk) => |c.lines|
  ghost const LinesInPatch: Patch -> nat := (p: Patch) => Sum(p.chunks, LinesIn)

  ghost function Total(patches: seq<Patch>): nat {
    Sum(patches, LinesInPatch)
  }

  predicate IsBodyLine(line: string) {
    !("--- " <= line) && !("+++ " <= line) && MatchChunkStart(line).None?
  }

  ghost const Body: string -> nat := (line: string) => if IsBodyLine(line) then 1 else 0

  lemma AddLineTotal(r: Reader, l: Line)
    requires AtOk(r) && r.at.Some?
    ensures Total(AddLine(r, l).patches) == Total(r.patches) + 1
  {
    var (p, k) := r.at.value;
    var patch := r.patches[p];
    var chunk := patch.chunks[k];
    var longer := chunk.(lines := chunk.lines + [l]);
    SumUpdate(patch.chunks, k, longer, LinesIn);
    SumUpdate(r.patches, p, patch.(chunks := patch.chunks[k := longer]), LinesInPatch);
  }

  lemma ReplaceLast(patches: seq<Patch>, p: Patch)
    requires patches != [] && LinesInPatch(p) == LinesInPatch(patches[|patches| - 1])
    ensures Total(patches[|patches| - 1 := p]) == Total(patches)
  {
    SumUpdate(patches, |patches| - 1, p, LinesInPatch);
  }

  /** Only a body line adds a line to the patchset. */
  lemma ReadLineTotal(r: Reader, line: string)
    requires AtOk(r) && ReadLine(r, line).Some?
    ensures Total(ReadLine(r, line).value.patches) == Total(r.patches) + Body(line)
  {
    hide MatchChunkStart;
    var n := |r.patches|;
    if "--- " <= line {
      SumSnoc(r.patches, Patch(line[4..], "", []), LinesInPatch);
    } else if "+++ " <= line {
      ReplaceLast(r.patches, r.patches[n - 1].(dst := line[4..]));
    } else if MatchChunkStart(line).Some? {
      var patch := r.patches[n - 1];
      var c := Chunk(MatchChunkStart(line).value.0, MatchChunkStart(line).value.2, []);
      SumSnoc(patch.chunks, c, LinesIn);
      ReplaceLast(r.patches, patch.(chunks := patch.chunks + [c]));
    } else {
      var kind := if line[0] == '-' then Src else if line[0] == '+' then Dst else Both;
      AddLineTotal(r, Line(kind, line[1..]));
    }
  }

  lemma {:induction false} ReadFromTotal(r: Reader, lines: seq<string>)
    requires AtOk(r) && ReadFrom(r, lines).Some?
    ensures Total(ReadFrom(r, lines).value.patches) == Total(r.patches) + Sum(lines, Body)
    decreases |lines|
  {
    hide ReadLine, Body, Total;
    if lines != [] {
      ReadLineTotal(r, lines[0]);
      SumPopFirst(lines, Body);
      ReadFromTotal(ReadLine(r, lines[0]).value, lines[1..]);
    }
  }

  ghost const Plain: Line -> nat := (l: Line) => if LooksLikeHeader(l) then 0 else 1
  ghost const PlainIn: Chunk -> nat := (c: Chunk) => Sum(c.lines, Plain)
  ghost const PlainInPatch: Patch -> nat := (p: Patch) => Sum(p.chunks, PlainIn)

  lemma {:induction false} WrittenLinesBody(lines: seq<Line>)
    ensures Sum(WriteLines(lines), Body) == Sum(lines, Plain)
  {
    if lines != [] {
      var init, l := lines[..|lines| - 1], lines[|lines| - 1];
      WrittenLinesBody(init);
      WrittenLineForm(l);
      SumSnoc(WriteLines(init), WriteLine(l), Body);
    }
  }

  lemma {:induction false} WrittenChunksBody(chunks: seq<Chunk>)
    ensures Sum(WriteChunks(chunks), Body) == Sum(chunks, PlainIn)
  {
    if chunks != [] {
      var init, c := chunks[..|chunks| - 1], chunks[|chunks| - 1];
      hide Header;
      WrittenChunksBody(init);
      HeaderMatches(c);
      WrittenLinesBody(c.lines);
      SumAppend([Header(c)], WriteLines(c.lines), Body);
      SumSnoc([], Header(c), Body);
      assert [] + [Header(c)] == [Header(c)];
      SumAppend(WriteChunks(init), WriteChunk(c), Body);
    }
  }

  lemma NamesNotBody(p: Patch)
    ensures Sum(["--- " + p.src, "+++ " + p.dst], Body) == 0
  {
    var a, b := "--- " + p.src, "+++ " + p.dst;
    SumZeroIff([a, b], Body);
  }

  lemma {:induction false} WrittenBody(patches: seq<Patch>)
    ensures Sum(Write(patches), Body) == Sum(patches, PlainInPatch)
  {
    if patches != [] {
      var init, p := patches[..|patches| - 1], patches[|patches| - 1];
      hide Body;
      WrittenBody(init);
      NamesNotBody(p);
      WrittenChunksBody(p.chunks);
      SumAppend(["--- " + p.src, "+++ " + p.dst], WriteChunks(p.chunks), Body);
      SumAppend(Write(init), WritePatch(p), Body);
    }
  }

  /** If every line counts as plain, none looks like a header. */
  lemma AllPlain(patches: seq<Patch>)
    requires Sum(patches, PlainInPatch) == Total(patches)
    ensures NoneLooksLikeHeader(patches)
  {
    forall p | p in patches
      ensures PlainInPatch(p) <= LinesInPatch(p)
      ensures PlainInPatch(p) == LinesInPatch(p) ==>
        forall c, l :: c in p.chunks && l in c.lines ==> !LooksLikeHeader(l)
    {
      PlainChunks(p.chunks);
    }
    SumMonotone(patches, PlainInPatch, LinesInPatch);
  }

  lemma PlainChunks(chunks: seq<Chunk>)
    ensures Sum(chunks, PlainIn) <= Sum(chunks, LinesIn)
    ensures Sum(chunks, PlainIn) == Sum(chunks, LinesIn) ==>
      forall c, l :: c in chunks && l in c.lines ==> !LooksLikeHeader(l)
  {
    forall c | c in chunks
      ensures PlainIn(c) <= LinesIn(c)
      ensures PlainIn(c) == LinesIn(c) ==> forall l :: l in c.lines ==> !LooksLikeHeader(l)
    {
      SumAtMostLength(c.lines, Plain);
      if PlainIn(c) == LinesIn(c) {
        forall l | l in c.lines
          ensures !LooksLikeHeader(l)
        {
          assert Plain(l) == 1;
        }
      }
    }
    SumMonotone(chunks, PlainIn, LinesIn);
  }

  /** A patchset is read back as it was written iff no removed line starts with "-- " and no
      added line starts with "++ ". */
  lemma RoundTripIff(patches: seq<Patch>)
    ensures Parse(Write(patches)) == Some(patches) <==> NoneLooksLikeHeader(patches)
  {
    if NoneLooksLikeHeader(patches) {
      var at := PatchesRead(patches);
    }
    if Parse(Write(patches)) == Some(patches) {
      ReadFromTotal(Empty, Write(patches));
      WrittenBody(patches);
      AllPlain(patches);
    }
  }

  // ---------- whatever was read can be written and read again ----------

  lemma ReadLineKeepsPlain(r: Reader, line: string)
    requires AtOk(r) && NoneLooksLikeHeader(r.patches) && ReadLine(r, line).Some?
    ensures NoneLooksLikeHeader(ReadLine(r, line).value.patches)
  {
    hide MatchChunkStart;
    var r' := ReadLine(r, line).value;
    if !("--- " <= line) && !("+++ " <= line) && MatchChunkStart(line).None? {
      PrefixTail("--- ", line);
      PrefixTail("+++ ", line);
      assert "--- "[1..] == "-- " && "+++ "[1..] == "++ ";
    }
    forall p, c, l | p in r'.patches && c in p.chunks && l in c.lines
      ensures !LooksLikeHeader(l)
    {
      if !(exists p0, c0 :: p0 in r.patches && c0 in p0.chunks && l in c0.lines) {
        assert IsBodyLine(line);
        assert l.text == line[1..];
      }
    }
  }

  lemma {:induction false} ReadFromKeepsPlain(r: Reader, lines: seq<string>)
    requires AtOk(r) && NoneLooksLikeHeader(r.patches) && ReadFrom(r, lines).Some?
    ensures NoneLooksLikeHeader(ReadFrom(r, lines).value.patches)
    decreases |lines|
  {
    hide ReadLine, LooksLikeHeader;
    if lines != [] {
      ReadLineKeepsPlain(r, lines[0]);
      ReadFromKeepsPlain(ReadLine(r, lines[0]).value, lines[1..]);
    }
  }

  /** Every patchset that was read comes back unchanged from being written and read again,
      and those are all the patchsets that can be read. */
  lemma ParseImage(patches: seq<Patch>)
    ensures NoneLooksLikeHeader(patches) <==> exists lines :: Parse(lines) == Some(patches)
  {
    RoundTripIff(patches);
    forall lines | Parse(lines) == Some(patches)
      ensures NoneLooksLikeHeader(patches)
    {
      ReadFromKeepsPlain(Empty, lines);
    }
  }
}
