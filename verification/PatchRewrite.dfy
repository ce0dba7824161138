/** Undoing trailing-whitespace removal in a patch: line objects shared by a chunk's source
    and destination views are extended in place. */
module PatchRewrite {
  import opened PatchText
  import opened PatchRoundTrip
  import opened Wrappers

  // ---------- the rewrite on values ----------

  /** Where the lines of a view are in the chunk. */
  ghost function SrcIndices(lines: seq<Line>): (r: seq<nat>)
    ensures forall i :: 0 <= i < |r| ==> r[i] < |lines|
  {
    if lines == [] then []
    else
      var n := |lines| - 1;
      SrcIndices(lines[..n]) + if IsSrc(lines[n]) then [n] else []
  }

  ghost function DstIndices(lines: seq<Line>): (r: seq<nat>)
    ensures forall i :: 0 <= i < |r| ==> r[i] < |lines|
  {
    if lines == [] then []
    else
      var n := |lines| - 1;
      DstIndices(lines[..n]) + if IsDst(lines[n]) then [n] else []
  }

  ghost predicate Rising(r: seq<nat>) {
    forall i, j :: 0 <= i < j < |r| ==> r[i] < r[j]
  }

  lemma {:induction false} SrcIndicesExact(lines: seq<Line>)
    ensures Rising(SrcIndices(lines))
    ensures forall k: nat :: k in SrcIndices(lines) <==> k < |lines| && IsSrc(lines[k])
  {
    if lines != [] {
      var n := |lines| - 1;
      SrcIndicesExact(lines[..n]);
      assert forall k :: 0 <= k < n ==> lines[..n][k] == lines[k];
    }
  }

  lemma {:induction false} DstIndicesExact(lines: seq<Line>)
    ensures Rising(DstIndices(lines))
    ensures forall k: nat :: k in DstIndices(lines) <==> k < |lines| && IsDst(lines[k])
  {
    if lines != [] {
      var n := |lines| - 1;
      DstIndicesExact(lines[..n]);
      assert forall k :: 0 <= k < n ==> lines[..n][k] == lines[k];
    }
  }

  /** A line that ends in a blank, split before it; the expression is greedy, so the second
      part is a single character. */
  function SplitBlank(s: string): Option<(string, string)> {
    if s != [] && (s[|s| - 1] == ' ' || s[|s| - 1] == '\t')
    then Some((s[..|s| - 1], s[|s| - 1..])) else None
  }

  /** s is d with one blank more. */
  predicate OneBlankMore(s: string, d: string) {
    SplitBlank(s).Some? && SplitBlank(s).value.0 == d
  }

  /** Compare the i-th source line with the i-th destination line and extend the latter. */
  ghost function Extend(lines: seq<Line>, s: nat, d: nat): seq<Line>
    requires s < |lines| && d < |lines|
  {
    if OneBlankMore(lines[s].text, lines[d].text)
    then lines[d := lines[d].(text := lines[d].text + SplitBlank(lines[s].text).value.1)]
    else lines
  }

  ghost predicate SameShape(a: seq<Line>, b: seq<Line>) {
    |a| == |b| && forall k :: 0 <= k < |a| ==> a[k].kind == b[k].kind
  }

  lemma {:induction false} ShapeFixesIndices(a: seq<Line>, b: seq<Line>)
    requires SameShape(a, b)
    ensures SrcIndices(a) == SrcIndices(b) && DstIndices(a) == DstIndices(b)
  {
    if a != [] {
      ShapeFixesIndices(a[..|a| - 1], b[..|b| - 1]);
    }
  }

  /** Line numbers of a view that are within the chunk. */
  ghost predicate Fits(lines: seq<Line>, view: seq<nat>) {
    forall i :: 0 <= i < |view| ==> view[i] < |lines|
  }

  /** The chunk's lines after the first n pairs of the two views have been compared. */
  ghost function Rewritten(lines: seq<Line>, src: seq<nat>, dst: seq<nat>, n: nat): (r: seq<Line>)
    requires Fits(lines, src) && Fits(lines, dst) && n <= |src| && n <= |dst|
    ensures SameShape(lines, r)
  {
    if n == 0 then lines else Extend(Rewritten(lines, src, dst, n - 1), src[n - 1], dst[n - 1])
  }

  /** How many pairs are compared: running out of destination lines raises an IndexError,
      which ends the whole rewrite. */
  ghost function Pairs(lines: seq<Line>): (n: nat)
    ensures n <= |SrcIndices(lines)| && n <= |DstIndices(lines)|
  {
    if |SrcIndices(lines)| <= |DstIndices(lines)| then |SrcIndices(lines)| else |DstIndices(lines)|
  }

  ghost predicate Completes(lines: seq<Line>) {
    |SrcIndices(lines)| <= |DstIndices(lines)|
  }

  ghost function RewriteChunkLines(lines: seq<Line>): (r: seq<Line>)
    ensures SameShape(lines, r)
  {
    Rewritten(lines, SrcIndices(lines), DstIndices(lines), Pairs(lines))
  }

  // ---------- what the rewrite does to a chunk ----------

  ghost predicate SameOrOneBlank(before: Line, after: Line) {
    after == before ||
    (after.kind == before.kind && (after.text == before.text + " " || after.text == before.text + "\t"))
  }

  lemma ExtendIsOneBlank(lines: seq<Line>, s: nat, d: nat)
    requires s < |lines| && d < |lines|
    ensures SameOrOneBlank(lines[d], Extend(lines, s, d)[d])
    ensures forall k :: 0 <= k < |lines| && k != d ==> Extend(lines, s, d)[k] == lines[k]
  {
    if OneBlankMore(lines[s].text, lines[d].text) {
      var blank := SplitBlank(lines[s].text).value.1;
      assert blank == " " || blank == "\t";
    }
  }

  /** Lines whose turn has not come are untouched; the others gain at most one blank. */
  lemma {:induction false} RewrittenLines(lines: seq<Line>, src: seq<nat>, dst: seq<nat>, n: nat, k: nat)
    requires Fits(lines, src) && Fits(lines, dst) && Rising(dst) && n <= |src| && n <= |dst| && k < |lines|
    ensures SameOrOneBlank(lines[k], Rewritten(lines, src, dst, n)[k])
    ensures (forall i :: 0 <= i < n ==> dst[i] != k) ==> Rewritten(lines, src, dst, n)[k] == lines[k]
    decreases n
  {
    if n > 0 {
      RewrittenLines(lines, src, dst, n - 1, k);
      ExtendIsOneBlank(Rewritten(lines, src, dst, n - 1), src[n - 1], dst[n - 1]);
      hide Extend, SameOrOneBlank;
      if k == dst[n - 1] {
        assert forall i :: 0 <= i < n - 1 ==> dst[i] != k;
      }
    }
  }

  /** Every path through the rewrite keeps the kinds, changes destination lines only, and
      adds at most one blank to each. */
  lemma RewriteKeepsLines(lines: seq<Line>)
    ensures var r := RewriteChunkLines(lines);
      && |r| == |lines| && SrcIndices(r) == SrcIndices(lines) && DstIndices(r) == DstIndices(lines)
      && forall k :: 0 <= k < |lines| ==>
           SameOrOneBlank(lines[k], r[k]) && (!IsDst(lines[k]) ==> r[k] == lines[k])
  {
    hide SameOrOneBlank, Rewritten;
    var r := RewriteChunkLines(lines);
    ShapeFixesIndices(lines, r);
    DstIndicesExact(lines);
    forall k | 0 <= k < |lines|
      ensures SameOrOneBlank(lines[k], r[k]) && (!IsDst(lines[k]) ==> r[k] == lines[k])
    {
      RewrittenLines(lines, SrcIndices(lines), DstIndices(lines), Pairs(lines), k);
    }
  }

  ghost predicate SourceKept(before: seq<Line>, after: seq<Line>)
    requires |before| == |after|
  {
    forall k :: 0 <= k < |before| && IsSrc(before[k]) ==> after[k] == before[k]
  }

  /** The pair that spoils the source side: a shared line that must gain the blank its
      source partner ends in. */
  ghost predicate SharedLineGrows(lines: seq<Line>, s: nat, d: nat)
    requires s < |lines| && d < |lines|
  {
    lines[d].kind == Both && OneBlankMore(lines[s].text, lines[d].text)
  }

  ghost predicate NoneGrows(lines: seq<Line>, src: seq<nat>, dst: seq<nat>, n: nat)
    requires Fits(lines, src) && Fits(lines, dst) && n <= |src| && n <= |dst|
  {
    forall i :: 0 <= i < n ==> !SharedLineGrows(lines, src[i], dst[i])
  }

  ghost predicate AllSrc(lines: seq<Line>, src: seq<nat>) {
    Fits(lines, src) && forall i :: 0 <= i < |src| ==> IsSrc(lines[src[i]])
  }

  ghost predicate AllDst(lines: seq<Line>, dst: seq<nat>) {
    Fits(lines, dst) && Rising(dst) && forall i :: 0 <= i < |dst| ==> IsDst(lines[dst[i]])
  }

  lemma ViewsSelect(lines: seq<Line>)
    ensures AllSrc(lines, SrcIndices(lines)) && AllDst(lines, DstIndices(lines))
  {
    var src, dst := SrcIndices(lines), DstIndices(lines);
    SrcIndicesExact(lines);
    DstIndicesExact(lines);
    assert forall i :: 0 <= i < |src| ==> src[i] in src;
    assert forall i :: 0 <= i < |dst| ==> dst[i] in dst;
  }

  lemma {:induction false} SourceKeptSoFar(lines: seq<Line>, src: seq<nat>, dst: seq<nat>, n: nat)
    requires AllSrc(lines, src) && AllDst(lines, dst) && n <= |src| && n <= |dst|
    requires NoneGrows(lines, src, dst, n)
    ensures SourceKept(lines, Rewritten(lines, src, dst, n))
    decreases n
  {
    if n > 0 {
      SourceKeptSoFar(lines, src, dst, n - 1);
      var s, d := src[n - 1], dst[n - 1];
      var before := Rewritten(lines, src, dst, n - 1);
      ExtendIsOneBlank(before, s, d);
      assert !SharedLineGrows(lines, s, d);
      hide SplitBlank, Rising, SameOrOneBlank;
      assert before[s] == lines[s];
      if IsSrc(lines[d]) {
        assert before[d] == lines[d];
        assert Extend(before, s, d) == before;
      }
    }
  }

  /** Texts only grow, so a line once extended never gets its old text back. */
  lemma {:induction false} TextsGrow(lines: seq<Line>, src: seq<nat>, dst: seq<nat>, m: nat, n: nat, k: nat)
    requires Fits(lines, src) && Fits(lines, dst) && m <= n <= |src| && n <= |dst| && k < |lines|
    ensures |Rewritten(lines, src, dst, m)[k].text| <= |Rewritten(lines, src, dst, n)[k].text|
    decreases n
  {
    if m < n {
      TextsGrow(lines, src, dst, m, n - 1, k);
      ExtendIsOneBlank(Rewritten(lines, src, dst, n - 1), src[n - 1], dst[n - 1]);
      hide Extend;
    }
  }

  lemma {:induction false} FirstGrowth(lines: seq<Line>, src: seq<nat>, dst: seq<nat>, n: nat) returns (f: nat)
    requires Fits(lines, src) && Fits(lines, dst) && n <= |src| && n <= |dst|
    requires !NoneGrows(lines, src, dst, n)
    ensures f < n && SharedLineGrows(lines, src[f], dst[f]) && NoneGrows(lines, src, dst, f)
    decreases n
  {
    if NoneGrows(lines, src, dst, n - 1) {
      f := n - 1;
    } else {
      f := FirstGrowth(lines, src, dst, n - 1);
    }
  }

  lemma GrowthSpoils(lines: seq<Line>, src: seq<nat>, dst: seq<nat>, f: nat, n: nat)
    requires AllSrc(lines, src) && AllDst(lines, dst) && f < n <= |src| && n <= |dst|
    requires SharedLineGrows(lines, src[f], dst[f]) && NoneGrows(lines, src, dst, f)
    ensures !SourceKept(lines, Rewritten(lines, src, dst, n))
  {
    var s, d := src[f], dst[f];
    SpoiltAt(lines, src, dst, f);
    hide SharedLineGrows, NoneGrows, Rewritten;
    TextsGrow(lines, src, dst, f + 1, n, d);
    assert IsSrc(lines[d]);
  }

  lemma SpoiltAt(lines: seq<Line>, src: seq<nat>, dst: seq<nat>, f: nat)
    requires AllSrc(lines, src) && AllDst(lines, dst) && f < |src| && f < |dst|
    requires SharedLineGrows(lines, src[f], dst[f]) && NoneGrows(lines, src, dst, f)
    ensures |Rewritten(lines, src, dst, f + 1)[dst[f]].text| == |lines[dst[f]].text| + 1
    ensures IsSrc(lines[dst[f]])
  {
    SourceKeptSoFar(lines, src, dst, f);
    hide Rising, NoneGrows;
    var before := Rewritten(lines, src, dst, f);
    assert before[src[f]] == lines[src[f]] && before[dst[f]] == lines[dst[f]];
  }

  /** The source side survives exactly when no compared destination line that is shared with
      the source lacks just the blank its source partner ends in. */
  lemma SourceKeptIff(lines: seq<Line>)
    ensures SourceKept(lines, RewriteChunkLines(lines))
       <==> NoneGrows(lines, SrcIndices(lines), DstIndices(lines), Pairs(lines))
  {
    hide SharedLineGrows, Rewritten, NoneGrows, SourceKept;
    var src, dst, n := SrcIndices(lines), DstIndices(lines), Pairs(lines);
    ViewsSelect(lines);
    if NoneGrows(lines, src, dst, n) {
      SourceKeptSoFar(lines, src, dst, n);
    } else {
      var f := FirstGrowth(lines, src, dst, n);
      GrowthSpoils(lines, src, dst, f, n);
    }
  }

  /** In particular it survives when shared lines have the same number in both views. */
  lemma AlignedSourceKept(lines: seq<Line>)
    requires forall i :: 0 <= i < Pairs(lines) && lines[DstIndices(lines)[i]].kind == Both ==>
               SrcIndices(lines)[i] == DstIndices(lines)[i]
    ensures SourceKept(lines, RewriteChunkLines(lines))
  {
    hide SourceKept, RewriteChunkLines;
    SourceKeptIff(lines);
  }

  /** Not in general: removing "a " above an unchanged "a" rewrites the unchanged line. */
  lemma SourceCanChange()
    ensures var lines := [Line(Src, "a "), Line(Both, "a")]; !SourceKept(lines, RewriteChunkLines(lines))
  {
    var first, lines := [Line(Src, "a ")], [Line(Src, "a "), Line(Both, "a")];
    assert lines[..1] == first && first[..0] == [];
    assert SrcIndices(first) == [0] && DstIndices(first) == [];
    assert SrcIndices(lines) == [0, 1] && DstIndices(lines) == [1];
    assert SharedLineGrows(lines, 0, 1);
    hide SourceKept, RewriteChunkLines, SharedLineGrows;
    SourceKeptIff(lines);
  }

  // ---------- the rewrite on shared line objects ----------

  class PatchChunkLine {
    var kind: Option<Kind>
    var text: string

    constructor ()
      ensures kind == None && text == ""
    {
      kind, text := None, "";
    }

    method SetSrc(line: string)
      modifies this
      ensures kind == Some(Src) && text == line
    {
      kind, text := Some(Src), line;
    }

    method SetDst(line: string)
      modifies this
      ensures kind == Some(Dst) && text == line
    {
      kind, text := Some(Dst), line;
    }

    method SetBoth(line: string)
      modifies this
      ensures kind == Some(Both) && text == line
    {
      kind, text := Some(Both), line;
    }

    method AppendToLine(s: string)
      modifies this`text
      ensures text == old(text) + s
    {
      text := text + s;
    }

    ghost function Value(): Line
      reads this
      requires kind.Some?
    {
      Line(kind.value, text)
    }
  }

  /** A chunk's line objects: all of some kind and all different. */
  ghost predicate ValidLines(lines: seq<PatchChunkLine>)
    reads lines
  {
    && (forall i :: 0 <= i < |lines| ==> lines[i].kind.Some?)
    && (forall i, j :: 0 <= i < j < |lines| ==> lines[i] != lines[j])
  }

  ghost function Values(lines: seq<PatchChunkLine>): (r: seq<Line>)
    reads lines
    requires forall i :: 0 <= i < |lines| ==> lines[i].kind.Some?
    ensures |r| == |lines| && forall i :: 0 <= i < |r| ==> r[i] == lines[i].Value()
  {
    if lines == [] then [] else Values(lines[..|lines| - 1]) + [lines[|lines| - 1].Value()]
  }

  /** view lists the objects of lines at the given numbers. */
  ghost predicate Selects(lines: seq<PatchChunkLine>, view: seq<PatchChunkLine>, at: seq<nat>) {
    |view| == |at| && forall i :: 0 <= i < |at| ==> at[i] < |lines| && view[i] == lines[at[i]]
  }

  lemma SrcIndicesNext(lines: seq<Line>, i: nat)
    requires i < |lines|
    ensures SrcIndices(lines[..i + 1]) == SrcIndices(lines[..i]) + if IsSrc(lines[i]) then [i] else []
  {
    assert lines[..i + 1][..i] == lines[..i];
  }

  method SrcLines(lines: seq<PatchChunkLine>) returns (src: seq<PatchChunkLine>)
    requires ValidLines(lines)
    ensures Selects(lines, src, SrcIndices(Values(lines)))
  {
    src := [];
    ghost var values := Values(lines);
    assert values[..0] == [] && SrcIndices([]) == [];
    hide SrcIndices, Values;
    for i := 0 to |lines|
      invariant Selects(lines, src, SrcIndices(values[..i]))
    {
      SrcIndicesNext(values, i);
      assert values[i] == lines[i].Value();
      if lines[i].kind == Some(Src) || lines[i].kind == Some(Both) {
        src := src + [lines[i]];
      }
    }
    assert values[..|lines|] == values;
  }

  lemma DstIndicesNext(lines: seq<Line>, i: nat)
    requires i < |lines|
    ensures DstIndices(lines[..i + 1]) == DstIndices(lines[..i]) + if IsDst(lines[i]) then [i] else []
  {
    assert lines[..i + 1][..i] == lines[..i];
  }

  method DstLines(lines: seq<PatchChunkLine>) returns (dst: seq<PatchChunkLine>)
    requires ValidLines(lines)
    ensures Selects(lines, dst, DstIndices(Values(lines)))
  {
    dst := [];
    ghost var values := Values(lines);
    assert values[..0] == [] && DstIndices([]) == [];
    hide DstIndices, Values;
    for i := 0 to |lines|
      invariant Selects(lines, dst, DstIndices(values[..i]))
    {
      DstIndicesNext(values, i);
      assert values[i] == lines[i].Value();
      if lines[i].kind == Some(Dst) || lines[i].kind == Some(Both) {
        dst := dst + [lines[i]];
      }
    }
    assert values[..|lines|] == values;
  }

  /** Compare one pair of line objects and extend the destination one in place. */
  method ComparePair(lines: seq<PatchChunkLine>, s: PatchChunkLine, d: PatchChunkLine, ghost si: nat, ghost di: nat)
    requires ValidLines(lines) && si < |lines| && di < |lines| && lines[si] == s && lines[di] == d
    modifies lines
    ensures ValidLines(lines) && Values(lines) == Extend(old(Values(lines)), si, di)
  {
    ghost var before := Values(lines);
    assert before[si] == s.Value() && before[di] == d.Value();
    var m := SplitBlank(s.text);
    if m.Some? && m.value.0 == d.text {
      d.AppendToLine(m.value.1);
      forall k | 0 <= k < |lines|
        ensures lines[k].Value() == Extend(before, si, di)[k]
      {
      }
    }
    assert |Values(lines)| == |Extend(before, si, di)|;
  }

  lemma RewriteStarts(lines: seq<Line>)
    ensures Fits(lines, SrcIndices(lines)) && Fits(lines, DstIndices(lines))
    ensures Rewritten(lines, SrcIndices(lines), DstIndices(lines), 0) == lines
  {
  }

  lemma RewriteGoesOn(lines: seq<Line>, n: nat)
    requires n < |SrcIndices(lines)| && n < |DstIndices(lines)|
    ensures var si, di := SrcIndices(lines), DstIndices(lines);
      Rewritten(lines, si, di, n + 1) == Extend(Rewritten(lines, si, di, n), si[n], di[n])
  {
  }

  lemma RewriteStops(lines: seq<Line>, n: nat)
    requires n == Pairs(lines)
    ensures Rewritten(lines, SrcIndices(lines), DstIndices(lines), n) == RewriteChunkLines(lines)
  {
  }

  /** One chunk; false when the destination side ran out of lines. */
  method RewriteChunk(lines: seq<PatchChunkLine>) returns (completed: bool)
    requires ValidLines(lines)
    modifies lines
    ensures ValidLines(lines) && Values(lines) == RewriteChunkLines(old(Values(lines)))
    ensures completed <==> Completes(old(Values(lines)))
  {
    hide Rewritten, SrcIndices, DstIndices, RewriteChunkLines, Extend, Values;
    ghost var lines0 := Values(lines);
    ghost var si, di := SrcIndices(lines0), DstIndices(lines0);
    RewriteStarts(lines0);
    var src := SrcLines(lines);
    var dst := DstLines(lines);
    for i := 0 to |src|
      invariant i <= |dst| && ValidLines(lines)
      invariant Values(lines) == Rewritten(lines0, si, di, i)
    {
      if i >= |dst| {
        RewriteStops(lines0, i);
        return false;
      }
      RewriteGoesOn(lines0, i);
      ComparePair(lines, src[i], dst[i], si[i], di[i]);
    }
    RewriteStops(lines0, |src|);
    return true;
  }

  twostate lemma ValuesKept(lines: seq<PatchChunkLine>)
    requires old(ValidLines(lines)) && forall l :: l in lines ==> unchanged(l)
    ensures ValidLines(lines) && Values(lines) == old(Values(lines))
  {
    forall k | 0 <= k < |lines|
      ensures lines[k].kind == old(lines[k].kind) && lines[k].text == old(lines[k].text)
    {
      assert lines[k] in lines;
    }
    assert |Values(lines)| == |old(Values(lines))|;
  }

  /** The line objects of all chunks, each in one place only. */
  ghost predicate ValidChunks(chunks: seq<seq<PatchChunkLine>>, all: set<PatchChunkLine>)
    reads all
  {
    && (forall c, l :: 0 <= c < |chunks| && l in chunks[c] ==> l in all)
    && (forall c :: 0 <= c < |chunks| ==> ValidLines(chunks[c]))
    && (forall c, d, l :: 0 <= c < d < |chunks| && l in chunks[c] ==> l !in chunks[d])
  }

  /** All chunks of all patches in order; the first chunk that runs out of destination lines
      is the last one touched. */
  method RemoveTrailingWhitespaceChanges(chunks: seq<seq<PatchChunkLine>>, ghost all: set<PatchChunkLine>)
    returns (ghost touched: nat)
    requires ValidChunks(chunks, all)
    modifies all
    ensures ValidChunks(chunks, all) && touched <= |chunks|
    ensures forall c :: 0 <= c < touched ==> Values(chunks[c]) == RewriteChunkLines(old(Values(chunks[c])))
    ensures forall c :: touched <= c < |chunks| ==> Values(chunks[c]) == old(Values(chunks[c]))
    ensures forall c :: 0 <= c < touched - 1 ==> Completes(old(Values(chunks[c])))
    ensures touched < |chunks| ==> touched > 0 && !Completes(old(Values(chunks[touched - 1])))
  {
    hide RewriteChunkLines, Completes, Values;
    for i := 0 to |chunks|
      invariant ValidChunks(chunks, all)
      invariant forall c :: 0 <= c < i ==> Values(chunks[c]) == RewriteChunkLines(old(Values(chunks[c])))
      invariant forall c :: i <= c < |chunks| ==> Values(chunks[c]) == old(Values(chunks[c]))
      invariant forall c :: 0 <= c < i ==> Completes(old(Values(chunks[c])))
    {
      label Before:
      var completed := RewriteChunk(chunks[i]);
      forall c | 0 <= c < |chunks| && c != i
        ensures ValidLines(chunks[c]) && Values(chunks[c]) == old@Before(Values(chunks[c]))
      {
        assert forall l :: l in chunks[c] ==> l !in chunks[i];
        ValuesKept@Before(chunks[c]);
      }
      if !completed {
        touched := i + 1;
        return;
      }
    }
    touched := |chunks|;
  }
}
