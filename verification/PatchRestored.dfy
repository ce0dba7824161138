/** What undoing trailing-whitespace removal makes of each line of a chunk, told from the chunk as it
    was: which lines are restored, and when the result can still be read back. */
module PatchRestored {
  import opened Wrappers
  import opened PatchText
  import opened PatchRoundTrip
  import opened PatchRewrite

  // ---------- each line's turn ----------

  /** The turn among the first n at which line k is the destination line. */
  ghost function TurnOf(dst: seq<nat>, n: nat, k: nat): (r: Option<nat>)
    requires n <= |dst|
    ensures r.Some? ==> r.value < n && dst[r.value] == k
    ensures r.None? ==> forall j :: 0 <= j < n ==> dst[j] != k
  {
    if n == 0 then None else if dst[n - 1] == k then Some(n - 1) else TurnOf(dst, n - 1, k)
  }

  /** A text that is compared with its partner's takes over just the blank it lacks. */
  function Grown(text: string, partner: string): string {
    if OneBlankMore(partner, text) then partner else text
  }

  /** The text of the i-th source line when its turn comes: its own, unless it is also a
      destination line whose turn came earlier. */
  ghost function TextAtTurn(lines: seq<Line>, src: seq<nat>, dst: seq<nat>, i: nat): string
    requires Fits(lines, src) && Fits(lines, dst) && i < |src| && i < |dst|
    decreases i
  {
    match TurnOf(dst, i, src[i])
    case None => lines[src[i]].text
    case Some(j) => Grown(lines[src[i]].text, TextAtTurn(lines, src, dst, j))
  }

  /** The text line k ends up with after n turns. */
  ghost function TextAfter(lines: seq<Line>, src: seq<nat>, dst: seq<nat>, n: nat, k: nat): string
    requires Fits(lines, src) && Fits(lines, dst) && n <= |src| && n <= |dst| && k < |lines|
  {
    match TurnOf(dst, n, k)
    case None => lines[k].text
    case Some(j) => Grown(lines[k].text, TextAtTurn(lines, src, dst, j))
  }

  lemma ExtendGrows(lines: seq<Line>, s: nat, d: nat)
    requires s < |lines| && d < |lines|
    ensures Extend(lines, s, d) == lines[d := lines[d].(text := Grown(lines[d].text, lines[s].text))]
  {
    assert lines[d].(text := lines[d].text) == lines[d] && lines[d := lines[d]] == lines;
    if OneBlankMore(lines[s].text, lines[d].text) {
      assert lines[d].text + SplitBlank(lines[s].text).value.1 == lines[s].text;
    }
  }

  /** The rewrite, line by line. */
  lemma {:induction false} RewrittenText(lines: seq<Line>, src: seq<nat>, dst: seq<nat>, n: nat, k: nat)
    requires Fits(lines, src) && Fits(lines, dst) && Rising(dst) && n <= |src| && n <= |dst| && k < |lines|
    ensures Rewritten(lines, src, dst, n)[k] == lines[k].(text := TextAfter(lines, src, dst, n, k))
    decreases n
  {
    hide Grown, Extend, SplitBlank, TextAtTurn;
    if n > 0 {
      var s, d := src[n - 1], dst[n - 1];
      RewrittenText(lines, src, dst, n - 1, k);
      RewrittenText(lines, src, dst, n - 1, s);
      SourceText(lines, src, dst, n - 1);
      ExtendGrows(Rewritten(lines, src, dst, n - 1), s, d);
      assert d == k ==> TurnOf(dst, n - 1, k).None?;
    }
  }

  lemma SourceText(lines: seq<Line>, src: seq<nat>, dst: seq<nat>, i: nat)
    requires Fits(lines, src) && Fits(lines, dst) && i < |src| && i < |dst|
    ensures TextAfter(lines, src, dst, i, src[i]) == TextAtTurn(lines, src, dst, i)
  {
    hide Grown;
  }

  lemma {:induction false} TurnAt(dst: seq<nat>, n: nat, i: nat)
    requires Rising(dst) && i < n <= |dst|
    ensures TurnOf(dst, n, dst[i]) == Some(i)
  {
    if i < n - 1 {
      TurnAt(dst, n - 1, i);
    }
  }

  /** Every compared destination line ends up as its own text grown towards what its source partner
      reads at that turn; all other lines stay. */
  lemma RewriteExact(lines: seq<Line>, k: nat)
    requires k < |lines|
    ensures var src, dst, n := SrcIndices(lines), DstIndices(lines), Pairs(lines);
      && (forall i :: 0 <= i < n && dst[i] == k ==>
            RewriteChunkLines(lines)[k] == lines[k].(text := Grown(lines[k].text, TextAtTurn(lines, src, dst, i))))
      && ((forall i :: 0 <= i < n ==> dst[i] != k) ==> RewriteChunkLines(lines)[k] == lines[k])
  {
    var src, dst, n := SrcIndices(lines), DstIndices(lines), Pairs(lines);
    ViewsSelect(lines);
    RewrittenText(lines, src, dst, n, k);
    hide Rewritten, SrcIndices, DstIndices, Grown, TextAtTurn;
    forall i | 0 <= i < n && dst[i] == k
      ensures TurnOf(dst, n, k) == Some(i)
    {
      TurnAt(dst, n, i);
    }
  }

  // ---------- what is restored ----------

  /** The pair was treated as the chunk's original lines ask for: a destination line that lacks just
      the blank its source partner ends in equals that partner now, and any other line stayed. */
  ghost predicate Restored(lines: seq<Line>, i: nat)
    requires i < Pairs(lines)
  {
    var s, d := SrcIndices(lines)[i], DstIndices(lines)[i];
    RewriteChunkLines(lines)[d] == lines[d].(text := Grown(lines[d].text, lines[s].text))
  }

  lemma GrownTwice(d: string, s: string, t: string)
    requires t == s || OneBlankMore(t, s)
    ensures Grown(d, t) == Grown(d, s) <==> t == s || (d != s && !OneBlankMore(s, d))
  {
    if t != s {
      assert |t| == |s| + 1;
    }
  }

  lemma TextAtTurnGrows(lines: seq<Line>, src: seq<nat>, dst: seq<nat>, i: nat)
    requires Fits(lines, src) && Fits(lines, dst) && i < |src| && i < |dst|
    ensures var t, s := TextAtTurn(lines, src, dst, i), lines[src[i]].text; t == s || OneBlankMore(t, s)
  {
  }

  /** What the rewrite is for, pair by pair: it succeeds iff the source partner still had its text
      when its turn came, or the destination line is neither that text nor lacks its last blank. */
  lemma WhitespaceRestored(lines: seq<Line>, i: nat)
    requires i < Pairs(lines)
    ensures var src, dst := SrcIndices(lines), DstIndices(lines);
      var s, d := lines[src[i]].text, lines[dst[i]].text;
      Restored(lines, i) <==>
        TextAtTurn(lines, src, dst, i) == s || (d != s && !OneBlankMore(s, d))
  {
    var src, dst := SrcIndices(lines), DstIndices(lines);
    RewriteExact(lines, dst[i]);
    TextAtTurnGrows(lines, src, dst, i);
    GrownTwice(lines[dst[i]].text, lines[src[i]].text, TextAtTurn(lines, src, dst, i));
    hide RewriteChunkLines, SrcIndices, DstIndices, TextAtTurn, Grown, OneBlankMore;
  }

  /** Unless a shared line grows, every source line still has its text when its turn comes. */
  lemma {:induction false} UnspoiltText(lines: seq<Line>, src: seq<nat>, dst: seq<nat>, n: nat, i: nat)
    requires AllSrc(lines, src) && AllDst(lines, dst) && n <= |src| && n <= |dst| && i < n
    requires NoneGrows(lines, src, dst, n)
    ensures TextAtTurn(lines, src, dst, i) == lines[src[i]].text
    decreases i
  {
    hide OneBlankMore;
    match TurnOf(dst, i, src[i])
    case None =>
    case Some(j) =>
      UnspoiltText(lines, src, dst, n, j);
      assert IsSrc(lines[src[i]]) && IsDst(lines[dst[j]]);
      assert !SharedLineGrows(lines, src[j], dst[j]);
  }

  /** What lacking a blank is: the partner has one space or one tab more. */
  lemma BlankMoreIff(partner: string, text: string)
    ensures OneBlankMore(partner, text) <==> partner == text + " " || partner == text + "\t"
  {
    if OneBlankMore(partner, text) {
      assert partner == text + [partner[|partner| - 1]];
    }
    assert (text + " ")[..|text|] == text && (text + "\t")[..|text|] == text;
  }

  /** A compared destination line whose source partner reads the same with a space or a tab behind it
      ends up equal to it. */
  lemma BlankRestored(lines: seq<Line>, i: nat)
    requires i < Pairs(lines)
    ensures var src, dst := SrcIndices(lines), DstIndices(lines);
      var s, d := TextAtTurn(lines, src, dst, i), lines[dst[i]].text;
      RewriteChunkLines(lines)[dst[i]].text == if s == d + " " || s == d + "\t" then s else d
  {
    RewriteExact(lines, DstIndices(lines)[i]);
    BlankMoreIff(TextAtTurn(lines, SrcIndices(lines), DstIndices(lines), i), lines[DstIndices(lines)[i]].text);
    hide RewriteChunkLines, SrcIndices, DstIndices, TextAtTurn, OneBlankMore, Pairs;
  }

  /** So where the source side survives, every pair is treated as it asks for. */
  lemma UnspoiltRestored(lines: seq<Line>, i: nat)
    requires NoneGrows(lines, SrcIndices(lines), DstIndices(lines), Pairs(lines)) && i < Pairs(lines)
    ensures Restored(lines, i)
  {
    ViewsSelect(lines);
    UnspoiltText(lines, SrcIndices(lines), DstIndices(lines), Pairs(lines), i);
    WhitespaceRestored(lines, i);
    hide Restored, SrcIndices, DstIndices, Pairs;
  }

  // ---------- reading the result back ----------

  /** The turn at which an added "++" becomes "++ ". */
  ghost predicate TurnsToHeader(lines: seq<Line>, i: nat)
    requires i < Pairs(lines)
  {
    var src, dst := SrcIndices(lines), DstIndices(lines);
    lines[dst[i]] == Line(Dst, "++") && TextAtTurn(lines, src, dst, i) == "++ "
  }

  lemma GrownHeader(l: Line, t: string)
    requires !LooksLikeHeader(l) && IsDst(l)
    ensures LooksLikeHeader(l.(text := Grown(l.text, t))) <==> l == Line(Dst, "++") && t == "++ "
  {
    assert "++ "[..2] == "++" && "++ "[2..] == " ";
    if OneBlankMore(t, l.text) {
      assert l.text == t[..|t| - 1];
      if l.kind == Dst && "++ " <= t {
        assert |t| == 3;
      }
    }
  }

  lemma HeaderAt(lines: seq<Line>, k: nat)
    requires k < |lines| && !LooksLikeHeader(lines[k])
    ensures LooksLikeHeader(RewriteChunkLines(lines)[k]) <==>
      exists i :: 0 <= i < Pairs(lines) && DstIndices(lines)[i] == k && TurnsToHeader(lines, i)
  {
    var dst := DstIndices(lines);
    RewriteExact(lines, k);
    ViewsSelect(lines);
    hide RewriteChunkLines, SrcIndices, DstIndices, TextAtTurn, Grown, LooksLikeHeader, Pairs;
    if i :| 0 <= i < Pairs(lines) && dst[i] == k {
      GrownHeader(lines[k], TextAtTurn(lines, SrcIndices(lines), dst, i));
      assert forall j :: 0 <= j < Pairs(lines) && dst[j] == k ==> j == i;
    }
  }

  /** A rewritten chunk that was fit to be written and read back still is, unless at the turn of an
      added line "++" its source partner reads "++ ": it then looks like a file name line. */
  lemma RewrittenReadsBackIff(lines: seq<Line>)
    requires forall k :: 0 <= k < |lines| ==> !LooksLikeHeader(lines[k])
    ensures var r := RewriteChunkLines(lines);
      (forall k :: 0 <= k < |r| ==> !LooksLikeHeader(r[k])) <==>
      !exists i :: 0 <= i < Pairs(lines) && TurnsToHeader(lines, i)
  {
    hide RewriteChunkLines, LooksLikeHeader, TurnsToHeader;
    forall k | 0 <= k < |lines|
      ensures LooksLikeHeader(RewriteChunkLines(lines)[k]) <==>
        exists i :: 0 <= i < Pairs(lines) && DstIndices(lines)[i] == k && TurnsToHeader(lines, i)
    {
      HeaderAt(lines, k);
    }
    hide Pairs, DstIndices;
    if i :| 0 <= i < Pairs(lines) && TurnsToHeader(lines, i) {
      assert LooksLikeHeader(RewriteChunkLines(lines)[DstIndices(lines)[i]]);
    }
  }

  /** When no shared line grows, the partner's own text decides. */
  lemma UnspoiltReadsBackIff(lines: seq<Line>)
    requires forall k :: 0 <= k < |lines| ==> !LooksLikeHeader(lines[k])
    requires NoneGrows(lines, SrcIndices(lines), DstIndices(lines), Pairs(lines))
    ensures var r, src, dst := RewriteChunkLines(lines), SrcIndices(lines), DstIndices(lines);
      (forall k :: 0 <= k < |r| ==> !LooksLikeHeader(r[k])) <==>
      !exists i :: 0 <= i < Pairs(lines) && lines[dst[i]] == Line(Dst, "++") && lines[src[i]].text == "++ "
  {
    RewrittenReadsBackIff(lines);
    ViewsSelect(lines);
    var src, dst, n := SrcIndices(lines), DstIndices(lines), Pairs(lines);
    hide RewriteChunkLines, LooksLikeHeader, SrcIndices, DstIndices, AllSrc, AllDst, NoneGrows, TextAtTurn;
    forall i | 0 <= i < n
      ensures TurnsToHeader(lines, i) <==> lines[dst[i]] == Line(Dst, "++") && lines[src[i]].text == "++ "
    {
      UnspoiltText(lines, src, dst, n, i);
    }
    hide *;
  }

  /** Written out, a patchset of one rewritten chunk is read back under exactly that condition. */
  lemma RewrittenRoundTripIff(src: string, dst: string, chunk: Chunk)
    requires forall k :: 0 <= k < |chunk.lines| ==> !LooksLikeHeader(chunk.lines[k])
    ensures var patchset := [Patch(src, dst, [chunk.(lines := RewriteChunkLines(chunk.lines))])];
      Parse(Write(patchset)) == Some(patchset) <==>
      !exists i :: 0 <= i < Pairs(chunk.lines) && TurnsToHeader(chunk.lines, i)
  {
    hide RewriteChunkLines, LooksLikeHeader, TurnsToHeader, Parse, Write, Pairs;
    var r := RewriteChunkLines(chunk.lines);
    var patch := Patch(src, dst, [chunk.(lines := r)]);
    RoundTripIff([patch]);
    RewrittenReadsBackIff(chunk.lines);
    assert NoneLooksLikeHeader([patch]) <==> forall k :: 0 <= k < |r| ==> !LooksLikeHeader(r[k]) by {
      assert patch in [patch] && patch.chunks[0] in patch.chunks;
    }
  }

  // ---------- it does happen ----------

  lemma TwoViews(a: Line, b: Line)
    ensures SrcIndices([a, b]) == (if IsSrc(a) then [0] else []) + if IsSrc(b) then [1] else []
    ensures DstIndices([a, b]) == (if IsDst(a) then [0] else []) + if IsDst(b) then [1] else []
  {
    OneView(a);
    assert [a, b][..1] == [a];
  }

  lemma OneView(a: Line)
    ensures SrcIndices([a]) == (if IsSrc(a) then [0] else []) && DstIndices([a]) == if IsDst(a) then [0] else []
  {
    assert [a][..0] == [];
  }

  lemma PlainLines()
    ensures !LooksLikeHeader(Line(Src, "++ "))
    ensures !LooksLikeHeader(Line(Both, "++")) && !LooksLikeHeader(Line(Dst, "++"))
  {
    assert "-- "[0] == '-' && "++ "[0] == '+';
  }

  /** Replacing "++ " by "++" yields an added line that reads as a file name. */
  lemma HeaderAppears()
    ensures var lines := [Line(Src, "++ "), Line(Dst, "++")];
      (forall k :: 0 <= k < |lines| ==> !LooksLikeHeader(lines[k])) &&
      LooksLikeHeader(RewriteChunkLines(lines)[1])
  {
    var lines := [Line(Src, "++ "), Line(Dst, "++")];
    TwoViews(lines[0], lines[1]);
    PlainLines();
    hide RewriteChunkLines, SrcIndices, DstIndices, Grown, Extend, SplitBlank, LooksLikeHeader;
    assert TurnsToHeader(lines, 0);
    HeaderAt(lines, 1);
  }

  /** A removed line, a shared one and an added one. */
  function Cascade(): seq<Line> {
    [Line(Src, "++ "), Line(Both, "++"), Line(Dst, "++")]
  }

  lemma CascadeViews()
    ensures SrcIndices(Cascade()) == [0, 1] && DstIndices(Cascade()) == [1, 2] && Pairs(Cascade()) == 2
  {
    assert Cascade()[..2] == [Cascade()[0], Cascade()[1]];
    TwoViews(Cascade()[0], Cascade()[1]);
  }

  lemma CascadeText()
    ensures SrcIndices(Cascade()) == [0, 1] && DstIndices(Cascade()) == [1, 2]
    ensures TextAtTurn(Cascade(), SrcIndices(Cascade()), DstIndices(Cascade()), 1) == "++ "
  {
    CascadeViews();
    GrowsToHeader();
    hide SrcIndices, DstIndices, Grown;
    var src, dst := [0, 1], [1, 2];
    assert TurnOf(dst, 0, 0) == None && TextAtTurn(Cascade(), src, dst, 0) == "++ ";
    assert TurnOf(dst, 1, 1) == Some(0);
  }

  /** It also happens where the source partner is a shared line that has itself just grown; the pair
      then misses its purpose, for the two lines were equal. */
  lemma HeaderCascades()
    ensures var lines := Cascade();
      && SrcIndices(lines) == [0, 1] && DstIndices(lines) == [1, 2] && lines[1].text == lines[2].text == "++"
      && (forall k :: 0 <= k < |lines| ==> !LooksLikeHeader(lines[k]))
      && LooksLikeHeader(RewriteChunkLines(lines)[2])
      && 1 < Pairs(lines) && !Restored(lines, 1)
  {
    hide RewriteChunkLines, SrcIndices, DstIndices, Pairs, LooksLikeHeader, Restored, TextAtTurn, OneBlankMore;
    CascadeViews();
    CascadeText();
    PlainLines();
    assert TurnsToHeader(Cascade(), 1);
    HeaderAt(Cascade(), 2);
    WhitespaceRestored(Cascade(), 1);
  }

  lemma GrowsToHeader()
    ensures Grown("++", "++ ") == "++ "
  {
    assert "++ "[..2] == "++";
  }
}
