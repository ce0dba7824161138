/** Splitting text at slashes. */
module Paths {

  /** The pieces between slashes, empty ones included. */
  ghost function Split(s: string): (r: seq<string>)
    ensures r != []
  {
    if s == [] then [""] else Grow(s[0], Split(s[1..]))
  }

  /** One more character in front of pieces: a slash starts a new one. */
  ghost function Grow(c: char, pieces: seq<string>): (r: seq<string>)
    requires pieces != []
    ensures r != []
  {
    if c == '/' then [""] + pieces else [[c] + pieces[0]] + pieces[1..]
  }

  lemma GrowConcat(c: char, pieces: seq<string>, more: seq<string>)
    requires pieces != []
    ensures Grow(c, pieces + more) == Grow(c, pieces) + more
  {
    assert (pieces + more)[1..] == pieces[1..] + more;
  }

  ghost function JoinPieces(pieces: seq<string>): string
    requires pieces != []
  {
    if |pieces| == 1 then pieces[0] else pieces[0] + "/" + JoinPieces(pieces[1..])
  }

  /** The pieces hold no slash and joined by slashes give the text back. */
  lemma {:induction false} SplitExact(s: string)
    ensures JoinPieces(Split(s)) == s
    ensures forall i :: 0 <= i < |Split(s)| ==> '/' !in Split(s)[i]
  {
    if s != [] {
      var rest := Split(s[1..]);
      SplitExact(s[1..]);
      JoinGrow(s[0], rest);
      assert Split(s) == Grow(s[0], rest) && s == [s[0]] + s[1..];
    }
  }

  lemma JoinGrow(c: char, pieces: seq<string>)
    requires pieces != []
    requires forall i :: 0 <= i < |pieces| ==> '/' !in pieces[i]
    ensures JoinPieces(Grow(c, pieces)) == [c] + JoinPieces(pieces)
    ensures forall i :: 0 <= i < |Grow(c, pieces)| ==> '/' !in Grow(c, pieces)[i]
  {
    var grown := Grow(c, pieces);
    if c == '/' {
      assert grown[1..] == pieces;
      assert "" + "/" + JoinPieces(pieces) == [c] + JoinPieces(pieces);
    } else if |pieces| > 1 {
      assert grown[1..] == pieces[1..];
      var tail := JoinPieces(pieces[1..]);
      assert [c] + pieces[0] + "/" + tail == [c] + (pieces[0] + "/" + tail);
    }
  }

  /** A slash between two texts keeps their pieces apart. */
  lemma {:induction false} SplitAtSlash(a: string, b: string)
    ensures Split(a + "/" + b) == Split(a) + Split(b)
  {
    var s := a + "/" + b;
    if a == [] {
      assert s == "/" + b && s[1..] == b;
    } else {
      assert s[0] == a[0] && s[1..] == a[1..] + "/" + b;
      SplitAtSlash(a[1..], b);
      GrowConcat(a[0], Split(a[1..]), Split(b));
      hide Grow;
    }
  }

  lemma {:induction false} SplitNoSlash(s: string)
    requires '/' !in s
    ensures Split(s) == [s]
  {
    if s != [] {
      SplitNoSlash(s[1..]);
      assert [s[0]] + s[1..] == s;
    }
  }

  // ---------- pieces that name something ----------

  ghost function NonEmpty(pieces: seq<string>): seq<string> {
    if pieces == [] then []
    else (if pieces[0] == "" then [] else [pieces[0]]) + NonEmpty(pieces[1..])
  }

  lemma {:induction false} NonEmptyConcat(p: seq<string>, q: seq<string>)
    ensures NonEmpty(p + q) == NonEmpty(p) + NonEmpty(q)
  {
    if p == [] {
      assert p + q == q;
    } else {
      assert (p + q)[0] == p[0] && (p + q)[1..] == p[1..] + q;
      NonEmptyConcat(p[1..], q);
    }
  }

  ghost function Pieces(s: string): seq<string> {
    NonEmpty(Split(s))
  }

  lemma PiecesAtSlash(a: string, b: string)
    ensures Pieces(a + "/" + b) == Pieces(a) + Pieces(b)
  {
    SplitAtSlash(a, b);
    NonEmptyConcat(Split(a), Split(b));
  }

  lemma NoPieces()
    ensures Pieces("") == []
  {
  }
}
