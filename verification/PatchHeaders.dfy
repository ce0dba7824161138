/** What a chunk header looks like, as text. */
module PatchHeaders {
  import opened PatchText
  import opened PatchRoundTrip
  import opened Wrappers

  predicate IsDigits(s: string) {
    s != [] && forall i :: 0 <= i < |s| ==> IsDigit(s[i])
  }

  lemma DigitsListed(c: char)
    ensures IsDigit(c) <==> c in {'0', '1', '2', '3', '4', '5', '6', '7', '8', '9'}
    ensures IsDigit(c) ==> DigitValue(c) < 10 && "0123456789"[DigitValue(c)] == c
  {
  }

  /** @@ -p,n +q,m @@ and any text behind it. */
  function HeaderText(p: string, n: string, q: string, m: string, tail: string): string {
    "@@ -" + (p + ("," + (n + (" +" + (q + ("," + (m + (" @@" + tail))))))))
  }

  ghost predicate IsHeaderOf(line: string, p: string, n: string, q: string, m: string, tail: string) {
    IsDigits(p) && IsDigits(n) && IsDigits(q) && IsDigits(m) && line == HeaderText(p, n, q, m, tail)
  }

  lemma TextMatches(p: string, n: string, q: string, m: string, tail: string)
    requires IsDigits(p) && IsDigits(n) && IsDigits(q) && IsDigits(m)
    ensures MatchChunkStart(HeaderText(p, n, q, m, tail)) == Some((ParseNat(p), ParseNat(n), ParseNat(q), ParseNat(m)))
  {
    var s8 := " @@" + tail;
    var s7 := m + s8;
    var s6 := "," + s7;
    var s5 := q + s6;
    var s4 := " +" + s5;
    var s3 := n + s4;
    var s2 := "," + s3;
    var s1 := p + s2;
    hide After, TakeNumber, IsDigits, ParseNat;
    AfterPrefix("@@ -", s1);
    DigitsTaken(p, s2);
    AfterPrefix(",", s3);
    DigitsTaken(n, s4);
    AfterPrefix(" +", s5);
    DigitsTaken(q, s6);
    AfterPrefix(",", s7);
    DigitsTaken(m, s8);
  }

  lemma DigitsTaken(digits: string, rest: string)
    requires IsDigits(digits) && (rest == [] || !IsDigit(rest[0]))
    ensures TakeNumber(digits + rest) == Some((ParseNat(digits), rest))
  {
    DigitsThenRest(digits, rest);
  }

  lemma NumberText(s: string) returns (digits: string)
    requires TakeNumber(s).Some?
    ensures IsDigits(digits) && ParseNat(digits) == TakeNumber(s).value.0 && s == digits + TakeNumber(s).value.1
  {
    digits := s[..DigitPrefix(s)];
  }

  lemma PrefixText(prefix: string, s: string)
    requires After(prefix, s).Some?
    ensures s == prefix + After(prefix, s).value
  {
  }

  lemma MatchedHeader(line: string) returns (p: string, n: string, q: string, m: string, tail: string)
    requires MatchChunkStart(line).Some?
    ensures IsHeaderOf(line, p, n, q, m, tail)
    ensures MatchChunkStart(line).value == (ParseNat(p), ParseNat(n), ParseNat(q), ParseNat(m))
  {
    hide After, TakeNumber, IsDigits, ParseNat;
    PrefixText("@@ -", line);
    var s1 := After("@@ -", line).value;
    p := NumberText(s1);
    var s2 := TakeNumber(s1).value.1;
    PrefixText(",", s2);
    var s3 := After(",", s2).value;
    n := NumberText(s3);
    var s4 := TakeNumber(s3).value.1;
    PrefixText(" +", s4);
    var s5 := After(" +", s4).value;
    q := NumberText(s5);
    var s6 := TakeNumber(s5).value.1;
    PrefixText(",", s6);
    var s7 := After(",", s6).value;
    m := NumberText(s7);
    var s8 := TakeNumber(s7).value.1;
    tail := s8[3..];
    assert s8 == " @@" + tail;
  }

  /** A line is read as a chunk header with four given numbers exactly if it is one in writing. */
  lemma MatchChunkStartIff(line: string, a: nat, b: nat, c: nat, d: nat)
    ensures MatchChunkStart(line) == Some((a, b, c, d)) <==>
      exists p, n, q, m, tail :: IsHeaderOf(line, p, n, q, m, tail) &&
        ParseNat(p) == a && ParseNat(n) == b && ParseNat(q) == c && ParseNat(m) == d
  {
    if MatchChunkStart(line) == Some((a, b, c, d)) {
      var p, n, q, m, tail := MatchedHeader(line);
    }
    hide MatchChunkStart, HeaderText, ParseNat, IsDigits;
    forall p, n, q, m, tail | IsHeaderOf(line, p, n, q, m, tail)
      ensures MatchChunkStart(line) == Some((ParseNat(p), ParseNat(n), ParseNat(q), ParseNat(m)))
    {
      TextMatches(p, n, q, m, tail);
    }
  }

  ghost predicate IsHeader(line: string) {
    exists p, n, q, m, tail :: IsHeaderOf(line, p, n, q, m, tail)
  }

  lemma HeaderIff(line: string)
    ensures IsHeader(line) <==> MatchChunkStart(line).Some?
    ensures IsHeader(line) ==> line != [] && line[0] == '@'
  {
    if MatchChunkStart(line).Some? {
      var p, n, q, m, tail := MatchedHeader(line);
    }
    hide MatchChunkStart, IsDigits;
    forall p, n, q, m, tail | IsHeaderOf(line, p, n, q, m, tail)
      ensures MatchChunkStart(line).Some? && line != [] && line[0] == '@'
    {
      TextMatches(p, n, q, m, tail);
    }
  }
}
