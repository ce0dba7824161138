/** Binary numerals of a fixed width: conversion through hexadecimal, enumeration by a
    ripple-carry counter, and Gray codes. */
module BinaryStrings {
  import opened Wrappers

  predicate IsBinary(s: string) {
    forall i :: 0 <= i < |s| ==> s[i] == '0' || s[i] == '1'
  }

  function Bit(c: char): nat {
    if c == '1' then 1 else 0
  }

  function BitChar(b: nat): char {
    if b % 2 == 1 then '1' else '0'
  }

  /** The value of a binary numeral, most significant digit first. */
  function Value(s: string): nat {
    if s == [] then 0 else 2 * Value(s[..|s| - 1]) + Bit(s[|s| - 1])
  }

  function Pow2(n: nat): (r: nat)
    ensures r >= 1
  {
    if n == 0 then 1 else 2 * Pow2(n - 1)
  }

  /** The n low-order digits of i. */
  function Digits(i: nat, n: nat): (s: string)
    ensures |s| == n && IsBinary(s)
  {
    if n == 0 then "" else Digits(i / 2, n - 1) + [BitChar(i)]
  }

  lemma {:induction false} ValueOfDigits(i: nat, n: nat)
    requires i < Pow2(n)
    ensures Value(Digits(i, n)) == i
  {
    if n > 0 {
      ValueOfDigits(i / 2, n - 1);
      assert Digits(i, n)[..n - 1] == Digits(i / 2, n - 1);
    }
  }

  lemma {:induction false} DigitsOfValue(s: string)
    requires IsBinary(s)
    ensures Value(s) < Pow2(|s|) && Digits(Value(s), |s|) == s
  {
    if s != [] {
      var init, c := s[..|s| - 1], s[|s| - 1];
      DigitsOfValue(init);
      assert Value(s) / 2 == Value(init) && Value(s) % 2 == Bit(c);
      assert s == init + [c];
    }
  }

  // ---------- int2bin and bin2int ----------

  function Zeros(n: nat): (s: string)
    ensures |s| == n
  {
    seq(n, _ => '0')
  }

  /** The hexadecimal digits of i, none in front that is zero unless it is the only one. */
  function HexDigits(i: nat): (r: seq<nat>)
    ensures r != [] && forall k :: 0 <= k < |r| ==> r[k] < 16
  {
    if i < 16 then [i] else HexDigits(i / 16) + [i % 16]
  }

  /** The table from hexadecimal digits to groups of four bits. */
  function HexToBin(h: nat): string
    requires h < 16
  {
    ["0000", "0001", "0010", "0011", "0100", "0101", "0110", "0111",
     "1000", "1001", "1010", "1011", "1100", "1101", "1110", "1111"][h]
  }

  function JoinHex(hex: seq<nat>): string
    requires forall k :: 0 <= k < |hex| ==> hex[k] < 16
  {
    if hex == [] then "" else JoinHex(hex[..|hex| - 1]) + HexToBin(hex[|hex| - 1])
  }

  /** n-bit numeral of i; None is the ValueError for a value that does not fit. */
  function Int2Bin(i: nat, n: nat): Option<string>
    requires n >= 1
  {
    FitTo(JoinHex(HexDigits(i)), n)
  }

  /** Cut or zero-pad to n characters; fail if a one would be cut off. */
  function FitTo(result: string, n: nat): Option<string> {
    var cut := if |result| > n then |result| - n else 0;
    if '1' in result[..cut] then None
    else
      var tail := result[cut..];
      Some(Zeros(n - |tail|) + tail)
  }

  /** None is the ValueError for an empty string or a digit other than 0 and 1. */
  function Bin2Int(s: string): Option<nat> {
    if s != [] && IsBinary(s) then Some(Value(s)) else None
  }

  /** What is left of i without its k low-order digits. */
  function Halve(i: nat, k: nat): nat {
    if k == 0 then i else Halve(i / 2, k - 1)
  }

  lemma {:induction false} DigitsSplit(i: nat, m: nat, k: nat)
    ensures Digits(i, m + k) == Digits(Halve(i, k), m) + Digits(i, k)
  {
    if k > 0 {
      DigitsSplit(i / 2, m, k - 1);
    }
  }

  lemma {:induction false} HalveSmall(i: nat, m: nat, k: nat)
    ensures i < Pow2(m + k) <==> Halve(i, k) < Pow2(m)
  {
    if k > 0 {
      HalveSmall(i / 2, m, k - 1);
    }
  }

  lemma {:induction false} NoOneIff(i: nat, n: nat)
    requires i < Pow2(n)
    ensures '1' !in Digits(i, n) <==> i == 0
    ensures i == 0 ==> Digits(i, n) == Zeros(n)
  {
    if n > 0 {
      NoOneIff(i / 2, n - 1);
    }
  }

  lemma HexToBinIsDigits(h: nat)
    requires h < 16
    ensures HexToBin(h) == Digits(h, 4)
  {
    FourDigits(h);
  }

  lemma FourDigits(i: nat)
    ensures Digits(i, 4) == [BitChar(i / 2 / 2 / 2), BitChar(i / 2 / 2), BitChar(i / 2), BitChar(i)]
    ensures Halve(i, 4) == i / 2 / 2 / 2 / 2
  {
    var a := i / 2;
    var b := a / 2;
    var c := b / 2;
    assert Digits(c, 1) == Digits(c / 2, 0) + [BitChar(c)];
    assert Digits(b, 2) == Digits(c, 1) + [BitChar(b)];
    assert Digits(a, 3) == Digits(b, 2) + [BitChar(a)];
    assert Digits(i, 4) == Digits(a, 3) + [BitChar(i)];
    assert Halve(i, 4) == Halve(a, 3) == Halve(b, 2) == Halve(c, 1) == Halve(c / 2, 0);
  }

  /** The last hexadecimal digit stands for the last four binary ones. */
  lemma LowFour(i: nat)
    ensures Digits(i % 16, 4) == Digits(i, 4) && Halve(i, 4) == i / 16
  {
    FourDigits(i);
    FourDigits(i % 16);
    hide Digits, Halve;
    var q, h := i / 16, i % 16;
    assert i == 16 * q + h;
    HalfOf(i, 8 * q, h);
    HalfOf(i / 2, 4 * q, h / 2);
    HalfOf(i / 2 / 2, 2 * q, h / 2 / 2);
    HalfOf(i / 2 / 2 / 2, q, h / 2 / 2 / 2);
  }

  lemma HalfOf(i: nat, m: nat, h: nat)
    requires i == 2 * m + h
    ensures i / 2 == m + h / 2 && i % 2 == h % 2
  {
  }

  lemma {:induction false} JoinedHex(i: nat)
    ensures var s := JoinHex(HexDigits(i)); i < Pow2(|s|) && s == Digits(i, |s|)
    decreases i
  {
    hide Digits, HexToBin, Halve;
    if i < 16 {
      HexToBinIsDigits(i);
      assert HexDigits(i)[..0] == [] && Pow2(4) == 16;
      assert JoinHex(HexDigits(i)) == HexToBin(i);
    } else {
      JoinedHex(i / 16);
      var front := JoinHex(HexDigits(i / 16));
      HexToBinIsDigits(i % 16);
      assert HexDigits(i)[..|HexDigits(i)| - 1] == HexDigits(i / 16);
      LowFour(i);
      DigitsSplit(i, |front|, 4);
      HalveSmall(i, |front|, 4);
    }
  }

  /** The conversion fails iff the value needs more than n bits, and otherwise gives its n
      digits, which read back as the value. */
  lemma Int2BinExact(i: nat, n: nat)
    requires n >= 1
    ensures Int2Bin(i, n) == if i < Pow2(n) then Some(Digits(i, n)) else None
    ensures Int2Bin(i, n).Some? ==> Bin2Int(Int2Bin(i, n).value) == Some(i)
  {
    hide *;
    var result := JoinHex(HexDigits(i));
    JoinedHex(i);
    if |result| > n {
      CutFits(i, |result|, n);
    } else {
      PadFits(i, |result|, n);
    }
    UnfoldInt2Bin(i, n);
    if i < Pow2(n) {
      ValueOfDigits(i, n);
      Bin2IntOfDigits(i, n);
    }
  }

  lemma UnfoldInt2Bin(i: nat, n: nat)
    requires n >= 1
    ensures Int2Bin(i, n) == FitTo(JoinHex(HexDigits(i)), n)
  {
  }

  lemma Bin2IntOfDigits(i: nat, n: nat)
    requires n >= 1
    ensures Bin2Int(Digits(i, n)) == Some(Value(Digits(i, n)))
  {
    assert Digits(i, n) != [];
  }

  lemma CutFits(i: nat, m: nat, n: nat)
    requires n < m && i < Pow2(m)
    ensures FitTo(Digits(i, m), n) == if i < Pow2(n) then Some(Digits(i, n)) else None
  {
    hide Digits, Pow2, Halve;
    var result := Digits(i, m);
    DigitsSplit(i, m - n, n);
    HalveSmall(i, m - n, n);
    HalveSmall(i, 0, n);
    PowZero();
    NoOneIff(Halve(i, n), m - n);
    assert result[..m - n] == Digits(Halve(i, n), m - n);
    assert result[m - n..] == Digits(i, n);
    assert Zeros(0) + Digits(i, n) == Digits(i, n);
    assert '1' in result[..m - n] <==> i >= Pow2(n);
  }

  lemma PadFits(i: nat, m: nat, n: nat)
    requires m <= n && i < Pow2(m)
    ensures i < Pow2(n) && FitTo(Digits(i, m), n) == Some(Digits(i, n))
  {
    hide Digits, Pow2, Halve;
    var result := Digits(i, m);
    DigitsSplit(i, n - m, m);
    HalveSmall(i, 0, m);
    PowZero();
    HalveSmall(i, n - m, m);
    NoOneIff(0, n - m);
    assert result[..0] == "" && result[0..] == result;
  }

  lemma PowZero()
    ensures Pow2(0) == 1
  {
  }

  // ---------- binary_range ----------

  /** The value of a counter whose first cell is the least significant. */
  ghost function LowFirst(v: seq<char>): nat {
    if v == [] then 0 else Bit(v[0]) + 2 * LowFirst(v[1..])
  }

  function Reversed(s: string): (r: string)
    ensures |r| == |s|
  {
    if s == [] then [] else Reversed(s[1..]) + [s[0]]
  }

  lemma {:induction false} ReversedValue(v: seq<char>)
    requires IsBinary(v)
    ensures IsBinary(Reversed(v)) && Value(Reversed(v)) == LowFirst(v)
    decreases |v|
  {
    if v != [] {
      ReversedValue(v[1..]);
      var r := Reversed(v);
      assert r[..|r| - 1] == Reversed(v[1..]);
    }
  }

  /** The counter one step on; carry tells that it overflowed to all zeros. */
  ghost function Next(v: seq<char>): (r: (seq<char>, bool))
    ensures |r.0| == |v|
  {
    if v == [] then ([], true)
    else if v[0] == '0' then (['1'] + v[1..], false)
    else var (rest, carry) := Next(v[1..]); (['0'] + rest, carry)
  }

  lemma {:induction false} NextCounts(v: seq<char>)
    requires IsBinary(v)
    ensures IsBinary(Next(v).0) && LowFirst(v) < Pow2(|v|)
    ensures Next(v).1 <==> LowFirst(v) + 1 == Pow2(|v|)
    ensures LowFirst(Next(v).0) == if Next(v).1 then 0 else LowFirst(v) + 1
    decreases |v|
  {
    if v != [] {
      NextCounts(v[1..]);
      if v[0] == '0' {
        assert Next(v).0[1..] == v[1..];
      } else {
        assert Next(v).0[1..] == Next(v[1..]).0;
      }
    }
  }

  lemma NextAt(v: seq<char>, i: nat)
    requires i < |v|
    ensures Next(v[i..]) == if v[i] == '0' then (['1'] + v[i + 1..], false)
                            else (['0'] + Next(v[i + 1..]).0, Next(v[i + 1..]).1)
  {
    assert v[i..][1..] == v[i + 1..];
  }

  /** v is v0 with its first i cells rippled through; `going` while the carry is still on. */
  ghost predicate Rippled(v0: seq<char>, v: seq<char>, i: nat, going: bool) {
    && i <= |v0| == |v| && v[i..] == v0[i..]
    && Next(v0) == if going then (v[..i] + Next(v0[i..]).0, Next(v0[i..]).1) else (v, false)
  }

  lemma RippleStart(v: seq<char>)
    ensures Rippled(v, v, 0, true)
  {
    assert v[0..] == v && v[..0] + Next(v).0 == Next(v).0;
  }

  lemma RippleStep(v0: seq<char>, v: seq<char>, i: nat)
    requires Rippled(v0, v, i, true) && i < |v|
    ensures v[i] == '0' ==> Rippled(v0, v[i := '1'], i + 1, false)
    ensures v[i] != '0' ==> Rippled(v0, v[i := '0'], i + 1, true)
  {
    NextAt(v0, i);
    assert v[i] == v[i..][0] == v0[i..][0];
    assert forall k :: i < k < |v| ==> v[k] == v[i..][k - i] && v0[k] == v0[i..][k - i];
    assert v[i := '1'][i + 1..] == v0[i + 1..] && v[i := '0'][i + 1..] == v0[i + 1..];
    if v[i] == '0' {
      assert v[i := '1'] == v[..i] + (['1'] + v0[i + 1..]);
    } else {
      assert v[i := '0'][..i + 1] + Next(v0[i + 1..]).0 == v[..i] + (['0'] + Next(v0[i + 1..]).0);
    }
  }

  lemma RippleEnd(v0: seq<char>, v: seq<char>, i: nat, going: bool)
    requires Rippled(v0, v, i, going) && (going ==> i == |v|)
    ensures Next(v0) == (v, going)
  {
    if going {
      assert Next(v0[i..]) == ([], true);
      assert v[..i] + [] == v;
    }
  }

  /** One ripple through the counter: flip ones to zeros up to the first zero. */
  method Ripple(v: array<char>, toggle: array<int>)
    requires IsBinary(v[..]) && toggle.Length == v.Length + 1
    requires toggle[0] == 1 && forall k :: 0 < k < toggle.Length ==> toggle[k] == 0
    modifies v, toggle
    ensures v[..] == Next(old(v[..])).0
    ensures toggle[v.Length] == 1 <==> Next(old(v[..])).1
  {
    hide Rippled, Next;
    ghost var v0 := v[..];
    RippleStart(v0);
    var i := 0;
    while i < v.Length && toggle[i] == 1
      invariant 0 <= i <= v.Length
      invariant forall k :: i < k < toggle.Length ==> toggle[k] == 0
      invariant toggle[i] == 0 || toggle[i] == 1
      invariant Rippled(v0, v[..], i, toggle[i] == 1)
    {
      ghost var before := v[..];
      RippleStep(v0, before, i);
      if v[i] == '0' {
        v[i] := '1';
        toggle[i + 1] := 0;
        assert v[..] == before[i := '1'];
      } else {
        v[i] := '0';
        toggle[i + 1] := 1;
        assert v[..] == before[i := '0'];
      }
      i := i + 1;
    }
    RippleEnd(v0, v[..], i, toggle[i] == 1);
  }

  /** All numerals of a width in order; none for width zero, where the loop never starts. */
  method BinaryRange(bits: nat) returns (l: seq<string>)
    ensures bits == 0 ==> l == []
    ensures bits >= 1 ==> |l| == Pow2(bits) && forall k :: 0 <= k < |l| ==> l[k] == Digits(k, bits)
  {
    hide LowFirst, Digits, Reversed, Pow2;
    l := [];
    var v := new char[bits](_ => '0');
    var toggle := new int[bits + 1](k => if k == 0 then 1 else 0);
    ZeroCounter(v[..]);
    while toggle[bits] != 1
      invariant toggle.Length == bits + 1 && fresh(toggle) && fresh(v)
      invariant IsBinary(v[..])
      invariant forall k :: 0 <= k < |l| ==> l[k] == Digits(k, bits)
      invariant bits == 0 ==> l == [] && toggle[bits] == 1
      invariant bits >= 1 ==> (if toggle[bits] == 1 then |l| == Pow2(bits) else LowFirst(v[..]) == |l| < Pow2(bits))
      decreases Pow2(bits) - |l|
    {
      ReversedValue(v[..]);
      DigitsOfValue(Reversed(v[..]));
      l := l + [Reversed(v[..])];
      NextCounts(v[..]);
      toggle := new int[bits + 1](k => if k == 0 then 1 else 0);
      Ripple(v, toggle);
    }
  }

  lemma {:induction false} ZeroCounter(v: seq<char>)
    requires forall i :: 0 <= i < |v| ==> v[i] == '0'
    ensures LowFirst(v) == 0
  {
    if v != [] {
      ZeroCounter(v[1..]);
    }
  }

  // ---------- Gray codes ----------

  /** Bitwise exclusive or. */
  function Xor(a: nat, b: nat): nat {
    if a == 0 && b == 0 then 0 else 2 * Xor(a / 2, b / 2) + (if a % 2 == b % 2 then 0 else 1)
  }

  /** Bit k of it is set exactly where the two operands differ. */
  lemma {:induction false} XorBits(a: nat, b: nat, k: nat)
    ensures Halve(Xor(a, b), k) % 2 == 1 <==> Halve(a, k) % 2 != Halve(b, k) % 2
  {
    if k > 0 {
      XorBits(a / 2, b / 2, k - 1);
      assert Xor(a, b) / 2 == Xor(a / 2, b / 2);
    }
  }

  function GrayEncode(i: nat): nat {
    Xor(i, i / 2)
  }

  /** The inverse of the encoding, from the high end down. */
  ghost function GrayDecode(g: nat): nat {
    if g == 0 then 0
    else
      var high := GrayDecode(g / 2);
      2 * high + (if high % 2 == g % 2 then 0 else 1)
  }

  lemma GrayStep(i: nat)
    requires i > 0
    ensures GrayEncode(i) == 2 * GrayEncode(i / 2) + (if i % 2 == (i / 2) % 2 then 0 else 1)
  {
  }

  lemma {:induction false} DecodeEncode(i: nat)
    ensures GrayDecode(GrayEncode(i)) == i
    decreases i
  {
    if i > 0 {
      GrayStep(i);
      DecodeEncode(i / 2);
      hide Xor;
      assert GrayEncode(i) / 2 == GrayEncode(i / 2);
    }
  }

  lemma {:induction false} EncodeDecode(g: nat)
    ensures GrayEncode(GrayDecode(g)) == g
    decreases g
  {
    if g > 0 {
      EncodeDecode(g / 2);
      var i := GrayDecode(g);
      assert i / 2 == GrayDecode(g / 2);
      if i > 0 {
        GrayStep(i);
      }
    }
  }

  lemma {:induction false} EncodeBounded(i: nat, bits: nat)
    ensures i < Pow2(bits) <==> GrayEncode(i) < Pow2(bits)
    decreases bits
  {
    if i > 0 {
      DecodeEncode(i);
      GrayStep(i);
      if bits > 0 {
        EncodeBounded(i / 2, bits - 1);
      }
    }
  }

  /** The encoding permutes [0, 2^bits): it stays inside, and decoding inverts it there. */
  lemma GrayPermutes(bits: nat)
    ensures forall i: nat :: GrayEncode(i) < Pow2(bits) <==> i < Pow2(bits)
    ensures forall i: nat :: GrayDecode(GrayEncode(i)) == i
    ensures forall g: nat :: g < Pow2(bits) ==> GrayDecode(g) < Pow2(bits) && GrayEncode(GrayDecode(g)) == g
  {
    hide *;
    forall i: nat
      ensures GrayEncode(i) < Pow2(bits) <==> i < Pow2(bits)
      ensures GrayDecode(GrayEncode(i)) == i
    {
      EncodeBounded(i, bits);
      DecodeEncode(i);
    }
    forall g: nat | g < Pow2(bits)
      ensures GrayDecode(g) < Pow2(bits) && GrayEncode(GrayDecode(g)) == g
    {
      EncodeDecode(g);
      EncodeBounded(GrayDecode(g), bits);
    }
  }

  ghost function Ones(a: nat): nat {
    if a == 0 then 0 else a % 2 + Ones(a / 2)
  }

  /** Successive codes differ in exactly one bit. */
  lemma {:induction false} GrayOneBit(i: nat)
    ensures Ones(Xor(GrayEncode(i), GrayEncode(i + 1))) == 1
    decreases i
  {
    if i % 2 == 0 {
      GrayEvenStep(i);
    } else {
      GrayOddStep(i);
      GrayOneBit(i / 2);
    }
  }

  /** From an even number to the next only the lowest bit changes. */
  lemma GrayEvenStep(i: nat)
    requires i % 2 == 0
    ensures Ones(Xor(GrayEncode(i), GrayEncode(i + 1))) == 1
  {
    var a, b := GrayEncode(i), GrayEncode(i + 1);
    GrayStep(i + 1);
    if i > 0 {
      GrayStep(i);
    }
    hide GrayEncode;
    assert (i + 1) / 2 == i / 2;
    assert a / 2 == b / 2 == GrayEncode(i / 2) && a % 2 != b % 2 by { if i == 0 { GrayZero(); } }
    XorSelf(a / 2);
    XorStep(a, b);
  }

  lemma GrayZero()
    ensures GrayEncode(0) == 0
  {
  }

  /** From an odd number to the next the lowest bit stays, and the change is higher up. */
  lemma GrayOddStep(i: nat)
    requires i % 2 == 1
    ensures Ones(Xor(GrayEncode(i), GrayEncode(i + 1))) == Ones(Xor(GrayEncode(i / 2), GrayEncode(i / 2 + 1)))
  {
    hide *;
    var a, b := GrayEncode(i), GrayEncode(i + 1);
    GrayHalf(i);
    GrayHalf(i + 1);
    XorStep(a, b);
    var k := i / 2;
    assert i == 2 * k + 1 && (i + 1) / 2 == k + 1;
  }

  lemma GrayHalf(i: nat)
    requires i > 0
    ensures GrayEncode(i) / 2 == GrayEncode(i / 2)
    ensures GrayEncode(i) % 2 == if i % 2 == (i / 2) % 2 then 0 else 1
  {
    GrayStep(i);
    hide GrayEncode;
  }

  lemma XorStep(a: nat, b: nat)
    ensures Ones(Xor(a, b)) == Ones(Xor(a / 2, b / 2)) + if a % 2 == b % 2 then 0 else 1
  {
    var x, y := Xor(a, b), Xor(a / 2, b / 2);
    assert x == 2 * y + if a % 2 == b % 2 then 0 else 1;
    assert x / 2 == y;
    hide Xor;
    assert x > 0 ==> Ones(x) == x % 2 + Ones(y);
  }

  lemma {:induction false} XorSelf(a: nat)
    ensures Xor(a, a) == 0
  {
    if a > 0 {
      XorSelf(a / 2);
    }
  }
}
