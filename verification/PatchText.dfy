/** Unified diffs: how a patchset is written as lines of text and how it is read back. */
module PatchText {
  import opened Wrappers

  datatype Kind = Src | Dst | Both

  /** A line of a chunk: only in the source, only in the destination, or in both. */
  datatype Line = Line(kind: Kind, text: string)

  datatype Chunk = Chunk(srcPos: nat, dstPos: nat, lines: seq<Line>)

  datatype Patch = Patch(src: string, dst: string, chunks: seq<Chunk>)

  function AllChunks(patches: seq<Patch>): seq<Chunk> {
    if patches == [] then [] else AllChunks(patches[..|patches| - 1]) + patches[|patches| - 1].chunks
  }

  predicate IsSrc(l: Line) {
    l.kind == Src || l.kind == Both
  }

  predicate IsDst(l: Line) {
    l.kind == Dst || l.kind == Both
  }

  function SrcView(lines: seq<Line>): seq<Line> {
    if lines == [] then []
    else SrcView(lines[..|lines| - 1]) + if IsSrc(lines[|lines| - 1]) then [lines[|lines| - 1]] else []
  }

  function DstView(lines: seq<Line>): seq<Line> {
    if lines == [] then []
    else DstView(lines[..|lines| - 1]) + if IsDst(lines[|lines| - 1]) then [lines[|lines| - 1]] else []
  }

  // ---------- numbers ----------

  predicate IsDigit(c: char) {
    '0' <= c <= '9'
  }

  function DigitChar(d: nat): char
    requires d < 10
  {
    "0123456789"[d]
  }

  function DigitValue(c: char): nat
    requires IsDigit(c)
  {
    (c - '0') as int
  }

  function Decimal(n: nat): (s: string)
    ensures s != [] && forall i :: 0 <= i < |s| ==> IsDigit(s[i])
  {
    if n < 10 then [DigitChar(n)] else Decimal(n / 10) + [DigitChar(n % 10)]
  }

  function ParseNat(s: string): nat
    requires forall i :: 0 <= i < |s| ==> IsDigit(s[i])
  {
    if s == [] then 0 else 10 * ParseNat(s[..|s| - 1]) + DigitValue(s[|s| - 1])
  }

  lemma {:induction false} DecimalRoundTrip(n: nat)
    ensures ParseNat(Decimal(n)) == n
  {
    if n >= 10 {
      DecimalRoundTrip(n / 10);
      assert Decimal(n)[..|Decimal(n)| - 1] == Decimal(n / 10);
    }
  }

  function DigitPrefix(s: string): (n: nat)
    ensures n <= |s|
    ensures forall i :: 0 <= i < n ==> IsDigit(s[i])
    ensures n < |s| ==> !IsDigit(s[n])
  {
    if s != [] && IsDigit(s[0]) then 1 + DigitPrefix(s[1..]) else 0
  }

  // ---------- recognising lines ----------

  /** What is left of s after the given prefix. */
  function After(prefix: string, s: string): Option<string> {
    if prefix <= s then Some(s[|prefix|..]) else None
  }

  /** A run of digits and what follows it. */
  function TakeNumber(s: string): Option<(nat, string)> {
    var n := DigitPrefix(s);
    if n == 0 then None else Some((ParseNat(s[..n]), s[n..]))
  }

  /** The four numbers of a chunk header "@@ -p,n +q,m @@"; anything may follow. */
  function MatchChunkStart(line: string): Option<(nat, nat, nat, nat)> {
    match After("@@ -", line)
    case None => None
    case Some(s1) => match TakeNumber(s1)
      case None => None
      case Some((srcPos, s2)) => match After(",", s2)
        case None => None
        case Some(s3) => match TakeNumber(s3)
          case None => None
          case Some((srcLen, s4)) => match After(" +", s4)
            case None => None
            case Some(s5) => match TakeNumber(s5)
              case None => None
              case Some((dstPos, s6)) => match After(",", s6)
                case None => None
                case Some(s7) => match TakeNumber(s7)
                  case None => None
                  case Some((dstLen, s8)) => if " @@" <= s8 then Some((srcPos, srcLen, dstPos, dstLen)) else None
  }

  // ---------- writing ----------

  function WriteLine(l: Line): string {
    match l.kind
    case Src => "-" + l.text
    case Dst => "+" + l.text
    case Both => " " + l.text
  }

  function Header(c: Chunk): string {
    "@@ -" + Decimal(c.srcPos) + "," + Decimal(|SrcView(c.lines)|)
    + " +" + Decimal(c.dstPos) + "," + Decimal(|DstView(c.lines)|) + " @@"
  }

  function WriteLines(lines: seq<Line>): seq<string> {
    if lines == [] then [] else WriteLines(lines[..|lines| - 1]) + [WriteLine(lines[|lines| - 1])]
  }

  function WriteChunk(c: Chunk): seq<string> {
    [Header(c)] + WriteLines(c.lines)
  }

  function WriteChunks(chunks: seq<Chunk>): seq<string> {
    if chunks == [] then [] else WriteChunks(chunks[..|chunks| - 1]) + WriteChunk(chunks[|chunks| - 1])
  }

  function WritePatch(p: Patch): seq<string> {
    ["--- " + p.src, "+++ " + p.dst] + WriteChunks(p.chunks)
  }

  function Write(patches: seq<Patch>): seq<string> {
    if patches == [] then [] else Write(patches[..|patches| - 1]) + WritePatch(patches[|patches| - 1])
  }

  method WriteChunkTo(f0: seq<string>, chunk: Chunk) returns (f: seq<string>)
    ensures f == f0 + WriteChunk(chunk)
  {
    hide Header, WriteLine;
    f := f0 + [Header(chunk)];
    for k := 0 to |chunk.lines|
      invariant f == f0 + [Header(chunk)] + WriteLines(chunk.lines[..k])
    {
      f := f + [WriteLine(chunk.lines[k])];
      assert chunk.lines[..k + 1][..k] == chunk.lines[..k];
    }
    assert chunk.lines[..|chunk.lines|] == chunk.lines;
  }

  method WritePatchTo(f0: seq<string>, patch: Patch) returns (f: seq<string>)
    ensures f == f0 + WritePatch(patch)
  {
    hide WriteChunk;
    f := f0 + ["--- " + patch.src];
    f := f + ["+++ " + patch.dst];
    ghost var names := ["--- " + patch.src, "+++ " + patch.dst];
    assert f == f0 + names;
    for j := 0 to |patch.chunks|
      invariant f == f0 + names + WriteChunks(patch.chunks[..j])
    {
      f := WriteChunkTo(f, patch.chunks[j]);
      assert patch.chunks[..j + 1][..j] == patch.chunks[..j];
    }
    assert patch.chunks[..|patch.chunks|] == patch.chunks;
  }

  /** The write methods: for each patch the file names, then each chunk's header and body. */
  method WritePatchset(patches: seq<Patch>) returns (f: seq<string>)
    ensures f == Write(patches)
  {
    hide WritePatch;
    f := [];
    for i := 0 to |patches|
      invariant f == Write(patches[..i])
    {
      f := WritePatchTo(f, patches[i]);
      assert patches[..i + 1][..i] == patches[..i];
    }
    assert patches[..|patches|] == patches;
  }

  // ---------- reading ----------

  /** The patches read so far and where the current chunk is. A new patch does not end the
      current chunk: it may still be one of an earlier patch. */
  datatype Reader = Reader(patches: seq<Patch>, at: Option<(nat, nat)>)

  predicate AtOk(r: Reader) {
    r.at.Some? ==> r.at.value.0 < |r.patches| && r.at.value.1 < |r.patches[r.at.value.0].chunks|
  }

  function AddLine(r: Reader, l: Line): (r': Reader)
    requires AtOk(r) && r.at.Some?
    ensures AtOk(r')
  {
    var (p, k) := r.at.value;
    var patch := r.patches[p];
    var chunk := patch.chunks[k];
    r.(patches := r.patches[p := patch.(chunks := patch.chunks[k := chunk.(lines := chunk.lines + [l])])])
  }

  function OpenChunk(r: Reader, srcPos: nat, dstPos: nat): (r': Reader)
    requires r.patches != []
    ensures AtOk(r')
  {
    var n := |r.patches| - 1;
    var patch := r.patches[n];
    Reader(r.patches[n := patch.(chunks := patch.chunks + [Chunk(srcPos, dstPos, [])])], Some((n, |patch.chunks|)))
  }

  /** One line of input; None is an exception: a line of no known form, a file name or chunk
      header outside any patch, or a body line outside any chunk. */
  function ReadLine(r: Reader, line: string): (r': Option<Reader>)
    requires AtOk(r)
    ensures r'.Some? ==> AtOk(r'.value)
  {
    var n := |r.patches|;
    if "--- " <= line then Some(r.(patches := r.patches + [Patch(line[4..], "", [])]))
    else if "+++ " <= line then
      if n == 0 then None else Some(r.(patches := r.patches[n - 1 := r.patches[n - 1].(dst := line[4..])]))
    else if MatchChunkStart(line).Some? then
      if n == 0 then None else Some(OpenChunk(r, MatchChunkStart(line).value.0, MatchChunkStart(line).value.2))
    else if line == [] || line[0] !in {'-', '+', ' '} || r.at.None? then None
    else
      var kind := if line[0] == '-' then Src else if line[0] == '+' then Dst else Both;
      Some(AddLine(r, Line(kind, line[1..])))
  }

  function ReadFrom(r: Reader, lines: seq<string>): (r': Option<Reader>)
    requires AtOk(r)
    ensures r'.Some? ==> AtOk(r'.value)
    decreases |lines|
  {
    if lines == [] then Some(r)
    else match ReadLine(r, lines[0])
      case None => None
      case Some(next) => ReadFrom(next, lines[1..])
  }

  const Empty := Reader([], None)

  ghost function Parse(lines: seq<string>): Option<seq<Patch>> {
    match ReadFrom(Empty, lines)
    case None => None
    case Some(r) => Some(r.patches)
  }

  method ParsePatchset(lines: seq<string>) returns (patchset: Option<seq<Patch>>)
    ensures patchset == Parse(lines)
  {
    var patches: seq<Patch>, at: Option<(nat, nat)> := [], None;
    for i := 0 to |lines|
      invariant AtOk(Reader(patches, at))
      invariant ReadFrom(Empty, lines) == ReadFrom(Reader(patches, at), lines[i..])
    {
      var line := lines[i];
      assert lines[i..][0] == line && lines[i..][1..] == lines[i + 1..];
      var currentPatch := |patches| - 1;
      if "--- " <= line {
        patches := patches + [Patch(line[4..], "", [])];
        continue;
      }
      if "+++ " <= line {
        if currentPatch < 0 {
          return None;
        }
        patches := patches[currentPatch := patches[currentPatch].(dst := line[4..])];
        continue;
      }
      var m := MatchChunkStart(line);
      if m.Some? {
        if currentPatch < 0 {
          return None;
        }
        var patch := patches[currentPatch];
        patches := patches[currentPatch := patch.(chunks := patch.chunks + [Chunk(m.value.0, m.value.2, [])])];
        at := Some((currentPatch, |patch.chunks|));
        continue;
      }
      if line == [] || line[0] !in {'-', '+', ' '} || at.None? {
        return None;
      }
      if line[0] == '-' {
        patches := AddLine(Reader(patches, at), Line(Src, line[1..])).patches;
      } else if line[0] == '+' {
        patches := AddLine(Reader(patches, at), Line(Dst, line[1..])).patches;
      } else {
        patches := AddLine(Reader(patches, at), Line(Both, line[1..])).patches;
      }
    }
    return Some(patches);
  }
}
