/**
 bcrypt's base64: the padded encoding of section 4 of RFC 4648 over bcrypt's own
 alphabet, with the padding stripped after encoding and put back before decoding.
 */
module Base64 {
  import opened Options

  const PAD: Byte := 61  // '='

  type Sextet = x: int | 0 <= x < 64

  /** The alphabet: '.', '/', 'A'..'Z', 'a'..'z', '0'..'9'. */
  function Symbol(v: Sextet): Byte {
    if v < 2 then 46 + v
    else if v < 28 then 65 + v - 2
    else if v < 54 then 97 + v - 28
    else 48 + v - 54
  }

  function Value(b: Byte): Option<Sextet> {
    if 46 <= b < 48 then Some(b - 46)
    else if 65 <= b < 91 then Some(b - 65 + 2)
    else if 97 <= b < 123 then Some(b - 97 + 28)
    else if 48 <= b < 58 then Some(b - 48 + 54)
    else None
  }

  predicate IsSymbol(b: Byte) {
    Value(b).Some?
  }

  lemma SymbolValue(v: Sextet)
    ensures Value(Symbol(v)) == Some(v) && Symbol(v) != PAD
  {}

  lemma ValueSymbol(b: Byte)
    ensures IsSymbol(b) ==> Symbol(Value(b).value) == b
    ensures !IsSymbol(PAD) && !IsSymbol(10) && !IsSymbol(13)
  {}

  /** bcrypt's alphabet, spelled out. */
  lemma AlphabetExact(v: Sextet)
    ensures Symbol(v) ==
              if v < 2 then "./"[v] as int
              else if v < 28 then "ABCDEFGHIJKLMNOPQRSTUVWXYZ"[v - 2] as int
              else if v < 54 then "abcdefghijklmnopqrstuvwxyz"[v - 28] as int
              else "0123456789"[v - 54] as int
  {}

  // ---- bits ----------------------------------------------------------------------------

  function Pow2(n: nat): nat {
    if n == 0 then 1 else 2 * Pow2(n - 1)
  }

  /** The low `n` bits of a number, the highest first. */
  function Bits(x: nat, n: nat): (b: seq<bool>)
    ensures |b| == n
  {
    if n == 0 then [] else Bits(x / 2, n - 1) + [x % 2 == 1]
  }

  function Num(b: seq<bool>): (x: nat)
    ensures x < Pow2(|b|)
  {
    if b == [] then 0 else 2 * Num(b[..|b| - 1]) + (if b[|b| - 1] then 1 else 0)
  }

  lemma {:induction false} NumBits(x: nat, n: nat)
    requires x < Pow2(n)
    ensures Num(Bits(x, n)) == x
  {
    if n > 0 {
      NumBits(x / 2, n - 1);
      assert Bits(x, n)[..n - 1] == Bits(x / 2, n - 1);
    }
  }

  lemma {:induction false} BitsNum(b: seq<bool>)
    ensures Bits(Num(b), |b|) == b
  {
    if b != [] {
      BitsNum(b[..|b| - 1]);
      assert b == b[..|b| - 1] + [b[|b| - 1]];
    }
  }

  function SextetOf(b: seq<bool>): Sextet
    requires |b| == 6
  {
    assert Pow2(6) == 64;
    Num(b)
  }

  function ByteOf(b: seq<bool>): Byte
    requires |b| == 8
  {
    assert Pow2(8) == 256;
    Num(b)
  }

  /** Three bytes, or four sextets, are twenty-four bits. */
  function Group(b0: Byte, b1: Byte, b2: Byte): (g: seq<bool>)
    ensures |g| == 24
  {
    Bits(b0, 8) + Bits(b1, 8) + Bits(b2, 8)
  }

  function Regroup(v0: Sextet, v1: Sextet, v2: Sextet, v3: Sextet): (g: seq<bool>)
    ensures |g| == 24
  {
    Bits(v0, 6) + Bits(v1, 6) + Bits(v2, 6) + Bits(v3, 6)
  }

  function Triple(g: seq<bool>): (r: Bytes)
    requires |g| == 24
    ensures |r| == 3
  {
    [ByteOf(g[..8]), ByteOf(g[8..16]), ByteOf(g[16..])]
  }

  function Quad(g: seq<bool>): (r: Bytes)
    requires |g| == 24
    ensures |r| == 4
  {
    [Symbol(SextetOf(g[..6])), Symbol(SextetOf(g[6..12])), Symbol(SextetOf(g[12..18])), Symbol(SextetOf(g[18..]))]
  }

  lemma ByteBack(b: Byte)
    ensures ByteOf(Bits(b, 8)) == b
  {
    assert Pow2(8) == 256;
    NumBits(b, 8);
  }

  lemma TripleGroup(b0: Byte, b1: Byte, b2: Byte)
    ensures Triple(Group(b0, b1, b2)) == [b0, b1, b2]
  {
    ByteBack(b0);
    ByteBack(b1);
    ByteBack(b2);
    var g := Group(b0, b1, b2);
    assert g[..8] == Bits(b0, 8) && g[8..16] == Bits(b1, 8) && g[16..] == Bits(b2, 8);
  }

  // ---- the library's padded coding -----------------------------------------------------

  function PaddedSize(n: nat): (r: nat)
    ensures n > 0 ==> r >= 4
  {
    if n == 0 then 0 else if n < 3 then 4 else 4 + PaddedSize(n - 3)
  }

  function EncodePadded(src: Bytes): (r: Bytes)
    ensures |r| == PaddedSize(|src|)
  {
    if |src| == 0 then []
    else if |src| == 1 then Quad(Group(src[0], 0, 0))[..2] + [PAD, PAD]
    else if |src| == 2 then Quad(Group(src[0], src[1], 0))[..3] + [PAD]
    else Quad(Group(src[0], src[1], src[2])) + EncodePadded(src[3..])
  }

  /** Line breaks are skipped wherever they stand. */
  function SkipBreaks(src: Bytes): Bytes {
    if src == [] then []
    else if src[0] == 10 || src[0] == 13 then SkipBreaks(src[1..])
    else [src[0]] + SkipBreaks(src[1..])
  }

  /** None is the corrupt-input error. Padding may only end the input. */
  function DecodeQuanta(s: Bytes): Option<Bytes> {
    if s == [] then Some([])
    else if |s| < 4 || !IsSymbol(s[0]) || !IsSymbol(s[1]) then None
    else
      var v0, v1 := Value(s[0]).value, Value(s[1]).value;
      if s[2] == PAD then
        if s[3] == PAD && |s| == 4 then Some(Triple(Regroup(v0, v1, 0, 0))[..1]) else None
      else if !IsSymbol(s[2]) then None
      else
        var v2 := Value(s[2]).value;
        if s[3] == PAD then
          if |s| == 4 then Some(Triple(Regroup(v0, v1, v2, 0))[..2]) else None
        else if !IsSymbol(s[3]) then None
        else
          var rest := DecodeQuanta(s[4..]);
          if rest.None? then None
          else Some(Triple(Regroup(v0, v1, v2, Value(s[3]).value)) + rest.value)
  }

  function DecodePadded(s: Bytes): Option<Bytes> {
    DecodeQuanta(SkipBreaks(s))
  }

  // ---- the two wrappers --------------------------------------------------------------------

  function Padding(n: nat): Bytes {
    seq(n, i => PAD)
  }

  function PadCount(n: nat): nat {
    if n % 3 == 1 then 2 else if n % 3 == 2 then 1 else 0
  }

  /** The encoding without its padding. */
  function Encode(src: Bytes): Bytes {
    EncodePadded(src)[..|EncodePadded(src)| - PadCount(|src|)]
  }

  /** What decoding does: as many '=' as are missing to a multiple of four, and four if none is. */
  function Decode(src: Bytes): Option<Bytes> {
    DecodePadded(src + Padding(4 - |src| % 4))
  }

  lemma QuadSymbols(g: seq<bool>)
    requires |g| == 24
    ensures forall i :: 0 <= i < 4 ==> IsSymbol(Quad(g)[i])
  {
    SymbolValue(SextetOf(g[..6]));
    SymbolValue(SextetOf(g[6..12]));
    SymbolValue(SextetOf(g[12..18]));
    SymbolValue(SextetOf(g[18..]));
  }

  /** What follows the first four symbols is the encoding of what follows the first three bytes. */
  lemma EncodedStep(src: Bytes)
    requires |src| >= 3
    ensures PadCount(|src|) == PadCount(|src| - 3)
    ensures forall i :: 0 <= i < 4 ==> IsSymbol(EncodePadded(src)[i])
    ensures EncodePadded(src)[4..] == EncodePadded(src[3..])
  {
    QuadSymbols(Group(src[0], src[1], src[2]));
  }

  lemma ShortShape(src: Bytes)
    requires |src| < 3
    ensures forall i :: 0 <= i < |Encode(src)| ==> IsSymbol(EncodePadded(src)[i])
    ensures forall i :: |Encode(src)| <= i < |EncodePadded(src)| ==> EncodePadded(src)[i] == PAD
  {
    if |src| > 0 { QuadSymbols(Group(src[0], if |src| == 2 then src[1] else 0, 0)); }
  }

  /** Symbols first, then exactly as many '=' as `PadCount` says. */
  lemma {:induction false} PaddedShape(src: Bytes, i: nat)
    requires i < |EncodePadded(src)|
    ensures if i < |Encode(src)| then IsSymbol(EncodePadded(src)[i]) else EncodePadded(src)[i] == PAD
  {
    if |src| < 3 {
      ShortShape(src);
    } else {
      EncodedStep(src);
      if i >= 4 {
        assert EncodePadded(src)[i] == EncodePadded(src[3..])[i - 4];
        PaddedShape(src[3..], i - 4);
      }
    }
  }

  lemma EncodeShape(src: Bytes)
    ensures EncodePadded(src) == Encode(src) + Padding(PadCount(|src|))
    ensures forall i :: 0 <= i < |Encode(src)| ==> IsSymbol(Encode(src)[i])
  {
    forall i | 0 <= i < |EncodePadded(src)|
      ensures if i < |Encode(src)| then IsSymbol(EncodePadded(src)[i]) else EncodePadded(src)[i] == PAD
    {
      PaddedShape(src, i);
    }
  }

  lemma {:induction false} WholeQuads(n: nat)
    ensures PaddedSize(n) % 4 == 0
  {
    if n >= 3 { WholeQuads(n - 3); }
  }

  /** None is the panic on an empty input, where the loop reads before the start. */
  method Base64Encode(src: Bytes) returns (r: Option<Bytes>)
    ensures r == if src == [] then None else Some(Encode(src))
  {
    EncodeShape(src);
    var dst := EncodePadded(src);
    var n := |dst|;
    if n == 0 { return None; }
    ghost var kept := |Encode(src)|;
    assert forall i :: 0 <= i < kept ==> IsSymbol(dst[i]);
    assert 0 < kept;
    while dst[n - 1] == PAD
      invariant kept <= n <= |dst|
      decreases n
    {
      n := n - 1;
    }
    return Some(dst[..n]);
  }

  method Base64Decode(src: Bytes) returns (r: Option<Bytes>)
    ensures r == Decode(src)
  {
    var padded := src;
    var numOfEquals := 4 - |src| % 4;
    for i := 0 to numOfEquals
      invariant padded == src + Padding(i)
    {
      padded := padded + [PAD];
      assert Padding(i + 1) == Padding(i) + [PAD];
    }
    r := DecodePadded(padded);
  }

  // ---- decoding undoes encoding --------------------------------------------------------------

  lemma {:induction false} NoBreaks(s: Bytes)
    requires forall i :: 0 <= i < |s| ==> s[i] != 10 && s[i] != 13
    ensures SkipBreaks(s) == s
  {
    if s != [] { NoBreaks(s[1..]); }
  }

  predicate Decodes(s: Bytes, out: Bytes) {
    DecodeQuanta(s) == Some(out)
  }

  lemma SymbolBack(b: seq<bool>)
    requires |b| == 6
    ensures
      var x := Symbol(SextetOf(b));
      IsSymbol(x) && x != PAD && Bits(Value(x).value, 6) == b
  {
    SymbolValue(SextetOf(b));
    BitsNum(b);
  }

  lemma Sixes(g: seq<bool>)
    requires |g| == 24
    ensures g == g[..6] + g[6..12] + g[12..18] + g[18..]
    ensures g[..18] == g[..6] + g[6..12] + g[12..18]
    ensures g[..12] == g[..6] + g[6..12]
  {}

  lemma RegroupParts(v0: Sextet, v1: Sextet, v2: Sextet, v3: Sextet)
    ensures Regroup(v0, v1, v2, v3)[..18] == Bits(v0, 6) + Bits(v1, 6) + Bits(v2, 6)
    ensures Regroup(v0, v1, v2, v3)[..12] == Bits(v0, 6) + Bits(v1, 6)
  {
    var a, b, c, d := Bits(v0, 6), Bits(v1, 6), Bits(v2, 6), Bits(v3, 6);
    assert (a + b + c + d)[..18] == a + b + c;
    assert (a + b + c + d)[..12] == a + b;
  }

  /** Reading four symbols gives back the bits they were written from. */
  lemma RegroupQuad(g: seq<bool>)
    requires |g| == 24
    ensures forall i :: 0 <= i < 4 ==> IsSymbol(Quad(g)[i]) && Quad(g)[i] != PAD
    ensures
      var v0, v1 := Value(Quad(g)[0]).value, Value(Quad(g)[1]).value;
      var v2, v3 := Value(Quad(g)[2]).value, Value(Quad(g)[3]).value;
      && Regroup(v0, v1, v2, v3) == g
      && Regroup(v0, v1, v2, 0)[..18] == g[..18]
      && Regroup(v0, v1, 0, 0)[..12] == g[..12]
  {
    SymbolBack(g[..6]);
    SymbolBack(g[6..12]);
    SymbolBack(g[12..18]);
    SymbolBack(g[18..]);
    Sixes(g);
    var v0, v1, v2 := Value(Quad(g)[0]).value, Value(Quad(g)[1]).value, Value(Quad(g)[2]).value;
    RegroupParts(v0, v1, v2, 0);
    RegroupParts(v0, v1, 0, 0);
  }

  lemma OneRoundTrip(b0: Byte)
    ensures Decodes(EncodePadded([b0]), [b0])
  {
    var g := Group(b0, 0, 0);
    RegroupQuad(g);
    TripleGroup(b0, 0, 0);
    var h := Regroup(Value(Quad(g)[0]).value, Value(Quad(g)[1]).value, 0, 0);
    assert h[..8] == h[..12][..8] == g[..12][..8] == g[..8];
    assert Triple(h)[..1] == [Triple(g)[0]] == [b0];
    assert EncodePadded([b0]) == [Quad(g)[0], Quad(g)[1], PAD, PAD];
  }

  lemma TwoRoundTrip(b0: Byte, b1: Byte)
    ensures Decodes(EncodePadded([b0, b1]), [b0, b1])
  {
    var g := Group(b0, b1, 0);
    RegroupQuad(g);
    TripleGroup(b0, b1, 0);
    var h := Regroup(Value(Quad(g)[0]).value, Value(Quad(g)[1]).value, Value(Quad(g)[2]).value, 0);
    assert h[..8] == h[..18][..8] == g[..18][..8] == g[..8];
    assert h[8..16] == h[..18][8..16] == g[..18][8..16] == g[8..16];
    assert Triple(h)[..2] == [Triple(g)[0], Triple(g)[1]] == [b0, b1];
    assert EncodePadded([b0, b1]) == [Quad(g)[0], Quad(g)[1], Quad(g)[2], PAD];
  }

  lemma DecodeFour(g: seq<bool>, rest: Bytes, out: Bytes)
    requires |g| == 24 && Decodes(rest, out)
    ensures Decodes(Quad(g) + rest, Triple(g) + out)
  {
    RegroupQuad(g);
    assert (Quad(g) + rest)[4..] == rest;
  }

  lemma ThreeRoundTrip(b0: Byte, b1: Byte, b2: Byte, rest: Bytes)
    requires Decodes(EncodePadded(rest), rest)
    ensures Decodes(EncodePadded([b0, b1, b2] + rest), [b0, b1, b2] + rest)
  {
    TripleGroup(b0, b1, b2);
    DecodeFour(Group(b0, b1, b2), EncodePadded(rest), rest);
    assert ([b0, b1, b2] + rest)[3..] == rest;
  }

  /** The padded coding is undone for every byte string. */
  lemma {:induction false} QuantaRoundTrip(src: Bytes)
    ensures Decodes(EncodePadded(src), src)
  {
    if |src| == 0 {
    } else if |src| == 1 {
      assert src == [src[0]];
      OneRoundTrip(src[0]);
    } else if |src| == 2 {
      assert src == [src[0], src[1]];
      TwoRoundTrip(src[0], src[1]);
    } else {
      assert src == [src[0], src[1], src[2]] + src[3..];
      QuantaRoundTrip(src[3..]);
      ThreeRoundTrip(src[0], src[1], src[2], src[3..]);
    }
  }

  /** Four or more '=' never decode. */
  lemma {:induction false} TooMuchPadding(s: Bytes)
    requires |s| >= 4 && forall i :: |s| - 4 <= i < |s| ==> s[i] == PAD
    ensures DecodeQuanta(s) == None
  {
    if |s| >= 8 && IsSymbol(s[0]) && IsSymbol(s[1]) && IsSymbol(s[2]) && IsSymbol(s[3]) {
      TooMuchPadding(s[4..]);
    }
  }

  lemma QuadsLess(p: nat, c: nat)
    requires p % 4 == 0 && c <= 2 && c <= p
    ensures (p - c) % 4 == if c == 0 then 0 else 4 - c
  {}

  /** The padding put back is the padding stripped, unless none was stripped. */
  lemma PaddingBack(src: Bytes)
    ensures 4 - |Encode(src)| % 4 == if |src| % 3 != 0 then PadCount(|src|) else 4
  {
    var p, c := PaddedSize(|src|), PadCount(|src|);
    WholeQuads(|src|);
    QuadsLess(p, c);
    assert |Encode(src)| == p - c;
  }

  lemma EncodedHasNoBreaks(src: Bytes, n: nat)
    ensures SkipBreaks(Encode(src) + Padding(n)) == Encode(src) + Padding(n)
  {
    EncodeShape(src);
    NoBreaks(Encode(src) + Padding(n));
  }

  lemma DecodePadding(src: Bytes)
    ensures Decode(Encode(src)) == DecodeQuanta(Encode(src) + Padding(if |src| % 3 != 0 then PadCount(|src|) else 4))
  {
    PaddingBack(src);
    EncodedHasNoBreaks(src, 4 - |Encode(src)| % 4);
  }

  /** Decoding undoes encoding exactly for the lengths that are not a multiple of three. */
  lemma RoundTrip(src: Bytes)
    ensures Decode(Encode(src)) == Some(src) <==> |src| % 3 != 0
  {
    DecodePadding(src);
    if |src| % 3 != 0 {
      EncodeShape(src);
      QuantaRoundTrip(src);
    } else {
      TooMuchPadding(Encode(src) + Padding(4));
    }
  }

  /** Different byte strings of such a length have different encodings. */
  lemma EncodeInjective(a: Bytes, b: Bytes)
    requires |a| % 3 != 0 && |b| % 3 != 0
    ensures Encode(a) == Encode(b) <==> a == b
  {
    RoundTrip(a);
    RoundTrip(b);
  }
}
