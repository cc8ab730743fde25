/**
 What the base64 of module `Base64` computes, in arithmetic: groups of bytes and
 of symbols as numbers, and exactly which inputs decode.
 */
module Base64Codes {
  import opened Options
  import opened Base64

  // ---- the codes as numbers -------------------------------------------------------------------

  /** `x` followed by `n` zero bits. */
  function Shifted(x: nat, n: nat): nat {
    if n == 0 then x else 2 * Shifted(x, n - 1)
  }

  lemma {:induction false} NumConcat(a: seq<bool>, b: seq<bool>)
    ensures Num(a + b) == Shifted(Num(a), |b|) + Num(b)
  {
    if b == [] {
      assert a + b == a;
    } else {
      var front := b[..|b| - 1];
      NumConcat(a, front);
      assert (a + b)[..|a + b| - 1] == a + front;
    }
  }

  lemma Shifted6(x: nat)
    ensures Shifted(x, 6) == 64 * x
  {
    assert Shifted(x, 2) == 2 * Shifted(x, 1) == 4 * x;
    assert Shifted(x, 4) == 2 * Shifted(x, 3) == 4 * Shifted(x, 2);
  }

  lemma Shifted8(x: nat)
    ensures Shifted(x, 8) == 256 * x
  {
    Shifted6(x);
    assert Shifted(x, 8) == 2 * Shifted(x, 7) == 4 * Shifted(x, 6);
  }

  lemma Pow68()
    ensures Pow2(6) == 64 && Pow2(8) == 256
  {}

  lemma NumSixes(a: seq<bool>, b: seq<bool>, c: seq<bool>, d: seq<bool>)
    requires |a| == |b| == |c| == |d| == 6
    ensures Num(a + b) == Num(a) * 64 + Num(b)
    ensures Num(a + b + c) == (Num(a) * 64 + Num(b)) * 64 + Num(c)
    ensures Num(a + b + c + d) == ((Num(a) * 64 + Num(b)) * 64 + Num(c)) * 64 + Num(d)
  {
    NumConcat(a, b);
    NumConcat(a + b, c);
    NumConcat(a + b + c, d);
    Shifted6(Num(a));
    Shifted6(Num(a + b));
    Shifted6(Num(a + b + c));
  }

  /** Two, or three, bytes as a number, the most significant first. */
  function Word2(s: Bytes, i: nat): nat
    requires i + 2 <= |s|
  {
    var high: nat := s[i];
    high * 256 + s[i + 1]
  }

  function Word3(s: Bytes, i: nat): nat
    requires i + 3 <= |s|
  {
    Word2(s, i) * 256 + s[i + 2]
  }

  lemma NumBytes(b0: Byte, b1: Byte, b2: Byte)
    ensures Num(Group(b0, b1, b2)) == Word3([b0, b1, b2], 0)
  {
    Pow68();
    NumBits(b0, 8);
    NumBits(b1, 8);
    NumBits(b2, 8);
    NumConcat(Bits(b0, 8), Bits(b1, 8));
    NumConcat(Bits(b0, 8) + Bits(b1, 8), Bits(b2, 8));
    Shifted8(b0);
    Shifted8(Num(Bits(b0, 8) + Bits(b1, 8)));
  }

  function SextetWord(v0: Sextet, v1: Sextet, v2: Sextet): nat {
    var high: nat := v0;
    (high * 64 + v1) * 64 + v2
  }

  lemma NumSextets(v0: Sextet, v1: Sextet, v2: Sextet, v3: Sextet)
    ensures Num(Regroup(v0, v1, v2, v3)) == SextetWord(v0, v1, v2) * 64 + v3
  {
    Pow68();
    NumBits(v0, 6);
    NumBits(v1, 6);
    NumBits(v2, 6);
    NumBits(v3, 6);
    NumSixes(Bits(v0, 6), Bits(v1, 6), Bits(v2, 6), Bits(v3, 6));
  }

  /** The sextet behind a symbol; 0 behind anything else. */
  function Sextet64(b: Byte): Sextet {
    if IsSymbol(b) then Value(b).value else 0
  }

  function Number2(s: Bytes, i: nat): nat
    requires i + 2 <= |s|
  {
    var high: nat := Sextet64(s[i]);
    high * 64 + Sextet64(s[i + 1])
  }

  function Number3(s: Bytes, i: nat): nat
    requires i + 3 <= |s|
  {
    Number2(s, i) * 64 + Sextet64(s[i + 2])
  }

  function Number4(s: Bytes, i: nat): nat
    requires i + 4 <= |s|
  {
    Number3(s, i) * 64 + Sextet64(s[i + 3])
  }

  lemma QuadNumber(b0: Byte, b1: Byte, b2: Byte)
    ensures Number4(Quad(Group(b0, b1, b2)), 0) == Word3([b0, b1, b2], 0)
  {
    var q := Quad(Group(b0, b1, b2));
    RegroupQuad(Group(b0, b1, b2));
    NumBytes(b0, b1, b2);
    NumSextets(Sextet64(q[0]), Sextet64(q[1]), Sextet64(q[2]), Sextet64(q[3]));
  }

  /** The last sextets of a group that ends in zero bytes are mostly zero. */
  lemma TailNumber(b0: Byte, b1: Byte)
    ensures Number3(Quad(Group(b0, b1, 0)), 0) == Word2([b0, b1], 0) * 4
    ensures b1 == 0 ==> Number2(Quad(Group(b0, b1, 0)), 0) == 16 * (b0 as int)
  {
    QuadNumber(b0, b1, 0);
  }

  lemma {:induction false} PaddedDrop(src: Bytes, k: nat)
    requires 3 * k <= |src|
    ensures 4 * k <= |EncodePadded(src)| && EncodePadded(src)[4 * k..] == EncodePadded(src[3 * k..])
  {
    if k == 0 {
      assert src[0..] == src && EncodePadded(src)[0..] == EncodePadded(src);
    } else {
      PaddedDrop(src[3..], k - 1);
      assert src[3..][3 * (k - 1)..] == src[3 * k..];
      var q := Quad(Group(src[0], src[1], src[2]));
      assert EncodePadded(src) == q + EncodePadded(src[3..]);
      assert (q + EncodePadded(src[3..]))[4 * k..] == EncodePadded(src[3..])[4 * (k - 1)..];
    }
  }

  /** Encoding goes group by group. */
  lemma EncodeDrop(src: Bytes, k: nat)
    requires 3 * k < |src|
    ensures 4 * k <= |Encode(src)| && Encode(src)[4 * k..] == Encode(src[3 * k..])
  {
    PaddedDrop(src, k);
    SizeAt(|src|, k);
    PadCountDrop(|src|, k);
  }

  lemma {:induction false} PadCountDrop(n: nat, k: nat)
    requires 3 * k <= n
    ensures PadCount(n) == PadCount(n - 3 * k)
  {
    if k > 0 { PadCountDrop(n - 3, k - 1); }
  }

  lemma FirstNumbers(src: Bytes)
    requires src != []
    ensures
      var s := Encode(src);
      if 3 <= |src| then 4 <= |s| && Number4(s, 0) == Word3(src, 0)
      else if 2 == |src| then |s| == 3 && Number3(s, 0) == Word2(src, 0) * 4
      else |s| == 2 && Number2(s, 0) == 16 * (src[0] as int)
  {
    SizeAt(|src|, 0);
    if |src| >= 3 {
      QuadNumber(src[0], src[1], src[2]);
    } else {
      TailNumber(src[0], if |src| == 2 then src[1] else 0);
    }
  }

  /**
   What each group of bytes is encoded to, as numbers: three bytes are four sextets,
   the most significant first; two bytes at the end are three sextets with two zero
   bits, one byte is two with four.
   */
  lemma EncodedNumbers(src: Bytes, k: nat)
    requires 3 * k < |src|
    ensures
      var s := Encode(src);
      if 3 * k + 3 <= |src| then
        4 * k + 4 <= |s| && Number4(s, 4 * k) == Word3(src, 3 * k)
      else if 3 * k + 2 == |src| then
        |s| == 4 * k + 3 && Number3(s, 4 * k) == Word2(src, 3 * k) * 4
      else
        |s| == 4 * k + 2 && Number2(s, 4 * k) == 16 * (src[3 * k] as int)
  {
    EncodeDrop(src, k);
    FirstNumbers(src[3 * k..]);
  }

  lemma {:induction false} SizeAt(n: nat, k: nat)
    requires 3 * k < n
    ensures if 3 * k + 3 <= n then 4 * k + 4 <= PaddedSize(n) - PadCount(n)
            else PaddedSize(n) - PadCount(n) == 4 * k + n - 3 * k + 1
  {
    if k > 0 {
      SizeAt(n - 3, k - 1);
    } else if n > 3 {
      SizePositive(n - 3);
    }
  }

  lemma SizePositive(n: nat)
    ensures PadCount(n) <= PaddedSize(n) && PadCount(n + 3) == PadCount(n)
  {}

  // ---- what decodes, and to what -----------------------------------------------------------------

  predicate PaddedBy(s: Bytes, p: nat) {
    && p <= |s|
    && (forall i :: 0 <= i < |s| - p ==> IsSymbol(s[i]))
    && forall i :: |s| - p <= i < |s| ==> s[i] == PAD
  }

  /** Symbols in quanta of four, with one or two '=' at most, at the end. */
  predicate WellPadded(s: Bytes) {
    |s| % 4 == 0 && exists p: nat :: p <= 2 && PaddedBy(s, p)
  }

  lemma PaddedByDrop(s: Bytes, p: nat)
    requires |s| >= 4 && p <= |s| - 4
    ensures PaddedBy(s, p) <==>
              IsSymbol(s[0]) && IsSymbol(s[1]) && IsSymbol(s[2]) && IsSymbol(s[3]) && PaddedBy(s[4..], p)
  {
    assert forall i :: 4 <= i < |s| ==> s[i] == s[4..][i - 4];
  }

  lemma LongPadded(s: Bytes)
    requires |s| > 4
    ensures WellPadded(s) <==>
              IsSymbol(s[0]) && IsSymbol(s[1]) && IsSymbol(s[2]) && IsSymbol(s[3]) && WellPadded(s[4..])
  {
    if |s| % 4 == 0 {
      forall p: nat | p <= 2
        ensures PaddedBy(s, p) <==>
                  IsSymbol(s[0]) && IsSymbol(s[1]) && IsSymbol(s[2]) && IsSymbol(s[3]) && PaddedBy(s[4..], p)
      {
        PaddedByDrop(s, p);
      }
    }
  }

  lemma QuantumPadded(s: Bytes)
    requires |s| == 4
    ensures WellPadded(s) <==>
              && IsSymbol(s[0]) && IsSymbol(s[1])
              && (if s[2] == PAD then s[3] == PAD else IsSymbol(s[2]) && (s[3] == PAD || IsSymbol(s[3])))
  {
    ValueSymbol(PAD);
    assert PaddedBy(s, 0) <==> IsSymbol(s[0]) && IsSymbol(s[1]) && IsSymbol(s[2]) && IsSymbol(s[3]);
    assert PaddedBy(s, 1) <==> IsSymbol(s[0]) && IsSymbol(s[1]) && IsSymbol(s[2]) && s[3] == PAD;
    assert PaddedBy(s, 2) <==> IsSymbol(s[0]) && IsSymbol(s[1]) && s[2] == PAD && s[3] == PAD;
  }

  /** Decoding succeeds exactly on well-padded input. */
  lemma {:induction false} DecodesExact(s: Bytes)
    ensures DecodeQuanta(s).Some? <==> WellPadded(s)
  {
    ValueSymbol(PAD);
    if |s| == 0 {
      assert PaddedBy(s, 0);
    } else if |s| == 4 {
      QuantumPadded(s);
      assert s[4..] == [];
    } else if |s| > 4 {
      LongPadded(s);
      DecodesExact(s[4..]);
    }
  }

  lemma TripleNumber(g: seq<bool>)
    requires |g| == 24
    ensures Word3(Triple(g), 0) == Num(g)
  {
    var t := Triple(g);
    NumBytes(t[0], t[1], t[2]);
    BitsNum(g[..8]);
    BitsNum(g[8..16]);
    BitsNum(g[16..]);
    assert g == g[..8] + g[8..16] + g[16..];
  }

  lemma {:induction false} DecodedDrop(s: Bytes, k: nat)
    requires DecodeQuanta(s).Some? && 4 * k <= |s|
    ensures var out := DecodeQuanta(s).value;
            4 * k < |s| ==> 3 * k <= |out| && DecodeQuanta(s[4 * k..]) == Some(out[3 * k..])
  {
    if k == 0 {
      assert s[0..] == s;
    } else if 4 * k < |s| {
      assert |s| > 4;
      DecodedDrop(s[4..], k - 1);
      assert s[4..][4 * (k - 1)..] == s[4 * k..];
      var rest := DecodeQuanta(s[4..]).value;
      var t := Triple(Regroup(Value(s[0]).value, Value(s[1]).value, Value(s[2]).value, Value(s[3]).value));
      assert DecodeQuanta(s).value == t + rest;
      assert (t + rest)[3 * k..] == rest[3 * (k - 1)..];
    }
  }

  /** What each quantum of four decodes to, as numbers; surplus low bits are dropped. */
  lemma DecodedNumbers(s: Bytes, k: nat)
    requires DecodeQuanta(s).Some? && 4 * k + 4 <= |s|
    ensures
      var out := DecodeQuanta(s).value;
      if s[4 * k + 2] == PAD then
        |out| == 3 * k + 1 && out[3 * k] == Number2(s, 4 * k) / 16
      else if s[4 * k + 3] == PAD then
        |out| == 3 * k + 2 && Word2(out, 3 * k) == Number3(s, 4 * k) / 4
      else
        3 * k + 3 <= |out| && Word3(out, 3 * k) == Number4(s, 4 * k)
  {
    DecodedDrop(s, k);
    QuantumNumber(s[4 * k..]);
  }

  lemma QuantumNumber(s: Bytes)
    requires DecodeQuanta(s).Some? && 4 <= |s|
    ensures
      var out := DecodeQuanta(s).value;
      if s[2] == PAD then |out| == 1 && out[0] == Number2(s, 0) / 16
      else if s[3] == PAD then |out| == 2 && Word2(out, 0) == Number3(s, 0) / 4
      else 3 <= |out| && Word3(out, 0) == Number4(s, 0)
  {
    ValueSymbol(PAD);
    var v0, v1, v2, v3 := Sextet64(s[0]), Sextet64(s[1]), Sextet64(s[2]), Sextet64(s[3]);
    NumSextets(v0, v1, v2, v3);
    var t := Triple(Regroup(v0, v1, v2, v3));
    TripleNumber(Regroup(v0, v1, v2, v3));
    if s[2] == PAD {
      Quotients(Number2(s, 0), t);
    } else if s[3] == PAD {
      Quotients3(Number3(s, 0), t);
    }
  }

  lemma Quotients(n: nat, t: Bytes)
    requires |t| == 3 && n * 64 * 64 == Word3(t, 0)
    ensures t[0] == n / 16
  {}

  lemma Quotients3(n: nat, t: Bytes)
    requires |t| == 3 && n * 64 == Word3(t, 0)
    ensures Word2(t, 0) == n / 4
  {}

  /** A line break makes no difference wherever it stands. */
  lemma {:induction false} BreakSkipped(a: Bytes, b: Byte, c: Bytes)
    requires b == 10 || b == 13
    ensures SkipBreaks(a + [b] + c) == SkipBreaks(a + c)
  {
    if a == [] {
      assert ([b] + c)[1..] == c;
      assert a + [b] + c == [b] + c && a + c == c;
    } else {
      BreakSkipped(a[1..], b, c);
      assert (a + [b] + c)[1..] == a[1..] + [b] + c;
      assert (a + c)[1..] == a[1..] + c;
    }
  }

  /** `Decode` succeeds exactly when its input, without line breaks and with its padding put back, is well padded. */
  lemma DecodeExact(src: Bytes)
    ensures Decode(src).Some? <==> WellPadded(SkipBreaks(src + Padding(4 - |src| % 4)))
  {
    DecodesExact(SkipBreaks(src + Padding(4 - |src| % 4)));
  }
}
