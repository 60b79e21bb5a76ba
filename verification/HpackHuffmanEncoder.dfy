/** The bit-level Huffman writer of HPACK (RFC 7541, section 5.2): codes are packed
    from the most significant bit down, and the last byte is filled with ones. */
module HpackHuffmanEncoder {
  import opened Bits
  import opened HpackPrefixCode

  // ---------------------------------------------------------------- specification

  /** The codes of a string, one after the other. */
  function CodesOf(h: PrefixCode, s: seq<Byte>): seq<bool>
    requires h.Shaped()
  {
    if s == [] then [] else CodesOf(h, s[..|s| - 1]) + h.CodeBits(s[|s| - 1])
  }

  function PadLen(n: nat): (r: nat)
    ensures r < 8 && (n + r) % 8 == 0
  {
    (8 - n % 8) % 8
  }

  /** Codes, filled up to whole bytes with the first bits of EOS. */
  function HuffmanBytes(h: PrefixCode, s: seq<Byte>): (v: seq<Byte>)
    requires h.Shaped()
  {
    var b := CodesOf(h, s);
    Pack(b + Repeat(true, PadLen(|b|)))
  }

  function HuffmanLength(h: PrefixCode, s: seq<Byte>): nat
    requires h.Shaped()
  {
    (BitCount(h, s) + 7) / 8
  }

  function BitCount(h: PrefixCode, s: seq<Byte>): nat
    requires h.Shaped()
  {
    if s == [] then 0 else BitCount(h, s[..|s| - 1]) + h.Len(s[|s| - 1])
  }

  lemma {:induction false} BitCountIsLength(h: PrefixCode, s: seq<Byte>)
    requires h.Shaped()
    ensures BitCount(h, s) == |CodesOf(h, s)|
  {
    if s != [] { BitCountIsLength(h, s[..|s| - 1]); }
  }

  /** The length announced before a Huffman string is the length of that string. */
  lemma LengthAgrees(h: PrefixCode, s: seq<Byte>)
    requires h.Shaped()
    ensures HuffmanLength(h, s) == |HuffmanBytes(h, s)|
  {
    BitCountIsLength(h, s);
    var b := CodesOf(h, s);
    var p := b + Repeat(true, PadLen(|b|));
    assert |BytesBits(Pack(p))| == |p|;
  }

  lemma {:induction false} BitCountBound(h: PrefixCode, s: seq<Byte>)
    requires h.Valid()
    ensures BitCount(h, s) <= 30 * |s|
  {
    if s != [] {
      BitCountBound(h, s[..|s| - 1]);
      SymbolShape(h, s[|s| - 1]);
    }
  }

  // ---------------------------------------------------------------- writing bits

  /** The last r bits of dst are still free, and zero; before them come the bits b. */
  ghost predicate Room(dst: seq<Byte>, b: seq<bool>, r: nat) {
    BytesBits(dst) == b + Repeat(false, r)
  }

  /** The writer counts a full last byte as eight free bits of the byte to come. */
  function Free(rem: nat): nat { if rem == 8 then 0 else rem }

  lemma LastByteFree(dst: seq<Byte>, b: seq<bool>, r: nat)
    requires |dst| > 0 && r <= 8 && Room(dst, b, r)
    ensures dst[|dst| - 1] == Shl(Shr(dst[|dst| - 1], r), r)
    ensures b == BytesBits(dst[..|dst| - 1]) + ToBits(Shr(dst[|dst| - 1], r), 8 - r)
  {
    var last := dst[|dst| - 1];
    var front := BytesBits(dst[..|dst| - 1]);
    ToBitsSplit(last, 8 - r, r);
    var high := ToBits(Shr(last, r), 8 - r);
    assert BytesBits(dst) == (front + high) + ToBits(last, r);
    assert |front + high| == |b|;
    assert b == front + high by { assert BytesBits(dst)[..|b|] == b; }
    assert ToBits(last, r) == Repeat(false, r) by { assert BytesBits(dst)[|b|..] == Repeat(false, r); }
    ToBitsZero(r);
    ToBitsLow(last, r);
    ToBitsInjective(Low(last, r), 0, r);
    SplitAt(last, r);
  }

  /** OR-ing k bits into the free part of the last byte appends exactly these bits. */
  lemma WriteBits(dst: seq<Byte>, b: seq<bool>, r: nat, x: nat, k: nat)
    requires |dst| > 0 && k <= r <= 8 && Room(dst, b, r) && x < Pow2(k)
    ensures Or(dst[|dst| - 1], Shl(x, r - k)) < 256
    ensures Room(dst[|dst| - 1 := Or(dst[|dst| - 1], Shl(x, r - k))], b + ToBits(x, k), r - k)
  {
    var last := dst[|dst| - 1];
    LastByteFree(dst, b, r);
    OrIntoByte(last, r, x, k);
    ReplaceLast(dst, Or(last, Shl(x, r - k)));
    var front, high := BytesBits(dst[..|dst| - 1]), ToBits(Shr(last, r), 8 - r);
    assert front + (high + (ToBits(x, k) + Repeat(false, r - k)))
        == (front + high + ToBits(x, k)) + Repeat(false, r - k);
  }

  lemma ReplaceLast(dst: seq<Byte>, w: Byte)
    requires |dst| > 0
    ensures BytesBits(dst[|dst| - 1 := w]) == BytesBits(dst[..|dst| - 1]) + ToBits(w, 8)
  {
    var out := dst[|dst| - 1 := w];
    assert out[..|out| - 1] == dst[..|dst| - 1];
  }

  lemma OrIntoByte(last: Byte, r: nat, x: nat, k: nat)
    requires k <= r <= 8 && x < Pow2(k) && last == Shl(Shr(last, r), r)
    ensures var w := Or(last, Shl(x, r - k));
      w < 256 && ToBits(w, 8) == ToBits(Shr(last, r), 8 - r) + (ToBits(x, k) + Repeat(false, r - k))
  {
    var hi, t := Shr(last, r), Shl(x, r - k);
    ShlFits(x, k, r - k);
    OrDisjoint(hi, t, r);
    JoinBits(hi, t, 8 - r, r);
    TopBits(x, k, r);
    ByteFits(last, t, r);
  }

  lemma TopBits(x: nat, k: nat, r: nat)
    requires k <= r
    ensures ToBits(Shl(x, r - k), r) == ToBits(x, k) + Repeat(false, r - k)
  {
    JoinBits(x, 0, k, r - k);
    ToBitsZero(r - k);
  }

  lemma ByteFits(last: Byte, t: nat, r: nat)
    requires r <= 8 && t < Pow2(r)
    ensures Shl(Shr(last, r), r) + t < 256
  {
    assert Pow2(8) == 256 by { Pow2Constants(); }
    ShrFits(last, 8 - r, r);
    JoinFits(Shr(last, r), t, 8 - r, r);
  }

  // ---------------------------------------------------------------- implementation

  /** Appends the code of c. On entry dst has rembits free bits in its last byte, on exit rem
      free bits, where 8 stands for none: the next byte is not there yet. */
  method AppendByteToHuffmanCode(h: PrefixCode, dst: seq<Byte>, rembits: nat, c: Byte, ghost b: seq<bool>)
    returns (out: seq<Byte>, rem: nat)
    requires h.Valid() && |dst| > 0 && 1 <= rembits <= 8 && Room(dst, b, rembits)
    ensures 1 <= rem <= 8
    ensures |out| > 0 && Room(out, b + h.CodeBits(c), Free(rem))
  {
    SymbolShape(h, c);
    var code, nbits := h.Code(c), h.Len(c);
    out, rem := dst, rembits;
    ghost var done := b;
    ghost var goal := b + h.CodeBits(c);
    while true
      invariant 1 <= rem <= 8 && 1 <= nbits <= MAX_LEN && |out| > 0 && Room(out, done, rem)
      invariant rem == 8 || code < Pow2(nbits)
      invariant goal == done + ToBits(code, nbits)
      decreases nbits
    {
      var last := |out| - 1;
      if rem > nbits {
        var t := Shl(code, rem - nbits) % U32 % 256;
        LastPiece(out, done, rem, code, nbits);
        out := out[last := Or(out[last], t)];
        rem := rem - nbits;
        return;
      }
      var t := Shr(code, nbits - rem) % 256;
      NextPiece(out, done, rem, code, nbits);
      out := out[last := Or(out[last], t)];
      done := done + ToBits(t, rem);
      nbits := nbits - rem;
      rem := 8;
      if nbits == 0 {
        return;
      }
      out := AppendZero(out, done);
    }
  }

  /** The bits that are left of the code fit into the last byte. */
  lemma LastPiece(dst: seq<Byte>, done: seq<bool>, rem: nat, code: nat, nbits: nat)
    requires |dst| > 0 && nbits < rem <= 8 && Room(dst, done, rem)
    requires rem == 8 || code < Pow2(nbits)
    ensures var w := Or(dst[|dst| - 1], Shl(code, rem - nbits) % U32 % 256);
      w < 256 && Room(dst[|dst| - 1 := w], done + ToBits(code, nbits), rem - nbits)
  {
    LowBitsShifted(code, nbits, rem);
    WriteBits(dst, done, rem, Low(code, nbits), nbits);
    ToBitsLow(code, nbits);
  }

  /** The next bits of the code fill the last byte. */
  lemma NextPiece(dst: seq<Byte>, done: seq<bool>, rem: nat, code: nat, nbits: nat)
    requires |dst| > 0 && 1 <= rem <= nbits && rem <= 8 && Room(dst, done, rem)
    requires rem == 8 || code < Pow2(nbits)
    ensures var t := Shr(code, nbits - rem) % 256;
      && Or(dst[|dst| - 1], t) < 256
      && Room(dst[|dst| - 1 := Or(dst[|dst| - 1], t)], done + ToBits(t, rem), 0)
      && done + ToBits(code, nbits) == (done + ToBits(t, rem)) + ToBits(code, nbits - rem)
  {
    HighBitsShifted(code, nbits, rem);
    WriteBits(dst, done, rem, Shr(code, nbits - rem) % 256, rem);
  }

  /** Starts a new byte: dst = append(dst, 0). */
  method AppendZero(dst: seq<Byte>, ghost b: seq<bool>) returns (out: seq<Byte>)
    requires Room(dst, b, 0)
    ensures out == dst + [0] && Room(out, b, 8)
  {
    out := dst + [0];
    assert out[..|out| - 1] == dst;
    ToBitsZero(8);
  }

  lemma LowBitsShifted(code: nat, nbits: nat, rem: nat)
    requires nbits < rem <= 8 && (rem == 8 || code < Pow2(nbits))
    ensures Shl(code, rem - nbits) % U32 % 256 == Shl(Low(code, nbits), rem - nbits)
  {
    var y := Shl(code, rem - nbits);
    LowByte(y);
    if rem == 8 {
      LowOfShl(code, nbits, rem - nbits);
    } else {
      ShlFits(code, nbits, rem - nbits);
      Pow2Mono(rem, 8);
    }
  }

  lemma HighBitsShifted(code: nat, nbits: nat, rem: nat)
    requires 1 <= rem <= nbits && rem <= 8 && (rem == 8 || code < Pow2(nbits))
    ensures var t := Shr(code, nbits - rem) % 256;
      t < Pow2(rem) && ToBits(code, nbits) == ToBits(t, rem) + ToBits(code, nbits - rem)
  {
    var x := Shr(code, nbits - rem);
    ToBitsSplit(code, rem, nbits - rem);
    LowByte(x);
    if rem == 8 {
      ToBitsLow(x, 8);
    } else {
      ShrFits(code, rem, nbits - rem);
      Pow2Mono(rem, 8);
    }
  }

  method AppendHuffmanString(h: PrefixCode, dst: seq<Byte>, s: seq<Byte>) returns (out: seq<Byte>)
    requires h.Valid()
    ensures out == dst + HuffmanBytes(h, s)
  {
    var rembits := 8;
    out := dst;
    ghost var front := BytesBits(dst);
    var i := 0;
    while i < |s|
      invariant 0 <= i <= |s| && 1 <= rembits <= 8 && (rembits < 8 ==> |out| > 0)
      invariant Room(out, front + CodesOf(h, s[..i]), Free(rembits))
    {
      ghost var b := front + CodesOf(h, s[..i]);
      if rembits == 8 {
        out := AppendZero(out, b);
      }
      assert s[..i + 1][..i] == s[..i];
      assert front + CodesOf(h, s[..i + 1]) == b + h.CodeBits(s[i]);
      out, rembits := AppendByteToHuffmanCode(h, out, rembits, s[i], b);
      i := i + 1;
    }
    assert s[..i] == s;
    ghost var codes := CodesOf(h, s);
    RoomLength(out, dst, codes, Free(rembits));
    if rembits < 8 {
      var eos, nbits := 0x3fff_ffff, 30;
      var t := Shr(eos, nbits - rembits) % 256;
      EosIs();
      EosBits(eos, nbits, rembits);
      WriteBits(out, front + codes, rembits, t, rembits);
      out := out[|out| - 1 := Or(out[|out| - 1], t)];
    }
    assert BytesBits(out) == front + (codes + Repeat(true, Free(rembits)));
    BytesBitsAppend(dst, HuffmanBytes(h, s));
    BytesBitsInjective(out, dst + HuffmanBytes(h, s));
  }

  lemma RoomLength(out: seq<Byte>, dst: seq<Byte>, codes: seq<bool>, r: nat)
    requires r < 8 && Room(out, BytesBits(dst) + codes, r)
    ensures r == PadLen(|codes|)
  {
    assert 8 * |out| == 8 * |dst| + |codes| + r;
  }

  lemma EosIs()
    ensures 0x3fff_ffff == Pow2(30) - 1
  {
    Pow2Constants();
  }

  lemma EosBits(eos: nat, n: nat, r: nat)
    requires 1 <= r <= 8 && r <= n && eos == Pow2(n) - 1
    ensures Shr(eos, n - r) % 256 == Pow2(r) - 1
    ensures ToBits(Pow2(r) - 1, r) == Repeat(true, r)
  {
    ToBitsOnes(r);
    OnesShifted(n, n - r);
    PowWithinByte(r);
  }

  lemma PowWithinByte(r: nat)
    requires r <= 8
    ensures 1 <= Pow2(r) <= 256
  {
    Pow2Mono(r, 8);
    Pow2Constants();
  }

  lemma {:induction false} OnesShifted(n: nat, s: nat)
    requires s <= n
    ensures Shr(Pow2(n) - 1, s) == Pow2(n - s) - 1
  {
    if s > 0 {
      assert (Pow2(n) - 1) / 2 == Pow2(n - 1) - 1;
      OnesShifted(n - 1, s - 1);
    }
  }

  /** The sum is kept in a 64-bit word; it cannot wrap for a string that fits in memory. */
  method HuffmanEncodeLength(h: PrefixCode, s: seq<Byte>) returns (n: nat)
    requires h.Valid() && |s| < 0x0400_0000_0000_0000
    ensures n == HuffmanLength(h, s)
  {
    n := 0;
    for i := 0 to |s|
      invariant n == BitCount(h, s[..i])
    {
      assert s[..i + 1][..i] == s[..i];
      BitCountBound(h, s[..i + 1]);
      n := (n + h.Len(s[i])) % U64;
    }
    assert s[..|s|] == s;
    BitCountBound(h, s);
    n := (n + 7) % U64 / 8;
  }
}
