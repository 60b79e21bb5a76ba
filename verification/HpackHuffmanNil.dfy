/** Where the Huffman decoder of HPACK goes wrong: the loop over the last bits follows a nil child
    that the loop before it would have reported, and does not test the length limit. */
module HpackHuffmanNil {
  import opened Bits
  import opened HpackPrefixCode
  import opened HpackHuffmanEncoder
  import opened HpackHuffmanDecoder
  import opened HpackHuffmanTables

  /** The bits are the codes of s, thirty ones, and perhaps one bit more. */
  ghost predicate OnesAfter(h: PrefixCode, bits: seq<bool>, s: seq<Byte>)
    requires h.Shaped()
  {
    var m := |CodesOf(h, s)|;
    && CodesOf(h, s) <= bits && 30 <= |bits| - m <= 31
    && forall i :: m <= i < m + 30 ==> bits[i]
  }

  lemma OnesAfterCons(h: PrefixCode, bits: seq<bool>, c: Byte, s: seq<Byte>)
    requires h.Shaped() && h.CodeBits(c) <= bits
    ensures OnesAfter(h, bits, [c] + s) <==> OnesAfter(h, bits[h.Len(c)..], s)
  {
    var rest, k := bits[h.Len(c)..], h.Len(c);
    CodesCons(h, [c] + s);
    assert ([c] + s)[1..] == s;
    assert bits == h.CodeBits(c) + rest;
    ConsPrefix(h.CodeBits(c), CodesOf(h, s), rest);
    assert forall i :: 0 <= i < |rest| ==> rest[i] == bits[k + i];
    assert forall i :: k <= i < |bits| ==> bits[i] == rest[i - k];
  }

  lemma ConsPrefix(a: seq<bool>, b: seq<bool>, rest: seq<bool>)
    ensures a + b <= a + rest <==> b <= rest
  {
    if b <= rest {
      assert rest == b + rest[|b|..];
      assert a + rest == a + b + rest[|b|..];
    }
    if a + b <= a + rest {
      assert (a + rest)[|a|..|a| + |b|] == (a + b)[|a|..];
      assert b == (a + b)[|a|..] && (a + rest)[|a|..|a| + |b|] == rest[..|b|];
    }
  }

  /** Whatever the limit, the nil child is only met at thirty ones. */
  lemma {:induction false} NilMeansOnes(h: PrefixCode, bits: seq<bool>, out: seq<Byte>, maxLen: nat)
    returns (s: seq<Byte>)
    requires h.Valid() && DecodeBits(h, bits, out, maxLen) == NilNode
    ensures OnesAfter(h, bits, s)
    decreases |bits|
  {
    if h.Starts(bits) {
      var c := FirstSymbol(h, bits);
      SymbolShape(h, c);
      s := NilMeansOnes(h, bits[h.Len(c)..], out + [c], maxLen);
      OnesAfterCons(h, bits, c, s);
      s := [c] + s;
    } else {
      NoCodeMeansOnes(h, bits);
      s := [];
    }
  }

  lemma OnesStart(h: PrefixCode, bits: seq<bool>)
    requires h.Valid() && |bits| >= 30 && forall i :: 0 <= i < 30 ==> bits[i]
    ensures !h.Starts(bits)
  {
    assert bits[..30] == Repeat(true, 30);
    OnesStartNothing(h, 30);
    forall c: Byte ensures !(h.CodeBits(c) <= bits) {
      SymbolShape(h, c);
      if h.CodeBits(c) <= bits {
        Comparable(h.CodeBits(c), bits[..30], bits);
      }
    }
  }

  lemma FrontCode(h: PrefixCode, bits: seq<bool>, s: seq<Byte>)
    requires h.Shaped() && s != [] && CodesOf(h, s) <= bits
    ensures h.CodeBits(s[0]) <= bits
  {
    CodesCons(h, s);
    FirstPart(h.CodeBits(s[0]), CodesOf(h, s[1..]), bits);
  }

  lemma {:induction false} OnesMeanNil(h: PrefixCode, bits: seq<bool>, out: seq<Byte>, s: seq<Byte>, maxLen: nat)
    requires h.Valid() && OnesAfter(h, bits, s) && (maxLen == 0 || |out| + |s| <= maxLen)
    ensures DecodeBits(h, bits, out, maxLen) == NilNode
    decreases |s|
  {
    if s == [] {
      OnesStart(h, bits);
    } else {
      assert s == [s[0]] + s[1..];
      FrontCode(h, bits, s);
      OnesAfterCons(h, bits, s[0], s[1..]);
      DecodeStep(h, s[0], bits, out, maxLen);
      OnesMeanNil(h, bits[h.Len(s[0])..], out + [s[0]], s[1..], maxLen);
    }
  }

  lemma FirstPart(a: seq<bool>, b: seq<bool>, bits: seq<bool>)
    requires a + b <= bits
    ensures a <= bits
  {
    assert bits[..|a|] == (a + b)[..|a|] == a;
  }

  /** A nil child lies behind thirty bits, so the limit has been tested on the way there. */
  lemma {:induction false} NilWithin(h: PrefixCode, bits: seq<bool>, out: seq<Byte>, maxLen: nat) returns (s: seq<Byte>)
    requires h.Valid() && DecodeBits(h, bits, out, maxLen) == NilNode && (maxLen == 0 || |out| <= maxLen)
    ensures OnesAfter(h, bits, s) && (maxLen == 0 || |out| + |s| <= maxLen)
    decreases |bits|
  {
    if h.Starts(bits) {
      var c := FirstSymbol(h, bits);
      SymbolShape(h, c);
      var rest := bits[h.Len(c)..];
      var t := NilMeansOnes(h, rest, out + [c], maxLen);
      WholeBelow(h.Len(c));
      s := NilWithin(h, rest, out + [c], maxLen);
      OnesAfterCons(h, bits, c, s);
      s := [c] + s;
    } else {
      NoCodeMeansOnes(h, bits);
      s := [];
    }
  }

  lemma WholeBelow(n: nat)
    ensures n <= Whole(n) < n + 8
  {
  }

  /** Decoding meets a nil child exactly on the codes of some string that meets the limit, followed
      by thirty ones and at most one more bit. */
  lemma NilExactlyOnOnes(h: PrefixCode, bits: seq<bool>, maxLen: nat)
    requires h.Valid()
    ensures DecodeBits(h, bits, [], maxLen) == NilNode
       <==> exists s :: OnesAfter(h, bits, s) && (maxLen == 0 || |s| <= maxLen)
  {
    if DecodeBits(h, bits, [], maxLen) == NilNode {
      var s := NilWithin(h, bits, [], maxLen);
    }
    if s :| OnesAfter(h, bits, s) && (maxLen == 0 || |s| <= maxLen) {
      OnesMeanNil(h, bits, [], s, maxLen);
    }
  }

  // ---------------------------------------------------------------- the limit

  /** Once the limit is passed it is never met again. */
  lemma {:induction false} PastLimit(h: PrefixCode, bits: seq<bool>, out: seq<Byte>, maxLen: nat)
    requires h.Valid() && |out| > maxLen
    ensures DecodeBits(h, bits, out, maxLen) == DecodeBits(h, bits, out, 0)
    decreases |bits|
  {
    if h.Starts(bits) {
      var c := FirstSymbol(h, bits);
      SymbolShape(h, c);
      PastLimit(h, bits[h.Len(c)..], out + [c], maxLen);
    }
  }

  /** The bits begin with the codes of s and of one symbol more, and hold the whole bytes of that code. */
  ghost predicate OneMore(h: PrefixCode, bits: seq<bool>, s: seq<Byte>, c: Byte)
    requires h.Shaped()
  {
    && CodesOf(h, s) <= bits && h.CodeBits(c) <= bits[|CodesOf(h, s)|..]
    && |CodesOf(h, s)| + Whole(h.Len(c)) <= |bits|
  }

  ghost predicate TooMany(h: PrefixCode, bits: seq<bool>, m: nat)
    requires h.Shaped()
  {
    exists s: seq<Byte>, c: Byte :: |s| == m && OneMore(h, bits, s, c)
  }

  lemma OneMoreFirst(h: PrefixCode, bits: seq<bool>, c: Byte)
    requires h.Shaped()
    ensures OneMore(h, bits, [], c) <==> h.CodeBits(c) <= bits && Whole(h.Len(c)) <= |bits|
  {
    assert bits[0..] == bits;
  }

  lemma OneMoreCons(h: PrefixCode, bits: seq<bool>, a: Byte, s: seq<Byte>, c: Byte)
    requires h.Shaped() && h.CodeBits(a) <= bits
    ensures OneMore(h, bits, [a] + s, c) <==> OneMore(h, bits[h.Len(a)..], s, c)
  {
    var rest, m := bits[h.Len(a)..], |CodesOf(h, s)|;
    CodesCons(h, [a] + s);
    assert ([a] + s)[1..] == s;
    assert bits == h.CodeBits(a) + rest;
    ConsPrefix(h.CodeBits(a), CodesOf(h, s), rest);
    if m <= |rest| { assert bits[h.Len(a) + m..] == rest[m..]; }
  }

  lemma OneMoreStarts(h: PrefixCode, bits: seq<bool>, s: seq<Byte>, c: Byte)
    requires h.Shaped() && OneMore(h, bits, s, c)
    ensures h.CodeBits(if s == [] then c else s[0]) <= bits
  {
    if s == [] { OneMoreFirst(h, bits, c); } else { FrontCode(h, bits, s); }
  }

  lemma TooManyStarts(h: PrefixCode, bits: seq<bool>, m: nat)
    requires h.Shaped() && TooMany(h, bits, m)
    ensures h.Starts(bits)
  {
    var s, c :| |s| == m && OneMore(h, bits, s, c);
    OneMoreStarts(h, bits, s, c);
  }

  lemma TooManyNow(h: PrefixCode, bits: seq<bool>, a: Byte)
    requires h.Valid() && h.CodeBits(a) <= bits
    ensures TooMany(h, bits, 0) <==> Whole(h.Len(a)) <= |bits|
  {
    OneMoreFirst(h, bits, a);
    if Whole(h.Len(a)) <= |bits| {
      var s: seq<Byte> := [];
      assert |s| == 0 && OneMore(h, bits, s, a);
    }
    if TooMany(h, bits, 0) {
      var s: seq<Byte>, c :| |s| == 0 && OneMore(h, bits, s, c);
      assert s == [];
      OneMoreStarts(h, bits, s, c);
      CodeUnique(h, a, c, bits);
    }
  }

  lemma TooManyDown(h: PrefixCode, bits: seq<bool>, a: Byte, s: seq<Byte>, c: Byte)
    requires h.Valid() && h.CodeBits(a) <= bits && s != [] && OneMore(h, bits, s, c)
    ensures OneMore(h, bits[h.Len(a)..], s[1..], c)
  {
    OneMoreStarts(h, bits, s, c);
    CodeUnique(h, a, s[0], bits);
    assert s == [a] + s[1..];
    OneMoreCons(h, bits, a, s[1..], c);
  }

  lemma TooManyLater(h: PrefixCode, bits: seq<bool>, a: Byte, m: nat)
    requires h.Valid() && h.CodeBits(a) <= bits && m > 0
    ensures TooMany(h, bits, m) <==> TooMany(h, bits[h.Len(a)..], m - 1)
  {
    var rest := bits[h.Len(a)..];
    if TooMany(h, bits, m) {
      var s, c :| |s| == m && OneMore(h, bits, s, c);
      TooManyDown(h, bits, a, s, c);
      assert |s[1..]| == m - 1;
    }
    if TooMany(h, rest, m - 1) {
      var s, c :| |s| == m - 1 && OneMore(h, rest, s, c);
      OneMoreCons(h, bits, a, s, c);
      assert |[a] + s| == m;
    }
  }

  /** Room for m more symbols. */
  lemma {:induction false} LimitFrom(h: PrefixCode, bits: seq<bool>, out: seq<Byte>, m: nat)
    requires h.Valid() && |out| + m > 0
    ensures DecodeBits(h, bits, out, |out| + m)
         == if TooMany(h, bits, m) then StringTooLong else DecodeBits(h, bits, out, 0)
    decreases m
  {
    if TooMany(h, bits, m) { TooManyStarts(h, bits, m); }
    if h.Starts(bits) {
      var c := FirstSymbol(h, bits);
      var rest := bits[h.Len(c)..];
      DecodeStep(h, c, bits, out, 0);
      DecodeStep(h, c, bits, out, |out| + m);
      if m == 0 {
        TooManyNow(h, bits, c);
        PastLimit(h, rest, out + [c], |out|);
      } else {
        TooManyLater(h, bits, c, m);
        LimitFrom(h, rest, out + [c], m - 1);
      }
    }
  }

  /** On every input a limit changes the result exactly when the bits begin with codes of more symbols
      than it permits, the first of them too many with all its bytes. Then the string is too long. */
  lemma LimitExactly(h: PrefixCode, bits: seq<bool>, maxLen: nat)
    requires h.Valid() && maxLen > 0
    ensures DecodeBits(h, bits, [], maxLen)
         == if TooMany(h, bits, maxLen) then StringTooLong else DecodeBits(h, bits, [], 0)
  {
    LimitFrom(h, bits, [], maxLen);
  }

  // ---------------------------------------------------------------- an input

  const NIL_INPUT: seq<Byte> := [0x00, 0x3f, 0xff, 0xff, 0xff]

  lemma BytesBitsTwo(a: Byte, b: Byte)
    ensures BytesBits([a, b]) == ToBits(a, 8) + ToBits(b, 8)
  {
    BytesBitsOne(a);
    BytesBitsOne(b);
    BytesBitsAppend([a], [b]);
    assert [a] + [b] == [a, b];
  }

  lemma ZerosAndOnes()
    ensures ToBits(0, 8) == Repeat(false, 8) && ToBits(0xff, 8) == Repeat(true, 8)
    ensures ToBits(0x3f, 8) == Repeat(false, 2) + Repeat(true, 6)
  {
    Pow2Constants();
    ToBitsZero(8);
    ToBitsOnes(8);
    ToBitsSplit(0x3f, 2, 6);
    ToBitsZero(2);
    ToBitsOnes(6);
    assert Shr(0x3f, 6) == 0;
  }

  lemma NilInputBits()
    ensures BytesBits(NIL_INPUT) == Repeat(false, 10) + Repeat(true, 30)
  {
    BytesBitsTwo(0, 0x3f);
    BytesBitsTwo(0xff, 0xff);
    BytesBitsOne(0xff);
    BytesBitsAppend([0x00, 0x3f], [0xff, 0xff]);
    BytesBitsAppend([0x00, 0x3f] + [0xff, 0xff], [0xff]);
    assert NIL_INPUT == [0x00, 0x3f] + [0xff, 0xff] + [0xff];
    ZerosAndOnes();
    FiveRuns(false, true);
  }

  lemma FiveRuns(a: bool, b: bool)
    ensures Repeat(a, 8) + (Repeat(a, 2) + Repeat(b, 6)) + (Repeat(b, 8) + Repeat(b, 8)) + Repeat(b, 8)
         == Repeat(a, 10) + Repeat(b, 30)
  {
  }

  /** Two zero digits and thirty ones. */
  lemma NilOnInput()
    ensures HUFFMAN.Valid() && DecodeBits(HUFFMAN, BytesBits(NIL_INPUT), [], 0) == NilNode
  {
    HuffmanValid();
    NilInputBits();
    var h, s := HUFFMAN, [48, 48];
    ZeroDigits();
    OnesMeanNil(h, BytesBits(NIL_INPUT), [], s, 0);
  }

  /** The digit zero is five zero bits. */
  lemma ZeroDigits()
    ensures HUFFMAN.Shaped() && HUFFMAN.Len(48) == 5
    ensures CodesOf(HUFFMAN, [48]) == Repeat(false, 5) && CodesOf(HUFFMAN, [48, 48]) == Repeat(false, 10)
    ensures CodesOf(HUFFMAN, [48, 48, 48]) == Repeat(false, 15)
  {
    HuffmanValid();
    var h := HUFFMAN;
    assert h.Code(48) == 0 && h.Len(48) == 5;
    ToBitsZero(5);
    CodesCons(h, [48]);
    assert [48][1..] == [] && CodesOf(h, []) == [];
    CodesCons(h, [48, 48]);
    assert [48, 48][1..] == [48];
    CodesCons(h, [48, 48, 48]);
    assert [48, 48, 48][1..] == [48, 48];
  }

  lemma ZeroBytes()
    ensures BytesBits([0, 0]) == Repeat(false, 16)
  {
    BytesBitsTwo(0, 0);
    ToBitsZero(8);
  }

  /** Two zero bytes are three digits and a bit, and a limit of two does not stop them. */
  lemma LimitPassed()
    ensures HUFFMAN.Valid() && DecodeBits(HUFFMAN, BytesBits([0, 0]), [], 2) == HuffmanOk([48, 48, 48])
  {
    HuffmanValid();
    ZeroBytes();
    ZeroDigits();
    ThreeZeros(HUFFMAN, Repeat(false, 16));
  }

  /** One digit zero, under a limit of two. */
  lemma ZeroStep(h: PrefixCode, n: nat, out: seq<Byte>)
    requires h.Valid() && h.Len(48) == 5 && h.CodeBits(48) == Repeat(false, 5) && n >= 5 && (|out| == 2 ==> n < 8)
    ensures DecodeBits(h, Repeat(false, n), out, 2) == DecodeBits(h, Repeat(false, n - 5), out + [48], 2)
  {
    var b := Repeat(false, n);
    assert b[5..] == Repeat(false, n - 5) && Repeat(false, 5) <= b;
    DecodeStep(h, 48, b, out, 2);
  }

  lemma ThreeZeros(h: PrefixCode, bits: seq<bool>)
    requires h.Valid() && bits == Repeat(false, 16) && h.Len(48) == 5 && h.CodeBits(48) == Repeat(false, 5)
    ensures DecodeBits(h, bits, [], 2) == HuffmanOk([48, 48, 48])
  {
    ZeroStep(h, 16, []);
    ZeroStep(h, 11, [] + [48]);
    ZeroStep(h, 6, [] + [48] + [48]);
    ShortStartsNothing(h, Repeat(false, 1));
    assert [] + [48] + [48] + [48] == [48, 48, 48];
  }

  lemma ShortStartsNothing(h: PrefixCode, b: seq<bool>)
    requires h.Valid() && |b| < MIN_LEN
    ensures !h.Starts(b)
  {
    forall c: Byte ensures !(h.CodeBits(c) <= b) { SymbolShape(h, c); }
  }
}
