/** The Huffman code of HPACK (RFC 7541, appendix B). The package's two tables are
    written out row by row and checked against their canonical order: the codes of
    one length are consecutive, and the first code of a length continues where the
    shorter ones stopped. A canonical code is prefix-free and complete, so the
    tables satisfy everything that the Huffman coder assumes. */
module HpackHuffmanTables {
  import opened Bits
  import opened HpackPrefixCode

  // ---------------------------------------------------------------- the canonical order

  /** The first code of each length. */
  function First(l: nat): nat {
    match l
    case 5 => 0x0 case 6 => 0x14 case 7 => 0x5c case 8 => 0xf8 case 9 => 0x1fc case 10 => 0x3f8 case 11 => 0x7fa
    case 12 => 0xffa case 13 => 0x1ff8 case 14 => 0x3ffc case 15 => 0x7ffc case 16 => 0xfffe case 17 => 0x1fffc
    case 18 => 0x3fff8
    case 19 => 0x7fff0 case 20 => 0xfffe6 case 21 => 0x1fffdc case 22 => 0x3fffd2 case 23 => 0x7fffd8
    case 24 => 0xffffea case 25 => 0x1ffffec
    case 26 => 0x3ffffe0 case 27 => 0x7ffffde case 28 => 0xfffffe2 case 29 => 0x1ffffffe case _ => 0x3ffffffc
  }

  /** How many codes have each length. */
  function Count(l: nat): nat {
    match l
    case 5 => 10 case 6 => 26 case 7 => 32 case 8 => 6 case 9 => 0 case 10 => 5 case 11 => 3 case 12 => 2
    case 13 => 6 case 14 => 2
    case 15 => 3 case 16 => 0 case 17 => 0 case 18 => 0 case 19 => 3 case 20 => 8 case 21 => 13 case 22 => 26
    case 23 => 29 case 24 => 12
    case 25 => 4 case 26 => 15 case 27 => 19 case 28 => 29 case 29 => 0 case _ => 3
  }

  /** How many codes are shorter than l bits. */
  function Offset(l: nat): nat {
    match l
    case 5 => 0 case 6 => 10 case 7 => 36 case 8 => 68 case 9 => 74 case 10 => 74 case 11 => 79 case 12 => 82
    case 13 => 84 case 14 => 90
    case 15 => 92 case 16 => 95 case 17 => 95 case 18 => 95 case 19 => 95 case 20 => 98 case 21 => 106 case 22 => 119
    case 23 => 145 case 24 => 174
    case 25 => 186 case 26 => 190 case 27 => 205 case 28 => 224 case 29 => 253 case _ => 253
  }

  function End(l: nat): nat { First(l) + Count(l) }

  /** The rule of a canonical code, length by length. */
  lemma Canonical(l: nat)
    requires MIN_LEN <= l <= MAX_LEN
    ensures l < MAX_LEN ==> First(l + 1) == 2 * End(l) && Offset(l + 1) == Offset(l) + Count(l)
    ensures First(MIN_LEN) == 0 && Offset(MIN_LEN) == 0
    ensures End(MAX_LEN) == 0x3fff_ffff && Offset(MAX_LEN) + Count(MAX_LEN) == 256
  {
  }

  /** The codes of a longer length lie, left-aligned, after all shorter ones. */
  lemma {:induction false} EndsOrdered(l: nat, m: nat)
    requires MIN_LEN <= l < m <= MAX_LEN
    ensures End(l) * Pow2(m - l) <= First(m)
    ensures Offset(l) + Count(l) <= Offset(m)
    decreases m
  {
    Canonical(m - 1);
    if l < m - 1 {
      EndsOrdered(l, m - 1);
      Doubled(End(l), m - l);
    }
  }

  lemma Doubled(x: nat, n: nat)
    requires n > 0
    ensures x * Pow2(n) == 2 * (x * Pow2(n - 1))
  {
  }

  /** No code consists of ones only; in particular every code fits its length. */
  lemma EndBound(l: nat)
    requires MIN_LEN <= l <= MAX_LEN
    ensures End(l) < Pow2(l)
  {
    Pow2Constants();
    Canonical(MAX_LEN);
    if l < MAX_LEN {
      EndsOrdered(l, MAX_LEN);
      MulStep(Pow2(l), End(l), Pow2(MAX_LEN - l));
      Pow2Add(l, MAX_LEN - l);
    }
  }

  /** The length of the k-th code in canonical order. */
  function PlaceLen(k: nat): nat {
    if k < 10 then 5
    else if k < 36 then 6
    else if k < 68 then 7
    else if k < 74 then 8
    else if k < 79 then 10
    else if k < 82 then 11
    else if k < 84 then 12
    else if k < 90 then 13
    else if k < 92 then 14
    else if k < 95 then 15
    else if k < 98 then 19
    else if k < 106 then 20
    else if k < 119 then 21
    else if k < 145 then 22
    else if k < 174 then 23
    else if k < 186 then 24
    else if k < 190 then 25
    else if k < 205 then 26
    else if k < 224 then 27
    else if k < 253 then 28
    else 30
  }

  /** The k-th code in canonical order. */
  function PlaceCode(k: nat): int {
    if k < 10 then 0x0 + (k - 0)
    else if k < 36 then 0x14 + (k - 10)
    else if k < 68 then 0x5c + (k - 36)
    else if k < 74 then 0xf8 + (k - 68)
    else if k < 79 then 0x3f8 + (k - 74)
    else if k < 82 then 0x7fa + (k - 79)
    else if k < 84 then 0xffa + (k - 82)
    else if k < 90 then 0x1ff8 + (k - 84)
    else if k < 92 then 0x3ffc + (k - 90)
    else if k < 95 then 0x7ffc + (k - 92)
    else if k < 98 then 0x7fff0 + (k - 95)
    else if k < 106 then 0xfffe6 + (k - 98)
    else if k < 119 then 0x1fffdc + (k - 106)
    else if k < 145 then 0x3fffd2 + (k - 119)
    else if k < 174 then 0x7fffd8 + (k - 145)
    else if k < 186 then 0xffffea + (k - 174)
    else if k < 190 then 0x1ffffec + (k - 186)
    else if k < 205 then 0x3ffffe0 + (k - 190)
    else if k < 224 then 0x7ffffde + (k - 205)
    else if k < 253 then 0xfffffe2 + (k - 224)
    else 0x3ffffffc + (k - 253)
  }

  lemma PlaceRange(k: Byte)
    ensures var l := PlaceLen(k);
      && MIN_LEN <= l <= MAX_LEN
      && First(l) <= PlaceCode(k) < End(l)
      && k == Offset(l) + PlaceCode(k) - First(l)
  {
  }

  lemma PlaceShape(k: Byte)
    ensures var l := PlaceLen(k);
      && MIN_LEN <= l <= MAX_LEN
      && First(l) <= PlaceCode(k) < End(l)
      && k == Offset(l) + PlaceCode(k) - First(l)
      && PlaceCode(k) + 1 < Pow2(l)
  {
    PlaceRange(k);
    EndBound(PlaceLen(k));
  }

  /** The bits of the code in place k. */
  function PlaceBits(k: Byte): seq<bool> {
    PlaceShape(k);
    ToBits(PlaceCode(k), PlaceLen(k))
  }

  lemma PlacePrefixFree(k: Byte, k': Byte)
    requires PlaceBits(k) <= PlaceBits(k')
    ensures k == k'
  {
    PlaceShape(k);
    PlaceShape(k');
    var l, l' := PlaceLen(k), PlaceLen(k');
    ShiftedCode(PlaceCode(k), l, PlaceCode(k'), l');
    if l < l' {
      StartsLater(PlaceCode(k), l, PlaceCode(k'), l');
    }
  }

  lemma ShiftedCode(c: nat, l: nat, c': nat, l': nat)
    requires l <= l' && c < Pow2(l) && c' < Pow2(l') && ToBits(c, l) <= ToBits(c', l')
    ensures c == Shr(c', l' - l)
  {
    var m := l' - l;
    ToBitsSplit(c', l, m);
    ShrIsDiv(c', m);
    Pow2Add(l, m);
    MulStep(Pow2(l), c' / Pow2(m), Pow2(m));
    ToBitsInjective(c, Shr(c', m), l);
  }

  lemma StartsLater(c: nat, l: nat, c': nat, l': nat)
    requires MIN_LEN <= l < l' <= MAX_LEN && c < End(l) && First(l') <= c'
    ensures c < Shr(c', l' - l)
  {
    EndsOrdered(l, l');
    ShrIsDiv(c', l' - l);
    AtLeast(c', Pow2(l' - l), End(l));
  }

  lemma AtLeast(x: nat, p: nat, e: nat)
    requires p > 0 && e * p <= x
    ensures x / p >= e
  {
    MulStep(x / p, e, p);
  }

  lemma PlaceNotOnes(k: Byte)
    ensures PlaceBits(k) != Repeat(true, PlaceLen(k))
  {
    PlaceShape(k);
    var l := PlaceLen(k);
    ToBitsOnes(l);
    if PlaceBits(k) == Repeat(true, l) {
      ToBitsInjective(PlaceCode(k), Pow2(l) - 1, l);
    }
  }

  /** Every code value of every length is taken. */
  lemma PlaceOfCode(l: nat, c: nat) returns (k: Byte)
    requires MIN_LEN <= l <= MAX_LEN && First(l) <= c < End(l)
    ensures PlaceLen(k) == l && PlaceCode(k) == c
  {
    Canonical(MAX_LEN);
    if l < MAX_LEN { EndsOrdered(l, MAX_LEN); }
    k := Offset(l) + c - First(l);
    PlaceShape(k);
    var l' := PlaceLen(k);
    if l' < l { EndsOrdered(l', l); }
    if l' > l { EndsOrdered(l, l'); }
  }

  /** Canonical decoding: the first length at which v is below the end of the codes. */
  lemma {:induction false} PlaceComplete(v: nat, l: nat) returns (k: Byte)
    requires v < 0x3fff_ffff && MIN_LEN <= l <= MAX_LEN
    requires First(l) <= Shr(v, MAX_LEN - l)
    ensures PlaceBits(k) <= ToBits(v, MAX_LEN)
    decreases MAX_LEN - l
  {
    var c := Shr(v, MAX_LEN - l);
    Canonical(l);
    if c < End(l) {
      k := PlaceOfCode(l, c);
      ToBitsSplit(v, l, MAX_LEN - l);
    } else {
      ShrStep(v, MAX_LEN - l);
      k := PlaceComplete(v, l + 1);
    }
  }

  lemma {:induction false} ShrStep(v: nat, m: nat)
    requires m > 0
    ensures Shr(v, m) == Shr(v, m - 1) / 2
  {
    if m > 1 { ShrStep(v / 2, m - 1); }
  }

  // ---------------------------------------------------------------- the tables, checked row by row

  /** huffmanCodes, sixteen symbols to a row. */
  const HUFFMAN_CODES: seq<seq<nat>> := [
    [0x1ff8, 0x7fffd8, 0xfffffe2, 0xfffffe3, 0xfffffe4, 0xfffffe5, 0xfffffe6, 0xfffffe7, 0xfffffe8, 0xffffea,
     0x3ffffffc, 0xfffffe9, 0xfffffea, 0x3ffffffd, 0xfffffeb, 0xfffffec],
    [0xfffffed, 0xfffffee, 0xfffffef, 0xffffff0, 0xffffff1, 0xffffff2, 0x3ffffffe, 0xffffff3, 0xffffff4, 0xffffff5,
     0xffffff6, 0xffffff7, 0xffffff8, 0xffffff9, 0xffffffa, 0xffffffb],
    [0x14, 0x3f8, 0x3f9, 0xffa, 0x1ff9, 0x15, 0xf8, 0x7fa, 0x3fa, 0x3fb, 0xf9, 0x7fb, 0xfa, 0x16, 0x17, 0x18],
    [0x0, 0x1, 0x2, 0x19, 0x1a, 0x1b, 0x1c, 0x1d, 0x1e, 0x1f, 0x5c, 0xfb, 0x7ffc, 0x20, 0xffb, 0x3fc],
    [0x1ffa, 0x21, 0x5d, 0x5e, 0x5f, 0x60, 0x61, 0x62, 0x63, 0x64, 0x65, 0x66, 0x67, 0x68, 0x69, 0x6a],
    [0x6b, 0x6c, 0x6d, 0x6e, 0x6f, 0x70, 0x71, 0x72, 0xfc, 0x73, 0xfd, 0x1ffb, 0x7fff0, 0x1ffc, 0x3ffc, 0x22],
    [0x7ffd, 0x3, 0x23, 0x4, 0x24, 0x5, 0x25, 0x26, 0x27, 0x6, 0x74, 0x75, 0x28, 0x29, 0x2a, 0x7],
    [0x2b, 0x76, 0x2c, 0x8, 0x9, 0x2d, 0x77, 0x78, 0x79, 0x7a, 0x7b, 0x7ffe, 0x7fc, 0x3ffd, 0x1ffd, 0xffffffc],
    [0xfffe6, 0x3fffd2, 0xfffe7, 0xfffe8, 0x3fffd3, 0x3fffd4, 0x3fffd5, 0x7fffd9, 0x3fffd6, 0x7fffda, 0x7fffdb,
     0x7fffdc, 0x7fffdd, 0x7fffde, 0xffffeb, 0x7fffdf],
    [0xffffec, 0xffffed, 0x3fffd7, 0x7fffe0, 0xffffee, 0x7fffe1, 0x7fffe2, 0x7fffe3, 0x7fffe4, 0x1fffdc, 0x3fffd8,
     0x7fffe5, 0x3fffd9, 0x7fffe6, 0x7fffe7, 0xffffef],
    [0x3fffda, 0x1fffdd, 0xfffe9, 0x3fffdb, 0x3fffdc, 0x7fffe8, 0x7fffe9, 0x1fffde, 0x7fffea, 0x3fffdd, 0x3fffde,
     0xfffff0, 0x1fffdf, 0x3fffdf, 0x7fffeb, 0x7fffec],
    [0x1fffe0, 0x1fffe1, 0x3fffe0, 0x1fffe2, 0x7fffed, 0x3fffe1, 0x7fffee, 0x7fffef, 0xfffea, 0x3fffe2, 0x3fffe3,
     0x3fffe4, 0x7ffff0, 0x3fffe5, 0x3fffe6, 0x7ffff1],
    [0x3ffffe0, 0x3ffffe1, 0xfffeb, 0x7fff1, 0x3fffe7, 0x7ffff2, 0x3fffe8, 0x1ffffec, 0x3ffffe2, 0x3ffffe3,
     0x3ffffe4, 0x7ffffde, 0x7ffffdf, 0x3ffffe5, 0xfffff1, 0x1ffffed],
    [0x7fff2, 0x1fffe3, 0x3ffffe6, 0x7ffffe0, 0x7ffffe1, 0x3ffffe7, 0x7ffffe2, 0xfffff2, 0x1fffe4, 0x1fffe5,
     0x3ffffe8, 0x3ffffe9, 0xffffffd, 0x7ffffe3, 0x7ffffe4, 0x7ffffe5],
    [0xfffec, 0xfffff3, 0xfffed, 0x1fffe6, 0x3fffe9, 0x1fffe7, 0x1fffe8, 0x7ffff3, 0x3fffea, 0x3fffeb, 0x1ffffee,
     0x1ffffef, 0xfffff4, 0xfffff5, 0x3ffffea, 0x7ffff4],
    [0x3ffffeb, 0x7ffffe6, 0x3ffffec, 0x3ffffed, 0x7ffffe7, 0x7ffffe8, 0x7ffffe9, 0x7ffffea, 0x7ffffeb, 0xffffffe,
     0x7ffffec, 0x7ffffed, 0x7ffffee, 0x7ffffef, 0x7fffff0, 0x3ffffee]
  ]

  /** huffmanCodeLen, sixteen symbols to a row. */
  const HUFFMAN_CODE_LEN: seq<seq<nat>> := [
    [13, 23, 28, 28, 28, 28, 28, 28, 28, 24, 30, 28, 28, 30, 28, 28],
    [28, 28, 28, 28, 28, 28, 30, 28, 28, 28, 28, 28, 28, 28, 28, 28],
    [6, 10, 10, 12, 13, 6, 8, 11, 10, 10, 8, 11, 8, 6, 6, 6],
    [5, 5, 5, 6, 6, 6, 6, 6, 6, 6, 7, 8, 15, 6, 12, 10],
    [13, 6, 7, 7, 7, 7, 7, 7, 7, 7, 7, 7, 7, 7, 7, 7],
    [7, 7, 7, 7, 7, 7, 7, 7, 8, 7, 8, 13, 19, 13, 14, 6],
    [15, 5, 6, 5, 6, 5, 6, 6, 6, 5, 7, 7, 6, 6, 6, 5],
    [6, 7, 6, 5, 5, 6, 7, 7, 7, 7, 7, 15, 11, 14, 13, 28],
    [20, 22, 20, 20, 22, 22, 22, 23, 22, 23, 23, 23, 23, 23, 24, 23],
    [24, 24, 22, 23, 24, 23, 23, 23, 23, 21, 22, 23, 22, 23, 23, 24],
    [22, 21, 20, 22, 22, 23, 23, 21, 23, 22, 22, 24, 21, 22, 23, 23],
    [21, 21, 22, 21, 23, 22, 23, 23, 20, 22, 22, 22, 23, 22, 22, 23],
    [26, 26, 20, 19, 22, 23, 22, 25, 26, 26, 26, 27, 27, 26, 24, 25],
    [19, 21, 26, 27, 27, 26, 27, 24, 21, 21, 26, 26, 28, 27, 27, 27],
    [20, 24, 20, 21, 22, 21, 21, 23, 22, 22, 25, 25, 24, 24, 26, 23],
    [26, 27, 26, 26, 27, 27, 27, 27, 27, 28, 27, 27, 27, 27, 27, 26]
  ]

  /** The symbols in canonical order: by length, then by code. */
  const CANONICAL: seq<seq<nat>> := [
    [48, 49, 50, 97, 99, 101, 105, 111, 115, 116, 32, 37, 45, 46, 47, 51],
    [52, 53, 54, 55, 56, 57, 61, 65, 95, 98, 100, 102, 103, 104, 108, 109],
    [110, 112, 114, 117, 58, 66, 67, 68, 69, 70, 71, 72, 73, 74, 75, 76],
    [77, 78, 79, 80, 81, 82, 83, 84, 85, 86, 87, 89, 106, 107, 113, 118],
    [119, 120, 121, 122, 38, 42, 44, 59, 88, 90, 33, 34, 40, 41, 63, 39],
    [43, 124, 35, 62, 0, 36, 64, 91, 93, 126, 94, 125, 60, 96, 123, 92],
    [195, 208, 128, 130, 131, 162, 184, 194, 224, 226, 153, 161, 167, 172, 176, 177],
    [179, 209, 216, 217, 227, 229, 230, 129, 132, 133, 134, 136, 146, 154, 156, 160],
    [163, 164, 169, 170, 173, 178, 181, 185, 186, 187, 189, 190, 196, 198, 228, 232],
    [233, 1, 135, 137, 138, 139, 140, 141, 143, 147, 149, 150, 151, 152, 155, 157],
    [158, 165, 166, 168, 174, 175, 180, 182, 183, 188, 191, 197, 231, 239, 9, 142],
    [144, 145, 148, 159, 171, 206, 215, 225, 236, 237, 199, 207, 234, 235, 192, 193],
    [200, 201, 202, 205, 210, 213, 218, 219, 238, 240, 242, 243, 255, 203, 204, 211],
    [212, 214, 221, 222, 223, 241, 244, 245, 246, 247, 248, 250, 251, 252, 253, 254],
    [2, 3, 4, 5, 6, 7, 8, 11, 12, 14, 15, 16, 17, 18, 19, 20],
    [21, 23, 24, 25, 26, 27, 28, 29, 30, 31, 127, 220, 249, 10, 13, 22]
  ]

  lemma TableShapes()
    ensures |HUFFMAN_CODES| == |HUFFMAN_CODE_LEN| == |CANONICAL| == 16
    ensures forall r :: 0 <= r < 16 ==> |HUFFMAN_CODES[r]| == |HUFFMAN_CODE_LEN[r]| == |CANONICAL[r]| == 16
  {
  }

  function HuffmanCode(s: Byte): nat {
    TableShapes();
    HUFFMAN_CODES[s / 16][s % 16]
  }

  function HuffmanCodeLen(s: Byte): nat {
    TableShapes();
    HUFFMAN_CODE_LEN[s / 16][s % 16]
  }

  function SymbolAt(k: Byte): nat {
    TableShapes();
    CANONICAL[k / 16][k % 16]
  }

  /** The symbol in canonical place k has the length and the code of that place. */
  ghost predicate Placed(k: Byte) {
    && SymbolAt(k) < 256
    && HuffmanCodeLen(SymbolAt(k)) == PlaceLen(k)
    && HuffmanCode(SymbolAt(k)) == PlaceCode(k)
    && (k < 255 && PlaceLen(k) == PlaceLen(k + 1) ==> SymbolAt(k) < SymbolAt(k + 1))
  }

  lemma Places0(k: Byte)
    requires 0 <= k < 4
    ensures Placed(k)
  {
    assert SymbolAt(0) == 48 && HuffmanCodeLen(48) == 5 && HuffmanCode(48) == 0x0;
    assert SymbolAt(1) == 49 && HuffmanCodeLen(49) == 5 && HuffmanCode(49) == 0x1;
    assert SymbolAt(2) == 50 && HuffmanCodeLen(50) == 5 && HuffmanCode(50) == 0x2;
    assert SymbolAt(3) == 97 && HuffmanCodeLen(97) == 5 && HuffmanCode(97) == 0x3;
    assert SymbolAt(4) == 99;
  }

  lemma Places1(k: Byte)
    requires 4 <= k < 8
    ensures Placed(k)
  {
    assert SymbolAt(4) == 99 && HuffmanCodeLen(99) == 5 && HuffmanCode(99) == 0x4;
    assert SymbolAt(5) == 101 && HuffmanCodeLen(101) == 5 && HuffmanCode(101) == 0x5;
    assert SymbolAt(6) == 105 && HuffmanCodeLen(105) == 5 && HuffmanCode(105) == 0x6;
    assert SymbolAt(7) == 111 && HuffmanCodeLen(111) == 5 && HuffmanCode(111) == 0x7;
    assert SymbolAt(8) == 115;
  }

  lemma Places2(k: Byte)
    requires 8 <= k < 12
    ensures Placed(k)
  {
    assert SymbolAt(8) == 115 && HuffmanCodeLen(115) == 5 && HuffmanCode(115) == 0x8;
    assert SymbolAt(9) == 116 && HuffmanCodeLen(116) == 5 && HuffmanCode(116) == 0x9;
    assert SymbolAt(10) == 32 && HuffmanCodeLen(32) == 6 && HuffmanCode(32) == 0x14;
    assert SymbolAt(11) == 37 && HuffmanCodeLen(37) == 6 && HuffmanCode(37) == 0x15;
    assert SymbolAt(12) == 45;
  }

  lemma Places3(k: Byte)
    requires 12 <= k < 16
    ensures Placed(k)
  {
    assert SymbolAt(12) == 45 && HuffmanCodeLen(45) == 6 && HuffmanCode(45) == 0x16;
    assert SymbolAt(13) == 46 && HuffmanCodeLen(46) == 6 && HuffmanCode(46) == 0x17;
    assert SymbolAt(14) == 47 && HuffmanCodeLen(47) == 6 && HuffmanCode(47) == 0x18;
    assert SymbolAt(15) == 51 && HuffmanCodeLen(51) == 6 && HuffmanCode(51) == 0x19;
    assert SymbolAt(16) == 52;
  }

  lemma Places4(k: Byte)
    requires 16 <= k < 20
    ensures Placed(k)
  {
    assert SymbolAt(16) == 52 && HuffmanCodeLen(52) == 6 && HuffmanCode(52) == 0x1a;
    assert SymbolAt(17) == 53 && HuffmanCodeLen(53) == 6 && HuffmanCode(53) == 0x1b;
    assert SymbolAt(18) == 54 && HuffmanCodeLen(54) == 6 && HuffmanCode(54) == 0x1c;
    assert SymbolAt(19) == 55 && HuffmanCodeLen(55) == 6 && HuffmanCode(55) == 0x1d;
    assert SymbolAt(20) == 56;
  }

  lemma Places5(k: Byte)
    requires 20 <= k < 24
    ensures Placed(k)
  {
    assert SymbolAt(20) == 56 && HuffmanCodeLen(56) == 6 && HuffmanCode(56) == 0x1e;
    assert SymbolAt(21) == 57 && HuffmanCodeLen(57) == 6 && HuffmanCode(57) == 0x1f;
    assert SymbolAt(22) == 61 && HuffmanCodeLen(61) == 6 && HuffmanCode(61) == 0x20;
    assert SymbolAt(23) == 65 && HuffmanCodeLen(65) == 6 && HuffmanCode(65) == 0x21;
    assert SymbolAt(24) == 95;
  }

  lemma Places6(k: Byte)
    requires 24 <= k < 28
    ensures Placed(k)
  {
    assert SymbolAt(24) == 95 && HuffmanCodeLen(95) == 6 && HuffmanCode(95) == 0x22;
    assert SymbolAt(25) == 98 && HuffmanCodeLen(98) == 6 && HuffmanCode(98) == 0x23;
    assert SymbolAt(26) == 100 && HuffmanCodeLen(100) == 6 && HuffmanCode(100) == 0x24;
    assert SymbolAt(27) == 102 && HuffmanCodeLen(102) == 6 && HuffmanCode(102) == 0x25;
    assert SymbolAt(28) == 103;
  }

  lemma Places7(k: Byte)
    requires 28 <= k < 32
    ensures Placed(k)
  {
    assert SymbolAt(28) == 103 && HuffmanCodeLen(103) == 6 && HuffmanCode(103) == 0x26;
    assert SymbolAt(29) == 104 && HuffmanCodeLen(104) == 6 && HuffmanCode(104) == 0x27;
    assert SymbolAt(30) == 108 && HuffmanCodeLen(108) == 6 && HuffmanCode(108) == 0x28;
    assert SymbolAt(31) == 109 && HuffmanCodeLen(109) == 6 && HuffmanCode(109) == 0x29;
    assert SymbolAt(32) == 110;
  }

  lemma Places8(k: Byte)
    requires 32 <= k < 36
    ensures Placed(k)
  {
    assert SymbolAt(32) == 110 && HuffmanCodeLen(110) == 6 && HuffmanCode(110) == 0x2a;
    assert SymbolAt(33) == 112 && HuffmanCodeLen(112) == 6 && HuffmanCode(112) == 0x2b;
    assert SymbolAt(34) == 114 && HuffmanCodeLen(114) == 6 && HuffmanCode(114) == 0x2c;
    assert SymbolAt(35) == 117 && HuffmanCodeLen(117) == 6 && HuffmanCode(117) == 0x2d;
    assert SymbolAt(36) == 58;
  }

  lemma Places9(k: Byte)
    requires 36 <= k < 40
    ensures Placed(k)
  {
    assert SymbolAt(36) == 58 && HuffmanCodeLen(58) == 7 && HuffmanCode(58) == 0x5c;
    assert SymbolAt(37) == 66 && HuffmanCodeLen(66) == 7 && HuffmanCode(66) == 0x5d;
    assert SymbolAt(38) == 67 && HuffmanCodeLen(67) == 7 && HuffmanCode(67) == 0x5e;
    assert SymbolAt(39) == 68 && HuffmanCodeLen(68) == 7 && HuffmanCode(68) == 0x5f;
    assert SymbolAt(40) == 69;
  }

  lemma Places10(k: Byte)
    requires 40 <= k < 44
    ensures Placed(k)
  {
    assert SymbolAt(40) == 69 && HuffmanCodeLen(69) == 7 && HuffmanCode(69) == 0x60;
    assert SymbolAt(41) == 70 && HuffmanCodeLen(70) == 7 && HuffmanCode(70) == 0x61;
    assert SymbolAt(42) == 71 && HuffmanCodeLen(71) == 7 && HuffmanCode(71) == 0x62;
    assert SymbolAt(43) == 72 && HuffmanCodeLen(72) == 7 && HuffmanCode(72) == 0x63;
    assert SymbolAt(44) == 73;
  }

  lemma Places11(k: Byte)
    requires 44 <= k < 48
    ensures Placed(k)
  {
    assert SymbolAt(44) == 73 && HuffmanCodeLen(73) == 7 && HuffmanCode(73) == 0x64;
    assert SymbolAt(45) == 74 && HuffmanCodeLen(74) == 7 && HuffmanCode(74) == 0x65;
    assert SymbolAt(46) == 75 && HuffmanCodeLen(75) == 7 && HuffmanCode(75) == 0x66;
    assert SymbolAt(47) == 76 && HuffmanCodeLen(76) == 7 && HuffmanCode(76) == 0x67;
    assert SymbolAt(48) == 77;
  }

  lemma Places12(k: Byte)
    requires 48 <= k < 52
    ensures Placed(k)
  {
    assert SymbolAt(48) == 77 && HuffmanCodeLen(77) == 7 && HuffmanCode(77) == 0x68;
    assert SymbolAt(49) == 78 && HuffmanCodeLen(78) == 7 && HuffmanCode(78) == 0x69;
    assert SymbolAt(50) == 79 && HuffmanCodeLen(79) == 7 && HuffmanCode(79) == 0x6a;
    assert SymbolAt(51) == 80 && HuffmanCodeLen(80) == 7 && HuffmanCode(80) == 0x6b;
    assert SymbolAt(52) == 81;
  }

  lemma Places13(k: Byte)
    requires 52 <= k < 56
    ensures Placed(k)
  {
    assert SymbolAt(52) == 81 && HuffmanCodeLen(81) == 7 && HuffmanCode(81) == 0x6c;
    assert SymbolAt(53) == 82 && HuffmanCodeLen(82) == 7 && HuffmanCode(82) == 0x6d;
    assert SymbolAt(54) == 83 && HuffmanCodeLen(83) == 7 && HuffmanCode(83) == 0x6e;
    assert SymbolAt(55) == 84 && HuffmanCodeLen(84) == 7 && HuffmanCode(84) == 0x6f;
    assert SymbolAt(56) == 85;
  }

  lemma Places14(k: Byte)
    requires 56 <= k < 60
    ensures Placed(k)
  {
    assert SymbolAt(56) == 85 && HuffmanCodeLen(85) == 7 && HuffmanCode(85) == 0x70;
    assert SymbolAt(57) == 86 && HuffmanCodeLen(86) == 7 && HuffmanCode(86) == 0x71;
    assert SymbolAt(58) == 87 && HuffmanCodeLen(87) == 7 && HuffmanCode(87) == 0x72;
    assert SymbolAt(59) == 89 && HuffmanCodeLen(89) == 7 && HuffmanCode(89) == 0x73;
    assert SymbolAt(60) == 106;
  }

  lemma Places15(k: Byte)
    requires 60 <= k < 64
    ensures Placed(k)
  {
    assert SymbolAt(60) == 106 && HuffmanCodeLen(106) == 7 && HuffmanCode(106) == 0x74;
    assert SymbolAt(61) == 107 && HuffmanCodeLen(107) == 7 && HuffmanCode(107) == 0x75;
    assert SymbolAt(62) == 113 && HuffmanCodeLen(113) == 7 && HuffmanCode(113) == 0x76;
    assert SymbolAt(63) == 118 && HuffmanCodeLen(118) == 7 && HuffmanCode(118) == 0x77;
    assert SymbolAt(64) == 119;
  }

  lemma Places16(k: Byte)
    requires 64 <= k < 68
    ensures Placed(k)
  {
    assert SymbolAt(64) == 119 && HuffmanCodeLen(119) == 7 && HuffmanCode(119) == 0x78;
    assert SymbolAt(65) == 120 && HuffmanCodeLen(120) == 7 && HuffmanCode(120) == 0x79;
    assert SymbolAt(66) == 121 && HuffmanCodeLen(121) == 7 && HuffmanCode(121) == 0x7a;
    assert SymbolAt(67) == 122 && HuffmanCodeLen(122) == 7 && HuffmanCode(122) == 0x7b;
    assert SymbolAt(68) == 38;
  }

  lemma Places17(k: Byte)
    requires 68 <= k < 72
    ensures Placed(k)
  {
    assert SymbolAt(68) == 38 && HuffmanCodeLen(38) == 8 && HuffmanCode(38) == 0xf8;
    assert SymbolAt(69) == 42 && HuffmanCodeLen(42) == 8 && HuffmanCode(42) == 0xf9;
    assert SymbolAt(70) == 44 && HuffmanCodeLen(44) == 8 && HuffmanCode(44) == 0xfa;
    assert SymbolAt(71) == 59 && HuffmanCodeLen(59) == 8 && HuffmanCode(59) == 0xfb;
    assert SymbolAt(72) == 88;
  }

  lemma Places18(k: Byte)
    requires 72 <= k < 76
    ensures Placed(k)
  {
    assert SymbolAt(72) == 88 && HuffmanCodeLen(88) == 8 && HuffmanCode(88) == 0xfc;
    assert SymbolAt(73) == 90 && HuffmanCodeLen(90) == 8 && HuffmanCode(90) == 0xfd;
    assert SymbolAt(74) == 33 && HuffmanCodeLen(33) == 10 && HuffmanCode(33) == 0x3f8;
    assert SymbolAt(75) == 34 && HuffmanCodeLen(34) == 10 && HuffmanCode(34) == 0x3f9;
    assert SymbolAt(76) == 40;
  }

  lemma Places19(k: Byte)
    requires 76 <= k < 80
    ensures Placed(k)
  {
    assert SymbolAt(76) == 40 && HuffmanCodeLen(40) == 10 && HuffmanCode(40) == 0x3fa;
    assert SymbolAt(77) == 41 && HuffmanCodeLen(41) == 10 && HuffmanCode(41) == 0x3fb;
    assert SymbolAt(78) == 63 && HuffmanCodeLen(63) == 10 && HuffmanCode(63) == 0x3fc;
    assert SymbolAt(79) == 39 && HuffmanCodeLen(39) == 11 && HuffmanCode(39) == 0x7fa;
    assert SymbolAt(80) == 43;
  }

  lemma Places20(k: Byte)
    requires 80 <= k < 84
    ensures Placed(k)
  {
    assert SymbolAt(80) == 43 && HuffmanCodeLen(43) == 11 && HuffmanCode(43) == 0x7fb;
    assert SymbolAt(81) == 124 && HuffmanCodeLen(124) == 11 && HuffmanCode(124) == 0x7fc;
    assert SymbolAt(82) == 35 && HuffmanCodeLen(35) == 12 && HuffmanCode(35) == 0xffa;
    assert SymbolAt(83) == 62 && HuffmanCodeLen(62) == 12 && HuffmanCode(62) == 0xffb;
    assert SymbolAt(84) == 0;
  }

  lemma Places21(k: Byte)
    requires 84 <= k < 88
    ensures Placed(k)
  {
    assert SymbolAt(84) == 0 && HuffmanCodeLen(0) == 13 && HuffmanCode(0) == 0x1ff8;
    assert SymbolAt(85) == 36 && HuffmanCodeLen(36) == 13 && HuffmanCode(36) == 0x1ff9;
    assert SymbolAt(86) == 64 && HuffmanCodeLen(64) == 13 && HuffmanCode(64) == 0x1ffa;
    assert SymbolAt(87) == 91 && HuffmanCodeLen(91) == 13 && HuffmanCode(91) == 0x1ffb;
    assert SymbolAt(88) == 93;
  }

  lemma Places22(k: Byte)
    requires 88 <= k < 92
    ensures Placed(k)
  {
    assert SymbolAt(88) == 93 && HuffmanCodeLen(93) == 13 && HuffmanCode(93) == 0x1ffc;
    assert SymbolAt(89) == 126 && HuffmanCodeLen(126) == 13 && HuffmanCode(126) == 0x1ffd;
    assert SymbolAt(90) == 94 && HuffmanCodeLen(94) == 14 && HuffmanCode(94) == 0x3ffc;
    assert SymbolAt(91) == 125 && HuffmanCodeLen(125) == 14 && HuffmanCode(125) == 0x3ffd;
    assert SymbolAt(92) == 60;
  }

  lemma Places23(k: Byte)
    requires 92 <= k < 96
    ensures Placed(k)
  {
    assert SymbolAt(92) == 60 && HuffmanCodeLen(60) == 15 && HuffmanCode(60) == 0x7ffc;
    assert SymbolAt(93) == 96 && HuffmanCodeLen(96) == 15 && HuffmanCode(96) == 0x7ffd;
    assert SymbolAt(94) == 123 && HuffmanCodeLen(123) == 15 && HuffmanCode(123) == 0x7ffe;
    assert SymbolAt(95) == 92 && HuffmanCodeLen(92) == 19 && HuffmanCode(92) == 0x7fff0;
    assert SymbolAt(96) == 195;
  }

  lemma Places24(k: Byte)
    requires 96 <= k < 100
    ensures Placed(k)
  {
    assert SymbolAt(96) == 195 && HuffmanCodeLen(195) == 19 && HuffmanCode(195) == 0x7fff1;
    assert SymbolAt(97) == 208 && HuffmanCodeLen(208) == 19 && HuffmanCode(208) == 0x7fff2;
    assert SymbolAt(98) == 128 && HuffmanCodeLen(128) == 20 && HuffmanCode(128) == 0xfffe6;
    assert SymbolAt(99) == 130 && HuffmanCodeLen(130) == 20 && HuffmanCode(130) == 0xfffe7;
    assert SymbolAt(100) == 131;
  }

  lemma Places25(k: Byte)
    requires 100 <= k < 104
    ensures Placed(k)
  {
    assert SymbolAt(100) == 131 && HuffmanCodeLen(131) == 20 && HuffmanCode(131) == 0xfffe8;
    assert SymbolAt(101) == 162 && HuffmanCodeLen(162) == 20 && HuffmanCode(162) == 0xfffe9;
    assert SymbolAt(102) == 184 && HuffmanCodeLen(184) == 20 && HuffmanCode(184) == 0xfffea;
    assert SymbolAt(103) == 194 && HuffmanCodeLen(194) == 20 && HuffmanCode(194) == 0xfffeb;
    assert SymbolAt(104) == 224;
  }

  lemma Places26(k: Byte)
    requires 104 <= k < 108
    ensures Placed(k)
  {
    assert SymbolAt(104) == 224 && HuffmanCodeLen(224) == 20 && HuffmanCode(224) == 0xfffec;
    assert SymbolAt(105) == 226 && HuffmanCodeLen(226) == 20 && HuffmanCode(226) == 0xfffed;
    assert SymbolAt(106) == 153 && HuffmanCodeLen(153) == 21 && HuffmanCode(153) == 0x1fffdc;
    assert SymbolAt(107) == 161 && HuffmanCodeLen(161) == 21 && HuffmanCode(161) == 0x1fffdd;
    assert SymbolAt(108) == 167;
  }

  lemma Places27(k: Byte)
    requires 108 <= k < 112
    ensures Placed(k)
  {
    assert SymbolAt(108) == 167 && HuffmanCodeLen(167) == 21 && HuffmanCode(167) == 0x1fffde;
    assert SymbolAt(109) == 172 && HuffmanCodeLen(172) == 21 && HuffmanCode(172) == 0x1fffdf;
    assert SymbolAt(110) == 176 && HuffmanCodeLen(176) == 21 && HuffmanCode(176) == 0x1fffe0;
    assert SymbolAt(111) == 177 && HuffmanCodeLen(177) == 21 && HuffmanCode(177) == 0x1fffe1;
    assert SymbolAt(112) == 179;
  }

  lemma Places28(k: Byte)
    requires 112 <= k < 116
    ensures Placed(k)
  {
    assert SymbolAt(112) == 179 && HuffmanCodeLen(179) == 21 && HuffmanCode(179) == 0x1fffe2;
    assert SymbolAt(113) == 209 && HuffmanCodeLen(209) == 21 && HuffmanCode(209) == 0x1fffe3;
    assert SymbolAt(114) == 216 && HuffmanCodeLen(216) == 21 && HuffmanCode(216) == 0x1fffe4;
    assert SymbolAt(115) == 217 && HuffmanCodeLen(217) == 21 && HuffmanCode(217) == 0x1fffe5;
    assert SymbolAt(116) == 227;
  }

  lemma Places29(k: Byte)
    requires 116 <= k < 120
    ensures Placed(k)
  {
    assert SymbolAt(116) == 227 && HuffmanCodeLen(227) == 21 && HuffmanCode(227) == 0x1fffe6;
    assert SymbolAt(117) == 229 && HuffmanCodeLen(229) == 21 && HuffmanCode(229) == 0x1fffe7;
    assert SymbolAt(118) == 230 && HuffmanCodeLen(230) == 21 && HuffmanCode(230) == 0x1fffe8;
    assert SymbolAt(119) == 129 && HuffmanCodeLen(129) == 22 && HuffmanCode(129) == 0x3fffd2;
    assert SymbolAt(120) == 132;
  }

  lemma Places30(k: Byte)
    requires 120 <= k < 124
    ensures Placed(k)
  {
    assert SymbolAt(120) == 132 && HuffmanCodeLen(132) == 22 && HuffmanCode(132) == 0x3fffd3;
    assert SymbolAt(121) == 133 && HuffmanCodeLen(133) == 22 && HuffmanCode(133) == 0x3fffd4;
    assert SymbolAt(122) == 134 && HuffmanCodeLen(134) == 22 && HuffmanCode(134) == 0x3fffd5;
    assert SymbolAt(123) == 136 && HuffmanCodeLen(136) == 22 && HuffmanCode(136) == 0x3fffd6;
    assert SymbolAt(124) == 146;
  }

  lemma Places31(k: Byte)
    requires 124 <= k < 128
    ensures Placed(k)
  {
    assert SymbolAt(124) == 146 && HuffmanCodeLen(146) == 22 && HuffmanCode(146) == 0x3fffd7;
    assert SymbolAt(125) == 154 && HuffmanCodeLen(154) == 22 && HuffmanCode(154) == 0x3fffd8;
    assert SymbolAt(126) == 156 && HuffmanCodeLen(156) == 22 && HuffmanCode(156) == 0x3fffd9;
    assert SymbolAt(127) == 160 && HuffmanCodeLen(160) == 22 && HuffmanCode(160) == 0x3fffda;
    assert SymbolAt(128) == 163;
  }

  lemma Places32(k: Byte)
    requires 128 <= k < 132
    ensures Placed(k)
  {
    assert SymbolAt(128) == 163 && HuffmanCodeLen(163) == 22 && HuffmanCode(163) == 0x3fffdb;
    assert SymbolAt(129) == 164 && HuffmanCodeLen(164) == 22 && HuffmanCode(164) == 0x3fffdc;
    assert SymbolAt(130) == 169 && HuffmanCodeLen(169) == 22 && HuffmanCode(169) == 0x3fffdd;
    assert SymbolAt(131) == 170 && HuffmanCodeLen(170) == 22 && HuffmanCode(170) == 0x3fffde;
    assert SymbolAt(132) == 173;
  }

  lemma Places33(k: Byte)
    requires 132 <= k < 136
    ensures Placed(k)
  {
    assert SymbolAt(132) == 173 && HuffmanCodeLen(173) == 22 && HuffmanCode(173) == 0x3fffdf;
    assert SymbolAt(133) == 178 && HuffmanCodeLen(178) == 22 && HuffmanCode(178) == 0x3fffe0;
    assert SymbolAt(134) == 181 && HuffmanCodeLen(181) == 22 && HuffmanCode(181) == 0x3fffe1;
    assert SymbolAt(135) == 185 && HuffmanCodeLen(185) == 22 && HuffmanCode(185) == 0x3fffe2;
    assert SymbolAt(136) == 186;
  }

  lemma Places34(k: Byte)
    requires 136 <= k < 140
    ensures Placed(k)
  {
    assert SymbolAt(136) == 186 && HuffmanCodeLen(186) == 22 && HuffmanCode(186) == 0x3fffe3;
    assert SymbolAt(137) == 187 && HuffmanCodeLen(187) == 22 && HuffmanCode(187) == 0x3fffe4;
    assert SymbolAt(138) == 189 && HuffmanCodeLen(189) == 22 && HuffmanCode(189) == 0x3fffe5;
    assert SymbolAt(139) == 190 && HuffmanCodeLen(190) == 22 && HuffmanCode(190) == 0x3fffe6;
    assert SymbolAt(140) == 196;
  }

  lemma Places35(k: Byte)
    requires 140 <= k < 144
    ensures Placed(k)
  {
    assert SymbolAt(140) == 196 && HuffmanCodeLen(196) == 22 && HuffmanCode(196) == 0x3fffe7;
    assert SymbolAt(141) == 198 && HuffmanCodeLen(198) == 22 && HuffmanCode(198) == 0x3fffe8;
    assert SymbolAt(142) == 228 && HuffmanCodeLen(228) == 22 && HuffmanCode(228) == 0x3fffe9;
    assert SymbolAt(143) == 232 && HuffmanCodeLen(232) == 22 && HuffmanCode(232) == 0x3fffea;
    assert SymbolAt(144) == 233;
  }

  lemma Places36(k: Byte)
    requires 144 <= k < 148
    ensures Placed(k)
  {
    assert SymbolAt(144) == 233 && HuffmanCodeLen(233) == 22 && HuffmanCode(233) == 0x3fffeb;
    assert SymbolAt(145) == 1 && HuffmanCodeLen(1) == 23 && HuffmanCode(1) == 0x7fffd8;
    assert SymbolAt(146) == 135 && HuffmanCodeLen(135) == 23 && HuffmanCode(135) == 0x7fffd9;
    assert SymbolAt(147) == 137 && HuffmanCodeLen(137) == 23 && HuffmanCode(137) == 0x7fffda;
    assert SymbolAt(148) == 138;
  }

  lemma Places37(k: Byte)
    requires 148 <= k < 152
    ensures Placed(k)
  {
    assert SymbolAt(148) == 138 && HuffmanCodeLen(138) == 23 && HuffmanCode(138) == 0x7fffdb;
    assert SymbolAt(149) == 139 && HuffmanCodeLen(139) == 23 && HuffmanCode(139) == 0x7fffdc;
    assert SymbolAt(150) == 140 && HuffmanCodeLen(140) == 23 && HuffmanCode(140) == 0x7fffdd;
    assert SymbolAt(151) == 141 && HuffmanCodeLen(141) == 23 && HuffmanCode(141) == 0x7fffde;
    assert SymbolAt(152) == 143;
  }

  lemma Places38(k: Byte)
    requires 152 <= k < 156
    ensures Placed(k)
  {
    assert SymbolAt(152) == 143 && HuffmanCodeLen(143) == 23 && HuffmanCode(143) == 0x7fffdf;
    assert SymbolAt(153) == 147 && HuffmanCodeLen(147) == 23 && HuffmanCode(147) == 0x7fffe0;
    assert SymbolAt(154) == 149 && HuffmanCodeLen(149) == 23 && HuffmanCode(149) == 0x7fffe1;
    assert SymbolAt(155) == 150 && HuffmanCodeLen(150) == 23 && HuffmanCode(150) == 0x7fffe2;
    assert SymbolAt(156) == 151;
  }

  lemma Places39(k: Byte)
    requires 156 <= k < 160
    ensures Placed(k)
  {
    assert SymbolAt(156) == 151 && HuffmanCodeLen(151) == 23 && HuffmanCode(151) == 0x7fffe3;
    assert SymbolAt(157) == 152 && HuffmanCodeLen(152) == 23 && HuffmanCode(152) == 0x7fffe4;
    assert SymbolAt(158) == 155 && HuffmanCodeLen(155) == 23 && HuffmanCode(155) == 0x7fffe5;
    assert SymbolAt(159) == 157 && HuffmanCodeLen(157) == 23 && HuffmanCode(157) == 0x7fffe6;
    assert SymbolAt(160) == 158;
  }

  lemma Places40(k: Byte)
    requires 160 <= k < 164
    ensures Placed(k)
  {
    assert SymbolAt(160) == 158 && HuffmanCodeLen(158) == 23 && HuffmanCode(158) == 0x7fffe7;
    assert SymbolAt(161) == 165 && HuffmanCodeLen(165) == 23 && HuffmanCode(165) == 0x7fffe8;
    assert SymbolAt(162) == 166 && HuffmanCodeLen(166) == 23 && HuffmanCode(166) == 0x7fffe9;
    assert SymbolAt(163) == 168 && HuffmanCodeLen(168) == 23 && HuffmanCode(168) == 0x7fffea;
    assert SymbolAt(164) == 174;
  }

  lemma Places41(k: Byte)
    requires 164 <= k < 168
    ensures Placed(k)
  {
    assert SymbolAt(164) == 174 && HuffmanCodeLen(174) == 23 && HuffmanCode(174) == 0x7fffeb;
    assert SymbolAt(165) == 175 && HuffmanCodeLen(175) == 23 && HuffmanCode(175) == 0x7fffec;
    assert SymbolAt(166) == 180 && HuffmanCodeLen(180) == 23 && HuffmanCode(180) == 0x7fffed;
    assert SymbolAt(167) == 182 && HuffmanCodeLen(182) == 23 && HuffmanCode(182) == 0x7fffee;
    assert SymbolAt(168) == 183;
  }

  lemma Places42(k: Byte)
    requires 168 <= k < 172
    ensures Placed(k)
  {
    assert SymbolAt(168) == 183 && HuffmanCodeLen(183) == 23 && HuffmanCode(183) == 0x7fffef;
    assert SymbolAt(169) == 188 && HuffmanCodeLen(188) == 23 && HuffmanCode(188) == 0x7ffff0;
    assert SymbolAt(170) == 191 && HuffmanCodeLen(191) == 23 && HuffmanCode(191) == 0x7ffff1;
    assert SymbolAt(171) == 197 && HuffmanCodeLen(197) == 23 && HuffmanCode(197) == 0x7ffff2;
    assert SymbolAt(172) == 231;
  }

  lemma Places43(k: Byte)
    requires 172 <= k < 176
    ensures Placed(k)
  {
    assert SymbolAt(172) == 231 && HuffmanCodeLen(231) == 23 && HuffmanCode(231) == 0x7ffff3;
    assert SymbolAt(173) == 239 && HuffmanCodeLen(239) == 23 && HuffmanCode(239) == 0x7ffff4;
    assert SymbolAt(174) == 9 && HuffmanCodeLen(9) == 24 && HuffmanCode(9) == 0xffffea;
    assert SymbolAt(175) == 142 && HuffmanCodeLen(142) == 24 && HuffmanCode(142) == 0xffffeb;
    assert SymbolAt(176) == 144;
  }

  lemma Places44(k: Byte)
    requires 176 <= k < 180
    ensures Placed(k)
  {
    assert SymbolAt(176) == 144 && HuffmanCodeLen(144) == 24 && HuffmanCode(144) == 0xffffec;
    assert SymbolAt(177) == 145 && HuffmanCodeLen(145) == 24 && HuffmanCode(145) == 0xffffed;
    assert SymbolAt(178) == 148 && HuffmanCodeLen(148) == 24 && HuffmanCode(148) == 0xffffee;
    assert SymbolAt(179) == 159 && HuffmanCodeLen(159) == 24 && HuffmanCode(159) == 0xffffef;
    assert SymbolAt(180) == 171;
  }

  lemma Places45(k: Byte)
    requires 180 <= k < 184
    ensures Placed(k)
  {
    assert SymbolAt(180) == 171 && HuffmanCodeLen(171) == 24 && HuffmanCode(171) == 0xfffff0;
    assert SymbolAt(181) == 206 && HuffmanCodeLen(206) == 24 && HuffmanCode(206) == 0xfffff1;
    assert SymbolAt(182) == 215 && HuffmanCodeLen(215) == 24 && HuffmanCode(215) == 0xfffff2;
    assert SymbolAt(183) == 225 && HuffmanCodeLen(225) == 24 && HuffmanCode(225) == 0xfffff3;
    assert SymbolAt(184) == 236;
  }

  lemma Places46(k: Byte)
    requires 184 <= k < 188
    ensures Placed(k)
  {
    assert SymbolAt(184) == 236 && HuffmanCodeLen(236) == 24 && HuffmanCode(236) == 0xfffff4;
    assert SymbolAt(185) == 237 && HuffmanCodeLen(237) == 24 && HuffmanCode(237) == 0xfffff5;
    assert SymbolAt(186) == 199 && HuffmanCodeLen(199) == 25 && HuffmanCode(199) == 0x1ffffec;
    assert SymbolAt(187) == 207 && HuffmanCodeLen(207) == 25 && HuffmanCode(207) == 0x1ffffed;
    assert SymbolAt(188) == 234;
  }

  lemma Places47(k: Byte)
    requires 188 <= k < 192
    ensures Placed(k)
  {
    assert SymbolAt(188) == 234 && HuffmanCodeLen(234) == 25 && HuffmanCode(234) == 0x1ffffee;
    assert SymbolAt(189) == 235 && HuffmanCodeLen(235) == 25 && HuffmanCode(235) == 0x1ffffef;
    assert SymbolAt(190) == 192 && HuffmanCodeLen(192) == 26 && HuffmanCode(192) == 0x3ffffe0;
    assert SymbolAt(191) == 193 && HuffmanCodeLen(193) == 26 && HuffmanCode(193) == 0x3ffffe1;
    assert SymbolAt(192) == 200;
  }

  lemma Places48(k: Byte)
    requires 192 <= k < 196
    ensures Placed(k)
  {
    assert SymbolAt(192) == 200 && HuffmanCodeLen(200) == 26 && HuffmanCode(200) == 0x3ffffe2;
    assert SymbolAt(193) == 201 && HuffmanCodeLen(201) == 26 && HuffmanCode(201) == 0x3ffffe3;
    assert SymbolAt(194) == 202 && HuffmanCodeLen(202) == 26 && HuffmanCode(202) == 0x3ffffe4;
    assert SymbolAt(195) == 205 && HuffmanCodeLen(205) == 26 && HuffmanCode(205) == 0x3ffffe5;
    assert SymbolAt(196) == 210;
  }

  lemma Places49(k: Byte)
    requires 196 <= k < 200
    ensures Placed(k)
  {
    assert SymbolAt(196) == 210 && HuffmanCodeLen(210) == 26 && HuffmanCode(210) == 0x3ffffe6;
    assert SymbolAt(197) == 213 && HuffmanCodeLen(213) == 26 && HuffmanCode(213) == 0x3ffffe7;
    assert SymbolAt(198) == 218 && HuffmanCodeLen(218) == 26 && HuffmanCode(218) == 0x3ffffe8;
    assert SymbolAt(199) == 219 && HuffmanCodeLen(219) == 26 && HuffmanCode(219) == 0x3ffffe9;
    assert SymbolAt(200) == 238;
  }

  lemma Places50(k: Byte)
    requires 200 <= k < 204
    ensures Placed(k)
  {
    assert SymbolAt(200) == 238 && HuffmanCodeLen(238) == 26 && HuffmanCode(238) == 0x3ffffea;
    assert SymbolAt(201) == 240 && HuffmanCodeLen(240) == 26 && HuffmanCode(240) == 0x3ffffeb;
    assert SymbolAt(202) == 242 && HuffmanCodeLen(242) == 26 && HuffmanCode(242) == 0x3ffffec;
    assert SymbolAt(203) == 243 && HuffmanCodeLen(243) == 26 && HuffmanCode(243) == 0x3ffffed;
    assert SymbolAt(204) == 255;
  }

  lemma Places51(k: Byte)
    requires 204 <= k < 208
    ensures Placed(k)
  {
    assert SymbolAt(204) == 255 && HuffmanCodeLen(255) == 26 && HuffmanCode(255) == 0x3ffffee;
    assert SymbolAt(205) == 203 && HuffmanCodeLen(203) == 27 && HuffmanCode(203) == 0x7ffffde;
    assert SymbolAt(206) == 204 && HuffmanCodeLen(204) == 27 && HuffmanCode(204) == 0x7ffffdf;
    assert SymbolAt(207) == 211 && HuffmanCodeLen(211) == 27 && HuffmanCode(211) == 0x7ffffe0;
    assert SymbolAt(208) == 212;
  }

  lemma Places52(k: Byte)
    requires 208 <= k < 212
    ensures Placed(k)
  {
    assert SymbolAt(208) == 212 && HuffmanCodeLen(212) == 27 && HuffmanCode(212) == 0x7ffffe1;
    assert SymbolAt(209) == 214 && HuffmanCodeLen(214) == 27 && HuffmanCode(214) == 0x7ffffe2;
    assert SymbolAt(210) == 221 && HuffmanCodeLen(221) == 27 && HuffmanCode(221) == 0x7ffffe3;
    assert SymbolAt(211) == 222 && HuffmanCodeLen(222) == 27 && HuffmanCode(222) == 0x7ffffe4;
    assert SymbolAt(212) == 223;
  }

  lemma Places53(k: Byte)
    requires 212 <= k < 216
    ensures Placed(k)
  {
    assert SymbolAt(212) == 223 && HuffmanCodeLen(223) == 27 && HuffmanCode(223) == 0x7ffffe5;
    assert SymbolAt(213) == 241 && HuffmanCodeLen(241) == 27 && HuffmanCode(241) == 0x7ffffe6;
    assert SymbolAt(214) == 244 && HuffmanCodeLen(244) == 27 && HuffmanCode(244) == 0x7ffffe7;
    assert SymbolAt(215) == 245 && HuffmanCodeLen(245) == 27 && HuffmanCode(245) == 0x7ffffe8;
    assert SymbolAt(216) == 246;
  }

  lemma Places54(k: Byte)
    requires 216 <= k < 220
    ensures Placed(k)
  {
    assert SymbolAt(216) == 246 && HuffmanCodeLen(246) == 27 && HuffmanCode(246) == 0x7ffffe9;
    assert SymbolAt(217) == 247 && HuffmanCodeLen(247) == 27 && HuffmanCode(247) == 0x7ffffea;
    assert SymbolAt(218) == 248 && HuffmanCodeLen(248) == 27 && HuffmanCode(248) == 0x7ffffeb;
    assert SymbolAt(219) == 250 && HuffmanCodeLen(250) == 27 && HuffmanCode(250) == 0x7ffffec;
    assert SymbolAt(220) == 251;
  }

  lemma Places55(k: Byte)
    requires 220 <= k < 224
    ensures Placed(k)
  {
    assert SymbolAt(220) == 251 && HuffmanCodeLen(251) == 27 && HuffmanCode(251) == 0x7ffffed;
    assert SymbolAt(221) == 252 && HuffmanCodeLen(252) == 27 && HuffmanCode(252) == 0x7ffffee;
    assert SymbolAt(222) == 253 && HuffmanCodeLen(253) == 27 && HuffmanCode(253) == 0x7ffffef;
    assert SymbolAt(223) == 254 && HuffmanCodeLen(254) == 27 && HuffmanCode(254) == 0x7fffff0;
    assert SymbolAt(224) == 2;
  }

  lemma Places56(k: Byte)
    requires 224 <= k < 228
    ensures Placed(k)
  {
    assert SymbolAt(224) == 2 && HuffmanCodeLen(2) == 28 && HuffmanCode(2) == 0xfffffe2;
    assert SymbolAt(225) == 3 && HuffmanCodeLen(3) == 28 && HuffmanCode(3) == 0xfffffe3;
    assert SymbolAt(226) == 4 && HuffmanCodeLen(4) == 28 && HuffmanCode(4) == 0xfffffe4;
    assert SymbolAt(227) == 5 && HuffmanCodeLen(5) == 28 && HuffmanCode(5) == 0xfffffe5;
    assert SymbolAt(228) == 6;
  }

  lemma Places57(k: Byte)
    requires 228 <= k < 232
    ensures Placed(k)
  {
    assert SymbolAt(228) == 6 && HuffmanCodeLen(6) == 28 && HuffmanCode(6) == 0xfffffe6;
    assert SymbolAt(229) == 7 && HuffmanCodeLen(7) == 28 && HuffmanCode(7) == 0xfffffe7;
    assert SymbolAt(230) == 8 && HuffmanCodeLen(8) == 28 && HuffmanCode(8) == 0xfffffe8;
    assert SymbolAt(231) == 11 && HuffmanCodeLen(11) == 28 && HuffmanCode(11) == 0xfffffe9;
    assert SymbolAt(232) == 12;
  }

  lemma Places58(k: Byte)
    requires 232 <= k < 236
    ensures Placed(k)
  {
    assert SymbolAt(232) == 12 && HuffmanCodeLen(12) == 28 && HuffmanCode(12) == 0xfffffea;
    assert SymbolAt(233) == 14 && HuffmanCodeLen(14) == 28 && HuffmanCode(14) == 0xfffffeb;
    assert SymbolAt(234) == 15 && HuffmanCodeLen(15) == 28 && HuffmanCode(15) == 0xfffffec;
    assert SymbolAt(235) == 16 && HuffmanCodeLen(16) == 28 && HuffmanCode(16) == 0xfffffed;
    assert SymbolAt(236) == 17;
  }

  lemma Places59(k: Byte)
    requires 236 <= k < 240
    ensures Placed(k)
  {
    assert SymbolAt(236) == 17 && HuffmanCodeLen(17) == 28 && HuffmanCode(17) == 0xfffffee;
    assert SymbolAt(237) == 18 && HuffmanCodeLen(18) == 28 && HuffmanCode(18) == 0xfffffef;
    assert SymbolAt(238) == 19 && HuffmanCodeLen(19) == 28 && HuffmanCode(19) == 0xffffff0;
    assert SymbolAt(239) == 20 && HuffmanCodeLen(20) == 28 && HuffmanCode(20) == 0xffffff1;
    assert SymbolAt(240) == 21;
  }

  lemma Places60(k: Byte)
    requires 240 <= k < 244
    ensures Placed(k)
  {
    assert SymbolAt(240) == 21 && HuffmanCodeLen(21) == 28 && HuffmanCode(21) == 0xffffff2;
    assert SymbolAt(241) == 23 && HuffmanCodeLen(23) == 28 && HuffmanCode(23) == 0xffffff3;
    assert SymbolAt(242) == 24 && HuffmanCodeLen(24) == 28 && HuffmanCode(24) == 0xffffff4;
    assert SymbolAt(243) == 25 && HuffmanCodeLen(25) == 28 && HuffmanCode(25) == 0xffffff5;
    assert SymbolAt(244) == 26;
  }

  lemma Places61(k: Byte)
    requires 244 <= k < 248
    ensures Placed(k)
  {
    assert SymbolAt(244) == 26 && HuffmanCodeLen(26) == 28 && HuffmanCode(26) == 0xffffff6;
    assert SymbolAt(245) == 27 && HuffmanCodeLen(27) == 28 && HuffmanCode(27) == 0xffffff7;
    assert SymbolAt(246) == 28 && HuffmanCodeLen(28) == 28 && HuffmanCode(28) == 0xffffff8;
    assert SymbolAt(247) == 29 && HuffmanCodeLen(29) == 28 && HuffmanCode(29) == 0xffffff9;
    assert SymbolAt(248) == 30;
  }

  lemma Places62(k: Byte)
    requires 248 <= k < 252
    ensures Placed(k)
  {
    assert SymbolAt(248) == 30 && HuffmanCodeLen(30) == 28 && HuffmanCode(30) == 0xffffffa;
    assert SymbolAt(249) == 31 && HuffmanCodeLen(31) == 28 && HuffmanCode(31) == 0xffffffb;
    assert SymbolAt(250) == 127 && HuffmanCodeLen(127) == 28 && HuffmanCode(127) == 0xffffffc;
    assert SymbolAt(251) == 220 && HuffmanCodeLen(220) == 28 && HuffmanCode(220) == 0xffffffd;
    assert SymbolAt(252) == 249;
  }

  lemma Places63(k: Byte)
    requires 252 <= k < 256
    ensures Placed(k)
  {
    assert SymbolAt(252) == 249 && HuffmanCodeLen(249) == 28 && HuffmanCode(249) == 0xffffffe;
    assert SymbolAt(253) == 10 && HuffmanCodeLen(10) == 30 && HuffmanCode(10) == 0x3ffffffc;
    assert SymbolAt(254) == 13 && HuffmanCodeLen(13) == 30 && HuffmanCode(13) == 0x3ffffffd;
    assert SymbolAt(255) == 22 && HuffmanCodeLen(22) == 30 && HuffmanCode(22) == 0x3ffffffe;
  }

  lemma PlacedQuarter0(k: Byte)
    requires 0 <= k < 64
    ensures Placed(k)
  {
    if k < 4 { Places0(k); }
    else if k < 8 { Places1(k); }
    else if k < 12 { Places2(k); }
    else if k < 16 { Places3(k); }
    else if k < 20 { Places4(k); }
    else if k < 24 { Places5(k); }
    else if k < 28 { Places6(k); }
    else if k < 32 { Places7(k); }
    else if k < 36 { Places8(k); }
    else if k < 40 { Places9(k); }
    else if k < 44 { Places10(k); }
    else if k < 48 { Places11(k); }
    else if k < 52 { Places12(k); }
    else if k < 56 { Places13(k); }
    else if k < 60 { Places14(k); }
    else { Places15(k); }
  }

  lemma PlacedQuarter1(k: Byte)
    requires 64 <= k < 128
    ensures Placed(k)
  {
    if k < 68 { Places16(k); }
    else if k < 72 { Places17(k); }
    else if k < 76 { Places18(k); }
    else if k < 80 { Places19(k); }
    else if k < 84 { Places20(k); }
    else if k < 88 { Places21(k); }
    else if k < 92 { Places22(k); }
    else if k < 96 { Places23(k); }
    else if k < 100 { Places24(k); }
    else if k < 104 { Places25(k); }
    else if k < 108 { Places26(k); }
    else if k < 112 { Places27(k); }
    else if k < 116 { Places28(k); }
    else if k < 120 { Places29(k); }
    else if k < 124 { Places30(k); }
    else { Places31(k); }
  }

  lemma PlacedQuarter2(k: Byte)
    requires 128 <= k < 192
    ensures Placed(k)
  {
    if k < 132 { Places32(k); }
    else if k < 136 { Places33(k); }
    else if k < 140 { Places34(k); }
    else if k < 144 { Places35(k); }
    else if k < 148 { Places36(k); }
    else if k < 152 { Places37(k); }
    else if k < 156 { Places38(k); }
    else if k < 160 { Places39(k); }
    else if k < 164 { Places40(k); }
    else if k < 168 { Places41(k); }
    else if k < 172 { Places42(k); }
    else if k < 176 { Places43(k); }
    else if k < 180 { Places44(k); }
    else if k < 184 { Places45(k); }
    else if k < 188 { Places46(k); }
    else { Places47(k); }
  }

  lemma PlacedQuarter3(k: Byte)
    requires 192 <= k < 256
    ensures Placed(k)
  {
    if k < 196 { Places48(k); }
    else if k < 200 { Places49(k); }
    else if k < 204 { Places50(k); }
    else if k < 208 { Places51(k); }
    else if k < 212 { Places52(k); }
    else if k < 216 { Places53(k); }
    else if k < 220 { Places54(k); }
    else if k < 224 { Places55(k); }
    else if k < 228 { Places56(k); }
    else if k < 232 { Places57(k); }
    else if k < 236 { Places58(k); }
    else if k < 240 { Places59(k); }
    else if k < 244 { Places60(k); }
    else if k < 248 { Places61(k); }
    else if k < 252 { Places62(k); }
    else { Places63(k); }
  }

  lemma PlacedAll(k: Byte)
    ensures Placed(k)
  {
    if k < 64 { PlacedQuarter0(k); }
    else if k < 128 { PlacedQuarter1(k); }
    else if k < 192 { PlacedQuarter2(k); }
    else { PlacedQuarter3(k); }
  }

  // ---------------------------------------------------------------- every symbol has a place

  ghost function Below(n: nat): set<int> {
    if n == 0 then {} else Below(n - 1) + {n - 1}
  }

  lemma {:induction false} BelowHas(n: nat, x: int)
    ensures x in Below(n) <==> 0 <= x < n
  {
    if n > 0 { BelowHas(n - 1, x); }
  }

  lemma {:induction false} BelowCount(n: nat)
    ensures |Below(n)| == n
  {
    if n > 0 {
      BelowCount(n - 1);
      BelowHas(n - 1, n - 1);
    }
  }

  ghost function SymbolsBelow(n: nat): set<int>
    requires n <= 256
  {
    set i: nat | i < n :: SymbolAt(i)
  }

  lemma {:induction false} SymbolsCount(n: nat)
    requires n <= 256
    ensures |SymbolsBelow(n)| == n
  {
    if n == 0 {
      assert SymbolsBelow(0) == {};
    } else {
      SymbolsCount(n - 1);
      forall i: nat | i < n - 1 ensures SymbolAt(i) != SymbolAt(n - 1) {
        SymbolsDiffer(i, n - 1);
      }
      OneMoreSymbol(n - 1);
    }
  }

  lemma SymbolsDiffer(i: nat, j: nat)
    requires i < j < 256
    ensures SymbolAt(i) != SymbolAt(j)
  {
    PlacedAll(i);
    PlacedAll(j);
    PlaceShape(i);
    PlaceShape(j);
  }

  lemma OneMoreSymbol(n: nat)
    requires n < 256 && forall i: nat :: i < n ==> SymbolAt(i) != SymbolAt(n)
    ensures SymbolsBelow(n + 1) == SymbolsBelow(n) + {SymbolAt(n)}
    ensures |SymbolsBelow(n + 1)| == |SymbolsBelow(n)| + 1
  {
    assert SymbolAt(n) !in SymbolsBelow(n);
    assert SymbolsBelow(n + 1) == SymbolsBelow(n) + {SymbolAt(n)};
  }

  lemma SubsetOfSameSize(a: set<int>, b: set<int>)
    requires a <= b && |a| == |b|
    ensures a == b
  {
    assert |b - a| == |b| - |a|;
  }

  /** 256 different symbols in 256 places: none is missing. */
  lemma PlaceOf(s: Byte) returns (k: Byte)
    ensures SymbolAt(k) == s && HuffmanCodeLen(s) == PlaceLen(k) && HuffmanCode(s) == PlaceCode(k)
  {
    BelowCount(256);
    SymbolsCount(256);
    forall x | x in SymbolsBelow(256) ensures x in Below(256) {
      var i: nat :| i < 256 && SymbolAt(i) == x;
      PlacedAll(i);
      BelowHas(256, x);
    }
    SubsetOfSameSize(SymbolsBelow(256), Below(256));
    BelowHas(256, s);
    var i: nat :| i < 256 && SymbolAt(i) == s;
    k := i;
    PlacedAll(k);
  }

  // ---------------------------------------------------------------- the code is valid

  const HUFFMAN: PrefixCode := PrefixCode(HUFFMAN_CODES, HUFFMAN_CODE_LEN)

  lemma HuffmanShaped()
    ensures HUFFMAN.Shaped()
  {
    TableShapes();
  }

  /** The bits of a symbol are those of its canonical place. */
  lemma HuffmanBits(s: Byte) returns (k: Byte)
    ensures HUFFMAN.Shaped() && SymbolAt(k) == s
    ensures HUFFMAN.Len(s) == PlaceLen(k) && HUFFMAN.Code(s) == PlaceCode(k)
    ensures HUFFMAN.CodeBits(s) == PlaceBits(k)
  {
    HuffmanShaped();
    k := PlaceOf(s);
  }

  lemma HuffmanBitsAt(k: Byte) returns (s: Byte)
    ensures HUFFMAN.Shaped() && s == SymbolAt(k) && HUFFMAN.CodeBits(s) == PlaceBits(k)
  {
    HuffmanShaped();
    PlacedAll(k);
    s := SymbolAt(k);
  }

  /** The tables of the package are a prefix-free code, complete but for EOS. */
  lemma HuffmanValid()
    ensures HUFFMAN.Valid()
  {
    HuffmanShaped();
    forall s: Byte ensures HUFFMAN.ValidSymbol(s) {
      var k := HuffmanBits(s);
      PlaceShape(k);
      PlaceNotOnes(k);
    }
    forall s: Byte, t: Byte | HUFFMAN.CodeBits(s) <= HUFFMAN.CodeBits(t) ensures s == t {
      var k := HuffmanBits(s);
      var k' := HuffmanBits(t);
      PlacePrefixFree(k, k');
    }
    forall v: nat | v < 0x3fff_ffff ensures HUFFMAN.Starts(ToBits(v, MAX_LEN)) {
      Canonical(MIN_LEN);
      var k := PlaceComplete(v, MIN_LEN);
      var s := HuffmanBitsAt(k);
    }
  }

  lemma {:induction false} SymbolsRise(k: Byte, k': Byte)
    requires k < k' && PlaceLen(k) == PlaceLen(k')
    ensures SymbolAt(k) < SymbolAt(k')
  {
    PlacedAll(k' - 1);
    if k < k' - 1 { SymbolsRise(k, k' - 1); }
  }

  /** x with n zero digits behind it. */
  function Extended(x: nat, n: int): int {
    if n < 0 then 0 else x * Pow2(n)
  }

  lemma PlaceOrder(k: Byte, k': Byte)
    ensures PlaceLen(k) == PlaceLen(k') && k < k' ==> PlaceCode(k) < PlaceCode(k')
    ensures PlaceLen(k) < PlaceLen(k') ==> Extended(PlaceCode(k) + 1, PlaceLen(k') - PlaceLen(k)) <= PlaceCode(k')
  {
    PlaceRange(k);
    PlaceRange(k');
    LaterStart(PlaceCode(k), PlaceLen(k), PlaceLen(k'));
  }

  lemma LaterStart(c: nat, l: nat, m: nat)
    requires MIN_LEN <= l <= MAX_LEN && MIN_LEN <= m <= MAX_LEN && c < End(l)
    ensures l < m ==> Extended(c + 1, m - l) <= First(m)
  {
    if l < m {
      EndsOrdered(l, m);
      MulStep(c + 1, End(l), Pow2(m - l));
    }
  }

  /** Codes of one length are in the order of their symbols, and shorter ones before longer ones. */
  predicate InOrder(s: nat, l: nat, c: int, t: nat, m: nat, d: int) {
    (l == m && s < t ==> c < d) && (l < m ==> c >= 0 && Extended(c + 1, m - l) <= d)
  }

  lemma PlacesInOrder(k: Byte, k': Byte)
    ensures InOrder(SymbolAt(k), PlaceLen(k), PlaceCode(k), SymbolAt(k'), PlaceLen(k'), PlaceCode(k'))
  {
    PlaceRange(k);
    PlaceOrder(k, k');
    if PlaceLen(k) == PlaceLen(k') && k' < k { SymbolsRise(k', k); }
  }

  /** The code is canonical. */
  lemma HuffmanOrder(s: Byte, t: Byte)
    ensures HUFFMAN.Shaped()
    ensures InOrder(s, HUFFMAN.Len(s), HUFFMAN.Code(s), t, HUFFMAN.Len(t), HUFFMAN.Code(t))
  {
    var k := HuffmanBits(s);
    var k' := HuffmanBits(t);
    PlacesInOrder(k, k');
  }
}
