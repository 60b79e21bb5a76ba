/** The Huffman decoder of HPACK (RFC 7541, section 5.2): what decoding means bit by
    bit, the tree of 256-way nodes that the package builds from its tables, and the
    loop that walks it a byte at a time. */
module HpackHuffmanDecoder {
  import opened Bits
  import opened HpackPrefixCode
  import opened HpackHuffmanEncoder

  // ---------------------------------------------------------------- specification

  /** NilNode stands for the nil dereference in the loop over the last bits: see HpackHuffmanNil. */
  datatype HuffmanResult =
    | HuffmanOk(s: seq<Byte>)
    | InvalidHuffman
    | StringTooLong
    | NilNode

  function Whole(n: nat): nat { (n + 7) / 8 * 8 }

  ghost function FirstSymbol(h: PrefixCode, bits: seq<bool>): (s: Byte)
    requires h.Shaped() && h.Starts(bits)
    ensures h.CodeBits(s) <= bits
  {
    var s: Byte :| h.CodeBits(s) <= bits;
    s
  }

  /** Decoding bit by bit: take codes off the front as long as there is one. The limit is
      only tested when the code does not reach into the last, incomplete group of bits. */
  ghost function DecodeBits(h: PrefixCode, bits: seq<bool>, out: seq<Byte>, maxLen: nat): HuffmanResult
    requires h.Valid()
    decreases |bits|
  {
    if h.Starts(bits) then
      var s := FirstSymbol(h, bits);
      SymbolShape(h, s);
      if maxLen != 0 && |out| == maxLen && Whole(h.Len(s)) <= |bits| then StringTooLong
      else DecodeBits(h, bits[h.Len(s)..], out + [s], maxLen)
    else if |bits| >= 32 then InvalidHuffman
    else if |bits| >= MAX_LEN then NilNode
    else HuffmanOk(out)
  }

  lemma DecodeStep(h: PrefixCode, s: Byte, bits: seq<bool>, out: seq<Byte>, maxLen: nat)
    requires h.Valid() && h.CodeBits(s) <= bits
    ensures DecodeBits(h, bits, out, maxLen)
         == if maxLen != 0 && |out| == maxLen && Whole(h.Len(s)) <= |bits| then StringTooLong
            else DecodeBits(h, bits[h.Len(s)..], out + [s], maxLen)
  {
    CodeUnique(h, s, FirstSymbol(h, bits), bits);
  }

  /** The same, with the length of the code and its whole bytes worked out. */
  lemma DecodeCode(h: PrefixCode, s: Byte, n: nat, w: nat, bits: seq<bool>, out: seq<Byte>, maxLen: nat)
    requires h.Valid() && h.CodeBits(s) <= bits && n == h.Len(s) && w == Whole(n)
    ensures n <= |bits|
    ensures DecodeBits(h, bits, out, maxLen)
         == if maxLen != 0 && |out| == maxLen && w <= |bits| then StringTooLong
            else DecodeBits(h, bits[n..], out + [s], maxLen)
  {
    DecodeStep(h, s, bits, out, maxLen);
  }

  /** Decoding the written bits gives the string back, whatever follows as padding. */
  lemma {:induction false} DecodeCodes(h: PrefixCode, s: seq<Byte>, i: nat, pad: nat, maxLen: nat)
    requires h.Valid() && i <= |s| && pad < 8 && (maxLen == 0 || |s| <= maxLen)
    ensures DecodeBits(h, CodesOf(h, s[i..]) + Repeat(true, pad), s[..i], maxLen) == HuffmanOk(s)
    decreases |s| - i
  {
    if i == |s| {
      assert s[i..] == [] && s[..i] == s;
      DecodePadding(h, s, pad, maxLen);
    } else {
      DecodeCodes(h, s, i + 1, pad, maxLen);
      CodesFrom(h, s, i, pad);
      DecodeOne(h, s, i, CodesOf(h, s[i..]) + Repeat(true, pad), CodesOf(h, s[i + 1..]) + Repeat(true, pad), maxLen);
    }
  }

  lemma DecodeOne(h: PrefixCode, s: seq<Byte>, i: nat, bits: seq<bool>, rest: seq<bool>, maxLen: nat)
    requires h.Valid() && i < |s| && (maxLen == 0 || |s| <= maxLen)
    requires h.CodeBits(s[i]) <= bits && bits[h.Len(s[i])..] == rest
    requires DecodeBits(h, rest, s[..i + 1], maxLen) == HuffmanOk(s)
    ensures DecodeBits(h, bits, s[..i], maxLen) == HuffmanOk(s)
  {
    DecodeStep(h, s[i], bits, s[..i], maxLen);
    assert s[..i] + [s[i]] == s[..i + 1];
  }

  lemma DecodePadding(h: PrefixCode, s: seq<Byte>, pad: nat, maxLen: nat)
    requires h.Valid() && pad < 8
    ensures DecodeBits(h, CodesOf(h, []) + Repeat(true, pad), s, maxLen) == HuffmanOk(s)
  {
    assert CodesOf(h, []) + Repeat(true, pad) == Repeat(true, pad);
    OnesStartNothing(h, pad);
  }

  lemma CodesFrom(h: PrefixCode, s: seq<Byte>, i: nat, pad: nat)
    requires h.Shaped() && i < |s|
    ensures var bits := CodesOf(h, s[i..]) + Repeat(true, pad);
      h.CodeBits(s[i]) <= bits && bits[h.Len(s[i])..] == CodesOf(h, s[i + 1..]) + Repeat(true, pad)
  {
    CodesCons(h, s[i..]);
    assert s[i..][1..] == s[i + 1..];
    var rest := CodesOf(h, s[i + 1..]) + Repeat(true, pad);
    assert CodesOf(h, s[i..]) + Repeat(true, pad) == h.CodeBits(s[i]) + rest;
  }

  lemma {:induction false} CodesCons(h: PrefixCode, s: seq<Byte>)
    requires h.Shaped() && s != []
    ensures CodesOf(h, s) == h.CodeBits(s[0]) + CodesOf(h, s[1..])
  {
    if |s| == 1 {
      assert s[..0] == [] && s[1..] == [];
    } else {
      var front := s[..|s| - 1];
      CodesCons(h, front);
      assert front[1..] == s[1..][..|s| - 2];
    }
  }

  /** Huffman coding loses nothing: every byte string comes back, under no limit or any
      limit it meets. */
  lemma HuffmanRoundTrip(h: PrefixCode, s: seq<Byte>, maxLen: nat)
    requires h.Valid() && (maxLen == 0 || |s| <= maxLen)
    ensures DecodeBits(h, BytesBits(HuffmanBytes(h, s)), [], maxLen) == HuffmanOk(s)
  {
    DecodeCodes(h, s, 0, PadLen(|CodesOf(h, s)|), maxLen);
    assert s[0..] == s && s[..0] == [];
  }

  /** Decoding is sound: what was decoded, written again, is the start of the input, and
      less than thirty bits are left over. */
  lemma {:induction false} DecodeSound(h: PrefixCode, bits: seq<bool>, out: seq<Byte>, maxLen: nat)
    requires h.Valid() && DecodeBits(h, bits, out, maxLen).HuffmanOk?
    ensures var s := DecodeBits(h, bits, out, maxLen).s;
      && out <= s
      && CodesOf(h, s[|out|..]) <= bits
      && |bits| - |CodesOf(h, s[|out|..])| < MAX_LEN
    decreases |bits|
  {
    var s := DecodeBits(h, bits, out, maxLen).s;
    if h.Starts(bits) {
      var c := FirstSymbol(h, bits);
      SymbolShape(h, c);
      DecodeSound(h, bits[h.Len(c)..], out + [c], maxLen);
      SoundStep(h, bits, out, c, s);
    } else {
      assert s[|out|..] == [];
    }
  }

  lemma SoundStep(h: PrefixCode, bits: seq<bool>, out: seq<Byte>, c: Byte, s: seq<Byte>)
    requires h.Valid() && h.CodeBits(c) <= bits && out + [c] <= s
    requires CodesOf(h, s[|out| + 1..]) <= bits[h.Len(c)..]
    ensures CodesOf(h, s[|out|..]) == h.CodeBits(c) + CodesOf(h, s[|out| + 1..])
    ensures CodesOf(h, s[|out|..]) <= bits
  {
    var t := s[|out|..];
    assert t[0] == s[|out|] == (out + [c])[|out|];
    assert t[1..] == s[|out| + 1..];
    CodesCons(h, t);
    assert bits == h.CodeBits(c) + bits[h.Len(c)..];
  }

  // ---------------------------------------------------------------- the decoding tree

  datatype Slot = Nil | Inner(id: nat) | Leaf(sym: Byte, codeLen: nat)

  /** The nodes live in one sequence; node 0 is the root, and a reference to an internal node
      is its index. Every node is labelled with the bits that lead to it, and index finds
      the node of a label. */
  datatype Tree = Tree(nodes: seq<seq<Slot>>, paths: seq<seq<bool>>, index: map<seq<bool>, nat>)

  /** Neither bit string starts with the other. */
  ghost predicate Apart(c: seq<bool>, q: seq<bool>) {
    !(c <= q) && !(q <= c)
  }

  /** The entry c at the bits q, when the symbols below n are in the tree and internal nodes
      may exist for the symbols below l. */
  ghost predicate Entry(h: PrefixCode, t: Tree, c: Slot, q: seq<bool>, n: nat, l: nat)
    requires h.Shaped()
  {
    match c
    case Nil => q !in t.index && forall s: Byte :: s < n ==> Apart(h.CodeBits(s), q)
    case Inner(id) => q in t.index && t.index[q] == id
    case Leaf(s, k) => q !in t.index && s < l && h.CodeBits(s) <= q && 0 < k <= 8 && h.Len(s) == |q| - 8 + k
  }

  /** Some symbol below l has a code that goes on after p. */
  ghost predicate Live(h: PrefixCode, p: seq<bool>, l: nat)
    requires h.Shaped()
  {
    exists s: Byte :: s < l && p < h.CodeBits(s)
  }

  ghost predicate Labelled(t: Tree) {
    && |t.nodes| == |t.paths| > 0
    && t.paths[0] == []
    && (forall i: nat :: i < |t.nodes| ==> |t.nodes[i]| == 256)
    && (forall i: nat :: i < |t.paths| ==> t.paths[i] in t.index && t.index[t.paths[i]] == i)
    && (forall q :: q in t.index ==> t.index[q] < |t.paths| && t.paths[t.index[q]] == q)
    && (forall q :: q in t.index ==> |q| % 8 == 0)
    && (forall q, m: nat :: q in t.index && m <= |q| && m % 8 == 0 ==> q[..m] in t.index)
  }

  ghost predicate TreeBody(h: PrefixCode, t: Tree, n: nat, l: nat)
    requires h.Shaped()
  {
    && Labelled(t)
    && (forall q :: q in t.index && q != [] ==> Live(h, q, l))
    && (forall i: nat, b: Byte :: i < |t.nodes| ==> Entry(h, t, t.nodes[i][b], t.paths[i] + ToBits(b, 8), n, l))
  }

  predicate UnlockTree(u: int) { true }

  ghost predicate TreeFull(u: int, h: PrefixCode, t: Tree, n: nat, l: nat)
    requires h.Shaped()
  {
    TreeBody(h, t, n, l)
  }

  /** The tree holds exactly the symbols below n; its internal nodes may serve those below l. */
  ghost predicate TreeOk(h: PrefixCode, t: Tree, n: nat, l: nat)
    requires h.Shaped()
  {
    match t
    case Tree(nodes_, paths_, index_) => forall u: int :: UnlockTree(u) ==> TreeFull(u, h, t, n, l)
  }

  lemma OpenTree(h: PrefixCode, t: Tree, n: nat, l: nat)
    requires h.Shaped() && TreeOk(h, t, n, l)
    ensures TreeBody(h, t, n, l)
  {
    assert UnlockTree(0) && TreeFull(0, h, t, n, l);
  }

  lemma CloseTree(h: PrefixCode, t: Tree, n: nat, l: nat)
    requires h.Shaped() && TreeBody(h, t, n, l)
    ensures TreeOk(h, t, n, l)
  {
  }

  function NoChildren(): (r: seq<Slot>)
    ensures |r| == 256 && forall b :: 0 <= b < 256 ==> r[b] == Nil
  {
    seq(256, i => Nil)
  }

  lemma EmptyTreeOk(h: PrefixCode)
    requires h.Valid()
    ensures TreeOk(h, Tree([NoChildren()], [[]], map[[] := 0]), 0, 0)
  {
  }

  /** An entry is found at one place only. */
  lemma OnePlace(t: Tree, i: nat, b: Byte, j: nat, c: Byte)
    requires Labelled(t) && i < |t.nodes| && j < |t.nodes|
    requires t.paths[i] + ToBits(b, 8) == t.paths[j] + ToBits(c, 8)
    ensures i == j && b == c
  {
    var q, r := t.paths[i] + ToBits(b, 8), t.paths[j] + ToBits(c, 8);
    assert q[..|q| - 8] == t.paths[i] && r[..|r| - 8] == t.paths[j];
    assert q[|q| - 8..] == ToBits(b, 8) && r[|r| - 8..] == ToBits(c, 8);
    Pow2Constants();
    ToBitsInjective(b, c, 8);
  }

  /** cur.children[i] = newInternalNode() */
  function Grown(t: Tree, cur: nat, i: Byte): Tree
    requires cur < |t.nodes| == |t.paths| && |t.nodes[cur]| == 256
  {
    Tree(t.nodes[cur := t.nodes[cur][i := Inner(|t.nodes|)]] + [NoChildren()],
         t.paths + [t.paths[cur] + ToBits(i, 8)],
         t.index[t.paths[cur] + ToBits(i, 8) := |t.nodes|])
  }

  lemma GrownLabelled(t: Tree, cur: nat, i: Byte)
    requires Labelled(t) && cur < |t.nodes| && t.paths[cur] + ToBits(i, 8) !in t.index
    ensures Labelled(Grown(t, cur, i))
  {
    var u := Grown(t, cur, i);
    var q := t.paths[cur] + ToBits(i, 8);
    assert |q| % 8 == 0 by { assert t.paths[cur] in t.index; }
    assert u.index == t.index[q := |t.paths|] && u.paths == t.paths + [q];
    forall k: nat | k < |u.paths| ensures u.paths[k] in u.index && u.index[u.paths[k]] == k {
      if k < |t.paths| { assert u.paths[k] == t.paths[k]; }
    }
    forall r, m: nat | r in u.index && m <= |r| && m % 8 == 0 ensures r[..m] in u.index {
      PrefixesStay(t, cur, i, r, m);
    }
  }

  lemma PrefixesStay(t: Tree, cur: nat, i: Byte, r: seq<bool>, m: nat)
    requires Labelled(t) && cur < |t.nodes| && m <= |r| && m % 8 == 0
    requires r in t.index || r == t.paths[cur] + ToBits(i, 8)
    ensures r[..m] in t.index || r[..m] == t.paths[cur] + ToBits(i, 8)
  {
    if r !in t.index {
      assert t.paths[cur] in t.index;
      TakeOfLonger(t.paths[cur], ToBits(i, 8), m);
    }
  }

  lemma TakeOfLonger(p: seq<bool>, e: seq<bool>, m: nat)
    requires m <= |p| + |e|
    ensures m <= |p| ==> (p + e)[..m] == p[..m]
    ensures m == |p| + |e| ==> (p + e)[..m] == p + e
  {
  }

  lemma GrownOk(h: PrefixCode, t: Tree, cur: nat, i: Byte, n: nat, l: nat)
    requires h.Shaped() && TreeBody(h, t, n, l) && cur < |t.nodes| && t.nodes[cur][i] == Nil
    requires Live(h, t.paths[cur] + ToBits(i, 8), l)
    ensures TreeBody(h, Grown(t, cur, i), n, l)
  {
    var q := t.paths[cur] + ToBits(i, 8);
    var u := Grown(t, cur, i);
    assert Entry(h, t, t.nodes[cur][i], q, n, l);
    GrownLabelled(t, cur, i);
    forall k: nat, b: Byte | k < |u.nodes|
      ensures Entry(h, u, u.nodes[k][b], u.paths[k] + ToBits(b, 8), n, l)
    {
      if k == |t.nodes| {
        NilBelow(h, t, q, ToBits(b, 8), n, l);
      } else {
        assert Entry(h, t, t.nodes[k][b], t.paths[k] + ToBits(b, 8), n, l);
        if t.paths[k] + ToBits(b, 8) == q { OnePlace(t, k, b, cur, i); }
      }
    }
  }

  /** Below a nil entry there is nothing. */
  lemma NilBelow(h: PrefixCode, t: Tree, q: seq<bool>, e: seq<bool>, n: nat, l: nat)
    requires h.Shaped() && Labelled(t) && |q| % 8 == 0 && Entry(h, t, Nil, q, n, l)
    ensures Entry(h, t, Nil, q + e, n, l)
  {
    assert (q + e)[..|q|] == q;
    forall s: Byte | s < n ensures Apart(h.CodeBits(s), q + e) {
      ApartBelow(h.CodeBits(s), q, e);
    }
  }

  lemma ApartBelow(c: seq<bool>, q: seq<bool>, e: seq<bool>)
    requires Apart(c, q)
    ensures Apart(c, q + e)
  {
    if c <= q + e { Comparable(c, q, q + e); }
  }

  /** cur.children[i] = &node{sym, codeLen} */
  function Filled(t: Tree, cur: nat, i: Byte, s: Byte, codeLen: nat): Tree
    requires cur < |t.nodes| && |t.nodes[cur]| == 256
  {
    t.(nodes := t.nodes[cur := t.nodes[cur][i := Leaf(s, codeLen)]])
  }

  /** Where a code ends there is no internal node, since no other code goes on. */
  lemma NotInside(h: PrefixCode, t: Tree, s: Byte, q: seq<bool>, n: nat, l: nat)
    requires h.Valid() && TreeBody(h, t, n, l) && h.CodeBits(s) <= q
    ensures q !in t.index
  {
    NothingGoesOn(h, s, q, l);
    SymbolShape(h, s);
  }

  lemma NothingGoesOn(h: PrefixCode, s: Byte, q: seq<bool>, l: nat)
    requires h.Valid() && h.CodeBits(s) <= q
    ensures !Live(h, q, l)
  {
    forall x: Byte | x < l ensures !(q < h.CodeBits(x)) {
      LongerStill(h.CodeBits(s), q, h.CodeBits(x));
      PrefixFree(h, s, x);
    }
  }

  lemma LongerStill(c: seq<bool>, q: seq<bool>, d: seq<bool>)
    requires c <= q
    ensures q < d ==> c <= d && c != d
  {
  }

  lemma FilledOk(h: PrefixCode, t: Tree, cur: nat, i: Byte, s: Byte, codeLen: nat, n: nat, l: nat)
    requires h.Shaped() && TreeBody(h, t, n, l) && cur < |t.nodes| && s < l && 0 < codeLen <= 8
    requires t.paths[cur] + ToBits(i, 8) !in t.index
    requires h.CodeBits(s) <= t.paths[cur] + ToBits(i, 8) && h.Len(s) == |t.paths[cur]| + codeLen
    ensures TreeBody(h, Filled(t, cur, i, s, codeLen), n, l)
  {
    var u := Filled(t, cur, i, s, codeLen);
    forall k: nat, b: Byte | k < |u.nodes|
      ensures Entry(h, u, u.nodes[k][b], u.paths[k] + ToBits(b, 8), n, l)
    {
      assert Entry(h, t, t.nodes[k][b], t.paths[k] + ToBits(b, 8), n, l);
    }
  }

  /** A symbol is in the tree when its path is there and every entry its code covers is a leaf. */
  lemma AddedOk(h: PrefixCode, t: Tree, s: Byte, cur: nat)
    requires h.Valid() && TreeBody(h, t, s, s + 1) && cur < |t.nodes|
    requires t.paths[cur] < h.CodeBits(s) && h.Len(s) <= |t.paths[cur]| + 8
    requires forall b: Byte :: h.CodeBits(s) <= t.paths[cur] + ToBits(b, 8) ==> t.nodes[cur][b].Leaf?
    ensures TreeBody(h, t, s + 1, s + 1)
  {
    forall k: nat, b: Byte | k < |t.nodes|
      ensures Entry(h, t, t.nodes[k][b], t.paths[k] + ToBits(b, 8), s + 1, s + 1)
    {
      if t.nodes[k][b] == Nil {
        NilForAdded(h, t, s, cur, k, b);
      }
      EntryAdded(h, t, s, t.nodes[k][b], t.paths[k] + ToBits(b, 8));
    }
  }

  lemma EntryAdded(h: PrefixCode, t: Tree, s: Byte, c: Slot, q: seq<bool>)
    requires h.Shaped() && Entry(h, t, c, q, s, s + 1)
    requires c == Nil ==> Apart(h.CodeBits(s), q)
    ensures Entry(h, t, c, q, s + 1, s + 1)
  {
  }

  lemma NilForAdded(h: PrefixCode, t: Tree, s: Byte, cur: nat, k: nat, b: Byte)
    requires h.Valid() && TreeBody(h, t, s, s + 1) && cur < |t.nodes| && k < |t.nodes|
    requires t.paths[cur] < h.CodeBits(s) && h.Len(s) <= |t.paths[cur]| + 8
    requires forall b: Byte :: h.CodeBits(s) <= t.paths[cur] + ToBits(b, 8) ==> t.nodes[cur][b].Leaf?
    requires t.nodes[k][b] == Nil
    ensures Apart(h.CodeBits(s), t.paths[k] + ToBits(b, 8))
  {
    var c, p := h.CodeBits(s), t.paths[k];
    assert Entry(h, t, t.nodes[k][b], p + ToBits(b, 8), s, s + 1);
    NotEndedYet(h, t, s, k);
    ApartIfNil(t, c, k, cur, ToBits(b, 8));
  }

  lemma NotEndedYet(h: PrefixCode, t: Tree, s: Byte, k: nat)
    requires h.Valid() && TreeBody(h, t, s, s + 1) && k < |t.nodes|
    ensures !(h.CodeBits(s) <= t.paths[k])
  {
    assert t.paths[k] in t.index;
    if h.CodeBits(s) <= t.paths[k] { NotInside(h, t, s, t.paths[k], s, s + 1); }
  }

  lemma ApartIfNil(t: Tree, c: seq<bool>, k: nat, cur: nat, e: seq<bool>)
    requires Labelled(t) && cur < |t.nodes| && k < |t.nodes| && |e| == 8
    requires t.paths[cur] < c && |c| <= |t.paths[cur]| + 8
    requires !(c <= t.paths[k]) && t.paths[k] + e !in t.index
    requires k == cur ==> !(c <= t.paths[k] + e)
    ensures Apart(c, t.paths[k] + e)
  {
    var p, path := t.paths[k], t.paths[cur];
    var q := p + e;
    assert p in t.index && path in t.index && t.index[p] == k && t.index[path] == cur;
    assert |q| <= |path| ==> path[..|q|] in t.index;
    PrefixIsTake(q, path);
    PrefixIsTake(q, c);
    if c <= q {
      Comparable(c, p, q);
      SameDepth(p, path, c);
    } else if q <= c {
      Comparable(q, path, c);
    }
  }

  lemma PrefixIsTake(q: seq<bool>, c: seq<bool>)
    ensures q <= c ==> |q| <= |c| && c[..|q|] == q && (|q| == |c| ==> q == c)
  {
  }

  /** Two whole-byte prefixes that both stop in the last byte of c are the same. */
  lemma SameDepth(p: seq<bool>, path: seq<bool>, c: seq<bool>)
    requires |p| % 8 == 0 && |path| % 8 == 0 && p < c && path < c
    requires |c| <= |p| + 8 && |c| <= |path| + 8
    ensures p == path
  {
    Comparable(p, path, c);
  }

  /** The entries a code covers in the node where it ends: 2^(8 - codeLen) bytes in a row. */
  lemma Covered(h: PrefixCode, s: Byte, p: seq<bool>, codeLen: nat, b: Byte)
    requires h.Valid() && p < h.CodeBits(s) && |p| % 8 == 0
    requires h.Len(s) == |p| + codeLen && 1 <= codeLen <= 8
    ensures var start := Shl(h.Code(s), 8 - codeLen) % U32 % 256;
      && start + Shl(1, 8 - codeLen) <= 256
      && (h.CodeBits(s) <= p + ToBits(b, 8) <==> start <= b < start + Shl(1, 8 - codeLen))
  {
    SymbolShape(h, s);
    var code, shift, n := h.Code(s), 8 - codeLen, |p|;
    var x := Low(code, codeLen);
    LowByte(Shl(code, shift));
    LowOfShl(code, codeLen, shift);
    ToBitsSplit(code, n, codeLen);
    ToBitsLow(code, codeLen);
    ToBitsSplit(b, codeLen, shift);
    assert h.CodeBits(s)[n..] == ToBits(x, codeLen);
    assert (h.CodeBits(s) <= p + ToBits(b, 8)) <==> ToBits(x, codeLen) == ToBits(Shr(b, shift), codeLen) by {
      SameTail(p, ToBits(x, codeLen), ToBits(Shr(b, shift), codeLen), ToBits(b, shift));
      assert h.CodeBits(s) == p + ToBits(x, codeLen);
    }
    assert Pow2(8) == 256 by { Pow2Constants(); }
    ShrFits(b, codeLen, shift);
    if ToBits(x, codeLen) == ToBits(Shr(b, shift), codeLen) {
      ToBitsInjective(x, Shr(b, shift), codeLen);
    }
    ShrRange(b, x, shift);
    TopFits(x, codeLen, shift);
  }

  lemma SameTail(p: seq<bool>, x: seq<bool>, y: seq<bool>, z: seq<bool>)
    requires |x| == |y|
    ensures p + x <= p + (y + z) <==> x == y
  {
    if p + x <= p + (y + z) {
      assert x == (p + x)[|p|..] == (p + (y + z))[|p|..|p| + |y|] == y;
    }
  }

  lemma {:induction false} ShrRange(b: nat, x: nat, shift: nat)
    ensures Shr(b, shift) == x <==> Shl(x, shift) <= b < Shl(x, shift) + Shl(1, shift)
  {
    if shift > 0 {
      ShrRange(b / 2, x, shift - 1);
    }
  }

  lemma {:induction false} TopFits(x: nat, n: nat, shift: nat)
    requires x < Pow2(n)
    ensures Shl(x, shift) + Shl(1, shift) <= Pow2(n + shift)
    decreases shift
  {
    if shift > 0 { TopFits(x, n, shift - 1); }
  }

  /** The index byte taken from a code is the next eight bits of it. */
  lemma NextByte(h: PrefixCode, s: Byte, p: seq<bool>, codeLen: nat)
    requires h.Valid() && p < h.CodeBits(s) && h.Len(s) == |p| + 8 + codeLen
    ensures var i := Shr(h.Code(s), codeLen) % 256;
      p + ToBits(i, 8) == h.CodeBits(s)[..|p| + 8]
  {
    BitsInside(h.Code(s), p, 8, codeLen);
    ToBitsOfByte(Shr(h.Code(s), codeLen));
  }

  lemma {:induction false} BitsInside(code: nat, p: seq<bool>, w: nat, codeLen: nat)
    requires p <= ToBits(code, |p| + w + codeLen)
    ensures p + ToBits(Shr(code, codeLen), w) == ToBits(code, |p| + w + codeLen)[..|p| + w]
    decreases codeLen
  {
    if codeLen == 0 {
      ToBitsSplit(code, |p|, w);
    } else {
      BitsInside(code / 2, p, w, codeLen - 1);
    }
  }

  /** Node cur is on the way to symbol s, codeLen bits before the end of its code. */
  ghost predicate OnPath(h: PrefixCode, t: Tree, s: Byte, cur: nat, codeLen: int)
    requires h.Shaped()
  {
    && TreeOk(h, t, s, s + 1)
    && cur < |t.nodes| == |t.paths|
    && |t.nodes[cur]| == 256
    && |t.paths[cur]| % 8 == 0
    && 0 < codeLen
    && t.paths[cur] < h.CodeBits(s)
    && h.Len(s) == |t.paths[cur]| + codeLen
  }

  lemma OnRoot(h: PrefixCode, t: Tree, s: Byte)
    requires h.Valid() && TreeOk(h, t, s, s)
    ensures OnPath(h, t, s, 0, h.Len(s))
  {
    SymbolShape(h, s);
    OpenTree(h, t, s, s);
    LiveLonger(h, t, s);
    CloseTree(h, t, s, s + 1);
  }

  lemma LiveLonger(h: PrefixCode, t: Tree, s: Byte)
    requires h.Shaped() && TreeBody(h, t, s, s)
    ensures TreeBody(h, t, s, s + 1)
  {
    forall i: nat, b: Byte | i < |t.nodes|
      ensures Entry(h, t, t.nodes[i][b], t.paths[i] + ToBits(b, 8), s, s + 1)
    {
      assert Entry(h, t, t.nodes[i][b], t.paths[i] + ToBits(b, 8), s, s);
    }
  }

  /** One step down: the child is missing and is made, or it is internal. */
  lemma Descend(h: PrefixCode, t: Tree, s: Byte, cur: nat, codeLen: nat)
    requires h.Valid() && OnPath(h, t, s, cur, codeLen) && codeLen > 8
    ensures var i: Byte := Shr(h.Code(s), codeLen - 8) % 256;
      && |t.nodes[cur]| == 256 && |t.nodes| == |t.paths|
      && (t.nodes[cur][i] == Nil ==> OnPath(h, Grown(t, cur, i), s, |t.nodes|, codeLen - 8))
      && (t.nodes[cur][i] != Nil ==>
            t.nodes[cur][i].Inner? && OnPath(h, t, s, t.nodes[cur][i].id, codeLen - 8))
  {
    var i := Shr(h.Code(s), codeLen - 8) % 256;
    NextByte(h, s, t.paths[cur], codeLen - 8);
    DescendTree(h, t, s, cur, i, t.paths[cur] + ToBits(i, 8));
  }

  lemma DescendTree(h: PrefixCode, t: Tree, s: Byte, cur: nat, i: Byte, q: seq<bool>)
    requires h.Valid() && TreeOk(h, t, s, s + 1) && cur < |t.nodes| == |t.paths| && |t.nodes[cur]| == 256
    requires q == t.paths[cur] + ToBits(i, 8) && q < h.CodeBits(s)
    ensures t.nodes[cur][i] == Nil ==> TreeOk(h, Grown(t, cur, i), s, s + 1)
    ensures t.nodes[cur][i] != Nil ==>
              && t.nodes[cur][i].Inner?
              && var id := t.nodes[cur][i].id;
                 id < |t.nodes| && t.paths[id] == q && |t.nodes[id]| == 256
  {
    ChildHere(h, t, s, cur, i, q);
    if t.nodes[cur][i] == Nil {
      NewChild(h, t, s, cur, i, q);
    }
  }

  lemma NewChild(h: PrefixCode, t: Tree, s: Byte, cur: nat, i: Byte, q: seq<bool>)
    requires h.Shaped() && TreeOk(h, t, s, s + 1) && cur < |t.nodes| == |t.paths| && |t.nodes[cur]| == 256
    requires q == t.paths[cur] + ToBits(i, 8) && Live(h, q, s + 1) && t.nodes[cur][i] == Nil
    ensures TreeOk(h, Grown(t, cur, i), s, s + 1)
  {
    OpenTree(h, t, s, s + 1);
    GrownOk(h, t, cur, i, s, s + 1);
    CloseTree(h, Grown(t, cur, i), s, s + 1);
  }

  lemma ChildHere(h: PrefixCode, t: Tree, s: Byte, cur: nat, i: Byte, q: seq<bool>)
    requires h.Valid() && TreeOk(h, t, s, s + 1) && cur < |t.nodes| == |t.paths| && |t.nodes[cur]| == 256
    requires q == t.paths[cur] + ToBits(i, 8) && q < h.CodeBits(s)
    ensures Live(h, q, s + 1)
    ensures t.nodes[cur][i] != Nil ==>
              && t.nodes[cur][i].Inner?
              && var id := t.nodes[cur][i].id;
                 id < |t.nodes| && t.paths[id] == q && |t.nodes[id]| == 256
  {
    OpenTree(h, t, s, s + 1);
    EntryHere(h, t, s, cur, i);
  }

  /** On the way down a code, a child is missing or internal. */
  lemma EntryHere(h: PrefixCode, t: Tree, s: Byte, cur: nat, i: Byte)
    requires h.Valid() && TreeBody(h, t, s, s + 1) && cur < |t.nodes|
    requires t.paths[cur] + ToBits(i, 8) < h.CodeBits(s)
    ensures Live(h, t.paths[cur] + ToBits(i, 8), s + 1)
    ensures !t.nodes[cur][i].Leaf?
    ensures t.nodes[cur][i].Inner? ==>
              t.nodes[cur][i].id < |t.nodes| && t.paths[t.nodes[cur][i].id] == t.paths[cur] + ToBits(i, 8)
  {
    var c, q := t.nodes[cur][i], t.paths[cur] + ToBits(i, 8);
    assert Entry(h, t, c, q, s, s + 1);
    if c.Leaf? {
      LongerStill(h.CodeBits(c.sym), q, h.CodeBits(s));
      PrefixFree(h, c.sym, s);
    }
  }

  function Start(h: PrefixCode, s: Byte, codeLen: nat): Byte
    requires h.Shaped() && codeLen <= 8
  {
    Shl(h.Code(s), 8 - codeLen) % U32 % 256
  }

  /** The entries from start up to i are filled. */
  ghost predicate FilledTo(h: PrefixCode, t: Tree, s: Byte, cur: nat, codeLen: nat, i: nat)
    requires h.Shaped() && codeLen <= 8
  {
    && OnPath(h, t, s, cur, codeLen)
    && forall b: Byte :: Start(h, s, codeLen) <= b < i ==> t.nodes[cur][b].Leaf?
  }

  lemma FillStep(h: PrefixCode, t: Tree, s: Byte, cur: nat, codeLen: nat, i: nat)
    requires h.Valid() && 1 <= codeLen <= 8 && FilledTo(h, t, s, cur, codeLen, i)
    requires Start(h, s, codeLen) <= i < Start(h, s, codeLen) + Shl(1, 8 - codeLen)
    ensures i < 256 && |t.nodes[cur]| == 256
    ensures FilledTo(h, Filled(t, cur, i, s, codeLen), s, cur, codeLen, i + 1)
  {
    Covered(h, s, t.paths[cur], codeLen, 0);
    Covered(h, s, t.paths[cur], codeLen, i);
    FilledTree(h, t, s, cur, codeLen, i);
  }

  lemma FilledTree(h: PrefixCode, t: Tree, s: Byte, cur: nat, codeLen: nat, i: Byte)
    requires h.Valid() && 1 <= codeLen <= 8 && TreeOk(h, t, s, s + 1)
    requires cur < |t.nodes| == |t.paths| && |t.nodes[cur]| == 256
    requires h.CodeBits(s) <= t.paths[cur] + ToBits(i, 8) && h.Len(s) == |t.paths[cur]| + codeLen
    ensures TreeOk(h, Filled(t, cur, i, s, codeLen), s, s + 1)
  {
    OpenTree(h, t, s, s + 1);
    NotInside(h, t, s, t.paths[cur] + ToBits(i, 8), s, s + 1);
    FilledOk(h, t, cur, i, s, codeLen, s, s + 1);
    CloseTree(h, Filled(t, cur, i, s, codeLen), s, s + 1);
  }

  lemma AllFilled(h: PrefixCode, t: Tree, s: Byte, cur: nat, codeLen: nat)
    requires h.Valid() && 1 <= codeLen <= 8
    requires FilledTo(h, t, s, cur, codeLen, Start(h, s, codeLen) + Shl(1, 8 - codeLen))
    ensures TreeOk(h, t, s + 1, s + 1)
  {
    forall b: Byte | h.CodeBits(s) <= t.paths[cur] + ToBits(b, 8) ensures t.nodes[cur][b].Leaf? {
      Covered(h, s, t.paths[cur], codeLen, b);
    }
    OpenTree(h, t, s, s + 1);
    AddedOk(h, t, s, cur);
    CloseTree(h, t, s + 1, s + 1);
  }

  // ---------------------------------------------------------------- walking the tree

  /** No entry: nothing that goes on from here is a code, and four bytes have been seen. */
  lemma NilMeansNoCode(h: PrefixCode, t: Tree, q: seq<bool>, rest: seq<bool>)
    requires h.Valid() && |q| % 8 == 0 && Entry(h, t, Nil, q, 256, 256)
    requires rest <= q || q <= rest
    ensures !h.Starts(rest) && |q| >= 32 && !h.Starts(q)
  {
    forall s: Byte ensures !(h.CodeBits(s) <= rest) && !(h.CodeBits(s) <= q) {
      assert Apart(h.CodeBits(s), q);
      NotUnder(h.CodeBits(s), q, rest);
    }
    NeverAlone(h, q);
  }

  lemma NeverAlone(h: PrefixCode, q: seq<bool>)
    requires h.Valid()
    ensures |q| < MAX_LEN ==> exists s: Byte :: !Apart(h.CodeBits(s), q)
  {
    if |q| < MAX_LEN {
      var s := Extends(h, q);
      assert !Apart(h.CodeBits(s), q);
    }
  }

  lemma NotUnder(c: seq<bool>, q: seq<bool>, rest: seq<bool>)
    requires Apart(c, q) && (rest <= q || q <= rest)
    ensures !(c <= rest)
  {
    if c <= rest && q <= rest { Comparable(c, q, rest); }
  }

  predicate UnlockEntry(u: int) { true }

  ghost predicate FinalEntry(u: int, h: PrefixCode, t: Tree, c: Slot, q: seq<bool>)
    requires h.Shaped()
  {
    Entry(h, t, c, q, 256, 256)
  }

  /** An entry of the finished tree. */
  ghost predicate EntryHolds(h: PrefixCode, t: Tree, c: Slot, q: seq<bool>)
    requires h.Shaped()
  {
    match t
    case Tree(nodes_, paths_, index_) => forall u: int :: UnlockEntry(u) ==> FinalEntry(u, h, t, c, q)
  }

  /** A leaf of the finished tree. */
  lemma LeafEntry(h: PrefixCode, t: Tree, s: Byte, l: nat, q: seq<bool>)
    requires h.Shaped() && EntryHolds(h, t, Leaf(s, l), q)
    ensures 0 < l <= 8 && h.CodeBits(s) <= q && h.Len(s) == |q| - 8 + l
  {
    assert UnlockEntry(0) && FinalEntry(0, h, t, Leaf(s, l), q);
  }

  /** At a nil entry of the finished tree no code begins. */
  lemma NilEntry(h: PrefixCode, t: Tree, q: seq<bool>, rest: seq<bool>)
    requires h.Valid() && |q| % 8 == 0 && EntryHolds(h, t, Nil, q)
    requires rest <= q || q <= rest
    ensures !h.Starts(rest) && |q| >= 32 && !h.Starts(q)
  {
    assert UnlockEntry(0) && FinalEntry(0, h, t, Nil, q);
    NilMeansNoCode(h, t, q, rest);
  }

  lemma EntryAt(h: PrefixCode, t: Tree, cur: nat, i: Byte)
    requires h.Shaped() && TreeBody(h, t, 256, 256) && cur < |t.nodes|
    ensures |t.nodes[cur]| == 256 && |t.nodes| == |t.paths|
    ensures t.paths[cur] in t.index && |t.paths[cur]| % 8 == 0
    ensures var q := t.paths[cur] + ToBits(i, 8);
      && Entry(h, t, t.nodes[cur][i], q, 256, 256)
      && (t.nodes[cur][i].Inner? ==>
            Live(h, q, 256) && t.nodes[cur][i].id < |t.nodes| && t.paths[t.nodes[cur][i].id] == q)
  {
    assert Entry(h, t, t.nodes[cur][i], t.paths[cur] + ToBits(i, 8), 256, 256);
  }

  /** A leaf within rest: one symbol is decoded. */
  lemma LeafMeansCode(h: PrefixCode, s: Byte, l: nat, p: seq<bool>, q: seq<bool>, rest: seq<bool>,
                      out: seq<Byte>, maxLen: nat)
    requires h.Valid() && |p| % 8 == 0 && |q| == |p| + 8
    requires h.CodeBits(s) <= q <= rest && 0 < l <= 8 && h.Len(s) == |p| + l
    ensures DecodeBits(h, rest, out, maxLen)
         == if maxLen != 0 && |out| == maxLen then StringTooLong
            else DecodeBits(h, rest[|p| + l..], out + [s], maxLen)
  {
    PrefixTransitive(h.CodeBits(s), q, rest);
    WholeByte(|p|, l);
    DecodeCode(h, s, |p| + l, |p| + 8, rest, out, maxLen);
  }

  lemma PrefixTransitive(a: seq<bool>, b: seq<bool>, c: seq<bool>)
    requires a <= b <= c
    ensures a <= c
  {
  }

  lemma WholeByte(a: nat, l: nat)
    requires a % 8 == 0 && 0 < l <= 8
    ensures Whole(a + l) == a + 8
  {
  }

  /** A leaf that rest reaches, though not to the end of its last byte. */
  lemma TailCode(h: PrefixCode, s: Byte, l: nat, p: seq<bool>, rest: seq<bool>, q: seq<bool>,
                 out: seq<Byte>, maxLen: nat)
    requires h.Valid() && |p| % 8 == 0
    requires h.CodeBits(s) <= q && rest <= q && 0 < l <= |rest| - |p| < 8 && h.Len(s) == |p| + l
    ensures DecodeBits(h, rest, out, maxLen) == DecodeBits(h, rest[|p| + l..], out + [s], maxLen)
  {
    Comparable(h.CodeBits(s), rest, q);
    WholeByte(|p|, l);
    DecodeCode(h, s, |p| + l, |p| + 8, rest, out, maxLen);
  }

  lemma ShortPath(h: PrefixCode, t: Tree, p: seq<bool>)
    requires h.Valid() && TreeBody(h, t, 256, 256) && p in t.index
    ensures |p| <= 24
  {
    if p != [] {
      assert Live(h, p, 256);
      var s: Byte :| s < 256 && p < h.CodeBits(s);
      SymbolShape(h, s);
    }
  }

  lemma TailIsOnes(h: PrefixCode, q: seq<bool>, rest: seq<bool>)
    requires h.Valid() && !h.Starts(q) && |q| >= 32 && rest <= q && |rest| < 32
    requires forall i :: |rest| <= i < |q| ==> !q[i]
    ensures |rest| >= MAX_LEN
  {
    NoCodeMeansOnes(h, q);
    var next := q[if |rest| < MAX_LEN then |rest| else 0];
  }

  lemma InnerMeansNoCode(h: PrefixCode, q: seq<bool>, rest: seq<bool>)
    requires h.Valid() && Live(h, q, 256) && rest <= q
    ensures !h.Starts(rest) && |rest| < MAX_LEN
  {
    var s: Byte :| s < 256 && q < h.CodeBits(s);
    SymbolShape(h, s);
    forall x: Byte ensures !(h.CodeBits(x) <= rest) {
      ShorterStill(h.CodeBits(x), rest, q, h.CodeBits(s));
      PrefixFree(h, x, s);
    }
  }

  lemma ShorterStill(c: seq<bool>, rest: seq<bool>, q: seq<bool>, d: seq<bool>)
    requires rest <= q && q < d
    ensures c <= rest ==> c <= d && c != d
  {
  }

  lemma LeafTooLong(h: PrefixCode, s: Byte, q: seq<bool>, rest: seq<bool>)
    requires h.Valid() && h.CodeBits(s) <= q && rest <= q && |rest| < h.Len(s)
    ensures !h.Starts(rest) && |rest| < MAX_LEN
  {
    SymbolShape(h, s);
    Comparable(rest, h.CodeBits(s), q);
    forall x: Byte ensures !(h.CodeBits(x) <= rest) {
      ShorterStill(h.CodeBits(x), rest, rest, h.CodeBits(s));
      PrefixFree(h, x, s);
    }
  }

  // ---------------------------------------------------------------- the pending bits

  /** cur = cur<<8 | uint(b), in a 64-bit word. */
  lemma PushByte(cur: nat, nbits: nat, b: Byte)
    requires nbits <= 56
    ensures ToBits(Or(Shl(cur, 8) % U64, b), nbits + 8) == ToBits(cur, nbits) + ToBits(b, 8)
  {
    var low := Low(cur, 56);
    LowOfShl(cur, 56, 8);
    LowIsMod(Shl(cur, 8), 64);
    assert Pow2(64) == U64 && Pow2(8) == 256 by { Pow2Constants(); }
    OrDisjoint(low, b, 8);
    JoinBits(low, b, nbits, 8);
    ToBitsLowMore(cur, 56, nbits);
  }

  lemma TopByte(cur: nat, nbits: nat)
    requires nbits >= 8
    ensures ToBits(cur, nbits) == ToBits(Shr(cur, nbits - 8) % 256, 8) + ToBits(cur, nbits - 8)
  {
    ToBitsSplit(cur, 8, nbits - 8);
    LowByte(Shr(cur, nbits - 8));
    ToBitsLow(Shr(cur, nbits - 8), 8);
  }

  lemma PaddedByte(cur: nat, nbits: nat)
    requires nbits < 8
    ensures ToBits(Shl(cur, 8 - nbits) % U64 % 256, 8) == ToBits(cur, nbits) + Repeat(false, 8 - nbits)
  {
    LowByte(Shl(cur, 8 - nbits));
    ToBitsLow(Shl(cur, 8 - nbits), 8);
    TopBits(cur, nbits, 8);
  }

  // ---------------------------------------------------------------- the steps of the loops

  // Between two steps, the bits still to decode are p + ToBits(cur, nbits) + unread: the bits
  // that led to the current node, the pending bits in cur, and the input not read yet.

  function Rest(p: seq<bool>, cur: nat, nbits: nat, unread: seq<bool>): seq<bool> {
    p + ToBits(cur, nbits) + unread
  }

  lemma ByteFirst(v: seq<Byte>)
    requires v != []
    ensures BytesBits(v) == ToBits(v[0], 8) + BytesBits(v[1..])
  {
    BytesBitsAppend([v[0]], v[1..]);
    BytesBitsOne(v[0]);
    assert v == [v[0]] + v[1..];
  }

  predicate UnlockDecoding(u: int) { true }

  ghost predicate Yields(u: int, h: PrefixCode, p: seq<bool>, cur: nat, nbits: nat, v: seq<Byte>, k: nat,
                         buf: seq<Byte>, maxLen: nat, goal: HuffmanResult)
  {
    h.Valid() && k <= |v| && goal == DecodeBits(h, Rest(p, cur, nbits, BytesBits(v[k..])), buf, maxLen)
  }

  /** Decoding the bits still to come after buf, k bytes of v having been read, gives goal. */
  ghost predicate Decoding(h: PrefixCode, p: seq<bool>, cur: nat, nbits: nat, v: seq<Byte>, k: nat,
                           buf: seq<Byte>, maxLen: nat, goal: HuffmanResult)
  {
    match h
    case PrefixCode(codes_, lengths_) =>
      forall u: int :: UnlockDecoding(u) ==> Yields(u, h, p, cur, nbits, v, k, buf, maxLen, goal)
  }

  lemma Opened(h: PrefixCode, p: seq<bool>, cur: nat, nbits: nat, v: seq<Byte>, k: nat,
               buf: seq<Byte>, maxLen: nat, goal: HuffmanResult)
    requires Decoding(h, p, cur, nbits, v, k, buf, maxLen, goal)
    ensures h.Valid() && k <= |v| && goal == DecodeBits(h, Rest(p, cur, nbits, BytesBits(v[k..])), buf, maxLen)
  {
    assert UnlockDecoding(0) && Yields(0, h, p, cur, nbits, v, k, buf, maxLen, goal);
  }

  lemma Closed(h: PrefixCode, p: seq<bool>, cur: nat, nbits: nat, v: seq<Byte>, k: nat,
               buf: seq<Byte>, maxLen: nat, goal: HuffmanResult, rest: seq<bool>)
    requires h.Valid() && k <= |v| && rest == Rest(p, cur, nbits, BytesBits(v[k..]))
    requires goal == DecodeBits(h, rest, buf, maxLen)
    ensures Decoding(h, p, cur, nbits, v, k, buf, maxLen, goal)
  {
  }

  lemma ReadStep(h: PrefixCode, p: seq<bool>, cur: nat, nbits: nat, v: seq<Byte>, k: nat,
                 buf: seq<Byte>, maxLen: nat, goal: HuffmanResult, cur': nat)
    requires nbits < 8 && k < |v| && Decoding(h, p, cur, nbits, v, k, buf, maxLen, goal)
    requires cur' == Or(Shl(cur, 8) % U64, v[k])
    ensures Decoding(h, p, cur', nbits + 8, v, k + 1, buf, maxLen, goal)
  {
    Opened(h, p, cur, nbits, v, k, buf, maxLen, goal);
    var rest := Rest(p, cur, nbits, BytesBits(v[k..]));
    NextBytes(p, cur, nbits, v, k);
    Closed(h, p, cur', nbits + 8, v, k + 1, buf, maxLen, goal, rest);
  }

  lemma NextBytes(p: seq<bool>, cur: nat, nbits: nat, v: seq<Byte>, k: nat)
    requires nbits < 8 && k < |v|
    ensures Rest(p, cur, nbits, BytesBits(v[k..]))
         == Rest(p, Or(Shl(cur, 8) % U64, v[k]), nbits + 8, BytesBits(v[k + 1..]))
  {
    var unread := BytesBits(v[k + 1..]);
    PushByte(cur, nbits, v[k]);
    ByteFirst(v[k..]);
    assert v[k..][1..] == v[k + 1..];
    assert p + ToBits(cur, nbits) + (ToBits(v[k], 8) + unread) == p + (ToBits(cur, nbits) + ToBits(v[k], 8)) + unread;
  }

  lemma InnerStep(h: PrefixCode, p: seq<bool>, cur: nat, nbits: nat, v: seq<Byte>, k: nat,
                  buf: seq<Byte>, maxLen: nat, goal: HuffmanResult, i: Byte, q: seq<bool>)
    requires Decoding(h, p, cur, nbits, v, k, buf, maxLen, goal)
    requires nbits >= 8 && i == Shr(cur, nbits - 8) % 256 && q == p + ToBits(i, 8)
    ensures Decoding(h, q, cur, nbits - 8, v, k, buf, maxLen, goal)
  {
    Opened(h, p, cur, nbits, v, k, buf, maxLen, goal);
    NextBits(p, cur, nbits, BytesBits(v[k..]), i);
    Closed(h, q, cur, nbits - 8, v, k, buf, maxLen, goal, Rest(p, cur, nbits, BytesBits(v[k..])));
  }

  lemma NextBits(p: seq<bool>, cur: nat, nbits: nat, unread: seq<bool>, i: Byte)
    requires nbits >= 8 && i == Shr(cur, nbits - 8) % 256
    ensures Rest(p, cur, nbits, unread) == Rest(p + ToBits(i, 8), cur, nbits - 8, unread)
    ensures p + ToBits(i, 8) <= Rest(p, cur, nbits, unread)
  {
    TopByte(cur, nbits);
    assert p + (ToBits(i, 8) + ToBits(cur, nbits - 8)) + unread == p + ToBits(i, 8) + ToBits(cur, nbits - 8) + unread;
  }

  lemma NilStep(h: PrefixCode, t: Tree, p: seq<bool>, cur: nat, nbits: nat, v: seq<Byte>, k: nat,
                buf: seq<Byte>, maxLen: nat, goal: HuffmanResult, i: Byte, q: seq<bool>)
    requires Decoding(h, p, cur, nbits, v, k, buf, maxLen, goal)
    requires nbits >= 8 && i == Shr(cur, nbits - 8) % 256 && q == p + ToBits(i, 8)
    requires |p| % 8 == 0 && h.Shaped() && EntryHolds(h, t, Nil, q)
    ensures goal == InvalidHuffman
  {
    Opened(h, p, cur, nbits, v, k, buf, maxLen, goal);
    NextBits(p, cur, nbits, BytesBits(v[k..]), i);
    NilEntry(h, t, q, Rest(p, cur, nbits, BytesBits(v[k..])));
  }

  lemma LeafStep(h: PrefixCode, t: Tree, p: seq<bool>, cur: nat, nbits: nat, v: seq<Byte>, k: nat,
                 buf: seq<Byte>, maxLen: nat, goal: HuffmanResult, i: Byte, q: seq<bool>, s: Byte, l: nat)
    requires Decoding(h, p, cur, nbits, v, k, buf, maxLen, goal)
    requires nbits >= 8 && i == Shr(cur, nbits - 8) % 256 && q == p + ToBits(i, 8)
    requires |p| % 8 == 0 && h.Shaped() && EntryHolds(h, t, Leaf(s, l), q)
    requires !(maxLen != 0 && |buf| == maxLen)
    ensures 0 < l <= 8 && Decoding(h, [], cur, nbits - l, v, k, buf + [s], maxLen, goal)
  {
    Opened(h, p, cur, nbits, v, k, buf, maxLen, goal);
    var unread, rest := BytesBits(v[k..]), Rest(p, cur, nbits, BytesBits(v[k..]));
    LeafEntry(h, t, s, l, q);
    NextBits(p, cur, nbits, unread, i);
    LeafMeansCode(h, s, l, p, q, rest, buf, maxLen);
    DropBits(p, cur, nbits, unread, l);
    Closed(h, [], cur, nbits - l, v, k, buf + [s], maxLen, goal, rest[|p| + l..]);
  }

  lemma FullStep(h: PrefixCode, t: Tree, p: seq<bool>, cur: nat, nbits: nat, v: seq<Byte>, k: nat,
                 buf: seq<Byte>, maxLen: nat, goal: HuffmanResult, i: Byte, q: seq<bool>, s: Byte, l: nat)
    requires Decoding(h, p, cur, nbits, v, k, buf, maxLen, goal)
    requires nbits >= 8 && i == Shr(cur, nbits - 8) % 256 && q == p + ToBits(i, 8)
    requires |p| % 8 == 0 && h.Shaped() && EntryHolds(h, t, Leaf(s, l), q)
    requires maxLen != 0 && |buf| == maxLen
    ensures 0 < l <= 8 && goal == StringTooLong
  {
    Opened(h, p, cur, nbits, v, k, buf, maxLen, goal);
    var rest := Rest(p, cur, nbits, BytesBits(v[k..]));
    LeafEntry(h, t, s, l, q);
    NextBits(p, cur, nbits, BytesBits(v[k..]), i);
    LeafMeansCode(h, s, l, p, q, rest, buf, maxLen);
  }

  lemma DropBits(p: seq<bool>, cur: nat, nbits: nat, unread: seq<bool>, l: nat)
    requires l <= nbits
    ensures Rest(p, cur, nbits, unread)[|p| + l..] == Rest([], cur, nbits - l, unread)
  {
    ToBitsSplit(cur, l, nbits - l);
    assert ToBits(cur, nbits)[l..] == ToBits(cur, nbits - l);
  }

  /** The tail: all the input has been read, and the index is filled up with zeros. */
  lemma TailIndex(p: seq<bool>, cur: nat, nbits: nat, i: Byte)
    requires nbits < 8 && i == Shl(cur, 8 - nbits) % U64 % 256
    ensures p + ToBits(i, 8) == Rest(p, cur, nbits, []) + Repeat(false, 8 - nbits)
  {
    PaddedByte(cur, nbits);
  }

  lemma TailNil(h: PrefixCode, t: Tree, p: seq<bool>, cur: nat, nbits: nat, v: seq<Byte>,
                buf: seq<Byte>, maxLen: nat, goal: HuffmanResult, i: Byte, q: seq<bool>)
    requires Decoding(h, p, cur, nbits, v, |v|, buf, maxLen, goal)
    requires 0 < nbits < 8 && i == Shl(cur, 8 - nbits) % U64 % 256 && q == p + ToBits(i, 8)
    requires |p| % 8 == 0 && h.Shaped() && |p| <= 24 && EntryHolds(h, t, Nil, q)
    ensures goal == NilNode
  {
    var rest := TailRest(h, p, cur, nbits, v, buf, maxLen, goal);
    TailIndex(p, cur, nbits, i);
    NilEntry(h, t, q, rest);
    TailIsOnes(h, q, rest);
  }

  lemma TailRest(h: PrefixCode, p: seq<bool>, cur: nat, nbits: nat, v: seq<Byte>,
                 buf: seq<Byte>, maxLen: nat, goal: HuffmanResult) returns (rest: seq<bool>)
    requires Decoding(h, p, cur, nbits, v, |v|, buf, maxLen, goal)
    ensures h.Valid() && rest == Rest(p, cur, nbits, []) && goal == DecodeBits(h, rest, buf, maxLen)
  {
    assert BytesBits(v[|v|..]) == [];
    Opened(h, p, cur, nbits, v, |v|, buf, maxLen, goal);
    rest := Rest(p, cur, nbits, []);
  }

  lemma TailInner(h: PrefixCode, p: seq<bool>, cur: nat, nbits: nat, v: seq<Byte>,
                  buf: seq<Byte>, maxLen: nat, goal: HuffmanResult, i: Byte, q: seq<bool>)
    requires Decoding(h, p, cur, nbits, v, |v|, buf, maxLen, goal)
    requires nbits < 8 && i == Shl(cur, 8 - nbits) % U64 % 256 && q == p + ToBits(i, 8)
    requires h.Shaped() && Live(h, q, 256)
    ensures goal == HuffmanOk(buf)
  {
    var rest := TailRest(h, p, cur, nbits, v, buf, maxLen, goal);
    TailIndex(p, cur, nbits, i);
    InnerMeansNoCode(h, q, rest);
  }

  lemma TailLeaf(h: PrefixCode, t: Tree, p: seq<bool>, cur: nat, nbits: nat, v: seq<Byte>,
                 buf: seq<Byte>, maxLen: nat, goal: HuffmanResult, i: Byte, q: seq<bool>, s: Byte, l: nat)
    requires Decoding(h, p, cur, nbits, v, |v|, buf, maxLen, goal)
    requires 0 < nbits < 8 && i == Shl(cur, 8 - nbits) % U64 % 256 && q == p + ToBits(i, 8)
    requires |p| % 8 == 0 && h.Shaped() && EntryHolds(h, t, Leaf(s, l), q)
    ensures 0 < l
    ensures l > nbits ==> goal == HuffmanOk(buf)
    ensures l <= nbits ==> Decoding(h, [], cur, nbits - l, v, |v|, buf + [s], maxLen, goal)
  {
    var rest := TailRest(h, p, cur, nbits, v, buf, maxLen, goal);
    LeafEntry(h, t, s, l, q);
    TailIndex(p, cur, nbits, i);
    if l > nbits {
      LeafTooLong(h, s, q, rest);
    } else {
      TailCode(h, s, l, p, rest, q, buf, maxLen);
      DropBits(p, cur, nbits, [], l);
      assert BytesBits(v[|v|..]) == [];
      Closed(h, [], cur, nbits - l, v, |v|, buf + [s], maxLen, goal, rest[|p| + l..]);
    }
  }

  /** Nothing pending: the walk ended at a node, which may be the root. */
  lemma TailEnd(h: PrefixCode, p: seq<bool>, cur: nat, v: seq<Byte>, buf: seq<Byte>, maxLen: nat, goal: HuffmanResult)
    requires Decoding(h, p, cur, 0, v, |v|, buf, maxLen, goal)
    requires h.Shaped() && (p == [] || Live(h, p, 256))
    ensures goal == HuffmanOk(buf)
  {
    var rest := TailRest(h, p, cur, 0, v, buf, maxLen, goal);
    assert rest == p;
    if p == [] {
      assert p == Repeat(true, 0);
      OnesStartNothing(h, 0);
    } else {
      InnerMeansNoCode(h, p, p);
    }
  }

  // ---------------------------------------------------------------- the state of the walk

  predicate UnlockNode(u: int) { true }

  ghost predicate NodeAt(u: int, t: Tree, n: nat, p: seq<bool>)
  {
    n < |t.nodes| == |t.paths| && t.paths[n] == p
  }

  /** Node n is the one that the bits p lead to. */
  ghost predicate At(t: Tree, n: nat, p: seq<bool>)
  {
    match t
    case Tree(nodes_, paths_, index_) => forall u: int :: UnlockNode(u) ==> NodeAt(u, t, n, p)
  }

  /** What is known about the child of node n at byte i. */
  lemma ChildAt(h: PrefixCode, t: Tree, n: nat, p: seq<bool>, i: Byte, q: seq<bool>)
    requires h.Valid() && TreeOk(h, t, 256, 256) && At(t, n, p) && q == p + ToBits(i, 8)
    ensures n < |t.nodes| && |t.nodes[n]| == 256 && |p| % 8 == 0 && |p| <= 24
    ensures EntryHolds(h, t, t.nodes[n][i], q)
    ensures t.nodes[n][i].Inner? ==> Live(h, q, 256) && At(t, t.nodes[n][i].id, q)
  {
    assert UnlockNode(0) && NodeAt(0, t, n, p);
    OpenTree(h, t, 256, 256);
    EntryAt(h, t, n, i);
    ShortPath(h, t, p);
  }

  lemma LiveAt(h: PrefixCode, t: Tree, n: nat, p: seq<bool>)
    requires h.Valid() && TreeOk(h, t, 256, 256) && At(t, n, p)
    ensures p == [] || Live(h, p, 256)
  {
    assert UnlockNode(0) && NodeAt(0, t, n, p);
    OpenTree(h, t, 256, 256);
    assert p in t.index;
  }

  lemma RootAt(h: PrefixCode, t: Tree)
    requires h.Valid() && TreeOk(h, t, 256, 256)
    ensures At(t, 0, [])
  {
    OpenTree(h, t, 256, 256);
  }

  /** The state between two steps: the walk stands at some node n of the finished tree. */
  ghost predicate State(h: PrefixCode, t: Tree, goal: HuffmanResult, maxLen: nat, v: seq<Byte>, k: nat,
                        n: nat, cur: nat, nbits: nat, buf: seq<Byte>)
  {
    exists p: seq<bool> {:trigger Decoding(h, p, cur, nbits, v, k, buf, maxLen, goal)} ::
      At(t, n, p) && h.Valid() && TreeOk(h, t, 256, 256) && Decoding(h, p, cur, nbits, v, k, buf, maxLen, goal)
  }

  lemma PathOf(h: PrefixCode, t: Tree, goal: HuffmanResult, maxLen: nat, v: seq<Byte>, k: nat,
               n: nat, cur: nat, nbits: nat, buf: seq<Byte>) returns (p: seq<bool>)
    requires State(h, t, goal, maxLen, v, k, n, cur, nbits, buf)
    ensures At(t, n, p) && h.Valid() && TreeOk(h, t, 256, 256) && Decoding(h, p, cur, nbits, v, k, buf, maxLen, goal)
  {
    p :| At(t, n, p) && h.Valid() && TreeOk(h, t, 256, 256) && Decoding(h, p, cur, nbits, v, k, buf, maxLen, goal);
  }

  lemma StateAt(h: PrefixCode, t: Tree, goal: HuffmanResult, maxLen: nat, v: seq<Byte>, k: nat,
                n: nat, cur: nat, nbits: nat, buf: seq<Byte>, p: seq<bool>)
    requires At(t, n, p) && h.Valid() && TreeOk(h, t, 256, 256) && Decoding(h, p, cur, nbits, v, k, buf, maxLen, goal)
    ensures State(h, t, goal, maxLen, v, k, n, cur, nbits, buf)
  {
  }

  lemma StartState(h: PrefixCode, t: Tree, maxLen: nat, v: seq<Byte>, goal: HuffmanResult)
    requires h.Valid() && TreeOk(h, t, 256, 256) && goal == DecodeBits(h, BytesBits(v), [], maxLen)
    ensures State(h, t, goal, maxLen, v, 0, 0, 0, 0, [])
  {
    RootAt(h, t);
    assert v[0..] == v;
    assert Rest([], 0, 0, BytesBits(v)) == BytesBits(v);
    Closed(h, [], 0, 0, v, 0, [], maxLen, goal, BytesBits(v));
    StateAt(h, t, goal, maxLen, v, 0, 0, 0, 0, [], []);
  }

  lemma ReadState(h: PrefixCode, t: Tree, goal: HuffmanResult, maxLen: nat, v: seq<Byte>, k: nat,
                  n: nat, cur: nat, nbits: nat, buf: seq<Byte>, cur': nat)
    requires k < |v| && nbits < 8 && State(h, t, goal, maxLen, v, k, n, cur, nbits, buf)
    requires cur' == Or(Shl(cur, 8) % U64, v[k])
    ensures State(h, t, goal, maxLen, v, k + 1, n, cur', nbits + 8, buf)
  {
    var p := PathOf(h, t, goal, maxLen, v, k, n, cur, nbits, buf);
    ReadStep(h, p, cur, nbits, v, k, buf, maxLen, goal, cur');
    StateAt(h, t, goal, maxLen, v, k + 1, n, cur', nbits + 8, buf, p);
  }

  /** What the child c of node n, the one at the next byte, says. */
  ghost predicate StepOf(h: PrefixCode, t: Tree, goal: HuffmanResult, maxLen: nat, v: seq<Byte>, k: nat,
                         cur: nat, nbits: nat, buf: seq<Byte>, c: Slot)
    requires nbits >= 8
  {
    match c
    case Nil => goal == InvalidHuffman
    case Inner(id) => State(h, t, goal, maxLen, v, k, id, cur, nbits - 8, buf)
    case Leaf(s, l) =>
      && 0 < l <= 8
      && (maxLen != 0 && |buf| == maxLen ==> goal == StringTooLong)
      && (!(maxLen != 0 && |buf| == maxLen) ==> State(h, t, goal, maxLen, v, k, 0, cur, nbits - l, buf + [s]))
  }

  lemma StepState(h: PrefixCode, t: Tree, goal: HuffmanResult, maxLen: nat, v: seq<Byte>, k: nat,
                  n: nat, cur: nat, nbits: nat, buf: seq<Byte>, i: Byte)
    requires State(h, t, goal, maxLen, v, k, n, cur, nbits, buf)
    requires nbits >= 8 && i == Shr(cur, nbits - 8) % 256
    ensures n < |t.nodes| && |t.nodes[n]| == 256
    ensures StepOf(h, t, goal, maxLen, v, k, cur, nbits, buf, t.nodes[n][i])
  {
    var p := PathOf(h, t, goal, maxLen, v, k, n, cur, nbits, buf);
    var q := p + ToBits(i, 8);
    ChildAt(h, t, n, p, i, q);
    StepAt(h, t, goal, maxLen, v, k, cur, nbits, buf, i, p, q, t.nodes[n][i]);
  }

  lemma StepAt(h: PrefixCode, t: Tree, goal: HuffmanResult, maxLen: nat, v: seq<Byte>, k: nat,
               cur: nat, nbits: nat, buf: seq<Byte>, i: Byte, p: seq<bool>, q: seq<bool>, c: Slot)
    requires Decoding(h, p, cur, nbits, v, k, buf, maxLen, goal)
    requires nbits >= 8 && i == Shr(cur, nbits - 8) % 256 && q == p + ToBits(i, 8)
    requires |p| % 8 == 0 && h.Valid() && TreeOk(h, t, 256, 256) && EntryHolds(h, t, c, q)
    requires c.Inner? ==> At(t, c.id, q)
    ensures StepOf(h, t, goal, maxLen, v, k, cur, nbits, buf, c)
  {
    match c
    case Nil =>
      NilStep(h, t, p, cur, nbits, v, k, buf, maxLen, goal, i, q);
    case Inner(id) =>
      InnerStep(h, p, cur, nbits, v, k, buf, maxLen, goal, i, q);
      StateAt(h, t, goal, maxLen, v, k, id, cur, nbits - 8, buf, q);
    case Leaf(s, l) =>
      if maxLen != 0 && |buf| == maxLen {
        FullStep(h, t, p, cur, nbits, v, k, buf, maxLen, goal, i, q, s, l);
      } else {
        LeafStep(h, t, p, cur, nbits, v, k, buf, maxLen, goal, i, q, s, l);
        RootAt(h, t);
        StateAt(h, t, goal, maxLen, v, k, 0, cur, nbits - l, buf + [s], []);
      }
  }

  /** The same in the tail, where the index is filled up with zeros. */
  ghost predicate TailOf(h: PrefixCode, t: Tree, goal: HuffmanResult, maxLen: nat, v: seq<Byte>,
                         cur: nat, nbits: nat, buf: seq<Byte>, c: Slot)
  {
    match c
    case Nil => goal == NilNode
    case Inner(id) => goal == HuffmanOk(buf)
    case Leaf(s, l) =>
      && 0 < l
      && (l > nbits ==> goal == HuffmanOk(buf))
      && (l <= nbits ==> State(h, t, goal, maxLen, v, |v|, 0, cur, nbits - l, buf + [s]))
  }

  lemma TailState(h: PrefixCode, t: Tree, goal: HuffmanResult, maxLen: nat, v: seq<Byte>,
                  n: nat, cur: nat, nbits: nat, buf: seq<Byte>, i: Byte)
    requires State(h, t, goal, maxLen, v, |v|, n, cur, nbits, buf)
    requires 0 < nbits < 8 && i == Shl(cur, 8 - nbits) % U64 % 256
    ensures n < |t.nodes| && |t.nodes[n]| == 256
    ensures TailOf(h, t, goal, maxLen, v, cur, nbits, buf, t.nodes[n][i])
  {
    var p := PathOf(h, t, goal, maxLen, v, |v|, n, cur, nbits, buf);
    var q := p + ToBits(i, 8);
    ChildAt(h, t, n, p, i, q);
    RootAt(h, t);
    match t.nodes[n][i]
    case Nil => TailNil(h, t, p, cur, nbits, v, buf, maxLen, goal, i, q);
    case Inner(id) => TailInner(h, p, cur, nbits, v, buf, maxLen, goal, i, q);
    case Leaf(s, l) =>
      TailLeaf(h, t, p, cur, nbits, v, buf, maxLen, goal, i, q, s, l);
      if l <= nbits {
        StateAt(h, t, goal, maxLen, v, |v|, 0, cur, nbits - l, buf + [s], []);
      }
  }

  lemma EndState(h: PrefixCode, t: Tree, goal: HuffmanResult, maxLen: nat, v: seq<Byte>, n: nat, cur: nat,
      buf: seq<Byte>)
    requires State(h, t, goal, maxLen, v, |v|, n, cur, 0, buf)
    ensures goal == HuffmanOk(buf)
  {
    var p := PathOf(h, t, goal, maxLen, v, |v|, n, cur, 0, buf);
    LiveAt(h, t, n, p);
    TailEnd(h, p, cur, v, buf, maxLen, goal);
  }

  class HuffmanTree {
    const h: PrefixCode
    var nodes: seq<seq<Slot>>
    ghost var paths: seq<seq<bool>>
    ghost var index: map<seq<bool>, nat>

    ghost function Contents(): Tree
      reads this
    {
      Tree(nodes, paths, index)
    }

    /** The tree holds exactly the symbols below n. */
    ghost predicate Valid(n: nat)
      reads this
    {
      match Contents()
      case Tree(nodes_, paths_, index_) => h.Valid() && TreeOk(h, Contents(), n, n)
    }

    /** Builds the tree of all 256 symbols, as the package does when it is initialised. */
    constructor (h: PrefixCode)
      requires h.Valid()
      ensures this.h == h && Valid(256)
    {
      this.h := h;
      nodes := [NoChildren()];
      paths := [[]];
      index := map[[] := 0];
      new;
      EmptyTreeOk(h);
      for i := 0 to 256
        invariant Valid(i)
      {
        AddDecoderNode(i);
      }
    }

    method AddDecoderNode(sym: Byte)
      requires Valid(sym)
      modifies this
      ensures Valid(sym + 1)
    {
      var code, codeLen := h.Code(sym), h.Len(sym);
      var cur: nat := 0;
      OnRoot(h, Contents(), sym);
      while codeLen > 8
        invariant OnPath(h, Contents(), sym, cur, codeLen)
      {
        Descend(h, Contents(), sym, cur, codeLen);
        codeLen := codeLen - 8;
        var i := Shr(code, codeLen) % 256;
        if nodes[cur][i] == Nil {
          AddInternalNode(cur, i);
        }
        cur := nodes[cur][i].id;
      }
      var shift := 8 - codeLen;
      var start, end := Shl(code, shift) % U32 % 256, Shl(1, shift);
      for i := start to start + end
        invariant FilledTo(h, Contents(), sym, cur, codeLen, i)
      {
        FillStep(h, Contents(), sym, cur, codeLen, i);
        nodes := nodes[cur := nodes[cur][i := Leaf(sym, codeLen)]];
      }
      AllFilled(h, Contents(), sym, cur, codeLen);
    }

    /** A new node with 256 nil children, reached from cur by byte i. */
    method AddInternalNode(cur: nat, i: Byte)
      requires cur < |nodes| == |paths| && |nodes[cur]| == 256
      modifies this
      ensures Contents() == Grown(old(Contents()), cur, i)
    {
      var id := |nodes|;
      index := index[paths[cur] + ToBits(i, 8) := id];
      paths := paths + [paths[cur] + ToBits(i, 8)];
      nodes := nodes[cur := nodes[cur][i := Inner(id)]] + [NoChildren()];
    }

    method HuffmanDecode(maxLen: nat, v: seq<Byte>) returns (r: HuffmanResult)
      requires Valid(256)
      ensures r == DecodeBits(h, BytesBits(v), [], maxLen)
    {
      ghost var goal := DecodeBits(h, BytesBits(v), [], maxLen);
      StartState(h, Contents(), maxLen, v, goal);
      r := Walk(maxLen, v, goal);
    }

    /** The two loops of the decoder. */
    method Walk(maxLen: nat, v: seq<Byte>, ghost goal: HuffmanResult) returns (r: HuffmanResult)
      requires State(h, Contents(), goal, maxLen, v, 0, 0, 0, 0, [])
      ensures r == goal
    {
      ghost var t := Contents();
      var buf: seq<Byte> := [];
      var n: nat, cur: nat, nbits: nat := 0, 0, 0;
      for k := 0 to |v|
        invariant nbits < 8 && State(h, t, goal, maxLen, v, k, n, cur, nbits, buf)
      {
        var cur' := Or(Shl(cur, 8) % U64, v[k]);
        ReadState(h, t, goal, maxLen, v, k, n, cur, nbits, buf, cur');
        cur := cur';
        nbits := nbits + 8;
        while nbits >= 8
          invariant nbits < 16 && State(h, t, goal, maxLen, v, k + 1, n, cur, nbits, buf)
        {
          var idx := Shr(cur, nbits - 8) % 256;
          StepState(h, t, goal, maxLen, v, k + 1, n, cur, nbits, buf, idx);
          match nodes[n][idx] {
            case Nil =>
              return InvalidHuffman;
            case Leaf(sym, codeLen) =>
              if maxLen != 0 && |buf| == maxLen {
                return StringTooLong;
              }
              buf := buf + [sym];
              nbits := nbits - codeLen;
              n := 0;
            case Inner(id) =>
              n := id;
              nbits := nbits - 8;
          }
        }
      }
      while nbits > 0
        invariant nbits < 8 && State(h, t, goal, maxLen, v, |v|, n, cur, nbits, buf)
      {
        var idx := Shl(cur, 8 - nbits) % U64 % 256;
        TailState(h, t, goal, maxLen, v, n, cur, nbits, buf, idx);
        match nodes[n][idx] {
          case Nil =>
            return NilNode;
          case Inner(_) =>
            return HuffmanOk(buf);
          case Leaf(sym, codeLen) =>
            if codeLen > nbits {
              return HuffmanOk(buf);
            }
            buf := buf + [sym];
            nbits := nbits - codeLen;
            n := 0;
        }
      }
      EndState(h, t, goal, maxLen, v, n, cur, buf);
      return HuffmanOk(buf);
    }
  }
}
