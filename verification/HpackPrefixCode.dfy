/** Binary codes for bytes, as the Huffman coder of HPACK uses them: tables of codes
    and lengths, and what makes such tables decodable. */
module HpackPrefixCode {
  import opened Bits

  const MIN_LEN := 5
  const MAX_LEN := 30

  // A large predicate P is stated as "forall u :: UnlockP(u) ==> P(u)", where UnlockP is always
  // true and P ignores its argument u. The verifier then passes P on as a whole, and unfolds it
  // only where a proof asserts UnlockP(0).
  predicate UnlockCode(u: int) { true }

  /** Two tables of sixteen rows of sixteen symbols. */
  datatype PrefixCode = PrefixCode(codes: seq<seq<nat>>, lengths: seq<seq<nat>>) {

    ghost predicate Shaped() {
      && |codes| == |lengths| == 16
      && forall r :: 0 <= r < 16 ==> |codes[r]| == |lengths[r]| == 16
    }

    function Code(s: Byte): nat
      requires Shaped()
    {
      codes[s / 16][s % 16]
    }

    function Len(s: Byte): nat
      requires Shaped()
    {
      lengths[s / 16][s % 16]
    }

    function CodeBits(s: Byte): (b: seq<bool>)
      requires Shaped()
      ensures |b| == Len(s)
    {
      ToBits(Code(s), Len(s))
    }

    ghost predicate ValidSymbol(s: Byte)
      requires Shaped()
    {
      && MIN_LEN <= Len(s) <= MAX_LEN
      && Code(s) < Pow2(Len(s))
      && CodeBits(s) != Repeat(true, Len(s))
    }

    /** Some symbol's code is a prefix of b. */
    ghost predicate Starts(b: seq<bool>)
      requires Shaped()
    {
      exists s: Byte :: CodeBits(s) <= b
    }

    /** Lengths from 5 to 30 bits, no code a prefix of another, none made of ones only,
        and thirty bits always start with a code unless they are thirty ones. */
    ghost predicate Valid() {
      match this
      case PrefixCode(codes_, lengths_) => Shaped() && forall u: int :: UnlockCode(u) ==> Decodable(u)
    }

    ghost predicate Decodable(u: int)
      requires Shaped()
    {
      && (forall s: Byte :: ValidSymbol(s))
      && (forall s: Byte, t: Byte :: CodeBits(s) <= CodeBits(t) ==> s == t)
      && (forall v: nat :: v < 0x3fff_ffff ==> Starts(ToBits(v, MAX_LEN)))
    }
  }

  lemma SymbolShape(h: PrefixCode, s: Byte)
    requires h.Valid()
    ensures MIN_LEN <= h.Len(s) <= MAX_LEN && h.Code(s) < Pow2(h.Len(s)) && h.ValidSymbol(s)
  {
    assert UnlockCode(0) && h.Decodable(0);
    assert h.ValidSymbol(s);
  }

  lemma PrefixFree(h: PrefixCode, s: Byte, t: Byte)
    requires h.Valid()
    ensures h.CodeBits(s) <= h.CodeBits(t) ==> s == t
  {
    assert UnlockCode(0) && h.Decodable(0);
  }

  /** A bit string starts with at most one code. */
  lemma CodeUnique(h: PrefixCode, s: Byte, t: Byte, b: seq<bool>)
    requires h.Valid() && h.CodeBits(s) <= b && h.CodeBits(t) <= b
    ensures s == t
  {
    Comparable(h.CodeBits(s), h.CodeBits(t), b);
    PrefixFree(h, s, t);
    PrefixFree(h, t, s);
  }

  lemma Comparable(c: seq<bool>, d: seq<bool>, b: seq<bool>)
    requires c <= b && d <= b
    ensures if |c| <= |d| then c <= d else d <= c
  {
    assert c == b[..|c|] && d == b[..|d|];
  }

  lemma StartsLonger(h: PrefixCode, e: seq<bool>, b: seq<bool>)
    requires h.Shaped() && e <= b
    ensures h.Starts(e) ==> h.Starts(b)
  {
    if h.Starts(e) {
      var s: Byte :| h.CodeBits(s) <= e;
      assert h.CodeBits(s) <= b;
    }
  }

  /** Fewer than thirty bits always agree with some code, as far as they go. */
  lemma Extends(h: PrefixCode, b: seq<bool>) returns (s: Byte)
    requires h.Valid() && |b| < MAX_LEN
    ensures h.CodeBits(s) <= b || b <= h.CodeBits(s)
  {
    var e := b + Repeat(false, MAX_LEN - |b|);
    assert !e[MAX_LEN - 1];
    s := StartOf(h, e);
    Comparable(h.CodeBits(s), b, e);
  }

  lemma StartOf(h: PrefixCode, e: seq<bool>) returns (s: Byte)
    requires h.Valid() && |e| == MAX_LEN && e != Repeat(true, MAX_LEN)
    ensures h.CodeBits(s) <= e
  {
    var v := FromBits(e);
    ToFromBits(e);
    Pow2Constants();
    if v == 0x3fff_ffff {
      ToBitsOnes(MAX_LEN);
    }
    assert UnlockCode(0) && h.Decodable(0);
    assert h.Starts(ToBits(v, MAX_LEN));
    s :| h.CodeBits(s) <= e;
  }

  /** Without a code at the front, thirty bits are thirty ones. */
  lemma NoCodeMeansOnes(h: PrefixCode, b: seq<bool>)
    requires h.Valid() && |b| >= MAX_LEN && !h.Starts(b)
    ensures forall i :: 0 <= i < MAX_LEN ==> b[i]
  {
    var e := b[..MAX_LEN];
    StartsLonger(h, e, b);
    if e != Repeat(true, MAX_LEN) {
      var s := StartOf(h, e);
    }
    forall i | 0 <= i < MAX_LEN ensures b[i] {
      assert b[i] == e[i];
    }
  }

  /** Padding never looks like a symbol. */
  lemma OnesStartNothing(h: PrefixCode, n: nat)
    requires h.Valid()
    ensures !h.Starts(Repeat(true, n))
  {
    forall s: Byte ensures !(h.CodeBits(s) <= Repeat(true, n)) {
      SymbolShape(h, s);
      if h.CodeBits(s) <= Repeat(true, n) {
        PrefixOfOnes(h.CodeBits(s), n);
      }
    }
  }

  lemma PrefixOfOnes(c: seq<bool>, n: nat)
    requires c <= Repeat(true, n)
    ensures c == Repeat(true, |c|)
  {
  }
}
