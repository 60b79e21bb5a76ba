/** The HPACK encoder: representations of header fields (RFC 7541, section 6), the pending
    table size updates, and the object that keeps them. */
module HpackEncoder {
  import opened Bits
  import opened HpackPrefixCode
  import opened HpackHuffmanEncoder
  import opened HpackVarInt
  import opened HpackTable

  const INITIAL_TABLE_SIZE := 4096
  const UINT32_MAX := 0xffff_ffff

  /** Strings that fit in memory, by a wide margin. */
  const MEMORY := 0x0400_0000_0000_0000

  predicate InMemory(f: HeaderField) {
    |f.name| < MEMORY && |f.value| < MEMORY
  }

  // ---------------------------------------------------------------- representations

  /** An integer with an n-bit prefix, and tag in the bits above the prefix. */
  function Tagged(n: nat, tag: nat, i: nat): (r: seq<Byte>)
    requires 4 <= n <= 7 && tag <= 1
    ensures |r| > 0
  {
    TagFits(n, tag, EncodeInt(n, i)[0]);
    EncodeInt(n, i)[0 := Shl(tag, n) + EncodeInt(n, i)[0]]
  }

  lemma TagFits(n: nat, tag: nat, x: nat)
    requires 4 <= n <= 7 && tag <= 1 && x < Pow2(n)
    ensures Shl(tag, n) <= Shl(tag, n) + x < 256 && Shl(tag, n) == tag * Pow2(n)
  {
    ShlIsMul(tag, n);
    Pow2Mono(n, 7);
    Pow2Constants();
  }

  function EncodeString(h: PrefixCode, s: seq<Byte>): seq<Byte>
    requires h.Shaped()
  {
    if HuffmanLength(h, s) < |s| then Tagged(7, 1, HuffmanLength(h, s)) + HuffmanBytes(h, s)
    else Tagged(7, 0, |s|) + s
  }

  function LiteralPrefix(indexing: bool): nat { if indexing then 6 else 4 }

  function LiteralTag(indexing: bool, sensitive: bool): nat { if indexing || sensitive then 1 else 0 }

  /** A literal: with an index, or with index zero and the name spelled out. */
  function Literal(h: PrefixCode, f: HeaderField, i: nat, indexing: bool): seq<Byte>
    requires h.Shaped()
  {
    Tagged(LiteralPrefix(indexing), LiteralTag(indexing, f.sensitive), i)
    + (if i == 0 then EncodeString(h, f.name) else [])
    + EncodeString(h, f.value)
  }

  function SizeUpdate(v: nat): seq<Byte> {
    Tagged(5, 1, v)
  }

  // ---------------------------------------------------------------- specification

  datatype EncState = EncState(ents: seq<HeaderField>, max: nat, minSize: nat, limit: nat, update: bool) {
    ghost predicate Valid() {
      TableSize(ents) <= max < U32 && minSize < U32 && limit < U32
    }
  }

  function NewEncoder(): EncState {
    EncState([], INITIAL_TABLE_SIZE, UINT32_MAX, INITIAL_TABLE_SIZE, false)
  }

  function SetMax(e: EncState, size: nat): EncState {
    var v := if size > e.limit then e.limit else size;
    e.(ents := Evicted(e.ents, v), max := v, minSize := if v < e.minSize then v else e.minSize, update := true)
  }

  function SetLimit(e: EncState, v: nat): EncState {
    if e.max > v then e.(ents := Evicted(e.ents, v), max := v, limit := v, update := true)
    else e.(limit := v)
  }

  /** What has to be announced before the next field: the smallest size, if the table has been
      smaller than it is now, and the present size. */
  function Updates(e: EncState): seq<Byte> {
    if e.update then SizeUpdates(e.minSize, e.max) else []
  }

  function SizeUpdates(min: nat, max: nat): seq<Byte> {
    (if min < max then SizeUpdate(min) else []) + SizeUpdate(max)
  }

  function Announced(e: EncState): EncState {
    if e.update then e.(minSize := UINT32_MAX, update := false) else e
  }

  predicate ShouldIndex(e: EncState, f: HeaderField) {
    !f.sensitive && FieldSize(f) <= e.max
  }

  /** The bytes of f alone. */
  function FieldBytes(c: Constants, e: EncState, f: HeaderField): seq<Byte>
    requires c.huffman.Shaped()
  {
    var s := SearchTable(c, e.ents, f);
    if s.full then Tagged(7, 1, s.index)
    else Literal(c.huffman, f, s.index, ShouldIndex(e, f))
  }

  function Indexed(c: Constants, e: EncState, f: HeaderField): EncState {
    if !SearchTable(c, e.ents, f).full && ShouldIndex(e, f)
    then e.(ents := Evicted(e.ents + [f], e.max))
    else e
  }

  function WriteBytes(c: Constants, e: EncState, f: HeaderField): seq<Byte>
    requires c.huffman.Shaped()
  {
    Updates(e) + FieldBytes(c, Announced(e), f)
  }

  function WriteState(c: Constants, e: EncState, f: HeaderField): EncState {
    Indexed(c, Announced(e), f)
  }

  // ---------------------------------------------------------------- appending

  /** dst[first] |= tag bits, where dst[first] starts an integer with an n-bit prefix. */
  lemma TagIsOr(n: nat, tag: nat, i: nat, dst: seq<Byte>, rest: seq<Byte>)
    requires 4 <= n <= 7 && tag <= 1
    ensures var out := dst + EncodeInt(n, i) + rest;
      && Or(out[|dst|], Shl(tag, n)) < 256
      && out[|dst| := Or(out[|dst|], Shl(tag, n))] == dst + Tagged(n, tag, i) + rest
  {
    var e := EncodeInt(n, i);
    OrDisjoint(tag, e[0], n);
    OrCommutes(e[0], Shl(tag, n));
    TagFits(n, tag, e[0]);
    var x := Shl(tag, n) + e[0];
    SetMiddle(dst, e, rest, x);
  }

  lemma SetMiddle(dst: seq<Byte>, e: seq<Byte>, rest: seq<Byte>, x: Byte)
    requires e != []
    ensures (dst + e + rest)[|dst|] == e[0]
    ensures (dst + e + rest)[|dst| := x] == dst + e[0 := x] + rest
  {
  }

  lemma TagBits()
    ensures Shl(1, 7) == 0x80 && Shl(1, 6) == 0x40 && Shl(1, 5) == 0x20 && Shl(1, 4) == 0x10
    ensures forall n: nat {:trigger Shl(0, n)} :: Shl(0, n) == 0
  {
    forall n: nat ensures Shl(0, n) == 0 { ShlIsMul(0, n); }
    ShlIsMul(1, 7);
    ShlIsMul(1, 6);
    ShlIsMul(1, 5);
    ShlIsMul(1, 4);
    Pow2Constants();
  }

  method AppendTagged(dst: seq<Byte>, n: nat, tag: nat, i: nat) returns (out: seq<Byte>)
    requires 4 <= n <= 7 && tag <= 1 && i < U64
    ensures out == dst + Tagged(n, tag, i)
  {
    TagFits(n, tag, 0);
    out := AppendVarInt(dst, n, i);
    out := OrTag(out, |dst|, Shl(tag, n), n, tag, i, []);
  }

  /** dst[first] |= b, where an integer starts at first. */
  method OrTag(dst: seq<Byte>, first: nat, b: Byte, ghost n: nat, ghost tag: nat, ghost i: nat, ghost rest: seq<Byte>)
    returns (out: seq<Byte>)
    requires 4 <= n <= 7 && tag <= 1 && b == Shl(tag, n)
    requires first <= |dst| && dst[first..] == EncodeInt(n, i) + rest
    ensures out == dst[..first] + Tagged(n, tag, i) + rest
  {
    assert dst == dst[..first] + EncodeInt(n, i) + rest;
    TagIsOr(n, tag, i, dst[..first], rest);
    out := dst[first := Or(dst[first], b)];
  }

  /** Uses the Huffman code only where it makes the string strictly shorter. */
  method AppendHpackString(h: PrefixCode, dst: seq<Byte>, s: seq<Byte>) returns (out: seq<Byte>)
    requires h.Valid() && |s| < MEMORY
    ensures out == dst + EncodeString(h, s)
  {
    var huffmanLength := HuffmanEncodeLength(h, s);
    if huffmanLength < |s| {
      var first := |dst|;
      out := AppendVarInt(dst, 7, huffmanLength);
      out := AppendHuffmanString(h, out, s);
      TagBits();
      out := OrTag(out, first, 0x80, 7, 1, huffmanLength, HuffmanBytes(h, s));
    } else {
      out := AppendVarInt(dst, 7, |s|);
      TagIsOr(7, 0, |s|, dst, s);
      NoTag(|s|);
      out := out + s;
    }
  }

  lemma NoTag(i: nat)
    ensures Tagged(7, 0, i) == EncodeInt(7, i)
  {
    TagBits();
  }

  /** The type byte of a literal. */
  function TypeByte(indexing: bool, sensitive: bool): (b: Byte)
    ensures !(indexing && sensitive) ==> b == Shl(LiteralTag(indexing, sensitive), LiteralPrefix(indexing))
  {
    TagBits();
    if sensitive then 0x10 else if indexing then 0x40 else 0
  }

  method AppendNewName(h: PrefixCode, dst: seq<Byte>, f: HeaderField, indexing: bool) returns (out: seq<Byte>)
    requires h.Valid() && InMemory(f) && !(indexing && f.sensitive)
    ensures out == dst + Literal(h, f, 0, indexing)
  {
    ghost var n, tag := LiteralPrefix(indexing), LiteralTag(indexing, f.sensitive);
    ZeroPrefix(n, tag);
    var b := TypeByte(indexing, f.sensitive);
    out := dst + [b];
    assert out == dst + Tagged(n, tag, 0);
    out := AppendHpackString(h, out, f.name);
    out := AppendHpackString(h, out, f.value);
    Regroup(dst, Tagged(n, tag, 0), EncodeString(h, f.name), EncodeString(h, f.value));
  }

  lemma Regroup(a: seq<Byte>, b: seq<Byte>, c: seq<Byte>, d: seq<Byte>)
    ensures ((a + b) + c) + d == a + ((b + c) + d) == (a + b) + (c + d)
  {
  }

  lemma ZeroPrefix(n: nat, tag: nat)
    requires 4 <= n <= 7 && tag <= 1
    ensures Shl(tag, n) < 256 && Tagged(n, tag, 0) == [Shl(tag, n)]
  {
    Pow2Mono(1, n);
    Pow2Constants();
    TagFits(n, tag, 0);
  }

  method AppendIndexedName(h: PrefixCode, dst: seq<Byte>, f: HeaderField, i: nat, indexing: bool)
    returns (out: seq<Byte>)
    requires h.Valid() && InMemory(f) && !(indexing && f.sensitive) && 0 < i < U64
    ensures out == dst + Literal(h, f, i, indexing)
  {
    var first, n := |dst|, LiteralPrefix(indexing);
    ghost var tag := LiteralTag(indexing, f.sensitive);
    out := AppendVarInt(dst, n, i);
    out := OrTag(out, first, TypeByte(indexing, f.sensitive), n, tag, i, []);
    assert out == dst + Tagged(n, tag, i);
    out := AppendHpackString(h, out, f.value);
    Regroup(dst, Tagged(n, tag, i), [], EncodeString(h, f.value));
  }

  method AppendTableSize(dst: seq<Byte>, v: nat) returns (out: seq<Byte>)
    requires v < U32
    ensures out == dst + SizeUpdate(v)
  {
    out := AppendTagged(dst, 5, 1, v);
  }

  method AppendSizeUpdates(dst: seq<Byte>, min: nat, max: nat) returns (out: seq<Byte>)
    requires min < U32 && max < U32
    ensures out == dst + SizeUpdates(min, max)
  {
    out := dst;
    if min < max {
      out := AppendTableSize(out, min);
    }
    out := AppendTableSize(out, max);
  }

  lemma BothParts(c: Constants, e: EncState, f: HeaderField, e1: EncState, start: seq<Byte>, e2: EncState,
      out: seq<Byte>)
    requires c.huffman.Shaped() && e1 == Announced(e) && start == [] + Updates(e)
    requires e2 == Indexed(c, e1, f) && out == start + FieldBytes(c, e1, f)
    ensures e2 == WriteState(c, e, f) && out == WriteBytes(c, e, f)
  {
    assert [] + Updates(e) == Updates(e);
  }

  // ---------------------------------------------------------------- the encoder in memory

  class Encoder {
    const c: Constants
    const dynTab: DynamicTable
    var minSize: nat
    var maxSizeLimit: nat
    var tableSizeUpdate: bool
    var buf: seq<Byte>

    ghost predicate Valid()
      reads this, dynTab
    {
      c.Usable() && dynTab.Valid() && minSize < U32 && maxSizeLimit < U32
    }

    ghost function State(): EncState
      reads this, dynTab
    {
      EncState(dynTab.ents, dynTab.maxSize, minSize, maxSizeLimit, tableSizeUpdate)
    }

    constructor (c: Constants)
      requires c.Usable()
      ensures Valid() && fresh(dynTab) && this.c == c && State() == NewEncoder()
    {
      this.c := c;
      minSize, maxSizeLimit, tableSizeUpdate := UINT32_MAX, INITIAL_TABLE_SIZE, false;
      dynTab := new DynamicTable(INITIAL_TABLE_SIZE, 0);
      buf := [];
    }

    /** Leaves in buf what one Write hands to the underlying writer. */
    method WriteField(f: HeaderField)
      requires Valid() && InMemory(f) && |dynTab.ents| < MEMORY
      modifies this, dynTab
      ensures Valid() && State() == WriteState(c, old(State()), f)
      ensures buf == WriteBytes(c, old(State()), f)
    {
      ghost var e := State();
      buf := [];
      AppendUpdates();
      ghost var e1, start := State(), buf;
      AppendField(f);
      BothParts(c, e, f, e1, start, State(), buf);
    }

    method AppendUpdates()
      requires Valid()
      modifies this
      ensures Valid() && State() == Announced(old(State()))
      ensures buf == old(buf) + Updates(old(State()))
    {
      if tableSizeUpdate {
        tableSizeUpdate := false;
        buf := AppendSizeUpdates(buf, minSize, dynTab.maxSize);
        minSize := UINT32_MAX;
      }
    }

    method AppendField(f: HeaderField)
      requires Valid() && InMemory(f) && |dynTab.ents| < MEMORY
      modifies this, dynTab
      ensures Valid() && State() == Indexed(c, old(State()), f)
      ensures buf == old(buf) + FieldBytes(c, old(State()), f)
    {
      var found := SearchBoth(f);
      if found.full {
        buf := AppendTagged(buf, 7, 1, found.index);
      } else {
        var indexing := !f.sensitive && FieldSize(f) <= dynTab.maxSize;
        if indexing {
          dynTab.Add(f);
        }
        if found.index == 0 {
          buf := AppendNewName(c.huffman, buf, f, indexing);
        } else {
          buf := AppendIndexedName(c.huffman, buf, f, found.index, indexing);
        }
      }
    }

    method SearchBoth(f: HeaderField) returns (r: Found)
      requires Valid()
      ensures r == SearchTable(c, dynTab.ents, f) && r.index <= |c.statics| + |dynTab.ents|
    {
      r := SearchLoop(c.statics, f);
      if r.full {
        return;
      }
      var d := dynTab.SearchNewest(f);
      if d.full || (r.index == 0 && d.index != 0) {
        return Found(d.index + |c.statics|, d.full);
      }
    }

    method SetMaxDynamicTableSize(size: nat)
      requires Valid() && size < U32
      modifies this, dynTab
      ensures Valid() && State() == SetMax(old(State()), size) && buf == old(buf)
    {
      var v := size;
      if v > maxSizeLimit {
        v := maxSizeLimit;
      }
      if v < minSize {
        minSize := v;
      }
      tableSizeUpdate := true;
      dynTab.SetMaxSize(v);
    }

    method SetMaxDynamicTableSizeLimit(v: nat)
      requires Valid() && v < U32
      modifies this, dynTab
      ensures Valid() && State() == SetLimit(old(State()), v) && buf == old(buf)
    {
      maxSizeLimit := v;
      if dynTab.maxSize > v {
        tableSizeUpdate := true;
        dynTab.SetMaxSize(v);
      }
    }
  }
}
