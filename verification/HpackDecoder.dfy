/** The HPACK decoder: what one representation means (RFC 7541, section 6), the loop over a
    block that may arrive in pieces, and the object that keeps the unparsed input. */
module HpackDecoder {
  import opened Bits
  import opened Options
  import opened HpackPrefixCode
  import opened HpackHuffmanDecoder
  import opened HpackVarInt
  import opened HpackTable

  datatype DecodeError =
    | InvalidIndex(index: nat)
    | SizeUpdateTooLarge
    | VarintOverflow
    | StringLength
    | HuffmanData
    | NilDereference
    | InvalidEncoding

  datatype IndexType = IndexedTrue | IndexedFalse | IndexedNever

  /** What decoding depends on between two representations; maxStrLen 0 means no limit. */
  datatype DecState = DecState(ents: seq<HeaderField>, max: nat, allowed: nat, emitEnabled: bool, maxStrLen: nat)

  datatype StringResult =
    | StrOk(s: seq<Byte>, rest: seq<Byte>)
    | StrMore
    | StrFailed(err: DecodeError)

  /** One representation: not complete yet, refused, or read. */
  datatype Outcome =
    | NeedMore
    | Fatal(err: DecodeError, d: DecState)
    | Parsed(d: DecState, emitted: seq<HeaderField>, rest: seq<Byte>)

  // ---------------------------------------------------------------- specification

  ghost function DecodeHuffman(h: PrefixCode, maxLen: nat, v: seq<Byte>, rest: seq<Byte>): (r: StringResult)
    requires h.Valid()
    ensures r.StrOk? ==> r.rest == rest
    ensures !r.StrMore? && !(r.StrFailed? && r.err.InvalidEncoding?)
  {
    match DecodeBits(h, BytesBits(v), [], maxLen)
    case HuffmanOk(s) => StrOk(s, rest)
    case InvalidHuffman => StrFailed(HuffmanData)
    case StringTooLong => StrFailed(StringLength)
    case NilNode => StrFailed(NilDereference)
  }

  /** A string whose length is announced as n; the contents are decoded only when wanted. */
  ghost function StringBody(h: PrefixCode, maxLen: nat, q: seq<Byte>, n: nat, huffman: bool,
      want: bool): (r: StringResult)
    requires h.Valid()
    ensures r.StrOk? ==> |r.rest| <= |q|
    ensures !(r.StrFailed? && r.err.InvalidEncoding?)
  {
    if maxLen != 0 && n > maxLen then StrFailed(StringLength)
    else if |q| < n then StrMore
    else if !want then StrOk([], q[n..])
    else if !huffman then StrOk(q[..n], q[n..])
    else DecodeHuffman(h, maxLen, q[..n], q[n..])
  }

  ghost function ReadString(h: PrefixCode, maxLen: nat, p: seq<Byte>, want: bool): (r: StringResult)
    requires h.Valid()
    ensures r.StrOk? ==> |r.rest| < |p|
    ensures !(r.StrFailed? && r.err.InvalidEncoding?)
  {
    match DecodeInt(7, p)
    case IntMore => StrMore
    case IntOverflow => StrFailed(VarintOverflow)
    case IntOk(n, q) => StringBody(h, maxLen, q, n, p[0] >= 128, want)
  }

  /** The name of a literal: taken from the table, or spelled out when the index is zero. */
  ghost function ReadName(c: Constants, d: DecState, q: seq<Byte>, i: nat, want: bool): (r: StringResult)
    requires c.huffman.Valid()
    ensures r.StrOk? ==> |r.rest| <= |q|
    ensures !(r.StrFailed? && r.err.InvalidEncoding?)
  {
    if i > 0 then
      match Lookup(c, d.ents, i)
      case None => StrFailed(InvalidIndex(i))
      case Some(e) => StrOk(e.name, q)
    else ReadString(c.huffman, d.maxStrLen, q, want)
  }

  function Emit(d: DecState, f: HeaderField, rest: seq<Byte>): (r: Outcome)
    ensures !r.NeedMore? && (r.Parsed? ==> r.rest == rest)
    ensures !(r.Fatal? && r.err.InvalidEncoding?)
  {
    if d.maxStrLen != 0 && (|f.name| > d.maxStrLen || |f.value| > d.maxStrLen) then Fatal(StringLength, d)
    else Parsed(d, if d.emitEnabled then [f] else [], rest)
  }

  function ParseIndexed(c: Constants, d: DecState, p: seq<Byte>): (r: Outcome)
    ensures r.Parsed? ==> |r.rest| < |p|
    ensures !(r.Fatal? && r.err.InvalidEncoding?)
  {
    match DecodeInt(7, p)
    case IntMore => NeedMore
    case IntOverflow => Fatal(VarintOverflow, d)
    case IntOk(i, q) =>
      match Lookup(c, d.ents, i)
      case None => Fatal(InvalidIndex(i), d)
      case Some(e) => Emit(d, HeaderField(e.name, e.value, false), q)
  }

  function Added(d: DecState, f: HeaderField): DecState {
    d.(ents := Evicted(d.ents + [f], d.max))
  }

  /** The value of a literal, and what becomes of the field. */
  ghost function LiteralValue(c: Constants, d: DecState, name: seq<Byte>, q: seq<Byte>, it: IndexType,
      want: bool): (r: Outcome)
    requires c.huffman.Valid()
    ensures r.Parsed? ==> |r.rest| <= |q|
    ensures !(r.Fatal? && r.err.InvalidEncoding?)
  {
    match ReadString(c.huffman, d.maxStrLen, q, want)
    case StrMore => NeedMore
    case StrFailed(e) => Fatal(e, d)
    case StrOk(value, rest) =>
      var d' := if it.IndexedTrue? then Added(d, HeaderField(name, value, false)) else d;
      Emit(d', HeaderField(name, value, it.IndexedNever?), rest)
  }

  ghost function LiteralName(c: Constants, d: DecState, i: nat, q: seq<Byte>, it: IndexType): (r: Outcome)
    requires c.huffman.Valid()
    ensures r.Parsed? ==> |r.rest| <= |q|
    ensures !(r.Fatal? && r.err.InvalidEncoding?)
  {
    var want := d.emitEnabled || it.IndexedTrue?;
    match ReadName(c, d, q, i, want)
    case StrMore => NeedMore
    case StrFailed(e) => Fatal(e, d)
    case StrOk(name, rest) => LiteralValue(c, d, name, rest, it, want)
  }

  ghost function ParseLiteral(c: Constants, d: DecState, p: seq<Byte>, n: nat, it: IndexType): (r: Outcome)
    requires c.huffman.Valid() && 1 <= n <= 8
    ensures r.Parsed? ==> |r.rest| < |p|
    ensures !(r.Fatal? && r.err.InvalidEncoding?)
  {
    match DecodeInt(n, p)
    case IntMore => NeedMore
    case IntOverflow => Fatal(VarintOverflow, d)
    case IntOk(i, q) => LiteralName(c, d, i, q, it)
  }

  function ParseSizeUpdate(d: DecState, p: seq<Byte>): (r: Outcome)
    ensures r.Parsed? ==> |r.rest| < |p|
    ensures !(r.Fatal? && r.err.InvalidEncoding?)
  {
    match DecodeInt(5, p)
    case IntMore => NeedMore
    case IntOverflow => Fatal(VarintOverflow, d)
    case IntOk(v, q) =>
      if v > d.allowed then Fatal(SizeUpdateTooLarge, d)
      else Parsed(d.(ents := Evicted(d.ents, v), max := v), [], q)
  }

  /** One representation, chosen by the high bits of its first byte. */
  ghost function Parse(c: Constants, d: DecState, p: seq<Byte>): (r: Outcome)
    requires c.huffman.Valid() && p != []
    ensures r.Parsed? ==> |r.rest| < |p|
  {
    var b := p[0];
    if b / 128 == 1 then ParseIndexed(c, d, p)
    else if b / 64 == 1 then ParseLiteral(c, d, p, 6, IndexedTrue)
    else if b / 16 == 0 then ParseLiteral(c, d, p, 4, IndexedFalse)
    else if b / 16 == 1 then ParseLiteral(c, d, p, 4, IndexedNever)
    else if b / 32 == 1 then ParseSizeUpdate(d, p)
    else Fatal(InvalidEncoding, d)
  }

  /** The state after a call of Write: what is saved for the next one, what was emitted, and
      the error, if any. */
  datatype Written = Written(d: DecState, saved: seq<Byte>, emitted: seq<HeaderField>, err: Option<DecodeError>)

  const VAR_INT_OVERHEAD := 8

  ghost function Drain(c: Constants, d: DecState, b: seq<Byte>, out: seq<HeaderField>): Written
    requires c.huffman.Valid()
    decreases |b|
  {
    if b == [] then Written(d, [], out, None)
    else
      match Parse(c, d, b)
      case NeedMore =>
        if d.maxStrLen != 0 && |b| > 2 * (d.maxStrLen + VAR_INT_OVERHEAD) then Written(d, [], out, Some(StringLength))
        else Written(d, b, out, None)
      case Fatal(e, d') => Written(d', [], out, Some(e))
      case Parsed(d', fs, rest) => Drain(c, d', rest, out + fs)
  }

  ghost function Write(c: Constants, d: DecState, saved: seq<Byte>, p: seq<Byte>, out: seq<HeaderField>): Written
    requires c.huffman.Valid()
  {
    if p == [] then Written(d, saved, out, None) else Drain(c, d, saved + p, out)
  }

  /** The input ends in a representation that is too long already, though it is not complete: the
      only case in which a Write counts none of its bytes. */
  ghost predicate Overlong(c: Constants, d: DecState, b: seq<Byte>)
    requires c.huffman.Valid()
    decreases |b|
  {
    && b != []
    && match Parse(c, d, b)
       case NeedMore => d.maxStrLen != 0 && |b| > 2 * (d.maxStrLen + VAR_INT_OVERHEAD)
       case Fatal(_, _) => false
       case Parsed(d', _, rest) => Overlong(c, d', rest)
  }

  /** A stream fed in pieces, up to the first error. */
  ghost function WriteAll(c: Constants, d: DecState, saved: seq<Byte>, ps: seq<seq<Byte>>,
      out: seq<HeaderField>): Written
    requires c.huffman.Valid()
    decreases |ps|
  {
    if ps == [] then Written(d, saved, out, None)
    else
      var w := Write(c, d, saved, ps[0], out);
      if w.err.Some? then w else WriteAll(c, w.d, w.saved, ps[1..], w.emitted)
  }

  function Concat(ps: seq<seq<Byte>>): seq<Byte> {
    if ps == [] then [] else ps[0] + Concat(ps[1..])
  }

  // ---------------------------------------------------------------- every first byte is known

  /** The last error of the parser cannot happen: the tests cover every first byte. */
  lemma EveryByteParses(c: Constants, d: DecState, p: seq<Byte>)
    requires c.huffman.Valid() && p != []
    ensures !(Parse(c, d, p).Fatal? && Parse(c, d, p).err.InvalidEncoding?)
  {
    FirstByte(p[0]);
  }

  lemma FirstByte(b: Byte)
    ensures b / 128 == 1 || b / 64 == 1 || b / 16 == 0 || b / 16 == 1 || b / 32 == 1
  {
  }

  // ---------------------------------------------------------------- more data

  // An answer other than "need more" does not depend on the bytes that follow.

  lemma StringStable(h: PrefixCode, maxLen: nat, p: seq<Byte>, q: seq<Byte>, want: bool)
    requires h.Valid() && !ReadString(h, maxLen, p, want).StrMore?
    ensures ReadString(h, maxLen, p + q, want) == match ReadString(h, maxLen, p, want)
                                                  case StrOk(s, rest) => StrOk(s, rest + q)
                                                  case e => e
  {
    IntPrefixStable(7, p, q);
    match DecodeInt(7, p)
    case IntOk(n, r) =>
      assert (p + q)[0] == p[0];
      BodyStable(h, maxLen, r, q, n, p[0] >= 128, want);
    case _ =>
  }

  lemma BodyStable(h: PrefixCode, maxLen: nat, p: seq<Byte>, q: seq<Byte>, n: nat, huffman: bool, want: bool)
    requires h.Valid() && !StringBody(h, maxLen, p, n, huffman, want).StrMore?
    ensures StringBody(h, maxLen, p + q, n, huffman, want) == match StringBody(h, maxLen, p, n, huffman, want)
                                                              case StrOk(s, rest) => StrOk(s, rest + q)
                                                              case e => e
  {
    if |p| >= n {
      assert (p + q)[..n] == p[..n];
      assert (p + q)[n..] == p[n..] + q;
    }
  }

  function Extended(o: Outcome, q: seq<Byte>): Outcome {
    match o
    case Parsed(d, fs, rest) => Parsed(d, fs, rest + q)
    case _ => o
  }

  lemma ValueStable(c: Constants, d: DecState, name: seq<Byte>, p: seq<Byte>, q: seq<Byte>, it: IndexType, want: bool)
    requires c.huffman.Valid() && !LiteralValue(c, d, name, p, it, want).NeedMore?
    ensures LiteralValue(c, d, name, p + q, it, want) == Extended(LiteralValue(c, d, name, p, it, want), q)
  {
    StringStable(c.huffman, d.maxStrLen, p, q, want);
  }

  lemma NameStable(c: Constants, d: DecState, i: nat, p: seq<Byte>, q: seq<Byte>, it: IndexType)
    requires c.huffman.Valid() && !LiteralName(c, d, i, p, it).NeedMore?
    ensures LiteralName(c, d, i, p + q, it) == Extended(LiteralName(c, d, i, p, it), q)
  {
    var want := d.emitEnabled || it.IndexedTrue?;
    if i == 0 {
      StringStable(c.huffman, d.maxStrLen, p, q, want);
    }
    match ReadName(c, d, p, i, want)
    case StrOk(name, rest) => ValueStable(c, d, name, rest, q, it, want);
    case _ =>
  }

  lemma LiteralStable(c: Constants, d: DecState, p: seq<Byte>, q: seq<Byte>, n: nat, it: IndexType)
    requires c.huffman.Valid() && 1 <= n <= 8 && !ParseLiteral(c, d, p, n, it).NeedMore?
    ensures ParseLiteral(c, d, p + q, n, it) == Extended(ParseLiteral(c, d, p, n, it), q)
  {
    IntPrefixStable(n, p, q);
    match DecodeInt(n, p)
    case IntOk(i, r) => NameStable(c, d, i, r, q, it);
    case _ =>
  }

  lemma ParseStable(c: Constants, d: DecState, p: seq<Byte>, q: seq<Byte>)
    requires c.huffman.Valid() && p != [] && !Parse(c, d, p).NeedMore?
    ensures Parse(c, d, p + q) == Extended(Parse(c, d, p), q)
  {
    var b := p[0];
    assert (p + q)[0] == b;
    if b / 128 == 1 {
      IntPrefixStable(7, p, q);
    } else if b / 64 == 1 {
      LiteralStable(c, d, p, q, 6, IndexedTrue);
    } else if b / 16 == 0 {
      LiteralStable(c, d, p, q, 4, IndexedFalse);
    } else if b / 16 == 1 {
      LiteralStable(c, d, p, q, 4, IndexedNever);
    } else if b / 32 == 1 {
      IntPrefixStable(5, p, q);
    }
  }

  /** Draining b and then more bytes is draining them together. */
  lemma {:induction false} DrainMore(c: Constants, d: DecState, b: seq<Byte>, q: seq<Byte>, out: seq<HeaderField>)
    requires c.huffman.Valid() && d.maxStrLen == 0
    ensures var w := Drain(c, d, b, out);
      && w.d.maxStrLen == 0
      && Drain(c, d, b + q, out) == if w.err.Some? then w else Drain(c, w.d, w.saved + q, w.emitted)
    decreases |b|
  {
    if b == [] {
      assert b + q == q && [] + q == q;
    } else {
      var o := Parse(c, d, b);
      if !o.NeedMore? {
        ParseStable(c, d, b, q);
        ParseKeepsLimit(c, d, b);
        if o.Parsed? {
          DrainMore(c, o.d, o.rest, q, out + o.emitted);
        }
      }
    }
  }

  lemma ParseKeepsLimit(c: Constants, d: DecState, p: seq<Byte>)
    requires c.huffman.Valid() && p != []
    ensures match Parse(c, d, p)
            case NeedMore => true
            case Fatal(_, d') =>
              d'.maxStrLen == d.maxStrLen && d'.emitEnabled == d.emitEnabled && d'.allowed == d.allowed
            case Parsed(d', _, _) =>
              d'.maxStrLen == d.maxStrLen && d'.emitEnabled == d.emitEnabled && d'.allowed == d.allowed
  {
  }

  /** The pieces in which a stream arrives do not matter: fields, table, saved bytes and first
      error are those of a single Write of the whole stream. */
  lemma {:induction false} ChunksDoNotMatter(c: Constants, d: DecState, saved: seq<Byte>, ps: seq<seq<Byte>>,
      out: seq<HeaderField>)
    requires c.huffman.Valid() && d.maxStrLen == 0
    ensures WriteAll(c, d, saved, ps, out) == Write(c, d, saved, Concat(ps), out)
    decreases |ps|
  {
    if ps != [] {
      var p, rest := ps[0], Concat(ps[1..]);
      var w := Write(c, d, saved, p, out);
      WriteTwice(c, d, saved, p, rest, out);
      if w.err.None? {
        ChunksDoNotMatter(c, w.d, w.saved, ps[1..], w.emitted);
      }
    }
  }

  lemma WriteTwice(c: Constants, d: DecState, saved: seq<Byte>, p: seq<Byte>, q: seq<Byte>, out: seq<HeaderField>)
    requires c.huffman.Valid() && d.maxStrLen == 0
    ensures var w := Write(c, d, saved, p, out);
      && w.d.maxStrLen == 0
      && Write(c, d, saved, p + q, out) == if w.err.Some? then w else Write(c, w.d, w.saved, q, w.emitted)
  {
    if p == [] {
      assert p + q == q;
    } else {
      DrainMore(c, d, saved + p, q, out);
      WriteRegroup(saved, p, q);
    }
  }

  lemma WriteRegroup(saved: seq<Byte>, p: seq<Byte>, q: seq<Byte>)
    ensures saved + p + q == saved + (p + q) && (q == [] ==> p + q == p)
  {
  }

  // ---------------------------------------------------------------- the decoder in memory

  class Decoder {
    const c: Constants
    const root: HuffmanTree
    const dynTab: DynamicTable
    var emitEnabled: bool
    var maxStrLen: nat
    var buf: seq<Byte>
    var saveBuf: seq<Byte>
    /** The arguments that emit was called with, in order. */
    var emitted: seq<HeaderField>

    ghost predicate Valid()
      reads this, dynTab, root
    {
      && c.Usable() && dynTab.Valid()
      && root.h == c.huffman && root.Valid(256)
    }

    ghost function State(): DecState
      reads this, dynTab
    {
      DecState(dynTab.ents, dynTab.maxSize, dynTab.allowedMaxSize, emitEnabled, maxStrLen)
    }

    constructor (c: Constants, root: HuffmanTree, max: nat)
      requires c.Usable() && root.h == c.huffman && root.Valid(256) && max < U32
      ensures Valid() && fresh(dynTab) && this.c == c && this.root == root
      ensures State() == DecState([], max, max, true, 0) && saveBuf == [] && emitted == []
    {
      this.c := c;
      this.root := root;
      dynTab := new DynamicTable(max, max);
      emitEnabled, maxStrLen := true, 0;
      buf, saveBuf, emitted := [], [], [];
    }

    /** Whether a parse function that returned err did what o says: it consumes buf and emits
        exactly when it returns no error, and changes nothing when it asks for more. */
    ghost predicate Did(o: Outcome, more: bool, err: Option<DecodeError>, d: DecState, b: seq<Byte>,
        fs: seq<HeaderField>)
      reads this, dynTab
    {
      match o
      case NeedMore => more && err == None && State() == d && buf == b && emitted == fs
      case Fatal(e, d') => !more && err == Some(e) && State() == d' && emitted == fs
      case Parsed(d', out, rest) => !more && err == None && State() == d' && buf == rest && emitted == fs + out
    }

    method ReadHpackString(p: seq<Byte>, want: bool) returns (r: StringResult)
      requires Valid()
      ensures r == ReadString(c.huffman, maxStrLen, p, want)
    {
      if |p| == 0 {
        return StrMore;
      }
      var isHuff := p[0] >= 128;
      var i := ReadVarInt(7, p);
      match i {
        case IntMore => return StrMore;
        case IntOverflow => return StrFailed(VarintOverflow);
        case IntOk(strLen, q) =>
          if maxStrLen != 0 && strLen > maxStrLen {
            return StrFailed(StringLength);
          }
          if |q| < strLen {
            return StrMore;
          }
          if !isHuff {
            return StrOk(if want then q[..strLen] else [], q[strLen..]);
          }
          if want {
            var s := root.HuffmanDecode(maxStrLen, q[..strLen]);
            match s {
              case HuffmanOk(s) => return StrOk(s, q[strLen..]);
              case InvalidHuffman => return StrFailed(HuffmanData);
              case StringTooLong => return StrFailed(StringLength);
              case NilNode => return StrFailed(NilDereference);
            }
          }
          return StrOk([], q[strLen..]);
      }
    }

    method CallEmit(f: HeaderField) returns (err: Option<DecodeError>)
      modifies this
      ensures State() == old(State()) && buf == old(buf) && saveBuf == old(saveBuf)
      ensures match Emit(State(), f, buf)
              case Fatal(e, _) => err == Some(e) && emitted == old(emitted)
              case Parsed(_, out, _) => err == None && emitted == old(emitted) + out
    {
      if maxStrLen != 0 {
        if |f.name| > maxStrLen || |f.value| > maxStrLen {
          return Some(StringLength);
        }
      }
      if emitEnabled {
        emitted := emitted + [f];
      }
      return None;
    }

    method ParseFieldIndexed() returns (more: bool, err: Option<DecodeError>)
      requires Valid()
      modifies this
      ensures Valid() && saveBuf == old(saveBuf)
      ensures Did(ParseIndexed(c, old(State()), old(buf)), more, err, old(State()), old(buf), old(emitted))
    {
      var i := ReadVarInt(7, buf);
      match i {
        case IntMore => return true, None;
        case IntOverflow => return false, Some(VarintOverflow);
        case IntOk(idx, q) =>
          match Lookup(c, dynTab.ents, idx) {
            case None => return false, Some(InvalidIndex(idx));
            case Some(hf) =>
              buf := q;
              err := CallEmit(HeaderField(hf.name, hf.value, false));
              return false, err;
          }
      }
    }

    method ParseFieldLiteral(n: nat, it: IndexType) returns (more: bool, err: Option<DecodeError>)
      requires Valid() && 1 <= n <= 8
      modifies this, dynTab
      ensures Valid() && saveBuf == old(saveBuf)
      ensures Did(ParseLiteral(c, old(State()), old(buf), n, it), more, err, old(State()), old(buf), old(emitted))
    {
      var i := ReadVarInt(n, buf);
      match i {
        case IntMore => return true, None;
        case IntOverflow => return false, Some(VarintOverflow);
        case IntOk(nameIdx, q) =>
          more, err := ReadLiteral(nameIdx, q, it);
      }
    }

    /** The part of parseFieldLiteral after the index has been read. */
    method ReadLiteral(nameIdx: nat, q: seq<Byte>, it: IndexType) returns (more: bool, err: Option<DecodeError>)
      requires Valid()
      modifies this, dynTab
      ensures Valid() && saveBuf == old(saveBuf)
      ensures Did(LiteralName(c, old(State()), nameIdx, q, it), more, err, old(State()), old(buf), old(emitted))
    {
      var want := emitEnabled || it.IndexedTrue?;
      var name;
      if nameIdx > 0 {
        match Lookup(c, dynTab.ents, nameIdx) {
          case None => return false, Some(InvalidIndex(nameIdx));
          case Some(hf) => name := StrOk(hf.name, q);
        }
      } else {
        name := ReadHpackString(q, want);
      }
      assert name == ReadName(c, State(), q, nameIdx, want);
      match name {
        case StrMore => return true, None;
        case StrFailed(e) => return false, Some(e);
        case StrOk(s, rest) =>
          more, err := ReadValue(s, rest, it, want);
      }
    }

    /** The part of parseFieldLiteral after the name has been read. */
    method ReadValue(name: seq<Byte>, q: seq<Byte>, it: IndexType, want: bool)
      returns (more: bool, err: Option<DecodeError>)
      requires Valid()
      modifies this, dynTab
      ensures Valid() && saveBuf == old(saveBuf)
      ensures Did(LiteralValue(c, old(State()), name, q, it, want), more, err, old(State()), old(buf), old(emitted))
    {
      var value := ReadHpackString(q, want);
      match value {
        case StrMore => return true, None;
        case StrFailed(e) => return false, Some(e);
        case StrOk(s, rest) =>
          buf := rest;
          if it.IndexedTrue? {
            dynTab.Add(HeaderField(name, s, false));
          }
          err := CallEmit(HeaderField(name, s, it.IndexedNever?));
          return false, err;
      }
    }

    method ParseDynamicTableSizeUpdate() returns (more: bool, err: Option<DecodeError>)
      requires Valid()
      modifies this, dynTab
      ensures Valid() && saveBuf == old(saveBuf)
      ensures Did(ParseSizeUpdate(old(State()), old(buf)), more, err, old(State()), old(buf), old(emitted))
    {
      var i := ReadVarInt(5, buf);
      match i {
        case IntMore => return true, None;
        case IntOverflow => return false, Some(VarintOverflow);
        case IntOk(size, q) =>
          if size > dynTab.allowedMaxSize {
            return false, Some(SizeUpdateTooLarge);
          }
          dynTab.SetMaxSize(size);
          buf := q;
          return false, None;
      }
    }

    method ParseHeaderFieldRepr() returns (more: bool, err: Option<DecodeError>)
      requires Valid() && buf != []
      modifies this, dynTab
      ensures Valid() && saveBuf == old(saveBuf)
      ensures Did(Parse(c, old(State()), old(buf)), more, err, old(State()), old(buf), old(emitted))
    {
      var b := buf[0];
      if b / 128 == 1 {
        more, err := ParseFieldIndexed();
      } else if b / 64 == 1 {
        more, err := ParseFieldLiteral(6, IndexedTrue);
      } else if b / 16 == 0 {
        more, err := ParseFieldLiteral(4, IndexedFalse);
      } else if b / 16 == 1 {
        more, err := ParseFieldLiteral(4, IndexedNever);
      } else if b / 32 == 1 {
        more, err := ParseDynamicTableSizeUpdate();
      } else {
        return false, Some(InvalidEncoding);
      }
    }

    method WriteBlock(p: seq<Byte>) returns (n: nat, err: Option<DecodeError>)
      requires Valid()
      modifies this, dynTab
      ensures Valid()
      ensures Written(State(), saveBuf, emitted, err) == Write(c, old(State()), old(saveBuf), p, old(emitted))
      ensures n == if p != [] && Overlong(c, old(State()), old(saveBuf) + p) then 0 else |p|
    {
      if |p| == 0 {
        return 0, None;
      }
      if |saveBuf| == 0 {
        buf := p;
        assert old(saveBuf) + p == p;
      } else {
        buf := saveBuf + p;
        saveBuf := [];
      }
      ghost var goal, long := Drain(c, State(), buf, emitted), Overlong(c, State(), buf);
      while |buf| > 0
        invariant Valid() && saveBuf == []
        invariant Drain(c, State(), buf, emitted) == goal && Overlong(c, State(), buf) == long
        decreases |buf|
      {
        var more;
        more, err := ParseHeaderFieldRepr();
        if more {
          if maxStrLen != 0 && |buf| > 2 * (maxStrLen + VAR_INT_OVERHEAD) {
            return 0, Some(StringLength);
          }
          saveBuf := buf;
          return |p|, None;
        }
        if err.Some? {
          return |p|, err;
        }
      }
      return |p|, None;
    }

    /** The end of a header block: nothing may be left over. */
    method Close() returns (truncated: bool)
      requires Valid()
      modifies this
      ensures Valid() && State() == old(State()) && emitted == old(emitted)
      ensures truncated == (old(saveBuf) != []) && saveBuf == []
    {
      if |saveBuf| > 0 {
        saveBuf := [];
        return true;
      }
      return false;
    }
  }
}
