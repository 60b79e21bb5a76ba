/** The object-file reader, over any bytes: what it takes for a record is a function of the bytes
    that are left, and what the assembler writes is read back. */
module ObjRead {
  import opened Bits
  import opened Options
  import opened ObjFormat

  /** What the parser of an address tells about a variable of the frame: _offset(slot, offset). */
  datatype Note = NoNote | Note(slot: int, offset: int)

  datatype AddrInfo = AddrInfo(flags: nat, slot: int, note: Note, gotype: int)

  datatype Prog =
    | NameProg(kind: char, slot: int, id: seq<Byte>, sig: nat)
    | TextProg(slot: int)
    | DataProg(slot: int)
    | OtherProg(slot: int)

  // ---------------------------------------------------------------- what the records mean

  /** A byte kept in a char, which is signed. */
  function Char(c: int): int {
    if c >= 128 then c - 256 else c
  }

  /** How the reader classifies the type of a name. */
  function TypeChar(kind: int): char {
    if kind == D_EXTERN then 'U'
    else if kind == D_STATIC then 'b'
    else if kind == D_AUTO then 'a'
    else if kind == D_PARAM then 'p'
    else '?'
  }

  /** What the reader should make of an instruction and the slot of its first operand. */
  function Classified(code: int, named: bool, slot: int): Prog {
    if named && code == ATEXT then TextProg(slot)
    else if named && code == AGLOBL then DataProg(slot)
    else OtherProg(slot)
  }

  /** What the reader should make of a record. */
  function Info(r: Record): Prog {
    match r
    case Name(kind, slot, name) => NameProg(TypeChar(kind), Char(slot), name + [0], 0)
    case Ins(code, _, _, fs, _, _) => Classified(code, fs != 0, if fs != 0 then Char(fs) else -1)
  }

  /** A 64-bit offset without its sign; the smallest one has no counterpart, and stays. */
  function Magnitude(x: int): int {
    if -0x8000_0000_0000_0000 < x < 0 then -x else x
  }

  /** Exactly the offsets that are not negative come back, and the smallest one. */
  lemma OffsetComesBack(o: Operand)
    requires o.Valid()
    ensures Magnitude(o.offset) == o.offset <==> o.offset >= 0 || o.offset == -0x8000_0000_0000_0000
  {
  }

  /** A variable eight bytes below the frame pointer is noted eight bytes above it. */
  lemma NegativeOffsetNoted()
    ensures var o := Operand(D_AUTO, D_NONE, 0, -8, 0, 0, [0, 0, 0, 0, 0, 0, 0, 0]);
      o.Valid() && AddrOf(o, 1).note == Note(1, 8)
  {
  }

  /** What the reader should find in an address. Only the size of an offset is noted. */
  function AddrOf(o: Operand, slot: Byte): AddrInfo {
    AddrInfo(Flags(o, slot), if slot != 0 then Char(slot) else -1, NoteOf(Char(slot), o.kind, Magnitude(o.offset)), 0)
  }

  function NoteOf(slot: int, kind: int, offset: int): Note {
    if slot > 0 && (kind == D_PARAM || kind == D_AUTO) then Note(slot, offset) else NoNote
  }

  // ---------------------------------------------------------------- bytes that are left

  /** The next byte, -1 at the end. */
  function First(s: seq<Byte>): int {
    if s == [] then -1 else s[0]
  }

  function Drop(s: seq<Byte>, n: nat): (rest: seq<Byte>)
    ensures |rest| <= |s|
  {
    if |s| <= n then [] else s[n..]
  }

  lemma DropOne(s: seq<Byte>, n: nat)
    ensures Drop(s, 0) == s && Drop(Drop(s, n), 1) == Drop(s, n + 1)
  {
  }

  lemma DropFront(a: seq<Byte>, rest: seq<Byte>)
    ensures Drop(a + rest, |a|) == rest && (a != [] ==> First(a + rest) == a[0])
  {
  }

  function FromLe4(a: int, b: int, c: int, d: int): int {
    a + 256 * b + 0x1_0000 * c + 0x100_0000 * d
  }

  /** Four bytes as a word; a byte that is missing is all ones. */
  function Word4(s: seq<Byte>): (w: nat)
    ensures w < U32
  {
    FromLe4(First(s) % 256, First(Drop(s, 1)) % 256, First(Drop(s, 2)) % 256, First(Drop(s, 3)) % 256)
  }

  lemma Le4Value(x: nat)
    requires x < U32
    ensures FromLe4(Le4(x)[0], Le4(x)[1], Le4(x)[2], Le4(x)[3]) == x
  {
    var a, b, c := x / 256, x / 256 / 256, x / 256 / 256 / 256;
    assert x / 0x1_0000 == b && x / 0x100_0000 == c;
    assert c < 256;
    assert x == 256 * a + x % 256 && a == 256 * b + a % 256 && b == 256 * c + b % 256;
  }

  lemma FourFirst(b: seq<Byte>, rest: seq<Byte>)
    requires |b| == 4
    ensures var s := b + rest;
      && First(s) == b[0] && First(Drop(s, 1)) == b[1] && First(Drop(s, 2)) == b[2]
      && First(Drop(s, 3)) == b[3] && Drop(s, 4) == rest
  {
  }

  lemma LowByte(b: Byte)
    ensures b % 256 == b
  {
  }

  lemma Word4Of(x: nat, rest: seq<Byte>)
    requires x < U32
    ensures Word4(Le4(x) + rest) == x && Drop(Le4(x) + rest, 4) == rest
  {
    Le4Value(x);
    var b := Le4(x);
    FourFirst(b, rest);
    LowByte(b[0]);
    LowByte(b[1]);
    LowByte(b[2]);
    LowByte(b[3]);
  }

  /** The two words of a wide offset, and the one word of a narrow one, give the offset back. */
  lemma OffsetValue(o: Operand)
    requires o.Valid()
    ensures !Wide(o) ==> Signed(Word(o.offset)) == o.offset
    ensures Signed(Word(o.offset / U32)) * U32 + Word(Signed(Word(o.offset))) == o.offset
  {
    SignedWord(0);
    WordSigned(Word(o.offset));
    var h := o.offset / U32;
    SignedWord(h);
    assert o.offset == h * U32 + Word(o.offset);
  }

  /** Minus x as an unsigned 64-bit number, and that as a signed one. */
  function Negated(x: int): int {
    var u := -x % 0x1_0000_0000_0000_0000;
    if u >= 0x8000_0000_0000_0000 then u - 0x1_0000_0000_0000_0000 else u
  }

  lemma NegatedIs(x: int)
    requires -0x8000_0000_0000_0000 <= x < 0
    ensures Negated(x) == Magnitude(x)
  {
  }

  // ---------------------------------------------------------------- what is read, from any bytes

  function ParseOffset(flags: nat, s: seq<Byte>): (int, seq<Byte>) {
    if !Bit(flags, 4) then (0, s)
    else if Bit(flags, 64) then (Magnitude(Signed(Word4(Drop(s, 4))) * U32 + Word4(s)), Drop(Drop(s, 4), 4))
    else (Magnitude(Signed(Word4(s))), Drop(s, 4))
  }

  function ConstantSize(flags: nat): nat {
    if Bit(flags, 8) then 8 else if Bit(flags, 32) then NSNAME else 0
  }

  /** One byte if a flag asks for it. */
  function ParseByte(asked: bool, s: seq<Byte>): (int, seq<Byte>) {
    if asked then (First(s), Drop(s, 1)) else (-1, s)
  }

  /** An address behind its flags. */
  function ParseFlagged(flags: nat, s: seq<Byte>): (r: (AddrInfo, seq<Byte>))
    ensures |r.1| <= |s| && r.0.flags == flags
  {
    var s1 := Drop(s, if Bit(flags, 2) then 2 else 0);
    var (offset, s2) := ParseOffset(flags, s1);
    var (slot, s3) := ParseByte(Bit(flags, 16), s2);
    var (kind, s4) := ParseByte(Bit(flags, 1), Drop(s3, ConstantSize(flags)));
    var (gotype, s5) := ParseByte(Bit(flags, 128), s4);
    (AddrInfo(flags, Char(slot), NoteOf(Char(slot), kind, offset), if Bit(flags, 128) then Char(gotype) else 0), s5)
  }

  function ParseAddr(s: seq<Byte>): (r: (AddrInfo, seq<Byte>))
    ensures |r.1| <= |s|
  {
    ParseFlagged(First(s) % 256, Drop(s, 1))
  }

  /** The place of the first zero. */
  function ZeroAt(s: seq<Byte>): (n: nat)
    ensures n <= |s| && 0 !in s[..n] && (n < |s| ==> s[n] == 0)
  {
    if s == [] || s[0] == 0 then 0 else
      var n := 1 + ZeroAt(s[1..]);
      assert s[..n] == [s[0]] + s[1..][..n - 1];
      n
  }

  lemma ZeroAtIs(s: seq<Byte>, n: nat)
    requires n <= |s| && 0 !in s[..n] && (n < |s| ==> s[n] == 0)
    ensures ZeroAt(s) == n
  {
    var m := ZeroAt(s);
    NotBefore(s, n, m);
    NotBefore(s, m, n);
  }

  lemma NotBefore(s: seq<Byte>, n: nat, m: nat)
    requires n <= |s|
    ensures 0 !in s[..n] && m < |s| && s[m] == 0 ==> n <= m
  {
    if m < n { assert s[m] in s[..n]; }
  }

  function ParseName(sig: nat, s: seq<Byte>): (r: (Option<Prog>, seq<Byte>))
    ensures |r.1| <= |s|
  {
    var text := Drop(s, 2);
    var n := ZeroAt(text);
    if n == |text| then (None, [])
    else (Some(NameProg(TypeChar(First(s)), Char(First(Drop(s, 1))), text[..n + 1], sig)), text[n + 1..])
  }

  function ParseIns(code: int, s: seq<Byte>): (r: (Prog, seq<Byte>))
    ensures |r.1| <= |s|
  {
    var (a, s1) := ParseAddr(Drop(s, 4));
    (Classified(code, Bit(a.flags, 16), a.slot), ParseAddr(s1).1)
  }

  function Code(s: seq<Byte>): int
    requires |s| >= 2
  {
    var low: int, high: int := s[0], s[1];
    low + 256 * high
  }

  function ParseRecord(s: seq<Byte>): (r: (Option<Prog>, seq<Byte>))
    ensures r.0.Some? ==> |r.1| < |s|
  {
    if |s| < 2 then (None, [])
    else
      var code, s1 := Code(s), s[2..];
      if code == ANAME then ParseName(0, s1)
      else if code == ASIGNAME then ParseName(Word4(s1), Drop(s1, 4))
      else
        var (p, s2) := ParseIns(code, s1);
        (Some(p), s2)
  }

  // ---------------------------------------------------------------- what was written is read

  lemma OffsetParsed(o: Operand, flags: nat, rest: seq<Byte>)
    requires o.Valid() && Bit(flags, 4) == (o.offset != 0) && Bit(flags, 64) == Wide(o)
    ensures ParseOffset(flags, OffsetBytes(o) + rest) == (Magnitude(o.offset), rest)
  {
    if o.offset == 0 {
      assert OffsetBytes(o) + rest == rest;
    } else {
      var high := if Wide(o) then Le4(Word(o.offset / U32)) else [];
      assert OffsetBytes(o) + rest == Le4(Word(o.offset)) + (high + rest);
      Word4Of(Word(o.offset), high + rest);
      Word4Of(Word(o.offset / U32), rest);
      OffsetValue(o);
      WordSigned(Word(o.offset));
      assert high == [] ==> high + rest == rest;
    }
  }

  lemma TailParsed(o: Operand, flags: nat, rest: seq<Byte>)
    requires o.Valid()
    requires Bit(flags, 1) == HasType(o) && Bit(flags, 8) == (o.kind == D_FCONST)
    requires Bit(flags, 32) == (o.kind == D_SCONST)
    ensures ParseByte(Bit(flags, 1), Drop(TailBytes(o) + rest, ConstantSize(flags)))
         == (if HasType(o) then o.kind else -1, rest)
  {
    DropFront(TailBytes(o), rest);
    DropOne(TailBytes(o) + rest, 0);
  }

  lemma IndexParsed(o: Operand, flags: nat, rest: seq<Byte>)
    requires Bit(flags, 2) == HasIndex(o)
    ensures Drop(IndexBytes(o) + rest, if Bit(flags, 2) then 2 else 0) == rest
  {
    DropFront(IndexBytes(o), rest);
  }

  lemma SlotParsed(slot: Byte, rest: seq<Byte>)
    ensures ParseByte(slot != 0, SlotBytes(slot) + rest) == (if slot != 0 then slot else -1, rest)
  {
    DropFront(SlotBytes(slot), rest);
    assert slot == 0 ==> SlotBytes(slot) + rest == rest;
  }

  lemma FlaggedParsed(o: Operand, slot: Byte, flags: nat, rest: seq<Byte>)
    requires o.Valid() && !Bit(flags, 128) && Bit(flags, 2) == HasIndex(o) && Bit(flags, 16) == (slot != 0)
    requires Bit(flags, 1) == HasType(o) && Bit(flags, 8) == (o.kind == D_FCONST)
    requires Bit(flags, 32) == (o.kind == D_SCONST)
    requires Bit(flags, 4) == (o.offset != 0) && Bit(flags, 64) == Wide(o)
    ensures ParseFlagged(flags, IndexBytes(o) + (OffsetBytes(o) + (SlotBytes(slot) + (TailBytes(o) + rest))))
         == (AddrOf(o, slot).(flags := flags), rest)
  {
    var b4 := TailBytes(o) + rest;
    var b3 := SlotBytes(slot) + b4;
    var b2 := OffsetBytes(o) + b3;
    IndexParsed(o, flags, b2);
    OffsetParsed(o, flags, b3);
    SlotParsed(slot, b4);
    TailParsed(o, flags, rest);
  }

  lemma FlagsFirst(flags: Byte, s: seq<Byte>)
    ensures ParseAddr([flags] + s) == ParseFlagged(flags, s)
  {
    FlagsTaken(flags, s);
  }

  lemma FlagsTaken(flags: Byte, s: seq<Byte>)
    ensures First([flags] + s) % 256 == flags && Drop([flags] + s, 1) == s
  {
  }

  lemma LastFlag(t: nat)
    requires t < 128
    ensures !Bit(t, 128)
  {
  }

  /** The parser of addresses takes exactly the bytes of an address, whatever follows. */
  lemma AddrParsed(o: Operand, slot: Byte, rest: seq<Byte>)
    requires o.Valid()
    ensures ParseAddr(AddrBytes(o, slot) + rest) == (AddrOf(o, slot), rest)
  {
    var flags := Flags(o, slot);
    FlagsOf(o, slot);
    LastFlag(flags);
    FiveParts([flags], IndexBytes(o), OffsetBytes(o), SlotBytes(slot), TailBytes(o), rest);
    FlagsFirst(flags, IndexBytes(o) + (OffsetBytes(o) + (SlotBytes(slot) + (TailBytes(o) + rest))));
    FlaggedParsed(o, slot, flags, rest);
  }

  lemma AnyAddrParsed(s: seq<Byte>)
    ensures forall o: Operand, slot: Byte, rest: seq<Byte> :: o.Valid() && s == AddrBytes(o, slot) + rest ==>
      ParseAddr(s) == (AddrOf(o, slot), rest)
  {
    forall o: Operand, slot: Byte, rest: seq<Byte> | o.Valid() && s == AddrBytes(o, slot) + rest
      ensures ParseAddr(s) == (AddrOf(o, slot), rest)
    {
      AddrParsed(o, slot, rest);
    }
  }

  lemma NameParsed(sig: nat, kind: Byte, slot: Byte, name: seq<Byte>, rest: seq<Byte>)
    requires 0 !in name
    ensures ParseName(sig, [kind] + ([slot] + (name + [0])) + rest)
         == (Some(NameProg(TypeChar(kind), Char(slot), name + [0], sig)), rest)
  {
    var s, text := [kind] + ([slot] + (name + [0])) + rest, name + [0] + rest;
    assert s == [kind] + ([slot] + text) && s == [kind, slot] + text;
    DropFront([kind], [slot] + text);
    DropFront([slot], text);
    DropFront([kind, slot], text);
    assert text[..|name|] == name && text[..|name| + 1] == name + [0] && text[|name| + 1..] == rest;
    ZeroAtIs(text, |name|);
  }

  lemma InsParsed(code: int, line: nat, from: Operand, fs: Byte, to: Operand, ts: Byte, rest: seq<Byte>)
    requires from.Valid() && to.Valid()
    ensures ParseIns(code, [] + (Le4(line) + AddrBytes(from, fs) + AddrBytes(to, ts) + rest))
         == (Classified(code, fs != 0, if fs != 0 then Char(fs) else -1), rest)
  {
    FourParts(Le4(line), AddrBytes(from, fs), AddrBytes(to, ts), rest);
    DropFront(Le4(line), AddrBytes(from, fs) + (AddrBytes(to, ts) + rest));
    AddrParsed(from, fs, AddrBytes(to, ts) + rest);
    AddrParsed(to, ts, rest);
    FlagsOf(from, fs);
  }

  lemma CodeParsed(code: nat, rest: seq<Byte>)
    requires code < 0x1_0000
    ensures var s := Le2(code) + rest; |s| >= 2 && Code(s) == code && s[2..] == rest
  {
    assert code == 256 * (code / 256) + code % 256;
  }

  /** A record is read as what it is, whatever follows, and what follows is left. */
  lemma RecordParsed(r: Record, rest: seq<Byte>)
    requires r.Valid()
    ensures ParseRecord(RecordBytes(r) + rest) == (Some(Info(r)), rest)
  {
    var body := RecordBody(r) + rest;
    CodeFirst(r, rest);
    match r
    case Name(kind, slot, name) =>
      CodeParsed(ANAME, body);
      NameParsed(0, kind, slot, name, rest);
    case Ins(code, line, from, fs, to, ts) =>
      CodeParsed(code, body);
      assert body == [] + body;
      InsParsed(code, line, from, fs, to, ts, rest);
  }

  lemma AnyRecordParsed(s: seq<Byte>)
    ensures forall r: Record, rest: seq<Byte> :: r.Valid() && s == RecordBytes(r) + rest ==>
      ParseRecord(s) == (Some(Info(r)), rest)
  {
    forall r: Record, rest: seq<Byte> | r.Valid() && s == RecordBytes(r) + rest
      ensures ParseRecord(s) == (Some(Info(r)), rest)
    {
      RecordParsed(r, rest);
    }
  }

  /** So is a name with a signature, which the compilers write. */
  lemma SignedNameParsed(sig: nat, kind: Byte, slot: Byte, name: seq<Byte>, rest: seq<Byte>)
    requires sig < U32 && 0 !in name
    ensures ParseRecord(Le2(ASIGNAME) + (Le4(sig) + ([kind] + ([slot] + (name + [0])) + rest)))
         == (Some(NameProg(TypeChar(kind), Char(slot), name + [0], sig)), rest)
  {
    var body := [kind] + ([slot] + (name + [0])) + rest;
    CodeParsed(ASIGNAME, Le4(sig) + body);
    Word4Of(sig, body);
    NameParsed(sig, kind, slot, name, rest);
  }

  /** Where the bytes of a name begin in a record, and none for an instruction. */
  function NameStart(s: seq<Byte>): Option<nat>
    requires |s| >= 2
  {
    var code := Code(s);
    if code == ANAME then Some(4) else if code == ASIGNAME then Some(8) else None
  }

  /** No code is left, or a name without its end. */
  predicate Unfinished(s: seq<Byte>) {
    |s| < 2 || (NameStart(s).Some? && 0 !in Drop(s, NameStart(s).value))
  }

  /** That is where the reader stops. An instruction cut short is read as one whose missing bytes are
      all ones. */
  lemma RefusedExactly(s: seq<Byte>)
    ensures ParseRecord(s).0.None? <==> Unfinished(s)
  {
    if |s| >= 2 && NameStart(s).Some? {
      var text := Drop(s, NameStart(s).value);
      assert Drop(Drop(s[2..], 4), 2) == Drop(s, 8) && Drop(s[2..], 2) == Drop(s, 4);
      if ZeroAt(text) == |text| { assert text[..|text|] == text; }
    }
  }

  // ---------------------------------------------------------------- the reader

  class Reader {
    const input: seq<Byte>
    var pos: nat

    constructor (input: seq<Byte>)
      ensures this.input == input && pos == 0
    {
      this.input := input;
      pos := 0;
    }

    ghost predicate Valid()
      reads this
    {
      pos <= |input|
    }

    /** The bytes that come next. */
    ghost function Left(): seq<Byte>
      reads this
      requires Valid()
    {
      input[pos..]
    }

    method Getc() returns (c: int)
      requires Valid()
      modifies this
      ensures Valid() && c == First(old(Left())) && Left() == Drop(old(Left()), 1)
    {
      if pos >= |input| {
        return -1;
      }
      c := input[pos];
      pos := pos + 1;
    }

    method Skip(n: nat)
      requires Valid()
      modifies this
      ensures Valid() && Left() == Drop(old(Left()), n)
    {
      DropOne(Left(), 0);
      for k := 0 to n
        invariant Valid() && Left() == Drop(old(Left()), k)
      {
        var _ := Getc();
        DropOne(old(Left()), k);
      }
    }

    /** Four bytes, least significant first, as a signed number. */
    method Getle4() returns (v: int)
      requires Valid()
      modifies this
      ensures Valid() && v == Signed(Word4(old(Left()))) && Left() == Drop(old(Left()), 4)
    {
      ghost var s := Left();
      var b0 := Getc();
      var b1 := Getc();
      DropOne(s, 1);
      var b2 := Getc();
      DropOne(s, 2);
      var b3 := Getc();
      DropOne(s, 3);
      v := Signed(FromLe4(b0 % 256, b1 % 256, b2 % 256, b3 % 256));
    }

    method Offset(flags: nat) returns (off: int)
      requires Valid()
      modifies this
      ensures Valid() && (off, Left()) == ParseOffset(flags, old(Left()))
    {
      off := 0;
      if Bit(flags, 4) {
        ghost var s := Left();
        WordSigned(Word4(s));
        WordSigned(Word4(Drop(s, 4)));
        off := Getle4();
        if Bit(flags, 64) {
          var l := Getle4();
          off := l * U32 + Word(off);
        }
        if off < 0 {
          NegatedIs(off);
          off := Negated(off);
        }
      }
    }

    /** The address parser. */
    method Addr() returns (a: AddrInfo)
      requires Valid()
      modifies this
      ensures Valid() && (a, Left()) == ParseAddr(old(Left()))
      ensures forall o: Operand, slot: Byte, rest: seq<Byte> ::
        o.Valid() && old(Left()) == AddrBytes(o, slot) + rest ==>
        a == AddrOf(o, slot) && Left() == rest
    {
      var flags := Getc();
      a := Flagged(flags % 256);
      AnyAddrParsed(old(Left()));
    }

    method Flagged(flags: nat) returns (a: AddrInfo)
      requires Valid()
      modifies this
      ensures Valid() && (a, Left()) == ParseFlagged(flags, old(Left()))
    {
      DropOne(Left(), 0);
      if Bit(flags, 2) {
        Skip(2);
      }
      var off := Offset(flags);
      var sym, kind, gotype := -1, -1, 0;
      if Bit(flags, 16) {
        sym := Getc();
        sym := Char(sym);
      }
      DropOne(Left(), 0);
      if Bit(flags, 8) {
        Skip(8);
      } else if Bit(flags, 32) {
        Skip(NSNAME);
      }
      var note := NoNote;
      if Bit(flags, 1) {
        kind := Getc();
        if sym > 0 && (kind == D_PARAM || kind == D_AUTO) {
          note := Note(sym, off);
        }
      }
      if Bit(flags, 128) {
        gotype := Getc();
        gotype := Char(gotype);
      }
      return AddrInfo(flags, sym, note, gotype);
    }

    /** Reads one record, if there is one. */
    method Read6() returns (p: Option<Prog>)
      requires Valid()
      modifies this
      ensures Valid() && p == ParseRecord(old(Left())).0 && (p.Some? ==> Left() == ParseRecord(old(Left())).1)
      ensures p.None? <==> Unfinished(old(Left()))
      ensures forall r: Record, rest: seq<Byte> :: r.Valid() && old(Left()) == RecordBytes(r) + rest ==>
        p == Some(Info(r)) && Left() == rest
    {
      RefusedExactly(old(Left()));
      AnyRecordParsed(old(Left()));
      var as_ := Getc();
      if as_ < 0 {
        return None;
      }
      var c := Getc();
      if c < 0 {
        return None;
      }
      as_ := as_ + 256 * c;
      CodeRead(old(Left()));
      if as_ == ANAME || as_ == ASIGNAME {
        var sig := 0;
        if as_ == ASIGNAME {
          WordSigned(Word4(Left()));
          sig := Getle4();
          sig := Word(sig);
        }
        p := NameOf(sig);
      } else {
        var i := Ins(as_);
        p := Some(i);
      }
    }

    lemma CodeRead(s: seq<Byte>)
      ensures |s| >= 2 ==> Code(s) == First(s) + 256 * First(Drop(s, 1)) && s[2..] == Drop(Drop(s, 1), 1)
      ensures First(s) < 0 || First(Drop(s, 1)) < 0 <==> |s| < 2
    {
    }

    method NameOf(sig: nat) returns (p: Option<Prog>)
      requires Valid()
      modifies this
      ensures Valid() && p == ParseName(sig, old(Left())).0 && (p.Some? ==> Left() == ParseName(sig, old(Left())).1)
    {
      DropOne(Left(), 1);
      var kind := Getc();
      var sym := Getc();
      var id := Id();
      return if id.None? then None else Some(NameProg(TypeChar(kind), Char(sym), id.value, sig));
    }

    method Ins(as_: int) returns (p: Prog)
      requires Valid()
      modifies this
      ensures Valid() && (p, Left()) == ParseIns(as_, old(Left()))
    {
      Skip(4);
      var a := Addr();
      var _ := Addr();
      if Bit(a.flags, 16) && as_ == ATEXT {
        p := TextProg(a.slot);
      } else if Bit(a.flags, 16) && as_ == AGLOBL {
        p := DataProg(a.slot);
      } else {
        p := OtherProg(a.slot);
      }
    }

    lemma Behind(input: seq<Byte>, pos: nat, n: nat)
      requires pos + n <= |input|
      ensures input[pos..pos + n] == input[pos..][..n] && input[pos + n..] == input[pos..][n..]
      ensures First(input[pos + n..]) == if n < |input[pos..]| then input[pos..][n] else -1
    {
    }

    lemma OneMore(s: seq<Byte>, n: nat)
      requires n < |s| && 0 !in s[..n] && s[n] != 0
      ensures 0 !in s[..n + 1]
    {
      assert s[..n + 1] == s[..n] + [s[n]];
    }

    /** The bytes of a name with the zero that ends it: counted first, and then read again. */
    method Id() returns (id: Option<seq<Byte>>)
      requires Valid()
      modifies this
      ensures Valid()
      ensures var s, n := old(Left()), ZeroAt(old(Left()));
        if n == |s| then id == None else id == Some(s[..n + 1]) && Left() == s[n + 1..]
    {
      var n := Count();
      if n < 0 {
        return None;
      }
      Behind(input, pos - n, n);
      pos := pos - n;
      id := Some(input[pos..pos + n]);
      pos := pos + n;
    }

    /** How many bytes a name has, with its zero; -1 without one. */
    method Count() returns (n: int)
      requires Valid()
      modifies this
      ensures Valid()
      ensures var s := old(Left());
        if ZeroAt(s) == |s| then n == -1 else n == ZeroAt(s) + 1 && pos == old(pos) + n
    {
      ghost var s := Left();
      n := 0;
      while true
        invariant Valid() && 0 <= n <= |s| && pos == old(pos) + n && 0 !in s[..n]
        decreases |s| - n
      {
        Behind(input, old(pos), n);
        var c := Getc();
        if c < 0 {
          ZeroAtIs(s, n);
          return -1;
        }
        n := n + 1;
        if c == 0 {
          break;
        }
        OneMore(s, n - 1);
      }
      ZeroAtIs(s, n - 1);
    }
  }
}
