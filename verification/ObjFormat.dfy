/** Object-file records of the assembler: name records, instructions and their addresses, as the
    assembler writes them. */
module ObjFormat {
  import opened Bits

  const D_NONE: Byte := 111
  const D_EXTERN: Byte := 113
  const D_STATIC: Byte := 114
  const D_AUTO: Byte := 115
  const D_PARAM: Byte := 116
  const D_FCONST: Byte := 118
  const D_SCONST: Byte := 119
  const D_ADDR: Byte := 120

  const AGLOBL := 54
  const ADATA := 45
  const ANAME := 132
  const ATEXT := 227
  const ASIGNAME := 339

  const NSNAME := 8

  /** An operand without its symbol. The floating constant is given as the two words written. */
  datatype Operand =
    Operand(kind: Byte, index: Byte, scale: Byte, offset: int, flow: nat, fhigh: nat, sval: seq<Byte>) {
    predicate Valid() {
      && -0x8000_0000_0000_0000 <= offset < 0x8000_0000_0000_0000
      && flow < U32 && fhigh < U32 && |sval| == NSNAME
    }
  }

  /** The type under which an operand's symbol is entered. */
  function SymType(o: Operand): Byte {
    if o.kind == D_ADDR then o.index else o.kind
  }

  datatype Record =
    | Name(kind: Byte, slot: Byte, name: seq<Byte>)
    | Ins(code: nat, line: nat, from: Operand, fromSlot: Byte, to: Operand, toSlot: Byte)
  {
    predicate Valid() {
      match this
      case Name(_, _, name) => 0 !in name
      case Ins(code, line, from, _, to, _) =>
        code < 0x1_0000 && code != ANAME && code != ASIGNAME && line < U32 && from.Valid() && to.Valid()
    }
  }

  ghost predicate AllValid(log: seq<Record>) {
    forall k :: 0 <= k < |log| ==> log[k].Valid()
  }

  // ---------------------------------------------------------------- flags of an address

  function Flag(b: bool, v: nat): nat { if b then v else 0 }

  predicate HasType(o: Operand) {
    o.kind != D_FCONST && o.kind != D_SCONST && o.kind != D_NONE
  }

  predicate Wide(o: Operand) {
    o.offset != 0 && Signed(Word(o.offset)) != o.offset
  }

  function Flags(o: Operand, slot: nat): (t: nat)
    ensures t < 128
  {
    Flag(HasType(o), 1) + Flag(HasIndex(o), 2) + Flag(o.offset != 0, 4)
    + Flag(o.kind == D_FCONST, 8) + Flag(slot != 0, 16) + Flag(o.kind == D_SCONST, 32) + Flag(Wide(o), 64)
  }

  /** A bit of a flag byte. */
  predicate Bit(t: nat, v: nat)
    requires v > 0
  {
    t / v % 2 == 1
  }

  lemma FlagBits(a: bool, b: bool, c: bool, d: bool, e: bool, f: bool, g: bool)
    ensures var t := Flag(a, 1) + Flag(b, 2) + Flag(c, 4) + Flag(d, 8) + Flag(e, 16) + Flag(f, 32) + Flag(g, 64);
      && Bit(t, 1) == a && Bit(t, 2) == b && Bit(t, 4) == c && Bit(t, 8) == d
      && Bit(t, 16) == e && Bit(t, 32) == f && Bit(t, 64) == g && !Bit(t, 128)
  {
    FlagDigits(Flag(a, 1), Flag(b, 1), Flag(c, 1), Flag(d, 1), Flag(e, 1), Flag(f, 1), Flag(g, 1));
    assert Flag(b, 2) == 2 * Flag(b, 1) && Flag(c, 4) == 4 * Flag(c, 1) && Flag(d, 8) == 8 * Flag(d, 1);
    assert Flag(e, 16) == 16 * Flag(e, 1) && Flag(f, 32) == 32 * Flag(f, 1) && Flag(g, 64) == 64 * Flag(g, 1);
  }

  /** The binary digits of a number below 128. */
  lemma FlagDigits(a: nat, b: nat, c: nat, d: nat, e: nat, f: nat, g: nat)
    requires a < 2 && b < 2 && c < 2 && d < 2 && e < 2 && f < 2 && g < 2
    ensures var t := a + 2 * b + 4 * c + 8 * d + 16 * e + 32 * f + 64 * g;
      && t % 2 == a && t / 2 % 2 == b && t / 4 % 2 == c && t / 8 % 2 == d
      && t / 16 % 2 == e && t / 32 % 2 == f && t / 64 % 2 == g && t / 128 == 0
  {
    var t := a + 2 * b + 4 * c + 8 * d + 16 * e + 32 * f + 64 * g;
    assert t / 2 == b + 2 * c + 4 * d + 8 * e + 16 * f + 32 * g;
    assert t / 4 == c + 2 * d + 4 * e + 8 * f + 16 * g;
    assert t / 8 == d + 2 * e + 4 * f + 8 * g;
    assert t / 16 == e + 2 * f + 4 * g;
    assert t / 32 == f + 2 * g;
    assert t / 64 == g;
  }

  lemma FlagsOf(o: Operand, slot: nat)
    ensures var t := Flags(o, slot);
      && Bit(t, 1) == HasType(o) && Bit(t, 2) == HasIndex(o) && Bit(t, 4) == (o.offset != 0)
      && Bit(t, 8) == (o.kind == D_FCONST)
      && Bit(t, 16) == (slot != 0) && Bit(t, 32) == (o.kind == D_SCONST) && Bit(t, 64) == Wide(o)
  {
    FlagBits(HasType(o), HasIndex(o), o.offset != 0, o.kind == D_FCONST, slot != 0, o.kind == D_SCONST, Wide(o));
  }

  // ---------------------------------------------------------------- bytes

  function Le2(x: nat): seq<Byte> {
    [x % 256, x / 256 % 256]
  }

  function Le4(x: nat): (r: seq<Byte>)
    ensures |r| == 4
  {
    [x % 256, x / 256 % 256, x / 0x1_0000 % 256, x / 0x100_0000 % 256]
  }

  function OffsetBytes(o: Operand): seq<Byte> {
    if o.offset == 0 then []
    else Le4(Word(o.offset)) + (if Wide(o) then Le4(Word(o.offset / U32)) else [])
  }

  function TailBytes(o: Operand): seq<Byte> {
    if o.kind == D_FCONST then Le4(o.flow) + Le4(o.fhigh)
    else if o.kind == D_SCONST then o.sval
    else if o.kind == D_NONE then []
    else [o.kind]
  }

  predicate HasIndex(o: Operand) {
    o.index != D_NONE || o.scale != 0
  }

  function IndexBytes(o: Operand): seq<Byte> {
    if HasIndex(o) then [o.index, o.scale] else []
  }

  function SlotBytes(slot: Byte): seq<Byte> {
    if slot != 0 then [slot] else []
  }

  function AddrBytes(o: Operand, slot: Byte): seq<Byte> {
    [Flags(o, slot)] + IndexBytes(o) + OffsetBytes(o) + SlotBytes(slot) + TailBytes(o)
  }

  lemma FiveParts(a: seq<Byte>, b: seq<Byte>, c: seq<Byte>, d: seq<Byte>, e: seq<Byte>, rest: seq<Byte>)
    ensures (a + b + c + d + e) + rest == a + (b + (c + (d + (e + rest))))
  {
  }

  function RecordBytes(r: Record): seq<Byte> {
    match r
    case Name(_, _, _) => Le2(ANAME) + RecordBody(r)
    case Ins(code, _, _, _, _, _) => Le2(code) + RecordBody(r)
  }

  function RecordBody(r: Record): seq<Byte> {
    match r
    case Name(kind, slot, name) => [kind] + ([slot] + (name + [0]))
    case Ins(_, line, from, fs, to, ts) => Le4(line) + AddrBytes(from, fs) + AddrBytes(to, ts)
  }

  lemma CodeFirst(r: Record, rest: seq<Byte>)
    ensures RecordBytes(r) + rest == Le2(if r.Name? then ANAME else r.code) + (RecordBody(r) + rest)
  {
  }

  lemma FourParts(a: seq<Byte>, b: seq<Byte>, c: seq<Byte>, rest: seq<Byte>)
    ensures [] + (a + b + c + rest) == a + (b + (c + rest))
  {
  }

  function Pieces(log: seq<Record>): (p: seq<seq<Byte>>)
    ensures |p| == |log|
  {
    seq(|log|, i requires 0 <= i < |log| => RecordBytes(log[i]))
  }

  function Join(p: seq<seq<Byte>>): seq<Byte> {
    if p == [] then [] else Join(p[..|p| - 1]) + p[|p| - 1]
  }

  function AllBytes(log: seq<Record>): seq<Byte> {
    Join(Pieces(log))
  }

  // ---------------------------------------------------------------- the slot table

  /** What a slot number means after some records: the last name record with that number. */
  function Table(log: seq<Record>): map<Byte, (seq<Byte>, Byte)> {
    if log == [] then map[]
    else
      var m := Table(log[..|log| - 1]);
      match log[|log| - 1]
      case Name(kind, slot, name) => m[slot := (name, kind)]
      case _ => m
  }

  lemma TableSnoc(log: seq<Record>, r: Record)
    ensures Table(log + [r])
         == match r case Name(kind, slot, name) => Table(log)[slot := (name, kind)] case _ => Table(log)
    ensures AllBytes(log + [r]) == AllBytes(log) + RecordBytes(r)
  {
    assert (log + [r])[..|log|] == log;
    assert Pieces(log + [r]) == Pieces(log) + [RecordBytes(r)];
    JoinSnoc(Pieces(log), RecordBytes(r));
  }

  lemma JoinSnoc(p: seq<seq<Byte>>, b: seq<Byte>)
    ensures Join(p + [b]) == Join(p) + b
  {
    assert (p + [b])[..|p|] == p;
  }
}
