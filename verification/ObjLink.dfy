/** The linker's reader of addresses and instructions, which keeps every field: what the assembler was
    given comes back, the line included. */
module ObjLink {
  import opened Bits
  import opened Options
  import opened ObjFormat
  import opened ObjRead

  /** An operand as the linker keeps it; slot is zero without a symbol. */
  datatype Adr = Adr(kind: int, index: int, scale: int, offset: int, slot: int, flow: nat, fhigh: nat, scon: seq<Byte>)

  datatype Prog = Prog(code: int, line: int, from: Adr, to: Adr)

  // ---------------------------------------------------------------- the reader

  function LinkOffset(flags: nat, s: seq<Byte>): (int, seq<Byte>) {
    if !Bit(flags, 4) then (0, s)
    else if Bit(flags, 64) then (Word4(s) + Signed(Word4(Drop(s, 4))) * U32, Drop(Drop(s, 4), 4))
    else (Signed(Word4(s)), Drop(s, 4))
  }

  function LinkIndex(flags: nat, s: seq<Byte>): (int, int, seq<Byte>) {
    if Bit(flags, 2) then (First(s), First(Drop(s, 1)), Drop(Drop(s, 1), 1)) else (D_NONE, 0, s)
  }

  /** The constant or the kind at the end of an address. */
  function LinkTail(flags: nat, s: seq<Byte>): (int, nat, nat, seq<Byte>, seq<Byte>) {
    var float := if Bit(flags, 8) then (Word4(s), Word4(Drop(s, 4))) else (0, 0);
    var text := if Bit(flags, 8) || !Bit(flags, 32) || |s| < NSNAME then [] else s[..NSNAME];
    var kind := if Bit(flags, 8) then D_FCONST else if Bit(flags, 32) then D_SCONST else D_NONE;
    var s1 := Drop(s, ConstantSize(flags));
    if Bit(flags, 1) then (First(s1), float.0, float.1, text, Drop(s1, 1)) else (kind, float.0, float.1, text, s1)
  }

  /** zaddr behind the flags. */
  function LinkFlagged(flags: nat, s: seq<Byte>): (Adr, seq<Byte>) {
    var (index, scale, s1) := LinkIndex(flags, s);
    var (offset, s2) := LinkOffset(flags, s1);
    var (slot, s3) := if Bit(flags, 16) then (First(s2), Drop(s2, 1)) else (0, s2);
    var (kind, flow, fhigh, scon, s4) := LinkTail(flags, s3);
    var s5 := if Bit(flags, 128) then Drop(s4, 1) else s4;
    (Adr(kind, index, scale, offset, slot, flow, fhigh, scon), s5)
  }

  function LinkAddr(s: seq<Byte>): (Adr, seq<Byte>) {
    LinkFlagged(First(s) % 256, Drop(s, 1))
  }

  /** An instruction; None for a name record, and where no code is left. */
  function LinkIns(s: seq<Byte>): Option<(Prog, seq<Byte>)> {
    if |s| < 2 || ObjRead.Code(s) == ANAME || ObjRead.Code(s) == ASIGNAME then None
    else
      var s1 := s[2..];
      var (from, s2) := LinkAddr(Drop(s1, 4));
      var (to, s3) := LinkAddr(s2);
      Some((Prog(ObjRead.Code(s), Signed(Word4(s1)), from, to), s3))
  }

  // ---------------------------------------------------------------- what the assembler was given

  /** The operand, with the constant that its kind has. */
  function View(o: Operand, slot: Byte): Adr {
    Adr(o.kind, o.index, o.scale, o.offset, slot,
        if o.kind == D_FCONST then o.flow else 0, if o.kind == D_FCONST then o.fhigh else 0,
        if o.kind == D_SCONST then o.sval else [])
  }

  lemma OffsetLinked(o: Operand, flags: nat, rest: seq<Byte>)
    requires o.Valid() && Bit(flags, 4) == (o.offset != 0) && Bit(flags, 64) == Wide(o)
    ensures LinkOffset(flags, OffsetBytes(o) + rest) == (o.offset, rest)
  {
    if o.offset == 0 {
      assert OffsetBytes(o) + rest == rest;
    } else {
      var high := if Wide(o) then Le4(Word(o.offset / U32)) else [];
      assert OffsetBytes(o) + rest == Le4(Word(o.offset)) + (high + rest);
      Word4Of(Word(o.offset), high + rest);
      Word4Of(Word(o.offset / U32), rest);
      OffsetValue(o);
      WordSigned(Word(o.offset));
      assert high == [] ==> high + rest == rest;
    }
  }

  lemma IndexLinked(o: Operand, flags: nat, rest: seq<Byte>)
    requires Bit(flags, 2) == HasIndex(o)
    ensures LinkIndex(flags, IndexBytes(o) + rest) == (o.index, o.scale, rest)
  {
    DropFront(IndexBytes(o), rest);
    if HasIndex(o) {
      var s := IndexBytes(o) + rest;
      assert First(Drop(s, 1)) == s[1] && Drop(Drop(s, 1), 1) == Drop(s, 2);
    } else {
      assert [] + rest == rest;
    }
  }

  lemma TailLinked(o: Operand, flags: nat, rest: seq<Byte>)
    requires o.Valid() && Bit(flags, 1) == HasType(o)
    requires Bit(flags, 8) == (o.kind == D_FCONST) && Bit(flags, 32) == (o.kind == D_SCONST)
    ensures var v := View(o, 0);
      LinkTail(flags, TailBytes(o) + rest) == (v.kind, v.flow, v.fhigh, v.scon, rest)
  {
    DropFront(TailBytes(o), rest);
    DropOne(TailBytes(o) + rest, 0);
    if o.kind == D_FCONST {
      assert TailBytes(o) + rest == Le4(o.flow) + (Le4(o.fhigh) + rest);
      Word4Of(o.flow, Le4(o.fhigh) + rest);
      Word4Of(o.fhigh, rest);
    }
    if o.kind == D_SCONST { assert (o.sval + rest)[..NSNAME] == o.sval; }
    if o.kind == D_NONE { assert [] + rest == rest; }
  }

  lemma FlaggedLinked(o: Operand, slot: Byte, flags: nat, rest: seq<Byte>)
    requires o.Valid() && !Bit(flags, 128) && Bit(flags, 2) == HasIndex(o) && Bit(flags, 16) == (slot != 0)
    requires Bit(flags, 1) == HasType(o) && Bit(flags, 8) == (o.kind == D_FCONST)
    requires Bit(flags, 32) == (o.kind == D_SCONST) && Bit(flags, 4) == (o.offset != 0) && Bit(flags, 64) == Wide(o)
    ensures LinkFlagged(flags, IndexBytes(o) + (OffsetBytes(o) + (SlotBytes(slot) + (TailBytes(o) + rest))))
         == (View(o, slot), rest)
  {
    var b4 := TailBytes(o) + rest;
    var b3 := SlotBytes(slot) + b4;
    var b2 := OffsetBytes(o) + b3;
    IndexLinked(o, flags, b2);
    OffsetLinked(o, flags, b3);
    SlotParsed(slot, b4);
    TailLinked(o, flags, rest);
  }

  lemma FlagsOfLink(flags: Byte, s: seq<Byte>)
    ensures LinkAddr([flags] + s) == LinkFlagged(flags, s)
  {
    FlagsTaken(flags, s);
  }

  /** The linker takes exactly the bytes of an address, and finds the operand: its kind, index, scale,
      whole offset, constant, and the number of its symbol. */
  lemma AddrLinked(o: Operand, slot: Byte, rest: seq<Byte>)
    requires o.Valid()
    ensures LinkAddr(AddrBytes(o, slot) + rest) == (View(o, slot), rest)
  {
    var flags := Flags(o, slot);
    FlagsOf(o, slot);
    LastFlag(flags);
    FiveParts([flags], IndexBytes(o), OffsetBytes(o), SlotBytes(slot), TailBytes(o), rest);
    FlagsOfLink(flags, IndexBytes(o) + (OffsetBytes(o) + (SlotBytes(slot) + (TailBytes(o) + rest))));
    FlaggedLinked(o, slot, flags, rest);
  }

  /** So it does for an instruction, and its code and line. */
  lemma InsLinked(r: Record, rest: seq<Byte>)
    requires r.Valid() && r.Ins?
    ensures LinkIns(RecordBytes(r) + rest)
         == Some((Prog(r.code, Signed(r.line), View(r.from, r.fromSlot), View(r.to, r.toSlot)), rest))
  {
    var a2 := AddrBytes(r.to, r.toSlot) + rest;
    var a1 := AddrBytes(r.from, r.fromSlot) + a2;
    var body := RecordBody(r) + rest;
    CodeFirst(r, rest);
    CodeParsed(r.code, body);
    FourParts(Le4(r.line), AddrBytes(r.from, r.fromSlot), AddrBytes(r.to, r.toSlot), rest);
    assert body == Le4(r.line) + a1;
    Word4Of(r.line, a1);
    AddrLinked(r.from, r.fromSlot, a2);
    AddrLinked(r.to, r.toSlot, rest);
  }

  // ---------------------------------------------------------------- names

  /** A name record: its type, the number of the symbol, and the name; None where it has no end. */
  function LinkName(s: seq<Byte>): Option<(int, int, seq<Byte>, seq<Byte>)> {
    if |s| < 4 || ObjRead.Code(s) != ANAME then None
    else
      var n := ZeroAt(s[4..]);
      if n == |s[4..]| then None else Some((s[2], s[3], s[4..][..n], s[4..][n + 1..]))
  }

  /** The linker finds in a name record what the assembler has put there. */
  lemma NameLinked(r: Record, rest: seq<Byte>)
    requires r.Valid() && r.Name?
    ensures LinkName(RecordBytes(r) + rest) == Some((r.kind, r.slot, r.name, rest))
  {
    var s, text := RecordBytes(r) + rest, r.name + [0] + rest;
    CodeFirst(r, rest);
    CodeParsed(ANAME, RecordBody(r) + rest);
    assert RecordBody(r) + rest == [r.kind, r.slot] + text;
    assert s[2..] == [r.kind, r.slot] + text;
    assert s[4..] == s[2..][2..] == text;
    assert s[2] == s[2..][0] && s[3] == s[2..][1];
    assert text[..|r.name|] == r.name && text[|r.name| + 1..] == rest;
    ZeroAtIs(text, |r.name|);
  }
}
