/** The symbol slots of the assembler: a ring of numbers for recently used symbols, and the name
    records that tell the reader what they stand for. */
module ObjSlots {
  import opened Bits
  import opened ObjFormat

  const NSYM := 50

  class Sym {
    const name: seq<Byte>
    /** The slot it was entered in last; any number at first. */
    var sym: int

    constructor (name: seq<Byte>)
      requires 0 !in name
      ensures this.name == name
    {
      this.name := name;
      sym := 0;
    }
  }

  datatype Slot = Slot(sym: Sym?, kind: Byte)

  datatype Gen = Gen(op: Operand, sym: Sym?)

  /** The next number of the ring; zero is never used. */
  function Turn(sym: int): int {
    if sym + 1 >= NSYM then 1 else sym + 1
  }

  /** What an operand's slot has to stand for. */
  ghost predicate Denotes(table: map<Byte, (seq<Byte>, Byte)>, slot: int, g: Gen) {
    if g.sym == null then slot == 0
    else 0 < slot < NSYM && slot in table && table[slot] == (g.sym.name, SymType(g.op))
  }

  class Assembler {
    var h: seq<Slot>
    var sym: int
    var obuf: seq<Byte>
    var pc: int
    /** The records in obuf. */
    ghost var log: seq<Record>

    ghost predicate Valid()
      reads this
    {
      && |h| == NSYM && 1 <= sym < NSYM && h[0].sym == null
      && obuf == AllBytes(log) && AllValid(log)
      && forall k :: 0 <= k < NSYM && h[k].sym != null ==> Entered(k)
    }

    /** The reader's table agrees with slot k. */
    ghost predicate Entered(k: int)
      requires 0 <= k < |h| <= 256 && h[k].sym != null
      reads this
    {
      var b: Byte := k;
      b in Table(log) && Table(log)[b] == (h[k].sym.name, h[k].kind)
    }

    ghost predicate Matches(k: int, s: Sym, kind: Byte)
      requires |h| == NSYM
      reads this
    {
      0 <= k < NSYM && h[k] == Slot(s, kind)
    }

    constructor ()
      ensures Valid() && log == [] && pc == 0
    {
      h := seq(NSYM, _ => Slot(null, 0));
      sym, pc := 1, 0;
      obuf, log := [], [];
    }

    method Zname(name: seq<Byte>, kind: Byte, slot: Byte)
      requires obuf == AllBytes(log)
      modifies this`obuf, this`log
      ensures obuf == AllBytes(log) && log == old(log) + [Name(kind, slot, name)]
    {
      TableSnoc(log, Name(kind, slot, name));
      obuf := PutName(obuf, name, kind, slot);
      log := log + [Name(kind, slot, name)];
    }

    /** The part of outcode for one operand: uses the slot of its symbol if that still stands for
        it, and enters it into the next slot of the ring otherwise. */
    method UseSlot(g: Gen) returns (slot: int, entered: bool)
      requires Valid() && (g.sym == null || 0 !in g.sym.name)
      modifies this`h, this`sym, this`obuf, this`log, g.sym
      ensures Valid() && Denotes(Table(log), slot, g)
      ensures g.sym == null ==> !entered
      ensures g.sym != null ==> g.sym.sym == slot && Matches(slot, g.sym, SymType(g.op))
      ensures entered <==> g.sym != null && !old(Matches(g.sym.sym, g.sym, SymType(g.op)))
      ensures !entered ==> h == old(h) && sym == old(sym) && log == old(log) && obuf == old(obuf)
      ensures !entered && g.sym != null ==> g.sym.sym == old(g.sym.sym)
      ensures entered ==> slot == old(sym) && sym == Turn(old(sym)) && h == old(h)[slot := Slot(g.sym, SymType(g.op))]
      ensures entered ==> log == old(log) + [Name(SymType(g.op), slot, g.sym.name)]
    {
      slot, entered := 0, false;
      var s := g.sym;
      if s != null {
        slot := s.sym;
        if slot < 0 || slot >= NSYM {
          slot := 0;
        }
        var t := SymType(g.op);
        if h[slot].kind == t && h[slot].sym == s {
          assert Entered(slot);
          return;
        }
        Enter(s, t);
        slot, entered := s.sym, true;
      }
    }

    method Enter(s: Sym, t: Byte)
      requires Valid() && 0 !in s.name
      modifies this`h, this`sym, this`obuf, this`log, s
      ensures Valid() && s.sym == old(sym) && sym == Turn(old(sym)) && h == old(h)[old(sym) := Slot(s, t)]
      ensures log == old(log) + [Name(t, old(sym), s.name)]
    {
      TableSnoc(log, Name(t, sym, s.name));
      Zname(s.name, t, sym);
      s.sym := sym;
      h := h[sym := Slot(s, t)];
      assert forall k :: 0 <= k < NSYM && h[k].sym != null ==> Entered(k) by {
        forall k | 0 <= k < NSYM && h[k].sym != null ensures Entered(k) {
          assert k != s.sym ==> old(h)[k].sym != null && old(Entered(k));
        }
      }
      sym := sym + 1;
      if sym >= NSYM {
        sym := 1;
      }
    }

    /** After a collision of the two slots: the second operand has the last slot used, and the first
        one has none. */
    ghost predicate Collided(from: Gen, to: Gen)
      requires |h| == NSYM
      reads this, from.sym, to.sym
    {
      && from.sym != null && to.sym != null
      && !Matches(from.sym.sym, from.sym, SymType(from.op))
      && Matches(to.sym.sym, to.sym, SymType(to.op)) && sym == Turn(to.sym.sym) && 1 <= to.sym.sym < NSYM
    }

    /** Both slots, as often as the second takes the place of the first: at most once more. */
    method UseSlots(from: Gen, to: Gen) returns (sf: int, st: int, ghost rounds: nat)
      requires Valid() && (from.sym == null || 0 !in from.sym.name) && (to.sym == null || 0 !in to.sym.name)
      modifies this`h, this`sym, this`obuf, this`log, from.sym, to.sym
      ensures Valid() && Denotes(Table(log), sf, from) && Denotes(Table(log), st, to)
      ensures rounds <= 1
      ensures OnlyNames(old(log), log)
    {
      rounds := 0;
      NoNames(log);
      while true
        invariant Valid() && rounds <= 1 && OnlyNames(old(log), log)
        invariant rounds == 1 ==> Collided(from, to)
        decreases 1 - rounds
      {
        ghost var before := log;
        var entered;
        sf, entered := UseSlot(from);
        ghost var between := log;
        st, entered := UseSlot(to);
        MoreNames(old(log), before, between, log);
        if !entered || st != sf {
          break;
        }
        rounds := rounds + 1;
      }
    }

    /** One instruction: the name records it needs, and then the instruction with slots that stand
        for exactly its symbols and their types. In the first pass only pc moves. */
    method Outcode(a: nat, line: nat, from: Gen, to: Gen, pass: int) returns (ghost sf: Byte, ghost st: Byte)
      requires Valid() && (from.sym == null || 0 !in from.sym.name) && (to.sym == null || 0 !in to.sym.name)
      requires Ins(a, line, from.op, 0, to.op, 0).Valid()
      modifies this, from.sym, to.sym
      ensures Valid()
      ensures pc == old(pc) + (if a != AGLOBL && a != ADATA then 1 else 0)
      ensures pass == 1 ==> log == old(log) && h == old(h) && sym == old(sym)
      ensures pass != 1 ==> |log| > 0 && log[|log| - 1] == Ins(a, line, from.op, sf, to.op, st)
      ensures pass != 1 ==> OnlyNames(old(log), log[..|log| - 1])
      ensures pass != 1 ==> Denotes(Table(log), sf, from) && Denotes(Table(log), st, to)
    {
      sf, st := 0, 0;
      if pass != 1 {
        var f, t, _ := UseSlots(from, to);
        ghost var names := log;
        EmitIns(a, line, from.op, f, to.op, t);
        assert log[..|log| - 1] == names;
        sf, st := f, t;
      }
      if a != AGLOBL && a != ADATA {
        pc := pc + 1;
      }
    }

    method EmitIns(a: nat, line: nat, from: Operand, sf: Byte, to: Operand, st: Byte)
      requires Valid() && Ins(a, line, from, sf, to, st).Valid()
      modifies this`obuf, this`log
      ensures Valid() && log == old(log) + [Ins(a, line, from, sf, to, st)] && Table(log) == Table(old(log))
    {
      TableSnoc(log, Ins(a, line, from, sf, to, st));
      ghost var start := obuf;
      obuf := obuf + Le2(a);
      obuf := obuf + Le4(line);
      Zaddr(from, sf);
      Zaddr(to, st);
      InsParts(start, Le2(a), Le4(line), AddrBytes(from, sf), AddrBytes(to, st));
      log := log + [Ins(a, line, from, sf, to, st)];
      forall k | 0 <= k < NSYM && h[k].sym != null ensures Entered(k) {
        assert old(Entered(k));
      }
    }

    method Zaddr(o: Operand, slot: Byte)
      modifies this`obuf
      ensures obuf == old(obuf) + AddrBytes(o, slot)
    {
      ghost var start := obuf;
      var t := Flags(o, slot);
      var out := obuf + [t];
      if HasIndex(o) {
        out := out + [o.index, o.scale];
      }
      assert out == start + [t] + IndexBytes(o);
      out := PutOffset(out, o);
      ghost var middle := out;
      if slot != 0 {
        out := out + [slot];
      }
      assert out == middle + SlotBytes(slot);
      obuf := PutTail(out, o);
      SixParts(start, [t], IndexBytes(o), OffsetBytes(o), SlotBytes(slot), TailBytes(o));
    }
  }

  method PutName(dst: seq<Byte>, name: seq<Byte>, kind: Byte, slot: Byte) returns (out: seq<Byte>)
    ensures out == dst + RecordBytes(Name(kind, slot, name))
  {
    out := dst + Le2(ANAME) + [kind] + [slot];
    out := PutString(out, name);
    NameParts(dst, Le2(ANAME), [kind], [slot], name, [0]);
  }

  /** A string and the zero that ends it. */
  method PutString(dst: seq<Byte>, name: seq<Byte>) returns (out: seq<Byte>)
    ensures out == dst + name + [0]
  {
    out := dst;
    var n := 0;
    while n < |name|
      invariant 0 <= n <= |name| && out == dst + name[..n]
    {
      assert name[..n + 1] == name[..n] + [name[n]];
      out := out + [name[n]];
      n := n + 1;
    }
    assert name[..n] == name;
    out := out + [0];
  }

  method PutOffset(dst: seq<Byte>, o: Operand) returns (out: seq<Byte>)
    ensures out == dst + OffsetBytes(o)
  {
    out := dst;
    if o.offset != 0 {
      out := out + Le4(Word(o.offset));
      if Wide(o) {
        out := out + Le4(Word(o.offset / U32));
      }
    }
  }

  method PutTail(dst: seq<Byte>, o: Operand) returns (out: seq<Byte>)
    ensures out == dst + TailBytes(o)
  {
    out := dst;
    if o.kind == D_FCONST {
      out := out + Le4(o.flow);
      out := out + Le4(o.fhigh);
    } else if o.kind == D_SCONST {
      out := out + o.sval;
    } else if HasType(o) {
      out := out + [o.kind];
    }
  }

  lemma SixParts(s: seq<Byte>, a: seq<Byte>, b: seq<Byte>, c: seq<Byte>, d: seq<Byte>, e: seq<Byte>)
    ensures s + a + b + c + d + e == s + (a + b + c + d + e)
  {
  }

  lemma NameParts(s: seq<Byte>, a: seq<Byte>, b: seq<Byte>, c: seq<Byte>, d: seq<Byte>, e: seq<Byte>)
    ensures s + a + b + c + d + e == s + (a + (b + (c + (d + e))))
  {
  }

  lemma InsParts(s: seq<Byte>, a: seq<Byte>, b: seq<Byte>, c: seq<Byte>, d: seq<Byte>)
    ensures s + a + b + c + d == s + (a + (b + c + d))
  {
  }

  /** b is a with name records after it. */
  ghost predicate OnlyNames(a: seq<Record>, b: seq<Record>) {
    |a| <= |b| && b[..|a|] == a && forall k :: |a| <= k < |b| ==> b[k].Name?
  }

  lemma NoNames(a: seq<Record>)
    ensures OnlyNames(a, a)
  {
  }

  lemma MoreNames(a: seq<Record>, b: seq<Record>, c: seq<Record>, d: seq<Record>)
    requires OnlyNames(a, b)
    requires c == b || (|c| == |b| + 1 && c[..|b|] == b && c[|b|].Name?)
    requires d == c || (|d| == |c| + 1 && d[..|c|] == c && d[|c|].Name?)
    ensures OnlyNames(a, d)
  {
  }
}
