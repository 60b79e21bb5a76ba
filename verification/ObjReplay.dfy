/** Reading back everything that the assembler wrote: the reader's names are the writer's slots. */
module ObjReplay {
  import opened Bits
  import opened Options
  import opened ObjFormat
  import opened ObjRead
  import opened ObjSlots

  function Infos(log: seq<Record>): (p: seq<Prog>)
    ensures |p| == |log|
  {
    if log == [] then [] else Infos(log[..|log| - 1]) + [Info(log[|log| - 1])]
  }

  /** The names that a reader has collected: by slot, the identifier and the class of the symbol. */
  function Names(progs: seq<Prog>): map<int, (seq<Byte>, char)> {
    if progs == [] then map[]
    else
      var m := Names(progs[..|progs| - 1]);
      match progs[|progs| - 1]
      case NameProg(kind, slot, id, _) => m[slot := (id, kind)]
      case _ => m
  }

  /** The reader's names are exactly the entries of the slot table. */
  lemma {:induction false} NamesAgree(log: seq<Record>, slot: Byte)
    ensures Char(slot) in Names(Infos(log)) <==> slot in Table(log)
    ensures slot in Table(log) ==>
      Names(Infos(log))[Char(slot)] == (Table(log)[slot].0 + [0], TypeChar(Table(log)[slot].1))
  {
    if log != [] {
      var front := log[..|log| - 1];
      NamesAgree(front, slot);
      assert Infos(log)[..|log| - 1] == Infos(front);
    }
  }

  lemma {:induction false} JoinSplit(a: seq<seq<Byte>>, b: seq<seq<Byte>>)
    ensures Join(a + b) == Join(a) + Join(b)
    decreases |b|
  {
    if b == [] {
      assert a + b == a;
    } else {
      var front, last := b[..|b| - 1], b[|b| - 1];
      JoinSplit(a, front);
      assert a + b == (a + front) + [last];
      JoinSnoc(a + front, last);
      Regroup(Join(a), Join(front), last);
    }
  }

  lemma Regroup(a: seq<Byte>, b: seq<Byte>, c: seq<Byte>)
    ensures a + (b + c) == (a + b) + c
  {
  }

  lemma JoinCons(b: seq<Byte>, p: seq<seq<Byte>>)
    ensures Join([b] + p) == b + Join(p)
  {
    JoinSplit([b], p);
    JoinSnoc([], b);
    assert [] + [b] == [b];
  }

  lemma PiecesOf(log: seq<Record>, r: Record, more: seq<Record>)
    requires log == [r] + more
    ensures Pieces(log) == [RecordBytes(r)] + Pieces(more)
  {
    var p, q := Pieces(log), Pieces(more);
    forall i | 0 <= i < |more| ensures p[i + 1] == q[i] {
      PieceNext(log, r, more, i);
    }
    FirstAndRest(p, RecordBytes(r), q);
  }

  lemma PieceAt(log: seq<Record>, i: nat, r: Record)
    requires i < |log| && log[i] == r
    ensures Pieces(log)[i] == RecordBytes(r)
  {
  }

  lemma PieceNext(log: seq<Record>, r: Record, more: seq<Record>, i: nat)
    requires log == [r] + more && i < |more|
    ensures Pieces(log)[i + 1] == Pieces(more)[i]
  {
    var x := more[i];
    assert log[i + 1] == x;
    PieceAt(log, i + 1, x);
    PieceAt(more, i, x);
  }

  lemma FirstAndRest(p: seq<seq<Byte>>, b: seq<Byte>, q: seq<seq<Byte>>)
    requires |p| == |q| + 1 && p[0] == b && forall i :: 0 <= i < |q| ==> p[i + 1] == q[i]
    ensures p == [b] + q
  {
    forall i | 0 <= i < |p| ensures p[i] == ([b] + q)[i] {
      if i > 0 { assert p[(i - 1) + 1] == q[i - 1]; }
    }
  }

  lemma {:induction false} InfosCons(log: seq<Record>)
    requires log != []
    ensures Infos(log) == [Info(log[0])] + Infos(log[1..])
    decreases |log|
  {
    if |log| > 1 {
      var front := log[..|log| - 1];
      InfosCons(front);
      assert front[1..] == log[1..][..|log| - 2];
    }
  }

  /** The records that a reader finds in some bytes, up to the first that it refuses. */
  function ParseAll(s: seq<Byte>): seq<Prog>
    decreases |s|
  {
    var (p, rest) := ParseRecord(s);
    if p.None? then [] else [p.value] + ParseAll(rest)
  }

  lemma ParseStep(s: seq<Byte>, p: Prog, rest: seq<Byte>)
    requires ParseRecord(s) == (Some(p), rest)
    ensures ParseAll(s) == [p] + ParseAll(rest)
  {
  }

  lemma FirstParsed(r: Record, more: seq<Record>, log: seq<Record>)
    requires r.Valid() && log != [] && log[0] == r && log[1..] == more
    ensures ParseAll(AllBytes(log)) == [Info(r)] + ParseAll(AllBytes(more))
  {
    FirstBytes(log);
    RecordParsed(r, AllBytes(more));
    ParseStep(RecordBytes(r) + AllBytes(more), Info(r), AllBytes(more));
  }

  lemma FirstBytes(log: seq<Record>)
    requires log != []
    ensures AllBytes(log) == RecordBytes(log[0]) + AllBytes(log[1..])
  {
    PiecesOf(log, log[0], log[1..]);
    JoinCons(RecordBytes(log[0]), Pieces(log[1..]));
  }

  /** In what was assembled: every record, in order, and nothing else. */
  lemma {:induction false} AllParsed(log: seq<Record>)
    requires AllValid(log)
    ensures ParseAll(AllBytes(log)) == Infos(log)
    decreases |log|
  {
    if log != [] {
      FirstParsed(log[0], log[1..], log);
      AllParsed(log[1..]);
      InfosCons(log);
    }
  }

  lemma AnyParsed(s: seq<Byte>)
    ensures forall log: seq<Record> :: AllValid(log) && s == AllBytes(log) ==> ParseAll(s) == Infos(log)
  {
    forall log: seq<Record> | AllValid(log) && s == AllBytes(log) ensures ParseAll(s) == Infos(log) {
      AllParsed(log);
    }
  }

  /** Reads records as long as there are any. */
  method ReadAll(input: seq<Byte>) returns (progs: seq<Prog>)
    ensures progs == ParseAll(input)
    ensures forall log: seq<Record> :: AllValid(log) && input == AllBytes(log) ==> progs == Infos(log)
  {
    AnyParsed(input);
    var r := new Reader(input);
    progs := [];
    assert input[0..] == input;
    while true
      invariant r.Valid() && r.input == input && ParseAll(input) == progs + ParseAll(r.Left())
      decreases |input| - r.pos
    {
      ghost var s := r.Left();
      var p := r.Read6();
      if p.None? {
        return;
      }
      progs := progs + [p.value];
    }
  }

  // ---------------------------------------------------------------- whole runs

  datatype Line = Line(a: nat, line: nat, from: Gen, to: Gen)

  ghost predicate GenOk(g: Gen) {
    g.sym == null || 0 !in g.sym.name
  }

  ghost predicate LineOk(l: Line) {
    GenOk(l.from) && GenOk(l.to) && Ins(l.a, l.line, l.from.op, 0, l.to.op, 0).Valid()
  }

  ghost function SymsOf(lines: seq<Line>): set<Sym?> {
    (set i | 0 <= i < |lines| :: lines[i].from.sym) + (set i | 0 <= i < |lines| :: lines[i].to.sym)
  }

  /** For a reader of these records the slot is the symbol of the operand, under its type. */
  ghost predicate Reads(progs: seq<Prog>, slot: int, g: Gen) {
    if g.sym == null then slot == 0
    else slot in Names(progs) && Names(progs)[slot].0 == g.sym.name + [0] && ClassOf(g.op, Names(progs)[slot].1)
  }

  /** The class of a symbol by where it is stored. */
  predicate Stored(storage: Byte, c: char) {
    && (storage == D_EXTERN ==> c == 'U') && (storage == D_STATIC ==> c == 'b')
    && (storage == D_AUTO ==> c == 'a') && (storage == D_PARAM ==> c == 'p')
    && (storage != D_EXTERN && storage != D_STATIC && storage != D_AUTO && storage != D_PARAM ==> c == '?')
  }

  /** The address of a symbol has the class of the symbol. */
  predicate ClassOf(o: Operand, c: char) {
    (o.kind != D_ADDR ==> Stored(o.kind, c)) && (o.kind == D_ADDR ==> Stored(o.index, c))
  }

  /** Record k is the instruction, and its slots are its symbols when a reader comes to it. */
  ghost predicate Placed(log: seq<Record>, k: nat, l: Line) {
    && k < |log| && log[k].Ins?
    && log[k].code == l.a && log[k].line == l.line && log[k].from == l.from.op && log[k].to == l.to.op
    && Reads(Infos(log[..k]), log[k].fromSlot, l.from) && Reads(Infos(log[..k]), log[k].toSlot, l.to)
  }

  lemma ReadsDenoted(log: seq<Record>, slot: Byte, g: Gen)
    requires Denotes(Table(log), slot, g)
    ensures Reads(Infos(log), slot, g)
  {
    NamesAgree(log, slot);
  }

  lemma PlacedLast(log: seq<Record>, l: Line, sf: Byte, st: Byte)
    requires log != [] && log[|log| - 1] == Ins(l.a, l.line, l.from.op, sf, l.to.op, st)
    requires Denotes(Table(log), sf, l.from) && Denotes(Table(log), st, l.to)
    ensures Placed(log, |log| - 1, l)
  {
    var front := log[..|log| - 1];
    assert Table(log) == Table(front);
    ReadsDenoted(front, sf, l.from);
    ReadsDenoted(front, st, l.to);
  }

  lemma PlacedStays(a: seq<Record>, b: seq<Record>, k: nat, l: Line)
    requires Placed(a, k, l) && |a| <= |b| && b[..|a|] == a
    ensures Placed(b, k, l)
  {
    assert b[..k] == a[..k] && b[k] == a[k];
  }

  /** The records of a run: one for each line, in order, and names between them. */
  ghost predicate Listing(log: seq<Record>, lines: seq<Line>, at: seq<nat>) {
    && |at| == |lines|
    && (forall i :: 0 <= i < |at| ==> Placed(log, at[i], lines[i]))
    && (forall i :: 0 < i < |at| ==> at[i - 1] < at[i])
    && (forall k: nat :: k < |log| ==> log[k].Name? || k in at)
  }

  lemma ListingGrows(a: seq<Record>, b: seq<Record>, lines: seq<Line>, at: seq<nat>, l: Line)
    requires Listing(a, lines, at) && b != [] && OnlyNames(a, b[..|b| - 1]) && Placed(b, |b| - 1, l)
    ensures Listing(b, lines + [l], at + [|b| - 1])
  {
    var more := at + [|b| - 1];
    assert b[..|a|] == a by { assert b[..|b| - 1][..|a|] == b[..|a|]; }
    forall i | 0 <= i < |more| ensures Placed(b, more[i], (lines + [l])[i]) {
      if i < |at| { PlacedStays(a, b, at[i], lines[i]); }
    }
    forall k: nat | k < |b| ensures b[k].Name? || k in more {
      InMore(a, b, at, k);
    }
  }

  lemma InMore(a: seq<Record>, b: seq<Record>, at: seq<nat>, k: nat)
    requires k < |b| && |a| <= |b| && b[..|a|] == a && OnlyNames(a, b[..|b| - 1])
    requires forall j: nat :: j < |a| ==> a[j].Name? || j in at
    ensures b[k].Name? || k in at + [|b| - 1]
  {
    if k < |a| {
      assert a[k] == b[k];
    } else if k < |b| - 1 {
      assert b[..|b| - 1][k] == b[k];
    }
  }

  lemma Listed(a: seq<Record>, b: seq<Record>, lines: seq<Line>, at: seq<nat>, l: Line, sf: Byte, st: Byte)
    requires Listing(a, lines, at) && b != [] && OnlyNames(a, b[..|b| - 1])
    requires b[|b| - 1] == Ins(l.a, l.line, l.from.op, sf, l.to.op, st)
    requires Denotes(Table(b), sf, l.from) && Denotes(Table(b), st, l.to)
    ensures Listing(b, lines + [l], at + [|b| - 1])
  {
    PlacedLast(b, l, sf, st);
    ListingGrows(a, b, lines, at, l);
  }

  /** One more line. */
  method AssembleLine(asm: Assembler, l: Line, ghost lines: seq<Line>, ghost at: seq<nat>)
    returns (ghost more: seq<nat>)
    requires asm.Valid() && LineOk(l) && Listing(asm.log, lines, at)
    modifies asm, l.from.sym, l.to.sym
    ensures asm.Valid() && Listing(asm.log, lines + [l], more)
  {
    ghost var before := asm.log;
    ghost var sf, st := asm.Outcode(l.a, l.line, l.from, l.to, 2);
    more := at + [|asm.log| - 1];
    Listed(before, asm.log, lines, at, l, sf, st);
  }

  lemma SymsIn(lines: seq<Line>, i: nat)
    requires i < |lines|
    ensures lines[i].from.sym in SymsOf(lines) && lines[i].to.sym in SymsOf(lines)
    ensures lines[..i] + [lines[i]] == lines[..i + 1]
  {
  }

  method Assemble(lines: seq<Line>) returns (asm: Assembler, ghost at: seq<nat>)
    requires forall i :: 0 <= i < |lines| ==> LineOk(lines[i])
    modifies SymsOf(lines)
    ensures asm.Valid() && Listing(asm.log, lines, at)
  {
    asm := new Assembler();
    at := [];
    for i := 0 to |lines|
      invariant fresh(asm) && asm.Valid() && Listing(asm.log, lines[..i], at)
    {
      SymsIn(lines, i);
      at := AssembleLine(asm, lines[i], lines[..i], at);
    }
    assert lines[..|lines|] == lines;
  }

  /** Whatever is assembled, reading the object file back gives each instruction in order, with
      slots that the reader knows by the names and types of its symbols. */
  method AssembleAndRead(lines: seq<Line>) returns (progs: seq<Prog>, ghost log: seq<Record>, ghost at: seq<nat>)
    requires forall i :: 0 <= i < |lines| ==> LineOk(lines[i])
    modifies SymsOf(lines)
    ensures progs == Infos(log) && Listing(log, lines, at)
  {
    var asm: Assembler;
    asm, at := Assemble(lines);
    log := asm.log;
    progs := ReadAll(asm.obuf);
  }

  /** A symbol and its address, one after the other, share a slot, and need one name record at most. */
  method Shared(asm: Assembler, direct: Gen, address: Gen) returns (slot: int)
    requires asm.Valid() && direct.sym != null && direct.sym == address.sym && 0 !in direct.sym.name
    requires direct.op.kind != D_ADDR && address.op.kind == D_ADDR && address.op.index == direct.op.kind
    modifies asm, direct.sym
    ensures asm.Valid() && |asm.log| <= old(|asm.log|) + 1
    ensures Denotes(Table(asm.log), slot, direct) && Denotes(Table(asm.log), slot, address)
  {
    var entered: bool;
    slot, entered := asm.UseSlot(direct);
    var again;
    again, entered := asm.UseSlot(address);
    assert !entered && again == slot;
  }
}
