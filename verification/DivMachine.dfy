/** The few 386 instructions that the division generator uses, on 32-bit words. */
module DivMachine {
  import opened Bits

  /** AX, DX, the operand, and a scratch register. */
  datatype Loc = AX | DX | L | NOD

  datatype Arg = At(loc: Loc) | Const(word: nat)

  datatype Instr =
    | MOVL(src: Arg, dst: Loc)
    | MULL(src: Arg)
    | IMULL(src: Arg)
    | ADDL(src: Arg, dst: Loc)
    | SUBL(src: Arg, dst: Loc)
    | ANDL(src: Arg, dst: Loc)
    | XORL(src: Arg, dst: Loc)
    | SHRL(count: nat, dst: Loc)
    | SARL(count: nat, dst: Loc)
    | RCRL(dst: Loc)
    | NEGL(dst: Loc)
    | CMPL(a: Arg, b: Arg)
    | SBBL(src: Arg, dst: Loc)
    | CDQ

  datatype Machine = Machine(ax: nat, dx: nat, l: nat, nod: nat, carry: bool) {
    predicate Valid() {
      ax < U32 && dx < U32 && l < U32 && nod < U32
    }

    function Get(r: Loc): nat {
      match r
      case AX => ax
      case DX => dx
      case L => l
      case NOD => nod
    }

    function Set(r: Loc, w: nat): Machine {
      match r
      case AX => this.(ax := w)
      case DX => this.(dx := w)
      case L => this.(l := w)
      case NOD => this.(nod := w)
    }

    function Value(a: Arg): nat {
      match a
      case At(r) => Get(r)
      case Const(w) => w
    }
  }

  // ---------------------------------------------------------------- words

  function And(a: nat, b: nat): nat {
    if a == 0 || b == 0 then 0 else 2 * And(a / 2, b / 2) + (if a % 2 == 1 && b % 2 == 1 then 1 else 0)
  }

  function Xor(a: nat, b: nat): nat
    decreases a + b
  {
    if a == 0 then b
    else if b == 0 then a
    else 2 * Xor(a / 2, b / 2) + (if a % 2 != b % 2 then 1 else 0)
  }

  lemma WordShift(i: int, k: int)
    ensures Word(i + k * U32) == Word(i)
  {
    DivUnique(i + k * U32, U32, i / U32 + k);
  }

  lemma WordIs(i: int) returns (k: int)
    ensures Word(i) == i + k * U32
  {
    k := -(i / U32);
  }

  lemma WordAdd(a: int, b: int)
    ensures Word(Word(a) + Word(b)) == Word(a + b) && Word(Word(a) + b) == Word(a + b)
  {
    var j := WordIs(a);
    var k := WordIs(b);
    WordShift(a + b, j + k);
    WordShift(a + b, j);
  }

  lemma WordSub(a: int, b: int)
    ensures Word(Word(a) - Word(b)) == Word(a - b) && Word(Word(a) - b) == Word(a - b)
    ensures Word(0 - Word(b)) == Word(-b)
  {
    var j := WordIs(a);
    var k := WordIs(b);
    WordShift(a - b, j - k);
    WordShift(a - b, j);
    WordShift(-b, -k);
  }

  /** Addition and subtraction of words. */
  function Plus(a: int, b: int): (w: nat)
    ensures w < U32
  {
    Word(a + b)
  }

  function Minus(a: int, b: int): (w: nat)
    ensures w < U32
  {
    Word(a - b)
  }

  /** The two halves of a product. */
  function MulLow(a: int, b: int): (w: nat) {
    Word(a * b)
  }

  function MulHigh(a: int, b: int): int {
    a * b / U32
  }

  lemma MulHighFits(a: nat, b: nat)
    requires a < U32 && b < U32
    ensures 0 <= MulHigh(a, b) < U32
  {
    assert a * b >= 0;
    DivBelow(a * b, U32, U32);
    MulStep(a, U32, U32);
    if a > 0 { MulStep(b, U32, a); }
  }

  /** Arithmetic shift right. */
  function Sar(i: int, k: nat): int {
    i / Pow2(k)
  }

  // ---------------------------------------------------------------- execution

  /** Shifts take the count modulo 32. The carry is that of additions, subtractions, comparisons
      and rotations; the sequences use no other. */
  function Step(i: Instr, m: Machine): Machine {
    match i
    case MOVL(src, dst) => m.Set(dst, m.Value(src))
    case MULL(src) => m.(ax := MulLow(m.ax, m.Value(src)), dx := Word(MulHigh(m.ax, m.Value(src))))
    case IMULL(src) =>
      var x, y := Signed(m.ax), Signed(m.Value(src));
      m.(ax := MulLow(x, y), dx := Word(MulHigh(x, y)))
    case ADDL(src, dst) => m.Set(dst, Plus(m.Get(dst), m.Value(src))).(carry := m.Get(dst) + m.Value(src) >= U32)
    case SUBL(src, dst) => m.Set(dst, Minus(m.Get(dst), m.Value(src))).(carry := m.Get(dst) < m.Value(src))
    case ANDL(src, dst) => m.Set(dst, And(m.Get(dst), m.Value(src)))
    case XORL(src, dst) => m.Set(dst, Xor(m.Get(dst), m.Value(src)))
    case SHRL(count, dst) => m.Set(dst, Shr(m.Get(dst), count % 32))
    case SARL(count, dst) => m.Set(dst, Word(Sar(Signed(m.Get(dst)), count % 32)))
    case RCRL(dst) =>
      m.Set(dst, m.Get(dst) / 2 + (if m.carry then 0x8000_0000 else 0)).(carry := m.Get(dst) % 2 == 1)
    case NEGL(dst) => m.Set(dst, Minus(0, m.Get(dst))).(carry := m.Get(dst) != 0)
    case CMPL(a, b) => m.(carry := m.Value(a) < m.Value(b))
    case SBBL(src, dst) =>
      var x := m.Get(dst) - m.Value(src) - (if m.carry then 1 else 0);
      m.Set(dst, Word(x)).(carry := x < 0)
    case CDQ => m.(dx := if m.ax >= 0x8000_0000 then U32 - 1 else 0)
  }

  function Run(code: seq<Instr>, m: Machine): Machine {
    if code == [] then m else Run(code[1..], Step(code[0], m))
  }

  lemma {:induction false} RunBoth(a: seq<Instr>, b: seq<Instr>, m: Machine)
    ensures Run(a + b, m) == Run(b, Run(a, m))
  {
    if a == [] {
      assert a + b == b;
    } else {
      assert (a + b)[1..] == a[1..] + b;
      RunBoth(a[1..], b, Step(a[0], m));
    }
  }

  lemma RunOne(i: Instr, m: Machine)
    ensures Run([i], m) == Step(i, m)
  {
    assert [i][1..] == [];
  }

  lemma RunTwo(i: Instr, j: Instr, m: Machine)
    ensures Run([i, j], m) == Step(j, Step(i, m))
  {
    assert [i, j][1..] == [j];
    RunOne(j, Step(i, m));
  }

  lemma RunThree(i: Instr, j: Instr, k: Instr, m: Machine)
    ensures Run([i, j, k], m) == Step(k, Step(j, Step(i, m)))
  {
    assert [i, j, k][1..] == [j, k];
    RunTwo(j, k, Step(i, m));
  }

  // ---------------------------------------------------------------- masks

  /** AND with 2^v - 1 keeps the low v bits. */
  lemma {:induction false} AndMask(a: nat, v: nat)
    ensures And(a, Pow2(v) - 1) == Low(a, v)
  {
    if v > 0 && a > 0 {
      assert (Pow2(v) - 1) / 2 == Pow2(v - 1) - 1;
      AndMask(a / 2, v - 1);
    } else {
      LowOfZero(v);
    }
  }

  lemma {:induction false} LowOfZero(v: nat)
    ensures Low(0, v) == 0
  {
    if v > 0 { LowOfZero(v - 1); }
  }

  /** XOR with a word of ones complements. */
  lemma {:induction false} XorOnes(a: nat, v: nat)
    requires a < Pow2(v)
    ensures Xor(a, Pow2(v) - 1) == Pow2(v) - 1 - a
  {
    if v > 0 && a > 0 {
      var ones := Pow2(v) - 1;
      assert ones / 2 == Pow2(v - 1) - 1 && ones % 2 == 1;
      XorOnes(a / 2, v - 1);
      XorStep(a, ones);
    }
  }

  lemma XorStep(a: nat, b: nat)
    requires a > 0 && b > 0
    ensures Xor(a, b) == 2 * Xor(a / 2, b / 2) + (if a % 2 != b % 2 then 1 else 0)
  {
  }

  // ---------------------------------------------------------------- C's division

  /** Truncates towards zero. */
  function TruncDiv(a: int, b: int): int
    requires b != 0
  {
    if b > 0 then (if a >= 0 then a / b else -((-a) / b))
    else (if a >= 0 then -(a / (-b)) else (-a) / (-b))
  }

  /** Has the sign of the dividend. */
  function TruncMod(a: int, b: int): int
    requires b != 0
  {
    var k := if b > 0 then b else -b;
    if a >= 0 then a % k else -((-a) % k)
  }

  /** C's law: the quotient times the divisor, plus the remainder, is the dividend. */
  lemma TruncDivMod(a: int, b: int)
    requires b != 0
    ensures a == b * TruncDiv(a, b) + TruncMod(a, b)
  {
    var k, x := if b > 0 then b else -b, if a >= 0 then a else -a;
    var q := x / k;
    assert x == k * q + x % k;
    assert b * q == if b > 0 then k * q else -(k * q);
    assert b * -q == -(b * q);
  }
}
