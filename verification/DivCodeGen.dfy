/** Division by a constant: the instruction sequences that the compiler emits, and that they divide. */
module DivCodeGen {
  import opened Bits
  import opened DivMagic
  import opened DivMachine

  // ---------------------------------------------------------------- unsigned division: values

  lemma HighThenShift(x: nat, s: nat)
    ensures x / U32 >= 0 && Shr(x / U32, s) == x / Pow2(32 + s)
  {
    ShrIsDiv(x / U32, s);
    DivDiv(x, U32, Pow2(s));
    Pow2Add(32, s);
    Pow2Constants();
  }

  lemma MulHighSwap(a: int, b: int)
    ensures MulHigh(a, b) == MulHigh(b, a)
  {
    assert a * b == b * a;
  }

  lemma ProductShifted(m: nat, a: nat, s: nat)
    requires m < U32 && a < U32
    ensures 0 <= MulHigh(m, a) < U32 && Shr(MulHigh(m, a), s) == m * a / Pow2(32 + s)
  {
    MulHighFits(m, a);
    assert m * a >= 0;
    HighThenShift(m * a, s);
  }

  lemma BothShifted(n: nat, d: nat, p: nat, e: nat)
    requires d == Shl(e, p) && e > 0
    ensures d > 0 && Shr(n, p) / e == n / d
  {
    ShrIsDiv(n, p);
    ShlIsMul(e, p);
    QuotientTwice(n, d, Pow2(p), e);
  }

  lemma QuotientTwice(n: nat, d: nat, k: nat, e: nat)
    requires k > 0 && e > 0 && d == e * k
    ensures d > 0 && n / k / e == n / d
  {
    DivDiv(n, k, e);
  }

  lemma ShiftedFits(n: nat, p: nat)
    requires n < U32 && p < 32
    ensures Shr(n, p) < Pow2(32 - p) && Shr(n, p) < U32
  {
    Pow2Constants();
    ShrFits(n, 32 - p, p);
    Pow2Mono(32 - p, 32);
  }

  /** Without the addition: shift, multiply, shift. */
  lemma ShiftedQuotient(d: nat, m: nat, s: nat, p: nat, n: nat)
    requires UParams(d, false, m, s, p) && n < U32
    ensures 0 <= MulHigh(m, Shr(n, p)) < U32
    ensures d > 0 && Shr(MulHigh(m, Shr(n, p)), s) == n / d
  {
    var e := Shr(d, p);
    ShiftedFits(n, p);
    MagicDivides(Shr(n, p), e, 32 - p, m, s);
    ProductShifted(m, Shr(n, p), s);
    BothShifted(n, d, p, e);
  }

  /** With the addition: the sum has 33 bits, the rotation halves it. */
  lemma AddedQuotient(d: nat, m: nat, s: nat, n: nat)
    requires UParams(d, true, m, s, 0) && n < U32
    ensures 0 <= MulHigh(m, n) < U32
    ensures d > 0 && Shr((MulHigh(m, n) + n) / 2, s) == n / d
  {
    MulHighFits(m, n);
    SumHigh(m, n);
    Pow2Constants();
    MagicDivides(n, d, 32, m + U32, s + 1);
    HighThenShift((m + U32) * n, s + 1);
  }

  lemma SumHigh(m: nat, n: nat)
    ensures MulHigh(m, n) + n == (m + U32) * n / U32 && (m + U32) * n >= 0
  {
    assert m * n >= 0;
    assert (m + U32) * n == m * n + n * U32;
    QuotientPlus(m * n, U32, n);
  }

  // ---------------------------------------------------------------- unsigned division: code

  /** The multiplication, and a shift of the result unless it is zero. */
  function UCode(add: bool, m: nat, s: nat, p: nat, isRegister: bool): seq<Instr> {
    UFront(add, m, p, isRegister) + LastShift(s)
  }

  function UFront(add: bool, m: nat, p: nat, isRegister: bool): seq<Instr> {
    if p != 0 then [MOVL(At(L), AX), SHRL(p, AX)] + [MOVL(Const(m), DX), MULL(At(DX))]
    else if add then AddCode(m, isRegister)
    else [MOVL(Const(m), AX), MULL(At(L))]
  }

  function AddCode(m: nat, isRegister: bool): seq<Instr> {
    if isRegister then [MOVL(Const(m), AX), MULL(At(L))] + [ADDL(At(L), DX), RCRL(DX)]
    else [MOVL(At(L), NOD)] + ([MOVL(Const(m), AX), MULL(At(NOD))] + [ADDL(At(NOD), DX), RCRL(DX)])
  }

  lemma FinalShift(code: seq<Instr>, s: nat, m: Machine)
    requires s < 32
    ensures var st := Run(code + LastShift(s), m);
      st.dx == Shr(Run(code, m).dx, s) && st.l == Run(code, m).l
  {
    if s != 0 {
      RunBoth(code, [SHRL(s, DX)], m);
      OneShift(s, Run(code, m));
    } else {
      assert code + [] == code;
    }
  }

  lemma OneShift(s: nat, m: Machine)
    requires s < 32
    ensures Run([SHRL(s, DX)], m).dx == Shr(m.dx, s) && Run([SHRL(s, DX)], m).l == m.l
  {
    RunOne(SHRL(s, DX), m);
    ShiftCount(s);
  }

  lemma ShiftCount(s: nat)
    requires s < 32
    ensures s % 32 == s
  {
  }

  lemma ShiftCodeRuns(m: nat, p: nat, st: Machine, h: nat)
    requires st.Valid() && p < 32 && h == MulHigh(m, Shr(st.l, p)) && h < U32
    ensures var st' := Run([MOVL(At(L), AX), SHRL(p, AX)] + [MOVL(Const(m), DX), MULL(At(DX))], st);
      st'.dx == h && st'.l == st.l
  {
    var a, b := [MOVL(At(L), AX), SHRL(p, AX)], [MOVL(Const(m), DX), MULL(At(DX))];
    RunBoth(a, b, st);
    RunTwo(a[0], a[1], st);
    MultiplySecond(m, Run(a, st), h);
  }

  lemma MultiplySecond(m: nat, st: Machine, h: nat)
    requires h == MulHigh(m, st.ax) && h < U32
    ensures Run([MOVL(Const(m), DX), MULL(At(DX))], st).dx == h
    ensures Run([MOVL(Const(m), DX), MULL(At(DX))], st).l == st.l
  {
    RunTwo(MOVL(Const(m), DX), MULL(At(DX)), st);
    MulHighSwap(m, st.ax);
  }

  lemma PlainCodeRuns(m: nat, st: Machine, h: nat)
    requires h == MulHigh(m, st.l) && h < U32
    ensures var st' := Run([MOVL(Const(m), AX), MULL(At(L))], st);
      st'.dx == h && st'.l == st.l
  {
    RunTwo(MOVL(Const(m), AX), MULL(At(L)), st);
  }

  lemma AddCodeRuns(m: nat, isRegister: bool, st: Machine)
    requires st.Valid() && 0 <= MulHigh(m, st.l) < U32
    ensures var st' := Run(AddCode(m, isRegister), st);
      st'.dx == (MulHigh(m, st.l) + st.l) / 2 && st'.l == st.l
  {
    if isRegister {
      AddRotate(m, L, st);
    } else {
      RunBoth([MOVL(At(L), NOD)], [MOVL(Const(m), AX), MULL(At(NOD))] + [ADDL(At(NOD), DX), RCRL(DX)], st);
      RunOne(MOVL(At(L), NOD), st);
      AddRotate(m, NOD, st.(nod := st.l));
    }
  }

  lemma AddRotate(m: nat, r: Loc, st: Machine)
    requires st.Valid() && (r == L || r == NOD) && 0 <= MulHigh(m, st.Get(r)) < U32
    ensures var st' := Run([MOVL(Const(m), AX), MULL(At(r))] + [ADDL(At(r), DX), RCRL(DX)], st);
      st'.dx == (MulHigh(m, st.Get(r)) + st.Get(r)) / 2 && st'.l == st.l
  {
    var a, b := [MOVL(Const(m), AX), MULL(At(r))], [ADDL(At(r), DX), RCRL(DX)];
    RunBoth(a, b, st);
    MultiplyFirst(m, r, st);
    SumHalved(r, Run(a, st), MulHigh(m, st.Get(r)));
  }

  lemma MultiplyFirst(m: nat, r: Loc, st: Machine)
    requires st.Valid() && (r == L || r == NOD) && 0 <= MulHigh(m, st.Get(r)) < U32
    ensures var st' := Run([MOVL(Const(m), AX), MULL(At(r))], st);
      st'.dx == MulHigh(m, st.Get(r)) && st'.l == st.l && st'.Get(r) == st.Get(r)
  {
    RunTwo(MOVL(Const(m), AX), MULL(At(r)), st);
  }

  lemma SumHalved(r: Loc, st: Machine, h: nat)
    requires (r == L || r == NOD) && st.dx == h < U32 && st.Get(r) < U32
    ensures var st' := Run([ADDL(At(r), DX), RCRL(DX)], st);
      st'.dx == (h + st.Get(r)) / 2 && st'.l == st.l
  {
    RunTwo(ADDL(At(r), DX), RCRL(DX), st);
    Rotate(h + st.Get(r));
  }

  /** A 33-bit sum, as a word and a carry, halved. */
  lemma Rotate(x: nat)
    requires x < 2 * U32
    ensures Word(x) / 2 + (if x >= U32 then 0x8000_0000 else 0) == x / 2
  {
    assert Word(x) == if x >= U32 then x - U32 else x;
  }

  /** The emitted code divides every 32-bit word, and leaves the operand alone. */
  lemma UCodeDivides(d: nat, add: bool, m: nat, s: nat, p: nat, isRegister: bool, st: Machine)
    requires UParams(d, add, m, s, p) && st.Valid()
    ensures d > 0 && Run(UCode(add, m, s, p, isRegister), st).dx == st.l / d
    ensures Run(UCode(add, m, s, p, isRegister), st).l == st.l
  {
    if p != 0 {
      ShiftCodeDivides(d, m, s, p, st);
    } else if add {
      AddCodeDivides(d, m, s, isRegister, st);
    } else {
      PlainCodeDivides(d, m, s, st);
    }
  }

  function LastShift(s: nat): seq<Instr> {
    if s != 0 then [SHRL(s, DX)] else []
  }

  lemma ShiftCodeDivides(d: nat, m: nat, s: nat, p: nat, st: Machine)
    requires UParams(d, false, m, s, p) && st.Valid()
    ensures var st' := Run([MOVL(At(L), AX), SHRL(p, AX)] + [MOVL(Const(m), DX), MULL(At(DX))] + LastShift(s), st);
      d > 0 && st'.dx == st.l / d && st'.l == st.l
  {
    ShiftedQuotient(d, m, s, p, st.l);
    ShiftCodeRuns(m, p, st, MulHigh(m, Shr(st.l, p)));
    FinalShift([MOVL(At(L), AX), SHRL(p, AX)] + [MOVL(Const(m), DX), MULL(At(DX))], s, st);
  }

  lemma AddCodeDivides(d: nat, m: nat, s: nat, isRegister: bool, st: Machine)
    requires UParams(d, true, m, s, 0) && st.Valid()
    ensures var st' := Run(AddCode(m, isRegister) + LastShift(s), st);
      d > 0 && st'.dx == st.l / d && st'.l == st.l
  {
    AddedQuotient(d, m, s, st.l);
    AddCodeRuns(m, isRegister, st);
    FinalShift(AddCode(m, isRegister), s, st);
  }

  lemma PlainCodeDivides(d: nat, m: nat, s: nat, st: Machine)
    requires UParams(d, false, m, s, 0) && st.Valid()
    ensures var st' := Run([MOVL(Const(m), AX), MULL(At(L))] + LastShift(s), st);
      d > 0 && st'.dx == st.l / d && st'.l == st.l
  {
    ShiftedQuotient(d, m, s, 0, st.l);
    PlainCodeRuns(m, st, MulHigh(m, st.l));
    FinalShift([MOVL(Const(m), AX), MULL(At(L))], s, st);
  }

  // ---------------------------------------------------------------- signed division: values

  /** The high half of a signed product, corrected when m does not fit a signed word. */
  lemma SignedHigh(m: nat, n: int)
    requires m < U32 && -T31 <= n < T31
    ensures -T31 <= m * n / U32 < T31
    ensures m < T31 ==> MulHigh(Signed(m), n) == m * n / U32
    ensures m >= T31 ==> MulHigh(Signed(m), n) + n == m * n / U32
  {
    HighRange(m, n);
    if m >= T31 {
      assert (m - U32) * n == m * n - n * U32;
      var q := (m - U32) * n / U32;
      var r := (m - U32) * n % U32;
      DivUnique(m * n, U32, q + n);
    }
  }

  lemma HighRange(m: nat, n: int)
    requires m < U32 && -T31 <= n < T31
    ensures -T31 <= m * n / U32 < T31
  {
    if n >= 0 {
      MulStep(m, U32, n + 1);
      assert m * (n + 1) == m * n + m && U32 * (n + 1) == U32 * n + U32;
    } else {
      MulStep(m, U32, -n);
      assert m * (-n) == -(m * n) && U32 * (-n) == -(U32 * n);
    }
  }

  lemma ShiftSigned(x: int, s: nat)
    ensures Sar(x / U32, s) == x / Pow2(32 + s)
  {
    Pow2Add(32, s);
    Pow2Constants();
    FloorFloor(x, U32, Pow2(s));
  }

  lemma FloorFloor(x: int, a: nat, b: nat)
    requires a > 0 && b > 0
    ensures a * b > 0 && x / a / b == x / (a * b)
  {
    var q, r := x / a, x % a;
    var q2, r2 := q / b, q % b;
    assert a * b > 0;
    MulStep(r2, b - 1, a);
    assert (q2 * b + r2) * a == q2 * (a * b) + r2 * a by {
      MulAssoc(q2, b, a);
    }
    assert (b - 1) * a == a * b - a;
    DivUnique(x, a * b, q2);
  }

  /** The quotient before the sign of the divisor is applied. */
  lemma SignedQuotient(d: nat, m: nat, s: nat, n: int)
    requires Magic(d, 31, Scale(m, s)) && m < U32 && -T31 <= n < T31
    ensures d > 0 && m * n / Pow2(32 + s) + (if n < 0 then 1 else 0) == TruncDiv(n, d)
  {
    Pow2Constants();
    if n >= 0 {
      MagicDivides(n, d, 31, m, s);
    } else {
      MagicDividesNegative(-n, d, 31, m, s);
      assert -(m * -n) == m * n;
    }
  }

  lemma TruncRange(n: int, d: int)
    requires d >= 2 && -T31 <= n < T31
    ensures -T31 < TruncDiv(n, d) < T31
    ensures TruncDiv(n, -d) == -TruncDiv(n, d)
  {
    var a := if n >= 0 then n else -n;
    DivBelow(a, T31, d);
    MulStep(2, d, T31);
  }

  // ---------------------------------------------------------------- signed division: code

  function SCode(c: int, add: bool, m: nat, s: nat): seq<Instr> {
    ([MOVL(Const(m), AX), IMULL(At(L)), MOVL(At(L), AX)] + (if add then [ADDL(At(AX), DX)] else []))
    + ([SHRL(31, AX), SARL(s, DX), ADDL(At(AX), DX)] + (if c < 0 then [NEGL(DX)] else []))
  }

  lemma SFirstHalf(add: bool, m: nat, st: Machine)
    requires st.Valid() && m < U32 && (add <==> m >= T31)
    ensures var st' := Run([MOVL(Const(m), AX), IMULL(At(L)), MOVL(At(L), AX)]
                           + (if add then [ADDL(At(AX), DX)] else []), st);
      st'.dx == Word(m * Signed(st.l) / U32) && st'.ax == st.l && st'.l == st.l
  {
    var a := [MOVL(Const(m), AX), IMULL(At(L)), MOVL(At(L), AX)];
    var h := MulHigh(Signed(m), Signed(st.l));
    RunThree(a[0], a[1], a[2], st);
    SignedHigh(m, Signed(st.l));
    if add {
      RunBoth(a, [ADDL(At(AX), DX)], st);
      RunOne(ADDL(At(AX), DX), Run(a, st));
      WordSigned(st.l);
      WordAdd(h, Signed(st.l));
    } else {
      assert a + [] == a;
    }
  }

  lemma SSecondHalf(c: int, x: int, s: nat, st: Machine)
    requires st.ax < U32 && -T31 <= x < T31 && st.dx == Word(x) && s < 32
    ensures var st' := Run([SHRL(31, AX), SARL(s, DX), ADDL(At(AX), DX)] + (if c < 0 then [NEGL(DX)] else []), st);
      var q := Sar(x, s) + (if Signed(st.ax) < 0 then 1 else 0);
      st'.dx == Word(if c < 0 then -q else q) && st'.l == st.l
  {
    var a := [SHRL(31, AX), SARL(s, DX), ADDL(At(AX), DX)];
    var q := Sar(x, s) + (if Signed(st.ax) < 0 then 1 else 0);
    ShiftAndAdd(x, s, st);
    if c < 0 {
      RunBoth(a, [NEGL(DX)], st);
      Negated(q, Run(a, st));
    } else {
      assert a + [] == a;
    }
  }

  lemma ShiftAndAdd(x: int, s: nat, st: Machine)
    requires st.ax < U32 && -T31 <= x < T31 && st.dx == Word(x) && s < 32
    ensures var st' := Run([SHRL(31, AX), SARL(s, DX), ADDL(At(AX), DX)], st);
      st'.dx == Word(Sar(x, s) + (if Signed(st.ax) < 0 then 1 else 0)) && st'.l == st.l
  {
    SignedWord(x);
    TopBitOf(st.ax);
    ThreeSteps(31, s, st);
    WordAdd(Sar(x, s), Shr(st.ax, 31));
  }

  lemma ThreeSteps(k: nat, s: nat, st: Machine)
    requires s < 32 && k < 32
    ensures var st' := Run([SHRL(k, AX), SARL(s, DX), ADDL(At(AX), DX)], st);
      st'.dx == Plus(Word(Sar(Signed(st.dx), s)), Shr(st.ax, k)) && st'.l == st.l
  {
    TwoShifts(k, s, st);
    RunBoth([SHRL(k, AX), SARL(s, DX)], [ADDL(At(AX), DX)], st);
    assert [SHRL(k, AX), SARL(s, DX), ADDL(At(AX), DX)] == [SHRL(k, AX), SARL(s, DX)] + [ADDL(At(AX), DX)];
    AddsUp(Run([SHRL(k, AX), SARL(s, DX)], st));
  }

  lemma WordSame(x: int, y: int)
    requires x == y
    ensures Word(x) == Word(y)
  {
  }

  lemma AddsUp(st: Machine)
    ensures Run([ADDL(At(AX), DX)], st).dx == Plus(st.dx, st.ax) && Run([ADDL(At(AX), DX)], st).l == st.l
  {
    RunOne(ADDL(At(AX), DX), st);
  }

  lemma TwoShifts(k: nat, s: nat, st: Machine)
    requires s < 32 && k < 32
    ensures var st' := Run([SHRL(k, AX), SARL(s, DX)], st);
      st'.dx == Word(Sar(Signed(st.dx), s)) && st'.ax == Shr(st.ax, k) && st'.l == st.l
  {
    ShiftCount(s);
    ShiftCount(k);
    RunTwo(SHRL(k, AX), SARL(s, DX), st);
  }

  lemma Negated(q: int, st: Machine)
    requires st.dx == Word(q)
    ensures Run([NEGL(DX)], st).dx == Word(-q) && Run([NEGL(DX)], st).l == st.l
  {
    RunOne(NEGL(DX), st);
    WordSub(0, q);
  }

  lemma TopBitOf(w: nat)
    requires w < U32
    ensures Shr(w, 31) == if Signed(w) < 0 then 1 else 0
  {
    ShrIsDiv(w, 31);
    Pow2Constants();
  }

  /** The emitted code divides every signed word, -2^31 included, truncating towards zero. */
  lemma SCodeDivides(c: int, d: int, add: bool, m: nat, s: nat, st: Machine)
    requires 2 <= d <= T31 && (c == d || c == -d) && st.Valid()
    requires m < U32 && s < 31 && Magic(d, 31, Scale(m, s)) && (add <==> m >= T31)
    ensures Signed(Run(SCode(c, add, m, s), st).dx) == TruncDiv(Signed(st.l), c)
    ensures Run(SCode(c, add, m, s), st).l == st.l
  {
    var a := [MOVL(Const(m), AX), IMULL(At(L)), MOVL(At(L), AX)] + (if add then [ADDL(At(AX), DX)] else []);
    var b := [SHRL(31, AX), SARL(s, DX), ADDL(At(AX), DX)] + (if c < 0 then [NEGL(DX)] else []);
    var n := Signed(st.l);
    var x := m * n / U32;
    WordSigned(st.l);
    RunBoth(a, b, st);
    SFirstHalf(add, m, st);
    HighRange(m, n);
    SSecondHalf(c, x, s, Run(a, st));
    ShiftSigned(m * n, s);
    SignedQuotient(d, m, s, n);
    TruncRange(n, d);
    SignedWord(TruncDiv(n, c));
  }

  // ---------------------------------------------------------------- powers of two: values

  /** The word that a sign extension gives. */
  function SignWord(w: nat): nat {
    if Signed(w) < 0 then U32 - 1 else 0
  }

  /** What is added to a negative dividend, so that shifting rounds towards zero. */
  function Bias(x: int, v: nat): nat {
    if x < 0 then Pow2(v) - 1 else 0
  }

  lemma {:induction false} LowOnes(k: nat, v: nat)
    requires v <= k
    ensures Low(Pow2(k) - 1, v) == Pow2(v) - 1
  {
    if v > 0 {
      assert (Pow2(k) - 1) / 2 == Pow2(k - 1) - 1;
      LowOnes(k - 1, v - 1);
    }
  }

  lemma MaskedSign(w: nat, v: nat)
    requires v <= 32
    ensures And(SignWord(w), Pow2(v) - 1) == Bias(Signed(w), v)
  {
    Pow2Constants();
    AndMask(SignWord(w), v);
    LowOnes(32, v);
    LowOfZero(v);
  }

  /** Division and remainder of a biased dividend. */
  lemma Biased(x: int, k: nat)
    requires k > 0
    ensures x < 0 ==> (x + k - 1) / k == TruncDiv(x, k) && (x + k - 1) % k - (k - 1) == TruncMod(x, k)
    ensures x >= 0 ==> x / k == TruncDiv(x, k) && x % k == TruncMod(x, k)
    ensures -(k as int) < TruncMod(x, k) < k
  {
    if x < 0 {
      var q, r := (-x) / k, (-x) % k;
      assert (-q) * k == -(q * k);
      DivUnique(x + k - 1, k, -q);
    }
  }

  lemma OppositeDivisor(x: int, k: int)
    requires k > 0
    ensures TruncDiv(x, -k) == -TruncDiv(x, k) && TruncMod(x, -k) == TruncMod(x, k)
  {
  }

  lemma BiasFits(x: int, v: nat)
    requires -T31 <= x < T31 && v <= 30
    ensures -T31 <= x + Bias(x, v) < T31
    ensures Sar(x + Bias(x, v), v) == TruncDiv(x, Pow2(v))
  {
    Pow2Mono(v, 30);
    Pow2Constants();
    Biased(x, Pow2(v));
  }

  lemma WordMod(i: int, v: nat)
    requires v <= 32
    ensures Word(i) % Pow2(v) == i % Pow2(v)
  {
    Pow2Constants();
    Pow2Add(32 - v, v);
    var k := WordIs(i);
    MulAssoc(k, Pow2(32 - v), Pow2(v));
    SameRemainder(i, k * Pow2(32 - v), Pow2(v));
  }

  lemma SameRemainder(i: int, q: int, k: nat)
    requires k > 0
    ensures (i + q * k) % k == i % k
  {
    assert (i / k + q) * k == i / k * k + q * k;
    DivUnique(i + q * k, k, i / k + q);
  }

  lemma MaskedSum(x: int, v: nat)
    requires -T31 <= x < T31 && v <= 30
    ensures And(Word(x + Bias(x, v)), Pow2(v) - 1) - Bias(x, v) == TruncMod(x, Pow2(v))
    ensures -T31 <= TruncMod(x, Pow2(v)) < T31
  {
    AndMask(Word(x + Bias(x, v)), v);
    LowIsMod(Word(x + Bias(x, v)), v);
    WordMod(x + Bias(x, v), v);
    Biased(x, Pow2(v));
    RemainderRange(x, v);
  }

  lemma RemainderRange(x: int, v: nat)
    requires v <= 30
    ensures -T31 <= TruncMod(x, Pow2(v)) < T31
  {
    Biased(x, Pow2(v));
    Pow2Mono(v, 30);
    Pow2Constants();
  }

  lemma OddSign(w: nat)
    requires w < U32
    ensures Word(Xor(And(w, 1), SignWord(w)) - SignWord(w)) == Word(TruncMod(Signed(w), 2))
    ensures Xor(0, SignWord(w)) == SignWord(w)
  {
    AndOne(w);
    OddTrunc(w);
    if Signed(w) < 0 {
      Pow2Constants();
      XorOnes(w % 2, 32);
    }
  }

  lemma AndOne(w: nat)
    ensures And(w, 1) == w % 2
  {
    Pow2Constants();
    AndMask(w, 1);
    LowIsMod(w, 1);
  }

  lemma OddTrunc(w: nat)
    requires w < U32
    ensures TruncMod(Signed(w), 2) == if Signed(w) < 0 then -(w % 2) else w % 2
  {
    Biased(Signed(w), 2);
  }

  // ---------------------------------------------------------------- powers of two: code

  /** Where the sign goes: DX by a CDQ when the operand is in AX and DX is free. */
  function SignLoc(n: Loc, dxFree: bool): Loc {
    if n == AX && dxFree then DX else NOD
  }

  function SextCode(n: Loc, dxFree: bool): seq<Instr> {
    if n == AX && dxFree then [CDQ] else [MOVL(At(n), NOD), SARL(31, NOD)]
  }

  function Div2Code(c: int, v: nat, n: Loc, dxFree: bool): seq<Instr> {
    (if v == 0 then []
     else if v == 1 then [CMPL(At(n), Const(0x8000_0000)), SBBL(Const(0xffff_ffff), n)] + [SARL(1, n)]
     else SextCode(n, dxFree)
          + [ANDL(Const(Pow2(v) - 1), SignLoc(n, dxFree)), ADDL(At(SignLoc(n, dxFree)), n), SARL(v, n)])
    + (if c < 0 then [NEGL(n)] else [])
  }

  function Mod2Code(c: int, v: nat, n: Loc, dxFree: bool): seq<Instr> {
    if c == 1 then [MOVL(Const(0), n)] else SextCode(n, dxFree) + Mod2Tail(v, n, SignLoc(n, dxFree))
  }

  function Mod2Tail(v: nat, n: Loc, nod: Loc): seq<Instr> {
    if v == 0 then [MOVL(Const(0), n), XORL(At(nod), n), SUBL(At(nod), n)]
    else if v == 1 then [ANDL(Const(1), n), XORL(At(nod), n), SUBL(At(nod), n)]
    else [ANDL(Const(Pow2(v) - 1), nod), ADDL(At(nod), n)] + [ANDL(Const(Pow2(v) - 1), n), SUBL(At(nod), n)]
  }

  lemma SextRuns(n: Loc, dxFree: bool, st: Machine)
    requires st.Valid() && n != NOD
    ensures var st' := Run(SextCode(n, dxFree), st);
      st'.Get(SignLoc(n, dxFree)) == SignWord(st.Get(n)) && st'.Get(n) == st.Get(n) && st'.Valid()
  {
    if n == AX && dxFree {
      RunOne(CDQ, st);
    } else {
      RunTwo(MOVL(At(n), NOD), SARL(31, NOD), st);
      SignShifted(st.Get(n));
    }
  }

  lemma SignShifted(w: nat)
    requires w < U32
    ensures Word(Sar(Signed(w), 31)) == SignWord(w)
  {
    Pow2Constants();
  }

  lemma BiasAdded(v: nat, n: Loc, nod: Loc, st: Machine)
    requires st.Valid() && n != nod && v <= 32 && st.Get(nod) == SignWord(st.Get(n))
    ensures var x := Signed(st.Get(n));
      var st' := Run([ANDL(Const(Pow2(v) - 1), nod), ADDL(At(nod), n)], st);
      st'.Get(n) == Word(x + Bias(x, v)) && st'.Get(nod) == Bias(x, v)
  {
    var x := Signed(st.Get(n));
    RunTwo(ANDL(Const(Pow2(v) - 1), nod), ADDL(At(nod), n), st);
    MaskedSign(st.Get(n), v);
    WordSigned(st.Get(n));
    WordAdd(x, Bias(x, v));
  }

  lemma ShiftedDown(v: nat, n: Loc, x: int, st: Machine)
    requires -T31 <= x < T31 && v <= 30 && st.Get(n) == Word(x + Bias(x, v))
    ensures Run([SARL(v, n)], st).Get(n) == Word(TruncDiv(x, Pow2(v)))
  {
    RunOne(SARL(v, n), st);
    ShiftCount(v);
    BiasFits(x, v);
    SignedWord(x + Bias(x, v));
  }

  lemma Div2Positive(v: nat, n: Loc, dxFree: bool, st: Machine)
    requires st.Valid() && n != NOD && 1 <= v <= 30
    ensures Run(Div2Code(1, v, n, dxFree), st).Get(n) == Word(TruncDiv(Signed(st.Get(n)), Pow2(v)))
  {
    var nod := SignLoc(n, dxFree);
    if v == 1 {
      Div2ByTwo(n, st);
      assert Div2Code(1, v, n, dxFree) == [CMPL(At(n), Const(0x8000_0000)), SBBL(Const(0xffff_ffff), n)] + [SARL(1, n)];
    } else {
      var rest := [ANDL(Const(Pow2(v) - 1), nod), ADDL(At(nod), n)] + [SARL(v, n)];
      assert Div2Code(1, v, n, dxFree) == SextCode(n, dxFree) + rest;
      RunBoth(SextCode(n, dxFree), rest, st);
      SextRuns(n, dxFree, st);
      Div2Large(v, n, nod, Run(SextCode(n, dxFree), st));
    }
  }

  lemma Div2ByTwo(n: Loc, st: Machine)
    requires st.Valid()
    ensures Run([CMPL(At(n), Const(0x8000_0000)), SBBL(Const(0xffff_ffff), n)] + [SARL(1, n)], st).Get(n)
         == Word(TruncDiv(Signed(st.Get(n)), Pow2(1)))
  {
    var code := [CMPL(At(n), Const(0x8000_0000)), SBBL(Const(0xffff_ffff), n)];
    WordSigned(st.Get(n));
    RunBoth(code, [SARL(1, n)], st);
    BorrowAdds(n, st);
    ShiftedDown(1, n, Signed(st.Get(n)), Run(code, st));
  }

  lemma Div2Large(v: nat, n: Loc, nod: Loc, st: Machine)
    requires st.Valid() && n != nod && 2 <= v <= 30 && st.Get(nod) == SignWord(st.Get(n))
    ensures Run([ANDL(Const(Pow2(v) - 1), nod), ADDL(At(nod), n)] + [SARL(v, n)], st).Get(n)
         == Word(TruncDiv(Signed(st.Get(n)), Pow2(v)))
  {
    var code := [ANDL(Const(Pow2(v) - 1), nod), ADDL(At(nod), n)];
    WordSigned(st.Get(n));
    RunBoth(code, [SARL(v, n)], st);
    BiasAdded(v, n, nod, st);
    ShiftedDown(v, n, Signed(st.Get(n)), Run(code, st));
  }

  /** Comparing with 2^31 borrows exactly for the words that are not negative. */
  lemma BorrowAdds(n: Loc, st: Machine)
    requires st.Valid()
    ensures Run([CMPL(At(n), Const(0x8000_0000)), SBBL(Const(0xffff_ffff), n)], st).Get(n)
         == Word(Signed(st.Get(n)) + Bias(Signed(st.Get(n)), 1))
  {
    RunTwo(CMPL(At(n), Const(0x8000_0000)), SBBL(Const(0xffff_ffff), n), st);
    BorrowWord(st.Get(n), 1);
  }

  lemma BorrowWord(w: nat, one: nat)
    requires w < U32 && one == 1
    ensures Word(w - 0xffff_ffff - (if w < 0x8000_0000 then 1 else 0)) == Word(Signed(w) + Bias(Signed(w), one))
  {
    assert Pow2(one) == 2 * Pow2(one - 1);
    WordShift(w, -1);
    WordShift(w + 1, -1);
    WordSigned(w);
    WordAdd(Signed(w), 1);
  }

  /** Division by a power of two or its negative, 2^0 to 2^30. For -1 the quotient of -2^31 wraps. */
  lemma Div2Divides(c: int, v: nat, n: Loc, dxFree: bool, st: Machine)
    requires st.Valid() && n != NOD && v <= 30 && (c == Pow2(v) || c == 0 - Pow2(v))
    ensures Run(Div2Code(c, v, n, dxFree), st).Get(n) == Word(TruncDiv(Signed(st.Get(n)), c))
  {
    var x, front := Signed(st.Get(n)), Div2Code(1, v, n, dxFree);
    Div2Front(v, n, dxFree, st);
    OppositeDivisor(x, Pow2(v));
    Div2Parts(c, v, n, dxFree);
    if c < 0 {
      RunBoth(front, [NEGL(n)], st);
      NegatedAt(n, TruncDiv(x, Pow2(v)), Run(front, st));
    }
  }

  /** The code without the last negation. */
  lemma Div2Front(v: nat, n: Loc, dxFree: bool, st: Machine)
    requires st.Valid() && n != NOD && v <= 30
    ensures Run(Div2Code(1, v, n, dxFree), st).Get(n) == Word(TruncDiv(Signed(st.Get(n)), Pow2(v)))
  {
    if v > 0 {
      Div2Positive(v, n, dxFree, st);
    } else {
      WordSigned(st.Get(n));
      assert Pow2(v) == 1;
    }
  }

  lemma Div2Parts(c: int, v: nat, n: Loc, dxFree: bool)
    ensures Div2Code(c, v, n, dxFree)
         == if c < 0 then Div2Code(1, v, n, dxFree) + [NEGL(n)] else Div2Code(1, v, n, dxFree)
  {
  }

  lemma NegatedAt(n: Loc, q: int, st: Machine)
    requires st.Get(n) == Word(q)
    ensures Run([NEGL(n)], st).Get(n) == Word(-q)
  {
    RunOne(NEGL(n), st);
    WordSub(0, q);
  }

  lemma Mod2Large(v: nat, n: Loc, nod: Loc, st: Machine)
    requires st.Valid() && n != nod && 2 <= v <= 30 && st.Get(nod) == SignWord(st.Get(n))
    ensures Run([ANDL(Const(Pow2(v) - 1), nod), ADDL(At(nod), n)]
                + [ANDL(Const(Pow2(v) - 1), n), SUBL(At(nod), n)], st).Get(n)
         == Word(TruncMod(Signed(st.Get(n)), Pow2(v)))
  {
    var a, b := [ANDL(Const(Pow2(v) - 1), nod), ADDL(At(nod), n)], [ANDL(Const(Pow2(v) - 1), n), SUBL(At(nod), n)];
    RunBoth(a, b, st);
    BiasAdded(v, n, nod, st);
    WordSigned(st.Get(n));
    MaskOff(v, n, nod, Signed(st.Get(n)), Run(a, st));
  }

  lemma MaskOff(v: nat, n: Loc, nod: Loc, x: int, st: Machine)
    requires n != nod && -T31 <= x < T31 && v <= 30
    requires st.Get(n) == Word(x + Bias(x, v)) && st.Get(nod) == Bias(x, v)
    ensures Run([ANDL(Const(Pow2(v) - 1), n), SUBL(At(nod), n)], st).Get(n) == Word(TruncMod(x, Pow2(v)))
  {
    MaskedSum(x, v);
    MaskAndSubtract(Pow2(v) - 1, n, nod, st);
    WordSame(And(st.Get(n), Pow2(v) - 1) - st.Get(nod), TruncMod(x, Pow2(v)));
  }

  lemma MaskAndSubtract(mask: nat, n: Loc, nod: Loc, st: Machine)
    requires n != nod
    ensures Run([ANDL(Const(mask), n), SUBL(At(nod), n)], st).Get(n) == Minus(And(st.Get(n), mask), st.Get(nod))
  {
    RunTwo(ANDL(Const(mask), n), SUBL(At(nod), n), st);
  }

  lemma Mod2Small(i: Instr, t: nat, n: Loc, nod: Loc, st: Machine)
    requires st.Valid() && n != nod && st.Get(nod) == SignWord(st.Get(n))
    requires (i == ANDL(Const(1), n) && t == And(st.Get(n), 1)) || (i == MOVL(Const(0), n) && t == 0)
    ensures Run([i, XORL(At(nod), n), SUBL(At(nod), n)], st).Get(n)
         == Word(Xor(t, SignWord(st.Get(n))) - SignWord(st.Get(n)))
  {
    RunThree(i, XORL(At(nod), n), SUBL(At(nod), n), st);
  }

  /** The remainder by a power of two or its negative. */
  lemma Mod2Remains(c: int, v: nat, n: Loc, dxFree: bool, st: Machine)
    requires st.Valid() && n != NOD && v <= 30 && (c == Pow2(v) || c == 0 - Pow2(v))
    ensures Run(Mod2Code(c, v, n, dxFree), st).Get(n) == Word(TruncMod(Signed(st.Get(n)), c))
    ensures Signed(Run(Mod2Code(c, v, n, dxFree), st).Get(n)) == TruncMod(Signed(st.Get(n)), c)
  {
    var x := Signed(st.Get(n));
    Biased(x, Pow2(v));
    OppositeDivisor(x, Pow2(v));
    RemainderRange(x, v);
    SignedWord(TruncMod(x, c));
    if c == 1 {
      UnitDivisor(v);
      RunOne(MOVL(Const(0), n), st);
    } else {
      var tail := Mod2Tail(v, n, SignLoc(n, dxFree));
      assert Mod2Code(c, v, n, dxFree) == SextCode(n, dxFree) + tail;
      RunBoth(SextCode(n, dxFree), tail, st);
      SextRuns(n, dxFree, st);
      Mod2TailRuns(v, n, SignLoc(n, dxFree), Run(SextCode(n, dxFree), st));
    }
  }

  lemma Mod2TailRuns(v: nat, n: Loc, nod: Loc, st: Machine)
    requires st.Valid() && n != nod && v <= 30 && st.Get(nod) == SignWord(st.Get(n))
    ensures Run(Mod2Tail(v, n, nod), st).Get(n) == Word(TruncMod(Signed(st.Get(n)), Pow2(v)))
  {
    if v == 0 {
      Mod2TailZero(n, nod, st, Pow2(v));
    } else if v == 1 {
      Mod2TailOne(n, nod, st, Pow2(v));
    } else {
      Mod2Large(v, n, nod, st);
    }
  }

  lemma Mod2TailZero(n: Loc, nod: Loc, st: Machine, d: nat)
    requires st.Valid() && n != nod && st.Get(nod) == SignWord(st.Get(n)) && d == 1
    ensures Run([MOVL(Const(0), n), XORL(At(nod), n), SUBL(At(nod), n)], st).Get(n)
         == Word(TruncMod(Signed(st.Get(n)), d))
  {
    OddSign(st.Get(n));
    Mod2Small(MOVL(Const(0), n), 0, n, nod, st);
  }

  lemma Mod2TailOne(n: Loc, nod: Loc, st: Machine, d: nat)
    requires st.Valid() && n != nod && st.Get(nod) == SignWord(st.Get(n)) && d == 2
    ensures Run([ANDL(Const(1), n), XORL(At(nod), n), SUBL(At(nod), n)], st).Get(n)
         == Word(TruncMod(Signed(st.Get(n)), d))
  {
    OddSign(st.Get(n));
    Mod2Small(ANDL(Const(1), n), And(st.Get(n), 1), n, nod, st);
  }

  lemma UnitDivisor(v: nat)
    ensures Pow2(v) == 1 <==> v == 0
  {
    if v > 0 { Pow2Mono(1, v); }
  }

  // ---------------------------------------------------------------- the generator

  /** The instructions emitted so far. */
  class Generator {
    var prog: seq<Instr>

    constructor ()
      ensures prog == []
    {
      prog := [];
    }

    method Gins(i: Instr)
      modifies this
      ensures prog == old(prog) + [i]
    {
      prog := prog + [i];
    }

    method UDivGen(d: nat, isRegister: bool) returns (ghost code: seq<Instr>)
      requires 1 < d < U32 && OddPart(d) > 1
      modifies this
      ensures prog == old(prog) + code
      ensures forall st: Machine :: st.Valid() ==> Run(code, st).dx == st.l / d && Run(code, st).l == st.l
    {
      var a, m, s, t := UDiv(d);
      var l := L;
      if t != 0 {
        Gins(MOVL(At(l), AX));
        Gins(SHRL(t, AX));
        Gins(MOVL(Const(m), DX));
        Gins(MULL(At(DX)));
      } else if a {
        if !isRegister {
          l := NOD;
          Gins(MOVL(At(L), l));
        }
        Gins(MOVL(Const(m), AX));
        Gins(MULL(At(l)));
        Gins(ADDL(At(l), DX));
        Gins(RCRL(DX));
      } else {
        Gins(MOVL(Const(m), AX));
        Gins(MULL(At(l)));
      }
      assert prog == old(prog) + UFront(a, m, t, isRegister);
      if s != 0 {
        Gins(SHRL(s, DX));
      }
      code := UCode(a, m, s, t, isRegister);
      forall st: Machine | st.Valid() ensures Run(code, st).dx == st.l / d && Run(code, st).l == st.l {
        UCodeDivides(d, a, m, s, t, isRegister, st);
      }
    }

    method SDivGen(c: int) returns (ghost code: seq<Instr>)
      requires -T31 <= c <= T31 && !(-2 < c < 2)
      modifies this
      ensures prog == old(prog) + code
      ensures forall st: Machine :: st.Valid() ==> Signed(Run(code, st).dx) == TruncDiv(Signed(st.l), c)
    {
      var d := if c < 0 then -c else c;
      var a, m, s := SDiv(d);
      Gins(MOVL(Const(m), AX));
      Gins(IMULL(At(L)));
      Gins(MOVL(At(L), AX));
      if a {
        Gins(ADDL(At(AX), DX));
      }
      Gins(SHRL(31, AX));
      Gins(SARL(s, DX));
      Gins(ADDL(At(AX), DX));
      if c < 0 {
        Gins(NEGL(DX));
      }
      code := SCode(c, a, m, s);
      forall st: Machine | st.Valid() ensures Signed(Run(code, st).dx) == TruncDiv(Signed(st.l), c) {
        SCodeDivides(c, d, a, m, s, st);
      }
    }

    /** Sign extension of n into DX or a scratch register. */
    method Sext(n: Loc, dxFree: bool) returns (d: Loc)
      requires n != NOD
      modifies this
      ensures d == SignLoc(n, dxFree) && prog == old(prog) + SextCode(n, dxFree)
      ensures forall st: Machine :: st.Valid() ==>
        var st' := Run(SextCode(n, dxFree), st);
        st'.Get(d) == SignWord(st.Get(n)) && st'.Get(n) == st.Get(n)
    {
      forall st: Machine | st.Valid()
        ensures Run(SextCode(n, dxFree), st).Get(SignLoc(n, dxFree)) == SignWord(st.Get(n))
        ensures Run(SextCode(n, dxFree), st).Get(n) == st.Get(n)
      {
        SextRuns(n, dxFree, st);
      }
      if n == AX && dxFree {
        Gins(CDQ);
        d := DX;
      } else {
        d := NOD;
        Gins(MOVL(At(n), d));
        Gins(SARL(31, d));
      }
    }

    method SDiv2(c: int, v: nat, n: Loc, dxFree: bool) returns (ghost code: seq<Instr>)
      requires n != NOD && v <= 30 && (c == Pow2(v) || c == 0 - Pow2(v))
      modifies this
      ensures prog == old(prog) + code
      ensures forall st: Machine :: st.Valid() ==> Run(code, st).Get(n) == Word(TruncDiv(Signed(st.Get(n)), c))
    {
      if v > 0 {
        if v > 1 {
          var nod := Sext(n, dxFree);
          Gins(ANDL(Const(Pow2(v) - 1), nod));
          Gins(ADDL(At(nod), n));
        } else {
          Gins(CMPL(At(n), Const(0x8000_0000)));
          Gins(SBBL(Const(0xffff_ffff), n));
        }
        Gins(SARL(v, n));
      }
      if c < 0 {
        Gins(NEGL(n));
      }
      code := Div2Code(c, v, n, dxFree);
      forall st: Machine | st.Valid() ensures Run(code, st).Get(n) == Word(TruncDiv(Signed(st.Get(n)), c)) {
        Div2Divides(c, v, n, dxFree, st);
      }
    }

    method SMod2(c: int, v: nat, n: Loc, dxFree: bool) returns (ghost code: seq<Instr>)
      requires n != NOD && v <= 30 && (c == Pow2(v) || c == 0 - Pow2(v))
      modifies this
      ensures prog == old(prog) + code
      ensures forall st: Machine :: st.Valid() ==> Signed(Run(code, st).Get(n)) == TruncMod(Signed(st.Get(n)), c)
    {
      code := Mod2Code(c, v, n, dxFree);
      forall st: Machine | st.Valid() ensures Signed(Run(code, st).Get(n)) == TruncMod(Signed(st.Get(n)), c) {
        Mod2Remains(c, v, n, dxFree, st);
      }
      if c == 1 {
        Gins(MOVL(Const(0), n));
        return;
      }
      var nod := Sext(n, dxFree);
      if v == 0 {
        Gins(MOVL(Const(0), n));
        Gins(XORL(At(nod), n));
        Gins(SUBL(At(nod), n));
      } else if v > 1 {
        Gins(ANDL(Const(Pow2(v) - 1), nod));
        Gins(ADDL(At(nod), n));
        Gins(ANDL(Const(Pow2(v) - 1), n));
        Gins(SUBL(At(nod), n));
      } else {
        Gins(ANDL(Const(1), n));
        Gins(XORL(At(nod), n));
        Gins(SUBL(At(nod), n));
      }
    }
  }
}
