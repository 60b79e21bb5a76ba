/** Peg solitaire: an exhaustive search that moves and unmoves pegs on one shared board. */
module Solitaire {

  datatype Field = Illegal | Peg | Hole

  /** The length of a row, with its end. */
  const N := 12

  datatype Jump = Jump(pos: int, dir: int)

  // ---------------------------------------------------------------- the game

  function Pegs(b: seq<Field>): nat {
    if b == [] then 0 else Pegs(b[..|b| - 1]) + (if b[|b| - 1] == Peg then 1 else 0)
  }

  /** Two illegal fields around the board in each direction. */
  predicate Bordered(b: seq<Field>) {
    forall i :: 0 <= i < |b| && b[i] != Illegal ==> 2 * N <= i < |b| - 2 * N
  }

  predicate IsDir(dir: int) {
    dir == -1 || dir == -N || dir == 1 || dir == N
  }

  predicate CanJump(b: seq<Field>, j: Jump) {
    && IsDir(j.dir) && 0 <= j.pos < |b| && 0 <= j.pos + j.dir < |b| && 0 <= j.pos + 2 * j.dir < |b|
    && b[j.pos] == Peg && b[j.pos + j.dir] == Peg && b[j.pos + 2 * j.dir] == Hole
  }

  function Jumped(b: seq<Field>, j: Jump): seq<Field>
    requires CanJump(b, j)
  {
    b[j.pos := Hole][j.pos + j.dir := Hole][j.pos + 2 * j.dir := Peg]
  }

  /** A sequence of legal jumps. */
  predicate Legal(b: seq<Field>, js: seq<Jump>)
    decreases |js|
  {
    js == [] || (CanJump(b, js[0]) && Legal(Jumped(b, js[0]), js[1..]))
  }

  function After(b: seq<Field>, js: seq<Jump>): seq<Field>
    requires Legal(b, js)
    decreases |js|
  {
    if js == [] then b else After(Jumped(b, js[0]), js[1..])
  }

  /** One peg left, in the center if there is one. */
  predicate Solved(b: seq<Field>, center: int) {
    Pegs(b) == 1 && (center < 0 || (center < |b| && b[center] == Peg))
  }

  ghost predicate Solves(b: seq<Field>, js: seq<Jump>, center: int) {
    Legal(b, js) && Solved(After(b, js), center)
  }

  ghost predicate Solvable(b: seq<Field>, center: int) {
    exists js: seq<Jump> :: Solves(b, js, center)
  }

  /** Boards printed backwards: the last one first, each made from the next by a jump, down to b. */
  ghost predicate Backward(ps: seq<seq<Field>>, b: seq<Field>, center: int)
    decreases |ps|
  {
    && ps != [] && ps[|ps| - 1] == b
    && (if |ps| == 1 then Solved(b, center)
        else exists j: Jump :: CanJump(b, j) && Backward(ps[..|ps| - 1], Jumped(b, j), center))
  }

  lemma BackwardOne(b: seq<Field>, center: int)
    requires Solved(b, center)
    ensures Backward([b], b, center)
  {
  }

  lemma BackwardMore(ps: seq<seq<Field>>, b: seq<Field>, j: Jump, center: int)
    requires CanJump(b, j) && Backward(ps, Jumped(b, j), center)
    ensures Backward(ps + [b], b, center)
  {
    assert (ps + [b])[..|ps + [b]| - 1] == ps;
  }

  // ---------------------------------------------------------------- facts about jumps

  lemma {:induction false} PegsSet(b: seq<Field>, i: int, f: Field)
    requires 0 <= i < |b|
    ensures Pegs(b[i := f]) == Pegs(b) - (if b[i] == Peg then 1 else 0) + (if f == Peg then 1 else 0)
    decreases |b|
  {
    var c := b[i := f];
    if i == |b| - 1 {
      assert c[..|b| - 1] == b[..|b| - 1];
    } else {
      assert c[..|b| - 1] == b[..|b| - 1][i := f];
      PegsSet(b[..|b| - 1], i, f);
    }
  }

  /** A jump removes one peg, and leaves the border alone. */
  lemma JumpRemoves(b: seq<Field>, j: Jump)
    requires CanJump(b, j)
    ensures Pegs(Jumped(b, j)) == Pegs(b) - 1
    ensures Bordered(b) ==> Bordered(Jumped(b, j))
  {
    var c := b[j.pos := Hole];
    var d := c[j.pos + j.dir := Hole];
    PegsSet(b, j.pos, Hole);
    PegsSet(c, j.pos + j.dir, Hole);
    PegsSet(d, j.pos + 2 * j.dir, Peg);
  }

  lemma {:induction false} OnePeg(b: seq<Field>, i: int, k: int)
    requires 0 <= i < k < |b| && b[i] == Peg && b[k] == Peg
    ensures Pegs(b) >= 2
    decreases |b|
  {
    if k == |b| - 1 {
      SomePeg(b[..k], i);
    } else {
      OnePeg(b[..|b| - 1], i, k);
    }
  }

  lemma {:induction false} SomePeg(b: seq<Field>, i: int)
    requires 0 <= i < |b| && b[i] == Peg
    ensures Pegs(b) >= 1
    decreases |b|
  {
    if i < |b| - 1 { SomePeg(b[..|b| - 1], i); }
  }

  /** A board can be solved by doing nothing, or by a jump to a board that can be solved. */
  lemma SolvableStep(b: seq<Field>, center: int)
    ensures Solvable(b, center)
       <==> Solved(b, center) || exists j: Jump :: CanJump(b, j) && Solvable(Jumped(b, j), center)
  {
    if Solved(b, center) {
      assert Solves(b, [], center);
    }
    if exists j: Jump :: CanJump(b, j) && Solvable(Jumped(b, j), center) {
      var j: Jump :| CanJump(b, j) && Solvable(Jumped(b, j), center);
      var js: seq<Jump> :| Solves(Jumped(b, j), js, center);
      FirstJump(b, j, js, center);
    }
    if Solvable(b, center) {
      var js: seq<Jump> :| Solves(b, js, center);
      if js != [] {
        assert Solves(Jumped(b, js[0]), js[1..], center);
      }
    }
  }

  lemma FirstJump(b: seq<Field>, j: Jump, js: seq<Jump>, center: int)
    requires CanJump(b, j) && Solves(Jumped(b, j), js, center)
    ensures Solvable(b, center)
  {
    assert ([j] + js)[1..] == js;
    assert Solves(b, [j] + js, center);
  }

  /** No jump of a peg before pos leads to a solution. */
  ghost predicate Tried(b: seq<Field>, pos: int, center: int) {
    forall j: Jump :: 0 <= j.pos < pos && CanJump(b, j) ==> !Solvable(Jumped(b, j), center)
  }

  lemma SolvableBy(b: seq<Field>, pos: int, center: int)
    requires exists dir :: CanJump(b, Jump(pos, dir)) && Solvable(Jumped(b, Jump(pos, dir)), center)
    ensures Solvable(b, center)
  {
    SolvableStep(b, center);
  }

  lemma LastIsCenter(b: seq<Field>, last: int, center: int)
    requires Pegs(b) > 0 ==> 0 <= last < |b| && b[last] == Peg
    ensures Pegs(b) == 1 && 0 <= center < |b| && b[center] == Peg ==> last == center
  {
    if Pegs(b) == 1 && 0 <= center < |b| && b[center] == Peg {
      if last < center { OnePeg(b, last, center); }
      if center < last { OnePeg(b, center, last); }
    }
  }

  // ---------------------------------------------------------------- diagonals

  /** The fields on every third diagonal. */
  function Diagonal(i: nat): nat {
    (i / N + i % N) % 3
  }

  function On(b: seq<Field>, k: nat): nat {
    if b == [] then 0
    else On(b[..|b| - 1], k) + (if b[|b| - 1] == Peg && Diagonal(|b| - 1) == k then 1 else 0)
  }

  /** The last field of each row is the end of the line. */
  predicate RowsEnd(b: seq<Field>) {
    forall i: nat :: i < |b| && i % N == N - 1 ==> b[i] == Illegal
  }

  lemma {:induction false} OnSet(b: seq<Field>, i: int, f: Field, k: nat)
    requires 0 <= i < |b|
    ensures On(b[i := f], k) == On(b, k) + (if Diagonal(i) != k then 0 else
                                            (if f == Peg then 1 else 0) - (if b[i] == Peg then 1 else 0))
    decreases |b|
  {
    var c := b[i := f];
    if i == |b| - 1 {
      assert c[..|b| - 1] == b[..|b| - 1];
    } else {
      assert c[..|b| - 1] == b[..|b| - 1][i := f];
      OnSet(b[..|b| - 1], i, f, k);
    }
  }

  /** Two fields apart in a row, or in a column. */
  predicate TwoApart(x: nat, y: nat) {
    || (x / N == y / N && (x % N == y % N + 2 || y % N == x % N + 2))
    || (x % N == y % N && (x / N == y / N + 2 || y / N == x / N + 2))
  }

  /** A peg can jump to a hole two fields away in its row or column if there is a peg between. */
  lemma JumpsAre(b: seq<Field>, x: nat, y: nat)
    requires RowsEnd(b) && x < |b| && y < |b|
    ensures (exists dir :: CanJump(b, Jump(x, dir)) && x + 2 * dir == y)
       <==> TwoApart(x, y) && b[x] == Peg && b[(x + y) / 2] == Peg && b[y] == Hole
  {
    if dir :| CanJump(b, Jump(x, dir)) && x + 2 * dir == y {
      TwoSteps(x, dir);
      assert (x + y) / 2 == x + dir;
    }
    if TwoApart(x, y) && b[x] == Peg && b[(x + y) / 2] == Peg && b[y] == Hole {
      var dir := (y - x) / 2;
      Halfway(x, y);
      assert CanJump(b, Jump(x, dir));
    }
  }

  lemma TwoSteps(x: nat, dir: int)
    requires IsDir(dir) && x + 2 * dir >= 0 && x % N != N - 1 && (x + dir) % N != N - 1 && (x + 2 * dir) % N != N - 1
    ensures TwoApart(x, x + 2 * dir)
  {
    if dir == 1 || dir == -1 {
      var y := x + dir;
      assert y / N == x / N && y % N == x % N + dir;
      assert (y + dir) / N == y / N && (y + dir) % N == y % N + dir;
    } else {
      assert (x + 2 * dir) % N == x % N;
    }
  }

  lemma Halfway(x: nat, y: nat)
    requires TwoApart(x, y)
    ensures var dir := (y - x) / 2; IsDir(dir) && x + 2 * dir == y && (x + y) / 2 == x + dir
  {
    assert x == N * (x / N) + x % N && y == N * (y / N) + y % N;
  }

  function Turned(dir: int): nat {
    if dir == 1 || dir == N then 1 else 2
  }

  lemma RowStep(i: int, dir: int)
    requires (dir == N || dir == -N) && 0 <= i && 0 <= i + dir
    ensures Diagonal(i + dir) == (Diagonal(i) + Turned(dir)) % 3
  {
    assert (i + dir) % N == i % N && (i + dir) / N == i / N + (if dir == N then 1 else -1);
  }

  /** A step goes to the next diagonal, or to the one before. */
  lemma StepDiagonal(i: int, dir: int)
    requires IsDir(dir) && 0 <= i && 0 <= i + dir && i % N != N - 1 && (i + dir) % N != N - 1
    ensures Diagonal(i + dir) == (Diagonal(i) + Turned(dir)) % 3
  {
    if dir == 1 || dir == -1 {
      assert (i + dir) / N == i / N && (i + dir) % N == i % N + dir;
    } else {
      RowStep(i, dir);
    }
  }

  lemma ThreeDiagonals(b: seq<Field>, j: Jump)
    requires CanJump(b, j) && RowsEnd(b)
    ensures var x, y, z := Diagonal(j.pos), Diagonal(j.pos + j.dir), Diagonal(j.pos + 2 * j.dir);
      x < 3 && y == (x + Turned(j.dir)) % 3 && z == (y + Turned(j.dir)) % 3
  {
    StepDiagonal(j.pos, j.dir);
    StepDiagonal(j.pos + j.dir, j.dir);
    assert j.pos + j.dir + j.dir == j.pos + 2 * j.dir;
  }

  /** The peg that jumps comes down two fields further, and the one it jumps over goes: each diagonal
      class loses or gains one peg. */
  lemma JumpDiagonals(b: seq<Field>, j: Jump, k: nat)
    requires CanJump(b, j) && RowsEnd(b) && k < 3
    ensures RowsEnd(Jumped(b, j))
    ensures On(Jumped(b, j), k) == On(b, k) + if k == Diagonal(j.pos + 2 * j.dir) then 1 else -1
  {
    var x, y, z := j.pos, j.pos + j.dir, j.pos + 2 * j.dir;
    ThreeDiagonals(b, j);
    JumpCounts(b, x, y, z, k);
    OneOfThree(Diagonal(x), Diagonal(y), Diagonal(z), Turned(j.dir), k);
  }

  lemma OneOfThree(x: nat, y: nat, z: nat, t: nat, k: nat)
    requires x < 3 && k < 3 && 1 <= t <= 2 && y == (x + t) % 3 && z == (y + t) % 3
    ensures (if x == k then 1 else 0) + (if y == k then 1 else 0) + (if z == k then 1 else 0) == 1
  {
  }

  lemma JumpCounts(b: seq<Field>, x: int, y: int, z: int, k: nat)
    requires 0 <= x < |b| && 0 <= y < |b| && 0 <= z < |b| && x != y && y != z && z != x
    requires b[x] == Peg && b[y] == Peg && b[z] == Hole
    ensures On(b[x := Hole][y := Hole][z := Peg], k)
         == On(b, k) - (if Diagonal(x) == k then 1 else 0) - (if Diagonal(y) == k then 1 else 0)
            + (if Diagonal(z) == k then 1 else 0)
  {
    OnSet(b, x, Hole, k);
    OnSet(b[x := Hole], y, Hole, k);
    OnSet(b[x := Hole][y := Hole], z, Peg, k);
  }

  /** Whether a number is odd. */
  predicate Odd(n: nat) { n % 2 == 1 }

  lemma OddTurns(n: nat, m: nat)
    requires m == n + 1 || m == n - 1
    ensures Odd(m) <==> !Odd(n)
  {
  }

  /** Whatever is played, two classes stay as even or odd against each other as they were. */
  lemma {:induction false} DiagonalsKept(b: seq<Field>, js: seq<Jump>, k: nat, l: nat)
    requires Legal(b, js) && RowsEnd(b) && k < 3 && l < 3
    ensures (Odd(On(After(b, js), k)) <==> Odd(On(After(b, js), l))) <==> (Odd(On(b, k)) <==> Odd(On(b, l)))
    decreases |js|
  {
    if js != [] {
      var c := Jumped(b, js[0]);
      JumpDiagonals(b, js[0], k);
      JumpDiagonals(b, js[0], l);
      OddTurns(On(b, k), On(c, k));
      OddTurns(On(b, l), On(c, l));
      DiagonalsKept(c, js[1..], k, l);
    }
  }

  // ---------------------------------------------------------------- the board of the program

  function Blank(n: nat): (r: seq<Field>)
    ensures |r| == n && forall i :: 0 <= i < n ==> r[i] == Illegal
  {
    seq(n, _ => Illegal)
  }

  /** A row: its fields, centered between illegal ones, and the end of the line. */
  function Row(fields: seq<Field>, margin: nat): (r: seq<Field>)
    requires |fields| + 2 * margin == N - 1
    ensures |r| == N
  {
    Blank(margin) + fields + Blank(margin + 1)
  }

  const THREE := [Peg, Peg, Peg]
  const SEVEN := [Peg, Peg, Peg, Peg, Peg, Peg, Peg]
  const MIDDLE := [Peg, Peg, Peg, Hole, Peg, Peg, Peg]

  function EnglishBoard(): (b: seq<Field>)
    ensures |b| == 11 * N && Bordered(b)
  {
    var inner := Row(THREE, 4) + Row(THREE, 4) + Row(SEVEN, 2) + Row(MIDDLE, 2) + Row(SEVEN, 2)
                 + Row(THREE, 4) + Row(THREE, 4);
    Blank(2 * N) + inner + Blank(2 * N)
  }

  lemma RowsJoin(a: seq<Field>, b: seq<Field>)
    requires RowsEnd(a) && RowsEnd(b) && |a| % N == 0 && |b| % N == 0
    ensures RowsEnd(a + b) && |a + b| % N == 0
  {
    forall i: nat | i < |a + b| && i % N == N - 1 ensures (a + b)[i] == Illegal {
      if i >= |a| { assert (i - |a|) % N == N - 1; }
    }
  }

  lemma OneRow(fields: seq<Field>, margin: nat)
    requires |fields| + 2 * margin == N - 1
    ensures RowsEnd(Row(fields, margin)) && |Row(fields, margin)| % N == 0
  {
  }

  lemma EnglishRowsEnd()
    ensures RowsEnd(EnglishBoard())
  {
    OneRow(THREE, 4);
    OneRow(SEVEN, 2);
    OneRow(MIDDLE, 2);
    var a := Row(THREE, 4) + Row(THREE, 4);
    RowsJoin(Row(THREE, 4), Row(THREE, 4));
    RowsJoin(a, Row(SEVEN, 2));
    RowsJoin(a + Row(SEVEN, 2), Row(MIDDLE, 2));
    RowsJoin(a + Row(SEVEN, 2) + Row(MIDDLE, 2), Row(SEVEN, 2));
    RowsJoin(a + Row(SEVEN, 2) + Row(MIDDLE, 2) + Row(SEVEN, 2), Row(THREE, 4));
    RowsJoin(a + Row(SEVEN, 2) + Row(MIDDLE, 2) + Row(SEVEN, 2) + Row(THREE, 4), Row(THREE, 4));
    var inner := a + Row(SEVEN, 2) + Row(MIDDLE, 2) + Row(SEVEN, 2) + Row(THREE, 4) + Row(THREE, 4);
    RowsJoin(Blank(2 * N), inner);
    RowsJoin(Blank(2 * N) + inner, Blank(2 * N));
  }

  // ---------------------------------------------------------------- the program

  class Game {
    const board: array<Field>
    const center: int
    var moves: nat
    /** The boards printed so far. */
    var printed: seq<seq<Field>>

    ghost predicate Valid()
      reads this, board
    {
      Bordered(board[..])
    }

    /** center is the position of the only hole, or -1. */
    constructor (fields: seq<Field>)
      requires Bordered(fields)
      ensures Valid() && fresh(board) && board[..] == fields && moves == 0 && printed == []
      ensures center >= 0 ==> center < |fields| && forall i :: 0 <= i < |fields| && fields[i] == Hole ==> i == center
      ensures center >= 0 ==> fields[center] == Hole
      ensures center < 0 ==>
        center == -1 && ((exists i, k :: 0 <= i < k < |fields| && fields[i] == Hole && fields[k] == Hole)
                         || Hole !in fields)
    {
      var n, c := 0, -1;
      ghost var first := -1;
      for pos := 0 to |fields|
        invariant 0 <= n
        invariant n == 0 ==> Hole !in fields[..pos]
        invariant n > 0 ==> 0 <= c < pos && fields[c] == Hole && forall i :: c < i < pos ==> fields[i] != Hole
        invariant n == 1 ==> forall i :: 0 <= i < c ==> fields[i] != Hole
        invariant n > 1 ==> 0 <= first < c && fields[first] == Hole
      {
        if fields[pos] == Hole {
          first := c;
          c := pos;
          n := n + 1;
        }
      }
      assert fields[..|fields|] == fields;
      moves, printed := 0, [];
      center := if n != 1 then -1 else c;
      var b := new Field[|fields|](i requires 0 <= i < |fields| => fields[i]);
      board := b;
      new;
      assert board[..] == fields;
    }

    method Move(pos: int, dir: int) returns (ok: bool)
      requires Valid() && 0 <= pos < board.Length && IsDir(dir)
      modifies board, this`moves
      ensures Valid() && moves == old(moves) + 1
      ensures ok == CanJump(old(board[..]), Jump(pos, dir))
      ensures board[..] == if ok then Jumped(old(board[..]), Jump(pos, dir)) else old(board[..])
    {
      moves := moves + 1;
      ghost var b := board[..];
      assert b[pos] == Peg ==> 2 * N <= pos < board.Length - 2 * N;
      if board[pos] == Peg && board[pos + dir] == Peg && board[pos + 2 * dir] == Hole {
        JumpRemoves(b, Jump(pos, dir));
        board[pos] := Hole;
        board[pos + dir] := Hole;
        board[pos + 2 * dir] := Peg;
        assert board[..] == Jumped(b, Jump(pos, dir));
        return true;
      }
      return false;
    }

    /** Takes back a jump that has just been made. */
    method Unmove(pos: int, dir: int, ghost b: seq<Field>)
      requires Bordered(b) && CanJump(b, Jump(pos, dir)) && board[..] == Jumped(b, Jump(pos, dir))
      modifies board
      ensures board[..] == b
    {
      board[pos] := Peg;
      board[pos + dir] := Peg;
      board[pos + 2 * dir] := Hole;
      assert board[..] == b;
    }

    /** Whether the board can be solved. On both ways out it is as it was; a solution is printed
        backwards. */
    method Solve() returns (r: bool, ghost ps: seq<seq<Field>>)
      requires Valid()
      modifies board, this`moves, this`printed
      ensures board[..] == old(board[..]) && printed == old(printed) + ps
      ensures if r then Backward(ps, board[..], center) else ps == []
      ensures r <==> Solvable(board[..], center)
      decreases Pegs(board[..]), 3
    {
      ghost var b := board[..];
      SolvableStep(b, center);
      var last, n;
      r, ps, last, n := Scan();
      if r {
        return;
      }
      if n == 1 && (center < 0 || last == center) {
        printed := printed + [board[..]];
        BackwardOne(b, center);
        return true, [b];
      }
      LastIsCenter(b, last, center);
      return false, [];
    }

    /** The loop of Solve: every jump of every peg; the pegs are counted, and the last one is noted. */
    method Scan() returns (r: bool, ghost ps: seq<seq<Field>>, last: int, n: int)
      requires Valid()
      modifies board, this`moves, this`printed
      ensures board[..] == old(board[..]) && printed == old(printed) + ps
      ensures if r then Backward(ps, board[..], center) && Solvable(board[..], center) else ps == []
      ensures !r ==> n == Pegs(board[..]) && (n > 0 ==> 0 <= last < board.Length && board[last] == Peg)
      ensures !r ==> forall j: Jump :: CanJump(board[..], j) ==> !Solvable(Jumped(board[..], j), center)
      decreases Pegs(board[..]), 2
    {
      ghost var b := board[..];
      r, ps := false, [];
      last, n := 0, 0;
      for pos := 0 to board.Length
        invariant board[..] == b && printed == old(printed) && !r && ps == []
        invariant n == Pegs(b[..pos]) && (n > 0 ==> 0 <= last < pos && b[last] == Peg)
        invariant Tried(b, pos, center)
      {
        assert b[..pos + 1][..pos] == b[..pos];
        if board[pos] == Peg {
          r, ps := TryAll(pos);
          if r {
            SolvableBy(b, pos, center);
            return;
          }
          last := pos;
          n := n + 1;
        }
      }
      assert b[..board.Length] == b;
    }

    /** One direction from one peg. */
    method TryOne(pos: int, dir: int) returns (found: bool, ghost ps: seq<seq<Field>>)
      requires Valid() && 0 <= pos < board.Length && IsDir(dir)
      modifies board, this`moves, this`printed
      ensures board[..] == old(board[..]) && printed == old(printed) + ps
      ensures if found then Backward(ps, board[..], center) else ps == []
      ensures found <==> CanJump(board[..], Jump(pos, dir)) && Solvable(Jumped(board[..], Jump(pos, dir)), center)
      decreases Pegs(board[..]), 0
    {
      ghost var b := board[..];
      var ok := Move(pos, dir);
      if !ok {
        return false, [];
      }
      JumpRemoves(b, Jump(pos, dir));
      found, ps := Solve();
      Unmove(pos, dir, b);
      if found {
        printed := printed + [board[..]];
        BackwardMore(ps, b, Jump(pos, dir), center);
        return true, ps + [b];
      }
    }

    /** The four directions from one peg. */
    method TryAll(pos: int) returns (found: bool, ghost ps: seq<seq<Field>>)
      requires Valid() && 0 <= pos < board.Length && board[pos] == Peg
      modifies board, this`moves, this`printed
      ensures board[..] == old(board[..]) && printed == old(printed) + ps
      ensures if found then Backward(ps, board[..], center) else ps == []
      ensures found
         <==> exists dir :: CanJump(board[..], Jump(pos, dir)) && Solvable(Jumped(board[..], Jump(pos, dir)), center)
      decreases Pegs(board[..]), 1
    {
      ghost var b := board[..];
      var dirs := [-1, -N, 1, N];
      for k := 0 to 4
        invariant board[..] == b && printed == old(printed)
        invariant forall i :: 0 <= i < k ==> CanJump(b, Jump(pos, dirs[i])) ==>
          !Solvable(Jumped(b, Jump(pos, dirs[i])), center)
      {
        found, ps := TryOne(pos, dirs[k]);
        if found {
          return;
        }
      }
      forall dir | CanJump(b, Jump(pos, dir)) ensures !Solvable(Jumped(b, Jump(pos, dir)), center) {
        assert dir == dirs[0] || dir == dirs[1] || dir == dirs[2] || dir == dirs[3];
      }
      return false, [];
    }
  }
}
