/**
 The 4x4 board of ranks, tile placement, and the geometric transforms.

 Cells are numbered row by row:
    0  1  2  3
    4  5  6  7
    8  9 10 11
   12 13 14 15
 */
module Board {
  import opened Tiles

  datatype Row = Row(c0: nat, c1: nat, c2: nat, c3: nat)
  datatype Board = Board(r0: Row, r1: Row, r2: Row, r3: Row)

  /** A cell index of the flat numbering. */
  type Pos = i: nat | i < 16

  /** Row or column index. */
  type Line = i: nat | i < 4

  /** A board and the reward (or the -1 sentinel) of the action that made it. */
  datatype Transition = Transition(board: Board, reward: int)

  const EmptyRow := Row(0, 0, 0, 0)
  const Empty := Board(EmptyRow, EmptyRow, EmptyRow, EmptyRow)

  function RowAt(b: Board, r: Line): Row
  {
    match r
    case 0 => b.r0
    case 1 => b.r1
    case 2 => b.r2
    case 3 => b.r3
  }

  function Get(row: Row, c: Line): nat
  {
    match c
    case 0 => row.c0
    case 1 => row.c1
    case 2 => row.c2
    case 3 => row.c3
  }

  function SetRow(row: Row, c: Line, v: nat): Row
  {
    match c
    case 0 => row.(c0 := v)
    case 1 => row.(c1 := v)
    case 2 => row.(c2 := v)
    case 3 => row.(c3 := v)
  }

  /** Rank at row `r`, column `c`. */
  function At(b: Board, r: Line, c: Line): nat
  {
    Get(RowAt(b, r), c)
  }

  /** Rank at a flat index. */
  function Cell(b: Board, i: Pos): nat
  {
    At(b, i / 4, i % 4)
  }

  /** The board with cell `i` overwritten; every other cell is kept. */
  function SetCell(b: Board, i: Pos, v: nat): (r: Board)
    ensures Cell(r, i) == v
    ensures forall j: Pos :: j != i ==> Cell(r, j) == Cell(b, j)
  {
    var row := SetRow(RowAt(b, i / 4), i % 4, v);
    match i / 4
    case 0 => b.(r0 := row)
    case 1 => b.(r1 := row)
    case 2 => b.(r2 := row)
    case 3 => b.(r3 := row)
  }

  /** Two boards are equal exactly when all 16 cells are. */
  lemma CellsDetermineBoard(a: Board, b: Board)
    requires forall i: Pos :: Cell(a, i) == Cell(b, i)
    ensures a == b
  {
    assert Cell(a, 0) == Cell(b, 0) && Cell(a, 1) == Cell(b, 1) && Cell(a, 2) == Cell(b, 2) && Cell(a, 3) == Cell(b, 3);
    assert Cell(a, 4) == Cell(b, 4) && Cell(a, 5) == Cell(b, 5) && Cell(a, 6) == Cell(b, 6) && Cell(a, 7) == Cell(b, 7);
    assert Cell(a, 8) == Cell(b, 8) && Cell(a, 9) == Cell(b, 9) && Cell(a, 10) == Cell(b, 10) && Cell(a, 11) == Cell(b, 11);
    assert Cell(a, 12) == Cell(b, 12) && Cell(a, 13) == Cell(b, 13) && Cell(a, 14) == Cell(b, 14) && Cell(a, 15) == Cell(b, 15);
  }

  /** The environment's placement: -1 and an untouched board for a position
      off the board or a tile other than 1 or 2; otherwise exactly cell `pos`
      becomes `tile` and the reward is 0. Occupancy is not checked. */
  function Place(b: Board, pos: nat, tile: nat): (t: Transition)
    ensures pos >= 16 || (tile != 1 && tile != 2) ==> t == Transition(b, -1)
    ensures pos < 16 && (tile == 1 || tile == 2) ==>
              && t.reward == 0
              && Cell(t.board, pos) == tile
              && forall j: Pos :: j != pos ==> Cell(t.board, j) == Cell(b, j)
  {
    if pos >= 16 then Transition(b, -1)
    else if tile != 1 && tile != 2 then Transition(b, -1)
    else Transition(SetCell(b, pos, tile), 0)
  }

  // ---------------------------------------------------------------------
  // Transforms

  /** Swap across the main diagonal. */
  function Transpose(b: Board): Board
  {
    Board(Row(b.r0.c0, b.r1.c0, b.r2.c0, b.r3.c0),
          Row(b.r0.c1, b.r1.c1, b.r2.c1, b.r3.c1),
          Row(b.r0.c2, b.r1.c2, b.r2.c2, b.r3.c2),
          Row(b.r0.c3, b.r1.c3, b.r2.c3, b.r3.c3))
  }

  function MirrorRow(row: Row): Row
  {
    Row(row.c3, row.c2, row.c1, row.c0)
  }

  /** Mirror the columns: 0 with 3, 1 with 2. */
  function ReflectHorizontal(b: Board): Board
  {
    Board(MirrorRow(b.r0), MirrorRow(b.r1), MirrorRow(b.r2), MirrorRow(b.r3))
  }

  /** Mirror the rows: 0 with 3, 1 with 2. */
  function ReflectVertical(b: Board): Board
  {
    Board(b.r3, b.r2, b.r1, b.r0)
  }

  /** Quarter turn clockwise: transpose, then mirror the columns. */
  function RotateRight(b: Board): Board
  {
    ReflectHorizontal(Transpose(b))
  }

  /** Quarter turn counter-clockwise: transpose, then mirror the rows. */
  function RotateLeft(b: Board): Board
  {
    ReflectVertical(Transpose(b))
  }

  /** Half turn: mirror the columns, then the rows. */
  function Reverse(b: Board): Board
  {
    ReflectVertical(ReflectHorizontal(b))
  }

  /** Each transform stated cell by cell. */
  lemma TransposeCells(b: Board)
    ensures forall r: Line, c: Line :: At(Transpose(b), r, c) == At(b, c, r)
  {
  }

  lemma ReflectHorizontalCells(b: Board)
    ensures forall r: Line, c: Line :: At(ReflectHorizontal(b), r, c) == At(b, r, 3 - c)
  {
  }

  lemma ReflectVerticalCells(b: Board)
    ensures forall r: Line, c: Line :: At(ReflectVertical(b), r, c) == At(b, 3 - r, c)
  {
  }

  lemma RotateRightCells(b: Board)
    ensures forall r: Line, c: Line :: At(RotateRight(b), r, c) == At(b, 3 - c, r)
  {
  }

  lemma RotateLeftCells(b: Board)
    ensures forall r: Line, c: Line :: At(RotateLeft(b), r, c) == At(b, c, 3 - r)
  {
  }

  lemma ReverseCells(b: Board)
    ensures forall r: Line, c: Line :: At(Reverse(b), r, c) == At(b, 3 - r, 3 - c)
  {
  }

  /** `r % 4` as C++ computes it: the remainder takes the dividend's sign. */
  function CppRem4(r: int): (q: int)
    ensures -4 < q < 4
    ensures r >= 0 ==> q == r % 4
  {
    if r >= 0 then r % 4 else -((-r) % 4)
  }

  /** Rotate clockwise `r` times; the source reduces `r` with
      `((r % 4) + 4) % 4` in C++ arithmetic. */
  function Rotate(b: Board, r: int): Board
  {
    var k := (CppRem4(r) + 4) % 4;
    if k == 1 then RotateRight(b)
    else if k == 2 then Reverse(b)
    else if k == 3 then RotateLeft(b)
    else b
  }

  /** `k` clockwise quarter turns, one at a time. */
  function RotateRightN(b: Board, k: nat): Board
  {
    if k == 0 then b else RotateRight(RotateRightN(b, k - 1))
  }

  // ---------------------------------------------------------------------
  // Transform algebra

  lemma TransposeInvolution(b: Board)
    ensures Transpose(Transpose(b)) == b
  {
  }

  lemma ReflectHorizontalInvolution(b: Board)
    ensures ReflectHorizontal(ReflectHorizontal(b)) == b
  {
  }

  lemma ReflectVerticalInvolution(b: Board)
    ensures ReflectVertical(ReflectVertical(b)) == b
  {
  }

  /** The two quarter turns undo each other, in either order. */
  lemma RotateLeftInvertsRight(b: Board)
    ensures RotateLeft(RotateRight(b)) == b
    ensures RotateRight(RotateLeft(b)) == b
  {
  }

  /** Four quarter turns are the identity; two are the half turn; three
      are the counter-clockwise turn. */
  lemma RotateRightPowers(b: Board)
    ensures RotateRightN(b, 2) == Reverse(b)
    ensures RotateRightN(b, 3) == RotateLeft(b)
    ensures RotateRightN(b, 4) == b
  {
    assert RotateRightN(b, 1) == RotateRight(b);
    assert RotateRightN(b, 2) == RotateRight(RotateRight(b));
    assert RotateRightN(b, 3) == RotateRight(RotateRightN(b, 2));
    assert RotateRightN(b, 4) == RotateRight(RotateRightN(b, 3));
  }

  /** Mirroring the columns turns a clockwise quarter turn into a
      counter-clockwise one: H R H = R^3 in the board's group. */
  lemma MirrorConjugatesRotation(b: Board)
    ensures ReflectHorizontal(RotateRight(ReflectHorizontal(b))) == RotateLeft(b)
  {
  }

  lemma {:induction false} RotateRightNMod(b: Board, k: nat)
    ensures RotateRightN(b, k) == RotateRightN(b, k % 4)
  {
    if k >= 4 {
      RotateRightNMod(b, k - 4);
      RotateRightNSplit(b, 4, k - 4);
      RotateRightPowers(RotateRightN(b, k - 4));
    }
  }

  lemma {:induction false} RotateRightNSplit(b: Board, i: nat, j: nat)
    ensures RotateRightN(b, i + j) == RotateRightN(RotateRightN(b, j), i)
  {
    if i > 0 {
      RotateRightNSplit(b, i - 1, j);
    }
  }

  /** The C++ reduction of the turn count agrees with the mathematical
      residue modulo 4, negative counts included. */
  lemma CppReduction(r: int)
    ensures (CppRem4(r) + 4) % 4 == r % 4
  {
    if r < 0 {
      var q := (-r) / 4;
      var m := (-r) % 4;
      assert -r == 4 * q + m;
      assert r == 4 * (-q - 1) + (4 - m);
    }
  }

  /** `rotate(r)` is `r mod 4` clockwise quarter turns, for every integer
      `r` including negative ones. */
  lemma RotateIsTurns(b: Board, r: int)
    ensures Rotate(b, r) == RotateRightN(b, r % 4)
  {
    CppReduction(r);
    RotateRightPowers(b);
  }

  /** So `rotate` depends only on the residue, and rotations compose. */
  lemma RotateCompose(b: Board, r: int, s: int)
    ensures Rotate(Rotate(b, r), s) == Rotate(b, r + s)
  {
    calc {
      Rotate(Rotate(b, r), s);
      { RotateIsTurns(b, r); RotateIsTurns(Rotate(b, r), s); }
      RotateRightN(RotateRightN(b, r % 4), s % 4);
      { RotateRightNSplit(b, s % 4, r % 4); }
      RotateRightN(b, s % 4 + r % 4);
      { RotateRightNMod(b, s % 4 + r % 4); assert (s % 4 + r % 4) % 4 == (r + s) % 4; }
      RotateRightN(b, (r + s) % 4);
      { RotateIsTurns(b, r + s); }
      Rotate(b, r + s);
    }
  }

  // ---------------------------------------------------------------------
  // Whole-board measures

  function RowSeq(row: Row): (s: seq<nat>)
    ensures |s| == 4
  {
    [row.c0, row.c1, row.c2, row.c3]
  }

  function SeqRow(s: seq<nat>): Row
    requires |s| == 4
  {
    Row(s[0], s[1], s[2], s[3])
  }

  /** Every rank below `n`. */
  predicate Bounded(b: Board, n: nat)
  {
    forall i: Pos :: Cell(b, i) < n
  }

  /** Total displayed value of the board. */
  function BoardValue(b: Board): nat
  {
    FibSum(RowSeq(b.r0)) + FibSum(RowSeq(b.r1)) + FibSum(RowSeq(b.r2)) + FibSum(RowSeq(b.r3))
  }

  function RowValue(row: Row): nat
  {
    Fibonacci(row.c0) + Fibonacci(row.c1) + Fibonacci(row.c2) + Fibonacci(row.c3)
  }

  lemma RowValueIsFibSum(row: Row)
    ensures FibSum(RowSeq(row)) == RowValue(row)
  {
    var s := RowSeq(row);
    assert s[1..] == [row.c1, row.c2, row.c3];
    assert s[1..][1..] == [row.c2, row.c3];
    assert s[1..][1..][1..] == [row.c3];
    assert s[1..][1..][1..][1..] == [];
    assert FibSum([row.c3]) == Fibonacci(row.c3);
    assert FibSum([row.c2, row.c3]) == Fibonacci(row.c2) + Fibonacci(row.c3);
    assert FibSum([row.c1, row.c2, row.c3]) == Fibonacci(row.c1) + Fibonacci(row.c2) + Fibonacci(row.c3);
  }

  lemma BoardValueByRows(b: Board)
    ensures BoardValue(b) == RowValue(b.r0) + RowValue(b.r1) + RowValue(b.r2) + RowValue(b.r3)
  {
    RowValueIsFibSum(b.r0);
    RowValueIsFibSum(b.r1);
    RowValueIsFibSum(b.r2);
    RowValueIsFibSum(b.r3);
  }

  /** The transforms only move cells, so they keep the displayed total. */
  lemma TransformsKeepValue(b: Board)
    ensures BoardValue(Transpose(b)) == BoardValue(b)
    ensures BoardValue(ReflectHorizontal(b)) == BoardValue(b)
    ensures BoardValue(ReflectVertical(b)) == BoardValue(b)
  {
    BoardValueByRows(b);
    BoardValueByRows(Transpose(b));
    BoardValueByRows(ReflectHorizontal(b));
    BoardValueByRows(ReflectVertical(b));
  }

  /** The transforms only move cells, so they keep every rank bound. */
  lemma TransformsKeepBound(b: Board, n: nat)
    requires Bounded(b, n)
    ensures Bounded(Transpose(b), n)
    ensures Bounded(ReflectHorizontal(b), n)
    ensures Bounded(ReflectVertical(b), n)
  {
    forall i: Pos
      ensures Cell(Transpose(b), i) < n
      ensures Cell(ReflectHorizontal(b), i) < n
      ensures Cell(ReflectVertical(b), i) < n
    {
      var r: Line := i / 4;
      var c: Line := i % 4;
      var p1: Pos := 4 * c + r;
      var p2: Pos := 4 * r + (3 - c);
      var p3: Pos := 4 * (3 - r) + c;
      TransposeCells(b);
      ReflectHorizontalCells(b);
      ReflectVerticalCells(b);
      assert Cell(b, p1) < n && Cell(b, p2) < n && Cell(b, p3) < n;
    }
  }
}
