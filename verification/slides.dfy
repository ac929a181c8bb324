/**
 The four slide directions.

 Only the left slide works on rows directly; right, up and down are the
 left slide seen through the transforms, exactly as the board derives them:
 right mirrors the columns around a left slide, up and down turn the board
 clockwise, slide right (up) or left (down), and turn it back.
 */
module Slides {
  import opened Tiles
  import opened RowMerge
  import opened Board

  /** A row after a slide toward column 0, and the reward of its merges. */
  datatype RowResult = RowResult(row: Row, reward: nat)

  function SlideRowLeft(row: Row): RowResult
  {
    var o := SlideCells(RowSeq(row));
    RowResult(SeqRow(o.tiles), o.reward)
  }

  /** Slide every row toward column 0. The reward is the sum of the rows'
      rewards, or -1 exactly when no cell moved or merged. */
  function SlideLeft(b: Board): (t: Transition)
    ensures t.reward == -1 <==> t.board == b
    ensures t.reward != -1 ==> t.reward >= 0
  {
    var a0 := SlideRowLeft(b.r0);
    var a1 := SlideRowLeft(b.r1);
    var a2 := SlideRowLeft(b.r2);
    var a3 := SlideRowLeft(b.r3);
    var after := Board(a0.row, a1.row, a2.row, a3.row);
    var score := a0.reward + a1.reward + a2.reward + a3.reward;
    Transition(after, if after != b then score else -1)
  }

  function SlideRight(b: Board): Transition
  {
    var t := SlideLeft(ReflectHorizontal(b));
    Transition(ReflectHorizontal(t.board), t.reward)
  }

  function SlideUp(b: Board): Transition
  {
    var t := SlideRight(RotateRight(b));
    Transition(RotateLeft(t.board), t.reward)
  }

  function SlideDown(b: Board): Transition
  {
    var t := SlideLeft(RotateRight(b));
    Transition(RotateLeft(t.board), t.reward)
  }

  /** Direction codes of a slide action. */
  const Up := 0
  const Right := 1
  const Down := 2
  const Left := 3

  /** The slide in one of the four directions. */
  function SlideIn(b: Board, d: Line): Transition
  {
    if d == Up then SlideUp(b)
    else if d == Right then SlideRight(b)
    else if d == Down then SlideDown(b)
    else SlideLeft(b)
  }

  /** Dispatch on the two low bits of the opcode. For an `int` in two's
      complement, `opcode & 3` is the non-negative residue `opcode % 4`. */
  function Slide(b: Board, opcode: int): Transition
  {
    SlideIn(b, opcode % 4)
  }

  // ---------------------------------------------------------------------
  // Derivation of the directions

  /** Sliding up is sliding left on the transposed board: tiles move toward
      row 0, and the reward is the inner slide's. */
  lemma SlideUpIsTransposedLeft(b: Board)
    ensures var inner := SlideLeft(Transpose(b));
            SlideUp(b) == Transition(Transpose(inner.board), inner.reward)
  {
    assert ReflectHorizontal(RotateRight(b)) == Transpose(b);
    var inner := SlideLeft(Transpose(b));
    assert RotateLeft(ReflectHorizontal(inner.board)) == Transpose(inner.board);
  }

  /** Sliding down is sliding right on the transposed board: tiles move
      toward row 3, and the reward is the inner slide's. */
  lemma SlideDownIsTransposedRight(b: Board)
    ensures var inner := SlideRight(Transpose(b));
            SlideDown(b) == Transition(Transpose(inner.board), inner.reward)
  {
    assert RotateRight(b) == ReflectHorizontal(Transpose(b));
    var inner := SlideLeft(ReflectHorizontal(Transpose(b)));
    assert RotateLeft(inner.board) == Transpose(ReflectHorizontal(inner.board));
  }

  /** The slide in direction `d` changes the board. */
  predicate Legal(b: Board, d: Line)
  {
    SlideIn(b, d).reward != -1
  }

  /** An opcode below four names its direction directly. */
  lemma SlideInAgrees(b: Board, d: Line)
    ensures Slide(b, d) == SlideIn(b, d)
  {
    assert d % 4 == d;
  }

  /** `slide` maps the four codes to the four directions. */
  lemma SlideDispatch(b: Board)
    ensures Slide(b, Up) == SlideUp(b)
    ensures Slide(b, Right) == SlideRight(b)
    ensures Slide(b, Down) == SlideDown(b)
    ensures Slide(b, Left) == SlideLeft(b)
  {
    SlideInAgrees(b, Up);
    SlideInAgrees(b, Right);
    SlideInAgrees(b, Down);
    SlideInAgrees(b, Left);
  }

  /** Only the two low bits of the opcode matter: -1 is a left slide, and
      codes four apart pick the same direction. */
  lemma SlideLowBits(b: Board, opcode: int)
    ensures Slide(b, opcode) == Slide(b, opcode % 4)
    ensures Slide(b, opcode + 4) == Slide(b, opcode)
    ensures Slide(b, -1) == SlideLeft(b)
  {
    assert (opcode % 4) % 4 == opcode % 4;
    assert (opcode + 4) % 4 == opcode % 4;
    assert -1 % 4 == 3;
  }

  // ---------------------------------------------------------------------
  // Legality, conservation and shape

  /** In every direction the sentinel -1 is returned exactly when the board
      is unchanged; a legal slide earns a non-negative reward. */
  lemma SlideLegality(b: Board, opcode: int)
    ensures Slide(b, opcode).reward == -1 <==> Slide(b, opcode).board == b
    ensures Slide(b, opcode).reward != -1 ==> Slide(b, opcode).reward >= 0
  {
    var d := opcode % 4;
    if d == Up {
      SlideUpLegality(b);
    } else if d == Right {
      SlideRightLegality(b);
    } else if d == Down {
      SlideDownLegality(b);
    }
  }

  lemma SlideRightLegality(b: Board)
    ensures SlideRight(b).reward == -1 <==> SlideRight(b).board == b
    ensures SlideRight(b).reward != -1 ==> SlideRight(b).reward >= 0
  {
    ReflectHorizontalInvolution(b);
    ReflectHorizontalInvolution(SlideLeft(ReflectHorizontal(b)).board);
  }

  lemma SlideUpLegality(b: Board)
    ensures SlideUp(b).reward == -1 <==> SlideUp(b).board == b
    ensures SlideUp(b).reward != -1 ==> SlideUp(b).reward >= 0
  {
    SlideRightLegality(RotateRight(b));
    RotateLeftInvertsRight(b);
    RotateLeftInvertsRight(SlideRight(RotateRight(b)).board);
  }

  lemma SlideDownLegality(b: Board)
    ensures SlideDown(b).reward == -1 <==> SlideDown(b).board == b
    ensures SlideDown(b).reward != -1 ==> SlideDown(b).reward >= 0
  {
    RotateLeftInvertsRight(b);
    RotateLeftInvertsRight(SlideLeft(RotateRight(b)).board);
  }

  lemma RowsOfBoard(b: Board, n: nat)
    ensures Bounded(b, n) <==>
              AllBelow(RowSeq(b.r0), n) && AllBelow(RowSeq(b.r1), n) &&
              AllBelow(RowSeq(b.r2), n) && AllBelow(RowSeq(b.r3), n)
  {
    if AllBelow(RowSeq(b.r0), n) && AllBelow(RowSeq(b.r1), n) &&
       AllBelow(RowSeq(b.r2), n) && AllBelow(RowSeq(b.r3), n) {
      forall i: Pos
        ensures Cell(b, i) < n
      {
        assert Cell(b, i) == RowSeq(RowAt(b, i / 4))[i % 4];
      }
    }
    if Bounded(b, n) {
      assert Cell(b, 0) < n && Cell(b, 1) < n && Cell(b, 2) < n && Cell(b, 3) < n;
      assert Cell(b, 4) < n && Cell(b, 5) < n && Cell(b, 6) < n && Cell(b, 7) < n;
      assert Cell(b, 8) < n && Cell(b, 9) < n && Cell(b, 10) < n && Cell(b, 11) < n;
      assert Cell(b, 12) < n && Cell(b, 13) < n && Cell(b, 14) < n && Cell(b, 15) < n;
    }
  }

  lemma SlideRowLeftFacts(row: Row, n: nat)
    ensures RowValue(SlideRowLeft(row).row) == RowValue(row)
    ensures AllBelow(RowSeq(row), n) ==> AllBelow(RowSeq(SlideRowLeft(row).row), n + 1)
  {
    var o := SlideCells(RowSeq(row));
    assert RowSeq(SeqRow(o.tiles)) == o.tiles;
    SlideCellsConserves(RowSeq(row));
    RowValueIsFibSum(row);
    RowValueIsFibSum(SlideRowLeft(row).row);
    if AllBelow(RowSeq(row), n) {
      SlideCellsBound(RowSeq(row), n);
    }
  }

  lemma SlideLeftFacts(b: Board, n: nat)
    ensures BoardValue(SlideLeft(b).board) == BoardValue(b)
    ensures Bounded(b, n) ==> Bounded(SlideLeft(b).board, n + 1)
  {
    var a := SlideLeft(b).board;
    SlideRowLeftFacts(b.r0, n);
    SlideRowLeftFacts(b.r1, n);
    SlideRowLeftFacts(b.r2, n);
    SlideRowLeftFacts(b.r3, n);
    BoardValueByRows(b);
    BoardValueByRows(a);
    RowsOfBoard(b, n);
    RowsOfBoard(a, n + 1);
  }

  /** Conservation: no slide changes the total displayed value of the
      board, because a merge of ranks k-1 and k (or 1 and 1) produces a tile
      worth exactly their sum. */
  lemma SlideConserves(b: Board, opcode: int)
    ensures BoardValue(Slide(b, opcode).board) == BoardValue(b)
  {
    var d := opcode % 4;
    if d == Up {
      SlideUpConserves(b);
    } else if d == Right {
      SlideRightConserves(b);
    } else if d == Down {
      SlideDownConserves(b);
    } else {
      SlideLeftFacts(b, 0);
    }
  }

  lemma SlideRightConserves(b: Board)
    ensures BoardValue(SlideRight(b).board) == BoardValue(b)
  {
    var h := ReflectHorizontal(b);
    SlideLeftFacts(h, 0);
    TransformsKeepValue(b);
    TransformsKeepValue(SlideLeft(h).board);
  }

  lemma SlideUpConserves(b: Board)
    ensures BoardValue(SlideUp(b).board) == BoardValue(b)
  {
    SlideUpIsTransposedLeft(b);
    var t := Transpose(b);
    SlideLeftFacts(t, 0);
    TransformsKeepValue(b);
    TransformsKeepValue(SlideLeft(t).board);
  }

  lemma SlideDownConserves(b: Board)
    ensures BoardValue(SlideDown(b).board) == BoardValue(b)
  {
    SlideDownIsTransposedRight(b);
    var t := Transpose(b);
    SlideRightConserves(t);
    TransformsKeepValue(b);
    TransformsKeepValue(SlideRight(t).board);
  }

  /** A slide raises a rank by at most one. In particular a board whose
      ranks are all at most 26 only ever asks the 28-entry table for
      ranks up to 27. */
  lemma SlideBound(b: Board, opcode: int, n: nat)
    requires Bounded(b, n)
    ensures Bounded(Slide(b, opcode).board, n + 1)
  {
    var d := opcode % 4;
    if d == Up {
      SlideUpBound(b, n);
    } else if d == Right {
      SlideRightBound(b, n);
    } else if d == Down {
      SlideDownBound(b, n);
    } else {
      SlideLeftFacts(b, n);
    }
  }

  lemma SlideRightBound(b: Board, n: nat)
    requires Bounded(b, n)
    ensures Bounded(SlideRight(b).board, n + 1)
  {
    var h := ReflectHorizontal(b);
    TransformsKeepBound(b, n);
    SlideLeftFacts(h, n);
    TransformsKeepBound(SlideLeft(h).board, n + 1);
  }

  lemma SlideUpBound(b: Board, n: nat)
    requires Bounded(b, n)
    ensures Bounded(SlideUp(b).board, n + 1)
  {
    SlideUpIsTransposedLeft(b);
    var t := Transpose(b);
    TransformsKeepBound(b, n);
    SlideLeftFacts(t, n);
    TransformsKeepBound(SlideLeft(t).board, n + 1);
  }

  lemma SlideDownBound(b: Board, n: nat)
    requires Bounded(b, n)
    ensures Bounded(SlideDown(b).board, n + 1)
  {
    SlideDownIsTransposedRight(b);
    var t := Transpose(b);
    TransformsKeepBound(b, n);
    SlideRightBound(t, n);
    TransformsKeepBound(SlideRight(t).board, n + 1);
  }

  /** A row cannot move left exactly when it is already compact and no two
      neighbouring tiles merge. */
  predicate RowStuck(row: Row)
  {
    Compact(RowSeq(row)) && Stuck(NonZero(RowSeq(row)))
  }

  lemma RowStuckIff(row: Row)
    ensures SlideRowLeft(row).row == row <==> RowStuck(row)
  {
    var o := SlideCells(RowSeq(row));
    assert RowSeq(SeqRow(o.tiles)) == o.tiles;
    SlideCellsFixedIff(RowSeq(row));
  }

  /** Illegal-move detection: a left slide returns -1 exactly when every row
      is compact and has no mergeable neighbours. */
  lemma SlideLeftIllegalIff(b: Board)
    ensures SlideLeft(b).reward == -1 <==>
              RowStuck(b.r0) && RowStuck(b.r1) && RowStuck(b.r2) && RowStuck(b.r3)
  {
    RowStuckIff(b.r0);
    RowStuckIff(b.r1);
    RowStuckIff(b.r2);
    RowStuckIff(b.r3);
  }

  /** After a left slide every row holds its tiles first and its empty
      cells last, and no row holds more tiles than before; a row keeps its
      tile count exactly when it earned no reward. */
  lemma SlideRowLeftShape(row: Row)
    ensures Compact(RowSeq(SlideRowLeft(row).row))
    ensures |NonZero(RowSeq(SlideRowLeft(row).row))| <= |NonZero(RowSeq(row))|
    ensures SlideRowLeft(row).reward == 0 <==>
              |NonZero(RowSeq(SlideRowLeft(row).row))| == |NonZero(RowSeq(row))|
  {
    var o := SlideCells(RowSeq(row));
    assert RowSeq(SeqRow(o.tiles)) == o.tiles;
    SlideCellsShape(RowSeq(row));
  }

  /** The tiles of a four-cell row, empty cells dropped. */
  lemma NonZeroOfFour(a: nat, b: nat, c: nat, d: nat)
    ensures NonZero([a, b, c, d]) == Held(a) + (Held(b) + (Held(c) + Held(d)))
  {
    NonZeroCons(d, []);
    assert [d] + [] == [d];
    NonZeroCons(c, [d]);
    assert [c] + [d] == [c, d];
    NonZeroCons(b, [c, d]);
    assert [b] + [c, d] == [b, c, d];
    NonZeroCons(a, [b, c, d]);
    assert [a] + [b, c, d] == [a, b, c, d];
  }

  lemma NonZeroCons(x: nat, ys: seq<nat>)
    ensures NonZero([x] + ys) == Held(x) + NonZero(ys)
  {
    assert ([x] + ys)[1..] == ys;
  }

  /** A row's slide, read off the reference rule on its tiles. */
  lemma ExampleRow(row: Row)
    ensures var o := Pairwise(Held(row.c0) + (Held(row.c1) + (Held(row.c2) + Held(row.c3))));
            SlideRowLeft(row) == RowResult(SeqRow(Pad(o.tiles, 4)), o.reward)
  {
    assert RowSeq(row) == [row.c0, row.c1, row.c2, row.c3];
    NonZeroOfFour(row.c0, row.c1, row.c2, row.c3);
    SlideCellsIsPairwise(RowSeq(row));
  }

  /** Two mergeable tiles at the head of an otherwise empty row become one
      tile in column 0, and the reward is the merged tile's value. */
  lemma SingleMerge(row: Row, x: nat, y: nat)
    requires row == Row(x, y, 0, 0) && x >= 1 && y >= 1 && Mergeable(x, y)
    ensures var m := MergedRank(x, y);
            SlideRowLeft(row) == RowResult(Row(m, 0, 0, 0), Fibonacci(m))
  {
    ExampleRow(row);
    var m := MergedRank(x, y);
    assert Held(row.c0) + (Held(row.c1) + (Held(row.c2) + Held(row.c3))) == [x, y];
    assert Pairwise([x, y]) == Outcome([m], Fibonacci(m)) by {
      assert [x, y][2..] == [];
    }
    assert SeqRow(Pad([m], 4)) == Row(m, 0, 0, 0) by {
      assert Pad([m], 4) == [m, 0, 0, 0];
    }
  }

  /** Two equal smallest tiles merge into the next rank. */
  lemma ExampleOnes(row: Row)
    requires row == Row(1, 1, 0, 0)
    ensures SlideRowLeft(row) == RowResult(Row(2, 0, 0, 0), 2)
  {
    SingleMerge(row, 1, 1);
  }

  /** Adjacent ranks merge; the reward is the merged tile's value. */
  lemma ExampleAdjacent(row: Row)
    requires row == Row(1, 2, 0, 0)
    ensures SlideRowLeft(row) == RowResult(Row(3, 0, 0, 0), 3)
  {
    SingleMerge(row, 1, 2);
  }

  /** The same rule one rank higher: 3 and 5 merge into 8. */
  lemma ExampleAdjacentHigher(row: Row)
    requires row == Row(2, 3, 0, 0)
    ensures SlideRowLeft(row) == RowResult(Row(4, 0, 0, 0), 5)
  {
    SingleMerge(row, 2, 3);
  }

  /** No cascades: the merged tile of [1,1,2,0] does not merge again. */
  lemma ExampleNoCascade(row: Row)
    requires row == Row(1, 1, 2, 0)
    ensures SlideRowLeft(row) == RowResult(Row(2, 2, 0, 0), 2)
  {
    ExampleRow(row);
    assert Held(row.c0) + (Held(row.c1) + (Held(row.c2) + Held(row.c3))) == [1, 1, 2];
    assert Pairwise([1, 1, 2]) == Outcome([2, 2], 2) by {
      assert [1, 1, 2][2..] == [2];
      assert Pairwise([2]) == Outcome([2], 0);
    }
    assert SeqRow(Pad([2, 2], 4)) == Row(2, 2, 0, 0) by {
      assert Pad([2, 2], 4) == [2, 2, 0, 0];
    }
  }

  /** Equal ranks above the smallest tile only move together. */
  lemma ExampleEqualRanks(row: Row)
    requires row == Row(0, 3, 0, 3)
    ensures SlideRowLeft(row) == RowResult(Row(3, 3, 0, 0), 0)
  {
    ExampleRow(row);
    assert Held(row.c0) + (Held(row.c1) + (Held(row.c2) + Held(row.c3))) == [3, 3];
    assert Pairwise([3, 3]) == Outcome([3, 3], 0) by {
      assert [3, 3][1..] == [3];
      assert Pairwise([3]) == Outcome([3], 0);
    }
    assert SeqRow(Pad([3, 3], 4)) == Row(3, 3, 0, 0) by {
      assert Pad([3, 3], 4) == [3, 3, 0, 0];
    }
  }

  /** A packed row with no adjacent ranks stays as it is. */
  lemma ExamplePacked(row: Row)
    requires row == Row(5, 1, 9, 1)
    ensures SlideRowLeft(row) == RowResult(Row(5, 1, 9, 1), 0)
  {
    ExampleRow(row);
    var xs := [5, 1, 9, 1];
    assert Held(row.c0) + (Held(row.c1) + (Held(row.c2) + Held(row.c3))) == xs;
    assert Pairwise(xs) == Outcome(xs, 0) by {
      assert xs[1..] == [1, 9, 1];
      assert [1, 9, 1][1..] == [9, 1];
      assert [9, 1][1..] == [1];
      assert Pairwise([1]) == Outcome([1], 0);
    }
    assert SeqRow(Pad(xs, 4)) == row by {
      assert Pad(xs, 4) == xs;
    }
  }

  /** The fully packed row [5,1,9,1] of the example cannot move, so a board
      made of it is an illegal left slide. */
  lemma StuckBoardExample(row: Row)
    requires row == Row(5, 1, 9, 1)
    ensures SlideLeft(Board(row, row, row, row)) == Transition(Board(row, row, row, row), -1)
  {
    ExamplePacked(row);
  }
}
