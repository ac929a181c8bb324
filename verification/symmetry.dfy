/**
 The eight symmetries of the board and the orientation walk of the n-tuple
 network.

 A symmetry is a number of clockwise quarter turns applied after an optional
 left-right mirror. The network evaluates a board in eight orientations,
 reached from the board by turning it clockwise three times, mirroring it,
 and turning it clockwise three more times; this walk meets every symmetry
 exactly once.
 */
module Symmetry {
  import opened Board

  /** Number of clockwise quarter turns. */
  type Quarter = k: nat | k < 4

  /** Turn `turns` times clockwise after mirroring the columns when `mirrored`. */
  datatype Sym = Sym(turns: Quarter, mirrored: bool)

  function Apply(s: Sym, b: Board): Board
  {
    RotateRightN(if s.mirrored then ReflectHorizontal(b) else b, s.turns)
  }

  /** One move of the walk: a clockwise turn or a left-right mirror. */
  datatype Move = Turn | Mirror

  function Do(m: Move, b: Board): Board
  {
    match m
    case Turn => RotateRight(b)
    case Mirror => ReflectHorizontal(b)
  }

  /** The moves between the eight evaluations of a board. */
  const WalkMoves: seq<Move> := [Turn, Turn, Turn, Mirror, Turn, Turn, Turn]

  /** Orientation `k` of the walk: the board after the first `k` moves. */
  function Orientation(b: Board, k: nat): Board
    requires k < 8
  {
    if k == 0 then b else Do(WalkMoves[k - 1], Orientation(b, k - 1))
  }

  /** The eight orientations in which a board is evaluated, in order. */
  function Walk(b: Board): (os: seq<Board>)
    ensures |os| == 8
  {
    seq(8, k requires 0 <= k < 8 => Orientation(b, k))
  }

  /** The symmetry that produces each orientation of the walk. */
  const WalkSyms: seq<Sym> := [Sym(0, false), Sym(1, false), Sym(2, false), Sym(3, false),
                               Sym(1, true), Sym(2, true), Sym(3, true), Sym(0, true)]

  // ---------------------------------------------------------------------
  // The walk, written out

  lemma WalkUnfold(b: Board)
    ensures var r1 := RotateRight(b);
            var r2 := RotateRight(r1);
            var r3 := RotateRight(r2);
            var m := ReflectHorizontal(r3);
            var m1 := RotateRight(m);
            var m2 := RotateRight(m1);
            Walk(b) == [b, r1, r2, r3, m, m1, m2, RotateRight(m2)]
  {
    var r1 := RotateRight(b);
    var r2 := RotateRight(r1);
    var r3 := RotateRight(r2);
    var m := ReflectHorizontal(r3);
    var m1 := RotateRight(m);
    var m2 := RotateRight(m1);
    var os := [b, r1, r2, r3, m, m1, m2, RotateRight(m2)];
    assert Orientation(b, 1) == r1;
    assert Orientation(b, 2) == r2;
    assert Orientation(b, 3) == r3;
    assert Orientation(b, 4) == m;
    assert Orientation(b, 5) == m1;
    assert Orientation(b, 6) == m2;
    assert Orientation(b, 7) == os[7];
    assert forall k :: 0 <= k < 8 ==> Walk(b)[k] == os[k];
  }

  // ---------------------------------------------------------------------
  // Turning and mirroring

  lemma TurnOnce(b: Board)
    ensures RotateRightN(b, 1) == RotateRight(b)
  {
  }

  /** A turn after `k` turns is `k + 1` turns, counted modulo four. */
  lemma TurnMore(b: Board, k: nat)
    ensures RotateRight(RotateRightN(b, k)) == RotateRightN(b, (k + 1) % 4)
  {
    RotateRightNMod(b, k + 1);
  }

  /** Mirroring after a turn is the mirror followed by three turns. */
  lemma MirrorAfterTurn(b: Board)
    ensures ReflectHorizontal(RotateRight(b)) == RotateRightN(ReflectHorizontal(b), 3)
  {
    var h := ReflectHorizontal(b);
    MirrorConjugatesRotation(h);
    ReflectHorizontalInvolution(b);
    RotateRightPowers(h);
  }

  /** Turning the board before applying a symmetry. */
  lemma ApplyAfterTurn(s: Sym, b: Board)
    ensures Apply(s, RotateRight(b)) ==
              Apply(Sym(((s.turns + if s.mirrored then 3 else 1) % 4) as Quarter, s.mirrored), b)
  {
    if s.mirrored {
      var h := ReflectHorizontal(b);
      MirrorAfterTurn(b);
      RotateRightNSplit(h, s.turns, 3);
      RotateRightNMod(h, s.turns + 3);
    } else {
      TurnOnce(b);
      RotateRightNSplit(b, s.turns, 1);
      RotateRightNMod(b, s.turns + 1);
    }
  }

  /** Mirroring the board before applying a symmetry. */
  lemma ApplyAfterMirror(s: Sym, b: Board)
    ensures Apply(s, ReflectHorizontal(b)) == Apply(Sym(s.turns, !s.mirrored), b)
  {
    ReflectHorizontalInvolution(b);
  }

  // ---------------------------------------------------------------------
  // The walk meets every symmetry once

  /** The k-th orientation of the walk is the k-th symmetry's image. */
  lemma WalkIsImages(b: Board)
    ensures forall k :: 0 <= k < 8 ==> Walk(b)[k] == Apply(WalkSyms[k], b)
  {
    WalkUnfold(b);
    var r1 := RotateRight(b);
    var r2 := RotateRight(r1);
    var r3 := RotateRight(r2);
    var h := ReflectHorizontal(b);
    TurnOnce(b);
    TurnMore(b, 1);
    TurnMore(b, 2);
    // mirroring after three turns is one turn after the mirror
    ApplyAfterTurn(Sym(0, true), r2);
    ApplyAfterTurn(Sym(3, true), r1);
    ApplyAfterTurn(Sym(2, true), b);
    assert ReflectHorizontal(r3) == RotateRightN(h, 1);
    TurnMore(h, 1);
    TurnMore(h, 2);
    TurnMore(h, 3);
  }

  /** Every symmetry occurs in the walk exactly once. */
  lemma WalkCoversGroup(s: Sym)
    ensures exists k :: 0 <= k < 8 && WalkSyms[k] == s
    ensures forall j, k :: 0 <= j < 8 && 0 <= k < 8 && WalkSyms[j] == s && WalkSyms[k] == s ==> j == k
  {
    var k := if s.mirrored then (if s.turns == 0 then 7 else 3 + s.turns) else s.turns;
    assert WalkSyms[k] == s;
  }

  /** A board whose 16 cells all differ. */
  const Probe := Board(Row(0, 1, 2, 3), Row(4, 5, 6, 7), Row(8, 9, 10, 11), Row(12, 13, 14, 15))

  /** The first two cells of the probe board in each orientation of the walk. */
  lemma ProbeCorners()
    ensures forall k :: 0 <= k < 8 ==>
              (At(Apply(WalkSyms[k], Probe), 0, 0), At(Apply(WalkSyms[k], Probe), 0, 1)) ==
              [(0, 1), (12, 8), (15, 14), (3, 7), (15, 11), (12, 13), (0, 4), (3, 2)][k]
  {
    WalkIsImages(Probe);
    WalkUnfold(Probe);
  }

  /** The eight symmetries are eight different maps: they already send the
      probe board to eight different boards. */
  lemma SymsDistinct(j: nat, k: nat)
    requires j < 8 && k < 8 && j != k
    ensures Apply(WalkSyms[j], Probe) != Apply(WalkSyms[k], Probe)
  {
    ProbeCorners();
  }

  /** Turning the board permutes its walk: orientation k of the turned
      board is orientation `[1, 2, 3, 0, 7, 4, 5, 6][k]` of the board. */
  lemma WalkOfTurn(b: Board)
    ensures var w := Walk(b);
            Walk(RotateRight(b)) == [w[1], w[2], w[3], w[0], w[7], w[4], w[5], w[6]]
  {
    var r := RotateRight(b);
    WalkIsImages(b);
    WalkIsImages(r);
    forall k | 0 <= k < 8
      ensures Apply(WalkSyms[k], r) == Apply(WalkSyms[[1, 2, 3, 0, 7, 4, 5, 6][k]], b)
    {
      ApplyAfterTurn(WalkSyms[k], b);
    }
  }

  /** Mirroring the board permutes its walk: orientation k of the mirrored
      board is orientation `[7, 4, 5, 6, 1, 2, 3, 0][k]` of the board. */
  lemma WalkOfMirror(b: Board)
    ensures var w := Walk(b);
            Walk(ReflectHorizontal(b)) == [w[7], w[4], w[5], w[6], w[1], w[2], w[3], w[0]]
  {
    var h := ReflectHorizontal(b);
    WalkIsImages(b);
    WalkIsImages(h);
    forall k | 0 <= k < 8
      ensures Apply(WalkSyms[k], h) == Apply(WalkSyms[[7, 4, 5, 6, 1, 2, 3, 0][k]], b)
    {
      ApplyAfterMirror(WalkSyms[k], b);
    }
  }

  /** Symmetries keep every rank bound. */
  lemma {:induction false} ApplyKeepsBound(s: Sym, b: Board, n: nat)
    requires Bounded(b, n)
    ensures Bounded(Apply(s, b), n)
    decreases s.turns
  {
    TransformsKeepBound(b, n);
    if s.turns > 0 {
      var t := Sym((s.turns - 1) as Quarter, s.mirrored);
      ApplyKeepsBound(t, b, n);
      var a := Apply(t, b);
      TransformsKeepBound(a, n);
      TransformsKeepBound(Transpose(a), n);
    }
  }
}
