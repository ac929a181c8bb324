/**
 Symmetry of the network.

 Because the orientation walk meets every symmetry of the board exactly
 once, the estimate of a board equals the estimate of each of its eight
 images, and an adjustment toward a target changes the tables in the same
 way whichever image it is given.
 */
module Invariance {
  import opened Board
  import opened Symmetry
  import opened Features
  import opened Network

  // ---------------------------------------------------------------------
  // Sums and counts split along concatenation

  lemma {:induction false} SumLookupsAppend(net: Net, xs: seq<Lookup>, ys: seq<Lookup>)
    requires InRange(net, xs) && InRange(net, ys)
    ensures InRange(net, xs + ys)
    ensures SumLookups(net, xs + ys) == SumLookups(net, xs) + SumLookups(net, ys)
  {
    assert forall j :: 0 <= j < |xs| ==> (xs + ys)[j] == xs[j];
    assert forall j :: |xs| <= j < |xs| + |ys| ==> (xs + ys)[j] == ys[j - |xs|];
    if xs == [] {
      assert xs + ys == ys;
    } else {
      assert (xs + ys)[1..] == xs[1..] + ys;
      SumLookupsAppend(net, xs[1..], ys);
    }
  }

  lemma {:induction false} CountAppend(xs: seq<Lookup>, ys: seq<Lookup>, l: Lookup)
    ensures Count(xs + ys, l) == Count(xs, l) + Count(ys, l)
  {
    if xs == [] {
      assert xs + ys == ys;
    } else {
      assert (xs + ys)[1..] == xs[1..] + ys;
      CountAppend(xs[1..], ys, l);
    }
  }

  // ---------------------------------------------------------------------
  // Orientation by orientation

  /** The part of the estimate read in one orientation. */
  function OrientValue(net: Net, o: Board): real
    requires WellFormed(net) && Bounded(o, Radix)
  {
    OrientInRange(net, o);
    SumLookups(net, OrientLookups(o))
  }

  predicate AllBounded(os: seq<Board>)
  {
    forall k :: 0 <= k < |os| ==> Bounded(os[k], Radix)
  }

  function SumOverOrients(net: Net, os: seq<Board>): real
    requires WellFormed(net) && AllBounded(os)
  {
    if os == [] then 0.0 else OrientValue(net, os[0]) + SumOverOrients(net, os[1..])
  }

  function CountOverOrients(os: seq<Board>, l: Lookup): nat
  {
    if os == [] then 0 else Count(OrientLookups(os[0]), l) + CountOverOrients(os[1..], l)
  }

  lemma {:induction false} SumByOrients(net: Net, os: seq<Board>)
    requires WellFormed(net) && AllBounded(os)
    ensures InRange(net, LookupsOf(os))
    ensures SumLookups(net, LookupsOf(os)) == SumOverOrients(net, os)
  {
    LookupsOfInRange(net, os);
    if os != [] {
      OrientInRange(net, os[0]);
      SumByOrients(net, os[1..]);
      SumLookupsAppend(net, OrientLookups(os[0]), LookupsOf(os[1..]));
    }
  }

  lemma {:induction false} CountByOrients(os: seq<Board>, l: Lookup)
    ensures Count(LookupsOf(os), l) == CountOverOrients(os, l)
  {
    if os != [] {
      CountByOrients(os[1..], l);
      CountAppend(OrientLookups(os[0]), LookupsOf(os[1..]), l);
    }
  }

  lemma SumStep(net: Net, w: seq<Board>, k: nat)
    requires WellFormed(net) && AllBounded(w) && k < |w|
    ensures AllBounded(w[k..]) && AllBounded(w[k + 1..])
    ensures SumOverOrients(net, w[k..]) == OrientValue(net, w[k]) + SumOverOrients(net, w[k + 1..])
  {
    assert w[k..][1..] == w[k + 1..];
  }

  lemma CountStep(w: seq<Board>, k: nat, l: Lookup)
    requires k < |w|
    ensures CountOverOrients(w[k..], l) == Count(OrientLookups(w[k]), l) + CountOverOrients(w[k + 1..], l)
  {
    assert w[k..][1..] == w[k + 1..];
  }

  /** The estimate is the sum of the eight orientations' parts. */
  lemma EstimateByOrientation(net: Net, b: Board)
    requires WellFormed(net) && Bounded(b, Radix)
    ensures var w := Walk(b);
            AllBounded(w) &&
            Estimate(net, b) ==
              OrientValue(net, w[0]) + OrientValue(net, w[1]) + OrientValue(net, w[2]) + OrientValue(net, w[3]) +
              OrientValue(net, w[4]) + OrientValue(net, w[5]) + OrientValue(net, w[6]) + OrientValue(net, w[7])
  {
    var w := Walk(b);
    WalkBounded(b);
    LookupsAreOrientations(b);
    SumByOrients(net, w);
    assert w[0..] == w;
    SumStep(net, w, 0);
    SumStep(net, w, 1);
    SumStep(net, w, 2);
    SumStep(net, w, 3);
    SumStep(net, w, 4);
    SumStep(net, w, 5);
    SumStep(net, w, 6);
    SumStep(net, w, 7);
    assert w[8..] == [];
  }

  /** How often a board's lookups read an entry, orientation by orientation. */
  lemma CountByOrientation(b: Board, l: Lookup)
    ensures var w := Walk(b);
            Count(Lookups(b), l) ==
              Count(OrientLookups(w[0]), l) + Count(OrientLookups(w[1]), l) +
              Count(OrientLookups(w[2]), l) + Count(OrientLookups(w[3]), l) +
              Count(OrientLookups(w[4]), l) + Count(OrientLookups(w[5]), l) +
              Count(OrientLookups(w[6]), l) + Count(OrientLookups(w[7]), l)
  {
    var w := Walk(b);
    LookupsAreOrientations(b);
    CountByOrients(w, l);
    assert w[0..] == w;
    CountStep(w, 0, l);
    CountStep(w, 1, l);
    CountStep(w, 2, l);
    CountStep(w, 3, l);
    CountStep(w, 4, l);
    CountStep(w, 5, l);
    CountStep(w, 6, l);
    CountStep(w, 7, l);
    assert w[8..] == [];
  }

  // ---------------------------------------------------------------------
  // The two generators

  lemma EstimateOfTurn(net: Net, b: Board)
    requires WellFormed(net) && Bounded(b, Radix)
    ensures Bounded(RotateRight(b), Radix)
    ensures Estimate(net, RotateRight(b)) == Estimate(net, b)
  {
    TransformsKeepBound(b, Radix);
    TransformsKeepBound(Transpose(b), Radix);
    WalkOfTurn(b);
    EstimateByOrientation(net, b);
    EstimateByOrientation(net, RotateRight(b));
  }

  lemma EstimateOfMirror(net: Net, b: Board)
    requires WellFormed(net) && Bounded(b, Radix)
    ensures Bounded(ReflectHorizontal(b), Radix)
    ensures Estimate(net, ReflectHorizontal(b)) == Estimate(net, b)
  {
    TransformsKeepBound(b, Radix);
    WalkOfMirror(b);
    EstimateByOrientation(net, b);
    EstimateByOrientation(net, ReflectHorizontal(b));
  }

  lemma CountOfTurn(b: Board, l: Lookup)
    ensures Count(Lookups(RotateRight(b)), l) == Count(Lookups(b), l)
  {
    WalkOfTurn(b);
    CountByOrientation(b, l);
    CountByOrientation(RotateRight(b), l);
  }

  lemma CountOfMirror(b: Board, l: Lookup)
    ensures Count(Lookups(ReflectHorizontal(b)), l) == Count(Lookups(b), l)
  {
    WalkOfMirror(b);
    CountByOrientation(b, l);
    CountByOrientation(ReflectHorizontal(b), l);
  }

  // ---------------------------------------------------------------------
  // All eight symmetries

  /** A symmetry with a turn is one more turn after the symmetry without it. */
  lemma ApplyPeel(s: Sym, b: Board)
    requires s.turns > 0
    ensures Apply(s, b) == RotateRight(Apply(Sym((s.turns - 1) as Quarter, s.mirrored), b))
  {
  }

  /** The estimate of every image of a board is the estimate of the board. */
  lemma {:induction false} EstimateSymmetric(net: Net, s: Sym, b: Board)
    requires WellFormed(net) && Bounded(b, Radix)
    ensures Bounded(Apply(s, b), Radix)
    ensures Estimate(net, Apply(s, b)) == Estimate(net, b)
    decreases s.turns
  {
    ApplyKeepsBound(s, b, Radix);
    if s.turns == 0 {
      if s.mirrored {
        EstimateOfMirror(net, b);
      }
    } else {
      var t := Sym((s.turns - 1) as Quarter, s.mirrored);
      var a := Apply(t, b);
      ApplyPeel(s, b);
      EstimateSymmetric(net, t, b);
      EstimateOfTurn(net, a);
    }
  }

  /** Every image of a board reads each entry as often as the board does. */
  lemma {:induction false} CountSymmetric(s: Sym, b: Board, l: Lookup)
    ensures Count(Lookups(Apply(s, b)), l) == Count(Lookups(b), l)
    decreases s.turns
  {
    if s.turns == 0 {
      if s.mirrored {
        CountOfMirror(b, l);
      }
    } else {
      var t := Sym((s.turns - 1) as Quarter, s.mirrored);
      var a := Apply(t, b);
      ApplyPeel(s, b);
      CountSymmetric(t, b, l);
      CountOfTurn(a, l);
    }
  }

  /** Boards with the same estimate that read an entry equally often
      adjust that entry alike. */
  lemma AdjustAgreesAt(net: Net, alpha: real, a: Board, b: Board, target: real, t: nat, i: nat)
    requires WellFormed(net) && Bounded(a, Radix) && Bounded(b, Radix)
    requires t < |net| && i < |net[t]|
    requires Estimate(net, a) == Estimate(net, b)
    requires Count(Lookups(a), Lookup(t, i)) == Count(Lookups(b), Lookup(t, i))
    ensures Adjust(net, alpha, a, target)[t][i] == Adjust(net, alpha, b, target)[t][i]
  {
    AdjustPointwise(net, alpha, a, target, t, i);
    AdjustPointwise(net, alpha, b, target, t, i);
  }

  /** Adjusting any image of a board toward a target changes the tables
      exactly as adjusting the board itself. */
  lemma AdjustSymmetric(net: Net, alpha: real, s: Sym, b: Board, target: real)
    requires WellFormed(net) && Bounded(b, Radix)
    ensures Bounded(Apply(s, b), Radix)
    ensures Adjust(net, alpha, Apply(s, b), target) == Adjust(net, alpha, b, target)
  {
    var a := Apply(s, b);
    EstimateSymmetric(net, s, b);
    var x := Adjust(net, alpha, a, target);
    var y := Adjust(net, alpha, b, target);
    forall t, i | 0 <= t < |x| && 0 <= i < |x[t]|
      ensures x[t][i] == y[t][i]
    {
      CountSymmetric(s, b, Lookup(t, i));
      AdjustAgreesAt(net, alpha, a, b, target, t, i);
    }
    NetExtensionality(x, y);
  }
}
