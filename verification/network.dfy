/**
 The n-tuple network: 24 weight tables, the value estimate of a board and
 the temporal-difference adjustment of that estimate.

 An estimate reads one entry of every table in every orientation of the
 walk: 8 x 24 = 192 lookups. An adjustment moves the estimate toward a
 target by adding the same step to the entry behind each of those lookups.
 Weights are exact reals here.
 */
module Network {
  import opened Board
  import opened Symmetry
  import opened Features

  /** One weight table per pattern. */
  type Net = seq<seq<real>>

  /** Entry `index` of table `table`. */
  datatype Lookup = Lookup(table: nat, index: nat)

  /** Lookups made for one board: eight orientations of 24 patterns. */
  const LookupCount: nat := 192

  /** 24 tables of 25^5 entries, as the network allocates them. */
  predicate WellFormed(net: Net)
  {
    |net| == PatternCount && forall t :: 0 <= t < |net| ==> |net[t]| == TableLength
  }

  /** Every lookup names an existing entry. */
  predicate InRange(net: Net, ls: seq<Lookup>)
  {
    forall j :: 0 <= j < |ls| ==> ls[j].table < |net| && ls[j].index < |net[ls[j].table]|
  }

  /** Two nets of the same shape. */
  predicate SameShape(a: Net, b: Net)
  {
    |a| == |b| && forall t :: 0 <= t < |a| ==> |a[t]| == |b[t]|
  }

  /** The tables as the network initialises them: every weight zero. */
  function InitWeights(): (net: Net)
    ensures WellFormed(net)
    ensures forall t, i :: 0 <= t < |net| && 0 <= i < |net[t]| ==> net[t][i] == 0.0
  {
    seq(PatternCount, _ => seq(TableLength, _ => 0.0))
  }

  /** The lookups of one orientation: pattern j reads table j. */
  function OrientLookups(o: Board): (ls: seq<Lookup>)
    ensures |ls| == PatternCount
  {
    seq(PatternCount, j requires 0 <= j < PatternCount => Lookup(j, Feature(o, Patterns[j])))
  }

  /** The lookups of a list of orientations, one orientation after the other. */
  function LookupsOf(os: seq<Board>): (ls: seq<Lookup>)
    ensures |ls| == PatternCount * |os|
  {
    if os == [] then [] else OrientLookups(os[0]) + LookupsOf(os[1..])
  }

  /** The lookups an estimate of `b` makes, in the order the source makes them. */
  function Lookups(b: Board): (ls: seq<Lookup>)
    ensures |ls| == LookupCount
  {
    seq(LookupCount, j requires 0 <= j < LookupCount =>
      Lookup(j % PatternCount, Feature(Walk(b)[j / PatternCount], Patterns[j % PatternCount])))
  }

  /** Sum of the entries behind a list of lookups. */
  function SumLookups(net: Net, ls: seq<Lookup>): real
    requires InRange(net, ls)
  {
    if ls == [] then 0.0 else net[ls[0].table][ls[0].index] + SumLookups(net, ls[1..])
  }

  // ---------------------------------------------------------------------
  // Every lookup of a board with small ranks is inside the tables

  lemma OrientInRange(net: Net, o: Board)
    requires WellFormed(net) && Bounded(o, Radix)
    ensures InRange(net, OrientLookups(o))
  {
    forall j | 0 <= j < PatternCount
      ensures Feature(o, Patterns[j]) < TableLength
    {
      var p := Patterns[j];
      assert Cell(o, p.a) < Radix && Cell(o, p.b) < Radix && Cell(o, p.c) < Radix;
      assert Cell(o, p.d) < Radix && Cell(o, p.e) < Radix;
    }
  }

  lemma {:induction false} LookupsOfInRange(net: Net, os: seq<Board>)
    requires WellFormed(net)
    requires forall k :: 0 <= k < |os| ==> Bounded(os[k], Radix)
    ensures InRange(net, LookupsOf(os))
  {
    if os != [] {
      OrientInRange(net, os[0]);
      LookupsOfInRange(net, os[1..]);
      var xs := OrientLookups(os[0]);
      var ys := LookupsOf(os[1..]);
      assert forall j :: 0 <= j < |ys| ==> (xs + ys)[|xs| + j] == ys[j];
    }
  }

  /** Every orientation of a board with ranks below 25 has ranks below 25. */
  lemma WalkBounded(b: Board)
    requires Bounded(b, Radix)
    ensures forall k :: 0 <= k < 8 ==> Bounded(Walk(b)[k], Radix)
  {
    WalkIsImages(b);
    forall k | 0 <= k < 8
      ensures Bounded(Walk(b)[k], Radix)
    {
      ApplyKeepsBound(WalkSyms[k], b, Radix);
    }
  }

  /** Lookup `j` of a list of orientations is pattern `j % 24` on orientation `j / 24`. */
  lemma {:induction false} LookupsOfIndex(os: seq<Board>, j: nat)
    requires j < PatternCount * |os|
    ensures j / PatternCount < |os|
    ensures LookupsOf(os)[j] == Lookup(j % PatternCount, Feature(os[j / PatternCount], Patterns[j % PatternCount]))
  {
    var xs := OrientLookups(os[0]);
    var ys := LookupsOf(os[1..]);
    assert LookupsOf(os) == xs + ys;
    if j < PatternCount {
      SmallIndex(j);
      assert LookupsOf(os)[j] == xs[j];
    } else {
      var k: nat := j - PatternCount;
      IndexStep(j);
      LookupsOfIndex(os[1..], k);
      assert LookupsOf(os)[j] == ys[k];
      assert os[1..][k / PatternCount] == os[j / PatternCount];
    }
  }

  lemma SmallIndex(j: nat)
    requires j < PatternCount
    ensures j / PatternCount == 0 && j % PatternCount == j
  {
  }

  lemma IndexStep(j: nat)
    requires j >= PatternCount
    ensures (j - PatternCount) / PatternCount == j / PatternCount - 1
    ensures (j - PatternCount) % PatternCount == j % PatternCount
  {
  }

  /** The lookups of a board are those of its orientations, one orientation
      after the other. */
  lemma LookupsAreOrientations(b: Board)
    ensures Lookups(b) == LookupsOf(Walk(b))
  {
    forall j | 0 <= j < LookupCount
      ensures Lookups(b)[j] == LookupsOf(Walk(b))[j]
    {
      LookupsOfIndex(Walk(b), j);
    }
  }

  lemma LookupsInRange(net: Net, b: Board)
    requires WellFormed(net) && Bounded(b, Radix)
    ensures InRange(net, Lookups(b))
  {
    WalkBounded(b);
    LookupsOfInRange(net, Walk(b));
    LookupsAreOrientations(b);
  }

  // ---------------------------------------------------------------------
  // Estimate and adjustment

  /** The value estimate of an after-state: the sum of its 192 lookups. */
  function Estimate(net: Net, b: Board): real
    requires WellFormed(net) && Bounded(b, Radix)
  {
    LookupsInRange(net, b);
    SumLookups(net, Lookups(b))
  }

  /** Add `delta` to the entry behind each lookup, one lookup at a time. */
  function AddAll(net: Net, ls: seq<Lookup>, delta: real): (r: Net)
    requires InRange(net, ls)
    ensures SameShape(r, net)
    decreases |ls|
  {
    if ls == [] then net
    else
      var l := ls[0];
      var next := net[l.table := net[l.table][l.index := net[l.table][l.index] + delta]];
      assert SameShape(next, net);
      AddAll(next, ls[1..], delta)
  }

  /** The step every looked-up entry takes: the learning rate times the error. */
  function LearningStep(alpha: real, error: real): real
  {
    alpha * error
  }

  /** Move the estimate of `b` toward `target`: every lookup of `b` gains
      `alpha * (target - estimate)`, the error measured before any change. */
  function Adjust(net: Net, alpha: real, b: Board, target: real): (r: Net)
    requires WellFormed(net) && Bounded(b, Radix)
    ensures WellFormed(r)
  {
    LookupsInRange(net, b);
    AddAll(net, Lookups(b), LearningStep(alpha, target - Estimate(net, b)))
  }

  // ---------------------------------------------------------------------
  // What an adjustment does to each entry

  /** How many of the lookups `ls` read entry `l`. */
  function Count(ls: seq<Lookup>, l: Lookup): nat
  {
    if ls == [] then 0 else (if ls[0] == l then 1 else 0) + Count(ls[1..], l)
  }

  /** `k` steps of size `delta`. */
  function Steps(k: nat, delta: real): real
  {
    if k == 0 then 0.0 else Steps(k - 1, delta) + delta
  }

  lemma {:induction false} StepsAdd(j: nat, k: nat, delta: real)
    ensures Steps(j + k, delta) == Steps(j, delta) + Steps(k, delta)
    decreases k
  {
    if k > 0 {
      StepsAdd(j, k - 1, delta);
    }
  }

  lemma {:induction false} StepsOfZero(k: nat)
    ensures Steps(k, 0.0) == 0.0
  {
    if k > 0 {
      StepsOfZero(k - 1);
    }
  }

  /** `k` steps of `delta` are `k * delta`. */
  lemma {:induction false} StepsIsProduct(k: nat, delta: real)
    ensures Steps(k, delta) == (k as real) * delta
  {
    if k > 0 {
      StepsIsProduct(k - 1, delta);
      assert (k as real) * delta == ((k - 1) as real) * delta + delta;
    }
  }

  /** An entry looked up `k` times gains `k * delta`; every other entry is
      unchanged. */
  lemma {:induction false} AddAllPointwise(net: Net, ls: seq<Lookup>, delta: real, t: nat, i: nat)
    requires InRange(net, ls)
    requires t < |net| && i < |net[t]|
    ensures AddAll(net, ls, delta)[t][i] == net[t][i] + Steps(Count(ls, Lookup(t, i)), delta)
    decreases |ls|
  {
    if ls != [] {
      var l := ls[0];
      var next := net[l.table := net[l.table][l.index := net[l.table][l.index] + delta]];
      assert InRange(next, ls[1..]);
      AddAllPointwise(next, ls[1..], delta, t, i);
      if l == Lookup(t, i) {
        assert next[t][i] == net[t][i] + delta;
        StepsAdd(1, Count(ls[1..], Lookup(t, i)), delta);
      } else {
        assert next[t][i] == net[t][i];
      }
    }
  }

  /** An adjustment changes exactly the entries the estimate reads: entry
      (t, i), read k times, gains k steps of `alpha * (target - estimate)`. */
  lemma AdjustPointwise(net: Net, alpha: real, b: Board, target: real, t: nat, i: nat)
    requires WellFormed(net) && Bounded(b, Radix)
    requires t < |net| && i < |net[t]|
    ensures Adjust(net, alpha, b, target)[t][i] ==
              net[t][i] + Steps(Count(Lookups(b), Lookup(t, i)), LearningStep(alpha, target - Estimate(net, b)))
    ensures Count(Lookups(b), Lookup(t, i)) == 0 ==> Adjust(net, alpha, b, target)[t][i] == net[t][i]
  {
    var ls := Lookups(b);
    LookupsInRange(net, b);
    var delta := LearningStep(alpha, target - Estimate(net, b));
    assert Adjust(net, alpha, b, target) == AddAll(net, ls, delta);
    AddAllPointwise(net, ls, delta, t, i);
  }

  /** Nets of the same shape that agree on every entry are equal. */
  lemma NetExtensionality(a: Net, b: Net)
    requires SameShape(a, b)
    requires forall t, i :: 0 <= t < |a| && 0 <= i < |a[t]| ==> a[t][i] == b[t][i]
    ensures a == b
  {
    forall t | 0 <= t < |a|
      ensures a[t] == b[t]
    {
      assert |a[t]| == |b[t]|;
    }
  }

  /** With a zero learning rate an adjustment changes nothing. */
  lemma ZeroAlphaKeepsNet(net: Net, b: Board, target: real)
    requires WellFormed(net) && Bounded(b, Radix)
    ensures Adjust(net, 0.0, b, target) == net
  {
    var r := Adjust(net, 0.0, b, target);
    forall t, i | 0 <= t < |r| && 0 <= i < |r[t]|
      ensures r[t][i] == net[t][i]
    {
      AdjustPointwise(net, 0.0, b, target, t, i);
      assert LearningStep(0.0, target - Estimate(net, b)) == 0.0;
      StepsOfZero(Count(Lookups(b), Lookup(t, i)));
    }
    NetExtensionality(r, net);
  }

  // ---------------------------------------------------------------------
  // The initial tables

  lemma {:induction false} SumOfZeros(net: Net, ls: seq<Lookup>)
    requires InRange(net, ls)
    requires forall t, i :: 0 <= t < |net| && 0 <= i < |net[t]| ==> net[t][i] == 0.0
    ensures SumLookups(net, ls) == 0.0
  {
    if ls != [] {
      SumOfZeros(net, ls[1..]);
    }
  }

  /** Freshly initialised tables estimate every board at zero. */
  lemma InitEstimateZero(b: Board)
    requires Bounded(b, Radix)
    ensures Estimate(InitWeights(), b) == 0.0
  {
    LookupsInRange(InitWeights(), b);
    SumOfZeros(InitWeights(), Lookups(b));
  }

  // ---------------------------------------------------------------------
  // An adjustment moves the estimate toward the target

  /** How often the lookups `us` hit the entries behind `ls`, summed over `ls`. */
  function Hits(ls: seq<Lookup>, us: seq<Lookup>): nat
  {
    if ls == [] then 0 else Count(us, ls[0]) + Hits(ls[1..], us)
  }

  /** After adding `delta` along `us`, the sum along `ls` grows by `delta`
      for every hit. */
  lemma {:induction false} SumAfterAddAll(net: Net, ls: seq<Lookup>, us: seq<Lookup>, delta: real)
    requires InRange(net, ls) && InRange(net, us)
    ensures InRange(AddAll(net, us, delta), ls)
    ensures SumLookups(AddAll(net, us, delta), ls) == SumLookups(net, ls) + Steps(Hits(ls, us), delta)
  {
    if ls != [] {
      SumAfterAddAll(net, ls[1..], us, delta);
      AddAllPointwise(net, us, delta, ls[0].table, ls[0].index);
      StepsAdd(Count(us, ls[0]), Hits(ls[1..], us), delta);
    }
  }

  /** A lookup at position j is counted at least once. */
  lemma {:induction false} CountMember(ls: seq<Lookup>, j: nat)
    requires j < |ls|
    ensures Count(ls, ls[j]) >= 1
  {
    if j > 0 {
      CountMember(ls[1..], j - 1);
    }
  }

  /** Every lookup hits itself at least once. */
  lemma {:induction false} HitsAtLeastLength(ls: seq<Lookup>, us: seq<Lookup>)
    requires forall j :: 0 <= j < |ls| ==> Count(us, ls[j]) >= 1
    ensures Hits(ls, us) >= |ls|
  {
    if ls != [] {
      assert forall j :: 0 <= j < |ls| - 1 ==> ls[1..][j] == ls[j + 1];
      HitsAtLeastLength(ls[1..], us);
      assert Count(us, ls[0]) >= 1;
    }
  }

  /** The number of self-hits of a board's lookups: at least 192, more when
      two orientations read the same entry. */
  function SelfHits(b: Board): (h: nat)
    ensures h >= LookupCount
  {
    var ls := Lookups(b);
    forall j | 0 <= j < |ls|
      ensures Count(ls, ls[j]) >= 1
    {
      CountMember(ls, j);
    }
    HitsAtLeastLength(ls, ls);
    Hits(ls, ls)
  }

  /** An adjustment scales the error of the adjusted board's estimate by
      `1 - alpha * h`, where `h >= 192` counts the lookups' self-hits: a
      small enough positive rate moves the estimate toward the target. */
  lemma AdjustMovesTowardTarget(net: Net, alpha: real, b: Board, target: real)
    requires WellFormed(net) && Bounded(b, Radix)
    ensures var e := Estimate(net, b);
            target - Estimate(Adjust(net, alpha, b, target), b) ==
              (1.0 - alpha * (SelfHits(b) as real)) * (target - e)
  {
    var e := Estimate(net, b);
    var ls := Lookups(b);
    var delta := LearningStep(alpha, target - e);
    LookupsInRange(net, b);
    assert Adjust(net, alpha, b, target) == AddAll(net, ls, delta);
    SumAfterAddAll(net, ls, ls, delta);
    StepsIsProduct(SelfHits(b), delta);
    var h := SelfHits(b) as real;
    assert Estimate(Adjust(net, alpha, b, target), b) == e + h * delta;
    ErrorScaling(e, h, alpha, target);
  }

  lemma ErrorScaling(e: real, h: real, alpha: real, target: real)
    ensures target - (e + h * (alpha * (target - e))) == (1.0 - alpha * h) * (target - e)
  {
  }
}
