/**
 Five-cell patterns and their base-25 feature index.

 The network reads a board through 24 fixed patterns of five cells. The
 ranks in a pattern's cells, read as the digits of a base-25 number, index
 that pattern's weight table of 25^5 entries.
 */
module Features {
  import opened Board

  /** Digits of a feature index: a rank must be below this to fit. */
  const Radix: nat := 25

  /** Entries of one weight table: 25^5. */
  const TableLength: nat := 9765625

  /** Number of patterns, and of weight tables. */
  const PatternCount: nat := 24

  /** Five cells of the flat numbering, read from most to least significant. */
  datatype Pattern = Pattern(a: Pos, b: Pos, c: Pos, d: Pos, e: Pos)

  /** The 24 patterns, in table order. */
  const Patterns: seq<Pattern> := [
    Pattern(0, 1, 2, 3, 4), Pattern(0, 1, 2, 3, 5), Pattern(0, 1, 2, 4, 5), Pattern(0, 1, 2, 4, 8),
    Pattern(0, 1, 2, 5, 6), Pattern(0, 1, 2, 5, 9), Pattern(0, 1, 2, 6, 7), Pattern(0, 1, 2, 6, 10),
    Pattern(0, 1, 4, 5, 6), Pattern(0, 1, 5, 6, 7), Pattern(0, 1, 5, 6, 10), Pattern(0, 1, 5, 9, 13),
    Pattern(0, 1, 5, 9, 10), Pattern(0, 1, 5, 8, 9), Pattern(1, 2, 5, 6, 9), Pattern(1, 2, 4, 5, 6),
    Pattern(1, 2, 5, 9, 10), Pattern(1, 2, 5, 9, 13), Pattern(1, 2, 5, 8, 9), Pattern(1, 2, 4, 5, 9),
    Pattern(1, 4, 5, 6, 9), Pattern(1, 4, 5, 6, 10), Pattern(1, 4, 5, 6, 7), Pattern(1, 5, 6, 9, 10)]

  /** The ranks under a pattern, most significant first. */
  function Digits(o: Board, p: Pattern): (ds: seq<nat>)
    ensures |ds| == 5
  {
    [Cell(o, p.a), Cell(o, p.b), Cell(o, p.c), Cell(o, p.d), Cell(o, p.e)]
  }

  /** Every rank under the pattern fits in one base-25 digit. */
  predicate Fits(o: Board, p: Pattern)
  {
    Cell(o, p.a) < Radix && Cell(o, p.b) < Radix && Cell(o, p.c) < Radix &&
    Cell(o, p.d) < Radix && Cell(o, p.e) < Radix
  }

  /** The feature index of a pattern on a board, as the source spells it out.
      It lies within a table when the ranks fit; a leading rank of 25
      or more indexes past the table. */
  function Feature(o: Board, p: Pattern): (f: nat)
    ensures Fits(o, p) ==> f < TableLength
    ensures Cell(o, p.a) >= Radix ==> f >= TableLength
  {
    Cell(o, p.a) * 25 * 25 * 25 * 25 + Cell(o, p.b) * 25 * 25 * 25 + Cell(o, p.c) * 25 * 25 +
    Cell(o, p.d) * 25 + Cell(o, p.e)
  }

  /** Reading a sequence of digits in base 25, most significant first. */
  function FromDigits(ds: seq<nat>): nat
  {
    if ds == [] then 0 else FromDigits(ds[..|ds| - 1]) * Radix + ds[|ds| - 1]
  }

  /** The last `n` base-25 digits of `f`, most significant first. */
  function ToDigits(f: nat, n: nat): (ds: seq<nat>)
    ensures |ds| == n
    ensures forall j :: 0 <= j < n ==> ds[j] < Radix
  {
    if n == 0 then [] else ToDigits(f / Radix, n - 1) + [f % Radix]
  }

  // ---------------------------------------------------------------------
  // Properties of the index

  /** The source's expansion is the base-25 reading of the pattern's ranks. */
  lemma FeatureIsBase25(o: Board, p: Pattern)
    ensures Feature(o, p) == FromDigits(Digits(o, p))
  {
    var ds := Digits(o, p);
    assert [ds[0]][..0] == [];
    assert FromDigits([ds[0]]) == ds[0];
    assert [ds[0], ds[1]][..1] == [ds[0]];
    assert FromDigits([ds[0], ds[1]]) == ds[0] * 25 + ds[1];
    assert [ds[0], ds[1], ds[2]][..2] == [ds[0], ds[1]];
    assert FromDigits([ds[0], ds[1], ds[2]]) == (ds[0] * 25 + ds[1]) * 25 + ds[2];
    assert [ds[0], ds[1], ds[2], ds[3]][..3] == [ds[0], ds[1], ds[2]];
    assert FromDigits([ds[0], ds[1], ds[2], ds[3]]) == ((ds[0] * 25 + ds[1]) * 25 + ds[2]) * 25 + ds[3];
    assert ds[..4] == [ds[0], ds[1], ds[2], ds[3]];
  }

  /** One base-25 step can be undone. */
  lemma DigitStep(x: nat, y: nat)
    requires y < Radix
    ensures (x * Radix + y) / Radix == x
    ensures (x * Radix + y) % Radix == y
  {
  }

  /** Reading digits that fit and writing the number out again gives the digits back. */
  lemma {:induction false} DigitsRoundTrip(ds: seq<nat>)
    requires forall j :: 0 <= j < |ds| ==> ds[j] < Radix
    ensures ToDigits(FromDigits(ds), |ds|) == ds
  {
    if ds != [] {
      var init := ds[..|ds| - 1];
      var last := ds[|ds| - 1];
      DigitStep(FromDigits(init), last);
      DigitsRoundTrip(init);
      assert ds == init + [last];
    }
  }

  /** The index determines the five ranks: features of fitting patterns
      agree exactly when their ranks agree digit for digit. */
  lemma FeatureInjective(o1: Board, p1: Pattern, o2: Board, p2: Pattern)
    requires Fits(o1, p1) && Fits(o2, p2)
    ensures Feature(o1, p1) == Feature(o2, p2) <==> Digits(o1, p1) == Digits(o2, p2)
  {
    FeatureIsBase25(o1, p1);
    FeatureIsBase25(o2, p2);
    if Feature(o1, p1) == Feature(o2, p2) {
      DigitsRoundTrip(Digits(o1, p1));
      DigitsRoundTrip(Digits(o2, p2));
    }
  }
}
