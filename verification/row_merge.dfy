/**
 The row-merging rule behind every slide.

 `Scan` is the board's own left-to-right scan with a single pending "hold"
 tile. `Pairwise` is an independent description of the same rule: take the
 non-empty tiles in order and greedily fuse the first two when they are
 mergeable, otherwise keep the first. `ScanIsPairwise` shows they agree, so
 each fact proved about `Pairwise` (conservation, no cascading, order) is a
 fact about the scan.
 */
module RowMerge {
  import opened Tiles

  /** Tiles written out by a scan and the reward they earned. */
  datatype Outcome = Outcome(tiles: seq<nat>, reward: nat)

  predicate AllNonZero(xs: seq<nat>)
  {
    forall j :: 0 <= j < |xs| ==> xs[j] != 0
  }

  predicate AllBelow(xs: seq<nat>, n: nat)
  {
    forall j :: 0 <= j < |xs| ==> xs[j] < n
  }

  /** The non-empty cells of a row, in order. */
  function NonZero(cells: seq<nat>): (r: seq<nat>)
    ensures |r| <= |cells|
    ensures AllNonZero(r)
  {
    if cells == [] then []
    else if cells[0] == 0 then NonZero(cells[1..])
    else [cells[0]] + NonZero(cells[1..])
  }

  /** The pending tile, as a sequence of zero or one tiles. */
  function Held(hold: nat): seq<nat>
  {
    if hold != 0 then [hold] else []
  }

  /** State of the scan between two cells: the pending tile, the tiles
      written out so far, and the reward so far. */
  datatype ScanState = ScanState(hold: nat, emitted: seq<nat>, score: nat)

  /** One visit of the scan in board.h: an empty cell is skipped; a tile
      either merges with the held tile (emitting the merged rank and
      clearing the hold), or pushes the held tile out and becomes the new
      hold. */
  function Visit(s: ScanState, t: nat): ScanState
  {
    if t == 0 then s
    else if s.hold != 0 then
      if Mergeable(s.hold, t) then
        var m := MergedRank(s.hold, t);
        ScanState(0, s.emitted + [m], s.score + Fibonacci(m))
      else
        ScanState(t, s.emitted + [s.hold], s.score)
    else
      ScanState(t, s.emitted, s.score)
  }

  /** Visit the cells left to right. */
  function Scan(cells: seq<nat>, s: ScanState): ScanState
  {
    if cells == [] then s else Scan(cells[1..], Visit(s, cells[0]))
  }

  /** At the end of the row the held tile, if any, is written out too. */
  function Finish(s: ScanState): Outcome
  {
    Outcome(s.emitted + Held(s.hold), s.score)
  }

  /** Reference rule: fuse the leading pair when mergeable, else keep the
      leading tile; a fused tile is never looked at again. */
  function Pairwise(xs: seq<nat>): (r: Outcome)
    ensures |r.tiles| <= |xs|
  {
    if |xs| < 2 then Outcome(xs, 0)
    else if Mergeable(xs[0], xs[1]) then
      var m := MergedRank(xs[0], xs[1]);
      var rest := Pairwise(xs[2..]);
      Outcome([m] + rest.tiles, Fibonacci(m) + rest.reward)
    else
      var rest := Pairwise(xs[1..]);
      Outcome([xs[0]] + rest.tiles, rest.reward)
  }

  /** The number of merges the reference rule makes on a row of tiles. */
  function Merges(xs: seq<nat>): nat
  {
    if |xs| < 2 then 0
    else if Mergeable(xs[0], xs[1]) then 1 + Merges(xs[2..])
    else Merges(xs[1..])
  }

  /** Every merge turns two tiles into one: the output is shorter than the
      input by exactly the number of merges, at most half the tiles merge,
      and the reward is zero exactly when none does. */
  lemma {:induction false} PairwiseMergeCount(xs: seq<nat>)
    ensures |Pairwise(xs).tiles| + Merges(xs) == |xs|
    ensures 2 * Merges(xs) <= |xs|
    ensures Pairwise(xs).reward == 0 <==> Merges(xs) == 0
  {
    if |xs| >= 2 {
      if Mergeable(xs[0], xs[1]) {
        PairwiseMergeCount(xs[2..]);
        assert Fibonacci(MergedRank(xs[0], xs[1])) >= 1;
      } else {
        PairwiseMergeCount(xs[1..]);
      }
    }
  }

  /** No two neighbouring tiles can merge. */
  predicate Stuck(xs: seq<nat>)
  {
    forall j :: 0 <= j < |xs| - 1 ==> !Mergeable(xs[j], xs[j + 1])
  }

  /** The scan emits exactly what the reference rule emits on the held tile
      followed by the remaining non-empty cells. */
  lemma {:induction false} ScanIsPairwise(cells: seq<nat>, s: ScanState)
    ensures Finish(Scan(cells, s))
            == Outcome(s.emitted + Pairwise(Held(s.hold) + NonZero(cells)).tiles,
                       s.score + Pairwise(Held(s.hold) + NonZero(cells)).reward)
  {
    if cells == [] {
      assert Held(s.hold) + NonZero(cells) == Held(s.hold);
      PairwiseShort(Held(s.hold));
    } else {
      var rest := cells[1..];
      var v := Visit(s, cells[0]);
      ScanIsPairwise(rest, v);
      if cells[0] == 0 {
        assert NonZero(cells) == NonZero(rest);
      } else {
        assert NonZero(cells) == [cells[0]] + NonZero(rest);
        assert Held(s.hold) + NonZero(cells) == Held(s.hold) + [cells[0]] + NonZero(rest);
        VisitIsPairwise(s, cells[0], NonZero(rest));
      }
    }
  }

  lemma PairwiseShort(xs: seq<nat>)
    requires |xs| < 2
    ensures Pairwise(xs) == Outcome(xs, 0)
  {
  }

  /** One visit of a tile keeps "emitted so far + reference on the rest"
      unchanged. */
  lemma VisitIsPairwise(s: ScanState, t: nat, ys: seq<nat>)
    requires t != 0
    ensures var v := Visit(s, t);
            && s.emitted + Pairwise(Held(s.hold) + [t] + ys).tiles == v.emitted + Pairwise(Held(v.hold) + ys).tiles
            && s.score + Pairwise(Held(s.hold) + [t] + ys).reward == v.score + Pairwise(Held(v.hold) + ys).reward
  {
    if s.hold == 0 {
      assert Held(s.hold) + [t] + ys == Held(Visit(s, t).hold) + ys;
    } else if Mergeable(s.hold, t) {
      assert Held(s.hold) + [t] + ys == [s.hold, t] + ys;
      assert Held(Visit(s, t).hold) + ys == ys;
      VisitMerges(s.hold, t, s.emitted, s.score, ys);
    } else {
      assert Held(s.hold) + [t] + ys == [s.hold, t] + ys;
      assert Held(Visit(s, t).hold) + ys == [t] + ys;
      VisitPushes(s.hold, t, s.emitted, s.score, ys);
    }
  }

  lemma VisitMerges(hold: nat, t: nat, emitted: seq<nat>, score: nat, ys: seq<nat>)
    requires hold != 0 && t != 0 && Mergeable(hold, t)
    ensures var m := MergedRank(hold, t);
            && emitted + Pairwise([hold, t] + ys).tiles == emitted + [m] + Pairwise(ys).tiles
            && score + Pairwise([hold, t] + ys).reward == score + Fibonacci(m) + Pairwise(ys).reward
  {
    PairwiseUnfold(hold, t, ys);
    var m := MergedRank(hold, t);
    assert emitted + ([m] + Pairwise(ys).tiles) == emitted + [m] + Pairwise(ys).tiles;
  }

  lemma VisitPushes(hold: nat, t: nat, emitted: seq<nat>, score: nat, ys: seq<nat>)
    requires hold != 0 && t != 0 && !Mergeable(hold, t)
    ensures && emitted + Pairwise([hold, t] + ys).tiles == emitted + [hold] + Pairwise([t] + ys).tiles
            && score + Pairwise([hold, t] + ys).reward == score + Pairwise([t] + ys).reward
  {
    PairwiseUnfold(hold, t, ys);
    assert emitted + ([hold] + Pairwise([t] + ys).tiles) == emitted + [hold] + Pairwise([t] + ys).tiles;
  }

  /** One step of the reference rule on a row starting with two tiles. */
  lemma PairwiseUnfold(a: nat, b: nat, ys: seq<nat>)
    ensures Pairwise([a, b] + ys)
            == if Mergeable(a, b)
               then Outcome([MergedRank(a, b)] + Pairwise(ys).tiles, Fibonacci(MergedRank(a, b)) + Pairwise(ys).reward)
               else Outcome([a] + Pairwise([b] + ys).tiles, Pairwise([b] + ys).reward)
  {
    var xs := [a, b] + ys;
    assert xs[2..] == ys;
    assert xs[1..] == [b] + ys;
  }

  /** Shape of the reference rule on non-empty tiles: the output is never
      longer, is non-empty tile by tile, and it is the input itself exactly
      when no merge happened, which is exactly when the reward is zero. */
  lemma {:induction false} PairwiseShape(xs: seq<nat>)
    requires AllNonZero(xs)
    ensures var p := Pairwise(xs);
            && |p.tiles| <= |xs|
            && AllNonZero(p.tiles)
            && (p.reward == 0 <==> |p.tiles| == |xs|)
            && (|p.tiles| == |xs| ==> p.tiles == xs)
  {
    if |xs| >= 2 {
      if Mergeable(xs[0], xs[1]) {
        PairwiseShape(xs[2..]);
        assert Fibonacci(MergedRank(xs[0], xs[1])) >= 1;
      } else {
        PairwiseShape(xs[1..]);
        assert xs == [xs[0]] + xs[1..];
      }
    }
  }

  /** The reference rule changes nothing exactly when no neighbours merge. */
  lemma {:induction false} PairwiseFixedIffStuck(xs: seq<nat>)
    requires AllNonZero(xs)
    ensures Pairwise(xs).tiles == xs <==> Stuck(xs)
  {
    if |xs| >= 2 {
      if Mergeable(xs[0], xs[1]) {
        PairwiseShape(xs[2..]);
        assert |Pairwise(xs).tiles| < |xs|;
      } else {
        PairwiseFixedIffStuck(xs[1..]);
        assert xs == [xs[0]] + xs[1..];
        assert Stuck(xs) <==> Stuck(xs[1..]) by {
          if Stuck(xs[1..]) {
            forall j | 0 <= j < |xs| - 1
              ensures !Mergeable(xs[j], xs[j + 1])
            {
              if j > 0 {
                assert xs[j] == xs[1..][j - 1] && xs[j + 1] == xs[1..][j];
              }
            }
          }
          if Stuck(xs) {
            forall j | 0 <= j < |xs[1..]| - 1
              ensures !Mergeable(xs[1..][j], xs[1..][j + 1])
            {
              assert xs[1..][j] == xs[j + 1] && xs[1..][j + 1] == xs[j + 2];
            }
          }
        }
      }
    }
  }

  /** Merging conserves the total displayed value. */
  lemma {:induction false} PairwiseConserves(xs: seq<nat>)
    requires AllNonZero(xs)
    ensures FibSum(Pairwise(xs).tiles) == FibSum(xs)
  {
    if |xs| >= 2 {
      if Mergeable(xs[0], xs[1]) {
        var m := MergedRank(xs[0], xs[1]);
        PairwiseConserves(xs[2..]);
        MergeConserves(xs[0], xs[1]);
        assert ([m] + Pairwise(xs[2..]).tiles)[1..] == Pairwise(xs[2..]).tiles;
        assert xs[1..][1..] == xs[2..];
      } else {
        PairwiseConserves(xs[1..]);
        assert ([xs[0]] + Pairwise(xs[1..]).tiles)[1..] == Pairwise(xs[1..]).tiles;
      }
    }
  }

  /** The reward is the displayed value of the merged tiles, so it never
      exceeds the total displayed value of the row. */
  lemma {:induction false} PairwiseRewardBound(xs: seq<nat>)
    requires AllNonZero(xs)
    ensures Pairwise(xs).reward <= FibSum(xs)
  {
    if |xs| >= 2 {
      if Mergeable(xs[0], xs[1]) {
        PairwiseRewardBound(xs[2..]);
        MergeConserves(xs[0], xs[1]);
        assert xs[1..][1..] == xs[2..];
      } else {
        PairwiseRewardBound(xs[1..]);
      }
    }
  }

  /** A merge raises a rank by at most one. */
  lemma {:induction false} PairwiseBound(xs: seq<nat>, n: nat)
    requires AllBelow(xs, n)
    ensures AllBelow(Pairwise(xs).tiles, n + 1)
  {
    if |xs| >= 2 {
      if Mergeable(xs[0], xs[1]) {
        PairwiseBound(xs[2..], n);
      } else {
        PairwiseBound(xs[1..], n);
      }
    }
  }

  /** `n` empty cells. */
  function Zeros(n: nat): (r: seq<nat>)
    ensures |r| == n
    ensures forall j :: 0 <= j < n ==> r[j] == 0
  {
    seq(n, _ => 0)
  }

  /** Zeros after the given tiles, up to length `n`. */
  function Pad(xs: seq<nat>, n: nat): (r: seq<nat>)
    requires |xs| <= n
    ensures |r| == n
    ensures forall j :: 0 <= j < |xs| ==> r[j] == xs[j]
    ensures forall j :: |xs| <= j < n ==> r[j] == 0
  {
    xs + Zeros(n - |xs|)
  }

  lemma {:induction false} NonZeroBelow(cells: seq<nat>, n: nat)
    requires AllBelow(cells, n)
    ensures AllBelow(NonZero(cells), n)
  {
    if cells != [] {
      NonZeroBelow(cells[1..], n);
    }
  }

  lemma {:induction false} NonZeroPad(xs: seq<nat>, n: nat)
    requires |xs| <= n
    requires AllNonZero(xs)
    ensures NonZero(Pad(xs, n)) == xs
    decreases |xs| + n
  {
    if xs == [] {
      ZerosVanish(n);
      assert Pad(xs, n) == Zeros(n);
    } else {
      assert Pad(xs, n)[1..] == Pad(xs[1..], n - 1);
      NonZeroPad(xs[1..], n - 1);
    }
  }

  lemma {:induction false} ZerosVanish(n: nat)
    ensures NonZero(Zeros(n)) == []
    ensures FibSum(Zeros(n)) == 0
  {
    if n > 0 {
      assert Zeros(n)[1..] == Zeros(n - 1);
      ZerosVanish(n - 1);
    }
  }

  lemma FibSumPad(xs: seq<nat>, n: nat)
    requires |xs| <= n
    ensures FibSum(Pad(xs, n)) == FibSum(xs)
  {
    FibSumAppend(xs, Zeros(n - |xs|));
    ZerosVanish(n - |xs|);
  }

  lemma {:induction false} FibSumNonZero(cells: seq<nat>)
    ensures FibSum(NonZero(cells)) == FibSum(cells)
  {
    if cells != [] {
      FibSumNonZero(cells[1..]);
    }
  }

  /** A row with its non-empty tiles first and its empty cells last. */
  predicate Compact(cells: seq<nat>)
  {
    forall i, j :: 0 <= i < j < |cells| && cells[i] == 0 ==> cells[j] == 0
  }

  /** A compact row is its non-empty tiles padded with zeros. */
  lemma {:induction false} CompactIsPadded(cells: seq<nat>)
    requires Compact(cells)
    ensures |NonZero(cells)| <= |cells|
    ensures cells == Pad(NonZero(cells), |cells|)
  {
    if cells != [] {
      var rest := cells[1..];
      assert Compact(rest) by {
        forall i, j | 0 <= i < j < |rest| && rest[i] == 0
          ensures rest[j] == 0
        {
          assert cells[i + 1] == 0;
        }
      }
      CompactIsPadded(rest);
      if cells[0] == 0 {
        assert forall j :: 0 <= j < |cells| ==> cells[j] == 0;
        ZerosVanish(|rest|);
        assert rest == Zeros(|rest|);
        assert cells == Zeros(|cells|);
      } else {
        assert cells == [cells[0]] + rest;
      }
    }
  }

  /** A padded row is compact, and padding then dropping zeros is lossless:
      so two padded rows are equal exactly when their tiles are. */
  lemma PadCompact(xs: seq<nat>, n: nat)
    requires |xs| <= n
    requires AllNonZero(xs)
    ensures Compact(Pad(xs, n))
  {
  }

  lemma PadInjective(xs: seq<nat>, ys: seq<nat>, n: nat)
    requires |xs| <= n && |ys| <= n
    requires AllNonZero(xs) && AllNonZero(ys)
    requires Pad(xs, n) == Pad(ys, n)
    ensures xs == ys
  {
    NonZeroPad(xs, n);
    NonZeroPad(ys, n);
  }

  /** A full slide of one row toward index 0: the scan's tiles padded back to
      the row's length, with the scan's reward. */
  function SlideCells(cells: seq<nat>): (r: Outcome)
    ensures |r.tiles| == |cells|
  {
    var s := Finish(Scan(cells, ScanState(0, [], 0)));
    ScanIsPairwise(cells, ScanState(0, [], 0));
    assert Held(0) + NonZero(cells) == NonZero(cells);
    Outcome(Pad(s.tiles, |cells|), s.reward)
  }

  /** A scan started with nothing held emits the reference rule's tiles. */
  lemma ScanFromEmpty(cells: seq<nat>)
    ensures Finish(Scan(cells, ScanState(0, [], 0))) == Pairwise(NonZero(cells))
  {
    var init := ScanState(0, [], 0);
    ScanIsPairwise(cells, init);
    assert Held(0) + NonZero(cells) == NonZero(cells);
    assert init.emitted + Pairwise(NonZero(cells)).tiles == Pairwise(NonZero(cells)).tiles;
  }

  /** The slide of a row is the reference rule on its tiles, padded. */
  lemma SlideCellsIsPairwise(cells: seq<nat>)
    ensures SlideCells(cells).tiles == Pad(Pairwise(NonZero(cells)).tiles, |cells|)
    ensures SlideCells(cells).reward == Pairwise(NonZero(cells)).reward
  {
    ScanFromEmpty(cells);
  }

  /** After a slide the row is compact and holds one tile fewer per merge,
      so never more than before, and as many exactly when nothing merged
      (reward zero). */
  lemma SlideCellsShape(cells: seq<nat>)
    ensures Compact(SlideCells(cells).tiles)
    ensures |NonZero(SlideCells(cells).tiles)| + Merges(NonZero(cells)) == |NonZero(cells)|
    ensures |NonZero(SlideCells(cells).tiles)| <= |NonZero(cells)|
    ensures SlideCells(cells).reward == 0 <==> |NonZero(SlideCells(cells).tiles)| == |NonZero(cells)|
  {
    SlideCellsIsPairwise(cells);
    var p := Pairwise(NonZero(cells));
    PairwiseShape(NonZero(cells));
    PairwiseMergeCount(NonZero(cells));
    PadCompact(p.tiles, |cells|);
    NonZeroPad(p.tiles, |cells|);
  }

  /** A row slide conserves the row's displayed value. */
  lemma SlideCellsConserves(cells: seq<nat>)
    ensures FibSum(SlideCells(cells).tiles) == FibSum(cells)
  {
    SlideCellsIsPairwise(cells);
    var p := Pairwise(NonZero(cells));
    PairwiseShape(NonZero(cells));
    FibSumPad(p.tiles, |cells|);
    PairwiseConserves(NonZero(cells));
    FibSumNonZero(cells);
  }

  /** A row slide leaves the row as it was exactly when the row is already
      compact and no two neighbouring tiles can merge. */
  lemma SlideCellsFixedIff(cells: seq<nat>)
    ensures SlideCells(cells).tiles == cells <==> (Compact(cells) && Stuck(NonZero(cells)))
  {
    SlideCellsIsPairwise(cells);
    var nz := NonZero(cells);
    var p := Pairwise(nz);
    PairwiseShape(nz);
    PairwiseFixedIffStuck(nz);
    if SlideCells(cells).tiles == cells {
      PadCompact(p.tiles, |cells|);
      NonZeroPad(p.tiles, |cells|);
    }
    if Compact(cells) && Stuck(nz) {
      CompactIsPadded(cells);
    }
  }

  /** A row slide raises no rank by more than one. */
  lemma SlideCellsBound(cells: seq<nat>, n: nat)
    requires AllBelow(cells, n)
    ensures AllBelow(SlideCells(cells).tiles, n + 1)
  {
    SlideCellsIsPairwise(cells);
    var p := Pairwise(NonZero(cells));
    NonZeroBelow(cells, n);
    PairwiseBound(NonZero(cells), n);
  }

  /** Visiting one more cell at the end of the row. */
  lemma {:induction false} ScanSnoc(cells: seq<nat>, t: nat, s: ScanState)
    ensures Scan(cells + [t], s) == Visit(Scan(cells, s), t)
  {
    if cells != [] {
      assert (cells + [t])[1..] == cells[1..] + [t];
      ScanSnoc(cells[1..], t, Visit(s, cells[0]));
    } else {
      assert (cells + [t])[1..] == [];
    }
  }

  /** Each visited cell adds at most one tile to "written out + held". */
  lemma {:induction false} ScanGrowth(cells: seq<nat>, s: ScanState)
    ensures var e := Scan(cells, s);
            |e.emitted| + |Held(e.hold)| <= |s.emitted| + |Held(s.hold)| + |cells|
  {
    if cells != [] {
      ScanGrowth(cells[1..], Visit(s, cells[0]));
    }
  }

  /** The slide of one row exactly as board.h performs it in place: each
      non-empty cell is cleared when visited and tiles are written back at
      the `top` index, which never overtakes the visited cell. */
  method SlideRowInPlace(original: seq<nat>) returns (row: seq<nat>, score: nat)
    ensures Outcome(row, score) == SlideCells(original)
  {
    row := original;
    var top := 0;
    var hold := 0;
    score := 0;
    var c := 0;
    ghost var st := ScanState(0, [], 0);
    while c < |row|
      invariant 0 <= c <= |row| == |original|
      invariant st == Scan(original[..c], ScanState(0, [], 0))
      invariant hold == st.hold && score == st.score && top == |st.emitted|
      invariant top + |Held(hold)| <= c
      invariant row[..top] == st.emitted
      invariant forall j :: top <= j < c ==> row[j] == 0
      invariant row[c..] == original[c..]
    {
      var tile := row[c];
      ScanSnoc(original[..c], tile, ScanState(0, [], 0));
      assert original[..c + 1] == original[..c] + [tile];
      ScanGrowth(original[..c + 1], ScanState(0, [], 0));
      if tile != 0 {
        row := row[c := 0];
        if hold != 0 {
          if Mergeable(hold, tile) {
            tile := MergedRank(hold, tile);
            row := row[top := tile];
            top := top + 1;
            score := score + Fibonacci(tile);
            hold := 0;
          } else {
            row := row[top := hold];
            top := top + 1;
            hold := tile;
          }
        } else {
          hold := tile;
        }
      }
      st := Visit(st, original[c]);
      c := c + 1;
    }
    assert original[..c] == original;
    if hold != 0 {
      row := row[top := hold];
    }
    ScanIsPairwise(original, ScanState(0, [], 0));
    assert row == Pad(Finish(st).tiles, |original|);
  }
}
