/**
 The statistic over the episodes of a run.

 It counts the episodes opened, keeps at most `limit` of the most recent
 ones, and after every `block` closed episodes reports totals over the last
 `block` of them: score sum and maximum, move counts and durations. The
 report's console text, its averages and percentages, and the tile
 histogram are not modelled; the totals it prints them from are.
 */
module Statistics {
  import opened Episodes

  datatype Statistic = Statistic(total: nat, block: nat, limit: nat, count: nat, data: seq<Episode>)

  /** A new statistic; a block or limit of 0 stands for the total. */
  function NewStatistic(total: nat, block: nat, limit: nat): (st: Statistic)
    ensures st.total == total && st.count == 0 && st.data == []
    ensures st.block == (if block != 0 then block else total)
    ensures st.limit == (if limit != 0 then limit else total)
  {
    Statistic(total, if block != 0 then block else total, if limit != 0 then limit else total, 0, [])
  }

  /** The run is over once as many episodes were opened as it should run. */
  predicate IsFinished(st: Statistic)
  {
    st.count >= st.total
  }

  /** Open a new episode. Once `limit` episodes were opened, the oldest
      retained one is dropped first; that needs one to be retained. */
  function OpenEpisode(st: Statistic, flag: string, now: int): (r: Statistic)
    requires st.count >= st.limit ==> st.data != []
    ensures r.total == st.total && r.block == st.block && r.limit == st.limit
    ensures r.count == st.count + 1
    ensures r.data == (if st.count >= st.limit then st.data[1..] else st.data) +
                      [Episodes.OpenEpisode(NewEpisode(), flag, now)]
  {
    var kept := if st.count >= st.limit then st.data[1..] else st.data;
    st.(count := st.count + 1, data := kept + [Episodes.OpenEpisode(NewEpisode(), flag, now)])
  }

  /** The retained episodes are the last `min(count, limit)` opened. */
  predicate Retention(st: Statistic)
  {
    |st.data| == (if st.count < st.limit then st.count else st.limit)
  }

  /** A fresh statistic retains nothing. */
  lemma NewRetention(total: nat, block: nat, limit: nat)
    ensures Retention(NewStatistic(total, block, limit))
  {
  }

  /** With room for at least one episode, opening keeps the retention
      window, can always drop the oldest when it must, and keeps every
      retained episode but the dropped one in order. */
  lemma OpenKeepsRetention(st: Statistic, flag: string, now: int)
    requires Retention(st) && st.limit >= 1
    ensures st.count >= st.limit ==> st.data != []
    ensures Retention(OpenEpisode(st, flag, now))
    ensures var r := OpenEpisode(st, flag, now);
            |r.data| > 0 && r.data[..|r.data| - 1] == (if st.count >= st.limit then st.data[1..] else st.data)
  {
    var r := OpenEpisode(st, flag, now);
    var kept := if st.count >= st.limit then st.data[1..] else st.data;
    assert r.data[..|r.data| - 1] == kept;
  }

  /** Opening never undoes being finished. */
  lemma FinishedStays(st: Statistic, flag: string, now: int)
    requires st.count >= st.limit ==> st.data != []
    requires IsFinished(st)
    ensures IsFinished(OpenEpisode(st, flag, now))
  {
  }

  /** Close the newest episode. The report is due when the count is a
      multiple of the block; both the newest episode and a non-zero block
      are needed. */
  function CloseEpisode(st: Statistic, flag: string, now: int): (res: (Statistic, bool))
    requires st.data != [] && st.block != 0
    ensures var r := res.0;
            && r.total == st.total && r.block == st.block && r.limit == st.limit && r.count == st.count
            && |r.data| == |st.data|
            && r.data[..|r.data| - 1] == st.data[..|st.data| - 1]
            && r.data[|r.data| - 1] == Episodes.CloseEpisode(st.data[|st.data| - 1], flag, now)
    ensures res.1 <==> st.count % st.block == 0
  {
    var n := |st.data|;
    var r := st.(data := st.data[..n - 1] + [Episodes.CloseEpisode(st.data[n - 1], flag, now)]);
    assert r.data[..n - 1] == st.data[..n - 1];
    (r, st.count % st.block == 0)
  }

  /** The limit is reached and an episode is kept. Reading records can
      leave more kept episodes than the limit; from then on every opening
      drops one and appends one. */
  predicate Saturated(st: Statistic)
  {
    st.count >= st.limit && st.data != []
  }

  /** A saturated statistic stays saturated when it opens an episode, and
      keeps as many episodes as before, however many that is. */
  lemma SaturatedStays(st: Statistic, flag: string, now: int)
    requires Saturated(st)
    ensures Saturated(OpenEpisode(st, flag, now))
    ensures |OpenEpisode(st, flag, now).data| == |st.data|
  {
  }

  // ---------------------------------------------------------------------
  // The totals of a report

  datatype Totals = Totals(sum: int, max: int, sop: nat, pop: nat, eop: nat, sdu: int, pdu: int, edu: int)

  const NoTotals := Totals(0, 0, 0, 0, 0, 0, 0, 0)

  /** The totals with one more episode counted. */
  function AddEpisode(acc: Totals, ep: Episode): Totals
  {
    Totals(acc.sum + ep.score,
           if ep.score > acc.max then ep.score else acc.max,
           acc.sop + Step(ep, Everyone),
           acc.pop + Step(ep, Slider),
           acc.eop + Step(ep, Placer),
           acc.sdu + (ep.close.when - ep.open.when),
           acc.pdu + TimeSum(ep.moves, Positions(Slider, |ep.moves|)),
           acc.edu + TimeSum(ep.moves, Positions(Placer, |ep.moves|)))
  }

  /** The totals over a list of episodes. */
  function TotalsOf(eps: seq<Episode>): Totals
  {
    if eps == [] then NoTotals else AddEpisode(TotalsOf(eps[1..]), eps[0])
  }

  /** The episodes a report covers: the last `min(|data|, block)`. */
  function Window(st: Statistic): (w: seq<Episode>)
    ensures |w| == (if |st.data| < st.block then |st.data| else st.block)
  {
    var blk := if |st.data| < st.block then |st.data| else st.block;
    st.data[|st.data| - blk..]
  }

  /** Count one more episode, reading its step counts and times. */
  method CountEpisode(t: Totals, ep: Episode) returns (r: Totals)
    ensures r == AddEpisode(t, ep)
  {
    var sdu := TimeOf(ep, Everyone);
    var pdu := TimeOf(ep, Slider);
    var edu := TimeOf(ep, Placer);
    r := Totals(t.sum + ep.score,
                if ep.score > t.max then ep.score else t.max,
                t.sop + Step(ep, Everyone),
                t.pop + Step(ep, Slider),
                t.eop + Step(ep, Placer),
                t.sdu + sdu,
                t.pdu + pdu,
                t.edu + edu);
  }

  /** Walk the window from the newest episode back and add up its totals. */
  method ShowTotals(st: Statistic) returns (t: Totals)
    ensures t == TotalsOf(Window(st))
  {
    var n := |st.data|;
    var blk := if n < st.block then n else st.block;
    t := NoTotals;
    for i := 0 to blk
      invariant t == TotalsOf(st.data[n - i..])
    {
      var ep := st.data[n - 1 - i];
      assert st.data[n - 1 - i..] == [ep] + st.data[n - i..];
      t := CountEpisode(t, ep);
    }
  }

  /** The time of every move of every episode. */
  function MoveTimes(eps: seq<Episode>): int
  {
    if eps == [] then 0 else TimeFrom(eps[0].moves, 0) + MoveTimes(eps[1..])
  }

  /** In any totals the player's and the environment's moves add up to all
      moves, their times to the time of all moves, and the maximum is
      either 0 or one of the scores and no score exceeds it. */
  lemma {:induction false} TotalsFacts(eps: seq<Episode>)
    ensures var t := TotalsOf(eps);
            && t.pop + t.eop == t.sop
            && t.pdu + t.edu == MoveTimes(eps)
            && t.max >= 0
            && (forall k :: 0 <= k < |eps| ==> eps[k].score <= t.max)
            && (t.max == 0 || exists k :: 0 <= k < |eps| && eps[k].score == t.max)
  {
    if eps != [] {
      TotalsFacts(eps[1..]);
      StepsSplitLog(|eps[0].moves|);
      TimesSplitLog(eps[0].moves);
      var rest := TotalsOf(eps[1..]);
      if rest.max != 0 && rest.max >= eps[0].score {
        var k :| 0 <= k < |eps[1..]| && eps[1..][k].score == rest.max;
        assert eps[k + 1].score == rest.max;
      }
      assert forall k :: 1 <= k < |eps| ==> eps[k] == eps[1..][k - 1];
    }
  }

  /** The final summary reports the totals of every retained episode, and
      leaves the statistic, block size included, as it was. */
  function Summary(st: Statistic): (res: (Totals, Statistic))
    ensures res.0 == TotalsOf(st.data)
    ensures res.1 == st
    ensures Window(st.(block := |st.data|)) == st.data
  {
    var w := Window(st.(block := |st.data|));
    assert w == st.data;
    (TotalsOf(w), st)
  }

  // ---------------------------------------------------------------------
  // Reading records

  /** Append episodes read back from text; the count becomes the number of
      stored episodes and the total grows to at least that. */
  function ReadRecords(st: Statistic, records: seq<Episode>): (r: Statistic)
    ensures r.data == st.data + records
    ensures r.count == |r.data|
    ensures r.total == (if st.total > |r.data| then st.total else |r.data|)
    ensures r.block == st.block && r.limit == st.limit
  {
    var data := st.data + records;
    st.(data := data, count := |data|, total := if st.total > |data| then st.total else |data|)
  }

  /** After reading, the retention window holds exactly when no more
      episodes are kept than the limit; with at least the limit kept, the
      statistic is saturated, so opening keeps that number from then on. */
  lemma ReadRetention(st: Statistic, records: seq<Episode>)
    ensures Retention(ReadRecords(st, records)) <==> |st.data| + |records| <= st.limit
    ensures |st.data| + |records| >= st.limit && |st.data| + |records| > 0 ==> Saturated(ReadRecords(st, records))
  {
  }

  /** After reading, the run is finished exactly when the stored episodes
      reach the old total. */
  lemma ReadFinished(st: Statistic, records: seq<Episode>)
    ensures IsFinished(ReadRecords(st, records)) <==> |st.data| + |records| >= st.total
  {
  }
}
