/**
 The record of one game.

 An episode holds the current board, the score, the log of accepted moves
 with the time each took, and the tags and times at which it was opened and
 closed. The first two moves belong to the environment; after that the
 player and the environment alternate, so the environment owns log
 positions 0, 1, 3, 5, ... and the player positions 2, 4, 6, ....

 The clock is not modelled: every operation that reads it takes the current
 time `now` as a parameter.
 */
module Episodes {
  import opened Board
  import opened Actions
  import Config
  import opened Options

  /** A tag and a time in milliseconds. */
  datatype Meta = Meta(tag: string, when: int)

  /** An accepted action, its reward and how long it took. */
  datatype Move = Move(code: Action, reward: int, time: int)

  datatype Episode = Episode(state: Board, score: int, moves: seq<Move>, epTime: int, open: Meta, close: Meta)

  /** Whose moves a query is about: the sliding player's, the placing
      environment's, or every move. */
  datatype Who = Slider | Placer | Everyone

  /** Which of the two agents moves next. */
  datatype Turn = Play | Evil

  /** A fresh episode: an empty board, no moves, score 0, and both metas `N/A@0`. */
  function NewEpisode(): (ep: Episode)
    ensures ep.state == Empty && ep.score == 0 && ep.moves == [] && ep.epTime == 0
    ensures ep.open == Meta("N/A", 0) && ep.close == Meta("N/A", 0)
  {
    Episode(Empty, 0, [], 0, Meta("N/A", 0), Meta("N/A", 0))
  }

  /** Opening records the tag and the time; the board, the score, the log
      and the hand-out time carry over, so does the closing meta. */
  function OpenEpisode(ep: Episode, tag: string, now: int): (e: Episode)
    ensures e.open.tag == tag && e.open.when == now && e.close == ep.close
    ensures e.state == ep.state && e.score == ep.score && e.moves == ep.moves && e.epTime == ep.epTime
  {
    ep.(open := Meta(tag, now))
  }

  /** Closing records the tag and the time; everything else carries over. */
  function CloseEpisode(ep: Episode, tag: string, now: int): (e: Episode)
    ensures e.close.tag == tag && e.close.when == now && e.open == ep.open
    ensures e.state == ep.state && e.score == ep.score && e.moves == ep.moves && e.epTime == ep.epTime
  {
    ep.(close := Meta(tag, now))
  }

  // ---------------------------------------------------------------------
  // Applying actions

  /** The sum of the rewards in a log. */
  function RewardSum(moves: seq<Move>): int
  {
    if moves == [] then 0 else RewardSum(moves[..|moves| - 1]) + moves[|moves| - 1].reward
  }

  /** Apply an action to the board. A rejected action (reward -1) is
      reported and changes nothing; an accepted one is logged with the time
      since the turn was handed out, and its reward is added to the score. */
  function ApplyAction(ep: Episode, a: Action, now: int): (res: (bool, Episode))
    ensures var t := Perform(a, ep.state);
            && (res.0 <==> t.reward != -1)
            && res.1.state == t.board
            && (!res.0 ==> res.1 == ep)
            && (res.0 ==> res.1 == ep.(state := t.board, score := ep.score + t.reward,
                                        moves := ep.moves + [Move(a, t.reward, now - ep.epTime)]))
  {
    var t := Perform(a, ep.state);
    if t.reward == -1 then (false, ep)
    else (true, ep.(state := t.board, score := ep.score + t.reward,
                    moves := ep.moves + [Move(a, t.reward, now - ep.epTime)]))
  }

  /** Applying actions keeps the score equal to the sum of the logged
      rewards, and an accepted action never lowers it. */
  lemma ApplyKeepsScore(ep: Episode, a: Action, now: int)
    requires ep.score == RewardSum(ep.moves)
    ensures var e := ApplyAction(ep, a, now).1;
            e.score == RewardSum(e.moves) && e.score >= ep.score
  {
    var e := ApplyAction(ep, a, now).1;
    if ApplyAction(ep, a, now).0 {
      assert e.moves[..|e.moves| - 1] == ep.moves;
    }
  }

  /** The actions of a game applied in order, each with the time at which
      it is applied; a rejected one changes nothing. */
  function PlayAll(ep: Episode, steps: seq<(Action, int)>): Episode
    decreases |steps|
  {
    if steps == [] then ep else PlayAll(ApplyAction(ep, steps[0].0, steps[0].1).1, steps[1..])
  }

  /** Playing keeps the score equal to the sum of the logged rewards, never
      lowers it, never drops a logged move, and leaves both metas alone. */
  lemma {:induction false} PlayKeepsScore(ep: Episode, steps: seq<(Action, int)>)
    requires ep.score == RewardSum(ep.moves)
    ensures var e := PlayAll(ep, steps);
            && e.score == RewardSum(e.moves) && e.score >= ep.score
            && |e.moves| >= |ep.moves| && e.moves[..|ep.moves|] == ep.moves
            && e.open == ep.open && e.close == ep.close
    decreases |steps|
  {
    if steps != [] {
      var next := ApplyAction(ep, steps[0].0, steps[0].1).1;
      ApplyKeepsScore(ep, steps[0].0, steps[0].1);
      PlayKeepsScore(next, steps[1..]);
      var e := PlayAll(next, steps[1..]);
      assert e.moves[..|ep.moves|] == e.moves[..|next.moves|][..|ep.moves|];
    }
  }

  /** A whole episode: created, opened with a tag at `t1`, played, and
      closed with a tag at `t2`. Its score is the sum of its logged rewards
      and never negative, and it carries both tags and times.
      The first turn of the opened episode is the environment's. */
  lemma EpisodeLifecycle(openTag: string, t1: int, steps: seq<(Action, int)>, closeTag: string, t2: int)
    ensures TakeTurns(OpenEpisode(NewEpisode(), openTag, t1), t1).0 == Evil
    ensures var e := CloseEpisode(PlayAll(OpenEpisode(NewEpisode(), openTag, t1), steps), closeTag, t2);
            && e.score == RewardSum(e.moves) && e.score >= 0
            && e.open == Meta(openTag, t1) && e.close == Meta(closeTag, t2)
  {
    var e0 := OpenEpisode(NewEpisode(), openTag, t1);
    PlayKeepsScore(e0, steps);
  }

  // ---------------------------------------------------------------------
  // Turns and step counts

  /** The turn at a log of `size` moves: the environment for the first two
      moves, then the player on even sizes and the environment on odd ones. */
  function TurnAt(size: nat): Turn
  {
    var m := if size + 1 > 2 then size + 1 else 2;
    if m % 2 != 0 then Play else Evil
  }

  /** Hand out the turn; the time of the hand-out is remembered so that the
      next accepted move can be timed. */
  function TakeTurns(ep: Episode, now: int): (res: (Turn, Episode))
    ensures res.1 == ep.(epTime := now)
    ensures res.0 == Play <==> |ep.moves| >= 2 && |ep.moves| % 2 == 0
  {
    (TurnAt(|ep.moves|), ep.(epTime := now))
  }

  /** The same hand-out with the two agents exchanged. */
  function LastTurns(ep: Episode, now: int): (res: (Turn, Episode))
    ensures res.1 == ep.(epTime := now)
    ensures res.0 == Evil <==> TakeTurns(ep, now).0 == Play
  {
    var (t, e) := TakeTurns(ep, now);
    (if t == Play then Evil else Play, e)
  }

  /** C++ integer division by 2: the quotient truncated toward zero. */
  function TruncHalf(x: int): (q: int)
    ensures x >= 0 ==> 2 * q <= x < 2 * q + 2
    ensures x < 0 ==> 2 * q - 2 < x <= 2 * q
  {
    if x >= 0 then x / 2 else -((-x) / 2)
  }

  /** The number of moves of one party among `size` logged moves. At size 0
      the truncated division makes the player's count 0, not -1. */
  function StepCount(size: nat, who: Who): (n: nat)
  {
    match who
    case Slider => TruncHalf(size - 1)
    case Placer => size - TruncHalf(size - 1)
    case Everyone => size
  }

  function Step(ep: Episode, who: Who): nat
  {
    StepCount(|ep.moves|, who)
  }

  /** The two parties' counts add up to the whole log; the environment is
      never behind the player and at most two ahead. */
  lemma StepsSplitLog(size: nat)
    ensures StepCount(size, Slider) + StepCount(size, Placer) == size
    ensures StepCount(size, Slider) <= StepCount(size, Placer) <= StepCount(size, Slider) + 2
    ensures size == 0 ==> StepCount(size, Slider) == 0 && StepCount(size, Placer) == 0
  {
  }

  // ---------------------------------------------------------------------
  // Selecting one party's moves

  /** The positions from `i` to below `n` in steps of two. */
  function Stride(i: nat, n: nat): (ix: seq<nat>)
    ensures forall j :: 0 <= j < |ix| ==> ix[j] < n
    decreases n - i
  {
    if i >= n then [] else [i] + Stride(i + 2, n)
  }

  /** The log positions a query selects, in the order the source visits them. */
  function Positions(who: Who, n: nat): (ix: seq<nat>)
    ensures forall j :: 0 <= j < |ix| ==> ix[j] < n
  {
    match who
    case Slider => Stride(2, n)
    case Placer => if n > 0 then [0] + Stride(1, n) else []
    case Everyone => seq(n, j requires 0 <= j < n => j)
  }

  lemma {:induction false} StrideMembers(i: nat, n: nat, k: nat)
    ensures k in Stride(i, n) <==> i <= k < n && (k - i) % 2 == 0
    decreases n - i
  {
    if i < n {
      StrideMembers(i + 2, n, k);
    }
  }

  lemma {:induction false} StrideLength(i: nat, n: nat)
    ensures |Stride(i, n)| == if i >= n then 0 else (n - i + 1) / 2
    decreases n - i
  {
    if i < n {
      StrideLength(i + 2, n);
    }
  }

  lemma {:induction false} StrideIncreasing(i: nat, n: nat)
    ensures forall j :: 0 <= j < |Stride(i, n)| ==> Stride(i, n)[j] >= i
    ensures forall j, k :: 0 <= j < k < |Stride(i, n)| ==> Stride(i, n)[j] < Stride(i, n)[k]
    decreases n - i
  {
    if i < n {
      StrideIncreasing(i + 2, n);
    }
  }

  /** The player's positions are 2, 4, 6, ...; the environment's are 0 and
      the odd ones; so every logged move belongs to exactly one of them, and
      to the one that held the turn when it was made. */
  lemma PositionsPartition(n: nat, k: nat)
    ensures k in Positions(Slider, n) <==> k < n && k >= 2 && k % 2 == 0
    ensures k in Positions(Placer, n) <==> k < n && (k == 0 || k % 2 == 1)
    ensures k in Positions(Everyone, n) <==> k < n
    ensures k < n ==> (k in Positions(Slider, n) <==> k !in Positions(Placer, n))
    ensures k < n ==> (k in Positions(Slider, n) <==> TurnAt(k) == Play)
  {
    StrideMembers(2, n, k);
    StrideMembers(1, n, k);
    if k < n {
      assert Positions(Everyone, n)[k] == k;
    }
  }

  /** Each party's positions are as many as its step count, in increasing order. */
  lemma PositionsCount(n: nat, who: Who)
    ensures |Positions(who, n)| == StepCount(n, who)
    ensures forall j, k :: 0 <= j < k < |Positions(who, n)| ==> Positions(who, n)[j] < Positions(who, n)[k]
  {
    StrideLength(2, n);
    StrideLength(1, n);
    StrideIncreasing(2, n);
    StrideIncreasing(1, n);
  }

  /** The actions at the given log positions. */
  function Codes(moves: seq<Move>, ix: seq<nat>): (cs: seq<Action>)
    requires forall j :: 0 <= j < |ix| ==> ix[j] < |moves|
  {
    seq(|ix|, j requires 0 <= j < |ix| => moves[ix[j]].code)
  }

  /** The sum of the times at the given log positions. */
  function TimeSum(moves: seq<Move>, ix: seq<nat>): int
    requires forall j :: 0 <= j < |ix| ==> ix[j] < |moves|
  {
    if ix == [] then 0 else moves[ix[0]].time + TimeSum(moves, ix[1..])
  }

  /** The actions of one party, or all of them. */
  method ActionsOf(ep: Episode, who: Who) returns (res: seq<Action>)
    ensures res == Codes(ep.moves, Positions(who, |ep.moves|))
  {
    var moves := ep.moves;
    var n := |moves|;
    if who == Everyone {
      return seq(n, j requires 0 <= j < n => moves[j].code);
    }
    res := [];
    var i := 2;
    if who == Placer && n > 0 {
      res := [moves[0].code];
      i := 1;
    }
    res := AppendStride(moves, res, i);
    if who == Placer && n > 0 {
      CodesCons(moves, 0, Stride(1, n));
    }
  }

  /** Append the actions at every other position from `i` on. */
  method AppendStride(moves: seq<Move>, init: seq<Action>, i: nat) returns (res: seq<Action>)
    ensures res == init + Codes(moves, Stride(i, |moves|))
  {
    var n := |moves|;
    res := init;
    ghost var done: seq<nat> := [];
    var k := i;
    while k < n
      invariant k >= i
      invariant done + Stride(k, n) == Stride(i, n)
      invariant forall j :: 0 <= j < |done| ==> done[j] < n
      invariant res == init + Codes(moves, done)
      decreases n - k
    {
      assert done + Stride(k, n) == (done + [k]) + Stride(k + 2, n);
      res := res + [moves[k].code];
      done := done + [k];
      k := k + 2;
    }
    assert Stride(k, n) == [];
    assert done == Stride(i, n);
  }

  lemma CodesCons(moves: seq<Move>, p: nat, ix: seq<nat>)
    requires p < |moves| && forall j :: 0 <= j < |ix| ==> ix[j] < |moves|
    ensures Codes(moves, [p] + ix) == [moves[p].code] + Codes(moves, ix)
  {
  }

  /** The time spent by one party, or between opening and closing. */
  method TimeOf(ep: Episode, who: Who) returns (time: int)
    ensures who != Everyone ==> time == TimeSum(ep.moves, Positions(who, |ep.moves|))
    ensures who == Everyone ==> time == ep.close.when - ep.open.when
  {
    if who == Everyone {
      return ep.close.when - ep.open.when;
    }
    var moves := ep.moves;
    var n := |moves|;
    time := 0;
    var i := 2;
    if who == Placer && n > 0 {
      time := moves[0].time;
      i := 1;
    }
    while i < n
      invariant i >= 1 && (i == 1 ==> who == Placer && n > 0)
      invariant time + TimeSum(moves, Stride(i, n)) == TimeSum(moves, Positions(who, n))
      decreases n - i
    {
      time := time + moves[i].time;
      i := i + 2;
    }
  }

  /** The total time of the moves from position `i` on. */
  function TimeFrom(moves: seq<Move>, i: nat): int
    decreases |moves| - i
  {
    if i >= |moves| then 0 else moves[i].time + TimeFrom(moves, i + 1)
  }

  lemma {:induction false} StridesCoverTime(moves: seq<Move>, i: nat)
    ensures TimeSum(moves, Stride(i, |moves|)) + TimeSum(moves, Stride(i + 1, |moves|)) == TimeFrom(moves, i)
    decreases |moves| - i
  {
    if i < |moves| {
      StridesCoverTime(moves, i + 1);
      assert Stride(i, |moves|)[1..] == Stride(i + 2, |moves|);
    }
  }

  /** The player's time and the environment's time add up to the time of
      all moves. */
  lemma TimesSplitLog(moves: seq<Move>)
    ensures TimeSum(moves, Positions(Slider, |moves|)) + TimeSum(moves, Positions(Placer, |moves|)) == TimeFrom(moves, 0)
  {
    var n := |moves|;
    StridesCoverTime(moves, 1);
    if n > 0 {
      assert ([0] + Stride(1, n))[1..] == Stride(1, n);
    }
  }

  // ---------------------------------------------------------------------
  // Text of a move's reward and time, and of a meta

  predicate IsDigit(c: char)
  {
    '0' <= c <= '9'
  }

  predicate AllDigits(s: string)
  {
    forall j :: 0 <= j < |s| ==> IsDigit(s[j])
  }

  function DigitChar(d: nat): (c: char)
    requires d < 10
    ensures IsDigit(c) && c as int - '0' as int == d
  {
    ('0' as int + d) as char
  }

  /** Decimal digits of `n`, most significant first, without leading zeros. */
  function ShowNat(n: nat): (s: string)
    ensures |s| > 0 && AllDigits(s)
  {
    if n < 10 then [DigitChar(n)] else ShowNat(n / 10) + [DigitChar(n % 10)]
  }

  /** Decimal text of an integer, with a leading `-` when negative. */
  function ShowInt(i: int): string
  {
    if i < 0 then "-" + ShowNat(-i) else ShowNat(i)
  }

  /** The number a run of digits spells. */
  function DigitsValue(ds: string): nat
    requires AllDigits(ds)
  {
    if ds == [] then 0 else DigitsValue(ds[..|ds| - 1]) * 10 + (ds[|ds| - 1] as int - '0' as int)
  }

  /** Length of the leading run of digits. */
  function DigitRun(s: string): (k: nat)
    ensures k <= |s| && AllDigits(s[..k])
    ensures k < |s| ==> !IsDigit(s[k])
  {
    if s != [] && IsDigit(s[0]) then 1 + DigitRun(s[1..]) else 0
  }

  /** Leading whitespace dropped, as a formatted read does. */
  function SkipSpace(s: string): (t: string)
    ensures |t| <= |s| && (t != [] ==> !Config.IsSpace(t[0]))
  {
    if s != [] && Config.IsSpace(s[0]) then SkipSpace(s[1..]) else s
  }

  /** Read a decimal integer: skip whitespace, take an optional sign, then
      at least one digit; the read fails without a digit. */
  function ReadInt(s: string): Option<(int, string)>
  {
    var t := SkipSpace(s);
    var negative := t != [] && t[0] == '-';
    var u := if t != [] && (t[0] == '-' || t[0] == '+') then t[1..] else t;
    var k := DigitRun(u);
    if k == 0 then None
    else
      var v: int := DigitsValue(u[..k]);
      Some((if negative then -v else v, u[k..]))
  }

  /** Drop one character, if there is one. */
  function Ignore(s: string): string
  {
    if s == [] then s else s[1..]
  }

  /** A number between `open` and `close`, or nothing when it is 0. */
  function Enclosed(v: int, open: char, close: char): string
  {
    if v != 0 then [open] + ShowInt(v) + [close] else ""
  }

  /** The text written after a move's action: its reward in brackets unless
      it is 0, then its time in parentheses unless it is 0. */
  function Suffix(reward: int, time: int): string
  {
    Enclosed(reward, '[', ']') + Enclosed(time, '(', ')')
  }

  /** An optional number between `open` and one more character. Absent
      means 0; a malformed number fails. */
  function ReadEnclosed(s: string, open: char): Option<(int, string)>
  {
    if s != [] && s[0] == open then
      match ReadInt(s[1..])
      case None => None
      case Some((v, rest)) => Some((v, Ignore(rest)))
    else Some((0, s))
  }

  /** Read the reward and time after a move's action. */
  function ParseSuffix(s: string): Option<(int, int, string)>
  {
    match ReadEnclosed(s, '[')
    case None => None
    case Some((reward, rest)) =>
      match ReadEnclosed(rest, '(')
      case None => None
      case Some((time, rest2)) => Some((reward, time, rest2))
  }

  lemma {:induction false} DigitRunOfDigits(ds: string, rest: string)
    requires AllDigits(ds) && (rest == [] || !IsDigit(rest[0]))
    ensures DigitRun(ds + rest) == |ds|
    decreases |ds|
  {
    if ds != [] {
      assert (ds + rest)[1..] == ds[1..] + rest;
      DigitRunOfDigits(ds[1..], rest);
    } else {
      assert ds + rest == rest;
    }
  }

  lemma {:induction false} ShowNatValue(n: nat)
    ensures DigitsValue(ShowNat(n)) == n
  {
    if n >= 10 {
      var s := ShowNat(n);
      assert s[..|s| - 1] == ShowNat(n / 10);
      ShowNatValue(n / 10);
    }
  }

  /** Reading back a written integer gives the integer and the rest of the
      text, when the rest does not continue the digits. */
  lemma ReadShowInt(i: int, rest: string)
    requires rest == [] || !IsDigit(rest[0])
    ensures ReadInt(ShowInt(i) + rest) == Some((i, rest))
  {
    var n: nat := if i < 0 then -i else i;
    var ds := ShowNat(n);
    DigitRunOfDigits(ds, rest);
    ShowNatValue(n);
    assert (ds + rest)[..|ds|] == ds;
    assert (ds + rest)[|ds|..] == rest;
    assert !Config.IsSpace(ds[0]);
    if i < 0 {
      assert ("-" + ds + rest)[1..] == ds + rest;
      assert SkipSpace("-" + ds + rest) == "-" + ds + rest;
    } else {
      assert (ds + rest)[0] == ds[0];
      assert SkipSpace(ds + rest) == ds + rest;
    }
  }

  lemma ReadEnclosedShow(v: int, open: char, close: char, rest: string)
    requires !IsDigit(close)
    ensures ReadEnclosed([open] + ShowInt(v) + [close] + rest, open) == Some((v, rest))
  {
    var s := [open] + ShowInt(v) + [close] + rest;
    assert s[1..] == ShowInt(v) + ([close] + rest);
    ReadShowInt(v, [close] + rest);
    assert ([close] + rest)[1..] == rest;
  }

  /** An enclosed number reads back as itself, and an absent one as 0,
      when the text after it does not start with the opening character. */
  lemma EnclosedRoundTrip(v: int, open: char, close: char, rest: string)
    requires !IsDigit(close)
    requires rest == [] || rest[0] != open
    ensures ReadEnclosed(Enclosed(v, open, close) + rest, open) == Some((v, rest))
  {
    if v != 0 {
      ReadEnclosedShow(v, open, close, rest);
    } else {
      assert Enclosed(v, open, close) + rest == rest;
    }
  }

  /** Text after an enclosed number starts with the opening character,
      or is the text after it when the number is absent. */
  lemma EnclosedStart(v: int, open: char, close: char, rest: string)
    ensures var s := Enclosed(v, open, close) + rest;
            if v != 0 then s != [] && s[0] == open else s == rest
  {
    if v == 0 {
      assert Enclosed(v, open, close) + rest == rest;
    }
  }

  /** The suffix reads as its two enclosed parts in turn. */
  lemma ParseSuffixSteps(s: string, reward: int, mid: string, time: int, rest: string)
    requires ReadEnclosed(s, '[') == Some((reward, mid))
    requires ReadEnclosed(mid, '(') == Some((time, rest))
    ensures ParseSuffix(s) == Some((reward, time, rest))
  {
  }

  lemma SuffixConcat(reward: int, time: int, rest: string)
    ensures Suffix(reward, time) + rest == Enclosed(reward, '[', ']') + (Enclosed(time, '(', ')') + rest)
  {
  }

  /** Reading back the written reward and time restores both, 0 standing
      for an absent part, provided the text after them does not start with
      a bracket or a parenthesis. */
  lemma SuffixRoundTrip(reward: int, time: int, rest: string)
    requires rest == [] || (rest[0] != '[' && rest[0] != '(')
    ensures ParseSuffix(Suffix(reward, time) + rest) == Some((reward, time, rest))
  {
    var t := Enclosed(time, '(', ')');
    var mid := t + rest;
    EnclosedRoundTrip(time, '(', ')', rest);
    EnclosedStart(time, '(', ')', rest);
    EnclosedRoundTrip(reward, '[', ']', mid);
    SuffixConcat(reward, time, rest);
    ParseSuffixSteps(Suffix(reward, time) + rest, reward, mid, time, rest);
  }

  /** The text of a meta: its tag, `@`, and its time. */
  function FormatMeta(m: Meta): string
  {
    m.tag + "@" + ShowInt(m.when)
  }

  /** Read a meta: the tag runs to the first `@`, then a time follows. */
  function ParseMeta(s: string): Option<(Meta, string)>
  {
    var k := AtIndex(s);
    if k == |s| then None
    else
      match ReadInt(s[k + 1..])
      case None => None
      case Some((when, rest)) => Some((Meta(s[..k], when), rest))
  }

  /** Position of the first `@`, or the length when there is none. */
  function AtIndex(s: string): (k: nat)
    ensures k <= |s| && '@' !in s[..k]
    ensures k < |s| ==> s[k] == '@'
  {
    if s == [] then 0 else if s[0] == '@' then 0 else 1 + AtIndex(s[1..])
  }

  lemma {:induction false} AtIndexAfterTag(tag: string, rest: string)
    requires '@' !in tag
    ensures AtIndex(tag + "@" + rest) == |tag|
    decreases |tag|
  {
    if tag != [] {
      assert (tag + "@" + rest)[1..] == tag[1..] + "@" + rest;
      AtIndexAfterTag(tag[1..], rest);
    } else {
      assert tag + "@" + rest == "@" + rest;
    }
  }

  /** A meta whose tag has no `@` reads back as itself. */
  lemma MetaRoundTrip(m: Meta, rest: string)
    requires '@' !in m.tag
    requires rest == [] || !IsDigit(rest[0])
    ensures ParseMeta(FormatMeta(m) + rest) == Some((m, rest))
  {
    var s := FormatMeta(m) + rest;
    AtIndexAfterTag(m.tag, ShowInt(m.when) + rest);
    assert s == m.tag + "@" + (ShowInt(m.when) + rest);
    assert s[..|m.tag|] == m.tag;
    assert s[|m.tag| + 1..] == ShowInt(m.when) + rest;
    ReadShowInt(m.when, rest);
  }
}
