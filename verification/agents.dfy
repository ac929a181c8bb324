/**
 The two scripted agents.

 The random environment puts a new tile on the first empty cell of its
 shuffled cell order, and the dummy player makes the first legal slide of
 its shuffled direction order. The shuffles and the coin flip are not
 modelled: their outcomes are parameters.
 */
module Agents {
  import opened Board
  import opened Slides
  import opened Actions
  import Config

  /** The index of the first `true` in `flags`, or `|flags|` when there is none. */
  function FirstTrue(flags: seq<bool>): (k: nat)
    ensures k <= |flags|
    ensures forall j :: 0 <= j < k ==> !flags[j]
    ensures k < |flags| ==> flags[k]
    decreases |flags|
  {
    if flags == [] then 0 else if flags[0] then 0 else 1 + FirstTrue(flags[1..])
  }

  /** The rank of the new tile: 1 for a non-zero draw from 0..9, else 2. */
  function NewTile(popup: nat): (tile: nat)
    requires popup < 10
    ensures tile == 1 || tile == 2
    ensures tile == 2 <==> popup == 0
  {
    if popup != 0 then 1 else 2
  }

  /** Which cells of the order are empty. */
  function Empties(after: Board, space: seq<Pos>): (flags: seq<bool>)
    ensures |flags| == |space|
    ensures forall k :: 0 <= k < |space| ==> (flags[k] <==> Cell(after, space[k]) == 0)
  {
    seq(|space|, k requires 0 <= k < |space| => Cell(after, space[k]) == 0)
  }

  /** Put a new tile on the first empty cell in the order `space`, or
      return the empty action when every cell of `space` is occupied. */
  method EnvironmentAction(after: Board, space: seq<Pos>, popup: nat) returns (a: Action)
    requires popup < 10
    ensures var k := FirstTrue(Empties(after, space));
            if k < |space| then a == PlaceAction(space[k], NewTile(popup)) else a == NoAction
  {
    var k := FirstIndex(Empties(after, space));
    if k < |space| {
      a := PlaceAction(space[k], NewTile(popup));
    } else {
      a := NoAction;
    }
  }

  /** The placement the environment picks from its order lands on a cell
      that was empty, is always accepted, earns 0, and changes nothing but
      that cell. */
  lemma PlacementAccepted(after: Board, space: seq<Pos>, popup: nat)
    requires popup < 10
    ensures var k := FirstTrue(Empties(after, space));
            k < |space| ==>
              var t := Perform(PlaceAction(space[k], NewTile(popup)), after);
              && Cell(after, space[k]) == 0
              && t.reward == 0
              && Cell(t.board, space[k]) == NewTile(popup)
              && forall i: Pos :: i != space[k] ==> Cell(t.board, i) == Cell(after, i)
  {
  }

  /** The first `true` is at `k` when all flags before `k` are false and
      the one at `k` is true, or `k` is the end. */
  lemma {:induction false} FirstTrueAt(flags: seq<bool>, k: nat)
    requires k <= |flags|
    requires forall j :: 0 <= j < k ==> !flags[j]
    requires k < |flags| ==> flags[k]
    ensures FirstTrue(flags) == k
    decreases k
  {
    if k > 0 {
      FirstTrueAt(flags[1..], k - 1);
    }
  }

  /** Scan the flags in order and stop at the first `true`. */
  method FirstIndex(flags: seq<bool>) returns (k: nat)
    ensures k == FirstTrue(flags)
  {
    k := 0;
    while k < |flags| && !flags[k]
      invariant k <= |flags|
      invariant forall j :: 0 <= j < k ==> !flags[j]
    {
      k := k + 1;
    }
    FirstTrueAt(flags, k);
  }

  /** Every cell appears in the order. */
  predicate CoversCells(space: seq<Pos>)
  {
    forall i: Pos :: i in space
  }

  /** When the order holds every cell, the environment passes exactly on a
      full board. */
  lemma EnvironmentPassesOnFull(after: Board, space: seq<Pos>)
    requires CoversCells(space)
    ensures FirstTrue(Empties(after, space)) == |space| <==> forall i: Pos :: Cell(after, i) != 0
  {
    var flags := Empties(after, space);
    if FirstTrue(flags) == |space| {
      forall i: Pos
        ensures Cell(after, i) != 0
      {
        assert i in space;
        var k :| 0 <= k < |space| && space[k] == i;
        assert !flags[k];
      }
    }
  }

  /** Which directions of the order are legal slides. */
  function Legals(before: Board, order: seq<Line>): (flags: seq<bool>)
    ensures |flags| == |order|
    ensures forall k :: 0 <= k < |order| ==> (flags[k] <==> Legal(before, order[k]))
  {
    seq(|order|, k requires 0 <= k < |order| => Legal(before, order[k]))
  }

  /** Make the first legal slide in the order `order`, or return the empty
      action when none of them is legal. */
  method DummyAction(before: Board, order: seq<Line>) returns (a: Action)
    ensures var k := FirstTrue(Legals(before, order));
            if k < |order| then a == SlideAction(order[k]) else a == NoAction
  {
    var k := FirstIndex(Legals(before, order));
    if k < |order| {
      a := SlideAction(order[k]);
    } else {
      a := NoAction;
    }
  }

  /** The slide the dummy player makes is always accepted. */
  lemma DummySlideAccepted(before: Board, op: Line)
    requires Legal(before, op)
    ensures Perform(SlideAction(op), before).reward >= 0
    ensures Perform(SlideAction(op), before).board != before
  {
    SlideInAgrees(before, op);
    SlideLegality(before, op);
  }

  /** Every direction appears in the order. */
  predicate CoversDirections(order: seq<Line>)
  {
    forall d: Line :: d in order
  }

  /** When the order holds every direction, the dummy player passes exactly
      when no slide is legal. */
  lemma DummyPassesWhenStuck(before: Board, order: seq<Line>)
    requires CoversDirections(order)
    ensures FirstTrue(Legals(before, order)) == |order| <==> forall d: Line :: !Legal(before, d)
  {
    var flags := Legals(before, order);
    if FirstTrue(flags) == |order| {
      forall d: Line
        ensures !Legal(before, d)
      {
        assert d in order;
        var k :| 0 <= k < |order| && order[k] == d;
        assert !flags[k];
      }
    }
  }

  /** The environment is `random` in role `environment` unless its
      arguments say otherwise. */
  lemma EnvironmentDefaults(args: string)
    ensures var env := Config.Parse(Config.EnvironmentDefaults + args);
            && "name" in env && "role" in env
            && (!Config.HasKey(Config.Tokens(args), "name") ==> env["name"] == "random")
            && (!Config.HasKey(Config.Tokens(args), "role") ==> env["role"] == "environment")
  {
    Config.DefaultWords();
    Config.RoleNameAndRole("random", "environment", args);
  }

  /** The dummy player is `dummy` in role `player` unless its arguments say
      otherwise. */
  lemma DummyDefaults(args: string)
    ensures var dummy := Config.Parse(Config.PlayerDefaults + args);
            && "name" in dummy && "role" in dummy
            && (!Config.HasKey(Config.Tokens(args), "name") ==> dummy["name"] == "dummy")
            && (!Config.HasKey(Config.Tokens(args), "role") ==> dummy["role"] == "player")
  {
    Config.DefaultWords();
    Config.RoleNameAndRole("dummy", "player", args);
  }
}
