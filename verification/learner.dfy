/**
 The learning player.

 The player keeps the 24 weight tables, a learning rate and the history of
 the episode: one (reward, after-state) step per move it made. It moves
 greedily on reward plus estimated value of the after-state, and when the
 episode closes it replays the history backwards, moving each after-state's
 estimate toward the next step's reward plus the next after-state's
 (already updated) estimate, and the last one toward 0.
 */
module Learner {
  import opened Board
  import opened Slides
  import opened Features
  import opened Network
  import opened Symmetry
  import opened Invariance
  import opened Actions
  import Config

  /** One move of the player: its reward and the board right after it. */
  datatype Step = Step(reward: int, after: Board)

  datatype Player = Player(meta: Config.Meta, net: Net, alpha: real, history: seq<Step>)

  /** Build a player from its argument string. The tables are allocated when
      an `init` key is present and are empty otherwise; the learning rate is
      the numeric reading `stod` of the `alpha` value, and 0 without one. */
  function NewPlayer(args: string, stod: string -> real): (p: Player)
    ensures p.meta == Config.Parse(Config.PlayerDefaults + args)
    ensures "init" in p.meta ==> p.net == InitWeights()
    ensures "init" !in p.meta ==> p.net == []
    ensures "alpha" !in p.meta ==> p.alpha == 0.0
    ensures "alpha" in p.meta ==> p.alpha == stod(p.meta["alpha"])
    ensures p.history == []
  {
    var meta := Config.Parse(Config.PlayerDefaults + args);
    Player(meta,
           if "init" in meta then InitWeights() else [],
           if "alpha" in meta then stod(meta["alpha"]) else 0.0,
           [])
  }

  // ---------------------------------------------------------------------
  // Choosing a move

  /** The tables are allocated and every after-state of `before` can be looked up. */
  predicate Evaluable(net: Net, before: Board)
  {
    WellFormed(net) && forall op :: 0 <= op < 4 ==> Bounded(SlideIn(before, op).board, Radix)
  }

  /** Reward plus estimated value of the after-state of `op`. */
  function Worth(net: Net, before: Board, op: Line): real
    requires Evaluable(net, before)
  {
    var t := SlideIn(before, op);
    t.reward as real + Estimate(net, t.board)
  }

  /** `op` is legal, worth at least every legal op, and worth strictly more
      than every legal op before it. */
  predicate Chosen(net: Net, before: Board, op: int)
    requires Evaluable(net, before)
  {
    && 0 <= op < 4 && Legal(before, op)
    && (forall o :: 0 <= o < 4 && Legal(before, o) ==> Worth(net, before, o) <= Worth(net, before, op))
    && (forall o :: 0 <= o < op && Legal(before, o) ==> Worth(net, before, o) < Worth(net, before, op))
  }

  /** Scan the candidates in order and keep the first strictly best legal
      one; -1 when none is legal. */
  method PickBest(legal: seq<bool>, worth: seq<real>) returns (best: int)
    requires |legal| == |worth|
    ensures -1 <= best < |legal|
    ensures best == -1 <==> forall o :: 0 <= o < |legal| ==> !legal[o]
    ensures best != -1 ==> legal[best]
    ensures best != -1 ==> forall o :: 0 <= o < |legal| && legal[o] ==> worth[o] <= worth[best]
    ensures best != -1 ==> forall o :: 0 <= o < best && legal[o] ==> worth[o] < worth[best]
  {
    best := -1;
    for op := 0 to |legal|
      invariant -1 <= best < op
      invariant best == -1 <==> forall o :: 0 <= o < op ==> !legal[o]
      invariant best != -1 ==> legal[best]
      invariant best != -1 ==> forall o :: 0 <= o < op && legal[o] ==> worth[o] <= worth[best]
      invariant best != -1 ==> forall o :: 0 <= o < best && legal[o] ==> worth[o] < worth[best]
    {
      if !legal[op] {
        continue;
      }
      if best == -1 || worth[op] > worth[best] {
        best := op;
      }
    }
  }

  /** At most one opcode is chosen. */
  lemma ChosenUnique(net: Net, before: Board, o1: int, o2: int)
    requires Evaluable(net, before)
    requires Chosen(net, before, o1) && Chosen(net, before, o2)
    ensures o1 == o2
  {
  }

  /** The first strictly best legal candidate, read off the four slides'
      legality and worth, is the chosen opcode. */
  lemma PickedIsChosen(net: Net, before: Board, legal: seq<bool>, worth: seq<real>, best: int)
    requires Evaluable(net, before)
    requires |legal| == 4 && |worth| == 4 && 0 <= best < 4
    requires forall o :: 0 <= o < 4 ==> (legal[o] <==> Legal(before, o))
    requires forall o :: 0 <= o < 4 && legal[o] ==> worth[o] == Worth(net, before, o)
    requires legal[best]
    requires forall o :: 0 <= o < 4 && legal[o] ==> worth[o] <= worth[best]
    requires forall o :: 0 <= o < best && legal[o] ==> worth[o] < worth[best]
    ensures Chosen(net, before, best)
  {
  }

  /** One candidate: slide a copy of `before`, and estimate the after-state
      when the slide is legal. */
  method Candidate(net: Net, before: Board, op: Line) returns (t: Transition, legal: bool, worth: real)
    requires Evaluable(net, before)
    ensures t == SlideIn(before, op)
    ensures legal <==> Legal(before, op)
    ensures legal ==> worth == Worth(net, before, op)
  {
    t := SlideIn(before, op);
    legal := t.reward != -1;
    var value := if legal then Estimate(net, t.board) else 0.0;
    worth := t.reward as real + value;
  }

  /** The four slides of `before`: their transitions, whether each is
      legal, and the worth of each legal one. */
  method Candidates(net: Net, before: Board) returns (legal: seq<bool>, worth: seq<real>, afters: seq<Transition>)
    requires Evaluable(net, before)
    ensures |legal| == 4 && |worth| == 4 && |afters| == 4
    ensures forall o :: 0 <= o < 4 ==> afters[o] == SlideIn(before, o)
    ensures forall o :: 0 <= o < 4 ==> (legal[o] <==> Legal(before, o))
    ensures forall o :: 0 <= o < 4 && legal[o] ==> worth[o] == Worth(net, before, o)
  {
    legal, worth, afters := [], [], [];
    for op := 0 to 4
      invariant |legal| == op && |worth| == op && |afters| == op
      invariant forall o :: 0 <= o < op ==> afters[o] == SlideIn(before, o)
      invariant forall o :: 0 <= o < op ==> (legal[o] <==> Legal(before, o))
      invariant forall o :: 0 <= o < op && legal[o] ==> worth[o] == Worth(net, before, o)
    {
      var t, ok, w := Candidate(net, before, op);
      legal := legal + [ok];
      worth := worth + [w];
      afters := afters + [t];
    }
  }

  /** Some slide of `before` is legal. */
  predicate CanMove(before: Board)
  {
    exists o :: 0 <= o < 4 && Legal(before, o)
  }

  /** Slide a copy of `before` in each direction and tell whether any of
      the slides is legal. */
  method AnyLegal(before: Board) returns (movable: bool)
    ensures movable <==> CanMove(before)
  {
    movable := false;
    for op := 0 to 4
      invariant movable <==> exists o :: 0 <= o < op && Legal(before, o)
    {
      if SlideIn(before, op).reward != -1 {
        assert Legal(before, op);
        movable := true;
      } else {
        assert forall o :: 0 <= o < op + 1 && Legal(before, o) ==> o < op;
      }
    }
  }

  /** Try the four slides in order and keep the first strictly best one.
      The result is a slide action in every case, with opcode -1 when no
      slide is legal; the chosen step is appended to the history. On a stuck
      board no after-state is estimated, so the tables are read only when
      some slide is legal. */
  method TakeAction(p: Player, before: Board) returns (a: Action, q: Player)
    requires CanMove(before) ==> Evaluable(p.net, before)
    ensures a.SlideAction?
    ensures a.op == -1 <==> forall o :: 0 <= o < 4 ==> !Legal(before, o)
    ensures a.op == -1 ==> q == p
    ensures a.op != -1 ==> 0 <= a.op < 4 && Evaluable(p.net, before) && Chosen(p.net, before, a.op)
    ensures a.op != -1 ==>
              q == p.(history := p.history + [Step(SlideIn(before, a.op).reward, SlideIn(before, a.op).board)])
  {
    var movable := AnyLegal(before);
    if !movable {
      return SlideAction(-1), p;
    }
    var legal, worth, afters := Candidates(p.net, before);
    var best := PickBest(legal, worth);
    if best != -1 {
      PickedIsChosen(p.net, before, legal, worth, best);
      q := p.(history := p.history + [Step(afters[best].reward, afters[best].board)]);
    } else {
      q := p;
    }
    a := SlideAction(best);
  }

  /** The slide with opcode -1 returned on a stuck board is a left slide,
      so applying it is rejected like every other slide. */
  lemma StuckActionRejected(before: Board)
    requires forall o :: 0 <= o < 4 ==> !Legal(before, o)
    ensures Perform(SlideAction(-1), before) == Transition(before, -1)
  {
    SlideInAgrees(before, Left);
    assert !Legal(before, Left);
    SlideLowBits(before, -1);
  }

  /** A new episode starts with an empty history; tables and rate are kept. */
  function OpenEpisode(p: Player): (q: Player)
    ensures q.history == []
    ensures q.net == p.net && q.alpha == p.alpha && q.meta == p.meta
  {
    p.(history := [])
  }

  // ---------------------------------------------------------------------
  // Learning from the episode

  /** Every after-state of the history can be looked up. */
  predicate Replayable(net: Net, h: seq<Step>)
  {
    WellFormed(net) && forall k :: 0 <= k < |h| ==> Bounded(h[k].after, Radix)
  }

  /** What the first after-state of `h` is moved toward in tables `net`:
      the next step's reward plus the estimate of the next after-state, or 0
      when it is the last step. */
  function Target(net: Net, h: seq<Step>): real
    requires Replayable(net, h) && h != []
  {
    if |h| == 1 then 0.0 else h[1].reward as real + Estimate(net, h[1].after)
  }

  /** The backward replay, defined from the front: the rest of the history is
      replayed first; then the first after-state is moved toward its target
      in the tables the rest produced. */
  function Replay(net: Net, alpha: real, h: seq<Step>): (r: Net)
    requires Replayable(net, h)
    ensures WellFormed(r)
    decreases |h|
  {
    if h == [] then net
    else
      var later := Replay(net, alpha, h[1..]);
      Adjust(later, alpha, h[0].after, Target(later, h))
  }

  /** One step of the replay, from position `t` of the history. */
  lemma ReplayUnfold(net: Net, alpha: real, h: seq<Step>, t: nat)
    requires Replayable(net, h) && t < |h|
    ensures Replayable(net, h[t..]) && Replayable(net, h[t + 1..])
    ensures var later := Replay(net, alpha, h[t + 1..]);
            && Replay(net, alpha, h[t..]) == Adjust(later, alpha, h[t].after, Target(later, h[t..]))
            && Target(later, h[t..]) ==
                 if t + 1 == |h| then 0.0 else h[t + 1].reward as real + Estimate(later, h[t + 1].after)
  {
    assert h[t..][1..] == h[t + 1..];
  }

  /** With a zero learning rate the replay changes nothing. */
  lemma {:induction false} ReplayZeroAlpha(net: Net, h: seq<Step>)
    requires Replayable(net, h)
    ensures Replay(net, 0.0, h) == net
    decreases |h|
  {
    if h != [] {
      ReplayZeroAlpha(net, h[1..]);
      ZeroAlphaKeepsNet(net, h[0].after, Target(net, h));
    }
  }

  /** Close the episode: nothing happens for an empty history or a zero
      rate; otherwise the last after-state is moved toward 0 and then each
      earlier one, from the second last down to the first, toward the
      following step's reward plus its current estimate. Either way the
      tables become the backward replay of the history; the tables are read
      only when there is something to learn. */
  method CloseEpisode(p: Player) returns (q: Player)
    requires p.history != [] && p.alpha != 0.0 ==> Replayable(p.net, p.history)
    ensures p.history == [] || p.alpha == 0.0 ==> q == p
    ensures Replayable(p.net, p.history) ==> q == p.(net := Replay(p.net, p.alpha, p.history))
  {
    var h := p.history;
    if |h| == 0 {
      return p;
    }
    if p.alpha == 0.0 {
      if Replayable(p.net, h) {
        ReplayZeroAlpha(p.net, h);
      }
      return p;
    }
    var n := |h|;
    var net := Adjust(p.net, p.alpha, h[n - 1].after, 0.0);
    ReplayUnfold(p.net, p.alpha, h, n - 1);
    assert h[n..] == [];
    var t := n - 2;
    while t >= 0
      invariant -1 <= t <= n - 2
      invariant Replayable(p.net, h[t + 1..])
      invariant net == Replay(p.net, p.alpha, h[t + 1..])
      decreases t + 1
    {
      ReplayUnfold(p.net, p.alpha, h, t);
      var target := h[t + 1].reward as real + Estimate(net, h[t + 1].after);
      assert target == Target(net, h[t..]);
      net := Adjust(net, p.alpha, h[t].after, target);
      t := t - 1;
    }
    assert h[0..] == h;
    q := p.(net := net);
  }

  // ---------------------------------------------------------------------
  // Symmetry of learning

  /** The history with each after-state replaced by one of its images. */
  function Images(h: seq<Step>, syms: seq<Sym>): (g: seq<Step>)
    requires |syms| == |h|
    ensures |g| == |h|
    ensures forall k :: 0 <= k < |h| ==> g[k] == Step(h[k].reward, Apply(syms[k], h[k].after))
  {
    seq(|h|, k requires 0 <= k < |h| => Step(h[k].reward, Apply(syms[k], h[k].after)))
  }

  lemma ImagesBounded(net: Net, h: seq<Step>, syms: seq<Sym>)
    requires Replayable(net, h) && |syms| == |h|
    ensures Replayable(net, Images(h, syms))
  {
    var g := Images(h, syms);
    forall k | 0 <= k < |h|
      ensures Bounded(g[k].after, Radix)
    {
      ApplyKeepsBound(syms[k], h[k].after, Radix);
    }
  }

  /** Two histories whose tails replay alike, whose first steps have the
      same target there and whose first after-states adjust alike toward it
      replay alike. */
  lemma ReplayAgrees(net: Net, alpha: real, g: seq<Step>, h: seq<Step>)
    requires Replayable(net, g) && Replayable(net, h) && |g| == |h| > 0
    requires Replay(net, alpha, g[1..]) == Replay(net, alpha, h[1..])
    requires var later := Replay(net, alpha, h[1..]);
             && Target(later, g) == Target(later, h)
             && Adjust(later, alpha, g[0].after, Target(later, h)) == Adjust(later, alpha, h[0].after, Target(later, h))
    ensures Replay(net, alpha, g) == Replay(net, alpha, h)
  {
  }

  /** Replaying a history in which every after-state is turned or mirrored,
      each by its own symmetry, teaches the tables exactly the same. */
  lemma {:induction false} ReplaySymmetric(net: Net, alpha: real, h: seq<Step>, syms: seq<Sym>)
    requires Replayable(net, h) && |syms| == |h|
    ensures Replayable(net, Images(h, syms))
    ensures Replay(net, alpha, Images(h, syms)) == Replay(net, alpha, h)
    decreases |h|
  {
    var g := Images(h, syms);
    ImagesBounded(net, h, syms);
    if h != [] {
      assert g[1..] == Images(h[1..], syms[1..]);
      ReplaySymmetric(net, alpha, h[1..], syms[1..]);
      var later := Replay(net, alpha, h[1..]);
      if |h| > 1 {
        EstimateSymmetric(later, syms[1], h[1].after);
      }
      assert Target(later, g) == Target(later, h);
      AdjustSymmetric(later, alpha, syms[0], h[0].after, Target(later, h));
      ReplayAgrees(net, alpha, g, h);
    }
  }
}
