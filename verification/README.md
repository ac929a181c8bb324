# 2584 board, n-tuple learner, episodes and statistics in Dafny

This project models the core of a framework for 2584, the Fibonacci
variant of 2048. A 4×4 board holds tile ranks. Rank `k` shows the `k`-th
entry of the table `0, 1, 2, 3, 5, 8, …`. Two tiles merge when their ranks
are adjacent, or when both are rank 1.

The model covers four pieces:

- **The board** (`tiles.dfy`, `board.dfy`, `row_merge.dfy`, `slides.dfy`):
  - the rank table and the merge rule;
  - `place`;
  - the left slide as a scan with one held tile;
  - the other three slides, built from transforms;
  - the transform group: transpose, the two reflections and the rotations.
- **The learning player** (`features.dfy`, `symmetry.dfy`, `network.dfy`,
  `invariance.dfy`, `learner.dfy`, `config.dfy`):
  - the key=value agent configuration;
  - the base-25 features of 24 five-cell patterns;
  - the walk over the 8 orientations of a board, used by both the estimate
    and the adjustment;
  - greedy move selection;
  - the backward TD(0) replay of an episode's history.
- **The two scripted agents** (`agents.dfy`, with `actions.dfy`): the
  random environment and the dummy player. Each is given the outcome of its
  shuffle as a parameter.
- **Episode and statistic bookkeeping** (`episode.dfy`, `statistic.dfy`):
  - accepted moves and the score;
  - whose turn it is, and the per-party step counts;
  - the per-party split of the move log and of its times;
  - the text of a move's reward/time suffix and of an episode meta;
  - the retention window of the statistic, its report totals and its
    counters.

Weights are `real` numbers, and a weight table is a `seq<real>` of 25⁵
entries. The estimate of a board is the sum of its 192 lookups. Adjusting a
board toward a target adds `alpha * (target - estimate)` once per lookup.
The 24 × 8 unrolled blocks of the source become one pattern table
(`Features.Patterns`) and one orientation walk (`Symmetry.Walk`).

## Model

| member | source | states |
|---|---|---|
| Tiles.Fibonacci | board.h:51-55 | ranks inside the 28-entry table give exactly the table value; every rank ≥ 1 is worth at least 1 |
| Tiles.FibonacciRecurrence | board.h:51-55 | from rank 3 on, every value is the sum of the two before it |
| Tiles.MergedRank | board.h:102-103 | a merge emits a rank above both inputs, one more than one of them |
| Tiles.MergeConserves | board.h:101-106 | the merged tile's value is the sum of the two merged values |
| Board.Place | board.h:70-75 | an off-board position or a rank other than 1 or 2 gives -1 and the same board; otherwise reward 0, the cell is set and the other 15 cells are kept |
| Board.SetCell | board.h:45-46 | writing one cell by its row-major index changes exactly that cell |
| Board.CellsDetermineBoard | board.h:45-46 | two boards that agree on all 16 cells are equal |
| Board.TransposeCells | board.h:138-144 | transpose moves cell (r, c) to (c, r) |
| Board.Transpose | board.h:138-144 | the transpose of a board; its cells are stated by Board.TransposeCells |
| Board.ReflectHorizontalCells | board.h:146-151 | the horizontal reflection mirrors every row |
| Board.ReflectVerticalCells | board.h:153-158 | the vertical reflection mirrors every column |
| Board.RotateRightCells | board.h:173 | the right rotation is a clockwise quarter turn |
| Board.RotateLeftCells | board.h:174 | the left rotation is an anticlockwise quarter turn |
| Board.ReverseCells | board.h:175 | reverse is a half turn |
| Board.TransposeInvolution | board.h:138-144 | transposing twice restores the board |
| Board.ReflectHorizontalInvolution | board.h:146-151 | reflecting horizontally twice restores the board |
| Board.ReflectVerticalInvolution | board.h:153-158 | reflecting vertically twice restores the board |
| Board.RotateLeftInvertsRight | board.h:173-174 | the left and right rotations undo each other in both orders |
| Board.RotateRightPowers | board.h:173-175 | two right turns are reverse, three are a left turn, four are the identity |
| Board.MirrorConjugatesRotation | board.h:173-174 | a right turn seen in a horizontal mirror is a left turn |
| Board.CppRem4 | board.h:164 | the C++ remainder by 4 lies in (-4, 4) and agrees with the mathematical remainder on non-negative counts |
| Board.CppReduction | board.h:164 | the source's `((r % 4) + 4) % 4` is the non-negative remainder of `r` for every `r`, negative included |
| Board.RotateIsTurns | board.h:163-171 | `rotate(r)` is `r mod 4` clockwise quarter turns |
| Board.Rotate | board.h:163-171 | the source's rotation by `r`; Board.RotateIsTurns and Board.RotateCompose state what it does |
| Board.RotateCompose | board.h:163-171 | rotating by `r` and then by `s` is rotating by `r + s` |
| Board.TransformsKeepValue | board.h:138-158 | the transforms keep the board's total displayed value |
| Board.TransformsKeepBound | board.h:138-158 | the transforms keep every bound on the ranks |
| RowMerge.SlideRowInPlace | board.h:94-116 | the source's in-place scan of one row (hold, top, merge or push) computes the reference result: the pairwise merge of the row's non-zero tiles, padded with zeros, and its reward |
| RowMerge.ScanIsPairwise | board.h:97-114 | the one-tile-held scan equals the greedy pairwise merge of the non-zero tiles |
| RowMerge.PairwiseUnfold | board.h:101-110 | a mergeable pair becomes one tile worth their sum and is never merged again; otherwise the first tile is emitted and scanning resumes at the second |
| RowMerge.PairwiseShape | board.h:101-110 | the merge never adds tiles, keeps them non-zero, earns 0 exactly when nothing merges, and then leaves the tiles as they were |
| RowMerge.PairwiseMergeCount | board.h:101-110 | each merge turns two tiles into one, so the tiles shrink by exactly the number of merges; at most half the tiles merge; the reward is 0 exactly when none does |
| RowMerge.PairwiseFixedIffStuck | board.h:101-110 | the merge leaves the tiles unchanged exactly when no neighbouring pair is mergeable |
| RowMerge.PairwiseConserves | board.h:101-106 | merging keeps the total displayed value |
| RowMerge.PairwiseRewardBound | board.h:105 | the reward of a row is at most the row's total value |
| RowMerge.SlideCellsShape | board.h:94-116 | after a slide, the non-zero tiles come first and there is one fewer for every merge, so never more; the reward is 0 exactly when their number is kept |
| RowMerge.SlideCellsConserves | board.h:94-116 | sliding a row keeps its total displayed value |
| RowMerge.SlideCellsFixedIff | board.h:94-116 | a row is unchanged exactly when it is already compact and has no mergeable neighbours |
| RowMerge.SlideCellsBound | board.h:103 | a slide raises the largest rank by at most one |
| RowMerge.CompactIsPadded | board.h:94-116 | a compact row is its non-zero tiles followed by zeros |
| RowMerge.PadInjective | board.h:94-116 | two rows of non-zero tiles that pad to the same row are the same, so a compacted row determines its tiles |
| Slides.SlideLeft | board.h:91-118 | the reward is -1 exactly when the board is unchanged; otherwise it is non-negative |
| Slides.SlideRight | board.h:119-124 | mirror, slide left, mirror back, with the left slide's reward; stated by Slides.SlideRightLegality and Slides.SlideRightConserves |
| Slides.SlideUp | board.h:125-130 | turn right, slide right, turn back, with its reward; stated by Slides.SlideUpIsTransposedLeft |
| Slides.SlideDown | board.h:131-136 | turn right, slide left, turn back, with its reward; stated by Slides.SlideDownIsTransposedRight |
| Slides.SlideIn | board.h:81-89 | the slide in one of the four directions 0..3; stated by Slides.SlideLegality and Slides.SlideConserves |
| Slides.Slide | board.h:81-89 | the slide selected by the low two bits of an opcode; stated by Slides.SlideDispatch and Slides.SlideLowBits |
| Slides.SlideUpIsTransposedLeft | board.h:125-130 | sliding up is transpose, slide left, transpose, with the same reward |
| Slides.SlideDownIsTransposedRight | board.h:131-136 | sliding down is transpose, slide right, transpose, with the same reward |
| Slides.SlideInAgrees | board.h:81-89 | a direction 0..3 used as an opcode selects that direction |
| Slides.SlideDispatch | board.h:81-89 | opcode 0 slides up, 1 right, 2 down, 3 left |
| Slides.SlideLowBits | board.h:82 | only the low two bits of the opcode matter, so opcode -1 slides left |
| Slides.SlideLegality | board.h:81-136 | for every opcode: reward -1 exactly when the board is unchanged, otherwise a non-negative reward |
| Slides.SlideRightLegality | board.h:119-124 | the same for the right slide |
| Slides.SlideUpLegality | board.h:125-130 | the same for the up slide |
| Slides.SlideDownLegality | board.h:131-136 | the same for the down slide |
| Slides.SlideLeftFacts | board.h:91-118 | the left slide keeps the board's value and raises the rank bound by at most one |
| Slides.SlideConserves | board.h:81-136 | every slide keeps the sum of the displayed values of all 16 cells |
| Slides.SlideRightConserves | board.h:119-124 | the right slide keeps the total displayed value |
| Slides.SlideUpConserves | board.h:125-130 | the up slide keeps the total displayed value |
| Slides.SlideDownConserves | board.h:131-136 | the down slide keeps the total displayed value |
| Slides.SlideBound | board.h:81-136 | every slide raises the rank bound by at most one |
| Slides.RowStuckIff | board.h:94-116 | a row stays the same exactly when it is compact and has no mergeable neighbours |
| Slides.SlideLeftIllegalIff | board.h:117 | the left slide is rejected exactly when each of the four rows is stuck |
| Slides.SlideRowLeftShape | board.h:94-116 | a slid row is compact and never gains tiles; its reward is 0 exactly when no tile merged |
| Slides.SingleMerge | board.h:101-106 | two mergeable tiles at the head of an otherwise empty row become one merged tile, worth its table value |
| Slides.ExampleOnes | board.h:102 | [1,1,0,0] becomes [2,0,0,0] with reward 2 |
| Slides.ExampleAdjacent | board.h:102 | [1,2,0,0] becomes [3,0,0,0] with reward 3 |
| Slides.ExampleAdjacentHigher | board.h:102-105 | [2,3,0,0] becomes [4,0,0,0] with reward 5 |
| Slides.ExampleNoCascade | board.h:104-106 | [1,1,2,0] becomes [2,2,0,0] with reward 2: the merged tile is not merged again |
| Slides.ExampleEqualRanks | board.h:102 | equal ranks above 1 do not merge: [0,3,0,3] becomes [3,3,0,0] with reward 0 |
| Slides.ExamplePacked | board.h:94-116 | the packed row [5,1,9,1] is left as it is |
| Slides.StuckBoardExample | board.h:117 | a board of packed rows rejects the left slide and is unchanged |
| Actions.Perform | board.h:70-89 | a rejected action keeps the board; an accepted one earns a non-negative reward; the empty action is always rejected |
| Features.Feature | agent.h:133-135 | a pattern whose five ranks are all below 25 indexes inside a table; a first rank of 25 or more indexes past it |
| Features.FeatureIsBase25 | agent.h:133-135 | the feature is the base-25 number of the five ranks, most significant first |
| Features.DigitsRoundTrip | agent.h:133-135 | base-25 digits below 25 are recovered from their number |
| Features.FeatureInjective | agent.h:133-135 | for ranks below 25, two features are equal exactly when their five ranks are |
| Symmetry.WalkUnfold | agent.h:138-313 | the walk is the board, three right turns, a horizontal mirror, and three more right turns |
| Symmetry.WalkIsImages | agent.h:138-313 | the k-th board of the walk is the board under the k-th symmetry |
| Symmetry.WalkCoversGroup | agent.h:138-313 | the walk meets each of the eight symmetries of the square exactly once |
| Symmetry.SymsDistinct | agent.h:138-313 | the eight symmetries of the walk are pairwise different |
| Symmetry.WalkOfTurn | agent.h:138-313 | the walk of a turned board is a re-ordering of the board's walk |
| Symmetry.WalkOfMirror | agent.h:138-313 | the walk of a mirrored board is a re-ordering of the board's walk |
| Symmetry.ApplyKeepsBound | agent.h:138-313 | every symmetry keeps the rank bound |
| Network.InitWeights | agent.h:546-571 | initialisation allocates 24 tables of 25⁵ zeros |
| Network.InitEstimateZero | agent.h:546-571 | every board is estimated at 0 by fresh tables |
| Network.Estimate | agent.h:136-339 | the sum of the 192 looked-up weights; stated by Network.LookupsAreOrientations and Invariance.EstimateSymmetric |
| Network.Adjust | agent.h:340-544 | the tables keep their shape; the change per entry is stated by Network.AdjustPointwise |
| Network.LookupsAreOrientations | agent.h:136-339 | a board's 192 lookups are the 24 pattern lookups of each of the walk's 8 boards, in order |
| Network.LookupsInRange | agent.h:136-339 | with ranks below 25, every lookup lies inside its table |
| Network.AddAll | agent.h:345-543 | adding to each looked-up entry keeps the shape of the tables |
| Network.AdjustPointwise | agent.h:340-544 | an entry read k times by the board's lookups gains k times `alpha * (target - estimate)`; an entry never read is unchanged |
| Network.AdjustMovesTowardTarget | agent.h:340-544 | after an adjustment the board's error is the old error times `1 - alpha * h`, where h counts the repeated hits of the board's own lookups |
| Network.ZeroAlphaKeepsNet | agent.h:340-544 | a learning rate of 0 leaves the tables unchanged |
| Network.SumAfterAddAll | agent.h:340-544 | the sum over lookups after an update grows by one step per hit |
| Invariance.EstimateByOrientation | agent.h:136-339 | the estimate is the sum of the eight orientations' pattern sums |
| Invariance.EstimateOfTurn | agent.h:136-339 | turning the board keeps the estimate |
| Invariance.EstimateOfMirror | agent.h:136-339 | mirroring the board keeps the estimate |
| Invariance.EstimateSymmetric | agent.h:136-339 | every one of the eight symmetric images of a board has the board's estimate |
| Invariance.CountSymmetric | agent.h:340-544 | every image of a board reads each table entry as often as the board does |
| Invariance.AdjustSymmetric | agent.h:340-544 | adjusting any image of a board toward a target changes the tables exactly as adjusting the board |
| Config.Tokens | agent.h:25-26 | the argument text is split into non-empty, space-free words |
| Config.TokensOfJoin | agent.h:25-26 | words joined by spaces split back into the same words |
| Config.TokensOfDefaults | agent.h:25 | prepended default words come first, followed by the words of the arguments |
| Config.SplitAtFirstEq | agent.h:27-28 | a word with `=` is its key, `=`, and its value; the key holds no `=` |
| Config.NoEqMapsToItself | agent.h:27-28 | a word without `=` is its own key and its own value |
| Config.Notify | agent.h:40 | a message sets its key to its value and leaves every other key as it was |
| Config.StoreThenNotify | agent.h:40 | storing one more word is notifying it |
| Config.StoreLastWins | agent.h:26-30 | a key is present when it was before or some word names it; the last word naming it decides its value; with no such word the old value stays |
| Config.ParseOverDefaults | agent.h:24-31 | an agent's meta is the caller's words stored over `name=unknown role=unknown` |
| Config.Parse | agent.h:24-31 | an agent's meta from its arguments; stated by Config.ParseOverDefaults and Config.NameAndRolePresent |
| Config.NameAndRolePresent | agent.h:24-31 | name and role are always present, and stay `unknown` unless a word overrides them |
| Config.RoleParseOverDefaults | agent.h:75 | a subclass's prepended name and role are stored first and the caller's words override them |
| Config.RoleNameAndRole | agent.h:75 | the subclass's name and role hold unless a caller word overrides them |
| Config.Property | agent.h:39 | a key's property is present exactly when the key is, and it is then the stored value |
| Config.PropertyAfterNotify | agent.h:39-40 | a notified key reads back as the message's value; every other key reads as before |
| Config.NameAndRoleProperty | agent.h:39-42 | `name()` and `role()` never throw, and read `unknown` unless the arguments set them |
| Learner.NewPlayer | agent.h:75-82 | the meta is parsed over `name=dummy role=player`; tables exist exactly when `init` is given; alpha is read from `alpha`, else 0; history starts empty |
| Learner.PickBest | agent.h:93-105 | -1 exactly when no candidate is legal; otherwise a legal candidate worth at least every legal one and strictly more than every earlier legal one |
| Learner.Candidates | agent.h:93-98 | candidate op is the op's slide; it is legal exactly when the slide is accepted; a legal candidate's worth is its reward plus the estimate of its after-state |
| Learner.PickedIsChosen | agent.h:93-105 | the candidate picked from the candidate lists satisfies the selection rule on the board |
| Learner.ChosenUnique | agent.h:99-104 | the selection rule picks at most one op, so ties go to the earliest op |
| Learner.TakeAction | agent.h:88-110 | opcode -1 exactly when no slide is legal, and then the player is unchanged, whatever its tables; otherwise the op follows the selection rule and exactly its (reward, after-state) is appended to the history |
| Learner.AnyLegal | agent.h:93-96 | tells exactly whether some slide of the board is legal |
| Learner.StuckActionRejected | agent.h:109 | on a stuck board, the returned slide(-1) is itself rejected without changing the board |
| Learner.OpenEpisode | agent.h:111-113 | a new episode empties the history and keeps tables, rate and meta |
| Learner.ReplayUnfold | agent.h:118-122 | replaying from step t moves step t's after-state toward 0 when it is last; otherwise toward the next reward plus the next after-state's estimate in the tables already updated by the later steps |
| Learner.Replay | agent.h:115-125 | the tables keep their shape; the replay order is stated by Learner.ReplayUnfold and its symmetry by Learner.ReplaySymmetric |
| Learner.CloseEpisode | agent.h:115-125 | with an empty history or a zero rate the player is unchanged, whatever its tables; otherwise the backward loop (the last step toward 0, then t = n-2 down to 0) produces exactly the replay of the history |
| Learner.ReplayZeroAlpha | agent.h:117 | with a learning rate of 0 the replay leaves the tables unchanged |
| Learner.ImagesBounded | agent.h:136-339 | a history whose after-states are replaced by symmetric images can still be looked up |
| Learner.ReplaySymmetric | agent.h:115-125 | replacing every after-state of the history by any symmetric image of it gives the same tables |
| Agents.FirstTrue | agent.h:608-611 | the index of the first true flag, or the length when there is none |
| Agents.FirstTrueAt | agent.h:608-611 | an index with only false flags before it and a true flag at it is the first true index |
| Agents.FirstIndex | agent.h:608-611 | scanning the flags in order stops at the first true one, or at the end when none is true |
| Agents.NewTile | agent.h:610 | a popup value of 0 gives rank 2 and every other value gives rank 1 |
| Agents.Empties | agent.h:609 | a flag is set exactly when that cell of the shuffled order is empty |
| Agents.EnvironmentAction | agent.h:606-614 | places the new tile on the first empty cell of the shuffled order, and gives the empty action when there is none |
| Agents.PlacementAccepted | agent.h:606-614 | the environment's placement earns 0, sets its cell and keeps the other cells |
| Agents.EnvironmentPassesOnFull | agent.h:606-614 | for an order covering all 16 cells, the environment passes exactly when the board is full |
| Agents.Legals | agent.h:633-634 | a flag is set exactly when that op of the shuffled order has a legal slide |
| Agents.DummyAction | agent.h:630-637 | slides in the first op of the shuffled order whose slide is legal, and gives the empty action when there is none |
| Agents.DummySlideAccepted | agent.h:630-637 | the dummy's slide is accepted with a non-negative reward and changes the board |
| Agents.DummyPassesWhenStuck | agent.h:630-637 | for an order covering all four directions, the dummy passes exactly when no slide is legal |
| Agents.EnvironmentDefaults | agent.h:603 | the environment is named `random` in role `environment` unless the caller overrides either |
| Agents.DummyDefaults | agent.h:627 | the dummy player is named `dummy` in role `player` unless the caller overrides either |
| Episodes.NewEpisode | episode.h:27 | a new episode has the empty board, score 0, no moves and `N/A@0` metas |
| Episodes.OpenEpisode | episode.h:34-36 | opening records its tag and time; the board, score, log, hand-out time and close meta carry over |
| Episodes.CloseEpisode | episode.h:37-39 | closing records its tag and time; the board, score, log, hand-out time and open meta carry over |
| Episodes.ApplyAction | episode.h:40-46 | a rejected action gives false and the same episode; an accepted one sets the state, adds its reward to the score and appends exactly one move, timed since the last hand-out |
| Episodes.ApplyKeepsScore | episode.h:40-46 | the score stays the sum of the logged rewards and never decreases |
| Episodes.PlayKeepsScore | episode.h:40-46 | over any sequence of actions, the score stays the sum of the logged rewards and never decreases, logged moves are never dropped, and both metas are kept |
| Episodes.EpisodeLifecycle | episode.h:27-46 | an episode created, opened at t1, played and closed at t2 has a non-negative score equal to its logged rewards and carries both tags and times; the environment takes its first turn |
| Episodes.TakeTurns | episode.h:47-50 | the player moves exactly when at least two moves are logged and their number is even; the hand-out time is recorded |
| Episodes.LastTurns | episode.h:51-53 | the same hand-out with the roles exchanged |
| Episodes.TurnAt | episode.h:49 | whose turn it is at a log size; Episodes.TakeTurns and Episodes.PositionsPartition state it |
| Episodes.Step | episode.h:56-63 | a party's step count; Episodes.StepsSplitLog and Episodes.PositionsCount state it |
| Episodes.TruncHalf | episode.h:59 | C++ halving truncates toward zero on both signs |
| Episodes.StepsSplitLog | episode.h:56-63 | the player's and the environment's counts add up to the log size; the environment is 0 to 2 ahead; both are 0 on an empty log |
| Episodes.StrideMembers | episode.h:89 | the stride from i holds exactly the positions i, i+2, … below the end |
| Episodes.StrideLength | episode.h:89 | the stride from i below n has `(n - i + 1) / 2` positions |
| Episodes.PositionsPartition | episode.h:82-97 | the player's positions are 2, 4, 6, …; the environment's are 0, 1, 3, 5, …; each logged position belongs to exactly one of them, and to the player exactly when the turn there is the player's |
| Episodes.PositionsCount | episode.h:56-63 | each party's positions number its step count and are increasing |
| Episodes.ActionsOf | episode.h:82-97 | the actions are those logged at the party's positions, in log order; all actions for no party |
| Episodes.AppendStride | episode.h:89 | the shared loop appends the actions at every other position from its start |
| Episodes.TimeOf | episode.h:65-80 | a party's time is the sum of the move times at its positions; with no party it is the close time minus the open time |
| Episodes.TimesSplitLog | episode.h:65-80 | the two parties' times add up to the time of all logged moves |
| Episodes.ReadShowInt | episode.h:144 | an integer written in decimal reads back as itself when no digit follows |
| Episodes.EnclosedRoundTrip | episode.h:134-151 | a non-zero number written between its delimiters reads back as itself; an absent one reads as 0 |
| Episodes.SuffixRoundTrip | episode.h:132-153 | the written `[reward]` and `(time)` read back as both values, 0 standing for an omitted part |
| Episodes.MetaRoundTrip | episode.h:161-166 | a written `tag@time` reads back as the same meta when the tag holds no `@` |
| Statistics.NewStatistic | statistic.h:29-33 | a block or limit of 0 becomes the total; nothing is counted or kept yet |
| Statistics.OpenEpisode | statistic.h:115-119 | the count goes up by one; once the limit is reached the oldest kept episode is dropped; a newly opened episode is appended |
| Statistics.NewRetention | statistic.h:29-33 | a fresh statistic keeps `min(count, limit)` episodes |
| Statistics.OpenKeepsRetention | statistic.h:115-119 | when `min(count, limit)` episodes are kept and the limit is at least 1, opening keeps that window and keeps every other kept episode in order |
| Statistics.SaturatedStays | statistic.h:115-119 | once the limit is reached with an episode kept, opening drops one and appends one, so the number kept never changes again, even when it exceeds the limit |
| Statistics.FinishedStays | statistic.h:111-119 | a finished statistic stays finished when it opens another episode |
| Statistics.IsFinished | statistic.h:111-113 | the run is over once the count reaches the total; Statistics.FinishedStays and Statistics.ReadFinished state it |
| Statistics.CloseEpisode | statistic.h:121-124 | only the newest episode is closed; a report is due exactly when the count is a multiple of the block |
| Statistics.Window | statistic.h:59-66 | the report covers the last `min(kept, block)` episodes |
| Statistics.CountEpisode | statistic.h:67-75 | one episode adds its score, maximum, step counts and times to the totals |
| Statistics.ShowTotals | statistic.h:58-76 | walking back from the newest episode adds up the totals of exactly the report window |
| Statistics.TotalsFacts | statistic.h:58-76 | the player's and environment's ops add up to all ops, and their times to the time of all moves; the maximum is at least every score and is 0 or one of them |
| Statistics.Summary | statistic.h:104-109 | the final summary reports the totals of every kept episode and leaves the statistic, block included, as it was |
| Statistics.ReadRecords | statistic.h:142-150 | read episodes are appended; the count becomes the number kept and the total grows to at least that |
| Statistics.ReadFinished | statistic.h:142-150 | after reading, the run is finished exactly when the kept episodes reach the old total |
| Statistics.ReadRetention | statistic.h:142-150 | after reading, `min(count, limit)` episodes are kept exactly when no more than the limit are; with at least the limit kept, the number kept stays fixed from then on |

## Left out

- Floating point: weights, alpha, estimates and the TD error are `real`, so rounding is not modelled. Exact symmetry of the estimate and of the update holds only in this abstraction.
- Learner.PickBest: the source starts from `best_value = -FLT_MAX` with `best_reward = -1`, so its first test is `reward + value > -1 - FLT_MAX`. The model uses "no best yet" instead of that sentinel. The choice is the same whenever every legal op's worth exceeds -1 - FLT_MAX. Otherwise the source skips that op, and can even return `slide(-1)` while a slide is legal; the model does not. Infinite and NaN estimates do not arise in the model's real numbers.
- Learner.TakeAction: computes all four candidates first and then picks the best. The source interleaves the two in one loop; the result is the same.
- Learner.TakeAction: when no slide is legal, the source returns `slide(-1)`, and the model follows this code. `Learner.StuckActionRejected` shows that the board rejects `slide(-1)` on such a board, just as it rejects the empty action.
- Agents.EnvironmentAction and Agents.DummyAction: compute the flag of every candidate first and then pick the first true one. The source stops at the first acceptable candidate; the result is the same.
- Learner.TakeAction and Learner.CloseEpisode require allocated tables and after-state ranks below 25 only where the source reads a table: TakeAction when some slide is legal, CloseEpisode when the history is non-empty and the rate non-zero. Reading unallocated tables is undefined behaviour in the source. With a larger rank on a cell that leads some oriented pattern, the source reads past its 25⁵-entry table. With a larger rank only on a middle cell (5, 6, 9 or 10, which never lead a pattern), it reads an in-range entry that belongs to other ranks. The model excludes both cases.
- Learner.NewPlayer: `std::stod` is a parameter, because it is a foreign library call. Loading weights (`load` key) and saving them in the destructor are file I/O and are left out.
- Weight file reading and writing (agent.h:572-588), including `std::exit(-1)`: file I/O. `weight.h` and its stream operators are not part of this model.
- The random engine, the shuffles, the tile coin and the `seed` key (agent.h:58-68, 607, 610, 631): the shuffled order and the popup value are parameters of `Agents.EnvironmentAction` and `Agents.DummyAction`.
- `action.h` is not part of this model. `Actions.Action` has only the empty action, a slide and a placement. Applying an action is the matching board operation, and the empty action is assumed to be rejected (reward -1).
- Tiles.Fibonacci: the source table has 28 entries and reads out of bounds beyond rank 27. The model extends the table by its own recurrence, so conservation holds for every rank.
- Integer widths: ranks, rewards, scores, counts and times are unbounded. The one place where the source's types change a result is modelled explicitly: the `int` halving at size 0 (`Episodes.TruncHalf`). The unsigned `opcode & 3` agrees with the mathematical remainder by 4 for every opcode (`Slides.SlideLowBits`).
- Board stream output with `log2` (board.h:178-195) and the console text, averages, percentages and tile histogram of `statistic::show` (statistic.h:78-101): I/O and floating point. The totals these print from are modelled.
- The clock `millisec` (episode.h:172-175): the current time is a `now` parameter.
- Episode and statistic stream operators (episode.h:101-121, statistic.h:138-150): only the move suffix text, the meta text and the effect on the statistic's counters are modelled. The text of an action code belongs to `action.h`.
- Statistics.OpenEpisode requires a kept episode once the limit is reached, and Statistics.CloseEpisode requires a kept episode and a non-zero block. Otherwise the source pops from or reads an empty list, or divides by zero, which is undefined behaviour (total 0).
- Statistics.Summary returns the totals and the unchanged statistic rather than printing them.
- `statistic::at`, `front` and `back`: plain list access, used only by callers outside this model.
