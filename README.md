# Bomberman Q-learning — a Dafny model of the simulation and learning core

This project models the game logic of a small Bomberman arena in which one
agent learns, by tabular Q-learning, to clear a board of breakable walls
with bombs. The model has three modules, one per source file of the core:

- `Environment` (`Environment.dfy`, from `EnvironmentGenerator.cs`). It holds the
  W by H board: a tile grid, a parallel grid of bomb countdowns and a
  breakable-wall counter.
  - Boards are generated from the three wall patterns (Split, Border, Grid),
    and a spawn cell is picked.
  - Everything off the board reads as an unbreakable wall with no bomb.
  - The bomb step clears old explosions, ticks every armed bomb and
    detonates the bombs that reach zero.
  - The class `EnvironmentGenerator` keeps the two grids as `array2`s, as
    the source does. Its methods are proved against value-level functions
    (`PatternTiles`, `Cleared`, `Ticked`, `Stepped`, `WallsBroken`), and
    lemmas state what those functions mean.
- `Agent` (`Agent.dfy`, from `AgentBehavior.cs`). It covers:
  - the nine actions;
  - the observed state: position, a copy of the tiles and the danger map;
    this state is the Q-table key, and its structural equality is proved to
    be value equality;
  - the legal-action list;
  - the danger map, the minimum bomb timer covering each non-wall cell;
  - the shaped reward;
  - the class `AgentBehavior`, which moves, arms bombs and steps the board
    in place.
- `QLearning` (`QLearning.dfy`, from `QLearning.cs`). It covers:
  - the lazily filled Q-table (class `QTable`, a map from states to nine
    values);
  - the epsilon-greedy choice, with the greedy scan as a loop;
  - the Bellman update and the parameter decay;
  - the trainer class `QLearning`: the learning switch, `Initialize`,
    `Restart`, one `FixedUpdate` step, and the episode and win-rate
    bookkeeping over a 100-episode window.

Several points follow the code as written rather than an idealised game:
- The wall counter subtracts the running total of walls broken, not each
  bomb's own count. It stays exact only while at most one bomb goes off in
  a step. The model proves that the trainer's board never has two armed
  bombs (`Agent.TrackedAtMostOne`, `QLearning.TurnConsistent`), so there
  the counter always equals the number of breakable walls on the board.
- The danger map skips unbreakable cells, including a freshly placed bomb's
  own cell.
- A turn clears explosions before it takes its "before" observation.
- The Bellman maximum ranges over all nine values of the next state.
- The bomb cooldown survives a restart.

The one random draw is a parameter: `roll` stands for `Random.value` and
`pick` for the random index, used as `pick % |legal|`.

## Model

| member | source | states |
|---|---|---|
| Environment.PatternTiles | Assets/Scripts/Logic/EnvironmentGenerator.cs:149-165 | the generated board is W by H, each cell holds the pattern's tile, and every cell is walkable or breakable |
| Environment.CanSpawnBreakableWall | Assets/Scripts/Logic/EnvironmentGenerator.cs:69-88 | on the board, Border places a wall exactly on the outer ring; Grid places one exactly where x is even and y is odd (the C# remainder), never on row 0 |
| Environment.BorderWallCount | Assets/Scripts/Logic/EnvironmentGenerator.cs:76-78 | a Border board of at least 2 by 2 holds exactly 2W + 2H - 4 breakable walls |
| Environment.GetSpawnPosition | Assets/Scripts/Logic/EnvironmentGenerator.cs:182-191 | the spawn cell lies on every non-empty board |
| Environment.SpawnIsWalkable | Assets/Scripts/Logic/EnvironmentGenerator.cs:182-191 | the spawn cell is walkable: for Grid always, for Split from 2 by 2 up, for Border from 3 by 3 up |
| Environment.Cleared | Assets/Scripts/Logic/EnvironmentGenerator.cs:194-201 | the cleared board has the same shape, and each cell is the old tile with an explosion turned walkable |
| Environment.ClearedProperties | Assets/Scripts/Logic/EnvironmentGenerator.cs:194-201 | clearing leaves no explosion, keeps every other tile, is idempotent and keeps the breakable-wall count |
| Environment.Ticked | Assets/Scripts/Logic/EnvironmentGenerator.cs:212-219 | every timer drops by one, and a zero timer stays zero |
| Environment.Stepped | Assets/Scripts/Logic/EnvironmentGenerator.cs:205-257 | after a bomb step a cell is an explosion iff a bomb covering it detonates; otherwise it is the cleared old tile |
| Environment.SteppedCleared | Assets/Scripts/Logic/EnvironmentGenerator.cs:206 | clearing the board before a step changes nothing |
| Environment.Blast | Assets/Scripts/Logic/EnvironmentGenerator.cs:247-255 | a blast makes exactly the in-board cells of the cross explosions and keeps every other cell |
| Environment.BlastCount | Assets/Scripts/Logic/EnvironmentGenerator.cs:224-255 | one blast removes exactly the breakable walls of its five-cell cross, each counted once |
| Environment.ScanComplete | Assets/Scripts/Logic/EnvironmentGenerator.cs:208-257 | the cell-by-cell scan ends with the stepped board and ticked timers; its running total equals the walls destroyed; the counter loses at least that many, and exactly that many when at most one bomb detonates |
| Environment.VisitCellV | Assets/Scripts/Logic/EnvironmentGenerator.cs:212-255 | a cell whose timer is not 1 leaves board, total and counter as they are; a detonating cell blasts its cross, adds the cross's walls to the running total, and lowers the counter by the whole running total; the total never decreases |
| Environment.TwoBombsCounterDrift | Assets/Scripts/Logic/EnvironmentGenerator.cs:245 | two bombs detonating in one step on a one-column board break both of its walls, yet the counter ends at -1, not 0 |
| Environment.EnvironmentGenerator.constructor | Assets/Scripts/Logic/EnvironmentGenerator.cs:124-165 | a new generator holds the pattern board, zero timers, and a counter equal to the number of breakable cells |
| Environment.EnvironmentGenerator.GetTileType | Assets/Scripts/Logic/EnvironmentGenerator.cs:99-105 | off the board the tile is Unbreakable; on the board it is the stored cell |
| Environment.EnvironmentGenerator.GetBombTimer | Assets/Scripts/Logic/EnvironmentGenerator.cs:108-114 | off the board the timer is 0; on the board it is the stored cell |
| Environment.EnvironmentGenerator.SetSize | Assets/Scripts/Logic/EnvironmentGenerator.cs:117-120 | resizing regenerates fresh grids of the new size, holding the pattern board and zero timers, with an exact wall counter |
| Environment.EnvironmentGenerator.GenerateEnvironment | Assets/Scripts/Logic/EnvironmentGenerator.cs:124-179 | fresh grids hold the pattern board and zero timers; the counter equals the number of breakable cells; the result is the spawn cell |
| Environment.EnvironmentGenerator.FillWalls | Assets/Scripts/Logic/EnvironmentGenerator.cs:150-165 | the column loop writes the pattern board and adds its breakable-cell count to the counter |
| Environment.EnvironmentGenerator.FillColumn | Assets/Scripts/Logic/EnvironmentGenerator.cs:152-164 | one column gets the pattern tiles and the counter grows by that column's walls; other columns are untouched |
| Environment.EnvironmentGenerator.ClearExplosions | Assets/Scripts/Logic/EnvironmentGenerator.cs:194-201 | the tile grid becomes the cleared old grid; the timers are outside the frame and so unchanged |
| Environment.EnvironmentGenerator.CountBlastWalls | Assets/Scripts/Logic/EnvironmentGenerator.cs:224-243 | the count is the number of breakable walls in the bomb's cross, at most 5 |
| Environment.EnvironmentGenerator.MarkBlast | Assets/Scripts/Logic/EnvironmentGenerator.cs:247-255 | exactly the in-board cells of the cross become explosions |
| Environment.EnvironmentGenerator.VisitCell | Assets/Scripts/Logic/EnvironmentGenerator.cs:212-255 | one visit does to the arrays and the counter what the value-level cell visit does, including subtracting the running total |
| Environment.EnvironmentGenerator.ScanColumn | Assets/Scripts/Logic/EnvironmentGenerator.cs:211-256 | scanning a column keeps the scan invariant: ticked and blasted cells so far, running total and counter |
| Environment.EnvironmentGenerator.ScanBoard | Assets/Scripts/Logic/EnvironmentGenerator.cs:210-257 | the nested loop reaches the end of the board with the scan invariant |
| Environment.EnvironmentGenerator.ScanFinished | Assets/Scripts/Logic/EnvironmentGenerator.cs:245 | at the end of the scan the counter has dropped by at least the walls broken, and by exactly that many with at most one detonation |
| Environment.EnvironmentGenerator.StepBombs | Assets/Scripts/Logic/EnvironmentGenerator.cs:205-261 | the tiles become the stepped board; the timers become the ticked timers; the result is the number of walls destroyed; the counter drops by at least that, and exactly that with at most one detonation |
| Agent.Ordinal | Assets/Scripts/Logic/AgentBehavior.cs:10-20 | each action's enum value is below 9 and maps back to the action |
| Agent.OrdinalBijection | Assets/Scripts/Logic/AgentBehavior.cs:10-20 | ordinals and actions are in one-to-one correspondence |
| Agent.ActionShape | Assets/Scripts/Logic/AgentBehavior.cs:265-302 | every action except None is the move or the bomb of one direction; bombs are exactly the "Bomb" actions |
| Agent.StateEqualsIsEquality | Assets/Scripts/Logic/AgentBehavior.cs:65-80 | for states of the board's size, Equals holds iff the states are equal values, so it is reflexive and symmetric and equal states hash alike |
| Agent.LegalActions | Assets/Scripts/Logic/AgentBehavior.cs:134-167 | the list holds 1 to 9 actions and starts with None; while the cooldown runs it holds no bomb |
| Agent.LegalActionsSpec | Assets/Scripts/Logic/AgentBehavior.cs:134-167 | the list starts with None; it holds Move-D iff the tile in direction D is walkable, and Bomb-D iff additionally the cooldown is 0 |
| Agent.DirectionLegal | Assets/Scripts/Logic/AgentBehavior.cs:142-163 | per direction: the move is legal iff its tile is walkable, the bomb iff also the cooldown is 0 |
| Agent.LegalActionsDistinct | Assets/Scripts/Logic/AgentBehavior.cs:134-167 | no action appears twice in the legal list |
| Agent.LegalTargetsInBounds | Assets/Scripts/Logic/AgentBehavior.cs:128-131 | a legal action from an in-board cell aims at an in-board cell, and a move or bomb aims at a walkable tile |
| Agent.FoldDangerMeaning | Assets/Scripts/Logic/AgentBehavior.cs:186-198 | the min-updates give 0 iff no timer is armed; otherwise the result is at most 100, at most every armed timer, and either 100 or one of them |
| Agent.CoverersAreCross | Assets/Scripts/Logic/AgentBehavior.cs:185-198 | the cells a scan updates from a bomb are exactly the bombs whose cross holds the cell |
| Agent.DangerMap | Assets/Scripts/Logic/AgentBehavior.cs:176-201 | the danger map has the board's shape, and each cell holds that cell's danger |
| Agent.DangerMeaning | Assets/Scripts/Logic/AgentBehavior.cs:185-198 | a cell's danger is 0 on unbreakable tiles and where no armed bomb covers it; otherwise it is at most every covering timer, capped at 100, and equal to one of them or 100 |
| Agent.PartialDangerStep | Assets/Scripts/Logic/AgentBehavior.cs:180-198 | visiting a cell adds its bomb's timer to every non-wall cell of its cross and nothing else |
| Agent.ColumnNearestSpec | Assets/Scripts/Logic/AgentBehavior.cs:230-238 | the per-column wall search is the minimum Manhattan distance to a wall in that column, or short.MaxValue when the column has none |
| Agent.NearestWallSpec | Assets/Scripts/Logic/AgentBehavior.cs:228-238 | the board-wide wall search is the minimum Manhattan distance to a breakable wall, or short.MaxValue when there is none |
| Agent.NextToWallSpec | Assets/Scripts/Logic/AgentBehavior.cs:218-223 | "next to a wall" holds iff some cell of the bomb's cross is breakable, that is, iff its blast would break a wall |
| Agent.ComputeReward | Assets/Scripts/Logic/AgentBehavior.cs:207-253 | death overrides everything; None earns exactly the alive reward; a bomb earns alive + brokenWalls * BreakWallReward plus the effective bonus iff its cross holds a wall, the ineffective one otherwise; a move that reaches its target earns alive + brokenWalls * BreakWallReward plus the distance shaping, never the +10 bonus |
| Agent.DefaultDeathRewardExact | Assets/Scripts/Logic/AgentBehavior.cs:209-210 | with the default constants the reward equals DeathReward iff the agent stands on an explosion |
| Agent.Observe | Assets/Scripts/Logic/AgentBehavior.cs:170-204 | the observed state carries the agent's cell, the tile grid and a danger map of the board's shape |
| Agent.TurnAfterClearing | Assets/Scripts/Logic/AgentBehavior.cs:259-260 | clearing explosions at the start of a turn changes neither the turn's tiles nor the walls broken |
| Agent.TrackedAtMostOne | Assets/Scripts/Logic/EnvironmentGenerator.cs:245 | a board with at most one armed bomb never has two detonations in a step, so the counter stays exact |
| Agent.TurnKeepsTracked | Assets/Scripts/Logic/AgentBehavior.cs:304-331 | a legal turn keeps "at most one armed bomb, and its timer equals the cooldown" |
| Agent.TurnWallCount | Assets/Scripts/Logic/AgentBehavior.cs:304-331 | after a legal turn the board holds its old walls less those the bomb step broke, because a new bomb lands on a walkable tile |
| Agent.AgentBehavior.constructor | Assets/Scripts/Logic/AgentBehavior.cs:95-96 | the fuse lies in 1..5 and the cooldown starts at 0 |
| Agent.AgentBehavior.OnBombsStepped | Assets/Scripts/Logic/AgentBehavior.cs:115-117 | the cooldown drops by one and never below 0 |
| Agent.AgentBehavior.GetLegalActions | Assets/Scripts/Logic/AgentBehavior.cs:134-167 | the built list is the legal-action list, in the source's order |
| Agent.AgentBehavior.AddDirection | Assets/Scripts/Logic/AgentBehavior.cs:142-146 | appends the move if its tile is walkable, then the bomb if the cooldown is 0 |
| Agent.AgentBehavior.MarkDanger | Assets/Scripts/Logic/AgentBehavior.cs:185-198 | the bomb's timer min-updates exactly the non-wall cells of its cross |
| Agent.AgentBehavior.RaiseDanger | Assets/Scripts/Logic/AgentBehavior.cs:185-186 | one cell is min-updated unless it is a wall or off the board |
| Agent.AgentBehavior.ScanStateCell | Assets/Scripts/Logic/AgentBehavior.cs:179-198 | one cell is copied, and the danger array advances to the partial danger after that cell |
| Agent.AgentBehavior.ScanStateColumn | Assets/Scripts/Logic/AgentBehavior.cs:178-200 | the inner loop copies a column and advances the danger array to the next column |
| Agent.AgentBehavior.GetCurrentState | Assets/Scripts/Logic/AgentBehavior.cs:170-204 | the result is the agent's cell, a copy of the tiles and the danger map of the live board |
| Agent.AgentBehavior.TakeAction | Assets/Scripts/Logic/AgentBehavior.cs:258-341 | the board, timers, cell and cooldown become those of one turn after clearing; the broken count is the walls destroyed; next is the new observation; the reward is ComputeReward on the state observed after clearing |
| Agent.AgentBehavior.ActAndScore | Assets/Scripts/Logic/AgentBehavior.cs:304-340 | acting, observing and scoring give the turn's new board, observation and reward |
| Agent.AgentBehavior.Act | Assets/Scripts/Logic/AgentBehavior.cs:262-331 | a bomb action places its bomb; any other action moves to its target; either way the bombs step once |
| Agent.AgentBehavior.MoveTo | Assets/Scripts/Logic/AgentBehavior.cs:325-331 | the agent moves, the board steps, and the cooldown ticks |
| Agent.AgentBehavior.PlaceBomb | Assets/Scripts/Logic/AgentBehavior.cs:305-324 | the board steps; the target becomes an unbreakable tile with the full fuse; the cooldown restarts; the agent stays |
| Agent.AgentBehavior.ArmBomb | Assets/Scripts/Logic/AgentBehavior.cs:321-324 | the target cell becomes unbreakable with timer bombTimer, and nothing else changes |
| QLearning.ZeroValues | Assets/Scripts/Logic/QLearning.cs:34-36 | a new value vector has one zero per action |
| QLearning.Fetched | Assets/Scripts/Logic/QLearning.cs:39-49 | fetching adds an unseen state with zeros, and keeps every known state and its values |
| QLearning.Stored | Assets/Scripts/Logic/QLearning.cs:52-63 | storing sets exactly the action's slot; other slots are kept, or 0 for a new state; no other state changes; the keys grow by at most the state |
| QLearning.StoreAfterFetch | Assets/Scripts/Logic/QLearning.cs:52-63 | storing after a fetch is the same as storing directly |
| QLearning.StoreSameValue | Assets/Scripts/Logic/QLearning.cs:52-56 | writing back the value a slot holds leaves the table unchanged |
| QLearning.FetchAfterStore | Assets/Scripts/Logic/QLearning.cs:39-63 | a fetch after a store changes nothing and reads back the stored value |
| QLearning.FrozenUpdate | Assets/Scripts/Logic/QLearning.cs:228-231 | with alpha 0 the update of a turn keeps every known state's values and only adds keys |
| QLearning.QTable.constructor | Assets/Scripts/Logic/QLearning.cs:27 | a new table is empty |
| QLearning.QTable.GetQValues | Assets/Scripts/Logic/QLearning.cs:39-49 | returns the stored vector of a known state and leaves the table unchanged; inserts and returns nine zeros for an unseen state |
| QLearning.QTable.SetQValue | Assets/Scripts/Logic/QLearning.cs:52-63 | the table becomes the stored table: only the one slot changes |
| QLearning.MaxOf | Assets/Scripts/Logic/QLearning.cs:229 | the maximum is at least every entry and is one of them |
| QLearning.MaxOfZeros | Assets/Scripts/Logic/QLearning.cs:229 | an unseen next state contributes 0 to the update |
| QLearning.Bellman | Assets/Scripts/Logic/QLearning.cs:230 | alpha 0 keeps the old value, alpha 1 gives the target reward + gamma * max, and any alpha in [0,1] lands between the two |
| QLearning.Decayed | Assets/Scripts/Logic/QLearning.cs:176-188 | not learning gives 0; without decay the parameter itself; with decay a value between the parameter and 0.001, equal to the parameter at episode 0 and to 0.001 once the budget is spent |
| QLearning.GreedyUnique | Assets/Scripts/Logic/QLearning.cs:204-219 | the greedy choice is unique |
| QLearning.GreedyOrdinal | Assets/Scripts/Logic/QLearning.cs:204-217 | the scan returns a legal ordinal whose value is at least every legal value, and the lowest such |
| QLearning.IndexOf | Assets/Scripts/Logic/QLearning.cs:218 | the first position of a present action, or -1 |
| QLearning.ChooseIndex | Assets/Scripts/Logic/QLearning.cs:198-219 | a roll below epsilon takes the random index; otherwise the index of the first occurrence of the greedy action |
| QLearning.EpisodeOverMeaning | Assets/Scripts/Logic/QLearning.cs:239 | with default rewards an episode ends iff the agent stands on an explosion, no breakable wall is left, or the turn budget is exceeded |
| QLearning.Recent | Assets/Scripts/Logic/QLearning.cs:244-246 | the window holds min(episodes, 100) outcomes |
| QLearning.EnqueueRecent | Assets/Scripts/Logic/QLearning.cs:244-246 | dequeueing when full and then enqueueing gives the window of the longer history |
| QLearning.RecordedOutcome | Assets/Scripts/Logic/QLearning.cs:240-250 | one more outcome adds a win exactly on a win, and the queue becomes the last min(n + 1, 100) outcomes |
| QLearning.RateBounds | Assets/Scripts/Logic/QLearning.cs:249-250 | a win rate lies in [0, 1] |
| QLearning.TurnConsistent | Assets/Scripts/Logic/QLearning.cs:222-225 | a legal turn aims on the board, has at most one detonation, and keeps the agent on the board, the counter exact and the bomb tracked |
| QLearning.TurnPlayable | Assets/Scripts/Logic/QLearning.cs:222-225 | the live board after a legal turn is playable |
| QLearning.ZeroTimersTracked | Assets/Scripts/Logic/QLearning.cs:156-168 | a fresh board has no bombs, so keeping the cooldown over a restart is consistent |
| QLearning.QLearning.constructor | Assets/Scripts/Logic/QLearning.cs:76-104 | a new trainer does not learn, has no table, and starts its counters at 0 |
| QLearning.QLearning.RatesInRange | Assets/Scripts/Logic/QLearning.cs:249-250 | both win rates lie in [0, 1] |
| QLearning.QLearning.SetLearning | Assets/Scripts/Logic/QLearning.cs:105-117 | on: a new empty table, the episode and turn counts at 0, no outcomes, and a fresh board (pattern tiles, zero timers, agent at the spawn cell) of the same size and pattern; off: decayed parameters zeroed, with table, counters, state and board kept; the cooldown is kept either way |
| QLearning.QLearning.StopLearning | Assets/Scripts/Logic/QLearning.cs:110-114 | learning is off and both decayed parameters are 0 |
| QLearning.QLearning.NewBoard | Assets/Scripts/Logic/QLearning.cs:158 | the board is regenerated with its size and pattern; the agent is at the spawn cell; the cooldown is kept |
| QLearning.QLearning.ObserveBoard | Assets/Scripts/Logic/QLearning.cs:163 | the current state becomes the observation of the live board |
| QLearning.QLearning.NewEpisode | Assets/Scripts/Logic/QLearning.cs:158-163 | a fresh board of the same size and pattern (pattern tiles, zero timers, agent at the spawn cell) with the cooldown kept, turn count 0, and the state observed on it |
| QLearning.QLearning.Initialize | Assets/Scripts/Logic/QLearning.cs:135-153 | a new empty table; a fresh board of the same size and pattern with the cooldown kept; all counters and the queue reset; the learning flag and decayed parameters kept |
| QLearning.QLearning.Clear | Assets/Scripts/Logic/QLearning.cs:137-149 | a new empty table and cleared records |
| QLearning.QLearning.ResetRecords | Assets/Scripts/Logic/QLearning.cs:144-149 | counters, rates and the queue are zero or empty |
| QLearning.QLearning.Restart | Assets/Scripts/Logic/QLearning.cs:156-168 | a fresh board of the same size and pattern with the cooldown kept, turn count 0, the same table and counters; learning stops (zeroing the decayed parameters) iff the episode count exceeds the budget |
| QLearning.QLearning.DecayParameters | Assets/Scripts/Logic/QLearning.cs:176-188 | each decayed parameter is Decayed(p, learning, decay, episodes, budget) |
| QLearning.QLearning.Step | Assets/Scripts/Logic/QLearning.cs:222-225 | the board, timers, cell and cooldown become those of one turn of the action; the counter drops by the walls the bomb step broke; the next state is the new observation; the reward is ComputeReward on the state observed after clearing and the state after the turn |
| QLearning.QLearning.LearnAndMove | Assets/Scripts/Logic/QLearning.cs:227-235 | the table is updated by the Bellman formula with the maximum over all nine values of the next state (fetched first); the current state advances and the turn is counted |
| QLearning.QLearning.ChooseAction | Assets/Scripts/Logic/QLearning.cs:192-220 | the action is legal; a roll below epsilon takes legal[pick mod n]; otherwise the greedy legal action of the current values |
| QLearning.QLearning.Act | Assets/Scripts/Logic/QLearning.cs:189-235 | one turn of a legal action breaks exactly the walls of the bomb step, keeps the board playable and the observation current, counts the turn and only adds keys; with alpha 0 no known value changes |
| QLearning.QLearning.StepAndLearn | Assets/Scripts/Logic/QLearning.cs:222-235 | the turn's board, timers, cell, cooldown, counter and reward are those of the chosen action; the table becomes the Bellman store for the old state and the action, with the maximum over the fetched next state; the state advances and the turn is counted |
| QLearning.QLearning.EndEpisode | Assets/Scripts/Logic/QLearning.cs:239-251 | the outcome (win iff no wall is left) is recorded, one more episode is counted, and a fresh board of the same size and pattern starts with turn count 0 and the cooldown kept |
| QLearning.QLearning.RecordOutcome | Assets/Scripts/Logic/QLearning.cs:240-250 | win count, queue and both rates describe the history extended by the outcome |
| QLearning.QLearning.FixedUpdate | Assets/Scripts/Logic/QLearning.cs:171-254 | without a table nothing changes; otherwise the parameters are decayed, the invariant holds, keys only grow, values stay frozen when not learning, learning never restarts by itself, a legal action breaks the walls of the bomb step, and the episode ends iff the reward is the death reward, no wall is left or the turn budget is exceeded: then the outcome is recorded and the board is fresh, otherwise the turn is counted |
| QLearning.QLearning.LearnTurn | Assets/Scripts/Logic/QLearning.cs:189-252 | a legal action breaks the walls of the bomb step; the episode ends iff the turn's reward is the death reward, no wall is left or the turn count exceeds the budget, recording the outcome and starting a fresh board with turn count 0; otherwise outcomes and counter stay and the turn is counted |
| QLearning.QLearning.FinishTurn | Assets/Scripts/Logic/QLearning.cs:237-252 | an episode is counted iff the reward is the death reward, no wall is left or the turn count exceeds the budget; then the outcome (win iff no wall) is recorded and a fresh board starts with turn count 0; otherwise nothing changes |

## Left out

- Rendering, prefabs, the camera, the bomb pool and the cosmetic bomb objects are not modelled. Only the grid arrays and the spawn cell are kept.
- Unity events and singletons (`BombsStepped`, `WallBroken`, `EpisodeStepped`, `LearningChanged`, `Instance`, `Awake`) are not modelled.
  - The board, agent and table are passed explicitly.
  - The cooldown tick runs as a direct call after each bomb step.
- The UI is not modelled, so the hyperparameters are constants of the trainer.
- `UnityEngine.Random` is not modelled. `roll` and `pick` are parameters of `FixedUpdate`.
- Floating point is not modelled: values, rewards and rates are `real`, and the `short` grids and counters are unbounded integers.
  - The model does not capture `Mathf.Lerp` rounding, `float.NegativeInfinity` (the `Best` datatype stands in for it), or wrap-around.
  - Split's `(int)((float)W / 2)` is `W / 2` on board sizes.
- The integer value of `GetHashCode` is not modelled. States are keys by value, so equal states hash alike.
- Q-value vectors are values stored in the map, not arrays shared with the caller. The source reads `qValues[action]` before it writes through `SetQValue`, so the aliasing does not change what is computed.
- Agent.AgentBehavior.constructor: the fuse range 1..5 of the inspector is a precondition.
- QLearning.QLearning.constructor: `MaximumEpisodeCount > 0` is required. The source relies on its inspector range and divides by it.
- QLearning.QLearning.FixedUpdate: the check that `ModelTransform` is null is not modelled, because the agent object always exists here.
  - Its contract does not repeat the turn's reward formula, the epsilon-greedy choice or the Q-value update. The ghost `reward` it names is the one `QLearning.QLearning.StepAndLearn` computes, and that method and `QLearning.QLearning.Step` state its formula. `QLearning.QLearning.ChooseAction` states the choice and `QLearning.QLearning.LearnAndMove` the update. The formula is left at that level to keep the trainer-level proofs within the verifier's resource limit.
- QLearning.QLearning.LearnTurn: the same as `FixedUpdate`: the reward it names is stated by `QLearning.QLearning.StepAndLearn`, not in its own contract.
- QLearning.QLearning.Act: does not state the epsilon-greedy choice, the new board, the reward or the update. `QLearning.QLearning.ChooseAction` and `QLearning.QLearning.StepAndLearn` state them.
- Environment.CanSpawnBreakableWall: the Split rule is stated only by its definition; the Split board is covered through `Environment.PatternTiles` and `Environment.SpawnIsWalkable`.
- QLearning.QLearning.SetLearning: requires the trainer invariant, which every method of the trainer keeps. `GetComponent` and the bomb pool are not modelled.
- QLearning.QLearning.Initialize: requires a board of at least one cell, so that the spawn cell lies on it. `GetComponent` and `GenerateBombPool` are not modelled.
- QLearning.QLearning.Restart: requires a board of at least one cell, for the same reason. `GenerateBombPool` is not modelled.
- QLearning.QLearning.NewBoard: requires a board of at least one cell, for the same reason.
- Agent.AgentBehavior.TakeAction: requires a bomb's target to be on the board, where the source would raise an index error.
  - It also requires a moving agent to start on the board, where the source indexes the danger map.
  - The trainer only passes legal actions, and `QLearning.TurnConsistent` proves both conditions for them.
- Agent.AgentBehavior.PlaceBomb: restarts the cooldown after the grid writes, not before. The two touch different objects, so the outcome is the same.
