# Light-cycle game core, modelled in Dafny

This project models the deterministic core of a light-cycle arena game. Each
vehicle moves at constant speed, steers with a first-order turn lag and leaves a
blinking trail. It dies when it crosses a solid trail or leaves a circular arena
that shrinks over time.

The model covers these parts:

- **Simulation tick.** Turn physics, trail emission with the blink cadence and
  the splitting of long moves, and the segment-crossing and wall tests. Also the
  arena shrink, elimination tagging, the uniform-grid trail index and the world
  step built from them.
- **Match and bot logic.** Outcome evaluation and the per-bot decision cache
  with its anti-spiral rule. Also the Fisher-Yates role assignment, the
  difficulty tables, the edge-steering bot, spawn placement, multi-step advance
  and the fixed-step accumulator of the frame loop.
- **Host boundary.** Server input coercion, world creation and snapshot
  building, and the client's snapshot-to-world rebuild.
- **Small pure helpers.** Rolling performance statistics, the environment
  update gate, colour selection from an id's digits, and the elimination-effect
  curves. Also the chase camera, scene sizing, the environment layout, the
  minimap projection and draw stride, and the menu label mappers.

## Modelling conventions

- **Numbers.** JavaScript numbers are `real`.
- **Host maths.** `Math.cos`, `Math.sin` and `Math.sqrt` (behind `Math.hypot`)
  come in as a `MathLib` value. It is constrained only by `Numerics.Valid`:
  cos² + sin² = 1, cos 0 = 1, sin 0 = 0, and sqrt is the non-negative square
  root. `Math.PI` is the decimal 3.141592653589793.
- **Rounding and remainder.** `Math.floor`, `Math.ceil` and `Math.round` are
  exact. JavaScript's `%` is truncating (`Numerics.JsMod`).
- **Randomness.** `rng()` is an explicit stream `Draws = nat -> real`, where
  `draws(k)` is the k-th call. Where the source calls `rng` once, it is a single
  draw.
- **Configuration.** `CONFIG` is an explicit `SimConfig` record.
  - The world step reads `openingGrace`, `selfTrailGrace` and `trailLifetime`,
    but the shipped object in `src/sim/config.ts` lacks all three.
  - The model therefore makes them `Option<real>`. Each reader reproduces what
    JavaScript does with `undefined`: `time >= undefined` is false,
    `undefined > 0` is false, and `?? 0` applies.
  - Under the shipped configuration, no trail collision is ever tested and
    trails are never pruned (`Config.ShippedIsSteppable`).
- **`updateTrail` interface.** Caller and callee disagree:
  - `src/sim/step.ts` passes no `trails` and reads `.segments`;
  - `src/sim/trails.ts` takes `trails` and returns a grown `trails`.

  The world step follows the caller: `TrailEmitter.UpdateTrail` reports the new
  segments. The callee's list-returning form is `TrailEmitter.UpdateTrailList`,
  and it is proved equal to the input list followed by those segments.
- **Collision modes.** The world step takes a `CollisionMode`:
  - `Indexed`: candidates come from the grid;
  - `BruteForce`: the whole list is tested.

  `WorldStep.ModesAgree` proves that both give the same world, except for which
  trail owner a multi-trail death names.

## Model

| member | source | states |
|---|---|---|
| Vec.MakeVec | src/sim/math.ts:3 | `vec2(x, y)` has exactly the given components |
| Vec.Add | src/sim/math.ts:4 | the sum is componentwise |
| Vec.Scale | src/sim/math.ts:5 | both components are multiplied by the factor |
| Vec.Length | src/sim/math.ts:6 | the length is non-negative and its square is x² + y² |
| Vec.ScaleLengthSq | src/sim/math.ts:5-6 | scaling by s multiplies the squared length by s² |
| Vec.VectorExamples | src/sim/__tests__/math.test.ts:6-12 | add((3,4),(1,2)) = (4,6), scale((3,4),2) = (6,8), length((3,4)) = 5 |
| Numerics.HypotCompare | src/sim/collision.ts:60 | comparing `Math.hypot(x, y)` with a non-negative bound is the same as comparing squares |
| Numerics.Floor | src/sim/step.ts:21 | `Math.floor`: the greatest integer not above x |
| Numerics.Ceil | src/sim/trails.ts:27 | `Math.ceil`: the least integer not below x |
| Numerics.Round | src/game/time.ts:10 | `Math.round`: the nearest integer, halves rounding up |
| Numerics.Trunc | src/sim/trails.ts:16 | truncation toward zero, as used by JavaScript `%`; never further from zero than x |
| Numerics.JsModNonNegative | src/sim/trails.ts:15-16 | for a non-negative time and a positive period, `time % period` lies in [0, period) and equals time − period·floor(time/period) |
| Physics.Alpha | src/sim/physics.ts:16 | the lag factor min(1, dt/inertia) is at most 1, non-negative for dt ≥ 0 and inertia > 0, and exactly 1 once dt ≥ inertia |
| Physics.StepPhysics | src/sim/physics.ts:14-24 | the new turn rate lies between the old one and input·turnRate and reaches it when dt ≥ inertia; heading' = heading + turnVel'·dt; the move is speed·dt along the new heading, so its squared length is (speed·dt)² |
| Physics.TurnVelStaysBounded | src/sim/physics.ts:15-17 | a turn rate within ±turnRate stays within it for every input |
| Physics.StraightKeepsHeading | src/sim/physics.ts:18 | with input 0 and no residual turn the heading is unchanged |
| Physics.TurnFromRestIncreasesHeading | src/sim/physics.ts:15-18 | from rest, holding input 1 strictly increases the heading |
| TrailEmitter.Pieces | src/sim/trails.ts:27-46 | a long move is cut into exactly `parts` pieces |
| TrailEmitter.PieceDelta | src/sim/trails.ts:30-42 | every piece spans the same 1/parts share of the move |
| TrailEmitter.PiecesChain | src/sim/trails.ts:29-46 | the pieces chain end to start, from prev to next |
| TrailEmitter.PieceShort | src/sim/trails.ts:26-46 | each piece of a ceil(length/4) split is at most 4 long |
| TrailEmitter.PiecesShort | src/sim/trails.ts:26-46 | every piece of the split is at most 4 long |
| TrailEmitter.UpdateTrail | src/sim/trails.ts:15-69 | the cadence flag is `time % (gapOn+gapOff) < gapOn`; gapTimer = time; in the gap no segment and no id; when drawing, the returned id is the old id plus the number of segments (at least one); ids run consecutively and every segment has createdAt = time and solidAt = time + solidifyDelay |
| TrailEmitter.UpdateTrailShortMove | src/sim/trails.ts:55-69 | a drawn move of length ≤ 4 is the single segment prev→next with id trailId+1 |
| TrailEmitter.UpdateTrailLongMove | src/sim/trails.ts:26-52 | a drawn move longer than 4 gives ceil(length/4) ≥ 2 pieces chaining prev to next, each at most 4 long |
| TrailEmitter.UpdateTrailList | src/sim/trails.ts:4-70 | the list-returning form equals the input list followed by the new segments, with the same flag, timer and id |
| TrailEmitter.CadenceIsGlobal | src/sim/trails.ts:15-17 | the cadence flag depends only on the time, not on the owner or the move |
| TrailEmitter.NoGapAlwaysDraws | src/sim/trails.ts:15-17 | with gapOff = 0 every non-negative time draws |
| TrailEmitter.LongMoveExample | src/sim/__tests__/trails.test.ts:19-34 | a 100-unit move becomes 25 pieces from (0,0) to (100,0), and the id moves from 1 to 26 |
| Collision.ParamsMeet | src/sim/collision.ts:12-17 | for non-parallel segments the parameters t and u name the same point on both lines |
| Collision.ParamsUnique | src/sim/collision.ts:12-17 | no other parameter pair names a common point |
| Collision.SegmentsIntersect | src/sim/collision.ts:11-19 | true exactly when the segments are not parallel and share a point (both parameters in [0,1]) |
| Collision.CrossingFromWitness | src/sim/collision.ts:11-19 | any common point of non-parallel segments makes the test true |
| Collision.CrossingPoint | src/sim/collision.ts:11-19 | an intersection point lies in both segments' bounding boxes |
| Collision.PrefilterSound | src/sim/collision.ts:40-50 | the bounding-box prefilter never discards a crossing |
| Collision.IntersectsAny | src/sim/collision.ts:21-58 | a hit is reported exactly when some trail is hit, and the reported owner is the owner of the first hit trail in list order; otherwise there is no owner |
| Collision.HitDependsOnlyOnHitTrails | src/sim/collision.ts:21-58 | any sub-list that keeps every hit trail gives the same hit flag |
| Collision.ExemptionRules | src/sim/collision.ts:34-38 | a trail that is not yet solid never hits; without selfId, or for another owner, only the solidify rule exempts |
| Collision.EmptyListNeverHit | src/sim/collision.ts:57 | an empty trail list gives no hit |
| Collision.OutOfBoundsSquared | src/sim/collision.ts:60 | a point is out exactly when x² + y² > arenaHalf² for arenaHalf ≥ 0, and always out for a negative half-size |
| Collision.OutOfBounds | src/sim/collision.ts:60 | with a valid host, a point is out exactly when the half-size is negative or the point lies strictly outside the circle of that radius |
| Collision.SingleTrailHit | src/sim/collision.ts:33-54 | a single hit trail is reported with its owner |
| Collision.CrossingExample | src/sim/__tests__/collision.test.ts:4-22 | the move (0,0)→(2,0) hits p2's trail (1,−1)→(1,1), owner p2 |
| Collision.GraceExample | src/sim/__tests__/collision.test.ts:24-43 | p1's own trail laid at 1 gives no hit at 1.2 with grace 0.35 |
| Collision.WallExample | src/sim/__tests__/collision.test.ts:45-47 | (6,0) is out of an arena of radius 5 |
| Collision.CollinearNeverCrosses | src/sim/collision.ts:15 | overlapping collinear segments never count as crossing |
| Shrink.ArenaHalfAt | src/sim/shrink.ts:1-12 | `half` up to start; half·shrinkTo from end on; always between the two |
| Shrink.ArenaNeverGrows | src/sim/shrink.ts:8-11 | with half ≥ 0 and shrinkTo ≤ 1 the half-size is non-increasing in time |
| Shrink.ShippedSchedule | src/sim/__tests__/shrink.test.ts:3-10 | 50 at time 0, 35 at 40, 20 at the end of the shrink at 60 and still 20 at 90, under the 20–60 s, 0.4 schedule |
| Match.ResolveElimination | src/sim/match.ts:8-21 | no hit returns the player unchanged; a hit marks it dead at `time` with the hit's reason and culprit; no other field changes |
| Match.ResolveIdempotent | src/sim/match.ts:13-20 | resolving the same hit at the same time twice equals resolving it once |
| Config.BucketPad | src/sim/step.ts:11 | the grid padding is non-negative for a non-negative trail width |
| Config.ShippedIsSteppable | src/sim/config.ts:1-14 | the shipped configuration is steppable, never prunes, and never passes the opening grace |
| SpatialIndex.BucketIndexMonotone | src/sim/step.ts:21 | the cell index is monotone in the coordinate |
| SpatialIndex.BucketIndex | src/sim/step.ts:21 | the cell index i is the one whose band [28i, 28(i+1)) holds the coordinate |
| SpatialIndex.Push | src/sim/step.ts:33-38 | pushing appends to exactly one cell's list, creating it when absent |
| SpatialIndex.AddTrail | src/sim/step.ts:24-41 | `addTrailToBuckets` appends the trail to every cell of its padded box and to no other |
| SpatialIndex.Covering | src/sim/step.ts:24-41 | a cell's list holds exactly the trails whose padded box covers it |
| SpatialIndex.Build | src/sim/step.ts:53-55 | building the index from a list gives every cell exactly its covering trails |
| SpatialIndex.CatchUp | src/sim/step.ts:53-55 | indexing the remaining trails on top of a prefix's index gives the index of the whole list |
| SpatialIndex.EnsureTrailBuckets | src/sim/step.ts:43-58 | from any fitting cache entry or none, the result indexes the whole list and records its length |
| SpatialIndex.FindKey | src/sim/step.ts:72 | finds a position holding the `owner:id` key, or reports that none does |
| SpatialIndex.Upsert | src/sim/step.ts:72 | `Map.set` on insertion order: a new key is appended, an existing key is replaced in place; the key set grows by exactly that key and keys stay unique |
| SpatialIndex.UpsertAll | src/sim/step.ts:71-73 | every trail of a cell list ends up keyed in the map, and nothing foreign is added |
| SpatialIndex.ScanColumn | src/sim/step.ts:68-74 | one column of cells contributes all its trails' keys |
| SpatialIndex.ScanColumns | src/sim/step.ts:67-75 | every cell in the range contributes all its trails' keys |
| SpatialIndex.Candidates | src/sim/step.ts:60-78 | the candidates have unique keys, include every trail stored in a cell of the move's padded box, and include only stored trails |
| SpatialIndex.StoredInBuild | src/sim/step.ts:24-41 | a trail stored in the index is in the list |
| SpatialIndex.CandidatesComplete | src/sim/step.ts:21-78 | with unique keys and pad ≥ 0, every trail the move hits is a candidate |
| SpatialIndex.IndexedVerdictAgrees | src/sim/step.ts:130-138 | with unique keys and pad ≥ 0, testing the candidates gives the same hit flag as testing the whole list |
| WorldStep.Extend | src/sim/step.ts:122-127 | new segments are appended to the trail list and the index stays current |
| WorldStep.StepPlayer | src/sim/step.ts:97-158 | the id is kept; a dead player is unchanged; the list grows only at its end, with this player's segments of this tick carrying consecutive ids above the old counter; the counter only grows; a death happens at this tick's time |
| WorldStep.StepPlayerFate | src/sim/step.ts:100-158 | position, heading and turn rate come from the physics; a wall hit kills with reason Wall and no culprit; otherwise a trail hit kills with reason Trail naming the owner; otherwise the player lives |
| WorldStep.OpeningGraceOnlyWalls | src/sim/step.ts:129-139 | before the opening grace a live player dies exactly when it leaves the arena |
| WorldStep.MissingInputSteersStraight | src/sim/step.ts:99 | a missing input is the same as input 0 |
| WorldStep.StepPlayers | src/sim/step.ts:97-159 | the player list keeps its length, order and ids; dead players are unchanged; counters only grow; the trail list only grows at its end |
| WorldStep.StepPlayersInOrder | src/sim/step.ts:97-127 | with distinct player ids, the segments appended during the loop come in player order: none laid by a later player precedes one laid by an earlier player |
| WorldStep.StepPlayersLaid | src/sim/step.ts:111-127 | every new trail was laid this tick by some player, within that player's new ids |
| WorldStep.KeepRecent | src/sim/step.ts:166 | the filter keeps exactly the trails created at or after the cutoff, never lengthens the list, and keeps the keys distinct |
| WorldStep.KeepRecentConcat | src/sim/step.ts:166 | filtering a concatenation is the concatenation of the filtered parts, so the kept trails stay in list order |
| WorldStep.KeepRecentSingle | src/sim/step.ts:166 | a single trail is kept exactly when it was created at or after the cutoff |
| WorldStep.PruneCutoff | src/sim/step.ts:163-165 | pruning applies exactly when trailLifetime > 0 and the cutoff time − trailLifetime is positive |
| WorldStep.Prune | src/sim/step.ts:161-175 | without a cutoff the list is kept; with one exactly the trails created at or after it remain, as the order-keeping filter gives them |
| WorldStep.StepWorld | src/sim/step.ts:80-183 | time advances by dt; running is kept; the player list keeps its length, order and ids; dead players are unchanged |
| WorldStep.TickArena | src/sim/step.ts:85-92 | the tick's half-size is arenaHalfAt(time + dt, arenaSize/2, …) and, on schedule, never larger than before |
| WorldStep.StepWorldTick | src/sim/step.ts:177 | the stepped world carries the tick's half-size |
| WorldStep.StepWorldTrails | src/sim/step.ts:93-177 | every trail afterwards is old or created this tick; without pruning the old list is a prefix; with pruning exactly the recent old trails survive |
| WorldStep.PruneSplit | src/sim/step.ts:161-175 | pruning a list that grew by appending prunes the old part and the appended part separately, keeping the old survivors first |
| WorldStep.StepWorldOrder | src/sim/step.ts:93-177 | the trails afterwards are the old list followed by this tick's segments, each part filtered in order when pruning applies; with distinct player ids the new segments come in player order |
| WorldStep.StepWorldKeepsInv | src/sim/step.ts:72-183 | distinct player ids, unique `owner:id` trail keys and trail ids within their owners' counters survive a tick |
| WorldStep.ModesAgree | src/sim/step.ts:21-144 | under that invariant, a tick with grid candidates equals a tick testing every trail, except possibly the culprit named for a trail death |
| Advance.StepCount | src/game/time.ts:10 | at least one step; above one it is ms/(dt·1000) rounded; exactly one only when ms/(dt·1000) rounds to at most one (is below 1.5) |
| Advance.NonPositiveSpanIsOneStep | src/game/time.ts:10 | ms ≤ 0 gives exactly one step |
| Advance.AdvanceWorld | src/game/time.ts:4-16 | the result is the world step applied StepCount times with the same inputs and dt |
| Advance.AdvanceTime | src/game/time.ts:11-15 | n steps advance the time by n·dt |
| Advance.AdvanceKeepsInv | src/game/time.ts:11-15 | the world invariant survives an advance |
| Advance.OneSecondAtSixtyHz | src/game/__tests__/time.test.ts:15-18 | 1000 ms at dt = 1/60 is 60 steps |
| Advance.OneSecondAdvance | src/game/__tests__/time.test.ts:15-18 | advancing 1000 ms at 60 Hz from time 0 reaches time 1 |
| FixedStep.PayOut | src/game/loop.ts:32-36 | each step consumes exactly dt; the loop stops at 8 steps or when less than dt is left; the accumulator stays non-negative |
| FixedStep.Tick | src/game/loop.ts:24-46 | a stopped loop does nothing; a frame runs at most 8 steps and keeps the running flag |
| FixedStep.TickKeepsBacklogSmall | src/game/loop.ts:28-41 | after a frame the accumulator is in [0, dt): either eight steps ran and the leftover backlog was dropped to 0, or it is the old value plus min(frame, 0.25) minus the steps run |
| FixedStep.BacklogDropped | src/game/loop.ts:38-41 | a 0.25 s frame at dt 0.025 runs 8 steps and drops the rest; 0.05 s runs 2 |
| FixedStep.Stop | src/game/loop.ts:51-53 | `stop()` clears the running flag and nothing else |
| FixedStep.StoppedStaysIdle | src/game/loop.ts:25-53 | after stop every tick does no work |
| Bot.ChooseBotInput | src/sim/bot.ts:4-13 | past 0.8·arenaHalf in x it steers against the sign of x; else past it in y against the sign of y; it goes straight exactly inside the box |
| Bot.BotMirror | src/sim/bot.ts:9-13 | reflecting the position through the centre reverses the steering, off the axes |
| Roles.HunterCount | src/sim/botRoles.ts:5-9 | HARD 2, MEDIUM 1, EASY 0 |
| Roles.SwapIndexInRange | src/sim/botRoles.ts:21 | a draw in [0,1) gives a swap index in [0, i] |
| Roles.ShufflePool | src/sim/botRoles.ts:18-23 | the shuffled pool is a permutation of the ids |
| Roles.RolesOf | src/sim/botRoles.ts:25-27 | every id in the pool gets a role and nothing else does |
| Roles.RolesByPosition | src/sim/botRoles.ts:25-27 | with distinct ids each id hunts exactly when its position is below the hunter count |
| Roles.HuntersArePrefix | src/sim/botRoles.ts:25-27 | the hunters are exactly the first min(count, pool size) pool entries |
| Roles.AssignBotRoles | src/sim/botRoles.ts:11-30 | every id gets exactly one role; with distinct ids the number of hunters is min(getHunterCount(d), number of ids) |
| DifficultyTable.GetDifficultyProfile | src/sim/difficulty.ts:12-43 | the profile names the requested difficulty; chances lie in [0,1); EASY never cooperates |
| DifficultyTable.ProfilesOrdered | src/sim/difficulty.ts:13-42 | aggression, pressure, reaction scale and cooperation rise, and risk tolerance falls, with difficulty |
| TrailLifetime.LifetimesOrdered | src/game/trailDifficulty.ts:5-12 | lifetimes are positive and strictly increase with difficulty |
| TrailLifetime.LifetimeFor | src/game/trailDifficulty.ts:5-12 | every lifetime lies between 45 s and 120 s |
| TrailLifetime.LifetimeTable | src/game/trailDifficulty.ts:5-9 | EASY keeps trails 45 s, MEDIUM 80 s, HARD 120 s |
| TrailLifetime.ApplyLifetime | src/game/trailDifficulty.ts:14-16 | sets trailLifetime to the table value, changes no other field, and switches pruning on |
| TrailLifetime.ApplyIdempotent | src/game/trailDifficulty.ts:14-16 | applying twice equals applying the last difficulty once |
| Outcome.FindPlayer | src/game/outcome.ts:20 | finds the first player with the id, or reports that none has it |
| Outcome.AlivePlayers | src/game/outcome.ts:23 | exactly the living players, and no more of them than players |
| Outcome.EvaluateOutcome | src/game/outcome.ts:15-56 | a missing id is not finished; every finished outcome has survival = world.time; only ELIMINATED carries a reason and culprit, and it is reported only for a dead tracked player; a victory is always won by the tracked player |
| Outcome.EliminatedOutcome | src/game/outcome.ts:26-35 | a dead tracked player gives ELIMINATED with its reason and culprit, and winner "none" when nobody lives |
| Outcome.WinnerIsFirstAlive | src/game/outcome.ts:26-44 | ELIMINATED and TIME_UP name the first living player as winner |
| Outcome.FinishedWhen | src/game/outcome.ts:20-55 | finished exactly when the player exists and is dead, or time is up, or at most one lives; ELIMINATED exactly when the tracked player is dead; TIME_UP exactly when it is alive and time is up; VICTORY exactly when it is alive before time with at most one alive, and then it is the winner and the only one alive |
| Outcome.OutcomeExamples | src/game/__tests__/outcome.test.ts:25-59 | victory, time-up, elimination and missing-player cases on two-player worlds |
| DecisionCache.IntervalsOrdered | src/game/botDecisionCache.ts:12-16 | decision intervals are positive and strictly EASY > MEDIUM > HARD |
| DecisionCache.DecisionInterval | src/game/botDecisionCache.ts:12-16 | every decision interval lies between 0.125 s and 0.19 s |
| DecisionCache.DecisionTables | src/game/botDecisionCache.ts:12-28 | intervals 0.19/0.155/0.125 s, turn-streak limits 4/6/7 and breakout windows 0.68/0.58/0.52 s for EASY/MEDIUM/HARD |
| DecisionCache.NextStreak | src/game/botDecisionCache.ts:43-51 | the same non-zero input adds one, a new non-zero input sets one, zero resets |
| DecisionCache.Get | src/game/botDecisionCache.ts:38-70 | inside a breakout window it returns 0 without thinking; before nextThinkAt it repeats the cached input without thinking; otherwise it thinks, stores the answer under this id only, and schedules the next decision within ±10% of the interval. A streak that stays within the limit passes the planner's input through, stores the extended or restarted streak and keeps the breakout deadline; a streak past the limit comes out 0 with streak 0 and a breakout window starting now |
| DecisionCache.Reset | src/game/botDecisionCache.ts:72-74 | the reset state holds no entry |
| DecisionCache.ResetForcesThinking | src/game/botDecisionCache.ts:72-74 | after a reset the next get thinks and returns the computed input |
| DecisionCache.StreaksStayBounded | src/game/botDecisionCache.ts:53-59 | streaks never exceed the limit; a decision that would exceed it comes out 0 with streak 0 and a breakout window of BREAKOUT_DURATION |
| DecisionCache.SpiralBreaksAfterLimit | src/game/botDecisionCache.ts:43-67 | the turn that reaches the limit passes; the next identical turn is replaced by a breakout |
| Spawn.RandomBetween | src/game/spawn.ts:14-15 | a draw in [0,1] lands between the bounds |
| Spawn.Limit | src/game/spawn.ts:20-22 | the sampling half-width is non-negative and at most max(0, arenaHalf) |
| Spawn.HeadingInRange | src/game/spawn.ts:41 | a draw in [0,1) gives a heading in [0, 2π) |
| Spawn.SampleSpawns | src/game/spawn.ts:24-43 | at most the budget of attempts and `count` points; sampled points lie in the square, have headings in [0, 2π) and are pairwise at least minDistance apart; a shortfall means the budget is spent |
| Spawn.AppendFallback | src/game/spawn.ts:45-55 | appends exactly the remaining points, evenly spaced on the fallback circle, keeping the sampled prefix |
| Spawn.GenerateSpawnPoints | src/game/spawn.ts:17-58 | exactly max(0, count) points; the sampled ones are in the square, spaced and headed in [0, 2π); the circle is used only once the budget is spent, with radius 0.65·limit |
| Spawn.FallbackOnCircle | src/game/spawn.ts:47-51 | a fallback point lies on the circle of the fallback radius |
| Spawn.SpacedSquared | src/game/spawn.ts:33-37 | spaced points are at squared distance at least minDistance² |
| Spawn.BudgetDefaults | src/game/spawn.ts:21 | the default budget is count·200, and an explicit 0 is honoured |
| InputCoercion.Pressed | server/inputs.ts:7-8 | an absent field counts as not pressed |
| InputCoercion.CoerceInput | server/inputs.ts:6-11 | −1 exactly when only left is pressed, 1 exactly when only right is, 0 exactly when both or neither are |
| InputCoercion.CoerceMirror | server/inputs.ts:9-10 | swapping the keys negates the result |
| InputCoercion.CoerceExamples | server/__tests__/inputs.test.ts:9-11 | the left, right, both, neither and absent-field cases |
| SimAdapter.SeatCount | server/simAdapter.ts:22 | max(1, number of ids) |
| SimAdapter.SeatAngle | server/simAdapter.ts:25 | the first seat is at angle 0 |
| SimAdapter.Seat | server/simAdapter.ts:24-36 | a fresh, alive player with zeroed transient fields, on the start ring at its seat's angle, facing the opposite way |
| SimAdapter.CreateWorld | server/simAdapter.ts:19-45 | time = now, no trails, running, arenaHalf = arenaSize/2; player i is seat i of max(1, n) on the ring of radius 0.6·arenaHalf |
| SimAdapter.SeatsEvenlySpaced | server/simAdapter.ts:22-25 | consecutive seats are 2π/count apart |
| SimAdapter.CreatedInsideArena | server/simAdapter.ts:20-28 | every start position is strictly inside the arena circle and within the square |
| SimAdapter.CreatedWorldInv | server/simAdapter.ts:19-45 | a world created from distinct ids satisfies the world-step invariant |
| SimAdapter.View | server/simAdapter.ts:52-58 | a player's view copies id, position, heading, alive flag and elimination time |
| SimAdapter.BuildSnapshot | server/simAdapter.ts:47-61 | tick, time, half-size and trails are copied; players are projected in order |
| NetSnapshot.Rebuild | src/net/snapshot.ts:9-19 | the rebuilt player has the view's fields and reset transient fields |
| NetSnapshot.SnapshotToWorld | src/net/snapshot.ts:3-21 | time, half-size and trails copied, running set, players rebuilt in order |
| NetSnapshot.SnapshotRoundTrip | src/net/snapshot.ts:3-21 | building a snapshot of a rebuilt world gives the original snapshot back |
| NetSnapshot.WorldRoundTrip | src/net/snapshot.ts:3-21 | a world's snapshot rebuilds to a world with the same time, half-size, trails and player views |
| NetSnapshot.CreatedWorldRoundTrip | src/net/snapshot.ts:3-21 | a freshly created world survives the round trip unchanged |
| NetSnapshot.RebuiltCountersRestart | src/net/snapshot.ts:18 | the rebuilt world keeps trail ids within their owners' counters exactly when every listed owner's trail id is ≤ 0 |
| PerfStats.Average | src/game/perf.ts:20-21 | 0 on an empty list, otherwise the value whose n-fold is the sum |
| PerfStats.AverageBetween | src/game/perf.ts:20-21 | the average of a non-empty list lies between its minimum and maximum |
| PerfStats.Sort | src/game/perf.ts:25 | sorting gives a sorted permutation |
| PerfStats.Rank | src/game/perf.ts:26 | the least integer not below p(n−1), capped at n−1: it is n−1 or at least p(n−1), and one less than it is below p(n−1); non-negative for p ≥ 0 |
| PerfStats.Percentile | src/game/perf.ts:23-28 | 0 on an empty list; otherwise defined exactly when the rank is non-negative (always for p ≥ 0), and then the element at that rank of the sorted permutation of the input |
| PerfStats.SortedLastIsMax | src/game/perf.ts:25-27 | the last sorted element is the maximum |
| PerfStats.SortedFirstIsMin | src/game/perf.ts:25-27 | the first sorted element is the minimum |
| PerfStats.PercentileMonotone | src/game/perf.ts:23-28 | a larger p never gives a smaller percentile |
| PerfStats.PercentileEnds | src/game/perf.ts:23-28 | p = 0 gives the minimum and p = 1 the maximum |
| PerfStats.CreateTracker | src/game/perf.ts:30-31 | an empty window with capacity 180 unless given |
| PerfStats.Newest | src/game/perf.ts:35-37 | the window is the last min(n, capacity) entries of the history |
| PerfStats.Record | src/game/perf.ts:33-38 | after a push the window is the newest part of the history, and the new sample is last when the capacity is at least 1 |
| PerfStats.RecordNewest | src/game/perf.ts:33-38 | recording preserves "the window is the newest part of everything recorded" |
| PerfStats.WindowIsNewest | src/game/perf.ts:33-38 | after any run of records the window is the newest part of the whole history |
| PerfStats.Column | src/game/perf.ts:41-44 | a column has one entry per sample, in order |
| PerfStats.MaxOr0 | src/game/perf.ts:56-68 | 0 on an empty window, otherwise the true maximum |
| PerfStats.Summary | src/game/perf.ts:46-69 | the average is `average`, the maximum is the true maximum or 0, and the average lies between the minimum and the maximum |
| PerfStats.Fps | src/game/perf.ts:52 | for a positive average frame time fps·avg = 1000, otherwise 0 |
| PerfStats.P95 | src/game/perf.ts:55 | the 95th percentile, 0 when empty, an element of the column otherwise |
| PerfStats.TakeSnapshot | src/game/perf.ts:40-73 | each column's statistics, fps from the frame average, p95 of frames, and players and trails from the newest sample (0 when none) |
| PerfStats.FrameStatsExample | src/game/__tests__/perf.test.ts:10-14 | frames 10, 20, 30 give avg 20, max 30, p95 30, fps 50 |
| PerfStats.WindowExample | src/game/__tests__/perf.test.ts:4-7 | three records into a window of three keep all three in order |
| PerfStats.PerfExample | src/game/__tests__/perf.test.ts:3-15 | the three-sample window gives frame (20, 30), p95 30, fps 50, sim avg 6, 8 players |
| EnvGate.CreateGate | src/render/envGate.ts:6-7 | a fresh gate starts at frame 0 with no samples |
| EnvGate.Push | src/render/envGate.ts:14-15 | the window keeps the newest sampleSize values |
| EnvGate.ShouldUpdate | src/render/envGate.ts:12-26 | the frame counter increments; a spike or a full slow window blocks the update; otherwise the update happens exactly on the stride |
| EnvGate.GateTracksHistory | src/render/envGate.ts:13-15 | after any run of calls the counter has advanced by the run's length and the window is the newest part of the history |
| EnvGate.StrideExample | src/render/__tests__/envGate.test.ts:3-8 | stride 3 gives false, false, true |
| EnvGate.SpikeExample | src/render/__tests__/envGate.test.ts:10-15 | 20 ms passes, then two 50 ms spikes are blocked |
| Palette.DigitPrefix | src/render/palette.ts:14 | the run of digits at the front of a string, ended by a non-digit or the end |
| Palette.FirstDigitRun | src/render/palette.ts:14-15 | none exactly when the id has no digit; otherwise the first maximal run of digits |
| Palette.ExtractIndex | src/render/palette.ts:13-17 | 0 without digits, otherwise max(0, n − 1) for the first decimal run n |
| Palette.GetPlayerColor | src/render/palette.ts:19-23 | "p1" gets PLAYER_COLOR; any other id gets BOT_COLORS[index mod 7] |
| Palette.BotColorIsInCycle | src/render/palette.ts:22 | every other id gets a bot colour, never the player's |
| Palette.SingleDigitBot | src/render/palette.ts:13-22 | a letter followed by digit d ≥ 1 gets colour d − 1 |
| Palette.BotColorsDistinct | src/render/palette.ts:3-11 | the seven bot colours are pairwise different |
| Palette.BotsGetDistinctColors | src/render/__tests__/palette.test.ts:7-11 | b1 … b7 receive seven different colours |
| Palette.ThirdBotColor | src/render/palette.ts:6-22 | "b3" gets 0xff7a00 |
| Palette.NoDigitsFirstColor | src/render/palette.ts:15-22 | an id without digits gets the first bot colour |
| EliminationFx.ShouldPlaySound | src/render/elimination.ts:10-17 | plays when nothing was played before; otherwise exactly when the cooldown has passed |
| EliminationFx.FlashIntensity | src/render/elimination.ts:19-23 | in [0,1]; 1 at elapsed ≤ 0, 0 from 0.12 on, linear in between |
| EliminationFx.FlashFades | src/render/elimination.ts:19-23 | the flash never brightens as time passes |
| EliminationFx.ShockScale | src/render/elimination.ts:25-29 | in [1,3]; 1 at elapsed ≤ 0, 3 from 0.25 on, linear in between |
| EliminationFx.ShockGrows | src/render/elimination.ts:25-29 | the shock ring never shrinks as time passes |
| EliminationFx.SoundCooldownExample | src/render/__tests__/eliminationSound.test.ts:3-7 | first play, within cooldown, after cooldown |
| ChaseCamera.CameraRoll | src/render/chaseCamera.ts:15-20 | turnVel·rollFactor clamped to ±rollMax, returned unchanged when in range |
| ChaseCamera.RollIsOdd | src/render/chaseCamera.ts:15-20 | the roll of the opposite turn rate is the opposite roll |
| ChaseCamera.RollExamples | src/render/__tests__/chaseCamera.test.ts:36-41 | 0 → 0, 1 → 0.2, ±5 → ±0.4 |
| ChaseCamera.ComputeChaseCamera | src/render/chaseCamera.ts:22-48 | camera at height, target at 0.15·height; along the heading the camera is `distance` behind and along its right-hand normal `shoulder` to the side; the target is `lookAhead` straight ahead; the offsets' squared lengths are distance² + shoulder² and lookAhead² |
| ChaseCamera.BehindRightAhead | src/render/chaseCamera.ts:30-45 | for a unit heading the camera offset projects to −distance on the heading and shoulder on its normal, and the target offset to lookAhead and 0 |
| ChaseCamera.BehindAndRight | src/render/chaseCamera.ts:30-39 | backwards along a unit heading and sideways along its normal are at right angles |
| ChaseCamera.ChaseExample | src/render/__tests__/chaseCamera.test.ts:3-18 | heading 0 puts the camera at (−20, 10, 2) and the target at (12, 1.5, 0) |
| SceneSizing.PixelRatio | src/render/sceneConfig.ts:1-4 | in [1, 1.5]; 1 when undefined; an in-range ratio is returned unchanged |
| SceneSizing.PixelRatioIdempotent | src/render/sceneConfig.ts:1-4 | clamping twice equals clamping once |
| SceneSizing.CameraFar | src/render/sceneConfig.ts:6-8 | max(900, 3·arenaSize) |
| SceneSizing.SceneExamples | src/render/__tests__/sceneConfig.test.ts:3-12 | ratios 1, 2 and undefined; far planes for arenas 250 and 2500 |
| SceneSizing.ComputeEnvironmentLayout | src/render/environmentLayout.ts:14-31 | arenaHalf = size/2, grid 1.02·size, floor 6·size, stadium 1.02·half, skyline 3.2·half, and skylineCount = max(24, round(size/8)) |
| SceneSizing.LayoutNests | src/render/environmentLayout.ts:15-28 | for a positive arena the half-size, stadium, skyline and half-floor nest strictly, and the grid covers the arena |
| SceneSizing.LayoutExample | src/render/environmentLayout.ts:14-31 | an arena of 250 gives half 125, 31 buildings and stadium radius 127.5 |
| Minimap.WorldToMinimap | src/ui/minimap.ts:7-10 | (0,0) for a non-positive half-size; otherwise the point divided by it |
| Minimap.MinimapRoundTrip | src/ui/minimap.ts:9 | scaling the map point back by the half-size gives the world point |
| Minimap.InsideArenaInsideMap | src/ui/minimap.ts:9 | points within the half-size square map into [−1,1]² |
| Minimap.TrailStride | src/ui/minimap.ts:72-73 | the least stride of at least 1 with which 420 strides cover every trail, that is max(1, ceil(n/420)) |
| Minimap.Drawn | src/ui/minimap.ts:74 | the drawn indices start at the first and step by the stride, all in range |
| Minimap.DrawnReachesEnd | src/ui/minimap.ts:74 | the loop stops only after passing the last trail |
| Minimap.AtMostMaxDrawn | src/ui/minimap.ts:72-74 | at most 420 trails are drawn, and the first trail always is |
| Minimap.MinimapExample | src/ui/__tests__/minimap.test.ts:3-7 | (50,0) with half-size 100 maps to (0.5,0); strides at 0, 420 and 421 trails |
| MenuLabels.ModeName | src/ui/menu.ts:8 | every mode is spelled LOCAL or ONLINE |
| MenuLabels.CoerceMode | src/ui/menu.ts:27-28 | ONLINE exactly for "ONLINE", LOCAL for any other string |
| MenuLabels.CoerceModeRoundTrip | src/ui/menu.ts:8-28 | coercing a mode's name gives the mode back |
| MenuLabels.ModeToUseServer | src/ui/menu.ts:30 | uses the server exactly in ONLINE mode |
| MenuLabels.UnknownModeStaysLocal | src/ui/menu.ts:27-30 | any other string never uses the server |
| MenuLabels.FormatConnectionStatus | src/ui/menu.ts:32-36 | each status maps to its own label, and only it does |
| MenuLabels.FormatResultTitle | src/ui/menu.ts:12-16 | Victory, Time Up, Eliminated, each for exactly its status |
| MenuLabels.LabelsAreDistinct | src/ui/menu.ts:12-36 | different statuses get different labels |

## Left out

- The identity-keyed `WeakMap` cache of the grid index in `src/sim/step.ts` is
  not modelled as shared state. The index is a pure function of the trail list.
  `SpatialIndex.EnsureTrailBuckets` shows that any fitting cache entry yields
  that same index.
- IEEE-754 rounding, NaN and infinity are not modelled:
  - a zero blink period, a zero inertia and `arenaSize` arithmetic are excluded
    by `Config.Steppable`;
  - a zero stride in the environment gate is a remainder that is never 0 (NaN);
  - the NaN average of an empty sample window never exceeds the limit.
- Host timing (`performance.now`, `requestAnimationFrame`) is left out. The
  frame length is a parameter of `FixedStep.Tick`. The `simMs` measurement and
  the `onUpdate` callback are omitted.
- Three.js scene construction, WebAudio synthesis, the shard animation and the
  chase camera controller's smoothing (`createChaseCameraController`) are all
  rendering side effects.
- The DOM and canvas UI is left out: `createMenu`, `createResult`, the minimap
  canvas drawing and its throttle, and `colorToRgba`. So is
  `formatResultSubtitle`, which relies on `toFixed` float formatting.
- Networking and bootstrap (server rooms, client connection, `main.ts`), the
  telemetry and autostart wrappers, and `formatDiagnostics` are out of scope.
- Bot planner behaviour described only by tests is not part of this model. The
  bot is the four-line edge-steering function as shipped.
- Spawn relaxation and heading bias, expected by a spawn-spacing test, do not
  exist in the spawn code and are not modelled.
- TrailEmitter.UpdateTrail: a trail test expects the gap branch to report the
  unchanged trail id. The gap branch in `src/sim/trails.ts` returns no id, and
  the caller falls back to its own counter. The model follows the code.
- Palette.ExtractIndex: `parseInt` of a very long digit run loses precision in
  a double. The model parses the run exactly.
- SceneSizing.ComputeEnvironmentLayout: an environment-layout test disagrees
  with the layout function. It reads stadium and skyline-layer fields that the
  function does not compute. For a 250 arena it also expects a grid size of
  about 250, a floor size of about 250 and a stadium radius of about 125, where
  the function computes 255, 1500 and 127.5. The model follows the function.
- ChaseCamera.ComputeChaseCamera: the test at heading π/2 needs cos(π/2) = 0,
  which the host-function assumptions do not provide. The pose is stated for
  every heading through its projections on the heading and its normal, and
  checked exactly only at heading 0 (`ChaseCamera.ChaseExample`).
- WorldStep.StepWorld: the half-size of the new world is stated through
  `WorldStep.StepWorldTick` and `WorldStep.TickArena`. Trail contents are
  stated through `WorldStep.StepWorldTrails`.
- WorldStep.ModesAgree: the two collision modes may name different culprits
  when a move crosses several trails in one tick. The grid orders candidates by
  cell, not by list position.
- NetSnapshot.SnapshotToWorld: the rebuilt world resets every trail counter to
  0 while keeping the trails. Stepping it can therefore reuse an `owner:id` key.
  `NetSnapshot.RebuiltCountersRestart` states exactly when the world-step
  invariant still holds.
- PerfStats.Percentile: a p negative enough to make the rank negative reads a
  negative index, which is `undefined` in JavaScript. The model returns no
  value there.
- Roles.ShufflePool: states only that the pool is a permutation. The exact
  order produced by a given draw stream is not stated.
- Spawn.GenerateSpawnPoints: the fallback points' headings (angle + π/2) are
  stated through `Spawn.AppendFallback`. Their positions on the circle need
  `Valid`, which `Spawn.FallbackOnCircle` assumes.
- The world step's trail update as written would spread an undefined `trails`
  argument. The model follows the caller's reading of `.segments`; see
  "Modelling conventions".
