/**
  The per-bot decision cache: a bot re-thinks only every decision interval
  (with jitter), and a bot that keeps turning the same way for too long is
  forced straight for a breakout window.
 */
module DecisionCache {
  import opened Types

  datatype Decision = Decision(input: Steer, nextThinkAt: real, turnStreak: int, breakoutUntil: real)

  type Cache = map<PlayerId, Decision>

  /** Seconds between decisions: from an eighth of a second up to 0.19 s. */
  function DecisionInterval(d: Difficulty): (t: real)
    ensures 0.125 <= t <= 0.19
  {
    match d
    case Easy => 0.19
    case Medium => 0.155
    case Hard => 0.125
  }

  /** Longest run of identical turns before a breakout. */
  function MaxTurnStreak(d: Difficulty): int {
    match d
    case Easy => 4
    case Medium => 6
    case Hard => 7
  }

  /** Length of the forced straight run. */
  function BreakoutDuration(d: Difficulty): real {
    match d
    case Easy => 0.68
    case Medium => 0.58
    case Hard => 0.52
  }

  /** The three per-difficulty tables of the cache. */
  lemma DecisionTables()
    ensures DecisionInterval(Easy) == 0.19 && DecisionInterval(Medium) == 0.155 && DecisionInterval(Hard) == 0.125
    ensures MaxTurnStreak(Easy) == 4 && MaxTurnStreak(Medium) == 6 && MaxTurnStreak(Hard) == 7
    ensures BreakoutDuration(Easy) == 0.68 && BreakoutDuration(Medium) == 0.58 && BreakoutDuration(Hard) == 0.52
  {
  }

  /** Harder bots think more often. */
  lemma IntervalsOrdered(a: Difficulty, b: Difficulty)
    requires Rank(a) < Rank(b)
    ensures DecisionInterval(a) > DecisionInterval(b) > 0.0
  {
  }

  /**
    The answer of `get`, the cache after it, and whether it consulted the
    planner (`compute`) and the random stream; `computed` and `draw` are
    the values those calls return when they are made.
   */
  datatype GetResult = GetResult(output: Steer, cache: Cache, consulted: bool)

  /** The streak after choosing `next` when the previous choice was `prev`. */
  function NextStreak(prev: Steer, prevStreak: int, next: Steer): (s: int)
    ensures next == 0 ==> s == 0
    ensures next != 0 && next == prev ==> s == prevStreak + 1
    ensures next != 0 && next != prev ==> s == 1
  {
    if next != 0 && next == prev then prevStreak + 1
    else if next != 0 then 1
    else 0
  }

  /** `get`: the steering a bot uses now, given what the planner would answer (`computed`) and the jitter draw. */
  function Get(d: Difficulty, cache: Cache, id: PlayerId, time: real, computed: Steer, draw: real): (r: GetResult)
    // inside a breakout window the bot goes straight, without thinking
    ensures id in cache && time < cache[id].breakoutUntil ==>
      r == GetResult(0, cache, false)
    // between decisions the last choice is repeated, without thinking
    ensures id in cache && cache[id].breakoutUntil <= time < cache[id].nextThinkAt ==>
      r == GetResult(cache[id].input, cache, false)
    ensures r.consulted <==> id !in cache || (time >= cache[id].breakoutUntil && time >= cache[id].nextThinkAt)
    // a fresh decision is stored under this id only
    ensures r.consulted ==> id in r.cache && r.cache[id].input == r.output
    ensures forall other :: other != id ==> (other in r.cache <==> other in cache)
    ensures forall other :: other != id && other in cache ==> r.cache[other] == cache[other]
    // the next decision is due within 10% of the interval from now
    ensures r.consulted && 0.0 <= draw <= 1.0 ==>
      time + DecisionInterval(d) * 0.9 <= r.cache[id].nextThinkAt <= time + DecisionInterval(d) * 1.1
    // a fresh decision extends or restarts the streak of the stored one (a bot seen for the first
    // time starts from a straight choice with no streak and no breakout window)
    ensures r.consulted ==>
      var prev := if id in cache then cache[id] else Decision(0, 0.0, 0, 0.0);
      var streak := NextStreak(prev.input, prev.turnStreak, computed);
      // within the limit the planner's choice goes through and any breakout deadline is kept
      && (streak <= MaxTurnStreak(d) ==>
            r.output == computed && r.cache[id].turnStreak == streak
            && r.cache[id].breakoutUntil == prev.breakoutUntil)
      // past the limit the bot is forced straight and a breakout window opens now
      && (streak > MaxTurnStreak(d) ==>
            r.output == 0 && r.cache[id].turnStreak == 0
            && r.cache[id].breakoutUntil == time + BreakoutDuration(d))
  {
    var existing := if id in cache then Some(cache[id]) else None;
    if existing.Some? && time < existing.value.breakoutUntil then
      GetResult(0, cache, false)
    else if existing.Some? && time < existing.value.nextThinkAt then
      GetResult(existing.value.input, cache, false)
    else
      var prevInput: Steer := if existing.Some? then existing.value.input else 0;
      var prevStreak := if existing.Some? then existing.value.turnStreak else 0;
      var streak := NextStreak(prevInput, prevStreak, computed);
      var breakoutUntil := if existing.Some? then existing.value.breakoutUntil else 0.0;
      var spiral := streak > MaxTurnStreak(d);
      var output: Steer := if spiral then 0 else computed;
      var jitter := 0.9 + draw * 0.2;
      var decision := Decision(output, time + DecisionInterval(d) * jitter,
                               if spiral then 0 else streak,
                               if spiral then time + BreakoutDuration(d) else breakoutUntil);
      GetResult(output, cache[id := decision], true)
  }

  /** `reset`: forget every bot. */
  function Reset(): (c: Cache)
    ensures forall id :: id !in c
  {
    map[]
  }

  /** After a reset the next `get` for any bot thinks afresh. */
  lemma ResetForcesThinking(d: Difficulty, id: PlayerId, time: real, computed: Steer, draw: real)
    ensures Get(d, Reset(), id, time, computed, draw).consulted
    ensures Get(d, Reset(), id, time, computed, draw).output == computed
  {
  }

  /** Every stored streak is at most the difficulty's limit. */
  predicate StreaksBounded(d: Difficulty, cache: Cache) {
    forall id :: id in cache ==> 0 <= cache[id].turnStreak <= MaxTurnStreak(d)
  }

  /**
    The anti-spiral rule: streaks never exceed the limit, and a decision that
    would exceed it comes out straight and opens a breakout window.
   */
  lemma StreaksStayBounded(d: Difficulty, cache: Cache, id: PlayerId, time: real, computed: Steer, draw: real)
    requires StreaksBounded(d, cache)
    ensures StreaksBounded(d, Get(d, cache, id, time, computed, draw).cache)
    ensures var r := Get(d, cache, id, time, computed, draw);
      r.consulted && id in cache && computed != 0 && computed == cache[id].input
        && cache[id].turnStreak == MaxTurnStreak(d)
      ==> r.output == 0 && r.cache[id].turnStreak == 0
          && r.cache[id].breakoutUntil == time + BreakoutDuration(d)
  {
  }

  /**
    With a decision every call, a bot holding one turn is forced straight on
    the call after its limit: the limit-th identical turn is still allowed.
   */
  lemma SpiralBreaksAfterLimit(d: Difficulty, time: real, draw: real)
    requires time >= 0.0
    ensures var c0 := map["b1" := Decision(1, time, MaxTurnStreak(d) - 1, 0.0)];
      var r1 := Get(d, c0, "b1", time, 1, draw);
      r1.output == 1 && r1.cache["b1"].turnStreak == MaxTurnStreak(d)
    ensures var c1 := map["b1" := Decision(1, time, MaxTurnStreak(d), 0.0)];
      var r2 := Get(d, c1, "b1", time, 1, draw);
      r2.output == 0 && r2.cache["b1"].breakoutUntil == time + BreakoutDuration(d)
  {
  }
}
