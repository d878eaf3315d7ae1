/**
  One simulation tick of the whole world: advance the clock and the arena
  shrink, move every living player in list order (physics, trail emission,
  collision), then drop trails older than the configured lifetime.

  The players share one growing trail list and its grid index, so a player
  can collide with segments emitted earlier in the same tick. Collision
  candidates come either from the grid (`Indexed`, what the game does) or
  from the whole list (`BruteForce`, the reference the grid is checked
  against).
 */
module WorldStep {
  import opened Numerics
  import opened Vec
  import opened Types
  import opened Config
  import opened Physics
  import opened TrailEmitter
  import opened Collision
  import opened Shrink
  import opened Match
  import opened SpatialIndex

  datatype CollisionMode = Indexed | BruteForce

  /** What the tick shares with every player: the new time, the step and the new arena half-size. */
  datatype Tick = Tick(time: real, dt: real, arenaHalf: real)

  /** The trail list as it grows during the player loop, with its grid index. */
  datatype Board = Board(trails: seq<TrailSegment>, buckets: TrailBuckets)

  /** The index of a board is the index of its list. */
  predicate IndexCurrent(cfg: SimConfig, b: Board) {
    b.buckets == Build(b.trails, BucketPad(cfg))
  }

  datatype Moved = Moved(player: Player, board: Board)

  datatype Crowd = Crowd(players: seq<Player>, board: Board)

  function Drive(m: MathLib, cfg: SimConfig, p: Player, inputs: Inputs, dt: real): Kinematics
    requires Steppable(cfg)
  {
    StepPhysics(m, p.pos, p.heading, p.turnVel, InputFor(inputs, p.id), dt,
                cfg.speed, cfg.turnRate, cfg.turnInertia)
  }

  function Emit(m: MathLib, cfg: SimConfig, p: Player, next: Vec2, time: real): TrailUpdate
    requires Steppable(cfg)
  {
    UpdateTrail(m, p.pos, next, time, cfg.gapOn, cfg.gapOff, cfg.solidifyDelay,
                CadenceState(p.gapTimer, p.gapOn, p.trailId), p.id)
  }

  /** The board after a move's segments are pushed onto the list and into the index. */
  function Extend(cfg: SimConfig, board: Board, segments: seq<TrailSegment>): (r: Board)
    ensures r.trails == board.trails + segments
    ensures IndexCurrent(cfg, board) ==> IndexCurrent(cfg, r)
  {
    var trails := board.trails + segments;
    var r := Board(trails, AddFrom(board.buckets, trails, |board.trails|, BucketPad(cfg)));
    assert IndexCurrent(cfg, board) ==> IndexCurrent(cfg, r) by {
      if IndexCurrent(cfg, board) {
        assert trails[..|board.trails|] == board.trails;
        CatchUp(trails, |board.trails|, BucketPad(cfg));
      }
    }
    r
  }

  /**
    The trail test of one move: nothing before the opening grace has passed,
    otherwise `intersectsAny` over the candidates with the mover's own trail
    under `selfTrailGrace`.
   */
  function TrailCheck(cfg: SimConfig, id: PlayerId, prev: Vec2, next: Vec2, time: real, board: Board, mode: CollisionMode): HitResult {
    if !PastOpeningGrace(cfg, time) then
      HitResult(false, None)
    else
      var candidates := match mode
        case Indexed => Candidates(board.buckets, prev, next, BucketPad(cfg))
        case BruteForce => board.trails;
      IntersectsAny(prev, next, candidates, time, Some(id), cfg.selfTrailGrace)
  }

  /** A wall hit wins over a trail hit; a trail hit names the trail's owner. */
  function Verdict(wallHit: bool, trailHit: HitResult): Option<EliminationHit> {
    if wallHit then Some(EliminationHit(Wall, None))
    else if trailHit.hit then Some(EliminationHit(Trail, trailHit.owner))
    else None
  }

  /** The body of the `players.map` callback of `stepWorld`. */
  function StepPlayer(
    m: MathLib, cfg: SimConfig, p: Player, inputs: Inputs, tick: Tick, board: Board,
    mode: CollisionMode): (r: Moved)
    requires Steppable(cfg)
    ensures r.player.id == p.id
    ensures !p.alive ==> r == Moved(p, board)
    ensures IndexCurrent(cfg, board) ==> IndexCurrent(cfg, r.board)
    // the list only grows at its end, with this player's segments of this tick
    ensures board.trails <= r.board.trails
    ensures forall x :: x in r.board.trails[|board.trails|..] ==>
      (x.owner == p.id && x.createdAt == tick.time && p.trailId < x.id <= r.player.trailId)
    // the id counter moves past exactly the ids of the new segments, in order
    ensures |r.board.trails| == |board.trails| + (r.player.trailId - p.trailId)
    ensures forall i :: |board.trails| <= i < |r.board.trails| ==>
      r.board.trails[i].id == p.trailId + 1 + (i - |board.trails|)
    ensures p.trailId <= r.player.trailId
    // a player that dies here dies at this tick's time
    ensures p.alive && !r.player.alive ==> r.player.eliminatedAt == Some(tick.time)
  {
    if !p.alive then
      Moved(p, board)
    else
      var phys := Drive(m, cfg, p, inputs, tick.dt);
      var emitted := Emit(m, cfg, p, phys.pos, tick.time);
      var next := Extend(cfg, board, emitted.segments);
      assert next.trails[|board.trails|..] == emitted.segments;
      var trailHit := TrailCheck(cfg, p.id, p.pos, phys.pos, tick.time, next, mode);
      var wallHit := OutOfBounds(m, phys.pos, tick.arenaHalf);
      var moved := p.(pos := phys.pos, heading := phys.heading, turnVel := phys.turnVel,
                      gapTimer := emitted.gapTimer, gapOn := emitted.gapOnState,
                      trailId := emitted.trailId.GetOr(p.trailId));
      Moved(ResolveElimination(moved, Verdict(wallHit, trailHit), tick.time), next)
  }

  /** `players.map(...)`: the players in order, each seeing the segments of those before it. */
  function StepPlayers(
    m: MathLib, cfg: SimConfig, players: seq<Player>, inputs: Inputs, tick: Tick, board: Board,
    mode: CollisionMode): (r: Crowd)
    requires Steppable(cfg)
    ensures |r.players| == |players|
    ensures forall i :: 0 <= i < |players| ==> r.players[i].id == players[i].id
    ensures forall i :: 0 <= i < |players| && !players[i].alive ==> r.players[i] == players[i]
    ensures forall i :: 0 <= i < |players| ==> players[i].trailId <= r.players[i].trailId
    ensures IndexCurrent(cfg, board) ==> IndexCurrent(cfg, r.board)
    ensures board.trails <= r.board.trails
    decreases |players|
  {
    if |players| == 0 then
      Crowd([], board)
    else
      var first := StepPlayer(m, cfg, players[0], inputs, tick, board, mode);
      var rest := StepPlayers(m, cfg, players[1..], inputs, tick, first.board, mode);
      Crowd([first.player] + rest.players, rest.board)
  }

  /** Trail `x` was laid by player `i` during this tick, within its id range. */
  predicate LaidBy(x: TrailSegment, before: seq<Player>, after: seq<Player>, i: int) {
    0 <= i < |before| && i < |after| && x.owner == before[i].id && before[i].trailId < x.id <= after[i].trailId
  }

  /** The provenance facts of one player and of the players after it combine. */
  lemma LaidConcat(
    t0: seq<TrailSegment>, t1: seq<TrailSegment>, t2: seq<TrailSegment>,
    players: seq<Player>, firstPlayer: Player, restPlayers: seq<Player>, time: real)
    requires |players| > 0 && |restPlayers| == |players| - 1
    requires t0 <= t1 <= t2
    requires forall x :: x in t1[|t0|..] ==>
      (x.owner == players[0].id && x.createdAt == time && players[0].trailId < x.id <= firstPlayer.trailId)
    requires forall x :: x in t2[|t1|..] ==>
      x.createdAt == time && exists i :: LaidBy(x, players[1..], restPlayers, i)
    ensures forall x :: x in t2[|t0|..] ==>
      x.createdAt == time && exists i :: LaidBy(x, players, [firstPlayer] + restPlayers, i)
  {
    var after := [firstPlayer] + restPlayers;
    forall x | x in t2[|t0|..]
      ensures x.createdAt == time && exists i :: LaidBy(x, players, after, i)
    {
      var k :| |t0| <= k < |t2| && t2[k] == x;
      if k < |t1| {
        assert x == t1[k];
        assert x in t1[|t0|..];
        assert LaidBy(x, players, after, 0);
      } else {
        assert x in t2[|t1|..];
        var i :| LaidBy(x, players[1..], restPlayers, i);
        assert after[i + 1] == restPlayers[i];
        assert LaidBy(x, players, after, i + 1);
      }
    }
  }

  /**
    Every segment appended during the player loop was laid at this tick by
    one of the players, with an id that player's counter moved past.
   */
  lemma {:induction false} StepPlayersLaid(
    m: MathLib, cfg: SimConfig, players: seq<Player>, inputs: Inputs, tick: Tick, board: Board,
    mode: CollisionMode)
    requires Steppable(cfg)
    ensures var r := StepPlayers(m, cfg, players, inputs, tick, board, mode);
      forall x :: x in r.board.trails[|board.trails|..] ==>
        x.createdAt == tick.time && exists i :: LaidBy(x, players, r.players, i)
    decreases |players|
  {
    if |players| > 0 {
      var first := StepPlayer(m, cfg, players[0], inputs, tick, board, mode);
      var rest := StepPlayers(m, cfg, players[1..], inputs, tick, first.board, mode);
      StepPlayersLaid(m, cfg, players[1..], inputs, tick, first.board, mode);
      LaidConcat(board.trails, first.board.trails, rest.board.trails, players, first.player, rest.players, tick.time);
    }
  }

  /**
    The segments of one tick come in player order: a segment laid by player
    `i` never follows one laid by a later player `j`.
   */
  lemma {:induction false} StepPlayersInOrder(
    m: MathLib, cfg: SimConfig, players: seq<Player>, inputs: Inputs, tick: Tick, board: Board,
    mode: CollisionMode)
    requires Steppable(cfg) && DistinctIds(players)
    ensures var r := StepPlayers(m, cfg, players, inputs, tick, board, mode);
      forall a, b, i, j ::
        |board.trails| <= a < b < |r.board.trails| &&
        LaidBy(r.board.trails[a], players, r.players, i) && LaidBy(r.board.trails[b], players, r.players, j)
        ==> i <= j
    decreases |players|
  {
    if |players| > 0 {
      var first := StepPlayer(m, cfg, players[0], inputs, tick, board, mode);
      var rest := StepPlayers(m, cfg, players[1..], inputs, tick, first.board, mode);
      var r := StepPlayers(m, cfg, players, inputs, tick, board, mode);
      assert r == Crowd([first.player] + rest.players, rest.board);
      assert DistinctIds(players[1..]) by {
        forall i, j | 0 <= i < j < |players[1..]| ensures players[1..][i].id != players[1..][j].id {
          assert players[1..][i] == players[i + 1] && players[1..][j] == players[j + 1];
        }
      }
      StepPlayersInOrder(m, cfg, players[1..], inputs, tick, first.board, mode);
      StepPlayersLaid(m, cfg, players[1..], inputs, tick, first.board, mode);
      var t := r.board.trails;
      forall a, b, i, j |
        |board.trails| <= a < b < |t| && LaidBy(t[a], players, r.players, i) && LaidBy(t[b], players, r.players, j)
        ensures i <= j
      {
        if a < |first.board.trails| {
          assert t[a] == first.board.trails[a];
          assert t[a] in first.board.trails[|board.trails|..];
          assert i == 0;
        } else {
          InRest(t, first.board.trails, players, rest.players, first.player, a, i);
          InRest(t, first.board.trails, players, rest.players, first.player, b, j);
        }
      }
    }
  }

  /**
    A segment laid after the first player's block by player `i` is, one
    position down, laid by player `i - 1` of the rest.
   */
  lemma InRest(
    t: seq<TrailSegment>, t1: seq<TrailSegment>, players: seq<Player>, restPlayers: seq<Player>,
    firstPlayer: Player, a: int, i: int)
    requires DistinctIds(players) && |players| > 0
    requires |t1| <= a < |t|
    requires forall x :: x in t[|t1|..] ==> exists k :: LaidBy(x, players[1..], restPlayers, k)
    requires LaidBy(t[a], players, [firstPlayer] + restPlayers, i)
    ensures 1 <= i && LaidBy(t[a], players[1..], restPlayers, i - 1)
  {
    assert t[a] in t[|t1|..];
    var k :| LaidBy(t[a], players[1..], restPlayers, k);
    assert players[1..][k] == players[k + 1];
    assert ([firstPlayer] + restPlayers)[k + 1] == restPlayers[k];
  }

  /** The trails created at or after the cutoff, in list order. */
  function KeepRecent(trails: seq<TrailSegment>, cutoff: real): (r: seq<TrailSegment>)
    ensures forall x :: x in r <==> x in trails && x.createdAt >= cutoff
    ensures |r| <= |trails|
    ensures |r| == |trails| ==> r == trails
    ensures DistinctKeys(trails) ==> DistinctKeys(r)
  {
    if |trails| == 0 then
      []
    else
      var rest := KeepRecent(trails[1..], cutoff);
      assert trails == [trails[0]] + trails[1..];
      if trails[0].createdAt >= cutoff then
        var r := [trails[0]] + rest;
        assert DistinctKeys(trails) ==> DistinctKeys(r) by {
          if DistinctKeys(trails) {
            assert DistinctKeys(trails[1..]);
            forall j | 0 < j < |r| ensures Key(r[0]) != Key(r[j]) {
              assert r[j] in trails[1..];
              var k :| 0 <= k < |trails[1..]| && trails[1..][k] == r[j];
              assert Key(trails[0]) != Key(trails[k + 1]);
            }
          }
        }
        r
      else
        assert |rest| < |trails| by {
          assert |rest| <= |trails[1..]|;
        }
        assert DistinctKeys(trails) ==> DistinctKeys(trails[1..]);
        rest
  }

  /** Filtering a concatenation filters each part and keeps them in order. */
  lemma {:induction false} KeepRecentConcat(a: seq<TrailSegment>, b: seq<TrailSegment>, cutoff: real)
    ensures KeepRecent(a + b, cutoff) == KeepRecent(a, cutoff) + KeepRecent(b, cutoff)
    decreases |a|
  {
    if |a| > 0 {
      assert (a + b)[1..] == a[1..] + b;
      KeepRecentConcat(a[1..], b, cutoff);
    } else {
      assert a + b == b;
    }
  }

  /** A single trail is kept exactly when it is recent enough. */
  lemma KeepRecentSingle(x: TrailSegment, cutoff: real)
    ensures KeepRecent([x], cutoff) == if x.createdAt >= cutoff then [x] else []
  {
    assert KeepRecent([x][1..], cutoff) == [];
  }

  /** The cutoff of trail pruning, when it applies: `trailLifetime > 0` and `time - trailLifetime > 0`. */
  function PruneCutoff(cfg: SimConfig, time: real): (r: Option<real>)
    ensures r.Some? <==> PruningEnabled(cfg) && time - cfg.trailLifetime.value > 0.0
    ensures r.Some? ==> r.value == time - cfg.trailLifetime.value
  {
    if PruningEnabled(cfg) && time - cfg.trailLifetime.value > 0.0 then Some(time - cfg.trailLifetime.value) else None
  }

  /** The clock and arena of the tick that advances `w` by `dt`. */
  function TickOf(cfg: SimConfig, w: World, dt: real): (t: Tick)
    ensures t.time == w.time + dt && t.dt == dt
  {
    var time := w.time + dt;
    Tick(time, dt, ArenaHalfAt(time, cfg.arenaSize / 2.0, cfg.shrinkStart, cfg.shrinkEnd, cfg.shrinkTo))
  }

  /** The board a tick starts from: the world's trails, indexed afresh. */
  function StartBoard(cfg: SimConfig, w: World): (b: Board)
    ensures b.trails == w.trails && IndexCurrent(cfg, b)
  {
    Board(w.trails, Build(w.trails, BucketPad(cfg)))
  }

  /** The trail list a tick ends with, before pruning. */
  function Grown(m: MathLib, cfg: SimConfig, w: World, inputs: Inputs, dt: real, mode: CollisionMode): Crowd
    requires Steppable(cfg)
  {
    StepPlayers(m, cfg, w.players, inputs, TickOf(cfg, w, dt), StartBoard(cfg, w), mode)
  }

  /** Pruning, when enabled and some trail is old enough to go. */
  function Prune(cfg: SimConfig, time: real, trails: seq<TrailSegment>): (r: seq<TrailSegment>)
    ensures PruneCutoff(cfg, time).None? ==> r == trails
    ensures PruneCutoff(cfg, time).Some? ==>
      forall x :: x in r <==> x in trails && x.createdAt >= PruneCutoff(cfg, time).value
    ensures PruneCutoff(cfg, time).Some? ==> r == KeepRecent(trails, PruneCutoff(cfg, time).value)
    ensures DistinctKeys(trails) ==> DistinctKeys(r)
  {
    var cutoff := PruneCutoff(cfg, time);
    if cutoff.Some? then
      var filtered := KeepRecent(trails, cutoff.value);
      if |filtered| != |trails| then filtered else trails
    else
      trails
  }

  /** `stepWorld`. */
  function StepWorld(m: MathLib, cfg: SimConfig, w: World, inputs: Inputs, dt: real, mode: CollisionMode): (r: World)
    requires Steppable(cfg)
    ensures r.time == w.time + dt
    ensures r.running == w.running
    ensures |r.players| == |w.players|
    ensures forall i :: 0 <= i < |w.players| ==> r.players[i].id == w.players[i].id
    ensures forall i :: 0 <= i < |w.players| && !w.players[i].alive ==> r.players[i] == w.players[i]
  {
    var tick := TickOf(cfg, w, dt);
    var crowd := Grown(m, cfg, w, inputs, dt, mode);
    World(tick.time, crowd.players, Prune(cfg, tick.time, crowd.board.trails), tick.arenaHalf, w.running)
  }

  /** What pruning does to a list that grew from `before` by segments created at `time`. */
  lemma PruneGrown(cfg: SimConfig, time: real, before: seq<TrailSegment>, grown: seq<TrailSegment>)
    requires before <= grown
    requires forall x :: x in grown[|before|..] ==> x.createdAt == time
    ensures var r := Prune(cfg, time, grown);
      && (forall x :: x in r ==> x in before || x.createdAt == time)
      && (PruneCutoff(cfg, time).None? ==> before <= r)
      && (PruneCutoff(cfg, time).Some? ==> forall x :: x in r ==> x.createdAt >= PruneCutoff(cfg, time).value)
      && (forall x :: x in before && (PruneCutoff(cfg, time).None? || x.createdAt >= PruneCutoff(cfg, time).value)
                      ==> x in r)
  {
    forall x | x in grown ensures x in before || x.createdAt == time {
      var k :| 0 <= k < |grown| && grown[k] == x;
      if k >= |before| {
        assert x in grown[|before|..];
      } else {
        assert x == before[k];
      }
    }
    forall x | x in before ensures x in grown {
      var k :| 0 <= k < |before| && before[k] == x;
      assert grown[k] == x;
    }
  }

  /** The player loop of a tick only appends, and only segments created at the new time. */
  lemma GrownLaid(m: MathLib, cfg: SimConfig, w: World, inputs: Inputs, dt: real, mode: CollisionMode)
    requires Steppable(cfg)
    ensures var g := Grown(m, cfg, w, inputs, dt, mode);
      && w.trails <= g.board.trails
      && forall x :: x in g.board.trails[|w.trails|..] ==> x.createdAt == w.time + dt
  {
    StepPlayersLaid(m, cfg, w.players, inputs, TickOf(cfg, w, dt), StartBoard(cfg, w), mode);
  }

  /**
    The trails after a tick: every one is old or laid at this tick; old
    trails survive unless pruned; pruning keeps exactly the recent ones.
   */
  lemma StepWorldTrails(m: MathLib, cfg: SimConfig, w: World, inputs: Inputs, dt: real, mode: CollisionMode)
    requires Steppable(cfg)
    ensures var r := StepWorld(m, cfg, w, inputs, dt, mode);
      && (forall x :: x in r.trails ==> x in w.trails || x.createdAt == r.time)
      && (PruneCutoff(cfg, r.time).None? ==> w.trails <= r.trails)
      && (PruneCutoff(cfg, r.time).Some? ==> forall x :: x in r.trails ==> x.createdAt >= PruneCutoff(cfg, r.time).value)
      && (forall x :: x in w.trails && (PruneCutoff(cfg, r.time).None? || x.createdAt >= PruneCutoff(cfg, r.time).value)
                      ==> x in r.trails)
  {
    GrownLaid(m, cfg, w, inputs, dt, mode);
    PruneGrown(cfg, w.time + dt, w.trails, Grown(m, cfg, w, inputs, dt, mode).board.trails);
  }

  /**
    The order of the trails after a tick: the surviving old trails first, in
    their old order, then the surviving segments of this tick, which the
    players laid in list order.
   */
  lemma StepWorldOrder(m: MathLib, cfg: SimConfig, w: World, inputs: Inputs, dt: real, mode: CollisionMode)
    requires Steppable(cfg)
    ensures var r := StepWorld(m, cfg, w, inputs, dt, mode);
      var g := Grown(m, cfg, w, inputs, dt, mode).board.trails;
      && w.trails <= g
      && (PruneCutoff(cfg, r.time).None? ==> r.trails == g)
      && (PruneCutoff(cfg, r.time).Some? ==>
            r.trails == KeepRecent(w.trails, PruneCutoff(cfg, r.time).value)
                        + KeepRecent(g[|w.trails|..], PruneCutoff(cfg, r.time).value))
      && (DistinctIds(w.players) ==>
            forall a, b, i, j ::
              |w.trails| <= a < b < |g| && LaidBy(g[a], w.players, r.players, i) && LaidBy(g[b], w.players, r.players, j)
              ==> i <= j)
  {
    var crowd := Grown(m, cfg, w, inputs, dt, mode);
    var g := crowd.board.trails;
    var r := StepWorld(m, cfg, w, inputs, dt, mode);
    assert r.time == w.time + dt && r.players == crowd.players && r.trails == Prune(cfg, r.time, g);
    var tick, board := TickOf(cfg, w, dt), StartBoard(cfg, w);
    assert crowd == StepPlayers(m, cfg, w.players, inputs, tick, board, mode);
    assert board.trails == w.trails;
    PruneSplit(cfg, r.time, w.trails, g);
    if DistinctIds(w.players) {
      GrownInOrder(m, cfg, w, inputs, dt, mode);
      forall a, b, i, j |
        |w.trails| <= a < b < |g| && LaidBy(g[a], w.players, r.players, i) && LaidBy(g[b], w.players, r.players, j)
        ensures i <= j
      {
        assert LaidBy(g[a], w.players, crowd.players, i) && LaidBy(g[b], w.players, crowd.players, j);
      }
    }
  }

  /** Pruning a grown list prunes the old part and the new part separately, each in order. */
  lemma PruneSplit(cfg: SimConfig, time: real, before: seq<TrailSegment>, grown: seq<TrailSegment>)
    requires before <= grown
    ensures PruneCutoff(cfg, time).None? ==> Prune(cfg, time, grown) == grown
    ensures PruneCutoff(cfg, time).Some? ==>
      Prune(cfg, time, grown) == KeepRecent(before, PruneCutoff(cfg, time).value)
                                 + KeepRecent(grown[|before|..], PruneCutoff(cfg, time).value)
  {
    assert grown == before + grown[|before|..];
    if PruneCutoff(cfg, time).Some? {
      KeepRecentConcat(before, grown[|before|..], PruneCutoff(cfg, time).value);
    }
  }

  /** The player loop of a tick appends its segments in player order. */
  lemma GrownInOrder(m: MathLib, cfg: SimConfig, w: World, inputs: Inputs, dt: real, mode: CollisionMode)
    requires Steppable(cfg) && DistinctIds(w.players)
    ensures var c := Grown(m, cfg, w, inputs, dt, mode);
      forall a, b, i, j ::
        |w.trails| <= a < b < |c.board.trails| &&
        LaidBy(c.board.trails[a], w.players, c.players, i) && LaidBy(c.board.trails[b], w.players, c.players, j)
        ==> i <= j
  {
    var tick, board := TickOf(cfg, w, dt), StartBoard(cfg, w);
    assert Grown(m, cfg, w, inputs, dt, mode) == StepPlayers(m, cfg, w.players, inputs, tick, board, mode);
    assert board.trails == w.trails;
    StepPlayersInOrder(m, cfg, w.players, inputs, tick, board, mode);
  }

  // ---------------------------------------------------------------------------
  // Trail keys stay unique
  // ---------------------------------------------------------------------------

  /** No two players share an id. */
  predicate DistinctIds(players: seq<Player>) {
    forall i, j :: 0 <= i < j < |players| ==> players[i].id != players[j].id
  }

  /** Every trail's id is within its owner's counter, so the next id a player allocates is unused. */
  predicate Fresh(trails: seq<TrailSegment>, players: seq<Player>) {
    forall x, i :: x in trails && 0 <= i < |players| && x.owner == players[i].id ==> x.id <= players[i].trailId
  }

  /**
    What keeps the `${owner}:${id}` keys of the trail list unique from tick
    to tick, which the grid's candidate map relies on.
   */
  predicate WorldInv(w: World) {
    DistinctIds(w.players) && DistinctKeys(w.trails) && Fresh(w.trails, w.players)
  }

  /** Appending ids above an owner's counter keeps the keys unique. */
  lemma AppendFresh(t: seq<TrailSegment>, u: seq<TrailSegment>, owner: PlayerId, lastId: int)
    requires DistinctKeys(t)
    requires forall x :: x in t && x.owner == owner ==> x.id <= lastId
    requires forall i :: 0 <= i < |u| ==> u[i].owner == owner && u[i].id == lastId + 1 + i
    ensures DistinctKeys(t + u)
  {
    var s := t + u;
    forall i, j | 0 <= i < j < |s| ensures Key(s[i]) != Key(s[j]) {
      if j < |t| {
        assert s[i] == t[i] && s[j] == t[j];
      } else if i < |t| {
        assert s[i] in t;
        assert s[j] == u[j - |t|];
      } else {
        assert s[i] == u[i - |t|] && s[j] == u[j - |t|];
      }
    }
  }

  /** One player's move keeps the keys unique when its counter is fresh. */
  lemma StepPlayerKeys(
    m: MathLib, cfg: SimConfig, p: Player, inputs: Inputs, tick: Tick, board: Board, mode: CollisionMode)
    requires Steppable(cfg)
    requires DistinctKeys(board.trails)
    requires forall x :: x in board.trails && x.owner == p.id ==> x.id <= p.trailId
    ensures DistinctKeys(StepPlayer(m, cfg, p, inputs, tick, board, mode).board.trails)
  {
    var r := StepPlayer(m, cfg, p, inputs, tick, board, mode);
    var u := r.board.trails[|board.trails|..];
    assert r.board.trails == board.trails + u;
    forall i | 0 <= i < |u| ensures u[i].owner == p.id && u[i].id == p.trailId + 1 + i {
      assert u[i] == r.board.trails[|board.trails| + i];
      assert u[i] in u;
    }
    AppendFresh(board.trails, u, p.id, p.trailId);
  }

  /** After the first player has moved, the counters of the others are still fresh. */
  lemma FreshForRest(t0: seq<TrailSegment>, t1: seq<TrailSegment>, players: seq<Player>)
    requires |players| > 0 && DistinctIds(players) && Fresh(t0, players)
    requires t0 <= t1
    requires forall x :: x in t1[|t0|..] ==> x.owner == players[0].id
    ensures Fresh(t1, players[1..])
  {
    forall x, i | x in t1 && 0 <= i < |players[1..]| && x.owner == players[1..][i].id
      ensures x.id <= players[1..][i].trailId
    {
      assert players[1..][i] == players[i + 1];
      var k :| 0 <= k < |t1| && t1[k] == x;
      if k < |t0| {
        assert x == t0[k];
      }
    }
  }

  /** The counters after the loop are fresh for everything the loop left on the list. */
  lemma FreshAfterLoop(
    t0: seq<TrailSegment>, t2: seq<TrailSegment>, players: seq<Player>, after: seq<Player>)
    requires |after| == |players| && DistinctIds(players) && Fresh(t0, players)
    requires forall i :: 0 <= i < |players| ==> after[i].id == players[i].id && players[i].trailId <= after[i].trailId
    requires t0 <= t2
    requires forall x :: x in t2[|t0|..] ==> exists i :: LaidBy(x, players, after, i)
    ensures Fresh(t2, after)
  {
    forall x, j | x in t2 && 0 <= j < |after| && x.owner == after[j].id ensures x.id <= after[j].trailId {
      var k :| 0 <= k < |t2| && t2[k] == x;
      if k < |t0| {
        assert x == t0[k];
      } else {
        assert x in t2[|t0|..];
        var i :| LaidBy(x, players, after, i);
        assert i == j;
      }
    }
  }

  /** The player loop keeps the keys unique. */
  lemma {:induction false} StepPlayersDistinct(
    m: MathLib, cfg: SimConfig, players: seq<Player>, inputs: Inputs, tick: Tick, board: Board,
    mode: CollisionMode)
    requires Steppable(cfg)
    requires DistinctIds(players) && DistinctKeys(board.trails) && Fresh(board.trails, players)
    ensures DistinctKeys(StepPlayers(m, cfg, players, inputs, tick, board, mode).board.trails)
    decreases |players|
  {
    if |players| > 0 {
      var first := StepPlayer(m, cfg, players[0], inputs, tick, board, mode);
      StepPlayerKeys(m, cfg, players[0], inputs, tick, board, mode);
      FreshForRest(board.trails, first.board.trails, players);
      assert DistinctIds(players[1..]);
      StepPlayersDistinct(m, cfg, players[1..], inputs, tick, first.board, mode);
    }
  }

  /** After the player loop every counter is fresh again. */
  lemma StepPlayersFresh(
    m: MathLib, cfg: SimConfig, players: seq<Player>, inputs: Inputs, tick: Tick, board: Board,
    mode: CollisionMode)
    requires Steppable(cfg)
    requires DistinctIds(players) && Fresh(board.trails, players)
    ensures var r := StepPlayers(m, cfg, players, inputs, tick, board, mode);
      Fresh(r.board.trails, r.players)
  {
    var r := StepPlayers(m, cfg, players, inputs, tick, board, mode);
    StepPlayersLaid(m, cfg, players, inputs, tick, board, mode);
    FreshAfterLoop(board.trails, r.board.trails, players, r.players);
  }

  /** A tick keeps the keys unique and the counters fresh. */
  lemma StepWorldKeepsInv(m: MathLib, cfg: SimConfig, w: World, inputs: Inputs, dt: real, mode: CollisionMode)
    requires Steppable(cfg) && WorldInv(w)
    ensures WorldInv(StepWorld(m, cfg, w, inputs, dt, mode))
  {
    var r := StepWorld(m, cfg, w, inputs, dt, mode);
    var g := Grown(m, cfg, w, inputs, dt, mode);
    StepPlayersDistinct(m, cfg, w.players, inputs, TickOf(cfg, w, dt), StartBoard(cfg, w), mode);
    StepPlayersFresh(m, cfg, w.players, inputs, TickOf(cfg, w, dt), StartBoard(cfg, w), mode);
    assert r.trails == Prune(cfg, r.time, g.board.trails) && r.players == g.players;
    assert DistinctIds(r.players);
  }

  // ---------------------------------------------------------------------------
  // The grid index does not change who dies
  // ---------------------------------------------------------------------------

  /** The two players are equal except possibly for `eliminatedBy`. */
  predicate SameButCulprit(a: Player, b: Player) {
    a.(eliminatedBy := b.eliminatedBy) == b
  }

  /** On a list with unique keys, the grid's trail test reports a hit exactly when the full scan does. */
  lemma TrailCheckModes(cfg: SimConfig, id: PlayerId, prev: Vec2, next: Vec2, time: real, n1: Board, n2: Board)
    requires cfg.trailWidth >= 0.0 && IndexCurrent(cfg, n1) && n1.trails == n2.trails && DistinctKeys(n1.trails)
    ensures TrailCheck(cfg, id, prev, next, time, n1, Indexed).hit == TrailCheck(cfg, id, prev, next, time, n2, BruteForce).hit
  {
    IndexedVerdictAgrees(n1.trails, BucketPad(cfg), prev, next, time, Some(id), cfg.selfTrailGrace);
  }

  /** Two trail tests that agree on the hit flag lead to the same fate. */
  lemma ResolveModes(p: Player, wallHit: bool, h1: HitResult, h2: HitResult, time: real)
    requires h1.hit == h2.hit
    ensures SameButCulprit(ResolveElimination(p, Verdict(wallHit, h1), time), ResolveElimination(p, Verdict(wallHit, h2), time))
  {
  }

  /**
    One move decides the same fate with the grid as with the whole list: the
    lists stay equal and the players differ at most in the reported culprit.
   */
  lemma StepPlayerModes(
    m: MathLib, cfg: SimConfig, p: Player, inputs: Inputs, tick: Tick, b1: Board, b2: Board)
    requires Steppable(cfg) && cfg.trailWidth >= 0.0
    requires IndexCurrent(cfg, b1) && b1.trails == b2.trails
    requires DistinctKeys(b1.trails)
    requires forall x :: x in b1.trails && x.owner == p.id ==> x.id <= p.trailId
    ensures var r1 := StepPlayer(m, cfg, p, inputs, tick, b1, Indexed);
      var r2 := StepPlayer(m, cfg, p, inputs, tick, b2, BruteForce);
      r1.board.trails == r2.board.trails && SameButCulprit(r1.player, r2.player)
  {
    if p.alive {
      StepPlayerKeys(m, cfg, p, inputs, tick, b1, Indexed);
      var phys := Drive(m, cfg, p, inputs, tick.dt);
      var emitted := Emit(m, cfg, p, phys.pos, tick.time);
      var n1 := Extend(cfg, b1, emitted.segments);
      var n2 := Extend(cfg, b2, emitted.segments);
      TrailCheckModes(cfg, p.id, p.pos, phys.pos, tick.time, n1, n2);
      var moved := p.(pos := phys.pos, heading := phys.heading, turnVel := phys.turnVel,
                      gapTimer := emitted.gapTimer, gapOn := emitted.gapOnState,
                      trailId := emitted.trailId.GetOr(p.trailId));
      ResolveModes(moved, OutOfBounds(m, phys.pos, tick.arenaHalf),
                   TrailCheck(cfg, p.id, p.pos, phys.pos, tick.time, n1, Indexed),
                   TrailCheck(cfg, p.id, p.pos, phys.pos, tick.time, n2, BruteForce), tick.time);
    }
  }

  /** The player loop decides the same fates with the grid as with the whole list. */
  lemma {:induction false} StepPlayersModes(
    m: MathLib, cfg: SimConfig, players: seq<Player>, inputs: Inputs, tick: Tick, b1: Board, b2: Board)
    requires Steppable(cfg) && cfg.trailWidth >= 0.0
    requires IndexCurrent(cfg, b1) && b1.trails == b2.trails
    requires DistinctIds(players) && DistinctKeys(b1.trails) && Fresh(b1.trails, players)
    ensures var r1 := StepPlayers(m, cfg, players, inputs, tick, b1, Indexed);
      var r2 := StepPlayers(m, cfg, players, inputs, tick, b2, BruteForce);
      && r1.board.trails == r2.board.trails
      && (forall i :: 0 <= i < |players| ==> SameButCulprit(r1.players[i], r2.players[i]))
    decreases |players|
  {
    if |players| > 0 {
      var f1 := StepPlayer(m, cfg, players[0], inputs, tick, b1, Indexed);
      var f2 := StepPlayer(m, cfg, players[0], inputs, tick, b2, BruteForce);
      StepPlayerModes(m, cfg, players[0], inputs, tick, b1, b2);
      StepPlayerKeys(m, cfg, players[0], inputs, tick, b1, Indexed);
      FreshForRest(b1.trails, f1.board.trails, players);
      assert DistinctIds(players[1..]);
      StepPlayersModes(m, cfg, players[1..], inputs, tick, f1.board, f2.board);
      var rest1 := StepPlayers(m, cfg, players[1..], inputs, tick, f1.board, Indexed);
      var rest2 := StepPlayers(m, cfg, players[1..], inputs, tick, f2.board, BruteForce);
      var r1 := StepPlayers(m, cfg, players, inputs, tick, b1, Indexed);
      var r2 := StepPlayers(m, cfg, players, inputs, tick, b2, BruteForce);
      assert r1 == Crowd([f1.player] + rest1.players, rest1.board);
      assert r2 == Crowd([f2.player] + rest2.players, rest2.board);
      forall i | 0 <= i < |players| ensures SameButCulprit(r1.players[i], r2.players[i]) {
        if i > 0 {
          assert r1.players[i] == rest1.players[i - 1] && r2.players[i] == rest2.players[i - 1];
        }
      }
    }
  }

  /** The two worlds agree except possibly for who is named as the culprit. */
  predicate AgreeButCulprit(a: World, b: World) {
    && a.time == b.time && a.arenaHalf == b.arenaHalf && a.running == b.running
    && a.trails == b.trails && |a.players| == |b.players|
    && forall i :: 0 <= i < |a.players| ==> SameButCulprit(a.players[i], b.players[i])
  }

  /**
    The grid index is sound: with unique trail keys and a non-negative pad, a
    tick that takes its collision candidates from the grid produces the same
    world as one that tests every trail, except that a trail death may name a
    different culprit when several trails are hit.
   */
  lemma ModesAgree(m: MathLib, cfg: SimConfig, w: World, inputs: Inputs, dt: real)
    requires Steppable(cfg) && cfg.trailWidth >= 0.0 && WorldInv(w)
    ensures AgreeButCulprit(StepWorld(m, cfg, w, inputs, dt, Indexed), StepWorld(m, cfg, w, inputs, dt, BruteForce))
  {
    StepPlayersModes(m, cfg, w.players, inputs, TickOf(cfg, w, dt), StartBoard(cfg, w), StartBoard(cfg, w));
  }

  // ---------------------------------------------------------------------------
  // The fate of one move
  // ---------------------------------------------------------------------------

  /**
    A living player's move: it goes where the integrator says, a wall hit
    kills it with no culprit, otherwise a trail hit kills it and names the
    owner of the trail hit, otherwise it survives.
   */
  lemma StepPlayerFate(
    m: MathLib, cfg: SimConfig, p: Player, inputs: Inputs, tick: Tick, board: Board, mode: CollisionMode)
    requires Steppable(cfg) && p.alive
    ensures var phys := Drive(m, cfg, p, inputs, tick.dt);
      var next := Extend(cfg, board, Emit(m, cfg, p, phys.pos, tick.time).segments);
      var trailHit := TrailCheck(cfg, p.id, p.pos, phys.pos, tick.time, next, mode);
      var r := StepPlayer(m, cfg, p, inputs, tick, board, mode).player;
      && r.pos == phys.pos && r.heading == phys.heading && r.turnVel == phys.turnVel
      && (OutOfBounds(m, phys.pos, tick.arenaHalf) ==>
            !r.alive && r.eliminationReason == Some(Wall) && r.eliminatedBy == None)
      && (!OutOfBounds(m, phys.pos, tick.arenaHalf) && trailHit.hit ==>
            !r.alive && r.eliminationReason == Some(Trail) && r.eliminatedBy == trailHit.owner)
      && (!OutOfBounds(m, phys.pos, tick.arenaHalf) && !trailHit.hit ==> r.alive)
  {
  }

  /** Before the opening grace has passed only the wall can eliminate. */
  lemma OpeningGraceOnlyWalls(
    m: MathLib, cfg: SimConfig, p: Player, inputs: Inputs, tick: Tick, board: Board, mode: CollisionMode)
    requires Steppable(cfg) && p.alive && !PastOpeningGrace(cfg, tick.time)
    ensures var phys := Drive(m, cfg, p, inputs, tick.dt);
      StepPlayer(m, cfg, p, inputs, tick, board, mode).player.alive <==> !OutOfBounds(m, phys.pos, tick.arenaHalf)
  {
    StepPlayerFate(m, cfg, p, inputs, tick, board, mode);
  }

  /** A player with no entry in the input map moves as if steering straight. */
  lemma MissingInputSteersStraight(
    m: MathLib, cfg: SimConfig, p: Player, inputs: Inputs, tick: Tick, board: Board, mode: CollisionMode)
    requires Steppable(cfg) && p.id !in inputs
    ensures StepPlayer(m, cfg, p, inputs, tick, board, mode) == StepPlayer(m, cfg, p, map[p.id := 0], tick, board, mode)
  {
    assert Drive(m, cfg, p, inputs, tick.dt) == Drive(m, cfg, p, map[p.id := 0], tick.dt);
  }

  /** The arena of a tick follows the shrink schedule and does not grow over a non-negative step. */
  lemma TickArena(cfg: SimConfig, w: World, dt: real)
    ensures TickOf(cfg, w, dt).arenaHalf
         == ArenaHalfAt(w.time + dt, cfg.arenaSize / 2.0, cfg.shrinkStart, cfg.shrinkEnd, cfg.shrinkTo)
    ensures dt >= 0.0 && cfg.arenaSize >= 0.0 && cfg.shrinkTo <= 1.0
         && w.arenaHalf == ArenaHalfAt(w.time, cfg.arenaSize / 2.0, cfg.shrinkStart, cfg.shrinkEnd, cfg.shrinkTo)
         ==> TickOf(cfg, w, dt).arenaHalf <= w.arenaHalf
  {
    if dt >= 0.0 && cfg.arenaSize >= 0.0 && cfg.shrinkTo <= 1.0 {
      ArenaNeverGrows(w.time, w.time + dt, cfg.arenaSize / 2.0, cfg.shrinkStart, cfg.shrinkEnd, cfg.shrinkTo);
    }
  }

  /** A tick's world takes the tick's arena, computed once before any player moves. */
  lemma StepWorldTick(m: MathLib, cfg: SimConfig, w: World, inputs: Inputs, dt: real, mode: CollisionMode)
    requires Steppable(cfg)
    ensures StepWorld(m, cfg, w, inputs, dt, mode).arenaHalf == TickOf(cfg, w, dt).arenaHalf
  {
  }
}
