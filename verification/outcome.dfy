/** Deciding whether a round is over, from the point of view of one tracked player. */
module Outcome {
  import opened Types

  datatype ResultStatus = Victory | TimeUp | Eliminated

  datatype MatchOutcome =
    | NotFinished
    | Finished(status: ResultStatus, winner: PlayerId, survival: real,
               eliminationReason: Option<EliminationReason>, eliminatedBy: Option<PlayerId>)

  /** The position of the first player carrying the id, or none when no player does. */
  function FindPlayer(players: seq<Player>, id: PlayerId): (r: Option<nat>)
    ensures r.Some? ==> r.value < |players| && players[r.value].id == id
                        && forall j :: 0 <= j < r.value ==> players[j].id != id
    ensures r.None? ==> forall j :: 0 <= j < |players| ==> players[j].id != id
  {
    if |players| == 0 then None
    else if players[0].id == id then Some(0)
    else
      var r := FindPlayer(players[1..], id);
      if r.Some? then Some(r.value + 1) else None
  }

  /** The living players, in list order. */
  function AlivePlayers(players: seq<Player>): (r: seq<Player>)
    ensures forall p :: p in r <==> p in players && p.alive
    ensures |r| <= |players|
  {
    if |players| == 0 then []
    else if players[0].alive then [players[0]] + AlivePlayers(players[1..])
    else AlivePlayers(players[1..])
  }

  /** The first living player in list order is the head of the filtered list. */
  lemma {:induction false} FirstAlive(players: seq<Player>, i: nat)
    requires i < |players| && players[i].alive && forall j :: 0 <= j < i ==> !players[j].alive
    ensures |AlivePlayers(players)| > 0 && AlivePlayers(players)[0] == players[i]
  {
    if i > 0 {
      FirstAlive(players[1..], i - 1);
    }
  }

  /**
    `evaluateOutcome`: a missing tracked player means the round goes on; a
    dead one ends it as ELIMINATED; otherwise the clock, then the number of
    survivors, decide.
   */
  function EvaluateOutcome(world: World, playerId: PlayerId, roundDuration: real): (r: MatchOutcome)
    ensures FindPlayer(world.players, playerId).None? ==> r == NotFinished
    ensures r.Finished? ==> r.survival == world.time
    ensures r.Finished? && r.status != Eliminated ==> r.eliminationReason == None && r.eliminatedBy == None
    // ELIMINATED is reported only for a dead tracked player, and a victory is the tracked player's own
    ensures r.Finished? && r.status == Eliminated ==>
      FindPlayer(world.players, playerId).Some? && !Tracked(world, playerId).alive
    ensures r.Finished? && r.status == Victory ==> r.winner == playerId
  {
    var found := FindPlayer(world.players, playerId);
    if found.None? then
      NotFinished
    else
      var player := world.players[found.value];
      var alive := AlivePlayers(world.players);
      var timeUp := world.time >= roundDuration;
      if !player.alive then
        Finished(Eliminated, if |alive| > 0 then alive[0].id else "none", world.time,
                 player.eliminationReason, player.eliminatedBy)
      else if timeUp then
        Finished(TimeUp, if |alive| > 0 then alive[0].id else playerId, world.time, None, None)
      else if |alive| <= 1 then
        Finished(Victory, playerId, world.time, None, None)
      else
        NotFinished
  }

  /** The player `find` picks for `id`. */
  function Tracked(world: World, playerId: PlayerId): Player
    requires FindPlayer(world.players, playerId).Some?
  {
    world.players[FindPlayer(world.players, playerId).value]
  }

  /** A dead tracked player ends the round at any time, carrying its own elimination record. */
  lemma EliminatedOutcome(world: World, playerId: PlayerId, roundDuration: real)
    requires FindPlayer(world.players, playerId).Some? && !Tracked(world, playerId).alive
    ensures var r := EvaluateOutcome(world, playerId, roundDuration);
      && r.Finished? && r.status == Eliminated
      && r.eliminationReason == Tracked(world, playerId).eliminationReason
      && r.eliminatedBy == Tracked(world, playerId).eliminatedBy
      // the winner is the first survivor, or "none" when nobody survives
      && ((forall p :: p in world.players ==> !p.alive) ==> r.winner == "none")
  {
  }

  /** The winner named for a death or a timeout is the first living player in list order. */
  lemma WinnerIsFirstAlive(world: World, playerId: PlayerId, roundDuration: real, i: nat)
    requires FindPlayer(world.players, playerId).Some?
    requires i < |world.players| && world.players[i].alive
    requires forall j :: 0 <= j < i ==> !world.players[j].alive
    ensures var r := EvaluateOutcome(world, playerId, roundDuration);
      r.Finished? && r.status != Victory ==> r.winner == world.players[i].id
  {
    FirstAlive(world.players, i);
  }

  /**
    The outcome is finished exactly when the tracked player exists and is
    dead, or the round time is up, or at most one player is alive. Each
    status has exactly one cause: death gives ELIMINATED; otherwise the clock
    gives TIME_UP; otherwise being the last one standing gives VICTORY, won
    by the tracked player, who is then the only one alive.
   */
  lemma FinishedWhen(world: World, playerId: PlayerId, roundDuration: real)
    ensures var r := EvaluateOutcome(world, playerId, roundDuration);
      var found := FindPlayer(world.players, playerId);
      && (r.Finished? <==>
            found.Some? && (!Tracked(world, playerId).alive || world.time >= roundDuration
                            || |AlivePlayers(world.players)| <= 1))
      && (r.Finished? && r.status == Eliminated <==> found.Some? && !Tracked(world, playerId).alive)
      && (r.Finished? && r.status == TimeUp <==>
            found.Some? && Tracked(world, playerId).alive && world.time >= roundDuration)
      && (r.Finished? && r.status == Victory <==>
            found.Some? && Tracked(world, playerId).alive && world.time < roundDuration
            && |AlivePlayers(world.players)| <= 1)
      && (r.Finished? && r.status == Victory ==> r.winner == playerId)
      && (r.Finished? && r.status == Victory ==>
            world.time < roundDuration
            && forall p :: p in world.players && p.alive ==> p == Tracked(world, playerId))
      && (r.Finished? && r.status == TimeUp ==> Tracked(world, playerId).alive && world.time >= roundDuration)
  {
    var r := EvaluateOutcome(world, playerId, roundDuration);
    if r.Finished? && r.status == Victory {
      var me := Tracked(world, playerId);
      var alive := AlivePlayers(world.players);
      assert me in alive;
      forall p | p in world.players && p.alive ensures p == me {
        assert p in alive;
        if |alive| == 1 {
          assert alive[0] == me && alive[0] == p;
        }
      }
    }
  }

  lemma OutcomeExamples(a: Player, b: Player)
    requires a.id == "p1" && b.id == "b1" && a.alive && !b.alive
    ensures EvaluateOutcome(World(5.0, [a, b], [], 50.0, true), "p1", 90.0) == Finished(Victory, "p1", 5.0, None, None)
    ensures EvaluateOutcome(World(95.0, [b, a], [], 50.0, true), "p1", 90.0) == Finished(TimeUp, "p1", 95.0, None, None)
    ensures EvaluateOutcome(World(5.0, [a, b], [], 50.0, true), "b1", 90.0)
         == Finished(Eliminated, "p1", 5.0, b.eliminationReason, b.eliminatedBy)
    ensures EvaluateOutcome(World(5.0, [a, b], [], 50.0, true), "x", 90.0) == NotFinished
  {
    assert AlivePlayers([a, b]) == [a] by {
      assert AlivePlayers([a, b][1..]) == [];
    }
    assert AlivePlayers([b, a]) == [a] by {
      assert [b, a][1..] == [a];
      assert AlivePlayers([a][1..]) == [];
    }
    assert FindPlayer([a, b], "b1") == Some(1) by {
      assert [a, b][1..] == [b];
    }
    assert FindPlayer([b, a], "p1") == Some(1) by {
      assert [b, a][1..] == [a];
    }
    assert FindPlayer([a, b], "x") == None by {
      assert [a, b][1..] == [b];
      assert [b][1..] == [];
    }
  }
}
