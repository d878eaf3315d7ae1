/** Applying a detected hit to a player. */
module Match {
  import opened Types

  /** What hit the player: the wall, or a trail and (when known) its owner. */
  datatype EliminationHit = EliminationHit(reason: EliminationReason, culprit: Option<PlayerId>)

  /**
    `resolveElimination`: without a hit the player is returned unchanged;
    with one it is marked dead at `time`, with the hit's reason and culprit,
    and nothing else about it changes.
   */
  function ResolveElimination(player: Player, hit: Option<EliminationHit>, time: real): (r: Player)
    ensures hit.None? ==> r == player
    ensures hit.Some? ==> && !r.alive
                          && r.eliminatedAt == Some(time)
                          && r.eliminationReason == Some(hit.value.reason)
                          && r.eliminatedBy == hit.value.culprit
    ensures r == player.(alive := r.alive, eliminatedAt := r.eliminatedAt,
                         eliminationReason := r.eliminationReason, eliminatedBy := r.eliminatedBy)
  {
    if hit.None? then
      player
    else
      player.(alive := false, eliminatedAt := Some(time),
              eliminationReason := Some(hit.value.reason), eliminatedBy := hit.value.culprit)
  }

  /** Resolving the same hit at the same time twice is the same as resolving it once. */
  lemma ResolveIdempotent(player: Player, hit: Option<EliminationHit>, time: real)
    ensures ResolveElimination(ResolveElimination(player, hit, time), hit, time)
         == ResolveElimination(player, hit, time)
  {
  }
}
