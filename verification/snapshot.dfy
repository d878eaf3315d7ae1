/**
  The client's side of the wire: rebuilding a renderable world from a server
  snapshot. Only the public per-player fields travel; the transient steering
  and trail state starts over.
 */
module NetSnapshot {
  import opened Types
  import opened SpatialIndex
  import opened WorldStep
  import opened SimAdapter

  /** A player rebuilt from its public view, with the transient fields reset. */
  function Rebuild(v: PlayerView): (p: Player)
    ensures View(p) == v
    ensures p.turnVel == 0.0 && p.gapTimer == 0.0 && p.gapOn && p.trailId == 0
    ensures p.eliminationReason == None && p.eliminatedBy == None
  {
    Player(v.id, v.pos, v.heading, 0.0, v.alive, 0.0, true, 0, v.eliminatedAt, None, None)
  }

  /** `snapshotToWorld`. */
  function SnapshotToWorld(s: ServerSnapshot): (w: World)
    ensures w.time == s.time && w.arenaHalf == s.arenaHalf && w.trails == s.trails && w.running
    ensures |w.players| == |s.players|
    ensures forall i :: 0 <= i < |s.players| ==> w.players[i] == Rebuild(s.players[i])
  {
    World(s.time, seq(|s.players|, i requires 0 <= i < |s.players| => Rebuild(s.players[i])), s.trails, s.arenaHalf, true)
  }

  /** Rebuilding and re-broadcasting at the same tick gives back the snapshot exactly. */
  lemma SnapshotRoundTrip(s: ServerSnapshot)
    ensures BuildSnapshot(SnapshotToWorld(s), s.tick) == s
  {
    var back := BuildSnapshot(SnapshotToWorld(s), s.tick);
    assert back.players == s.players by {
      forall i | 0 <= i < |s.players| ensures back.players[i] == s.players[i] {
        assert View(Rebuild(s.players[i])) == s.players[i];
      }
    }
  }

  /** Broadcasting and rebuilding keeps the public state and resets only the transient fields. */
  lemma WorldRoundTrip(w: World, tick: int)
    ensures var r := SnapshotToWorld(BuildSnapshot(w, tick));
      && r.time == w.time && r.arenaHalf == w.arenaHalf && r.trails == w.trails && r.running
      && |r.players| == |w.players|
      && forall i :: 0 <= i < |w.players| ==>
        && View(r.players[i]) == View(w.players[i])
        && r.players[i] == Rebuild(View(w.players[i]))
  {
  }

  /** A freshly seeded world survives the trip unchanged: it has no transient state yet. */
  lemma CreatedWorldRoundTrip(m: Numerics.MathLib, cfg: Config.SimConfig, ids: seq<PlayerId>, now: real, tick: int)
    ensures SnapshotToWorld(BuildSnapshot(CreateWorld(m, cfg, ids, now), tick)) == CreateWorld(m, cfg, ids, now)
  {
    var w := CreateWorld(m, cfg, ids, now);
    var r := SnapshotToWorld(BuildSnapshot(w, tick));
    assert r.players == w.players by {
      forall i | 0 <= i < |w.players| ensures r.players[i] == w.players[i] {
        assert Rebuild(View(w.players[i])) == w.players[i];
      }
    }
  }

  /**
    The rebuilt world restarts every trail counter at 0, so its trails are
    fresh for the simulation exactly when no listed player owns a trail with
    a positive id.
   */
  lemma RebuiltCountersRestart(s: ServerSnapshot)
    ensures var w := SnapshotToWorld(s);
      Fresh(w.trails, w.players) <==>
        forall x, i :: x in s.trails && 0 <= i < |s.players| && x.owner == s.players[i].id ==> x.id <= 0
  {
  }
}
