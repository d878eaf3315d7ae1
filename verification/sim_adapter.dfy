/**
  The server's side of the wire: seeding a world for a list of player ids,
  and projecting a world to the snapshot it broadcasts every tick.
 */
module SimAdapter {
  import opened Numerics
  import opened Vec
  import opened Types
  import opened Config
  import opened SpatialIndex
  import opened WorldStep

  /** The radius of the starting ring, as a fraction of the arena half-size. */
  const StartRingFraction: real := 0.6

  /** `Math.max(1, n)`: an empty roster still divides the ring by one. */
  function SeatCount(n: nat): (c: nat)
    ensures c >= 1 && c >= n
    ensures n >= 1 ==> c == n
  {
    if n >= 1 then n else 1
  }

  /** The angle of seat `index` when `count` seats share the ring evenly. */
  function SeatAngle(index: nat, count: nat): (a: real)
    requires count >= 1
    ensures index == 0 ==> a == 0.0
  {
    (index as real / count as real) * PI * 2.0
  }

  /** The starting state of one player on the ring. */
  function Seat(m: MathLib, id: PlayerId, index: nat, count: nat, radius: real): (p: Player)
    requires count >= 1
    ensures p.id == id && p.alive && p.turnVel == 0.0 && p.gapTimer == 0.0 && p.gapOn && p.trailId == 0
    ensures p.eliminatedAt == None && p.eliminationReason == None && p.eliminatedBy == None
    // on the ring, at the seat's angle, facing the opposite way
    ensures p.pos == Vec2(m.cos(SeatAngle(index, count)) * radius, m.sin(SeatAngle(index, count)) * radius)
    ensures p.heading == SeatAngle(index, count) + PI
    ensures Valid(m) ==> LengthSq(p.pos) == radius * radius
  {
    var angle := SeatAngle(index, count);
    var c, s := m.cos(angle), m.sin(angle);
    assert Valid(m) ==> (c * radius) * (c * radius) + (s * radius) * (s * radius) == radius * radius by {
      if Valid(m) {
        assert c * c + s * s == 1.0;
        assert (c * radius) * (c * radius) + (s * radius) * (s * radius) == (c * c + s * s) * (radius * radius);
      }
    }
    Player(id, Vec2(c * radius, s * radius), angle + PI, 0.0, true, 0.0, true, 0, None, None, None)
  }

  /** `createWorld`: one fresh player per id, in order, on a ring inside the arena. */
  function CreateWorld(m: MathLib, cfg: SimConfig, ids: seq<PlayerId>, now: real): (w: World)
    ensures w.time == now && w.trails == [] && w.running
    ensures w.arenaHalf == cfg.arenaSize / 2.0
    ensures |w.players| == |ids|
    ensures forall i :: 0 <= i < |ids| ==>
      w.players[i] == Seat(m, ids[i], i, SeatCount(|ids|), w.arenaHalf * StartRingFraction)
  {
    var arenaHalf := cfg.arenaSize / 2.0;
    var count := SeatCount(|ids|);
    var players := seq(|ids|, i requires 0 <= i < |ids| => Seat(m, ids[i], i, count, arenaHalf * StartRingFraction));
    World(now, players, [], arenaHalf, true)
  }

  /** Neighbouring seats are a full turn divided by the seat count apart. */
  lemma SeatsEvenlySpaced(index: nat, count: nat)
    requires count >= 1
    ensures SeatAngle(index + 1, count) - SeatAngle(index, count) == PI * 2.0 / count as real
  {
    var c := count as real;
    calc {
      SeatAngle(index + 1, count) - SeatAngle(index, count);
      ((index as real + 1.0) / c) * PI * 2.0 - (index as real / c) * PI * 2.0;
      ((index as real + 1.0) / c - index as real / c) * (PI * 2.0);
      { assert (index as real + 1.0) / c - index as real / c == 1.0 / c; }
      (1.0 / c) * (PI * 2.0);
      PI * 2.0 / c;
    }
  }

  /** Every seeded player starts strictly inside the arena wall, within the square the host tests check. */
  lemma CreatedInsideArena(m: MathLib, cfg: SimConfig, ids: seq<PlayerId>, now: real, i: nat)
    requires Valid(m) && cfg.arenaSize > 0.0 && i < |ids|
    ensures var w := CreateWorld(m, cfg, ids, now);
      && LengthSq(w.players[i].pos) < w.arenaHalf * w.arenaHalf
      && Abs(w.players[i].pos.x) <= w.arenaHalf && Abs(w.players[i].pos.y) <= w.arenaHalf
  {
    var w := CreateWorld(m, cfg, ids, now);
    var h := w.arenaHalf;
    var r := h * StartRingFraction;
    var pos := w.players[i].pos;
    assert LengthSq(pos) == r * r;
    SquareLt(r, h);
    SquareBound(pos.x, pos.y, h);
    SquareBound(pos.y, pos.x, h);
  }

  /** A coordinate of a point within radius `h` is within `h`. */
  lemma SquareBound(x: real, y: real, h: real)
    requires h >= 0.0 && x * x + y * y < h * h
    ensures Abs(x) <= h
  {
    if Abs(x) > h {
      SquareLt(h, Abs(x));
    }
  }

  /** With distinct ids the seeded world satisfies the simulation's invariant. */
  lemma CreatedWorldInv(m: MathLib, cfg: SimConfig, ids: seq<PlayerId>, now: real)
    requires forall i, j :: 0 <= i < j < |ids| ==> ids[i] != ids[j]
    ensures WorldInv(CreateWorld(m, cfg, ids, now))
  {
    var w := CreateWorld(m, cfg, ids, now);
    assert forall i :: 0 <= i < |ids| ==> w.players[i].id == ids[i];
  }

  /** The per-player part of a snapshot. */
  function View(p: Player): (v: PlayerView)
    ensures v.id == p.id && v.pos == p.pos && v.heading == p.heading
    ensures v.alive == p.alive && v.eliminatedAt == p.eliminatedAt
  {
    PlayerView(p.id, p.pos, p.heading, p.alive, p.eliminatedAt)
  }

  /** `buildSnapshot`: the world's public state, stamped with the tick number. */
  function BuildSnapshot(w: World, tick: int): (s: ServerSnapshot)
    ensures s.tick == tick && s.time == w.time && s.arenaHalf == w.arenaHalf && s.trails == w.trails
    ensures |s.players| == |w.players|
    ensures forall i :: 0 <= i < |w.players| ==>
      && s.players[i].id == w.players[i].id && s.players[i].pos == w.players[i].pos
      && s.players[i].heading == w.players[i].heading && s.players[i].alive == w.players[i].alive
      && s.players[i].eliminatedAt == w.players[i].eliminatedAt
  {
    ServerSnapshot(tick, w.time, w.arenaHalf, seq(|w.players|, i requires 0 <= i < |w.players| => View(w.players[i])), w.trails)
  }
}
