/** The simulation's shared records: players, trail segments, worlds and snapshots. */
module Types {
  import opened Vec

  datatype Option<T> = None | Some(value: T) {
    function GetOr(default: T): T {
      if Some? then value else default
    }
  }

  type PlayerId = string

  /** A steering input: -1 turns one way, 1 the other, 0 goes straight. */
  type Steer = x: int | -1 <= x <= 1

  datatype EliminationReason = Trail | Wall

  datatype Player = Player(
    id: PlayerId,
    pos: Vec2,
    heading: real,
    turnVel: real,
    alive: bool,
    gapTimer: real,
    gapOn: bool,
    trailId: int,
    eliminatedAt: Option<real>,
    eliminationReason: Option<EliminationReason>,
    eliminatedBy: Option<PlayerId>)

  datatype TrailSegment = TrailSegment(
    id: int,
    owner: PlayerId,
    start: Vec2,
    end: Vec2,
    createdAt: real,
    solidAt: real)

  datatype World = World(
    time: real,
    players: seq<Player>,
    trails: seq<TrailSegment>,
    arenaHalf: real,
    running: bool)

  /** The per-player part of a server snapshot. */
  datatype PlayerView = PlayerView(
    id: PlayerId,
    pos: Vec2,
    heading: real,
    alive: bool,
    eliminatedAt: Option<real>)

  datatype ServerSnapshot = ServerSnapshot(
    tick: int,
    time: real,
    arenaHalf: real,
    players: seq<PlayerView>,
    trails: seq<TrailSegment>)

  datatype Difficulty = Easy | Medium | Hard

  /** Numeric rank of a difficulty, for stating orderings. */
  function Rank(d: Difficulty): (r: nat)
    ensures r < 3
  {
    match d
    case Easy => 0
    case Medium => 1
    case Hard => 2
  }

  /** The input sent for each player id; a missing id steers straight. */
  type Inputs = map<PlayerId, Steer>

  function InputFor(inputs: Inputs, id: PlayerId): (s: Steer)
    ensures id in inputs ==> s == inputs[id]
    ensures id !in inputs ==> s == 0
  {
    if id in inputs then inputs[id] else 0
  }

  /** An explicit random stream: `draws(k)` is the value of the k-th call of `rng()`. */
  type Draws = nat -> real

  ghost predicate UnitDraws(draws: Draws) {
    forall k: nat :: 0.0 <= draws(k) < 1.0
  }
}
