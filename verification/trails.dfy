/**
  The trail emitter: a globally synchronised blink cadence decides whether a
  vehicle draws this tick; a drawn move longer than the maximum segment length
  is split into equal pieces, each with its own id.
 */
module TrailEmitter {
  import opened Numerics
  import opened Vec
  import opened Types

  /** Longest segment emitted in one piece. */
  const MaxSegmentLength: real := 4.0

  datatype CadenceState = CadenceState(gapTimer: real, gapOnState: bool, trailId: int)

  /**
    What one emission reports: the new segments, the cadence flag, the cadence
    timer and, only when drawing, the last id used.
   */
  datatype TrailUpdate = TrailUpdate(
    segments: seq<TrailSegment>, gapOnState: bool, gapTimer: real, trailId: Option<int>)

  /** The list-returning form: the trail list with the new segments appended. */
  datatype TrailListUpdate = TrailListUpdate(
    trails: seq<TrailSegment>, gapOnState: bool, gapTimer: real, trailId: Option<int>)

  /** The blink cadence: drawing iff `time % (gapOn + gapOff) < gapOn`. */
  predicate Drawing(time: real, gapOn: real, gapOff: real)
    requires gapOn + gapOff != 0.0
  {
    JsMod(time, gapOn + gapOff) < gapOn
  }

  /** Piece `i` of `parts` equal pieces of the move from `prev` by `(dx, dz)`. */
  function Piece(
    prev: Vec2, dx: real, dz: real, parts: int, i: int, lastId: int,
    owner: PlayerId, time: real, solidifyDelay: real): TrailSegment
    requires parts >= 1
  {
    var t0 := i as real / parts as real;
    var t1 := (i + 1) as real / parts as real;
    TrailSegment(
      lastId + 1 + i, owner,
      Vec2(prev.x + dx * t0, prev.y + dz * t0),
      Vec2(prev.x + dx * t1, prev.y + dz * t1),
      time, time + solidifyDelay)
  }

  function Pieces(
    prev: Vec2, dx: real, dz: real, parts: int, lastId: int,
    owner: PlayerId, time: real, solidifyDelay: real): (segs: seq<TrailSegment>)
    requires parts >= 1
    ensures |segs| == parts
  {
    seq(parts, i requires 0 <= i < parts => Piece(prev, dx, dz, parts, i, lastId, owner, time, solidifyDelay))
  }

  /** Consecutive segments link up, from `from` to `to`. */
  ghost predicate Chain(segs: seq<TrailSegment>, from: Vec2, to: Vec2) {
    && |segs| >= 1
    && segs[0].start == from
    && segs[|segs| - 1].end == to
    && (forall i :: 0 <= i < |segs| - 1 ==> segs[i].end == segs[i + 1].start)
  }

  /** Segment ids run consecutively after `lastId`; owner and times are the tick's. */
  ghost predicate Stamped(
    segs: seq<TrailSegment>, lastId: int, owner: PlayerId, time: real, solidifyDelay: real)
  {
    forall i :: 0 <= i < |segs| ==>
      && segs[i].id == lastId + 1 + i
      && segs[i].owner == owner
      && segs[i].createdAt == time
      && segs[i].solidAt == time + solidifyDelay
  }

  function SegmentLengthSq(s: TrailSegment): real {
    LengthSq(Vec2(s.end.x - s.start.x, s.end.y - s.start.y))
  }

  lemma PieceOffset(a: real, d: real, i: int, parts: int)
    requires parts >= 1
    ensures (a + d * ((i + 1) as real / parts as real)) - (a + d * (i as real / parts as real))
            == d * (1.0 / parts as real)
  {
    var p := parts as real;
    assert (i + 1) as real / p - i as real / p == 1.0 / p;
    assert d * ((i + 1) as real / p) - d * (i as real / p) == d * ((i + 1) as real / p - i as real / p);
  }

  lemma ShrinkSquare(dx: real, dz: real, k: real)
    ensures (dx * k) * (dx * k) + (dz * k) * (dz * k) == (dx * dx + dz * dz) * (k * k)
  {
  }

  /** `parts >= len / 4` with `len * len == l2` bounds `l2 / parts^2` by 16. */
  lemma PiecesShortEnough(l2: real, len: real, p: real)
    requires len >= 0.0 && len * len == l2 && p > 0.0 && p >= len / 4.0
    ensures l2 * ((1.0 / p) * (1.0 / p)) <= 16.0
  {
    var q := 4.0 * p;
    assert q >= len;
    MulNonNeg(q - len, q + len);
    assert (q - len) * (q + len) == q * q - len * len;
    assert q * q >= l2;
    assert q * q == 16.0 * (p * p);
    var inv := (1.0 / p) * (1.0 / p);
    assert inv * (p * p) == 1.0;
    MulNonNeg(inv, 16.0 * (p * p) - l2);
    assert inv * (16.0 * (p * p) - l2) == 16.0 - l2 * inv;
  }

  lemma PiecesChain(prev: Vec2, next: Vec2, parts: int, lastId: int, owner: PlayerId, time: real, solidifyDelay: real)
    requires parts >= 1
    ensures Chain(Pieces(prev, next.x - prev.x, next.y - prev.y, parts, lastId, owner, time, solidifyDelay), prev, next)
  {
    var dx, dz := next.x - prev.x, next.y - prev.y;
    var segs := Pieces(prev, dx, dz, parts, lastId, owner, time, solidifyDelay);
    var p := parts as real;
    assert segs[0] == Piece(prev, dx, dz, parts, 0, lastId, owner, time, solidifyDelay);
    assert 0 as real / p == 0.0;
    assert segs[0].start == prev;
    assert segs[parts - 1] == Piece(prev, dx, dz, parts, parts - 1, lastId, owner, time, solidifyDelay);
    assert (parts - 1 + 1) as real / p == 1.0;
    assert segs[parts - 1].end == next;
    forall i | 0 <= i < parts - 1
      ensures segs[i].end == segs[i + 1].start
    {
      assert segs[i] == Piece(prev, dx, dz, parts, i, lastId, owner, time, solidifyDelay);
      assert segs[i + 1] == Piece(prev, dx, dz, parts, i + 1, lastId, owner, time, solidifyDelay);
    }
  }

  lemma PieceShort(m: MathLib, prev: Vec2, next: Vec2, parts: int, i: int, lastId: int, owner: PlayerId, time: real, solidifyDelay: real)
    requires Valid(m) && 0 <= i < parts
    requires parts as real >= Hypot(m, next.x - prev.x, next.y - prev.y) / MaxSegmentLength
    ensures SegmentLengthSq(Piece(prev, next.x - prev.x, next.y - prev.y, parts, i, lastId, owner, time, solidifyDelay))
            <= MaxSegmentLength * MaxSegmentLength
  {
    var dx, dz := next.x - prev.x, next.y - prev.y;
    var p := parts as real;
    var seg := Piece(prev, dx, dz, parts, i, lastId, owner, time, solidifyDelay);
    PieceDelta(prev, dx, dz, parts, i, lastId, owner, time, solidifyDelay);
    var ex := seg.end.x - seg.start.x;
    var ey := seg.end.y - seg.start.y;
    var len := Hypot(m, dx, dz);
    assert len >= 0.0 && len * len == dx * dx + dz * dz;
    ShortPieceArith(dx, dz, p, len, ex, ey);
    assert SegmentLengthSq(seg) == ex * ex + ey * ey;
  }

  /** Every piece spans the same 1/parts share of the move. */
  lemma PieceDelta(prev: Vec2, dx: real, dz: real, parts: int, i: int, lastId: int, owner: PlayerId, time: real, solidifyDelay: real)
    requires parts >= 1
    ensures var seg := Piece(prev, dx, dz, parts, i, lastId, owner, time, solidifyDelay);
      seg.end.x - seg.start.x == dx * (1.0 / parts as real)
      && seg.end.y - seg.start.y == dz * (1.0 / parts as real)
  {
    PieceOffset(prev.x, dx, i, parts);
    PieceOffset(prev.y, dz, i, parts);
  }

  /** The arithmetic of `PieceShort`: a 1/p share of a move of length `len <= 4p` is at most 4 long. */
  lemma ShortPieceArith(dx: real, dz: real, p: real, len: real, ex: real, ey: real)
    requires p > 0.0 && len >= 0.0 && len * len == dx * dx + dz * dz && p >= len / 4.0
    requires ex == dx * (1.0 / p) && ey == dz * (1.0 / p)
    ensures ex * ex + ey * ey <= 16.0
  {
    var k := 1.0 / p;
    var l2 := dx * dx + dz * dz;
    ShrinkSquare(dx, dz, k);
    PiecesShortEnough(l2, len, p);
  }

  lemma PiecesShort(m: MathLib, prev: Vec2, next: Vec2, parts: int, lastId: int, owner: PlayerId, time: real, solidifyDelay: real)
    requires Valid(m) && parts >= 1
    requires parts as real >= Hypot(m, next.x - prev.x, next.y - prev.y) / MaxSegmentLength
    ensures var segs := Pieces(prev, next.x - prev.x, next.y - prev.y, parts, lastId, owner, time, solidifyDelay);
      forall i :: 0 <= i < |segs| ==> SegmentLengthSq(segs[i]) <= MaxSegmentLength * MaxSegmentLength
  {
    var segs := Pieces(prev, next.x - prev.x, next.y - prev.y, parts, lastId, owner, time, solidifyDelay);
    forall i | 0 <= i < |segs|
      ensures SegmentLengthSq(segs[i]) <= MaxSegmentLength * MaxSegmentLength
    {
      PieceShort(m, prev, next, parts, i, lastId, owner, time, solidifyDelay);
    }
  }

  /**
    `updateTrail`, reporting the new segments. In the gap nothing is emitted
    and no id is consumed; otherwise the move is emitted as one segment, or as
    `ceil(length / 4)` pieces when it is longer than 4.
   */
  function UpdateTrail(
    m: MathLib, prev: Vec2, next: Vec2, time: real, gapOn: real, gapOff: real,
    solidifyDelay: real, state: CadenceState, owner: PlayerId): (r: TrailUpdate)
    requires gapOn + gapOff != 0.0
    ensures r.gapOnState == Drawing(time, gapOn, gapOff)
    ensures r.gapTimer == time
    ensures !r.gapOnState ==> r.segments == [] && r.trailId == None
    ensures r.gapOnState ==> r.trailId == Some(state.trailId + |r.segments|) && |r.segments| >= 1
    ensures Stamped(r.segments, state.trailId, owner, time, solidifyDelay)
  {
    var drawing := Drawing(time, gapOn, gapOff);
    if !drawing then
      TrailUpdate([], drawing, time, None)
    else
      var dx := next.x - prev.x;
      var dz := next.y - prev.y;
      var length := Hypot(m, dx, dz);
      if length > MaxSegmentLength then
        var parts := Ceil(length / MaxSegmentLength);
        TrailUpdate(Pieces(prev, dx, dz, parts, state.trailId, owner, time, solidifyDelay),
                    drawing, time, Some(state.trailId + parts))
      else
        var seg := TrailSegment(state.trailId + 1, owner, prev, next, time, time + solidifyDelay);
        TrailUpdate([seg], drawing, time, Some(seg.id))
  }

  /** A drawn move of length at most 4 is the single segment `prev -> next`. */
  lemma UpdateTrailShortMove(
    m: MathLib, prev: Vec2, next: Vec2, time: real, gapOn: real, gapOff: real,
    solidifyDelay: real, state: CadenceState, owner: PlayerId)
    requires Valid(m) && gapOn + gapOff != 0.0 && Drawing(time, gapOn, gapOff)
    requires LengthSq(Vec2(next.x - prev.x, next.y - prev.y)) <= MaxSegmentLength * MaxSegmentLength
    ensures UpdateTrail(m, prev, next, time, gapOn, gapOff, solidifyDelay, state, owner).segments
         == [TrailSegment(state.trailId + 1, owner, prev, next, time, time + solidifyDelay)]
  {
    HypotCompare(m, next.x - prev.x, next.y - prev.y, MaxSegmentLength);
  }

  /**
    A drawn move longer than 4 becomes `ceil(length / 4)` pieces that chain
    from `prev` to `next`, none longer than 4.
   */
  lemma UpdateTrailLongMove(
    m: MathLib, prev: Vec2, next: Vec2, time: real, gapOn: real, gapOff: real,
    solidifyDelay: real, state: CadenceState, owner: PlayerId)
    requires Valid(m) && gapOn + gapOff != 0.0 && Drawing(time, gapOn, gapOff)
    requires LengthSq(Vec2(next.x - prev.x, next.y - prev.y)) > MaxSegmentLength * MaxSegmentLength
    ensures var segs := UpdateTrail(m, prev, next, time, gapOn, gapOff, solidifyDelay, state, owner).segments;
      && |segs| == Ceil(Hypot(m, next.x - prev.x, next.y - prev.y) / MaxSegmentLength) >= 2
      && Chain(segs, prev, next)
      && (forall i :: 0 <= i < |segs| ==> SegmentLengthSq(segs[i]) <= MaxSegmentLength * MaxSegmentLength)
  {
    var dx, dz := next.x - prev.x, next.y - prev.y;
    HypotCompare(m, dx, dz, MaxSegmentLength);
    var parts := Ceil(Hypot(m, dx, dz) / MaxSegmentLength);
    PiecesChain(prev, next, parts, state.trailId, owner, time, solidifyDelay);
    PiecesShort(m, prev, next, parts, state.trailId, owner, time, solidifyDelay);
  }

  /**
    The list-returning form of `updateTrail`: existing trails are kept and the
    new segments appended.
   */
  function UpdateTrailList(
    m: MathLib, prev: Vec2, next: Vec2, time: real, gapOn: real, gapOff: real,
    solidifyDelay: real, state: CadenceState, owner: PlayerId,
    trails: seq<TrailSegment>): (r: TrailListUpdate)
    requires gapOn + gapOff != 0.0
    ensures var u := UpdateTrail(m, prev, next, time, gapOn, gapOff, solidifyDelay, state, owner);
      r == TrailListUpdate(trails + u.segments, u.gapOnState, u.gapTimer, u.trailId)
  {
    var total := gapOn + gapOff;
    var gapOnState := JsMod(time, total) < gapOn;
    if !gapOnState then
      TrailListUpdate(trails, gapOnState, time, None)
    else
      var dx := next.x - prev.x;
      var dz := next.y - prev.y;
      var length := Hypot(m, dx, dz);
      if length > 4.0 then
        var parts := Ceil(length / 4.0);
        var segments := Pieces(prev, dx, dz, parts, state.trailId, owner, time, solidifyDelay);
        TrailListUpdate(trails + segments, gapOnState, time, Some(state.trailId + parts))
      else
        var seg := TrailSegment(state.trailId + 1, owner, prev, next, time, time + solidifyDelay);
        TrailListUpdate(trails + [seg], gapOnState, time, Some(seg.id))
  }

  /** The cadence depends on the time only, so every owner blinks in phase. */
  lemma CadenceIsGlobal(
    m: MathLib, prev1: Vec2, next1: Vec2, state1: CadenceState, owner1: PlayerId,
    prev2: Vec2, next2: Vec2, state2: CadenceState, owner2: PlayerId,
    time: real, gapOn: real, gapOff: real, solidifyDelay: real)
    requires gapOn + gapOff != 0.0
    ensures UpdateTrail(m, prev1, next1, time, gapOn, gapOff, solidifyDelay, state1, owner1).gapOnState
         == UpdateTrail(m, prev2, next2, time, gapOn, gapOff, solidifyDelay, state2, owner2).gapOnState
  {
  }

  /** Without an off phase, a vehicle draws at every non-negative time. */
  lemma NoGapAlwaysDraws(time: real, gapOn: real)
    requires time >= 0.0 && gapOn > 0.0
    ensures Drawing(time, gapOn, 0.0)
  {
    JsModNonNegative(time, gapOn + 0.0);
  }

  /**
    The example of the trail tests: a 100-unit move drawn at time 1 splits
    into 25 pieces from (0,0) to (100,0).
   */
  lemma LongMoveExample(m: MathLib)
    requires Valid(m)
    ensures var r := UpdateTrail(m, Vec2(0.0, 0.0), Vec2(100.0, 0.0), 1.0, 2.0, 0.2, 0.2,
                                 CadenceState(0.0, true, 1), "p1");
      && |r.segments| == 25
      && r.segments[0].start == Vec2(0.0, 0.0)
      && r.segments[24].end == Vec2(100.0, 0.0)
      && r.trailId == Some(26)
  {
    JsModNonNegative(1.0, 2.2);
    assert Floor(1.0 / 2.2) == 0;
    var len := Hypot(m, 100.0, 0.0);
    assert len >= 0.0 && len * len == 100.0 * 100.0;
    RootUnique(len, 100.0);
  }
}
