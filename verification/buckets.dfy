/**
  The uniform-grid index the world step uses to find the trails a move may
  cross. Every trail is listed in each 28-unit cell its padded bounding box
  touches; a move looks at the cells its own padded box touches and collects
  the trails found there, once per `(owner, id)` key, in first-seen order.
 */
module SpatialIndex {
  import opened Numerics
  import opened Vec
  import opened Types
  import opened Collision

  const BucketSize: real := 28.0

  type Cell = (int, int)

  /** Cell key to the trails listed in that cell, in insertion order. */
  type TrailBuckets = map<Cell, seq<TrailSegment>>

  /** `bucketIndex`: the cell whose band `[i·28, (i+1)·28)` holds the coordinate. */
  function BucketIndex(v: real): (i: int)
    ensures i as real * BucketSize <= v < (i + 1) as real * BucketSize
  {
    var q := v / BucketSize;
    assert q * BucketSize == v;
    Floor(q)
  }

  lemma BucketIndexMonotone(a: real, b: real)
    requires a <= b
    ensures BucketIndex(a) <= BucketIndex(b)
  {
    DivMonotone(a, b, BucketSize);
    FloorMonotone(a / BucketSize, b / BucketSize);
  }

  /** An inclusive rectangle of cells. */
  datatype CellRange = CellRange(xLo: int, xHi: int, yLo: int, yHi: int)

  predicate InRange(c: Cell, r: CellRange) {
    r.xLo <= c.0 <= r.xHi && r.yLo <= c.1 <= r.yHi
  }

  /** The cells touched by the bounding box of `a b` grown by `pad` on every side. */
  function BoxCells(a: Vec2, b: Vec2, pad: real): CellRange {
    CellRange(BucketIndex(Min(a.x, b.x) - pad), BucketIndex(Max(a.x, b.x) + pad),
              BucketIndex(Min(a.y, b.y) - pad), BucketIndex(Max(a.y, b.y) + pad))
  }

  function TrailCells(t: TrailSegment, pad: real): CellRange {
    BoxCells(t.start, t.end, pad)
  }

  /** The list of a cell; a missing cell is an empty list. */
  function Bucket(b: TrailBuckets, c: Cell): seq<TrailSegment> {
    if c in b then b[c] else []
  }

  /** Appending to one cell's list, creating it when absent. */
  function Push(b: TrailBuckets, c: Cell, t: TrailSegment): (r: TrailBuckets)
    ensures forall c' :: Bucket(r, c') == if c' == c then Bucket(b, c') + [t] else Bucket(b, c')
  {
    if c in b then b[c := b[c] + [t]] else b[c := [t]]
  }

  /** The inner loop of `addTrailToBuckets`: column `cx`, rows `cy..yHi`. */
  function AddColumn(b: TrailBuckets, t: TrailSegment, cx: int, cy: int, yHi: int): (r: TrailBuckets)
    ensures forall c :: (Bucket(r, c)
      == if c.0 == cx && cy <= c.1 <= yHi then Bucket(b, c) + [t] else Bucket(b, c))
    decreases yHi - cy
  {
    if cy > yHi then b else AddColumn(Push(b, (cx, cy), t), t, cx, cy + 1, yHi)
  }

  /** The outer loop of `addTrailToBuckets`: columns `cx..r.xHi`. */
  function AddColumns(b: TrailBuckets, t: TrailSegment, cx: int, r: CellRange): (res: TrailBuckets)
    ensures forall c :: (Bucket(res, c)
      == if cx <= c.0 <= r.xHi && r.yLo <= c.1 <= r.yHi then Bucket(b, c) + [t] else Bucket(b, c))
    decreases r.xHi - cx
  {
    if cx > r.xHi then b else AddColumns(AddColumn(b, t, cx, r.yLo, r.yHi), t, cx + 1, r)
  }

  /** `addTrailToBuckets`: the trail is appended to exactly the cells its padded box touches. */
  function AddTrail(b: TrailBuckets, t: TrailSegment, pad: real): (r: TrailBuckets)
    ensures forall c :: (Bucket(r, c)
      == if InRange(c, TrailCells(t, pad)) then Bucket(b, c) + [t] else Bucket(b, c))
  {
    var range := TrailCells(t, pad);
    AddColumns(b, t, range.xLo, range)
  }

  /** The trails of `trails`, in order, whose padded box touches `c`. */
  function Covering(trails: seq<TrailSegment>, c: Cell, pad: real): (r: seq<TrailSegment>)
    ensures forall x :: x in r <==> x in trails && InRange(c, TrailCells(x, pad))
  {
    if |trails| == 0 then
      []
    else
      var last := trails[|trails| - 1];
      assert trails == trails[..|trails| - 1] + [last];
      Covering(trails[..|trails| - 1], c, pad) + (if InRange(c, TrailCells(last, pad)) then [last] else [])
  }

  /** The index of a trail list, built by adding the trails in order. */
  function Build(trails: seq<TrailSegment>, pad: real): (b: TrailBuckets)
    ensures forall c :: Bucket(b, c) == Covering(trails, c, pad)
  {
    if |trails| == 0 then map[] else AddTrail(Build(trails[..|trails| - 1], pad), trails[|trails| - 1], pad)
  }

  /** Adding `trails[k..]` in order, as the catch-up loop of `ensureTrailBuckets` does. */
  function AddFrom(b: TrailBuckets, trails: seq<TrailSegment>, k: nat, pad: real): TrailBuckets
    requires k <= |trails|
    decreases |trails| - k
  {
    if k == |trails| then b else AddFrom(AddTrail(b, trails[k], pad), trails, k + 1, pad)
  }

  /** Catching up an index of a prefix yields the index of the whole list. */
  lemma {:induction false} CatchUp(trails: seq<TrailSegment>, k: nat, pad: real)
    requires k <= |trails|
    ensures AddFrom(Build(trails[..k], pad), trails, k, pad) == Build(trails, pad)
    decreases |trails| - k
  {
    if k == |trails| {
      assert trails[..k] == trails;
    } else {
      assert trails[..k + 1][..k] == trails[..k];
      assert Build(trails[..k + 1], pad) == AddTrail(Build(trails[..k], pad), trails[k], pad);
      CatchUp(trails, k + 1, pad);
    }
  }

  /** The index cached for a world, with the number of its trails already indexed. */
  datatype SpatialCache = SpatialCache(buckets: TrailBuckets, indexedTrailCount: nat)

  /** A cache entry that indexes exactly the first `indexedTrailCount` trails, or claims more than there are. */
  predicate CacheFits(cache: SpatialCache, trails: seq<TrailSegment>, pad: real) {
    cache.indexedTrailCount > |trails|
    || cache.buckets == Build(trails[..cache.indexedTrailCount], pad)
  }

  /**
    `ensureTrailBuckets`: start from the cached index (or an empty one), drop
    it when it claims more trails than the world has, and add the trails not
    yet indexed. Whatever fitting cache entry it starts from, the result is
    the index of the whole list.
   */
  function EnsureTrailBuckets(cache: Option<SpatialCache>, trails: seq<TrailSegment>, pad: real): (r: SpatialCache)
    requires cache.Some? ==> CacheFits(cache.value, trails, pad)
    ensures r.indexedTrailCount == |trails|
    ensures r.buckets == Build(trails, pad)
  {
    var cached := if cache.Some? then cache.value else SpatialCache(map[], 0);
    var start := if cached.indexedTrailCount > |trails| then SpatialCache(map[], 0) else cached;
    var buckets, count := start.buckets, start.indexedTrailCount;
    assert count == 0 ==> trails[..count] == [];
    CatchUp(trails, count, pad);
    SpatialCache(AddFrom(buckets, trails, count, pad), |trails|)
  }

  /** Key of a trail in the candidate map, `${owner}:${id}` as a pair. */
  function Key(t: TrailSegment): (PlayerId, int) {
    (t.owner, t.id)
  }

  function Keys(s: seq<TrailSegment>): set<(PlayerId, int)> {
    set x | x in s :: Key(x)
  }

  /** No two entries of the list share a key. */
  predicate DistinctKeys(s: seq<TrailSegment>) {
    forall i, j :: 0 <= i < j < |s| ==> Key(s[i]) != Key(s[j])
  }

  lemma DistinctKeysSame(s: seq<TrailSegment>, x: TrailSegment, y: TrailSegment)
    requires DistinctKeys(s) && x in s && y in s && Key(x) == Key(y)
    ensures x == y
  {
    var i :| 0 <= i < |s| && s[i] == x;
    var j :| 0 <= j < |s| && s[j] == y;
  }

  /** Position of the first entry with key `k`, if any. */
  function FindKey(s: seq<TrailSegment>, k: (PlayerId, int)): (r: Option<nat>)
    ensures r.None? ==> k !in Keys(s)
    ensures r.Some? ==> r.value < |s| && Key(s[r.value]) == k
  {
    if |s| == 0 then
      None
    else if Key(s[|s| - 1]) == k then
      Some(|s| - 1)
    else
      var r := FindKey(s[..|s| - 1], k);
      assert s == s[..|s| - 1] + [s[|s| - 1]];
      r
  }

  /**
    `unique.set(key, t)` on an insertion-ordered map held as a list: an entry
    with the same key is overwritten where it stands, otherwise `t` goes last.
   */
  function Upsert(s: seq<TrailSegment>, t: TrailSegment): (r: seq<TrailSegment>)
    ensures Key(t) !in Keys(s) ==> r == s + [t]
    ensures Key(t) in Keys(s) ==> |r| == |s|
    ensures DistinctKeys(s) ==>
      forall i :: 0 <= i < |s| ==> r[i] == (if Key(s[i]) == Key(t) then t else s[i])
    ensures Keys(r) == Keys(s) + {Key(t)}
    ensures t in r && forall x :: x in r ==> x in s || x == t
    ensures DistinctKeys(s) ==> DistinctKeys(r)
  {
    match FindKey(s, Key(t))
    case None =>
      assert forall x :: x in s + [t] ==> x in s || x == t;
      s + [t]
    case Some(i) =>
      var r := s[i := t];
      assert r[i] == t;
      assert Keys(r) == Keys(s) by {
        forall k | k in Keys(s) ensures k in Keys(r) {
          var x :| x in s && Key(x) == k;
          var j :| 0 <= j < |s| && s[j] == x;
          if j == i { assert r[i] == t; } else { assert r[j] == x; }
        }
      }
      assert forall x :: x in r ==> x in s || x == t by {
        forall x | x in r ensures x in s || x == t {
          var j :| 0 <= j < |r| && r[j] == x;
          if j != i { assert s[j] == x; }
        }
      }
      r
  }

  /** `x` is listed in some cell of the index. */
  ghost predicate Stored(b: TrailBuckets, x: TrailSegment) {
    exists c :: x in Bucket(b, c)
  }

  /** The innermost loop of `getCollisionCandidates`: every trail of one cell's list, in order. */
  function UpsertAll(acc: seq<TrailSegment>, list: seq<TrailSegment>): (r: seq<TrailSegment>)
    ensures forall x :: x in list ==> Key(x) in Keys(r)
    ensures Keys(acc) <= Keys(r)
    ensures forall x :: x in r ==> x in acc || x in list
    ensures DistinctKeys(acc) ==> DistinctKeys(r)
    decreases |list|
  {
    if |list| == 0 then acc else UpsertAll(Upsert(acc, list[0]), list[1..])
  }

  /** The middle loop of `getCollisionCandidates`: column `cx`, rows `cy..yHi`. */
  function ScanColumn(b: TrailBuckets, cx: int, cy: int, yHi: int, acc: seq<TrailSegment>): (r: seq<TrailSegment>)
    ensures forall y, x :: cy <= y <= yHi && x in Bucket(b, (cx, y)) ==> Key(x) in Keys(r)
    ensures Keys(acc) <= Keys(r)
    ensures forall x :: x in r ==> x in acc || Stored(b, x)
    ensures DistinctKeys(acc) ==> DistinctKeys(r)
    decreases yHi - cy
  {
    if cy > yHi then acc else ScanColumn(b, cx, cy + 1, yHi, UpsertAll(acc, Bucket(b, (cx, cy))))
  }

  /** The outer loop of `getCollisionCandidates`: columns `cx..r.xHi`. */
  function ScanColumns(b: TrailBuckets, cx: int, range: CellRange, acc: seq<TrailSegment>): (r: seq<TrailSegment>)
    ensures forall c: Cell, x :: cx <= c.0 <= range.xHi && range.yLo <= c.1 <= range.yHi && x in Bucket(b, c)
                           ==> Key(x) in Keys(r)
    ensures Keys(acc) <= Keys(r)
    ensures forall x :: x in r ==> x in acc || Stored(b, x)
    ensures DistinctKeys(acc) ==> DistinctKeys(r)
    decreases range.xHi - cx
  {
    if cx > range.xHi then
      acc
    else
      var r := ScanColumns(b, cx + 1, range, ScanColumn(b, cx, range.yLo, range.yHi, acc));
      assert forall c: Cell, x :: c.0 == cx && range.yLo <= c.1 <= range.yHi && x in Bucket(b, c) ==> Key(x) in Keys(r) by {
        forall c: Cell, x | c.0 == cx && range.yLo <= c.1 <= range.yHi && x in Bucket(b, c)
          ensures Key(x) in Keys(r)
        {
          assert c == (cx, c.1);
        }
      }
      r
  }

  /**
    `getCollisionCandidates`: the trails listed in the cells the padded box of
    the move touches, one per key. Every trail listed there is represented,
    and nothing else comes back.
   */
  function Candidates(b: TrailBuckets, prev: Vec2, next: Vec2, pad: real): (r: seq<TrailSegment>)
    ensures DistinctKeys(r)
    ensures forall c, x :: InRange(c, BoxCells(prev, next, pad)) && x in Bucket(b, c) ==> Key(x) in Keys(r)
    ensures forall x :: x in r ==> Stored(b, x)
  {
    var range := BoxCells(prev, next, pad);
    ScanColumns(b, range.xLo, range, [])
  }

  /** Everything stored in the index of a list comes from that list. */
  lemma StoredInBuild(trails: seq<TrailSegment>, pad: real, x: TrailSegment)
    requires Stored(Build(trails, pad), x)
    ensures x in trails
  {
    var c :| x in Bucket(Build(trails, pad), c);
  }

  /**
    The grid never loses a crossing: with a non-negative pad and keys unique
    across the trail list, every trail the move hits is among its candidates.
   */
  lemma CandidatesComplete(
    trails: seq<TrailSegment>, pad: real, prev: Vec2, next: Vec2, t: TrailSegment,
    time: real, selfId: Option<PlayerId>, selfGrace: Option<real>)
    requires pad >= 0.0 && DistinctKeys(trails) && t in trails
    requires Hits(prev, next, t, time, selfId, selfGrace)
    ensures t in Candidates(Build(trails, pad), prev, next, pad)
  {
    var b := Build(trails, pad);
    var x := CrossingPoint(prev, next, t.start, t.end);
    var c := (BucketIndex(x.x), BucketIndex(x.y));
    BucketIndexMonotone(Min(t.start.x, t.end.x) - pad, x.x);
    BucketIndexMonotone(x.x, Max(t.start.x, t.end.x) + pad);
    BucketIndexMonotone(Min(t.start.y, t.end.y) - pad, x.y);
    BucketIndexMonotone(x.y, Max(t.start.y, t.end.y) + pad);
    BucketIndexMonotone(Min(prev.x, next.x) - pad, x.x);
    BucketIndexMonotone(x.x, Max(prev.x, next.x) + pad);
    BucketIndexMonotone(Min(prev.y, next.y) - pad, x.y);
    BucketIndexMonotone(x.y, Max(prev.y, next.y) + pad);
    assert InRange(c, TrailCells(t, pad));
    assert t in Bucket(b, c);
    assert InRange(c, BoxCells(prev, next, pad));
    var cands := Candidates(b, prev, next, pad);
    assert Key(t) in Keys(cands);
    var y :| y in cands && Key(y) == Key(t);
    StoredInBuild(trails, pad, y);
    DistinctKeysSame(trails, y, t);
  }

  /**
    Testing the candidates from the grid gives the same hit verdict as testing
    every trail; only the reported owner may differ, because the candidates
    come in grid order.
   */
  lemma IndexedVerdictAgrees(
    trails: seq<TrailSegment>, pad: real, prev: Vec2, next: Vec2,
    time: real, selfId: Option<PlayerId>, selfGrace: Option<real>)
    requires pad >= 0.0 && DistinctKeys(trails)
    ensures IntersectsAny(prev, next, Candidates(Build(trails, pad), prev, next, pad), time, selfId, selfGrace).hit
         == IntersectsAny(prev, next, trails, time, selfId, selfGrace).hit
  {
    var cands := Candidates(Build(trails, pad), prev, next, pad);
    forall x | x in cands ensures x in trails {
      StoredInBuild(trails, pad, x);
    }
    forall t | t in trails && Hits(prev, next, t, time, selfId, selfGrace) ensures t in cands {
      CandidatesComplete(trails, pad, prev, next, t, time, selfId, selfGrace);
    }
    HitDependsOnlyOnHitTrails(prev, next, trails, cands, time, selfId, selfGrace);
  }
}
