/**
  Bot roles: a difficulty-dependent number of hunters, chosen by a
  Fisher-Yates shuffle of the bot ids.
 */
module Roles {
  import opened Numerics
  import opened Types

  datatype BotRole = Hunter | Roamer

  /** `getHunterCount`. */
  function HunterCount(d: Difficulty): (n: nat)
    ensures n == Rank(d)
  {
    match d
    case Hard => 2
    case Medium => 1
    case Easy => 0
  }

  /** `Math.floor(rng() * (i + 1))` with a draw in [0, 1) is an index in [0, i]. */
  lemma SwapIndexInRange(d: real, i: nat)
    requires 0.0 <= d < 1.0
    ensures 0 <= Floor(d * (i + 1) as real) <= i
  {
    var n := (i + 1) as real;
    var x := d * n;
    ScaledDrawBelow(d, n);
    var f := Floor(x);
    assert f as real <= x < n;
    assert 0.0 <= x < f as real + 1.0;
  }

  lemma ScaledDrawBelow(d: real, n: real)
    requires 0.0 <= d < 1.0 && n > 0.0
    ensures 0.0 <= d * n < n
  {
    MulNonNeg(d, n);
    MulPos(1.0 - d, n);
  }

  /** The pool with entries `i` and `j` exchanged. */
  function Swap(s: seq<PlayerId>, i: nat, j: nat): (r: seq<PlayerId>)
    requires i < |s| && j < |s|
    ensures |r| == |s| && multiset(r) == multiset(s)
    ensures r[i] == s[j] && r[j] == s[i]
  {
    s[i := s[j]][j := s[i]]
  }

  /**
    The shuffle loop of `assignBotRoles`: for `i` from the last index down to
    1, swap entry `i` with entry `floor(rng() * (i + 1))`. Call `k` of `rng`
    happens at `i = |ids| - 1 - k`.
   */
  method ShufflePool(ids: seq<PlayerId>, draws: Draws) returns (pool: seq<PlayerId>)
    requires UnitDraws(draws)
    ensures |pool| == |ids|
    ensures multiset(pool) == multiset(ids)
  {
    pool := ids;
    var i := |pool| - 1;
    while i > 0
      invariant -1 <= i < |pool| || (|pool| == 0 && i == -1)
      invariant |pool| == |ids|
      invariant multiset(pool) == multiset(ids)
      decreases i
    {
      var k: nat := |ids| - 1 - i;
      var j := Floor(draws(k) * (i + 1) as real);
      SwapIndexInRange(draws(k), i);
      pool := Swap(pool, i, j);
      i := i - 1;
    }
  }

  /** `pool.forEach(...)`: the first `hunterCount` entries hunt, the rest roam; a later entry overwrites. */
  function RolesOf(pool: seq<PlayerId>, hunterCount: nat): (roles: map<PlayerId, BotRole>)
    ensures roles.Keys == set x | x in pool
  {
    if |pool| == 0 then
      map[]
    else
      var last := |pool| - 1;
      RolesOf(pool[..last], hunterCount)[pool[last] := if last < hunterCount then Hunter else Roamer]
  }

  predicate Distinct(s: seq<PlayerId>) {
    forall i, j :: 0 <= i < j < |s| ==> s[i] != s[j]
  }

  /** With distinct ids each id's role is decided by its own position in the pool. */
  lemma {:induction false} RolesByPosition(pool: seq<PlayerId>, hunterCount: nat, i: nat)
    requires Distinct(pool) && i < |pool|
    ensures RolesOf(pool, hunterCount)[pool[i]] == if i < hunterCount then Hunter else Roamer
    decreases |pool|
  {
    var last := |pool| - 1;
    var prefix := pool[..last];
    var role := if last < hunterCount then Hunter else Roamer;
    assert RolesOf(pool, hunterCount) == RolesOf(prefix, hunterCount)[pool[last] := role];
    if i < last {
      assert prefix[i] == pool[i];
      assert pool[i] != pool[last];
      DistinctPrefix(pool, last);
      RolesByPosition(prefix, hunterCount, i);
    }
  }

  lemma DistinctPrefix(s: seq<PlayerId>, n: nat)
    requires Distinct(s) && n <= |s|
    ensures Distinct(s[..n])
  {
    forall i, j | 0 <= i < j < n
      ensures s[..n][i] != s[..n][j]
    {
      assert s[..n][i] == s[i] && s[..n][j] == s[j];
    }
  }

  function HunterIds(roles: map<PlayerId, BotRole>): set<PlayerId> {
    set id | id in roles && roles[id] == Hunter
  }

  /** A sequence without repeats has as many distinct elements as entries. */
  lemma {:induction false} DistinctCard(s: seq<PlayerId>)
    requires Distinct(s)
    ensures |set x | x in s| == |s|
  {
    if |s| > 0 {
      var last := |s| - 1;
      assert Distinct(s[..last]);
      DistinctCard(s[..last]);
      assert (set x | x in s) == (set x | x in s[..last]) + {s[last]};
      assert s[last] !in (set x | x in s[..last]);
    }
  }

  /** With distinct ids the hunters are exactly the first `min(hunterCount, |pool|)` entries. */
  lemma HuntersArePrefix(pool: seq<PlayerId>, hunterCount: nat)
    requires Distinct(pool)
    ensures var n := if hunterCount < |pool| then hunterCount else |pool|;
      HunterIds(RolesOf(pool, hunterCount)) == set x | x in pool[..n]
  {
    var n := if hunterCount < |pool| then hunterCount else |pool|;
    var roles := RolesOf(pool, hunterCount);
    forall id | id in HunterIds(roles) ensures id in pool[..n] {
      var i :| 0 <= i < |pool| && pool[i] == id;
      RolesByPosition(pool, hunterCount, i);
      assert pool[..n][i] == id;
    }
    forall id | id in pool[..n] ensures id in HunterIds(roles) {
      var i :| 0 <= i < n && pool[..n][i] == id;
      RolesByPosition(pool, hunterCount, i);
    }
  }

  /** A permutation of distinct ids is distinct. */
  lemma PermutationDistinct(a: seq<PlayerId>, b: seq<PlayerId>)
    requires Distinct(a) && multiset(a) == multiset(b)
    ensures Distinct(b)
  {
    forall i, j | 0 <= i < j < |b| ensures b[i] != b[j] {
      OccursOnce(a, b[i]);
      RepeatOccursTwice(b, i, j);
    }
  }

  lemma RepeatOccursTwice(b: seq<PlayerId>, i: nat, j: nat)
    requires i < j < |b|
    ensures b[i] == b[j] ==> multiset(b)[b[i]] >= 2
  {
    assert b == b[..i] + [b[i]] + b[i + 1..j] + [b[j]] + b[j + 1..];
  }

  /** In a sequence without repeats every value occurs at most once. */
  lemma {:induction false} OccursOnce(a: seq<PlayerId>, x: PlayerId)
    requires Distinct(a)
    ensures multiset(a)[x] <= 1
  {
    if |a| > 0 {
      var last := |a| - 1;
      assert a == a[..last] + [a[last]];
      assert Distinct(a[..last]);
      OccursOnce(a[..last], x);
      if a[last] == x {
        assert x !in a[..last];
      }
    }
  }

  /**
    `assignBotRoles`: every id gets exactly one role, and with distinct ids
    the number of hunters is `min(getHunterCount(difficulty), |ids|)`.
   */
  method AssignBotRoles(ids: seq<PlayerId>, d: Difficulty, draws: Draws) returns (roles: map<PlayerId, BotRole>)
    requires UnitDraws(draws)
    ensures roles.Keys == set x | x in ids
    ensures Distinct(ids) ==>
      |HunterIds(roles)| == if HunterCount(d) < |ids| then HunterCount(d) else |ids|
  {
    var pool := ShufflePool(ids, draws);
    var hunterCount := if HunterCount(d) < |ids| then HunterCount(d) else |ids|;
    roles := RolesOf(pool, hunterCount);
    assert forall x :: x in pool <==> x in multiset(pool);
    if Distinct(ids) {
      PermutationDistinct(ids, pool);
      HuntersArePrefix(pool, hunterCount);
      assert Distinct(pool[..hunterCount]);
      DistinctCard(pool[..hunterCount]);
    }
  }
}
