/** How long trails live at each difficulty, applied as a configuration update. */
module TrailLifetime {
  import opened Types
  import opened Config

  /** `getTrailLifetimeForDifficulty`, in seconds: between 45 seconds and two minutes. */
  function LifetimeFor(d: Difficulty): (t: real)
    ensures 45.0 <= t <= 120.0
  {
    match d
    case Easy => 45.0
    case Medium => 80.0
    case Hard => 120.0
  }

  /** Lifetimes are positive and grow with the difficulty. */
  lemma LifetimesOrdered(a: Difficulty, b: Difficulty)
    ensures LifetimeFor(a) > 0.0
    ensures Rank(a) < Rank(b) ==> LifetimeFor(a) < LifetimeFor(b)
  {
  }

  /** The lifetime table: 45 s on EASY, 80 s on MEDIUM, 120 s on HARD. */
  lemma LifetimeTable()
    ensures LifetimeFor(Easy) == 45.0 && LifetimeFor(Medium) == 80.0 && LifetimeFor(Hard) == 120.0
  {
  }

  /** `applyTrailLifetimeForDifficulty`, returning the updated configuration. */
  function ApplyLifetime(cfg: SimConfig, d: Difficulty): (r: SimConfig)
    ensures r.trailLifetime == Some(LifetimeFor(d))
    ensures r == cfg.(trailLifetime := r.trailLifetime)
    // every difficulty switches trail pruning on
    ensures PruningEnabled(r)
  {
    cfg.(trailLifetime := Some(LifetimeFor(d)))
  }

  /** Applying a difficulty twice is applying it once; the later of two applications wins. */
  lemma ApplyIdempotent(cfg: SimConfig, d: Difficulty, e: Difficulty)
    ensures ApplyLifetime(ApplyLifetime(cfg, d), d) == ApplyLifetime(cfg, d)
    ensures ApplyLifetime(ApplyLifetime(cfg, d), e) == ApplyLifetime(cfg, e)
  {
  }
}
