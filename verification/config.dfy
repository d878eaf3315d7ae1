/**
  The simulation configuration, passed explicitly instead of read from a
  module-level singleton.

  `openingGrace`, `selfTrailGrace` and `trailLifetime` are read by the world
  step but are absent from the shipped configuration object, so they are
  optional here and every reader reproduces what the JavaScript comparison
  does with `undefined`.
 */
module Config {
  import opened Types

  datatype SimConfig = SimConfig(
    arenaSize: real,
    speed: real,
    turnRate: real,
    turnInertia: real,
    trailWidth: real,
    solidifyDelay: real,
    gapOn: real,
    gapOff: real,
    shrinkStart: real,
    shrinkEnd: real,
    shrinkTo: real,
    simHz: real,
    openingGrace: Option<real>,
    selfTrailGrace: Option<real>,
    trailLifetime: Option<real>)

  /** The configuration object as shipped. */
  const Shipped: SimConfig := SimConfig(
    100.0, 18.0, 2.4, 0.18, 0.6, 0.2, 2.0, 0.2, 20.0, 60.0, 0.4, 60.0,
    None, None, None)

  /**
    What the step needs to be defined: no division by a zero inertia and no
    remainder by a zero blink period (both give NaN in the source).
   */
  predicate Steppable(cfg: SimConfig) {
    cfg.turnInertia != 0.0 && cfg.gapOn + cfg.gapOff != 0.0
  }

  /** Padding of the trail bucket index, `trailWidth * 1.5`. */
  function BucketPad(cfg: SimConfig): (pad: real)
    ensures cfg.trailWidth >= 0.0 ==> pad >= 0.0
  {
    cfg.trailWidth * 1.5
  }

  /** `time >= CONFIG.openingGrace`; false while the field is undefined. */
  predicate PastOpeningGrace(cfg: SimConfig, time: real) {
    cfg.openingGrace.Some? && time >= cfg.openingGrace.value
  }

  /** `CONFIG.trailLifetime > 0`; false while the field is undefined. */
  predicate PruningEnabled(cfg: SimConfig) {
    cfg.trailLifetime.Some? && cfg.trailLifetime.value > 0.0
  }

  lemma ShippedIsSteppable()
    ensures Steppable(Shipped)
    ensures !PruningEnabled(Shipped)
    ensures forall t :: !PastOpeningGrace(Shipped, t)
  {
  }
}
