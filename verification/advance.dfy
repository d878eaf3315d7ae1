/** Advancing a world by a span of wall-clock milliseconds in whole fixed steps. */
module Advance {
  import opened Numerics
  import opened Types
  import opened Config
  import opened WorldStep

  /** The number of fixed steps in a span of milliseconds: the span over the step length, rounded, and at least one. */
  function StepCount(ms: real, dt: real): (n: int)
    requires dt != 0.0
    ensures n >= 1
    ensures n > 1 ==> n as real - 0.5 <= ms / (dt * 1000.0) < n as real + 0.5
    // a single step means the span rounds to at most one step
    ensures n == 1 ==> ms / (dt * 1000.0) < 1.5
  {
    var r := Round(ms / (dt * 1000.0));
    if r < 1 then 1 else r
  }

  /** No time, or negative time, still advances one step. */
  lemma NonPositiveSpanIsOneStep(ms: real, dt: real)
    requires dt > 0.0 && ms <= 0.0
    ensures StepCount(ms, dt) == 1
  {
    var q := ms / (dt * 1000.0);
    assert q <= 0.0 by {
      assert q * (dt * 1000.0) == ms;
      if q > 0.0 {
        MulPos(q, dt * 1000.0);
      }
    }
  }

  /** `f` applied `n` times. */
  function Iterate(f: World -> World, w: World, n: nat): World
    decreases n
  {
    if n == 0 then w else f(Iterate(f, w, n - 1))
  }

  /** A property every step preserves holds after any number of steps. */
  lemma {:induction false} IterateKeeps(f: World -> World, inv: World -> bool, w: World, n: nat)
    requires inv(w) && forall x :: inv(x) ==> inv(f(x))
    ensures inv(Iterate(f, w, n))
    decreases n
  {
    if n > 0 {
      IterateKeeps(f, inv, w, n - 1);
    }
  }

  lemma AddOneStep(t0: real, k: nat, dt: real, t: real)
    requires k > 0 && t == t0 + (k - 1) as real * dt
    ensures t + dt == t0 + k as real * dt
  {
  }

  /** If every step advances the clock by dt, `n` steps advance it by `n * dt`. */
  lemma {:induction false} IterateTime(f: World -> World, w: World, dt: real, n: nat)
    requires forall x :: f(x).time == x.time + dt
    ensures Iterate(f, w, n).time == w.time + n as real * dt
    decreases n
  {
    if n > 0 {
      IterateTime(f, w, dt, n - 1);
      AddOneStep(w.time, n, dt, Iterate(f, w, n - 1).time);
    }
  }

  /** The game's world step with fixed inputs and dt, as a function of the world. */
  function GameStep(m: MathLib, cfg: SimConfig, inputs: Inputs, dt: real): World -> World
    requires Steppable(cfg)
  {
    x => StepWorld(m, cfg, x, inputs, dt, Indexed)
  }

  /** The `for` loop: apply `f` to the world `n` times. */
  method Repeat(f: World -> World, w: World, n: nat) returns (next: World)
    ensures next == Iterate(f, w, n)
  {
    next := w;
    var i := 0;
    while i < n
      invariant 0 <= i <= n
      invariant next == Iterate(f, w, i)
    {
      next := f(next);
      i := i + 1;
    }
  }

  /** `advanceWorld`: `StepCount(ms, dt)` ticks of the game's world step. */
  method AdvanceWorld(m: MathLib, cfg: SimConfig, w: World, inputs: Inputs, ms: real, dt: real) returns (next: World)
    requires Steppable(cfg) && dt != 0.0
    ensures next == Iterate(GameStep(m, cfg, inputs, dt), w, StepCount(ms, dt))
  {
    next := Repeat(GameStep(m, cfg, inputs, dt), w, StepCount(ms, dt));
  }

  /** Every game step advances the clock by dt and keeps the world invariant. */
  lemma GameStepFacts(m: MathLib, cfg: SimConfig, inputs: Inputs, dt: real)
    requires Steppable(cfg)
    ensures forall x :: GameStep(m, cfg, inputs, dt)(x).time == x.time + dt
    ensures forall x :: WorldInv(x) ==> WorldInv(GameStep(m, cfg, inputs, dt)(x))
  {
    forall x | WorldInv(x) ensures WorldInv(GameStep(m, cfg, inputs, dt)(x)) {
      StepWorldKeepsInv(m, cfg, x, inputs, dt, Indexed);
    }
  }

  /** `n` game steps move the clock by `n * dt`. */
  lemma AdvanceTime(m: MathLib, cfg: SimConfig, w: World, inputs: Inputs, dt: real, n: nat)
    requires Steppable(cfg)
    ensures Iterate(GameStep(m, cfg, inputs, dt), w, n).time == w.time + n as real * dt
  {
    GameStepFacts(m, cfg, inputs, dt);
    IterateTime(GameStep(m, cfg, inputs, dt), w, dt, n);
  }

  /** `advanceWorld` keeps the world invariant, so the grid stays sound over any span. */
  lemma AdvanceKeepsInv(m: MathLib, cfg: SimConfig, w: World, inputs: Inputs, ms: real, dt: real)
    requires Steppable(cfg) && dt != 0.0 && WorldInv(w)
    ensures WorldInv(Iterate(GameStep(m, cfg, inputs, dt), w, StepCount(ms, dt)))
  {
    GameStepFacts(m, cfg, inputs, dt);
    IterateKeeps(GameStep(m, cfg, inputs, dt), WorldInv, w, StepCount(ms, dt));
  }

  /** One second at 60 Hz is sixty ticks. */
  lemma OneSecondAtSixtyHz()
    ensures StepCount(1000.0, 1.0 / 60.0) == 60
  {
    var q := 1000.0 / ((1.0 / 60.0) * 1000.0);
    assert q == 60.0;
  }

  /** From time 0, one second at 60 Hz ends past 0.9 s (at exactly 1 s). */
  lemma OneSecondAdvance(m: MathLib, cfg: SimConfig, w: World, inputs: Inputs)
    requires Steppable(cfg) && w.time == 0.0
    ensures Iterate(GameStep(m, cfg, inputs, 1.0 / 60.0), w, StepCount(1000.0, 1.0 / 60.0)).time == 1.0
  {
    OneSecondAtSixtyHz();
    AdvanceTime(m, cfg, w, inputs, 1.0 / 60.0, 60);
  }
}
