/**
  The fixed-step accumulator of the game loop: each animation frame adds
  its (capped) duration to a backlog, which is paid out in whole simulation
  steps, at most eight per frame.
 */
module FixedStep {
  import opened Numerics

  const MaxStepsPerFrame: nat := 8
  /** Longest frame credited to the backlog, in seconds. */
  const MaxFrame: real := 0.25

  datatype LoopState = LoopState(accumulator: real, running: bool)

  /** The backlog after a frame and the number of simulation steps the frame ran. */
  datatype FrameResult = FrameResult(state: LoopState, steps: nat)

  /** The `while` loop of `tick`: pay out steps while the backlog covers one and the cap allows. */
  function PayOut(accumulator: real, dt: real, steps: nat): (r: (real, nat))
    requires dt > 0.0 && steps <= MaxStepsPerFrame
    ensures steps <= r.1 <= MaxStepsPerFrame
    // each step consumes exactly dt
    ensures r.0 == accumulator - (r.1 - steps) as real * dt
    // it stops at the cap or once less than one step is left
    ensures r.1 == MaxStepsPerFrame || r.0 < dt
    ensures accumulator >= 0.0 ==> r.0 >= 0.0
    decreases MaxStepsPerFrame - steps
  {
    if accumulator >= dt && steps < MaxStepsPerFrame then
      PayOut(accumulator - dt, dt, steps + 1)
    else
      (accumulator, steps)
  }

  /**
    `tick` with the frame's length in seconds: a stopped loop does nothing;
    otherwise the capped frame is added, steps are paid out, and a backlog
    still worth a step after the cap is dropped.
   */
  function Tick(s: LoopState, frame: real, dt: real): (r: FrameResult)
    requires dt > 0.0
    ensures !s.running ==> r == FrameResult(s, 0)
    ensures r.state.running == s.running
    ensures r.steps <= MaxStepsPerFrame
  {
    if !s.running then
      FrameResult(s, 0)
    else
      var acc := s.accumulator + Min(frame, MaxFrame);
      var paid := PayOut(acc, dt, 0);
      var dropped := paid.1 == MaxStepsPerFrame && paid.0 >= dt;
      FrameResult(LoopState(if dropped then 0.0 else paid.0, true), paid.1)
  }

  /**
    The accumulator stays in `[0, dt)` across frames: with a non-negative
    frame it grows by at most 0.25 s, loses dt per step, and a backlog left
    after eight steps is dropped to 0.
   */
  lemma TickKeepsBacklogSmall(s: LoopState, frame: real, dt: real)
    requires dt > 0.0 && s.accumulator >= 0.0 && frame >= 0.0 && s.running
    ensures var r := Tick(s, frame, dt);
      && 0.0 <= r.state.accumulator < dt
      && ((r.steps == MaxStepsPerFrame && r.state.accumulator == 0.0)
          || r.state.accumulator == s.accumulator + Min(frame, MaxFrame) - r.steps as real * dt)
  {
  }

  /** A full quarter-second frame at 40 Hz is worth ten steps: eight run and the rest is dropped. */
  lemma BacklogDropped()
    ensures Tick(LoopState(0.0, true), 0.25, 0.025) == FrameResult(LoopState(0.0, true), 8)
    ensures Tick(LoopState(0.0, true), 0.05, 0.025).steps == 2
  {
  }

  /** `stop`. */
  function Stop(s: LoopState): (r: LoopState)
    ensures !r.running && r.accumulator == s.accumulator
  {
    s.(running := false)
  }

  /** After `stop` every later frame does nothing. */
  lemma StoppedStaysIdle(s: LoopState, frame: real, dt: real)
    requires dt > 0.0
    ensures Tick(Stop(s), frame, dt) == FrameResult(Stop(s), 0)
  {
  }
}
