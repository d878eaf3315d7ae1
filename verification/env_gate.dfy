/**
  The gate that decides, frame by frame, whether the expensive environment
  update runs: never on a slow frame or a slow recent window, otherwise on
  every `stride`-th frame.
 */
module EnvGate {
  import opened PerfStats

  datatype GateConfig = GateConfig(stride: int, maxFrameMs: real, sampleSize: int)

  /** The frame counter and the recent frame times. */
  datatype GateState = GateState(frame: int, samples: seq<real>)

  datatype GateStep = GateStep(state: GateState, update: bool)

  /** `createEnvUpdateGate`. */
  function CreateGate(): (s: GateState)
    ensures s.frame == 0 && s.samples == []
  {
    GateState(0, [])
  }

  /** The window after pushing one frame time and shifting out at most one old one. */
  function Push(samples: seq<real>, sampleSize: int, dtMs: real): (r: seq<real>)
    ensures |samples| <= Capacity(sampleSize) ==> r == Newest(samples + [dtMs], Capacity(sampleSize))
  {
    var pushed := samples + [dtMs];
    if |pushed| > sampleSize then pushed[1..] else pushed
  }

  /** The recent window is full and its mean is over budget. An empty window's mean is not a number, and compares false. */
  predicate SlowWindow(cfg: GateConfig, samples: seq<real>) {
    |samples| == cfg.sampleSize && |samples| > 0 && Average(samples) > cfg.maxFrameMs
  }

  /** `frame % stride === 0`; a zero stride gives a remainder that is not a number. */
  predicate OnStride(frame: int, stride: int) {
    stride != 0 && frame % stride == 0
  }

  /** `shouldUpdate`. */
  function ShouldUpdate(cfg: GateConfig, s: GateState, dtMs: real): (r: GateStep)
    ensures r.state.frame == s.frame + 1
    ensures r.state.samples == Push(s.samples, cfg.sampleSize, dtMs)
    // a spike or a slow window always blocks the update
    ensures dtMs > cfg.maxFrameMs ==> !r.update
    ensures SlowWindow(cfg, r.state.samples) ==> !r.update
    // on a calm frame only the stride decides
    ensures dtMs <= cfg.maxFrameMs && !SlowWindow(cfg, r.state.samples) ==> (r.update <==> OnStride(s.frame + 1, cfg.stride))
  {
    var frame := s.frame + 1;
    var samples := Push(s.samples, cfg.sampleSize, dtMs);
    var next := GateState(frame, samples);
    if dtMs > cfg.maxFrameMs then GateStep(next, false)
    else if SlowWindow(cfg, samples) then GateStep(next, false)
    else GateStep(next, OnStride(frame, cfg.stride))
  }

  function RunState(cfg: GateConfig, s: GateState, frames: seq<real>): GateState
    decreases |frames|
  {
    if |frames| == 0 then s else RunState(cfg, ShouldUpdate(cfg, s, frames[0]).state, frames[1..])
  }

  /** The counter counts calls and the window holds the newest `sampleSize` frame times. */
  lemma {:induction false} GateTracksHistory(cfg: GateConfig, s: GateState, frames: seq<real>, history: seq<real>)
    requires s.samples == Newest(history, Capacity(cfg.sampleSize))
    ensures RunState(cfg, s, frames).frame == s.frame + |frames|
    ensures RunState(cfg, s, frames).samples == Newest(history + frames, Capacity(cfg.sampleSize))
    decreases |frames|
  {
    if |frames| == 0 {
      assert history + frames == history;
    } else {
      var next := ShouldUpdate(cfg, s, frames[0]).state;
      var h := history + [frames[0]];
      NewestStep(s.samples, history, frames[0], Capacity(cfg.sampleSize));
      GateTracksHistory(cfg, next, frames[1..], h);
      assert h + frames[1..] == history + frames;
    }
  }

  /** A stride of 3 at a steady 16 ms: the first two frames skip the update, the third runs it. */
  lemma StrideExample()
    ensures var cfg := GateConfig(3, 40.0, 3);
      var s1 := ShouldUpdate(cfg, CreateGate(), 16.0);
      var s2 := ShouldUpdate(cfg, s1.state, 16.0);
      var s3 := ShouldUpdate(cfg, s2.state, 16.0);
      !s1.update && !s2.update && s3.update
  {
    var cfg := GateConfig(3, 40.0, 3);
    var s2 := GateState(2, [16.0, 16.0]);
    assert ShouldUpdate(cfg, CreateGate(), 16.0) == GateStep(GateState(1, [16.0]), false);
    assert ShouldUpdate(cfg, GateState(1, [16.0]), 16.0) == GateStep(s2, false);
    ThirdCalmFrame(cfg, s2);
  }

  lemma ThirdCalmFrame(cfg: GateConfig, s2: GateState)
    requires cfg == GateConfig(3, 40.0, 3) && s2 == GateState(2, [16.0, 16.0])
    ensures ShouldUpdate(cfg, s2, 16.0).update
  {
    SumOfThree(16.0, 16.0, 16.0);
    assert Push(s2.samples, 3, 16.0) == [16.0, 16.0, 16.0];
    assert Average([16.0, 16.0, 16.0]) == 16.0;
  }

  /** A 50 ms spike over a 30 ms budget disables updates, even at stride 1. */
  lemma SpikeExample()
    ensures var cfg := GateConfig(1, 30.0, 3);
      var s1 := ShouldUpdate(cfg, CreateGate(), 20.0);
      var s2 := ShouldUpdate(cfg, s1.state, 50.0);
      var s3 := ShouldUpdate(cfg, s2.state, 50.0);
      s1.update && !s2.update && !s3.update
  {
    var cfg := GateConfig(1, 30.0, 3);
    assert ShouldUpdate(cfg, CreateGate(), 20.0) == GateStep(GateState(1, [20.0]), true);
  }
}
