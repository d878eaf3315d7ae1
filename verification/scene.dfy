/** Renderer sizing derived from the device and the arena. */
module SceneSizing {
  import opened Numerics
  import opened Types

  /** `getPixelRatio`: the device ratio, 1 when unknown, clamped to [1, 1.5]. */
  function PixelRatio(devicePixelRatio: Option<real>): (r: real)
    ensures 1.0 <= r <= 1.5
    ensures devicePixelRatio.None? ==> r == 1.0
    ensures devicePixelRatio.Some? && 1.0 <= devicePixelRatio.value <= 1.5 ==> r == devicePixelRatio.value
    ensures devicePixelRatio.Some? && devicePixelRatio.value > 1.5 ==> r == 1.5
    ensures devicePixelRatio.Some? && devicePixelRatio.value < 1.0 ==> r == 1.0
  {
    Min(1.5, Max(1.0, devicePixelRatio.GetOr(1.0)))
  }

  /** Clamping twice changes nothing. */
  lemma PixelRatioIdempotent(ratio: Option<real>)
    ensures PixelRatio(Some(PixelRatio(ratio))) == PixelRatio(ratio)
  {
  }

  /** `getCameraFar`: at least 900, and far enough for three arena widths. */
  function CameraFar(arenaSize: real): (far: real)
    ensures far >= 900.0 && far >= arenaSize * 3.0
    ensures far == 900.0 || far == arenaSize * 3.0
  {
    Max(900.0, arenaSize * 3.0)
  }

  lemma SceneExamples()
    ensures PixelRatio(Some(1.0)) == 1.0 && PixelRatio(Some(2.0)) == 1.5 && PixelRatio(None) == 1.0
    ensures CameraFar(250.0) == 900.0 && CameraFar(2500.0) == 7500.0
  {
  }

  /** The sizes of the arena's surroundings. */
  datatype EnvironmentLayout = EnvironmentLayout(
    arenaHalf: real, gridSize: real, gridCell: real, gridMajorEvery: int,
    gridMinorLine: real, gridMajorLine: real, floorSize: real,
    stadiumRadius: real, skylineRadius: real, skylineCount: int)

  /** `computeEnvironmentLayout`. */
  function ComputeEnvironmentLayout(arenaSize: real): (l: EnvironmentLayout)
    ensures l.arenaHalf * 2.0 == arenaSize
    ensures l.gridSize == arenaSize * 1.02 && l.floorSize == arenaSize * 6.0
    ensures l.stadiumRadius == l.arenaHalf * 1.02 && l.skylineRadius == l.arenaHalf * 3.2
    ensures l.gridCell == 10.0 && l.gridMajorEvery == 5 && l.gridMinorLine == 0.08 && l.gridMajorLine == 0.2
    // at least 24 buildings, about one per 8 units of arena width
    ensures l.skylineCount >= 24 && l.skylineCount >= Round(arenaSize / 8.0)
    ensures l.skylineCount == 24 || l.skylineCount == Round(arenaSize / 8.0)
  {
    var arenaHalf := arenaSize / 2.0;
    var rounded := Round(arenaSize / 8.0);
    EnvironmentLayout(
      arenaHalf, arenaSize * 1.02, 10.0, 5, 0.08, 0.2, arenaSize * 6.0,
      arenaHalf * 1.02, arenaHalf * 3.2, if rounded >= 24 then rounded else 24)
  }

  /** For a positive arena the rings nest: wall, stadium, skyline, floor edge. */
  lemma LayoutNests(arenaSize: real)
    requires arenaSize > 0.0
    ensures var l := ComputeEnvironmentLayout(arenaSize);
      l.arenaHalf < l.stadiumRadius < l.skylineRadius < l.floorSize / 2.0 && l.gridSize > arenaSize
  {
  }

  /** A 250-unit arena. */
  lemma LayoutExample()
    ensures var l := ComputeEnvironmentLayout(250.0);
      l.arenaHalf == 125.0 && l.skylineCount == 31 && l.stadiumRadius == 127.5
  {
  }
}
