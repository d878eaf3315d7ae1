/** The bot difficulty profiles. */
module DifficultyTable {
  import opened Types

  datatype DifficultyProfile = DifficultyProfile(
    name: Difficulty,
    aggression: real,
    pressure: real,
    reactionScale: real,
    riskTolerance: real,
    cooperationChance: real)

  /** `getDifficultyProfile`. */
  function GetDifficultyProfile(d: Difficulty): (p: DifficultyProfile)
    ensures p.name == d
    ensures 0.0 <= p.cooperationChance < 1.0 && 0.0 < p.riskTolerance < 1.0
    ensures d == Easy ==> p.cooperationChance == 0.0
  {
    match d
    case Hard => DifficultyProfile(Hard, 0.7, 0.72, 1.3, 0.33, 0.45)
    case Medium => DifficultyProfile(Medium, 0.46, 0.48, 1.08, 0.5, 0.18)
    case Easy => DifficultyProfile(Easy, 0.33, 0.36, 0.95, 0.62, 0.0)
  }

  /**
    A harder profile is more aggressive, presses harder, reacts on a larger
    scale, cooperates more often and tolerates less risk.
   */
  lemma ProfilesOrdered(a: Difficulty, b: Difficulty)
    requires Rank(a) < Rank(b)
    ensures var pa, pb := GetDifficultyProfile(a), GetDifficultyProfile(b);
      && pa.aggression < pb.aggression
      && pa.pressure < pb.pressure
      && pa.reactionScale < pb.reactionScale
      && pa.cooperationChance < pb.cooperationChance
      && pa.riskTolerance > pb.riskTolerance
  {
  }
}
