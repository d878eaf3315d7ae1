/** The edge-steering bot: turn back when near the arena's edge, otherwise go straight. */
module Bot {
  import opened Numerics
  import opened Vec
  import opened Types

  /** Half-size fraction beyond which the bot turns back. */
  const EdgeFraction: real := 0.8

  /**
    `chooseBotInput`: the x coordinate is checked first, then y; past the
    threshold the bot steers against the sign of that coordinate.
   */
  function ChooseBotInput(pos: Vec2, arenaHalf: real): (r: Steer)
    ensures Abs(pos.x) > arenaHalf * EdgeFraction ==> r == (if pos.x > 0.0 then -1 else 1)
    ensures Abs(pos.x) <= arenaHalf * EdgeFraction && Abs(pos.y) > arenaHalf * EdgeFraction
            ==> r == (if pos.y > 0.0 then -1 else 1)
    // inside the threshold box the bot goes straight, and only there
    ensures r == 0 <==> Abs(pos.x) <= arenaHalf * EdgeFraction && Abs(pos.y) <= arenaHalf * EdgeFraction
  {
    if Abs(pos.x) > arenaHalf * EdgeFraction then
      (if pos.x > 0.0 then -1 else 1)
    else if Abs(pos.y) > arenaHalf * EdgeFraction then
      (if pos.y > 0.0 then -1 else 1)
    else
      0
  }

  /** Reflecting the position through the centre reverses the steering, away from the axes. */
  lemma BotMirror(pos: Vec2, arenaHalf: real)
    requires pos.x != 0.0 && pos.y != 0.0
    ensures ChooseBotInput(Vec2(-pos.x, -pos.y), arenaHalf) == -ChooseBotInput(pos, arenaHalf)
  {
  }

  /** Near the east edge the bot steers -1, near the west edge 1, at the centre 0. */
  lemma BotExamples()
    ensures ChooseBotInput(Vec2(45.0, 0.0), 50.0) == -1
    ensures ChooseBotInput(Vec2(-45.0, 45.0), 50.0) == 1
    ensures ChooseBotInput(Vec2(0.0, 45.0), 50.0) == -1
    ensures ChooseBotInput(Vec2(10.0, -10.0), 50.0) == 0
  {
  }
}
