/** The timing curves of the elimination effect and the sound cooldown. */
module EliminationFx {
  import opened Types

  /** Seconds the white flash lasts. */
  const FlashDuration: real := 0.12
  /** Seconds the shock ring takes to reach full size. */
  const ShockDuration: real := 0.25

  /** `shouldPlayEliminationSound`: always the first time, then only once the cooldown has passed. */
  function ShouldPlaySound(lastPlayedAt: Option<real>, now: real, cooldown: real): (play: bool)
    ensures lastPlayedAt.None? ==> play
    ensures lastPlayedAt.Some? ==> (play <==> now >= lastPlayedAt.value + cooldown)
  {
    match lastPlayedAt
    case None => true
    case Some(last) => now - last >= cooldown
  }

  /** `getFlashIntensity`: full at the start, fading linearly to nothing over the flash. */
  function FlashIntensity(elapsed: real): (f: real)
    ensures 0.0 <= f <= 1.0
    ensures elapsed <= 0.0 ==> f == 1.0
    ensures elapsed >= FlashDuration ==> f == 0.0
    ensures 0.0 < elapsed < FlashDuration ==> 0.0 < f < 1.0 && f * FlashDuration == FlashDuration - elapsed
  {
    if elapsed <= 0.0 then 1.0
    else if elapsed >= FlashDuration then 0.0
    else 1.0 - elapsed / FlashDuration
  }

  /** The flash only ever fades. */
  lemma FlashFades(a: real, b: real)
    requires a <= b
    ensures FlashIntensity(b) <= FlashIntensity(a)
  {
  }

  /** `getShockScale`: the ring grows linearly from 1 to 3 over its duration. */
  function ShockScale(elapsed: real): (s: real)
    ensures 1.0 <= s <= 3.0
    ensures elapsed <= 0.0 ==> s == 1.0
    ensures elapsed >= ShockDuration ==> s == 3.0
    ensures 0.0 < elapsed < ShockDuration ==> (s - 1.0) * ShockDuration == 2.0 * elapsed
  {
    if elapsed <= 0.0 then 1.0
    else if elapsed >= ShockDuration then 3.0
    else 1.0 + (elapsed / ShockDuration) * 2.0
  }

  /** The ring only ever grows. */
  lemma ShockGrows(a: real, b: real)
    requires a <= b
    ensures ShockScale(a) <= ShockScale(b)
  {
  }

  /** A 0.2 s cooldown: no sound 50 ms after the last one, a sound 250 ms after. */
  lemma SoundCooldownExample()
    ensures ShouldPlaySound(None, 1.0, 0.2)
    ensures !ShouldPlaySound(Some(1.0), 1.05, 0.2)
    ensures ShouldPlaySound(Some(1.0), 1.25, 0.2)
  {
  }
}
