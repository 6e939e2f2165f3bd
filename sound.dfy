/**
 * The sound gate of `checkFrogProximity`: which call sound the single
 * audio element should play, or whether it should stop, for one pointer
 * move. The audio element itself is outside the model; a move yields a
 * `SoundAction` telling what the page does to it.
 */
module Sound {
  import opened Wrappers
  import opened Board
  import opened Pointer

  /** What one pointer move does to the page's audio element. */
  datatype SoundAction =
    | Play(sound: string, volume: real)  // new source, looping, at this volume, then play()
    | SetVolume(volume: real)            // the same sound is already playing: volume only
    | Stop                               // pause, rewind, and forget the playing sound
    | Silent                             // nothing happens

  /** Squared sound threshold: a frog is heard when nearer than 15. */
  const Audible2: real := (SoundThreshold * SoundThreshold) as real

  /**
   * `calculateVolume`: the power curve is floating point and stays
   * abstract (`curveValue` is its value); what is modelled is the floor.
   */
  function Volume(curveValue: real): (v: real)
    ensures v >= 0.2 && v >= curveValue
    ensures v == 0.2 || v == curveValue
  {
    if curveValue < 0.2 then 0.2 else curveValue
  }

  /**
   * The decision taken once the nearest frog is known: engage its sound
   * when it is nearer than the threshold (a fresh `play()` unless that very
   * sound is playing), otherwise stop whatever is playing.
   */
  function Gate(near: Option<Frog>, minDistance2: real, playing: Option<string>, volume: real): (a: SoundAction)
    ensures (a.Play? || a.SetVolume?) <==> near.Some? && minDistance2 < Audible2
    ensures a.Play? ==> a.sound == near.value.sound && playing != Some(near.value.sound) && a.volume == volume
    ensures a.SetVolume? ==> playing == Some(near.value.sound) && a.volume == volume
    ensures a.Stop? <==> !(near.Some? && minDistance2 < Audible2) && playing.Some?
  {
    if near.Some? && minDistance2 < Audible2 then
      if playing != Some(near.value.sound) then Play(near.value.sound, volume) else SetVolume(volume)
    else if playing.Some? then Stop
    else Silent
  }

  /**
   * `checkFrogProximity` against the current round state: nothing after
   * game over; otherwise the gate applied to the nearest frog. `curve`
   * gives the power curve's value for a squared distance.
   */
  function ProximityAction(frogs: seq<Frog>, px: real, py: real, gameOver: bool,
                           playing: Option<string>, curve: real -> real): (a: SoundAction)
    ensures gameOver ==> a == Silent
    ensures (a.Play? || a.SetVolume?) <==>
      (!gameOver && |frogs| > 0 && PointerDist2(frogs[Nearest(frogs, px, py).value], px, py) < Audible2)
    ensures a.Play? ==> a.sound == frogs[Nearest(frogs, px, py).value].sound && a.volume >= 0.2
    ensures a.SetVolume? ==> a.volume >= 0.2
    ensures a.Stop? <==> (!gameOver && playing.Some? &&
      (|frogs| == 0 || PointerDist2(frogs[Nearest(frogs, px, py).value], px, py) >= Audible2))
  {
    if gameOver then Silent
    else
      match Nearest(frogs, px, py)
      case None => Gate(None, 0.0, playing, 0.2)
      case Some(i) =>
        var d2 := PointerDist2(frogs[i], px, py);
        Gate(Some(frogs[i]), d2, playing, Volume(curve(d2)))
  }

  /**
   * `checkFrogProximity` as the page runs it: the mouse-move listener is
   * registered once, when the page mounts, so the handler it calls sees the
   * first render's `gameOver` (false) and `playingSound` (null) on every
   * move, whatever the round's state has become.
   */
  function StaleProximityAction(frogs: seq<Frog>, px: real, py: real, curve: real -> real): (a: SoundAction)
    ensures !a.Stop? && !a.SetVolume?
  {
    ProximityAction(frogs, px, py, false, None, curve)
  }

  /** As run, a move next to a frog after game over still starts its call. */
  lemma StalePlaysAfterGameOver(curve: real -> real)
    ensures var frogs := [Frog(0, 50, 50, "澤蛙", "/frog_sound/澤蛙.mp3")];
      && ProximityAction(frogs, 50.0, 50.0, true, None, curve) == Silent
      && StaleProximityAction(frogs, 50.0, 50.0, curve).Play?
  {
  }

  /** As run, moving away from the frog whose call is playing never stops it. */
  lemma StaleNeverStopsFarAway(curve: real -> real)
    ensures var frogs := [Frog(0, 10, 15, "澤蛙", "/frog_sound/澤蛙.mp3")];
      && ProximityAction(frogs, 89.0, 84.0, false, Some("/frog_sound/澤蛙.mp3"), curve) == Stop
      && StaleProximityAction(frogs, 89.0, 84.0, curve) == Silent
  {
  }
}
