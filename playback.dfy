/** Values reported by and sent to the playback engine, and the integer and real
    arithmetic the player screen does on positions (src/screens/PlayerScreen.tsx). */
module Playback {
  import opened Wrappers

  /** A status of a loaded media item (`AVPlaybackStatusSuccess`).  Positions are
      whole milliseconds; the duration is unknown until metadata has loaded. */
  datatype LoadedStatus = LoadedStatus(
    isPlaying: bool,
    isBuffering: bool,
    positionMillis: nat,
    durationMillis: Option<nat>)

  /** Any status the engine reports (`AVPlaybackStatus`): either loaded, or not
      loaded, possibly with an error message. */
  datatype EngineStatus = Loaded(loaded: LoadedStatus) | NotLoaded(error: Option<string>)

  /** The transport commands the screen sends to the engine:
      `playAsync`, `pauseAsync` and `setPositionAsync(millis)`. */
  datatype Command = Play | Pause | SetPosition(millis: real)

  /** The step of both skip buttons, in milliseconds. */
  const SkipStepMillis: nat := 10000

  /** `durationMillis || 0`: an unknown duration reads as 0. */
  function KnownDuration(duration: Option<nat>): (r: nat)
    ensures r == 0 <==> duration.None? || duration.value == 0
    ensures duration.Some? ==> r == duration.value
  {
    if duration.Some? then duration.value else 0
  }

  /** `Math.min(positionMillis + 10000, durationMillis || 0)`. */
  function SkipForwardTarget(position: nat, duration: Option<nat>): (r: int)
    ensures 0 <= r <= KnownDuration(duration)
    ensures r <= position + SkipStepMillis
    ensures r == position + SkipStepMillis || r == KnownDuration(duration)
    ensures KnownDuration(duration) == 0 ==> r == 0
  {
    var ahead := position + SkipStepMillis;
    var limit := KnownDuration(duration);
    if ahead <= limit then ahead else limit
  }

  /** `Math.max(positionMillis - 10000, 0)`. */
  function SkipBackwardTarget(position: nat): (r: int)
    ensures 0 <= r <= position
    ensures r >= position - SkipStepMillis
    ensures r == position - SkipStepMillis || r == 0
  {
    var behind := position - SkipStepMillis;
    if behind >= 0 then behind else 0
  }

  /** `value * durationMillis`, the absolute position a slider release asks for.
      The slider fraction is not clamped: a value outside [0, 1] leads outside
      [0, duration]. */
  function SeekTarget(value: real, duration: nat): (r: real)
    ensures 0.0 <= value <= 1.0 ==> 0.0 <= r <= duration as real
    ensures value == 0.0 ==> r == 0.0
    ensures value == 1.0 ==> r == duration as real
    ensures duration > 0 && value > 1.0 ==> r > duration as real
    ensures duration > 0 && value < 0.0 ==> r < 0.0
  {
    var d := duration as real;
    assert 0.0 <= value <= 1.0 ==> value * d <= 1.0 * d;
    value * d
  }

  /** The position reached by pressing skip-backward `n` times, when the engine
      lands exactly where it is asked to. */
  function SkipBackwardTimes(position: nat, n: nat): nat
    decreases n
  {
    if n == 0 then position else SkipBackwardTimes(SkipBackwardTarget(position), n - 1)
  }

  /** The position reached by pressing skip-forward `n` times, when the engine
      lands exactly where it is asked to and the duration does not change. */
  function SkipForwardTimes(position: nat, duration: Option<nat>, n: nat): nat
    decreases n
  {
    if n == 0 then position else SkipForwardTimes(SkipForwardTarget(position, duration), duration, n - 1)
  }

  /** Repeated skip-backward walks down in steps of 10 s and stops at 0: it never
      asks for a negative position. */
  lemma {:induction false} SkipBackwardTimesClamps(position: nat, n: nat)
    ensures SkipBackwardTimes(position, n)
         == if position >= SkipStepMillis * n then position - SkipStepMillis * n else 0
    decreases n
  {
    if n > 0 {
      var next := SkipBackwardTarget(position);
      SkipBackwardTimesClamps(next, n - 1);
      if position >= SkipStepMillis * n {
        assert next == position - SkipStepMillis;
      } else if next > 0 {
        assert next == position - SkipStepMillis;
        assert next < SkipStepMillis * (n - 1);
      }
    }
  }

  /** Enough skip-backward presses always reach position 0. */
  lemma SkipBackwardReachesZero(position: nat)
    ensures SkipBackwardTimes(position, position / SkipStepMillis + 1) == 0
  {
    SkipBackwardTimesClamps(position, position / SkipStepMillis + 1);
  }

  /** After at least one press, repeated skip-forward is at 10 s per press past
      the start, capped at the duration (or at 0 when the duration is unknown):
      it never asks for a position past a known duration. */
  lemma {:induction false} SkipForwardTimesClamps(position: nat, duration: Option<nat>, n: nat)
    requires n >= 1
    ensures SkipForwardTimes(position, duration, n)
         == if position + SkipStepMillis * n <= KnownDuration(duration)
            then position + SkipStepMillis * n else KnownDuration(duration)
    ensures SkipForwardTimes(position, duration, n) <= KnownDuration(duration)
    decreases n
  {
    var next := SkipForwardTarget(position, duration);
    if n > 1 {
      SkipForwardTimesClamps(next, duration, n - 1);
    }
  }

  /** A two-minute episode at 5 s: skipping back lands on 0, not -5 s; two
      skips forward from there reach 20 s; seeking to the middle asks for 60 s. */
  lemma TwoMinuteEpisode()
    ensures SkipBackwardTarget(5000) == 0
    ensures SkipForwardTimes(0, Some(120000), 2) == 20000
    ensures SeekTarget(0.5, 120000) == 60000.0
  {
  }
}
