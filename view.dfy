/** What the overlay derives from the current status when it renders
    (src/screens/PlayerScreen.tsx, the time labels and the slider). */
module View {
  import opened Wrappers
  import opened Playback
  import opened TimeFormat

  /** The left label: `status ? formatTime(status.positionMillis) : '0:00'`.
      With no status it reads like a position of 0 ms. */
  function PositionLabel(status: Option<LoadedStatus>): (text: string)
    ensures text == FormatTime(if status.Some? then status.value.positionMillis else 0)
  {
    if status.Some? then FormatTime(status.value.positionMillis) else "0:00"
  }

  /** The right label: `status ? formatTime(status.durationMillis || 0) : '0:00'`.
      With no status, or an unknown duration, it reads like a duration of 0 ms. */
  function DurationLabel(status: Option<LoadedStatus>): (text: string)
    ensures text == FormatTime(if status.Some? then KnownDuration(status.value.durationMillis) else 0)
  {
    if status.Some? then FormatTime(KnownDuration(status.value.durationMillis)) else "0:00"
  }

  /** The slider's value: position over duration, or 0 without a status or a
      known non-zero duration.  The position is not clamped, so the value
      exceeds 1 exactly when the engine reports a position past the duration. */
  function SliderValue(status: Option<LoadedStatus>): (r: real)
    ensures 0.0 <= r
    ensures r <= 1.0 <==> (status.None? || KnownDuration(status.value.durationMillis) == 0
                           || status.value.positionMillis <= KnownDuration(status.value.durationMillis))
  {
    if status.Some? && KnownDuration(status.value.durationMillis) > 0
    then
      var position := status.value.positionMillis as real;
      var duration := KnownDuration(status.value.durationMillis) as real;
      RatioAtMostOne(position, duration);
      position / duration
    else 0.0
  }

  /** A non-negative ratio is at most 1 exactly when its numerator is at most
      its denominator. */
  lemma RatioAtMostOne(p: real, d: real)
    requires 0.0 <= p && 0.0 < d
    ensures 0.0 <= p / d
    ensures p / d <= 1.0 <==> p <= d
  {
    assert p / d * d == p;
  }

  /** Releasing the slider where it is drawn asks the engine for the current
      position: the slider value and the seek target are inverse. */
  lemma SeekAtSliderValue(status: Option<LoadedStatus>)
    requires status.Some? && KnownDuration(status.value.durationMillis) > 0
    ensures SeekTarget(SliderValue(status), KnownDuration(status.value.durationMillis))
         == status.value.positionMillis as real
  {
  }
}
