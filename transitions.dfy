/** The player screen's handlers as transitions of its whole state
    (src/screens/PlayerScreen.tsx).  Commands sent to the engine are recorded
    in a log; the auto-hide timer is the `isPlaying` flag its callback
    captured when it was armed, or None when no timer is pending. */
module Transitions {
  import opened Wrappers
  import opened Playback

  datatype PlayerState = PlayerState(
    status: Option<LoadedStatus>,
    showControls: bool,
    isBuffering: bool,
    controlsTimeout: Option<bool>,
    commands: seq<Command>)

  /** `useState(null)`, `useState(true)`, `useState(true)`, `useRef(null)`. */
  function Initial(): (st: PlayerState)
    ensures st.status.None? && st.showControls && st.isBuffering
    ensures st.controlsTimeout.None? && st.commands == []
  {
    PlayerState(None, true, true, None, [])
  }

  /** `status?.isPlaying`: false when there is no status. */
  function IsPlaying(status: Option<LoadedStatus>): (playing: bool)
    ensures playing ==> status.Some?
    ensures status.Some? ==> playing == status.value.isPlaying
  {
    status.Some? && status.value.isPlaying
  }

  /** The playback side of the state (status and buffering) is unchanged. */
  predicate SameMedia(st: PlayerState, r: PlayerState) {
    r.status == st.status && r.isBuffering == st.isBuffering
  }

  /** The overlay side of the state (visibility and timer) is unchanged. */
  predicate SameOverlay(st: PlayerState, r: PlayerState) {
    r.showControls == st.showControls && r.controlsTimeout == st.controlsTimeout
  }

  /** `resetControlsTimer`: show the controls, cancel the pending timer and arm
      a single new one that remembers whether the status played right now. */
  function ResetControlsTimer(st: PlayerState): (r: PlayerState)
    ensures SameMedia(st, r) && r.commands == st.commands
    ensures r.showControls
    ensures r.controlsTimeout == Some(IsPlaying(st.status))
  {
    st.(showControls := true, controlsTimeout := Some(IsPlaying(st.status)))
  }

  /** The pending timer fires: the controls hide only if the flag captured
      when it was armed says playing; the timer is then no longer pending. */
  function Expire(st: PlayerState): (r: PlayerState)
    ensures SameMedia(st, r) && r.commands == st.commands
    ensures r.controlsTimeout.None?
    ensures r.showControls <==> st.showControls && st.controlsTimeout != Some(true)
  {
    match st.controlsTimeout
    case None => st
    case Some(captured) => st.(showControls := if captured then false else st.showControls,
                               controlsTimeout := None)
  }

  /** `togglePlayPause`: without a status nothing happens; otherwise pause is
      sent exactly when the status says playing, play otherwise, and the
      controls timer is reset. */
  function TogglePlayPause(st: PlayerState): (r: PlayerState)
    ensures st.status.None? ==> r == st
    ensures st.status.Some? ==> r.commands == st.commands + [if st.status.value.isPlaying then Pause else Play]
    ensures st.status.Some? ==> SameMedia(st, r) && r == ResetControlsTimer(st).(commands := r.commands)
  {
    if st.status.None? then st
    else
      var command := if st.status.value.isPlaying then Pause else Play;
      ResetControlsTimer(st.(commands := st.commands + [command]))
  }

  /** `handleSeek(value)`: without a status or a known non-zero duration
      nothing happens; otherwise the engine is asked for `value * duration`
      and the controls timer is reset. */
  function HandleSeek(st: PlayerState, value: real): (r: PlayerState)
    ensures st.status.None? || KnownDuration(st.status.value.durationMillis) == 0 ==> r == st
    ensures st.status.Some? && KnownDuration(st.status.value.durationMillis) > 0 ==>
      && r.commands == st.commands + [SetPosition(SeekTarget(value, KnownDuration(st.status.value.durationMillis)))]
      && SameMedia(st, r) && r == ResetControlsTimer(st).(commands := r.commands)
  {
    if st.status.None? || KnownDuration(st.status.value.durationMillis) == 0 then st
    else
      var target := SeekTarget(value, KnownDuration(st.status.value.durationMillis));
      ResetControlsTimer(st.(commands := st.commands + [SetPosition(target)]))
  }

  /** `skipForward`: without a status nothing happens; otherwise the engine is
      asked for the clamped position 10 s ahead and the timer is reset. */
  function SkipForward(st: PlayerState): (r: PlayerState)
    ensures st.status.None? ==> r == st
    ensures st.status.Some? ==>
      && r.commands == st.commands + [SetPosition(SkipForwardTarget(st.status.value.positionMillis, st.status.value.durationMillis) as real)]
      && SameMedia(st, r) && r == ResetControlsTimer(st).(commands := r.commands)
  {
    if st.status.None? then st
    else
      var target := SkipForwardTarget(st.status.value.positionMillis, st.status.value.durationMillis);
      ResetControlsTimer(st.(commands := st.commands + [SetPosition(target as real)]))
  }

  /** `skipBackward`: without a status nothing happens; otherwise the engine is
      asked for the clamped position 10 s behind and the timer is reset. */
  function SkipBackward(st: PlayerState): (r: PlayerState)
    ensures st.status.None? ==> r == st
    ensures st.status.Some? ==>
      && r.commands == st.commands + [SetPosition(SkipBackwardTarget(st.status.value.positionMillis) as real)]
      && SameMedia(st, r) && r == ResetControlsTimer(st).(commands := r.commands)
  {
    if st.status.None? then st
    else
      var target := SkipBackwardTarget(st.status.value.positionMillis);
      ResetControlsTimer(st.(commands := st.commands + [SetPosition(target as real)]))
  }

  /** `handleMainPress`: a tap hides visible controls and leaves the pending
      timer alone; on hidden controls it is exactly a timer reset. */
  function HandleMainPress(st: PlayerState): (r: PlayerState)
    ensures st.showControls ==> r == st.(showControls := false)
    ensures !st.showControls ==> r == ResetControlsTimer(st)
    ensures r.showControls != st.showControls
  {
    if st.showControls then st.(showControls := false) else ResetControlsTimer(st)
  }

  /** `onPlaybackStatusUpdate(s)`: a status that is not loaded (including an
      error) is ignored; a loaded one is stored as reported, position not
      clamped, and sets the buffering flag. */
  function OnPlaybackStatusUpdate(st: PlayerState, s: EngineStatus): (r: PlayerState)
    ensures s.NotLoaded? ==> r == st
    ensures s.Loaded? ==> r.status == Some(s.loaded) && r.isBuffering == s.loaded.isBuffering
    ensures SameOverlay(st, r) && r.commands == st.commands
  {
    if s.Loaded? then st.(status := Some(s.loaded), isBuffering := s.loaded.isBuffering) else st
  }

  /** `onLoadStart`: the spinner is shown. */
  function OnLoadStart(st: PlayerState): (r: PlayerState)
    ensures r.isBuffering
    ensures r.status == st.status && SameOverlay(st, r) && r.commands == st.commands
  {
    st.(isBuffering := true)
  }

  /** The effect cleanup on unmount: the pending timer is cancelled. */
  function Unmount(st: PlayerState): (r: PlayerState)
    ensures r.controlsTimeout.None?
    ensures SameMedia(st, r) && r.showControls == st.showControls && r.commands == st.commands
    ensures Expire(r) == r
  {
    st.(controlsTimeout := None)
  }

  /** The events the mounted screen reacts to. */
  datatype Event =
    | PlayPausePress
    | SlidingComplete(value: real)
    | SkipForwardPress
    | SkipBackwardPress
    | MainPress
    | StatusUpdate(s: EngineStatus)
    | LoadStart
    | TimerExpiry

  function Apply(st: PlayerState, e: Event): PlayerState {
    match e
    case PlayPausePress => TogglePlayPause(st)
    case SlidingComplete(value) => HandleSeek(st, value)
    case SkipForwardPress => SkipForward(st)
    case SkipBackwardPress => SkipBackward(st)
    case MainPress => HandleMainPress(st)
    case StatusUpdate(s) => OnPlaybackStatusUpdate(st, s)
    case LoadStart => OnLoadStart(st)
    case TimerExpiry => Expire(st)
  }

  /** The state after handling `events` in order, one at a time. */
  function Run(st: PlayerState, events: seq<Event>): PlayerState
    decreases |events|
  {
    if events == [] then st else Run(Apply(st, events[0]), events[1..])
  }

  /** An event through which the engine reports that it is playing. */
  predicate ReportsPlaying(e: Event) {
    e.StatusUpdate? && e.s.Loaded? && e.s.loaded.isPlaying
  }

  /** A state that is paused, shows its controls, and has no pending timer
      armed while playing. */
  predicate PausedAndVisible(st: PlayerState) {
    st.showControls && !IsPlaying(st.status) && st.controlsTimeout != Some(true)
  }

  /** While the media stays paused, the controls never auto-hide: only a tap
      on the overlay can hide them. */
  lemma {:induction false} PausedControlsNeverAutoHide(st: PlayerState, events: seq<Event>)
    requires PausedAndVisible(st)
    requires forall i :: 0 <= i < |events| ==> events[i] != MainPress && !ReportsPlaying(events[i])
    ensures Run(st, events).showControls
    decreases |events|
  {
    if events != [] {
      var next := Apply(st, events[0]);
      assert PausedAndVisible(next);
      PausedControlsNeverAutoHide(next, events[1..]);
    }
  }

  /** An event through which the engine reports a loaded status. */
  predicate ReportsLoaded(e: Event) {
    e.StatusUpdate? && e.s.Loaded?
  }

  /** Until the engine reports a loaded status, every transport command is a
      silent no-op: no command reaches the engine and the status stays null. */
  lemma {:induction false} NoCommandBeforeLoad(st: PlayerState, events: seq<Event>)
    requires st.status.None?
    requires forall i :: 0 <= i < |events| ==> !ReportsLoaded(events[i])
    ensures Run(st, events).status.None?
    ensures Run(st, events).commands == st.commands
    decreases |events|
  {
    if events != [] {
      NoCommandBeforeLoad(Apply(st, events[0]), events[1..]);
    }
  }

  /** Handlers only ever add commands to the log, never take one back. */
  lemma {:induction false} CommandsOnlyGrow(st: PlayerState, events: seq<Event>)
    ensures |st.commands| <= |Run(st, events).commands|
    ensures Run(st, events).commands[..|st.commands|] == st.commands
    decreases |events|
  {
    if events != [] {
      var next := Apply(st, events[0]);
      assert next.commands[..|st.commands|] == st.commands;
      CommandsOnlyGrow(next, events[1..]);
    }
  }

  /** The timer remembers the play state of the moment it was armed: pausing
      arms it with `true`, so once the engine reports the pause the controls
      still hide when it fires. */
  lemma PauseStillAutoHides(st: PlayerState, paused: LoadedStatus)
    requires st.status.Some? && st.status.value.isPlaying
    requires !paused.isPlaying
    ensures TogglePlayPause(st).commands == st.commands + [Pause]
    ensures !Expire(OnPlaybackStatusUpdate(TogglePlayPause(st), Loaded(paused))).showControls
  {
  }

  /** Conversely, pressing play arms the timer with `false`, so once the engine
      reports playing the controls stay up when it fires. */
  lemma PlayDoesNotAutoHide(st: PlayerState, playing: LoadedStatus)
    requires st.status.Some? && !st.status.value.isPlaying
    requires playing.isPlaying
    ensures TogglePlayPause(st).commands == st.commands + [Play]
    ensures Expire(OnPlaybackStatusUpdate(TogglePlayPause(st), Loaded(playing))).showControls
  {
  }

  /** Hiding by a tap leaves the timer pending; a timer armed while playing
      then fires on already hidden controls, and a later tap shows them again
      with a fresh timer. */
  lemma TapHideKeepsTimer(st: PlayerState)
    requires st.showControls
    ensures HandleMainPress(st).controlsTimeout == st.controlsTimeout
    ensures !Expire(HandleMainPress(st)).showControls
    ensures HandleMainPress(HandleMainPress(st)) == ResetControlsTimer(st.(showControls := false))
  {
  }

  /** Resetting the timer twice in a row is the same as once: there is never
      more than the one pending timer. */
  lemma ResetControlsTimerIdempotent(st: PlayerState)
    ensures ResetControlsTimer(ResetControlsTimer(st)) == ResetControlsTimer(st)
  {
  }
}
