/** The `PlayerScreen` component of src/screens/PlayerScreen.tsx as an object:
    its state slots are fields and its handlers are methods that update them in
    place.  The engine calls (`playAsync`, `pauseAsync`, `setPositionAsync`) are
    appended to a command log, and the firing of the auto-hide timer is the
    method `Expire`.  Each method leaves the state that the corresponding
    transition of module Transitions computes from the state before. */
module Screen {
  import opened Wrappers
  import opened Playback
  import Transitions

  class PlayerScreen {
    var status: Option<LoadedStatus>
    var showControls: bool
    var isBuffering: bool
    /** The pending auto-hide timer, as the `isPlaying` flag its callback
        captured; None when no timer is pending. */
    var controlsTimeout: Option<bool>
    /** Every command sent to the engine, oldest first. */
    var commands: seq<Command>

    function State(): Transitions.PlayerState
      reads this
    {
      Transitions.PlayerState(status, showControls, isBuffering, controlsTimeout, commands)
    }

    constructor ()
      ensures State() == Transitions.Initial()
      ensures status.None? && showControls && isBuffering && controlsTimeout.None? && commands == []
    {
      status := None;
      showControls := true;
      isBuffering := true;
      controlsTimeout := None;
      commands := [];
    }

    method ResetControlsTimer()
      modifies this
      ensures State() == Transitions.ResetControlsTimer(old(State()))
      ensures showControls && controlsTimeout == Some(Transitions.IsPlaying(status))
    {
      showControls := true;
      if controlsTimeout.Some? {
        controlsTimeout := None;
      }
      controlsTimeout := Some(status.Some? && status.value.isPlaying);
    }

    /** The pending timer fires (after 4000 ms, not modelled as time). */
    method Expire()
      requires controlsTimeout.Some?
      modifies this
      ensures State() == Transitions.Expire(old(State()))
      ensures showControls == (old(showControls) && !old(controlsTimeout.value))
    {
      var captured := controlsTimeout.value;
      controlsTimeout := None;
      if captured {
        showControls := false;
      }
    }

    method TogglePlayPause()
      modifies this
      ensures State() == Transitions.TogglePlayPause(old(State()))
    {
      if status.None? {
        return;
      }
      if status.value.isPlaying {
        commands := commands + [Pause];
      } else {
        commands := commands + [Play];
      }
      ResetControlsTimer();
    }

    method HandleSeek(value: real)
      modifies this
      ensures State() == Transitions.HandleSeek(old(State()), value)
    {
      if status.None? || KnownDuration(status.value.durationMillis) == 0 {
        return;
      }
      var seekPosition := SeekTarget(value, KnownDuration(status.value.durationMillis));
      commands := commands + [SetPosition(seekPosition)];
      ResetControlsTimer();
    }

    method SkipForward()
      modifies this
      ensures State() == Transitions.SkipForward(old(State()))
    {
      if status.None? {
        return;
      }
      var newPos := SkipForwardTarget(status.value.positionMillis, status.value.durationMillis);
      commands := commands + [SetPosition(newPos as real)];
      ResetControlsTimer();
    }

    method SkipBackward()
      modifies this
      ensures State() == Transitions.SkipBackward(old(State()))
    {
      if status.None? {
        return;
      }
      var newPos := SkipBackwardTarget(status.value.positionMillis);
      commands := commands + [SetPosition(newPos as real)];
      ResetControlsTimer();
    }

    method HandleMainPress()
      modifies this
      ensures State() == Transitions.HandleMainPress(old(State()))
    {
      if showControls {
        showControls := false;
      } else {
        ResetControlsTimer();
      }
    }

    method OnPlaybackStatusUpdate(s: EngineStatus)
      modifies this
      ensures State() == Transitions.OnPlaybackStatusUpdate(old(State()), s)
    {
      if s.Loaded? {
        status := Some(s.loaded);
        isBuffering := s.loaded.isBuffering;
      }
    }

    method OnLoadStart()
      modifies this
      ensures State() == Transitions.OnLoadStart(old(State()))
    {
      isBuffering := true;
    }

    /** The cleanup returned by the mount effect. */
    method Unmount()
      modifies this
      ensures State() == Transitions.Unmount(old(State()))
    {
      if controlsTimeout.Some? {
        controlsTimeout := None;
      }
    }
  }
}
