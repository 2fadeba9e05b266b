# Player screen playback controls, modelled in Dafny

This project models the playback-control overlay of the anime player app's
`PlayerScreen` component (`src/screens/PlayerScreen.tsx`). The screen holds
four pieces of state:

- `status`: the last loaded playback status, or null.
- `showControls`: whether the overlay is visible.
- `isBuffering`: whether the spinner is shown.
- `controlsTimeout`: the single pending auto-hide timer.

Its handlers change that state and send commands to the video engine:
`togglePlayPause`, `handleSeek`, `skipForward`, `skipBackward`,
`handleMainPress`, `onPlaybackStatusUpdate`, the load-start callback and the
unmount cleanup. The screen also derives its time labels (`formatTime`) and
its slider value from the status.

Layout of the project:

- `wrappers.dfy`: `Option`, standing for a nullable value.
- `playback.dfy` (module `Playback`):
  - the engine's status values and the commands sent to it;
  - the skip and seek targets;
  - lemmas on repeated skipping.
- `time_format.dfy` (module `TimeFormat`): `formatTime` and a parser for its
  `m:ss` output, with the round trip between them.
- `view.dfy` (module `View`): the two time labels and the slider value.
- `transitions.dfy` (module `Transitions`):
  - every handler as a function from the whole screen state to the next;
  - a fold `Run` over sequences of events;
  - lemmas about single handlers and about whole event sequences.
- `player_screen.dfy` (module `Screen`): the class `PlayerScreen`.
  - Its fields are the state slots, updated in place by its methods.
  - Each method ensures that the new state is the matching `Transitions`
    function applied to the old state.

Engine commands (`playAsync`, `pauseAsync`, `setPositionAsync`) are appended
to a command log field. The `await`s are treated as completing at once. The
auto-hide timer is `Option<bool>`, holding the `isPlaying` flag its callback
captured when `resetControlsTimer` armed it. Its firing is the event `Expire`.

The model follows the code, including where a reader might expect different behaviour:

- Loaded statuses are stored as reported. Nothing clamps the position to the
  duration, so the slider value can exceed 1 (`View.SliderValue`).
- Unloaded and error statuses are ignored. There is no load-failure state.
- With an unknown or zero duration, skip-forward asks for position 0.
- The slider fraction is not clamped before `value * duration`.
- Hiding the controls with a tap does not cancel the pending timer.
- At expiry the timer tests the play state captured when it was armed, not
  the current one. So pausing still lets the controls auto-hide
  (`Transitions.PauseStillAutoHides`). Pressing play leaves them up
  (`Transitions.PlayDoesNotAutoHide`).
- Exit has no single-shot guard.

## Model

| member | source | states |
|---|---|---|
| `Playback.KnownDuration` | src/screens/PlayerScreen.tsx:87 | the duration read with a fallback of 0: a known duration as is, and 0 exactly when the duration is unknown or 0 |
| `Playback.SkipForwardTarget` | src/screens/PlayerScreen.tsx:87 | the target is the smaller of position + 10 s and the known duration (0 when unknown); it lies in [0, duration] |
| `Playback.SkipBackwardTarget` | src/screens/PlayerScreen.tsx:94 | the target is the larger of position − 10 s and 0; it lies in [0, position] and is never negative |
| `Playback.SeekTarget` | src/screens/PlayerScreen.tsx:80 | `value * duration` lies in [0, duration] for a slider value in [0, 1], hits both ends, and is not clamped outside that range |
| `Playback.SkipBackwardTimesClamps` | src/screens/PlayerScreen.tsx:92-97 | n presses of skip-backward reach max(position − n·10 s, 0) |
| `Playback.SkipBackwardReachesZero` | src/screens/PlayerScreen.tsx:92-97 | enough presses of skip-backward reach 0 |
| `Playback.SkipForwardTimesClamps` | src/screens/PlayerScreen.tsx:85-90 | n ≥ 1 presses of skip-forward reach min(position + n·10 s, known duration), never past the duration |
| `Playback.TwoMinuteEpisode` | src/screens/PlayerScreen.tsx:78-97 | a 120 s episode at 5 s: back lands on 0, two forwards reach 20 s, seeking 0.5 asks for 60 s |
| `TimeFormat.NatToString` | src/screens/PlayerScreen.tsx:103 | the decimal rendering is non-empty, all digits, has no leading zero, and has one digit below 10 and two below 100 |
| `TimeFormat.ParseNatToString` | src/screens/PlayerScreen.tsx:103 | reading the decimal rendering back gives the number |
| `TimeFormat.PadSeconds` | src/screens/PlayerScreen.tsx:103 | the seconds field has exactly two digits |
| `TimeFormat.ParsePadSeconds` | src/screens/PlayerScreen.tsx:103 | reading the padded seconds field back gives the seconds |
| `TimeFormat.FormatTime` | src/screens/PlayerScreen.tsx:99-104 | the label is digits, a colon, then exactly two digits |
| `TimeFormat.FormatTimeRoundTrip` | src/screens/PlayerScreen.tsx:99-104 | the label parses back to minutes = ms div 60000 and seconds = (ms div 1000) mod 60, the seconds within 0..59 |
| `TimeFormat.FormatTimeSameLabel` | src/screens/PlayerScreen.tsx:99-104 | two times share a label exactly when they agree on minutes and on seconds within the minute |
| `TimeFormat.FormatTimeZero` | src/screens/PlayerScreen.tsx:99-104 | 0 ms is shown as `0:00` |
| `View.PositionLabel` | src/screens/PlayerScreen.tsx:193-195 | the position label is `formatTime` of the position, and with no status it is that of 0 ms |
| `View.DurationLabel` | src/screens/PlayerScreen.tsx:208-210 | the duration label is `formatTime` of the known duration, and of 0 ms with no status or an unknown duration |
| `View.SliderValue` | src/screens/PlayerScreen.tsx:201 | the slider value is non-negative, and at most 1 exactly when there is no usable duration or the position does not exceed it |
| `View.SeekAtSliderValue` | src/screens/PlayerScreen.tsx:78-83 | releasing the slider where it is drawn seeks to the current position |
| `Transitions.Initial` | src/screens/PlayerScreen.tsx:29-32 | the initial state has no status, shows the controls, shows the spinner, has no pending timer and has sent no command |
| `Transitions.IsPlaying` | src/screens/PlayerScreen.tsx:44 | `status?.isPlaying` is true only with a status, and then equals its `isPlaying` |
| `Transitions.ResetControlsTimer` | src/screens/PlayerScreen.tsx:39-48 | the controls are shown and exactly one timer is pending, holding the current play state; status, buffering and commands are kept |
| `Transitions.Expire` | src/screens/PlayerScreen.tsx:42-47 | on expiry the controls hide only if the captured flag says playing; no timer is pending afterwards |
| `Transitions.TogglePlayPause` | src/screens/PlayerScreen.tsx:68-76 | no-op without a status; otherwise exactly one command, pause if playing and play if not, then a timer reset |
| `Transitions.HandleSeek` | src/screens/PlayerScreen.tsx:78-83 | no-op without a status or a known non-zero duration; otherwise one seek to value · duration, then a timer reset |
| `Transitions.SkipForward` | src/screens/PlayerScreen.tsx:85-90 | no-op without a status; otherwise one seek to the clamped forward target, then a timer reset |
| `Transitions.SkipBackward` | src/screens/PlayerScreen.tsx:92-97 | no-op without a status; otherwise one seek to the clamped backward target, then a timer reset |
| `Transitions.HandleMainPress` | src/screens/PlayerScreen.tsx:106-112 | a tap flips visibility; on visible controls it only hides them and keeps the timer, on hidden ones it is a timer reset |
| `Transitions.OnPlaybackStatusUpdate` | src/screens/PlayerScreen.tsx:114-119 | a not-loaded status changes nothing; a loaded one replaces the status unclamped and sets buffering from it; the overlay is untouched |
| `Transitions.OnLoadStart` | src/screens/PlayerScreen.tsx:132 | load start turns buffering on and changes nothing else |
| `Transitions.Unmount` | src/screens/PlayerScreen.tsx:61-65 | the cleanup cancels any pending timer, after which no expiry has an effect |
| `Transitions.PausedControlsNeverAutoHide` | src/screens/PlayerScreen.tsx:39-48 | while the media never reports playing and no timer was armed while playing, no sequence of events other than a tap hides the controls |
| `Transitions.NoCommandBeforeLoad` | src/screens/PlayerScreen.tsx:68-97 | until a loaded status arrives, no sequence of events sends a command or sets a status |
| `Transitions.CommandsOnlyGrow` | src/screens/PlayerScreen.tsx:68-97 | handlers only append to the command log |
| `Transitions.PauseStillAutoHides` | src/screens/PlayerScreen.tsx:44-48 | after pause while playing, the timer still hides the controls even once the engine reports paused |
| `Transitions.PlayDoesNotAutoHide` | src/screens/PlayerScreen.tsx:44-48 | after play while paused, the timer leaves the controls up even once the engine reports playing |
| `Transitions.TapHideKeepsTimer` | src/screens/PlayerScreen.tsx:106-112 | a hiding tap keeps the pending timer, the timer then leaves the controls hidden, and a second tap shows them with a fresh timer |
| `Transitions.ResetControlsTimerIdempotent` | src/screens/PlayerScreen.tsx:39-48 | two resets in a row equal one |
| `Screen.PlayerScreen.constructor` | src/screens/PlayerScreen.tsx:29-32 | initially no status, controls shown, buffering on, no timer, no commands |
| `Screen.PlayerScreen.ResetControlsTimer` | src/screens/PlayerScreen.tsx:39-48 | clears the old timer and arms one new timer in place, as `Transitions.ResetControlsTimer` |
| `Screen.PlayerScreen.Expire` | src/screens/PlayerScreen.tsx:42-47 | the pending timer fires, as `Transitions.Expire` |
| `Screen.PlayerScreen.TogglePlayPause` | src/screens/PlayerScreen.tsx:68-76 | updates the fields as `Transitions.TogglePlayPause` |
| `Screen.PlayerScreen.HandleSeek` | src/screens/PlayerScreen.tsx:78-83 | updates the fields as `Transitions.HandleSeek` |
| `Screen.PlayerScreen.SkipForward` | src/screens/PlayerScreen.tsx:85-90 | updates the fields as `Transitions.SkipForward` |
| `Screen.PlayerScreen.SkipBackward` | src/screens/PlayerScreen.tsx:92-97 | updates the fields as `Transitions.SkipBackward` |
| `Screen.PlayerScreen.HandleMainPress` | src/screens/PlayerScreen.tsx:106-112 | updates the fields as `Transitions.HandleMainPress` |
| `Screen.PlayerScreen.OnPlaybackStatusUpdate` | src/screens/PlayerScreen.tsx:114-119 | updates the fields as `Transitions.OnPlaybackStatusUpdate` |
| `Screen.PlayerScreen.OnLoadStart` | src/screens/PlayerScreen.tsx:132 | updates the fields as `Transitions.OnLoadStart` |
| `Screen.PlayerScreen.Unmount` | src/screens/PlayerScreen.tsx:61-65 | updates the fields as `Transitions.Unmount` |

## Left out

- The `videoRef.current` null checks in the transport handlers are not modelled. A non-null status only comes from the mounted `Video`, so the reference is set whenever a status exists.
- Video decoding and rendering (`expo-av`) are left out. The engine is only the commands it receives and the statuses it reports, and `await` is taken to complete at once.
- Skip and seek lemmas over repeated presses assume that the engine lands exactly on each requested position and then reports it.
- Orientation locking, the hardware back-button listener, `exitPlayer` and `navigation.goBack()` (src/screens/PlayerScreen.tsx:34-37, 50-60, 62-63) are left out. They are platform I/O on process-wide singletons, and the code has no duplicate-exit guard.
- Transitions.TogglePlayPause, Transitions.HandleSeek, Transitions.SkipForward and Transitions.SkipBackward (and the `Screen.PlayerScreen` methods of the same names): an engine command that rejects is not modelled. In the code a rejected `await` (src/screens/PlayerScreen.tsx:71, 73, 81, 88, 95) escapes the handler and skips its `resetControlsTimer()`. The model assumes every command succeeds, so it always resets the timer.
- Transitions.ResetControlsTimer: the pending timer is a single `Option<bool>` slot, so "at most one pending timer" holds by construction. A version of the code without the `clearTimeout` at src/screens/PlayerScreen.tsx:41 would leave an older timer running, and the model cannot express that. The clearing step in `Screen.PlayerScreen.ResetControlsTimer` mirrors the code but has no observable effect in the model.
- The 4000 ms delay is not modelled as time. Expiry is an explicit event.
- Screen.PlayerScreen.Expire: requires a pending timer, because only a pending timer can fire; the pure `Transitions.Expire` maps the no-timer state to itself.
- TimeFormat.FormatTime: takes whole, non-negative milliseconds. The source divides floating-point numbers; for such inputs its floors give the same minutes and seconds. Negative, fractional and NaN inputs are not modelled.
- View.SliderValue: uses exact rational division, not IEEE doubles.
- Playback.SeekTarget: uses exact real multiplication, not IEEE doubles.
- The JSX layout, icons, styles and safe-area padding arithmetic are presentation only and are left out.
- `SettingsScreen.tsx`, `HomeScreen.tsx`, `AnimeDetailScreen.tsx` and `App.tsx` are not part of this model. They hold UI, navigation and platform I/O without state-machine logic.
