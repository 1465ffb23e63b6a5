# Music player core: playlist navigation, playback state, time display

This project models, in Dafny, the client-side audio player of a music
streaming web front end (components/PlayerContent.tsx). The player has three
small pure parts once React state and the `<audio>` element are abstracted:

- **Playlist navigation** over the shared player store `{ids, activeId}`
  (`onPlayNext`, `onPlayPrevious`) — module `Playlist` (playlist.dfy).
  `findIndex` finds the first occurrence (-1 on a miss, including an
  undefined active id); the neighbour `ids[i ± 1]` is used unless it is
  falsy (outside the array, or `""`), in which case navigation wraps to the
  first or last element. The store's `setId` is modelled as assigning the
  active id and nothing else.
- **Transient playback state** `{isPlaying, volume, currentTime, duration}`
  plus an optional abstract audio element `{position, duration,
  lastCommand}` — module `Playback` (playback.dfy). Every handler
  (`togglePlayPause`, `handleSeek`, `updateTime`, `onLoadedMetadata`,
  `onSongEnd`) is a total function with an element-bound and an
  element-absent branch; `toggleMute` never reads `audioRef` and only
  changes the volume. `Step`/`Run` drive the handlers from a sequence
  of inputs, including the element advancing on its own while it plays
  (`ElementProgress`). The display then lags the element until the next
  `timeupdate`; a seek, a `timeupdate` or the end of the track brings it back
  in line from any state, and the volume stays within [0, 1] on every run.
- **Time display** (`formatTime`) — modules `Decimal` (decimal.dfy) and
  `Clock` (clock.dfy). JavaScript numbers are modelled as reals; `Math.floor`
  is `.Floor`, and `%` is JavaScript's truncating remainder (`Rem60`), so
  `FormatTime` is defined for every real, negative ones included. For
  non-negative input it is proved equal to an independent reference
  rendering `Clock(n)` of the whole seconds `n`, and a parser `ParseClock`
  reads every such display back to `n`.
- **Listener bookkeeping** of the mount effect — module `Listeners`
  (listeners.dfy): which element events reach the handlers after the
  effect and its cleanup run.

`Optional` (optional.dfy) holds the `Option` type used for JavaScript's
`undefined`.

Behaviours of the code that a reader might not expect, all modelled as the
code has them:

- `togglePlayPause` flips `isPlaying` even when no element is bound, although
  with nothing bound there is nothing to play or pause, so the flag then no
  longer reflects any playback; see `Playback.ToggleWithoutAudio`.
- `formatTime` has no guard for NaN or negative input, where a safe
  placeholder would be expected; a negative time renders as e.g. `"-1:0-5"`
  (`Clock.FormatTimeNegative`).
- `isPlaying` is set optimistically, before the element confirms playback.
- Navigation with duplicate ids can get stuck: the lookup always finds the
  first occurrence (`Playlist.DuplicateTrapsNavigation`).

## Model

| member | source | states |
|---|---|---|
| Playlist.SetId | components/PlayerContent.tsx:112-115 | the store's setter, as used by navigation, assigns the active id and leaves the ids untouched |
| Playlist.FindIndexSpec | components/PlayerContent.tsx:108 | the result is -1 exactly when no element equals the active id; otherwise the element there equals it and no earlier element does |
| Playlist.PlayNext | components/PlayerContent.tsx:103-116 | `ids` is never modified; on an empty list the store is unchanged; otherwise the new active id is an element of `ids` |
| Playlist.PlayPrevious | components/PlayerContent.tsx:118-131 | `ids` is never modified; on an empty list the store is unchanged; otherwise the new active id is an element of `ids` |
| Playlist.PlayNextAdvances | components/PlayerContent.tsx:108-115 | when the active id first occurs at i and `ids[i+1]` exists and is non-empty, next selects `ids[i+1]` |
| Playlist.PlayNextWraps | components/PlayerContent.tsx:108-113 | when the active id is absent (index -1), last, or followed by `""`, next selects `ids[0]` |
| Playlist.PlayPreviousRetreats | components/PlayerContent.tsx:123-130 | when the active id first occurs at i > 0 and `ids[i-1]` is non-empty, previous selects `ids[i-1]` |
| Playlist.PlayPreviousWraps | components/PlayerContent.tsx:123-127 | when the active id is at index 0, absent, or preceded by `""`, previous selects the last element |
| Playlist.PlayNextStep | components/PlayerContent.tsx:103-116 | on a playlist of distinct non-empty ids, next moves from position i to the following position, wrapping at the end, and changes nothing else |
| Playlist.PlayPreviousStep | components/PlayerContent.tsx:118-131 | on a playlist of distinct non-empty ids, previous moves from position i to the preceding position, wrapping at the start |
| Playlist.NextPreviousInverse | components/PlayerContent.tsx:103-131 | on a playlist of distinct non-empty ids containing the active id, next-then-previous and previous-then-next both restore the store |
| Playlist.NextNPosition | components/PlayerContent.tsx:103-116 | k <= n applications of next move position i to i + k modulo n |
| Playlist.PreviousNPosition | components/PlayerContent.tsx:118-131 | k <= n applications of previous move position i to i - k modulo n |
| Playlist.NextCycle | components/PlayerContent.tsx:103-131 | applying next (or previous) as many times as there are ids is the identity on such a playlist |
| Playlist.DuplicateTrapsNavigation | components/PlayerContent.tsx:108-115 | when the third id repeats the first (as in `[a, b, a, c]`), nexts from the first id alternate between the first two ids forever |
| Playlist.ThreeTrackWalk | components/PlayerContent.tsx:103-131 | on `[a, b, c]` from b: next gives c, next wraps to a, previous wraps back to c |
| Decimal.IntRoundTrip | components/PlayerContent.tsx:54 | the template-literal rendering of every integer parses back to that integer |
| Clock.Rem60 | components/PlayerContent.tsx:53 | JavaScript's `time % 60` keeps the sign of `time`: it lies in [0, 60) for non-negative time and in (-60, 0] for negative time |
| Clock.ClockRoundTrip | components/PlayerContent.tsx:52-54 | the minutes-colon-two-digit display of n seconds parses back to n |
| Clock.PadSeconds | components/PlayerContent.tsx:54 | any seconds value in [0, 60) is rendered as exactly two digits, its tens then its units |
| Clock.FormatTime | components/PlayerContent.tsx:51-55 | for time >= 0, `formatTime` yields `floor(t/60)`, a colon, and `t mod 60` padded to two digits, with t the whole seconds |
| Clock.FormatTimeReadsBack | components/PlayerContent.tsx:51-55 | for time >= 0 the display reads back as the whole seconds elapsed, with a colon third from the end |
| Clock.FormatTimeZero | components/PlayerContent.tsx:51-55 | 0 shows "0:00" |
| Clock.FormatTimeSixtyFive | components/PlayerContent.tsx:51-55 | 65 and 65.7 both show "1:05" |
| Clock.FormatTimeTenMinutes | components/PlayerContent.tsx:51-55 | minutes are neither padded nor capped: 600 shows "10:00" |
| Clock.FormatTimeNegative | components/PlayerContent.tsx:51-55 | a negative time is not guarded against: -5 shows "-1:0-5" |
| Playback.Initial | components/PlayerContent.tsx:21-25 | on mount the player is paused at zero with full volume and zero duration |
| Playback.TogglePlayPause | components/PlayerContent.tsx:31-40 | the flag always flips; with an element bound exactly the last command changes, to pause when it was playing and play otherwise, so the command agrees with the new flag |
| Playback.ToggleTwice | components/PlayerContent.tsx:31-40 | two toggles restore the flag and every field but the element's last command |
| Playback.ToggleWithoutAudio | components/PlayerContent.tsx:31-39 | with no element bound, toggling only flips the flag |
| Playback.HandleSeek | components/PlayerContent.tsx:43-48 | with an element bound, both its position and the display become the value and nothing else changes; without one nothing changes |
| Playback.SeekIdempotent | components/PlayerContent.tsx:43-48 | seeking twice to v equals seeking once; of two seeks only the last counts |
| Playback.SeekThenTimeUpdate | components/PlayerContent.tsx:43-62 | a time update right after a seek changes nothing |
| Playback.UpdateTime | components/PlayerContent.tsx:58-62 | the display takes the element's position; nothing else changes |
| Playback.ElementEventsIdempotent | components/PlayerContent.tsx:58-69 | a repeated `timeupdate` or `loadedmetadata` event with the element unchanged has no further effect |
| Playback.OnLoadedMetadata | components/PlayerContent.tsx:65-69 | with an element bound the duration becomes the element's; nothing else changes |
| Playback.OnSongEnd | components/PlayerContent.tsx:71-77 | playback stops, the display and the element's position become 0, the element stays bound, volume and duration are kept |
| Playback.EndThenReplay | components/PlayerContent.tsx:71-77 | the end handler is idempotent, and a toggle afterwards plays from position 0 without rebinding |
| Playback.ToggleMute | components/PlayerContent.tsx:133-139 | the volume becomes 0 or 1: 1 exactly when it was 0; nothing else changes |
| Playback.MuteTwice | components/PlayerContent.tsx:133-139 | two toggles restore the volume exactly when it started at 0 or 1; from any other non-zero level they end at 1 |
| Playback.Step | components/PlayerContent.tsx:31-139 | no input binds or unbinds the element |
| Playback.ElementProgress | components/PlayerContent.tsx:58-62 | the element reports a new position while the display keeps the old time, which only `updateTime` brings up to date |
| Playback.ProgressLagsUntilTimeUpdate | components/PlayerContent.tsx:58-62 | after the element advances the display lags it, and the `timeupdate` handler then shows exactly the element's position |
| Playback.StepMirrors | components/PlayerContent.tsx:43-77 | a seek, a `timeupdate` or the end of track puts the display in line with the element from any state; other inputs except the element's own progress keep it in line |
| Playback.RunEndsMirrored | components/PlayerContent.tsx:43-77 | after any run ending in a seek, a `timeupdate` or the end of track, the display equals the element's position |
| Playback.RunPreservesVolume | components/PlayerContent.tsx:133-139 | every sequence of inputs keeps the volume within [0, 1] |
| Playback.InitialConsistent | components/PlayerContent.tsx:21-25 | on mount the volume is in range and the display agrees with an element that starts at 0 |
| Playback.StepPreservesCommandAgrees | components/PlayerContent.tsx:31-69 | once the last command agrees with the flag, every input but the end of track keeps it so |
| Playback.EndedAfterPlay | components/PlayerContent.tsx:71-77 | the end handler leaves a last play command disagreeing with the stopped flag |
| Listeners.Dispatch | components/PlayerContent.tsx:81-83 | an unsubscribed event changes nothing; a subscribed `ended` stops and rewinds |
| Listeners.Subscribe | components/PlayerContent.tsx:79-84 | with an element bound, all three handlers are subscribed |
| Listeners.UnsubscribeAsWritten | components/PlayerContent.tsx:86-93 | the cleanup only removes handlers, and an `ended` subscription survives it |
| Listeners.UnsubscribeCaptured | components/PlayerContent.tsx:79-93 | the intended cleanup, which keeps the element the effect subscribed to, removes all three handlers from it whenever the effect found an element |
| Listeners.CleanupLeaksEnded | components/PlayerContent.tsx:79-95 | as written, a cleanup that runs with the element still bound leaves the `ended` handler attached, so an `ended` event still invokes `onSongEnd` |
| Listeners.CleanupWithoutElement | components/PlayerContent.tsx:86-93 | when `audioRef` is already cleared at cleanup, the cleanup as written removes nothing, while the intended one still removes all three handlers |
| Listeners.CleanupReleasesAll | components/PlayerContent.tsx:79-95 | with the intended cleanup, mount then unmount leaves nothing subscribed and every event is ignored, whatever `audioRef` holds at cleanup; as written `ended` stays attached either way |

## Findings

| source | as written | input that shows it | evidently intended | confidence | as-written member | corrected member |
|---|---|---|---|---|---|---|
| components/PlayerContent.tsx:86-93 | the effect cleanup removes the `timeupdate` and `loadedmetadata` listeners but not the `ended` listener added at line 83, and it reads `audioRef` at cleanup time rather than the element it subscribed to | mount with an element, then clean up: `{ended}` stays attached when `audioRef` is still set, and all three stay attached when it has been cleared; an `ended` event still invokes `onSongEnd` | the cleanup removes every listener the effect added from the element it added them to | low, not executed | Listeners.UnsubscribeAsWritten, Listeners.CleanupLeaksEnded | Listeners.UnsubscribeCaptured, Listeners.CleanupReleasesAll |

## Left out

- JSX rendering, icons, styling, and the seek-bar/volume slider wiring (components/PlayerContent.tsx:141-213), including `parseFloat` at 189 and the progress ratio at 192: user-interface code with no logic of its own.
- The volume-sync effect (components/PlayerContent.tsx:97-101): React lifecycle; the element's own volume is therefore not part of the model.
- Direct `setVolume` from the slider (line 209): UI wiring.
- The real audio element: the promise returned by `play()`, autoplay rejection, and its clamping of a seek target; it is an abstract record whose `lastCommand` records what was asked of it, and its own progress is an input (`Progress`) that sets any position. Its volume is not kept, as only the left-out volume-sync effect writes it.
- Floating point: NaN (the element's duration before metadata loads), infinities and rounding. Numbers are reals, so `formatTime` is stated for every real and its properties for non-negative ones.
- Clock.FormatTime: `IntToString` writes the exact decimal digits of every integer, while JavaScript writes them exactly only up to 2^53 in magnitude (above that it prints the shortest round-tripping digits padded with zeros, and from 10^21 on it uses exponent form); so the model and the source can differ once the minutes exceed 2^53, that is for times above about 5.4e17 seconds.
- What a handler that fires after the component has unmounted does: React discards the state updates and `audioRef` is cleared, so `Listeners.CleanupLeaksEnded` only states that the `ended` handler stays attached and is still invoked.
- Playback.HandleSeek: the value is not clamped to [0, duration]; the element clamps by itself, which is outside the model, and the display takes the unclamped value in the code anyway.
- The store implementation (hooks/usePlayer is not part of this model): `setId` is modelled as assigning the active id only; `setIds` and `reset` (called from components/Header.tsx:33) are not modelled.
- The React rule that state updates are batched and that handlers see the state of their render: each handler is modelled as one atomic transition on the current state.
- components/Header.tsx, app/layout.tsx, components/PlayButton.tsx, next.config.ts: authentication, data fetching, layout and static markup.
