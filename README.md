# Wedding invitation page: verified model of its logic

The site is a one-page wedding invitation written in React. Almost all of it is markup
and static copy. Three pieces of it have logic, and this project models and proves them
in Dafny. A fourth small transition is modelled too.

- **Countdown** (`countdown.dfy`, module `Countdown`): `calcLeft` turns the time left until
  the ceremony into days, hours, minutes and seconds, clamped at zero. Both instants are
  integer milliseconds passed in as parameters.
- **Asset paths** (`asset_path.dfy`, module `AssetPath`): `img(p)` puts the site's base path
  in front of `p` once every leading `/` of `p` has been removed. The base path is a parameter.
- **Background-music button** (`music.dfy`, module `Music`): the `MusicButton` component
  drives a hidden embedded video player. Its state is `playerRef`, `ready`, `playing` and the
  `pendingPlayRef` latch. A play request that arrives before the player is ready is latched,
  and the ready callback honours it. The class `Music.MusicButton` has one method per
  operation: `PlayFromStart`, `Toggle`, `OnReady`, `OnStateChange`, plus `AttachPlayer` for
  the moment the player is constructed and `Unmount` for the effect cleanup. The player is
  `Music.Player`, a recorder of the calls it receives (seek, play, pause, destroy) that
  reports a state code. Each method is specified by a pure step function on the value
  `Music.Widget` returned by `Model()`. The lemmas about the controller's behaviour are
  stated over these step functions and over runs of events (`Run`).
- **Entering the invitation** (`root.dfy`, module `Root`): `App.EnterInvitation` asks the
  music button to play from the start, then sets `entered`.

JavaScript's `Math.floor(x / y)` and `%` are applied only to non-negative operands here, so
Dafny's Euclidean `/` and `%` give the same results.

## Model

| member | source | states |
|---|---|---|
| `Countdown.CalcLeft` | src/App.jsx:393-405 | every field is non-negative, with hours < 24, minutes < 60 and seconds < 60; `days*86400 + hours*3600 + minutes*60 + seconds` equals the whole seconds in `max(0, target - now)` |
| `Countdown.CalcLeftExpired` | src/App.jsx:396-404 | once `now >= target`, days, hours, minutes and seconds are all 0 |
| `Countdown.BreakdownUnique` | src/App.jsx:398-402 | two in-range breakdowns of the same number of seconds are equal, so the split is unique |
| `Countdown.CalcLeftCharacterized` | src/App.jsx:396-404 | a breakdown is the result of `calcLeft` if and only if it is in range and adds up to the clamped seconds left |
| `Countdown.CalcLeftRoundTrip` | src/App.jsx:396-404 | an in-range breakdown, turned into a target that many seconds ahead (plus under one second), comes back unchanged |
| `Countdown.CalcLeftNonIncreasing` | src/App.jsx:396-398 | as `now` advances, the total seconds shown never increase |
| `Countdown.OneDayBefore` | src/data/invite.js:9 | the ceremony instant seen exactly 24 hours earlier gives `{days: 1, hours: 0, minutes: 0, seconds: 0}` |
| `AssetPath.LeadingSlashes` | src/App.jsx:16 | the length of the leading run of `/`: all those characters are `/` and the next one is not |
| `AssetPath.StripLeadingSlashes` | src/App.jsx:16 | the result is a suffix of the input, what was removed is all `/`, and the result does not start with `/` |
| `AssetPath.Img` | src/App.jsx:16 | the result starts with the base; the rest is a suffix of `p` that does not start with `/`, and what was dropped from `p` is all `/` |
| `AssetPath.StripUnique` | src/App.jsx:16 | for any run of slashes followed by a rest not starting with `/`, stripping gives exactly that rest |
| `AssetPath.ImgCharacterized` | src/App.jsx:16 | `img` of slashes followed by such a rest is the base followed by the rest |
| `AssetPath.ImgIgnoresLeadingSlash` | src/App.jsx:16 | `img("/" + p) == img(p)` |
| `AssetPath.ImgIdempotent` | src/App.jsx:16 | resolving the part after the base again gives the same path |
| `AssetPath.BackgroundAsset` | src/App.jsx:415 | under base `/`, `img("novios.jpg")` is `/novios.jpg` |
| `Music.PlayFromStartLatches` | src/App.jsx:331-336 | with no player or before ready, `playFromStart` sets the latch and changes nothing else: no call reaches the player, `ready` and `playing` keep their values |
| `Music.PlayFromStartWhenReady` | src/App.jsx:331-341 | on a ready player, `playFromStart` issues one seek to the start offset and then one play, and changes no flag, the mount state or the start offset |
| `Music.ReadyHonoursLatch` | src/App.jsx:303-313 | with the latch set, `onReady` sets `ready`, clears the latch and issues exactly one seek then one play; `playing`, the mount state, the start offset and the player's state are unchanged |
| `Music.ReadyWithoutLatch` | src/App.jsx:303-313 | with no latch, `onReady` only sets `ready` and issues no call |
| `Music.ReadyIdempotent` | src/App.jsx:303-313 | a second `onReady` changes nothing, so it never replays |
| `Music.ToggleNoOpUntilReady` | src/App.jsx:343-344 | before ready or without a player, `toggle` changes nothing; in particular it does not latch |
| `Music.ToggleWhenReady` | src/App.jsx:343-351 | on a ready player, `toggle` issues one pause when the player reports state 1, and a seek plus a play otherwise; the latch and `playing` are unchanged |
| `Music.StateChangeTracksReport` | src/App.jsx:315-318 | code 1 sets `playing`, code 2 clears it, any other code keeps it; nothing else changes |
| `Music.PlayingOnlyFromReports` | src/App.jsx:303-351 | `playFromStart`, `toggle` and `onReady` never change `playing` |
| `Music.StepsKeepConsistent` | src/App.jsx:265-351 | a new controller satisfies "ready implies a player" and "a latched request never sits beside a ready player", and every step keeps both: `playFromStart` and `toggle` with or without a player, the state-change callback, attaching, unmounting, and the ready callback and a state change of a constructed player |
| `Music.DeliverConsistent` | src/App.jsx:303-351 | each of the four events on a constructed player keeps the same consistency |
| `Music.RunConsistent` | src/App.jsx:303-351 | on a constructed player, the same consistency holds after any sequence of operations and callbacks |
| `Music.ToggleAfterReport` | src/App.jsx:315-318 | after the player reports a state, `toggle` reads that state: one pause after a report of 1, a seek plus a play otherwise; `playing` follows the report |
| `Music.LatchHonouredOnce` | src/App.jsx:303-318 | after any sequence of callbacks, the player received one seek and one play if a request was latched and a ready callback came, and no call otherwise; the latch stays set exactly when no ready callback came |
| `Music.OnlyPlayRequestLatches` | src/App.jsx:303-351 | a sequence without a play request never sets the latch: `toggle` and the callbacks do not |
| `Music.RunSnoc` | src/App.jsx:303-351 | running a sequence and then one more event is the same as delivering that event after the run |
| `Music.PlayingIsLastReport` | src/App.jsx:315-318 | after any sequence of events, `playing` is the last play (1) or pause (2) report, or its initial value when there was none |
| `Music.EarlyTapPlaysOnReady` | src/App.jsx:288-313 | a play request before the player exists, then construction, then the ready callback: the player receives one seek and one play, and the latch is clear |
| `Music.MusicButton.constructor` | src/App.jsx:265-272 | a new controller is mounted, has no player, and is not ready, playing or latched |
| `Music.MusicButton.AttachPlayer` | src/App.jsx:288-291 | the new player is kept only while the controller is still mounted |
| `Music.MusicButton.PlayFromStart` | src/App.jsx:331-341 | the new state is `PlayFromStartStep` of the old one; the player reference is unchanged |
| `Music.MusicButton.Toggle` | src/App.jsx:343-351 | the new state is `ToggleStep` of the old one; the player reference is unchanged |
| `Music.MusicButton.OnReady` | src/App.jsx:303-313 | the new state is `ReadyStep` of the old one |
| `Music.MusicButton.OnStateChange` | src/App.jsx:315-318 | the new state is `StateChangeStep` of the old one |
| `Music.MusicButton.Unmount` | src/App.jsx:323-328 | the controller is no longer mounted and the player, if there is one, receives one destroy |
| `Root.App.constructor` | src/App.jsx:410-412 | the page starts with `entered` false and the given music-button handle |
| `Root.App.EnterInvitation` | src/App.jsx:417-420 | `entered` becomes true and the music button, when present, has performed `playFromStart` |

## Left out

- Rendering, styling and the presentational components (cards, gallery, lightbox, gift and dress
  modals, time boxes): they hold no logic.
- Loading the player API script and `window.onYouTubeIframeAPIReady`: this is DOM and network
  plumbing. `AttachPlayer` stands for the moment the player object is assigned.
- The player's configuration (video id, size, player variables) and its internal behaviour: the
  player is a recorder of calls with a state code. In a run of events (`Music.Run`) the code changes
  only when the player reports a new state. The class `Music.Player` has no operation that changes
  it, because that change comes from the player itself.
- The `try`/`catch` around `seekTo` and `destroy`, and the optional calls (`seekTo?.`,
  `getPlayerState?.`): seek and destroy always succeed here, and a missing state reads as a code other than 1.
- React's deferred state updates: every state change takes effect at once in the model. In the
  source, `setReady(true)` becomes visible to the `playFromStart` handle only after a re-render.
  A request made between the ready callback and that re-render would be latched and not honoured.
  This window is not modelled.
- A change of `videoId` or `startSeconds` after mounting, which re-runs the effect: the start offset is fixed per controller.
- `Root.App.EnterInvitation`: states the final state only. The order "play request before `entered`"
  is the order of the method's two statements, and nothing in the model observes the state in between.
- Parsing the ISO target date and reading the clock (`new Date(...)`, `Date.now()`): both instants
  are parameters. An unparsable date, which gives `NaN` fields in JavaScript, is not modelled.
- JavaScript numbers are doubles. Millisecond timestamps are exact integers in that range, so `int` is used.
- The once-per-second interval that recomputes the countdown, the intro gate's fade timers, the
  viewport media query, the short-video embed script, the clipboard copy and the random container id:
  these are timers and browser I/O.
- The copy of `img` in src/data/invite.js is the same expression as in src/App.jsx and is covered by `AssetPath.Img`.
