/** The background-music button (`MusicButton` in src/App.jsx): a hidden embedded video
    player driven through `playFromStart` and `toggle`, fed back by the player's
    `onReady` and `onStateChange` callbacks. A play request that arrives before the
    player is ready is latched and honoured by the ready callback. */
module Music {

  datatype Option<T> = None | Some(value: T)

  /** The calls the controller makes on the embedded player. */
  datatype Call = SeekTo(seconds: int, allowSeekAhead: bool) | PlayVideo | PauseVideo | Destroy

  /** Player state codes as the embedded player reports them. */
  const PLAYING: int := 1
  const PAUSED: int := 2

  /** What can be observed of a player: the calls it has received and the state it reports. */
  datatype PlayerView = PlayerView(calls: seq<Call>, state: int)

  /** The controller's state: the start offset it was given, whether it is still mounted,
      `playerRef`, `ready`, `playing` and `pendingPlayRef`. */
  datatype Widget = Widget(start: int, mounted: bool, player: Option<PlayerView>,
                           ready: bool, playing: bool, pendingPlay: bool)

  /** A freshly mounted controller: no player yet, nothing ready, playing or pending. */
  function Initial(start: int): Widget {
    Widget(start, true, None, false, false, false)
  }

  /** Seek to the start offset (allowing seek-ahead), then play. */
  function Restart(p: PlayerView, start: int): PlayerView {
    p.(calls := p.calls + [SeekTo(start, true), PlayVideo])
  }

  /** `playFromStart`: latch the request when there is no player or it is not ready,
      otherwise seek to the start and play. */
  function PlayFromStartStep(w: Widget): Widget {
    if w.player.None? || !w.ready then w.(pendingPlay := true)
    else w.(player := Some(Restart(w.player.value, w.start)))
  }

  /** `toggle`: nothing before the player is ready; otherwise pause when the player
      reports that it is playing and play from the start in any other state. */
  function ToggleStep(w: Widget): Widget {
    if !w.ready || w.player.None? then w
    else if w.player.value.state != PLAYING then PlayFromStartStep(w)
    else w.(player := Some(w.player.value.(calls := w.player.value.calls + [PauseVideo])))
  }

  /** `onReady`: mark the player ready and honour a latched play request, once. The
      callback is only ever delivered by a player that has been constructed. */
  function ReadyStep(w: Widget): Widget
    requires w.player.Some?
  {
    if w.pendingPlay then
      w.(ready := true, pendingPlay := false, player := Some(Restart(w.player.value, w.start)))
    else
      w.(ready := true)
  }

  /** `onStateChange`: code 1 means playing, code 2 paused; other codes are ignored. */
  function StateChangeStep(w: Widget, code: int): Widget {
    if code == PLAYING then w.(playing := true)
    else if code == PAUSED then w.(playing := false)
    else w
  }

  /** The API-loaded continuation: keep the new player unless the controller was unmounted. */
  function AttachStep(w: Widget, p: PlayerView): Widget {
    if w.mounted then w.(player := Some(p)) else w
  }

  /** Cleanup on unmount: stop accepting a player and destroy the one there is. */
  function UnmountStep(w: Widget): Widget {
    if w.player.None? then w.(mounted := false)
    else w.(mounted := false, player := Some(w.player.value.(calls := w.player.value.calls + [Destroy])))
  }

  /** The consistency the controller keeps: readiness needs a player, and a latched
      request never sits beside a ready player. */
  predicate Consistent(w: Widget) {
    (w.ready ==> w.player.Some?) && (w.pendingPlay ==> !w.ready)
  }

  // ---------------------------------------------------------------------------
  // Single-step properties

  /** A play request before the player is ready is latched and touches nothing else. */
  lemma PlayFromStartLatches(w: Widget)
    requires w.player.None? || !w.ready
    ensures PlayFromStartStep(w) == w.(pendingPlay := true)
    ensures PlayFromStartStep(w).player == w.player
  {
  }

  /** A play request on a ready player seeks to the start and plays, exactly once each. */
  lemma PlayFromStartWhenReady(w: Widget)
    requires w.player.Some? && w.ready
    ensures var r := PlayFromStartStep(w);
      r.player.Some? && r.player.value.calls == w.player.value.calls + [SeekTo(w.start, true), PlayVideo] &&
      r.player.value.state == w.player.value.state &&
      r.ready && r.playing == w.playing && r.pendingPlay == w.pendingPlay &&
      r.mounted == w.mounted && r.start == w.start
  {
  }

  /** The ready callback honours a latched request with one seek and one play, and clears it. */
  lemma ReadyHonoursLatch(w: Widget)
    requires w.player.Some? && w.pendingPlay
    ensures var r := ReadyStep(w);
      r.ready && !r.pendingPlay && r.playing == w.playing &&
      r.mounted == w.mounted && r.start == w.start &&
      r.player.Some? && r.player.value.calls == w.player.value.calls + [SeekTo(w.start, true), PlayVideo] &&
      r.player.value.state == w.player.value.state
  {
  }

  /** Without a latched request the ready callback plays nothing. */
  lemma ReadyWithoutLatch(w: Widget)
    requires w.player.Some? && !w.pendingPlay
    ensures ReadyStep(w) == w.(ready := true)
  {
  }

  /** A second ready callback never replays. */
  lemma ReadyIdempotent(w: Widget)
    requires w.player.Some?
    ensures ReadyStep(ReadyStep(w)) == ReadyStep(w)
  {
  }

  /** `toggle` before the player is ready does nothing, in particular it latches nothing. */
  lemma ToggleNoOpUntilReady(w: Widget)
    requires !w.ready || w.player.None?
    ensures ToggleStep(w) == w
  {
  }

  /** `toggle` on a ready player: pause when it reports playing, restart otherwise;
      exactly one of the two, and the latch and `playing` are left alone. */
  lemma ToggleWhenReady(w: Widget)
    requires w.ready && w.player.Some?
    ensures var r := ToggleStep(w);
      r.player.Some? && r.pendingPlay == w.pendingPlay && r.playing == w.playing &&
      r.player.value.calls == w.player.value.calls +
        (if w.player.value.state == PLAYING then [PauseVideo] else [SeekTo(w.start, true), PlayVideo])
  {
  }

  /** `playing` moves only with the player's reports: 1 sets it, 2 clears it, anything else keeps it. */
  lemma StateChangeTracksReport(w: Widget, code: int)
    ensures StateChangeStep(w, code).playing == (if code == PLAYING then true else if code == PAUSED then false else w.playing)
    ensures StateChangeStep(w, code).(playing := w.playing) == w
  {
  }

  /** Neither user operation ever sets `playing` optimistically. */
  lemma PlayingOnlyFromReports(w: Widget)
    ensures PlayFromStartStep(w).playing == w.playing
    ensures ToggleStep(w).playing == w.playing
    ensures w.player.Some? ==> ReadyStep(w).playing == w.playing
  {
  }

  // ---------------------------------------------------------------------------
  // Runs of events on a constructed player

  /** What can happen once the player exists: the two user operations and the two callbacks. */
  datatype Event = PlayRequest | ToggleRequest | Ready | StateChange(code: int)

  predicate IsCallback(e: Event) {
    e.Ready? || e.StateChange?
  }

  /** The player enters the state `code`; from now on `getPlayerState` returns it. */
  function EnterState(w: Widget, code: int): Widget
    requires w.player.Some?
  {
    w.(player := Some(w.player.value.(state := code)))
  }

  /** One event. A state change is the player entering the new state and then reporting
      it through `onStateChange`, so `toggle` afterwards reads the reported code. */
  function Deliver(w: Widget, e: Event): (r: Widget)
    requires w.player.Some?
    ensures r.player.Some? && r.start == w.start
  {
    match e
    case PlayRequest => PlayFromStartStep(w)
    case ToggleRequest => ToggleStep(w)
    case Ready => ReadyStep(w)
    case StateChange(code) => StateChangeStep(EnterState(w, code), code)
  }

  function Run(w: Widget, evs: seq<Event>): (r: Widget)
    requires w.player.Some?
    ensures r.player.Some? && r.start == w.start
    decreases |evs|
  {
    if evs == [] then w else Run(Deliver(w, evs[0]), evs[1..])
  }

  /** Every event keeps the controller consistent. */
  /** A new controller is consistent, and every step keeps it so: the user operations and
      the callbacks, with or without a player, as well as attaching and unmounting. */
  lemma StepsKeepConsistent(w: Widget, start: int, p: PlayerView, code: int)
    ensures Consistent(Initial(start))
    ensures Consistent(w) ==>
      Consistent(PlayFromStartStep(w)) && Consistent(ToggleStep(w)) &&
      Consistent(StateChangeStep(w, code)) && Consistent(AttachStep(w, p)) &&
      Consistent(UnmountStep(w)) &&
      (w.player.Some? ==> Consistent(ReadyStep(w)) && Consistent(EnterState(w, code)))
  {
  }

  lemma DeliverConsistent(w: Widget, e: Event)
    requires w.player.Some? && Consistent(w)
    ensures Consistent(Deliver(w, e))
  {
  }

  lemma {:induction false} RunConsistent(w: Widget, evs: seq<Event>)
    requires w.player.Some? && Consistent(w)
    ensures Consistent(Run(w, evs))
    decreases |evs|
  {
    if evs != [] {
      DeliverConsistent(w, evs[0]);
      RunConsistent(Deliver(w, evs[0]), evs[1..]);
    }
  }

  /** A latched request is honoured exactly once: whatever callbacks follow, the player
      receives one seek and one play if a ready callback came, and nothing otherwise. */
  lemma {:induction false} LatchHonouredOnce(w: Widget, evs: seq<Event>)
    requires w.player.Some?
    requires forall i :: 0 <= i < |evs| ==> IsCallback(evs[i])
    ensures Run(w, evs).player.value.calls ==
      w.player.value.calls + (if w.pendingPlay && Ready in evs then [SeekTo(w.start, true), PlayVideo] else [])
    ensures Run(w, evs).pendingPlay == (w.pendingPlay && Ready !in evs)
    decreases |evs|
  {
    if evs != [] {
      var w' := Deliver(w, evs[0]);
      LatchHonouredOnce(w', evs[1..]);
      assert evs == [evs[0]] + evs[1..];
      assert Ready in evs <==> evs[0] == Ready || Ready in evs[1..];
    }
  }

  /** Only a play request sets the latch: `toggle` and the callbacks never do. */
  lemma {:induction false} OnlyPlayRequestLatches(w: Widget, evs: seq<Event>)
    requires w.player.Some?
    requires PlayRequest !in evs
    ensures Run(w, evs).pendingPlay ==> w.pendingPlay
    decreases |evs|
  {
    if evs != [] {
      assert evs[0] != PlayRequest;
      assert PlayRequest !in evs[1..] by {
        forall i | 0 <= i < |evs[1..]| ensures evs[1..][i] != PlayRequest {
          assert evs[1..][i] == evs[i + 1];
        }
      }
      OnlyPlayRequestLatches(Deliver(w, evs[0]), evs[1..]);
    }
  }

  /** The last play/pause report seen, or `initial` when there is none: read from the end. */
  function LastReport(initial: bool, evs: seq<Event>): bool
    decreases |evs|
  {
    if evs == [] then initial
    else
      var e := evs[|evs| - 1];
      if e.StateChange? && e.code == PLAYING then true
      else if e.StateChange? && e.code == PAUSED then false
      else LastReport(initial, evs[..|evs| - 1])
  }

  lemma {:induction false} RunSnoc(w: Widget, evs: seq<Event>, e: Event)
    requires w.player.Some?
    ensures Run(w, evs + [e]) == Deliver(Run(w, evs), e)
    decreases |evs|
  {
    if evs == [] {
      assert [] + [e] == [e];
    } else {
      assert (evs + [e])[1..] == evs[1..] + [e];
      RunSnoc(Deliver(w, evs[0]), evs[1..], e);
    }
  }

  /** `playing` always equals the player's last play/pause report. */
  lemma {:induction false} PlayingIsLastReport(w: Widget, evs: seq<Event>)
    requires w.player.Some?
    ensures Run(w, evs).playing == LastReport(w.playing, evs)
    decreases |evs|
  {
    if evs != [] {
      var init := evs[..|evs| - 1];
      var e := evs[|evs| - 1];
      assert evs == init + [e];
      RunSnoc(w, init, e);
      PlayingIsLastReport(w, init);
      PlayingOnlyFromReports(Run(w, init));
    }
  }

  /** Once the player has reported that it is playing, `toggle` pauses it: exactly one pause
      and nothing else reaches the player. After a pause report it restarts instead. */
  lemma ToggleAfterReport(w: Widget, code: int)
    requires w.player.Some? && w.ready
    ensures Run(w, [StateChange(code), ToggleRequest]).player.value.calls ==
      w.player.value.calls + (if code == PLAYING then [PauseVideo] else [SeekTo(w.start, true), PlayVideo])
    ensures Run(w, [StateChange(code), ToggleRequest]).playing ==
      (if code == PLAYING then true else if code == PAUSED then false else w.playing)
  {
    var evs := [StateChange(code), ToggleRequest];
    var w1 := Deliver(w, StateChange(code));
    assert evs[1..] == [ToggleRequest] && [ToggleRequest][1..] == [];
    assert Run(w, evs) == Run(w1, [ToggleRequest]) == Run(Deliver(w1, ToggleRequest), []);
  }

  /** The full scenario: the guest taps "enter" before the player exists; the player is
      then constructed and becomes ready, and playback starts from the offset by itself. */
  lemma EarlyTapPlaysOnReady(start: int, p: PlayerView)
    ensures var w := ReadyStep(AttachStep(PlayFromStartStep(Initial(start)), p));
      w.ready && !w.pendingPlay && w.player == Some(Restart(p, start))
  {
  }

  // ---------------------------------------------------------------------------
  // The imperative controller

  /** The embedded player, as far as the controller can see it: it records the calls it
      receives and reports a state code that the environment sets. */
  class Player {
    var calls: seq<Call>
    var state: int

    constructor (state: int)
      ensures calls == [] && this.state == state
    {
      calls := [];
      this.state := state;
    }

    function View(): PlayerView
      reads this
    {
      PlayerView(calls, state)
    }

    method SeekTo(seconds: int, allowSeekAhead: bool)
      modifies this`calls
      ensures calls == old(calls) + [Call.SeekTo(seconds, allowSeekAhead)]
    {
      calls := calls + [Call.SeekTo(seconds, allowSeekAhead)];
    }

    method PlayVideo()
      modifies this`calls
      ensures calls == old(calls) + [Call.PlayVideo]
    {
      calls := calls + [Call.PlayVideo];
    }

    method PauseVideo()
      modifies this`calls
      ensures calls == old(calls) + [Call.PauseVideo]
    {
      calls := calls + [Call.PauseVideo];
    }

    method Destroy()
      modifies this`calls
      ensures calls == old(calls) + [Call.Destroy]
    {
      calls := calls + [Call.Destroy];
    }

    method GetPlayerState() returns (code: int)
      ensures code == state
    {
      code := state;
    }
  }

  class MusicButton {
    const start: int
    var mounted: bool
    var player: Player?
    var ready: bool
    var playing: bool
    var pendingPlay: bool

    /** The controller's state as a value. */
    function Model(): Widget
      reads this, player
    {
      Widget(start, mounted, if player == null then None else Some(player.View()), ready, playing, pendingPlay)
    }

    constructor (start: int)
      ensures Model() == Initial(start)
    {
      this.start := start;
      mounted := true;
      player := null;
      ready := false;
      playing := false;
      pendingPlay := false;
    }

    /** The continuation of the API load: `playerRef.current = new Player(...)` unless unmounted. */
    method AttachPlayer(p: Player)
      modifies this`player
      ensures player == (if old(mounted) then p else old(player))
      ensures Model() == AttachStep(old(Model()), old(p.View()))
    {
      if !mounted {
        return;
      }
      player := p;
    }

    method PlayFromStart()
      modifies this`pendingPlay, player
      ensures player == old(player)
      ensures Model() == PlayFromStartStep(old(Model()))
    {
      if player == null || !ready {
        pendingPlay := true;
        return;
      }
      player.SeekTo(start, true);
      player.PlayVideo();
      assert player.calls == old(player.calls) + [Call.SeekTo(start, true), Call.PlayVideo];
    }

    method Toggle()
      modifies this`pendingPlay, player
      ensures player == old(player)
      ensures Model() == ToggleStep(old(Model()))
    {
      if !ready || player == null {
        return;
      }
      var state := player.GetPlayerState();
      if state != PLAYING {
        PlayFromStart();
      } else {
        player.PauseVideo();
      }
    }

    method OnReady()
      requires player != null
      modifies this`ready, this`pendingPlay, player
      ensures player == old(player)
      ensures Model() == ReadyStep(old(Model()))
    {
      ready := true;
      if pendingPlay {
        pendingPlay := false;
        player.SeekTo(start, true);
        player.PlayVideo();
        assert player.calls == old(player.calls) + [Call.SeekTo(start, true), Call.PlayVideo];
      }
    }

    method OnStateChange(code: int)
      modifies this`playing
      ensures Model() == StateChangeStep(old(Model()), code)
    {
      if code == PLAYING {
        playing := true;
      }
      if code == PAUSED {
        playing := false;
      }
    }

    /** Effect cleanup: forget the pending API continuation and destroy the player. */
    method Unmount()
      modifies this`mounted, player
      ensures player == old(player)
      ensures Model() == UnmountStep(old(Model()))
    {
      mounted := false;
      if player != null {
        player.Destroy();
      }
    }
  }
}
