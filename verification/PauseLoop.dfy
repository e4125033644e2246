/** The pause half of the render loop, with the timers of its playlists
    (src/WallpaperEngine/Application/WallpaperApplication.cpp).

    The clock readings, the pause sensors, the signals and what the playlists meet are arbitrary inputs of a frame. */
module PauseLoop {
  import Playlist

  /** Nanoseconds of pause after which the input is suspended. */
  const INPUT_SUSPEND_AFTER := 3_000_000_000

  datatype Reasons = Reasons(windows: bool, others: bool) {
    predicate Any() {
      windows || others
    }
  }

  datatype Video = NoVideo | Playing | Ended

  datatype ListInput = ListInput(video: Video, answers: Playlist.Answers)

  /** What one call of render() meets: signals that come in before it and just before the hotswap check, the clock at
      its three readings, the pause reasons, and for each playlist the video on its screen and the answers to an
      advance. */
  datatype Frame = Frame(hotswap: bool, lateHotswap: bool, stop: bool, closes: bool, reasons: Reasons,
                         t0: int, t1: int, t2: int, inputs: seq<ListInput>)

  datatype Event = PauseSet(on: bool) | InputSuspended(on: bool) | HotswapTaken

  datatype Entry = Entry(settings: Playlist.Settings, list: Playlist.State)

  datatype State = State(paused: bool, suspended: bool, requested: bool, showFrame: bool, running: bool,
                         pauseStart: int, lists: seq<Entry>, log: seq<Event>)

  // ----- playlists -----

  predicate PlaysToEnd(e: Entry, input: ListInput) {
    (e.settings.videoSequence || e.list.introPlaying) && input.video != NoVideo
  }

  predicate TimerFires(e: Entry, now: int, input: ListInput) {
    e.settings.timer && |e.list.order| > 1 && !PlaysToEnd(e, input) && now >= e.list.nextSwitch
  }

  predicate VideoFires(e: Entry, input: ListInput) {
    e.settings.timer && |e.list.order| > 1 && PlaysToEnd(e, input) && input.video == Ended
  }

  predicate Fires(e: Entry, now: int, input: ListInput) {
    TimerFires(e, now, input) || VideoFires(e, input)
  }

  ghost predicate GoodInput(e: Entry, input: ListInput) {
    Playlist.Valid(e.settings, e.list) && Playlist.Shuffle(e.settings, e.list.order, input.answers.shuffled) &&
    |input.answers.shuffled| == |e.list.order|
  }

  ghost predicate GoodInputs(lists: seq<Entry>, inputs: seq<ListInput>) {
    |inputs| == |lists| && forall k :: 0 <= k < |lists| ==> GoodInput(lists[k], inputs[k])
  }

  /** One playlist in updatePlaylists. */
  ghost function UpdatedList(e: Entry, now: int, input: ListInput): Entry
    requires GoodInput(e, input)
  {
    if Fires(e, now, input) then e.(list := Playlist.Advanced(e.settings, e.list, now, input.answers).0) else e
  }

  ghost function UpdatedLists(lists: seq<Entry>, now: int, inputs: seq<ListInput>): seq<Entry>
    requires GoodInputs(lists, inputs)
  {
    seq(|lists|, k requires 0 <= k < |lists| => UpdatedList(lists[k], now, inputs[k]))
  }

  function Shifted(e: Entry, pause: int): Entry {
    if e.settings.updateOnPause then e else e.(list := e.list.(nextSwitch := e.list.nextSwitch + pause))
  }

  function AllShifted(lists: seq<Entry>, pause: int): (r: seq<Entry>)
    ensures |r| == |lists|
  {
    seq(|lists|, k requires 0 <= k < |lists| => Shifted(lists[k], pause))
  }

  // ----- one frame -----

  function Begun(st: State, f: Frame): State {
    st.(requested := st.requested || f.hotswap, running := st.running && !f.stop)
  }

  predicate StaysPaused(st: State, f: Frame) {
    f.reasons.Any() && !(st.requested && !f.reasons.windows) && st.running
  }

  predicate GetsPaused(st: State, f: Frame) {
    f.reasons.Any() && !st.showFrame && st.running && !f.closes
  }

  /** Whether a frame gets as far as the hotswap check and the playlists. */
  predicate Works(st: State, f: Frame) {
    var b := Begun(st, f);
    if st.paused then !StaysPaused(b, f) else !GetsPaused(b, f)
  }

  function InputHeld(st: State, f: Frame): State {
    if !st.suspended && f.t0 - st.pauseStart >= INPUT_SUSPEND_AFTER then
      st.(suspended := true, log := st.log + [InputSuspended(true)])
    else st
  }

  function Resumed(st: State, f: Frame): State {
    st.(showFrame := st.requested && !f.reasons.windows, paused := false, suspended := false,
        lists := AllShifted(st.lists, f.t1 - st.pauseStart),
        log := st.log + [PauseSet(false)] + if st.suspended then [InputSuspended(false)] else [])
  }

  /** The state just before the hotswap check. */
  function Ready(st: State, f: Frame): State {
    var b := Begun(st, f);
    if st.paused then Resumed(InputHeld(b, f), f)
    else b.(running := b.running && !f.closes, showFrame := false)
  }

  function HotswapChecked(st: State, f: Frame): State {
    if st.requested || f.lateHotswap then st.(requested := false, log := st.log + [HotswapTaken]) else st
  }

  ghost predicate GoodFrame(st: State, f: Frame) {
    Works(st, f) ==> GoodInputs(Ready(st, f).lists, f.inputs)
  }

  ghost function Rendered(st: State, f: Frame): State
    requires GoodFrame(st, f)
  {
    if Works(st, f) then
      var ready := Ready(st, f);
      HotswapChecked(ready, f).(lists := UpdatedLists(ready.lists, f.t2, f.inputs))
    else if st.paused then InputHeld(Begun(st, f), f)
    else Begun(st, f).(paused := true, pauseStart := f.t1, log := st.log + [PauseSet(true)])
  }

  class RenderLoop {
    var isPaused: bool
    var inputSuspended: bool
    var hotswapRequested: bool
    var showFrameWhilePaused: bool
    var keepRunning: bool
    var pauseStart: int
    const playlists: seq<Playlist.ActivePlaylist>
    var log: seq<Event>

    ghost function Lists(): (r: seq<Entry>)
      reads playlists
      ensures |r| == |playlists|
    {
      seq(|playlists|, k requires 0 <= k < |playlists| reads playlists =>
        Entry(playlists[k].settings, playlists[k].Value()))
    }

    ghost function Value(): State
      reads this, playlists
    {
      State(isPaused, inputSuspended, hotswapRequested, showFrameWhilePaused, keepRunning, pauseStart, Lists(), log)
    }

    ghost predicate Distinct() {
      forall i, j :: 0 <= i < j < |playlists| ==> playlists[i] != playlists[j]
    }

    constructor (playlists: seq<Playlist.ActivePlaylist>)
      ensures this.playlists == playlists && !isPaused && !inputSuspended && log == []
      ensures !hotswapRequested && !showFrameWhilePaused && keepRunning
    {
      this.playlists := playlists;
      isPaused, inputSuspended, hotswapRequested, showFrameWhilePaused, keepRunning := false, false, false, false, true;
      pauseStart, log := 0, [];
    }

    /** The timers of the playlists stand still while the loop is paused. */
    method ShiftPlaylists(pause: int)
      requires Distinct()
      modifies playlists
      ensures Lists() == AllShifted(old(Lists()), pause)
    {
      var i := 0;
      while i < |playlists|
        invariant 0 <= i <= |playlists|
        invariant forall k :: 0 <= k < i ==>
                    Entry(playlists[k].settings, playlists[k].Value()) == Shifted(old(Lists()[k]), pause)
        invariant forall k :: i <= k < |playlists| ==> playlists[k].Value() == old(playlists[k].Value())
      {
        var playlist := playlists[i];
        if !playlist.settings.updateOnPause {
          playlist.nextSwitch := playlist.nextSwitch + pause;
        }
        i := i + 1;
      }
    }

    method UpdatePlaylists(now: int, inputs: seq<ListInput>)
      requires Distinct() && GoodInputs(Lists(), inputs)
      modifies playlists
      ensures Lists() == UpdatedLists(old(Lists()), now, inputs)
    {
      hide Playlist.Advanced, Playlist.Valid, Playlist.Shuffle;
      ghost var was := Lists();
      var i := 0;
      while i < |playlists|
        invariant 0 <= i <= |playlists|
        invariant forall k :: 0 <= k < i ==>
                    Entry(playlists[k].settings, playlists[k].Value()) == UpdatedList(was[k], now, inputs[k])
        invariant forall k :: i <= k < |playlists| ==> Entry(playlists[k].settings, playlists[k].Value()) == was[k]
      {
        assert GoodInput(was[i], inputs[i]);
        UpdatePlaylist(playlists[i], now, inputs[i]);
        i := i + 1;
      }
    }

    method UpdatePlaylist(playlist: Playlist.ActivePlaylist, now: int, input: ListInput)
      requires GoodInput(Entry(playlist.settings, playlist.Value()), input)
      modifies playlist
      ensures Entry(playlist.settings, playlist.Value()) ==
              UpdatedList(old(Entry(playlist.settings, playlist.Value())), now, input)
    {
      hide Playlist.Advanced;
      if !playlist.settings.timer || |playlist.order| <= 1 {
        return;
      }
      if playlist.settings.videoSequence || playlist.introPlaying {
        if input.video != NoVideo {
          if input.video == Ended {
            var _ := playlist.Advance(now, input.answers);
          }
          return;
        }
      }
      if now < playlist.nextSwitch {
        return;
      }
      var _ := playlist.Advance(now, input.answers);
    }

    /** The input is suspended a while after the pause began. */
    method HoldInput(f: Frame)
      modifies `inputSuspended, `log
      ensures Value() == InputHeld(old(Value()), f)
    {
      if !inputSuspended && f.t0 - pauseStart >= INPUT_SUSPEND_AFTER {
        log := log + [InputSuspended(true)];
        inputSuspended := true;
      }
    }

    /** A turn of the paused loop, up to the decision to go on. */
    method PausedTurn(f: Frame) returns (stays: bool)
      requires Distinct() && isPaused
      modifies this, playlists
      ensures stays <==> StaysPaused(InputHeld(old(Value()), f), f)
      ensures Value() == if stays then InputHeld(old(Value()), f) else Resumed(InputHeld(old(Value()), f), f)
    {
      hide AllShifted, InputHeld, Lists;
      HoldInput(f);
      ghost var held := Value();
      var takeHotswap := hotswapRequested && !f.reasons.windows;
      if f.reasons.Any() && !takeHotswap && keepRunning {
        return true;
      }
      showFrameWhilePaused := takeHotswap;
      log := log + [PauseSet(false)];
      ShiftPlaylists(f.t1 - pauseStart);
      if inputSuspended {
        log := log + [InputSuspended(false)];
        inputSuspended := false;
      }
      isPaused := false;
      return false;
    }

    /** A turn of the running loop, up to the decision to go on. */
    method RunningTurn(f: Frame) returns (stops: bool)
      requires !isPaused
      modifies this
      ensures var st := old(Value());
              (stops <==> GetsPaused(st, f)) &&
              Value() == if stops then st.(paused := true, pauseStart := f.t1, log := st.log + [PauseSet(true)])
                         else st.(running := st.running && !f.closes, showFrame := false)
    {
      if f.closes {
        keepRunning := false;
      }
      if f.reasons.Any() && !showFrameWhilePaused && keepRunning {
        isPaused := true;
        pauseStart := f.t1;
        log := log + [PauseSet(true)];
        return true;
      }
      showFrameWhilePaused := false;
      return false;
    }

    /** render, as far as pausing goes. */
    method Render(f: Frame)
      requires Distinct() && GoodFrame(Value(), f)
      modifies this, playlists
      ensures Value() == Rendered(old(Value()), f)
    {
      hide GoodInputs, UpdatedLists, Resumed, InputHeld, Lists, HotswapChecked;
      ghost var st := Value();
      hotswapRequested := hotswapRequested || f.hotswap;
      keepRunning := keepRunning && !f.stop;
      assert Value() == Begun(st, f);
      var done: bool;
      if isPaused {
        InputHeldSignals(Begun(st, f), f);
        done := PausedTurn(f);
      } else {
        done := RunningTurn(f);
      }
      if done {
        return;
      }
      assert Works(st, f) && Value() == Ready(st, f);
      hide Works, Ready, Begun;
      Work(f);
    }

    method Work(f: Frame)
      requires Distinct() && GoodInputs(Lists(), f.inputs)
      modifies playlists, `hotswapRequested, `log
      ensures Value() == HotswapChecked(old(Value()), f).(lists := UpdatedLists(old(Lists()), f.t2, f.inputs))
    {
      hide GoodInputs, UpdatedLists, Lists;
      CheckHotswapRequest(f.lateHotswap);
      UpdatePlaylists(f.t2, f.inputs);
    }

    method CheckHotswapRequest(late: bool)
      modifies `hotswapRequested, `log
      ensures !hotswapRequested
      ensures log == if old(hotswapRequested) || late then old(log) + [HotswapTaken] else old(log)
    {
      hotswapRequested := hotswapRequested || late;
      if !hotswapRequested {
        return;
      }
      hotswapRequested := false;
      log := log + [HotswapTaken];
    }
  }

  lemma InputHeldSignals(st: State, f: Frame)
    ensures StaysPaused(InputHeld(st, f), f) <==> StaysPaused(st, f)
  {
  }

  // ----- pausing and input over whole runs -----

  ghost predicate Run(states: seq<State>, frames: seq<Frame>) {
    |states| == |frames| + 1 && forall i :: 0 <= i < |frames| ==> Step(states[i], frames[i], states[i + 1])
  }

  ghost predicate Step(st: State, f: Frame, next: State) {
    GoodFrame(st, f) && next == Rendered(st, f)
  }

  /** The setPause calls, or the calls that suspend the input. */
  function Calls(log: seq<Event>, input: bool): seq<bool> {
    if log == [] then []
    else
      var calls := Calls(log[..|log| - 1], input);
      match log[|log| - 1]
      case PauseSet(on) => if input then calls else calls + [on]
      case InputSuspended(on) => if input then calls + [on] else calls
      case HotswapTaken => calls
  }

  /** true, false, true, ... up to `last`. */
  predicate Alternates(calls: seq<bool>, last: bool) {
    if calls == [] then !last
    else calls[|calls| - 1] == last && Alternates(calls[..|calls| - 1], !last)
  }

  lemma Called(log: seq<Event>, e: Event, input: bool)
    ensures Calls(log + [e], input) ==
            Calls(log, input) + match e
                                case PauseSet(on) => if input then [] else [on]
                                case InputSuspended(on) => if input then [on] else []
                                case HotswapTaken => []
  {
    assert (log + [e])[..|log|] == log;
  }

  lemma Alternated(calls: seq<bool>, last: bool)
    requires Alternates(calls, !last)
    ensures Alternates(calls + [last], last)
  {
    assert (calls + [last])[..|calls|] == calls;
  }

  /** The calls so far alternate, starting with true and ending with the present state; suspended input means paused. */
  ghost predicate Sound(st: State) {
    Alternates(Calls(st.log, false), st.paused) && Alternates(Calls(st.log, true), st.suspended) &&
    (st.suspended ==> st.paused)
  }

  lemma InputHeldSound(st: State, f: Frame)
    requires Sound(st) && st.paused
    ensures Sound(InputHeld(st, f))
  {
    hide Alternates, Calls;
    Called(st.log, InputSuspended(true), false);
    Called(st.log, InputSuspended(true), true);
    assert Calls(st.log, false) + [] == Calls(st.log, false);
    if !st.suspended {
      Alternated(Calls(st.log, true), true);
    }
  }

  lemma ResumedSound(st: State, f: Frame)
    requires Sound(st) && st.paused
    ensures Sound(Resumed(st, f))
  {
    hide Alternates, Calls, AllShifted;
    var log := st.log + [PauseSet(false)];
    Called(st.log, PauseSet(false), false);
    Called(st.log, PauseSet(false), true);
    Called(log, InputSuspended(false), false);
    Called(log, InputSuspended(false), true);
    assert Calls(log, true) == Calls(st.log, true);
    Alternated(Calls(st.log, false), false);
    if st.suspended {
      Alternated(Calls(st.log, true), false);
      assert Calls(log + [InputSuspended(false)], false) == Calls(log, false);
    } else {
      assert log + [] == log;
    }
  }

  lemma PausedSound(st: State, start: int)
    requires Sound(st) && !st.paused
    ensures Sound(st.(paused := true, pauseStart := start, log := st.log + [PauseSet(true)]))
  {
    hide Alternates, Calls;
    Called(st.log, PauseSet(true), false);
    Called(st.log, PauseSet(true), true);
    assert Calls(st.log, true) + [] == Calls(st.log, true);
    Alternated(Calls(st.log, false), true);
  }

  lemma CheckedSound(st: State, f: Frame)
    requires Sound(st)
    ensures Sound(HotswapChecked(st, f))
  {
    hide Alternates, Calls;
    Called(st.log, HotswapTaken, false);
    Called(st.log, HotswapTaken, true);
    assert Calls(st.log, true) + [] == Calls(st.log, true) && Calls(st.log, false) + [] == Calls(st.log, false);
  }

  lemma StepSound(st: State, f: Frame, next: State)
    requires Sound(st) && Step(st, f, next)
    ensures Sound(next)
  {
    hide Resumed, InputHeld, UpdatedLists, GoodInputs;
    var b := Begun(st, f);
    assert Sound(b);
    if st.paused {
      InputHeldSound(b, f);
      HeldFlags(b, f);
      ResumedSound(InputHeld(b, f), f);
    } else if !Works(st, f) {
      PausedSound(b, f.t1);
    }
    if Works(st, f) {
      assert Sound(Ready(st, f));
      CheckedSound(Ready(st, f), f);
    }
  }

  lemma HeldFlags(st: State, f: Frame)
    ensures InputHeld(st, f).paused == st.paused
  {
  }

  /** Over any run setPause(true) and setPause(false) alternate, so do suspending and resuming the input, and the input
      is only ever suspended while the loop is paused. */
  lemma {:induction false} RunSound(states: seq<State>, frames: seq<Frame>, k: nat)
    requires Run(states, frames) && Sound(states[0]) && k <= |frames|
    ensures Sound(states[k])
  {
    hide Sound, Step;
    if k > 0 {
      RunSound(states, frames, k - 1);
      assert Step(states[k - 1], frames[k - 1], states[k]);
      StepSound(states[k - 1], frames[k - 1], states[k]);
    }
  }

  /** The input is suspended only after a pause of three seconds. */
  lemma SuspendedAfterDelay(st: State, f: Frame, next: State)
    requires Step(st, f, next) && next.suspended && !st.suspended
    ensures st.paused && next.paused && f.t0 - st.pauseStart >= INPUT_SUSPEND_AFTER
  {
    hide UpdatedLists, GoodInputs;
  }

  // ----- when the loop is paused -----

  /** A paused loop stays paused exactly while there is a reason, it still runs, and no hotswap that has been asked for
      can be taken; a running one pauses exactly for a reason, unless it is the frame a hotswap let through or the loop
      is stopping. */
  lemma PausedIff(st: State, f: Frame, next: State)
    requires Step(st, f, next)
    ensures st.paused ==>
              (next.paused <==>
               (f.reasons.windows || f.reasons.others) && st.running && !f.stop &&
               !((st.requested || f.hotswap) && !f.reasons.windows))
    ensures !st.paused ==>
              (next.paused <==>
               (f.reasons.windows || f.reasons.others) && !st.showFrame && st.running && !f.stop && !f.closes)
  {
    hide UpdatedLists, GoodInputs, AllShifted;
  }

  /** The other flags after a frame: which frame is let through to show a new wallpaper, when the input is suspended,
      whether the loop goes on, and since when it is paused. */
  lemma FlagsAfter(st: State, f: Frame, next: State)
    requires Step(st, f, next)
    ensures next.running <==> st.running && !f.stop && (st.paused || !f.closes)
    ensures next.showFrame <==>
            if next.paused then st.showFrame else st.paused && (st.requested || f.hotswap) && !f.reasons.windows
    ensures next.suspended <==>
            if st.paused then next.paused && (st.suspended || f.t0 - st.pauseStart >= 3_000_000_000) else st.suspended
    ensures next.pauseStart == if next.paused && !st.paused then f.t1 else st.pauseStart
    ensures next.requested <==> next.paused && (st.requested || f.hotswap)
  {
    hide UpdatedLists, GoodInputs, AllShifted;
  }

  /** What a frame of a paused loop calls, in order: a pause that has lasted three seconds suspends the input; resuming
      ends the pause before the input's; a hotswap comes last. */
  lemma CallsOfPaused(st: State, f: Frame, next: State)
    requires Step(st, f, next) && st.paused
    ensures var late := !st.suspended && f.t0 - st.pauseStart >= 3_000_000_000;
            var held := st.log + if late then [InputSuspended(true)] else [];
            next.log == if next.paused then held
                        else held + ([PauseSet(false)] + if st.suspended || late then [InputSuspended(false)] else [])
                             + if st.requested || f.hotswap || f.lateHotswap then [HotswapTaken] else []
  {
    hide UpdatedLists, GoodInputs, AllShifted;
    HeldLog(Begun(st, f), f);
    ResumedLog(InputHeld(Begun(st, f), f), f);
    PauseFlags(st, f, next);
    hide InputHeld, Resumed;
    if Works(st, f) {
      var log := Ready(st, f).log;
      assert log + [] == log;
    }
  }

  lemma HeldLog(st: State, f: Frame)
    ensures var late := !st.suspended && f.t0 - st.pauseStart >= 3_000_000_000;
            var held := InputHeld(st, f);
            held.log == (st.log + if late then [InputSuspended(true)] else []) &&
            held.suspended == (st.suspended || late)
            && held.requested == st.requested
  {
  }

  lemma ResumedLog(st: State, f: Frame)
    ensures Resumed(st, f).log
         == st.log + ([PauseSet(false)] + if st.suspended then [InputSuspended(false)] else [])
    ensures Resumed(st, f).requested == st.requested
  {
    var ends := if st.suspended then [InputSuspended(false)] else [];
    assert st.log + [PauseSet(false)] + ends == st.log + ([PauseSet(false)] + ends);
  }

  /** What a frame of a running loop calls: it pauses, or it takes a hotswap that has been asked for. */
  lemma CallsOfRunning(st: State, f: Frame, next: State)
    requires Step(st, f, next) && !st.paused
    ensures next.log == st.log + if next.paused then [PauseSet(true)]
                                 else if st.requested || f.hotswap || f.lateHotswap then [HotswapTaken]
                                 else []
  {
    hide UpdatedLists, GoodInputs, AllShifted;
  }

  /** No reason, no pause: after a frame that meets no reason to pause the loop is running, whatever came before. */
  lemma NoReasonNoPause(states: seq<State>, frames: seq<Frame>, i: nat)
    requires Run(states, frames) && i < |frames| && !frames[i].reasons.windows && !frames[i].reasons.others
    ensures !states[i + 1].paused
  {
    hide Step;
    assert Step(states[i], frames[i], states[i + 1]);
    PausedIff(states[i], frames[i], states[i + 1]);
  }

  /** A pause lasts as long as its reasons: with a reason, no stop and no hotswap in each of the frames from i to j the
      loop is still in the pause it was in. */
  lemma {:induction false} PauseLasts(states: seq<State>, frames: seq<Frame>, i: nat, j: nat)
    requires Run(states, frames) && i <= j <= |frames| && states[i].paused && states[i].running && !states[i].requested
    requires forall m :: i <= m < j ==>
               (frames[m].reasons.windows || frames[m].reasons.others) && !frames[m].stop && !frames[m].hotswap
    ensures states[j].paused && states[j].running && !states[j].requested
    ensures states[j].pauseStart == states[i].pauseStart
  {
    hide Step;
    if i < j {
      var m := j - 1;
      PauseLasts(states, frames, i, m);
      assert Step(states[m], frames[m], states[j]);
      PausedIff(states[m], frames[m], states[j]);
      FlagsAfter(states[m], frames[m], states[j]);
    }
  }

  // ----- pending hotswaps -----

  function TakenIn(log: seq<Event>): nat {
    multiset(log)[HotswapTaken]
  }

  predicate Pending(st: State, f: Frame) {
    st.requested || f.hotswap || (Works(st, f) && f.lateHotswap)
  }

  predicate Runs(st: State, f: Frame) {
    st.running && !f.stop && (st.paused || !f.closes)
  }

  /** A frame takes a pending hotswap, once, or leaves it pending; it takes it exactly if it is told to stop, or sees no
      window pause while paused, or no pause reason at all or the frame after an earlier hotswap while running. */
  lemma TakenIff(st: State, f: Frame, next: State)
    requires Step(st, f, next)
    ensures TakenIn(next.log) == TakenIn(st.log) + if Pending(st, f) && !next.requested then 1 else 0
    ensures next.requested ==> Pending(st, f)
    ensures Pending(st, f) ==>
              (!next.requested <==>
               !Runs(st, f) || if st.paused then !f.reasons.windows else !f.reasons.Any() || st.showFrame)
  {
    hide UpdatedLists, GoodInputs, AllShifted, TakenIn;
    var b := Begun(st, f);
    if st.paused {
      TakenMore(b.log, InputSuspended(true));
      var held := InputHeld(b, f);
      assert TakenIn(held.log) == TakenIn(st.log);
      if Works(st, f) {
        TakenMore(held.log, PauseSet(false));
        TakenMore(held.log + [PauseSet(false)], InputSuspended(false));
        assert held.log + [PauseSet(false)] + [] == held.log + [PauseSet(false)];
      }
    } else {
      TakenMore(st.log, PauseSet(true));
    }
    TakenMore(Ready(st, f).log, HotswapTaken);
  }

  lemma TakenMore(log: seq<Event>, e: Event)
    ensures TakenIn(log + [e]) == TakenIn(log) + if e == HotswapTaken then 1 else 0
  {
  }

  /** During a window pause a pending hotswap is taken if and only if the loop is stopping or this is the frame that an
      earlier hotswap let through. */
  lemma TakenInWindowPauseIff(st: State, f: Frame, next: State)
    requires Step(st, f, next) && f.reasons.windows && Pending(st, f)
    ensures TakenIn(next.log) == TakenIn(st.log) + 1 <==> !Runs(st, f) || (!st.paused && st.showFrame)
  {
    TakenIff(st, f, next);
    hide Step;
  }

  /** A pending hotswap is never lost: until one is taken, it stays pending. */
  lemma {:induction false} PendingStays(states: seq<State>, frames: seq<Frame>, i: nat, j: nat)
    requires Run(states, frames) && i <= j <= |frames| && states[i].requested
    requires TakenIn(states[j].log) == TakenIn(states[i].log)
    ensures states[j].requested
  {
    hide Step;
    if i < j {
      var m := j - 1;
      assert Step(states[m], frames[m], states[j]);
      TakenIff(states[m], frames[m], states[j]);
      TakenGrows(states, frames, i, m);
      PendingStays(states, frames, i, m);
    }
  }

  lemma {:induction false} TakenGrows(states: seq<State>, frames: seq<Frame>, i: nat, j: nat)
    requires Run(states, frames) && i <= j <= |frames|
    ensures TakenIn(states[i].log) <= TakenIn(states[j].log)
  {
    hide Step;
    if i < j {
      var m := j - 1;
      assert Step(states[m], frames[m], states[j]);
      TakenIff(states[m], frames[m], states[j]);
      TakenGrows(states, frames, i, m);
    }
  }

  /** Three frames: a battery pause, a hotswap that it lets through, and a second one taken with a window pause on. */
  lemma WindowPauseExample()
    ensures var start := State(false, false, false, false, true, 0, [], []);
            var battery := Frame(false, false, false, false, Reasons(false, true), 1, 2, 3, []);
            var swap := Frame(true, false, false, false, Reasons(false, true), 4, 5, 6, []);
            var window := Frame(true, false, false, false, Reasons(true, false), 7, 8, 9, []);
            var paused := Rendered(start, battery);
            var shown := Rendered(paused, swap);
            paused.paused && !shown.paused && TakenIn(shown.log) == 1 &&
            TakenIn(Rendered(shown, window).log) == 2 && Rendered(shown, window).running
  {
    var start := State(false, false, false, false, true, 0, [], []);
    var battery := Frame(false, false, false, false, Reasons(false, true), 1, 2, 3, []);
    var swap := Frame(true, false, false, false, Reasons(false, true), 4, 5, 6, []);
    var window := Frame(true, false, false, false, Reasons(true, false), 7, 8, 9, []);
    var paused := Rendered(start, battery);
    var shown := Rendered(paused, swap);
    TakenIff(start, battery, paused);
    TakenIff(paused, swap, shown);
    TakenIff(shown, window, Rendered(shown, window));
  }

  // ----- the timers of the playlists -----

  /** The pause that ends in a frame, if one does. */
  function PauseEnded(st: State, f: Frame): int {
    if st.paused && Works(st, f) then f.t1 - st.pauseStart else 0
  }

  /** The time spent paused, over the pauses that end in frames i to j - 1. */
  function PausedTime(states: seq<State>, frames: seq<Frame>, i: nat, j: nat): int
    requires i <= j <= |frames| && |states| == |frames| + 1
  {
    if i == j then 0 else PausedTime(states, frames, i, j - 1) + PauseEnded(states[j - 1], frames[j - 1])
  }

  predicate Switches(st: State, f: Frame, k: nat) {
    Works(st, f) && k < |Ready(st, f).lists| && k < |f.inputs| && Fires(Ready(st, f).lists[k], f.t2, f.inputs[k])
  }

  predicate SwitchesOnTimer(st: State, f: Frame, k: nat) {
    Switches(st, f, k) && TimerFires(Ready(st, f).lists[k], f.t2, f.inputs[k])
  }

  function Deadline(st: State, k: nat): int
    requires k < |st.lists|
  {
    st.lists[k].list.nextSwitch
  }

  function Counted(e: Entry, pause: int): int {
    if e.settings.updateOnPause then 0 else pause
  }

  lemma ReadyDeadline(st: State, f: Frame, k: nat)
    requires Works(st, f) && k < |st.lists|
    ensures |Ready(st, f).lists| == |st.lists| && Ready(st, f).lists[k].settings == st.lists[k].settings
    ensures Deadline(Ready(st, f), k) == Deadline(st, k) + Counted(st.lists[k], PauseEnded(st, f))
  {
  }

  lemma SwitchSets(e: Entry, now: int, input: ListInput)
    requires GoodInput(e, input) && Fires(e, now, input)
    ensures UpdatedList(e, now, input).settings == e.settings
    ensures UpdatedList(e, now, input).list.nextSwitch == now + e.settings.Delay()
  {
    hide Playlist.Valid, Playlist.Shuffle, Playlist.Candidate, Playlist.MovedOn;
  }

  /** What one frame does to the deadline of a playlist. */
  lemma DeadlineStep(st: State, f: Frame, next: State, k: nat)
    requires Step(st, f, next) && k < |st.lists|
    ensures |next.lists| == |st.lists| && next.lists[k].settings == st.lists[k].settings
    ensures Deadline(next, k) ==
            if Switches(st, f, k) then f.t2 + st.lists[k].settings.Delay()
            else Deadline(st, k) + Counted(st.lists[k], PauseEnded(st, f))
    ensures SwitchesOnTimer(st, f, k) ==> f.t2 >= Deadline(st, k) + Counted(st.lists[k], PauseEnded(st, f))
  {
    if Works(st, f) {
      ReadyDeadline(st, f, k);
      hide Ready, Works;
      var e, input := Ready(st, f).lists[k], f.inputs[k];
      assert GoodInput(e, input);
      hide GoodInput, Fires;
      assert next.lists[k] == UpdatedList(e, f.t2, input);
      if Fires(e, f.t2, input) {
        SwitchSets(e, f.t2, input);
      }
    }
  }

  /** A playlist with a timer and at least two items switches in a frame exactly if the frame is not spent pausing and
      the playlist is due: when its video ends, if it plays videos to the end and there is one, and otherwise when the
      deadline has come, put off by a pause that ends here unless the playlist updates on pause. If it switches it makes
      one advance at the frame's time; if not, only the deadline has moved. */
  lemma DueListsSwitch(st: State, f: Frame, next: State, k: nat)
    requires Step(st, f, next) && k < |st.lists|
    ensures |next.lists| == |st.lists| && next.lists[k].settings == st.lists[k].settings
    ensures next.paused ==> next.lists[k] == st.lists[k]
    ensures !next.paused ==>
              k < |f.inputs| &&
              var s, list, after, input := st.lists[k].settings, st.lists[k].list, next.lists[k].list, f.inputs[k];
              var due := list.nextSwitch + if st.paused && !s.updateOnPause then f.t1 - st.pauseStart else 0;
              var waits := (s.videoSequence || list.introPlaying) && input.video != NoVideo;
              if s.timer && |list.order| > 1 && (if waits then input.video == Ended else f.t2 >= due) then
                (exists choice ::
                   Playlist.Step(s, list.(nextSwitch := due), Playlist.Tick(f.t2, input.answers), after, choice))
              else after == list.(nextSwitch := due)
  {
    PauseFlags(st, f, next);
    if Works(st, f) {
      ReadyList(st, f, k);
      hide Ready, Works, Begun;
      var e, input := Ready(st, f).lists[k], f.inputs[k];
      assert GoodInput(e, input);
      assert next.lists[k] == UpdatedList(e, f.t2, input);
      if Fires(e, f.t2, input) {
        hide Playlist.Advanced;
        var choice := Playlist.Advanced(e.settings, e.list, f.t2, input.answers).1;
        assert Playlist.Step(e.settings, e.list, Playlist.Tick(f.t2, input.answers), next.lists[k].list, choice);
      }
    } else {
      hide UpdatedLists, GoodInputs, AllShifted;
    }
  }

  /** The same condition for the switches that the waiting times below speak of. */
  lemma SwitchesIff(st: State, f: Frame, next: State, k: nat)
    requires Step(st, f, next) && k < |st.lists|
    ensures !next.paused ==> k < |f.inputs|
    ensures !next.paused ==>
              var s, list, input := st.lists[k].settings, st.lists[k].list, f.inputs[k];
              var due := list.nextSwitch + if st.paused && !s.updateOnPause then f.t1 - st.pauseStart else 0;
              var waits := (s.videoSequence || list.introPlaying) && input.video != NoVideo;
              (SwitchesOnTimer(st, f, k) <==> s.timer && |list.order| > 1 && !waits && f.t2 >= due) &&
              (Switches(st, f, k) <==>
               SwitchesOnTimer(st, f, k) || (s.timer && |list.order| > 1 && waits && input.video == Ended))
    ensures next.paused ==> !Switches(st, f, k) && !SwitchesOnTimer(st, f, k)
  {
    PauseFlags(st, f, next);
    if Works(st, f) {
      ReadyList(st, f, k);
      hide Ready, Works, Begun;
    }
  }

  lemma ReadyList(st: State, f: Frame, k: nat)
    requires Works(st, f) && k < |st.lists|
    ensures var shift := if st.paused && !st.lists[k].settings.updateOnPause then f.t1 - st.pauseStart else 0;
            |Ready(st, f).lists| == |st.lists| &&
            Ready(st, f).lists[k]
            == st.lists[k].(list := st.lists[k].list.(nextSwitch := st.lists[k].list.nextSwitch + shift))
  {
  }

  /** Without a switch a deadline moves by the time spent paused, unless the playlist updates on pause. */
  lemma {:induction false} DeadlineKept(states: seq<State>, frames: seq<Frame>, i: nat, j: nat, k: nat)
    requires Run(states, frames) && i <= j <= |frames| && k < |states[i].lists|
    requires forall m :: i <= m < j ==> !Switches(states[m], frames[m], k)
    ensures |states[j].lists| == |states[i].lists| && states[j].lists[k].settings == states[i].lists[k].settings
    ensures Deadline(states[j], k)
         == Deadline(states[i], k) + Counted(states[i].lists[k], PausedTime(states, frames, i, j))
  {
    hide Step, Switches;
    if i < j {
      var m := j - 1;
      DeadlineKept(states, frames, i, m, k);
      assert Step(states[m], frames[m], states[j]);
      DeadlineStep(states[m], frames[m], states[j], k);
    }
  }

  /** A timer-driven switch comes no earlier than the deadline, moved by the pauses since, and there are no others. */
  lemma TimerMeetsDeadline(states: seq<State>, frames: seq<Frame>, i: nat, j: nat, k: nat)
    requires Run(states, frames) && i <= j < |frames| && k < |states[i].lists|
    requires SwitchesOnTimer(states[j], frames[j], k)
    requires forall m :: i <= m < j ==> !Switches(states[m], frames[m], k)
    ensures frames[j].t2 >=
            Deadline(states[i], k) + Counted(states[i].lists[k], PausedTime(states, frames, i, j + 1))
  {
    hide Step, Switches, SwitchesOnTimer;
    DeadlineKept(states, frames, i, j, k);
    assert Step(states[j], frames[j], states[j + 1]);
    DeadlineStep(states[j], frames[j], states[j + 1], k);
  }

  /** At least max(1, delay) minutes of unpaused time pass between a switch of a playlist and its next timer-driven
      one, over any run of pauses; for one that updates on pause the time spent paused counts as well. */
  lemma TimerWaits(states: seq<State>, frames: seq<Frame>, i: nat, j: nat, k: nat)
    requires Run(states, frames) && i < j < |frames| && k < |states[i].lists|
    requires Switches(states[i], frames[i], k) && SwitchesOnTimer(states[j], frames[j], k)
    requires forall m :: i < m < j ==> !Switches(states[m], frames[m], k)
    ensures var unpaused := frames[j].t2 - frames[i].t2
                            - Counted(states[i].lists[k], PausedTime(states, frames, i + 1, j + 1));
            unpaused >= states[i].lists[k].settings.delayMinutes * 60_000_000_000 && unpaused >= 60_000_000_000
  {
    hide Step, Switches, SwitchesOnTimer;
    Playlist.DelayInMinutes(states[i].lists[k].settings);
    assert Step(states[i], frames[i], states[i + 1]);
    DeadlineStep(states[i], frames[i], states[i + 1], k);
    TimerMeetsDeadline(states, frames, i + 1, j, k);
  }

  /** The same from the moment t at which the playlist was registered up to its first switch, if that is timer-driven.
      */
  lemma FirstTimerWaits(states: seq<State>, frames: seq<Frame>, t: int, j: nat, k: nat)
    requires Run(states, frames) && j < |frames| && k < |states[0].lists|
    requires Deadline(states[0], k) == t + states[0].lists[k].settings.Delay()
    requires SwitchesOnTimer(states[j], frames[j], k)
    requires forall m :: 0 <= m < j ==> !Switches(states[m], frames[m], k)
    ensures var unpaused := frames[j].t2 - t - Counted(states[0].lists[k], PausedTime(states, frames, 0, j + 1));
            unpaused >= states[0].lists[k].settings.delayMinutes * 60_000_000_000 && unpaused >= 60_000_000_000
  {
    hide Step, Switches, SwitchesOnTimer;
    Playlist.DelayInMinutes(states[0].lists[k].settings);
    TimerMeetsDeadline(states, frames, 0, j, k);
  }

  /** The clock never runs backwards. */
  predicate Steady(frames: seq<Frame>) {
    (forall i :: 0 <= i < |frames| ==> frames[i].t0 <= frames[i].t1 <= frames[i].t2) &&
    forall i :: 0 <= i < |frames| - 1 ==> frames[i].t2 <= frames[i + 1].t0
  }

  /** The time counted as paused lies within the time that passed, and never overlaps itself. */
  lemma {:induction false} PausedTimeFits(states: seq<State>, frames: seq<Frame>, i: nat, j: nat)
    requires Run(states, frames) && Steady(frames) && i < j <= |frames| && Works(states[i], frames[i])
    ensures 0 <= PausedTime(states, frames, i + 1, j)
    ensures states[j].paused ==>
              PausedTime(states, frames, i + 1, j) <= states[j].pauseStart - frames[i].t2 &&
              states[j].pauseStart <= frames[j - 1].t2
    ensures PausedTime(states, frames, i + 1, j) <= frames[j - 1].t2 - frames[i].t2
  {
    hide Step, Works;
    var m := j - 1;
    assert Step(states[m], frames[m], states[j]);
    PauseFlags(states[m], frames[m], states[j]);
    if m > i {
      PausedTimeFits(states, frames, i, m);
      assert frames[m - 1].t2 <= frames[m - 1 + 1].t0;
    }
  }

  lemma PauseFlags(st: State, f: Frame, next: State)
    requires Step(st, f, next)
    ensures next.paused <==> !Works(st, f)
    ensures next.paused ==> next.pauseStart == if st.paused then st.pauseStart else f.t1
    ensures PauseEnded(st, f) == if st.paused && !next.paused then f.t1 - st.pauseStart else 0
  {
    hide UpdatedLists, GoodInputs, AllShifted;
  }
}
