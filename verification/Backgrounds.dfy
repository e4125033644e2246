/** Which background each wallpaper runs, against what the settings say (WallpaperApplication.cpp in
    src/WallpaperEngine/Application): loading, playlist switches and live requests.

    A live request without a path loads every wallpaper again from the settings, so both should agree. */
module Backgrounds {
  import opened Options
  import opened Names
  import opened Screens
  import opened LiveSettings

  /** The paths in the settings: per screen, per span group, and the default. */
  datatype Paths = Paths(screens: map<string, string>, groupPaths: seq<string>, common: string)

  predicate IsKeyOf(group: seq<string>, key: string) {
    group != [] && GroupKey(group) == key
  }

  /** A span key that belongs to no group has no place in the settings. */
  predicate HasPlace(groups: seq<seq<string>>, key: string) {
    !StartsWith(key, "span:") || FindGroup(groups, key).Some?
  }

  /** The path set for a key; empty if there is none. */
  function Own(groups: seq<seq<string>>, st: Paths, key: string): string
    requires |st.groupPaths| == |groups|
  {
    if StartsWith(key, "span:") then
      match FindGroup(groups, key)
      case Some(i) => st.groupPaths[i]
      case None => ""
    else if key in st.screens then st.screens[key]
    else ""
  }

  /** resolveScreenBackgroundPath. */
  function Resolved(groups: seq<seq<string>>, st: Paths, key: string): string
    requires |st.groupPaths| == |groups|
  {
    var own := Own(groups, st, key);
    if own == "" then st.common else own
  }

  /** Every wallpaper runs what the settings say. */
  ghost predicate Agree(groups: seq<seq<string>>, st: Paths, running: map<string, string>)
    requires |st.groupPaths| == |groups|
  {
    forall key :: key in running ==> running[key] == Resolved(groups, st, key)
  }

  // ----- loading -----

  function OrCommon(path: string, common: string): string {
    if path == "" then common else path
  }

  function LoadedScreens(st: Paths): map<string, string> {
    map key | key in st.screens && !StartsWith(key, "span:") :: OrCommon(st.screens[key], st.common)
  }

  function LoadedGroups(groups: seq<seq<string>>, st: Paths, n: nat): map<string, string>
    requires n <= |groups| == |st.groupPaths|
  {
    if n == 0 then map[]
    else if groups[n - 1] == [] then LoadedGroups(groups, st, n - 1)
    else LoadedGroups(groups, st, n - 1)[GroupKey(groups[n - 1]) := OrCommon(st.groupPaths[n - 1], st.common)]
  }

  /** What runs after loadBackgrounds: in a window the default background or the first item of the playlist. */
  function Loaded(groups: seq<seq<string>>, st: Paths, window: bool, playlist: seq<string>): map<string, string>
    requires |st.groupPaths| == |groups|
  {
    if window then map["default" := if playlist == [] then st.common else playlist[0]]
    else LoadedScreens(st) + LoadedGroups(groups, st, |groups|)
  }

  lemma {:induction false} GroupKeysLoaded(groups: seq<seq<string>>, st: Paths, n: nat)
    requires n <= |groups| == |st.groupPaths|
    ensures forall k ::
      k in LoadedGroups(groups, st, n) <==> exists i :: 0 <= i < n && groups[i] != [] && k == GroupKey(groups[i])
  {
    hide GroupKey;
    if n > 0 {
      GroupKeysLoaded(groups, st, n - 1);
    }
  }

  /** On the desktop one wallpaper is loaded for each given screen and each span, and for nothing else. */
  lemma LoadedForAll(given: Settings, st: Paths, playlist: seq<string>)
    requires |given.groups| == |st.groupPaths| && st.screens.Keys == given.backgrounds
    ensures Loaded(given.groups, st, false, playlist).Keys == LoadedKeys(given)
  {
    hide GroupKey, StartsWith;
    GroupKeysLoaded(given.groups, st, |given.groups|);
  }

  lemma KeysApart(groups: seq<seq<string>>, i: nat, j: nat)
    requires GroupsApart(groups) && i < j < |groups| && groups[i] != [] && groups[j] != []
    ensures GroupKey(groups[i]) != GroupKey(groups[j])
  {
    assert GroupKey(groups[i])[5..] == groups[i][0] && GroupKey(groups[j])[5..] == groups[j][0];
    assert groups[i][0] in groups[i] && groups[j][0] in groups[j];
  }

  lemma KeyIsSpan(groups: seq<seq<string>>, i: nat)
    requires i < |groups| && groups[i] != []
    ensures StartsWith(GroupKey(groups[i]), "span:") && FindGroup(groups, GroupKey(groups[i])).Some?
  {
    hide FindGroup;
  }

  lemma FoundIs(groups: seq<seq<string>>, i: nat)
    requires GroupsApart(groups) && i < |groups| && groups[i] != []
    ensures FindGroup(groups, GroupKey(groups[i])) == Some(i)
  {
    KeyIsSpan(groups, i);
    var j := FindGroup(groups, GroupKey(groups[i])).value;
    hide FindGroup;
    if j < i { KeysApart(groups, j, i); }
    if i < j { KeysApart(groups, i, j); }
  }

  lemma {:induction false} GroupsLoadedAgree(groups: seq<seq<string>>, st: Paths, n: nat)
    requires GroupsApart(groups) && n <= |groups| == |st.groupPaths|
    ensures Agree(groups, st, LoadedGroups(groups, st, n))
  {
    hide FindGroup, GroupsApart;
    if n > 0 {
      GroupsLoadedAgree(groups, st, n - 1);
      if groups[n - 1] != [] {
        FoundIs(groups, n - 1);
        KeyIsSpan(groups, n - 1);
      }
    }
  }

  /** What is loaded first is what the settings say, but for a window with a playlist whose first item is not the
      default background. */
  lemma LoadedAgreeIff(groups: seq<seq<string>>, st: Paths, window: bool, playlist: seq<string>)
    requires GroupsApart(groups) && |st.groupPaths| == |groups|
    ensures Agree(groups, st, Loaded(groups, st, window, playlist)) <==>
            !window || Resolved(groups, st, "default") == (if playlist == [] then st.common else playlist[0])
  {
    hide FindGroup, GroupsApart;
    if window {
      var running := Loaded(groups, st, window, playlist);
      assert "default" in running;
    } else {
      GroupsLoadedAgree(groups, st, |groups|);
    }
  }

  // ----- playlist switches -----

  function PlaylistSwitched(st: Paths, key: string, next: string): Paths {
    st.(screens := st.screens[key := next])
  }

  /** Can a playlist switch be filed where it is looked up? */
  predicate SwitchKept(groups: seq<seq<string>>, st: Paths, key: string, next: string)
    requires |st.groupPaths| == |groups|
  {
    if StartsWith(key, "span:") then Resolved(groups, st, key) == next else next != "" || st.common == ""
  }

  lemma PlaylistKeepsAgreementIff(groups: seq<seq<string>>, st: Paths, running: map<string, string>, key: string,
                                  next: string)
    requires |st.groupPaths| == |groups| && Agree(groups, st, running)
    ensures Agree(groups, PlaylistSwitched(st, key, next), running[key := next]) <==> SwitchKept(groups, st, key, next)
  {
    hide FindGroup;
    var st', running' := PlaylistSwitched(st, key, next), running[key := next];
    assert forall k :: k != key ==> Resolved(groups, st', k) == Resolved(groups, st, k);
    assert running'[key] == next && key in running';
  }

  // ----- live requests -----

  /** The wallpapers a request replaces: those it reaches, if what they are to run loads. */
  ghost function Swapped(groups: seq<seq<string>>, running: map<string, string>, target: Target, loads: set<string>)
    : set<string>
  {
    set key | key in running && key in loads && Reaches(groups, target, key)
  }

  ghost function PathsAfter(groups: seq<seq<string>>, st: Paths, target: Target, path: Option<string>,
                            swapped: set<string>): (r: Paths)
    requires |st.groupPaths| == |groups|
    ensures |r.groupPaths| == |groups|
  {
    match path
    case None => st
    case Some(p) =>
      Paths(st.screens + map key | key in swapped && !StartsWith(key, "span:") :: p,
            seq(|groups|, i requires 0 <= i < |groups| =>
              if groups[i] != [] && GroupKey(groups[i]) in swapped then p else st.groupPaths[i]),
            if swapped != {} && target.None? then p else st.common)
  }

  ghost function RunningAfter(groups: seq<seq<string>>, st: Paths, running: map<string, string>, path: Option<string>,
                              swapped: set<string>): map<string, string>
    requires |st.groupPaths| == |groups|
  {
    map key | key in running ::
      if key in swapped then (if path.Some? then path.value else Resolved(groups, st, key)) else running[key]
  }

  lemma OwnAfter(groups: seq<seq<string>>, st: Paths, target: Target, p: string, swapped: set<string>, key: string)
    requires |st.groupPaths| == |groups|
    ensures Own(groups, PathsAfter(groups, st, target, Some(p), swapped), key) ==
            if key in swapped then (if HasPlace(groups, key) then p else "") else Own(groups, st, key)
  {
    hide FindGroup;
    var after := PathsAfter(groups, st, target, Some(p), swapped);
    if StartsWith(key, "span:") {
      match FindGroup(groups, key) {
        case None =>
        case Some(i) => assert after.groupPaths[i] == if key in swapped then p else st.groupPaths[i];
      }
    } else {
      assert key in swapped ==> after.screens[key] == p;
      assert key !in swapped ==> (key in after.screens <==> key in st.screens);
    }
  }

  /** Where a request leaves what runs and what the settings say alike: without a path always; with one, if each
      wallpaper that was replaced has a place in the settings, and each that was not has a path of its own, unless the
      default comes out right for it. */
  ghost predicate RequestKept(groups: seq<seq<string>>, st: Paths, running: map<string, string>, target: Target,
                              path: Option<string>, loads: set<string>)
    requires |st.groupPaths| == |groups|
  {
    path.Some? ==>
      var swapped := Swapped(groups, running, target, loads);
      var common := PathsAfter(groups, st, target, path, swapped).common;
      forall key :: key in running ==>
        if key in swapped then (HasPlace(groups, key) && path.value != "") || common == path.value
        else Own(groups, st, key) != "" || common == st.common
  }

  lemma RequestKeepsAgreementIff(groups: seq<seq<string>>, st: Paths, running: map<string, string>, target: Target,
                                 path: Option<string>, loads: set<string>)
    requires |st.groupPaths| == |groups| && Agree(groups, st, running)
    ensures var swapped := Swapped(groups, running, target, loads);
            Agree(groups, PathsAfter(groups, st, target, path, swapped),
                  RunningAfter(groups, st, running, path, swapped)) <==>
            RequestKept(groups, st, running, target, path, loads)
  {
    hide FindGroup, Reaches, Own, HasPlace, Swapped;
    var swapped := Swapped(groups, running, target, loads);
    var after := PathsAfter(groups, st, target, path, swapped);
    var running' := RunningAfter(groups, st, running, path, swapped);
    if path.Some? {
      forall key | key in running
        ensures running'[key] == Resolved(groups, after, key) <==>
                if key in swapped then (HasPlace(groups, key) && path.value != "") || after.common == path.value
                else Own(groups, st, key) != "" || after.common == st.common
      {
        OwnAfter(groups, st, target, path.value, swapped, key);
        assert running[key] == Resolved(groups, st, key);
      }
      assert running'.Keys == running.Keys;
      hide PathsAfter, RunningAfter, Resolved;
    }
  }

  /** A request for one wallpaper, or one that everything it reaches can follow, keeps them alike. */
  lemma WholeRequestKeepsAgreement(groups: seq<seq<string>>, st: Paths, running: map<string, string>, target: Target,
                                   p: string, loads: set<string>)
    requires |st.groupPaths| == |groups| && Agree(groups, st, running) && p != ""
    requires forall key :: key in running ==> HasPlace(groups, key)
    requires target.Some? || running.Keys <= loads
    ensures var swapped := Swapped(groups, running, target, loads);
            Agree(groups, PathsAfter(groups, st, target, Some(p), swapped),
                  RunningAfter(groups, st, running, Some(p), swapped))
  {
    hide FindGroup;
    RequestKeepsAgreementIff(groups, st, running, target, Some(p), loads);
  }

  /** Two screens on the default background X; everything is to run Y, and that fails on B. B goes on with X, and the
      settings say Y. */
  lemma FailedScreenExample()
    ensures var st := Paths(map["A" := "", "B" := ""], [], "X");
            var running := Loaded([], st, false, []);
            var swapped := Swapped([], running, None, {"A"});
            Agree([], st, running) && running == map["A" := "X", "B" := "X"] &&
            RunningAfter([], st, running, Some("Y"), swapped) == map["A" := "Y", "B" := "X"] &&
            Resolved([], PathsAfter([], st, None, Some("Y"), swapped), "B") == "Y"
  {
    var st := Paths(map["A" := "", "B" := ""], [], "X");
    var running := Loaded([], st, false, []);
    assert running == map["A" := "X", "B" := "X"];
    assert Swapped([], running, None, {"A"}) == {"A"};
  }

  /** A window with the background X and a playlist that starts with Y: Y runs, and a request that only changes layers
      turns it into X. */
  lemma WindowPlaylistExample()
    ensures var st := Paths(map[], [], "X");
            var running := Loaded([], st, true, ["Y"]);
            running == map["default" := "Y"] && !Agree([], st, running) &&
            RunningAfter([], st, running, None, Swapped([], running, None, {"default"})) == map["default" := "X"]
  {
    var st := Paths(map[], [], "X");
    var running := Loaded([], st, true, ["Y"]);
    assert running["default"] == "Y";
    assert Swapped([], running, None, {"default"}) == {"default"};
  }

  // ----- whole runs -----

  datatype Event =
    | Playlist(key: string, next: string)
    | Request(target: Target, path: Option<string>, loads: set<string>)

  datatype State = State(paths: Paths, running: map<string, string>)

  ghost function After(groups: seq<seq<string>>, s: State, e: Event): (r: State)
    requires |s.paths.groupPaths| == |groups|
    ensures |r.paths.groupPaths| == |groups|
  {
    match e
    case Playlist(key, next) => State(PlaylistSwitched(s.paths, key, next), s.running[key := next])
    case Request(target, path, loads) =>
      var swapped := Swapped(groups, s.running, target, loads);
      State(PathsAfter(groups, s.paths, target, path, swapped),
            RunningAfter(groups, s.paths, s.running, path, swapped))
  }

  ghost predicate Kept(groups: seq<seq<string>>, s: State, e: Event)
    requires |s.paths.groupPaths| == |groups|
  {
    match e
    case Playlist(key, next) => SwitchKept(groups, s.paths, key, next)
    case Request(target, path, loads) => RequestKept(groups, s.paths, s.running, target, path, loads)
  }

  ghost function AfterAll(groups: seq<seq<string>>, s: State, events: seq<Event>): (r: State)
    requires |s.paths.groupPaths| == |groups|
    ensures |r.paths.groupPaths| == |groups|
  {
    if events == [] then s
    else After(groups, AfterAll(groups, s, events[..|events| - 1]), events[|events| - 1])
  }

  ghost predicate AgreeIn(groups: seq<seq<string>>, s: State)
    requires |s.paths.groupPaths| == |groups|
  {
    Agree(groups, s.paths, s.running)
  }

  lemma StepKeepsAgreementIff(groups: seq<seq<string>>, s: State, e: Event)
    requires |s.paths.groupPaths| == |groups| && AgreeIn(groups, s)
    ensures AgreeIn(groups, After(groups, s, e)) <==> Kept(groups, s, e)
  {
    hide Agree, SwitchKept, RequestKept, PathsAfter, RunningAfter, Swapped;
    match e
    case Playlist(key, next) => PlaylistKeepsAgreementIff(groups, s.paths, s.running, key, next);
    case Request(target, path, loads) =>
      RequestKeepsAgreementIff(groups, s.paths, s.running, target, path, loads);
  }

  /** Over a whole run settings and wallpapers agree at every moment if and only if every event met its condition. */
  lemma {:induction false} RunAgreesIff(groups: seq<seq<string>>, s: State, events: seq<Event>)
    requires |s.paths.groupPaths| == |groups| && AgreeIn(groups, s)
    ensures (forall k :: 0 <= k <= |events| ==> AgreeIn(groups, AfterAll(groups, s, events[..k]))) <==>
            (forall k :: 0 <= k < |events| ==> Kept(groups, AfterAll(groups, s, events[..k]), events[k]))
  {
    hide AgreeIn, Kept, After;
    assert events[..0] == [];
    forall k | 0 <= k < |events|
      ensures AgreeIn(groups, AfterAll(groups, s, events[..k])) ==>
                (AgreeIn(groups, AfterAll(groups, s, events[..k + 1])) <==>
                 Kept(groups, AfterAll(groups, s, events[..k]), events[k]))
    {
      assert events[..k + 1][..k] == events[..k];
      if AgreeIn(groups, AfterAll(groups, s, events[..k])) {
        StepKeepsAgreementIff(groups, AfterAll(groups, s, events[..k]), events[k]);
      }
    }
    if forall k :: 0 <= k < |events| ==> Kept(groups, AfterAll(groups, s, events[..k]), events[k]) {
      AgreeUpTo(groups, s, events, |events|);
    }
    if forall k :: 0 <= k <= |events| ==> AgreeIn(groups, AfterAll(groups, s, events[..k])) {
      forall k | 0 <= k < |events| ensures Kept(groups, AfterAll(groups, s, events[..k]), events[k]) {
        assert AgreeIn(groups, AfterAll(groups, s, events[..k]));
        assert AgreeIn(groups, AfterAll(groups, s, events[..k + 1]));
      }
    }
  }

  lemma {:induction false} AgreeUpTo(groups: seq<seq<string>>, s: State, events: seq<Event>, n: nat)
    requires |s.paths.groupPaths| == |groups| && AgreeIn(groups, s) && n <= |events|
    requires forall k :: 0 <= k < |events| ==> Kept(groups, AfterAll(groups, s, events[..k]), events[k])
    ensures forall k :: 0 <= k <= n ==> AgreeIn(groups, AfterAll(groups, s, events[..k]))
  {
    hide AgreeIn, Kept, After;
    assert events[..0] == [];
    if n > 0 {
      AgreeUpTo(groups, s, events, n - 1);
      assert events[..n][..n - 1] == events[..n - 1];
      StepKeepsAgreementIff(groups, AfterAll(groups, s, events[..n - 1]), events[n - 1]);
    }
  }

  // ----- one more wallpaper replaced -----

  lemma PathsNext(groups: seq<seq<string>>, st: Paths, target: Target, p: string, done: set<string>, key: string,
                  screens: map<string, string>, groupPaths: seq<string>)
    requires |st.groupPaths| == |groups| == |groupPaths|
    requires var was := PathsAfter(groups, st, target, Some(p), done);
             screens == (if StartsWith(key, "span:") then was.screens else was.screens[key := p]) &&
             forall i :: 0 <= i < |groups| ==>
               groupPaths[i]
               == if StartsWith(key, "span:") && IsKeyOf(groups[i], key) then p else was.groupPaths[i]
    ensures var now := PathsAfter(groups, st, target, Some(p), done + {key});
            screens == now.screens && groupPaths == now.groupPaths
  {
    forall i | 0 <= i < |groups| && groups[i] != [] ensures StartsWith(GroupKey(groups[i]), "span:") {
      KeyIsSpan(groups, i);
    }
    hide StartsWith, GroupKey;
    assert screens == PathsAfter(groups, st, target, Some(p), done + {key}).screens;
  }

  lemma RunningNext(groups: seq<seq<string>>, st: Paths, before: map<string, string>, path: Option<string>,
                    done: set<string>, key: string)
    requires |st.groupPaths| == |groups| && key in before
    ensures RunningAfter(groups, st, before, path, done + {key})
         == RunningAfter(groups, st, before, path, done)
              [key := if path.Some? then path.value else Resolved(groups, st, key)]
  {
    hide Resolved;
  }

  lemma NothingSwapped(groups: seq<seq<string>>, st: Paths, before: map<string, string>, target: Target,
                       path: Option<string>)
    requires |st.groupPaths| == |groups|
    ensures PathsAfter(groups, st, target, path, {}) == st && RunningAfter(groups, st, before, path, {}) == before
  {
    if path.Some? {
      var after := PathsAfter(groups, st, target, path, {});
      assert after.screens == st.screens && after.groupPaths == st.groupPaths;
    }
  }

  // ----- the application -----

  /** The part of the application that holds paths and loaded backgrounds. `O` stands for the overrides of layers,
      effects, properties and image adjustments that belong to a wallpaper. */
  class Application<O> {
    const groups: seq<seq<string>>
    var screens: map<string, string>
    var groupPaths: seq<string>
    var common: string
    var running: map<string, string>
    var overrides: O

    ghost function Value(): Paths
      reads this
    {
      Paths(screens, groupPaths, common)
    }

    constructor (groups: seq<seq<string>>, st: Paths, overrides: O)
      requires |st.groupPaths| == |groups|
      ensures this.groups == groups && Value() == st && running == map[] && this.overrides == overrides
    {
      this.groups, this.overrides := groups, overrides;
      screens, groupPaths, common, running := st.screens, st.groupPaths, st.common, map[];
    }

    function Resolve(key: string): (path: string)
      reads this
      requires |groupPaths| == |groups|
      ensures path == Resolved(groups, Value(), key)
    {
      Resolved(groups, Paths(screens, groupPaths, common), key)
    }

    /** loadBackgrounds. */
    method LoadBackgrounds(window: bool, playlist: seq<string>)
      requires |groupPaths| == |groups| && running == map[]
      modifies `running
      ensures running == Loaded(groups, Value(), window, playlist)
    {
      hide LoadedScreens, LoadedGroups;
      if window {
        running := running["default" := if playlist == [] then common else playlist[0]];
        return;
      }
      LoadScreens();
      LoadGroups();
    }

    method LoadScreens()
      requires running == map[]
      modifies `running
      ensures running == LoadedScreens(Value())
    {
      hide StartsWith;
      ghost var loaded := LoadedScreens(Value());
      var todo := screens.Keys;
      while todo != {}
        invariant todo <= screens.Keys
        invariant running.Keys == loaded.Keys - todo
        invariant forall key :: key in running ==> running[key] == loaded[key]
      {
        var key :| key in todo;
        if !StartsWith(key, "span:") {
          running := running[key := if screens[key] == "" then common else screens[key]];
        }
        todo := todo - {key};
      }
    }

    method LoadGroups()
      requires |groupPaths| == |groups|
      modifies `running
      ensures running == old(running) + LoadedGroups(groups, Value(), |groups|)
    {
      hide GroupKey;
      ghost var loaded, paths := running, Value();
      var i := 0;
      while i < |groups|
        invariant 0 <= i <= |groups|
        invariant running == loaded + LoadedGroups(groups, paths, i)
      {
        if groups[i] != [] {
          var path := if groupPaths[i] == "" then common else groupPaths[i];
          AddedLast(loaded, LoadedGroups(groups, paths, i), GroupKey(groups[i]), path);
          running := running[GroupKey(groups[i]) := path];
        }
        i := i + 1;
      }
    }

    /** The end of advancePlaylist, when the next item has loaded. */
    method SwitchPlaylist(key: string, next: string)
      modifies `screens, `running
      ensures Value() == PlaylistSwitched(old(Value()), key, next) && running == old(running)[key := next]
    {
      running := running[key := next];
      screens := screens[key := next];
    }

    // Files the path of a replaced wallpaper.
    method StorePath(key: string, p: string)
      requires |groupPaths| == |groups|
      modifies `screens, `groupPaths
      ensures |groupPaths| == |groups|
      ensures screens == if StartsWith(key, "span:") then old(screens) else old(screens)[key := p]
      ensures forall i :: 0 <= i < |groups| ==>
                groupPaths[i] == if StartsWith(key, "span:") && IsKeyOf(groups[i], key) then p else old(groupPaths[i])
    {
      if !StartsWith(key, "span:") {
        screens := screens[key := p];
        return;
      }
      var i := 0;
      while i < |groups|
        invariant 0 <= i <= |groups| == |groupPaths| && screens == old(screens)
        invariant forall j :: 0 <= j < |groups| ==>
                    groupPaths[j] == if j < i && IsKeyOf(groups[j], key) then p else old(groupPaths[j])
      {
        if groups[i] != [] && GroupKey(groups[i]) == key {
          groupPaths := groupPaths[i := p];
        }
        i := i + 1;
      }
    }

    /** The part of checkHotswapRequest that replaces wallpapers. Loading succeeds for the keys in `loads`; `requested`
        is what the request makes of the overrides. A request with a path that replaces nothing leaves everything as it
        was, the overrides included. */
    method Hotswap(target: Target, path: Option<string>, loads: set<string>, viewport: bool, requested: O)
      returns (swapped: bool)
      requires |groupPaths| == |groups|
      modifies this
      ensures swapped <==> viewport && Swapped(groups, old(running), target, loads) != {}
      ensures Value() == PathsAfter(groups, old(Value()), target, path,
                                    if viewport then Swapped(groups, old(running), target, loads) else {})
      ensures running == RunningAfter(groups, old(Value()), old(running), path,
                                      if viewport then Swapped(groups, old(running), target, loads) else {})
      ensures overrides == if path.Some? && !swapped then old(overrides) else requested
      ensures !swapped ==> Value() == old(Value()) && running == old(running)
    {
      hide Reaches, FindGroup, Resolved, RunningAfter;
      ghost var st, before := Value(), running;
      var previous := overrides;
      overrides := requested;
      swapped := false;
      NothingSwapped(groups, st, before, target, path);
      if viewport {
        swapped := ReplaceAll(target, path, loads);
      }
      if !swapped && path.Some? {
        overrides := previous;
      }
      if swapped && path.Some? && target.None? {
        common := path.value;
      }
    }

    // The loop over the loaded backgrounds.
    method ReplaceAll(target: Target, path: Option<string>, loads: set<string>) returns (swapped: bool)
      requires |groupPaths| == |groups|
      modifies `screens, `groupPaths, `running
      ensures |groupPaths| == |groups| && (swapped <==> Swapped(groups, old(running), target, loads) != {})
      ensures var after := PathsAfter(groups, old(Value()), target, path, Swapped(groups, old(running), target, loads));
              screens == after.screens && groupPaths == after.groupPaths
      ensures running == RunningAfter(groups, old(Value()), old(running), path,
                                      Swapped(groups, old(running), target, loads))
    {
      hide Reaches, FindGroup, Resolved, PathsAfter, RunningAfter;
      ghost var st, before := Value(), running;
      swapped := false;
      NothingSwapped(groups, st, before, target, path);
      WithoutPath(groups, st, target);
      var todo := running.Keys;
      ghost var done: set<string> := {};
      while todo != {}
        invariant todo <= before.Keys == running.Keys && |groupPaths| == |groups|
        invariant done == Swapped(groups, before, target, loads) - todo && (swapped <==> done != {})
        invariant screens == PathsAfter(groups, st, target, path, done).screens
        invariant groupPaths == PathsAfter(groups, st, target, path, done).groupPaths
        invariant running == RunningAfter(groups, st, before, path, done)
      {
        var key :| key in todo;
        if Reaches(groups, target, key) && key in loads {
          RunningNext(groups, st, before, path, done, key);
          if path.Some? {
            running := running[key := path.value];
            StorePath(key, path.value);
            PathsNext(groups, st, target, path.value, done, key, screens, groupPaths);
          } else {
            assert Value() == st;
            var current := Resolve(key);
            running := running[key := current];
          }
          swapped, done := true, done + {key};
        }
        todo := todo - {key};
      }
      assert done == Swapped(groups, before, target, loads);
    }
  }

  lemma AddedLast(a: map<string, string>, b: map<string, string>, key: string, path: string)
    ensures (a + b)[key := path] == a + b[key := path]
  {
  }

  lemma WithoutPath(groups: seq<seq<string>>, st: Paths, target: Target)
    requires |st.groupPaths| == |groups|
    ensures forall swapped :: PathsAfter(groups, st, target, None, swapped) == st
  {
  }
}
