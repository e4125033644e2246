/** Live settings against what a reload would compute (src/WallpaperEngine/Application/WallpaperApplication.cpp): one of
    the scaling, zoom, offset, alignment and corner colour settings, of any value type. */
module LiveSettings {
  import opened Options
  import opened Screens

  /** Where a setting is stored: per screen, for the window, and per span group. */
  datatype Stored<T> = Stored(screens: map<string, T>, window: T, groupValues: seq<T>)

  type Target = Option<string>

  predicate Reaches(groups: seq<seq<string>>, target: Target, screen: string) {
    match target
    case None => true
    case Some(t) => t == screen || (FindGroup(groups, t).Some? && screen in groups[FindGroup(groups, t).value])
  }

  /** updateScreenSetting. */
  function Updated<T>(groups: seq<seq<string>>, st: Stored<T>, target: Target, v: T): (r: Stored<T>)
    requires |st.groupValues| == |groups|
    ensures |r.groupValues| == |groups|
  {
    match target
    case None => Stored(map k | k in st.screens :: v, v, seq(|groups|, i => v))
    case Some(t) =>
      match FindGroup(groups, t)
      case Some(i) => st.(groupValues := st.groupValues[i := v])
      case None => st.(screens := st.screens[t := v])
  }

  /** The value installWallpaper gives the wallpaper of `key`. */
  function Installed<T>(groups: seq<seq<string>>, st: Stored<T>, key: string): T
    requires |st.groupValues| == |groups|
  {
    match FindGroup(groups, key)
    case Some(i) => st.groupValues[i]
    case None => if key in st.screens then st.screens[key] else st.window
  }

  /** The key whose wallpaper runs on a screen: that of its span group, or its own. */
  ghost function Owner(groups: seq<seq<string>>, screen: string): string {
    if exists i :: 0 <= i < |groups| && screen in groups[i] then
      var i :| 0 <= i < |groups| && screen in groups[i];
      GroupKey(groups[i])
    else
      screen
  }

  lemma OwnerOf(keys: set<string>, groups: seq<seq<string>>, screen: string)
    requires Layout(keys, groups)
    ensures !InGroups(groups, screen) ==> Owner(groups, screen) == screen
    ensures forall i :: 0 <= i < |groups| && screen in groups[i] ==> Owner(groups, screen) == GroupKey(groups[i])
  {
  }

  lemma GroupOfKey(keys: set<string>, groups: seq<seq<string>>, i: nat)
    requires Layout(keys, groups) && i < |groups|
    ensures FindGroup(groups, GroupKey(groups[i])) == Some(i)
  {
    hide FindGroup;
    var found := FindGroup(groups, GroupKey(groups[i]));
    assert found.Some?;
    var j := found.value;
    assert GroupKey(groups[j])[5..] == groups[j][0] && GroupKey(groups[i])[5..] == groups[i][0];
    assert groups[j][0] in groups[j] && groups[i][0] in groups[i];
  }

  /** resolveHotswapScreen. */
  ghost predicate ResolvesTo(keys: set<string>, groups: seq<seq<string>>, name: string, target: Target) {
    if name in keys then target == Some(name)
    else if InGroups(groups, name) then
      exists i :: 0 <= i < |groups| && name in groups[i] && target == Some(GroupKey(groups[i]))
    else target == None
  }

  ghost predicate ValidTarget(groups: seq<seq<string>>, target: Target) {
    target.Some? ==> !InGroups(groups, target.value)
  }

  /** A name resolves unless no wallpaper runs under it; what it resolves to is no member of a group, and reaches it. */
  lemma ResolvedIsValid(keys: set<string>, groups: seq<seq<string>>, name: string, target: Target)
    requires Layout(keys, groups) && ResolvesTo(keys, groups, name, target)
    ensures ValidTarget(groups, target)
    ensures target.None? <==> name !in keys && !InGroups(groups, name)
    ensures target.Some? ==> Reaches(groups, target, name)
  {
    if target.Some? && name !in keys {
      var i :| 0 <= i < |groups| && name in groups[i] && target == Some(GroupKey(groups[i]));
      GroupOfKey(keys, groups, i);
      assert StartsWithSpan(GroupKey(groups[i]));
    }
  }

  /** The name is looked up as a key first and then among the members, and gives the owner of its screen. */
  lemma ResolvesToOwner(keys: set<string>, groups: seq<seq<string>>, name: string, target: Target)
    requires Layout(keys, groups)
    ensures ResolvesTo(keys, groups, name, target) <==>
            target == if name in keys || InGroups(groups, name) then Some(Owner(groups, name)) else None
  {
    OwnerOf(keys, groups, name);
    if name !in keys && InGroups(groups, name) {
      var i :| 0 <= i < |groups| && name in groups[i];
      assert Owner(groups, name) == GroupKey(groups[i]);
    }
  }

  ghost predicate StartsWithSpan(name: string) {
    Names.StartsWith(name, "span:")
  }

  /** A target reaches exactly the screens whose wallpaper was installed for it. */
  lemma ReachesIffOwner(keys: set<string>, groups: seq<seq<string>>, target: Target, screen: string)
    requires Layout(keys, groups) && ValidTarget(groups, target)
    ensures Reaches(groups, target, screen) <==> target.None? || target.value == Owner(groups, screen)
  {
    OwnerOf(keys, groups, screen);
    hide Owner, FindGroup;
    if target.Some? {
      if InGroups(groups, screen) {
        var i :| 0 <= i < |groups| && screen in groups[i];
        GroupOfKey(keys, groups, i);
      }
      if FindGroup(groups, target.value).Some? && screen in groups[FindGroup(groups, target.value).value] {
        assert InGroups(groups, screen);
      }
    }
  }

  /** After an update, installing a wallpaper yields the new value if it is the target's and the old one otherwise. */
  lemma InstalledAfterUpdate<T>(groups: seq<seq<string>>, st: Stored<T>, target: Target, v: T, key: string)
    requires |st.groupValues| == |groups|
    ensures Installed(groups, Updated(groups, st, target, v), key) ==
            if target.None? || target.value == key then v else Installed(groups, st, key)
  {
    hide FindGroup;
  }

  /** Live equals reload: what a reload would give a screen changes to the new value exactly on the screens reached. */
  lemma LiveEqualsReload<T>(keys: set<string>, groups: seq<seq<string>>, st: Stored<T>, target: Target, v: T,
                            screen: string)
    requires Layout(keys, groups) && ValidTarget(groups, target) && |st.groupValues| == |groups|
    ensures Installed(groups, Updated(groups, st, target, v), Owner(groups, screen)) ==
            if Reaches(groups, target, screen) then v else Installed(groups, st, Owner(groups, screen))
  {
    ReachesIffOwner(keys, groups, target, screen);
    InstalledAfterUpdate(groups, st, target, v, Owner(groups, screen));
  }

  /** Addressing a member of a group by its own name, without resolving it, would part the two: the member's wallpaper
      would take the new value and a reload would not. */
  lemma UnresolvedMemberDisagrees<T>(keys: set<string>, groups: seq<seq<string>>, st: Stored<T>, member: string, v: T)
    requires Layout(keys, groups) && InGroups(groups, member) && |st.groupValues| == |groups|
    requires v != Installed(groups, st, Owner(groups, member))
    ensures Reaches(groups, Some(member), member)
    ensures Installed(groups, Updated(groups, st, Some(member), v), Owner(groups, member)) != v
  {
    var i :| 0 <= i < |groups| && member in groups[i];
    OwnerOf(keys, groups, member);
    GroupOfKey(keys, groups, i);
    InstalledAfterUpdate(groups, st, Some(member), v, GroupKey(groups[i]));
    assert Names.StartsWith(GroupKey(groups[i]), "span:");
  }

  // ----- the running wallpapers -----

  class Wallpaper<T> {
    var value: T

    constructor (value: T)
      ensures this.value == value
    {
      this.value := value;
    }
  }

  /** A setting, the wallpapers that run with it, and the clamping its setter does. */
  class LiveSetting<T> {
    const norm: T -> T
    const keys: set<string>
    const groups: seq<seq<string>>
    var screens: map<string, T>
    var window: T
    var groupValues: seq<T>
    var wallpapers: map<string, Wallpaper<T>>

    ghost function Value(): Stored<T>
      reads this
    {
      Stored(screens, window, groupValues)
    }

    /** Only the screens of one span group share a wallpaper. */
    ghost predicate SharedByOwner()
      reads this
    {
      forall s, t :: s in wallpapers && t in wallpapers && wallpapers[s] == wallpapers[t] ==>
        Owner(groups, s) == Owner(groups, t)
    }

    /** Each running wallpaper has the value a reload would give it. */
    ghost predicate Agrees()
      reads this, wallpapers.Values
      requires |groupValues| == |groups|
    {
      forall s :: s in wallpapers ==> wallpapers[s].value == norm(Installed(groups, Value(), Owner(groups, s)))
    }

    ghost predicate Valid()
      reads this, wallpapers.Values
    {
      Layout(keys, groups) && |groupValues| == |groups| && SharedByOwner() && Agrees() &&
      forall s :: s in wallpapers ==> FindGroup(groups, s).None?
    }

    constructor (norm: T -> T, keys: set<string>, groups: seq<seq<string>>, st: Stored<T>)
      requires Layout(keys, groups) && |st.groupValues| == |groups|
      ensures Valid() && Value() == st && wallpapers == map[]
      ensures this.norm == norm && this.keys == keys && this.groups == groups
    {
      this.norm, this.keys, this.groups := norm, keys, groups;
      screens, window, groupValues := st.screens, st.window, st.groupValues;
      wallpapers := map[];
    }

    /** updateScreenSetting. */
    method UpdateScreenSetting(target: Target, v: T)
      requires |groupValues| == |groups|
      modifies `screens, `window, `groupValues
      ensures Value() == Updated(groups, old(Value()), target, v)
    {
      if target.Some? {
        var group := FindGroup(groups, target.value);
        if group.Some? {
          groupValues := groupValues[group.value := v];
        } else {
          screens := screens[target.value := v];
        }
        return;
      }
      window := v;
      var todo := screens.Keys;
      while todo != {}
        invariant todo <= screens.Keys == old(screens.Keys)
        invariant forall k :: k in screens && k !in todo ==> screens[k] == v
        modifies `screens
      {
        var k :| k in todo;
        screens := screens[k := v];
        todo := todo - {k};
      }
      var i := 0;
      while i < |groupValues|
        invariant 0 <= i <= |groupValues| == |groups|
        invariant forall k :: 0 <= k < i ==> groupValues[k] == v
        modifies `groupValues
      {
        groupValues := groupValues[i := v];
        i := i + 1;
      }
      assert groupValues == seq(|groups|, i => v) && screens == map k | k in old(screens) :: v;
    }

    /** forEachTargetWallpaper with the setting's setter: each wallpaper once, however many screens it is on. */
    method SetOnTargets(target: Target, v: T)
      requires Layout(keys, groups) && ValidTarget(groups, target) && SharedByOwner()
      modifies wallpapers.Values
      ensures forall s :: s in wallpapers ==>
                wallpapers[s].value == if Reaches(groups, target, s) then norm(v) else old(wallpapers[s].value)
    {
      hide Reaches, Owner;
      var todo := wallpapers.Keys;
      var done: set<Wallpaper<T>> := {};
      while todo != {}
        invariant todo <= wallpapers.Keys
        invariant forall w :: w in done ==> w in wallpapers.Values && w.value == norm(v)
        invariant forall w :: w in wallpapers.Values && w !in done ==> w.value == old(w.value)
        invariant forall s :: s in wallpapers && s !in todo && Reaches(groups, target, s) ==> wallpapers[s] in done
        invariant forall s :: s in wallpapers && wallpapers[s] in done ==> Reaches(groups, target, s)
      {
        var s :| s in todo;
        var wallpaper := wallpapers[s];
        if Reaches(groups, target, s) && wallpaper !in done {
          wallpaper.value := norm(v);
          done := done + {wallpaper};
          forall t | t in wallpapers && wallpapers[t] == wallpaper ensures Reaches(groups, target, t) {
            ReachesIffOwner(keys, groups, target, s);
            ReachesIffOwner(keys, groups, target, t);
          }
        }
        todo := todo - {s};
      }
    }

    /** One live change, such as applyZoomHotswap: the running wallpapers keep agreeing with a reload, and those the
        target does not reach stay as they are. */
    method Apply(target: Target, v: T)
      requires Valid() && ValidTarget(groups, target)
      modifies this, wallpapers.Values
      ensures Valid() && wallpapers == old(wallpapers) && Value() == Updated(groups, old(Value()), target, v)
      ensures forall s :: s in wallpapers ==>
                wallpapers[s].value == if Reaches(groups, target, s) then norm(v) else old(wallpapers[s].value)
    {
      hide Reaches, Owner, Layout, Installed, Updated;
      ghost var st := Value();
      UpdateScreenSetting(target, v);
      SetOnTargets(target, v);
      forall s | s in wallpapers
        ensures wallpapers[s].value == norm(Installed(groups, Value(), Owner(groups, s)))
      {
        LiveEqualsReload(keys, groups, st, target, v, s);
      }
    }

    /** installWallpaper: a new wallpaper for `key`; a span group none of whose screens is there refuses it. */
    method InstallWallpaper(key: string, located: bool) returns (ok: bool)
      requires Valid() && !InGroups(groups, key)
      modifies `wallpapers
      ensures Valid() && (ok <==> FindGroup(groups, key).None? || located)
      ensures !ok ==> wallpapers == old(wallpapers)
      ensures ok ==> wallpapers.Keys == old(wallpapers.Keys) + OwnScreens(groups, key)
      ensures forall s :: s in wallpapers ==>
                if ok && Owner(groups, s) == key then fresh(wallpapers[s])
                else s in old(wallpapers) && wallpapers[s] == old(wallpapers[s])
    {
      hide Owner, Installed, FindGroup, InGroups, Layout;
      var group := FindGroup(groups, key);
      if group.Some? && !located {
        return false;
      }
      var members := if group.None? then [key] else groups[group.value];
      assert OwnScreens(groups, key) == set s | s in members;
      var value := if group.None? then InstalledOnScreen(key) else groupValues[group.value];
      assert value == Installed(groups, Value(), key) by {
        InstalledIs(groups, Value(), key);
      }
      var wallpaper := new Wallpaper(norm(value));
      SetWallpaper(members, wallpaper);
      forall s | s in wallpapers
        ensures FindGroup(groups, s).None? && (Owner(groups, s) == key <==> s in members)
      {
        OwnScreenIsNoKey(keys, groups, key, s);
        OwnerIsKey(keys, groups, key, s);
      }
      hide OwnScreens;
      return true;
    }

    /** setWallpaper on each screen of a wallpaper. */
    method SetWallpaper(members: seq<string>, wallpaper: Wallpaper<T>)
      modifies `wallpapers
      ensures wallpapers.Keys == old(wallpapers.Keys) + set s | s in members
      ensures forall s :: s in wallpapers ==> wallpapers[s] == if s in members then wallpaper else old(wallpapers[s])
    {
      var i := 0;
      while i < |members|
        invariant 0 <= i <= |members|
        invariant wallpapers.Keys == old(wallpapers.Keys) + set s | s in members[..i]
        invariant forall s :: s in wallpapers ==>
                    wallpapers[s] == if s in members[..i] then wallpaper else old(wallpapers[s])
      {
        wallpapers := wallpapers[members[i] := wallpaper];
        assert members[..i + 1] == members[..i] + [members[i]];
        i := i + 1;
      }
      assert members[..|members|] == members;
    }

    function InstalledOnScreen(screen: string): T
      reads this
    {
      if screen in screens then screens[screen] else window
    }

    /** A wallpaper switch of checkHotswapRequest: every wallpaper the target reaches is loaded and installed again, and
        some of that may fail. Exactly those that do not fail are replaced, on all their screens. */
    method Hotswap(target: Target, loads: set<string>, located: set<string>)
      requires Valid() && ValidTarget(groups, target)
      modifies `wallpapers
      ensures Valid()
      ensures wallpapers.Keys
           == old(wallpapers.Keys) + AllScreens(groups, Replaced(groups, keys, target, loads, located))
      ensures forall s :: s in wallpapers ==>
                if Owner(groups, s) in Replaced(groups, keys, target, loads, located) then fresh(wallpapers[s])
                else s in old(wallpapers) && wallpapers[s] == old(wallpapers[s])
      ensures forall s :: s in old(wallpapers) && !Reaches(groups, target, s) ==> wallpapers[s] == old(wallpapers[s])
    {
      hide Reaches, Owner, Installed, OwnScreens, FindGroup, InGroups;
      var todo := keys;
      while todo != {}
        invariant Valid() && todo <= keys
        invariant wallpapers.Keys
               == old(wallpapers.Keys) + AllScreens(groups, Replaced(groups, keys - todo, target, loads, located))
        invariant forall s :: s in wallpapers ==>
                    if Owner(groups, s) in Replaced(groups, keys - todo, target, loads, located)
                    then fresh(wallpapers[s])
                    else s in old(wallpapers) && wallpapers[s] == old(wallpapers[s])
      {
        var key :| key in todo;
        ghost var before := Replaced(groups, keys - todo, target, loads, located);
        ghost var after := Replaced(groups, keys - (todo - {key}), target, loads, located);
        if Reaches(groups, target, key) && key in loads {
          var ok := InstallWallpaper(key, key in located);
          assert after == if ok then before + {key} else before;
          AllScreensAdd(groups, before, key);
        } else {
          assert after == before;
        }
        todo := todo - {key};
      }
      forall s, key | key in keys && Reaches(groups, target, key) && Owner(groups, s) == key
        ensures Reaches(groups, target, s)
      {
        KeyReached(keys, groups, target, key, s);
      }
      assert keys - todo == keys;
    }
  }

  /** The keys whose wallpaper a switch replaces: those the target reaches, if the wallpaper loads and, for a span
      group, one of its screens is there. */
  ghost function Replaced(groups: seq<seq<string>>, among: set<string>, target: Target, loads: set<string>,
                          located: set<string>): set<string>
  {
    set key | key in among && key in loads && Reaches(groups, target, key) &&
              (FindGroup(groups, key).None? || key in located)
  }

  ghost function AllScreens(groups: seq<seq<string>>, keys: set<string>): set<string> {
    set key, s | key in keys && s in OwnScreens(groups, key) :: s
  }

  lemma AllScreensAdd(groups: seq<seq<string>>, keys: set<string>, key: string)
    ensures AllScreens(groups, keys + {key}) == AllScreens(groups, keys) + OwnScreens(groups, key)
  {
    hide OwnScreens;
  }

  /** The screens the wallpaper of a key runs on. */
  ghost function OwnScreens(groups: seq<seq<string>>, key: string): set<string> {
    match FindGroup(groups, key)
    case None => {key}
    case Some(i) => set s | s in groups[i]
  }

  lemma InstalledIs<T>(groups: seq<seq<string>>, st: Stored<T>, key: string)
    requires |st.groupValues| == |groups|
    ensures FindGroup(groups, key).None? ==>
              Installed(groups, st, key) == if key in st.screens then st.screens[key] else st.window
    ensures FindGroup(groups, key).Some? ==> Installed(groups, st, key) == st.groupValues[FindGroup(groups, key).value]
  {
    hide FindGroup;
  }

  lemma OwnScreenIsNoKey(keys: set<string>, groups: seq<seq<string>>, key: string, s: string)
    requires Layout(keys, groups)
    ensures s in OwnScreens(groups, key) ==> FindGroup(groups, s).None?
  {
    hide FindGroup;
    assert forall i :: 0 <= i < |groups| ==> Names.StartsWith(GroupKey(groups[i]), "span:");
  }

  lemma OwnerIsKey(keys: set<string>, groups: seq<seq<string>>, key: string, s: string)
    requires Layout(keys, groups) && !InGroups(groups, key) && FindGroup(groups, s).None?
    ensures Owner(groups, s) == key <==> s in OwnScreens(groups, key)
  {
    hide FindGroup, Owner, Layout;
    ReachesIffOwner(keys, groups, Some(key), s);
  }

  lemma KeyReached(keys: set<string>, groups: seq<seq<string>>, target: Target, key: string, s: string)
    requires Layout(keys, groups) && ValidTarget(groups, target) && key in keys && Reaches(groups, target, key)
    ensures Owner(groups, s) == key ==> Reaches(groups, target, s)
  {
    OwnerOf(keys, groups, key);
    hide FindGroup, Owner, Reaches;
    ReachesIffOwner(keys, groups, target, key);
    ReachesIffOwner(keys, groups, target, s);
  }
}
