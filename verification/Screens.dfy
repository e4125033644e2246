/** Which wallpaper owns which screen: the --screen-root, --screen-span and --screen-slot arguments
    (src/WallpaperEngine/Application/ApplicationContext.cpp), and the keys the wallpapers are loaded under. */
module Screens {
  import opened Names
  import opened Options

  datatype Mode = NormalWindow | ExplicitWindow | Desktop

  datatype Split = Split(screen: string, slots: seq<string>)

  /** `backgrounds` and `playlists` are the keys of the settings maps of those names. */
  datatype Settings = Settings(mode: Mode, backgrounds: set<string>, playlists: set<string>, groups: seq<seq<string>>,
                               splits: seq<Split>, lastScreen: string)

  datatype Arg =
    | Root(name: string)
    | Span(value: string)
    | Slot(name: string)
    | Background
    | Playlist(hasItems: bool)
    | Window(validGeometry: bool)

  const NOTHING := Settings(NormalWindow, {}, {}, [], [], "")

  /** The non-empty parts of a comma-separated list. */
  function Listed(value: string): (names: seq<string>)
    ensures forall x :: x in names ==> x != "" && ',' !in x
    decreases |value|
  {
    if value == "" then []
    else
      var c := IndexOf(value, ',');
      var rest := Listed(if c < |value| then value[c + 1..] else "");
      if c == 0 then rest else [value[..c]] + rest
  }

  /** Lists are joined by commas, and a name without one is a list of itself. */
  lemma {:induction false} ListedJoins(a: string, b: string)
    ensures Listed(a + "," + b) == Listed(a) + Listed(b)
    ensures a != "" && ',' !in a ==> Listed(a) == [a]
    decreases |a|
  {
    hide Listed, IndexOf;
    var c := IndexOf(a, ',');
    if c < |a| {
      var head, tail := a[..c], a[c + 1..];
      assert a == head + "," + tail && a + "," + b == head + "," + (tail + "," + b);
      ListedFirst(head, tail);
      ListedFirst(head, tail + "," + b);
      ListedJoins(tail, b);
    } else {
      assert a[..c] == a;
      ListedFirst(a, b);
      ListedAlone(a);
    }
  }

  lemma ListedFirst(head: string, tail: string)
    requires ',' !in head
    ensures Listed(head + "," + tail) == (if head == "" then [] else [head]) + Listed(tail)
  {
    var s := head + "," + tail;
    assert s[|head|] == ',' && s[..|head|] == head && s[|head| + 1..] == tail;
    FirstAt(s, ',', |head|);
    hide IndexOf;
    assert [] + Listed(tail) == Listed(tail);
  }

  lemma ListedAlone(a: string)
    requires ',' !in a
    ensures Listed(a) == if a == "" then [] else [a]
  {
    hide IndexOf;
    if a != "" {
      assert IndexOf(a, ',') == |a|;
      assert a[..|a|] == a && Listed("") == [];
    }
  }

  ghost predicate InGroups(groups: seq<seq<string>>, name: string) {
    exists i :: 0 <= i < |groups| && name in groups[i]
  }

  /** What findSplitScreen looks for: the name, or what comes before its last '#'. */
  function ScreenOf(name: string): string {
    name[..LastIndexOf(name, '#')]
  }

  ghost predicate IsSplit(splits: seq<Split>, screen: string) {
    exists i :: 0 <= i < |splits| && splits[i].screen == screen
  }

  ghost predicate Free(st: Settings, name: string) {
    name !in st.backgrounds && !InGroups(st.groups, name) && !IsSplit(st.splits, ScreenOf(name))
  }

  ghost predicate NoRepeats(names: seq<string>) {
    forall i, j :: 0 <= i < j < |names| ==> names[i] != names[j]
  }

  ghost predicate SpanAllowed(st: Settings, names: seq<string>) {
    |names| >= 2 && NoRepeats(names) && forall x :: x in names ==> Free(st, x)
  }

  ghost predicate SlotAllowed(st: Settings, name: string) {
    name != "" && '#' !in name && !StartsWith(name, "span:") && name !in st.backgrounds && !InGroups(st.groups, name)
  }

  function SlotName(screen: string, n: nat): string {
    screen + "#" + Decimal(n)
  }

  function WithSlot(splits: seq<Split>, screen: string): (r: (seq<Split>, string))
    ensures |r.0| >= |splits|
  {
    if splits == [] then ([Split(screen, [SlotName(screen, 1)])], SlotName(screen, 1))
    else if splits[0].screen == screen then
      var slot := SlotName(screen, |splits[0].slots| + 1);
      ([splits[0].(slots := splits[0].slots + [slot])] + splits[1..], slot)
    else
      var (rest, slot) := WithSlot(splits[1..], screen);
      ([splits[0]] + rest, slot)
  }

  /** One argument: the new settings, or None when it is refused. */
  ghost function Applied(st: Settings, arg: Arg): Option<Settings> {
    match arg
    case Root(name) =>
      if !Free(st, name) || st.mode == ExplicitWindow then None
      else Some(st.(mode := Desktop, lastScreen := name, backgrounds := st.backgrounds + {name}))
    case Span(value) =>
      if st.mode == ExplicitWindow || !SpanAllowed(st, Listed(value)) then None
      else Some(st.(mode := Desktop, groups := st.groups + [Listed(value)], lastScreen := "span:" + value,
                    backgrounds := st.backgrounds + {"span:" + value}))
    case Slot(name) =>
      if st.mode == ExplicitWindow || !SlotAllowed(st, name) then None
      else
        var (splits, slot) := WithSlot(st.splits, name);
        Some(st.(mode := Desktop, splits := splits, lastScreen := slot, backgrounds := st.backgrounds + {slot}))
    case Background => Some(st.(backgrounds := st.backgrounds + {st.lastScreen}))
    case Playlist(hasItems) =>
      if st.lastScreen == "" then Some(st)
      else Some(st.(playlists := st.playlists + {st.lastScreen},
                    backgrounds := if hasItems then st.backgrounds + {st.lastScreen} else st.backgrounds))
    case Window(valid) => if st.mode != NormalWindow || !valid then None else Some(st.(mode := ExplicitWindow))
  }

  /** What a screen's name must not be for a root or a span to take it: a background, part of a span, or named after a
      screen that is split. */
  ghost predicate Taken(st: Settings, name: string) {
    name in st.backgrounds || (exists g :: g in st.groups && name in g) ||
    exists p :: p in st.splits && p.screen == ScreenOf(name)
  }

  /** When an argument is accepted. */
  lemma AcceptedIff(st: Settings, arg: Arg)
    ensures arg.Root? ==> (Applied(st, arg).Some? <==> st.mode != ExplicitWindow && !Taken(st, arg.name))
    ensures arg.Span? ==>
              var names := Listed(arg.value);
              (Applied(st, arg).Some? <==>
               st.mode != ExplicitWindow && |names| > 1 &&
               (forall i, j :: 0 <= i < |names| && 0 <= j < |names| && i != j ==> names[i] != names[j]) &&
               forall i :: 0 <= i < |names| ==> !Taken(st, names[i]))
    ensures arg.Slot? ==>
              (Applied(st, arg).Some? <==>
               st.mode != ExplicitWindow && arg.name != "" && '#' !in arg.name && !StartsWith(arg.name, "span:") &&
               arg.name !in st.backgrounds && !exists g :: g in st.groups && arg.name in g)
    ensures arg.Window? ==> (Applied(st, arg).Some? <==> st.mode == NormalWindow && arg.validGeometry)
    ensures arg.Background? || arg.Playlist? ==> Applied(st, arg).Some?
  {
    hide Listed, ScreenOf, WithSlot, StartsWith;
    forall name ensures InGroups(st.groups, name) <==> exists g :: g in st.groups && name in g {
      InSomeGroup(st.groups, name);
    }
    forall screen ensures IsSplit(st.splits, screen) <==> exists p :: p in st.splits && p.screen == screen {
      InSomeSplit(st.splits, screen);
    }
    assert forall name :: Free(st, name) <==> !Taken(st, name);
    hide Free, Taken, InGroups, IsSplit;
  }

  /** How many slots a screen has so far. */
  function SlotCount(splits: seq<Split>, screen: string): nat {
    if splits == [] then 0
    else if splits[0].screen == screen then |splits[0].slots|
    else SlotCount(splits[1..], screen)
  }

  lemma {:induction false} NextSlot(splits: seq<Split>, screen: string)
    ensures WithSlot(splits, screen).1 == SlotName(screen, SlotCount(splits, screen) + 1)
    ensures SlotCount(WithSlot(splits, screen).0, screen) == SlotCount(splits, screen) + 1
    ensures forall other :: other != screen ==> SlotCount(WithSlot(splits, screen).0, other) == SlotCount(splits, other)
  {
    hide SlotName;
    if splits != [] && splits[0].screen != screen {
      NextSlot(splits[1..], screen);
      assert WithSlot(splits, screen).0[1..] == WithSlot(splits[1..], screen).0;
    } else if splits != [] {
      assert WithSlot(splits, screen).0[1..] == splits[1..];
    } else {
      assert WithSlot(splits, screen).0[1..] == [];
    }
  }

  /** The names an accepted argument files a background under, beside those there are. */
  ghost predicate FiledBy(st: Settings, arg: Arg, name: string) {
    match arg
    case Root(screen) => name == screen
    case Span(value) => name == "span:" + value
    case Slot(screen) => name == SlotName(screen, SlotCount(st.splits, screen) + 1)
    case Background => name == st.lastScreen
    case Playlist(hasItems) => hasItems && st.lastScreen != "" && name == st.lastScreen
    case Window(_) => false
  }

  /** What an accepted argument changes. */
  lemma AcceptedChanges(st: Settings, arg: Arg)
    requires Applied(st, arg).Some?
    ensures var next, named := Applied(st, arg).value, arg.Root? || arg.Span? || arg.Slot?;
            next.mode == (if named then Desktop else if arg.Window? then ExplicitWindow else st.mode) &&
            next.groups == st.groups + (if arg.Span? then [Listed(arg.value)] else []) &&
            (forall x :: x in next.backgrounds <==> x in st.backgrounds || FiledBy(st, arg, x)) &&
            (forall x :: x in next.playlists <==>
                         x in st.playlists || (arg.Playlist? && st.lastScreen != "" && x == st.lastScreen)) &&
            (named ==> FiledBy(st, arg, next.lastScreen)) && (!named ==> next.lastScreen == st.lastScreen) &&
            (!arg.Slot? ==> next.splits == st.splits) &&
            (arg.Slot? ==> SlotCount(next.splits, arg.name) == SlotCount(st.splits, arg.name) + 1)
  {
    hide Listed, WithSlot, SpanAllowed, SlotAllowed, Free, SlotCount, SlotName;
    if arg.Slot? {
      NextSlot(st.splits, arg.name);
    }
  }

  lemma InSomeGroup(groups: seq<seq<string>>, name: string)
    ensures InGroups(groups, name) <==> exists g :: g in groups && name in g
  {
    if InGroups(groups, name) {
      var i :| 0 <= i < |groups| && name in groups[i];
      assert groups[i] in groups;
    }
  }

  lemma InSomeSplit(splits: seq<Split>, screen: string)
    ensures IsSplit(splits, screen) <==> exists p :: p in splits && p.screen == screen
  {
    if IsSplit(splits, screen) {
      var i :| 0 <= i < |splits| && splits[i].screen == screen;
      assert splits[i] in splits;
    }
  }

  ghost function Parsed(args: seq<Arg>): Option<Settings> {
    if args == [] then Some(NOTHING)
    else
      match Parsed(args[..|args| - 1])
      case None => None
      case Some(st) => Applied(st, args[|args| - 1])
  }

  // ----- the argument actions -----

  class Arguments {
    var mode: Mode
    var backgrounds: set<string>
    var playlists: set<string>
    var groups: seq<seq<string>>
    var splits: seq<Split>
    var lastScreen: string

    ghost function Value(): Settings
      reads this
    {
      Settings(mode, backgrounds, playlists, groups, splits, lastScreen)
    }

    constructor ()
      ensures Value() == NOTHING
    {
      mode, backgrounds, playlists, groups, splits, lastScreen := NormalWindow, {}, {}, [], [], "";
    }

    method InSomeGroup(name: string) returns (found: bool)
      ensures found <==> InGroups(groups, name)
    {
      var i := 0;
      while i < |groups|
        invariant 0 <= i <= |groups|
        invariant forall k :: 0 <= k < i ==> name !in groups[k]
      {
        if name in groups[i] {
          return true;
        }
        i := i + 1;
      }
      return false;
    }

    /** findSplitScreen, as a position. */
    method FindSplitScreen(screenOrSlot: string) returns (found: bool, at: nat)
      ensures found <==> IsSplit(splits, ScreenOf(screenOrSlot))
      ensures found ==> at < |splits| && splits[at].screen == ScreenOf(screenOrSlot)
      ensures found ==> forall k :: 0 <= k < at ==> splits[k].screen != ScreenOf(screenOrSlot)
    {
      var screen := screenOrSlot[..LastIndexOf(screenOrSlot, '#')];
      at := 0;
      while at < |splits|
        invariant at <= |splits|
        invariant forall k :: 0 <= k < at ==> splits[k].screen != screen
      {
        if splits[at].screen == screen {
          return true, at;
        }
        at := at + 1;
      }
      return false, at;
    }

    /** The checks that keep a screen with its first owner. */
    method IsFree(name: string) returns (free: bool)
      ensures free <==> Free(Value(), name)
    {
      if name in backgrounds {
        return false;
      }
      var grouped := InSomeGroup(name);
      if grouped {
        return false;
      }
      var split, _ := FindSplitScreen(name);
      return !split;
    }

    method ScreenRoot(name: string) returns (ok: bool)
      modifies this
      ensures ok <==> Applied(old(Value()), Root(name)).Some?
      ensures Value() == if ok then Applied(old(Value()), Root(name)).value else old(Value())
    {
      var free := IsFree(name);
      if !free || mode == ExplicitWindow {
        return false;
      }
      mode, lastScreen := Desktop, name;
      backgrounds := backgrounds + {lastScreen};
      return true;
    }

    /** The screens of a comma-separated list, when all of them are free and none is repeated. */
    method GatherScreens(value: string) returns (ok: bool, group: seq<string>)
      ensures ok <==> NoRepeats(Listed(value)) && forall x :: x in Listed(value) ==> Free(Value(), x)
      ensures ok ==> group == Listed(value)
    {
      hide Listed, Free, IndexOf;
      ok, group := true, [];
      var rest := value;
      assert group + Listed(rest) == Listed(rest);
      while rest != ""
        invariant Listed(value) == group + Listed(rest)
        invariant NoRepeats(group) && forall x :: x in group ==> Free(Value(), x)
        decreases |rest|
      {
        var c := IndexOf(rest, ',');
        var screen := rest[..c];
        ListedNext(rest);
        rest := if c < |rest| then rest[c + 1..] else "";
        if screen == "" {
          continue;
        }
        JoinNext(group, screen, Listed(rest));
        assert screen in Listed(value);
        if screen in group {
          RepeatedName(group, screen, Listed(rest));
          return false, group;
        }
        var free := IsFree(screen);
        if !free {
          return false, group;
        }
        group := group + [screen];
      }
      NothingListed(group);
    }

    method ScreenSpan(value: string) returns (ok: bool)
      modifies this
      ensures ok <==> Applied(old(Value()), Span(value)).Some?
      ensures Value() == if ok then Applied(old(Value()), Span(value)).value
                         else if old(mode) == ExplicitWindow then old(Value()) else old(Value()).(mode := Desktop)
    {
      hide Listed, NoRepeats;
      if mode == ExplicitWindow {
        return false;
      }
      mode := Desktop;
      assert forall x :: Free(Value(), x) <==> Free(old(Value()), x);
      hide Free;
      var gathered, group := GatherScreens(value);
      if !gathered || |group| < 2 {
        return false;
      }
      groups, lastScreen := groups + [group], "span:" + value;
      backgrounds := backgrounds + {lastScreen};
      return true;
    }

    method ScreenSlot(name: string) returns (ok: bool)
      modifies this
      ensures ok <==> Applied(old(Value()), Slot(name)).Some?
      ensures Value() == if ok then Applied(old(Value()), Slot(name)).value else old(Value())
    {
      if mode == ExplicitWindow {
        return false;
      }
      if name == "" || '#' in name || StartsWith(name, "span:") || name in backgrounds {
        return false;
      }
      var grouped := InSomeGroup(name);
      if grouped {
        return false;
      }
      mode := Desktop;
      ghost var was := splits;
      var at := 0;
      while at < |splits| && splits[at].screen != name
        invariant at <= |splits| && splits == was
        invariant forall k :: 0 <= k < at ==> splits[k].screen != name
      {
        at := at + 1;
      }
      if at == |splits| {
        splits := splits + [Split(name, [])];
      }
      lastScreen := name + "#" + Decimal(|splits[at].slots| + 1);
      splits := splits[at := splits[at].(slots := splits[at].slots + [lastScreen])];
      WithSlotAt(was, name, at);
      backgrounds := backgrounds + {lastScreen};
      return true;
    }

    method SetBackground()
      modifies this
      ensures Some(Value()) == Applied(old(Value()), Background)
    {
      backgrounds := backgrounds + {lastScreen};
    }

    method SetPlaylist(hasItems: bool)
      modifies this
      ensures Some(Value()) == Applied(old(Value()), Playlist(hasItems))
    {
      if lastScreen != "" {
        playlists := playlists + {lastScreen};
        if hasItems {
          backgrounds := backgrounds + {lastScreen};
        }
      }
    }

    method SetWindow(valid: bool) returns (ok: bool)
      modifies this
      ensures ok <==> Applied(old(Value()), Window(valid)).Some?
      ensures ok ==> Value() == Applied(old(Value()), Window(valid)).value
    {
      if mode != NormalWindow {
        return false;
      }
      mode := ExplicitWindow;
      return valid;
    }

    /** loadSettingsFromArgv: the arguments in the order given, up to the first refused one. */
    method Parse(args: seq<Arg>) returns (ok: bool)
      requires Value() == NOTHING
      modifies this
      ensures ok <==> Parsed(args).Some?
      ensures ok ==> Value() == Parsed(args).value
    {
      hide Applied;
      ok := true;
      var i := 0;
      while i < |args| && ok
        invariant 0 <= i <= |args|
        invariant ok <==> Parsed(args[..i]).Some?
        invariant ok ==> Value() == Parsed(args[..i]).value
        invariant !ok ==> Parsed(args).None?
      {
        assert args[..i + 1][..i] == args[..i];
        match args[i] {
          case Root(name) => ok := ScreenRoot(name);
          case Span(value) => ok := ScreenSpan(value);
          case Slot(name) => ok := ScreenSlot(name);
          case Background => SetBackground();
          case Playlist(hasItems) => SetPlaylist(hasItems);
          case Window(valid) => ok := SetWindow(valid);
        }
        if !ok {
          RefusedStays(args, i + 1);
        }
        i := i + 1;
      }
      assert args[..|args|] == args;
    }
  }

  lemma ListedNext(rest: string)
    requires rest != ""
    ensures var c := IndexOf(rest, ',');
            Listed(rest) == (if c == 0 then [] else [rest[..c]]) + Listed(if c < |rest| then rest[c + 1..] else "")
  {
    hide IndexOf;
  }

  lemma JoinNext(group: seq<string>, screen: string, rest: seq<string>)
    ensures group + ([screen] + rest) == (group + [screen]) + rest && screen in group + ([screen] + rest)
  {
    assert (group + ([screen] + rest))[|group|] == screen;
  }

  lemma NothingListed(group: seq<string>)
    ensures group + Listed("") == group
  {
  }

  lemma RepeatedName(group: seq<string>, screen: string, rest: seq<string>)
    requires screen in group
    ensures !NoRepeats(group + [screen] + rest)
  {
    var names := group + [screen] + rest;
    var k :| 0 <= k < |group| && group[k] == screen;
    assert names[k] == screen && names[|group|] == screen;
  }

  lemma {:induction false} WithSlotAt(splits: seq<Split>, name: string, at: nat)
    requires at <= |splits| && forall k :: 0 <= k < at ==> splits[k].screen != name
    requires at < |splits| ==> splits[at].screen == name
    ensures var all := if at == |splits| then splits + [Split(name, [])] else splits;
            var slot := SlotName(name, |all[at].slots| + 1);
            WithSlot(splits, name) == (all[at := all[at].(slots := all[at].slots + [slot])], slot)
  {
    hide SlotName;
    if splits == [] {
      assert [] + [SlotName(name, 1)] == [SlotName(name, 1)];
      assert ([] + [Split(name, [])])[0 := Split(name, [SlotName(name, 1)])] == [Split(name, [SlotName(name, 1)])];
    } else if at == 0 {
      var slot := SlotName(name, |splits[0].slots| + 1);
      UpdateFront(splits, splits[0].(slots := splits[0].slots + [slot]));
    } else {
      var rest := if at == |splits| then splits[1..] + [Split(name, [])] else splits[1..];
      var slot := SlotName(name, |rest[at - 1].slots| + 1);
      WithSlotAt(splits[1..], name, at - 1);
      hide WithSlot;
      UpdateBehind(splits[0], rest, at - 1, rest[at - 1].(slots := rest[at - 1].slots + [slot]));
      WithSlotBehind(splits, name);
      assert [splits[0]] + rest == if at == |splits| then splits + [Split(name, [])] else splits;
    }
  }

  lemma WithSlotBehind(splits: seq<Split>, name: string)
    requires splits != [] && splits[0].screen != name
    ensures WithSlot(splits, name) ==
            ([splits[0]] + WithSlot(splits[1..], name).0, WithSlot(splits[1..], name).1)
  {
  }

  lemma UpdateFront<T>(s: seq<T>, y: T)
    requires s != []
    ensures s[0 := y] == [y] + s[1..]
  {
  }

  lemma UpdateBehind<T>(x: T, s: seq<T>, i: nat, y: T)
    requires i < |s|
    ensures ([x] + s)[i + 1 := y] == [x] + s[i := y]
  {
  }

  lemma {:induction false} RefusedStays(args: seq<Arg>, i: nat)
    requires i <= |args| && Parsed(args[..i]).None?
    ensures Parsed(args).None?
    decreases |args| - i
  {
    if i < |args| {
      assert args[..i + 1][..i] == args[..i];
      RefusedStays(args, i + 1);
    } else {
      assert args[..i] == args;
    }
  }

  // ----- no screen has two owners -----

  ghost predicate IsRoot(st: Settings, name: string) {
    name in st.backgrounds && !StartsWith(name, "span:")
  }

  ghost predicate OneOwner(st: Settings, name: string) {
    !(IsRoot(st, name) && InGroups(st.groups, name)) && !(IsRoot(st, name) && IsSplit(st.splits, name)) &&
    !(InGroups(st.groups, name) && IsSplit(st.splits, name))
  }

  ghost predicate GroupsApart(groups: seq<seq<string>>) {
    forall i, j, x :: 0 <= i < j < |groups| && x in groups[i] ==> x !in groups[j]
  }

  ghost predicate GoodGroup(group: seq<string>) {
    |group| >= 2 && NoRepeats(group) && forall x :: x in group ==> x != "" && ',' !in x
  }

  ghost predicate GoodSplit(split: Split) {
    split.screen != "" && '#' !in split.screen && !StartsWith(split.screen, "span:") &&
    forall k :: 0 <= k < |split.slots| ==> split.slots[k] == SlotName(split.screen, k + 1)
  }

  ghost predicate GoodSplits(splits: seq<Split>) {
    (forall i, j :: 0 <= i < j < |splits| ==> splits[i].screen != splits[j].screen) &&
    forall i :: 0 <= i < |splits| ==> GoodSplit(splits[i])
  }

  ghost predicate Loadable(st: Settings) {
    forall i, k :: 0 <= i < |st.splits| && 0 <= k < |st.splits[i].slots| ==> st.splits[i].slots[k] in st.backgrounds
  }

  ghost predicate Exclusive(st: Settings) {
    GroupsApart(st.groups) && (forall i :: 0 <= i < |st.groups| ==> GoodGroup(st.groups[i])) &&
    GoodSplits(st.splits) && Loadable(st) && (forall x: string :: '#' !in x ==> OneOwner(st, x)) &&
    (st.lastScreen == "" || st.lastScreen in st.backgrounds)
  }

  lemma NoHash(name: string)
    requires '#' !in name
    ensures ScreenOf(name) == name
  {
  }

  lemma RootKeeps(st: Settings, name: string)
    requires Exclusive(st) && Applied(st, Root(name)).Some?
    ensures Exclusive(Applied(st, Root(name)).value)
  {
    hide GoodGroup, GoodSplits, GroupsApart, IsSplit, InGroups, ScreenOf;
    var next := Applied(st, Root(name)).value;
    forall x: string | '#' !in x ensures OneOwner(next, x) {
      assert OneOwner(st, x);
      NoHash(x);
    }
  }

  lemma NewGroup(groups: seq<seq<string>>, names: seq<string>, x: string)
    ensures InGroups(groups + [names], x) <==> InGroups(groups, x) || x in names
  {
    var all := groups + [names];
    if InGroups(groups, x) {
      var i :| 0 <= i < |groups| && x in groups[i];
      assert x in all[i];
    }
    if x in names {
      assert x in all[|groups|];
    }
  }

  lemma GroupedIsTaken(st: Settings, i: nat, x: string)
    requires i < |st.groups| && x in st.groups[i]
    ensures !Free(st, x)
  {
  }

  lemma SpanKeeps(st: Settings, value: string)
    requires Exclusive(st) && Applied(st, Span(value)).Some?
    ensures Exclusive(Applied(st, Span(value)).value)
  {
    hide GoodSplits, IsSplit, ScreenOf, Listed;
    var next, names := Applied(st, Span(value)).value, Listed(value);
    assert StartsWith("span:" + value, "span:");
    forall i, j, x | 0 <= i < j < |next.groups| && x in next.groups[i] ensures x !in next.groups[j] {
      GroupedIsTaken(st, i, x);
    }
    hide InGroups;
    forall x: string | '#' !in x ensures OneOwner(next, x) {
      assert OneOwner(st, x);
      NoHash(x);
      NewGroup(st.groups, names, x);
      if x in names {
        assert Free(st, x);
      }
    }
  }

  lemma {:induction false} SlotFound(splits: seq<Split>, name: string) returns (at: nat)
    ensures at <= |splits| && forall k :: 0 <= k < at ==> splits[k].screen != name
    ensures at < |splits| ==> splits[at].screen == name
  {
    at := 0;
    while at < |splits| && splits[at].screen != name
      invariant at <= |splits| && forall k :: 0 <= k < at ==> splits[k].screen != name
    {
      at := at + 1;
    }
  }

  lemma NewSlot(splits: seq<Split>, name: string)
    requires GoodSplits(splits) && name != "" && '#' !in name && !StartsWith(name, "span:")
    ensures var (after, slot) := WithSlot(splits, name);
            GoodSplits(after) && '#' in slot && (forall x :: IsSplit(after, x) <==> IsSplit(splits, x) || x == name) &&
            SlotsKept(splits, after, slot)
  {
    hide StartsWith, Decimal, GoodSplits, IsSplit;
    var at := SlotFound(splits, name);
    WithSlotAt(splits, name, at);
    hide WithSlot;
    var all := if at == |splits| then splits + [Split(name, [])] else splits;
    var (after, slot) := WithSlot(splits, name);
    assert slot[|name|] == '#';
    if at == |splits| {
      NewSplitIsGood(splits, name);
    } else {
      assert forall x :: IsSplit(splits, x) <==> IsSplit(splits, x) || x == name by {
        SplitScreen(splits, at);
      }
    }
    SlotAdded(all, name, at, slot);
  }

  ghost predicate SlotsKept(splits: seq<Split>, after: seq<Split>, slot: string) {
    forall i, k :: 0 <= i < |after| && 0 <= k < |after[i].slots| ==>
      after[i].slots[k] == slot || (i < |splits| && k < |splits[i].slots| && after[i].slots[k] == splits[i].slots[k])
  }

  lemma SplitScreen(splits: seq<Split>, at: nat)
    requires at < |splits|
    ensures IsSplit(splits, splits[at].screen)
  {
  }

  lemma NewSplitIsGood(splits: seq<Split>, name: string)
    requires GoodSplits(splits) && name != "" && '#' !in name && !StartsWith(name, "span:")
    requires forall k :: 0 <= k < |splits| ==> splits[k].screen != name
    ensures GoodSplits(splits + [Split(name, [])])
    ensures forall x :: IsSplit(splits + [Split(name, [])], x) <==> IsSplit(splits, x) || x == name
  {
    hide StartsWith;
    var all := splits + [Split(name, [])];
    SplitScreen(all, |splits|);
    forall i | 0 <= i < |splits| ensures IsSplit(all, splits[i].screen) {
      assert all[i] == splits[i];
      SplitScreen(all, i);
    }
  }

  lemma SlotAdded(all: seq<Split>, name: string, at: nat, slot: string)
    requires GoodSplits(all) && at < |all| && all[at].screen == name && slot == SlotName(name, |all[at].slots| + 1)
    ensures var after := all[at := all[at].(slots := all[at].slots + [slot])];
            GoodSplits(after) && (forall x :: IsSplit(after, x) <==> IsSplit(all, x)) && SlotsKept(all, after, slot)
  {
    hide StartsWith, SlotName;
    var after := all[at := all[at].(slots := all[at].slots + [slot])];
    assert GoodSplit(all[at]);
    forall i | 0 <= i < |all| ensures IsSplit(after, all[i].screen) {
      SplitScreen(after, i);
    }
  }

  lemma SlotKeeps(st: Settings, name: string)
    requires Exclusive(st) && Applied(st, Slot(name)).Some?
    ensures Exclusive(Applied(st, Slot(name)).value)
  {
    NewSlot(st.splits, name);
    hide GoodSplits, GoodGroup, GroupsApart, IsSplit, InGroups, WithSlot, Decimal;
    var next := Applied(st, Slot(name)).value;
    forall x: string | '#' !in x ensures OneOwner(next, x) {
      assert OneOwner(st, x);
      if x == name {
        SlotRootless(st, x);
      }
    }
  }

  lemma SlotRootless(st: Settings, name: string)
    requires SlotAllowed(st, name)
    ensures !IsRoot(st, name) && !InGroups(st.groups, name)
  {
  }

  lemma BackgroundKeeps(st: Settings)
    requires Exclusive(st)
    ensures Exclusive(st.(backgrounds := st.backgrounds + {st.lastScreen}))
  {
    hide GroupsApart;
    var next := st.(backgrounds := st.backgrounds + {st.lastScreen});
    forall x: string | '#' !in x ensures OneOwner(next, x) {
      assert OneOwner(st, x);
    }
  }

  lemma AppliedKeeps(st: Settings, arg: Arg)
    requires Exclusive(st) && Applied(st, arg).Some?
    ensures Exclusive(Applied(st, arg).value)
  {
    match arg {
      case Root(name) => RootKeeps(st, name);
      case Span(value) => SpanKeeps(st, value);
      case Slot(name) => SlotKeeps(st, name);
      case Background => BackgroundKeeps(st);
      case Playlist(hasItems) =>
        BackgroundKeeps(st);
        SameOwners(st, Applied(st, arg).value);
      case Window(valid) => SameOwners(st, Applied(st, arg).value);
    }
  }

  lemma SameOwners(st: Settings, next: Settings)
    requires Exclusive(st) && next.groups == st.groups && next.splits == st.splits && next.lastScreen == st.lastScreen
    requires next.backgrounds == st.backgrounds || next.backgrounds == st.backgrounds + {st.lastScreen}
    ensures Exclusive(next)
  {
    BackgroundKeeps(st);
    hide GroupsApart, GoodSplits, GoodGroup, IsSplit, InGroups;
    var other := st.(backgrounds := next.backgrounds);
    forall x: string | '#' !in x ensures OneOwner(next, x) {
      assert OneOwner(other, x);
    }
  }

  /** Every accepted list of arguments leaves each screen, whatever its name as long as that has no '#', with at most
      one of a background of its own, a span group and a split; the groups do not overlap, and each slot is named after
      its screen and its number. */
  lemma {:induction false} AcceptedIsExclusive(args: seq<Arg>)
    requires Parsed(args).Some?
    ensures Exclusive(Parsed(args).value)
  {
    hide Applied, Exclusive;
    if args == [] {
      NothingIsExclusive();
    } else {
      AcceptedIsExclusive(args[..|args| - 1]);
      AppliedKeeps(Parsed(args[..|args| - 1]).value, args[|args| - 1]);
    }
  }

  lemma NothingIsExclusive()
    ensures Exclusive(NOTHING)
  {
  }

  /** Two slots never share a name, nor a slot of one screen with a slot of another. */
  lemma SlotsApart(splits: seq<Split>, i: nat, k: nat, j: nat, l: nat)
    requires GoodSplits(splits) && i < |splits| && j < |splits| && k < |splits[i].slots| && l < |splits[j].slots|
    ensures splits[i].slots[k] == splits[j].slots[l] ==> i == j && k == l
    ensures ScreenOf(splits[i].slots[k]) == splits[i].screen
  {
    hide Decimal, StartsWith, LastIndexOf;
    assert GoodSplit(splits[i]) && GoodSplit(splits[j]);
    SlotNamesDiffer(splits[i].screen, k + 1, splits[j].screen, l + 1);
    LastHash(splits[i].screen, k + 1);
    assert SlotName(splits[i].screen, k + 1)[..|splits[i].screen|] == splits[i].screen;
  }

  // ----- when a screen does have two owners -----

  /** --screen-root was given this name. */
  ghost predicate RootGiven(args: seq<Arg>, name: string) {
    exists i :: 0 <= i < |args| && args[i] == Root(name)
  }

  ghost predicate IsSlot(splits: seq<Split>, name: string) {
    exists i, k :: 0 <= i < |splits| && 0 <= k < |splits[i].slots| && splits[i].slots[k] == name
  }

  /** What owns a name: a screen root, a span group, a split, or the slot of a split. */
  ghost predicate OwnedTwice(args: seq<Arg>, st: Settings, name: string) {
    var root, grouped := RootGiven(args, name), InGroups(st.groups, name);
    var split, slot := IsSplit(st.splits, name), IsSlot(st.splits, name);
    (root && grouped) || (root && split) || (root && slot) || (grouped && split) || (grouped && slot) || (split && slot)
  }

  /** The slot that the i-th argument adds has a name that is taken already: a key of the settings, or in a group. */
  ghost predicate TakesOver(args: seq<Arg>, i: nat)
    requires i < |args|
  {
    args[i].Slot? && Parsed(args[..i]).Some? &&
    var st := Parsed(args[..i]).value;
    var slot := WithSlot(st.splits, args[i].name).1;
    slot in st.backgrounds || InGroups(st.groups, slot)
  }

  ghost predicate SomeTakesOver(args: seq<Arg>) {
    exists i: nat :: i < |args| && TakesOver(args, i)
  }

  /** Where the keys of the settings come from, and who owns a name outside slots. */
  ghost predicate Accounted(args: seq<Arg>, st: Settings) {
    (forall x :: x in st.backgrounds ==>
       x == "" || StartsWith(x, "span:") || RootGiven(args, x) || IsSlot(st.splits, x)) &&
    (forall x :: RootGiven(args, x) ==> x in st.backgrounds && !InGroups(st.groups, x) && !IsSplit(st.splits, x))
  }

  lemma RootGivenNext(args: seq<Arg>, arg: Arg, x: string)
    ensures RootGiven(args + [arg], x) <==> RootGiven(args, x) || arg == Root(x)
  {
    var all := args + [arg];
    if RootGiven(args, x) {
      var i :| 0 <= i < |args| && args[i] == Root(x);
      assert all[i] == Root(x);
    }
    if arg == Root(x) {
      assert all[|args|] == Root(x);
    }
  }

  lemma SlotsNext(splits: seq<Split>, name: string, x: string)
    ensures IsSlot(WithSlot(splits, name).0, x) <==> IsSlot(splits, x) || x == WithSlot(splits, name).1
  {
    var at := SlotFound(splits, name);
    WithSlotAt(splits, name, at);
    hide WithSlot, SlotName;
    var all := if at == |splits| then splits + [Split(name, [])] else splits;
    var (after, slot) := WithSlot(splits, name);
    assert after == all[at := all[at].(slots := all[at].slots + [slot])];
    if IsSlot(splits, x) {
      var i, k :| 0 <= i < |splits| && 0 <= k < |splits[i].slots| && splits[i].slots[k] == x;
      assert after[i].slots[k] == x;
    }
    if x == slot {
      assert after[at].slots[|all[at].slots|] == x;
    }
    if IsSlot(after, x) && x != slot {
      var i, k :| 0 <= i < |after| && 0 <= k < |after[i].slots| && after[i].slots[k] == x;
      assert splits[i].slots[k] == x;
    }
  }

  lemma SplitsNext(splits: seq<Split>, name: string, x: string)
    requires GoodSplits(splits) && name != "" && '#' !in name && !StartsWith(name, "span:")
    ensures IsSplit(WithSlot(splits, name).0, x) <==> IsSplit(splits, x) || x == name
  {
    NewSlot(splits, name);
    hide WithSlot, GoodSplits, IsSplit;
  }

  lemma KnownSlot(st: Settings, x: string)
    requires Loadable(st) && IsSlot(st.splits, x)
    ensures x in st.backgrounds
  {
  }

  lemma SplitHasNoHash(st: Settings, x: string)
    requires GoodSplits(st.splits) && IsSplit(st.splits, x)
    ensures '#' !in x
  {
    var i :| 0 <= i < |st.splits| && st.splits[i].screen == x;
    assert GoodSplit(st.splits[i]);
  }

  lemma SlotIsHashed(splits: seq<Split>, x: string)
    requires GoodSplits(splits) && IsSlot(splits, x)
    ensures '#' in x && x != "" && !StartsWith(x, "span:")
  {
    hide Decimal;
    var i, k :| 0 <= i < |splits| && 0 <= k < |splits[i].slots| && splits[i].slots[k] == x;
    assert GoodSplit(splits[i]);
    NoSpanPrefix(splits[i].screen, k + 1);
  }

  lemma NoSpanPrefix(screen: string, n: nat)
    requires '#' !in screen && !StartsWith(screen, "span:")
    ensures '#' in SlotName(screen, n) && !StartsWith(SlotName(screen, n), "span:")
  {
    hide Decimal;
    var x := SlotName(screen, n);
    assert x[|screen|] == '#';
    if |screen| >= 5 {
      assert x[..5] == screen[..5];
    } else if |x| >= 5 {
      assert x[..5][|screen|] == '#' && '#' !in "span:";
    }
  }

  /** A new slot's name is no slot yet, and no span key. */
  lemma NewSlotName(splits: seq<Split>, name: string)
    requires GoodSplits(splits) && name != "" && '#' !in name && !StartsWith(name, "span:")
    ensures var slot := WithSlot(splits, name).1;
            !IsSlot(splits, slot) && slot != "" && !StartsWith(slot, "span:")
  {
    hide Decimal;
    var at := SlotFound(splits, name);
    WithSlotAt(splits, name, at);
    hide WithSlot, SlotName;
    var n := if at == |splits| then 0 else |splits[at].slots|;
    var slot := WithSlot(splits, name).1;
    assert slot == SlotName(name, n + 1);
    NoSpanPrefix(name, n + 1);
    forall i | 0 <= i < |splits| && splits[i].screen == name ensures |splits[i].slots| == n {
      assert i == at;
    }
    NumberIsNew(splits, name, n);
    hide GoodSplits, IsSlot, StartsWith;
  }

  lemma NumberIsNew(splits: seq<Split>, name: string, n: nat)
    requires GoodSplits(splits) && '#' !in name
    requires forall i :: 0 <= i < |splits| && splits[i].screen == name ==> |splits[i].slots| == n
    ensures !IsSlot(splits, SlotName(name, n + 1))
  {
    hide SlotName, StartsWith;
    forall i, k | 0 <= i < |splits| && 0 <= k < |splits[i].slots|
      ensures splits[i].slots[k] != SlotName(name, n + 1)
    {
      assert GoodSplit(splits[i]);
      if SlotName(splits[i].screen, k + 1) == SlotName(name, n + 1) {
        SlotNamesApart(splits[i].screen, k + 1, name, n + 1);
      }
    }
  }

  lemma SlotNamesApart(a: string, m: nat, b: string, n: nat)
    requires '#' !in a && '#' !in b && SlotName(a, m) == SlotName(b, n)
    ensures a == b && m == n
  {
    SlotNamesDiffer(a, m, b, n);
  }

  lemma AccountedRoot(args: seq<Arg>, st: Settings, name: string)
    requires Exclusive(st) && Accounted(args, st) && Applied(st, Root(name)).Some?
    ensures Accounted(args + [Root(name)], Applied(st, Root(name)).value)
  {
    hide InGroups, IsSlot, RootGiven, StartsWith, GoodSplits, IsSplit;
    forall x: string ensures RootGiven(args + [Root(name)], x) <==> RootGiven(args, x) || x == name {
      RootGivenNext(args, Root(name), x);
    }
    if IsSplit(st.splits, name) {
      SplitHasNoHash(st, name);
      NoHash(name);
    }
  }

  lemma AccountedSpan(args: seq<Arg>, st: Settings, value: string)
    requires Accounted(args, st) && Applied(st, Span(value)).Some?
    ensures Accounted(args + [Span(value)], Applied(st, Span(value)).value)
  {
    hide InGroups, IsSlot, RootGiven, IsSplit, Listed;
    assert StartsWith("span:" + value, "span:");
    hide StartsWith;
    var names := Listed(value);
    forall x: string
      ensures RootGiven(args + [Span(value)], x) <==> RootGiven(args, x)
      ensures InGroups(st.groups + [names], x) <==> InGroups(st.groups, x) || x in names
    {
      RootGivenNext(args, Span(value), x);
      NewGroup(st.groups, names, x);
    }
    forall x | x in names ensures !RootGiven(args, x) {
      assert Free(st, x);
    }
  }

  lemma AccountedSlot(args: seq<Arg>, st: Settings, name: string)
    requires Exclusive(st) && Accounted(args, st) && Applied(st, Slot(name)).Some?
    ensures Accounted(args + [Slot(name)], Applied(st, Slot(name)).value)
  {
    assert SlotAllowed(st, name);
    hide InGroups, IsSlot, RootGiven, IsSplit, StartsWith, WithSlot, GoodSplits;
    forall x: string
      ensures RootGiven(args + [Slot(name)], x) <==> RootGiven(args, x)
      ensures IsSlot(WithSlot(st.splits, name).0, x) <==> IsSlot(st.splits, x) || x == WithSlot(st.splits, name).1
      ensures IsSplit(WithSlot(st.splits, name).0, x) <==> IsSplit(st.splits, x) || x == name
    {
      RootGivenNext(args, Slot(name), x);
      SlotsNext(st.splits, name, x);
      SplitsNext(st.splits, name, x);
    }
  }

  lemma AccountedRest(args: seq<Arg>, st: Settings, arg: Arg)
    requires Exclusive(st) && Accounted(args, st) && Applied(st, arg).Some?
    requires arg.Background? || arg.Playlist? || arg.Window?
    ensures Accounted(args + [arg], Applied(st, arg).value)
  {
    hide InGroups, IsSlot, RootGiven, IsSplit, StartsWith, GoodSplits, Loadable, OneOwner;
    forall x: string ensures RootGiven(args + [arg], x) <==> RootGiven(args, x) {
      RootGivenNext(args, arg, x);
    }
  }

  /** A slot that is also a root or in a group. */
  ghost predicate SlotTaken(args: seq<Arg>, st: Settings) {
    exists x :: IsSlot(st.splits, x) && (RootGiven(args, x) || InGroups(st.groups, x))
  }

  lemma SlotTakenIff(args: seq<Arg>, st: Settings)
    requires Exclusive(st) && Accounted(args, st)
    ensures (exists x :: OwnedTwice(args, st, x)) <==> SlotTaken(args, st)
  {
    hide RootGiven, InGroups, IsSlot, IsSplit, GoodSplits, StartsWith, Loadable;
    forall x: string
      ensures OwnedTwice(args, st, x) <==> IsSlot(st.splits, x) && (RootGiven(args, x) || InGroups(st.groups, x))
    {
      if IsSlot(st.splits, x) {
        SlotIsHashed(st.splits, x);
      }
      if IsSplit(st.splits, x) {
        SplitHasNoHash(st, x);
        assert OneOwner(st, x);
      }
    }
    if SlotTaken(args, st) {
      var x :| IsSlot(st.splits, x) && (RootGiven(args, x) || InGroups(st.groups, x));
      assert OwnedTwice(args, st, x);
    }
  }

  /** Only an argument that adds a slot can make a slot share its name, and it does so if the name was taken. */
  lemma SlotTakenStep(args: seq<Arg>, st: Settings, arg: Arg)
    requires Exclusive(st) && Accounted(args, st) && Applied(st, arg).Some?
    ensures SlotTaken(args + [arg], Applied(st, arg).value) <==>
            SlotTaken(args, st) ||
            (arg.Slot? && var slot := WithSlot(st.splits, arg.name).1;
                          slot in st.backgrounds || InGroups(st.groups, slot))
  {
    var all, next := args + [arg], Applied(st, arg).value;
    hide RootGiven, InGroups, IsSlot, IsSplit, GoodSplits, StartsWith, WithSlot, Listed;
    forall x: string
      ensures RootGiven(all, x) <==> RootGiven(args, x) || arg == Root(x)
      ensures IsSlot(next.splits, x) <==>
              IsSlot(st.splits, x) || (arg.Slot? && x == WithSlot(st.splits, arg.name).1)
      ensures InGroups(next.groups, x) <==> InGroups(st.groups, x) || (arg.Span? && x in Listed(arg.value))
      ensures IsSlot(st.splits, x) ==> x in st.backgrounds
    {
      RootGivenNext(args, arg, x);
      if arg.Slot? {
        SlotsNext(st.splits, arg.name, x);
      }
      if arg.Span? {
        NewGroup(st.groups, Listed(arg.value), x);
      }
      if IsSlot(st.splits, x) {
        KnownSlot(st, x);
      }
    }
    hide Exclusive;
    if arg.Slot? {
      assert SlotAllowed(st, arg.name);
      SlotStep(args, st, arg.name);
    } else if arg.Span? {
      assert forall x :: x in Listed(arg.value) ==> Free(st, x);
    }
  }

  lemma SlotStep(args: seq<Arg>, st: Settings, name: string)
    requires Exclusive(st) && Accounted(args, st) && SlotAllowed(st, name)
    ensures var slot := WithSlot(st.splits, name).1;
            RootGiven(args, slot) <==> slot in st.backgrounds
  {
    NewSlotName(st.splits, name);
    hide RootGiven, IsSlot, GoodSplits, StartsWith, WithSlot;
  }

  lemma TakesOverNext(args: seq<Arg>, arg: Arg)
    requires Parsed(args).Some?
    ensures SomeTakesOver(args + [arg]) <==>
            SomeTakesOver(args) ||
            (arg.Slot? && var st := Parsed(args).value;
                          var slot := WithSlot(st.splits, arg.name).1;
                          slot in st.backgrounds || InGroups(st.groups, slot))
  {
    hide Parsed, WithSlot, InGroups;
    var all := args + [arg];
    assert all[..|args|] == args;
    forall i: nat | i < |args| ensures TakesOver(all, i) <==> TakesOver(args, i) {
      assert all[..i] == args[..i];
    }
    if SomeTakesOver(args) {
      var i: nat :| i < |args| && TakesOver(args, i);
      assert TakesOver(all, i);
    }
    assert TakesOver(all, |args|) <==>
           (arg.Slot? && var st := Parsed(args).value;
                         var slot := WithSlot(st.splits, arg.name).1;
                         slot in st.backgrounds || InGroups(st.groups, slot));
  }

  lemma {:induction false} AcceptedIsAccounted(args: seq<Arg>)
    requires Parsed(args).Some?
    ensures Accounted(args, Parsed(args).value)
    ensures SlotTaken(args, Parsed(args).value) <==> SomeTakesOver(args)
  {
    hide Applied, Exclusive, Accounted, SlotTaken, TakesOver;
    if args == [] {
      NothingAccounted();
    } else {
      var front, arg := args[..|args| - 1], args[|args| - 1];
      var st := Parsed(front).value;
      AcceptedIsExclusive(front);
      AcceptedIsAccounted(front);
      assert front + [arg] == args;
      AccountedNext(front, st, arg);
      SlotTakenStep(front, st, arg);
      TakesOverNext(front, arg);
    }
  }

  lemma NothingAccounted()
    ensures Accounted([], NOTHING) && !SlotTaken([], NOTHING)
  {
  }

  lemma AccountedNext(args: seq<Arg>, st: Settings, arg: Arg)
    requires Exclusive(st) && Accounted(args, st) && Applied(st, arg).Some?
    ensures Accounted(args + [arg], Applied(st, arg).value)
  {
    hide Accounted, Exclusive;
    match arg {
      case Root(name) => AccountedRoot(args, st, name);
      case Span(value) => AccountedSpan(args, st, value);
      case Slot(name) => AccountedSlot(args, st, name);
      case _ => AccountedRest(args, st, arg);
    }
  }

  /** After accepted arguments some name has two owners, among roots, groups, splits and slots, if and only if some
      --screen-slot generated a name that was taken already, which the code does not look for. */
  lemma OwnedTwiceIff(args: seq<Arg>)
    requires Parsed(args).Some?
    ensures (exists x :: OwnedTwice(args, Parsed(args).value, x)) <==> SomeTakesOver(args)
  {
    hide Parsed, Exclusive, Accounted, SlotTaken, SomeTakesOver, OwnedTwice;
    AcceptedIsExclusive(args);
    AcceptedIsAccounted(args);
    SlotTakenIff(args, Parsed(args).value);
  }

  /** A screen root called "A#1" and then a first slot on screen A: both are accepted, and the name is root and slot. */
  lemma HashOwnedTwice()
    ensures var args := [Root("A#1"), Slot("A")];
            Parsed(args).Some? && RootGiven(args, "A#1") && IsSlot(Parsed(args).value.splits, "A#1") &&
            OwnedTwice(args, Parsed(args).value, "A#1")
  {
    var args := [Root("A#1"), Slot("A")];
    var one := NOTHING.(mode := Desktop, lastScreen := "A#1", backgrounds := {"A#1"});
    assert args[..1] == [Root("A#1")] && [Root("A#1")][..0] == [];
    assert Parsed(args[..1]) == Some(one) by {
      assert Parsed([]) == Some(NOTHING);
      assert NOTHING.backgrounds + {"A#1"} == {"A#1"};
    }
    assert Decimal(1) == "1";
    assert SlotName("A", 1) == "A#1";
    assert !StartsWith("A", "span:");
    assert "A" != "A#1" by {
      assert |"A"| != |"A#1"|;
    }
    assert args[0] == Root("A#1");
    var splits := Parsed(args).value.splits;
    assert splits == [Split("A", ["A#1"])];
    assert splits[0].slots[0] == "A#1";
  }

  // ----- the keys the wallpapers run under -----

  function GroupKey(group: seq<string>): string
    requires group != []
  {
    "span:" + group[0]
  }

  /** findSpanGroup, as a position. */
  function FindGroup(groups: seq<seq<string>>, key: string): (found: Option<nat>)
    ensures found.Some? ==> found.value < |groups| && groups[found.value] != [] && GroupKey(groups[found.value]) == key
    ensures found.None? ==> forall i :: 0 <= i < |groups| && groups[i] != [] ==> GroupKey(groups[i]) != key
  {
    if groups == [] then None
    else if groups[0] != [] && GroupKey(groups[0]) == key then Some(0)
    else
      match FindGroup(groups[1..], key)
      case None => None
      case Some(i) => Some(i + 1)
  }

  /** The keys of m_backgrounds after loadBackgrounds in desktop mode. */
  ghost function LoadedKeys(st: Settings): set<string> {
    (set k | k in st.backgrounds && !StartsWith(k, "span:")) +
    (set i | 0 <= i < |st.groups| && st.groups[i] != [] :: GroupKey(st.groups[i]))
  }

  /** What the live settings rest on: groups that do not overlap, and no other wallpaper on a group's screen. */
  ghost predicate Layout(keys: set<string>, groups: seq<seq<string>>) {
    GroupsApart(groups) && (forall i :: 0 <= i < |groups| ==> groups[i] != []) &&
    (forall i, x :: 0 <= i < |groups| && x in groups[i] ==> !StartsWith(x, "span:")) &&
    forall k :: k in keys ==> !InGroups(groups, k)
  }

  ghost predicate PlainSpan(arg: Arg) {
    arg.Span? ==> forall x :: x in Listed(arg.value) ==> '#' !in x && !StartsWith(x, "span:")
  }

  ghost predicate PlainGroups(groups: seq<seq<string>>) {
    forall i, x :: 0 <= i < |groups| && x in groups[i] ==> '#' !in x && !StartsWith(x, "span:")
  }

  lemma {:induction false} PlainSpansStay(args: seq<Arg>)
    requires Parsed(args).Some? && forall i :: 0 <= i < |args| ==> PlainSpan(args[i])
    ensures PlainGroups(Parsed(args).value.groups)
  {
    hide Listed, Free, SpanAllowed, SlotAllowed, WithSlot;
    if args != [] {
      PlainSpansStay(args[..|args| - 1]);
      assert PlainSpan(args[|args| - 1]);
    }
  }

  /** When no --screen-span lists a name with '#' or a "span:" prefix, the loaded wallpapers never share a screen. */
  lemma AcceptedGivesLayout(args: seq<Arg>)
    requires Parsed(args).Some? && forall i :: 0 <= i < |args| ==> PlainSpan(args[i])
    ensures Layout(LoadedKeys(Parsed(args).value), Parsed(args).value.groups)
  {
    hide Parsed, Listed;
    AcceptedIsExclusive(args);
    PlainSpansStay(args);
    var st := Parsed(args).value;
    forall k: string ensures InGroups(st.groups, k) ==> k !in LoadedKeys(st) {
      if InGroups(st.groups, k) {
        GroupedIsNoKey(st, k);
      }
    }
  }

  lemma GroupedIsNoKey(st: Settings, k: string)
    requires Exclusive(st) && PlainGroups(st.groups) && InGroups(st.groups, k)
    ensures k !in LoadedKeys(st)
  {
    assert OneOwner(st, k);
    hide OneOwner;
    assert !IsRoot(st, k) by {
      KnownOwner(st, k);
    }
    assert forall g :: 0 <= g < |st.groups| && st.groups[g] != [] ==> StartsWith(GroupKey(st.groups[g]), "span:");
  }

  lemma KnownOwner(st: Settings, k: string)
    requires OneOwner(st, k) && InGroups(st.groups, k)
    ensures !IsRoot(st, k)
  {
  }

  ghost predicate SpanGiven(args: seq<Arg>, key: string) {
    exists i :: 0 <= i < |args| && args[i].Span? && key == "span:" + args[i].value && |Listed(args[i].value)| >= 2
  }

  /** What a playlist can be filed under: a root, a slot, or the whole list of a span. */
  ghost predicate KeyGiven(args: seq<Arg>, st: Settings, key: string) {
    RootGiven(args, key) || IsSlot(st.splits, key) || SpanGiven(args, key)
  }

  ghost predicate PlaylistsGiven(args: seq<Arg>, st: Settings) {
    (forall k :: k in st.playlists ==> KeyGiven(args, st, k)) &&
    (st.lastScreen == "" || KeyGiven(args, st, st.lastScreen))
  }

  lemma KeyGivenNext(args: seq<Arg>, st: Settings, arg: Arg, key: string)
    requires Applied(st, arg).Some?
    ensures KeyGiven(args, st, key) ==> KeyGiven(args + [arg], Applied(st, arg).value, key)
    ensures arg == Root(key) ==> KeyGiven(args + [arg], Applied(st, arg).value, key)
    ensures arg.Span? && key == "span:" + arg.value ==> KeyGiven(args + [arg], Applied(st, arg).value, key)
    ensures arg.Slot? && key == WithSlot(st.splits, arg.name).1 ==> KeyGiven(args + [arg], Applied(st, arg).value, key)
  {
    var all := args + [arg];
    hide RootGiven, IsSlot, WithSlot, Listed, Free, SlotAllowed;
    RootGivenNext(args, arg, key);
    if SpanGiven(args, key) {
      var i :| 0 <= i < |args| && args[i].Span? && key == "span:" + args[i].value && |Listed(args[i].value)| >= 2;
      assert all[i] == args[i];
    }
    if arg.Slot? {
      SlotsNext(st.splits, arg.name, key);
    }
    assert all[|args|] == arg;
  }

  lemma {:induction false} AcceptedPlaylists(args: seq<Arg>)
    requires Parsed(args).Some?
    ensures PlaylistsGiven(args, Parsed(args).value)
  {
    hide KeyGiven;
    if args != [] {
      var front, arg := args[..|args| - 1], args[|args| - 1];
      var st := Parsed(front).value;
      AcceptedPlaylists(front);
      assert front + [arg] == args;
      hide Parsed;
      PlaylistsNext(front, st, arg);
    }
  }

  lemma PlaylistsNext(args: seq<Arg>, st: Settings, arg: Arg)
    requires PlaylistsGiven(args, st) && Applied(st, arg).Some?
    ensures PlaylistsGiven(args + [arg], Applied(st, arg).value)
  {
    hide KeyGiven, Free, SpanAllowed, SlotAllowed, WithSlot;
    forall k: string
      ensures KeyGiven(args, st, k) ==> KeyGiven(args + [arg], Applied(st, arg).value, k)
    {
      KeyGivenNext(args, st, arg, k);
    }
    KeyGivenNext(args, st, arg, Applied(st, arg).value.lastScreen);
  }

  /** Whatever arguments are accepted, a playlist is never filed under the key of a span group, unless a --screen-root
      was given that very key for a name. */
  lemma SpanPlaylistMissesGroup(args: seq<Arg>, key: string)
    requires Parsed(args).Some? && key in Parsed(args).value.playlists
    ensures FindGroup(Parsed(args).value.groups, key).Some? ==> RootGiven(args, key)
  {
    hide Parsed, FindGroup, RootGiven, IsSlot, SpanGiven, GoodSplits, StartsWith;
    var st := Parsed(args).value;
    AcceptedIsExclusive(args);
    AcceptedPlaylists(args);
    if FindGroup(st.groups, key).Some? {
      GroupKeyIsSpan(st.groups[FindGroup(st.groups, key).value]);
      if IsSlot(st.splits, key) {
        SlotIsHashed(st.splits, key);
      }
      if SpanGiven(args, key) {
        SpanGivenMisses(args, key, st.groups);
      }
    }
  }

  lemma GroupKeyIsSpan(group: seq<string>)
    requires group != []
    ensures StartsWith(GroupKey(group), "span:")
  {
  }

  lemma SpanGivenMisses(args: seq<Arg>, key: string, groups: seq<seq<string>>)
    requires SpanGiven(args, key) && forall i :: 0 <= i < |groups| ==> GoodGroup(groups[i])
    ensures FindGroup(groups, key).None?
  {
    var i :| 0 <= i < |args| && args[i].Span? && key == "span:" + args[i].value && |Listed(args[i].value)| >= 2;
    SpanKeyMissesGroups(args[i].value, groups);
  }

  /** A playlist given right after a span is filed, under a key that reaches no group. */
  lemma SpanPlaylistExample(args: seq<Arg>, value: string, hasItems: bool)
    requires Parsed(args + [Span(value)]).Some?
    ensures var parsed := Parsed(args + [Span(value)] + [Playlist(hasItems)]);
            parsed.Some? && "span:" + value in parsed.value.playlists &&
            FindGroup(parsed.value.groups, "span:" + value).None?
  {
    var before := args + [Span(value)];
    var all := before + [Playlist(hasItems)];
    assert all[..|before|] == before && before[..|args|] == args;
    assert Parsed(args).Some?;
    assert Applied(Parsed(args).value, Span(value)).Some?;
    var st := Parsed(all).value;
    AcceptedIsExclusive(all);
    hide Parsed, Listed;
    SpanKeyMissesGroups(value, st.groups);
  }

  lemma SpanKeyMissesGroups(value: string, groups: seq<seq<string>>)
    requires |Listed(value)| >= 2 && forall i :: 0 <= i < |groups| ==> GoodGroup(groups[i])
    ensures FindGroup(groups, "span:" + value).None?
  {
    var key := "span:" + value;
    assert ',' in value by {
      if ',' !in value {
        OnePiece(value);
      }
    }
    forall i | 0 <= i < |groups| && groups[i] != [] ensures GroupKey(groups[i]) != key {
      NoCommaInKey(groups[i], value);
    }
  }

  lemma NoCommaInKey(group: seq<string>, value: string)
    requires GoodGroup(group) && ',' in value
    ensures GroupKey(group) != "span:" + value
  {
    assert group[0] in group;
    assert GroupKey(group)[5..] == group[0] && ("span:" + value)[5..] == value;
  }

  lemma IndexMeansIn(s: string, c: char)
    ensures IndexOf(s, c) < |s| ==> c in s
  {
    if IndexOf(s, c) < |s| {
      assert s[IndexOf(s, c)] == c;
    }
  }

  lemma OnePiece(value: string)
    requires ',' !in value
    ensures |Listed(value)| <= 1
  {
    if value != "" {
      IndexMeansIn(value, ',');
      assert Listed("") == [];
    }
  }
}
