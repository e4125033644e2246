/** Playlist order, selection and failure handling (src/WallpaperEngine/Application/WallpaperApplication.cpp).

    The shuffles, the preflight check and the loading of a wallpaper are arbitrary inputs. */
module Playlist {
  import opened Cyclic

  const MINUTE := 60_000_000_000

  datatype Settings = Settings(delayMinutes: nat, timer: bool, random: bool, updateOnPause: bool, videoSequence: bool,
                               beginFirst: bool, playIntro: bool)
  {
    predicate HasIntro() {
      timer && beginFirst && playIntro
    }

    function Delay(): (d: int)
      ensures d >= MINUTE
    {
      (if delayMinutes > 1 then delayMinutes else 1) * MINUTE
    }
  }

  datatype State = State(order: seq<nat>, orderIndex: nat, nextSwitch: int, failed: set<nat>, introPlaying: bool)

  /** What the outside world answers during one advance: the shuffled order, should one be needed, whether the first
      candidate passes the preflight, and whether the chosen wallpaper loads. */
  datatype Answers = Answers(shuffled: seq<nat>, preflight: bool, loads: bool)

  datatype Choice = Nothing | Chosen(item: nat)

  datatype Position = NoneLeft | At(index: nat)

  function Iota(n: nat): (s: seq<nat>)
    ensures |s| == n && forall i :: 0 <= i < n ==> s[i] == i
  {
    seq(n, i requires 0 <= i < n => i)
  }

  predicate Intro(s: Settings, order: seq<nat>) {
    s.HasIntro() && |order| > 1
  }

  /** std::shuffle over the order, from the second entry on when there is an intro. */
  ghost predicate Shuffle(s: Settings, order: seq<nat>, shuffled: seq<nat>) {
    multiset(shuffled) == multiset(order) && (Intro(s, order) ==> shuffled != [] && shuffled[0] == order[0])
  }

  /** The order is a permutation of the items, with the intro item first, and the position is in it. */
  ghost predicate Valid(s: Settings, st: State) {
    multiset(st.order) == multiset(Iota(|st.order|)) && (Intro(s, st.order) ==> st.order[0] == 0) &&
    (st.order != [] ==> st.orderIndex < |st.order|)
  }

  lemma PermutationItems(order: seq<nat>)
    requires multiset(order) == multiset(Iota(|order|))
    ensures forall i :: 0 <= i < |order| ==> order[i] < |order|
    ensures forall i, j :: 0 <= i < j < |order| ==> order[i] != order[j]
  {
    forall i | 0 <= i < |order| ensures order[i] < |order| {
      assert order[i] in multiset(order);
      assert order[i] in Iota(|order|);
    }
    forall i, j | 0 <= i < j < |order| ensures order[i] != order[j] {
      if order[i] == order[j] {
        TwiceCounts(order, i, j);
        IotaOnce(|order|, order[i]);
      }
    }
  }

  lemma TwiceCounts(s: seq<nat>, i: nat, j: nat)
    requires i < j < |s| && s[i] == s[j]
    ensures multiset(s)[s[i]] >= 2
  {
    assert s == s[..i] + [s[i]] + s[i + 1..j] + [s[j]] + s[j + 1..];
  }

  lemma {:induction false} IotaOnce(n: nat, x: nat)
    ensures multiset(Iota(n))[x] <= 1
  {
    if n > 0 {
      IotaOnce(n - 1, x);
      assert Iota(n) == Iota(n - 1) + [n - 1];
      assert x == n - 1 ==> x !in Iota(n - 1);
    }
  }

  // ----- selection -----

  predicate Eligible(s: Settings, st: State, p: nat)
    requires p < |st.order|
  {
    !(st.order[p] == 0 && Intro(s, st.order) && !st.introPlaying) && st.order[p] !in st.failed
  }

  /** The k-th position after `start`, going round. */
  function Around(start: nat, k: nat, n: nat): (p: nat)
    requires start < n && k <= n
    ensures p < n
  {
    if start + k < n then start + k else if start + k - n < n then start + k - n else start
  }

  lemma AroundNext(start: nat, k: nat, n: nat)
    requires start < n && k < n
    ensures (Around(start, k, n) + 1) % n == Around(start, k + 1, n)
  {
    SuccIsMod(Around(start, k, n), n);
  }

  /** `found` is the first eligible position from `start` on, going round; there is none only if none is eligible. */
  ghost predicate FirstEligible(s: Settings, st: State, start: nat, found: Position)
    requires start < |st.order|
  {
    var n := |st.order|;
    match found
    case NoneLeft => forall k: nat :: k < n ==> !Eligible(s, st, Around(start, k, n))
    case At(p) =>
      p < n && Eligible(s, st, p) &&
      exists k: nat :: k < n && p == Around(start, k, n) &&
                       forall j: nat :: j < k ==> !Eligible(s, st, Around(start, j, n))
  }

  function SelectFrom(s: Settings, st: State, start: nat, k: nat): (found: Position)
    requires start < |st.order| && k <= |st.order|
    ensures found.At? ==> found.index < |st.order| && Eligible(s, st, found.index)
    decreases |st.order| - k
  {
    if k == |st.order| then NoneLeft
    else if Eligible(s, st, Around(start, k, |st.order|)) then At(Around(start, k, |st.order|))
    else SelectFrom(s, st, start, k + 1)
  }

  function Select(s: Settings, st: State, start: nat): (found: Position)
    requires start < |st.order|
    ensures found.At? ==> found.index < |st.order| && Eligible(s, st, found.index)
  {
    SelectFrom(s, st, start, 0)
  }

  lemma {:induction false} SelectFromIsFirst(s: Settings, st: State, start: nat, k: nat)
    requires start < |st.order| && k <= |st.order|
    requires forall j: nat :: j < k ==> !Eligible(s, st, Around(start, j, |st.order|))
    ensures FirstEligible(s, st, start, SelectFrom(s, st, start, k))
    decreases |st.order| - k
  {
    hide Eligible, Around;
    if k < |st.order| && !Eligible(s, st, Around(start, k, |st.order|)) {
      SelectFromIsFirst(s, st, start, k + 1);
    }
  }

  /** Selection returns the first eligible position in cyclic order, and fails exactly when no position is eligible. */
  lemma SelectIsFirst(s: Settings, st: State, start: nat)
    requires start < |st.order|
    ensures FirstEligible(s, st, start, Select(s, st, start))
    ensures Select(s, st, start) == NoneLeft <==> forall p: nat :: p < |st.order| ==> !Eligible(s, st, p)
  {
    SelectFromIsFirst(s, st, start, 0);
    var n := |st.order|;
    if Select(s, st, start) == NoneLeft {
      forall p: nat | p < n ensures !Eligible(s, st, p) {
        assert p == Around(start, if p >= start then p - start else p + n - start, n);
      }
    }
  }

  /** From a position on, nothing before the first eligible one is passed over: no wrap while one is ahead. */
  lemma SelectAhead(s: Settings, st: State, start: nat, p: nat)
    requires start <= p < |st.order| && Eligible(s, st, p)
    ensures Select(s, st, start).At? && start <= Select(s, st, start).index <= p
  {
    SelectIsFirst(s, st, start);
    assert p == Around(start, p - start, |st.order|);
  }

  // ----- one advance -----

  /** Moving on to the next position: a new round forgets the failures and may reshuffle. */
  function MovedOn(s: Settings, st: State, shuffled: seq<nat>): State
    requires st.orderIndex < |st.order|
  {
    if st.orderIndex + 1 < |st.order| then
      st.(orderIndex := st.orderIndex + 1, introPlaying := false)
    else
      st.(orderIndex := if Intro(s, st.order) then 1 else 0, introPlaying := false, failed := {},
          order := if s.random then shuffled else st.order)
  }

  /** The candidate that is loaded in the end: the first eligible one, or the one after it if it fails the preflight. */
  function Candidate(s: Settings, st: State, preflight: bool): (r: (State, Position))
    requires st.orderIndex < |st.order|
    ensures r.0.order == st.order && r.0.orderIndex == st.orderIndex && r.0.introPlaying == st.introPlaying
    ensures r.1.At? ==> r.1.index < |st.order| && Eligible(s, r.0, r.1.index)
  {
    match Select(s, st, st.orderIndex)
    case NoneLeft => (st, NoneLeft)
    case At(c) =>
      if preflight then (st, At(c))
      else
        var st' := st.(failed := st.failed + {st.order[c]});
        (st', Select(s, st', c))
  }

  function Advanced(s: Settings, st: State, now: int, a: Answers): (State, Choice)
    requires st.orderIndex < |st.order| && |a.shuffled| == |st.order|
  {
    var moved := MovedOn(s, st, a.shuffled);
    match Candidate(s, moved, a.preflight)
    case (st', NoneLeft) => (st'.(failed := {}, nextSwitch := now + s.Delay()), Nothing)
    case (st', At(c)) =>
      var item := st'.order[c];
      (st'.(orderIndex := c, nextSwitch := now + s.Delay(),
            failed := if a.loads then st'.failed else st'.failed + {item}),
       Chosen(item))
  }

  class ActivePlaylist {
    const settings: Settings
    var order: seq<nat>
    var orderIndex: nat
    var nextSwitch: int
    var failed: set<nat>
    var introPlaying: bool

    ghost function Value(): State
      reads this
    {
      State(order, orderIndex, nextSwitch, failed, introPlaying)
    }

    /** registerPlaylist: `current` holds the items whose path is the wallpaper on screen, if that is known. */
    constructor (settings: Settings, items: nat, shuffled: seq<nat>, current: set<nat>, now: int)
      requires items > 0 && Shuffle(settings, Iota(items), shuffled)
      ensures Valid(settings, Value()) && |order| == items && failed == {}
      ensures this.settings == settings && nextSwitch == now + settings.Delay()
      ensures introPlaying == Intro(settings, order)
      ensures if exists x :: x in current && x < items
              then order[orderIndex] in current && forall j :: 0 <= j < orderIndex ==> order[j] !in current
              else orderIndex == 0
    {
      this.settings := settings;
      var built := if settings.random then shuffled else Iota(items);
      var found := 0;
      BuiltOrder(settings, items, shuffled, built);
      var i := 0;
      while i < |built| && built[i] !in current
        invariant 0 <= i <= |built|
        invariant forall j :: 0 <= j < i ==> built[j] !in current
      {
        i := i + 1;
      }
      if i < |built| {
        found := i;
        assert built[i] in built && built[i] in current;
      } else {
        forall x: nat | x in current ensures x >= items {
          NotCurrent(built, current, x);
        }
      }
      order, orderIndex := built, found;
      failed, introPlaying := {}, settings.HasIntro() && items > 1;
      nextSwitch := now + settings.Delay();
    }

    /** selectNextCandidate. */
    method SelectNextCandidate(start: nat) returns (found: bool, position: nat)
      requires start < |order|
      ensures if found then Select(settings, Value(), start) == At(position)
              else Select(settings, Value(), start) == NoneLeft && position == start
    {
      hide Eligible;
      var attempts, candidate := 0, start;
      while attempts < |order|
        invariant attempts <= |order| && candidate == Around(start, attempts, |order|)
        invariant Select(settings, Value(), start) == SelectFrom(settings, Value(), start, attempts)
      {
        var item := order[candidate];
        var skippedIntro := item == 0 && settings.HasIntro() && |order| > 1 && !introPlaying;
        EligibleIs(candidate);
        if !skippedIntro && item !in failed {
          return true, candidate;
        }
        AroundNext(start, attempts, |order|);
        hide Around;
        attempts := attempts + 1;
        candidate := (candidate + 1) % |order|;
      }
      return false, start;
    }

    lemma EligibleIs(p: nat)
      requires p < |order|
      ensures Eligible(settings, Value(), p) <==>
              !(order[p] == 0 && settings.HasIntro() && |order| > 1 && !introPlaying) && order[p] !in failed
    {
    }

    /** The candidate of this advance, after a preflight that rejects the first one at most. */
    method PickCandidate(preflight: bool) returns (found: bool, c: nat)
      requires orderIndex < |order|
      modifies `failed
      ensures (Value(), if found then At(c) else NoneLeft) == Candidate(settings, old(Value()), preflight)
    {
      hide Eligible, Select;
      found, c := SelectNextCandidate(orderIndex);
      if found && !preflight {
        failed := failed + {order[c]};
        found, c := SelectNextCandidate(c);
      }
    }

    /** On to the next position; past the last one a new round begins. */
    method MoveOn(shuffled: seq<nat>)
      requires orderIndex < |order| == |shuffled|
      modifies `order, `orderIndex, `failed, `introPlaying
      ensures Value() == MovedOn(settings, old(Value()), shuffled)
    {
      SuccIsMod(orderIndex, |order|);
      orderIndex := (orderIndex + 1) % |order|;
      introPlaying := false;
      var intro := settings.HasIntro() && |order| > 1;
      if orderIndex == 0 {
        failed := {};
        if settings.random {
          order := shuffled;
        }
        if intro {
          orderIndex := 1;
        }
      }
    }

    /** advancePlaylist; the answers come from the shuffle, the preflight and the loader. */
    method Advance(now: int, a: Answers) returns (choice: Choice)
      requires Valid(settings, Value()) && |a.shuffled| == |order|
      modifies this
      ensures order == [] || old(order) == [] ==> Value() == old(Value()) && choice == Nothing
      ensures old(order) != [] ==> (Value(), choice) == Advanced(settings, old(Value()), now, a)
    {
      if order == [] {
        return Nothing;
      }
      hide Eligible, Select, Valid;
      MoveOn(a.shuffled);
      hide MovedOn;
      var found, c := PickCandidate(a.preflight);
      hide Candidate;
      nextSwitch := now + settings.Delay();
      if !found {
        failed := {};
        return Nothing;
      }
      orderIndex := c;
      choice := Chosen(order[c]);
      if !a.loads {
        failed := failed + {order[c]};
      }
    }
  }

  lemma NotCurrent(built: seq<nat>, current: set<nat>, x: nat)
    requires forall j :: 0 <= j < |built| ==> built[j] !in current
    ensures x in current ==> x !in built
  {
  }

  lemma BuiltOrder(s: Settings, items: nat, shuffled: seq<nat>, built: seq<nat>)
    requires items > 0 && Shuffle(s, Iota(items), shuffled)
    requires built == if s.random then shuffled else Iota(items)
    ensures |built| == items && multiset(built) == multiset(Iota(items))
    ensures s.HasIntro() && items > 1 ==> built[0] == 0
    ensures forall x: nat :: x in built <==> x < items
  {
    assert |built| == |multiset(built)| == |multiset(Iota(items))| == items;
    forall x: nat | x < items ensures x in built {
      assert Iota(items)[x] == x;
      assert x in multiset(Iota(items));
    }
    forall x: nat | x in built ensures x < items {
      assert x in multiset(built);
    }
  }

  // ----- whole runs -----

  datatype Tick = Tick(now: int, answers: Answers)

  /** A run of advances: any clock, any shuffles, any preflight results, any load results. */
  ghost predicate Run(s: Settings, states: seq<State>, choices: seq<Choice>, ticks: seq<Tick>) {
    |states| == |ticks| + 1 && |choices| == |ticks| &&
    forall i :: 0 <= i < |ticks| ==> Step(s, states[i], ticks[i], states[i + 1], choices[i])
  }

  ghost predicate Step(s: Settings, st: State, tick: Tick, next: State, choice: Choice) {
    st.orderIndex < |st.order| && Shuffle(s, st.order, tick.answers.shuffled) &&
    |tick.answers.shuffled| == |st.order| && (next, choice) == Advanced(s, st, tick.now, tick.answers)
  }

  predicate Wraps(st: State) {
    st.orderIndex + 1 == |st.order|
  }

  lemma MovedOnKeepsValid(s: Settings, st: State, shuffled: seq<nat>)
    requires Valid(s, st) && st.orderIndex < |st.order| == |shuffled| && Shuffle(s, st.order, shuffled)
    ensures Valid(s, MovedOn(s, st, shuffled)) && |MovedOn(s, st, shuffled).order| == |st.order|
    ensures !MovedOn(s, st, shuffled).introPlaying
    ensures MovedOn(s, st, shuffled).failed == if Wraps(st) then {} else st.failed
    ensures !Wraps(st) ==> MovedOn(s, st, shuffled).order == st.order
  {
    hide Iota;
  }

  /** What one advance keeps and changes, whatever the world answers. */
  lemma StepIsSafe(s: Settings, st: State, tick: Tick, next: State, choice: Choice)
    requires Valid(s, st) && Step(s, st, tick, next, choice)
    ensures Valid(s, next) && |next.order| == |st.order| && !next.introPlaying
    ensures next.nextSwitch == tick.now + s.Delay()
    ensures !Wraps(st) ==> next.order == st.order
    ensures choice.Chosen? ==>
              choice.item == next.order[next.orderIndex] && choice.item < |st.order| &&
              (choice.item in st.failed ==> Wraps(st)) && (choice.item == 0 ==> !Intro(s, st.order)) &&
              (choice.item in next.failed <==> !tick.answers.loads) && (!Wraps(st) ==> st.failed <= next.failed)
    ensures choice == Nothing ==> next.failed == {}
  {
    MovedOnKeepsValid(s, st, tick.answers.shuffled);
    var moved := MovedOn(s, st, tick.answers.shuffled);
    PermutationItems(moved.order);
    hide MovedOn, Select, Shuffle;
    var (picked, position) := Candidate(s, moved, tick.answers.preflight);
    assert picked.failed >= moved.failed;
  }

  /** Over any run of advances the order stays a permutation with the intro item pinned first, the position stays in
      range, the intro is never selected again, and no item is chosen that failed earlier in the same round. */
  lemma {:induction false} RunIsSafe(s: Settings, states: seq<State>, choices: seq<Choice>, ticks: seq<Tick>, k: nat)
    requires Run(s, states, choices, ticks) && Valid(s, states[0]) && k <= |ticks|
    ensures Valid(s, states[k]) && |states[k].order| == |states[0].order|
    ensures 0 < k ==> !states[k].introPlaying
    ensures 0 < k && choices[k - 1].Chosen? ==>
              choices[k - 1].item == states[k].order[states[k].orderIndex] && choices[k - 1].item < |states[0].order| &&
              (choices[k - 1].item == 0 ==> !Intro(s, states[0].order)) &&
              (choices[k - 1].item in states[k - 1].failed ==> Wraps(states[k - 1]))
  {
    hide Valid, Step;
    if k > 0 {
      RunIsSafe(s, states, choices, ticks, k - 1);
      assert Step(s, states[k - 1], ticks[k - 1], states[k], choices[k - 1]);
      RunStepIsSafe(s, states[k - 1], ticks[k - 1], states[k], choices[k - 1]);
    }
  }

  lemma RunStepIsSafe(s: Settings, st: State, tick: Tick, next: State, choice: Choice)
    requires Valid(s, st) && Step(s, st, tick, next, choice)
    ensures Valid(s, next) && |next.order| == |st.order| && !next.introPlaying && next.orderIndex < |next.order|
    ensures choice.Chosen? ==>
              choice.item == next.order[next.orderIndex] && choice.item < |st.order| &&
              (choice.item == 0 ==> !Intro(s, st.order)) && (choice.item in st.failed ==> Wraps(st))
  {
    StepIsSafe(s, st, tick, next, choice);
  }

  /** An advance gives up exactly when no position is eligible but the one that the preflight just rejected. */
  lemma NothingIff(s: Settings, st: State, tick: Tick, next: State, choice: Choice)
    requires Step(s, st, tick, next, choice)
    ensures var moved := MovedOn(s, st, tick.answers.shuffled);
            choice == Nothing <==>
            forall p: nat :: p < |moved.order| && Eligible(s, moved, p) ==>
              !tick.answers.preflight && moved.order[p] == moved.order[FirstIndex(s, moved)]
  {
    var moved := MovedOn(s, st, tick.answers.shuffled);
    hide MovedOn, Shuffle, Select;
    SelectIsFirst(s, moved, moved.orderIndex);
    if Select(s, moved, moved.orderIndex).At? {
      var c := Select(s, moved, moved.orderIndex).index;
      var rejected := moved.(failed := moved.failed + {moved.order[c]});
      assert Eligible(s, moved, c) && FirstIndex(s, moved) == c;
      SelectIsFirst(s, rejected, c);
      assert forall p: nat :: p < |moved.order| ==>
          (Eligible(s, rejected, p) <==> Eligible(s, moved, p) && moved.order[p] != moved.order[c]);
    }
  }

  function FirstIndex(s: Settings, st: State): (p: nat)
    requires st.orderIndex < |st.order|
    ensures p < |st.order|
  {
    match Select(s, st, st.orderIndex)
    case NoneLeft => st.orderIndex
    case At(c) => c
  }

  /** The deadline an advance or a registration sets is delay minutes away, or one minute where the delay is none. */
  lemma DelayInMinutes(s: Settings)
    ensures s.Delay() >= s.delayMinutes * 60_000_000_000 && s.Delay() >= 60_000_000_000
    ensures s.Delay() == s.delayMinutes * 60_000_000_000 || (s.delayMinutes == 0 && s.Delay() == 60_000_000_000)
  {
  }

  /** A sequential playlist keeps its order; a random one is reshuffled exactly when a new round begins. A new round
      starts over with no failures, behind the intro if there is one. */
  lemma StepOrder(s: Settings, st: State, tick: Tick, next: State, choice: Choice)
    requires Valid(s, st) && Step(s, st, tick, next, choice)
    ensures next.order == if s.random && st.orderIndex == |st.order| - 1 then tick.answers.shuffled else st.order
    ensures next.order != [] && (Intro(s, st.order) ==> next.order[0] == st.order[0] == 0)
  {
    hide Select, Iota;
  }

  lemma {:induction false} SequentialKeepsOrder(s: Settings, states: seq<State>, choices: seq<Choice>, ticks: seq<Tick>,
                                                k: nat)
    requires Run(s, states, choices, ticks) && Valid(s, states[0]) && !s.random && k <= |ticks|
    ensures states[k].order == states[0].order
  {
    hide Step, Valid;
    if k > 0 {
      SequentialKeepsOrder(s, states, choices, ticks, k - 1);
      RunIsSafe(s, states, choices, ticks, k - 1);
      assert Step(s, states[k - 1], ticks[k - 1], states[k], choices[k - 1]);
      StepOrder(s, states[k - 1], ticks[k - 1], states[k], choices[k - 1]);
    }
  }

  /** Where an advance starts looking: behind the present position, or at the first one of a new round, which forgets
      what failed. The intro is over by then. */
  function Searched(st: State, next: State, s: Settings): State {
    if st.orderIndex + 1 < |st.order| then State(next.order, st.orderIndex + 1, st.nextSwitch, st.failed, false)
    else State(next.order, if s.HasIntro() && |st.order| > 1 then 1 else 0, st.nextSwitch, {}, false)
  }

  /** The item an advance ends on: the first eligible one from there on, going round; or, if the preflight rejects that,
      the first eligible one behind it, the rejected one being failed from now on. What was chosen fails if it does not
      load, and where nothing is left all failures are forgotten. */
  lemma AdvanceChooses(s: Settings, st: State, tick: Tick, next: State, choice: Choice) returns (rejected: State)
    requires Valid(s, st) && Step(s, st, tick, next, choice)
    ensures var from := Searched(st, next, s);
            var found := if choice.Chosen? then At(next.orderIndex) else NoneLeft;
            from.orderIndex < |from.order| && rejected.order == from.order && rejected.orderIndex < |from.order| &&
            (tick.answers.preflight ==> rejected == from && FirstEligible(s, from, from.orderIndex, found)) &&
            (!tick.answers.preflight && rejected == from ==>
               FirstEligible(s, from, from.orderIndex, NoneLeft) && found == NoneLeft) &&
            (!tick.answers.preflight && rejected != from ==>
               var c := rejected.orderIndex;
               FirstEligible(s, from, from.orderIndex, At(c)) &&
               rejected.failed == from.failed + {from.order[c]} && rejected.introPlaying == from.introPlaying &&
               FirstEligible(s, rejected, c, found)) &&
            next.failed == (if choice.Nothing? then {}
                            else rejected.failed + if tick.answers.loads then {} else {choice.item})
  {
    MovedOnKeepsValid(s, st, tick.answers.shuffled);
    var moved := MovedOn(s, st, tick.answers.shuffled);
    rejected := moved;
    hide Shuffle, Select, FirstEligible, Iota;
    assert moved == Searched(st, next, s);
    SelectIsFirst(s, moved, moved.orderIndex);
    if !tick.answers.preflight && Select(s, moved, moved.orderIndex).At? {
      var c := Select(s, moved, moved.orderIndex).index;
      rejected := moved.(failed := moved.failed + {moved.order[c]});
      SelectIsFirst(s, rejected, c);
      assert moved.order[c] !in moved.failed;
      FirstEligibleAt(s, rejected, c);
      rejected := rejected.(orderIndex := c);
    }
  }

  // Where the search ends does not depend on the position.
  lemma FirstEligibleAt(s: Settings, st: State, start: nat)
    requires start < |st.order|
    ensures forall found :: FirstEligible(s, st, start, found)
                            <==> FirstEligible(s, st.(orderIndex := start), start, found)
  {
    hide Around;
    var st' := st.(orderIndex := start);
    assert forall p: nat :: p < |st.order| ==> (Eligible(s, st, p) <==> Eligible(s, st', p));
  }

  // ----- rounds -----

  predicate Succeeds(tick: Tick) {
    tick.answers.preflight && tick.answers.loads
  }

  function First(s: Settings, order: seq<nat>): nat {
    if Intro(s, order) then 1 else 0
  }

  /** With nothing failed and nothing failing, an advance takes the next position, or the first of a new round. */
  lemma CleanStep(s: Settings, st: State, tick: Tick, next: State, choice: Choice)
    requires Valid(s, st) && Step(s, st, tick, next, choice) && Succeeds(tick)
    requires Wraps(st) || st.failed == {}
    ensures next.failed == {} && choice == Chosen(next.order[next.orderIndex])
    ensures next.orderIndex == if Wraps(st) then First(s, st.order) else st.orderIndex + 1
  {
    MovedOnKeepsValid(s, st, tick.answers.shuffled);
    var moved := MovedOn(s, st, tick.answers.shuffled);
    PermutationItems(moved.order);
    NotIntro(s, moved);
    SelectAhead(s, moved, moved.orderIndex, moved.orderIndex);
    hide Select, Eligible, Valid, Shuffle;
  }

  lemma NotIntro(s: Settings, moved: State)
    requires Valid(s, moved) && moved.orderIndex < |moved.order| && moved.failed == {}
    requires Intro(s, moved.order) ==> moved.orderIndex > 0
    ensures Eligible(s, moved, moved.orderIndex)
  {
    PermutationItems(moved.order);
  }

  ghost predicate CleanRun(s: Settings, states: seq<State>, choices: seq<Choice>, ticks: seq<Tick>) {
    Run(s, states, choices, ticks) && Valid(s, states[0]) && forall i :: 0 <= i < |ticks| ==> Succeeds(ticks[i])
  }

  lemma {:induction false} RoundSoFar(s: Settings, states: seq<State>, choices: seq<Choice>, ticks: seq<Tick>, k: nat)
    requires CleanRun(s, states, choices, ticks) && Wraps(states[0]) && 0 < k <= |ticks|
    requires First(s, states[0].order) + k <= |states[0].order|
    ensures Valid(s, states[k]) && |states[k].order| == |states[0].order| && states[k].order == states[1].order
    ensures states[k].failed == {} && states[k].orderIndex == First(s, states[0].order) + k - 1
    ensures choices[k - 1] == Chosen(states[1].order[First(s, states[0].order) + k - 1])
  {
    hide Valid, Step;
    if k > 1 {
      RoundSoFar(s, states, choices, ticks, k - 1);
    }
    assert Step(s, states[k - 1], ticks[k - 1], states[k], choices[k - 1]);
    CleanStep(s, states[k - 1], ticks[k - 1], states[k], choices[k - 1]);
    StepIsSafe(s, states[k - 1], ticks[k - 1], states[k], choices[k - 1]);
  }

  function Items(choices: seq<Choice>): (items: seq<nat>)
    requires forall c :: c in choices ==> c.Chosen?
    ensures |items| == |choices| && forall i :: 0 <= i < |items| ==> items[i] == choices[i].item
  {
    seq<nat>(|choices|, i requires 0 <= i < |choices| => choices[i].item)
  }

  /** Between two wrap-arounds without failures every item, or every item but the intro, is selected exactly once: for
      the sequential order and for any reshuffle, whatever failed before the round began. */
  lemma RoundIsComplete(s: Settings, states: seq<State>, choices: seq<Choice>, ticks: seq<Tick>)
    requires CleanRun(s, states, choices, ticks) && Wraps(states[0])
    requires |ticks| == |states[0].order| - First(s, states[0].order)
    ensures forall c :: c in choices ==> c.Chosen?
    ensures multiset(Items(choices)) == multiset(Iota(|states[0].order|)[First(s, states[0].order)..])
    ensures Wraps(states[|ticks|]) && Valid(s, states[|ticks|])
  {
    hide Step, Valid, Run;
    RunLengths(s, states, choices, ticks);
    var first := First(s, states[0].order);
    assert |ticks| > 0 by { NonEmptyRound(s, states[0]); }
    RoundSoFar(s, states, choices, ticks, 1);
    var order := states[1].order;
    forall i | 0 <= i < |choices| ensures choices[i] == Chosen(order[first..][i]) {
      RoundSoFar(s, states, choices, ticks, i + 1);
    }
    RoundSoFar(s, states, choices, ticks, |ticks|);
    assert Items(choices) == order[first..];
    DropIntro(s, states[|ticks|], first);
  }

  lemma RunLengths(s: Settings, states: seq<State>, choices: seq<Choice>, ticks: seq<Tick>)
    requires Run(s, states, choices, ticks)
    ensures |states| == |ticks| + 1 && |choices| == |ticks|
  {
  }

  lemma NonEmptyRound(s: Settings, st: State)
    requires Wraps(st)
    ensures |st.order| > First(s, st.order)
  {
  }

  lemma DropIntro(s: Settings, st: State, first: nat)
    requires Valid(s, st) && st.order != [] && first == First(s, st.order)
    ensures multiset(st.order[first..]) == multiset(Iota(|st.order|)[first..])
  {
    var order, iota := st.order, Iota(|st.order|);
    if first == 1 {
      SameTails(order, iota);
    } else {
      assert order[0..] == order && iota[0..] == iota;
    }
  }

  lemma SameTails(a: seq<nat>, b: seq<nat>)
    requires a != [] && b != [] && a[0] == b[0] && multiset(a) == multiset(b)
    ensures multiset(a[1..]) == multiset(b[1..])
  {
    assert a == [a[0]] + a[1..] && b == [b[0]] + b[1..];
    assert multiset(a[1..]) == multiset(a) - multiset{a[0]};
    assert multiset(b[1..]) == multiset(b) - multiset{b[0]};
  }

  // ----- an item that fails is to be skipped for that round only -----

  /** The last item of the order has failed, and the position is not on it: the next wrap-around is never reached. */
  predicate Stuck(st: State) {
    st.orderIndex + 1 < |st.order| && st.order[|st.order| - 1] in st.failed
  }

  /** Rejecting the last item of the order in the preflight passes over the reset of the failed items. */
  lemma RejectedLastIsStuck(s: Settings, st: State, tick: Tick, next: State, choice: Choice)
    requires Valid(s, st) && Step(s, st, tick, next, choice) && choice.Chosen? && !tick.answers.preflight
    requires FirstIndex(s, MovedOn(s, st, tick.answers.shuffled)) + 1 == |st.order|
    ensures Stuck(next)
  {
    MovedOnKeepsValid(s, st, tick.answers.shuffled);
    hide MovedOn, Shuffle, Valid, Select;
  }

  lemma StuckStep(s: Settings, st: State, tick: Tick, next: State, choice: Choice)
    requires Stuck(st) && Step(s, st, tick, next, choice) && choice.Chosen?
    ensures Stuck(next) && next.order == st.order && st.failed <= next.failed
    ensures Succeeds(tick) ==> next.failed == st.failed
    ensures choice.item != st.order[|st.order| - 1]
  {
    hide Shuffle, Select;
  }

  /** From there on the failed items are skipped in every round, for as long as anything can be shown at all. */
  lemma {:induction false} StuckStays(s: Settings, states: seq<State>, choices: seq<Choice>, ticks: seq<Tick>, k: nat)
    requires Run(s, states, choices, ticks) && Stuck(states[0]) && k <= |ticks|
    requires forall c :: c in choices ==> c.Chosen?
    ensures Stuck(states[k]) && states[k].order == states[0].order && states[0].failed <= states[k].failed
    ensures 0 < k ==> choices[k - 1].item !in states[0].failed
  {
    hide Step;
    if k > 0 {
      StuckStays(s, states, choices, ticks, k - 1);
      assert Step(s, states[k - 1], ticks[k - 1], states[k], choices[k - 1]);
      assert choices[k - 1] in choices;
      StuckStep(s, states[k - 1], ticks[k - 1], states[k], choices[k - 1]);
      NotFailed(s, states[k - 1], ticks[k - 1], states[k], choices[k - 1]);
    }
  }

  lemma NotFailed(s: Settings, st: State, tick: Tick, next: State, choice: Choice)
    requires Step(s, st, tick, next, choice) && !Wraps(st) && choice.Chosen?
    ensures choice.item !in st.failed
  {
    hide Shuffle, Select;
  }

  /** Something can still be shown. */
  ghost predicate SomeLeft(s: Settings, st: State) {
    exists p: nat :: p < |st.order| && Eligible(s, st.(introPlaying := false), p)
  }

  /** An advance on which nothing fails, away from a wrap-around, while something can be shown. */
  lemma SmoothStep(s: Settings, st: State, tick: Tick, next: State, choice: Choice)
    requires Step(s, st, tick, next, choice) && Succeeds(tick) && !Wraps(st) && SomeLeft(s, st)
    ensures choice.Chosen? && next.order == st.order && next.failed == st.failed && SomeLeft(s, next)
  {
    var moved := MovedOn(s, st, tick.answers.shuffled);
    var p: nat :| p < |st.order| && Eligible(s, st.(introPlaying := false), p);
    assert Eligible(s, moved, p);
    SelectIsFirst(s, moved, moved.orderIndex);
    hide Select, Shuffle;
    assert Eligible(s, next.(introPlaying := false), p);
  }

  lemma TowardsLast(s: Settings, st: State, tick: Tick, next: State, choice: Choice)
    requires Valid(s, st) && Step(s, st, tick, next, choice) && Succeeds(tick) && !Wraps(st)
    requires st.order[|st.order| - 1] !in st.failed
    ensures st.orderIndex < next.orderIndex < |st.order|
  {
    var moved := MovedOn(s, st, tick.answers.shuffled);
    PermutationItems(st.order);
    SelectAhead(s, moved, moved.orderIndex, |st.order| - 1);
    hide Select, Shuffle, Valid;
  }

  /** With nothing failing any more, the failed items are forgotten again within a round if and only if the position
      is on the last item of the order or that item has not failed. */
  lemma SkippedForOneRoundIff(s: Settings, states: seq<State>, choices: seq<Choice>, ticks: seq<Tick>)
    requires CleanRun(s, states, choices, ticks) && states[0].order != [] && |ticks| >= |states[0].order|
    requires states[0].failed != {} && SomeLeft(s, states[0])
    ensures (exists j :: 0 <= j <= |states[0].order| && states[j].failed == {}) <==>
            Wraps(states[0]) || states[0].order[|states[0].order| - 1] !in states[0].failed
  {
    hide Step, Valid, SomeLeft;
    var n := |states[0].order|;
    if Wraps(states[0]) || states[0].order[n - 1] !in states[0].failed {
      FirstStepInRange(s, states, choices, ticks);
      var j := ReachesReset(s, states, choices, ticks, 0);
    } else {
      FirstStepInRange(s, states, choices, ticks);
      forall j | 0 <= j <= n ensures states[j].failed == states[0].failed {
        StuckForever(s, states, choices, ticks, j);
      }
    }
  }

  lemma FirstStepInRange(s: Settings, states: seq<State>, choices: seq<Choice>, ticks: seq<Tick>)
    requires Run(s, states, choices, ticks) && Valid(s, states[0]) && |ticks| > 0
    ensures states[0].orderIndex < |states[0].order|
  {
    assert Step(s, states[0], ticks[0], states[1], choices[0]);
  }

  lemma {:induction false} StuckForever(s: Settings, states: seq<State>, choices: seq<Choice>, ticks: seq<Tick>, k: nat)
    requires Run(s, states, choices, ticks) && Stuck(states[0]) && SomeLeft(s, states[0]) && k <= |ticks|
    requires forall i :: 0 <= i < |ticks| ==> Succeeds(ticks[i])
    ensures Stuck(states[k]) && SomeLeft(s, states[k])
    ensures states[k].failed == states[0].failed && states[k].order == states[0].order
  {
    hide Step, SomeLeft;
    if k > 0 {
      StuckForever(s, states, choices, ticks, k - 1);
      assert Step(s, states[k - 1], ticks[k - 1], states[k], choices[k - 1]);
      SmoothStep(s, states[k - 1], ticks[k - 1], states[k], choices[k - 1]);
      StuckStep(s, states[k - 1], ticks[k - 1], states[k], choices[k - 1]);
    }
  }

  lemma {:induction false} ReachesReset(s: Settings, states: seq<State>, choices: seq<Choice>, ticks: seq<Tick>, k: nat)
      returns (j: nat)
    requires Run(s, states, choices, ticks) && k < |ticks| && Valid(s, states[k]) && SomeLeft(s, states[k])
    requires forall i :: 0 <= i < |ticks| ==> Succeeds(ticks[i])
    requires k <= states[k].orderIndex < |states[k].order| <= |ticks|
    requires Wraps(states[k]) || states[k].order[|states[k].order| - 1] !in states[k].failed
    ensures j <= |states[k].order| && states[j].failed == {}
    decreases |ticks| - k
  {
    hide Step, Valid, SomeLeft;
    assert Step(s, states[k], ticks[k], states[k + 1], choices[k]);
    if Wraps(states[k]) {
      CleanStep(s, states[k], ticks[k], states[k + 1], choices[k]);
      j := k + 1;
    } else {
      SmoothStep(s, states[k], ticks[k], states[k + 1], choices[k]);
      TowardsLast(s, states[k], ticks[k], states[k + 1], choices[k]);
      StepIsSafe(s, states[k], ticks[k], states[k + 1], choices[k]);
      j := ReachesReset(s, states, choices, ticks, k + 1);
    }
  }

  /** A playlist of two where the second item fails once, in the preflight: it is skipped from then on. */
  lemma SkippedForeverExample(now: int)
    ensures var s := Settings(5, true, false, false, false, false, false);
            var st := State([0, 1], 0, 0, {}, false);
            Valid(s, st) &&
            Advanced(s, st, now, Answers([0, 1], false, true)).1 == Chosen(0) &&
            Stuck(Advanced(s, st, now, Answers([0, 1], false, true)).0)
  {
    var s := Settings(5, true, false, false, false, false, false);
    var st := State([0, 1], 0, 0, {}, false);
    assert Iota(2) == [0, 1];
    var moved := MovedOn(s, st, [0, 1]);
    SelectAhead(s, moved, 1, 1);
    var rejected := moved.(failed := {1});
    assert moved.failed + {1} == {1};
    SelectIsFirst(s, rejected, 1);
    assert Eligible(s, rejected, 0) && !Eligible(s, rejected, 1);
  }
}
