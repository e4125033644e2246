/** The frame limiter (src/WallpaperEngine/Application/FramePacer.h). Durations are nanoseconds. */
module FramePacer {
  const WINDOW := 1_000_000_000

  datatype Stats = Stats(frames: int, late: int, work: int, workMax: int, asked: int, slept: int, overshootMax: int)

  const NO_STATS := Stats(0, 0, 0, 0, 0, 0, 0)

  datatype State = State(budget: int, index: int, asked: int, stats: Stats)

  const INITIAL := State(WINDOW, 0, 0, NO_STATS)

  function Max(a: int, b: int): int {
    if a > b then a else b
  }

  /** Integer division as C++ does it. */
  function Truncated(a: int, b: int): int
    requires b > 0
  {
    if a >= 0 then a / b else -(-a / b)
  }

  function Noted(s: Stats, work: int, asked: int): Stats {
    s.(frames := s.frames + 1, late := s.late + (if asked == 0 then 1 else 0), work := s.work + work,
       workMax := Max(s.workMax, work), asked := s.asked + asked)
  }

  /** The budget and index a budgeted frame works with: the next share, or a new window. */
  predicate Resets(st: State, work: int, fps: int) {
    st.budget - work < 0 || st.index >= fps - 1
  }

  function Asked(budget: int, index: int, work: int, fps: int): int
    requires index < fps
  {
    Max(0, Truncated(budget, fps - index) - work)
  }

  function Begin(st: State, work: int, fps: int, fixed: bool): State {
    var fps := Max(1, fps);
    if fixed then
      var asked := Max(0, Truncated(WINDOW, fps) - work);
      st.(asked := asked, stats := Noted(st.stats, work, asked))
    else
      var budget := if Resets(st, work, fps) then WINDOW else st.budget - work;
      var index := if Resets(st, work, fps) then 0 else st.index + 1;
      var asked := Asked(budget, index, work, fps);
      State(budget, index, asked, Noted(st.stats, work, asked))
  }

  function End(st: State, slept: int): State {
    st.(budget := st.budget - slept,
        stats := st.stats.(slept := st.stats.slept + slept,
                           overshootMax := Max(st.stats.overshootMax, slept - st.asked)))
  }

  class Pacer {
    var budget: int
    var index: int
    var asked: int
    var stats: Stats

    ghost function Value(): State
      reads this
    {
      State(budget, index, asked, stats)
    }

    constructor ()
      ensures Value() == INITIAL
    {
      budget, index, asked, stats := WINDOW, 0, 0, NO_STATS;
    }

    method BeginSleep(work: int, rate: int, fixed: bool) returns (sleep: int)
      modifies this
      ensures Value() == Begin(old(Value()), work, rate, fixed) && sleep == asked >= 0
    {
      var fps := if rate > 1 then rate else 1;
      if fixed {
        sleep := Truncated(WINDOW, fps) - work;
        if sleep < 0 {
          sleep := 0;
        }
      } else {
        budget := budget - work;
        if budget < 0 || index >= fps - 1 {
          budget := WINDOW;
          index := 0;
        } else {
          index := index + 1;
        }
        sleep := Truncated(budget, fps - index) - work;
        if sleep < 0 {
          sleep := 0;
        }
      }
      stats := stats.(frames := stats.frames + 1, work := stats.work + work, asked := stats.asked + sleep);
      if sleep == 0 {
        stats := stats.(late := stats.late + 1);
      }
      if work > stats.workMax {
        stats := stats.(workMax := work);
      }
      asked := sleep;
    }

    method EndSleep(slept: int)
      modifies this
      ensures Value() == End(old(Value()), slept)
    {
      budget := budget - slept;
      stats := stats.(slept := stats.slept + slept, overshootMax := Max(stats.overshootMax, slept - asked));
    }

    method TakeStats() returns (taken: Stats)
      modifies this
      ensures taken == old(stats) && Value() == old(Value()).(stats := NO_STATS)
    {
      taken := stats;
      stats := NO_STATS;
    }
  }

  // ----- runs of frames -----

  /** One turn of the loop: what it is asked to do and how long the sleep really took. */
  datatype Frame = Frame(work: nat, fps: int, fixed: bool, slept: nat)

  function After(st: State, run: seq<Frame>): State {
    if run == [] then st
    else
      var f := run[|run| - 1];
      End(Begin(After(st, run[..|run| - 1]), f.work, f.fps, f.fixed), f.slept)
  }

  /** State in which the last frame of the run was put to sleep. */
  function Sleeping(st: State, run: seq<Frame>): State
    requires run != []
  {
    var f := run[|run| - 1];
    Begin(After(st, run[..|run| - 1]), f.work, f.fps, f.fixed)
  }

  function TotalWork(run: seq<Frame>): int {
    if run == [] then 0 else TotalWork(run[..|run| - 1]) + run[|run| - 1].work
  }

  function TotalSlept(run: seq<Frame>): int {
    if run == [] then 0 else TotalSlept(run[..|run| - 1]) + run[|run| - 1].slept
  }

  /** Over any run, with the frame rate and the mode changing at will, a budgeted frame divides a non-negative budget by
      at least one, and never asks for a negative sleep. */
  lemma {:induction false} RunIsSafe(run: seq<Frame>)
    ensures After(INITIAL, run).index >= 0
    ensures run != [] ==>
              var s, f := Sleeping(INITIAL, run), run[|run| - 1];
              s.asked >= 0 && (!f.fixed ==> s.budget >= 0 && 0 <= s.index < Max(1, f.fps))
  {
    if run != [] {
      RunIsSafe(run[..|run| - 1]);
    }
  }

  /** share is the whole part of total / n. */
  predicate WholeShare(share: int, total: int, n: int) {
    share * n <= total < share * n + n
  }

  lemma DivisionIsShare(total: nat, n: int)
    requires n > 0
    ensures WholeShare(Truncated(total, n), total, n)
  {
    assert total == n * (total / n) + total % n;
  }

  /** With the fixed limiter every frame lasts as long as its work or its share of a second, whichever is longer, and
      the budget is left alone. */
  lemma FixedFrame(st: State, work: int, rate: int) returns (share: int)
    ensures WholeShare(share, 1_000_000_000, if rate > 1 then rate else 1)
    ensures var next := Begin(st, work, rate, true);
            work + next.asked == (if work > share then work else share) && next.asked >= 0 &&
            next.budget == st.budget && next.index == st.index
  {
    var n := if rate > 1 then rate else 1;
    DivisionIsShare(1_000_000_000, n);
    share := Truncated(1_000_000_000, n);
    hide Truncated, WholeShare;
  }

  /** With a budget every frame lasts as long as its work or an equal share of what is left of the second for it and the
      frames after it. The second begins anew when it is used up, or all its frames are. */
  lemma BudgetedFrame(st: State, work: int, rate: int) returns (share: int)
    ensures var n := if rate > 1 then rate else 1;
            var next := Begin(st, work, rate, false);
            var over := work > st.budget || st.index + 1 >= n;
            next.budget == (if over then 1_000_000_000 else st.budget - work) &&
            next.index == (if over then 0 else st.index + 1) &&
            WholeShare(share, next.budget, n - next.index) &&
            work + next.asked == (if work > share then work else share) && next.asked >= 0
  {
    var n := if rate > 1 then rate else 1;
    var next := Begin(st, work, rate, false);
    DivisionIsShare(next.budget, n - next.index);
    share := Truncated(next.budget, n - next.index);
    hide Truncated, WholeShare;
  }

  /** The statistics of a run are the run's own sums, whatever the pacer decided. */
  lemma {:induction false} StatsAddUp(st: State, run: seq<Frame>)
    requires st.stats == NO_STATS
    ensures var s := After(st, run).stats;
            s.frames == |run| && s.work == TotalWork(run) && s.slept == TotalSlept(run) && 0 <= s.late <= s.frames &&
            (forall i :: 0 <= i < |run| ==> run[i].work <= s.workMax) &&
            if run == [] then s.workMax == 0 else exists i :: 0 <= i < |run| && run[i].work == s.workMax
  {
    if run != [] {
      var front, last := run[..|run| - 1], |run| - 1;
      StatsAddUp(st, front);
      var longest := After(st, front).stats.workMax;
      hide End;
      StatsKept(After(st, run), After(st, front), run[last]);
      if front != [] && run[last].work <= longest {
        var i :| 0 <= i < |front| && front[i].work == longest;
        assert run[i].work == longest;
      } else {
        assert run[last].work == After(st, run).stats.workMax;
      }
    }
  }

  lemma StatsKept(after: State, before: State, f: Frame)
    requires after == End(Begin(before, f.work, f.fps, f.fixed), f.slept)
    ensures after.stats.workMax == Max(before.stats.workMax, f.work)
    ensures after.stats.frames == before.stats.frames + 1 && after.stats.work == before.stats.work + f.work
    ensures after.stats.slept == before.stats.slept + f.slept
    ensures before.stats.late <= after.stats.late <= before.stats.late + 1
  {
  }

  /** How much longer than asked for the i-th frame of a run slept. */
  function Overshoot(st: State, run: seq<Frame>, i: nat): int
    requires i < |run|
  {
    run[i].slept - Sleeping(st, run[..i + 1]).asked
  }

  function TotalAsked(st: State, run: seq<Frame>): int {
    if run == [] then 0 else TotalAsked(st, run[..|run| - 1]) + Sleeping(st, run).asked
  }

  /** The frames of a run that had no time left to sleep. */
  function LateFrames(st: State, run: seq<Frame>): int {
    if run == [] then 0 else LateFrames(st, run[..|run| - 1]) + if Sleeping(st, run).asked == 0 then 1 else 0
  }

  lemma SleepKept(before: State, f: Frame)
    ensures var asleep := Begin(before, f.work, f.fps, f.fixed);
            var after := End(asleep, f.slept);
            after.stats.asked == before.stats.asked + asleep.asked &&
            after.stats.late == before.stats.late + (if asleep.asked == 0 then 1 else 0) &&
            after.stats.overshootMax == Max(before.stats.overshootMax, f.slept - asleep.asked)
  {
  }

  /** So are those about sleeping: what was asked for, how many frames were late, and the longest overshoot. */
  lemma {:induction false} SleepsAddUp(st: State, run: seq<Frame>)
    requires st.stats == NO_STATS
    ensures var s := After(st, run).stats;
            s.asked == TotalAsked(st, run) && s.late == LateFrames(st, run) && s.overshootMax >= 0 &&
            (forall i :: 0 <= i < |run| ==> Overshoot(st, run, i) <= s.overshootMax) &&
            (s.overshootMax == 0 || exists i :: 0 <= i < |run| && Overshoot(st, run, i) == s.overshootMax)
  {
    if run != [] {
      var last := |run| - 1;
      var front := run[..last];
      SleepsAddUp(st, front);
      SleepKept(After(st, front), run[last]);
      hide Begin, End;
      assert run[..last + 1] == run;
      assert Overshoot(st, run, last) == run[last].slept - Sleeping(st, run).asked;
      forall i | 0 <= i < last ensures Overshoot(st, run, i) == Overshoot(st, front, i) {
        assert run[..i + 1] == front[..i + 1];
      }
      hide Overshoot;
      var s, before := After(st, run).stats, After(st, front).stats;
      assert s.overshootMax == Max(before.overshootMax, Overshoot(st, run, last));
    }
  }

  /** Integer division goes towards zero. */
  lemma TruncatesTowardsZero(a: int, b: int)
    requires b > 0
    ensures var rest := a - b * Truncated(a, b);
            -b < rest < b && (a >= 0 ==> rest >= 0) && (a <= 0 ==> rest <= 0)
  {
    if a >= 0 {
      assert a == b * (a / b) + a % b;
    } else {
      assert -a == b * (-a / b) + -a % b;
    }
  }

  // ----- one budget window -----

  /** `run` opens a new window at its first frame and stays inside it: budgeted, one frame rate, budget not used up. */
  ghost predicate InWindow(st: State, run: seq<Frame>, fps: nat) {
    1 <= |run| <= fps &&
    (forall i :: 0 <= i < |run| ==> !run[i].fixed && run[i].fps == fps) &&
    Resets(st, run[0].work, fps) &&
    forall k :: 0 < k < |run| ==> After(st, run[..k]).budget - run[k].work >= 0
  }

  lemma WindowPrefix(st: State, run: seq<Frame>, fps: nat)
    requires InWindow(st, run, fps) && |run| > 1
    ensures InWindow(st, run[..|run| - 1], fps)
  {
    var init := run[..|run| - 1];
    forall k | 0 < k < |init| ensures After(st, init[..k]).budget - init[k].work >= 0 {
      assert init[..k] == run[..k];
    }
  }

  /** Inside a window the budget is one second minus all sleeps and minus the work of every frame but the first. */
  lemma {:induction false} WindowBudget(st: State, run: seq<Frame>, fps: nat)
    requires InWindow(st, run, fps)
    ensures var s, f := Sleeping(st, run), run[|run| - 1];
            s.index == |run| - 1 &&
            s.budget == WINDOW - (TotalSlept(run) - f.slept) - (TotalWork(run) - run[0].work)
    ensures After(st, run).budget == WINDOW - TotalSlept(run) - (TotalWork(run) - run[0].work)
    ensures After(st, run).index == |run| - 1
  {
    var init := run[..|run| - 1];
    if init == [] {
      assert TotalWork(init) == 0 && TotalSlept(init) == 0;
    } else {
      WindowPrefix(st, run, fps);
      WindowBudget(st, init, fps);
      assert init[0] == run[0];
      assert run[..|run| - 1] == init;
    }
  }

  /** A full window whose last sleep is exact lasts one second plus the first frame's work, minus what the last frame
      was still allowed: its work, or the whole remaining budget when that is less. */
  lemma WindowLength(st: State, run: seq<Frame>, fps: nat)
    requires InWindow(st, run, fps) && |run| == fps
    requires run[fps - 1].slept == Sleeping(st, run).asked
    ensures var left, last := Sleeping(st, run).budget, run[fps - 1].work;
            TotalWork(run) + TotalSlept(run) == WINDOW + run[0].work - (if left < last then left else last)
  {
    WindowBudget(st, run, fps);
    hide After, TotalWork, TotalSlept;
    var s := Sleeping(st, run);
    assert s.asked == Asked(s.budget, s.index, run[fps - 1].work, fps);
    WindowIsSafe(st, run, fps);
  }

  lemma WindowIsSafe(st: State, run: seq<Frame>, fps: nat)
    requires InWindow(st, run, fps)
    ensures Sleeping(st, run).budget >= 0
  {
    if |run| > 1 {
      assert After(st, run[..|run| - 1]).budget - run[|run| - 1].work >= 0;
    } else {
      assert run[..0] == [];
    }
  }

  /** The window lasts exactly one second plus first work minus last work if and only if the last frame is not late,
      that is, its work still fits into what is left of the budget. */
  lemma WindowLengthIff(st: State, run: seq<Frame>, fps: nat)
    requires InWindow(st, run, fps) && |run| == fps
    requires run[fps - 1].slept == Sleeping(st, run).asked
    ensures TotalWork(run) + TotalSlept(run) == WINDOW + run[0].work - run[fps - 1].work
            <==> run[fps - 1].work <= Sleeping(st, run).budget
  {
    hide TotalWork, TotalSlept, Sleeping, InWindow;
    WindowLength(st, run, fps);
  }

  // ----- constant work -----

  /** A second divided by n: whole nanoseconds per frame, and what is left over. */
  function Base(n: nat): nat
    requires n > 0
  {
    WINDOW / n
  }

  function Extra(n: nat): (r: nat)
    requires n > 0
    ensures r < n
  {
    WINDOW % n
  }

  /** The k-th of n equal shares of a second in whole nanoseconds: what is left over goes to the last frames. */
  function Share(n: nat, k: nat): int
    requires k < n
  {
    if Extra(n) < n - k then Base(n) else Base(n) + 1
  }

  function ShareSum(n: nat, k: nat): int
    requires k <= n
  {
    if k == 0 then 0 else ShareSum(n, k - 1) + Share(n, k - 1)
  }

  lemma WholeSecond(n: nat)
    requires n > 0
    ensures n * Base(n) + Extra(n) == WINDOW
  {
  }

  lemma OneMoreTimes(m: int, q: int)
    ensures (m + 1) * q == m * q + q
  {
  }

  // What is left after k shares.
  lemma {:induction false} ShareRest(n: nat, k: nat)
    requires n > 0 && k <= n
    ensures WINDOW - ShareSum(n, k) == (n - k) * Base(n) + (if Extra(n) < n - k then Extra(n) else n - k)
  {
    hide Base, Extra;
    if k == 0 {
      WholeSecond(n);
    } else {
      ShareRest(n, k - 1);
      OneMoreTimes(n - k, Base(n));
    }
  }

  lemma AtLeastFactor(m: nat, e: int)
    ensures e >= 1 ==> m * e >= m
    ensures e <= -1 ==> m * e <= 0 - m
  {
    if e >= 1 {
      assert m * (e - 1) >= 0;
    } else if e <= -1 {
      assert m * (-1 - e) >= 0;
    }
  }

  lemma DivideRest(x: int, m: nat, q: int, r: nat)
    requires r < m && x == m * q + r
    ensures x / m == q
  {
    var q', r' := x / m, x % m;
    assert x == m * q' + r';
    var e := q' - q;
    assert m * e == m * q' - m * q;
    AtLeastFactor(m, e);
  }

  /** Dividing what is left evenly among the frames that are left gives exactly the next share. */
  lemma NextShare(n: nat, k: nat)
    requires k < n
    ensures Truncated(WINDOW - ShareSum(n, k), n - k) == Share(n, k)
    ensures WINDOW - ShareSum(n, k) >= 0
  {
    hide Base, Extra, ShareSum, Truncated;
    ShareRest(n, k);
    RestDivides(WINDOW - ShareSum(n, k), n - k, Base(n), Extra(n));
  }

  lemma RestDivides(rest: int, m: nat, q: nat, r: nat)
    requires m > 0 && rest == m * q + (if r < m then r else m)
    ensures rest >= 0 && Truncated(rest, m) == if r < m then q else q + 1
  {
    assert m * q >= 0;
    if r < m {
      DivideRest(rest, m, q, r);
    } else {
      FactorOneMore(m, q);
      DivideRest(rest, m, q + 1, 0);
    }
  }

  lemma FactorOneMore(m: int, q: int)
    ensures m * (q + 1) == m * q + m
  {
  }

  /** The frames of a run with constant work and exact sleeps. */
  ghost predicate Steady(st: State, run: seq<Frame>, fps: nat, work: nat) {
    forall k :: 0 <= k < |run| ==>
      run[k].work == work && run[k].fps == fps && !run[k].fixed &&
      run[k].slept == Begin(After(st, run[..k]), work, fps, false).asked
  }

  lemma SteadyPrefix(st: State, run: seq<Frame>, fps: nat, work: nat)
    requires Steady(st, run, fps, work) && run != []
    ensures Steady(st, run[..|run| - 1], fps, work)
  {
    var init := run[..|run| - 1];
    forall k | 0 <= k < |init| ensures run[..k] == init[..k] { }
  }

  lemma ShareCoversWork(n: nat, k: nat, work: nat)
    requires k < n && work <= Base(n)
    ensures Share(n, k) >= work
  {
  }

  /** One frame with exact sleep: it gets its share, and the books stay balanced. */
  lemma SteadyStep(st: State, fps: nat, work: nat, k: nat)
    requires k < fps && work <= Base(fps)
    requires if k == 0 then Resets(st, work, fps)
             else st.index == k - 1 && st.budget == WINDOW - ShareSum(fps, k) + work
    ensures var s := Begin(st, work, fps, false);
            work + s.asked == Share(fps, k) &&
            End(s, s.asked).index == k && End(s, s.asked).budget == WINDOW - ShareSum(fps, k + 1) + work
  {
    NextShare(fps, k);
    ShareCoversWork(fps, k, work);
    assert ShareSum(fps, 0) == 0;
    assert ShareSum(fps, k + 1) == ShareSum(fps, k) + Share(fps, k);
    hide Share, ShareSum, Truncated, Base, Noted;
  }

  lemma {:induction false} SteadyBudget(st: State, run: seq<Frame>, fps: nat, work: nat)
    requires fps > 0 && 1 <= |run| <= fps && work <= Base(fps)
    requires Steady(st, run, fps, work) && Resets(st, work, fps)
    ensures run[|run| - 1].work + run[|run| - 1].slept == Share(fps, |run| - 1)
    ensures After(st, run).budget == WINDOW - ShareSum(fps, |run|) + work
    ensures After(st, run).index == |run| - 1
  {
    var k := |run| - 1;
    SteadyPrefix(st, run, fps, work);
    if k > 0 {
      SteadyBudget(st, run[..k], fps, work);
    }
    SteadyStep(After(st, run[..k]), fps, work, k);
    hide Share, ShareSum, Base, Begin, End, Resets;
  }

  lemma {:induction false} SteadyTotal(st: State, run: seq<Frame>, fps: nat, work: nat)
    requires fps > 0 && |run| <= fps && work <= Base(fps)
    requires Steady(st, run, fps, work) && Resets(st, work, fps)
    ensures TotalWork(run) + TotalSlept(run) == ShareSum(fps, |run|)
  {
    if run != [] {
      SteadyPrefix(st, run, fps, work);
      SteadyTotal(st, run[..|run| - 1], fps, work);
      SteadyBudget(st, run, fps, work);
    }
  }

  /** After a reset, with constant work of at most a share and exact sleeps, the fps frames of a window last exactly one
      second, any two of them differ by at most a nanosecond, and the next frame opens the next window. */
  lemma EvenShares(st: State, run: seq<Frame>, fps: nat, work: nat, i: nat, j: nat)
    requires fps > 0 && |run| == fps && work <= Base(fps)
    requires Steady(st, run, fps, work) && Resets(st, work, fps)
    requires i < fps && j < fps
    ensures TotalWork(run) + TotalSlept(run) == WINDOW
    ensures -1 <= (run[i].work + run[i].slept) - (run[j].work + run[j].slept) <= 1
    ensures Resets(After(st, run), work, fps)
  {
    SteadyTotal(st, run, fps, work);
    ShareRest(fps, fps);
    SteadyFrame(st, run, fps, work, i);
    SteadyFrame(st, run, fps, work, j);
    SteadyBudget(st, run, fps, work);
  }

  lemma SteadyFrame(st: State, run: seq<Frame>, fps: nat, work: nat, k: nat)
    requires fps > 0 && k < |run| <= fps && work <= Base(fps)
    requires Steady(st, run, fps, work) && Resets(st, work, fps)
    ensures run[k].work + run[k].slept == Share(fps, k)
  {
    var part := run[..k + 1];
    forall l | 0 <= l < |part| ensures part[..l] == run[..l] { }
    SteadyBudget(st, part, fps, work);
  }

  /** Any number of consecutive windows under constant work lasts that many seconds, to the nanosecond. */
  lemma {:induction false} WindowsAddUp(st: State, windows: seq<seq<Frame>>, fps: nat, work: nat)
    requires fps > 0 && work <= Base(fps) && Resets(st, work, fps)
    requires SteadyWindows(st, windows, fps, work)
    ensures TotalTime(windows) == |windows| * WINDOW
    decreases |windows|
  {
    hide Steady, TotalWork, TotalSlept, Resets, After;
    if windows != [] {
      var w := windows[0];
      EvenShares(st, w, fps, work, 0, 0);
      WindowsAddUp(After(st, w), windows[1..], fps, work);
    }
  }

  ghost predicate SteadyWindows(st: State, windows: seq<seq<Frame>>, fps: nat, work: nat)
    decreases |windows|
  {
    windows != [] ==>
      |windows[0]| == fps && Steady(st, windows[0], fps, work) &&
      SteadyWindows(After(st, windows[0]), windows[1..], fps, work)
  }

  function TotalTime(windows: seq<seq<Frame>>): int
    decreases |windows|
  {
    if windows == [] then 0
    else TotalWork(windows[0]) + TotalSlept(windows[0]) + TotalTime(windows[1..])
  }
}
