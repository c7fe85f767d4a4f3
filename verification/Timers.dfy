/**
 The stopwatch and timer of voker-time (`stopwatch.rs`, `timer.rs`) in integer nanoseconds, with the
 saturating addition of `Duration` and the two narrowing casts of `Timer::tick` written out.
 */
module Timers {

  const TWO_TO_THE_32: nat := 0x1_0000_0000
  const TWO_TO_THE_64: nat := 0x1_0000_0000_0000_0000

  /** `Duration::MAX`: 2^64 - 1 seconds and 999 999 999 nanoseconds. */
  const DURATION_MAX: nat := TWO_TO_THE_64 * 1_000_000_000 - 1

  type Duration = d: nat | d <= DURATION_MAX

  datatype TimerMode = Once | Repeating

  datatype TimerState = TimerState(
    elapsed: Duration, paused: bool, duration: Duration, mode: TimerMode, finished: bool, times: nat)

  function SaturatingAdd(a: Duration, b: Duration): Duration {
    if a + b <= DURATION_MAX then a + b else DURATION_MAX
  }

  function SaturatingSub(a: Duration, b: Duration): Duration {
    if b <= a then a - b else 0
  }

  function Ticked(t: TimerState, delta: Duration): TimerState {
    if t.paused then
      t.(times := 0, finished := t.finished && t.mode.Once?)
    else if t.mode.Once? && t.finished then
      t.(times := 0)
    else
      var elapsed := SaturatingAdd(t.elapsed, delta);
      if elapsed < t.duration then
        t.(elapsed := elapsed, finished := false, times := 0)
      else if t.mode.Once? then
        t.(elapsed := t.duration, finished := true, times := 1)
      else if t.duration == 0 then
        t.(elapsed := 0, finished := true, times := TWO_TO_THE_32 - 1)
      else
        t.(elapsed := (elapsed % t.duration) % TWO_TO_THE_64, finished := true,
           times := (elapsed / t.duration) % TWO_TO_THE_32)
  }

  // ---------------------------------------------------------------------------------------------
  // One tick of a repeating timer

  /** The guard under which a tick keeps the books: no saturation, and neither cast cuts anything off. */
  predicate Exact(t: TimerState, delta: Duration)
    requires t.duration > 0
  {
    var total := t.elapsed + delta;
    && total <= DURATION_MAX
    && (total < t.duration || (total / t.duration < TWO_TO_THE_32 && total % t.duration < TWO_TO_THE_64))
  }

  /** The nanoseconds a tick loses. */
  function Lost(t: TimerState, delta: Duration): int {
    var u := Ticked(t, delta);
    t.elapsed + delta - (t.duration * u.times + u.elapsed)
  }

  lemma TruncationLoses(x: nat, m: nat)
    requires m > 0
    ensures x % m <= x && (x % m == x <==> x < m)
  {
    assert x == m * (x / m) + x % m;
    if x >= m {
      assert x / m >= 1;
      assert m * (x / m) >= m;
    }
  }

  lemma ProductIsZero(a: nat, b: nat)
    requires a > 0
    ensures a * b >= 0 && (a * b == 0 <==> b == 0)
  {
  }

  /** A tick of a running, repeating timer never gains time, and loses none exactly under its guard. */
  lemma TickKeepsTheBooks(t: TimerState, delta: Duration)
    requires t.mode.Repeating? && !t.paused && t.duration > 0
    ensures Lost(t, delta) >= 0
    ensures Lost(t, delta) == 0 <==> Exact(t, delta)
    ensures Ticked(t, delta).elapsed < t.duration
    ensures Ticked(t, delta).finished <==> t.elapsed + delta >= t.duration
  {
    var total := t.elapsed + delta;
    var e := SaturatingAdd(t.elapsed, delta);
    if e >= t.duration {
      var q, r := e / t.duration, e % t.duration;
      assert e == t.duration * q + r;
      TruncationLoses(q, TWO_TO_THE_32);
      TruncationLoses(r, TWO_TO_THE_64);
      var u := Ticked(t, delta);
      assert t.duration * q == t.duration * u.times + t.duration * (q - u.times);
      ProductIsZero(t.duration, q - u.times);
      assert Lost(t, delta) == (total - e) + t.duration * (q - u.times) + (r - u.elapsed);
    }
  }

  /**
   What `is_finished` and `just_finished` say after any tick: a repeating timer is finished for the
   ticks in which its duration passes, a one-shot timer from then on, and a tick while paused finishes
   nothing and moves no time.
   */
  lemma FinishedMeans(t: TimerState, delta: Duration)
    ensures var u, passes := Ticked(t, delta), !t.paused && t.elapsed + delta >= t.duration;
            && (t.mode.Repeating? ==> (u.finished <==> passes))
            && (t.mode.Once? ==> (u.finished <==> t.finished || passes))
            && (t.mode.Once? ==> (u.times > 0 <==> passes && !t.finished) && u.times <= 1)
            && (u.times > 0 ==> u.finished)
            && (t.paused ==> u.times == 0 && u.elapsed == t.elapsed)
            && u.paused == t.paused && u.duration == t.duration && u.mode == t.mode
  {
  }

  /** The guard holds for every tick shorter than 2^32 - 1 periods of a duration of at most 2^64 ns. */
  lemma ShortTicksAreExact(t: TimerState, delta: Duration)
    requires 0 < t.duration <= TWO_TO_THE_64 && t.elapsed < t.duration
    requires delta <= t.duration * (TWO_TO_THE_32 - 1) && t.elapsed + delta <= DURATION_MAX
    ensures Exact(t, delta)
  {
    var total := t.elapsed + delta;
    var q := total / t.duration;
    assert total == t.duration * q + total % t.duration;
    assert total < t.duration * TWO_TO_THE_32;
    if TWO_TO_THE_32 - 1 < q {
      NextMultiple(t.duration, TWO_TO_THE_32 - 1, q);
    }
  }

  // ---------------------------------------------------------------------------------------------
  // Runs

  datatype Action = Advance(delta: Duration) | SetPaused(paused: bool)

  function After(t: TimerState, a: Action): TimerState {
    match a
    case Advance(delta) => Ticked(t, delta)
    case SetPaused(paused) => t.(paused := paused)
  }

  function RunEnd(t: TimerState, run: seq<Action>): TimerState
    decreases |run|
  {
    if run == [] then t else RunEnd(After(t, run[0]), run[1..])
  }

  /** The time that passed while the timer was not paused. */
  function UnpausedTime(t: TimerState, run: seq<Action>): nat
    decreases |run|
  {
    if run == [] then 0
    else (if run[0].Advance? && !t.paused then run[0].delta else 0) + UnpausedTime(After(t, run[0]), run[1..])
  }

  /** The finishes reported after each tick, added up. */
  function Finishes(t: TimerState, run: seq<Action>): nat
    decreases |run|
  {
    if run == [] then 0
    else (if run[0].Advance? then After(t, run[0]).times else 0) + Finishes(After(t, run[0]), run[1..])
  }

  predicate AllExact(t: TimerState, run: seq<Action>)
    requires t.duration > 0
    decreases |run|
  {
    run == [] ||
    ((run[0].Advance? && !t.paused ==> Exact(t, run[0].delta)) && AllExact(After(t, run[0]), run[1..]))
  }

  /**
   Over every run of a repeating timer the reported finishes and the remaining time never exceed the
   time that passed, and they account for all of it exactly when every tick met its guard.
   */
  lemma {:induction false} RunKeepsTheBooks(t: TimerState, run: seq<Action>)
    requires t.mode.Repeating? && t.elapsed < t.duration
    ensures var end := RunEnd(t, run);
            && end.elapsed < end.duration == t.duration
            && t.elapsed + UnpausedTime(t, run) >= t.duration * Finishes(t, run) + end.elapsed
            && (t.elapsed + UnpausedTime(t, run) == t.duration * Finishes(t, run) + end.elapsed <==> AllExact(t, run))
    decreases |run|
  {
    if run != [] {
      var u := After(t, run[0]);
      if run[0].Advance? && !t.paused {
        TickKeepsTheBooks(t, run[0].delta);
      }
      RunKeepsTheBooks(u, run[1..]);
      Distributes(t.duration, if run[0].Advance? then u.times else 0, Finishes(u, run[1..]));
    }
  }

  lemma Distributes(d: nat, a: nat, b: nat)
    ensures d * (a + b) == d * a + d * b
  {
  }

  lemma NextMultiple(d: nat, q: nat, p: nat)
    requires q < p
    ensures d * q + d <= d * p
  {
    assert d * p == d * (q + 1) + d * (p - (q + 1));
    ProductIsNonNegative(d, p - (q + 1));
  }

  lemma ProductIsNonNegative(a: nat, b: nat)
    ensures a * b >= 0
  {
  }

  lemma QuotientIsUnique(d: nat, q: nat, r: nat, p: nat, s: nat)
    requires r < d && s < d && d * q + r == d * p + s
    ensures q == p && r == s
  {
    if q < p {
      NextMultiple(d, q, p);
    }
    if p < q {
      NextMultiple(d, p, q);
    }
  }

  /** However the same time is split into ticks and pauses, finishes and remaining time come out the same. */
  lemma SplittingDoesNotMatter(t: TimerState, run: seq<Action>, other: seq<Action>)
    requires t.mode.Repeating? && t.elapsed < t.duration
    requires AllExact(t, run) && AllExact(t, other) && UnpausedTime(t, run) == UnpausedTime(t, other)
    ensures Finishes(t, run) == Finishes(t, other) && RunEnd(t, run).elapsed == RunEnd(t, other).elapsed
  {
    RunKeepsTheBooks(t, run);
    RunKeepsTheBooks(t, other);
    QuotientIsUnique(t.duration, Finishes(t, run), RunEnd(t, run).elapsed,
                     Finishes(t, other), RunEnd(t, other).elapsed);
  }

  /** The ticks made while the timer was not paused. */
  function RunningTicks(t: TimerState, run: seq<Action>): nat
    decreases |run|
  {
    if run == [] then 0
    else (if run[0].Advance? && !t.paused then 1 else 0) + RunningTicks(After(t, run[0]), run[1..])
  }

  /**
   A repeating timer of zero duration keeps no time: over every run its finishes count ticks and not
   time, 2^32 - 1 for each tick made while it runs, however short or long.
   */
  lemma {:induction false} ZeroDurationCountsTicks(t: TimerState, run: seq<Action>)
    requires t.mode.Repeating? && t.duration == 0
    ensures Finishes(t, run) == (TWO_TO_THE_32 - 1) * RunningTicks(t, run)
    ensures RunEnd(t, run).elapsed == if RunningTicks(t, run) == 0 then t.elapsed else 0
    decreases |run|
  {
    if run != [] {
      ZeroDurationCountsTicks(After(t, run[0]), run[1..]);
    }
  }

  /** A tick of 2^32 periods reports no finish at all, where 2^32 ticks of one period each report them all. */
  lemma LongTickLosesItsFinishes(t: TimerState)
    requires t == TimerState(0, false, 1, Repeating, false, 0)
    ensures Ticked(t, TWO_TO_THE_32) == t.(finished := true)
    ensures Lost(t, TWO_TO_THE_32) == TWO_TO_THE_32
  {
    assert TWO_TO_THE_32 / 1 == TWO_TO_THE_32 && TWO_TO_THE_32 % 1 == 0;
  }

  // ---------------------------------------------------------------------------------------------
  // A timer that runs once

  predicate TicksWhileRunning(t: TimerState, run: seq<Action>)
    decreases |run|
  {
    run != [] && ((run[0].Advance? && !t.paused) || TicksWhileRunning(After(t, run[0]), run[1..]))
  }

  function Min(a: nat, b: nat): nat {
    if a <= b then a else b
  }

  /** Once finished, a one-shot timer stays as it is and reports nothing more. */
  lemma {:induction false} FinishedStaysFinished(t: TimerState, run: seq<Action>)
    requires t.mode.Once? && t.finished
    ensures var end := RunEnd(t, run);
            end.finished && end.mode.Once? && end.elapsed == t.elapsed && end.duration == t.duration
    ensures Finishes(t, run) == 0
    decreases |run|
  {
    if run != [] {
      FinishedStaysFinished(After(t, run[0]), run[1..]);
    }
  }

  lemma {:induction false} NoTickNoTime(t: TimerState, run: seq<Action>)
    ensures !TicksWhileRunning(t, run) ==> UnpausedTime(t, run) == 0
    decreases |run|
  {
    if run != [] {
      NoTickNoTime(After(t, run[0]), run[1..]);
    }
  }

  /**
   A one-shot timer shows the passed time up to its duration and reports its finish in one tick only:
   exactly when it was ticked while running and its duration has passed.
   */
  lemma {:induction false} OnceFinishesOnce(t: TimerState, run: seq<Action>)
    requires t.mode.Once? && !t.finished && t.elapsed <= t.duration
    ensures var end := RunEnd(t, run);
            && end.duration == t.duration
            && (end.finished <==> TicksWhileRunning(t, run) && t.elapsed + UnpausedTime(t, run) >= t.duration)
            && end.elapsed == Min(t.duration, t.elapsed + UnpausedTime(t, run))
            && Finishes(t, run) == if end.finished then 1 else 0
    decreases |run|
  {
    if run != [] {
      var u := After(t, run[0]);
      if u.finished {
        FinishedStaysFinished(u, run[1..]);
      } else {
        OnceFinishesOnce(u, run[1..]);
        NoTickNoTime(u, run[1..]);
      }
    }
  }

  // ---------------------------------------------------------------------------------------------
  // The objects

  class Stopwatch {
    var elapsed: Duration
    var isPaused: bool

    constructor ()
      ensures elapsed == 0 && !isPaused
    {
      elapsed, isPaused := 0, false;
    }

    method Reset()
      modifies this
      ensures elapsed == 0 && isPaused == old(isPaused)
    {
      elapsed := 0;
    }

    method Tick(delta: Duration)
      modifies this
      ensures isPaused == old(isPaused)
      ensures elapsed == if isPaused then old(elapsed) else SaturatingAdd(old(elapsed), delta)
    {
      if !isPaused {
        elapsed := SaturatingAdd(elapsed, delta);
      }
    }
  }

  class Timer {
    const stopwatch: Stopwatch
    var duration: Duration
    var mode: TimerMode
    var finished: bool
    var timesFinishedThisTick: nat

    ghost function State(): TimerState
      reads this, stopwatch
    {
      TimerState(stopwatch.elapsed, stopwatch.isPaused, duration, mode, finished, timesFinishedThisTick)
    }

    constructor (duration: Duration, mode: TimerMode)
      ensures fresh(stopwatch)
      ensures State() == TimerState(0, false, duration, mode, false, 0)
    {
      stopwatch := new Stopwatch();
      this.duration, this.mode, finished, timesFinishedThisTick := duration, mode, false, 0;
    }

    method Tick(delta: Duration)
      modifies this, stopwatch
      ensures State() == Ticked(old(State()), delta)
    {
      timesFinishedThisTick := 0;
      if stopwatch.isPaused {
        if mode == Repeating {
          finished := false;
        }
        return;
      }
      if mode != Repeating && finished {
        return;
      }
      stopwatch.Tick(delta);
      finished := stopwatch.elapsed >= duration;
      if finished {
        if mode == Repeating {
          timesFinishedThisTick :=
            if duration == 0 then TWO_TO_THE_32 - 1 else (stopwatch.elapsed / duration) % TWO_TO_THE_32;
          stopwatch.elapsed := if duration == 0 then 0 else (stopwatch.elapsed % duration) % TWO_TO_THE_64;
        } else {
          timesFinishedThisTick := 1;
          stopwatch.elapsed := duration;
        }
      }
    }

    method SetPaused(paused: bool)
      modifies stopwatch
      ensures State() == After(old(State()), Action.SetPaused(paused))
    {
      stopwatch.isPaused := paused;
    }

    method Reset()
      modifies this, stopwatch
      ensures State() == old(State()).(elapsed := 0, finished := false, times := 0)
    {
      stopwatch.Reset();
      finished := false;
      timesFinishedThisTick := 0;
    }

    /** A finished one-shot timer that becomes repeating starts over; it stays finished for the tick that finished it. */
    method SetMode(newMode: TimerMode)
      modifies this, stopwatch
      ensures var was := old(State());
              State() == if was.mode.Once? && newMode.Repeating? && was.finished
                         then was.(mode := newMode, elapsed := 0, finished := was.times > 0)
                         else was.(mode := newMode)
    {
      if mode != Repeating && newMode == Repeating && finished {
        stopwatch.Reset();
        finished := timesFinishedThisTick > 0;
      }
      mode := newMode;
    }

    /** A running timer short of its duration finishes exactly once in this tick. */
    method Finish()
      modifies this, stopwatch
      ensures var was := old(State());
              !was.paused && was.elapsed < was.duration && (was.mode.Once? ==> !was.finished) ==>
                && timesFinishedThisTick == 1 && finished
                && stopwatch.elapsed == if was.mode.Once? then was.duration else 0
      ensures State() == Ticked(old(State()), if duration < old(stopwatch.elapsed) then 0 else duration - old(stopwatch.elapsed))
    {
      var remaining := SaturatingSub(duration, stopwatch.elapsed);
      FinishTicksOnce(State(), remaining);
      Tick(remaining);
    }

    /** A running timer short of its duration stops one nanosecond before it. */
    method AlmostFinish()
      modifies this, stopwatch
      ensures var was := old(State());
              !was.paused && was.elapsed < was.duration && (was.mode.Once? ==> !was.finished) ==>
                timesFinishedThisTick == 0 && !finished && stopwatch.elapsed == was.duration - 1
      ensures old(stopwatch.elapsed) >= duration ==> State() == Ticked(old(State()), 0)
    {
      var remaining := SaturatingSub(SaturatingSub(duration, stopwatch.elapsed), 1);
      Tick(remaining);
    }
  }

  lemma FinishTicksOnce(t: TimerState, remaining: Duration)
    requires remaining == SaturatingSub(t.duration, t.elapsed)
    ensures !t.paused && t.elapsed < t.duration && (t.mode.Once? ==> !t.finished) ==>
              Ticked(t, remaining) == t.(times := 1, finished := true, elapsed := if t.mode.Once? then t.duration else 0)
  {
    if t.duration > 0 {
      assert t.duration / t.duration == 1 && t.duration % t.duration == 0;
    }
  }
}
