/**
 Model of the wrapping change ticks of voker-ecs (`tick.rs`) and of the periodic sweep that
 keeps them meaningful (`World::check_ticks` in `world.rs`).

 Ticks are 32-bit; the model carries the unbounded time beside them as ghost state and proves
 that change detection on the wrapped values agrees with it over every run.
 */
module Ticks {

  const WRAP := 0x1_0000_0000
  const CHECK_CYCLE := 0x2000_0000
  const MAX_TICK_AGE := 0xFFFF_FFFF - 2 * CHECK_CYCLE - 1

  /** How long after a sweep every tick it left still shows its age. */
  const SWEEP_GAP := 2 * CHECK_CYCLE + 1

  /** A `u32` tick. */
  type Tick = t: int | 0 <= t < WRAP

  /** `u32::wrapping_sub`. */
  function RelativeTo(self: Tick, other: Tick): Tick {
    (self - other) % WRAP
  }

  function Min(x: int, y: int): int {
    if x < y then x else y
  }

  function Max(x: int, y: int): int {
    if x < y then y else x
  }

  predicate IsNewerThan(self: Tick, other: Tick, now: Tick) {
    var sinceInsert := Min(RelativeTo(now, self), MAX_TICK_AGE);
    var sinceSystem := Min(RelativeTo(now, other), MAX_TICK_AGE);
    sinceSystem > sinceInsert
  }

  /** `check_tick`: a tick that is too old becomes the oldest tick allowed. */
  function Checked(self: Tick, now: Tick): Tick {
    if RelativeTo(now, self) > MAX_TICK_AGE then RelativeTo(now, MAX_TICK_AGE) else self
  }

  // ---------------------------------------------------------------------------
  // Wrapped ticks against unbounded time

  /** Wrapped subtraction is true age as long as that age is below 2^32. */
  lemma WrappedAgeIsAge(now: nat, time: nat)
    requires time <= now < time + WRAP
    ensures RelativeTo(now % WRAP, time % WRAP) == now - time
  {
    var q, r := now / WRAP, time / WRAP;
    assert now == q * WRAP + now % WRAP && time == r * WRAP + time % WRAP;
    if now % WRAP >= time % WRAP {
      assert q == r;
    } else {
      assert q == r + 1;
    }
  }

  /** The time a stored tick stands for after the sweeps up to `swept`: clamped from below. */
  function Effective(time: nat, swept: nat): nat {
    Max(time, swept - MAX_TICK_AGE)
  }

  /** The stored tick stands for a time, given that the last sweep was at `swept`. */
  predicate StandsFor(marker: Tick, time: nat, swept: nat) {
    marker == Effective(time, swept) % WRAP
  }

  /** A sweep at `now` moves every stored tick to its new effective time. */
  lemma CheckedIsEffective(time: nat, swept: nat, now: nat)
    requires time <= now && swept <= now <= swept + SWEEP_GAP
    ensures Checked(Effective(time, swept) % WRAP, now % WRAP) == Effective(time, now) % WRAP
  {
    var e := Effective(time, swept);
    WrappedAgeIsAge(now, e);
    if now - e > MAX_TICK_AGE {
      WrappedFallback(now);
    }
  }

  lemma WrappedFallback(now: nat)
    requires now >= MAX_TICK_AGE
    ensures RelativeTo(now % WRAP, MAX_TICK_AGE) == (now - MAX_TICK_AGE) % WRAP
  {
    var q := now / WRAP;
    assert now == q * WRAP + now % WRAP;
    assert (now % WRAP - MAX_TICK_AGE) % WRAP == (now % WRAP - MAX_TICK_AGE + q * WRAP) % WRAP;
  }

  /**
   Change detection on wrapped ticks agrees with unbounded time: a write is reported exactly
   when it is later than the last run and younger than `MAX_TICK_AGE`.
   */
  lemma NewerAgrees(write: nat, lastRun: nat, swept: nat, now: nat)
    requires write <= now && lastRun <= now
    requires swept <= now <= swept + SWEEP_GAP
    ensures IsNewerThan(Effective(write, swept) % WRAP, Effective(lastRun, swept) % WRAP, now % WRAP)
            <==> lastRun < write && now - write < MAX_TICK_AGE
  {
    WrappedAgeIsAge(now, Effective(write, swept));
    WrappedAgeIsAge(now, Effective(lastRun, swept));
  }

  predicate AgeSurvives(time: nat, now: nat)
    requires time <= now
  {
    RelativeTo(now % WRAP, time % WRAP) == now - time
  }

  /**
   The gap until the next sweep may be at most `SWEEP_GAP`: with exactly those gaps every
   tick a sweep can leave behind still shows its true age when the next sweep is due.
   */
  lemma SweepGapBound(swept: nat, next: nat)
    requires MAX_TICK_AGE <= swept <= next
    ensures (forall time: nat :: swept - MAX_TICK_AGE <= time <= swept ==> AgeSurvives(time, next))
            <==> next - swept <= SWEEP_GAP
  {
    if next - swept <= SWEEP_GAP {
      forall time: nat | swept - MAX_TICK_AGE <= time <= swept ensures AgeSurvives(time, next) {
        WrappedAgeIsAge(next, time);
      }
    } else {
      assert !AgeSurvives(swept - MAX_TICK_AGE, next);
    }
  }

  /** One tick beyond that gap, a write older than the last run is reported as newer. */
  lemma LateSweepMisreports()
    ensures var first, second := MAX_TICK_AGE, MAX_TICK_AGE + SWEEP_GAP + 1;
            var write, lastRun := 0, 5;
            && Checked(write % WRAP, first % WRAP) == write
            && Checked(lastRun % WRAP, first % WRAP) == lastRun
            && IsNewerThan(write, lastRun, second % WRAP)
  {
  }

  // ---------------------------------------------------------------------------
  // The sweep scheduled by the world

  /** `check_ticks` sweeps when this holds; `last_check` is set to 0 at creation and never again. */
  predicate SweepsAt(thisRun: Tick, lastCheck: Tick) {
    RelativeTo(thisRun, lastCheck) >= CHECK_CYCLE
  }

  /** Largest distance of calls of `check_ticks` for which the sweeps come in time however they fall. */
  const CALL_GAP := CHECK_CYCLE / 2 + 1

  /** What is known of the last sweep from the last call of `check_ticks`. */
  predicate SweepTracked(lastCall: nat, lastSweep: nat) {
    && lastSweep <= lastCall
    && (lastSweep == lastCall
        || (lastCall % WRAP < CHECK_CYCLE && lastSweep >= lastCall - lastCall % WRAP - CALL_GAP))
  }

  /** Between calls at most `CALL_GAP` apart, the last sweep is never older than the gap it allows. */
  lemma TrackedSweepIsRecent(lastCall: nat, lastSweep: nat, now: nat)
    requires SweepTracked(lastCall, lastSweep) && lastCall <= now <= lastCall + CALL_GAP
    ensures now <= lastSweep + SWEEP_GAP
  {
  }

  lemma CallKeepsTracking(lastCall: nat, lastSweep: nat, now: nat)
    requires SweepTracked(lastCall, lastSweep) && lastCall <= now <= lastCall + CALL_GAP
    ensures SweepTracked(now, if SweepsAt(now % WRAP, 0) then now else lastSweep)
  {
    if !SweepsAt(now % WRAP, 0) && lastSweep != lastCall {
      var q, r := now / WRAP, lastCall / WRAP;
      assert now == q * WRAP + now % WRAP && lastCall == r * WRAP + lastCall % WRAP;
      assert q == r;
    }
  }

  predicate SweepsAtTime(now: nat) {
    SweepsAt(now % WRAP, 0)
  }

  /** Calls that come one after the other, no more than `gap` ticks apart. */
  predicate Calls(calls: seq<nat>, gap: nat) {
    forall i, j :: 0 <= i && j == i + 1 < |calls| ==> calls[i] < calls[j] <= calls[i] + gap
  }

  /**
   No larger distance will do for all schedules: for each there are calls that far apart at most of
   which the first sweeps, the next three find nothing to do, and before the last comes the oldest tick
   the sweep left has lost its age.
   */
  lemma CallGapIsTight(gap: nat) returns (calls: seq<nat>)
    requires gap > CALL_GAP
    ensures |calls| == 5 && Calls(calls, gap)
    ensures SweepsAtTime(calls[0]) && forall i :: 1 <= i <= 3 ==> !SweepsAtTime(calls[i])
    ensures MAX_TICK_AGE <= calls[0] < calls[4] && calls[4] > calls[0] + SWEEP_GAP
    ensures !AgeSurvives(calls[0] - MAX_TICK_AGE, calls[4])
  {
    var step := CALL_GAP + 1;
    calls := [WRAP - step, WRAP, WRAP + CHECK_CYCLE / 2, WRAP + CHECK_CYCLE - 1, WRAP + CHECK_CYCLE - 1 + step];
  }

  /**
   Calls at the documented cadence, one in every cycle of `CHECK_CYCLE` ticks, are in time although they
   are further apart: of two that follow each other at least one sweeps.
   */
  lemma RegularCallsSweepInTime(start: nat, k: nat)
    requires start < CHECK_CYCLE
    ensures var first, second := start + k * CHECK_CYCLE, start + (k + 1) * CHECK_CYCLE;
            && (SweepsAtTime(first) || SweepsAtTime(second))
            && (SweepsAtTime(first) <==> k % 8 != 0)
  {
    var q := k / 8;
    assert k == 8 * q + k % 8;
    assert start + k * CHECK_CYCLE == q * WRAP + (start + (k % 8) * CHECK_CYCLE);
    RemainderIs(start + k * CHECK_CYCLE, q, start + (k % 8) * CHECK_CYCLE);
    var q', r' := (k + 1) / 8, (k + 1) % 8;
    assert k + 1 == 8 * q' + r';
    assert start + (k + 1) * CHECK_CYCLE == q' * WRAP + (start + r' * CHECK_CYCLE);
    RemainderIs(start + (k + 1) * CHECK_CYCLE, q', start + r' * CHECK_CYCLE);
  }

  lemma RemainderIs(a: nat, q: nat, r: nat)
    requires a == q * WRAP + r && r < WRAP
    ensures a % WRAP == r
  {
  }

  /**
   Contrary to its documentation, validation is not limited to once per `CHECK_CYCLE` ticks: of two
   calls less than a cycle apart, when the first sweeps so does the second, unless the tick has wrapped
   around between them.
   */
  lemma SweepsAreNotSpacedOut(first: nat, second: nat)
    requires first <= second < first + CHECK_CYCLE
    ensures SweepsAtTime(first) ==> (SweepsAtTime(second) <==> first % WRAP + (second - first) < WRAP)
  {
    var q := first / WRAP;
    assert first == q * WRAP + first % WRAP;
    assert second == q * WRAP + (first % WRAP + (second - first));
  }

  // ---------------------------------------------------------------------------
  // The world's own baseline, which no sweep touches

  lemma WrappedDifference(now: nat, time: nat)
    requires time <= now
    ensures RelativeTo(now % WRAP, time % WRAP) == (now - time) % WRAP
  {
    var q, r := now / WRAP, time / WRAP;
    assert now == q * WRAP + now % WRAP && time == r * WRAP + time % WRAP;
    assert now - time == (q - r) * WRAP + (now % WRAP - time % WRAP);
  }

  /** Whether a write is reported as newer than the baseline. */
  predicate BaselineReports(write: nat, baseline: nat, swept: nat, now: nat) {
    IsNewerThan(Effective(write, swept) % WRAP, baseline % WRAP, now % WRAP)
  }

  /** What is really newer than the baseline and young enough to be seen. */
  predicate NewerThanBaseline(write: nat, baseline: nat, now: nat) {
    baseline < write && now - write < MAX_TICK_AGE
  }

  /** Against a tick that is never swept, a write is compared with the wrapped age of that tick. */
  lemma BaselineComparesWrappedAge(write: nat, baseline: nat, swept: nat, now: nat)
    requires write <= now && baseline <= now && swept <= now <= swept + SWEEP_GAP
    ensures BaselineReports(write, baseline, swept, now)
            <==> now - write < MAX_TICK_AGE && now - write < (now - baseline) % WRAP
  {
    WrappedAgeIsAge(now, Effective(write, swept));
    WrappedDifference(now, baseline);
  }

  /**
   Detection against the baseline agrees with unbounded time, for every write, if and only if the
   baseline is younger than 2^32 ticks or its wrapped age has reached the largest age again.
   */
  lemma BaselineAgreesExactly(baseline: nat, swept: nat, now: nat)
    requires baseline <= now && swept <= now <= swept + SWEEP_GAP
    ensures (forall write: nat :: write <= now ==>
               (BaselineReports(write, baseline, swept, now) <==> NewerThanBaseline(write, baseline, now)))
            <==> now - baseline < WRAP || (now - baseline) % WRAP >= MAX_TICK_AGE
  {
    var age := now - baseline;
    if age < WRAP || age % WRAP >= MAX_TICK_AGE {
      forall write: nat | write <= now
        ensures BaselineReports(write, baseline, swept, now) <==> NewerThanBaseline(write, baseline, now)
      {
        BaselineComparesWrappedAge(write, baseline, swept, now);
        AgeIsAtLeastWrapped(age);
      }
    } else {
      var write := now - age % WRAP;
      AgeIsAtLeastWrapped(age);
      BaselineComparesWrappedAge(write, baseline, swept, now);
      assert !BaselineReports(write, baseline, swept, now) && NewerThanBaseline(write, baseline, now);
    }
  }

  lemma AgeIsAtLeastWrapped(age: nat)
    ensures age % WRAP <= age && (age % WRAP == age <==> age < WRAP)
  {
  }

  lemma NextTick(now: nat)
    ensures (now % WRAP + 1) % WRAP == (now + 1) % WRAP
  {
  }

  /**
   The tick-related state of a `World`. `markers` are the ticks stored with components, resources
   and systems; the ghost fields hold unbounded times. `timely` says that no sweep has come later than
   `SWEEP_GAP` ticks after the one before, and `faithful` names the markers that stand for their time.
   `closeCalls` says that no two calls of `check_ticks` have been more than `CALL_GAP` apart.
   */
  class World {
    var thisRun: Tick
    var lastRun: Tick
    var lastCheck: Tick
    var markers: seq<Tick>

    ghost var now: nat
    ghost var baseline: nat
    ghost var times: seq<nat>
    ghost var lastCall: nat
    ghost var lastSweep: nat
    ghost var timely: bool
    ghost var closeCalls: bool
    ghost var faithful: set<nat>

    ghost predicate Valid()
      reads this
    {
      && thisRun == now % WRAP && lastCheck == 0
      && lastRun == baseline % WRAP && baseline <= now
      && |times| == |markers|
      && (forall i :: 0 <= i < |times| ==> times[i] <= now)
      && (forall i :: i in faithful ==> i < |times|)
      && lastSweep <= lastCall <= now
      && (timely ==> Meaningful())
      && (closeCalls ==> timely && SweepTracked(lastCall, lastSweep) && now <= lastCall + CALL_GAP)
    }

    /** With timely sweeps, the last one is recent and every faithful marker stands for its time. */
    ghost predicate Meaningful()
      reads this
    {
      && now <= lastSweep + SWEEP_GAP
      && (forall i :: 0 <= i < |times| && i < |markers| && i in faithful ==> StandsFor(markers[i], times[i], lastSweep))
    }

    constructor ()
      ensures Valid() && timely && closeCalls
      ensures markers == [] && now == 1 && baseline == 0 && lastCall == 0 && lastSweep == 0 && faithful == {}
    {
      thisRun, lastRun, lastCheck, markers := 1, 0, 0, [];
      now, baseline, times, lastCall, lastSweep, faithful := 1, 0, [], 0, 0, {};
      timely, closeCalls := true, true;
    }

    /** Advances time by one, however long ago the last check was. */
    method AdvanceTick() returns (previous: Tick)
      requires Valid()
      modifies this`thisRun, this`now, this`timely, this`closeCalls
      ensures Valid() && now == old(now) + 1 && previous == old(now) % WRAP
      ensures timely <==> old(timely) && now <= lastSweep + SWEEP_GAP
      ensures closeCalls <==> old(closeCalls) && now <= lastCall + CALL_GAP
    {
      hide StandsFor, SweepTracked;
      previous := thisRun;
      NextTick(now);
      thisRun := (thisRun + 1) % WRAP;
      now := now + 1;
      timely := timely && now <= lastSweep + SWEEP_GAP;
      closeCalls := closeCalls && now <= lastCall + CALL_GAP;
      if closeCalls {
        TrackedSweepIsRecent(lastCall, lastSweep, now);
      }
    }

    /** A component or resource is inserted: its marker is the current tick. */
    method AddMarker() returns (i: nat)
      requires Valid()
      modifies this`markers, this`times, this`faithful
      ensures Valid() && i == |old(times)| && times == old(times) + [now] && faithful == old(faithful) + {i}
    {
      i := |markers|;
      markers := markers + [thisRun];
      times := times + [now];
      faithful := faithful + {i};
    }

    /**
     A system is initialised: its marker is the world's baseline, which no sweep has touched. It stands
     for the time of the baseline when that is no older than the last sweep allows.
     */
    method AddSystem() returns (i: nat)
      requires Valid()
      modifies this`markers, this`times, this`faithful
      ensures Valid() && i == |old(times)| && times == old(times) + [baseline]
      ensures faithful == if lastSweep <= baseline + MAX_TICK_AGE then old(faithful) + {i} else old(faithful)
    {
      i := |markers|;
      markers := markers + [lastRun];
      times := times + [baseline];
      if lastSweep <= baseline + MAX_TICK_AGE {
        faithful := faithful + {i};
      }
    }

    /**
     A component write, or a system recording its run. Both use the tick the system was given when it
     started, so time may have moved on since.
     */
    method Stamp(i: nat, tick: Tick, ghost time: nat)
      requires Valid() && i < |times| && time <= now && tick == time % WRAP
      modifies this`markers, this`times, this`faithful
      ensures Valid() && times == old(times)[i := time]
      ensures faithful == if lastSweep <= time + MAX_TICK_AGE then old(faithful) + {i} else old(faithful) - {i}
    {
      markers := markers[i := tick];
      times := times[i := time];
      faithful := if lastSweep <= time + MAX_TICK_AGE then faithful + {i} else faithful - {i};
    }

    /** Periodic validation of every stored marker. No marker comes to stand for another time. */
    method CheckTicks() returns (swept: bool)
      requires Valid()
      modifies this`markers, this`lastCall, this`lastSweep
      ensures Valid() && lastCall == now
      ensures swept <==> now % WRAP >= CHECK_CYCLE
      ensures lastSweep == if swept then now else old(lastSweep)
    {
      if closeCalls {
        CallKeepsTracking(lastCall, lastSweep, now);
      }
      swept := SweepsAt(thisRun, lastCheck);
      if swept {
        Sweep();
        lastSweep := now;
      }
      lastCall := now;
    }

    /** Visits every stored tick once. */
    method Sweep()
      requires Valid()
      modifies this`markers
      ensures |markers| == |times|
      ensures timely ==> forall k :: 0 <= k < |times| && k in faithful ==> StandsFor(markers[k], times[k], now)
    {
      hide SweepTracked;
      for i := 0 to |markers|
        invariant |markers| == |times|
        invariant timely ==> forall k :: 0 <= k < |times| && k in faithful ==>
                    StandsFor(markers[k], times[k], if k < i then now else lastSweep)
      {
        if timely && i in faithful {
          CheckedIsEffective(times[i], lastSweep, now);
        }
        markers := markers[i := Checked(markers[i], thisRun)];
      }
    }

    /** `reset_last_run`: checks, moves the world's own baseline to the present, and checks again. */
    method ResetLastRun() returns (tick: Tick)
      requires Valid()
      modifies this
      ensures Valid() && times == old(times) && faithful == old(faithful) && closeCalls == old(closeCalls)
      ensures timely <==> old(timely) && (old(now) % WRAP >= CHECK_CYCLE || now <= old(lastSweep) + SWEEP_GAP)
      ensures now == old(now) + 1 && baseline == old(now) && lastCall == now && tick == now % WRAP
    {
      var _ := CheckTicks();
      lastRun := thisRun;
      baseline := now;
      var _ := AdvanceTick();
      var _ := CheckTicks();
      tick := thisRun;
    }

    /**
     In every reachable state, for every two faithful markers, detection by a system that started at
     `time` agrees with unbounded time.
     */
    method IsChanged(write: nat, system: nat, tick: Tick, ghost time: nat) returns (changed: bool)
      requires Valid() && write < |times| && system < |times|
      requires lastSweep <= time <= now && tick == time % WRAP && times[write] <= time && times[system] <= time
      ensures timely && write in faithful && system in faithful ==>
                (changed <==> times[system] < times[write] && time - times[write] < MAX_TICK_AGE)
    {
      if timely {
        NewerAgrees(times[write], times[system], lastSweep, time);
      }
      changed := IsNewerThan(markers[write], markers[system], tick);
    }

    /** Detection against the world's own baseline, in every reachable state: its age is seen wrapped. */
    method IsChangedSinceBaseline(write: nat) returns (changed: bool)
      requires Valid() && write < |times|
      ensures timely && write in faithful ==>
                (changed <==> now - times[write] < MAX_TICK_AGE && now - times[write] < (now - baseline) % WRAP)
      ensures timely && write in faithful && now - baseline < WRAP ==>
                (changed <==> NewerThanBaseline(times[write], baseline, now))
    {
      if timely {
        BaselineComparesWrappedAge(times[write], baseline, lastSweep, now);
        AgeIsAtLeastWrapped(now - baseline);
      }
      changed := IsNewerThan(markers[write], lastRun, thisRun);
    }
  }
}
