/**
 The fixed-timestep clock of voker-time (`fixed.rs`, `time.rs`) in integer nanoseconds: an overstep
 accumulator that frames fill with virtual time and the fixed loop spends one timestep at a time.
 */
module FixedTime {
  import opened Timers

  type Timestep = d: nat | 0 < d <= DURATION_MAX witness 1

  /** The integer part of `Time<T>`; the cached floating-point fields are functions of it. */
  datatype Clock = Clock(elapsed: nat, delta: nat, wrapPeriod: Timestep, elapsedWrapped: nat)

  /** `advance_by`, with the cast to 64 bits in `duration_rem`. */
  function Advanced(c: Clock, delta: nat): Clock {
    var elapsed := c.elapsed + delta;
    Clock(elapsed, delta, c.wrapPeriod, (elapsed % c.wrapPeriod) % TWO_TO_THE_64)
  }

  /** The wrapped time is the elapsed time modulo the period exactly when the cast cuts nothing off. */
  lemma WrappedIsRemainder(c: Clock, delta: nat)
    ensures var d := Advanced(c, delta);
            d.elapsedWrapped == d.elapsed % d.wrapPeriod <==> (c.elapsed + delta) % c.wrapPeriod < TWO_TO_THE_64
    ensures c.wrapPeriod <= TWO_TO_THE_64 ==> Advanced(c, delta).elapsedWrapped == (c.elapsed + delta) % c.wrapPeriod
  {
    TruncationLoses((c.elapsed + delta) % c.wrapPeriod, TWO_TO_THE_64);
  }

  datatype Fixed = Fixed(clock: Clock, timestep: Timestep, overstep: nat)

  /** What one run of the `FixedMain` schedule may do to the fixed clock: set the timestep, discard overstep. */
  datatype Change = Change(timestep: Timestep, discard: nat)

  function Less(a: nat, b: nat): nat {
    if b <= a then a - b else 0
  }

  function Expended(f: Fixed): Fixed
    requires f.overstep >= f.timestep
  {
    f.(overstep := f.overstep - f.timestep, clock := Advanced(f.clock, f.timestep))
  }

  function AfterStep(f: Fixed, c: Change): Fixed
    requires f.overstep >= f.timestep
  {
    var e := Expended(f);
    e.(timestep := c.timestep, overstep := Less(e.overstep, c.discard))
  }

  // ---------------------------------------------------------------------------------------------
  // The fixed loop; `body(n)` is what the n-th run of the schedule in this frame does

  function LoopEnd(f: Fixed, body: nat -> Change, n: nat): Fixed
    decreases f.overstep
  {
    if f.overstep < f.timestep then f else LoopEnd(AfterStep(f, body(n)), body, n + 1)
  }

  /** The clocks the runs of the schedule see. */
  function LoopSeen(f: Fixed, body: nat -> Change, n: nat): seq<Clock>
    decreases f.overstep
  {
    if f.overstep < f.timestep then []
    else [Expended(f).clock] + LoopSeen(AfterStep(f, body(n)), body, n + 1)
  }

  /** The overstep the runs of the schedule discard. */
  function LoopDiscarded(f: Fixed, body: nat -> Change, n: nat): nat
    decreases f.overstep
  {
    if f.overstep < f.timestep then 0
    else Min(Expended(f).overstep, body(n).discard) + LoopDiscarded(AfterStep(f, body(n)), body, n + 1)
  }

  function SumOfDeltas(clocks: seq<Clock>): nat {
    if clocks == [] then 0 else clocks[0].delta + SumOfDeltas(clocks[1..])
  }

  function Account(f: Fixed): nat {
    f.clock.elapsed + f.overstep
  }

  /**
   The loop ends with less than one timestep to spend, moves overstep into elapsed time without gain
   or loss, and the deltas its runs saw are the elapsed time it added, whatever the runs change.
   */
  lemma {:induction false} LoopConserves(f: Fixed, body: nat -> Change, n: nat)
    ensures var end := LoopEnd(f, body, n);
            && end.overstep < end.timestep
            && Account(end) + LoopDiscarded(f, body, n) == Account(f)
            && end.clock.elapsed == f.clock.elapsed + SumOfDeltas(LoopSeen(f, body, n))
            && end.clock.wrapPeriod == f.clock.wrapPeriod
    decreases f.overstep
  {
    if f.overstep >= f.timestep {
      LoopConserves(AfterStep(f, body(n)), body, n + 1);
      var rest := LoopSeen(AfterStep(f, body(n)), body, n + 1);
      assert ([Expended(f).clock] + rest)[1..] == rest;
    }
  }

  /** The timestep in force for run `k` when the runs set their own. */
  function TimestepAt(timestep: Timestep, body: nat -> Change, n: nat, k: nat): Timestep {
    if k == 0 then timestep else body(n + k - 1).timestep
  }

  /** The time the first `k` runs spend. */
  function Spent(timestep: Timestep, body: nat -> Change, n: nat, k: nat): nat
    decreases k
  {
    if k == 0 then 0 else timestep + Spent(body(n).timestep, body, n + 1, k - 1)
  }

  ghost predicate DiscardsNothing(body: nat -> Change) {
    forall n :: body(n).discard == 0
  }

  /**
   The timestep is read for every run: each sees the one in force by then, the last one set is left,
   and, if nothing is discarded, there are as many runs as the overstep can pay for.
   */
  lemma {:induction false} EachRunSpendsItsTimestep(f: Fixed, body: nat -> Change, n: nat)
    ensures var end, seen := LoopEnd(f, body, n), LoopSeen(f, body, n);
            && (forall k :: 0 <= k < |seen| ==> seen[k].delta == TimestepAt(f.timestep, body, n, k))
            && end.timestep == TimestepAt(f.timestep, body, n, |seen|)
    ensures DiscardsNothing(body) ==>
              var runs := |LoopSeen(f, body, n)|;
              Spent(f.timestep, body, n, runs) <= f.overstep < Spent(f.timestep, body, n, runs + 1)
    decreases f.overstep
  {
    if f.overstep >= f.timestep {
      var next := AfterStep(f, body(n));
      EachRunSpendsItsTimestep(next, body, n + 1);
      var rest := LoopSeen(next, body, n + 1);
      forall k | 0 <= k <= |rest|
        ensures ([Expended(f).clock] + rest)[k].delta == TimestepAt(f.timestep, body, n, k)
      {
        if k > 0 {
          assert rest[k - 1].delta == TimestepAt(next.timestep, body, n + 1, k - 1);
        }
      }
    }
  }

  ghost predicate LeavesAlone(body: nat -> Change, timestep: Timestep) {
    forall n :: body(n) == Change(timestep, 0)
  }

  /** With a constant timestep the loop runs floor(overstep / timestep) times, and run i sees i + 1 timesteps gone. */
  lemma {:induction false} ConstantTimestep(f: Fixed, body: nat -> Change, n: nat)
    requires LeavesAlone(body, f.timestep)
    ensures var end, seen := LoopEnd(f, body, n), LoopSeen(f, body, n);
            && |seen| == f.overstep / f.timestep
            && end.overstep == f.overstep % f.timestep
            && end.timestep == f.timestep
            && LoopDiscarded(f, body, n) == 0
    ensures forall i :: 0 <= i < |LoopSeen(f, body, n)| ==>
              && LoopSeen(f, body, n)[i].delta == f.timestep
              && LoopSeen(f, body, n)[i].elapsed == f.clock.elapsed + f.timestep * (i + 1)
    decreases f.overstep
  {
    if f.overstep >= f.timestep {
      var next := AfterStep(f, body(n));
      ConstantTimestep(next, body, n + 1);
      OneQuotientLess(f.overstep, f.timestep);
      var rest := LoopSeen(next, body, n + 1);
      forall i | 0 <= i < |rest| + 1
        ensures var seen := ([Expended(f).clock] + rest)[i];
                seen.delta == f.timestep && seen.elapsed == f.clock.elapsed + f.timestep * (i + 1)
      {
        if i > 0 {
          Distributes(f.timestep, 1, i);
        }
      }
    } else {
      SmallQuotient(f.overstep, f.timestep);
    }
  }

  lemma QuotientAndRemainder(a: nat, d: Timestep)
    ensures a == d * (a / d) + a % d && a % d < d
  {
  }

  lemma SmallQuotient(a: nat, d: Timestep)
    requires a < d
    ensures a / d == 0 && a % d == a
  {
  }

  lemma OneQuotientLess(a: nat, d: Timestep)
    requires a >= d
    ensures a / d == (a - d) / d + 1 && a % d == (a - d) % d
  {
    var q, r := (a - d) / d, (a - d) % d;
    assert a - d == d * q + r;
    Distributes(d, q, 1);
    assert a == d * (a / d) + a % d;
    QuotientIsUnique(d, q + 1, r, a / d, a % d);
  }

  // ---------------------------------------------------------------------------------------------
  // Frames

  /**
   One frame: the timestep set before it, the virtual delta, and what the schedule does; when the world
   has no `FixedMain` schedule nothing is spent.
   */
  datatype Frame = Frame(timestep: Timestep, delta: nat, scheduled: bool, body: nat -> Change)

  function Accumulated(f: Fixed, frame: Frame): Fixed {
    f.(timestep := frame.timestep, overstep := f.overstep + frame.delta)
  }

  function FrameEnd(f: Fixed, frame: Frame): Fixed {
    if frame.scheduled then LoopEnd(Accumulated(f, frame), frame.body, 0) else Accumulated(f, frame)
  }

  function FrameSteps(f: Fixed, frame: Frame): nat {
    if frame.scheduled then |LoopSeen(Accumulated(f, frame), frame.body, 0)| else 0
  }

  function FrameDiscarded(f: Fixed, frame: Frame): nat {
    if frame.scheduled then LoopDiscarded(Accumulated(f, frame), frame.body, 0) else 0
  }

  function FramesEnd(f: Fixed, frames: seq<Frame>): Fixed
    decreases |frames|
  {
    if frames == [] then f else FramesEnd(FrameEnd(f, frames[0]), frames[1..])
  }

  function FramesSteps(f: Fixed, frames: seq<Frame>): nat
    decreases |frames|
  {
    if frames == [] then 0 else FrameSteps(f, frames[0]) + FramesSteps(FrameEnd(f, frames[0]), frames[1..])
  }

  function FramesDiscarded(f: Fixed, frames: seq<Frame>): nat
    decreases |frames|
  {
    if frames == [] then 0 else FrameDiscarded(f, frames[0]) + FramesDiscarded(FrameEnd(f, frames[0]), frames[1..])
  }

  function VirtualTime(frames: seq<Frame>): nat
    decreases |frames|
  {
    if frames == [] then 0 else frames[0].delta + VirtualTime(frames[1..])
  }

  /** Over any frames, fixed time plus overstep plus what was discarded is the virtual time that came in. */
  lemma {:induction false} FramesConserve(f: Fixed, frames: seq<Frame>)
    ensures Account(FramesEnd(f, frames)) + FramesDiscarded(f, frames) == Account(f) + VirtualTime(frames)
    ensures frames != [] && frames[|frames| - 1].scheduled ==>
              FramesEnd(f, frames).overstep < FramesEnd(f, frames).timestep
    decreases |frames|
  {
    if frames != [] {
      LoopConserves(Accumulated(f, frames[0]), frames[0].body, 0);
      FramesConserve(FrameEnd(f, frames[0]), frames[1..]);
    }
  }

  ghost predicate Steady(frames: seq<Frame>, timestep: Timestep) {
    forall i :: 0 <= i < |frames| ==>
      frames[i].scheduled && frames[i].timestep == timestep && LeavesAlone(frames[i].body, timestep)
  }

  lemma DivisionIs(a: nat, d: Timestep, q: nat, r: nat)
    requires a == d * q + r && r < d
    ensures a / d == q && a % d == r
  {
    QuotientAndRemainder(a, d);
    QuotientIsUnique(d, q, r, a / d, a % d);
  }

  /** A frame whose timestep the runs leave alone runs as often as it fits and adds one timestep each time. */
  lemma SteadyFrame(f: Fixed, frame: Frame)
    requires frame.scheduled && LeavesAlone(frame.body, frame.timestep)
    ensures var end := FrameEnd(f, frame);
            && end.timestep == frame.timestep && end.overstep < frame.timestep && FrameDiscarded(f, frame) == 0
            && FrameSteps(f, frame) == (f.overstep + frame.delta) / frame.timestep
            && end.clock.elapsed == f.clock.elapsed + frame.timestep * FrameSteps(f, frame)
  {
    hide LoopEnd, LoopSeen, LoopDiscarded, SumOfDeltas;
    var start := Accumulated(f, frame);
    LoopConserves(start, frame.body, 0);
    ConstantTimestep(start, frame.body, 0);
    assert start.overstep == frame.timestep * (start.overstep / frame.timestep) + start.overstep % frame.timestep;
  }

  lemma {:induction false} SteadyFrames(f: Fixed, frames: seq<Frame>)
    requires Steady(frames, f.timestep) && f.overstep < f.timestep
    ensures var end := FramesEnd(f, frames);
            && end.overstep < f.timestep
            && FramesDiscarded(f, frames) == 0
            && end.clock.elapsed == f.clock.elapsed + f.timestep * FramesSteps(f, frames)
    decreases |frames|
  {
    hide FrameEnd, FrameSteps, FrameDiscarded, LeavesAlone;
    if frames != [] {
      var next := FrameEnd(f, frames[0]);
      SteadyFrame(f, frames[0]);
      SteadyFrames(next, frames[1..]);
      Distributes(f.timestep, FrameSteps(f, frames[0]), FramesSteps(next, frames[1..]));
    }
  }

  /** How virtual time is cut into frames does not matter: only its total decides steps, elapsed time and overstep. */
  lemma FrameRateDoesNotMatter(f: Fixed, frames: seq<Frame>)
    requires Steady(frames, f.timestep) && f.overstep < f.timestep
    ensures var total := f.overstep + VirtualTime(frames);
            && FramesSteps(f, frames) == total / f.timestep
            && FramesEnd(f, frames).overstep == total % f.timestep
            && FramesEnd(f, frames).clock.elapsed == f.clock.elapsed + f.timestep * (total / f.timestep)
  {
    hide FramesEnd, FramesSteps, FramesDiscarded, VirtualTime, Steady;
    FramesConserve(f, frames);
    SteadyFrames(f, frames);
    DivisionIs(f.overstep + VirtualTime(frames), f.timestep, FramesSteps(f, frames), FramesEnd(f, frames).overstep);
  }

  // ---------------------------------------------------------------------------------------------
  // The objects

  class TimeFixed {
    var clock: Clock
    var timestep: Timestep
    var overstep: nat

    ghost function State(): Fixed
      reads this
    {
      Fixed(clock, timestep, overstep)
    }

    /** The timestep is 15625 microseconds and the wrap period one hour, as in the two defaults. */
    constructor ()
      ensures State() == Fixed(Clock(0, 0, 3_600_000_000_000, 0), 15_625_000, 0)
    {
      clock, timestep, overstep := Clock(0, 0, 3_600_000_000_000, 0), 15_625_000, 0;
    }

    /** Panics on a zero timestep, which the parameter type leaves out. */
    method SetTimestep(newTimestep: Timestep)
      modifies this
      ensures State() == old(State()).(timestep := newTimestep)
    {
      timestep := newTimestep;
    }

    /** Panics when the sum is not a `Duration`. */
    method AccumulateOverstep(delta: nat)
      requires overstep + delta <= DURATION_MAX
      modifies this
      ensures State() == old(State()).(overstep := old(overstep) + delta)
    {
      overstep := overstep + delta;
    }

    method DiscardOverstep(discard: nat)
      modifies this
      ensures State() == old(State()).(overstep := Less(old(overstep), discard))
    {
      overstep := if discard <= overstep then overstep - discard else 0;
    }

    /** Panics when the elapsed time is no `Duration` any more. */
    method AdvanceBy(delta: nat)
      requires clock.elapsed + delta <= DURATION_MAX
      modifies this
      ensures State() == old(State()).(clock := Advanced(old(clock), delta))
    {
      clock := clock.(delta := delta);
      clock := clock.(elapsed := clock.elapsed + delta);
      clock := clock.(elapsedWrapped := (clock.elapsed % clock.wrapPeriod) % TWO_TO_THE_64);
    }

    /** Spends one timestep if there is one; time moves from the overstep to the clock. */
    method Expend() returns (spent: bool)
      requires clock.elapsed + overstep <= DURATION_MAX
      modifies this
      ensures spent == (old(overstep) >= old(timestep))
      ensures State() == if spent then Expended(old(State())) else old(State())
      ensures Account(State()) == old(Account(State()))
    {
      if overstep >= timestep {
        overstep := overstep - timestep;
        AdvanceBy(timestep);
        return true;
      }
      return false;
    }
  }

  class TimeWorld {
    const fixed: TimeFixed
    var virtual: Clock
    var generic: Clock

    constructor (fixed: TimeFixed, virtual: Clock)
      ensures this.fixed == fixed && this.virtual == virtual && generic == virtual
    {
      this.fixed, this.virtual, generic := fixed, virtual, virtual;
    }

    /**
     Runs the fixed schedule for one frame. `seen` collects the generic clock each run of the schedule
     reads; it is the fixed clock during the loop and the virtual clock again at the end.
     */
    method RunFixedMainSchedule(scheduled: bool, body: nat -> Change) returns (seen: seq<Clock>)
      requires fixed.clock.elapsed + fixed.overstep + virtual.delta <= DURATION_MAX
      modifies this, fixed
      ensures virtual == old(virtual) && generic == virtual
      ensures var frame := Frame(old(fixed.timestep), virtual.delta, scheduled, body);
              && fixed.State() == FrameEnd(old(fixed.State()), frame)
              && seen == (if scheduled then LoopSeen(Accumulated(old(fixed.State()), frame), body, 0) else [])
              && Account(fixed.State()) + FrameDiscarded(old(fixed.State()), frame)
                 == old(Account(fixed.State())) + virtual.delta
      ensures scheduled ==> fixed.overstep < fixed.timestep
    {
      hide LoopEnd, LoopSeen, LoopDiscarded, SumOfDeltas;
      fixed.AccumulateOverstep(virtual.delta);
      seen := [];
      LoopConserves(fixed.State(), body, 0);
      if scheduled {
        seen := RunWhileExpending(body);
      }
      generic := virtual;
    }

    /** The loop: one run of the schedule for every timestep that can be spent. */
    method RunWhileExpending(body: nat -> Change) returns (seen: seq<Clock>)
      requires Account(fixed.State()) <= DURATION_MAX
      modifies this`generic, fixed
      ensures fixed.State() == LoopEnd(old(fixed.State()), body, 0)
      ensures seen == LoopSeen(old(fixed.State()), body, 0)
    {
      hide Advanced;
      seen := [];
      ghost var start := fixed.State();
      var n := 0;
      var spent := fixed.Expend();
      ghost var before := start;
      while spent
        invariant spent == (before.overstep >= before.timestep)
        invariant fixed.State() == if spent then Expended(before) else before
        invariant Account(fixed.State()) <= DURATION_MAX
        invariant LoopEnd(before, body, n) == LoopEnd(start, body, 0)
        invariant seen + LoopSeen(before, body, n) == LoopSeen(start, body, 0)
        decreases spent, fixed.overstep
      {
        generic := fixed.clock;
        seen := seen + [generic];
        fixed.SetTimestep(body(n).timestep);
        fixed.DiscardOverstep(body(n).discard);
        before := fixed.State();
        n := n + 1;
        spent := fixed.Expend();
      }
    }
  }
}
