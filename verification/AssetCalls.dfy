/**
 Table calls of voker-asset against reservations that run at the same time (`assets.rs`, `ident.rs`):
 a call takes many steps, and reservations slip in between any two of them, yet seen through the next
 flush the call happens at once, in its last step.
 */
module AssetCalls {
  import opened AssetSlots

  /** The state as it is once every recycled slot has been readmitted and no operation is in progress. */
  ghost function Settle(s: Slots): Slots
    requires Inv(s)
  {
    RecycledIsInBounds(s);
    s.(op := None, drained := false, recycled := [], storage := Drained(Resized(s.storage, s.next), s.recycled))
  }

  /** Draining does not look at a slot that is not in the queue. */
  lemma {:induction false} DrainedUpdate(storage: seq<Option<Entry>>, q: seq<AssetIndex>, i: nat, e: Option<Entry>)
    requires i < |storage| && forall k :: 0 <= k < |q| ==> q[k].index < |storage| && q[k].index != i
    ensures Drained(storage[i := e], q) == Drained(storage, q)[i := e]
    ensures Drained(storage, q)[i] == storage[i]
    decreases |q|
  {
    if q != [] {
      var next := storage[q[0].index := Some(Entry(None, q[0].generation))];
      DrainedUpdate(next, q[1..], i, e);
      assert next[i := e] == storage[i := e][q[0].index := Some(Entry(None, q[0].generation))];
    }
  }

  lemma {:induction false} DrainedAppend(storage: seq<Option<Entry>>, q: seq<AssetIndex>, x: AssetIndex)
    requires x.index < |storage| && forall k :: 0 <= k < |q| ==> q[k].index < |storage|
    ensures Drained(storage, q + [x]) == Drained(storage, q)[x.index := Some(Entry(None, x.generation))]
    decreases |q|
  {
    if q == [] {
      assert [x][1..] == [] && q + [x] == [x];
    } else {
      DrainedAppend(storage[q[0].index := Some(Entry(None, q[0].generation))], q[1..], x);
      assert (q + [x])[1..] == q[1..] + [x];
    }
  }

  lemma ResizedUpdate(storage: seq<Option<Entry>>, n: nat, i: nat, e: Option<Entry>)
    requires i < |storage| <= n
    ensures Resized(storage[i := e], n) == Resized(storage, n)[i := e]
  {
  }

  lemma ResizedTwice(storage: seq<Option<Entry>>, n: nat)
    requires |storage| <= n
    ensures Resized(Resized(storage, n), n) == Resized(storage, n)
    ensures Resized(Resized(storage, n), n + 1) == Resized(storage, n + 1) == Resized(storage, n) + [Some(Entry(None, 0))]
  {
  }

  lemma {:induction false} DrainedGrow(storage: seq<Option<Entry>>, q: seq<AssetIndex>, e: Option<Entry>)
    requires forall k :: 0 <= k < |q| ==> q[k].index < |storage|
    ensures Drained(storage + [e], q) == Drained(storage, q) + [e]
    decreases |q|
  {
    if q != [] {
      var i, x := q[0].index, Some(Entry(None, q[0].generation));
      DrainedGrow(storage[i := x], q[1..], e);
      assert (storage + [e])[i := x] == storage[i := x] + [e];
    }
  }

  /** The state with the operation in progress put aside. */
  function Aside(s: Slots): Slots {
    s.(op := None, drained := false)
  }

  lemma AsideKeepsInv(s: Slots)
    requires Inv(s)
    ensures Inv(Aside(s))
    ensures forall x :: Active(Aside(s), x) <==> Active(s, x)
  {
    assert forall u, i :: Held(Aside(s), u, i) == Held(s, u, i);
    assert forall i :: HeldBySome(Aside(s), i) <==> HeldBySome(s, i);
  }

  /** Settling is a flush: the invariant, the active indices and the stored values stay. */
  lemma SettleKeeps(s: Slots, x: AssetIndex)
    requires Inv(s)
    ensures Inv(Settle(s)) && |Settle(s).storage| == s.next
    ensures Active(Settle(s), x) <==> Active(s, x)
    ensures Get(Settle(s).storage, x) == Get(s.storage, x)
    ensures x.index < s.next ==> (Stores(Settle(s).storage, x) <==> Active(s, x))
  {
    hide Inv, Active, Step, Enabled, Exec, IsRun, Get, Stores;
    AsideKeepsInv(s);
    RecycledIsInBounds(s);
    if s.next == 0 {
      NothingToSettle(s);
      NothingStored(s, x);
    } else {
      var op := RemoveStillAlive(AssetIndex(0, 0));
      var s0 := Aside(s);
      BeginOpEffect(s0, op);
      var s1 := Step(s0, BeginOp(op));
      StepKeepsInv(s0, BeginOp(op));
      ResizedTwice(s.storage, s.next);
      DrainRun(s1);
      RunKeepsInv(s1, seq(|s.recycled|, _ => FlushPop));
      var s2 := Exec(s1, seq(|s.recycled|, _ => FlushPop));
      AsideKeepsInv(s2);
      assert Settle(s) == Aside(s2);
      SameActive(s, Settle(s), x);
      if x.index < s.next {
        FlushFindsTheActive(s0, x);
      } else {
        BeyondIsNotStored(s.storage, x);
        BeyondIsNotStored(Settle(s).storage, x);
      }
    }
  }

  lemma SameActive(s: Slots, s': Slots, x: AssetIndex)
    requires s.reservers == s'.reservers && s.latest == s'.latest && s.recycledQueue == s'.recycledQueue
    ensures Active(s, x) <==> Active(s', x)
  {
    SameHolders(s, s', x.index);
  }

  lemma NothingToSettle(s: Slots)
    requires Inv(s) && s.next == 0
    ensures Settle(s) == Aside(s) && |s.storage| == 0
  {
    RecycledIsInBounds(s);
    if s.recycled != [] {
      FirstInBounds(s.recycled, |s.storage|);
    }
  }

  lemma FirstInBounds(q: seq<AssetIndex>, n: nat)
    requires q != [] && forall k :: 0 <= k < |q| ==> q[k].index < n
    ensures q[0].index < n
  {
  }

  lemma NothingStored(s: Slots, x: AssetIndex)
    requires Inv(s) && s.next == 0
    ensures Get(s.storage, x).None?
  {
  }

  lemma BeyondIsNotStored(storage: seq<Option<Entry>>, x: AssetIndex)
    requires x.index >= |storage|
    ensures Get(storage, x).None?
  {
  }

  // ---------------------------------------------------------------------------
  // One step at a time

  lemma FlushStepSettlesAlike(s: Slots, a: Action)
    requires Inv(s) && Enabled(s, a) && (a.BeginOp? || a.FlushPop? || a.FlushEmpty?)
    ensures Inv(Step(s, a)) && Settle(Step(s, a)) == Settle(s)
  {
    hide Inv;
    StepKeepsInv(s, a);
    RecycledIsInBounds(s);
    if a.BeginOp? {
      ResizedTwice(s.storage, s.next);
    } else if a.FlushPop? {
      var r := s.recycled[0];
      ResizedUpdate(s.storage, s.next, r.index, Some(Entry(None, r.generation)));
    }
  }

  lemma PopSettlesAlike(s: Slots, t: ThreadId)
    requires Inv(s) && Enabled(s, Pop(t))
    ensures Inv(Settle(s)) && Enabled(Settle(s), Pop(t)) && Inv(Step(s, Pop(t))) && Inv(Step(Settle(s), Pop(t)))
    ensures Settle(Step(s, Pop(t))) == Settle(Step(Settle(s), Pop(t)))
  {
    hide Inv, Drained;
    StepKeepsInv(s, Pop(t));
    SettleKeeps(s, AssetIndex(0, 0));
    StepKeepsInv(Settle(s), Pop(t));
    SettledStays(Settle(s).storage, s.next);
  }

  lemma SettledStays(storage: seq<Option<Entry>>, n: nat)
    requires |storage| == n
    ensures Drained(Resized(storage, n), []) == storage
  {
    assert Resized(storage, n) == storage;
  }

  lemma PushSettlesAlike(s: Slots, t: ThreadId)
    requires Inv(s) && Enabled(s, Push(t))
    ensures Inv(Settle(s)) && Enabled(Settle(s), Push(t)) && Inv(Step(s, Push(t))) && Inv(Step(Settle(s), Push(t)))
    ensures Settle(Step(s, Push(t))) == Settle(Step(Settle(s), Push(t)))
  {
    hide Inv, Drained, Resized;
    var id := s.reservers[t].id;
    StepKeepsInv(s, Push(t));
    SettleKeeps(s, AssetIndex(0, 0));
    StepKeepsInv(Settle(s), Push(t));
    RecycledIsInBounds(s);
    RecycledIsInBounds(Step(s, Push(t)));
    assert Step(s, Push(t)).recycled[|s.recycled|] == id;
    DrainedAppend(Resized(s.storage, s.next), s.recycled, id);
    var d := Settle(s).storage;
    SettledStays(d, s.next);
    ResizedTwice(d, s.next);
    assert [] + [id] == [id];
    DrainedAppend(Resized(d, s.next), [], id);
  }

  lemma FetchAddSettlesAlike(s: Slots, t: ThreadId)
    requires Inv(s) && Enabled(s, FetchAdd(t))
    ensures Inv(Settle(s)) && Enabled(Settle(s), FetchAdd(t)) && Inv(Step(s, FetchAdd(t))) && Inv(Step(Settle(s), FetchAdd(t)))
    ensures Settle(Step(s, FetchAdd(t))) == Settle(Step(Settle(s), FetchAdd(t)))
  {
    hide Inv, Drained, Resized;
    StepKeepsInv(s, FetchAdd(t));
    SettleKeeps(s, AssetIndex(0, 0));
    StepKeepsInv(Settle(s), FetchAdd(t));
    RecycledIsInBounds(s);
    ResizedTwice(s.storage, s.next);
    DrainedGrow(Resized(s.storage, s.next), s.recycled, Some(Entry(None, 0)));
    var d := Settle(s).storage;
    ResizedTwice(d, s.next);
    SettledStays(d, s.next);
    SettledStays(d + [Some(Entry(None, 0))], s.next + 1);
    DrainedGrow(Resized(d, s.next), [], Some(Entry(None, 0)));
  }

  predicate Refused(r: TableResult) {
    r.SlotRemoved? || r.SlotOccupied?
  }

  lemma StoredIsNotRecycled(s: Slots, id: AssetIndex)
    requires Inv(s) && Stores(s.storage, id)
    ensures forall k :: 0 <= k < |s.recycled| ==> s.recycled[k].index != id.index
  {
    hide Dated, Unrepeated, Exclusive;
    forall k | 0 <= k < |s.recycled| ensures s.recycled[k].index != id.index {
      assert InQueue(s.recycled, s.recycled[k].index);
    }
  }

  /** Draining and an operation on a stored slot commute: that slot is not in the queue. */
  lemma DrainAfterOperation(s: Slots, op: TableOp)
    requires Inv(s) && op.id.index < |s.storage|
    requires Stores(s.storage, op.id) <==> Stores(Settle(s).storage, op.id)
    ensures forall k :: 0 <= k < |s.recycled| ==> s.recycled[k].index < |StorageAfter(s.storage, op)| <= s.next
    ensures op.id.index < |Settle(s).storage|
    ensures Drained(Resized(StorageAfter(s.storage, op), s.next), s.recycled) == StorageAfter(Settle(s).storage, op)
  {
    hide Drained, Resized, Inv;
    RecycledIsInBounds(s);
    assert |StorageAfter(s.storage, op)| == |s.storage|;
    if Stores(s.storage, op.id) {
      var i, e := op.id.index, StorageAfter(s.storage, op)[op.id.index];
      StoredIsNotRecycled(s, op.id);
      ResizedUpdate(s.storage, s.next, i, e);
      DrainedUpdate(Resized(s.storage, s.next), s.recycled, i, e);
    }
  }

  /** An index in `recycled` is in use, but its slot is still empty in the table. */
  lemma RecycledIsActive(s: Slots, id: AssetIndex)
    requires Inv(s) && id in s.recycled
    ensures Active(s, id) && id.index < |s.storage| <= s.next && Get(s.storage, id).None?
  {
    var k :| 0 <= k < |s.recycled| && s.recycled[k] == id;
    assert InQueue(s.recycled, id.index) && IsLatest(s.latest, s.recycled[k]);
    assert Free(s.storage, id.index);
    forall t ensures !Held(s, t, id.index) { }
  }

  /**
   The operation is about to be done on an index that a reservation has put into `recycled` since the
   flush, and would do something to it. The caller had the index before the reservation returned it.
   */
  predicate Early(s: Slots) {
    s.op.Some? && s.op.value.id in s.recycled && !s.op.value.RemoveStillAlive?
  }

  lemma FinishOnTime(s: Slots)
    requires Inv(s) && Enabled(s, FinishOp) && s.op.value.id !in s.recycled
    ensures var op := s.op.value;
            && Inv(Settle(s)) && CanCall(Settle(s), op) && Inv(Step(s, FinishOp))
            && Settle(Step(s, FinishOp)) == Call(Settle(s), op)
            && (Stores(s.storage, op.id) <==> Stores(Flushed(Settle(s)), op.id))
            && (ResultOf(s.storage, op) == ResultOf(Flushed(Settle(s)), op)
                || (Refused(ResultOf(s.storage, op)) && Refused(ResultOf(Flushed(Settle(s)), op))))
  {
    hide Inv, Active, Drained, Resized;
    var op := s.op.value;
    StepKeepsInv(s, FinishOp);
    RecycledIsInBounds(s);
    SettleKeeps(s, op.id);
    StoredExactlyWhenFlushed(s, op.id);
    CallIsARun(Settle(s), op);
    SettledStays(Settle(s).storage, s.next);
    DrainAfterOperation(s, op);
  }

  /** Before the flush readmits it, an index is refused where the call would have accepted it. */
  lemma FinishOnRecycled(s: Slots)
    requires Inv(s) && Enabled(s, FinishOp) && s.op.value.id in s.recycled
    ensures var op := s.op.value;
            && Inv(Settle(s)) && CanCall(Settle(s), op) && Inv(Step(s, FinishOp))
            && Settle(Step(s, FinishOp)) == Settle(s)
            && !Stores(s.storage, op.id) && Stores(Flushed(Settle(s)), op.id) && Get(Flushed(Settle(s)), op.id).None?
            && (Call(Settle(s), op) == Settle(s) <==> op.RemoveStillAlive?)
  {
    hide Inv, Active, Drained, Resized;
    var op := s.op.value;
    StepKeepsInv(s, FinishOp);
    RecycledIsInBounds(s);
    RecycledIsActive(s, op.id);
    SettleKeeps(s, op.id);
    StoredExactlyWhenFlushed(s, op.id);
    CallIsARun(Settle(s), op);
    SettledStays(Settle(s).storage, s.next);
    var d := Settle(s);
    assert d.storage[op.id.index] == Some(Entry(None, op.id.generation));
    if op.RemoveStillAlive? {
      assert Call(d, op).storage == d.storage;
    } else if op.Insert? {
      assert Call(d, op).storage[op.id.index] != d.storage[op.id.index];
    } else {
      assert |Call(d, op).recycledQueue| == |d.recycledQueue| + 1;
    }
  }

  /**
   The last step of a call is the whole call, if and only if it is not early: with everything settled,
   it has the effect of the call made at that moment with no other step in between. Unless it is early
   it also gives the same answer; a refused insertion may name the other of its two reasons.
   */
  lemma FinishIsTheCall(s: Slots)
    requires Inv(s) && Enabled(s, FinishOp)
    ensures var op := s.op.value;
            && Inv(Settle(s)) && CanCall(Settle(s), op) && Inv(Step(s, FinishOp))
            && (Settle(Step(s, FinishOp)) == Call(Settle(s), op) <==> !Early(s))
            && (!Early(s) ==>
                  || ResultOf(s.storage, op) == ResultOf(Flushed(Settle(s)), op)
                  || (Refused(ResultOf(s.storage, op)) && Refused(ResultOf(Flushed(Settle(s)), op))))
            && (!Early(s) && !op.RemoveStillAlive? ==>
                  (Stores(s.storage, op.id) <==> Stores(Flushed(Settle(s)), op.id)))
            && (Early(s) && op.Insert? ==>
                  Refused(ResultOf(s.storage, op)) && ResultOf(Flushed(Settle(s)), op) == Inserted)
  {
    hide Inv, Settle, Call, Step, Flushed;
    if s.op.value.id in s.recycled {
      FinishOnRecycled(s);
      RecycledIsActive(s, s.op.value.id);
    } else {
      FinishOnTime(s);
    }
  }

  // ---------------------------------------------------------------------------
  // All steps, and runs

  /** What a step does to the settled state: flush steps nothing, the last step of a call the whole call. */
  ghost predicate AtomicStep(s: Slots, a: Action, t: Slots, t': Slots) {
    match a
    case FinishOp => s.op.Some? && CanCall(t, s.op.value) && t' == Call(t, s.op.value)
    case BeginOp(_) => t' == t
    case FlushPop => t' == t
    case FlushEmpty => t' == t
    case _ => Enabled(t, a) && Inv(Step(t, a)) && t' == Settle(Step(t, a))
  }

  /**
   Table calls are atomic: under every interleaving with reservations a step of the settled state is that
   of an atomic call or of a reservation, if and only if it is not the end of an early call.
   */
  lemma CallsAreAtomic(s: Slots, a: Action)
    requires Inv(s) && Enabled(s, a)
    ensures Inv(Step(s, a)) && (AtomicStep(s, a, Settle(s), Settle(Step(s, a))) <==> !(a.FinishOp? && Early(s)))
  {
    hide Inv, Settle, Call, CanCall, Step, Enabled, Early;
    match a
    case Pop(t) => PopSettlesAlike(s, t);
    case Push(t) => PushSettlesAlike(s, t);
    case FetchAdd(t) => FetchAddSettlesAlike(s, t);
    case FinishOp =>
      FinishIsTheCall(s);
      FinishIsOfACall(s);
    case _ => FlushStepSettlesAlike(s, a);
  }

  lemma FinishIsOfACall(s: Slots)
    requires Enabled(s, FinishOp)
    ensures s.op.Some?
  {
  }

  /** No call of the run is early. */
  predicate NeverEarly(s: Slots, run: seq<Action>)
    requires IsRun(s, run)
    decreases |run|
  {
    run == [] || (!(run[0].FinishOp? && Early(s)) && NeverEarly(Step(s, run[0]), run[1..]))
  }

  /** The settled states along a run, one more than the run has steps. */
  ghost function SettledAlong(s: Slots, run: seq<Action>): seq<Slots>
    requires Inv(s) && IsRun(s, run)
    decreases |run|
  {
    if run == [] then [Settle(s)]
    else
      StepKeepsInv(s, run[0]);
      [Settle(s)] + SettledAlong(Step(s, run[0]), run[1..])
  }

  ghost predicate AtomicRun(s: Slots, run: seq<Action>, settled: seq<Slots>)
    requires IsRun(s, run)
    decreases |run|
  {
    && |settled| == |run| + 1
    && (run != [] ==> AtomicStep(s, run[0], settled[0], settled[1]) && AtomicRun(Step(s, run[0]), run[1..], settled[1..]))
  }

  /** Over every run, the settled states make atomic calls and reservations only, if and only if no call is early. */
  lemma {:induction false} RunsAreAtomic(s: Slots, run: seq<Action>)
    requires Inv(s) && IsRun(s, run)
    ensures AtomicRun(s, run, SettledAlong(s, run)) <==> NeverEarly(s, run)
    ensures |SettledAlong(s, run)| == |run| + 1 && SettledAlong(s, run)[0] == Settle(s)
    ensures Inv(Exec(s, run)) && SettledAlong(s, run)[|run|] == Settle(Exec(s, run))
    decreases |run|
  {
    hide Inv, Settle, AtomicStep, Step, Enabled, Early;
    if run != [] {
      CallsAreAtomic(s, run[0]);
      RunsAreAtomic(Step(s, run[0]), run[1..]);
      var rest := SettledAlong(Step(s, run[0]), run[1..]);
      assert ([Settle(s)] + rest)[1..] == rest;
    }
  }

  /** Every operation the run begins is on an index that has been returned. */
  predicate OnReturned(s: Slots, run: seq<Action>)
    requires IsRun(s, run)
    decreases |run|
  {
    run == [] || ((run[0].BeginOp? ==> run[0].op.id in s.issued) && OnReturned(Step(s, run[0]), run[1..]))
  }

  /** A call on an index that has been returned is never early, whatever is reserved meanwhile. */
  lemma {:induction false} ReturnedIsNeverEarly(s: Slots, run: seq<Action>)
    requires Inv(s) && Known(s) && IsRun(s, run) && OnReturned(s, run)
    ensures NeverEarly(s, run)
    decreases |run|
  {
    hide Inv, Step;
    if run != [] {
      StepKeepsInv(s, run[0]);
      StepKeepsKnown(s, run[0]);
      ReturnedIsNeverEarly(Step(s, run[0]), run[1..]);
    }
  }

  /**
   An early call exists whenever a thread is about to give back the slot of the index: the insertion is
   then refused, and the asset is lost, where the atomic call would have stored it.
   */
  lemma EarlyInsertionIsRefused(s: Slots, t: ThreadId)
    requires Inv(s) && s.drained && s.op.Some? && s.op.value.Insert?
    requires t in s.reservers && s.reservers[t] == Holding(s.op.value.id)
    ensures IsRun(s, [Push(t), FinishOp])
    ensures var s1 := Step(s, Push(t));
            && Inv(s1) && Enabled(s1, FinishOp) && Early(s1)
            && Refused(ResultOf(s1.storage, s.op.value)) && ResultOf(Flushed(Settle(s1)), s.op.value) == Inserted
  {
    hide Inv, Settle, Flushed, ResultOf;
    OperationsNeverPanic(s);
    StepKeepsInv(s, Push(t));
    var s1 := Step(s, Push(t));
    assert s1.recycled[|s.recycled|] == s.op.value.id;
    OperationsNeverPanic(s1);
    FinishIsTheCall(s1);
    assert [Push(t), FinishOp][1..] == [FinishOp] && [FinishOp][1..] == [];
    assert IsRun(s1, [FinishOp]);
  }
}
