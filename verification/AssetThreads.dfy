/**
 Calls on `Assets` of voker-asset while other threads reserve and drop handles (`assets.rs`,
 `ident.rs`, `handle.rs`): the table call inside an operation takes many steps, and steps of other
 threads come between any two of them. Every such run is matched by a run of `AssetStore`, in which
 operations are atomic, with the same values, handles, counters, events and changes at its end.
 */
module AssetThreads {
  import Slots = AssetSlots
  import AssetCalls
  import opened AssetStore

  type AssetIndex = Slots.AssetIndex

  /** A store together with the operation whose table call is in progress. */
  datatype State = State(store: Store, call: Slots.Option<Op>)

  datatype Move =
    | Thread(a: Slots.Action)       // a step of `reserve`, on any thread
    | Drop(index: AssetIndex)       // a strong handle is dropped, on any thread
    | Begin(op: Op)                 // an operation reaches the table: load the length and resize
    | Flush(a: Slots.Action)        // one step of its flush
    | Finish                        // the table call does its work and the operation returns
    | Own(op: Op)                   // an operation that does not reach the table

  // ---------------------------------------------------------------------------
  // Operations that reach the slot table

  predicate ReachesTable(s: Store, op: Op) {
    match op
    case InsertAt(id, _) => id.Index?
    case Remove(id) => id.Index?
    case RemoveUntracked(id) => id.Index?
    case DrainOne => s.pending != [] && Counter(s, s.pending[0]) == 0
    case _ => false
  }

  function TableOpOf(s: Store, op: Op): Slots.TableOp
    requires ReachesTable(s, op)
  {
    match op
    case InsertAt(id, asset) => Slots.Insert(id.index, asset)
    case Remove(id) => Slots.RemoveStillAlive(id.index)
    case RemoveUntracked(id) => Slots.RemoveStillAlive(id.index)
    case DrainOne => Slots.RemoveAndRecycle(s.pending[0])
  }

  /** The store after the operation, given what the table call left, answered and whether it found the index. */
  function Finished(s: Store, op: Op, slots: Slots.Slots, r: Slots.TableResult, found: bool): Store
    requires ReachesTable(s, op)
  {
    var i := TableOpOf(s, op).id;
    if op.InsertAt? then
      Logged(s.(slots := slots), InsertEvents(Index(i), r))
    else if op.DrainOne? then
      Logged(s.(slots := slots, pending := s.pending[1..], duplicates := s.duplicates - {i},
                unbacked := if found then s.unbacked else s.unbacked - multiset{i}),
             [Unused(Index(i))] + TakenEvents(i, r))
    else
      var removed := s.(slots := slots, duplicates := s.duplicates - {i},
                        unbacked := s.unbacked[i := s.unbacked[i] + Counter(s, i)]);
      if op.Remove? then Logged(removed, TakenEvents(i, r)) else removed
  }

  function TakenEvents(i: AssetIndex, r: Slots.TableResult): seq<Event> {
    if r.Taken? && r.value.Some? then [Removed(Index(i))] else []
  }

  // ---------------------------------------------------------------------------
  // Steps

  predicate Reserves(a: Slots.Action) {
    a.Pop? || a.Push? || a.FetchAdd?
  }

  predicate Can(s: State, m: Move) {
    match m
    case Thread(a) => Reserves(a) && Slots.Enabled(s.store.slots, a)
    case Drop(i) => i in s.store.live
    case Begin(op) =>
      && s.call.None? && ReachesTable(s.store, op)
      && Slots.Enabled(s.store.slots, Slots.BeginOp(TableOpOf(s.store, op)))
    case Flush(a) => (a.FlushPop? || a.FlushEmpty?) && Slots.Enabled(s.store.slots, a)
    case Finish =>
      s.call.Some? && ReachesTable(s.store, s.call.value) && Slots.Enabled(s.store.slots, Slots.FinishOp)
      && s.store.slots.op == Slots.Some(TableOpOf(s.store, s.call.value))
    case Own(op) =>
      && s.call.None? && !ReachesTable(s.store, op) && !op.Other? && !op.Add? && !op.DropHandle?
      && Enabled(s.store, op)
  }

  function Do(s: State, m: Move): State
    requires Can(s, m)
  {
    var slots := s.store.slots;
    match m
    case Thread(a) => s.(store := Step(s.store, Other(a)))
    case Drop(i) => s.(store := Step(s.store, DropHandle(i)))
    case Begin(op) =>
      State(s.store.(slots := Slots.Step(slots, Slots.BeginOp(TableOpOf(s.store, op)))), Slots.Some(op))
    case Flush(a) => s.(store := s.store.(slots := Slots.Step(slots, a)))
    case Finish =>
      var t := TableOpOf(s.store, s.call.value);
      State(Finished(s.store, s.call.value, Slots.Step(slots, Slots.FinishOp),
                     Slots.ResultOf(slots.storage, t), Slots.Stores(slots.storage, t.id)), Slots.None)
    case Own(op) => s.(store := Step(s.store, op))
  }

  /** The atomic operations a move stands for: a call counts when it finishes. */
  function Matched(s: State, m: Move): seq<Op>
    requires Can(s, m)
  {
    match m
    case Thread(a) => [Other(a)]
    case Drop(i) => [DropHandle(i)]
    case Finish => [s.call.value]
    case Own(op) => [op]
    case _ => []
  }

  // ---------------------------------------------------------------------------
  // The relation

  /** The store with every recycled slot readmitted and no call in progress. */
  ghost function Settled(s: Store): Store
    requires Slots.Inv(s.slots)
  {
    s.(slots := AssetCalls.Settle(s.slots))
  }

  ghost predicate Sound(s: State) {
    && Slots.Inv(s.store.slots)
    && (s.call.None? ==> s.store.slots.op.None?)
    && (s.call.Some? ==> ReachesTable(s.store, s.call.value)
                         && s.store.slots.op == Slots.Some(TableOpOf(s.store, s.call.value)))
  }

  /** The two states differ only by a call in progress and by slots that wait for a flush. */
  ghost predicate Alike(s: State, c: Store) {
    Sound(s) && Inv(c) && Settled(s.store) == Settled(c)
  }

  // ---------------------------------------------------------------------------
  // The atomic operation in the same terms

  lemma UsableWhenAllocated(c: Store, op: Op)
    requires Inv(c) && ReachesTable(c, op) && TableOpOf(c, op).id.index < c.slots.next
    ensures Enabled(c, op) && Slots.CanCall(c.slots, TableOpOf(c, op))
  {
    hide Slots.Inv, Slots.CanCall, Inv;
    InvSlots(c);
    var i := TableOpOf(c, op).id;
    Slots.CallIsARun(c.slots, Slots.Insert(i, if op.InsertAt? then op.asset else 0));
    Slots.CallIsARun(c.slots, Slots.RemoveStillAlive(i));
    Slots.CallIsARun(c.slots, Slots.RemoveAndRecycle(i));
  }

  /** A removal takes out what a lookup would have found before its flush. */
  lemma TakenIsContained(c: Store, t: Slots.TableOp)
    requires Inv(c) && Slots.CanCall(c.slots, t) && !t.Insert?
    ensures TakenEvents(t.id, Slots.ResultOf(Slots.Flushed(c.slots), t))
            == if Contains(c, Index(t.id)) then [Removed(Index(t.id))] else []
  {
    hide Slots.Inv, Slots.Call, Slots.Flushed, Slots.Get, Slots.Active, Balanced, Slots.LenAfter;
    CallFacts(c.slots, t);
    Slots.FlushFindsTheActive(c.slots, t.id);
  }

  lemma AtomicRemove(c: Store, op: Op)
    requires Inv(c) && (op.Remove? || op.RemoveUntracked?) && op.id.Index? && Enabled(c, op)
    requires Slots.CanCall(c.slots, TableOpOf(c, op))
    ensures var t := TableOpOf(c, op);
            Step(c, op) == Finished(c, op, Slots.Call(c.slots, t), Slots.ResultOf(Slots.Flushed(c.slots), t),
                                    Slots.Stores(Slots.Flushed(c.slots), t.id))
  {
    hide Inv, Slots.Call, Slots.Flushed, Slots.Get, Slots.Stores, Slots.LenAfter, Slots.ResultOf, TakenEvents, Counter, Contains;
    TakenIsContained(c, TableOpOf(c, op));
  }

  lemma AtomicDrain(c: Store)
    requires Inv(c) && ReachesTable(c, DrainOne) && Enabled(c, DrainOne)
    requires Slots.CanCall(c.slots, TableOpOf(c, DrainOne))
    ensures var t := TableOpOf(c, DrainOne);
            Step(c, DrainOne) == Finished(c, DrainOne, Slots.Call(c.slots, t), Slots.ResultOf(Slots.Flushed(c.slots), t),
                                          Slots.Stores(Slots.Flushed(c.slots), t.id))
  {
    hide Inv, Slots.Call, Slots.Flushed, Slots.Get, Slots.Stores, Slots.LenAfter, Slots.ResultOf, TakenEvents, Contains;
    TakenIsContained(c, TableOpOf(c, DrainOne));
  }

  lemma AtomicFinish(c: Store, op: Op)
    requires Inv(c) && ReachesTable(c, op) && Enabled(c, op) && Slots.CanCall(c.slots, TableOpOf(c, op))
    ensures var t := TableOpOf(c, op);
            Step(c, op) == Finished(c, op, Slots.Call(c.slots, t), Slots.ResultOf(Slots.Flushed(c.slots), t),
                                    Slots.Stores(Slots.Flushed(c.slots), t.id))
  {
    hide Inv, Slots.Call, Slots.Flushed, Slots.Get, Slots.Stores, Slots.LenAfter, Slots.ResultOf;
    if op.DrainOne? {
      AtomicDrain(c);
    } else if !op.InsertAt? {
      AtomicRemove(c, op);
    }
  }

  /** A call made with nothing in between leaves nothing to settle, and settling before it changes nothing. */
  lemma SettledCall(s: Slots.Slots, t: Slots.TableOp)
    requires Slots.Inv(s) && s.op.None? && t.id.index < s.next
    ensures Slots.CanCall(s, t) && Slots.Inv(AssetCalls.Settle(s)) && Slots.CanCall(AssetCalls.Settle(s), t)
    ensures Slots.Flushed(s) == AssetCalls.Settle(s).storage == Slots.Flushed(AssetCalls.Settle(s))
    ensures Slots.Inv(Slots.Call(s, t)) && AssetCalls.Settle(Slots.Call(s, t)) == Slots.Call(AssetCalls.Settle(s), t)
  {
    hide Slots.Inv, Slots.Drained, Slots.Resized;
    Slots.CallIsARun(s, t);
    Slots.RecycledIsInBounds(s);
    AssetCalls.SettleKeeps(s, t.id);
    Slots.CallIsARun(AssetCalls.Settle(s), t);
    AssetCalls.SettledStays(AssetCalls.Settle(s).storage, s.next);
    AssetCalls.SettledStays(Slots.Call(s, t).storage, s.next);
  }

  // ---------------------------------------------------------------------------
  // Every move is matched

  /** An operation ends as the atomic one does if and only if its table call is not early. */
  lemma FinishIsMatched(s: State, c: Store)
    requires Alike(s, c) && Can(s, Finish)
    ensures Enabled(c, s.call.value) && Slots.Inv(Do(s, Finish).store.slots) && Inv(Step(c, s.call.value))
    ensures Settled(Do(s, Finish).store) == Settled(Step(c, s.call.value)) <==> !AssetCalls.Early(s.store.slots)
  {
    hide Slots.Inv, Slots.Call, Slots.Flushed, Slots.Get, Slots.Active, Inv, Slots.Step, Enabled;
    hide AssetCalls.Settle, Slots.ResultOf, Slots.Stores, Step, Finished, Slots.LenAfter, AssetCalls.Early;
    var op, t := s.call.value, TableOpOf(s.store, s.call.value);
    InvSlots(c);
    SameButSlots(s.store, c);
    FinishFacts(s, c);
    UsableWhenAllocated(c, op);
    OpKeepsInv(c, op);
    AtomicFinish(c, op);
    FinishedAlike(s.store, c, op,
                  Slots.Step(s.store.slots, Slots.FinishOp), Slots.ResultOf(s.store.slots.storage, t), Slots.Stores(s.store.slots.storage, t.id),
                  Slots.Call(c.slots, t), Slots.ResultOf(Slots.Flushed(c.slots), t), Slots.Stores(Slots.Flushed(c.slots), t.id));
  }

  lemma SameButSlots(x: Store, c: Store)
    requires Slots.Inv(x.slots) && Slots.Inv(c.slots) && Settled(x) == Settled(c)
    ensures x.(slots := c.slots) == c
    ensures x.slots.issued == c.slots.issued && x.slots.next == c.slots.next && x.slots.reservers == c.slots.reservers
    ensures x.slots.recycledQueue == c.slots.recycledQueue && x.slots.latest == c.slots.latest
  {
  }

  lemma FinishedAlike(x: Store, c: Store, op: Op,
                      xs: Slots.Slots, xr: Slots.TableResult, xf: bool, cs: Slots.Slots, cr: Slots.TableResult, cf: bool)
    requires x.(slots := c.slots) == c && ReachesTable(x, op) && ReachesTable(c, op)
    requires Slots.Inv(xs) && Slots.Inv(cs)
    requires AssetCalls.Settle(xs) == AssetCalls.Settle(cs) ==>
               (op.DrainOne? ==> xf == cf) && (xr == cr || (AssetCalls.Refused(xr) && AssetCalls.Refused(cr)))
    ensures Finished(x, op, xs, xr, xf).slots == xs && Finished(c, op, cs, cr, cf).slots == cs
    ensures Settled(Finished(x, op, xs, xr, xf)) == Settled(Finished(c, op, cs, cr, cf))
            <==> AssetCalls.Settle(xs) == AssetCalls.Settle(cs)
  {
    hide Slots.Inv, AssetCalls.Settle, AssetCalls.Refused, Finished;
    FinishedOutside(x, c, op, xs, cs, xr, xf);
    FinishedOutside(x, c, op, xs, cs, cr, cf);
    if AssetCalls.Settle(xs) == AssetCalls.Settle(cs) {
      FinishedForEither(x, op, xs, xr, cr, xf, cf);
    }
  }

  lemma FinishedForEither(x: Store, op: Op, xs: Slots.Slots, xr: Slots.TableResult, cr: Slots.TableResult, xf: bool, cf: bool)
    requires ReachesTable(x, op) && (xr == cr || (AssetCalls.Refused(xr) && AssetCalls.Refused(cr)))
    requires op.DrainOne? ==> xf == cf
    ensures Finished(x, op, xs, xr, xf) == Finished(x, op, xs, cr, cf)
  {
    hide InsertEvents, TakenEvents, AssetCalls.Refused, Counter, Logged;
    SameEvents(TableOpOf(x, op).id, xr, cr);
  }

  /** Finishing does not look at the slots it replaces. */
  lemma FinishedOutside(x: Store, c: Store, op: Op, xs: Slots.Slots, cs: Slots.Slots, r: Slots.TableResult, found: bool)
    requires x.(slots := c.slots) == c && ReachesTable(x, op) && ReachesTable(c, op)
    ensures Finished(x, op, xs, r, found).slots == xs && Finished(c, op, cs, r, found).slots == cs
    ensures Finished(x, op, xs, r, found).(slots := cs) == Finished(c, op, cs, r, found)
  {
    hide InsertEvents, TakenEvents;
  }

  /** Whichever reason a refusal names, it queues nothing. */
  lemma SameEvents(i: AssetIndex, xr: Slots.TableResult, cr: Slots.TableResult)
    requires xr == cr || (AssetCalls.Refused(xr) && AssetCalls.Refused(cr))
    ensures InsertEvents(Index(i), xr) == InsertEvents(Index(i), cr) && TakenEvents(i, xr) == TakenEvents(i, cr)
  {
  }

  lemma FinishFacts(s: State, c: Store)
    requires Alike(s, c) && Can(s, Finish)
    ensures ReachesTable(c, s.call.value) && TableOpOf(c, s.call.value) == TableOpOf(s.store, s.call.value)
    ensures var t, slots := TableOpOf(s.store, s.call.value), s.store.slots;
            && t.id.index < c.slots.next && Slots.CanCall(c.slots, t)
            && Slots.Inv(Slots.Step(slots, Slots.FinishOp)) && Slots.Inv(Slots.Call(c.slots, t))
            && (AssetCalls.Settle(Slots.Step(slots, Slots.FinishOp)) == AssetCalls.Settle(Slots.Call(c.slots, t))
                <==> !AssetCalls.Early(slots))
            && (!AssetCalls.Early(slots) ==>
                  && (s.call.value.DrainOne? ==> Slots.Stores(slots.storage, t.id) == Slots.Stores(Slots.Flushed(c.slots), t.id))
                  && (Slots.ResultOf(slots.storage, t) == Slots.ResultOf(Slots.Flushed(c.slots), t)
                      || (AssetCalls.Refused(Slots.ResultOf(slots.storage, t))
                          && AssetCalls.Refused(Slots.ResultOf(Slots.Flushed(c.slots), t)))))
  {
    hide Slots.Inv, Slots.Call, Slots.CanCall, Slots.Flushed, Slots.Get, Slots.Stores, Slots.ResultOf;
    hide Slots.Step, AssetCalls.Settle, Balanced, AssetCalls.Early;
    var t, slots := TableOpOf(s.store, s.call.value), s.store.slots;
    SameButSlots(s.store, c);
    Slots.RecycledIsInBounds(slots);
    FinishIsInBounds(slots);
    SettledCall(c.slots, t);
    AssetCalls.FinishIsTheCall(slots);
  }

  lemma FinishIsInBounds(s: Slots.Slots)
    requires Slots.Enabled(s, Slots.FinishOp)
    ensures s.op.Some? && s.op.value.id.index < |s.storage|
  {
  }

  lemma ThreadIsMatched(s: State, c: Store, a: Slots.Action)
    requires Alike(s, c) && Can(s, Thread(a))
    ensures Enabled(c, Other(a)) && Inv(Step(c, Other(a))) && Slots.Inv(Do(s, Thread(a)).store.slots)
    ensures Settled(Do(s, Thread(a)).store) == Settled(Step(c, Other(a)))
  {
    hide Inv, Slots.Inv, AssetCalls.Settle;
    InvSlots(c);
    SettlesToTheSame(s.store.slots, c.slots, a);
    OpKeepsInv(c, Other(a));
    InvSlots(Step(c, Other(a)));
    SameButSlots(s.store, c);
  }

  /** A step of a reservation leads to the same settled state from states that settle alike. */
  lemma SettlesToTheSame(s: Slots.Slots, c: Slots.Slots, a: Slots.Action)
    requires Slots.Inv(s) && Slots.Inv(c) && AssetCalls.Settle(s) == AssetCalls.Settle(c)
    requires Reserves(a) && Slots.Enabled(s, a)
    ensures Slots.Enabled(c, a) && Slots.Returns(s, a) == Slots.Returns(c, a)
    ensures Slots.Inv(Slots.Step(s, a)) && Slots.Inv(Slots.Step(c, a))
    ensures AssetCalls.Settle(Slots.Step(s, a)) == AssetCalls.Settle(Slots.Step(c, a))
  {
    hide Slots.Inv, Slots.Step;
    SameOutside(s, c);
    match a
    case Pop(t) =>
      AssetCalls.PopSettlesAlike(s, t);
      AssetCalls.PopSettlesAlike(c, t);
    case Push(t) =>
      AssetCalls.PushSettlesAlike(s, t);
      AssetCalls.PushSettlesAlike(c, t);
    case FetchAdd(t) =>
      AssetCalls.FetchAddSettlesAlike(s, t);
      AssetCalls.FetchAddSettlesAlike(c, t);
  }

  lemma SameOutside(s: Slots.Slots, c: Slots.Slots)
    requires Slots.Inv(s) && Slots.Inv(c) && AssetCalls.Settle(s) == AssetCalls.Settle(c)
    ensures s.reservers == c.reservers && s.next == c.next && s.recycledQueue == c.recycledQueue && s.latest == c.latest
  {
  }

  lemma DropIsMatched(s: State, c: Store, i: AssetIndex)
    requires Alike(s, c) && Can(s, Drop(i))
    ensures Enabled(c, DropHandle(i)) && Inv(Step(c, DropHandle(i)))
    ensures Settled(Do(s, Drop(i)).store) == Settled(Step(c, DropHandle(i)))
  {
    hide Inv, Slots.Inv, AssetCalls.Settle;
    InvSlots(c);
    SameButSlots(s.store, c);
    OpKeepsInv(c, DropHandle(i));
  }

  lemma FlushIsUnseen(s: State, m: Move)
    requires Sound(s) && Can(s, m) && (m.Begin? || m.Flush?)
    ensures Slots.Inv(Do(s, m).store.slots) && Settled(Do(s, m).store) == Settled(s.store)
  {
    hide Slots.Inv, AssetCalls.Settle, Slots.Step, Slots.Enabled;
    AssetCalls.FlushStepSettlesAlike(s.store.slots, if m.Begin? then Slots.BeginOp(TableOpOf(s.store, m.op)) else m.a);
  }

  /** What is stored does not depend on what waits for a flush. */
  lemma SameContents(x: Store, c: Store, id: AssetId)
    requires Slots.Inv(x.slots) && Slots.Inv(c.slots) && Settled(x) == Settled(c)
    ensures ValueOf(x, id) == ValueOf(c, id) && (Contains(x, id) <==> Contains(c, id))
    ensures id.Index? ==> (Slots.Active(x.slots, id.index) <==> Slots.Active(c.slots, id.index))
  {
    hide Slots.Inv, AssetCalls.Settle, Slots.Get, Slots.Active;
    SameButSlots(x, c);
    if id.Index? {
      AssetCalls.SettleKeeps(x.slots, id.index);
      AssetCalls.SettleKeeps(c.slots, id.index);
    }
  }

  lemma OwnIsMatched(s: State, c: Store, op: Op)
    requires Alike(s, c) && Can(s, Own(op))
    ensures Enabled(c, op) && Inv(Step(c, op)) && Do(s, Own(op)).store.slots == s.store.slots
    ensures Settled(Do(s, Own(op)).store) == Settled(Step(c, op))
  {
    hide Inv, Slots.Inv, AssetCalls.Settle, Step, Enabled, Contains, ValueOf, ReachesTable;
    InvSlots(c);
    SameButSlots(s.store, c);
    if op.Resolve? || op.Touch? || op.Remove? {
      SameContents(s.store, c, op.id);
    }
    if op.DrainOne? {
      PendingIsNext(s.store, op);
      PendingIsUsable(c);
    }
    OwnStepsAlike(s.store, c, op);
    OpKeepsInv(c, op);
    SettledAgain(s.store, c, Step(s.store, op), Step(c, op));
  }

  lemma PendingIsNext(x: Store, op: Op)
    requires Enabled(x, op) && op.DrainOne?
    ensures x.pending != []
  {
  }

  lemma SettledAgain(x: Store, c: Store, x': Store, c': Store)
    requires Slots.Inv(x.slots) && Slots.Inv(c.slots) && Settled(x) == Settled(c)
    requires x'.slots == x.slots && c'.slots == c.slots && x'.(slots := c.slots) == c'
    ensures Settled(x') == Settled(c')
  {
    hide Slots.Inv, AssetCalls.Settle;
  }

  /** An operation that does not reach the table does the same to stores that differ in their slots. */
  lemma OwnStepsAlike(x: Store, c: Store, op: Op)
    requires x.(slots := c.slots) == c && Enabled(x, op) && !ReachesTable(x, op)
    requires !op.Other? && !op.Add? && !op.DropHandle?
    requires op.Resolve? || op.Touch? || op.Remove? ==> (Contains(x, op.id) <==> Contains(c, op.id))
    requires op.DrainOne? ==> Enabled(c, op)
    ensures Enabled(c, op) && Step(x, op).slots == x.slots && Step(c, op).slots == c.slots
    ensures Step(x, op).(slots := c.slots) == Step(c, op)
  {
    hide Slots.Get, RecordedAll, Slots.Call, Slots.CanCall, Slots.Flushed, Slots.Stores;
  }

  lemma PendingIsUsable(c: Store)
    requires Inv(c) && c.pending != []
    ensures Enabled(c, DrainOne)
  {
    hide Slots.Inv, Slots.Active, Slots.CanCall;
    var i := c.pending[0];
    assert Balanced(c, i);
    if Slots.Active(c.slots, i) {
      Slots.ActiveIsIssued(c.slots, i);
    }
    IssuedIsUsable(c, i, 0);
  }

  // ---------------------------------------------------------------------------
  // Soundness is kept

  lemma OwnKeepsSlots(s: State, op: Op)
    requires Can(s, Own(op))
    ensures Do(s, Own(op)).store.slots == s.store.slots && Do(s, Own(op)).call == s.call
  {
    hide Slots.Call, Slots.CanCall, Contains, RecordedAll;
  }

  lemma ThreadKeepsCall(s: State, a: Slots.Action)
    requires Sound(s) && Can(s, Thread(a))
    ensures Sound(Do(s, Thread(a)))
  {
    hide Slots.Inv;
    Slots.StepKeepsInv(s.store.slots, a);
  }

  lemma FinishStaysSound(s: State)
    requires Sound(s) && Can(s, Finish)
    ensures Sound(Do(s, Finish))
  {
    hide Slots.Inv, Slots.ResultOf, Slots.Stores;
    Slots.StepKeepsInv(s.store.slots, Slots.FinishOp);
  }

  lemma FlushStaysSound(s: State, m: Move)
    requires Sound(s) && Can(s, m) && (m.Begin? || m.Flush?)
    ensures Sound(Do(s, m))
  {
    hide Slots.Inv;
    Slots.StepKeepsInv(s.store.slots, if m.Begin? then Slots.BeginOp(TableOpOf(s.store, m.op)) else m.a);
  }

  lemma MoveStaysSound(s: State, m: Move)
    requires Sound(s) && Can(s, m)
    ensures Sound(Do(s, m))
  {
    hide Slots.Inv, Slots.Step, Slots.Enabled;
    match m
    case Thread(a) => ThreadKeepsCall(s, a);
    case Begin(op) => FlushStaysSound(s, m);
    case Flush(a) => FlushStaysSound(s, m);
    case Finish => FinishStaysSound(s);
    case Drop(i) =>
    case Own(op) => OwnKeepsSlots(s, op);
  }

  // ---------------------------------------------------------------------------
  // Runs

  predicate IsInterleaving(s: State, run: seq<Move>)
    decreases |run|
  {
    run == [] || (Can(s, run[0]) && IsInterleaving(Do(s, run[0]), run[1..]))
  }

  function End(s: State, run: seq<Move>): State
    requires IsInterleaving(s, run)
    decreases |run|
  {
    if run == [] then s else End(Do(s, run[0]), run[1..])
  }

  /** The atomic run that matches an interleaving. */
  function Atomic(s: State, run: seq<Move>): seq<Op>
    requires IsInterleaving(s, run)
    decreases |run|
  {
    if run == [] then [] else Matched(s, run[0]) + Atomic(Do(s, run[0]), run[1..])
  }

  /** No operation ends with an early table call. */
  predicate Punctual(s: State, run: seq<Move>)
    requires IsInterleaving(s, run)
    decreases |run|
  {
    run == [] || (!(run[0].Finish? && AssetCalls.Early(s.store.slots)) && Punctual(Do(s, run[0]), run[1..]))
  }

  /** One move is matched by the atomic operations it stands for: one, or none. */
  lemma MoveIsMatched(s: State, c: Store, m: Move)
    requires Alike(s, c) && Can(s, m) && !(m.Finish? && AssetCalls.Early(s.store.slots))
    ensures var ops := Matched(s, m);
            && (ops == [] ==> Alike(Do(s, m), c))
            && (ops != [] ==> |ops| == 1 && Enabled(c, ops[0]) && Alike(Do(s, m), Step(c, ops[0])))
  {
    hide Inv, Slots.Inv, Settled, Step, Enabled, Do, Can, Sound, AssetCalls.Early;
    MoveStaysSound(s, m);
    AlikeIsSound(s, c);
    match m
    case Thread(a) => ThreadIsMatched(s, c, a);
    case Begin(op) => FlushIsUnseen(s, m);
    case Flush(a) => FlushIsUnseen(s, m);
    case Finish => FinishIsMatched(s, c);
    case Drop(i) => DropIsMatched(s, c, i);
    case Own(op) => OwnIsMatched(s, c, op);
  }

  lemma AlikeIsSound(s: State, c: Store)
    requires Alike(s, c)
    ensures Sound(s) && Inv(c)
  {
  }

  lemma {:induction false} InterleavingIsMatched(s: State, c: Store, run: seq<Move>)
    requires Alike(s, c) && IsInterleaving(s, run) && Punctual(s, run)
    ensures IsRun(c, Atomic(s, run)) && Alike(End(s, run), Exec(c, Atomic(s, run)))
    decreases |run|
  {
    hide Alike, Step, Enabled, Do, Can, Matched, IsRun, Exec, AssetCalls.Early;
    if run == [] {
      ExecNothing(c);
    } else {
      var ops, rest := Matched(s, run[0]), Atomic(Do(s, run[0]), run[1..]);
      MoveIsMatched(s, c, run[0]);
      if ops == [] {
        InterleavingIsMatched(Do(s, run[0]), c, run[1..]);
        assert ops + rest == rest;
      } else {
        InterleavingIsMatched(Do(s, run[0]), Step(c, ops[0]), run[1..]);
        ExecFirst(c, ops[0], rest);
        assert ops == [ops[0]];
      }
    }
  }

  // ---------------------------------------------------------------------------
  // Calls on returned indices are punctual

  predicate OnReturned(s: State, run: seq<Move>)
    requires IsInterleaving(s, run)
    decreases |run|
  {
    run == [] ||
    ((run[0].Begin? ==> TableOpOf(s.store, run[0].op).id in s.store.slots.issued) && OnReturned(Do(s, run[0]), run[1..]))
  }

  lemma MoveKeepsKnown(s: State, m: Move)
    requires Sound(s) && Can(s, m) && Slots.Known(s.store.slots)
    requires m.Begin? ==> TableOpOf(s.store, m.op).id in s.store.slots.issued
    ensures Slots.Known(Do(s, m).store.slots)
  {
    hide Slots.Inv, Slots.Known;
    match m
    case Thread(a) => Slots.StepKeepsKnown(s.store.slots, a);
    case Begin(op) => Slots.StepKeepsKnown(s.store.slots, Slots.BeginOp(TableOpOf(s.store, op)));
    case Flush(a) => Slots.StepKeepsKnown(s.store.slots, a);
    case Finish => FinishKeepsKnown(s);
    case Drop(i) =>
    case Own(op) => OwnKeepsSlots(s, op);
  }

  lemma FinishKeepsKnown(s: State)
    requires Sound(s) && Can(s, Finish) && Slots.Known(s.store.slots)
    ensures Slots.Known(Do(s, Finish).store.slots)
  {
    hide Slots.Inv, Slots.Known, Slots.ResultOf, Slots.Stores;
    Slots.StepKeepsKnown(s.store.slots, Slots.FinishOp);
  }

  lemma KnownIsOnTime(s: State)
    requires Can(s, Finish) && Slots.Known(s.store.slots)
    ensures !AssetCalls.Early(s.store.slots)
  {
  }

  /** Operations on indices that a reservation has returned never end early. */
  lemma {:induction false} ReturnedIsPunctual(s: State, run: seq<Move>)
    requires Sound(s) && Slots.Known(s.store.slots) && IsInterleaving(s, run) && OnReturned(s, run)
    ensures Punctual(s, run)
    decreases |run|
  {
    hide Sound, Can, Do;
    if run != [] {
      if run[0].Finish? {
        KnownIsOnTime(s);
      }
      MoveStaysSound(s, run[0]);
      MoveKeepsKnown(s, run[0]);
      ReturnedIsPunctual(Do(s, run[0]), run[1..]);
    }
  }

  // ---------------------------------------------------------------------------
  // What the moves themselves tell

  /** The move removes an asset and forgets a positive counter of `i`. */
  predicate Forgetting(s: State, m: Move, i: AssetIndex)
    requires Can(s, m)
  {
    Matched(s, m) != [] && Forgets(s.store, Matched(s, m)[0], i)
  }

  predicate NeverForgetting(s: State, run: seq<Move>, i: AssetIndex)
    requires IsInterleaving(s, run)
    decreases |run|
  {
    run == [] || (!Forgetting(s, run[0], i) && NeverForgetting(Do(s, run[0]), run[1..], i))
  }

  /** The move removes something stored without its event. */
  predicate Silent(s: State, m: Move)
    requires Can(s, m)
  {
    Matched(s, m) != [] && Matched(s, m)[0].RemoveUntracked? && Contains(s.store, Matched(s, m)[0].id)
  }

  predicate NeverSilent(s: State, run: seq<Move>)
    requires IsInterleaving(s, run)
    decreases |run|
  {
    run == [] || (!Silent(s, run[0]) && NeverSilent(Do(s, run[0]), run[1..]))
  }

  /** How often a move takes `i` from active to not active. */
  ghost function Retirements(s: State, run: seq<Move>, i: AssetIndex): nat
    requires IsInterleaving(s, run)
    decreases |run|
  {
    if run == [] then 0
    else
      var next := Do(s, run[0]);
      (if Slots.Active(s.store.slots, i) && !Slots.Active(next.store.slots, i) then 1 else 0) + Retirements(next, run[1..], i)
  }

  lemma FirstOfARun(c: Store, op: Op, rest: seq<Op>, i: AssetIndex)
    requires Enabled(c, op) && IsRun(Step(c, op), rest) && IsRun(c, [op] + rest)
    ensures NeverForgets(c, [op] + rest, i) <==> !Forgets(c, op, i) && NeverForgets(Step(c, op), rest, i)
    ensures Tracked(c, [op] + rest) <==> (op.RemoveUntracked? ==> !Contains(c, op.id)) && Tracked(Step(c, op), rest)
    ensures Recyclings(c, [op] + rest, i) ==
            (if Slots.Active(c.slots, i) && !Slots.Active(Step(c, op).slots, i) then 1 else 0) + Recyclings(Step(c, op), rest, i)
  {
    hide Step, Enabled, Slots.Active, Contains;
    assert ([op] + rest)[1..] == rest;
  }

  lemma AlikeActive(s: State, c: Store, i: AssetIndex)
    requires Alike(s, c)
    ensures Slots.Active(s.store.slots, i) <==> Slots.Active(c.slots, i)
  {
    hide Inv, Slots.Inv, Slots.Active, Settled;
    InvSlots(c);
    SameContents(s.store, c, Index(i));
  }

  lemma AlikeOperation(s: State, c: Store, op: Op, i: AssetIndex)
    requires Alike(s, c)
    ensures Forgets(s.store, op, i) <==> Forgets(c, op, i)
    ensures op.RemoveUntracked? ==> (Contains(s.store, op.id) <==> Contains(c, op.id))
  {
    hide Inv, Slots.Inv, Settled, Contains, AssetCalls.Settle;
    InvSlots(c);
    SameButSlots(s.store, c);
    if op.RemoveUntracked? {
      SameContents(s.store, c, op.id);
    }
  }

  /** Forgetting, silent removals and recyclings are the same in an interleaving and in its atomic run. */
  lemma {:induction false} CarriesOver(s: State, c: Store, run: seq<Move>, i: AssetIndex)
    requires Alike(s, c) && IsInterleaving(s, run) && Punctual(s, run) && IsRun(c, Atomic(s, run))
    ensures NeverForgets(c, Atomic(s, run), i) <==> NeverForgetting(s, run, i)
    ensures Tracked(c, Atomic(s, run)) <==> NeverSilent(s, run)
    ensures Recyclings(c, Atomic(s, run), i) == Retirements(s, run, i)
    decreases |run|
  {
    hide Alike, Step, Enabled, Do, Can, Matched, IsRun, AssetCalls.Early, Forgets, Contains, Slots.Active;
    hide NeverForgets, Tracked, Recyclings;
    if run == [] {
      NothingHappens(c, i);
    } else {
      var ops, rest := Matched(s, run[0]), Atomic(Do(s, run[0]), run[1..]);
      MoveIsMatched(s, c, run[0]);
      AlikeActive(s, c, i);
      if ops == [] {
        InterleavingIsMatched(Do(s, run[0]), c, run[1..]);
        AlikeActive(Do(s, run[0]), c, i);
        CarriesOver(Do(s, run[0]), c, run[1..], i);
        assert ops + rest == rest;
      } else {
        var c1 := Step(c, ops[0]);
        InterleavingIsMatched(Do(s, run[0]), c1, run[1..]);
        AlikeActive(Do(s, run[0]), c1, i);
        CarriesOver(Do(s, run[0]), c1, run[1..], i);
        AlikeOperation(s, c, ops[0], i);
        assert ops == [ops[0]];
        FirstOfARun(c, ops[0], rest, i);
      }
    }
  }

  lemma NothingHappens(c: Store, i: AssetIndex)
    requires IsRun(c, [])
    ensures NeverForgets(c, [], i) && Tracked(c, []) && Recyclings(c, [], i) == 0
  {
  }

  // ---------------------------------------------------------------------------
  // The laws over interleavings

  const START := State(NEW, Slots.None)

  lemma StartIsAlike()
    ensures Alike(START, NEW) && Slots.Known(START.store.slots)
  {
    NewIsSound();
  }

  lemma ContainedHasAValue(s: Store, id: AssetId)
    ensures Contains(s, id) <==> ValueOf(s, id).Some?
  {
  }

  /**
   Operations on `Assets` are atomic: every punctual interleaving of their table calls with reservations
   and dropped handles of other threads ends in the state of an atomic run, the one with each operation
   at its last step, up to slots that wait for the next flush, which no lookup and no count sees.
   */
  lemma ConcurrentCallsAreAtomic(run: seq<Move>)
    requires IsInterleaving(START, run) && Punctual(START, run)
    ensures IsRun(NEW, Atomic(START, run))
    ensures var s, c := End(START, run).store, Exec(NEW, Atomic(START, run));
            && s.(slots := c.slots) == c && s.slots.issued == c.slots.issued
            && (forall id :: ValueOf(s, id) == ValueOf(c, id))
            && (forall i :: Slots.Active(s.slots, i) <==> Slots.Active(c.slots, i))
  {
    hide Inv, Slots.Inv, ValueOf, Slots.Active, Settled, IsRun, Exec, IsInterleaving, End, Atomic, Punctual;
    StartIsAlike();
    InterleavingIsMatched(START, NEW, run);
    var s, c := End(START, run).store, Exec(NEW, Atomic(START, run));
    InvSlots(c);
    SameButSlots(s, c);
    forall id ensures ValueOf(s, id) == ValueOf(c, id) {
      SameContents(s, c, id);
    }
    forall i ensures Slots.Active(s.slots, i) <==> Slots.Active(c.slots, i) {
      SameContents(s, c, Index(i));
    }
  }

  /** In particular every interleaving of operations on indices that a reservation has returned. */
  lemma ReturnedCallsArePunctual(run: seq<Move>)
    requires IsInterleaving(START, run) && OnReturned(START, run)
    ensures Punctual(START, run)
  {
    hide IsInterleaving, OnReturned, Punctual;
    StartIsAlike();
    ReturnedIsPunctual(START, run);
  }

  /** The exact condition of the handle count, over every punctual interleaving. */
  lemma ConcurrentHandlesMatchTheCounter(run: seq<Move>, i: AssetIndex)
    requires IsInterleaving(START, run) && Punctual(START, run) && Slots.Active(End(START, run).store.slots, i)
    ensures var s := End(START, run).store;
            s.live[i] + Count(s.pending, i) == Counter(s, i) + 1 <==> NeverForgetting(START, run, i)
  {
    hide IsRun, Exec, IsInterleaving, End, Atomic, Slots.Active, NeverForgets, Count, Punctual, NeverForgetting, Alike;
    ConcurrentCallsAreAtomic(run);
    HandlesMatchTheCounter(Atomic(START, run), i);
    StartIsAlike();
    CarriesOver(START, NEW, run, i);
  }

  /**
   Over every punctual interleaving an issued slot is recycled at most once, and exactly once when its
   handles are dropped and drained; if its counter was never forgotten, if and only if they are, and it
   is in use exactly while a handle or a pending drop is left.
   */
  lemma ConcurrentHandlesKeepTheirSlot(run: seq<Move>, i: AssetIndex)
    requires IsInterleaving(START, run) && Punctual(START, run) && i in End(START, run).store.slots.issued
    ensures var s := End(START, run).store;
            && (s.live[i] == 0 && Count(s.pending, i) == 0 ==> Retirements(START, run, i) == 1)
            && Retirements(START, run, i) <= 1
            && (NeverForgetting(START, run, i) ==>
                  && (Slots.Active(s.slots, i) <==> s.live[i] > 0 || Count(s.pending, i) > 0)
                  && (Retirements(START, run, i) == 1 <==> s.live[i] == 0 && Count(s.pending, i) == 0))
  {
    hide IsRun, Exec, IsInterleaving, End, Atomic, Slots.Active, NeverForgets, Count, Recyclings, Retirements, Punctual, NeverForgetting, Alike;
    ConcurrentCallsAreAtomic(run);
    HandlesKeepTheirSlot(Atomic(START, run), i);
    StartIsAlike();
    CarriesOver(START, NEW, run, i);
  }

  /** The log is true at the end of a punctual interleaving exactly when nothing was removed without its event. */
  lemma ConcurrentLogIsTrue(run: seq<Move>)
    requires IsInterleaving(START, run) && Punctual(START, run)
    ensures TrueLog(End(START, run).store) <==> NeverSilent(START, run)
  {
    hide IsRun, Exec, IsInterleaving, End, Atomic, Tracked, WellOrdered, Replay, Contains, Punctual, NeverSilent, Alike;
    ConcurrentCallsAreAtomic(run);
    TheLogIsTrueExactlyWhenTracked(Atomic(START, run));
    StartIsAlike();
    CarriesOver(START, NEW, run, Slots.AssetIndex(0, 0));
    var s, c := End(START, run).store, Exec(NEW, Atomic(START, run));
    forall id ensures Contains(s, id) <==> Contains(c, id) {
      ContainedHasAValue(s, id);
      ContainedHasAValue(c, id);
    }
  }
}
