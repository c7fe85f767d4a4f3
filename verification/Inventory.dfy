/**
 Model of the lock-free registration list of voker-inventory (`lib.rs`): any number of
 threads submit items by a Treiber-style push while iterators walk the list.

 Every atomic action of `submit`, `iter` and `next` is one step of a transition system;
 steps of different threads and iterators interleave in any order.
 */
module Inventory {

  type NodeId = nat
  type ThreadId = nat
  type IterId = nat

  /** A node pointer. */
  datatype Link = Null | At(node: NodeId)

  datatype Phase = Pending | Running | Completed

  datatype Node = Node(phase: Phase, next: Link)

  /** Where a thread stands inside `submit`. */
  datatype Pc =
    | Outside                                 // not inside a call
    | Claiming(item: NodeId)                  // about to exchange PENDING for RUNNING
    | Spinning(item: NodeId)                  // lost the exchange, waiting for COMPLETED
    | Loading(item: NodeId)                   // won; about to load the head
    | Writing(item: NodeId, head: Link)       // about to write `next`
    | Publishing(item: NodeId, head: Link)    // about to exchange the head
    | Completing(item: NodeId)                // published; about to store COMPLETED
    | Returned(item: NodeId)                  // the call on `item` has returned

  /** An iterator: the node it will yield next and, for reference, what it has yielded. */
  datatype Cursor = Cursor(node: Link, yielded: seq<NodeId>)

  datatype State = State(
    nodes: map<NodeId, Node>, head: Link,
    threads: map<ThreadId, Pc>, cursors: map<IterId, Cursor>)

  datatype Action =
    | Submit(t: ThreadId, item: NodeId)       // enter `submit`
    | Claim(t: ThreadId)                      // compare_exchange(PENDING, RUNNING)
    | Spin(t: ThreadId)                       // reload the state
    | LoadHead(t: ThreadId)
    | WriteNext(t: ThreadId)
    | Publish(t: ThreadId)                    // compare_exchange on the head
    | Complete(t: ThreadId)                   // store COMPLETED
    | Begin(i: IterId)                        // `iter`: load the head
    | Advance(i: IterId)                      // `next`: yield and follow `next`

  function PcOf(s: State, t: ThreadId): Pc {
    if t in s.threads then s.threads[t] else Outside
  }

  predicate Enabled(s: State, a: Action) {
    match a
    case Submit(t, item) => item in s.nodes && (PcOf(s, t).Outside? || PcOf(s, t).Returned?)
    case Claim(t) => PcOf(s, t).Claiming? && PcOf(s, t).item in s.nodes
    case Spin(t) => PcOf(s, t).Spinning? && PcOf(s, t).item in s.nodes
    case LoadHead(t) => PcOf(s, t).Loading?
    case WriteNext(t) => PcOf(s, t).Writing? && PcOf(s, t).item in s.nodes
    case Publish(t) => PcOf(s, t).Publishing?
    case Complete(t) => PcOf(s, t).Completing? && PcOf(s, t).item in s.nodes
    case Begin(i) => true
    case Advance(i) => i in s.cursors && (s.cursors[i].node.At? ==> s.cursors[i].node.node in s.nodes)
  }

  function Goto(s: State, t: ThreadId, pc: Pc): State {
    s.(threads := s.threads[t := pc])
  }

  function Step(s: State, a: Action): State
    requires Enabled(s, a)
  {
    match a
    case Submit(t, item) => Goto(s, t, Claiming(item))
    case Claim(t) =>
      var n := PcOf(s, t).item;
      if s.nodes[n].phase == Pending then
        Goto(s.(nodes := s.nodes[n := s.nodes[n].(phase := Running)]), t, Loading(n))
      else if s.nodes[n].phase == Completed then Goto(s, t, Returned(n))
      else Goto(s, t, Spinning(n))
    case Spin(t) =>
      var n := PcOf(s, t).item;
      if s.nodes[n].phase == Completed then Goto(s, t, Returned(n)) else s
    case LoadHead(t) => Goto(s, t, Writing(PcOf(s, t).item, s.head))
    case WriteNext(t) =>
      var Writing(n, h) := PcOf(s, t);
      Goto(s.(nodes := s.nodes[n := s.nodes[n].(next := h)]), t, Publishing(n, h))
    case Publish(t) =>
      var Publishing(n, h) := PcOf(s, t);
      if s.head == h then Goto(s.(head := At(n)), t, Completing(n))
      else Goto(s, t, Writing(n, s.head))
    case Complete(t) =>
      var n := PcOf(s, t).item;
      Goto(s.(nodes := s.nodes[n := s.nodes[n].(phase := Completed)]), t, Returned(n))
    case Begin(i) => s.(cursors := s.cursors[i := Cursor(s.head, [])])
    case Advance(i) =>
      var Cursor(link, yielded) := s.cursors[i];
      if link.Null? then s
      else s.(cursors := s.cursors[i := Cursor(s.nodes[link.node].next, yielded + [link.node])])
  }

  // ---------------------------------------------------------------------------
  // The list and the invariant

  /** The pointer to position `k` of a list. */
  function LinkTo(list: seq<NodeId>, k: nat): Link {
    if k < |list| then At(list[k]) else Null
  }

  predicate Distinct(list: seq<NodeId>) {
    forall i, j :: 0 <= i < j < |list| ==> list[i] != list[j]
  }

  /** `list` is the sequence of nodes met when following `next` pointers from `link` to null. */
  ghost predicate IsListFrom(nodes: map<NodeId, Node>, link: Link, list: seq<NodeId>) {
    && link == LinkTo(list, 0)
    && (forall k :: 0 <= k < |list| ==> list[k] in nodes)
    && (forall k, j :: 0 <= k && j == k + 1 < |list| ==> nodes[list[k]].next == At(list[j]))
    && (list != [] ==> nodes[list[|list| - 1]].next == Null)
  }

  /** The thread won the exchange on `n` and has not returned from the call. */
  predicate Owns(pc: Pc, n: NodeId) {
    (pc.Loading? || pc.Writing? || pc.Publishing? || pc.Completing?) && pc.item == n
  }

  /** What holds of one thread's position. */
  ghost predicate PcSound(s: State, list: seq<NodeId>, pc: Pc) {
    match pc
    case Outside => true
    case Claiming(n) => n in s.nodes
    case Spinning(n) => n in s.nodes && s.nodes[n].phase != Pending
    case Loading(n) => n in s.nodes && n !in list && s.nodes[n].phase == Running
    case Writing(n, h) => n in s.nodes && n !in list && s.nodes[n].phase == Running && InList(list, h)
    case Publishing(n, h) =>
      n in s.nodes && n !in list && s.nodes[n].phase == Running && InList(list, h) && s.nodes[n].next == h
    case Completing(n) => n in s.nodes && n in list && s.nodes[n].phase == Running
    case Returned(n) => n in s.nodes && n in list && s.nodes[n].phase == Completed
  }

  predicate InList(list: seq<NodeId>, link: Link) {
    link.Null? || link.node in list
  }

  ghost predicate Inv(s: State, list: seq<NodeId>) {
    && Distinct(list)
    && IsListFrom(s.nodes, s.head, list)
    && (forall t :: t in s.threads ==> PcSound(s, list, s.threads[t]))
    && (forall t, u, n :: t in s.threads && u in s.threads && Owns(s.threads[t], n) && Owns(s.threads[u], n) ==> t == u)
    && (forall n :: n in list ==> s.nodes[n].phase != Pending)
    && (forall n :: n in s.nodes && s.nodes[n].phase == Completed ==> n in list)
    && (forall i :: i in s.cursors ==> InList(list, s.cursors[i].node))
  }

  /** The list after a step: a successful exchange on the head puts one node in front. */
  function ListAfter(s: State, list: seq<NodeId>, a: Action): seq<NodeId>
    requires Enabled(s, a)
  {
    if a.Publish? && PcOf(s, a.t).head == s.head then [PcOf(s, a.t).item] + list else list
  }

  /** Two readings of the same pointers give the same list, so "the list" is well defined. */
  lemma {:induction false} ListIsUnique(nodes: map<NodeId, Node>, link: Link, a: seq<NodeId>, b: seq<NodeId>)
    requires IsListFrom(nodes, link, a) && IsListFrom(nodes, link, b)
    ensures a == b
    decreases |a|
  {
    if a != [] && b != [] {
      assert a[0] == b[0];
      ListIsUnique(nodes, nodes[a[0]].next, a[1..], b[1..]);
      assert a == [a[0]] + a[1..] && b == [b[0]] + b[1..];
    }
  }

  // ---------------------------------------------------------------------------
  // Every step keeps the invariant

  /** Moving one thread keeps the invariant if its new position is sound and it takes no owned node. */
  lemma GotoKeepsInv(s: State, list: seq<NodeId>, t: ThreadId, pc: Pc)
    requires Inv(s, list) && PcSound(s, list, pc)
    requires forall u, n :: u in s.threads && u != t && Owns(pc, n) ==> !Owns(s.threads[u], n)
    ensures Inv(Goto(s, t, pc), list)
  {
  }

  /** A node outside the list may change as long as no other thread relies on it. */
  lemma ClaimKeepsInv(s: State, list: seq<NodeId>, t: ThreadId)
    requires Inv(s, list) && Enabled(s, Claim(t)) && s.nodes[PcOf(s, t).item].phase == Pending
    ensures Inv(Step(s, Claim(t)), list)
  {
    hide IsListFrom, Distinct;
    var n := PcOf(s, t).item;
    StartKeepsInv(s, list, n);
    var s' := s.(nodes := s.nodes[n := s.nodes[n].(phase := Running)]);
    GotoKeepsInv(s', list, t, Loading(n));
  }

  /** Marking a pending node as running: it is off the list and nobody owns it. */
  lemma StartKeepsInv(s: State, list: seq<NodeId>, n: NodeId)
    requires Inv(s, list) && n in s.nodes && s.nodes[n].phase == Pending
    ensures Inv(s.(nodes := s.nodes[n := s.nodes[n].(phase := Running)]), list)
    ensures n !in list && forall u :: u in s.threads ==> !Owns(s.threads[u], n)
  {
    var s' := s.(nodes := s.nodes[n := s.nodes[n].(phase := Running)]);
    forall u | u in s.threads ensures !Owns(s.threads[u], n) && PcSound(s', list, s.threads[u]) {
      assert PcSound(s, list, s.threads[u]);
    }
  }

  lemma WriteNextKeepsInv(s: State, list: seq<NodeId>, t: ThreadId)
    requires Inv(s, list) && Enabled(s, WriteNext(t))
    ensures Inv(Step(s, WriteNext(t)), list)
  {
    var Writing(n, h) := PcOf(s, t);
    var s' := s.(nodes := s.nodes[n := s.nodes[n].(next := h)]);
    assert PcSound(s, list, s.threads[t]);
    assert Owns(s.threads[t], n);
    forall u | u in s.threads ensures PcSound(s', list, s.threads[u]) {
      assert u != t ==> !Owns(s.threads[u], n);
    }
    assert Inv(s', list);
    GotoKeepsInv(s', list, t, Publishing(n, h));
  }

  /** Marking a published node that nobody owns as completed. */
  lemma MarkKeepsInv(s: State, list: seq<NodeId>, n: NodeId)
    requires Inv(s, list) && n in list
    requires forall u :: u in s.threads ==> !Owns(s.threads[u], n)
    ensures Inv(s.(nodes := s.nodes[n := s.nodes[n].(phase := Completed)]), list)
  {
    var s' := s.(nodes := s.nodes[n := s.nodes[n].(phase := Completed)]);
    forall t | t in s'.threads ensures PcSound(s', list, s'.threads[t]) {
      assert PcSound(s, list, s.threads[t]) && !Owns(s.threads[t], n);
    }
  }

  lemma CompleteKeepsInv(s: State, list: seq<NodeId>, t: ThreadId)
    requires Inv(s, list) && Enabled(s, Complete(t))
    ensures Inv(Step(s, Complete(t)), list)
  {
    hide Inv;
    var n := PcOf(s, t).item;
    ThreadIsSound(s, list, t);
    var away := Goto(s, t, Outside);
    GotoKeepsInv(s, list, t, Outside);
    OwnerLeft(s, list, t, n);
    MarkKeepsInv(away, list, n);
    var done := away.(nodes := s.nodes[n := s.nodes[n].(phase := Completed)]);
    GotoKeepsInv(done, list, t, Returned(n));
    assert Step(s, Complete(t)) == Goto(done, t, Returned(n));
  }

  lemma ThreadIsSound(s: State, list: seq<NodeId>, t: ThreadId)
    requires Inv(s, list) && t in s.threads
    ensures PcSound(s, list, s.threads[t])
  {
  }

  lemma OwnerLeft(s: State, list: seq<NodeId>, t: ThreadId, n: NodeId)
    requires Inv(s, list) && t in s.threads && Owns(s.threads[t], n)
    ensures forall u :: u in Goto(s, t, Outside).threads ==> !Owns(Goto(s, t, Outside).threads[u], n)
  {
    hide IsListFrom, Distinct, PcSound;
  }

  lemma PublishKeepsInv(s: State, list: seq<NodeId>, t: ThreadId)
    requires Inv(s, list) && Enabled(s, Publish(t)) && PcOf(s, t).head == s.head
    ensures Inv(Step(s, Publish(t)), [PcOf(s, t).item] + list)
  {
    hide IsListFrom, Distinct;
    var n := PcOf(s, t).item;
    assert PcSound(s, list, s.threads[t]);
    assert Owns(s.threads[t], n);
    var away := Goto(s, t, Outside);
    GotoKeepsInv(s, list, t, Outside);
    PushedKeepsInv(away, list, n);
    var pushed := away.(head := At(n));
    GotoKeepsInv(pushed, [n] + list, t, Completing(n));
    assert Step(s, Publish(t)).threads == Goto(pushed, t, Completing(n)).threads;
  }

  /** Putting a running node that nobody owns any more in front of the list. */
  lemma PushedKeepsInv(s: State, list: seq<NodeId>, n: NodeId)
    requires Inv(s, list) && n in s.nodes && n !in list && s.nodes[n] == Node(Running, s.head)
    requires forall u :: u in s.threads ==> !Owns(s.threads[u], n)
    ensures Inv(s.(head := At(n)), [n] + list)
  {
    var pushed, list' := s.(head := At(n)), [n] + list;
    forall u | u in pushed.threads ensures PcSound(pushed, list', pushed.threads[u]) {
      assert PcSound(s, list, s.threads[u]);
    }
  }

  lemma AdvanceKeepsInv(s: State, list: seq<NodeId>, i: IterId)
    requires Inv(s, list) && Enabled(s, Advance(i))
    ensures Inv(Step(s, Advance(i)), list)
  {
    var link := s.cursors[i].node;
    if link.At? {
      var k :| 0 <= k < |list| && list[k] == link.node;
      if k + 1 < |list| {
        var j := k + 1;
        assert s.nodes[list[k]].next == At(list[j]);
      }
    }
  }

  /** Every atomic step, of any thread or iterator, keeps the invariant. */
  lemma StepKeepsInv(s: State, list: seq<NodeId>, a: Action)
    requires Inv(s, list) && Enabled(s, a)
    ensures Inv(Step(s, a), ListAfter(s, list, a))
  {
    hide Inv;
    match a
    case Submit(t, item) => GotoKeepsInv(s, list, t, Claiming(item));
    case Claim(t) => ClaimStep(s, list, t);
    case Spin(t) => SpinStep(s, list, t);
    case LoadHead(t) => LoadHeadStep(s, list, t);
    case WriteNext(t) => WriteNextKeepsInv(s, list, t);
    case Publish(t) => PublishStep(s, list, t);
    case Complete(t) => CompleteKeepsInv(s, list, t);
    case Begin(i) => BeginKeepsInv(s, list, i);
    case Advance(i) => AdvanceKeepsInv(s, list, i);
  }

  lemma ClaimStep(s: State, list: seq<NodeId>, t: ThreadId)
    requires Inv(s, list) && Enabled(s, Claim(t))
    ensures Inv(Step(s, Claim(t)), list)
  {
    var n := PcOf(s, t).item;
    match s.nodes[n].phase
    case Pending => ClaimKeepsInv(s, list, t);
    case Running => GotoKeepsInv(s, list, t, Spinning(n));
    case Completed => GotoKeepsInv(s, list, t, Returned(n));
  }

  lemma SpinStep(s: State, list: seq<NodeId>, t: ThreadId)
    requires Inv(s, list) && Enabled(s, Spin(t))
    ensures Inv(Step(s, Spin(t)), list)
  {
    var n := PcOf(s, t).item;
    if s.nodes[n].phase == Completed { GotoKeepsInv(s, list, t, Returned(n)); }
  }

  lemma LoadHeadStep(s: State, list: seq<NodeId>, t: ThreadId)
    requires Inv(s, list) && Enabled(s, LoadHead(t))
    ensures Inv(Step(s, LoadHead(t)), list)
  {
    var n := PcOf(s, t).item;
    assert PcSound(s, list, s.threads[t]);
    assert Owns(s.threads[t], n);
    GotoKeepsInv(s, list, t, Writing(n, s.head));
  }

  lemma PublishStep(s: State, list: seq<NodeId>, t: ThreadId)
    requires Inv(s, list) && Enabled(s, Publish(t))
    ensures Inv(Step(s, Publish(t)), ListAfter(s, list, Publish(t)))
  {
    var n := PcOf(s, t).item;
    if PcOf(s, t).head == s.head {
      PublishKeepsInv(s, list, t);
    } else {
      assert PcSound(s, list, s.threads[t]);
      assert Owns(s.threads[t], n);
      GotoKeepsInv(s, list, t, Writing(n, s.head));
    }
  }

  lemma BeginKeepsInv(s: State, list: seq<NodeId>, i: IterId)
    requires Inv(s, list)
    ensures Inv(Step(s, Begin(i)), list)
  {
  }

  // ---------------------------------------------------------------------------
  // Runs

  /** A registry with an empty list; every item is pending. */
  function Init(items: set<NodeId>): State {
    State(map n | n in items :: Node(Pending, Null), Null, map[], map[])
  }

  predicate IsRun(s: State, run: seq<Action>)
    decreases |run|
  {
    run == [] || (Enabled(s, run[0]) && IsRun(Step(s, run[0]), run[1..]))
  }

  function Exec(s: State, run: seq<Action>): State
    requires IsRun(s, run)
    decreases |run|
  {
    if run == [] then s else Exec(Step(s, run[0]), run[1..])
  }

  /** The list after a run. */
  function ListExec(s: State, list: seq<NodeId>, run: seq<Action>): seq<NodeId>
    requires IsRun(s, run)
    decreases |run|
  {
    if run == [] then list else ListExec(Step(s, run[0]), ListAfter(s, list, run[0]), run[1..])
  }

  lemma {:induction false} RunKeepsInv(s: State, list: seq<NodeId>, run: seq<Action>)
    requires Inv(s, list) && IsRun(s, run)
    ensures Inv(Exec(s, run), ListExec(s, list, run))
    decreases |run|
  {
    hide Inv;
    if run != [] {
      StepKeepsInv(s, list, run[0]);
      RunKeepsInv(Step(s, run[0]), ListAfter(s, list, run[0]), run[1..]);
    }
  }

  lemma InitIsSound(items: set<NodeId>)
    ensures Inv(Init(items), [])
  {
  }

  /**
   After any interleaving of submits and iterations: following the pointers from the head gives
   a finite list without repetition, every completed item is on it, and so is the item of every
   `submit` call that has returned, whether it won the exchange or waited for the winner.
   */
  lemma EveryRunIsSound(items: set<NodeId>, run: seq<Action>)
    requires IsRun(Init(items), run)
    ensures var s, list := Exec(Init(items), run), ListExec(Init(items), [], run);
            && Distinct(list)
            && IsListFrom(s.nodes, s.head, list)
            && (forall n :: n in s.nodes && s.nodes[n].phase == Completed ==> n in list)
            && (forall t :: t in s.threads && s.threads[t].Returned? ==> s.threads[t].item in list)
  {
    InitIsSound(items);
    RunKeepsInv(Init(items), [], run);
    var s, list := Exec(Init(items), run), ListExec(Init(items), [], run);
    forall t | t in s.threads && s.threads[t].Returned? ensures s.threads[t].item in list {
      assert PcSound(s, list, s.threads[t]);
    }
  }

  /** `later` is `list` with nodes added in front. */
  predicate Extends(later: seq<NodeId>, list: seq<NodeId>) {
    |list| <= |later| && later[|later| - |list|..] == list
  }

  lemma StepKeepsPublished(s: State, list: seq<NodeId>, a: Action)
    requires Inv(s, list) && Enabled(s, a)
    ensures Extends(ListAfter(s, list, a), list)
    ensures s.nodes.Keys == Step(s, a).nodes.Keys
    ensures forall n :: n in list ==> Step(s, a).nodes[n].next == s.nodes[n].next
    ensures forall n :: n in s.nodes && s.nodes[n].phase == Completed ==> Step(s, a).nodes[n].phase == Completed
  {
    if a.WriteNext? || a.Claim? || a.Complete? || a.Publish? {
      assert PcSound(s, list, s.threads[a.t]);
    }
  }

  lemma ListedAreItems(s: State, list: seq<NodeId>)
    requires Inv(s, list)
    ensures forall n :: n in list ==> n in s.nodes
  {
  }

  lemma ExtendsIsTransitive(a: seq<NodeId>, b: seq<NodeId>, c: seq<NodeId>)
    requires Extends(a, b) && Extends(b, c)
    ensures Extends(a, c)
  {
    assert a[|a| - |c|..] == a[|a| - |b|..][|b| - |c|..];
  }

  /** Over any run the list only grows in front, and a published node's `next` never changes. */
  lemma {:induction false} PublishedStaysPublished(s: State, list: seq<NodeId>, run: seq<Action>)
    requires Inv(s, list) && IsRun(s, run)
    ensures Extends(ListExec(s, list, run), list)
    ensures forall n :: n in list ==> n in s.nodes && n in Exec(s, run).nodes && Exec(s, run).nodes[n].next == s.nodes[n].next
    ensures forall n :: n in s.nodes && s.nodes[n].phase == Completed
              ==> n in Exec(s, run).nodes && Exec(s, run).nodes[n].phase == Completed
    decreases |run|
  {
    hide Inv, Step, Enabled, ListAfter, Extends;
    ListedAreItems(s, list);
    if run == [] {
      ExtendsItself(list);
    } else {
      var s1, list1 := Step(s, run[0]), ListAfter(s, list, run[0]);
      StepKeepsInv(s, list, run[0]);
      StepKeepsPublished(s, list, run[0]);
      PublishedStaysPublished(s1, list1, run[1..]);
      ExtendsIsTransitive(ListExec(s, list, run), list1, list);
      ExtendsContains(list1, list);
    }
  }

  lemma ExtendsItself(list: seq<NodeId>)
    ensures Extends(list, list)
  {
  }

  lemma ExtendsContains(later: seq<NodeId>, list: seq<NodeId>)
    requires Extends(later, list)
    ensures forall n :: n in list ==> n in later
  {
    assert later == later[..|later| - |list|] + list;
  }

  /**
   Exclusive writes: a step that changes a node's `next` is made by the one thread that owns the
   node; the node is not on the list, and no iterator stands on it.
   */
  lemma NextIsWrittenByOwnerOnly(s: State, list: seq<NodeId>, a: Action, n: NodeId)
    requires Inv(s, list) && Enabled(s, a) && n in s.nodes
    requires n in Step(s, a).nodes && Step(s, a).nodes[n].next != s.nodes[n].next
    ensures a.WriteNext? && Owns(PcOf(s, a.t), n) && n !in list
    ensures forall u :: Owns(PcOf(s, u), n) ==> u == a.t
    ensures forall i :: i in s.cursors ==> s.cursors[i].node != At(n)
  {
    assert PcSound(s, list, s.threads[a.t]);
  }

  /** The threads that write the `next` of `n` during a run. */
  function Writers(s: State, run: seq<Action>, n: NodeId): set<ThreadId>
    requires IsRun(s, run)
    decreases |run|
  {
    if run == [] then {}
    else
      (if run[0].WriteNext? && PcOf(s, run[0].t).item == n then {run[0].t} else {})
      + Writers(Step(s, run[0]), run[1..], n)
  }

  /** The item has been claimed, and nobody but `t` can own it any more. */
  ghost predicate ClaimedBy(s: State, n: NodeId, t: ThreadId) {
    n in s.nodes && s.nodes[n].phase != Pending && forall u :: Owns(PcOf(s, u), n) ==> u == t
  }

  lemma StepKeepsClaim(s: State, a: Action, n: NodeId, t: ThreadId)
    requires ClaimedBy(s, n, t) && Enabled(s, a)
    ensures ClaimedBy(Step(s, a), n, t)
  {
    forall u | Owns(PcOf(Step(s, a), u), n) ensures u == t {
      assert Owns(PcOf(s, u), n);
    }
  }

  lemma {:induction false} OnlyTheClaimantWrites(s: State, run: seq<Action>, n: NodeId, t: ThreadId)
    requires ClaimedBy(s, n, t) && IsRun(s, run)
    ensures Writers(s, run, n) <= {t}
    decreases |run|
  {
    hide ClaimedBy;
    if run != [] {
      StepKeepsClaim(s, run[0], n, t);
      OnlyTheClaimantWrites(Step(s, run[0]), run[1..], n, t);
      if run[0].WriteNext? && PcOf(s, run[0].t).item == n {
        ClaimantIsUnique(s, n, t, run[0].t);
      }
    }
  }

  lemma ClaimantIsUnique(s: State, n: NodeId, t: ThreadId, u: ThreadId)
    requires ClaimedBy(s, n, t) && Owns(PcOf(s, u), n)
    ensures u == t
  {
  }

  /** An item nobody has claimed has no owner, and the step that claims it makes one. */
  lemma ClaimantOfAStep(s: State, list: seq<NodeId>, a: Action, n: NodeId) returns (t: ThreadId)
    requires Inv(s, list) && Enabled(s, a) && n in s.nodes && s.nodes[n].phase == Pending
    ensures !(a.WriteNext? && PcOf(s, a.t).item == n)
    ensures n in Step(s, a).nodes
    ensures Step(s, a).nodes[n].phase != Pending ==> ClaimedBy(Step(s, a), n, t)
  {
    hide IsListFrom, Distinct;
    t := if a.Claim? then a.t else 0;
    forall u ensures !Owns(PcOf(s, u), n) {
      assert u in s.threads ==> PcSound(s, list, s.threads[u]);
    }
    if Step(s, a).nodes[n].phase != Pending {
      forall u | Owns(PcOf(Step(s, a), u), n) ensures u == t {
        assert !Owns(PcOf(s, u), n);
      }
    }
  }

  /** Over a whole run, one thread at most writes the `next` of a node, in however many attempts. */
  lemma {:induction false} EachNodeHasOneWriter(s: State, list: seq<NodeId>, run: seq<Action>, n: NodeId)
    returns (t: ThreadId)
    requires Inv(s, list) && IsRun(s, run) && n in s.nodes && s.nodes[n].phase == Pending
    ensures Writers(s, run, n) <= {t}
    decreases |run|
  {
    hide Inv, ClaimedBy;
    t := 0;
    if run != [] {
      StepKeepsInv(s, list, run[0]);
      t := ClaimantOfAStep(s, list, run[0], n);
      var next := Step(s, run[0]);
      if next.nodes[n].phase == Pending {
        t := EachNodeHasOneWriter(next, ListAfter(s, list, run[0]), run[1..], n);
      } else {
        OnlyTheClaimantWrites(next, run[1..], n, t);
      }
    }
  }

  /** In every run of a registry, all writes of one node's `next` are made by one thread. */
  lemma NextHasOneWriter(items: set<NodeId>, run: seq<Action>, n: NodeId, t: ThreadId, u: ThreadId)
    requires IsRun(Init(items), run) && n in items
    requires t in Writers(Init(items), run, n) && u in Writers(Init(items), run, n)
    ensures t == u
  {
    InitIsSound(items);
    var writer := EachNodeHasOneWriter(Init(items), [], run, n);
  }

  // ---------------------------------------------------------------------------
  // Iteration yields a snapshot

  /** Iterator `i` has yielded the first `k` nodes of `snapshot` and stands on the next one. */
  ghost predicate CursorOn(s: State, i: IterId, snapshot: seq<NodeId>, k: nat) {
    && i in s.cursors && k <= |snapshot|
    && s.cursors[i] == Cursor(LinkTo(snapshot, k), snapshot[..k])
  }

  /** How often `next` is called on iterator `i`. */
  function Advances(run: seq<Action>, i: IterId): nat {
    if run == [] then 0 else Advances(run[1..], i) + if run[0] == Advance(i) then 1 else 0
  }

  function Min(a: nat, b: nat): nat {
    if a < b then a else b
  }

  lemma CursorStep(s: State, list: seq<NodeId>, snapshot: seq<NodeId>, i: IterId, k: nat, a: Action)
    requires Inv(s, list) && Enabled(s, a) && a != Begin(i)
    requires Extends(list, snapshot) && CursorOn(s, i, snapshot, k)
    ensures CursorOn(Step(s, a), i, snapshot, if a == Advance(i) then Min(|snapshot|, k + 1) else k)
  {
    hide Inv;
    if a == Advance(i) {
      if k < |snapshot| {
        NextInSnapshot(s, list, snapshot, k);
        assert snapshot[..k + 1] == snapshot[..k] + [snapshot[k]];
      }
    } else {
      OthersLeaveCursor(s, i, a);
    }
  }

  lemma OthersLeaveCursor(s: State, i: IterId, a: Action)
    requires Enabled(s, a) && a != Begin(i) && a != Advance(i) && i in s.cursors
    ensures i in Step(s, a).cursors && Step(s, a).cursors[i] == s.cursors[i]
  {
  }

  lemma NextInSnapshot(s: State, list: seq<NodeId>, snapshot: seq<NodeId>, k: nat)
    requires Inv(s, list) && Extends(list, snapshot) && k < |snapshot|
    ensures snapshot[k] in s.nodes && s.nodes[snapshot[k]].next == LinkTo(snapshot, k + 1)
  {
    hide PcSound, Owns;
    var d := |list| - |snapshot|;
    assert list[d + k] == snapshot[k];
    if k + 1 < |snapshot| {
      var j := d + k + 1;
      assert list[j] == snapshot[k + 1];
      assert s.nodes[list[d + k]].next == At(list[j]);
    }
  }

  lemma {:induction false} CursorRun(s: State, list: seq<NodeId>, snapshot: seq<NodeId>, i: IterId, k: nat, run: seq<Action>)
    requires Inv(s, list) && IsRun(s, run) && Begin(i) !in run && k <= |snapshot|
    requires Extends(list, snapshot) && CursorOn(s, i, snapshot, k)
    ensures CursorOn(Exec(s, run), i, snapshot, Min(|snapshot|, k + Advances(run, i)))
    decreases |run|
  {
    hide Inv, Extends, CursorOn, ListAfter, Enabled;
    if run != [] {
      var s1, list1 := Step(s, run[0]), ListAfter(s, list, run[0]);
      StepKeepsInv(s, list, run[0]);
      StepKeepsPublished(s, list, run[0]);
      ExtendsIsTransitive(list1, list, snapshot);
      CursorStep(s, list, snapshot, i, k, run[0]);
      CursorRun(s1, list1, snapshot, i, if run[0] == Advance(i) then Min(|snapshot|, k + 1) else k, run[1..]);
    }
  }

  /**
   An iterator begun now, whatever is submitted while it runs, yields after `m` calls of `next`
   the first `m` nodes of the list as it is now; it ends after as many calls as the list is long,
   having yielded each of those nodes exactly once.
   */
  lemma IterationYieldsTheListAtItsStart(s: State, list: seq<NodeId>, i: IterId, run: seq<Action>)
    requires Inv(s, list) && IsRun(Step(s, Begin(i)), run) && Begin(i) !in run
    ensures i in Exec(Step(s, Begin(i)), run).cursors
    ensures var c := Exec(Step(s, Begin(i)), run).cursors[i];
            && c.yielded == list[..Min(|list|, Advances(run, i))]
            && (c.node.Null? <==> Advances(run, i) >= |list|)
            && (c.node.Null? ==> c.yielded == list && Distinct(c.yielded))
  {
    StepKeepsInv(s, list, Begin(i));
    CursorRun(Step(s, Begin(i)), list, list, i, 0, run);
  }

  // ---------------------------------------------------------------------------
  // The retry loop of submit terminates

  /** Failed head exchanges of thread `t`. */
  function Retries(s: State, run: seq<Action>, t: ThreadId): nat
    requires IsRun(s, run)
    decreases |run|
  {
    if run == [] then 0
    else
      Retries(Step(s, run[0]), run[1..], t)
      + if run[0] == Publish(t) && PcOf(s, t).head != s.head then 1 else 0
  }

  /** Where a pointer into the list points. */
  function Position(list: seq<NodeId>, link: Link): nat {
    if list == [] || link == At(list[0]) then 0 else 1 + Position(list[1..], link)
  }

  /** How many nodes have been pushed since the thread last saw the head. */
  function Lag(s: State, list: seq<NodeId>, t: ThreadId): nat {
    match PcOf(s, t)
    case Writing(_, h) => Position(list, h)
    case Publishing(_, h) => Position(list, h)
    case _ => 0
  }

  lemma PushMovesPosition(list: seq<NodeId>, n: NodeId, link: Link)
    requires link != At(n)
    ensures Position([n] + list, link) == 1 + Position(list, link)
  {
    assert ([n] + list)[1..] == list;
  }

  lemma RetryStep(s: State, list: seq<NodeId>, a: Action, t: ThreadId)
    requires Inv(s, list) && Enabled(s, a)
    ensures (if a == Publish(t) && PcOf(s, t).head != s.head then 1 else 0) + Lag(Step(s, a), ListAfter(s, list, a), t)
            <= Lag(s, list, t) + |ListAfter(s, list, a)| - |list|
  {
    var s', list' := Step(s, a), ListAfter(s, list, a);
    if a.Publish? && PcOf(s, a.t).head == s.head && a.t != t && t in s.threads {
      var n := PcOf(s, a.t).item;
      assert PcSound(s, list, s.threads[a.t]) && PcSound(s, list, s.threads[t]);
      if PcOf(s, t).Writing? || PcOf(s, t).Publishing? {
        PushMovesPosition(list, n, PcOf(s, t).head);
      }
    }
  }

  lemma {:induction false} RetriesAreBounded(s: State, list: seq<NodeId>, run: seq<Action>, t: ThreadId)
    requires Inv(s, list) && IsRun(s, run)
    ensures Retries(s, run, t) + Lag(Exec(s, run), ListExec(s, list, run), t)
            <= Lag(s, list, t) + |ListExec(s, list, run)| - |list|
    decreases |run|
  {
    hide Inv;
    if run != [] {
      StepKeepsInv(s, list, run[0]);
      RetryStep(s, list, run[0], t);
      RetriesAreBounded(Step(s, run[0]), ListAfter(s, list, run[0]), run[1..], t);
    }
  }

  lemma {:induction false} DistinctFitsIn(list: seq<NodeId>, items: set<NodeId>)
    requires Distinct(list) && forall k :: 0 <= k < |list| ==> list[k] in items
    ensures |list| <= |items|
  {
    if list != [] {
      DistinctFitsIn(list[1..], items - {list[0]});
    }
  }

  /**
   In every run a thread's failed exchanges, over all its calls together, are at most the
   number of items: each failure means another thread published in between.
   */
  lemma SubmitRetriesAtMostOncePerItem(items: set<NodeId>, run: seq<Action>, t: ThreadId)
    requires IsRun(Init(items), run)
    ensures Retries(Init(items), run, t) <= |ListExec(Init(items), [], run)| <= |items|
  {
    InitIsSound(items);
    RetriesAreBounded(Init(items), [], run, t);
    RunKeepsInv(Init(items), [], run);
    ItemsAreFixed(Init(items), run);
    DistinctFitsIn(ListExec(Init(items), [], run), items);
  }

  lemma {:induction false} ItemsAreFixed(s: State, run: seq<Action>)
    requires IsRun(s, run)
    ensures Exec(s, run).nodes.Keys == s.nodes.Keys
    decreases |run|
  {
    if run != [] {
      ItemsAreFixed(Step(s, run[0]), run[1..]);
    }
  }

  // ---------------------------------------------------------------------------
  // A loser never waits for nobody

  /** Every item being submitted has a thread inside `submit` that owns it. */
  ghost predicate Driven(s: State) {
    forall n :: n in s.nodes && s.nodes[n].phase == Running ==> HasOwner(s, n)
  }

  ghost predicate HasOwner(s: State, n: NodeId) {
    exists t :: t in s.threads && Owns(s.threads[t], n)
  }

  lemma StepKeepsDriven(s: State, a: Action)
    requires Driven(s) && Enabled(s, a)
    ensures Driven(Step(s, a))
  {
    var s' := Step(s, a);
    forall n | n in s'.nodes && s'.nodes[n].phase == Running ensures HasOwner(s', n) {
      if s.nodes[n].phase == Running {
        var t :| t in s.threads && Owns(s.threads[t], n);
        assert Owns(s'.threads[t], n);
      } else {
        assert a.Claim? && Owns(s'.threads[a.t], n);
      }
    }
  }

  lemma {:induction false} RunKeepsDriven(s: State, run: seq<Action>)
    requires Driven(s) && IsRun(s, run)
    ensures Driven(Exec(s, run))
    decreases |run|
  {
    if run != [] {
      StepKeepsDriven(s, run[0]);
      RunKeepsDriven(Step(s, run[0]), run[1..]);
    }
  }

  /**
   In every run, whenever a losing `submit` still spins on an item that is not completed, some
   thread owns that item and has a step it can take.
   */
  lemma SpinningThreadHasAWorkingOwner(items: set<NodeId>, run: seq<Action>, t: ThreadId)
    requires IsRun(Init(items), run)
    requires PcOf(Exec(Init(items), run), t).Spinning?
    ensures var s := Exec(Init(items), run);
            var n := PcOf(s, t).item;
            && n in s.nodes
            && (s.nodes[n].phase == Completed
                || exists u :: Owns(PcOf(s, u), n) && Enabled(s, WorkOf(PcOf(s, u), u)))
  {
    hide Inv, Step, Enabled, Exec, IsRun, ListExec;
    InitIsSound(items);
    RunKeepsInv(Init(items), [], run);
    RunKeepsDriven(Init(items), run);
    SpinnerHasAWorkingOwner(Exec(Init(items), run), ListExec(Init(items), [], run), t);
  }

  lemma SpinnerHasAWorkingOwner(s: State, list: seq<NodeId>, t: ThreadId)
    requires Inv(s, list) && Driven(s) && PcOf(s, t).Spinning?
    ensures var n := PcOf(s, t).item;
            && n in s.nodes
            && (s.nodes[n].phase == Completed
                || exists u :: Owns(PcOf(s, u), n) && Enabled(s, WorkOf(PcOf(s, u), u)))
  {
    hide Inv;
    var n := PcOf(s, t).item;
    ThreadIsSound(s, list, t);
    if s.nodes[n].phase == Running {
      var u :| u in s.threads && Owns(s.threads[u], n);
      ThreadIsSound(s, list, u);
      assert Enabled(s, WorkOf(PcOf(s, u), u));
    }
  }

  /** The next step of a thread that owns an item. */
  function WorkOf(pc: Pc, t: ThreadId): Action {
    match pc
    case Loading(_) => LoadHead(t)
    case Writing(_, _) => WriteNext(t)
    case Publishing(_, _) => Publish(t)
    case _ => Complete(t)
  }

  // ---------------------------------------------------------------------------
  // A call of submit ends, and only with its item registered

  /** The thread is inside `submit` on `n`, or has returned from it. */
  predicate On(pc: Pc, n: NodeId) {
    !pc.Outside? && pc.item == n
  }

  /** At some point of the run the thread's call on `n` has returned. */
  predicate Returns(s: State, run: seq<Action>, t: ThreadId, n: NodeId)
    requires IsRun(s, run)
    decreases |run|
  {
    PcOf(s, t) == Returned(n) || (run != [] && Returns(Step(s, run[0]), run[1..], t, n))
  }

  /** A thread leaves a call that has not returned by no step. */
  lemma StepStaysOn(s: State, a: Action, t: ThreadId, n: NodeId)
    requires Enabled(s, a) && On(PcOf(s, t), n) && PcOf(s, t) != Returned(n)
    ensures On(PcOf(Step(s, a), t), n)
  {
  }

  lemma {:induction false} StaysOnUntilReturned(s: State, run: seq<Action>, t: ThreadId, n: NodeId)
    requires IsRun(s, run) && On(PcOf(s, t), n)
    ensures Returns(s, run, t, n) || On(PcOf(Exec(s, run), t), n)
    decreases |run|
  {
    hide Step, Enabled;
    if run != [] && PcOf(s, t) != Returned(n) {
      StepStaysOn(s, run[0], t, n);
      StaysOnUntilReturned(Step(s, run[0]), run[1..], t, n);
    }
  }

  lemma {:induction false} ReturnedIsRegistered(s: State, list: seq<NodeId>, run: seq<Action>, t: ThreadId, n: NodeId)
    requires Inv(s, list) && IsRun(s, run) && Returns(s, run, t, n)
    ensures n in ListExec(s, list, run) && n in Exec(s, run).nodes && Exec(s, run).nodes[n].phase == Completed
    decreases |run|
  {
    hide Inv, Step, Enabled, ListAfter, Extends;
    if PcOf(s, t) == Returned(n) {
      ThreadIsSound(s, list, t);
      PublishedStaysPublished(s, list, run);
      ExtendsContains(ListExec(s, list, run), list);
    } else {
      StepKeepsInv(s, list, run[0]);
      ReturnedIsRegistered(Step(s, run[0]), ListAfter(s, list, run[0]), run[1..], t, n);
    }
  }

  /**
   Over every run after a thread has entered `submit(n)`, either the call is still on its way to
   registering `n`, or it has returned and `n` is listed and completed for good.
   */
  lemma SubmitEndsWithItsItemRegistered(s: State, list: seq<NodeId>, run: seq<Action>, t: ThreadId, n: NodeId)
    requires Inv(s, list) && Enabled(s, Submit(t, n)) && IsRun(Step(s, Submit(t, n)), run)
    ensures var s1 := Step(s, Submit(t, n));
            && (!Returns(s1, run, t, n) ==> On(PcOf(Exec(s1, run), t), n) && !PcOf(Exec(s1, run), t).Returned?)
            && (Returns(s1, run, t, n) ==>
                  && n in ListExec(s1, list, run)
                  && n in Exec(s1, run).nodes && Exec(s1, run).nodes[n].phase == Completed)
  {
    hide Inv;
    var s1 := Step(s, Submit(t, n));
    StepKeepsInv(s, list, Submit(t, n));
    StaysOnUntilReturned(s1, run, t, n);
    if Returns(s1, run, t, n) {
      ReturnedIsRegistered(s1, list, run, t, n);
    } else {
      NotYetReturned(s1, run, t, n);
    }
  }

  lemma {:induction false} NotYetReturned(s: State, run: seq<Action>, t: ThreadId, n: NodeId)
    requires IsRun(s, run) && !Returns(s, run, t, n)
    ensures PcOf(Exec(s, run), t) != Returned(n)
    decreases |run|
  {
    if run != [] {
      NotYetReturned(Step(s, run[0]), run[1..], t, n);
    }
  }

  /** The steps an owner has left while the head stays as it is. */
  function Remaining(s: State, t: ThreadId): nat {
    match PcOf(s, t)
    case Loading(_) => 4
    case Writing(_, h) => if h == s.head then 3 else 5
    case Publishing(_, h) => if h == s.head then 2 else 4
    case Completing(_) => 1
    case _ => 0
  }

  predicate IsBy(a: Action, t: ThreadId) {
    !a.Begin? && !a.Advance? && a.t == t
  }

  function OwnSteps(run: seq<Action>, t: ThreadId): nat {
    if run == [] then 0 else OwnSteps(run[1..], t) + if IsBy(run[0], t) then 1 else 0
  }

  /** A step of the owner is one less to go; a push by another thread costs it two more. */
  lemma StepIsProgress(s: State, list: seq<NodeId>, a: Action, t: ThreadId, n: NodeId)
    requires Inv(s, list) && Enabled(s, a) && Owns(PcOf(s, t), n)
    ensures Owns(PcOf(Step(s, a), t), n) || PcOf(Step(s, a), t) == Returned(n)
    ensures (if IsBy(a, t) then 1 else 0) + Remaining(Step(s, a), t)
            <= Remaining(s, t) + 2 * (|ListAfter(s, list, a)| - |list|)
  {
  }

  /**
   The loop of `submit` ends: in every run in which the winner of an item takes as many steps as it had
   left, and two more for every node pushed meanwhile, its call returns.
   */
  lemma {:induction false} WinnerReturns(s: State, list: seq<NodeId>, run: seq<Action>, t: ThreadId, n: NodeId)
    requires Inv(s, list) && IsRun(s, run) && Owns(PcOf(s, t), n)
    requires OwnSteps(run, t) >= Remaining(s, t) + 2 * (|ListExec(s, list, run)| - |list|)
    ensures Returns(s, run, t, n)
    decreases |run|
  {
    hide Inv, Step, Enabled, ListAfter;
    if run != [] {
      var s1, list1 := Step(s, run[0]), ListAfter(s, list, run[0]);
      StepKeepsInv(s, list, run[0]);
      StepIsProgress(s, list, run[0], t, n);
      if Owns(PcOf(s1, t), n) {
        WinnerReturns(s1, list1, run[1..], t, n);
      } else {
        assert Returns(s1, run[1..], t, n);
      }
    }
  }

  /** Left alone, the owner of an item finishes in exactly the steps it has left. */
  lemma {:induction false} OwnerCanFinish(s: State, list: seq<NodeId>, t: ThreadId, n: NodeId) returns (run: seq<Action>)
    requires Inv(s, list) && Owns(PcOf(s, t), n)
    ensures IsRun(s, run) && |run| == Remaining(s, t) && forall a :: a in run ==> IsBy(a, t)
    ensures PcOf(Exec(s, run), t) == Returned(n)
    ensures forall u :: u != t ==> PcOf(Exec(s, run), u) == PcOf(s, u)
    ensures ListExec(s, list, run) == if PcOf(s, t).Completing? then list else [n] + list
    decreases Remaining(s, t)
  {
    hide Inv;
    ThreadIsSound(s, list, t);
    var a := WorkOf(PcOf(s, t), t);
    var s1, list1 := Step(s, a), ListAfter(s, list, a);
    StepKeepsInv(s, list, a);
    var rest := [];
    if !PcOf(s, t).Completing? {
      rest := OwnerCanFinish(s1, list1, t, n);
    }
    run := [a] + rest;
    assert run[1..] == rest;
  }

  /** A thread alone submits a pending item in five steps: the item is put in front of the list. */
  lemma SubmitAlone(s: State, list: seq<NodeId>, t: ThreadId, n: NodeId) returns (run: seq<Action>)
    requires Inv(s, list) && PcOf(s, t) == Claiming(n) && n in s.nodes && s.nodes[n].phase == Pending
    ensures IsRun(s, run) && |run| == 5 && forall a :: a in run ==> IsBy(a, t)
    ensures PcOf(Exec(s, run), t) == Returned(n)
    ensures ListExec(s, list, run) == [n] + list
    ensures n in Exec(s, run).nodes && Exec(s, run).nodes[n].phase == Completed
  {
    hide Inv;
    var s1 := Step(s, Claim(t));
    StepKeepsInv(s, list, Claim(t));
    var rest := OwnerCanFinish(s1, list, t, n);
    run := [Claim(t)] + rest;
    assert run[1..] == rest;
    RunKeepsInv(s, list, run);
    ThreadIsSound(Exec(s, run), ListExec(s, list, run), t);
  }

  /**
   No call of `submit` is ever stuck: whatever has happened, it returns after at most six steps of
   its own and of the owner of its item.
   */
  lemma SubmitCanAlwaysReturn(s: State, list: seq<NodeId>, t: ThreadId, n: NodeId) returns (run: seq<Action>)
    requires Inv(s, list) && Driven(s) && On(PcOf(s, t), n)
    ensures IsRun(s, run) && |run| <= 6 && PcOf(Exec(s, run), t) == Returned(n)
  {
    hide Inv, Exec, IsRun, ListExec;
    ThreadIsSound(s, list, t);
    if Owns(PcOf(s, t), n) {
      run := OwnerCanFinish(s, list, t, n);
    } else if PcOf(s, t) == Claiming(n) && s.nodes[n].phase == Pending {
      run := SubmitAlone(s, list, t, n);
    } else if s.nodes[n].phase == Running {
      var u :| u in s.threads && Owns(s.threads[u], n);
      var work := OwnerCanFinish(s, list, u, n);
      RunKeepsInv(s, list, work);
      var s1 := Exec(s, work);
      ThreadIsSound(s1, ListExec(s, list, work), u);
      run := Waited(s, work, t, n);
    } else {
      RunOfNothing(s);
      run := Waited(s, [], t, n);
    }
  }

  lemma RunOfNothing(s: State)
    ensures IsRun(s, []) && Exec(s, []) == s
  {
  }

  /** Once the item is completed, one more step of the waiting thread is enough. */
  lemma Waited(s: State, work: seq<Action>, t: ThreadId, n: NodeId) returns (run: seq<Action>)
    requires IsRun(s, work) && n in Exec(s, work).nodes && Exec(s, work).nodes[n].phase == Completed
    requires PcOf(Exec(s, work), t) in {Claiming(n), Spinning(n), Returned(n)}
    ensures IsRun(s, run) && |run| <= |work| + 1 && PcOf(Exec(s, run), t) == Returned(n)
  {
    var pc := PcOf(Exec(s, work), t);
    if pc.Returned? {
      run := work;
    } else {
      var a := if pc.Claiming? then Claim(t) else Spin(t);
      RunThenStep(s, work, a);
      run := work + [a];
    }
  }

  lemma {:induction false} RunThenStep(s: State, run: seq<Action>, a: Action)
    requires IsRun(s, run) && Enabled(Exec(s, run), a)
    ensures IsRun(s, run + [a]) && Exec(s, run + [a]) == Step(Exec(s, run), a)
    decreases |run|
  {
    hide Step, Enabled;
    if run == [] {
      assert (run + [a])[1..] == [];
    } else {
      RunThenStep(Step(s, run[0]), run[1..], a);
      assert (run + [a])[1..] == run[1..] + [a];
    }
  }
}
