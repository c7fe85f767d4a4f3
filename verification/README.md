# Voker in Dafny

A Dafny model of the parts of the voker game engine whose correctness is hardest to see, with proofs
about every input, every run or every interleaving. `dafny verify dfyconfig.toml` checks the project.

* **Entity cloning** (`EntityCloning.dfy`). The cloner of voker-ecs copies a set of entities: a
  breadth-first worklist with lazy discovery, a plain copy of every component, deferred remapping of
  the entity references inside the copies. A finished run is proved to have cloned exactly what is
  reachable through linked relations, each the right number of times, into fresh entities, with the
  copy isomorphic to the original; the worklist loop terminates for all inputs, alive or not.
* **Registration list** (`Inventory.dfy`). The lock-free list of voker-inventory as a transition
  system with one step per atomic action. Over every interleaving the list is well formed, only
  grows, and each node's pointer is written by one thread; an iterator yields the list as it was when it
  began; a call of `submit` ends only with its item registered, its winner returns after a bounded number
  of steps, and no call is ever stuck.
* **Asset slots and handles** (`AssetSlots.dfy`, `AssetCalls.dfy`, `AssetStore.dfy`,
  `AssetThreads.dfy`, `AssetTable.dfy`, `Assets.dfy`). The generational allocator and slot table under
  concurrent reservations, and above them `Assets<A>` with its strong handles, duplicate counters, drop
  channel, event queue and `AssetChanges`. Calls that take many steps among those of other threads are
  proved to be atomic; the handle and event laws are proved over all runs, each with its exact
  condition; the classes are proved to take the steps of the transition systems.
* **Change ticks** (`Ticks.dfy`). 32-bit wrapping ticks with periodic sweeps, proved to agree with
  unbounded time, and exactly when the one tick that no sweep touches does.
* **Asset paths** (`AssetPathText.dfy`, `AssetPathComponents.dfy`, `AssetPathResolve.dfy`,
  `AssetPathStrings.dfy`). Parser and printer are inverse; normalisation is the canonical form of
  what a path means; resolution composes; resolving strings agrees with parsing them.
* **Time** (`Timers.dfy`, `FixedTime.dfy`). Timers and the fixed-timestep loop in integer
  nanoseconds: conservation over runs, and independence of how time is cut into ticks and frames.
* **Plugin groups** (`PluginGroups.dfy`). The ordered builder: insert-then-remove edits against a
  remove-then-insert reference, over all sequences of edits, and what `build` offers.

Where the source updates state in place the model has classes and loops. Each class method is
proved against a function or a transition step, and the laws are proved about those.

What turned out false of the code is stated as it is, with its exact condition:

* A removal forgets the duplicate counter of its asset, so a handle can outlive its slot
  (`ForgettingRecyclesUnderALiveHandle`). For every run and every index in use at its end, handles and
  pending drops are one more than the counter if and only if no removal of the run forgot a positive
  counter of that index (`HandlesMatchTheCounter`).
* A removal without tracking makes the event log untrue, for good: at the end of a run the log is true
  if and only if the run removed nothing without its event (`TheLogIsTrueExactlyWhenTracked`).
  `AssetChanges` recovers: it is right about an id if and only if no removal without event of that id is
  left without a later event about it (`ChangesAreRightExactly`).
* A table call among reservations takes effect at once if and only if its index has not been recycled
  since its flush, or the call is a removal that keeps the slot (`CallsAreAtomic`). Only a call on an index
  that no reservation has returned yet can fail this (`ReturnedIsNeverEarly`,
  `EarlyInsertionIsRefused`).
* `check_ticks` documents that it validates at most once per `CHECK_CYCLE`, but never updates
  `last_check`; when two close calls both sweep is stated by `SweepsAreNotSpacedOut`. How far apart
  sweeps may be is exact (`SweepGapBound`). Calls CHECK_CYCLE apart sweep in time
  (`RegularCallsSweepInTime`); calls that may fall anywhere do up to half that distance
  (`TrackedSweepIsRecent`) and for no larger one always do (`CallGapIsTight`).
* The world's own `last_run` is not swept: detection against it is right for every write if and only if
  it is younger than 2^32 ticks or its wrapped age has reached the largest age (`BaselineAgreesExactly`).
* The cloner of `Children` is documented as almost identical to the cloner of relationship targets,
  but does not defer the children (`ChildrenAreNotFollowed`).
* An input given twice to the cloner is cloned twice (`ClonedOnceUnlessGivenTwice`); an input that is
  not alive is returned unchanged, and the run is correct, if and only if no input is the id that the
  allocator hands out for one of the live inputs before it (`Run`, `SpawnCloneBatch`).
* Resolution composes for every base and every two references if and only if they do not cancel to a
  bare label over a base that is not normalised (`ResolveComposes`, with the input of
  `UnnormalisedBaseDoesNotCompose`); when the second reference starts over at the root, if and only if
  the base disappears under it (`StartingOverComposesIffAbsorbed`). Embedded resolution has a like
  condition when the first reference names a file (`EmbeddingComposes`) and never composes when it ends in
  a slash, which normalisation drops (`SlashNeverComposes`).
* Behind a leading `#` a reference string is not parsed (`ResolvingAStringIsParsing`).
* A timer tick with 2^32 or more finishes loses time, as does one that saturates; the exact guard is
  `Exact` (`TickKeepsTheBooks`, `LongTickLosesItsFinishes`).

## Model

| member | source | states |
|---|---|---|
| EntityCloning.CloneComponents | crates/voker-ecs/src/clone.rs:650-688 | the loop over component cloners yields, for every strategy and mode, the plain copies, the deferred entities in order and the remap callbacks; what these come to is CopiesHoldTheirSource and LinkedIsHeld |
| EntityCloning.CallbacksOfAreTheRemappedColumns | crates/voker-ecs/src/clone.rs:340-450 | remapping is queued once for exactly those columns whose cloner asks for it |
| EntityCloning.EnqueuedContents | crates/voker-ecs/src/clone.rs:697-707 | draining the deferred list adds exactly the linked entities not yet waiting, cloned or mapped, behind what was waiting |
| EntityCloning.EnqueuedCount | crates/voker-ecs/src/clone.rs:697-707 | draining never queues an entity that is already waiting a second time |
| EntityCloning.EnqueuedWork | crates/voker-ecs/src/clone.rs:697-707 | draining does not change the work left, the measure that makes the worklist terminate |
| EntityCloning.LinkedIsHeld | crates/voker-ecs/src/clone.rs:398-430 | what the component cloners defer is exactly what linked relations hold, and nothing without linking |
| EntityCloning.PopWork | crates/voker-ecs/src/clone.rs:607-619 | taking an entity off the queue never raises the work left, and cloning it lowers it, also for inputs given several times |
| EntityCloning.StartOfProgress | crates/voker-ecs/src/clone.rs:561-572 | the worklist invariant holds with the inputs waiting and nothing cloned |
| EntityCloning.SkipKeepsProgress | crates/voker-ecs/src/clone.rs:611-620 | skipping an entity that is not alive keeps the worklist invariant |
| EntityCloning.CloneKeepsProgress | crates/voker-ecs/src/clone.rs:607-708 | one iteration on a live entity keeps the worklist invariant: old entities untouched, copies in place, callbacks complete, frontier and tallies right |
| EntityCloning.EndOfProgress | crates/voker-ecs/src/clone.rs:607-708 | when the queue is empty the mapper's domain is exactly the live entities reachable from the inputs, each cloned as often as it was given and at least once |
| EntityCloning.CloneStaysAfloat | crates/voker-ecs/src/clone.rs:607-708 | whatever the inputs are, an iteration keeps references, callbacks and queue in bounds and lowers the work left, so the loop ends |
| EntityCloning.SkipStaysAfloat | crates/voker-ecs/src/clone.rs:611-620 | so does skipping an entity that is not alive, with a shorter queue |
| EntityCloning.RemapMentions | crates/voker-ecs/src/clone.rs:714-733 | a callback puts no id into the world that was never handed out |
| EntityCloning.FinishedRun | crates/voker-ecs/src/clone.rs:561-771 | an empty queue and remapped copies are all that makes a run correct |
| EntityCloning.AliveAtItsTurn | crates/voker-ecs/src/clone.rs:607-620 | the entity at the head of the queue is alive if and only if it was before the run or is an input whose id the run has handed out by then |
| EntityCloning.CloneStaysOnTrack | crates/voker-ecs/src/clone.rs:607-708 | an iteration on any live entity keeps: the worklist invariant as long as no input collided with a new id, a clone of a clone once one did |
| EntityCloning.EndOnTrack | crates/voker-ecs/src/clone.rs:607-708 | an empty queue leaves the invariant if the inputs do not collide with new ids and a clone of a clone if they do |
| EntityCloning.StrayComesBackChanged | crates/voker-ecs/src/clone.rs:761-764 | after a collision some input that was not alive does not come back unchanged |
| EntityCloning.StrayIsNotCloned | crates/voker-ecs/src/clone.rs:561-771 | after a collision the run did not clone exactly the reachable entities |
| EntityCloning.FinishedIsExact | crates/voker-ecs/src/clone.rs:607-708 | a set closed under linking that holds the live inputs and nothing unreachable is the reachable set |
| EntityCloning.MapperIsInjective | crates/voker-ecs/src/clone.rs:690-691 | the mapper sends cloned entities injectively to live entities that did not exist before |
| EntityCloning.ImageOfRoot | crates/voker-ecs/src/clone.rs:761-764 | a live input is mapped to a new entity that holds its remapped copy |
| EntityCloning.CopiesHoldTheirSource | crates/voker-ecs/src/clone.rs:340-450 | in both modes every component of every copy has the kind and value of its source; its references are none in a linked set that is not followed, the same where the type is declared to hold none, and otherwise each the image of a cloned entity or unchanged |
| EntityCloning.LinkedCloneIsIsomorphic | crates/voker-ecs/src/clone.rs:398-450 | in linked mode a reference in the copy is the copy of an entity exactly when the original refers to that entity; references out of the cloned part are unchanged |
| EntityCloning.UnlinkedCloneStopsAtTheInput | crates/voker-ecs/src/clone.rs:415-430 | without linking exactly the live inputs are cloned and linked source sets come out empty |
| EntityCloning.UnlinkedReach | crates/voker-ecs/src/clone.rs:415-430 | where no cloner defers, only the live inputs are reachable |
| EntityCloning.ChildrenAreNotFollowed | crates/voker-ecs/src/hierarchy.rs:96-103 | in a world linked by `Children` alone even a linked clone copies only the inputs, and a copied parent lists the original children |
| EntityCloning.ClonedOnceUnlessGivenTwice | crates/voker-ecs/src/clone.rs:607-708 | every entity is cloned at most once if and only if no live input is given twice |
| EntityCloning.EntityCloner.SpawnUninit | crates/voker-ecs/src/clone.rs:622-623 | a spawned target is the next id, which nobody was handed before |
| EntityCloning.EntityCloner.DrainDeferred | crates/voker-ecs/src/clone.rs:697-707 | the draining loop appends exactly the entities the filter lets through |
| EntityCloning.EntityCloner.RunCallbacks | crates/voker-ecs/src/clone.rs:714-733 | the callbacks never miss their target; after them every copy is its source with references mapped once by the final mapper, everything else is untouched, and nothing unknown is mentioned |
| EntityCloning.EntityCloner.CloneNext | crates/voker-ecs/src/clone.rs:607-708 | one iteration on a live source takes the clone step with the next id as its target |
| EntityCloning.EntityCloner.ClonePlain | crates/voker-ecs/src/clone.rs:607-708 | the loop terminates for all inputs; it ends in its invariant if no input collides with a new id, and otherwise with a clone of a clone |
| EntityCloning.EntityCloner.MapAll | crates/voker-ecs/src/clone.rs:761-764 | each output entity is replaced by its image, and kept where there is none |
| EntityCloning.EntityCloner.Run | crates/voker-ecs/src/clone.rs:561-771 | for all inputs the cloner returns empty and the world sound; exactly the reachable entities are cloned into fresh ones, every reference is remapped and old entities are untouched, if and only if no input is the id handed out for a live input before it |
| EntityCloning.EntityCloner.SpawnCloneBatch | crates/voker-ecs/src/clone.rs:526-530 | position by position, a live input comes back as a new entity holding its copy and any other input unchanged, if and only if no input is the id handed out for a live input before it |
| Inventory.ListIsUnique | crates/voker-inventory/src/lib.rs:242-253 | following `next` pointers from one link gives one list |
| Inventory.ClaimKeepsInv | crates/voker-inventory/src/lib.rs:178-185 | winning the exchange on the state makes the thread the node's only owner |
| Inventory.StartKeepsInv | crates/voker-inventory/src/lib.rs:178 | a pending node is off the list and without owner, so marking it running disturbs nobody |
| Inventory.WriteNextKeepsInv | crates/voker-inventory/src/lib.rs:210-213 | writing `next` touches no listed node and disturbs no other thread |
| Inventory.PublishKeepsInv | crates/voker-inventory/src/lib.rs:215-220 | a successful exchange on the head puts the node in front of a well-formed list |
| Inventory.CompleteKeepsInv | crates/voker-inventory/src/lib.rs:222-223 | the completed state is only stored for a listed node |
| Inventory.AdvanceKeepsInv | crates/voker-inventory/src/lib.rs:245-253 | an iterator that moves on stays on the list |
| Inventory.StepKeepsInv | crates/voker-inventory/src/lib.rs:173-302 | every atomic step of any thread or iterator keeps the list well formed and every position sound |
| Inventory.EveryRunIsSound | crates/voker-inventory/src/lib.rs:173-226 | after any interleaving the list is finite and without repetition and holds every completed item and the item of every `submit` that returned, winner or loser |
| Inventory.StepKeepsPublished | crates/voker-inventory/src/lib.rs:173-226 | a step leaves listed nodes' pointers alone, only adds in front, and never takes back a completion |
| Inventory.PublishedStaysPublished | crates/voker-inventory/src/lib.rs:166-168 | over any run the list grows in front only, published pointers never change and a submitted item stays submitted |
| Inventory.NextIsWrittenByOwnerOnly | crates/voker-inventory/src/lib.rs:210-213 | a change of `next` is made by the node's one owner while the node is off the list and no iterator stands on it |
| Inventory.EachNodeHasOneWriter | crates/voker-inventory/src/lib.rs:209-224 | from the moment an item is pending, all writes of its `next` in a run are by one thread |
| Inventory.NextHasOneWriter | crates/voker-inventory/src/lib.rs:173-226 | in every run of a registry any two threads that write one node's `next` are the same |
| Inventory.CursorStep | crates/voker-inventory/src/lib.rs:245-253 | whatever step happens, an iterator stays on the snapshot it started with |
| Inventory.IterationYieldsTheListAtItsStart | crates/voker-inventory/src/lib.rs:242-302 | during any concurrent run an iterator yields, in order and once each, the nodes listed when it began, and ends exactly after that many calls |
| Inventory.RetryStep | crates/voker-inventory/src/lib.rs:215-220 | a failed exchange is paid for by a push since the thread last saw the head |
| Inventory.RetriesAreBounded | crates/voker-inventory/src/lib.rs:209-224 | over any run a thread's failed exchanges are at most the pushes made plus its initial lag |
| Inventory.SubmitRetriesAtMostOncePerItem | crates/voker-inventory/src/lib.rs:209-224 | in every run a thread's failed exchanges over all its calls are at most the number of items |
| Inventory.StepKeepsDriven | crates/voker-inventory/src/lib.rs:173-226 | every running item keeps an owner inside `submit` |
| Inventory.SpinningThreadHasAWorkingOwner | crates/voker-inventory/src/lib.rs:178-185 | a loser that still waits waits for a thread that owns the item and can take a step |
| Inventory.SubmitEndsWithItsItemRegistered | crates/voker-inventory/src/lib.rs:173-226 | over every run after a thread entered `submit` it stays inside that call until the call returns, and once it has returned the item is listed and completed for good |
| Inventory.StepIsProgress | crates/voker-inventory/src/lib.rs:209-224 | a step of the winner is one less to go, and a push by another thread costs it at most two more |
| Inventory.WinnerReturns | crates/voker-inventory/src/lib.rs:209-224 | in every run in which the winner takes as many steps as it had left and two more for every push meanwhile, its call returns |
| Inventory.OwnerCanFinish | crates/voker-inventory/src/lib.rs:209-224 | left alone from any state the winner returns in exactly the steps it has left, with its item in front of the list |
| Inventory.SubmitAlone | crates/voker-inventory/src/lib.rs:173-226 | from any state a thread alone submits a pending item in five steps: it is completed and the list is the item followed by the old list |
| Inventory.SubmitCanAlwaysReturn | crates/voker-inventory/src/lib.rs:173-226 | from any state of any run a call of `submit`, winner or loser, can return within six steps of its thread and of the owner |
| AssetSlots.StepKeepsInv | crates/voker-asset/src/assets.rs:66-152 | every step of every thread keeps: each slot in one place, nothing free lost, generations current, no index repeated, `len` right |
| AssetSlots.PopKeepsInv | crates/voker-asset/src/ident.rs:136-138 | popping a recycled index moves its slot from the queue to the thread |
| AssetSlots.PushKeepsInv | crates/voker-asset/src/ident.rs:138-139 | pushing it back under its next generation keeps the invariant while other threads act |
| AssetSlots.FetchAddKeepsInv | crates/voker-asset/src/ident.rs:142-148 | a new index extends the range without touching a slot |
| AssetSlots.BeginOpKeepsInv | crates/voker-asset/src/assets.rs:67-70 | loading the length and resizing keeps the invariant under concurrent reservations |
| AssetSlots.FlushPopKeepsInv | crates/voker-asset/src/assets.rs:72-75 | readmitting one recycled slot keeps the invariant |
| AssetSlots.FlushEmptyKeepsInv | crates/voker-asset/src/assets.rs:72-76 | so does the pop that finds the list empty, a step of its own |
| AssetSlots.FinishOpKeepsInv | crates/voker-asset/src/assets.rs:96-152 | insertion and both removals keep the invariant, also when a reservation has come in since their flush ended |
| AssetSlots.OperationsNeverPanic | crates/voker-asset/src/assets.rs:66-152 | an operation in progress can always take its next step: no index is out of bounds, `len` never underflows |
| AssetSlots.SlotIsInOnePlace | crates/voker-asset/src/ident.rs:128-155 | every allocated slot is in exactly one of table, recycled queue, reserving thread, recycled list, or not yet in the table |
| AssetSlots.FlushNeverOverwrites | crates/voker-asset/src/assets.rs:72-75 | a flush writes only to empty slots and loses no stored value |
| AssetSlots.AcceptedExactlyWhenActive | crates/voker-asset/src/assets.rs:96-152 | an insertion on a returned index succeeds exactly when the index is active, whatever was reserved during and after its flush; removals find nothing for others |
| AssetSlots.StoredExactlyWhenFlushed | crates/voker-asset/src/assets.rs:66-119 | for any index, the table stores it exactly when it is active and not waiting in the recycled list |
| AssetSlots.StepKeepsKnown | crates/voker-asset/src/assets.rs:66-76 | no reservation that slips in after the flush puts the index of the call in progress into the recycled list |
| AssetSlots.StoredIsActive | crates/voker-asset/src/assets.rs:78-82 | a lookup, which does not flush, only ever finds active indices |
| AssetSlots.ReturnedIsActive | crates/voker-asset/src/ident.rs:128-150 | the index a reservation returns was never returned before and is active |
| AssetSlots.ActiveUntilRecycled | crates/voker-asset/src/assets.rs:125-130 | a step ends the activity of an index if and only if it removes and recycles exactly that index after its flush readmitted it |
| AssetSlots.RetiredForever | crates/voker-asset/src/ident.rs:128-155 | an issued index that is not active does not become active by any step |
| AssetSlots.NoIndexIsIssuedTwice | crates/voker-asset/src/ident.rs:128-155 | in every interleaving no (index, generation) pair is returned twice and `len` counts the stored values |
| AssetSlots.RetiredOverRuns | crates/voker-asset/src/assets.rs:78-82 | over any run a retired index finds no value again |
| AssetSlots.DrainRun | crates/voker-asset/src/assets.rs:72-75 | popping one by one is the drain the whole-call view uses |
| AssetSlots.CallIsARun | crates/voker-asset/src/assets.rs:96-152 | an undisturbed call on an allocated index is one of the interleavings and does not panic |
| AssetSlots.FlushFindsTheActive | crates/voker-asset/src/assets.rs:66-76 | after a flush the table knows exactly the active indices and every value is unchanged |
| AssetSlots.CallValues | crates/voker-asset/src/assets.rs:96-152 | a call changes the value of its own index only: stored if inserted while active, gone otherwise |
| AssetSlots.CallAnswers | crates/voker-asset/src/assets.rs:96-152 | a removal answers what a lookup would have found just before it; an insertion says whether there was a value, or is refused with the generation active in the slot, or as removed exactly if none is |
| AssetSlots.InsertedIsWhatIsRemoved | crates/voker-asset/src/assets.rs:96-152 | over every interleaving the asset of an accepted insertion is what the next removal of its index answers, and the removal after that answers nothing |
| AssetSlots.ValueIsKeptOverRuns | crates/voker-asset/src/assets.rs:66-152 | over every run in which no call on an index ends, the value under it stays |
| AssetSlots.CallActive | crates/voker-asset/src/assets.rs:121-152 | a call changes activity only by recycling its own index |
| AssetSlots.ReserveIsARun | crates/voker-asset/src/ident.rs:128-150 | an undisturbed reservation is one of the interleavings and returns a fresh active index |
| AssetSlots.ReserveLeavesOthers | crates/voker-asset/src/ident.rs:128-150 | a reservation changes no other index's activity |
| AssetCalls.SettleKeeps | crates/voker-asset/src/assets.rs:66-76 | a flush at any moment keeps the invariant, the active indices and the stored values |
| AssetCalls.FlushStepSettlesAlike | crates/voker-asset/src/assets.rs:66-76 | the steps of a flush are invisible through the next flush |
| AssetCalls.PushSettlesAlike | crates/voker-asset/src/ident.rs:136-140 | a reservation commutes with a flush |
| AssetCalls.FinishOnRecycled | crates/voker-asset/src/assets.rs:96-152 | on an index recycled since the flush the last step does nothing, as a whole call does only when it is a removal that keeps the slot |
| AssetCalls.FinishIsTheCall | crates/voker-asset/src/assets.rs:96-152 | the last step of a call has the effect of the whole call made at that moment if and only if its index is not in the recycled list or it is a removal that keeps the slot; then the answers agree too, and otherwise an insertion is refused that would have succeeded |
| AssetCalls.CallsAreAtomic | crates/voker-asset/src/assets.rs:66-152 | under every interleaving with reservations a step is invisible, a reservation or, for a last step, the whole call, if and only if it is not the last step of a call on an index recycled since its flush |
| AssetCalls.RunsAreAtomic | crates/voker-asset/src/assets.rs:66-152 | over every run the settled states are those of atomic calls and reservations if and only if no call ends on an index recycled since its flush |
| AssetCalls.ReturnedIsNeverEarly | crates/voker-asset/src/ident.rs:128-150 | calls on indices that a reservation has returned meet that condition |
| AssetCalls.EarlyInsertionIsRefused | crates/voker-asset/src/assets.rs:96-119 | a run that does not: whenever a reservation pushes the index of an insertion between its flush and its end, the insertion is refused that a whole call would make |
| AssetStore.OpKeepsInv | crates/voker-asset/src/assets.rs:218-492 | every operation keeps the accounts: live and pending handles of an index equal its forgotten ones plus, while active, its counter and one; other threads' steps come between operations here and inside them in AssetThreads |
| AssetStore.OtherKeepsInv | crates/voker-asset/src/handle.rs:55-65 | reservations by other threads keep the accounts |
| AssetStore.AddKeepsInv | crates/voker-asset/src/assets.rs:268-272 | `add` keeps the accounts; as a reservation and an insertion with other steps between them it is covered by AssetThreads |
| AssetStore.ResolveKeepsInv | crates/voker-asset/src/assets.rs:288-312 | a further handle is matched by the counter, and none is made when the counter is full |
| AssetStore.RemoveQuietlyKeepsInv | crates/voker-asset/src/assets.rs:411-419 | a removal keeps the accounts by moving the forgotten counter to the unbacked handles |
| AssetStore.DrainKeepsInv | crates/voker-asset/src/assets.rs:431-450 | a drop event uses up one of the counter or recycles the slot, and the accounts stay balanced |
| AssetStore.IssuedIsUsable | crates/voker-asset/src/assets.rs:228-240 | no operation on a returned index panics, retired or not |
| AssetStore.RecycledExactlyByTheLastDrop | crates/voker-asset/src/assets.rs:431-450 | an active slot is recycled if and only if a drop event reaches it with its counter at zero |
| AssetStore.RecyclingLeavesOnlyForgottenHandles | crates/voker-asset/src/assets.rs:431-450 | when a slot is recycled the handles left for it are exactly the forgotten ones |
| AssetStore.UnusedIsRecycled | crates/voker-asset/src/assets.rs:452-470 | an index without live handle and without pending drop is not active |
| AssetStore.LifeOfAnIndex | crates/voker-asset/src/assets.rs:218-470 | under every operation an issued index stays issued, a retired one retired, and a newly issued one is active |
| AssetStore.RetiredStaysRetired | crates/voker-asset/src/assets.rs:218-470 | over every run a retired index stays retired |
| AssetStore.BackingWhileActive | crates/voker-asset/src/assets.rs:411-450 | while an index is active, an operation adds to its handles without backing exactly the counter it forgets |
| AssetStore.BackingOverRuns | crates/voker-asset/src/assets.rs:411-450 | over a run that leaves an index active its handles without backing grow if and only if a removal forgot its positive counter |
| AssetStore.HandlesMatchTheCounter | crates/voker-asset/src/assets.rs:288-312 | for every run and every index active at its end, handles plus pending drops are counter plus one if and only if no removal of the run forgot a positive counter of that index |
| AssetStore.RecycledAtMostOnce | crates/voker-asset/src/assets.rs:431-450 | the steps of a run that take an index out of use number one if it was issued and retired by its end, else none |
| AssetStore.HandlesKeepTheirSlot | crates/voker-asset/src/assets.rs:288-312 | over every run an issued slot is recycled at most once, and exactly once when its handles are dropped and drained; if its counter was never forgotten, if and only if they are, and it is in use exactly while a handle or pending drop is left |
| AssetStore.ForgettingRecyclesUnderALiveHandle | crates/voker-asset/src/assets.rs:411-450 | from every state with a stored asset, its handle, no duplicates and an empty channel: resolve, remove, drop, drain recycles the slot under a live handle |
| AssetStore.LogOne | crates/voker-asset/src/assets.rs:218-240 | an event in order extends a well-ordered log and its replay |
| AssetStore.InsertIndexKeepsTruth | crates/voker-asset/src/assets.rs:228-240 | an insertion by index queues `Added` or `Modified` exactly as the asset was absent or present, and nothing when refused |
| AssetStore.InsertTells | crates/voker-asset/src/assets.rs:228-240 | the event of an insertion is `Added`, `Modified` or none exactly as the asset was absent, present or the index not active |
| AssetStore.InsertUuidKeepsTruth | crates/voker-asset/src/assets.rs:218-226 | the same for UUIDs |
| AssetStore.RemoveKeepsTruth | crates/voker-asset/src/assets.rs:422-429 | `Removed` is queued exactly when something was removed |
| AssetStore.DrainKeepsTruth | crates/voker-asset/src/assets.rs:431-450 | the drop path's `Unused` and `Removed` keep the log truthful |
| AssetStore.UntrackedKeepsTruthOnlyIfAbsent | crates/voker-asset/src/assets.rs:411-419 | an untracked removal keeps the log truthful if and only if nothing was stored |
| AssetStore.OpKeepsTruth | crates/voker-asset/src/assets.rs:218-492 | every other operation keeps the log truthful |
| AssetStore.RecordedKeys | crates/voker-asset/src/assets.rs:480-489 | recording a batch leaves the keys the whole log calls for |
| AssetStore.RecordedTick | crates/voker-asset/src/changes.rs:18-34 | a recorded id carries the delivery's tick if the batch mentions it and its old tick otherwise |
| AssetStore.OpKeepsMirror | crates/voker-asset/src/assets.rs:472-492 | `AssetChanges` always mirrors the delivered part of the log |
| AssetStore.TheLogTellsTheTruth | crates/voker-asset/src/assets.rs:472-492 | in every run without effective untracked removal: replaying the log gives exactly the stored ids, events are in order, and after delivery `AssetChanges` has exactly the stored ids |
| AssetStore.MisledStaysMisled | crates/voker-asset/src/assets.rs:218-492 | once the log lists an id that is gone, no operation makes it true again |
| AssetStore.TheLogIsTrueExactlyWhenTracked | crates/voker-asset/src/assets.rs:411-429 | for every run the log is true at its end if and only if nothing was removed without its event |
| AssetStore.StepTells | crates/voker-asset/src/assets.rs:218-450 | the last event an operation queues about an id says whether it is stored afterwards, and without one nothing changed for it |
| AssetStore.StaleStep | crates/voker-asset/src/assets.rs:411-450 | an id is listed though gone after an operation if and only if the operation removed it silently, or it was so before and the operation queued no event about it |
| AssetStore.ChangesAreRightExactly | crates/voker-asset/src/assets.rs:472-492 | for every run and every id, after delivery `AssetChanges` lists the id exactly if it is stored, if and only if no silent removal of it is left without a later event about it |
| AssetStore.OpValue | crates/voker-asset/src/assets.rs:218-450 | for every operation and id: an accepted insertion stores its asset, by index or UUID, a removal or the last drop leaves nothing, and nothing else changes a value |
| AssetStore.GetFindsTheLastWritten | crates/voker-asset/src/assets.rs:358-363 | over every run what `get` finds is the asset of the last accepted insertion, unless it was removed or its slot recycled since |
| AssetThreads.FinishIsMatched | crates/voker-asset/src/assets.rs:228-450 | an operation whose table call ran among steps of other threads ends as the atomic operation does, slots, counters, handles and events, if and only if its index was not recycled since its flush or it keeps the slot |
| AssetThreads.ThreadIsMatched | crates/voker-asset/src/handle.rs:55-65 | a reservation step inside another thread's call has the effect it has outside |
| AssetThreads.DropIsMatched | crates/voker-asset/src/handle.rs:123-133 | so has a dropped handle |
| AssetThreads.MoveIsMatched | crates/voker-asset/src/assets.rs:218-492 | every other move is matched by one atomic operation or by none |
| AssetThreads.ConcurrentCallsAreAtomic | crates/voker-asset/src/assets.rs:218-492 | every interleaving without such an ending ends with the same values under all ids, and the handles, counters, events and changes, of an atomic run, the one with each operation at its last step |
| AssetThreads.ReturnedCallsArePunctual | crates/voker-asset/src/ident.rs:128-150 | interleavings whose calls are on indices that a reservation has returned have no such ending |
| AssetThreads.CarriesOver | crates/voker-asset/src/assets.rs:218-492 | the moves that forget a counter, remove silently or retire an index are those that do in the atomic run |
| AssetThreads.ConcurrentHandlesMatchTheCounter | crates/voker-asset/src/assets.rs:288-312 | over every such interleaving handles plus pending drops of an index in use are counter plus one if and only if no move forgot a positive counter of it |
| AssetThreads.ConcurrentHandlesKeepTheirSlot | crates/voker-asset/src/assets.rs:431-470 | over every such interleaving a slot is retired at most once, and exactly once when its handles are dropped and drained; if no move forgot its counter, if and only if they are, and it is in use exactly while a handle or pending drop is left |
| AssetThreads.ConcurrentLogIsTrue | crates/voker-asset/src/assets.rs:472-492 | over every such interleaving the log is true if and only if no move removed anything without its event |
| AssetTables.AssetIndexAllocator.Reserve | crates/voker-asset/src/ident.rs:128-150 | the method takes the reservation step and returns its index |
| AssetTables.AssetTable.Flush | crates/voker-asset/src/assets.rs:66-76 | the loop leaves the flushed storage and an empty list |
| AssetTables.AssetTable.Lookup | crates/voker-asset/src/assets.rs:78-82 | a value is found exactly under its index and generation |
| AssetTables.AssetTable.Insert | crates/voker-asset/src/assets.rs:96-119 | the method takes the insertion step, with its two errors told apart |
| AssetTables.AssetTable.RemoveInternal | crates/voker-asset/src/assets.rs:121-152 | the method takes the removal step, recycling or not, and returns the value a lookup would have found |
| AssetsResource.Assets.ReserveHandle | crates/voker-asset/src/handle.rs:55-65 | a new handle to a slot without a value; the accounts stay balanced |
| AssetsResource.Assets.InsertWithIndex | crates/voker-asset/src/assets.rs:228-240 | the insertion step with its event and result |
| AssetsResource.Assets.InsertWithUuid | crates/voker-asset/src/assets.rs:218-226 | the asset is stored under the UUID whatever was there, which is returned, and the event says which |
| AssetsResource.Assets.Add | crates/voker-asset/src/assets.rs:268-272 | the insertion into the new slot never fails, so the `unwrap` cannot panic, and the asset is stored |
| AssetsResource.Assets.Insert | crates/voker-asset/src/assets.rs:247-262 | succeeds if and only if the id is a UUID or an active index |
| AssetsResource.Assets.ContainsAsset | crates/voker-asset/src/assets.rs:276-281 | reports exactly whether the id is stored |
| AssetsResource.Assets.GetAsset | crates/voker-asset/src/assets.rs:358-363 | returns exactly what is stored under the id |
| AssetsResource.Assets.ResolveStrongHandle | crates/voker-asset/src/assets.rs:288-312 | a handle is made exactly for a stored index whose counter is not full |
| AssetsResource.Assets.DropGuard | crates/voker-asset/src/assets.rs:523-529 | one `Modified` event is queued |
| AssetsResource.Assets.TakeByIndex | crates/voker-asset/src/assets.rs:413-416 | the counter is dropped whatever it holds, then the value is taken and returned |
| AssetsResource.Assets.RemoveUntracked | crates/voker-asset/src/assets.rs:411-419 | returns the stored value, if any, and queues nothing |
| AssetsResource.Assets.Remove | crates/voker-asset/src/assets.rs:422-429 | takes the tracked removal step and returns the stored value |
| AssetsResource.Assets.DropStrongHandle | crates/voker-asset/src/handle.rs:123-133 | the handle moves to the drop channel |
| AssetsResource.Assets.Recycle | crates/voker-asset/src/assets.rs:443-449 | the slot is freed and `Unused`, then `Removed` if a value existed, are queued |
| AssetsResource.Assets.UseDuplicate | crates/voker-asset/src/assets.rs:432-441 | one of a positive counter is used up, and a counter at zero is cleared |
| AssetsResource.Assets.ProcessDropEvent | crates/voker-asset/src/assets.rs:431-450 | takes the drain step; cannot panic for any index in the channel |
| AssetsResource.Assets.TrackAssets | crates/voker-asset/src/assets.rs:452-470 | drains the channel by as many drain steps as it held events |
| AssetsResource.AssetChanges.Record | crates/voker-asset/src/assets.rs:480-488 | one delivered event changes the recorded tick of its id as its kind says |
| AssetsResource.Assets.HandleAssetEvents | crates/voker-asset/src/assets.rs:472-492 | records every queued event in order and delivers the queue unchanged |
| Ticks.WrappedAgeIsAge | crates/voker-ecs/src/tick.rs:106-108 | wrapped subtraction is the true age while that is below 2^32 |
| Ticks.CheckedIsEffective | crates/voker-ecs/src/tick.rs:152-158 | a sweep moves every stored tick to the time it stands for, clamped at the largest age |
| Ticks.NewerAgrees | crates/voker-ecs/src/tick.rs:134-146 | with timely sweeps, a write is reported if and only if it is later than the last run and younger than the largest age |
| Ticks.SweepGapBound | crates/voker-ecs/src/tick.rs:23-26 | every tick a sweep can leave keeps its age until the next sweep if and only if the gap is at most 2 * CHECK_CYCLE + 1 |
| Ticks.LateSweepMisreports | crates/voker-ecs/src/tick.rs:134-158 | one tick beyond that gap a write older than the last run is reported as newer |
| Ticks.TrackedSweepIsRecent | crates/voker-ecs/src/world/world.rs:180-240 | calls at most CHECK_CYCLE / 2 + 1 apart, wherever they fall, keep sweeps at most 2 * CHECK_CYCLE + 1 apart although only some calls sweep |
| Ticks.CallKeepsTracking | crates/voker-ecs/src/world/world.rs:230-240 | what the last call tells about the last sweep survives the next call, across wrap-around |
| Ticks.CallGapIsTight | crates/voker-ecs/src/world/world.rs:230-240 | for every larger distance there is a schedule of calls within it that loses the age of the oldest tick its first sweep leaves |
| Ticks.RegularCallsSweepInTime | crates/voker-ecs/src/world/world.rs:230-240 | of calls CHECK_CYCLE apart, from any start and across wrap-around, every one sweeps but the first and every eighth after it, so of two in a row one does |
| Ticks.SweepsAreNotSpacedOut | crates/voker-ecs/src/world/world.rs:230-240 | of two calls less than CHECK_CYCLE apart, if the first sweeps the second does if and only if the tick has not wrapped around between them |
| Ticks.BaselineComparesWrappedAge | crates/voker-ecs/src/tick.rs:134-146 | against the unswept baseline a write is reported if and only if it is younger than the largest age and than the baseline's wrapped age |
| Ticks.BaselineAgreesExactly | crates/voker-ecs/src/world/world.rs:157-173 | that is right for every write if and only if the baseline is younger than 2^32 ticks or its wrapped age has reached the largest age |
| Ticks.World.AdvanceTick | crates/voker-ecs/src/world/world.rs:141-143 | time moves by one and the previous tick is returned, across wrap-around; the run stays timely exactly while the last sweep is at most 2 * CHECK_CYCLE + 1 ticks ago |
| Ticks.World.AddMarker | crates/voker-ecs/src/world/methods/resource.rs:13-26 | what is inserted now stands for the present |
| Ticks.World.AddSystem | crates/voker-ecs/src/system/function.rs:301-312 | a system initialised now takes the world's baseline and stands for its time exactly if the last sweep would have kept it |
| Ticks.World.Stamp | crates/voker-ecs/src/system/function.rs:336-354 | a write or a recorded run stands for the tick its system was given at its start, exactly if the last sweep would have kept that, and no other marker changes |
| Ticks.World.CheckTicks | crates/voker-ecs/src/world/world.rs:180-240 | whether it sweeps or not, no marker comes to stand for another time |
| Ticks.World.Sweep | crates/voker-ecs/src/world/world.rs:180-228 | the loop over the stored ticks leaves every marker standing for its time |
| Ticks.World.ResetLastRun | crates/voker-ecs/src/world/world.rs:157-173 | the baseline becomes the tick before the new present, and markers keep their meaning |
| Ticks.World.IsChanged | crates/voker-ecs/src/tick.rs:134-146 | in every reachable state with timely sweeps, detection on any two faithful markers, by a system given any tick since the last sweep, agrees with unbounded time |
| Ticks.World.IsChangedSinceBaseline | crates/voker-ecs/src/tick.rs:134-146 | in every such state detection against the world's baseline compares with its wrapped age, and agrees with unbounded time while the baseline is younger than 2^32 ticks |
| AssetPathText.ParseInternal | crates/voker-asset/src/path.rs:52-138 | the one-pass character loop computes the grammar's answer: source up to the first `://`, label after the last `#`, and the same error |
| AssetPathText.PrintAfterParse | crates/voker-asset/src/path.rs:586-597 | printing what was parsed gives the string back |
| AssetPathText.ParsedIsWellFormed | crates/voker-asset/src/path.rs:52-138 | the parser only yields well-formed triples |
| AssetPathText.ParseAfterPrint | crates/voker-asset/src/path.rs:52-138 | parsing a printed well-formed triple gives it back |
| AssetPathText.ParseAndPrintAreInverse | crates/voker-asset/src/path.rs:52-138 | a string parses to a triple if and only if the triple is well formed and prints to the string |
| AssetPathText.RoundTripExactlyForWellFormed | crates/voker-asset/src/path.rs:586-597 | printing and parsing gives a triple back if and only if it is well formed |
| AssetPathText.ErrorsMean | crates/voker-asset/src/path.rs:52-138 | which strings are refused with which error, each by where its `#` and `://` stand |
| AssetPathComponents.ComponentsOfRender | crates/voker-asset/src/utils.rs:157-179 | a normalised path written out has exactly its components again |
| AssetPathComponents.NormalFormsRender | crates/voker-asset/src/utils.rs:157-179 | so does every normal form of a path of valid names |
| AssetPathComponents.ResolvedPathRenders | crates/voker-asset/src/path.rs:500-504 | a resolved path has the root, components and final slash of its own text |
| AssetPathComponents.ComponentsOfJoin | crates/voker-asset/src/path.rs:477-516 | for all texts, joining by a slash has the root and components of the first, then those of the second without a leading `.`, and ends in a slash exactly if the second is empty or does |
| AssetPathComponents.ComponentsBehindRoot | crates/voker-asset/src/path.rs:485-494 | a leading slash is the root and nothing else |
| AssetPathComponents.ComponentsOfOnePiece | crates/voker-asset/src/utils.rs:157-179 | a text without slash is one component, or none if empty |
| AssetPathComponents.EmptyPiecesVanish | crates/voker-asset/src/utils.rs:157-179 | repeated slashes and an inner `.` make no difference |
| AssetPathComponents.DotSlashIsNothing | crates/voker-asset/src/path.rs:388-394 | a reference `./t` resolves as `t` for every base, in both modes |
| AssetPathResolve.NormalizePath | crates/voker-asset/src/utils.rs:157-179 | the loop computes the normal form |
| AssetPathResolve.NormalizeKeepsMeaning | crates/voker-asset/src/utils.rs:157-179 | from every directory the normal form leads where the path leads, or nowhere likewise |
| AssetPathResolve.NormalizeIsCanonical | crates/voker-asset/src/utils.rs:157-179 | a normal form is some `..` followed by names |
| AssetPathResolve.SameNormalFormIffSameMeaning | crates/voker-asset/src/utils.rs:157-179 | two paths have the same normal form if and only if they lead to the same place from every directory |
| AssetPathResolve.NormalizeIsIdempotent | crates/voker-asset/src/utils.rs:157-179 | normal forms are normal |
| AssetPathResolve.NormalizeOfPieces | crates/voker-asset/src/utils.rs:157-179 | pieces may be normalised before they are joined |
| AssetPathResolve.UpCountIsMaxExcess | crates/voker-asset/src/utils.rs:157-179 | the leading `..` of the normal form number the largest excess of `..` over names in any prefix |
| AssetPathResolve.IsUnapproved | crates/voker-asset/src/path.rs:559-577 | true if and only if the path is rooted or some prefix has more `..` than names |
| AssetPathResolve.UnapprovedMeansLeavingTheFolder | crates/voker-asset/src/path.rs:559-577 | that is: the walk leaves the source folder, and the normal form starts with `..` |
| AssetPathResolve.ResolveFromParts | crates/voker-asset/src/path.rs:477-516 | the assembled path is the base's walk followed by the reference's, with the source and label rules of both modes |
| AssetPathResolve.JoinIsAssociative | crates/voker-asset/src/path.rs:477-516 | joining and normalising is associative |
| AssetPathResolve.ResolveComposes | crates/voker-asset/src/path.rs:401-418 | for every base and two references of which the second does not start over, resolving twice is resolving the resolved reference if and only if they do not cancel to a bare label over a base that is not normalised |
| AssetPathResolve.CancellingShowsTheBase | crates/voker-asset/src/path.rs:401-408 | where the references cancel to a bare label, they compose if and only if the base is normalised or both are bare labels |
| AssetPathResolve.StartingOverComposesIffAbsorbed | crates/voker-asset/src/path.rs:487-504 | if the second starts over, for every base, if and only if the base disappears under it, or is empty where only a label is left |
| AssetPathResolve.UnnormalisedBaseDoesNotCompose | crates/voker-asset/src/path.rs:401-408 | an input for the failing case of ResolveComposes |
| AssetPathResolve.EmbeddingComposes | crates/voker-asset/src/path.rs:439-456 | for every base, a first reference that names a file and a second that does not start over, embedded resolution composes if and only if they do not cancel to a bare label or the base is the normal form of its folder |
| AssetPathResolve.SlashNeverComposes | crates/voker-asset/src/path.rs:487-504 | if the first names a folder with a slash at its end and the second is relative and leaves a path, it never composes |
| AssetPathResolve.ExcessOfJoined | crates/voker-asset/src/utils.rs:157-179 | however paths are joined and normalised, the levels climbed less those descended add up |
| AssetPathResolve.JoinCanonical | crates/voker-asset/src/utils.rs:157-179 | joined normal forms: the second's `..` use up the first's names |
| AssetPathStrings.ResolveInternal | crates/voker-asset/src/path.rs:518-531 | resolves a string, with the shortcut behind a leading `#` and the parser's errors; what the parts of the string come to is ComponentsOfJoin and ErrorsMean |
| AssetPathStrings.BareLabelsStartWithHash | crates/voker-asset/src/path.rs:523-530 | a string without leading `#` never reaches the assembly as a bare label |
| AssetPathStrings.ResolvingAStringIsParsing | crates/voker-asset/src/path.rs:458-475 | resolving a string equals parsing it and resolving the result if and only if it has no leading `#` or the rest is a label the parser accepts |
| AssetPathStrings.DotSlashString | crates/voker-asset/src/path.rs:388-394 | so does the string `./t` without source, if and only if `t` does not start with `#` |
| AssetPathStrings.EmbeddedStringsUseTheFolder | crates/voker-asset/src/path.rs:477-516 | a string resolved in embedded mode resolves against the base without its last component, or against the base itself if that ends in a slash |
| Timers.TickKeepsTheBooks | crates/voker-time/src/timer.rs:190-228 | a running tick of a repeating timer never gains time and loses none if and only if nothing saturates and no cast cuts; elapsed stays below the duration |
| Timers.FinishedMeans | crates/voker-time/src/timer.rs:190-228 | after any tick a repeating timer is finished exactly if its duration passed in that tick and a one-shot timer from then on; a paused tick finishes nothing and moves no time |
| Timers.ShortTicksAreExact | crates/voker-time/src/timer.rs:205-220 | the guard holds for durations up to 2^64 ns and fewer than 2^32 finishes |
| Timers.ZeroDurationCountsTicks | crates/voker-time/src/timer.rs:205-220 | over every run a repeating timer of zero duration reports 2^32 - 1 finishes for each running tick, whatever time passed, and keeps no time |
| Timers.LongTickLosesItsFinishes | crates/voker-time/src/timer.rs:206-213 | a tick of 2^32 periods reports no finish |
| Timers.RunKeepsTheBooks | crates/voker-time/src/timer.rs:190-228 | over every run of ticks and pauses the unpaused time is duration times finishes plus elapsed if and only if every tick met its guard |
| Timers.SplittingDoesNotMatter | crates/voker-time/src/timer.rs:190-228 | runs with the same unpaused time end with the same finishes and elapsed time |
| Timers.FinishedStaysFinished | crates/voker-time/src/timer.rs:200-202 | a finished one-shot timer stays as it is and reports nothing more |
| Timers.OnceFinishesOnce | crates/voker-time/src/timer.rs:221-224 | over every run a one-shot timer shows the passed time up to its duration and reports one finish exactly when it was ticked while running and the duration has passed |
| Timers.Stopwatch.Tick | crates/voker-time/src/stopwatch.rs:70-77 | elapsed time grows by the delta, saturating, unless paused |
| Timers.Timer.Tick | crates/voker-time/src/timer.rs:190-228 | the method takes the tick step the laws are about |
| Timers.Timer.Reset | crates/voker-time/src/timer.rs:159-165 | elapsed time, finished state and finish count are cleared and nothing else |
| Timers.Timer.SetMode | crates/voker-time/src/timer.rs:132-139 | a finished one-shot timer made repeating starts over and stays finished for the current tick |
| Timers.Timer.Finish | crates/voker-time/src/timer.rs:111-116 | the remaining time is ticked: a running timer short of its duration finishes exactly once in this tick, any other sees a tick of no time |
| Timers.Timer.AlmostFinish | crates/voker-time/src/timer.rs:118-123 | it stops one nanosecond short, and a timer at or beyond its duration sees a tick of no time |
| FixedTime.WrappedIsRemainder | crates/voker-time/src/time.rs:179-183 | the wrapped time is the elapsed time modulo the period if and only if the remainder fits 64 bits |
| FixedTime.LoopConserves | crates/voker-time/src/fixed.rs:118-143 | whatever the schedule changes, the loop ends below one timestep, conserves elapsed plus overstep plus discarded, and its runs' deltas are the elapsed time added |
| FixedTime.ConstantTimestep | crates/voker-time/src/fixed.rs:118-143 | with a constant timestep there are floor(overstep / timestep) runs and run i sees i + 1 timesteps gone |
| FixedTime.EachRunSpendsItsTimestep | crates/voker-time/src/fixed.rs:118-143 | when the runs set the timestep, each spends the one in force by then, and without discarding there are as many runs as the overstep pays for |
| FixedTime.FramesConserve | crates/voker-time/src/fixed.rs:118-143 | over any frames fixed time plus overstep plus discarded is the virtual time that came in |
| FixedTime.SteadyFrame | crates/voker-time/src/fixed.rs:118-143 | a frame whose timestep the runs leave alone runs floor(overstep / timestep) times and adds one timestep per run |
| FixedTime.FrameRateDoesNotMatter | crates/voker-time/src/fixed.rs:118-143 | with a constant timestep steps, elapsed time and overstep depend on the total virtual time only, not on how it is cut into frames |
| FixedTime.TimeFixed.AdvanceBy | crates/voker-time/src/time.rs:42-52 | delta, elapsed and wrapped time move together |
| FixedTime.TimeFixed.Expend | crates/voker-time/src/fixed.rs:118-128 | a timestep is spent exactly when there is one, moving from overstep to elapsed time without loss |
| FixedTime.TimeWorld.RunWhileExpending | crates/voker-time/src/fixed.rs:135-140 | the loop terminates in the state, and with the clocks seen, that the loop law is about |
| FixedTime.TimeWorld.RunFixedMainSchedule | crates/voker-time/src/fixed.rs:131-143 | the loop terminates as the frame law says; the generic clock is the fixed one in every run and the virtual one afterwards; without a schedule overstep only accumulates |
| PluginGroups.PositionExcept | crates/voker-app/src/plugin.rs:391-396 | finds the first other occurrence, or there is none |
| PluginGroups.MoveToEndKeeps | crates/voker-app/src/plugin.rs:187-192 | the moved type is last, listed once, and all others keep their relative order |
| PluginGroups.MoveBesideKeeps | crates/voker-app/src/plugin.rs:249-302 | the moved type stands right beside its target, listed once, and all others keep their relative order |
| PluginGroups.PlaceBesideIsDetermined | crates/voker-app/src/plugin.rs:249-302 | these properties leave one possible list |
| PluginGroups.AddGroupKeeps | crates/voker-app/src/plugin.rs:206-218 | the added types come last in their own order and the others keep theirs |
| PluginGroups.EditKeeps | crates/voker-app/src/plugin.rs:170-330 | every edit keeps the list free of repetition and equal to the map's keys, and moves only its own types |
| PluginGroups.EveryBuilderIsConsistent | crates/voker-app/src/plugin.rs:170-330 | over every sequence of edits consistency holds and types no edit named keep their relative order |
| PluginGroups.EditEntries | crates/voker-app/src/plugin.rs:170-404 | a successful add leaves the type enabled with the given plugin, a set changes the plugin only, enabling changes the flag only, a group brings its entries, and all other entries stay |
| PluginGroups.EditPlaces | crates/voker-app/src/plugin.rs:187-302 | an added type is last or right beside its target, an added group last in its own order, and setting or enabling moves nothing |
| PluginGroups.InsertThenRemove | crates/voker-app/src/plugin.rs:382-404 | inserting first and removing the older place second is removing first and inserting second |
| PluginGroups.OfferedOnceInOrder | crates/voker-app/src/plugin.rs:337-364 | every enabled plugin is offered, and any two in the order of the list and so once |
| PluginGroups.OfferedExactly | crates/voker-app/src/plugin.rs:337-364 | exactly the enabled types are offered, with their plugins |
| PluginGroups.OfferedAsLastGiven | crates/voker-app/src/plugin.rs:170-364 | over every sequence of edits a plugin is offered with the value last given if and only if it was added and nothing has disabled it since |
| PluginGroups.PluginGroupBuilder.UpsertPluginEntryState | crates/voker-app/src/plugin.rs:382-404 | the entry is stored, and exactly the first other occurrence goes if the type was known |
| PluginGroups.PluginGroupBuilder.Add | crates/voker-app/src/plugin.rs:187-192 | the insert-then-remove edit is the move to the end, with the entry enabled (EditEntries) |
| PluginGroups.PluginGroupBuilder.TryAdd | crates/voker-app/src/plugin.rs:195-201 | fails exactly on a known type, changing nothing |
| PluginGroups.PluginGroupBuilder.AddGroup | crates/voker-app/src/plugin.rs:206-218 | the loop merges both groups as the reference says, and every listed type still has its entry when it is taken, so the `expect` never fires |
| PluginGroups.PluginGroupBuilder.TryAddBesideOverwrite | crates/voker-app/src/plugin.rs:249-302 | both overwrite edits are the move beside the target, including a type placed beside itself; fails exactly on an unknown target |
| PluginGroups.PluginGroupBuilder.TryAddBeside | crates/voker-app/src/plugin.rs:237-246 | fails exactly on a known type or an unknown target, changing nothing |
| PluginGroups.PluginGroupBuilder.TrySet | crates/voker-app/src/plugin.rs:170-178 | replaces the plugin and keeps its place and whether it is enabled |
| PluginGroups.PluginGroupBuilder.SetEnabled | crates/voker-app/src/plugin.rs:308-330 | changes the flag and keeps place and plugin |
| PluginGroups.PluginGroupBuilder.IndexOf | crates/voker-app/src/plugin.rs:366-368 | the position of the type, or none |
| PluginGroups.PluginGroupBuilder.Build | crates/voker-app/src/plugin.rs:337-364 | offers the enabled plugins in order and once each, up to and including the first on which the app panics |

## Left out

- Memory ordering: atomics are sequentially consistent in the models of the registration list and of the allocator.
- The asset server, loaders, asset sources and all file input and output; handles managed by the asset server are not modelled, so the `process_handle_drop` test of `track_assets` is not either.
- Component hooks, observers, the panic guards and the raw pointers of the cloner; custom cloners other than that of `Children`.
- Entity ids in the cloner stand for a row with its generation and are not reused; that every id inside a component was handed out before is part of the world's validity. The inputs are not restricted.
- EntityCloning.EntityCloner.SpawnCloneBatch: which entities are cloned after an input collided with a new id is not described beyond that the result is not the expected one; the cloner still ends, empty and with a sound world.
- EntityCloning.EntityCloner.SpawnUninit: the entity allocator of voker-ecs is modelled as handing out consecutive new ids; reuse of freed rows is not.
- The panic on more than 2^31 assets and the overflow of a 32-bit generation; a reservation that would meet either is not a step.
- AssetTables.AssetTable.Insert: an index beyond the allocated range, which would be a panic, is excluded by a precondition; so it is for the removals and for the methods of `Assets` that take an id.
- AssetStore.OpKeepsInv: a call on `Assets` is one step; `ConcurrentCallsAreAtomic` carries its laws over to calls among the steps of other threads, except for calls that end on an index recycled since their flush, which no call on a returned index does (`ReturnedCallsArePunctual`). Other calls of `Assets` during a call are not modelled, since each borrows it exclusively.
- What is written through a mutable access is the caller's: `Touch` models the event of its guard and leaves the value.
- `get_or_insert`, the iterators over assets and the absent-`AssetChanges` case of `handle_asset_events`: they repeat modelled steps.
- `FullyLoaded` events exist in the model but no modelled operation queues one.
- Ticks.World.IsChanged: nothing in the source enforces a distance between calls of `check_ticks`, so what holds of markers is stated for runs whose sweeps are at most 2 * CHECK_CYCLE + 1 ticks apart, the exact bound of `SweepGapBound`. A system that starts before a sweep and detects after it is not covered.
- Ticks.World.AddSystem: a system initialised from a baseline older than a sweep allows carries no claim until it first runs.
- Windows paths, prefixes and non-Unicode path text; `Path` and `PathBuf` are modelled on Unix text.
- AssetPathResolve.ResolveFromParts: its precondition excludes bare labels, which both callers handle before; `BareLabelsStartWithHash` shows it for strings.
- AssetPathResolve.EmbeddingComposes: first references that are empty or whose last component is `.` or `..`, and second ones that start over, are covered for `Resolve` only.
- Floating-point caches of the clocks and the constructors from seconds and hertz.
- FixedTime.TimeFixed.AdvanceBy: the panic on elapsed times beyond `Duration::MAX` is excluded by a precondition, as it is for `AccumulateOverstep` and, for the sum of both, for the fixed loop.
- FixedTime.LoopConserves: the schedule may set the timestep and discard overstep but not add overstep, under which the loop need not end.
- PluginGroups.PluginGroupBuilder.Build: what the app does with an offered plugin is a parameter; plugin lifecycles and duplicate strategies are not modelled.
- PluginGroups.PluginGroupBuilder.SetEnabled: the panic on an unknown type is excluded by a precondition.
- Schedules, queries, reflection, tasks, rendering and input of the engine.
