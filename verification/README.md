# What maestro-llamacpp keeps

The router keeps a catalog of language models, starts a server process for the
one a request names, and unloads others to make room. This project models the
parts of it where a mistake would be hard to see, and proves what they keep.

**The admission protocol.** Each catalog entry has a slot behind its own lock;
one more lock serialises admissions; a reference count says whether anybody is
reading from a child. `Protocol` is a transition system for any number of
threads: requests on the fast path and under the admission lock, snapshots that
read one slot at a time, evictions that take one slot at a time, starts, relays,
touches, the reaper's two sweeps, `clear`, listings, the clock, and the deaths of
child processes. Taking a slot's lock, reading the strong count under it, and
acting on what was read are three steps, so everything else may happen between
them. `ProtocolInvariant`, `ProtocolKeeps` and `ProtocolBudget` show that every
step keeps one invariant; `ProtocolTheorems` and `Deadlock` draw the conclusions
for every state of every run; `ReadersAndClear` says exactly when a reader loses
its child, with a run in `ClearCutsReaders`. `RequestAlone` says what a request
comes to when the others stand still, `TickAlone` what a tick of the reaper
does. `Slots` is the class the threads
call, with the source's own loops, in which the other threads are an arbitrary
function that fills no slot; `Refinement` shows that each thing it does to one
slot under its lock -- handing out, rechecking, reading a row, taking for room,
for idleness or for dead, inserting, touching, clearing -- is a critical section
of the protocol. `Reaper` has the deadlines; `HoldTime` runs its ticks on the
slots, and `SweepsMissNothing` bounds the hold time while everybody else runs.

**The admission decision.** `Admission` holds the pure decision and the loop that
computes it; `AdmissionLaws` says what an answer means: when room can be made at
all, what is unloaded, and when a refusal or a wait is final.

**What a model costs.** `GgufBytes` and `Gguf` are the metadata reader,
`GgufWriter` the repository's writer of such files (the GGUF format of ggml's
`docs/gguf.md`, "File Structure"). `GgufRoundTrip` shows that reading undoes
writing, `GgufLayers` what becomes of a list with an element for each layer,
`GgufRobust` what holds of arbitrary bytes; `Utf8` is the decoding of
what is kept. `Cache` is the
key-value-cache arithmetic over what was read, `CacheFigures` the same from the
metadata's own numbers, `Shards` the file names of a split
model and what its files weigh, `Estimate` the sum.

**Three smaller pieces.** `RequestHead`, `RequestLaws` and `HeadRelay`: a request
head parsed, what that says of its lines, and the head rewritten and parsed again. `Discovery`: identifiers for files nobody declared.
`Calendar`: a date from a count of days. `Decimals`, `Text`, `Totals` and
`Wrappers` are what the modules share.

Entries are identified by their position in the catalog, times are nanoseconds
of one clock that does not go back, and strings inside a model file are the
bytes of their encoding.

## Where the code and its documentation differ

- The README of the repository (README.md:313-315) says that taking a slot drops the child inside the slot's own
  guard. The code lets the guard go first and then drops
  (src/proxy/slots/sweep.rs:81-87, src/proxy/slots/mod.rs:203-214); the model
  does as the code does.
- It also says (README.md:339) that `Retry-After` is sent exactly when waiting changes the
  answer. `Blocked`, which leads to it, only says that some on-demand entry is
  being read from; `AdmissionLaws.BlockedForAPermanentShortage` is a case in which
  no wait can help, and `AdmissionLaws.BlockedIsWorthWaitingFor` says exactly when
  one does.
- It promises (README.md:119-121) without a condition that a model is held for at
  most one and a half windows plus one sweep. A long sweep does not move later
  deadlines, but it waits for the children it kills (src/proxy/slots/sweep.rs:67-75), and when
  that takes more than half a window and a nanosecond, a child whose window passed
  just after the sweep had looked is held longer;
  `Reaper.AHungKillHoldsTheNextChildLonger` is such a case.
  `Reaper.HeldAtMostAWindowAndAHalfPlusOneSweep` says exactly when the promise is
  kept, and shorter windows than 200 ms, which the environment cannot ask for,
  break it too.
- A per-layer array is documented to be there "in file order", for a caller that
  needs to know which layer is which (src/gguf.rs:128-134). The code drops
  elements that are not non-negative integers, so later ones move up into other
  layers' places (src/gguf.rs:211-217); `GgufLayers.AListKeepsItsIntegers` says
  exactly when none does, `GgufLayers.ANegativeMovesTheOthersUp` is a case.
- `array` is said to reduce such a list to its largest element
  (src/gguf.rs:196-197), and a flag to read as nothing (src/gguf/bytes.rs:53-54).
  The list is kept too, and a flag reads as one or zero.

## Model

| member | source | states |
|---|---|---|
| `Admission.Admit` | src/admission.rs:82-159 | the loop over sorted candidates answers as the decision function does, for every limit, device reading and list of loaded entries |
| `Admission.Needed` | src/admission.rs:128-136 | how far the loop goes: every shorter prefix of the candidates was still short, and this one suffices unless no candidate is left |
| `AdmissionLaws.ColdestFirstIsStable` | src/admission.rs:120-126 | the candidates' order is the stable sort: ascending in last use, a permutation, ties in their old order |
| `AdmissionLaws.OrderIsColdestFirst` | src/admission.rs:118-126 | the order in which entries go is ascending in last use, entries last used at one time in the order they are loaded in, and holds just the idle on-demand entries other than the wanted one |
| `AdmissionLaws.ShareIsTotals` | src/admission.rs:108-135 | what is held and what unloading gives back are the sums of the entries' own costs, and on the device of their own shares there |
| `AdmissionLaws.SplitShares` | src/admission/room.rs:47-59 | giving back any part of what is loaded never saturates the subtraction, and is enough for `short` exactly when both sums fit |
| `AdmissionLaws.AdmitIsExact` | src/admission.rs:82-159 | an entry not loaded and within the whole budget is answered Fits or Unload if and only if some set of idle on-demand entries, unloaded, leaves room: what the others cost within the limit, and what is free on the device plus what these hold there enough |
| `AdmissionLaws.TheAnswer` | src/admission.rs:82-159 | which of the four answers it is, told from the entries: Fits when loaded or when there is room as it is, Unload when there is only once something goes, Blocked when not but an on-demand entry is being read from, Refuse otherwise |
| `AdmissionLaws.TheReason` | src/admission/room.rs:46-110 | which wording a Blocked or a Refuse takes, told from what stays whatever is unloaded: the whole budget first, then the ledger, permanent when the residents alone leave too little, and the device when the ledger would do |
| `AdmissionLaws.OneIdleEntry` | src/admission.rs:128-139 | without a limit, one idle entry is left, unloaded, or not enough, as what is wanted on the device is within what is free, within that and the entry's own share there, or above both |
| `AdmissionLaws.UnloadIsLeastColdPrefix` | src/admission.rs:120-139 | Unload names a nonempty prefix of the coldest-first candidates that suffices, and no shorter prefix does |
| `AdmissionLaws.AfterUnloadThereIsRoom` | src/admission.rs:128-139 | what stays loaded once the named entries are gone, and what their going frees, leave the room that was asked for |
| `AdmissionLaws.AfterUnloadItFits` | src/admission.rs:128-139 | once the named entries are gone and their device share is given back, the same request is answered Fits |
| `AdmissionLaws.IdleIsExact` | src/admission.rs:120-158 | with nobody reading, room can be made exactly when the wanted entry fits beside the residents and the device could be emptied enough |
| `AdmissionLaws.LedgerRefusalIsWordedPermanent` | src/admission/room.rs:62-110 | a Refuse for want of ledger always takes the "can never load" wording, and does so exactly when residents and wanted exceed the limit |
| `AdmissionLaws.LedgerRefusalIsPermanent` | src/admission.rs:138-158 | after it, no later set of on-demand entries, busy flags or device readings makes the answer Fits or Unload while the residents stay at no lower cost |
| `AdmissionLaws.KeptResidentsCost` | src/admission/room.rs:79-84 | residents that stay, at no lower cost, reserve no less of the budget, whatever else comes and goes |
| `AdmissionLaws.BlockedIsWorthWaitingFor` | src/admission.rs:138-158 | after Blocked, the same entries with every reader done are answered Unload if and only if the wanted entry fits beside the residents and the device could be emptied enough, and Refuse otherwise |
| `AdmissionLaws.BlockedForAPermanentShortage` | src/admission.rs:148-153 | a concrete case in which Blocked is answered although waiting can only end in Refuse |
| `AdmissionLaws.LeftIsWhatResidentsLeave` | src/admission/room.rs:84-100 | in a Refuse or a Blocked, the remainder the permanent wording names is what the residents leave exactly when they are within the limit; above it the 64-bit subtraction wraps |
| `AdmissionLaws.TheFigureCanWrap` | src/admission.rs:138-157 | one resident measured at 1200 under a limit of 1000: the figure has wrapped, in a Refuse and, beside a busy entry, in a Blocked |
| `AdmissionLaws.SumsFitIn64Bits` | src/admission.rs:108-135 | the sums stay within 64 bits for up to 2^20 entries of less than 2^40 MiB |
| `Idle.ExpiredNamesTheStale` | src/idle.rs:94-112 | exactly the on-demand entries nobody reads from, unused for the window, are named, coldest first |
| `SlotTable.CostIsTheLargestThatCounts` | src/admission/subject.rs:57-91 | a loaded entry's cost is the largest of its estimate and what was measured on the side that counts; off the device, host memory does not |
| `SlotTable.WhatIsWantedIsGivenBack` | src/admission/subject.rs:57-136 | an entry asks for its estimate, on the device too unless one of three flags keeps it off; not measured there it gives just that back, and what was measured otherwise |
| `SlotTable.SnapshotCoversLedger` | src/proxy/slots/view.rs:32-79 | a snapshot that covers the slots, as `Slots.Slots.Held` leaves it, never counts less than what they hold now, whatever is left out |
| `SlotTable.ShrinkingLowersTheLedger` | src/proxy/slots/mod.rs:203-214 | emptying slots, any of them, never raises what the ledger counts |
| `SlotTable.FillingAddsTheEstimate` | src/proxy/slots/mod.rs:170-179 | filling an empty slot adds its entry's estimate to the estimates and nothing else |
| `SlotTable.FillingAddsTheCost` | src/proxy/slots/mod.rs:170-179 | and exactly what its child costs to the ledger |
| `SlotTable.EmptyingGivesTheCostBack` | src/proxy/slots/sweep.rs:81-87 | emptying a slot takes at least what its child cost off the ledger, whatever else is emptied |
| `ProtocolInvariant.CodeIsPermitted` | src/proxy/slots/mod.rs:75-215 | every step of every thread's program does one of the few things its place allows: hand out, discard the dead, take the idle, insert, stamp, release, start |
| `ProtocolKeeps.StepIsSound` | src/proxy/loaded.rs:90-194 | what a step acts on is still so when it acts: the child is there, counted, and unread where it must be |
| `ProtocolKeeps.CountAfter` | src/proxy/loaded.rs:74-106 | the strong count moves by exactly what the handles and the slot moved by |
| `ProtocolKeeps.UnreadStaysUnread` | src/proxy/loaded.rs:184-194 | a child seen idle under its slot's lock gains no reader while the lock is held |
| `ProtocolBudget.DecisionLeavesRoom` | src/proxy/slots/room.rs:57-71 | a decision taken on a snapshot leaves room in the slots as they are when it is taken, although they were read at different moments |
| `ProtocolBudget.EvictionKeepsAccounts` | src/proxy/slots/mod.rs:203-214 | after each entry of the unload list is taken, or found gone, the rest of the list is still enough |
| `ProtocolBudget.FillingStaysWithinLimit` | src/proxy/slots/mod.rs:168-179 | inserting a child for which room was made keeps the estimates within the limit |
| `ProtocolBudget.FillingLeavesOneOvershoot` | src/proxy/slots/mod.rs:168-179 | and the costs within it but for that child's own excess over its estimate |
| `ProtocolBudget.ShrinkingKeepsOneOvershoot` | src/proxy/slots/mod.rs:203-214 | taking children out, that one or others, never makes the excess another's |
| `ProtocolBudget.StepKeepsInvariant` | src/proxy/slots/mod.rs:75-215 | every step of every interleaving keeps the whole invariant |
| `ProtocolBudget.RunsKeepTheInvariant` | src/proxy/slots/mod.rs:54-215 | the invariant holds in every state of every run, from empty slots on |
| `ProtocolTheorems.CountIsOnePlusReaders` | src/proxy/loaded.rs:60-76 | in every run a slotted child's strong count is one plus the number of its readers, so busy means read from |
| `ProtocolTheorems.ReadersKeepTheirChild` | src/proxy/loaded.rs:90-194 | as long as `clear` has taken no busy slot, the child a reader was handed is still in its own entry's slot (the converse is `ReadersAndClear.ReadersLoseTheirChildOnlyToClear`) |
| `ProtocolTheorems.InsertionFindsTheSlotEmpty` | src/proxy/slots/mod.rs:136-180 | whoever is about to insert holds the admission lock and finds the slot empty: one child per entry, none lost |
| `ProtocolTheorems.CostsOvershootByOneChild` | src/admission/subject.rs:74-83 | with a limit set, in every state of every run: the costs of all that is loaded are within the limit, or would be with one child counted at its estimate |
| `ProtocolTheorems.LedgerIsSafe` | src/proxy/slots/room.rs:46-101 | so the estimates of all occupied slots sum to at most the limit, always |
| `ProtocolTheorems.RoomIsThereWhenStarting` | src/proxy/slots/mod.rs:160-180 | from the moment `make_room` says yes until the insertion, the costs of what is loaded and the wanted estimate fit the limit |
| `ProtocolTheorems.OnlyInsertionsGrow` | src/proxy/slots/mod.rs:127-214 | any step but the insertion leaves each slot holding the child it held, or nothing |
| `ProtocolTheorems.EmptyingHasAReason` | src/proxy/slots/sweep.rs:25-88 | a slot is emptied in four ways only: eviction and the idle sweep, of an unread on-demand child, the latter a whole window after its last use and after the end of every finished relay; finding an unread child dead; and `clear`, where the child was unread exactly when the slot was not busy, and a cut is on record exactly when it was read from or one was on record before |
| `ProtocolTheorems.WhatWasSeenStillHolds` | src/proxy/loaded.rs:131-194 | between reading the count and acting on it, a child seen idle is still there and still unread |
| `ProtocolTheorems.LastUseCoversFinishedRelays` | src/proxy/answer.rs:138-152 | a slot's last use is never before the end of a finished relay of its child, because the touch comes before the handle goes |
| `RequestAlone.ARequestAlone` | src/proxy/slots/mod.rs:75-180 | in any state the system can be in, a request left alone is served the live child; or one started for it, exactly when room can be made, nothing unloaded when there is room already and otherwise idle on-demand children alone; or gives up when waiting is no use; or waits; and unloads nothing in these two cases |
| `RequestAlone.WithoutItsFile` | src/proxy/slots/mod.rs:154-161 | a request whose file is missing is answered with nothing unloaded |
| `RequestAlone.FailsToStart` | src/proxy/slots/mod.rs:170 | a start that fails changes nothing more, and frees the admission lock |
| `RequestAlone.AHeldRequest` | src/proxy/slots/room.rs:96-99 | who waits gives up at the deadline and until then looks again after 250 ms |
| `RequestAlone.ARelayAlone` | src/proxy/answer.rs:138-152 | a served request relays, stamps its slot with the time the relay ended and gives its handle up |
| `ReadersAndClear.ClearCutsExactlyTheBusy` | src/proxy/slots/mod.rs:103-110 | `clear`'s step on a filled slot empties it, and leaves a reader of that entry without its child if and only if the slot was busy, a test it does not make |
| `ReadersAndClear.ReadersLoseTheirChildOnlyToClear` | src/proxy/loaded.rs:30-76 | in every run, some reader has been without its child by now if and only if `clear` has taken a busy slot by now |
| `ClearCutsReaders.ClearCanCutAReader` | src/proxy/slots/mod.rs:103-110 | a reachable state in which it has |
| `Deadlock.WaitingDescends` | src/proxy/slots/mod.rs:40-49 | whoever is waited for is further along the lock order: admission before a slot, and one slot at a time |
| `Deadlock.NoCycleOfWaits` | src/proxy/slots/mod.rs:136-214 | among any number of threads a chain of waits meets nobody twice and has at most three members |
| `Deadlock.UnlessWaitingItProceeds` | src/proxy/slots/mod.rs:75-215 | a thread that waits for no lock has a step to take, after a pause if it sleeps |
| `Deadlock.SomebodyCanAlwaysProceed` | src/proxy/slots/mod.rs:75-215 | every thread at work can proceed, or waits for one that can, or for one that waits for one that can |
| `Deadlock.RelaysHoldNoLock` | src/proxy/answer.rs:138-152 | no lock is held during a relay, and the admission lock is sought with no slot lock held |
| `Slots.Slots.constructor` | src/proxy/slots/mod.rs:56-67 | one slot per entry, all of them empty |
| `Slots.Slots.LiveChild` | src/proxy/loaded.rs:90-106 | hands out the child that is alive or still read from, with a handle more and marked used, or empties the slot of a dead one nobody reads from |
| `Slots.Slots.TakeIfIdle` | src/proxy/loaded.rs:184-194 | takes the child out exactly when nobody reads from it and the further condition holds, and says which of the three it was |
| `Slots.Slots.TakeIfExited` | src/proxy/loaded.rs:116-135 | takes the child out exactly when nobody reads from it and it is dead |
| `Slots.Slots.Drop` | src/proxy/slots/sweep.rs:81-87 | dropping what came out of a slot gives up one handle and touches nothing else |
| `Slots.Slots.Touch` | src/proxy/slots/sweep.rs:102-111 | a filled slot is marked as used now; an empty one is left alone |
| `Slots.Slots.Insert` | src/proxy/slots/mod.rs:173-179 | the slot holds the child, and the child has one handle more |
| `Slots.Slots.ReadRow` | src/proxy/slots/view.rs:40-46 | a row for a filled slot and none for an empty one, busy exactly when somebody reads from it |
| `Slots.Slots.WipeOne` | src/proxy/slots/mod.rs:104-108 | the slot is empty, and its child, if it had one, is handed over with its handle |
| `Slots.Slots.Held` | src/proxy/slots/view.rs:32-79 | rows read one by one, while others move in between, are each its slot's at some moment of the reading and cover what the slots hold in the end; left alone, they are the slots as they are |
| `Slots.Slots.Snapshot` | src/proxy/slots/view.rs:32-79 | undisturbed, each row is its slot's, with the busy signal of that moment |
| `Slots.Slots.Unload` | src/proxy/slots/mod.rs:203-214 | success means every named slot is empty, whatever others did; otherwise the blocker named is loaded and being read from; left alone it succeeds where nobody reads from the named, and then they have gone, each with its handle, and nothing else |
| `Slots.Slots.Evict` | src/proxy/slots/mod.rs:204-211 | one turn: the child is out and its handle dropped, unless somebody reads from it |
| `Slots.Slots.Pass` | src/proxy/slots/room.rs:50-94 | one decision acted on: yes only if room could be made on the rows read, no for good only if it could not and nobody read from an on-demand entry or it is over the whole budget, and not yet only if it could not and somebody did, or a reader got to an entry before it could be taken; left alone, yes exactly when room can be made, and nothing goes otherwise |
| `Slots.Slots.MakeRoom` | src/proxy/slots/room.rs:46-101 | ends after at most ceil(wait / 250 ms) + 1 decisions, each on a device reading of its own; yes means the room is there, and Refused and Contended, the latter only at or after the deadline, mean what they mean in `Pass` at the last decision; left alone, room is granted exactly when it can be made at the last reading, it could not at any earlier one, just the entries the decision names have gone, and Contended comes after exactly that many decisions |
| `Slots.Slots.Pause` | src/proxy/slots/room.rs:96-99 | the wait is over at the deadline and goes on for 250 ms before it |
| `Slots.Slots.AdmitEntry` | src/proxy/slots/mod.rs:136-180 | a live child is served; else the missing file, the want of room or the failed start is answered, in that order; else the started child is served, and left alone room is granted exactly when it can be made; the estimates stay within the limit, and the costs within it but for one child's excess; a served child is in its entry's slot with a handle of its own; otherwise slots only emptied |
| `Slots.Slots.StartInto` | src/proxy/slots/mod.rs:170-179 | with room made, a child that starts is inserted within the limit, with two handles, and every other slot holds what it held, or nothing |
| `Slots.Slots.SweepExited` | src/proxy/slots/sweep.rs:25-28 | exactly the dead children nobody reads from are taken, and named |
| `Slots.Slots.SweptOne` | src/proxy/slots/sweep.rs:76-88 | one entry of a sweep: taken and dropped if it may go, untouched if not |
| `Slots.Slots.Swept` | src/proxy/slots/sweep.rs:76-88 | of the named entries those that may go do, each named in the answer; every other slot keeps its child and its count |
| `Slots.Slots.SweepIdle` | src/proxy/slots/sweep.rs:45-65 | exactly the on-demand children nobody reads from and unused for the window are unloaded, and named |
| `Slots.Slots.WipeAll` | src/proxy/slots/mod.rs:104-108 | in whatever order the slots come, all end empty, and each child that was in one is collected once |
| `Slots.Slots.Clear` | src/proxy/slots/mod.rs:103-110 | every slot is emptied; each child that was in one loses exactly one handle, and no other child any |
| `Slots.UnloadedRoomStays` | src/proxy/slots/mod.rs:203-214 | once every named slot is empty the room planned for is there |
| `Slots.AnswerOnRows` | src/proxy/slots/room.rs:57-92 | what the decision on a snapshot is, told from its rows |
| `Slots.ExpiredIsStale` | src/proxy/slots/sweep.rs:50-65 | what the idle window names on a snapshot is exactly what is stale in the slots |
| `Refinement.LiveChildRefines` | src/proxy/loaded.rs:90-106 | the fast path's three steps, run without interruption, change the memory as the method does and hand on the same child |
| `Refinement.RecheckRefines` | src/proxy/slots/mod.rs:150-152 | so do the recheck's, under the admission lock |
| `Refinement.ReadRowRefines` | src/proxy/slots/view.rs:40-46 | an admission's row is the method's, and reading it changes nothing |
| `Refinement.SurveyRowRefines` | src/proxy/slots/view.rs:40-46 | so is a sweep's |
| `Refinement.InsertRefines` | src/proxy/slots/mod.rs:173-179 | the insertion changes the memory as the method does, and gives the admission lock up |
| `Refinement.TouchRefines` | src/proxy/slots/sweep.rs:102-111 | the touch does what the method does |
| `Refinement.WipeOneRefines` | src/proxy/slots/mod.rs:104-108 | so does one slot of `clear` |
| `Refinement.TakeIfIdleRefines` | src/proxy/slots/mod.rs:203-214 | taking for room does what the method does, and goes on as its answer says |
| `Refinement.TakeIfExitedRefines` | src/proxy/loaded.rs:131-135 | so does the exit sweep's taking |
| `Refinement.SweptIdleRefines` | src/proxy/slots/sweep.rs:55-60 | so does the idle sweep's, with its own condition |
| `TickAlone.ATickAlone` | src/proxy/reaper.rs:101-118 | in any state the system can be in, a tick left alone takes the dead and the stale that nobody reads from, and nothing else |
| `Reaper.Run` | src/proxy/reaper.rs:74-119 | the loop sweeps at the ticks the drift-free deadlines give, not at all without a window, never at or after the stop signal, and at every one before it: a sweep is missing only if the signal came no later than it would have started |
| `Reaper.DeadlinesDoNotDrift` | src/proxy/reaper.rs:90-99 | the k-th deadline is k intervals after the start whatever the sweeps took, and sweeps start at most an interval, or one sweep, apart |
| `Reaper.FastSweepsStartOnTime` | src/proxy/reaper.rs:90-99 | sweeps no longer than the interval start exactly on their deadlines |
| `Reaper.HoldTimeIsBounded` | src/proxy/reaper.rs:90-118 | of an entry that does not change, the first look to see it expired is no earlier than a window after its last use, in a sweep that ends at most one gap and one sweep later, whatever the sweeps take |
| `Reaper.HeldAtMostAWindowAndAHalfPlusOneSweep` | README.md:119-121 | whenever sweeps look and whenever the entry was last used, that is one and a half windows plus one sweep, if and only if the window is 200 ms or more and no sweep but the last takes more than half of it and a nanosecond (or there is no sweep) |
| `Reaper.ALongSweepHoldsTheNext` | src/proxy/slots/sweep.rs:67-75 | any longer sweep with another after it breaks the promise, at whatever window |
| `Reaper.AHungKillHoldsTheNextChildLonger` | src/proxy/slots/sweep.rs:67-75 | a window of two seconds, a sweep of three: the next child is let go two seconds later than promised |
| `Reaper.SomeSweepLetsItGo` | src/proxy/reaper.rs:82-118 | once the deadlines reach past the window, some look is the first to see it expired |
| `HoldTime.Tick` | src/proxy/reaper.rs:104-117 | both sweeps of a tick, on the slots: an unread child goes if it is dead, or on demand and unused for the window, and otherwise stays, unread and unchanged |
| `HoldTime.RunOn` | src/proxy/reaper.rs:74-119 | the loop on the slots, nobody else moving: its sweeps are those of `Reaper.Run`, none missing that would have started before the stop, and by them the children are held as `SweepAt` says |
| `HoldTime.SweepAt` | src/proxy/reaper.rs:82-118 | the ticks on the slots, nobody else moving: an unread child is in its slot while it lives and its window has not passed, and a resident while it lives; an on-demand one is out of its slot by the end of a sweep that ends a window, a gap and a sweep after its last use at most |
| `HoldTime.OutByAWindowAndAHalf` | README.md:119-121 | out of its slot by one and a half windows plus one sweep, when the window is 200 ms or more and no sweep but the last takes more than half of it and a nanosecond, which is when the promise can be kept |
| `SweepsMissNothing.NoDueChildSurvivesItsSweep` | src/proxy/slots/sweep.rs:25-88 | in every run: a child that was dead, or stale, and unread when its sweep began does not stay so in its slot to the sweep's end |
| `SweepsMissNothing.NobodyIsHeldLonger` | src/proxy/reaper.rs:82-118 | in every run whose sweeps keep to the ticks: some sweep that looked after the window does not leave the child unused and unread in its slot from its beginning to its end, and is over within a window, a gap and a sweep of the last use |
| `SweepsMissNothing.NobodyIsHeldPastAWindowAndAHalf` | README.md:119-121 | in every such run, within one and a half windows and a sweep, under the condition on which that promise is kept |
| `GgufBytes.LERoundTrip` | src/gguf/bytes.rs:31-37 | little-endian bytes of an integer that fits them spell it back |
| `GgufBytes.PaddingAddsNothing` | src/gguf/bytes.rs:55-62 | reading a narrow scalar into eight zeroed bytes does not change it |
| `GgufBytes.Reader.ReadExact` | src/gguf/bytes.rs:25-29 | the bytes at the reader's place, which moves past them, or a fault at the end of the file; nothing can be read anywhere |
| `GgufBytes.Reader.ReadU32` | src/gguf/bytes.rs:31-33 | four bytes, little-endian |
| `GgufBytes.Reader.ReadU64` | src/gguf/bytes.rs:35-37 | eight bytes, little-endian |
| `GgufBytes.Reader.ReadScalar` | src/gguf/bytes.rs:55-81 | one scalar of its kind's width, as an integer when it is a non-negative one |
| `GgufBytes.Reader.StepOver` | src/gguf/bytes.rs:98-103 | moves past the bytes without reading, past the end too, unless they are 2^63 or more |
| `GgufBytes.Reader.ReadText` | src/gguf/bytes.rs:85-94 | a string, decoded and kept within the limit and stepped over beyond it |
| `Utf8.TextIsKept` | src/gguf/bytes.rs:93 | decoding leaves exactly the valid strings as they are |
| `Utf8.EncodingsAreRead` | src/gguf/bytes.rs:93 | the encoding of any Unicode scalar value is read as one character, whatever follows it (section 3 of RFC 3629) |
| `Utf8.WhatIsReadIsEncoded` | src/gguf/bytes.rs:93 | and what is read as a character is the encoding of a scalar value |
| `Utf8.TheLongestStartIsReplaced` | src/gguf/bytes.rs:93 | what is replaced, by the encoding of U+FFFD, is the longest start of a character that goes wrong, or one byte where none starts |
| `Utf8.LossIsBoundedAndMarked` | src/gguf/bytes.rs:93 | what is kept is at most three times as long as what was read, and shows a replacement unless it is what was read |
| `Utf8.LossCanTriple` | src/gguf/bytes.rs:93 | that bound is reached, at every length |
| `Gguf.Metadata.Array` | src/gguf.rs:198-240 | of a per-layer array the non-negative integers and the largest of them are kept (what that means for the list is `GgufLayers.AListKeepsItsIntegers`); every other array is stepped over by its exact width, string by string, or refused |
| `Gguf.Metadata.StepOverTexts` | src/gguf.rs:226-230 | the loop over strings ends behind the last, or at a fault, after at most one turn more than the rest of the file has room for lengths, whatever count is claimed |
| `Gguf.Metadata.Value` | src/gguf.rs:177-194 | the architecture's string, every integer but the tokenizer's, and arrays |
| `Gguf.Metadata.Pair` | src/gguf.rs:161-166 | one key, its kind and its value |
| `Gguf.Metadata.Fill` | src/gguf.rs:145-175 | the whole reader does what the specification functions say of the bytes, and on success has not left the file |
| `GgufWriter.Output.PushText` | tests/fixtures/mod.rs:117-120 | appends the length and the bytes of a string |
| `GgufWriter.Output.PushValue` | tests/fixtures/mod.rs:123-166 | appends a value's tag and body |
| `GgufWriter.Output.PushWords` | tests/fixtures/mod.rs:147-154 | appends the elements of an integer array, in order |
| `GgufWriter.Output.PushTexts` | tests/fixtures/mod.rs:155-162 | appends the elements of a string array, in order |
| `GgufWriter.Output.Write` | tests/fixtures/mod.rs:84-95 | the whole file: magic, version, no tensors, the number of pairs, the pairs in order |
| `GgufRoundTrip.LastWordWins` | src/gguf.rs:177-240 | of several pairs with one key the last to give it a number, a list of layers, or the architecture, is the one believed |
| `GgufRoundTrip.SilenceKeeps` | src/gguf.rs:177-240 | pairs that say nothing of a key leave it as it was |
| `GgufRoundTrip.ReadsText` | src/gguf/bytes.rs:85-94 | a written string reads back as itself within the limit and as nothing beyond it, and either way the reader ends up behind it |
| `GgufRoundTrip.ReadsUnsigned` | src/gguf/bytes.rs:55-70 | a written unsigned integer of any width reads back as itself |
| `GgufRoundTrip.ReadsSigned` | src/gguf/bytes.rs:68-81 | a two's complement integer of any width reads back as itself when it is not negative, and as nothing when it is |
| `GgufRoundTrip.ReadsWords` | src/gguf.rs:208-217 | a written list of four-byte unsigned integers reads back whole and in order, with its largest element (the other kinds are in `GgufLayers.AWrittenListIsReadBack`) |
| `GgufRoundTrip.ReadsTexts` | src/gguf.rs:226-230 | written strings are stepped over one by one, exactly |
| `GgufRoundTrip.AModelSaysItsSettings` | tests/fixtures/mod.rs:59-80 | a file of an architecture and settings under its name says just those: each setting, no other, no list of layers |
| `GgufRoundTrip.ReadsPair` | src/gguf.rs:161-240 | a written pair within the limits reads back as what it says; one beyond them is refused |
| `GgufRoundTrip.ReadingFindsTheMeaning` | src/gguf.rs:145-240 | for any list of pairs, any number of tensors and anything after the metadata, reading the file yields the meaning of the pairs if version, number of pairs, key lengths and layer counts are within the limits, and a fault if not |
| `GgufRoundTrip.ReadingUndoesWriting` | tests/fixtures/mod.rs:84-166 | so it does for what the writer writes |
| `GgufRoundTrip.Spelled` | src/gguf.rs:145-190 | magic, architecture key and the tokenizer's prefix, letter by letter |
| `GgufRoundTrip.WriteThenRead` | tests/fixtures/mod.rs:84-166 | the writer's and the reader's own code, one after the other, come to the same |
| `GgufRobust.CutPairs` | src/gguf.rs:160-166 | the reader's place never moves back, and reading a cut file goes as reading the whole one until the cut is passed |
| `GgufRobust.OnlyTheMetadataMatters` | src/gguf.rs:145-175 | an accepted file cut at or after its metadata's end reads the same; cut anywhere before, it is refused |
| `GgufRobust.EveryPairEndsInside` | src/gguf.rs:168-174 | in an accepted file every pair ends inside the file and none before an earlier one, although values are stepped over unread |
| `GgufRobust.WhatIsKeptIsBounded` | src/gguf.rs:52-64 | whatever a file claims: at most 2^16 keys, lists of 1 to 2^20 elements, numbers of 64 bits; keys of at most 1024 bytes and an architecture of at most 256, or three times that where the decoding shows a replacement |
| `Gguf.AClaimedCountCostsNothing` | src/gguf.rs:226-230 | stepping over a string array of any claimed count takes at most one read more than the file has room for lengths |
| `GgufLayers.AListKeepsItsIntegers` | src/gguf.rs:208-224 | of a per-layer array of any kind of scalar its non-negative integers are kept in file order, with the largest; all its elements are kept, each in its own place, if and only if each of them is one |
| `GgufLayers.WhereAnElementIsKept` | src/gguf.rs:211-217 | an integer is kept as many places up as elements before it were dropped, so in its own place exactly when none was |
| `GgufLayers.ReadsInteger` | src/gguf/bytes.rs:55-81 | an integer of any width and sign, or a flag, reads back as itself, and as nothing when it is negative |
| `GgufLayers.AWrittenListIsReadBack` | src/gguf.rs:198-224 | a written list of any kind of integers or of flags is refused when too long and otherwise reads back but for its negative numbers: whole exactly when there are none |
| `GgufLayers.ANegativeMovesTheOthersUp` | src/gguf.rs:128-134 | the list -1, 3 is kept as 3, and the first layer is costed with the second one's heads |
| `GgufLayers.AModelSaysItsLayers` | src/gguf.rs:125-138 | in a file read, a list under the architecture's name of key-value heads, heads, or the sliding pattern, the last word on it, is there whole as the per-layer setting, and its largest element as the number |
| `GgufLayers.OnlyTheseListsAreKept` | src/gguf.rs:201-207 | whatever a file says, no list is kept under a key that ends in none of the three names |
| `GgufLayers.AnArrayNotKept` | src/gguf.rs:226-240 | every other array is stepped over, string by string or by the width the format has for its kind, or refused: of arrays, of an unknown kind, or longer than a seek |
| `GgufLayers.OtherScalars` | src/gguf/bytes.rs:41-62 | floats of both widths are read over and are no number, unknown kinds and cut scalars are faults |
| `Cache.Sixteenths` | src/catalog/estimate/cache.rs:137-147 | the documented bytes of an element in sixteenths: by the short spelling when it is there, else the long one, else f16 |
| `Cache.CacheBytes` | src/catalog/estimate/cache.rs:20-77 | the cost of every model the metadata describes, and nothing for one it does not, a head count of zero included |
| `Cache.SumOfLayers` | src/catalog/estimate/cache.rs:53-69 | the loop sums what each layer of the pattern costs |
| `Cache.DenseIsTheDocumentedFormula` | src/catalog/estimate.rs:14-22 | where no layer slides: layers x context x heads x width x element size, of the keys and of the values, in sixteenths |
| `CacheFigures.ADenseModel` | src/catalog/estimate/cache.rs:20-77 | where nothing slides, the documented product from the metadata's own numbers: the layers, or one in an interval; the key-value heads, or the heads; the key width, or the embedding's over the heads; the value width, or the key's |
| `CacheFigures.ASlidingModel` | src/catalog/estimate/cache.rs:36-71 | where layers slide, the sum over the listed pattern, or the assumed one of a Gemma 3, each layer by its own heads where they are listed, at the whole context and widths or at the window and the sliding widths |
| `CacheFigures.NoFigure` | src/catalog/estimate/cache.rs:26-32 | there is no cost exactly when the layers, the heads or a key's width cannot be told, no heads included |
| `Cache.APlainModel` | src/catalog/estimate/cache.rs:26-41 | a file without head widths or key-value heads of its own is costed by its head count and its embedding's width over it; with a head count of zero there is no cost |
| `Cache.OneInSix` | src/catalog/estimate/cache.rs:98-111 | of the first n layers of the assumed pattern n / 6, rounded down, are full |
| `Cache.OnlyTheNumberOfFullLayersMatters` | src/catalog/estimate/cache.rs:53-69 | with the same heads everywhere the sum depends on how many layers are full, not on which |
| `Cache.AssumedPatternInClosedForm` | src/catalog/estimate/cache.rs:36-111 | a Gemma 3 without a pattern of its own costs a sixth of its layers in full and the rest windowed |
| `Cache.WindowedAtMostDense` | src/catalog/estimate/cache.rs:43-76 | with a pattern no longer than the model and no layer wider than the widest, windowing never costs more |
| `Cache.WindowingSavesExactlyOnShortPatterns` | src/catalog/estimate/cache.rs:43-76 | where layers differ in nothing but their window, windowing never costs more, at any context, if and only if the pattern is no longer than the model |
| `Cache.ALongPatternCostsMore` | src/catalog/estimate/cache.rs:98-134 | a Gemma 3 file, as the reader reads it, whose full-attention interval leaves six caching layers under a pattern of twelve: at one token it is costed at twice the dense figure |
| `Cache.TheWidestLayerIsTheNumber` | src/gguf.rs:198-224 | a list that was the last word on its key leaves its largest element as the key's number, so no layer is wider |
| `Cache.MoreNeverCostsLess` | src/catalog/estimate/cache.rs:20-77 | more context or wider elements never lower the cost, nor decide whether there is one |
| `Cache.PlausibleCostsFit` | src/catalog/estimate/cache.rs:53-76 | with at most 2^20 layers and fields below 2^32 no partial sum leaves 128 bits |
| `Cache.ImplausibleCostsNeedNotFit` | src/catalog/estimate/cache.rs:72-76 | fields bounded by their own 64 bits alone can |
| `Estimate.Derive` | src/catalog/estimate.rs:83-155 | the figure is the documented terms -- weights and five percent, the caches, the overhead, or weights and a quarter -- rounded up to whole mebibytes, on the basis that says whether the metadata gave a cache; on the processor it is 1024 |
| `Estimate.TheTermsAre` | src/catalog/estimate.rs:83-155 | those terms spelled out: 1024 MiB; the sizes of model, draft and projector, and five percent; the model's cache at the sizes its own flags ask for and the draft's at the draft's, unless it predicts from the model's; or a quarter |
| `Estimate.OnTheProcessor` | src/catalog/estimate.rs:100-145 | on the processor they are the overhead alone |
| `Estimate.Mebibytes` | src/catalog/estimate.rs:153-154 | the least whole number of mebibytes that holds the bytes, or the largest its type has |
| `Estimate.RoundingKeepsOrder` | src/catalog/estimate.rs:153-154 | only one figure rounds given bytes up, and more bytes have no smaller one |
| `Estimate.NothingIsUndercounted` | src/catalog/estimate.rs:38-40 | a figure short of that largest is not below the overhead and, off the processor, the weights and the caches counted |
| `Estimate.MoreContextNeverCostsLess` | src/catalog/estimate.rs:83-155 | a larger context never lowers an estimate, nor changes its basis |
| `Decimals.PaddedUndoesValue` | src/catalog/estimate.rs:196-222 | digits, read as a number and printed at their width, come back |
| `Decimals.DecimalLength` | src/catalog/estimate.rs:196-202 | a number prints within a width exactly when it is below that power of ten |
| `Shards.SplitLast` | src/catalog/estimate.rs:206-209 | `rsplit_once`: what is before and after the last occurrence, or that there is none |
| `Shards.AShardIsItsOwnSibling` | src/catalog/estimate.rs:196-222 | a name read as a shard is what its own index prints |
| `Shards.AShardOfFour` | src/catalog/estimate.rs:229-240 | a name of the documented kind, read, and a sibling of it, named |
| `Shards.SiblingsAreRead` | src/catalog/estimate.rs:196-222 | a sibling's name is read back as that shard, same stem, total and extension, exactly when its index fits the width |
| `Shards.SiblingsDiffer` | src/catalog/estimate.rs:196-202 | no two indices name the same file |
| `Shards.WeightsOf` | src/catalog/estimate.rs:158-174 | the total of the sizes of the model's own file and its other shards, missing ones counting nothing, and nothing without the model's own file |
| `Shards.EachShardIsWeighedOnce` | src/catalog/estimate.rs:158-174 | no file is weighed twice; they are the model's own and all siblings up to the count: as many as the count when the own index is within it, one more when it is not |
| `RequestHead.Parse` | src/proxy/head.rs:75-129 | method, path, every header in order, the last content length, chunked framing and the expectation, or what is missing from the request line |
| `RequestHead.ParseHeaders` | src/proxy/head.rs:89-119 | the loop keeps every header, skips lines without a colon, and remembers exactly what some header said of length, framing and expectation |
| `RequestLaws.TheFirstTwoWords` | src/proxy/head.rs:76-86 | wherever they stand in the first line, its first two words are the method and the path |
| `RequestLaws.WhatIsMissing` | src/proxy/head.rs:76-86 | which refusal: no line, no word in it, or just one |
| `RequestLaws.ParseUsizeReads` | src/proxy/head.rs:103-105 | a length is read exactly when it is the digits of a number of 64 bits, zeros and a plus before them allowed, and is that number |
| `RequestLaws.TheLastLengthCounts` | src/proxy/head.rs:99-106 | of several lengths the last counts, in any case of its name: the number it spells, or its text when it spells none |
| `RequestLaws.FramingIsSaidOnce` | src/proxy/head.rs:107-114 | chunked, or expecting an interim answer, exactly when some header says so, in any case |
| `RequestHead.Rewrite` | src/proxy/head.rs:153-181 | the text sent on: start line, the child's host, a closing connection, and the headers that were not answered |
| `HeadRelay.AHeaderIsReadBack` | src/proxy/head.rs:90-118 | a header as parsed, printed and parsed again, is the same header |
| `HeadRelay.LinesAreReadBack` | src/proxy/head/read.rs:61-74 | headers printed and split into lines are their lines, up to the blank one |
| `HeadRelay.KeptIsTheRest` | src/proxy/head.rs:164-177 | what is kept is every header but host, connection and expect in any case, and dropping them again drops nothing more |
| `HeadRelay.KeptSaysTheSame` | src/proxy/head.rs:153-181 | dropping them changes neither the length nor the framing, and leaves no expectation |
| `HeadRelay.RelayedHeadIsReadBack` | src/proxy/head.rs:75-181 | the rewritten head reads back as the same method for the suffix, the child's host, a closing connection and the other headers in order, with the same length and framing; rewriting that changes nothing |
| `Discovery.Sanitise` | src/catalog/discover/name.rs:77-87 | the loop and the trim come to the specification function |
| `Discovery.CollapsedIs` | src/catalog/discover/name.rs:77-85 | the loop builds the text's runs of letters and digits, in lower case, single hyphens between them, and one at an end without a letter |
| `Discovery.SanitisedJoinsTheRuns` | src/catalog/discover/name.rs:77-87 | a sanitised text is its runs joined by single hyphens; it is empty exactly when the text has no letter or digit, and well formed otherwise |
| `Discovery.IdentifiersAreFixed` | src/catalog/discover/name.rs:77-87 | a well-formed identifier sanitises to itself |
| `Discovery.TwoMakeOne` | src/catalog/discover/name.rs:57-58 | a parent's name and a wanted one joined by a hyphen are well formed |
| `Discovery.WhatAFileAsksFor` | src/catalog/discover/name.rs:42-46 | every shard of a model asks for the model's stem, any other file for its name up to the last dot, or its whole name without one |
| `Discovery.Identifier` | src/catalog/discover/name.rs:36-74 | the wanted name, or the parent's in front of it, or none; what is given is taken from then on |
| `Discovery.Under` | src/catalog/discover.rs:72-96 | the walk's files named in order, each beside all names taken before it |
| `Discovery.DiscoveryNeverCollides` | src/catalog/discover.rs:72-96 | every discovered identifier is well formed, sanitises to itself, and differs from every other, from every declared one and from the proxy's own |
| `Discovery.EveryFileIsNamedIfItCanBe` | src/catalog/discover.rs:75-95 | a considered file with a size goes without an entry only when both names it could have are taken, or it has no parent's |
| `Discovery.NoOtherFileIsNamed` | src/catalog/discover.rs:78-95 | a file the catalog refers to, one whose path is no text, of no size, or of no letter or digit, adds no entry |
| `Discovery.SizesTakeNoNames` | src/catalog/discover.rs:88-93 | a name is taken whether or not its file turns out to have a size |
| `Calendar.DateOf` | src/bench/report.rs:129-157 | both loops end within the year and its twelve months, at the valid Gregorian date with that day number |
| `Calendar.DayNumberInClosedForm` | src/bench/report.rs:129-164 | the day number by arithmetic alone, from the Gregorian rule and a line through the months, with no table |
| `Calendar.TheEpochPrints` | src/bench/report.rs:158 | year, month and day, in four, two and two digits |
| `Calendar.EarlierIsSmaller` | src/bench/report.rs:129-164 | dates are ordered as their day numbers are, and equal only if those are |
| `Calendar.DateOfDayNumber` | src/bench/report.rs:129-164 | the date of a date's day number is that date |
| `Calendar.Today` | src/bench/report.rs:122-159 | the stamp is of the day the seconds since the epoch fall in |
| `Calendar.StampsTellDatesApart` | src/bench/report.rs:158-159 | two dates that print alike are one date |

## Left out

- CostsOvershootByOneChild: bounds what occupied slots cost, not live processes, because a process may outlive its slot while it is being killed; and the device's side of the ledger is a reading of the moment, which nothing bounds.
- BlockedIsWorthWaitingFor: says what the answer is once every reader is done, not that any ever is, because readers end when their callers end them.
- SomebodyCanAlwaysProceed: says that somebody has a step, not that the scheduler takes it, because fairness is the platform's.
- Run: a sleeping reaper wakes at its deadline and a stop signal is seen at once, because scheduling delays are the platform's; the signal's own mutex and condition variable are one parameter.
- SnapshotCoversLedger: takes the covering as given, because `Slots.Slots.Held` and the invariant establish it.
- HoldTimeIsBounded: is about one entry that does not change; what becomes of its slot is in `HoldTime.RunOn` and `SweepsMissNothing.NobodyIsHeldLonger`.
- HeldAtMostAWindowAndAHalfPlusOneSweep: likewise, and for the slot `HoldTime.OutByAWindowAndAHalf`; the clock has been counting for a window when the reaper begins, because where a monotonic clock has its zero is the platform's.
- ALongSweepHoldsTheNext: likewise.
- NobodyIsHeldPastAWindowAndAHalf: takes the sweeps' schedule as given, as `NobodyIsHeldLonger` does.
- SomeSweepLetsItGo: likewise.
- SweepAt: undisturbed, on slots that hold different children; with other threads at work the bound is `SweepsMissNothing.NobodyIsHeldLonger`.
- RunOn: likewise.
- Tick: likewise.
- ARequestAlone: the other threads stand still, because with them moving it is the invariant and `Slots.Slots.MakeRoom` that say what an answer means; its file is there and its start succeeds, because otherwise it is `RequestAlone.WithoutItsFile` or `RequestAlone.FailsToStart`.
- ATickAlone: likewise undisturbed; in any run it is `SweepsMissNothing.NoDueChildSurvivesItsSweep`.
- NobodyIsHeldLonger: takes as given that each idle sweep begins and ends within its tick, because how long a sweep takes is up to the scheduler and to the processes being killed.
- Snapshot: undisturbed; what rows read while others move still cover is in `Slots.Slots.Held`.
- SweepExited: undisturbed in the class, on slots that hold different children; what a sweep may take and is sure to take among other threads is in `ProtocolTheorems.EmptyingHasAReason` and `SweepsMissNothing.NoDueChildSurvivesItsSweep`.
- SweepIdle: likewise.
- Swept: likewise.
- SweptOne: likewise.
- WipeAll: undisturbed in the class, on slots that hold different children; each of its steps among other threads is in `ReadersAndClear.ClearCutsExactlyTheBusy`.
- Clear: likewise.
- MakeRoom: other threads are any function that fills no slot and does not turn the clock back, because only the holder of the admission lock inserts.
- EmptyingHasAReason: for windows other than zero, because a window of zero is no window (src/idle.rs:62-68).
- LeftIsWhatResidentsLeave: residents' costs are below 2^64 together, because the sum itself would wrap otherwise.
- ReadingUndoesWriting: strings are valid text, as the writer's type has it, and no string or list is longer than half the address space, because the writer could not hold one.
- Fill: a place beyond 2^63, which only a refused file can reach, is refused at the end of the file and not at the seek.
- CacheBytes: 128-bit arithmetic does not wrap, because the bounds under which it cannot are proved and outside them a release build's result means nothing.
- WindowingSavesExactlyOnShortPatterns: for layers that differ in their window alone, because narrower windowed layers can make up for a longer pattern; `Cache.WindowedAtMostDense` is the sufficient condition for the rest.
- Assumed: the pattern is as long as the file's own layer count says, which nothing bounds, because memory is not modelled.
- WeightsOf: sizes are of one directory and unbounded, because a sum of file sizes above 2^64 needs more disk than there is; a file name that is not UTF-8 has no shards.
- Derive: what the flags say about drafts, embeddings and the processor are parameters, because their readers are lookups that differ among themselves.
- Parse: what a path addresses is left to the caller; the suffix is a parameter of the rewriting.
- LinesAreReadBack: without the limits of 64 KiB and 100 lines, and on characters, because what is over them is refused before it is parsed.
- Under: the walk, the paths, the catalog's own files and whether an entry could be sized are inputs; the notes are not modelled.
- Identifiers are not strings in the protocol, and a catalog's entries have distinct ones.
- Sockets, relaying, replies, JSON and TOML, process start and health, probes of the machine's memory, budget configuration, the wording of messages, poisoned mutexes and the benchmark beyond its date.
