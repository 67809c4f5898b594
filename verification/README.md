# ilias_async, modelled and proved in Dafny

Models of the concurrency protocols of the ilias_async library, and proofs of what the library is
for: reference counts that are right under every interleaving, a list that stays a list, workers
that wake up, futures that compute what was asked, jobs and events that are not lost.

`dafny verify dfyconfig.toml` checks everything.

## How the models are built

Code that several threads run at once is a machine: a `State` value, an `Action` per atomic
operation (or per block under one mutex), `Enabled` and `Apply` that follow the code branch by
branch, and `Behavior`, the finite runs of any length over any number of threads and objects. An
invariant is proved for every step, and each theorem holds in every state of every run. Sequential
consistency is assumed, and a weak compare-exchange is one that may fail for no reason.

Code that one thread runs to completion is a class with the fields of the original, changed in
place by methods with the original's loops. Each such method says in its contract what the new
state is. Where the original only loops because others interfere (`link_after_`, `link_before_`,
`pop_front`, `unlink_iter_`, `llptr::load`), the method has one round, and its contract says whether
that decides.

| file | what it holds |
|---|---|
| `SeqSum.dfy`, `Queues.dfy` | sums over sequences, the device behind the conservation laws; queues without repetition |
| `HazardMachine.dfy`, `HazardInvariant.dfy`, `HazardConservation.dfy`, `HazardTheorems.dfy`, `HazardAlone.dfy` | hazard pointers and `llptr` under interleaving; what a call comes to that nobody interferes with |
| `HazardTable.dfy`, `FlagPtr.dfy` | the slot table and `llptr` run to completion; tagged words |
| `ListModel.dfy`, `ListLine.dfy` | the marked circular list: its words and chains, and the states that threads leave which stopped inside an operation |
| `ListHelping.dfy`, `ListAiding.dfy`, `ListRepair.dfy` | completing what others started; when that ends and what it makes of any words; searching a predecessor meanwhile |
| `ListWaiting.dfy`, `ListAmid.dfy` | what an unlinked node waits for; what the user sees meanwhile |
| `LinkedList.dfy` | the operations of the list on a heap of nodes, amid the unfinished work of others and without |
| `ListElements.dfy`, `ListOrder.dfy`, `ListPosition.dfy`, `ListFilter.dfy` | what the user of the list sees, in which order, positions and iterators, filtering |
| `ThreadpoolWakeup.dfy`, `ThreadpoolPopulation.dfy` | sleeping and waking workers; how many workers there are |
| `FutureCallbacks.dfy`, `FutureGraph.dfy` | completion against installation of callbacks; lazy futures as a dataflow engine |
| `WorkqMachine.dfy`, `WorkqRun.dfy`, `WorkqAlone.dfy` | run locks and activation, under interleaving and run to completion; that an operation of the one comes to what the other says when nobody interferes |
| `MsgQueueEvents.dfy`, `MsgQueueRun.dfy` | event firing, under interleaving and run to completion |

Some points of reading. In `HazardMachine` the fields `grant`, `holder` and `marker` of a slot, in
`FutureCallbacks` the identity inside `Ready`, and in `MsgQueueEvents` the step numbers are
auxiliary: written, never read by a step. The reference-owning handles that a call takes by value
are copied and dropped in steps of their own.

In the list, nodes are addresses from 1, address 0 is nil. A `Line` lists the nodes from head to
head: those of the chain, some of them `dead`, that is S-marked by their predecessor, and those that
were cut out but are still named, which keep their place and the number of their cut. Predecessor
words may name any earlier node. `Spells` says which words the nodes of a line can have when threads
stopped between two atomic operations of linking, unlinking or helping; a node that is about to be
linked has words too. `Heap.Pred`, `Heap.Link`, `Heap.UnlinkNode` and the methods whose names end in
`Amid` run from all these states. `pred_` can leave them, by moving a marked word back from the direct
predecessor: `Strayed` says to which words, and `ListAiding` what helping comes to there. The operations
of `list` and the positions and iterators above them (`Heap.LinkAfter`, `ListPosition`, `ListFilter`)
run when nobody else is at work, with `chain` for the line, though predecessor words may lag behind. A
node `Lives` that is neither dead nor cut out; `Members` are the elements that live.

The `rank` of a marker is the number of elements before it: markers are told apart by rank only,
since neither `++`, `--`, `==` nor erasing depends on more.

## Model

| member | source | states |
|---|---|---|
| HazardTheorems.ReferenceConservation | include/ilias/llptr.h:348-629 | in every reachable state the count of an object is the cells pointing at it, plus handles, plus grants in slots not yet collected, plus the references of calls in progress, unspent budget of writers included |
| HazardTheorems.QuiescentConservation | include/ilias/hazard-inl.h:44-72 | when all calls have returned only cells and handles are left, and every slot is free and empty |
| HazardTheorems.NoResurrection | include/ilias/llptr.h:370-389 | every acquire hits an object that still has a reference |
| HazardTheorems.AcquiringStep | include/ilias/llptr.h:348-389 | besides creating and copying a handle, references are acquired only by a reader whose look at the cell was successful, or by a writer filling its budget |
| HazardTheorems.FoundAgain | include/ilias/llptr.h:370-389 | a reader about to acquire has, since it published its pointer, seen the cell hold it: at an earlier state of the run its publication or a grant was in its slot and the cell held that pointer |
| HazardTheorems.ReleasesNeverUnderflow | include/ilias/hazard-inl.h:54-72 | no release exceeds the count |
| HazardTheorems.DeadIsUnreachable | include/ilias/llptr.h:348-389 | an object of count zero is in no cell, handle, grant, budget or result |
| HazardTheorems.ResultsAreLinearizable | include/ilias/llptr.h:413-614 | a returned word was the content of the cell at some instant during the call, comes with a reference, and for a failed strong compare-exchange differs from the expected word |
| HazardTheorems.ExchangesTakeEffect | include/ilias/llptr.h:434-614 | the history of a cell grows by one word at a time: a compare-exchange appends the desired word exactly when the last one is the expected one, flags included, and only a weak one may fail in spite of that; an exchange appends its word always; nothing else writes the cell |
| HazardTheorems.CallsBegin | include/ilias/llptr.h:413-614 | a call runs on its cell with the operation and the arguments that it was started with, and its results count from the last word at its start |
| HazardTheorems.ExchangesHold | include/ilias/llptr.h:434-614 | what an exchange has in hand is the pointer that was last before its own word: to return where it returns the old value, or where the caller keeps its handle on the expected one, and to grant |
| HazardTheorems.HeldIsHandedBack | include/ilias/llptr.h:446-454 | until the grant is over a thread holds that very pointer, and its caller gets a handle on it then, or none |
| HazardTheorems.ResultsAreHandedOver | include/ilias/llptr.h:413-432 | a call that ends with a result gives its caller one handle on it |
| HazardAlone.Loads | include/ilias/llptr.h:413-432 | a `load` that nobody interferes with, through any vacant slot: the content of the cell with one reference more on its object, and a table as it was |
| HazardAlone.Fails | include/ilias/llptr.h:558-614 | a compare-exchange that fails in this way: the handle on the expected pointer comes back where the cell holds the same one with other flags, nothing is taken of a null pointer, otherwise the content comes with a reference; the desired handle is given up |
| HazardAlone.LooksAgain | include/ilias/llptr.h:370-389 | a reader with a publication in its slot: with the pointer still in the cell it acquires a reference, and releases the second one if it was granted one too; with the pointer gone it returns the one it was granted |
| HazardAlone.LooksFurther | include/ilias/llptr.h:421-425 | a reader that got nothing returns what the cell holds now |
| HazardAlone.TriesAgain | include/ilias/llptr.h:595-607 | a strong compare-exchange that sees the expected word come back gives its slot back and tries again |
| HazardAlone.GrantServesReaders | include/ilias/hazard-inl.h:54-72 | from any state that a run may reach, with nobody stalled while it marks a slot: a grant serves exactly the slots that publish the pointer for the cell, the count changes by as many less the references put in, and nothing else changes |
| HazardAlone.HitsAreMatches | src/hazard.cc:91-101 | those slots are as many as `Table.GrantAll` counts |
| HazardAlone.Unmarks | src/hazard.cc:31-51 | a writer that has marked a slot and finds the publication gone takes its mark back and goes on to the next slot |
| HazardAlone.LooksOnceMore | src/hazard.cc:31-51 | one that finds the slot marked by another writer reads the value again, and passes over the slot if the publication is gone |
| HazardTheorems.HazardsDoNotShare | src/hazard.cc:67-87 | two live hazards never share a slot |
| HazardTheorems.GrantLandsOnPublication | src/hazard.cc:31-51 | a grant lands only on a live publication of that pointer for that owner, with the flag set, and not granted before |
| HazardTheorems.GrantStaysUntilCollected | include/ilias/hazard-inl.h:44-52 | a grant stays in its slot until the hazard it is for takes it |
| HazardTheorems.ScanStaysWithinBudget | include/ilias/hazard-inl.h:54-72 | a scan grants at most one reference per slot, so the budget never underflows |
| HazardTheorems.HazardAssertionsHold | include/ilias/hazard-inl.h:24-52 | the assertions on the value of a slot: zero when claimed, when published to, when given back |
| HazardConservation.InvStep | include/ilias/llptr.h:348-629 | conservation, slot discipline and the protection of every reader are kept by every step of every operation |
| HazardTable.Table.Mark | src/hazard.cc:31-51 | zeroes the value of a slot exactly when it publishes that value for that owner, and restores the owner word |
| HazardTable.Table.GrantAll | src/hazard.cc:91-101 | zeroes the value of every slot that publishes the value for the owner, leaves all others, and returns the number of those slots |
| HazardTable.Table.GrantN | src/hazard.cc:103-113 | the same for those of these slots that have fewer than `nrefs` of them before, and no other |
| HazardTable.Table.Allocate | src/hazard.cc:67-87 | claims the first free slot from the rotating index on, around the table |
| HazardTable.Table.Free | include/ilias/hazard-inl.h:30-33 | clears the owner and keeps the flag bit |
| HazardTable.OwnersAreToldApart | src/hazard.cc:57-65 | the owners accepted are exactly those that masking gets back from their owner word, flag bit set or not; an accepted owner with the bit set is no accepted owner, and different owners stay different with it |
| HazardTable.Pointer.Grant | include/ilias/llptr.h:348-365 | the count ends up lower by the references put in and higher by one per stalled reader, each of which is served |
| HazardTable.Pointer.DoHazard | include/ilias/llptr.h:370-389 | publishes and looks again: one reference more if the pointer is still in the cell, and no change if it is another one; the slot is empty again |
| HazardTable.Pointer.Load | include/ilias/llptr.h:413-432 | returns the word with one more reference on its object; the table is as before |
| HazardTable.Pointer.Store | include/ilias/llptr.h:434-444 | the new word is in, the old object is down by one and up by its stalled readers |
| HazardTable.Pointer.Exchange | include/ilias/llptr.h:446-454 | as store, the reference on the old object going to the caller |
| HazardTable.Pointer.CompareExchange | include/ilias/llptr.h:558-614 | succeeds exactly when the word is the expected one; on failure the caller's handle is exchanged for one on the object found |
| FlagPtr.Encode | include/ilias/llptr.h:102-135 | pointer and flags are decoded from what was encoded |
| FlagPtr.DecodeEncode | include/ilias/llptr.h:102-135 | every word is the code of what it decodes to |
| FlagPtr.EncodeIsInjective | include/ilias/llptr.h:173-220 | words are equal exactly when pointer and flags both are, so a compare-exchange compares both |
| ListLine.DocumentedInvariants | src/ll_list.cc:44-57 | that the states which `Spells` describes meet the documented invariants about single nodes; `MarkedInvariant` and `OneUnmarkedBefore` are those that need more than one node, and the rows after them say that the steps of the operations keep them all |
| ListLine.MarkedInvariant | src/ll_list.cc:50 | the node that a marked predecessor word names either does not name the node, or names it S-marked |
| ListLine.OneUnmarkedBefore | src/ll_list.cc:57 | two nodes of the list with unmarked predecessor words do not share a successor |
| ListLine.SpellsInsert | src/ll_list.cc:346-355 | `Spells` is kept by the exchange of `link_` that makes `a` name the new node, while the word of `b` still lags behind |
| ListLine.SpellsMark | src/ll_list.cc:404-419 | `Spells` is kept by the S-marking exchange of `unlink_` |
| ListLine.SpellsLeaving | src/ll_list.cc:461-482 | `Spells` is kept by the marks that `unlink_aid_` sets on a node before it is cut out |
| ListLine.SpellsCut | src/ll_list.cc:496-539 | `Spells` is kept by the exchanges that cut it out, of a predecessor that is being unlinked itself too |
| ListLine.SpellsForget | src/ll_list.cc:447-453 | `Spells` is kept when a node that no word names any more gets ready for another link |
| ListRepair.StoppedHelper | src/ll_list.cc:496-531 | a helper stopped after it moved `b.pred` and before its exchange on `a.succ` leaves such a state |
| LinkedList.Heap.constructor | src/ll_list.cc:161-170 | a new list is valid and empty, its head counted twice |
| LinkedList.Heap.StoreSucc | include/ilias/ll_list-inl.h:27-37 | a stored successor word keeps the link-count law |
| LinkedList.Heap.StorePred | include/ilias/ll_list-inl.h:27-37 | a stored predecessor word keeps the link-count law |
| LinkedList.Heap.CountOfUnnamed | include/ilias/ll_list-inl.h:27-37 | a node that no word names is counted by its handles alone |
| LinkedList.Heap.UnlinkAid | src/ll_list.cc:456-542 | from any words whatever: whenever the call ends it does what `Aid` says, a node that is marked already being cut out of what its word names |
| ListAiding.RunAided | src/ll_list.cc:456-542 | with marked words that name direct predecessors the call ends, and unlinks a whole run of S-marked nodes: the predecessor reaches the first live node, which names it back; the nodes of the run have nil successors and marked predecessors; nothing else changes |
| ListAiding.RestoredExactlyIfDirect | src/ll_list.cc:456-542 | in any list with marked words that `pred_` has moved back: completing a run ends and leaves a list like that without the run exactly if each marked word of the run names the direct predecessor |
| ListAiding.NeverCompleted | src/ll_list.cc:484-492 | the state that `MarkedNeighbours` comes to is a list where that fails: the call never ends |
| LinkedList.Heap.Succ | src/ll_list.cc:246-253 | from every such state: the first successor that is not S-marked, after completing the run in between; nothing else changes |
| LinkedList.Heap.Pred | src/ll_list.cc:255-325 | from every such state: ends; an unmarked word comes to name the direct predecessor, over nodes cut out and completing the runs it meets; a marked word, or one marked on the way, moves back; the node found is in the chain, unmarked, and no node that lives is skipped |
| LinkedList.Heap.PredBack | src/ll_list.cc:306-319 | moving a marked word of a node still in the chain keeps the documented invariants exactly when the node it names is not marked |
| ListRepair.MarkedNeighbours | src/ll_list.cc:306-319 | a state in which that fails: two threads stopped after marking two neighbours, and `pred_` of the second leaves a marked word that names no direct predecessor |
| LinkedList.Heap.Link | src/ll_list.cc:327-395 | from every such state: inserts `x` exactly when nobody has linked it or is linking it and `a` names `b` without a mark, and repairs the word of `b`; otherwise TWICE, RETRY or which of `a` and `b` is lost, with every word as it was |
| LinkedList.Heap.UnlinkNode | src/ll_list.cc:397-454 | from every such state: cuts `x` out exactly when `a` names it without a mark, and is done, with the link count down to the expected handles, exactly when no node outside the chain names `x`, the node behind it was not being unlinked and nobody else has a handle; FAIL when it is being unlinked by another; RETRY otherwise, after aiding a predecessor that is leaving; whether that keeps the documented invariants is told exactly |
| LinkedList.Heap.AwaitUnreferenced | src/ll_list.cc:425-446 | the walk of `unlink_` ends, and then the link count is down or no predecessor word of the chain names the node any more |
| LinkedList.Heap.FinishUnlink | src/ll_list.cc:447-453 | the final wait falls through exactly when no node outside the chain names this one and nobody else has a handle on it; then its count is what is expected and it is ready for another link |
| LinkedList.Heap.LinkAfter | src/ll_list.cc:568-585 | with nobody else at work: right behind a linked node, LOST for an unlinked one, TWICE for a node that is linked or being linked |
| LinkedList.Heap.LinkBefore | src/ll_list.cc:587-604 | with nobody else at work: right before a linked node, or the end for the head |
| LinkedList.Heap.SuccElem | src/ll_list.cc:544-554 | the next element, markers skipped, the head at the end |
| LinkedList.Heap.PredElem | src/ll_list.cc:556-566 | the previous element, markers skipped, the head at the start |
| LinkedList.Heap.Empty | src/ll_list.cc:192-195 | true exactly when there is no element |
| LinkedList.Heap.Size | src/ll_list.cc:197-207 | the number of elements, markers not counted |
| LinkedList.Heap.LinkFront | src/ll_list.cc:653-664 | the element becomes the first; false and no change when it is linked already |
| LinkedList.Heap.LinkBack | src/ll_list.cc:666-677 | the element becomes the last; false and no change when it is linked already |
| LinkedList.Heap.PopFront | src/ll_list.cc:617-633 | removes and returns the first element, with the only handle on it; ranks behind it go down by one |
| LinkedList.Heap.PopBack | src/ll_list.cc:635-651 | removes and returns the last element |
| LinkedList.Heap.ClearAndDispose | include/ilias/ll_list-inl.h:441-446 | disposes every element once, front to back |
| LinkedList.Heap.UnlinkMarker | src/ll_list.cc:951-965 | unlinks a marker; elements, other ranks and the order of the others stay |
| ListHelping.SpellsHelp | src/ll_list.cc:456-542 | completing the run behind any node of the chain leaves a list in such a state again, the run cut out and all other nodes where they were |
| ListHelping.HelpFrame | src/ll_list.cc:456-542 | it changes the words of nodes of the run and of its two neighbours only |
| LinkedList.Heap.SuccElemAmid | src/ll_list.cc:544-554 | the next node that lives and is no marker: none of the user's elements is passed over, everything being unlinked on the way is completed |
| LinkedList.Heap.PredElemAmid | src/ll_list.cc:556-566 | the previous unmarked node that is no marker; none of the user's elements is passed over, unless from a node that is cut out |
| LinkedList.Heap.SizeAmid | src/ll_list.cc:197-207 | the number of elements that nobody is unlinking; afterwards none is left half unlinked |
| LinkedList.Heap.PopFrontAmid | src/ll_list.cc:617-633 | takes the first element that nobody is unlinking, and nil exactly when there is none; the others stay, in order |
| LinkedList.Heap.PopBackAmid | src/ll_list.cc:635-651 | takes the last element that nobody is unlinking; fails, to be tried again, exactly when the element it finds is being unlinked by another thread; nil only when there is none |
| LinkedList.Heap.LinkAfterAmid | src/ll_list.cc:568-585 | inserts right behind `a` unless that is lost, or is D-marked and the round is to be repeated, or `x` is linked already; an S-marked `a` still gets its successor |
| LinkedList.Heap.LinkBeforeAmid | src/ll_list.cc:587-604 | inserts before `b` with no live node between, exactly when `b` lives and `x` can be linked; else TWICE, `b` lost, or to be repeated; what it leaves when the marked word of `b` is moved back over a marked predecessor is told too |
| ListAmid.LinkedMembers | src/ll_list.cc:568-604 | after either the elements that live are the old ones with `x` between those before and those behind its place |
| ListElements.SameRank | src/ll_list.cc:918-949 | two markers have equal rank exactly when no element separates them |
| ListOrder.RaisedByRank | src/ll_list.cc:679-743 | an element put beside a marker raises by one the ranks above that of the marker, and no rank below it |
| ListPosition.Position.Unlink | src/ll_list.cc:841-845 | both markers are out, the swap bit cleared |
| ListPosition.Position.LinkAround | src/ll_list.cc:847-876 | the markers are around the node; false when it is not linked |
| ListPosition.Position.StepForward | src/ll_list.cc:878-896 | steps over the next element, or over the head to the start, and tells which; the markers change roles |
| ListPosition.Position.StepBackward | src/ll_list.cc:898-916 | steps over the previous element, or over the head to the end |
| ListPosition.Position.Equals | src/ll_list.cc:918-949 | for two positions: both unlinked, or both linked with no element between their back markers |
| ListPosition.Position.InitBegin | src/ll_list.cc:209-231 | around the first element, the back marker right behind the head |
| ListPosition.Position.InitEnd | src/ll_list.cc:233-244 | around the head |
| ListPosition.Position.Assign | include/ilias/ll_list-inl.h:73-87 | each marker takes the rank of its counterpart, or is unlinked with it, whichever of the two are linked |
| ListPosition.Position.UnlinkAt | src/ll_list.cc:745-780 | removes the element from between the markers, which stay at its place; false when it is not linked |
| ListPosition.Position.LinkAfterPosition | src/ll_list.cc:679-710 | the element comes right behind the front marker of the other position, which keeps its rank; markers of higher rank go up by one, markers of lower rank stay; nothing changes when it is linked already |
| ListPosition.Position.LinkBeforePosition | src/ll_list.cc:712-743 | the element comes right before the back marker of the other position, whose rank goes up by one, as that of the markers of higher rank does; markers of lower rank stay |
| ListPosition.Position.ToElement | src/ll_list.cc:782-823 | around a linked element; false when it is being linked or not linked |
| ListFilter.Iterator.Next | include/ilias/ll_list-inl.h:685-696 | from element to element to the end, and from the end to the first; an iterator whose position is unlinked forgets its element |
| ListFilter.Iterator.EraseAt | include/ilias/ll_list-inl.h:456-476 | removes the element of the iterator and stands at the one behind it; the three outcomes are told apart |
| ListFilter.RemoveAndDisposeIf | include/ilias/ll_list-inl.h:568-587 | leaves exactly the elements that fail the predicate, in order, and disposes each other one once, in order; all six markers are out again |
| ListFilter.FilterIsFaithful | include/ilias/ll_list-inl.h:568-587 | kept and disposed elements together are the old ones, split by the predicate |
| ThreadpoolWakeup.NoLostWakeup | src/threadpool.cc:375-387 | with work pending and no thread still looking for a worker, some worker is neither asleep nor past a failed test |
| ThreadpoolWakeup.NoMissedNotification | src/threadpool.cc:252-264 | a waiting worker that was woken still has its notification coming |
| ThreadpoolWakeup.SleepersAreFound | src/threadpool.cc:550-619 | a sleeping worker is on the idle list, or in the hands of a thread about to wake it |
| ThreadpoolWakeup.QuietPool | src/threadpool.cc:550-619 | with nobody inside `wakeup`, waiting workers sleep and are on the idle list, and with work pending another one is awake |
| ThreadpoolWakeup.WakesAsManyAsAsked | src/threadpool.cc:375-387 | what a call of `wakeup(n)` returns is the number of workers that it moved out of SLEEP_TEST or SLEEP since it began, at most `n`, and less only if it found the idle list empty |
| ThreadpoolWakeup.CountsTheWoken | src/threadpool.cc:375-387 | the same for its count at every moment of the call, but for the worker in hand |
| ThreadpoolWakeup.CallsAndWork | src/threadpool.cc:375-387 | a call begins with the number that it was given and a count of zero; only publishing and doing work change what is pending |
| ThreadpoolWakeup.SleepsWithoutWork | src/threadpool.cc:550-619 | a worker that nobody interferes with and that finds no work comes to the front of the idle list, and sleeps |
| ThreadpoolWakeup.StaysForWork | src/threadpool.cc:598-604 | with work pending it is off the idle list again and goes on |
| ThreadpoolWakeup.WaitsOn | src/threadpool.cc:614-618 | a wait that ends for no reason is taken up again |
| ThreadpoolWakeup.GoesBackToWork | src/threadpool.cc:598-619 | a worker that was woken, before or behind its test or while it waits, goes back to work |
| ThreadpoolWakeup.WakesTheFirst | src/threadpool.cc:252-264 | a round of `wakeup` takes the first worker off the idle list, the one that went to sleep last; one that sleeps or is about to becomes busy, is notified and counted, a busy one is passed over |
| ThreadpoolWakeup.ReturnsWhenDone | src/threadpool.cc:375-387 | `wakeup` returns when its count is reached or the list is empty |
| ThreadpoolWakeup.StepKeepsInv | src/threadpool.cc:550-619 | the publish-then-test argument, step by step |
| ThreadpoolPopulation.PopulationConservation | src/threadpool.cc:424-484 | workers alive are those wanted, plus deaths outstanding, plus what calls in progress have to settle, plus units held in `must_die` |
| ThreadpoolPopulation.SettledPopulation | src/threadpool.cc:424-484 | with no call and no decision in progress, workers alive are those wanted plus the deaths outstanding |
| ThreadpoolPopulation.NoDeathWithoutUnit | src/threadpool.cc:621-652 | a worker dies only by spending a unit taken off the oversize counter, or by a kill that a call accounts for |
| ThreadpoolPopulation.NoUnitWithoutDeath | src/threadpool.cc:621-652 | a unit taken off the counter is settled by the death of the worker that took it, or put back |
| ThreadpoolPopulation.DiesIfTold | src/threadpool.cc:621-652 | a worker that asks and that nobody interferes with dies exactly if a death is outstanding, which it takes off the counter |
| ThreadpoolPopulation.SettlesUnit | src/threadpool.cc:621-652 | one that has taken a unit dies if one of the exchanges still to come finds it in the state that it expects, and puts the unit back otherwise |
| ThreadpoolPopulation.Resizes | src/threadpool.cc:424-484 | a call of `set_nthreads` that nobody interferes with: as many outstanding deaths as there are missing workers are cancelled, and only the rest is created |
| ThreadpoolPopulation.Announces | src/threadpool.cc:424-484 | with nobody left to kill, the deaths still to come are put on the counter |
| ThreadpoolPopulation.Pool.ReduceOversize | src/threadpool.cc:125-139 | takes the smaller of the limit and what there is |
| ThreadpoolPopulation.Pool.Kill | src/threadpool.cc:267-288 | true for the call that made the worker dying, and for no other |
| ThreadpoolPopulation.Pool.SetNthreads | src/threadpool.cc:424-484 | cancels deaths before creating workers; kills from the back of the idle list as many as are too many and no more, then the caller, only if the list is empty and there are still too many, and announces the rest; no other worker changes |
| FutureCallbacks.NeverTwiceNeverEarly | include/ilias/future-inl.h:1117-1202 | no function is called twice, none before the state is ready, none that was not installed |
| FutureCallbacks.ExactlyOnce | include/ilias/future-inl.h:1083-1202 | at rest every installed function was called exactly once if the state is ready, and is in the lists once if not; two-phase registrations included |
| FutureCallbacks.RunsAreFinite | include/ilias/future-inl.h:1083-1202 | every run comes to an end: no run is longer than what there was to do |
| FutureCallbacks.HoldersGoOn | src/future.cc:71-103 | no deadlock: the holder of either lock can always do its next step |
| FutureCallbacks.EverythingIsCalled | include/ilias/future-inl.h:1083-1202 | in the end of every run in which anybody tries to complete the state: exactly one has, all others got the exception, and every function was called exactly once |
| FutureCallbacks.GivesUpForAnother | src/future.cc:71-103 | the exception is met only when another one has completed the state |
| FutureCallbacks.NoCallbackIsOverwritten | include/ilias/future-inl.h:1135-1150 | the assertion of `install_callback`: `ready_cb_` is empty whenever a callback is stored there, where there is one unshared future |
| FutureCallbacks.CompletedOnce | src/future.cc:71-103 | at most one attempt completes the state, and the result stays |
| FutureCallbacks.ReservedElementIsThere | include/ilias/future-inl.h:1083-1115 | when a two-phase registration is committed, the element it reserved is in `dependants_` and still empty, whatever was registered in between |
| FutureGraph.CounterLaw | include/ilias/future-inl.h:1281-1315 | `need_resolution_` is the not-started unit plus the notifications outstanding |
| FutureGraph.CounterNeverUnderflows | include/ilias/future-inl.h:1363-1371 | the counter is positive whenever it is decremented |
| FutureGraph.FiresWhenReady | include/ilias/future-inl.h:1316-1329 | at zero the node is started and every argument is ready |
| FutureGraph.CalledOnceWhenReady | include/ilias/future-inl.h:1332-1350 | the function is called at most once, after start and readiness; the node then has what it returns for the constants and the values of the futures, each in its own place; a failed argument fails the node as itself, without a call |
| FutureGraph.CompletedWithIts | src/future.cc:71-103 | a promise that was completed holds what it was completed with, for good |
| FutureGraph.EvalIsCall | include/ilias/future-inl.h:1342-1350 | direct evaluation calls the function with the constants and the values of the futures, each in its own place |
| FutureGraph.EvalFails | include/ilias/future-inl.h:1342-1350 | with arguments that fail it fails as one of them does |
| FutureGraph.ResultsAreEvaluations | include/ilias/future-inl.h:1281-1371 | every result is that of direct recursive evaluation, whatever the order of completion |
| FutureGraph.StartedRootHoldsEvaluation | include/ilias/future-inl.h:1281-1371 | once the leaves it depends on are completed and nothing is left to do, a started node holds its evaluation |
| FutureGraph.EveryNodeCanBeStarted | include/ilias/future-inl.h:1275-1330 | when nothing is left to do every node is constructed: it is started or can be, a promise is completed or can be |
| FutureGraph.RunsAreFinite | include/ilias/future-inl.h:1281-1371 | every run comes to rest: no run is longer than what there was to do |
| WorkqMachine.LockWordsCountHolders | src/workq.cc:780-839 | `m_run_single` is set exactly while one frame holds RUN_SINGLE, `m_run_parallel` counts the other holders, across the downgrade |
| WorkqMachine.Exclusion | src/workq.cc:346-444 | two jobs that are not parallel never run at once, and no job runs twice at once |
| WorkqMachine.RunningHasAFrame | src/workq.cc:621-663 | a job is marked running exactly while one frame owns it |
| WorkqMachine.NoLostActivation | src/workq.cc:570-590 | an active job that is not running, and not of type ONCE, is on `m_runq`, about to be put there, or about to be locked |
| WorkqMachine.QuietWorkq | src/workq.cc:309-324 | with no frame busy both lock words are clear and every such job is on `m_runq` |
| WorkqMachine.JobsQueueUp | src/workq.cc:766-778 | in every step the run queues are queues: a job comes in behind all others or stays where it is, a frame that looks for a job takes the first one, a job that is taken off leaves the order of the others |
| WorkqAlone.NeverBlocked | src/workq.cc:346-444 | a frame inside an operation can always do its next step, whatever the others are at |
| WorkqAlone.LooksForWork | src/workq.cc:346-403 | a frame that locks the workq with RUN_SINGLE free, and that nobody interferes with, from any state that a run may reach: it runs the first job of `m_runq` that can be locked, under RUN_PARALLEL if that is parallel, and the job is off both queues; with no such job it has given the lock up |
| WorkqAlone.LooksForParallelWork | src/workq.cc:346-403 | with RUN_SINGLE taken: the first such job of `m_p_runq`, under RUN_PARALLEL |
| WorkqAlone.AsksForJob | src/workq.cc:405-444 | a frame that locks a job: it runs it, off the queues and under the lock for its type, exactly if the job can be locked and RUN_SINGLE is free or not needed; otherwise all is as before |
| WorkqAlone.GivesBack | src/workq.cc:309-324 | after the job ran: it may run again, is behind the others on the run queues if it was activated meanwhile and is not of type ONCE, and the lock is given up |
| WorkqAlone.Activates | src/workq.cc:570-590 | `activate`: the job is active and behind the others on the run queues if it was neither active nor running; to be run at once, unless it is of type NO_AID, it is asked for then |
| WorkqAlone.Deactivates | src/workq.cc:592-600 | `deactivate` takes the activation back |
| WorkqMachine.AssertionsHold | src/workq.cc:780-839 | the assertions made when a lock is given up or downgraded and when a job is unlocked: the lock word is set or positive, the job is marked running |
| WorkqMachine.ForgottenExactlyIfOnce | src/workq.cc:646-663 | for every type of job: some run leaves an active job that is not running on no queue and in nobody's hands exactly if the type is ONCE |
| WorkqMachine.ForgottenByUnlock | src/workq.cc:646-663 | whenever that is so, the job was activated while it ran, and unlocked after that |
| WorkqMachine.OnceActivationIsKept | src/workq.cc:646-663 | a job of type ONCE that is never activated while it runs keeps its activation, as the others do |
| WorkqRun.Workq.Activate | src/workq.cc:570-590 | an inactive job that is not running goes on the run queues behind all others, unless it is on them |
| WorkqRun.Workq.LockRun | src/workq.cc:621-643 | locks exactly an active job that is not running; active stays set for a persistent one |
| WorkqRun.Workq.Lock | src/workq.cc:346-403 | the first job that can be locked, off the queue the lock allows, gone from both queues, under the right lock; nothing is forgotten |
| WorkqRun.Workq.Unlock | src/workq.cc:309-324 | a job activated while it ran goes back on the queues, behind all others, the lock is given up |
| WorkqRun.RunInTurn | src/workq.cc:766-778 | first in, first out: two jobs activated in turn, with no other job that can be locked, are run in that order, even if the first one goes back on the queue |
| WorkqRun.FirstInFirstOut | src/workq.cc:346-403 | behind jobs that cannot be locked, two that were linked in turn are found in that order |
| Queues.WithoutOne | src/workq.cc:440-442 | a queue that a job is taken off is what stood before it followed by what stood behind it |
| Queues.WithoutKeepsOrder | src/workq.cc:440-442 | and any two others stand in their order |
| MsgQueueEvents.OneEventAtATime | include/ilias/msg_queue.h:159-182 | at most one thread is inside the event loop |
| MsgQueueEvents.IdleMeansServed | include/ilias/msg_queue.h:208-249 | whenever the state is IDLE an event started after the last fire |
| MsgQueueEvents.LastInstalledWins | include/ilias/msg_queue.h:252-283 | the effective callback is the last one installed or cleared, also from inside a running one |
| MsgQueueEvents.NoLostEvent | include/ilias/msg_queue.h:636-657 | at rest with messages and a callback, that callback's event started after the last message and after its installation |
| MsgQueueEvents.Enqueues | include/ilias/msg_queue.h:636-642 | a message put into an idle queue, with nobody interfering: one event with the callback, which is in its place again, and the queue is idle |
| MsgQueueEvents.Installs | include/ilias/msg_queue.h:649-656 | a callback installed on an idle queue: one event if there are messages, none otherwise |
| MsgQueueEvents.LeavesItToTheLoop | include/ilias/msg_queue.h:208-249 | a fire on a busy queue is done at once, and leaves the state at AGAIN |
| MsgQueueEvents.GoesRoundAgain | include/ilias/msg_queue.h:208-249 | the thread in the loop then runs one more event, with the callback installed by that time |
| MsgQueueEvents.ReplacedWhileRunning | include/ilias/msg_queue.h:252-271 | a callback replaced while it runs is not put back, and the new one is called next, messages or not |
| MsgQueueEvents.MessagesAreCounted | include/ilias/msg_queue.h:636-642 | only putting in and taking out change the number of messages; the callback can be cleared at any time, and none is in force then |
| MsgQueueRun.Queue.FireEvent | include/ilias/msg_queue.h:159-182 | runs the callback once; what it did to the queue decides which callback is in force after it |
| MsgQueueRun.Queue.Fire | include/ilias/msg_queue.h:208-249 | fires until nobody asked again; the callbacks that run, the one left in force and the messages left are as specified |
| MsgQueueRun.LastOneHasRun | include/ilias/msg_queue.h:252-271 | if messages are waiting at the end, the callback left in force is the one that ran last |
| MsgQueueRun.ReplacementRunsNext | include/ilias/msg_queue.h:252-271 | whichever callback replaces itself while it runs, and whatever else it does, the one it leaves in force, if any, runs next |
| MsgQueueRun.RunsFollow | include/ilias/msg_queue.h:208-283 | a run is followed by another one exactly if it asked for that and left a callback in force, which is the one that runs then; otherwise what it left is what is left |
| MsgQueueRun.AskedBy | include/ilias/msg_queue.h:252-271 | a run asks for another one exactly by putting a message in, or by replacing the callback, where it was not replaced or cleared before or messages are waiting |

## Left out

- Memory orders, fences and spinning: every machine assumes sequential consistency.
- Concurrent code as classes: the interleaved parts of hazard, llptr, threadpool, future, workq and msg_queue are machines over values, since a class is changed by one thread at a time; what a single run does in place is in the classes beside them, which do not capture aliasing between objects of the original.
- `llptr` destruction and `hazard_wait`: destroying a pointer while others read it is the caller's affair.
- Interleavings of list operations: one operation runs to completion at a time, from every state that the others may have stopped in; what they would do between two of its steps is not modelled. So the retry loops of `link_after_`, `link_before_` and `pop_back` are one round each, whose contract tells when it is repeated, and those of `pop_front`, `unlink` and `iterator_to` are decided by the first.
- Positions and iterators amid the unfinished work of others: `ListPosition` and `ListFilter` run when nobody else is at work on the list.
- LinkedList.Heap.UnlinkNode: where the final wait would spin for another thread it returns UnlinkWaits.
- States in which a marked predecessor word of a node of the chain names no direct predecessor: only `unlink_aid_` is followed from there, on which every other operation depends.
- LinkedList.Heap.PredElemAmid: for a node whose predecessor can be asked for without leaving the states of `Spells`, which nodes owned by their caller are, as the rules of the list demand (src/ll_list.cc:60-61).
- `position` compared with itself: `operator==` is stated for two distinct positions.
- Order among markers of equal rank: told by the marker operations of `Heap` and by `LinkAfterPosition` and `LinkBeforePosition`; the other operations on positions tell ranks only.
- ThreadpoolPopulation.PopulationConservation: failure to create a thread is left out, and so is a kill that races with the end of a worker popped off the idle list, where the worker object may be gone.
- ThreadpoolWakeup.NoLostWakeup: the pool has a fixed size, so `must_die` is false throughout; collecting dead workers and destroying the pool are left out.
- Width of counters: reference counts, link counts, `n_oversize` and `m_run_parallel` are unbounded.
- FutureGraph.CalledOnceWhenReady: plain arguments and futures of earlier nodes; `pass_promise`, `convert`, timed waits and workq-backed futures are left out.
- FutureCallbacks.ExactlyOnce: the ready branch of `register_dependant` and of its commit is read as "unlock, then call"; the code unlocks the mutex behind the back of its guard there (include/ilias/future-inl.h:1109-1114).
- WorkqMachine.NoLostActivation: jobs of type ONCE are excluded, since unlocking one does not look at its activation; `ForgottenExactlyIfOnce` says for which types that matters and `ForgottenByUnlock` in which runs. Coroutine jobs, deactivation's wait, workq switching and the queue of workqs of the service are left out.
- `monitor`, `threadpool_intf`, `prom_msg_queue`, `ll_queue`: adapters, or laws their code does not decide.
