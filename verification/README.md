# FeanorFS agent core, verified model

FeanorFS keeps a workspace as an immutable, content-addressed graph of
snapshots and moves one opaque head over it by compare-and-swap. This project
models the protocols that `agent-core` builds on that head and proves what they
promise over every input and every run:

- publishing a conflict resolution through a journal, one swap and ordered
  bookkeeping, with crashes and foreign writers at any point (`Publication`,
  `Books`, `Settlement`, `Verdict`, `Recovery`, `JobStore`, `ResolutionStates`);
- signals appended to the snapshot graph and read back as a reachability delta
  (`SnapshotGraph`, `Signals`, `SignalRuns`);
- the dispatcher of ranked offers and its depth-bounded causal search
  (`Assignments`, `Dispatcher`, `CausalAncestry`);
- the reducer of resolution profiles and the check its projection must pass
  (`Protocol`, `ProtocolRuns`, `ProtocolPass`, `ProtocolEntries`,
  `ProtocolCheck`, `ProtocolWitnesses`, `ProtocolReducer`);
- Merkle trees: preparing, storing, reading, walking and pruning them (`Trees`,
  `PreparedTree`, `TreeReader`, `TreeRoundTrip`, `Reachability`, `ObjectGc`);
- three-way reconciliation (`Reconcile`) and waiting for the head to move
  (`HeadWaiter`).

Protocols are transition systems: an `Event` datatype, `Enabled` and `Next`, and
`Exec` over any list of events, where an event that is not possible does nothing.
Loops and objects of the program are methods and classes here, each proved
against a specification that does not mention the loop.

Assumptions, stated where they are used: a content hash is an injective function
of content, an id written for the first time is fresh, snapshot graphs are
acyclic, a conflict fingerprint fixes the assignment, attempt and owner of a
recognised assignment (`ProtocolEntries` only), nobody else writes an assignment
request in the dispatcher's name (`Dispatcher` only), a durable write happens entirely or not at all, and the sync lock and the
dispatcher lock are exclusive. Parsing, sealing, path safety and chunk lookup are
function parameters; clocks, timeouts and other writers are event parameters. An
id is the number its 64 hexadecimal digits spell, so id order is numeric order.

Four places where a natural claim is stronger than the code, each with the exact
condition under which it holds:

- A job recorded `Stale` may have been published (`Verdict.StaleAfterWin`).
  Recovery's verdict can be relied on exactly when the head it finds is the
  expected or the planned one (`Verdict.TruthfulIff`); for every other head the
  same durable state arises with and without a win
  (`Verdict.BothMayHaveHappened`).
- A projection the reducer produces may fail the check that guards its storage.
  `ProtocolCheck.StepChecksIff` says for which message and projection it does, and
  `ProtocolWitnesses` holds a history for each way. The bounds on held profiles
  are looked at once per entry, so not at all while there is none.
- A revoked entry is not final, nor is a stored result: the fingerprint does not
  cover the job id, and an assignment of another job to the same fingerprint
  starts the entry over (`ProtocolEntries.ReassignmentRevives`). An entry moves
  forward exactly when no such assignment arrives
  (`ProtocolEntries.ApplyIsLaterIff`, `ProtocolEntries.StepMoves`).
- The notifier entry of a workspace can stay behind when nobody waits any more
  (`HeadWaiter.EntryCanBeLeftBehind`): a drop removes it exactly when nobody else
  holds it (`HeadWaiter.DropRemovesIffLast`), and two overlapping drops see each
  other. It is reused, never lost.

The module documentation of `resolution_protocol.rs` says an assignment is
superseded by a higher attempt; the code keeps one entry per fingerprint and never
compares attempts across entries. A comment there says an equal fingerprint means
the identical job; the fingerprint covers the conflict identity, which holds no
job id. The model follows the code.

## Model

| member | source | states |
|---|---|---|
| Publication.NextKeepsInv | agent-core/src/resolution.rs:1087-1274 | every step, crash, recovery and foreign swap keeps the protocol invariant: a planned snapshot that was ever the head won its swap, a won swap replaced its expected head for good, and a record is past the swap only if it won |
| Publication.HeadsAreRecorded | agent-core/src/resolution.rs:1208-1219 | the recorded heads are exactly the ids that were the workspace head at some moment of the run |
| Publication.CompletedOnlyIfPublished | agent-core/src/resolution.rs:1087-1274 | over every run, a job is Completed only if a snapshot planned for it was the head at some moment |
| Publication.AtMostOnePublication | agent-core/src/resolution.rs:1147-1272 | no two swaps ever win from the same prepared-against snapshot, so each job publishes at most once even when an ambiguous commit error reverts its record to Active |
| Publication.StepsFollowTransitionMap | agent-core/src/resolution.rs:201-223 | every step moves a record along the transition map only; a terminal record never changes, Completed is entered only from PublicationUncertain, the job itself never changes, and a submitted result changes only while Active and only after it asked for a human |
| Settlement.UncertainSettlesExactly | agent-core/src/resolution.rs:1324-1405 | while nobody else moves the head, whatever conflicts are registered, other records recovered and crashes happen, a settled record is Completed exactly when its swap won; then history is that of an uninterrupted run, describes the publication (path, owner, candidate hash exactly for a ready candidate), and exactly its path left the registry; if it lost, the head stays and history and registry change only for other jobs whose own win that head proves |
| Settlement.WhatJournalsProve | agent-core/src/resolution.rs:1547-1582 | during such a run the journal of the job proves a win exactly when its swap won, and after that no other journal proves anything |
| Settlement.LostAloneChangesNothing | agent-core/src/resolution.rs:1547-1600 | with no other uncertain record, a lost swap leaves head and history as they were and resolves no path |
| Publication.RecoveryConverges | agent-core/src/resolution.rs:1547-1600 | one uninterrupted recovery pass ends every uncertain record: Completed with its books done when the journal's planned head is the head, else Stale, the journal gone and nothing else changed |
| Publication.UndisturbedJobIsMarked | agent-core/src/resolution.rs:1147-1238 | from a starting world an undisturbed prepared and submitted job reaches the uncertain mark with its journal written and head, history and registry untouched |
| Publication.UndisturbedSwapCompletes | agent-core/src/resolution.rs:1250-1405 | from that mark an undisturbed swap ends Completed with the planned head, one history record, the path resolved and no journal |
| Publication.FailedCommitReverts | agent-core/src/resolution.rs:1250-1272 | whatever run led to the mark, a commit that reports failure ends Active with job and result kept, the journal gone and books untouched; the head is the planned one exactly when the report was wrong |
| Publication.RecordOnceRecords | agent-core/src/resolution.rs:1410-1439 | the record written for a publication names its path, its owner and the candidate hash exactly when a candidate was ready; earlier records stay and nothing else is added |
| Books.CompletedIsRecorded | agent-core/src/resolution.rs:1351-1439 | over every run, crashes and recoveries included, each Completed job has a history record with its path, its owner and, exactly for a ready candidate, that candidate's hash |
| Books.BooksAreHonest | agent-core/src/resolution.rs:1147-1405 | over every run a swap wins only for a conflict still listed and with a candidate or no change to publish, every history record belongs to a swap that won, and a path leaves the list only once one for it has won and is recorded |
| Books.TwoCandidatesTwoRecords | agent-core/src/resolution.rs:1410-1439 | over every run two completed jobs that published different candidate hashes have two different history records |
| Verdict.StaleAfterWin | agent-core/src/resolution.rs:1571-1581 | a won swap is recorded Stale when a foreign swap falls between the crash and the recovery |
| Verdict.TruthfulIff | agent-core/src/resolution.rs:1547-1600 | whatever run led there, recovery's verdict is what happened exactly when the head it finds is the expected or the planned one |
| Verdict.BothMayHaveHappened | agent-core/src/resolution.rs:1547-1600 | for every other head, with the journal kept or dropped, two runs from one start end in the same durable state, one after a win and one without |
| Verdict.RecoveryFollowsVerdict | agent-core/src/resolution.rs:1547-1600 | one uninterrupted recovery ends Completed exactly when the verdict says published, else Stale |
| Recovery.ResolutionEngine.CompletePublication | agent-core/src/resolution.rs:1324-1405 | afterwards history holds a record with the job's path, its owner and the candidate hash exactly for a ready candidate, appended once; the path is resolved, the record Completed and the journal gone, for this job alone |
| Recovery.ResolutionEngine.FailClosed | agent-core/src/resolution.rs:1587-1600 | marks the record Stale and drops its journal; history and registry stay |
| Recovery.ResolutionEngine.RecoverOne | agent-core/src/resolution.rs:1547-1582 | judges one record by its own journal against the head |
| Recovery.ResolutionEngine.RecoverUncertainPublications | agent-core/src/resolution.rs:1503-1545 | in whatever order the records are taken, none stays uncertain, history keeps its old records and gains exactly the completed publications, none twice, each described by its path, owner and ready candidate's hash, and exactly their paths leave the registry |
| JobStore.TrimKeepsWork | agent-core/src/resolution.rs:263-286 | trim keeps every working record in order, invents nothing, does nothing within the bound and stops exactly at it |
| JobStore.TrimEvictsOldest | agent-core/src/resolution.rs:263-286 | an evicted record is terminal and no newer than any kept terminal record |
| JobStore.RunsKeepStoreOk | agent-core/src/resolution.rs:591-624 | over every run of locally prepared jobs no two working jobs share a conflict path, no job id is stored twice and the store stays within 64 |
| JobStore.RecordsOnlyMoveForward | agent-core/src/resolution.rs:201-223 | a stored record is new, unchanged or moved along the transition map; a retained terminal record never changes; Completed comes only from PublicationUncertain |
| JobStore.PerformKeepsStoreOk | agent-core/src/integrator.rs:1701-1730 | one prepared job or one state change keeps the store free of clashes and bounded |
| JobStore.PreparedIff | agent-core/src/resolution.rs:591-624 | a job is accepted exactly when its id is new, no Active or PublicationUncertain job has its path or fingerprint, and fewer than 64 jobs are in those states, so finished jobs never block; it is stored Active as given and no such job is lost |
| JobStore.MovedIff | agent-core/src/resolution.rs:201-223 | a job is moved exactly when it is stored and the pair of states is one of the nine listed; only its state changes and no other record |
| JobStore.ResolutionStateFile.Trim | agent-core/src/resolution.rs:263-286 | the in-place trim computes the specified one |
| JobStore.ResolutionStateFile.Update | agent-core/src/resolution.rs:591-624 | a preparation is committed exactly for a new id, no job still holding the conflict and fewer than 64 such jobs, a state change exactly for one of the nine moves; a refused one changes nothing, a committed one is trimmed |
| Signals.WalkFromHead | agent-core/src/messages.rs:265-293 | the first walk loads only what the head reaches, stops at the cursor, covers everything the head reaches that the cursor does not, and without a merge every candidate reaches the cursor |
| Signals.PaintAncestry | agent-core/src/messages.rs:295-324 | the second walk paints exactly what the cursor reaches, or reports that the scan bound was really exceeded |
| Signals.DeltaIsExact | agent-core/src/messages.rs:295-324 | on an acyclic graph, candidates minus the painted ancestry are exactly reachable(head) minus reachable(after), even though nothing is painted when no merge was met |
| Signals.SubtractCursor | agent-core/src/messages.rs:295-324 | cuts the candidates down to exactly the delta, or resets for an unreached cursor or a scan over its bound |
| Signals.MatchingMessages | agent-core/src/messages.rs:326-352 | keeps, each once, exactly the messages of candidates whose author is a valid name other than "*" and whose envelope parses to a payload for the recipient, for "*", or for anyone without a recipient; each carries the payload's fields and the snapshot's author and time |
| Signals.CollectSignals | agent-core/src/messages.rs:215-375 | without a cursor reset m is returned exactly when its snapshot lies in the delta, has a valid author other than "*", and its envelope parses to a payload addressed to the recipient, to "*", or anyone when there is no recipient, with that payload's fields and the snapshot's author and time; newest first, larger id first on ties, each once. A reset is reported only for an unreached cursor, more snapshots than the scan bound or more answers than the limit, which then keeps the newest; an error names a missing reachable snapshot |
| SignalRuns.NextKeepsInv | agent-core/src/messages.rs:44-81 | every step of senders and undos keeps the graph closed, acyclic and append-only, and every candidate directly on the head it expects, with its sender's name and envelope over that head's tree, or the restored tree with the backup as second parent |
| SignalRuns.NextKeepsHistory | agent-core/src/history.rs:185-217 | the old head is an ancestor of the new one; a signal that won carries its sender's name and envelope and keeps the tree root, an undo that won has the restored root |
| SignalRuns.HeadsStayAncestors | agent-core/src/history.rs:185-217 | in every interleaving every former head is an ancestor of every later head |
| SignalRuns.DeliveredAtMostOnce | agent-core/src/messages.rs:230-367 | two reads of a chain of cursors never return the same signal |
| SignalRuns.DeliveredAtLeastOnce | agent-core/src/messages.rs:230-367 | a signal is in some read of the chain exactly when it lies between the first and the last cursor |
| SignalRuns.ExactlyOnceDelivery | agent-core/src/messages.rs:230-367 | successive reads that pass the cursor on deliver each signal in exactly one read |
| SignalRuns.Workspace.SwapHead | agent-core/src/messages.rs:64-76 | the swap happens exactly when the head is the expected one, else the current head is returned |
| SignalRuns.Workspace.PutCandidate | agent-core/src/messages.rs:400-422 | writes a snapshot with the given author, envelope and time, one parent and that parent's tree; nothing reachable changes |
| SignalRuns.Workspace.SendMessage | agent-core/src/messages.rs:44-81 | fails exactly when every one of its eight attempts met a rival, and then none of its candidates is reachable; a sent signal is the head, sits on a head that descends from the first one and carries that head's tree, and its lost candidates stay unreachable |
| Assignments.ReplyAppliedIff | agent-core/src/integrator.rs:1110-1210 | a reply is applied exactly when the selected candidate of the last, still open attempt answers its own request with a kind that fits the phase; a result then gives the phase of the same name as its outcome and an attempt Completed exactly for Completed and Blocked otherwise, a blocked reply gives Blocked twice, an acceptance Accepted twice; the acceptance or terminal id is recorded and nothing else changes |
| Assignments.ApplyProfileOk | agent-core/src/integrator.rs:1110-1210 | a reply keeps offers in draw order, earlier attempts unchanged, no offer added and nothing newly waiting to be sent |
| Assignments.StaleReplyIsNoOp | agent-core/src/integrator.rs:1038-1108 | a reply to an earlier or closed attempt, from anyone but the selected candidate, or not answering its request, changes nothing |
| Assignments.OfferNextOk | agent-core/src/integrator.rs:475-543 | the next offer is numbered after the last, selects the next ranked candidate and is empty otherwise; an open attempt before it is superseded and a closed one kept |
| Assignments.ApplyReplies | agent-core/src/integrator.rs:862-902 | a whole observation applies its replies in the program's order, acceptances first, passing over results that cannot be inspected; offers stay in draw order and at most two replies are applied |
| Assignments.AcceptedAndTerminalBothApplied | agent-core/src/integrator.rs:869-879 | an acceptance and a terminal reply delivered in one read are both applied, in whatever order the inbox delivered them; of several, the earliest acceptance and the earliest terminal reply are recorded |
| Dispatcher.NextKeepsInv | agent-core/src/integrator.rs:738-1015 | every step, crashes, lost swaps and foreign appends included, keeps published requests unique per key, and the persisted cursor from hiding the request of a pending offer |
| Dispatcher.DeltaShowsPendingRequest | agent-core/src/integrator.rs:696-727 | a snapshot in the delta since the persisted cursor passes the program's request test exactly when it is a published request for the pending offer |
| Dispatcher.InboxShowsMatching | agent-core/src/integrator.rs:662-727 | the snapshots recovery must find are exactly those with a message in an exact inbox read from the dispatcher to the drawn candidate, about the assigned snapshot, in reply to nothing, whose profile repeats assignment, attempt, candidate and terms |
| Dispatcher.RecoveryVerdict | agent-core/src/integrator.rs:696-727 | at most one snapshot passes, and none passing means no request for the pending offer is published |
| Dispatcher.AtMostOneRequest | agent-core/src/integrator.rs:475-543 | in every run, with any number of crashes, lost swaps and restarts, at most one published snapshot delivers a request per assignment and attempt |
| Dispatcher.PublishAddsOne | agent-core/src/integrator.rs:322-352 | a won swap publishes exactly the drafted request and no other |
| Dispatcher.RecoveryNeverRepublishes | agent-core/src/integrator.rs:764-823 | in every run recovery takes over a request found in the history and never sends it again, sends it when none is published, and with a lost cursor puts the assignment away without sending |
| Dispatcher.CrashBeforeRecordIsHarmless | agent-core/src/integrator.rs:764-823 | in every state that satisfies the invariant, crashing between publishing a request and recording it, then recovering, ends in exactly the uninterrupted state |
| Dispatcher.FirstOfferIsSent | agent-core/src/integrator.rs:475-543 | an undisturbed assignment offers the first ranked candidate; the new head delivers its request, recorded as attempt 0 and as the cursor |
| Dispatcher.OffersFollowDraw | agent-core/src/integrator.rs:584-641 | in every run attempt i is numbered i and selects ranked[i], only the last can be open, and there are at most min(ranked, 64) |
| Dispatcher.EarlierAttemptsAreFinal | agent-core/src/integrator.rs:862-971 | in every run earlier attempts are never rewritten and offers never undone, whatever replies arrive |
| Dispatcher.FallbackIsExact | agent-core/src/integrator.rs:908-971 | a timeout, a blocker or a revocation of accepted work asks the next ranked candidate and closes the attempt before it as timed out, blocked or revoked; with nobody left it is cancelled, stays blocked or is dropped; past 64 attempts nothing is persisted |
| Dispatcher.CompletedResultIsDone | agent-core/src/integrator.rs:1177-1193 | a Completed result of the selected candidate makes the phase and the last attempt Completed |
| Dispatcher.NoOfferAfterCompleted | agent-core/src/integrator.rs:862-971 | in every run, once the last attempt is Completed no further offer of that assignment is ever made |
| Dispatcher.LostCursorStopsOffers | agent-core/src/integrator.rs:834-860 | in every run, once a lost inbox cursor escalated an assignment no reply is applied to it and no further offer made |
| CausalAncestry.Ancestry.constructor | agent-core/src/integrator.rs:1600-1616 | the index lists a record under exactly its intent, its source and its decision's message id |
| CausalAncestry.Ancestry.RefsThrough | agent-core/src/integrator.rs:1639-1643 | exactly the causal bases, superseded decisions and orderings-after of records declaring the id |
| CausalAncestry.Ancestry.VisitLevel | agent-core/src/integrator.rs:1621-1649 | one level visits every waiting id and collects exactly the next level, or finds the older record |
| CausalAncestry.Ancestry.CausallyReferences | agent-core/src/integrator.rs:1621-1649 | true exactly when a chain of at most 32 references, each a causal base, a superseded decision or what a decision was ordered after, leads from the newer record to the older one's intent or source, cycles or not |
| CausalAncestry.Ancestry.StrictlyOldestAuthor | agent-core/src/integrator.rs:2040-2061 | returns an author only if it is older than all others and no second one is; returns none only if no author is or two are |
| PreparedTree.CountChildren | agent-core/src/prepared_tree.rs:23-48 | succeeds exactly when every tree is valid, every child is present and the work fits; counts children with repetitions |
| PreparedTree.SamePathMap | agent-core/src/prepared_tree.rs:54-95 | a finished directory and its encrypted form have the same path map, shared and repeated children included |
| PreparedTree.StuckMeansCycle | agent-core/src/prepared_tree.rs:89-91 | when nothing is ready but directories are left, they hold a cycle |
| PreparedTree.EncryptAll | agent-core/src/prepared_tree.rs:54-95 | the worklist finishes every directory exactly when the directory graph is acyclic, and the encrypted trees are acyclic |
| PreparedTree.Prepare | agent-core/src/prepared_tree.rs:15-95 | succeeds exactly for a present root, valid trees, present children, sizes within limits and an acyclic directory graph; the result is closed, acyclic, stored under its own hashes, differs from the bundle only in directory ids and flattens to the same path map |
| TreeReader.CleanNeverRepeats | agent-core/src/objects.rs:104-235 | in a tree the reader accepts no directory repeats on a path from the root |
| TreeReader.EnterDirectory | agent-core/src/objects.rs:127-230 | opening one directory keeps done plus waiting work equal to the recursive flattening, or reports an error that is really there |
| TreeReader.GetTreeState | agent-core/src/objects.rs:104-235 | the explicit stack returns exactly the recursive flattening, only within the limits and when no id repeats on a root-to-node path; each error (cycle, missing object, depth, objects, work, paths, unsafe path) names something really wrong |
| TreeReader.PathBytesIsJoinedLength | agent-core/src/objects.rs:142-155 | the bytes counted for a path are the length of the path joined with slashes |
| TreeRoundTrip.ReadIsFlatView | agent-core/src/objects.rs:104-235 | a successful read holds every file and conflict at its one path with its hash, size and mode, and nothing else; each conflict once, with base, ours and theirs in their places, their own modes, and the entry's size for the visible version only |
| TreeRoundTrip.PutBundle | agent-core/src/objects.rs:60-66 | stores a bundle exactly when it can be prepared; its path map from the new root is the bundle's own and no directory repeats on a path |
| TreeRoundTrip.StoreAndReadBack | agent-core/src/objects.rs:60-66 | storing succeeds exactly for preparable bundles, reading back exactly when the bundle also fits the reader's limits on depth, work, path bytes, output paths and safe names; what is read is the bundle's flat view, and cycle, missing object and object count are never the reason |
| TreeRoundTrip.FlatSameShape | agent-core/src/prepared_tree.rs:54-95 | the stored and the logical unfolding have the same paths in the same order |
| TreeRoundTrip.FlatUnique | agent-core/src/objects.rs:145-201 | in a tree the reader accepts every path occurs once |
| Reachability.InsertAll | agent-core/src/objects.rs:556-565 | adds all ids, or stops only at the manifest bound with a new id still missing |
| Reachability.WalkSnapshots | agent-core/src/objects.rs:270-289 | visits exactly the snapshots reachable from the start, collects exactly their roots and counts exactly their work; a missing snapshot, a full manifest or exhausted work is reported only if reachable snapshots prove it |
| Reachability.GatherEntries | agent-core/src/objects.rs:333-405 | exactly what one directory's entries need is gathered: a file's hash, a conflict's visible hash and its present base, ours and theirs, and the chunks of each when expanded; its subdirectories are queued, and work and path bytes grow by exactly its own |
| Reachability.GatheredExactly | agent-core/src/objects.rs:291-409 | when nothing waits, exactly the objects below the roots were gathered, despite expanding each (directory, path) once |
| Reachability.OpenDirectory | agent-core/src/objects.rs:317-405 | the checks of one directory in the program's order, then its entries; each error names something really wrong |
| Reachability.WalkTrees | agent-core/src/objects.rs:291-409 | success gathers exactly the objects below the roots and every directory there was present; each error is justified by directories really below a root |
| Reachability.SnapshotReachability | agent-core/src/objects.rs:265-410 | success returns exactly the reachable snapshots, the directories found at some path below their roots and, for each entry there, a file's hash, a conflict's visible hash and each of base, ours and theirs that is present, with every such version's chunks when expanded; nothing needed is missing; every error (missing object, cycle or depth, manifest size, work, path bytes, object count, unsafe path) is true of that closure |
| ObjectGc.ClosureStable | agent-core/src/objects.rs:265-410 | a complete closure never changes as further objects are stored |
| ObjectGc.TruthfulStable | agent-core/src/objects.rs:449-456 | manifests written from closures keep listing exactly the closure while objects are only added |
| ObjectGc.PruneSparesReferenced | agent-core/src/object_gc.rs:57-86 | no cached object in the closure a referenced snapshot's manifest was written from is deleted, nor that manifest |
| ObjectGc.PruneLeavesNoStray | agent-core/src/object_gc.rs:72-86 | afterwards the cache holds exactly the cached objects some remaining manifest lists |
| ObjectGc.DeletedIsOld | agent-core/src/object_gc.rs:57-71 | a deleted manifest is neither referenced nor recent, and fifty distinct manifests that stay are no older |
| ObjectGc.OldIsDeleted | agent-core/src/object_gc.rs:57-71 | with fifty newer manifests one stays exactly if it is referenced or recent |
| ObjectGc.NewestAreKept | agent-core/src/object_gc.rs:57-71 | a manifest with fewer than fifty others at least as new stays |
| ObjectGc.LocalCache.ReferencedSnapshots | agent-core/src/object_gc.rs:90-116 | exactly the snapshots named by the workspace, last-synced and agent base references |
| ObjectGc.LocalCache.SiftManifests | agent-core/src/object_gc.rs:57-71 | newest first, deletes exactly the manifests not kept and collects what the kept ones list |
| ObjectGc.LocalCache.DropObjects | agent-core/src/object_gc.rs:78-86 | deletes exactly the cached objects that are not live |
| ObjectGc.LocalCache.Prune | agent-core/src/object_gc.rs:33-87 | deletes nothing when a referenced snapshot has no manifest, otherwise has exactly the specified outcome |
| ObjectGc.LocalCache.CacheManifest | agent-core/src/objects.rs:449-456 | writing a manifest from the computed closure and pruning keeps all manifests truthful and loses no cached object a referenced snapshot needs |
| Reconcile.SameContent | agent-core/src/tree_reconcile.rs:139-145 | two sides are the same exactly when both are absent or agree on hash and mode |
| Reconcile.PathLeIff | agent-core/src/tree_reconcile.rs:131-135 | paths are ordered as strings: a prefix first, else by the first difference |
| Reconcile.ReconcileSets | agent-core/src/tree_reconcile.rs:103-137 | uploads exactly the paths changed locally only whose bytes, mode or presence differ, downloads or deletes exactly those changed remotely only, tombstones counting as absent, in path order without repetition |
| Reconcile.ReconcileChanges | agent-core/src/tree_reconcile.rs:70-101 | the same from change lists; the base holds for each path what the last change that started from a file says it was |
| Reconcile.ReconcileViews | agent-core/src/tree_reconcile.rs:11-68 | which of the three ways is taken (no agreed base; from format 3 a missing head, before it an empty listing; otherwise the change lists) and its exact response |
| Reconcile.ReconcileIsThreeWayMerge | agent-core/src/tree_reconcile.rs:60-67 | against exact change lists, carrying out the response gives both sides the three-way merge of base, local and remote on every path |
| Reconcile.AgreementAfter | agent-core/src/tree_reconcile.rs:116-130 | the sides agree afterwards exactly on paths not changed differently on both, which stay untouched on both; no local edit or deletion and no remote one is overwritten |
| Reconcile.BaseIsAgreedContent | agent-core/src/tree_reconcile.rs:84-99 | the returned base holds the agreed content of exactly the changed paths |
| Reconcile.RestoredHubIsRefilled | agent-core/src/tree_reconcile.rs:29-59 | a restored hub leads to no download and no local deletion, and an empty one receives every local file |
| Reconcile.NothingAgreedYet | agent-core/src/tree_reconcile.rs:18-28 | without an agreed base a side wins a path only where the other has no record, tombstones included, and nothing is deleted locally |
| HeadWaiter.DropRemovesIffLast | agent-core/src/hub.rs:46-60 | the drop check removes the notifier entry exactly when no other waiter holds it |
| HeadWaiter.NextKeepsFindable | agent-core/src/hub.rs:187-286 | every registered waiter stays on the notifier its workspace's swappers will find |
| HeadWaiter.NextKeepsSleepers | agent-core/src/hub.rs:237-286 | every step keeps each sleeper up to date, notified, or owed a notification |
| HeadWaiter.SleeperOnMovedHead | agent-core/src/hub.rs:249-297 | in every reachable world a waiter asleep on a moved head is notified or some swapper has still to notify |
| HeadWaiter.SwapKeepsSleepers | agent-core/src/hub/routes_objects.rs:80-90 | an accepted swap under a sleeper leaves a swapper that has still to notify its workspace |
| HeadWaiter.NoLostWakeup | agent-core/src/hub.rs:249-297 | once that swapper has notified, the sleeper can wake, whatever happened in between |
| HeadWaiter.NotifyReachesWorkspace | agent-core/src/hub.rs:288-297 | in every reachable world a notification marks exactly the enabled or sleeping requests of that workspace and changes nothing else |
| HeadWaiter.QuietSleeperCanWake | agent-core/src/hub.rs:269-285 | with no notification outstanding a sleeper on a moved head can wake and then answers the moved head |
| HeadWaiter.DropSparesOthers | agent-core/src/hub.rs:46-60 | dropping one waiter never removes a notifier another is registered on |
| HeadWaiter.OverlappingDropsLeaveEntry | agent-core/src/hub.rs:46-60 | two overlapping drops on one workspace leave its entry in the map |
| HeadWaiter.EntryCanBeLeftBehind | agent-core/src/hub.rs:46-60 | a run from a fresh hub after which every waiter is done and the entry is still there |
| HeadWaiter.LocalHub.RegisterWaiter | agent-core/src/hub.rs:237-248 | clones the workspace's notifier, creating it only when there is none |
| HeadWaiter.LocalHub.CheckDrop | agent-core/src/hub.rs:46-60 | removes the entry exactly when it is the waiter's own notifier with two references |
| HeadWaiter.LocalHub.NotifyHeadWaiters | agent-core/src/hub.rs:288-297 | marks exactly the listeners of the workspace's notifier |
| HeadWaiter.LocalHub.RequestHeadWithWait | agent-core/src/hub.rs:187-286 | with others acting between all its steps, its drop included, the answer was the head at some moment of the request; a head that already differs is answered at once; a sleeper that is notified, or whose head moved with nobody left to notify, answers the head of that moment |
| ProtocolRuns.RegisterKeeps | agent-core/src/resolution_protocol.rs:288-299 | applied ids stay ascending, distinct and within 4096 and contain the new id; exactly a new id on a full list raises the incomplete flag, and then the larger half is kept |
| ProtocolRuns.HoldKeeps | agent-core/src/resolution_protocol.rs:506-552 | a profile that cannot bind yet is held and holding loses nothing; the flag is raised exactly for a new one past eight per fingerprint or sixty-four fingerprints, and holding it again changes nothing |
| ProtocolRuns.DrainAllKeeps | agent-core/src/resolution_protocol.rs:436-468 | every drained profile is applied or held again |
| ProtocolRuns.MakeRoomKeeps | agent-core/src/resolution_protocol.rs:560-576 | below 64 entries nothing changes; at 64 only the revoked entry with the smallest fingerprint is dropped, and without one the flag is raised |
| ProtocolRuns.NothingLostSilently | agent-core/src/resolution_protocol.rs:473-606 | over every run of batches, unless flagged incomplete, each processed profile message is recorded as applied or held; applied ids stay ascending, distinct and at most 4096, entries at most 64 |
| ProtocolRuns.DeliveryOrderDoesNotMatter | agent-core/src/resolution_protocol.rs:478-484 | every delivery order of distinct ids gives the same projection and imports, or the same error |
| ProtocolRuns.CutAtIdBoundary | agent-core/src/resolution_protocol.rs:473-606 | feeding the lower ids first and then the higher ones equals feeding all at once |
| ProtocolRuns.BatchingDoesNotMatter | agent-core/src/resolution_protocol.rs:473-606 | a history cut at id boundaries any number of times, in any order within each piece, reduces to what the whole reduces to |
| ProtocolRuns.ApplySourced | agent-core/src/resolution_protocol.rs:315-431 | applying a profile keeps an entry's job, result and answer bound to it and said by a processed message |
| ProtocolRuns.StoredFactsAreSourced | agent-core/src/resolution_protocol.rs:315-606 | over every run each stored result came from a processed message sent by the entry's owner, and results, answers and jobs match job, assignment, attempt and fingerprint; the processed message with the entry's observed id explains its state: an assignment of its job for Assigned, its result and generation for ResultReceived, its answer for HumanAnswered, a revocation with its reason for Revoked |
| ProtocolRuns.BatchImports | agent-core/src/resolution_protocol.rs:473-606 | after every run a further batch imports every job an entry newly holds, and nothing no processed message assigned |
| ProtocolPass.DrainIsPass | agent-core/src/resolution_protocol.rs:436-468 | draining replaces exactly the entry and the held profiles of one fingerprint, as one pass over them in id order says |
| ProtocolPass.RunTidy | agent-core/src/resolution_protocol.rs:506-552 | over every run held profiles stay in strict id order and are never assignments |
| ProtocolCheck.PassOutdatedIff | agent-core/src/resolution_protocol.rs:436-468 | however many profiles are held, two of them decide whether the pass leaves an answer to another question generation |
| ProtocolCheck.KeptIsLeft | agent-core/src/resolution_protocol.rs:436-468 | after a first assignment exactly the profiles about something else and the answers to a generation not in force stay held |
| ProtocolCheck.StepChecksIff | agent-core/src/resolution_protocol.rs:201-283 | a projection that passed its check passes it after a message exactly unless the message overflows the held profiles while there is an entry, leaves an outdated answer, or is the first assignment while too much is held |
| ProtocolCheck.StoredIsProjection | agent-core/src/resolution_protocol.rs:695-728 | what is stored always passes its check and is the projection of the observations that were stored |
| ProtocolCheck.MessageStoredIff | agent-core/src/resolution_protocol.rs:695-728 | over every run one more message is stored exactly when it reduces and does not break the check |
| ProtocolWitnesses.AnswerOvertakenByResult | agent-core/src/resolution_protocol.rs:381-383 | a three-message history whose projection fails its check on the answer's generation |
| ProtocolWitnesses.TooManyForOneFingerprint | agent-core/src/resolution_protocol.rs:516-523 | an assignment and more than eight stray profiles for another fingerprint: the check fails |
| ProtocolWitnesses.TooManyFingerprints | agent-core/src/resolution_protocol.rs:516-523 | an assignment and a stray profile for each of more than sixty-four fingerprints: the check fails |
| ProtocolWitnesses.OverflowShowsWithFirstEntry | agent-core/src/resolution_protocol.rs:248-256 | without an entry the same overflow passes, and the first assignment makes it fail |
| ProtocolCheck.HoldBounded | agent-core/src/resolution_protocol.rs:506-524 | holding stays within the pending bounds exactly when there was room or nothing was added |
| ProtocolEntries.ApplyIsLaterIff | agent-core/src/resolution_protocol.rs:315-431 | as the fingerprint fixes assignment, attempt and owner, a profile never collides with its entry and moves it forward (same assignment, no stored result or answer dropped, not back to Assigned, revoked final) exactly unless it assigns another job id, which starts the entry over with an import |
| ProtocolEntries.ProfileReachesItsEntry | agent-core/src/resolution_protocol.rs:484-556 | unless flagged, a profile about a fingerprint with an entry is tried on that entry: held for exactly that fingerprint when the entry cannot take it, accounted for otherwise |
| ProtocolEntries.StepMoves | agent-core/src/resolution_protocol.rs:484-604 | one message moves only the entry it names, forward exactly unless it reassigns it; a new or restarted entry comes with exactly one import of its job; an entry disappears only if revoked, when full, for a new assignment |
| ProtocolEntries.ReassignmentRevives | agent-core/src/resolution_protocol.rs:334-355 | a four-message history in which an assignment of another job to the same fingerprint revives a revoked entry and drops its result |
| ProtocolEntries.RunNeverCollides | agent-core/src/resolution_protocol.rs:334-340 | over every run the collision error never occurs, so a batch fails only on a second, different result or answer |
| ProtocolReducer.FindId | agent-core/src/resolution_protocol.rs:289-298 | binary search finds an applied id or its place |
| ProtocolReducer.FindRevoked | agent-core/src/resolution_protocol.rs:563-567 | the revoked entry with the smallest fingerprint, if there is one |
| ProtocolReducer.Reducer.Register | agent-core/src/resolution_protocol.rs:288-299 | the in-place registration computes the specified one |
| ProtocolReducer.Reducer.DrainPending | agent-core/src/resolution_protocol.rs:436-468 | the in-place pass over held profiles computes the specified one, error included |
| ProtocolReducer.Reducer.HoldForLater | agent-core/src/resolution_protocol.rs:506-524 | the in-place hold computes the specified one |
| ProtocolReducer.Reducer.AssignFirst | agent-core/src/resolution_protocol.rs:557-601 | a first assignment evicts, registers, inserts and drains as specified |
| ProtocolReducer.Reducer.ApplyBatch | agent-core/src/resolution_protocol.rs:473-606 | the in-place batch computes exactly the reduction of the sorted batch and fails exactly when it fails; if the fields were sourced in a set of messages that holds the batch they are afterwards, each entry's state explained by its last message, and every job newly held is imported |

## Left out

- Encryption, hashing, JSON and message envelopes: parameters here; their code is not part of this model.
- HTTP routes, client API, FFI, bindings, locks, clocks, jitter and backoff: transport and timing around the modelled protocols.
- `snapshot_diff.rs` and `large_file.rs`: a change list and a chunk set are inputs with a stated contract.
- Hydration, conflict artifacts, log messages and deadline or freshness checks of submissions: best effort or wall-clock work around the job state machine.
- `submit_resolution_result` is one event of Publication and an answer has none of its own: the checks on a candidate's content and the question generation of a local job are not modelled.
- `import_resolution_job` is an event of Publication but not an operation of JobStore, since an imported job skips the path, fingerprint and count checks.
- The conflict gate of `conflicts.rs` and the sync pass that carries a reconcile response out: the response's effect is modelled as two functions of a path.
- Archived assignment history and roster drawing in `integrator.rs`: no property of the offers depends on them.
- Settlement.UncertainSettlesExactly: no other job plans its own publication meanwhile, since its swap would move the head.
- Dispatcher.AtMostOneRequest: a swap takes effect at once or not at all; one that the hub carries out after the dispatcher has crashed and recovered is not modelled.
- SignalRuns.HeadsStayAncestors: the head never disappears; the program aborts a send or an undo when it does.
- SignalRuns.Workspace.SendMessage: transport errors and the checks on sender, recipient and references before the loop are not modelled.
- TreeRoundTrip.StoreAndReadBack: a name counts one per element towards the path-byte limit, as when names are sequences of bytes.
- ObjectGc.LocalCache.Prune: the once-a-minute throttle, unreadable directories and files that are not named by an object id are not modelled; a manifest written without chunk expansion protects no chunks.
- HeadWaiter.LocalHub.RequestHeadWithWait: request validation answers and storage read failures are not modelled, and a waiter that is not notified by the end of its sleep times out.
- ProtocolReducer.Reducer.ApplyBatch: nothing is said about the fields after a failed batch, because the caller discards them.
