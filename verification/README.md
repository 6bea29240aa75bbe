# Verified model of the native memory store and its hooks

This project models, in Dafny 4.11, the parts of the memory bundle whose correctness is not
visible in any single function: the append-only event log and the incremental folds over it,
the shared snapshot, the write batches and their three paths, importance updates with
rollback, the repair sweep, the ownership of a memory home, and five smaller algorithms with
real proofs. `dafny verify dfyconfig.toml` checks everything.

## What is where

| file | models |
|---|---|
| `event_log.dfy` | positions and events, kernels under append and compaction, the constant-time prefix check |
| `search_fold.dfy` | the ref memo and the search fold, as classes whose lazy parts are built or extended in place |
| `slices.dfy`, `facts.dfy` | per-subject and vector views; fact validity, the last word wins |
| `snapshot_protocol.dfy` | the guarded fields as a class, each lock region a method, and a transition system over any number of threads |
| `batch.dfy`, `filed.dfy` | direct batch, gateway batch and server loop; `file` on three paths; what filing does to facts, order and matrix |
| `importance.dfy` | `update_importance` and `rollback`, against the in-memory map store |
| `sweep.dfy`, `sweep_races.dfy` | the `needs_embedding` sweep on its own, and racing with `remember`, exceptions and crashes |
| `ownership.dfy` | daemons, the lifetime lock, daemon.json, and clients with their breakable spawn lock |
| `clusters.dfy` | breadth-first clustering and the adjacency it is given |
| `capture.dfy` | spool, queue, drain thread, futures and replay, with a crash after any step |
| `text.dfy`, `lines.dfy`, `chunking.dfy`, `compaction.dfy` | white space and lines; chunking; the consolidating context |
| `ranking.dfy`, `interject.dfy` | the hybrid rank; cooldown, briefed ids, guard flag and the injection text |

Protocols are transition systems: a state, an action, when it is enabled, what it does. A
theorem about them speaks of every run. A class method is proved against a function of the
old state, and the theorems are proved of those functions; the snapshot slot carries the whole
reachable state of the protocol as a ghost field, so its methods promise what the theorems say.

## Assumptions

- A content address is an injective function of the cell, and a token string never equals one.
- The kernel appends a batch whole or not at all and calls its observers during the append.
- An edge asserts the fact it spells, unless its type carries the invalidation prefix; the last
  assertion or invalidation of a fact wins.
- The operating system releases a lock when its holder dies and gives live processes distinct pids.

## Where the code and its comments part

- Replay counts `capture_failed` as finished, so the spool entry that
  `modules/hooks-memory-capture/amplifier_module_hooks_memory_capture/__init__.py:711` keeps for a
  retry is deleted by the next replay (`Capture.FailedIsDroppedByReplay`).
- `remember` files and marks in two appends; a crash between them leaves a drawer no sweep finds
  (`SweepRaces.CrashLosesADrawer`).
- `update_importance` of the native store writes before it checks the record's contract, the
  in-memory store after (`Importance.ViolationKeepsWrite`).
- A matrix extension never looks again at an edge whose cell was missing
  (`SearchFolds.LateCellLosesARow`); `file` never makes such an edge.
- A client whose spawn lock was broken unlinks its successor's (`Ownership.BrokenLockAdmitsTwo`);
  the lifetime lock is what keeps the daemons apart.
- `_chunk_text` does raise, for a zero bound; `keep_recent_messages` of zero prepends a memory
  message and evicts nothing.
- A first system message that starts with the memory prefix is taken for a note. Its own first
  line is lost unless that line stands elsewhere in what went (`Compaction.NothingLostExactly`,
  `Compaction.ImitationLosesItsLine`).
- A message added while a consolidation pass is suspended stays in the raw history, but is
  neither in the window nor in the note (`Compaction.SleepConsolidatingContext.Resume`).
- The gateway's `write_cell` accepts `interpreters` and drops them, so a program that names one
  commits another cell than a direct batch (`Batches.GatewayIsDirectIffPlain`).
- A daemon interrupted after it wrote daemon.json and before its serving `try`, or again during
  its clean-up, leaves the file behind (`Ownership.InterruptLeavesTheFile`).
- With events off, the worker's last-resort guard deletes a spool entry that nothing else
  remembers (`Capture.LostWithoutEvents`); no other step loses one (`Capture.LosesExactly`).
- `ReversibleDelta.inverse` undoes an update only if the update changed nothing
  (`Importance.InverseUndoesOnlyNoChange`); `rollback` does not use it.
- Clusters are all connected components if and only if whatever is reached reaches back
  (`Clusters.AllComponentsExactly`), which an adjacency made of separate searches need not
  satisfy; where it fails between two keys their order decides (`Clusters.FirstKeyDecides`).

## Model

| member | source | states |
|---|---|---|
| EventLog.PickAllIsWhole | modules/tool-memory/amplifier_module_tool_memory/store.py:226-243 | n increasing entries chosen from n increasing entries are all of them, in place (the pigeonhole behind the constant-time check) |
| EventLog.BoundaryCheckSound | modules/tool-memory/amplifier_module_tool_memory/store.py:79-82 | between two logs of one kernel, in either order of reading, matching length and boundary position holds exactly when one log is a literal prefix of the other |
| EventLog.BoundaryCheckNeedsOneKernel | modules/tool-memory/amplifier_module_tool_memory/store.py:232-236 | two logs that number their events independently can match on the boundary and differ |
| EventLog.RunRewrites | modules/tool-memory/amplifier_module_tool_memory/store.py:64-66 | over any run of appends and compactions every later log only drops earlier entries and adds entries with larger positions |
| EventLog.RunBoundaryCheckExact | modules/tool-memory/amplifier_module_tool_memory/store.py:226-243 | so along any run the check decides exactly whether one log continues another |
| EventLog.AddressesCells | modules/tool-memory/amplifier_module_tool_memory/store.py:86-90 | a cell has a content address, no other event has, and two cells share one only if they are the same |
| SearchFolds.RefCache.RefsFor | modules/tool-memory/amplifier_module_tool_memory/store.py:77-90 | whatever was memoised, and for shorter or compacted logs too, the refs are those of hashing every event afresh |
| SearchFolds.SearchFold.constructor | modules/tool-memory/amplifier_module_tool_memory/store.py:150-224 | a fold over a log, extended from a prior fold or not, holds exactly the refs, payload join, subject index and edge list of a rebuild, and builds eagerly only what the prior had built |
| SearchFolds.SearchFold.Inherit | modules/tool-memory/amplifier_module_tool_memory/store.py:193-223 | the prior is extended exactly when its events are a prefix of the new log |
| SearchFolds.SearchFold.ExtendPayloads | modules/tool-memory/amplifier_module_tool_memory/store.py:198-206 | extending by the tail gives the payload join of the whole log |
| SearchFolds.SearchFold.ExtendBySubject | modules/tool-memory/amplifier_module_tool_memory/store.py:245-261 | extending by the tail gives the subject index of the whole log, or stays unbuilt |
| SearchFolds.SearchFold.ExtendEmbeddingEdges | modules/tool-memory/amplifier_module_tool_memory/store.py:263-277 | extending by the tail gives the edge list of the whole log, or stays unbuilt |
| SearchFolds.SearchFold.ForSubject | modules/tool-memory/amplifier_module_tool_memory/store.py:283-298 | lazily or from the inherited index, exactly the edges out of the subject, in log order |
| SearchFolds.SearchFold.EmbeddingEdgeList | modules/tool-memory/amplifier_module_tool_memory/store.py:330-348 | lazily or from the inherited list, exactly the embedding edges of the log, in order |
| SearchFolds.SearchFold.VectorViewEvents | modules/tool-memory/amplifier_module_tool_memory/store.py:300-328 | exactly the embedding and scope edges and the cells some embedding edge points from, in order |
| SearchFolds.SearchFold.VectorMatrix | modules/tool-memory/amplifier_module_tool_memory/store.py:367-422 | the answer is that of the accumulated extensions, and the rebuilt matrix (with the same mixed-dimension and malformed outcomes) when embedding cells precede their edges |
| SearchFolds.SearchFold.ExtendMatrix | modules/tool-memory/amplifier_module_tool_memory/store.py:392-418 | the row loop stops at the first mixed dimension or malformed cell and otherwise appends one row per resolved edge |
| SearchFolds.IncrementalMatrixExact | modules/tool-memory/amplifier_module_tool_memory/store.py:377-422 | along any chain of folds the incremental matrix equals the rebuilt one if no edge found its cell late, and a matrix equals it only then |
| SearchFolds.LateCellLosesARow | modules/tool-memory/amplifier_module_tool_memory/store.py:393-395 | a concrete chain in which an edge precedes its cell and the row stays missing |
| SearchFolds.NoLateCells | modules/tool-memory/amplifier_module_tool_memory/store.py:723-725 | writing each embedding cell before its edge rules late cells out, wherever folds were built |
| SearchFolds.MatrixIffUniform | modules/tool-memory/amplifier_module_tool_memory/store.py:396-409 | a matrix exists exactly when every embedding is whole floats of one dimension; its rows are the embeddings in order |
| SearchFolds.UniformAnswered | modules/tool-memory/amplifier_module_tool_memory/store.py:396-422 | a caller is answered with one unpacked row for each embedding, next to the ref it embeds, whenever all have one dimension |
| SearchFolds.FirstMisfitDecides | modules/tool-memory/amplifier_module_tool_memory/store.py:396-409 | otherwise the first embedding that does not fit decides: another dimension makes it mixed, part of a float makes it malformed |
| SearchFolds.MisfitReported | modules/tool-memory/amplifier_module_tool_memory/store.py:396-409 | and with that first one the caller gets no matrix, or an exception exactly when it is a part of a float of the same dimension |
| SearchFolds.MatrixEqualsRebuild | modules/tool-memory/amplifier_module_tool_memory/store.py:350-422 | an answer of the incremental matrix is an answer of the rebuild and conversely, when cells precede edges |
| SearchFolds.FoldsAlongRun | modules/tool-memory/amplifier_module_tool_memory/store.py:1076-1088 | readers materialising the logs of any run in any order, each extending the longest fold kept with whatever parts it has built, and forcing any lazy parts of their own, the matrix or not: each matrix asked for is the rebuild's for every log whose embedding cells precede their edges |
| Slices.SubjectSliceExact | modules/tool-memory/amplifier_module_tool_memory/store.py:283-288 | any lens that looks only at edges out of a subject answers over the subject's slice as over the whole log |
| Slices.FactsSliceExact | modules/tool-memory/amplifier_module_tool_memory/store.py:283-298 | the currently valid facts of a subject are the same over its slice |
| Slices.NeighborsSliceExact | modules/tool-memory/amplifier_module_tool_memory/store.py:283-298 | the neighbours of a subject, by type or not, are the same over its slice |
| Slices.NeighborsExact | modules/tool-memory/amplifier_module_tool_memory/store.py:283-298 | a neighbour is exactly the target of an edge of the type asked for out of the subject |
| Slices.VectorViewExact | modules/tool-memory/amplifier_module_tool_memory/store.py:300-328 | the embedding join, the matrix and the scope fold over the vector view are those of the whole log |
| Slices.ViewMembers | modules/tool-memory/amplifier_module_tool_memory/store.py:300-328 | the view holds just those events: every embedding and scope edge, and a cell exactly if an embedding edge points from it |
| Slices.ScopeEdgesExact | modules/tool-memory/amplifier_module_tool_memory/store.py:300-328 | the scope fold holds exactly the scope edges |
| Facts.LastWins | modules/tool-memory/tests/test_amplifier_data_store.py:83-92 | a fact is valid exactly when some event speaks of it and the last one to do so is an assertion |
| Facts.AssertInvalidateEffect | modules/tool-memory/tests/test_amplifier_data_store.py:83-92 | an assertion adds its fact, an invalidation removes it, and no other fact changes |
| SnapshotProtocol.SnapshotSlot.DecideRegion | modules/tool-memory/amplifier_module_tool_memory/store.py:1028-1047 | in any reachable state: a fold is reused exactly while young, and then holds all that had been notified when the call began; a build joined is signalled already or owned by another thread; a build owned is the only one of its generation; and the call goes on as decided |
| SnapshotProtocol.SnapshotSlot.RecheckRegion | modules/tool-memory/amplifier_module_tool_memory/store.py:1050-1056 | what a waiter finds holds all that had been notified when its call began; it finds something exactly when a snapshot of its generation is there, and builds for itself otherwise |
| SnapshotProtocol.SnapshotSlot.UpdatePriorFold | modules/tool-memory/amplifier_module_tool_memory/store.py:1081-1090 | the extension base never gets shorter, holds all that had been notified when the storing call began, and the idle time starts again |
| SnapshotProtocol.SnapshotSlot.PublishRegion | modules/tool-memory/amplifier_module_tool_memory/store.py:1062-1067 | a fold is published exactly if no append was notified since its build began, and whatever the slot holds then covers everything notified so far |
| SnapshotProtocol.SnapshotSlot.ClearRegion | modules/tool-memory/amplifier_module_tool_memory/store.py:1069-1071 | the slot changes only if it held this build, and never when it holds another build in flight |
| SnapshotProtocol.SnapshotSlot.Append | modules/tool-memory/amplifier_module_tool_memory/store.py:1120-1123 | no snapshot outlives an append, and no build in flight can publish one any more |
| SnapshotProtocol.SnapshotSlot.ArmExpiry | modules/tool-memory/amplifier_module_tool_memory/store.py:1125-1145 | afterwards exactly one timer is pending, the earlier one if there was one, and a re-arm owed is owed no more |
| SnapshotProtocol.SnapshotSlot.ExpireSnapshot | modules/tool-memory/amplifier_module_tool_memory/store.py:1168-1177 | afterwards no timer is pending, and either nothing is retained or everything is and a re-arm is owed; once nothing was built for the reuse time, nothing is retained at all |
| SnapshotProtocol.FreshAlways | modules/tool-memory/amplifier_module_tool_memory/store.py:1028-1074 | in every reachable state the snapshot and every fold in flight cover what they have to |
| SnapshotProtocol.SnapshotFresh | modules/tool-memory/amplifier_module_tool_memory/store.py:1012-1074 | in every interleaving the fold a call returns holds every event whose notification had finished when the call began, on the reuse, waiter and owner paths |
| SnapshotProtocol.ReusedExactlyWhileYoung | modules/tool-memory/amplifier_module_tool_memory/store.py:1028-1036 | a call is answered without a build exactly when a snapshot younger than the reuse time is there; it is of the current generation and stays |
| SnapshotProtocol.AgeCountsFromEntry | modules/tool-memory/amplifier_module_tool_memory/store.py:1027-1067 | over any run the time a published snapshot is aged from is the moment some call entered, never the later moment it was built or published |
| SnapshotProtocol.OwnerCallExact | modules/tool-memory/amplifier_module_tool_memory/store.py:1028-1074 | a call left alone that finds neither a young snapshot nor a build of its generation returns everything appended, leaves it as the snapshot, aged from its own entry, and as the extension base, and leaves its event set, no build under way and a timer pending |
| SnapshotProtocol.WaiterCallExact | modules/tool-memory/amplifier_module_tool_memory/store.py:1048-1056 | a waiter left alone that finds nothing of the build it joined returns everything appended, keeps that as the base and publishes nothing |
| SnapshotProtocol.RaisingBuildExact | modules/tool-memory/amplifier_module_tool_memory/store.py:1059-1072 | a build that raises fails its call; an owner's takes itself out of the slot and sets its event, and nothing else changes |
| SnapshotProtocol.HistoryExact | modules/tool-memory/amplifier_module_tool_memory/store.py:1012-1123 | what the theorems about runs measure against: the log, the notified events and the clock of every state are those of the appends, notifications and ticks of the run so far |
| SnapshotProtocol.FlightAlways | modules/tool-memory/amplifier_module_tool_memory/store.py:1037-1072 | in every reachable state each waiter's build event is set or has one live owner, and the slot is held by a live owner |
| SnapshotProtocol.SingleFlight | modules/tool-memory/amplifier_module_tool_memory/store.py:1037-1047 | at most one owner build is in flight per generation |
| SnapshotProtocol.LateOwnerHarmless | modules/tool-memory/amplifier_module_tool_memory/store.py:1068-1072 | no step of another thread, raising or not, takes the slot from an owner in flight, whatever either one's generation, but one: a reader entering when that generation is past takes it for a build of the current generation |
| SnapshotProtocol.OwnerSignals | modules/tool-memory/amplifier_module_tool_memory/store.py:1059-1072 | along any run, whatever other threads do and whether builds raise or not, an owner has set its event once it has taken the steps it had left, and until then nothing keeps it from the next one |
| SnapshotProtocol.NoStuckReader | modules/tool-memory/amplifier_module_tool_memory/store.py:1048-1072 | whenever a reader waits, its event is set already or there is one other, never blocked thread that along any continuation has set it once it has taken six steps |
| SnapshotProtocol.TimerAlways | modules/tool-memory/amplifier_module_tool_memory/store.py:1125-1177 | in every reachable state the pending timer is the one named, and what is retained is timed or owed a timer |
| SnapshotProtocol.RetentionBounded | modules/tool-memory/amplifier_module_tool_memory/store.py:1125-1146 | at most one timer is pending, and whenever no call stands between storing and arming, a retained fold has one |
| SnapshotProtocol.IdleTimerDropsAll | modules/tool-memory/amplifier_module_tool_memory/store.py:1168-1176 | a timer that fires after the reuse time without a build leaves nothing retained |
| SnapshotProtocol.ExpiryExact | modules/tool-memory/amplifier_module_tool_memory/store.py:1168-1177 | over any run a timer that fires while some build was stored within the reuse time, in whatever generation, drops nothing and owes a re-arm; otherwise it drops everything and owes none |
| SnapshotProtocol.PriorNeverShrinks | modules/tool-memory/amplifier_module_tool_memory/store.py:1081-1088 | the extension base never shrinks unless expiry drops it |
| Batches.Store.AppendBatch | modules/tool-memory/amplifier_module_tool_memory/store.py:925-927 | a batch is appended whole, or the log is unchanged |
| Batches.ServerStage | modules/tool-memory/amplifier_module_tool_memory/daemon.py:160-193 | the server loop stages op by op what the token map then makes of it; an unknown op is an error before anything is committed |
| Batches.ResolvedExactlyWhenMinted | modules/tool-memory/amplifier_module_tool_memory/daemon.py:166-191 | the server hands the kernel nothing but real events exactly when no op names a token ahead of the write that mints it |
| Batches.GatewayBatch.WriteCell | modules/tool-memory/amplifier_module_tool_memory/daemon.py:894-904 | the token returned stands for the content address of the payload without its interpreters, which go no further than this call |
| Batches.GatewayBatch.Relate | modules/tool-memory/amplifier_module_tool_memory/daemon.py:906-915 | the edge the server will stage is the one a direct batch would stage, for tokens and real refs alike |
| Batches.GatewayBatch.AssertFact | modules/tool-memory/amplifier_module_tool_memory/daemon.py:917-928 | likewise for a fact |
| Batches.GatewayBatch.Scope | modules/tool-memory/amplifier_module_tool_memory/daemon.py:930-932 | likewise for a scope edge |
| Batches.GatewayBatch.Commit | modules/tool-memory/amplifier_module_tool_memory/daemon.py:941-950 | any program of calls commits, whole or not at all, the events it means to the server; they are those of a direct batch exactly when no cell names an interpreter; the map returned resolves every name to what it stands for |
| Batches.PlayDirect | modules/tool-memory/amplifier_module_tool_memory/daemon.py:894-932 | any program of calls made on a direct batch, with the references it returned for the tokens, stages and returns what the program means directly |
| Batches.BothWays | modules/tool-memory/amplifier_module_tool_memory/daemon.py:894-950 | one program committed by a direct batch to one store and by a gateway batch to another in the same state leaves them in the same state if and only if no cell names an interpreter |
| Batches.GatewayIsDirectIffPlain | modules/tool-memory/amplifier_module_tool_memory/daemon.py:894-932 | for every program of calls, the gateway stages the events of a direct batch if and only if none of its cells names an interpreter |
| Batches.InterpretersAreDropped | modules/tool-memory/amplifier_module_tool_memory/daemon.py:168-171 | one cell with an interpreter is enough: another cell is staged, with another content address |
| Batches.FileDirect | modules/tool-memory/amplifier_module_tool_memory/store.py:701-726 | the direct path appends exactly the drawer's events in one batch and returns the content address |
| Batches.FileGateway | modules/tool-memory/amplifier_module_tool_memory/store.py:701-726 | the gateway path appends the same events and returns the same ref |
| Batches.FileSequential | modules/tool-memory/amplifier_module_tool_memory/store.py:727-745 | cut off after any number of appends the sequential path has appended exactly that many of the drawer's events; not cut off, all of them, and it returns the same ref |
| Batches.PackRoundTrip | modules/tool-memory/amplifier_module_tool_memory/store.py:719-724 | a vector survives packing into its cell and unpacking into a matrix row |
| Filed.FilingStates | modules/tool-memory/amplifier_module_tool_memory/store.py:701-745 | after filing, the valid facts are those before plus exactly the drawer's own; an invalidated one comes back |
| Filed.CutFilingStates | modules/tool-memory/amplifier_module_tool_memory/store.py:727-745 | a filing cut off anywhere states some of the drawer's facts and no other, and takes none away |
| Filed.FilingKeepsOrder | modules/tool-memory/amplifier_module_tool_memory/store.py:718-745 | filing, cut off after any number of appends, keeps the condition that embedding cells precede their edges |
| Filed.FilingEdges | modules/tool-memory/amplifier_module_tool_memory/store.py:718-725 | filing adds one embedding edge when given a vector, else none |
| Filed.FiledIsAnchored | modules/tool-memory/amplifier_module_tool_memory/store.py:701-745 | each edge of a filed drawer leads between cells written ahead of it, cut off or not, so its content, wing, room, facts and vector can all be read back |
| Filed.FiledVectorIsARow | modules/tool-memory/amplifier_module_tool_memory/store.py:678-758 | end to end: the vector given to file is the row a rebuild adds for the drawer; a different dimension makes the matrix unusable; no vector changes nothing |
| Filed.AppendedWellNumbered | modules/tool-memory/amplifier_module_tool_memory/store.py:64-66 | appending keeps positions increasing and fresh |
| Importance.NewMutation | modules/tool-memory/amplifier_module_tool_memory/scripts/mutation.py:100-130 | a record exists exactly for a non-empty provenance and outcome; it keeps every field given and the confidence of the unit interval nearest to the one given |
| Importance.ChangesAnchored | modules/tool-memory/amplifier_module_tool_memory/store.py:930-994 | likewise each value that an update or a rollback names is written ahead of the edge that names it |
| Importance.NativeMemory.UpdateImportance | modules/tool-memory/amplifier_module_tool_memory/store.py:912-981 | all three paths append the same events; a failed batch appends nothing; a contract violation is reported after the write has landed |
| Importance.NativeMemory.Rollback | modules/tool-memory/amplifier_module_tool_memory/store.py:983-994 | cut off after any number of appends, a rollback has appended exactly that many of the invalidation of the new value and, with a prior value, its assertion; it counts as done only when all are in the log |
| Importance.UpdateSequential | modules/tool-memory/amplifier_module_tool_memory/store.py:952-964 | a crash after any number of appends leaves exactly that prefix of the update |
| Importance.RecordingMemory.UpdateImportance | modules/tool-memory/amplifier_module_tool_memory/store.py:546-579 | the map store checks the record first, so a violation changes nothing |
| Importance.RecordingMemory.Rollback | modules/tool-memory/amplifier_module_tool_memory/store.py:581-588 | restores the old value, or drops the entry |
| Importance.UpdateRefinesExactly | modules/tool-memory/amplifier_module_tool_memory/store.py:941-951 | an update touches no other fact, and the log agrees with the updated map exactly when the old value given was current or there was no other value to replace |
| Importance.RollbackRefinesExactly | modules/tool-memory/amplifier_module_tool_memory/store.py:983-994 | a rollback agrees with the map's exactly when the value it removes is current or the value it restores already is |
| Importance.UndoExact | modules/tool-memory/amplifier_module_tool_memory/store.py:983-994 | on any fact set, update then rollback restores it exactly when the old value was valid and the new one was not, or was that same value |
| Importance.CrashStates | modules/tool-memory/amplifier_module_tool_memory/store.py:959-964 | what a crash inside the sequential path can leave, appends counted one by one |
| Importance.CrashRecoverable | modules/tool-memory/amplifier_module_tool_memory/store.py:959-964 | from every such state the rollback restores the original facts, under the condition of UndoExact |
| Importance.RollbackCrashStates | modules/tool-memory/amplifier_module_tool_memory/store.py:983-994 | what a crash inside a rollback leaves: the facts untouched, the new value gone with nothing in its place, or the whole rollback |
| Importance.RollbackRepeatable | modules/tool-memory/amplifier_module_tool_memory/store.py:983-994 | from each of these, on any fact set, a rollback carried out again gives the facts of one whole rollback |
| Importance.ViolationKeepsWrite | modules/tool-memory/amplifier_module_tool_memory/store.py:951-980 | after a contract violation the two stores agree only if the update changed nothing |
| Importance.InverseUndoesOnlyNoChange | modules/tool-memory/amplifier_module_tool_memory/scripts/mutation.py:58-71 | the inverse of a delta, carried out as an update, restores the facts exactly when the update had changed nothing, and inverts back only without a prior value or with the same one |
| Importance.RunRefinesMap | modules/tool-memory/amplifier_module_tool_memory/store.py:546-588 | along any run of updates given the current value and last-in-first-out rollbacks the valid importance facts are the map, other facts are untouched, and the pending deltas lead back to the start |
| Importance.UndoTakesBackLast | modules/tool-memory/amplifier_module_tool_memory/store.py:912-994 | after any run, one more update shows its value as a valid fact, and undoing it gives the facts, the map and the pending deltas back as they were, in a log that only grew |
| Importance.UndoingAllRestores | modules/tool-memory/amplifier_module_tool_memory/store.py:983-994 | undoing a whole chain, however interleaved, restores the original fact set |
| Sweep.SweepNeedsEmbedding | modules/tool-memory/amplifier_module_tool_memory/daemon.py:426-447 | swept plus failed is the number pending, swept counts exactly the finished attempts, and the log holds exactly their events |
| Sweep.DoneCountExact | modules/tool-memory/amplifier_module_tool_memory/daemon.py:443 | the number reported as swept is that of the attempts that finished |
| Sweep.SweepTakesMarkers | modules/tool-memory/amplifier_module_tool_memory/daemon.py:437-442 | a marker survives a sweep exactly when its own attempt did not finish |
| Sweep.SweepEmbeds | modules/tool-memory/amplifier_module_tool_memory/daemon.py:436-438 | every drawer whose attempt finished is embedded by the very vector that attempt computed |
| Sweep.CleanSweepConverges | modules/tool-memory/amplifier_module_tool_memory/daemon.py:416-421 | a sweep of all markers without failures leaves none and every pending drawer embedded by the vector computed for it |
| Sweep.SweptVectorsAreRows | modules/tool-memory/amplifier_module_tool_memory/daemon.py:436-438 | the matrix a rebuild makes after the sweep has the earlier rows, and after them one row per finished attempt, the drawer with its vector, in order |
| Sweep.UnmarkingExact | modules/tool-memory/amplifier_module_tool_memory/daemon.py:122-128 | taking a marker away leaves a drawer reachable exactly when it is embedded or has another marker |
| Sweep.MarkAnchored | modules/tool-memory/amplifier_module_tool_memory/daemon.py:549-556 | likewise the value of a marker |
| Sweep.SweepAnchored | modules/tool-memory/amplifier_module_tool_memory/daemon.py:436-438 | and each vector a sweep adds |
| SweepRaces.InvAlways | modules/tool-memory/amplifier_module_tool_memory/daemon.py:402-558 | the protocol invariant holds in every interleaving of remember calls, sweeps and any other appends, with exceptions at every step and crashes |
| SweepRaces.RememberedAlwaysReachable | modules/tool-memory/amplifier_module_tool_memory/daemon.py:531-558 | whatever became of a drawer before, once its remember has returned it has an embedding or a valid marker for as long as no other call takes a marker of it away |
| SweepRaces.UnreachableOnlyIfCutShort | modules/tool-memory/amplifier_module_tool_memory/daemon.py:542-557 | whenever the lock is free, a filed drawer with neither had, since it was last filed, a call that was cut off between filing and marking, or a marker taken away by another call |
| SweepRaces.UnmarkedFilingAddsNothing | modules/tool-memory/amplifier_module_tool_memory/daemon.py:542-557 | such a call leaves its drawer reachable exactly when it was so before the call |
| SweepRaces.CrashLosesADrawer | modules/tool-memory/amplifier_module_tool_memory/daemon.py:542-557 | a concrete run in which a crash between the two appends leaves a drawer neither embedded nor marked |
| SweepRaces.FinishedSweepSound | modules/tool-memory/amplifier_module_tool_memory/daemon.py:402-447 | in every interleaving a finished sweep accounts for each pending drawer, and each one not reported failed holds the vector computed for it |
| SweepRaces.RememberAlone | modules/tool-memory/amplifier_module_tool_memory/daemon.py:531-558 | a remember call left alone files the drawer, and marks it exactly if there is no vector |
| SweepRaces.SweepAlone | modules/tool-memory/amplifier_module_tool_memory/daemon.py:426-447 | a sweep left alone among the threads is the sweep loop taken by itself: the same events in the log, and each attempt reported as it went |
| Ownership.Always | modules/tool-memory/amplifier_module_tool_memory/daemon.py:967-1099 | owning states and the lock holder coincide, and an advertised daemon's details are in the file, in every reachable state |
| Ownership.AtMostOneOwner | modules/tool-memory/amplifier_module_tool_memory/daemon.py:1073-1099 | two daemons never own a home together, whatever clients and crashes do |
| Ownership.GivesUpForAReason | modules/tool-memory/amplifier_module_tool_memory/daemon.py:1073-1099 | in every run a daemon that ended had been killed, had released the home, had found another one healthy, or had found none and tried until the deadline; and one still trying had found none |
| Ownership.RetryTakesOver | modules/tool-memory/amplifier_module_tool_memory/daemon.py:1084-1099 | a retry finds the lock free and owns the home whenever no daemon holds it |
| Ownership.ServingIsAdvertised | modules/tool-memory/amplifier_module_tool_memory/daemon.py:1163-1198 | while a daemon serves, daemon.json names it and holds its own details, even when pids are reused |
| Ownership.UnlinksOnlyItsOwn | modules/tool-memory/amplifier_module_tool_memory/daemon.py:1020-1032 | the read-then-unlink never removes a file describing another daemon, and no other daemon is serving then |
| Ownership.UnlinksAfterReading | modules/tool-memory/amplifier_module_tool_memory/daemon.py:1020-1032 | with or without the lifetime lock, a daemon unlinks daemon.json only after it has read its own pid there |
| Ownership.OrderlyEndCleansUp | modules/tool-memory/amplifier_module_tool_memory/daemon.py:1196-1198 | an orderly end always finds its own file to remove |
| Ownership.StaleFileHasDeadWriter | modules/tool-memory/amplifier_module_tool_memory/daemon.py:1175-1198 | the daemon that daemon.json describes no longer advertises itself if and only if it was killed, or interrupted before its clean-up was in force or done |
| Ownership.InterruptLeavesTheFile | modules/tool-memory/amplifier_module_tool_memory/daemon.py:1175-1191 | a concrete run in which an interrupt between writing the file and the serving try block releases the lock and leaves the file |
| Ownership.PidCheckNeedsTheLock | modules/tool-memory/amplifier_module_tool_memory/daemon.py:1020-1032 | next to a daemon that takes no lifetime lock the pid check alone lets a serving daemon lose its file |
| Ownership.SpawnExclusiveUnbroken | modules/tool-memory/amplifier_module_tool_memory/client.py:393-421 | clients spawn one at a time as long as no lock file is broken while a client is still spawning; breaking the lock of a dead client is harmless |
| Ownership.ClientStands | modules/tool-memory/amplifier_module_tool_memory/client.py:393-421 | a client spawns exactly from creating the lock file until it finishes or dies, polls from finding one there, and gets another try only by breaking it |
| Ownership.LiveBreakAdmitsTwo | modules/tool-memory/amplifier_module_tool_memory/client.py:399-421 | whoever breaks the lock file of a client still spawning can spawn right away next to it, in any state |
| Ownership.BrokenLockAdmitsTwo | modules/tool-memory/amplifier_module_tool_memory/client.py:399-421 | after a break two clients spawn at once, and the first one's cleanup unlinks the second one's lock |
| Clusters.Component | modules/tool-memory/amplifier_module_tool_memory/garden.py:183-191 | the inner loop ends on any adjacency and returns what the start reaches beyond what was visited |
| Clusters.FindClusters | modules/tool-memory/amplifier_module_tool_memory/garden.py:162-194 | terminates on any adjacency and returns, in key order, the parts first reached by each key, the small ones left out |
| Clusters.ClustersInKeyOrder | modules/tool-memory/amplifier_module_tool_memory/garden.py:174-192 | clusters come in the order of the first key of each |
| Clusters.ClustersDisjoint | modules/tool-memory/amplifier_module_tool_memory/garden.py:162-194 | on any adjacency the clusters are pairwise disjoint, non-empty and large enough |
| Clusters.ClustersAreComponents | modules/tool-memory/amplifier_module_tool_memory/garden.py:162-194 | where whatever is reached reaches back, symmetric lists or not, a set is a cluster exactly when it is a connected component of at least the minimum size |
| Clusters.ClusterIsComponentExactly | modules/tool-memory/amplifier_module_tool_memory/garden.py:174-192 | on any adjacency and for any minimum, a cluster is a connected component if and only if all that its key reaches reaches back to the key |
| Clusters.ComponentIsClusterExactly | modules/tool-memory/amplifier_module_tool_memory/garden.py:174-192 | conversely, a large enough component is a cluster if and only if some key of it is reached by no earlier key |
| Clusters.AllComponentsExactly | modules/tool-memory/amplifier_module_tool_memory/garden.py:162-194 | with nothing left out for its size, every cluster is a component if and only if whatever is reached reaches back |
| Clusters.SymmetricIsMutual | modules/tool-memory/amplifier_module_tool_memory/garden.py:170-172 | symmetric lists are one way to have whatever is reached reach back |
| Clusters.CycleIsMutual | modules/tool-memory/amplifier_module_tool_memory/garden.py:170-172 | a directed cycle of three, which is not symmetric, is another |
| Clusters.FirstKeyDecides | modules/tool-memory/amplifier_module_tool_memory/garden.py:172-174 | where one key reaches another and not back, whatever the lists are, the two share a cluster with the one key first and share none with the other first |
| Clusters.BuildAdjacency | modules/tool-memory/amplifier_module_tool_memory/garden.py:311-347 | each list holds exactly the other in-scope drawers its own search, where it succeeded, scored high enough, without repeats |
| Clusters.IdsInOrder | modules/tool-memory/amplifier_module_tool_memory/garden.py:311-320 | and the keys stand in the order in which the drawers are first listed |
| Text.StripBlank | modules/tool-memory/amplifier_module_tool_memory/__init__.py:169-170 | a text strips to nothing exactly when it is all white space |
| Text.StripExact | modules/tool-memory/amplifier_module_tool_memory/__init__.py:169-170 | stripping takes white space off both ends and nothing else, and leaves none there |
| Chunking.ParagraphsJoin | modules/tool-memory/amplifier_module_tool_memory/__init__.py:173 | splitting at blank lines and joining gives the text back |
| Chunking.ParagraphsExact | modules/tool-memory/amplifier_module_tool_memory/__init__.py:173 | no paragraph has a blank line in it, and each is split off at the first one |
| Chunking.ChunkText | modules/tool-memory/amplifier_module_tool_memory/__init__.py:165-191 | with a bound of at least 1 every chunk is non-empty and within it, the chunks show the visible characters of the text in order, each is a run of whole paragraphs or cut from one paragraph longer than the bound, and no two neighbouring runs would have fitted together; a zero bound raises and a negative one returns nothing for every non-blank text |
| Chunking.PackedLaid | modules/tool-memory/amplifier_module_tool_memory/__init__.py:172-191 | the same of any paragraphs: each run is as long as the bound lets it be |
| Chunking.ChunkTextLossless | modules/tool-memory/amplifier_module_tool_memory/__init__.py:165-168 | lossless exactly for a bound of at least 1 or a blank text |
| Chunking.HardSplit | modules/tool-memory/amplifier_module_tool_memory/__init__.py:183-185 | an overlong paragraph is cut into pieces that are the paragraph again when joined, all but the last of the full length |
| Lines.KeyLinesJoined | modules/context-sleep/amplifier_module_context_sleep/__init__.py:234-245 | a line break keeps the stripped lines of what precedes and follows apart, carriage returns included |
| Lines.KeyLinesOfJoin | modules/context-sleep/amplifier_module_context_sleep/__init__.py:245 | joining lines with newlines gives a text with just those lines |
| Lines.SplitLinesOfJoin | modules/context-sleep/amplifier_module_context_sleep/__init__.py:226-245 | splitting what was joined, by a newline or a carriage return and newline, gives the lines back |
| Compaction.MessagesToText | modules/context-sleep/amplifier_module_context_sleep/__init__.py:133-148 | the texts of all messages, each under its role, set apart by blank lines |
| Compaction.MessageHolds | modules/context-sleep/amplifier_module_context_sleep/__init__.py:133-148 | the text of every block of a message, or its content where the text is empty, stands unbroken in what is serialised, after the role |
| Compaction.BlocksInOrder | modules/context-sleep/amplifier_module_context_sleep/__init__.py:139-147 | and an earlier block stands ahead of a later one |
| Compaction.TextHolds | modules/context-sleep/amplifier_module_context_sleep/__init__.py:148 | each serialised message stands unbroken in the text of all of them |
| Compaction.VerbatimFallback | modules/context-sleep/amplifier_module_context_sleep/__init__.py:226-239 | keeps blank lines and the first line of each stripped content, in order |
| Compaction.DedupDistinct | modules/context-sleep/amplifier_module_context_sleep/__init__.py:226-239 | only exact duplicates go: stripped contents that stay are distinct |
| Compaction.DedupExact | modules/context-sleep/amplifier_module_context_sleep/__init__.py:226-239 | the lines kept are those at exactly the places where a line is blank or its stripped content has not stood before |
| Compaction.FallbackLosesNothing | modules/context-sleep/amplifier_module_context_sleep/__init__.py:226-239 | the note has exactly the stripped non-blank lines of the text |
| Compaction.InputLines | modules/context-sleep/amplifier_module_context_sleep/__init__.py:363-367 | the consolidation input has the lines of the prior note, of the evicted messages, and one header |
| Compaction.NoteRoundTrip | modules/context-sleep/amplifier_module_context_sleep/__init__.py:329-342 | the note read back from a memory message is the note written into it |
| Compaction.TakenExactly | modules/context-sleep/amplifier_module_context_sleep/__init__.py:331-336 | a message is taken for a memory message exactly if it is a system message whose text starts with the prefix, whatever follows, were it nothing |
| Compaction.SleepConsolidatingContext.AddMessage | modules/context-sleep/amplifier_module_context_sleep/__init__.py:283-288 | raw grows by exactly the message; the window stays raw, or a memory message and a suffix of raw, with a note of exactly the evicted lines, when no message is added while a pass is suspended; without compaction it grows by exactly the message |
| Compaction.SleepConsolidatingContext.Compact | modules/context-sleep/amplifier_module_context_sleep/__init__.py:321-396 | the window stays a memory message with a note of exactly what went and all that follows; nothing happens with at most keep_recent messages; otherwise exactly that many are left when it is positive, none more go when it is zero, and its absolute value of them goes when it is negative |
| Compaction.SleepConsolidatingContext.Resume | modules/context-sleep/amplifier_module_context_sleep/__init__.py:344-385 | a pass that goes on after being suspended leaves a window fit for the history it began with, which fits the history now if and only if no message was added meanwhile |
| Compaction.SleepConsolidatingContext.SetMessages | modules/context-sleep/amplifier_module_context_sleep/__init__.py:307-310 | both buffers become the messages given |
| Compaction.SleepConsolidatingContext.Clear | modules/context-sleep/amplifier_module_context_sleep/__init__.py:312-315 | both buffers become empty |
| Compaction.NextNote | modules/context-sleep/amplifier_module_context_sleep/__init__.py:363-381 | a note over a note: its lines are those of every message gone so far |
| Compaction.AnyConversation | modules/context-sleep/amplifier_module_context_sleep/__init__.py:283-396 | over a whole conversation compacted by the fallback whenever the estimate says so, no stripped non-blank line of an evicted message is missing from the note if and only if the first message does not look like memory or its first line stands elsewhere in what went; with a keep_recent of zero and no such first message nothing is ever evicted |
| Compaction.EveryLineSurvives | modules/context-sleep/amplifier_module_context_sleep/__init__.py:226-230 | each stripped non-blank line of every evicted message is a stripped line of the note, unless the first message was taken for a memory message |
| Compaction.BlockLinesSurvive | modules/context-sleep/amplifier_module_context_sleep/__init__.py:133-239 | so each whole line of an evicted tool result is a line of the note |
| Compaction.ImitationExact | modules/context-sleep/amplifier_module_context_sleep/__init__.py:329-338 | a message taken for a memory message, whatever follows the prefix, keeps all its lines in the note it is taken to carry if and only if its first line as serialised stands there again |
| Compaction.NothingLostExactly | modules/context-sleep/amplifier_module_context_sleep/__init__.py:329-381 | over all messages a note stands for, no line is missing if and only if none was taken for a memory message or that one's first line stands elsewhere among them |
| Compaction.ImitationLosesItsLine | modules/context-sleep/amplifier_module_context_sleep/__init__.py:329-338 | one such message, the prefix and one visible character, whose line and character are both lost |
| Capture.BasicsAlways | modules/hooks-memory-capture/amplifier_module_hooks_memory_capture/__init__.py:517-544 | a drawer_filed record means a stored drawer, every future settles at most once, and the queue keeps its bound, in every run |
| Capture.FuturesAlways | modules/hooks-memory-capture/amplifier_module_hooks_memory_capture/__init__.py:950-956 | no future is forgotten: one that is not done is wired to a queued job, to the job in hand, or to a callback on its way, in every run; once those are gone, all are done |
| Capture.CaptureExact | modules/hooks-memory-capture/amplifier_module_hooks_memory_capture/__init__.py:920-956 | a capture leaves a spool entry exactly if the write succeeds, a job on the queue exactly if there is room, and otherwise a future cancelled at once |
| Capture.DrainExact | modules/hooks-memory-capture/amplifier_module_hooks_memory_capture/__init__.py:600-711 | from any state, each of the four ways a job can go stores the drawer unless the filing raised, logs its one outcome, posts its result once, and deletes the spool entry of what was filed or broke the worker, but not of what failed |
| Capture.CallbacksExact | modules/hooks-memory-capture/amplifier_module_hooks_memory_capture/__init__.py:517-544 | the callbacks posted settle exactly the futures that are not done yet, each once |
| Capture.NothingHangs | modules/hooks-memory-capture/amplifier_module_hooks_memory_capture/__init__.py:600-650 | from any state of a run the drain thread and the loop alone can go on until nothing is queued, in hand or posted, and then every future is done |
| Capture.SpooledIsNeverLost | modules/hooks-memory-capture/amplifier_module_hooks_memory_capture/__init__.py:600-776 | with events enabled and written, every spooled capture is still spooled or has a logged outcome, in every reachable state, crashes included |
| Capture.SpooledExact | modules/hooks-memory-capture/amplifier_module_hooks_memory_capture/__init__.py:924-932 | the captures the theorems speak of as spooled are those whose spool write succeeded in the run |
| Capture.LosesExactly | modules/hooks-memory-capture/amplifier_module_hooks_memory_capture/__init__.py:600-776 | in any state with the invariants of every run, a step loses a spooled capture if and only if it is the end of the last-resort guard on its spooled job, the capture neither stored nor logged |
| Capture.OnlyTheGuardLoses | modules/hooks-memory-capture/amplifier_module_hooks_memory_capture/__init__.py:600-776 | in every run, with events on or off, log writes failing or not, and crashes anywhere, a spooled capture is neither spooled, stored nor logged if and only if such a step was taken and it has not come back since |
| Capture.OnlyLoggedAreDeleted | modules/hooks-memory-capture/amplifier_module_hooks_memory_capture/__init__.py:652-711 | no step deletes the spool entry of such a capture before its outcome is logged |
| Capture.LostWithoutEvents | modules/hooks-memory-capture/amplifier_module_hooks_memory_capture/__init__.py:619-644 | and that guard does lose one: a concrete run with events off in which a worker exception deletes a spool entry that nothing else remembers |
| Capture.ReplayOrphans | modules/hooks-memory-capture/amplifier_module_hooks_memory_capture/__init__.py:742-766 | the loop is the walk: the first unfinished captures are enqueued, as many as fit; every unfinished one stays spooled; only finished and malformed entries go, and all of them when everything fits |
| Capture.WalkExact | modules/hooks-memory-capture/amplifier_module_hooks_memory_capture/__init__.py:742-766 | among files listed once each the walk enqueues the first unfinished ones, as many as fit, deletes no unfinished entry, and when all fit deletes every other listed one |
| Capture.ReplayStepsWalk | modules/hooks-memory-capture/amplifier_module_hooks_memory_capture/__init__.py:742-766 | with nothing else running, the replay steps of the protocol leave the spool and the queue as that walk does |
| Capture.RestartRecovers | modules/hooks-memory-capture/amplifier_module_hooks_memory_capture/__init__.py:714-766 | whatever the moment of a crash, the next replay puts the captures without an outcome on the queue, as many as fit, keeps all of them spooled, and leaves nothing else spooled when all fit |
| Capture.MalformedIsDropped | modules/hooks-memory-capture/amplifier_module_hooks_memory_capture/__init__.py:745-757 | a malformed file left in the spool is never enqueued by the next replay, and is dropped when everything fits |
| Capture.ReplayAccountsForAll | modules/hooks-memory-capture/amplifier_module_hooks_memory_capture/__init__.py:714-776 | with the hot path and the drain thread running beside it, a replay that ends without a crash put every unfinished capture it listed on the queue, or the drain thread was done with it, or the queue was full and it stays spooled |
| Capture.OrphansExact | modules/hooks-memory-capture/amplifier_module_hooks_memory_capture/__init__.py:745-757 | the candidates are exactly the listed, well-formed, unfinished entries |
| Capture.FailedIsDroppedByReplay | modules/hooks-memory-capture/amplifier_module_hooks_memory_capture/__init__.py:711-749 | a concrete run with events on in which a capture that failed to file is dropped by the next replay: neither stored, spooled nor queued |
| Capture.FailedIsNotRetried | modules/hooks-memory-capture/amplifier_module_hooks_memory_capture/__init__.py:732-749 | a logged failure counts as finished, so replay never retries it |
| Ranking.LexicalScore | modules/tool-memory/amplifier_module_tool_memory/embedder.py:124-138 | lies in the unit interval; 1 exactly when the text has every query token, 0 exactly when it has none |
| Ranking.TokensCountAlike | modules/tool-memory/amplifier_module_tool_memory/embedder.py:124-138 | each further query token a text has raises the score by the same amount |
| Ranking.SortedOrders | modules/tool-memory/amplifier_module_tool_memory/store.py:477-479 | the ranking is an ordered permutation |
| Ranking.OrderedUnique | modules/tool-memory/amplifier_module_tool_memory/store.py:477-479 | and the only one, since the order is total |
| Ranking.Search | modules/tool-memory/amplifier_module_tool_memory/store.py:1352-1428 | at most k hits, ordered, each one an in-scope row or a listed drawer with the score that is its due; they are the pre-cut, re-ranked, united with the listing and cut to k |
| Ranking.InScopeExact | modules/tool-memory/amplifier_module_tool_memory/store.py:455-461 | the scope keeps each row as often as it stands there if its ref is in scope, and drops every other row |
| Ranking.HitsAreSound | modules/tool-memory/amplifier_module_tool_memory/store.py:1352-1428 | no hit is made up: each is an in-scope row with its hybrid score or a listed drawer with its words |
| Ranking.RankBound | modules/tool-memory/amplifier_module_tool_memory/store.py:1354-1428 | however many rows score at least t, as many hits, up to k, score at least t - 0.15, despite the pre-cut and whatever the union adds |
| Ranking.NoLossWithinCut | modules/tool-memory/amplifier_module_tool_memory/store.py:1355-1380 | with at most 3k in-scope rows, or one row and any k, and no drawer pending, the result is the exhaustive hybrid ranking |
| Ranking.BoundIsTight | modules/tool-memory/amplifier_module_tool_memory/store.py:1355-1380 | for every k of at least 1 a row past the cut can be short of the best by anything below 0.15 |
| Ranking.ListedAreScored | modules/tool-memory/amplifier_module_tool_memory/store.py:1392-1411 | while drawers wait for vectors every listed drawer competes, once, with the score of its words |
| Interject.Gate | modules/hooks-memory-interject/amplifier_module_hooks_memory_interject/__init__.py:365-424 | at most two pass, best first, and with the judge off only such as scored above the threshold |
| Interject.PassingExact | modules/hooks-memory-interject/amplifier_module_hooks_memory_interject/__init__.py:385-418 | what passes the gate is exactly each candidate not briefed, not on cooldown, and either above the threshold or, with the judge on, in the uncertain band and judged at 0.7 or more |
| Interject.GateTakesTheBest | modules/hooks-memory-interject/amplifier_module_hooks_memory_interject/__init__.py:422-424 | and the ones injected are two that none of those outscores, or all when there are fewer |
| Interject.TopTwoAreBest | modules/hooks-memory-interject/amplifier_module_hooks_memory_interject/__init__.py:422-424 | of three or more, the two taken are two different ones that no other outscores, best first |
| Interject.MemoryInterjectHook.HandlePromptSubmit | modules/hooks-memory-interject/amplifier_module_hooks_memory_interject/__init__.py:466-585 | state and injection after a prompt |
| Interject.MemoryInterjectHook.HandleToolPre | modules/hooks-memory-interject/amplifier_module_hooks_memory_interject/__init__.py:587-703 | state and injection before a tool call |
| Interject.MemoryInterjectHook.HandleOrchestratorComplete | modules/hooks-memory-interject/amplifier_module_hooks_memory_interject/__init__.py:705-866 | state and injection after an orchestrator event, the turn counted first and the guard before the length check |
| Interject.InjectsExactly | modules/hooks-memory-interject/amplifier_module_hooks_memory_interject/__init__.py:466-866 | an event injects what the gate chose for its query exactly when the handler does not skip it, and nothing otherwise |
| Interject.CooldownKept | modules/hooks-memory-interject/amplifier_module_hooks_memory_interject/__init__.py:355-363 | over whole runs at least cooldown_turns orchestrator events lie between two injections of one id |
| Interject.RestedAfterCooldown | modules/hooks-memory-interject/amplifier_module_hooks_memory_interject/__init__.py:355-363 | and an id is off cooldown exactly once that many have come since it was last injected |
| Interject.RecordExact | modules/hooks-memory-interject/amplifier_module_hooks_memory_interject/__init__.py:355-363 | the record holds exactly the ids injected so far, each with the turn of its last injection |
| Interject.OnceWithoutOrchestrator | modules/hooks-memory-interject/amplifier_module_hooks_memory_interject/__init__.py:349-358 | with no orchestrator event in between no id is injected twice, since only they count turns |
| Interject.BriefedNeverInjected | modules/hooks-memory-interject/amplifier_module_hooks_memory_interject/__init__.py:386-391 | an id briefed by any event is not injected by any later one |
| Interject.BriefedExact | modules/hooks-memory-interject/amplifier_module_hooks_memory_interject/__init__.py:386-391 | the briefed ids are exactly the non-empty ids of the briefings seen so far |
| Interject.GuardHolds | modules/hooks-memory-interject/amplifier_module_hooks_memory_interject/__init__.py:741-766 | after an injection by a prompt or an orchestrator event no orchestrator event injects until the flag is cleared |
| Interject.FlagExact | modules/hooks-memory-interject/amplifier_module_hooks_memory_interject/__init__.py:741-766 | the flag is up exactly while an injection by a prompt or an orchestrator event stands with nothing since to clear it |
| Interject.FormatInjection | modules/hooks-memory-interject/amplifier_module_hooks_memory_interject/__init__.py:256-292 | the header and as many entries as fit, whole and in order, then the start of the next one where the cap allows; within the cap exactly when the header is |

## Left out

- SnapshotProtocol.SnapshotFresh: folds are the number of events they hold, so compaction during a run is modelled in `EventLog` and `SearchFolds` but not in the interleavings.
- SearchFolds.SearchFold.VectorMatrix: one caller at a time; two threads forcing the same lazy part are not interleaved. A missing numpy, and float64 rounding, are not part of this model.
- Ranking.RankBound: scores are reals and each row's cosine is given; it bounds the scores the hits are ranked by, and hits may share a ref.
- Compaction.SleepConsolidatingContext.Compact: a note that a provider writes is arbitrary, so the lines are claimed only while the fallback writes every note; the token estimate is a parameter.
- Compaction.SleepConsolidatingContext.Resume: messages may be added while a pass is suspended; replacing or clearing the buffers then is not part of this model.
- Capture.SpooledIsNeverLost: speaks of captures whose spool write succeeded and whose events are on, with log writes that succeed; failed log writes and captures without events are covered by `Capture.OnlyTheGuardLoses`. Session ids, categories and previews are not part of this model.
- Interject.CooldownKept: events are handled one after another; handlers interleaved at their awaits are not part of this model. Keyword search and judge scores are given with each memory.
- Sweep.SweepNeedsEmbedding: the listing of pending markers is given; the polling of the embedder's ready and failed state only decides when a sweep starts, which the races leave open.
- Ownership.AtMostOneOwner: health probes, timeouts and version checks are nondeterministic steps; opening the store and the HTTP server are not part of this model.
- The fold path for kernels that cannot be observed, and a timer whose thread fails to start.
- HTTP, JSON, base64, authentication, subprocesses and clocks, except as parameters or steps.
- Scope hierarchy beyond a membership test, and the lenses' own scoring.
- The knowledge-graph, diary and drawer listing tools, the briefing, the salience gate, usage decay, manifests and migration: thin wrappers or closed expressions that would add only easy members.
