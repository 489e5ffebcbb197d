# Fallow: verified models

Fallow lends idle desktops to a site as inference nodes. An agent on each
machine watches for its user, suspends or stops the model replicas it serves
when the user returns, tells a coordinator what it is doing, and moves model
files between machines. This project models the parts of the agent and of the
model mesh where being wrong would be noticed late, and proves what they
promise over every input, every interleaving or every run.

| file | component |
|---|---|
| `Basics.dfy` | bytes, options, the abstract hash and what a collision is |
| `Merkle.dfy` | the Merkle root over chunk hashes |
| `ChunkStore.dfy` | the size-capped LRU store, abstractly (`Lru`) and as an object (`ChunkStores`) |
| `Mesh.dfy` | chunking and manifests, what a root commits to, delta fetch from peers, verified atomic reconstruction |
| `Bandwidth.dfy` | the token-bucket pacer, over reals |
| `Sequence.dfy` | the crash-safe sequence source |
| `Availability.dfy` | the shared availability view and the claim runner that reads it |
| `EventSink.dfy` | sequenced events, flush barriers and heartbeats on one wire |
| `Desired.dfy` | the coalescing channel between heartbeats and the reconcile worker |
| `Supervisor.dfy` | replica lifecycle (`Replicas`) and the supervisor's maps and cache (`Supervision`) |
| `Preempt.dfy` | the preempt and reclaim controllers, the whole poll loop (`Presence`), input detection |
| `Site.dfy` | the claim runner beside the poll loop: what serving a claim says about the user |
| `Sorting.dfy` | sorting by a strict total order, shared by the next two |
| `Reconcile.dfy` | desired-set reconciliation and port allocation |
| `Discovery.dfy` | the choice of coordinator candidates from mDNS answers |
| `Gguf.dfy` | the GGUF header format, its numbers (`GgufAnchors`), its pure parser and the reader with a cursor |
| `Download.dfy` | resumable hashed download, verification, publication and crashes |

## How the models are built

Objects whose fields the source updates are classes; each method is proved
against a pure function of the old state, and the laws are lemmas about those
functions. The concurrent parts are state machines whose steps are single
critical sections, channel operations, network calls or file operations, so a
run is any interleaving, and a theorem about a run holds in each of its states.

The hash is a parameter. Nothing assumes it is injective: results say "equal,
or here are two inputs with one hash". Floats are reals. Clocks, network
outcomes, process spawns, vanished processes, the signature check and the
context are parameters or steps.

## What turned out not to hold

Each of these is modelled as the code is, with a run or an input that shows it
and the exact condition under which the promise does hold; for the mixed-rate
bound that condition is about one more call, not about whole stretches.

- A stop or crash between the snapshot and the commit of a suspend leaves a
  replica SUSPENDED with no process (`Replicas.StopInsideSuspendStrands`), through
  every later suspend and resume (`Replicas.StrandedReplicaStays`). A start that
  lands on it and a resume turn it into a phantom: a process that counts as
  STOPPED (`Replicas.StartOnStrandedMakesPhantom`). `Replicas.RunCoherentExactly`
  says on exactly which runs the maps stay coherent.
- Apply reports success over either kind although the replica is not served
  (`Reconcile.ApplyOverStranded`, `Reconcile.ApplyOverPhantom`).
  `Reconcile.SuccessMeansDesired` says exactly when success means that the
  desired replicas run. A phantom also has a port set aside for it, so that
  exhaustion can be reported with no port in use (`Reconcile.ExhaustedByPhantom`);
  `Reconcile.ExhaustionIsRealExactly` is the condition.
- A signal is a snapshot and a commit, and a start is a guard and a
  registration. A child that registers while the user returns is loading while
  the controller is ACTIVE (`Presence.SplitGuardBreaks`), and a replica that is
  stopped inside the suspend is stranded (`Presence.StopInsideYieldBreaks`).
  `Presence.NothingRunsExactly` is the condition, over every run.
- The final DRAINING heartbeat can follow a presence event that never arrived
  (`EventSink.FinalBeatMayOvertake`), exactly when all its attempts failed
  (`EventSink.FinalBeatExactly`).
- A part file that is already complete is never published: its resume request
  asks for an empty range. A crash after the last byte, or a connection that
  breaks there, leads to it (`Publication.CrashAfterLastByteIsFinal`,
  `Download.BreakAfterLastByteIsFinal`); `Download.ResumeFinishesExactly` is the
  condition.
- The marker is written before the blob is replaced. A crash in between, over
  an older blob, makes the cache trust the old bytes as the new model
  (`Publication.TornUpdateIsTrusted`), and nothing else does
  (`Publication.TrustedExactly`).
- The mixed-rate transfer bound needs the monotonic clock the pacer's
  documentation asks for (`Bandwidth.BackwardClockExceeds`,
  `Bandwidth.SlowerCallStaysWithinExactly`); the one-rate bound does not.
- An input is missed (`InputDetection.InputCanBeMissed`) exactly when it is at
  least as old, at the next poll, as both the previous reading and the poll
  interval (`InputDetection.DetectsExactly`).
- The availability view does not mirror the controller, because a reclaim
  release emits user_idle in any state (`Presence.ReleaseForgetsUser`). A child
  that registers late then makes it ready while the controller is ACTIVE
  (`Presence.LateChildMakesReady`), and a claim is served
  (`Site.LateChildIsServed`). `Presence.ReadyMeansAwayExactly` and
  `Site.ReadyMeansAwayExactly` say on exactly which runs that cannot happen, and
  `Site.ServedClaimMeansAway` what serving a claim means on them.
- The empty chunk list and the list of one empty entry share a Merkle root; the
  empty-list root differs from RFC 6962 by design (`Merkle.EmptyRootIsShared`).

## Model

| member | source | states |
|---|---|---|
| `Merkle.Split` | packages/fallow-modelmesh/src/fallow_modelmesh/merkle.py:25-42 | the size of the left subtree is a power of two k with k < n <= 2k, the split of section 2.1 of RFC 6962 |
| `Merkle.SplitIsUnique` | packages/fallow-modelmesh/src/fallow_modelmesh/merkle.py:25-42 | no other power of two satisfies that condition, so the tree shape is a function of the number of leaves |
| `Merkle.PairedSplits` | packages/fallow-modelmesh/src/fallow_modelmesh/merkle.py:33-41 | pairing a level cut at an even place is pairing both pieces |
| `Merkle.PairedKeepsTree` | packages/fallow-modelmesh/src/fallow_modelmesh/merkle.py:33-41 | one pairing pass with the odd node promoted leaves the root of the recursive tree unchanged, at every length |
| `Merkle.PairLevel` | packages/fallow-modelmesh/src/fallow_modelmesh/merkle.py:34-40 | the inner index loop computes one pairing pass |
| `Merkle.MerkleRoot` | packages/fallow-modelmesh/src/fallow_modelmesh/merkle.py:25-42 | the bottom-up loop terminates with the root of the recursive RFC 6962 tree; the empty list gets the bare leaf-prefix hash |
| `Merkle.SmallRoots` | packages/fallow-modelmesh/src/fallow_modelmesh/merkle.py:13-42 | the roots of up to three leaves byte for byte: leaves behind a zero byte, inner nodes behind a one, the odd node promoted |
| `Merkle.FindCollision` | packages/fallow-modelmesh/src/fallow_modelmesh/merkle.py:13-42 | two different non-empty lists, of any lengths, under one tree value yield two different inputs with one hash |
| `Merkle.ExtractCollision` | packages/fallow-modelmesh/src/fallow_modelmesh/merkle.py:13-42 | the same for the roots of any two different lists, the empty one included, except for the pair that shares a root by design |
| `Merkle.EmptyRootIsShared` | packages/fallow-modelmesh/src/fallow_modelmesh/merkle.py:25-32 | that pair: the empty list and the list of one empty entry (never a 32-byte hash) have one root |
| `Lru.EvictsShortestPrefix` | packages/fallow-modelmesh/src/fallow_modelmesh/store.py:69-72 | the evicted entries are the shortest oldest-first prefix that makes room: it does make room, and no shorter one does |
| `Lru.PutMeans` | packages/fallow-modelmesh/src/fallow_modelmesh/store.py:30-72 | what a put does, without naming the eviction loop: the store is then its own entries from some k on and the new one, these fit, and from no smaller k would they; a held chunk moves to the end; one larger than the cap changes nothing |
| `Lru.PutKeepsGood` | packages/fallow-modelmesh/src/fallow_modelmesh/store.py:30-45 | after any put: keys unique, every key the hash of its data, size within the cap, and an accepted chunk is the newest entry |
| `Lru.GetKeepsGood` | packages/fallow-modelmesh/src/fallow_modelmesh/store.py:47-54 | a get, hit or miss, keeps the same three |
| `Lru.RunIsLru` | packages/fallow-modelmesh/src/fallow_modelmesh/store.py:30-72 | over every sequence of puts and gets the store is sound and its order is the order of last use |
| `ChunkStores.ChunkStore.constructor` | packages/fallow-modelmesh/src/fallow_modelmesh/store.py:22-28 | an empty store with nothing used |
| `ChunkStores.ChunkStore.Open` | packages/fallow-modelmesh/src/fallow_modelmesh/store.py:22-28 | a cap that is not positive is refused, and only that |
| `ChunkStores.ChunkStore.PutChunk` | packages/fallow-modelmesh/src/fallow_modelmesh/store.py:30-45 | refines the abstract put; refuses exactly what is larger than the cap; an accepted chunk is held afterwards; used bytes stay the sum of held sizes |
| `ChunkStores.ChunkStore.GetChunk` | packages/fallow-modelmesh/src/fallow_modelmesh/store.py:47-54 | returns what is held under the key and makes it the newest; a miss changes nothing |
| `ChunkStores.ChunkStore.Availability` | packages/fallow-modelmesh/src/fallow_modelmesh/store.py:60-62 | the held keys |
| `ChunkStores.ChunkStore.EvictUntilFits` | packages/fallow-modelmesh/src/fallow_modelmesh/store.py:69-72 | the pop loop drops exactly the prefix of `Evictions` and keeps the byte count |
| `Manifests.Chunks` | packages/fallow-modelmesh/src/fallow_modelmesh/chunk.py:28-41 | in order, nothing lost, no empty chunk, every chunk full except perhaps the last |
| `Manifests.ChunkingIsUnique` | packages/fallow-modelmesh/src/fallow_modelmesh/chunk.py:28-41 | there is only one list of chunks with those properties |
| `Manifests.IterFileChunks` | packages/fallow-modelmesh/src/fallow_modelmesh/chunk.py:28-41 | the reading loop yields that list; a size that is not positive is refused |
| `Manifests.BuildManifest` | packages/fallow-modelmesh/src/fallow_modelmesh/manifest.py:57-79 | field by field: one pass computes the total size, the whole-file digest, the digest of every chunk in order and the Merkle root over those |
| `Commitment.RootCommitsToFile` | packages/fallow-modelmesh/src/fallow_modelmesh/manifest.py:57-79 | two different files cut to one chunk size whose manifests share a Merkle root yield two different inputs with one hash |
| `Exchange.Missing` | packages/fallow-modelmesh/src/fallow_modelmesh/delta.py:13-27 | exactly the listed chunks that are not held, each once |
| `Exchange.MissingInFirstSeenOrder` | packages/fallow-modelmesh/src/fallow_modelmesh/delta.py:13-27 | in the order of their first appearance in the manifest |
| `Exchange.MissingChunks` | packages/fallow-modelmesh/src/fallow_modelmesh/delta.py:13-27 | the loop with its `seen` set computes that list |
| `Exchange.Discover` | packages/fallow-modelmesh/src/fallow_modelmesh/peer.py:54-64 | succeeds exactly when every peer answers, and then the holders of every key are exactly the peers that claim it, in the order the peers were given |
| `Exchange.FetchDelta` | packages/fallow-modelmesh/src/fallow_modelmesh/exchange.py:26-47 | asks the first holder of each missing chunk in turn, stores what hashes to its key, and ends at the first missing holder, transport failure, mismatch or chunk too large, keeping what was stored |
| `Reconstruct.FetchMeans` | packages/fallow-modelmesh/src/fallow_modelmesh/exchange.py:26-47 | whatever the peers serve: the chunks fetched are the missing ones up to the first that failed, each is what its first holder served and hashes to its key, exactly these were put in the store in that order, and the error says why the next one failed |
| `Reconstruct.GetKeepsContents` | packages/fallow-modelmesh/src/fallow_modelmesh/store.py:47-54 | reading a chunk moves it but changes no lookup |
| `Reconstruct.AssembleTo` | packages/fallow-modelmesh/src/fallow_modelmesh/reconstruct.py:31-40 | the chunk loop re-checks every chunk and writes exactly the concatenation, or stops at the first missing or bad one |
| `Reconstruct.AssembledMeans` | packages/fallow-modelmesh/src/fallow_modelmesh/reconstruct.py:31-40 | assembling succeeds exactly if every listed chunk is held and hashes to its key, and then yields their concatenation; otherwise the error names the first chunk that is missing or does not |
| `Reconstruct.ReconstructTo` | packages/fallow-modelmesh/src/fallow_modelmesh/reconstruct.py:24-46 | succeeds exactly when all chunks, the total size and the whole-file digest check out, and then the file is the assembled bytes; no other file changes |
| `Reconstruct.RebuiltExactly` | packages/fallow-modelmesh/src/fallow_modelmesh/reconstruct.py:24-46 | success exactly if every chunk is intact and their concatenation has the promised size and digest; which of the two checks failed otherwise |
| `Reconstruct.ReconstructAtomic` | packages/fallow-modelmesh/src/fallow_modelmesh/safe.py:24-36 | the destination becomes the complete file, of the promised size and digest, or is untouched; the temporary file is gone either way |
| `Reconstruct.VerifiedReconstruct` | packages/fallow-modelmesh/src/fallow_modelmesh/safe.py:39-54 | a bad signature touches nothing |
| `Reconstruct.FetchAndReconstruct` | packages/fallow-agent/src/fallow_agent/mesh/fetch.py:75-92 | whatever the peers answer and serve: on return the destination is the file the manifest was built from, or an explicit collision with it; on any failure, a peer that cannot be asked included, the destination is as before |
| `Reconstruct.FetchSucceeds` | packages/fallow-modelmesh/src/fallow_modelmesh/exchange.py:26-47 | with honest first holders and room for all, every missing chunk is fetched once, nothing is evicted, and all are held |
| `Reconstruct.PipelineSucceeds` | packages/fallow-agent/src/fallow_agent/mesh/fetch.py:75-92 | under those conditions the pipeline returns the file itself after fetching each missing distinct chunk once, unless the store holds a chunk that collides with one of the file |
| `Bandwidth.BandwidthLimiter.constructor` | packages/fallow-modelmesh/src/fallow_modelmesh/bandwidth.py:34-52 | the bucket starts full at the larger rate |
| `Bandwidth.BandwidthLimiter.Create` | packages/fallow-modelmesh/src/fallow_modelmesh/bandwidth.py:34-52 | rates that are not positive are refused |
| `Bandwidth.BandwidthLimiter.Throttle` | packages/fallow-modelmesh/src/fallow_modelmesh/bandwidth.py:58-77 | refines the pure bucket step and returns the requested sleep; the allowance is never negative |
| `Bandwidth.WaitingSuffices` | packages/fallow-modelmesh/src/fallow_modelmesh/bandwidth.py:73-76 | sleeping at least as long as asked refills the shortfall |
| `Bandwidth.CallPays` | packages/fallow-modelmesh/src/fallow_modelmesh/bandwidth.py:58-77 | what one call grants and leaves is covered by a second of allowance plus its duration, and by what the last call left plus the time since |
| `Bandwidth.WaitsOnlyWhenShort` | packages/fallow-modelmesh/src/fallow_modelmesh/bandwidth.py:58-77 | a call sleeps exactly when the refilled bucket does not cover it, for exactly the shortfall at its rate; after a long pause the bucket holds one second less what is granted |
| `Bandwidth.CallAccounts` | packages/fallow-modelmesh/src/fallow_modelmesh/bandwidth.py:58-77 | nothing is lost: a call that sleeps as long as asked and does not overflow the bucket leaves what was there plus what time earned less what it granted |
| `Bandwidth.StretchAccounts` | packages/fallow-modelmesh/src/fallow_modelmesh/bandwidth.py:58-77 | the same over a stretch of such calls at one rate, as an equation: the limiter is not slower than its rate either |
| `Bandwidth.SteadyRateBound` | packages/fallow-modelmesh/src/fallow_modelmesh/bandwidth.py:34-77 | any stretch of calls at one rate R grants at most R(1 + elapsed) bytes, for any clock whatever |
| `Bandwidth.MixedRateBound` | packages/fallow-modelmesh/src/fallow_modelmesh/bandwidth.py:28-77 | any mix of rates grants at most maxRate(1 + elapsed) bytes on the monotonic clock the class asks for |
| `Bandwidth.SlowerCallStaysWithinExactly` | packages/fallow-modelmesh/src/fallow_modelmesh/bandwidth.py:58-77 | a stretch that has reached the mixed bound, extended by a slower call that neither sleeps nor fills the bucket, stays within it if and only if the clock did not run backwards |
| `Bandwidth.BackwardClockExceeds` | packages/fallow-modelmesh/src/fallow_modelmesh/bandwidth.py:58-77 | two calls with a clock that goes back a second exceed the mixed bound |
| `Bandwidth.BoundIsReached` | packages/fallow-modelmesh/src/fallow_modelmesh/bandwidth.py:58-77 | the bound is tight: a full bucket and an exact sleep reach it |
| `Sequence.IdentityFile.Save` | go-agent/state/identity.go:82-103 | a save replaces the ceiling or leaves the old one |
| `Sequence.PersistentSeq.Open` | go-agent/runtime/sequence.go:55-69 | resumes at the stored ceiling with a block reserved, or fails with the file unchanged |
| `Sequence.PersistentSeq.Reserve` | go-agent/runtime/sequence.go:75-84 | the window moves only after the new ceiling is on disk |
| `Sequence.PersistentSeq.NextValue` | go-agent/runtime/sequence.go:86-105 | refines the pure step: next value, or the durable ceiling again if the save failed |
| `Sequence.SequenceNeverRegresses` | go-agent/runtime/sequence.go:55-105 | over every run of calls, failed saves, crashes (also inside a save) and restarts: values never decrease, a value repeats only if it was handed back after a failed save, and the ceiling on disk is at least every value |
| `Sequence.ProcessCountsUp` | go-agent/runtime/sequence.go:55-105 | on every run, a process counts up by one from the ceiling it found on disk, keeps at most sixteen numbers reserved ahead, and writes only when they are used up; a call whose save fails hands back the ceiling |
| `Sequence.FailedSaveHandsBackCeiling` | go-agent/runtime/sequence.go:86-105 | the value handed back after a failed save is the ceiling on disk, where a restarted process also begins |
| `Availability.AvailabilitySource.constructor` | go-agent/runtime/availability.go:35-37 | not ready, generation zero |
| `Availability.AvailabilitySource.TakeSnapshot` | go-agent/runtime/availability.go:41-50 | readiness, generation, reason and channel of one instant |
| `Availability.AvailabilitySource.SetActive` | go-agent/runtime/availability.go:54-59 | refines the pure update for a presence change |
| `Availability.AvailabilitySource.SetReclaimed` | go-agent/runtime/availability.go:62-67 | refines the pure update for a reclaim change |
| `Availability.AvailabilitySource.SetReplicaReady` | go-agent/runtime/availability.go:69-74 | refines the pure update for a readiness change |
| `Availability.AvailabilitySource.Recompute` | go-agent/runtime/availability.go:77-91 | publishes a change of readiness and only that: a loss bumps the generation, records the reason and closes the channel |
| `ClaimRunner.RunIsPublished` | go-agent/runtime/availability.go:77-91 | in every reachable state published readiness equals eligibility, and the closed channels are exactly the ones before the current |
| `ClaimRunner.LossClosesCurrentChannel` | go-agent/runtime/availability.go:77-103 | every change of readiness closes exactly the current channel and opens the next; the generation advances by one on a loss and on nothing else |
| `ClaimRunner.LossRecordsReason` | go-agent/runtime/availability.go:77-103 | an available machine is lost to exactly three inputs, and the code recorded is became-active for the user, reclaimed for a reclaim, cancelled for the last replica |
| `ClaimRunner.GainNeedsAllInputs` | go-agent/runtime/availability.go:41-91 | availability returns exactly with the input that was missing, and until then the recorded code stays |
| `ClaimRunner.GenerationNeverFalls` | go-agent/runtime/availability.go:77-91 | over every interleaving |
| `ClaimRunner.ReadyThroughout` | go-agent/runtime/availability.go:41-91 | two ready states of one generation have only ready states, on one channel, between them |
| `ClaimRunner.SnapshotProvenance` | go-agent/inference/runner.go:105-150 | the snapshot a runner holds was taken in an earlier state of the run, ready if the runner went past waiting, and held ever since |
| `ClaimRunner.ServedClaimWasNeverInterrupted` | go-agent/inference/runner.go:187-239 | a claim that passes the recheck was admitted under readiness that held in every state since, on the channel it watches |
| `ClaimRunner.FenceIsExact` | go-agent/inference/runner.go:187-199 | over every run: the fence lets a claim through if and only if the machine has been available without a break since some state in which the claim's snapshot was taken |
| `ClaimRunner.WaitingMissesNothing` | go-agent/inference/runner.go:113-117 | over every run: a runner that waits on a channel is woken whenever the machine is available |
| `ClaimRunner.StaleClaimIsFenced` | go-agent/inference/runner.go:187-239 | no claim admitted before a user return, reclaim or loss of the last ready replica passes the recheck afterwards |
| `ClaimRunner.ServiceStopsWithAvailability` | go-agent/inference/runner.go:163-239 | while a claim is served either the machine is available in the generation of its admission or its channel is closed |
| `ClaimRunner.LossLeavesReason` | go-agent/runtime/availability.go:77-103 | over every run: while availability is lost, the recorded code is the one of the input that took it away, which is found in the run |
| `ClaimRunner.FencedClaimIsReported` | go-agent/inference/runner.go:187-260 | over every run: a claim refused at the fence while the machine is unavailable is reported once, under the reason of the input that took availability away, flagged as presence exactly if that was the user or a reclaim |
| `ClaimRunner.StaleClaimIsReported` | go-agent/inference/runner.go:195-199 | a claim refused by an available machine belongs to an earlier generation and is reported as the user's return |
| `ClaimRunner.BrokenClaimIsReported` | go-agent/inference/runner.go:220-276 | a service that breaks off is reported once: under the reason of the loss if the machine is unavailable, else as timed out, cancelled or connect-failed by how the request ended |
| `ClaimRunner.OnlyFailuresAreReported` | go-agent/inference/runner.go:187-260 | nothing else is reported, and a rejected claim is reported under its own code with no presence flag |
| `ClaimRunner.UploadWasNotCancelled` | go-agent/inference/runner.go:187-239 | over every run: a claim in service was let through the fence, and its response can be uploaded if and only if its channel has not cancelled it since |
| `EventSink.StepKeepsInv` | go-agent/runtime/eventsink.go:80-145 | every step of emitters, heartbeat loop and worker keeps queue order, barrier place, marks and wire order |
| `EventSink.RunKeepsInv` | go-agent/runtime/eventsink.go:80-145 | so does every run |
| `EventSink.BeatNeverOvertakes` | go-agent/runtime/loops.go:14-50 | in every interleaving, once a heartbeat numbered h is on the wire, no enqueued event with a smaller number is pushed after it; before a periodic one every such presence event was delivered |
| `EventSink.FlushAcknowledgesDelivery` | go-agent/runtime/eventsink.go:92-145 | when a flush is acknowledged every presence event numbered before the beat is delivered or the run is already cancelled |
| `EventSink.EnqueuedAreAccepted` | go-agent/runtime/eventsink.go:80-87 | over every run: what is enqueued is, in order and with their own numbers, the events emitted while fewer than 128 items waited |
| `EventSink.BeatCarriesItsNumber` | go-agent/runtime/loops.go:14-50 | over every run: a heartbeat in the making has the newest number taken for one, and its kind |
| `EventSink.WireIsSent` | go-agent/runtime/loops.go:14-50 | over every run: the wire is exactly one push per attempt, on the event held, and one beat per sending with the number taken for it, save a periodic one on a cancelled run |
| `EventSink.BeatsWereNumbered` | go-agent/runtime/loops.go:14-50 | over every run: every beat on the wire was numbered by an earlier step, with that number and kind |
| `EventSink.CancelledExactly` | go-agent/runtime/eventsink.go:119-145 | over every run: it is cancelled if and only if there was a shutdown or a third failure on a presence event |
| `EventSink.RunKeepsTally` | go-agent/runtime/eventsink.go:122-145 | in every reachable state each event is delivered exactly if an attempt succeeded before its attempts ran out |
| `EventSink.FinalBeatExactly` | go-agent/runtime/runtime.go:253-259 | any heartbeat, the final one included, has an earlier event undelivered if and only if all attempts of that event failed |
| `EventSink.FinalBeatMayOvertake` | go-agent/runtime/runtime.go:253-259 | a run in which the final heartbeat goes out after a user_returned event was lost |
| `EventSink.Deliver` | go-agent/runtime/eventsink.go:122-145 | the retry loop is a run of steps of the sink: one attempt for agent_stopping, up to three for a presence event, none after a success; the third failure cancels the run |
| `Numbering.SequenceNumbersTheSink` | go-agent/runtime/sitesink.go:36-52 | a schedule of the sink whose numbers are drawn from any run of the crash-safe sequence, restarts included, is a run of the sink: its numbers never regress |
| `Desired.StepKeepsInv` | go-agent/runtime/site.go:74-139 | every step keeps the sets in the pipeline rising and ending in the newest |
| `Desired.NewestIsNeverLost` | go-agent/runtime/site.go:74-139 | in every interleaving the newest submitted set is with the producer, in the channel, in the worker's hand, pending, or the last one applied |
| `Desired.NewestIsLastSubmitted` | go-agent/runtime/site.go:74-83 | over every run: the newest set is the one submitted last |
| `Desired.AppliedWhenEligible` | go-agent/runtime/site.go:114-128 | over every run: the sets applied are exactly those pending at a decision that found the machine eligible; the others stay pending |
| `Desired.NudgeIsRemembered` | go-agent/runtime/site.go:85-112 | over every run: the poke is set exactly while a nudge has not been taken |
| `Desired.NudgeRevivesDeferred` | go-agent/runtime/site.go:85-128 | taking it applies the deferred set on an eligible machine |
| `Desired.AppliedInOrder` | go-agent/runtime/site.go:98-139 | sets are applied in submission order, and what is pending is newer than everything applied |
| `Desired.SendNeverDrops` | go-agent/runtime/site.go:74-83 | after the drain the second non-blocking send always finds room |
| `Replicas.CommitCoherentExactly` | go-agent/supervisor/supervisor.go:359-398 | committing a signal keeps live = not stopped and saved = suspended if and only if everyone in the snapshot of a suspend is registered at the commit or was found vanished |
| `Replicas.RunCoherentExactly` | go-agent/supervisor/supervisor.go:99-148 | a run of starts (racing ones too), stops, crashes, health results and two-step signals is coherent throughout if and only if every commit is clean in that sense and no second start lands on a suspended replica |
| `Replicas.LiveExactly` | go-agent/supervisor/supervisor.go:125-193 | over every run: a replica has a process exactly if it was registered and has not since been stopped, crashed or found vanished by a commit, of either signal |
| `Replicas.EndsStopped` | go-agent/supervisor/supervisor.go:125-148 | each of these leaves it STOPPED with nothing saved, its port and GPU flag kept |
| `Replicas.RowIsAsRegistered` | go-agent/supervisor/supervisor.go:184-193 | over every run: port and GPU flag are those of the last registration |
| `Replicas.StopInsideSuspendStrands` | go-agent/supervisor/supervisor.go:322-372 | a stop between snapshot and commit leaves a replica suspended with no process |
| `Replicas.StrandedReplicaStays` | go-agent/supervisor/supervisor.go:322-372 | no later suspend or resume gets it out of that state |
| `Replicas.StartOnStrandedMakesPhantom` | go-agent/supervisor/supervisor.go:184-193 | a start that lands on such a replica, and a resume, leave a registered process that counts as STOPPED |
| `Replicas.SuspendParks` | go-agent/supervisor/supervisor.go:322-389 | an uninterrupted suspend of a coherent table leaves everything suspended with its prior state saved, or stopped |
| `Replicas.ResumeRestores` | go-agent/supervisor/supervisor.go:322-398 | on every clean run, whatever falls between or inside the signals: the state a surviving replica returns to stays what it was, or becomes READY exactly when a health check finds it loading, and the commit of a resume that snapshotted it puts it in that state |
| `Supervision.Supervisor.constructor` | go-agent/supervisor/supervisor.go:69-92 | no replicas |
| `Supervision.Supervisor.StartReplica` | go-agent/supervisor/supervisor.go:99-120 | a live model is left alone, a failed spawn changes nothing, otherwise a loading replica is registered; the cache is current |
| `Supervision.Supervisor.StopReplica` | go-agent/supervisor/supervisor.go:125-148 | the replica ends, nothing else changes; the cache is current |
| `Supervision.Supervisor.MarkReady` | go-agent/supervisor/supervisor.go:277-283 | only a loading replica becomes ready; the cache is current |
| `Supervision.Supervisor.MarkCrashed` | go-agent/supervisor/supervisor.go:285-294 | the replica ends; the cache is current |
| `Supervision.Supervisor.Statuses` | go-agent/supervisor/supervisor.go:174-180 | the cached list is the projection of the maps: every known replica once, with its current state, port and gpu flag |
| `Supervision.Supervisor.SuspendAll` | go-agent/supervisor/supervisor.go:322-332 | the whole-table effect of a suspend |
| `Supervision.Supervisor.ResumeAll` | go-agent/supervisor/supervisor.go:322-332 | the whole-table effect of a resume |
| `Supervision.Supervisor.CommitSignals` | go-agent/supervisor/supervisor.go:359-372 | the loop over the snapshot has exactly the whole-table effect, in any order |
| `Supervision.Supervisor.SignalOne` | go-agent/supervisor/supervisor.go:374-398 | one replica is suspended, resumed to its saved state or pruned; the other maps are untouched |
| `Supervision.Supervisor.RebuildCache` | go-agent/supervisor/supervisor.go:306-318 | the rebuilt list is the projection of the maps |
| `Preempt.Controller.constructor` | go-agent/preempt/controller.go:49-74 | starts idle with nothing seen |
| `Preempt.Controller.OnPoll` | go-agent/preempt/controller.go:89-109 | refines the pure poll: state, supervisor table and emitted events |
| `Preempt.PollYields` | go-agent/preempt/controller.go:89-141 | with fresh input, an idle controller becomes active, tells user_returned once, and every live replica is suspended with its prior state kept, or found vanished and stopped |
| `Preempt.PollResumes` | go-agent/preempt/controller.go:89-149 | past the idle threshold, an active controller becomes idle, tells user_idle once, and every live replica is back in its prior state, or found vanished and stopped |
| `Preempt.PollStays` | go-agent/preempt/controller.go:89-166 | every other poll tells nothing, keeps the state, remembers the reading, and changes the table only to evict when an active episode is due |
| `Preempt.Controller.Drain` | go-agent/preempt/controller.go:112-120 | emits agent_stopping once |
| `Preempt.Controller.EnterActive` | go-agent/preempt/controller.go:131-141 | suspends everything, starts the episode, emits user_returned |
| `Preempt.Controller.EnterIdle` | go-agent/preempt/controller.go:143-149 | resumes everything, ends the episode, emits user_idle |
| `Preempt.Controller.MaybeEscalate` | go-agent/preempt/controller.go:151-166 | evicts exactly when due and not yet done in this episode |
| `Preempt.Controller.StopSuspendedGpu` | go-agent/preempt/controller.go:157-165 | the loop over a status snapshot stops exactly the suspended GPU replicas |
| `Preempt.ReclaimController.constructor` | go-agent/preempt/reclaim.go:90-100 | not reclaimed |
| `Preempt.ReclaimController.OnPoll` | go-agent/preempt/reclaim.go:112-140 | acts on edges only: suspends and hands off the stop when the flag appears, and follows the flag |
| `Preempt.ReclaimController.StopAllReplicas` | go-agent/preempt/reclaim.go:142-146 | every known replica is stopped |
| `Presence.NothingRunsExactly` | go-agent/runtime/loops.go:58-99 | over every run of polls, reclaim edges, health results, crashes, stops, evictions, drains and starts, with each signal a snapshot and a commit and each start a guard and a registration: the maps are coherent and nothing runs while the machine is the user's, in every state, if and only if no child registers while it is the user's and every suspend is committed over exactly what it snapshotted |
| `Presence.NothingRunsForPresentUser` | go-agent/runtime/loops.go:58-99 | with the two halves of each signal and of each start adjacent, over every run: while the controller is ACTIVE or the machine reclaimed, every known replica is suspended or stopped |
| `Presence.StartKeepsExactly` | go-agent/runtime/site.go:378-388 | registering a replica keeps that if and only if the machine is not the user's at that very moment |
| `Presence.SuspendCommitsExactly` | go-agent/supervisor/supervisor.go:359-389 | committing a suspend leaves a coherent table with nothing running if and only if nothing it snapshotted was stopped since (unless found vanished) and nothing it did not snapshot is running |
| `Presence.YieldSuspends` | go-agent/preempt/controller.go:131-141 | on every sound run: the commit that notices the user makes the controller active from that tick on, withdraws the machine from the view, and suspends what was in the snapshot with its prior state kept |
| `Presence.IdleResumes` | go-agent/preempt/controller.go:143-149 | on every sound run: the commit that finds the user gone makes the controller idle and returns every live replica of the snapshot to its prior state |
| `Presence.DrainWithdraws` | go-agent/preempt/controller.go:112-120 | a drain withdraws the machine from the view |
| `Presence.SplitGuardBreaks` | go-agent/runtime/site.go:378-388 | runs from start-up, for every configuration: the guard passes, the user returns during the spawn, the child registers inside the suspend or after it, and a replica is loading while the controller is ACTIVE |
| `Presence.StopInsideYieldBreaks` | go-agent/preempt/controller.go:131-141 | a run from start-up: a stop falls inside the suspend for a returning user and leaves a replica stranded |
| `Presence.ReadyMeansAwayExactly` | go-agent/runtime/loops.go:58-120 | over every run: the view is never ready while the controller is ACTIVE if and only if no step publishes readiness to an active user whom the view has forgotten |
| `Presence.ReadyMeansUnreclaimed` | go-agent/runtime/loops.go:58-99 | over every run: the view is never ready while the machine is reclaimed, except inside the tick that engages the reclaim |
| `Presence.ReadyMeansAway` | go-agent/runtime/loops.go:58-120 | runs whose registrations and commits are sound expose nothing, so on them the view is never ready while the controller is ACTIVE |
| `Presence.ReleaseForgetsUser` | go-agent/runtime/loops.go:111-120 | a run after which the view says nobody is active while the controller is ACTIVE |
| `Presence.LateChildMakesReady` | go-agent/runtime/site.go:378-388 | a run, for every configuration: a child whose guard passed before the user returned registers after a reclaim was released, and the view is ready while the controller is ACTIVE |
| `Presence.EscalatedUntilIdle` | go-agent/preempt/controller.go:151-166 | within one active episode an eviction stays recorded |
| `Presence.OneEvictionPerEpisode` | go-agent/preempt/controller.go:151-166 | between two evictions of a run the controller has left ACTIVE |
| `Presence.EpisodeBegan` | go-agent/preempt/controller.go:131-166 | over every run: an active controller became so at a commit of an idle one, counts from the time of that poll, has been active ever since, and has escalated exactly if a poll since has evicted |
| `Presence.EvictsExactlyOnceWhenDue` | go-agent/preempt/controller.go:151-166 | over every run: a poll of an active episode evicts exactly if the configured time has passed since that poll and none since has evicted; otherwise it leaves the table alone |
| `Preempt.EvictedExactly` | go-agent/preempt/controller.go:157-165 | on any table: an eviction leaves every GPU replica stopped if and only if every one was suspended or stopped before, and touches only suspended ones |
| `Presence.EvictionFreesEveryGpu` | go-agent/preempt/controller.go:151-166 | on runs whose registrations and commits are sound, an eviction leaves no GPU replica but stopped ones and touches no other replica |
| `Presence.DrainingIsTerminal` | go-agent/preempt/controller.go:89-120 | once draining the controller never changes again |
| `InputDetection.PollsSettle` | packages/fallow-agent/src/fallow_agent/preempt/controller.py:77-123 | after any polls, with the idle threshold at least the poll interval, an idle controller remembers the last reading and it was at least one poll interval |
| `InputDetection.DetectsExactly` | packages/fallow-agent/src/fallow_agent/preempt/controller.py:77-108 | with honest readings an idle controller goes active if and only if there was input since the last poll that is younger than the previous reading or than the poll interval |
| `InputDetection.InputCanBeMissed` | packages/fallow-agent/src/fallow_agent/preempt/controller.py:77-108 | an input just after one poll and a long gap before the next: the controller stays idle |
| `InputDetection.DetectsEveryInput` | go-agent/preempt/controller.go:89-149 | if the poll gap is at most the previous reading, that is: if and only if there was input since the last poll |
| `Site.SeenIsClaimRun` | go-agent/inference/runner.go:105-150 | what the claim runner sees of the whole machine is a run of the claim protocol: every step of the poll loop, the supervisor and the reconciler is one update of the view |
| `Site.ReadyMeansAwayExactly` | go-agent/runtime/loops.go:58-120 | over every interleaving of the poll loop, the supervisor, the reconciler and the claim runner: the view is never ready while the controller is ACTIVE if and only if no step exposes it |
| `Site.ServedClaimMeansAway` | go-agent/inference/runner.go:187-239 | on every interleaving in which no earlier step exposes the machine: a claim that passes the recheck was admitted at a moment since which the controller was never ACTIVE, nor the machine reclaimed outside the tick that engages it |
| `Site.ServingMeansAway` | go-agent/inference/runner.go:163-239 | on such an interleaving, while a claim is served the user is away in that sense, or the channel the claim watches is closed |
| `Site.SoundRunsExposeNothing` | go-agent/runtime/loops.go:58-120 | interleavings whose registrations and commits are sound expose nothing |
| `Site.ReadyIsServed` | go-agent/inference/runner.go:105-150 | whenever the view is ready and the runner at rest, whatever the user does, the run goes on to serve a claim on an open channel |
| `Site.LateChildIsServed` | go-agent/inference/runner.go:187-239 | a run, for every configuration, in which a claim is served on an open channel while the controller is ACTIVE |
| `Reconcile.NextPort` | go-agent/reconcile/reconcile.go:133-141 | the lowest free port of the range, or none exactly when all are used |
| `Reconcile.ReadRunning` | go-agent/reconcile/reconcile.go:73-83 | the local maps hold exactly the supervisor's replicas that are not stopped, and their ports |
| `Reconcile.SortedIds` | go-agent/reconcile/reconcile.go:67-98 | the distinct non-empty desired ids, strictly sorted |
| `Reconcile.StopUnwanted` | go-agent/reconcile/reconcile.go:84-93 | from any table whose running replicas hold distinct ports: everything running and unwanted is stopped, every other row is untouched, and the freed ports are free |
| `Reconcile.StartOne` | go-agent/reconcile/reconcile.go:108-128 | for any manifest: a start needs the manifest, the cached file, the lowest free port and a new process, and registers that replica, or is ignored for a live model; a failure leaves the table alone and is the first of these that was missing |
| `Reconcile.StartWanted` | go-agent/reconcile/reconcile.go:94-130 | in order of their ids, the missing ones are started on rising ports or named by a true error, and nothing else changes; the context is looked at once before each try and ends the loop exactly when the looks run out |
| `Reconcile.Apply` | go-agent/reconcile/reconcile.go:61-131 | from any table whose running replicas hold distinct ports: they still do, row by row only the unwanted were stopped and the missing started, each with its manifest, its cached file and its process, in range and rising with their ids; a running desired replica is never touched; no error if the running set is the desired set; unless the context ended, every desired one runs, is a phantom with a port set aside, or is named by an error; every error names a replica that does not run and is what happened; the looks at the context add up |
| `Reconcile.SuccessMeansDesired` | go-agent/reconcile/reconcile.go:61-131 | after an Apply without errors the replicas with a process that count as running are exactly the desired set if and only if no desired replica was hollow (running in name only) or a phantom before |
| `Reconcile.CoherentStaysCoherent` | go-agent/reconcile/reconcile.go:61-131 | a coherent table stays coherent, errors or not, and there is no error if and only if the live set is the desired set |
| `Reconcile.ExhaustionIsRealExactly` | go-agent/reconcile/reconcile.go:118-122 | when exhaustion is reported for an id, every port of the range is held by a running desired replica if and only if none was set aside for a phantom that comes before it |
| `Reconcile.ExhaustionIsReal` | go-agent/reconcile/reconcile.go:118-122 | if no desired replica is a phantom, exhaustion is reported only when every port of the range is held by a running desired replica |
| `Reconcile.BrokenStaysBroken` | go-agent/reconcile/reconcile.go:100-103 | Apply never repairs a desired replica that is hollow or a phantom |
| `Reconcile.ApplyOverStranded` | go-agent/reconcile/reconcile.go:61-131 | a stop inside a suspend, then Apply: it reports success and nothing is live |
| `Reconcile.ApplyOverPhantom` | go-agent/reconcile/reconcile.go:61-131 | a phantom, then Apply: it reports success and nothing counts as running |
| `Reconcile.ExhaustedByPhantom` | go-agent/reconcile/reconcile.go:118-122 | with a phantom: exhaustion is reported although no port of the range is in use |
| `Discovery.LessIsOrder` | go-agent/discovery/discovery.go:212-220 | IPv4 first, then address bytes, then port is a strict total order |
| `Discovery.LessMeans` | go-agent/discovery/discovery.go:212-220 | IPv4 before IPv6, then the address bytes at their first difference, then the port |
| `Discovery.SelectOrigins` | go-agent/discovery/discovery.go:181-210 | the strictly sorted, truncated list of the distinct usable endpoints of answers for this site |
| `Discovery.SelectionIgnoresOrder` | go-agent/discovery/discovery.go:181-210 | two lists with the same answers, in any order and multiplicity, give the same candidates |
| `Discovery.SelectionIsSmallest` | go-agent/discovery/discovery.go:181-256 | at most eight, all offered, and everything offered but left out is larger than all eight |
| `Discovery.ServesSiteExactly` | go-agent/discovery/discovery.go:222-244 | an answer counts exactly if its name ends in the service in any case and exactly one TXT field carries the site key, with this site |
| `Discovery.OffersMeans` | go-agent/discovery/discovery.go:184-199 | an answer for this site with a port from 1 to 65535 offers each of its usable addresses, and nothing else is offered |
| `Discovery.UsableV4` | go-agent/discovery/discovery.go:246-256 | IPv4, bare or mapped, is usable exactly if neither unspecified nor multicast |
| `Discovery.UsableV6` | go-agent/discovery/discovery.go:246-256 | other IPv6 is usable exactly if not unspecified, not multicast and not link-local |
| `Discovery.MalformedIsUnusable` | go-agent/discovery/discovery.go:246-256 | an address of any other length is not usable |
| `LittleEndian.DecodeEncode` | packages/fallow-cli/src/fallow_cli/gguf.py:156-157 | a value that fits its width is read back |
| `LittleEndian.EncodeDecode` | packages/fallow-cli/src/fallow_cli/gguf.py:156-157 | every byte string is the encoding of the value read |
| `LittleEndian.SignedOfEncoded` | packages/fallow-cli/src/fallow_cli/gguf.py:156-157 | two's complement values are read back |
| `LittleEndian.EncodedOfSigned` | packages/fallow-cli/src/fallow_cli/gguf.py:156-157 | every signed reading is in range and encodes back |
| `GgufAnchors.NumbersAreLittleEndian` | packages/fallow-cli/src/fallow_cli/gguf.py:156-157 | the bytes of a number, least significant first |
| `GgufAnchors.TypesAreAsSpecified` | packages/fallow-cli/src/fallow_cli/gguf.py:34-48 | which type codes are integers of which width and sign, which are floats, and the codes of strings and arrays |
| `GgufAnchors.HeaderStartsAsSpecified` | packages/fallow-cli/src/fallow_cli/gguf.py:168-188 | a header is the four magic bytes, the version, the two counts and the pairs, with the widths of the format |
| `GgufAnchors.ArraysAreAsSpecified` | packages/fallow-cli/src/fallow_cli/gguf.py:220-235 | an array is its element type, its length and its elements |
| `GgufAnchors.PairLimits` | packages/fallow-cli/src/fallow_cli/gguf.py:24-48 | the limits of a key, a string and an array, in numbers |
| `GgufAnchors.HeaderLimits` | packages/fallow-cli/src/fallow_cli/gguf.py:24-32 | versions 2 and 3 and at most 4096 pairs |
| `GgufParser.ValueBack` | packages/fallow-cli/src/fallow_cli/gguf.py:204-235 | every well-formed value of every type, followed by anything, is read back whole |
| `GgufParser.HeaderBack` | packages/fallow-cli/src/fallow_cli/gguf.py:168-194 | every well-formed v2 or v3 header within the limits, followed by any bytes, is read back whole and nothing after it is consumed |
| `GgufParser.HeaderFrom` | packages/fallow-cli/src/fallow_cli/gguf.py:168-235 | whatever is accepted is such a header followed by the unread rest |
| `GgufParser.AcceptsExactlyHeaders` | packages/fallow-cli/src/fallow_cli/gguf.py:168-235 | the reader accepts exactly the byte strings that start with a well-formed header |
| `GgufReader.Reader.constructor` | packages/fallow-cli/src/fallow_cli/gguf.py:146-148 | the cursor starts at zero |
| `GgufReader.Reader.Read` | packages/fallow-cli/src/fallow_cli/gguf.py:150-154 | the next bytes, or an error if they are not all there |
| `GgufReader.Reader.ReadUint` | packages/fallow-cli/src/fallow_cli/gguf.py:156-157 | a little-endian number of the given width |
| `GgufReader.Reader.Skip` | packages/fallow-cli/src/fallow_cli/gguf.py:159-165 | moves the cursor, or fails without moving it past the end of the file |
| `GgufReader.Reader.ReadText` | packages/fallow-cli/src/fallow_cli/gguf.py:197-201 | a length within the limit and that many bytes |
| `GgufReader.Reader.SkipArray` | packages/fallow-cli/src/fallow_cli/gguf.py:220-235 | passes over exactly one array of strings or fixed-width numbers |
| `GgufReader.Reader.ReadValue` | packages/fallow-cli/src/fallow_cli/gguf.py:204-217 | a string or integer is kept, everything else passed over |
| `GgufReader.Reader.ReadPairs` | packages/fallow-cli/src/fallow_cli/gguf.py:179-188 | the last kept value of each wanted key |
| `GgufReader.Reader.ReadHeader` | packages/fallow-cli/src/fallow_cli/gguf.py:168-194 | the object with its cursor does what the pure parser says, and stops where it stops |
| `GgufReader.ReadFile` | packages/fallow-cli/src/fallow_cli/gguf.py:134-194 | for every file: an error if and only if it does not start with a well-formed header within the limits; otherwise version, tensor count and the last value of each wanted key when it has the right type, with the cursor right behind the last record and never behind the end of the file |
| `GgufReader.SummaryMeans` | packages/fallow-cli/src/fallow_cli/gguf.py:179-194 | the summary holds the version, the tensor count, and under the three keys of the format the last string or integer read, if it is of the right kind |
| `Download.CacheDir.SeedFromExisting` | packages/fallow-agent/src/fallow_agent/modelcache/download.py:43-59 | the block loop feeds the hasher the whole existing part file |
| `Download.CacheDir.AppendBody` | packages/fallow-agent/src/fallow_agent/modelcache/download.py:94-98 | file, hasher and count advance together over the body chunks |
| `Download.CacheDir.StreamToPart` | packages/fallow-agent/src/fallow_agent/modelcache/download.py:62-100 | 206 appends, 200 restarts, anything else leaves the part file alone; against any server a completed attempt reports the digest and size of the whole part file |
| `Download.CacheDir.FetchWithRetries` | packages/fallow-agent/src/fallow_agent/modelcache/store.py:117-134 | ends with the first attempt that completes, or after exactly max_retries + 1 that did not |
| `Download.CacheDir.DownloadAndVerify` | packages/fallow-agent/src/fallow_agent/modelcache/store.py:96-115 | publishes if and only if an attempt completes and the whole part file has the promised digest and size; otherwise blob and marker are untouched, and a part file that failed verification is removed |
| `Download.CacheDir.Ensure` | packages/fallow-agent/src/fallow_agent/modelcache/store.py:58-81 | a marked blob is returned without a request; otherwise a path is returned exactly if an attempt completed within the retries and the bytes then assembled have the digest and the size; a failure leaves blob and marker alone and keeps the part file exactly if no attempt completed. On any cache, what is returned has the promised digest if and only if the call did not find that marker over a blob of another digest; a trustworthy cache stays trustworthy |
| `Download.PartStaysPrefix` | packages/fallow-agent/src/fallow_agent/modelcache/download.py:62-100 | against a server of one blob (sections 14.2 and 15.3.7 of RFC 9110), over every sequence of attempts broken anywhere, the part file stays a prefix of the blob and a completed attempt has all of it |
| `Download.AnswersMean` | packages/fallow-agent/src/fallow_agent/modelcache/download.py:84-100 | 206 appends to the part file, 200 starts it over, any other status or no answer leaves it alone; only a whole body under these two completes |
| `Download.CompletePartIsStuck` | packages/fallow-agent/src/fallow_agent/modelcache/download.py:84-92 | a part file that already is the whole blob asks for an empty range and gets 416 (section 15.5.17 of RFC 9110) every time |
| `Download.ResumeFinishesExactly` | packages/fallow-agent/src/fallow_agent/modelcache/download.py:84-100 | from any prefix, a faultless server completes the download if and only if the part file is empty or not yet the whole blob |
| `Download.BreakAfterLastByteIsFinal` | packages/fallow-agent/src/fallow_agent/modelcache/store.py:117-134 | a connection that breaks after the last byte leads to that state: all later attempts fail with the whole blob on disk |
| `Publication.StepKeepsTrustExactly` | packages/fallow-agent/src/fallow_agent/modelcache/store.py:96-104 | one file operation keeps "a matching marker means a verified blob" unless it is a crash between marker and replace over an older blob |
| `Publication.OnlyVerifiedBytesArePublished` | packages/fallow-agent/src/fallow_agent/modelcache/store.py:96-115 | over every run with crashes anywhere, a published blob has the digest in its marker |
| `Publication.DownloadIsRun` | packages/fallow-agent/src/fallow_agent/modelcache/store.py:96-134 | what the retry loop, comparison and publication do to the directory is a run of these file operations without a crash |
| `Publication.TrustedExactly` | packages/fallow-agent/src/fallow_agent/modelcache/store.py:58-104 | a run keeps the cache trustworthy throughout if and only if it has no such crash |
| `Publication.TornUpdateIsTrusted` | packages/fallow-agent/src/fallow_agent/modelcache/store.py:58-104 | for any two blobs with different digests, a run after which the old blob is trusted as the new one |
| `Publication.CrashAfterLastByteIsFinal` | packages/fallow-agent/src/fallow_agent/modelcache/store.py:96-134 | a crash after the last byte, before or after the marker, leaves the whole blob in the part file and nothing published, and against a faultless server no later attempt completes |

## Left out

- Reconcile.Apply: takes for granted that a fetched manifest carries the id it was asked for, which the reconciler does not check, and that no other goroutine changes the table while it runs.
- Reconcile.StartWanted: takes the same for granted; Reconcile.StartOne does not.
- Presence.NothingRunsExactly: is about the table, by model id as in the source. A child registered anew between a suspend's snapshot and its commit is marked SUSPENDED although its process was not signalled, and stop loops are taken one stop at a time.
- Presence.NothingRunsForPresentUser: takes the two halves of each signal and each start as adjacent; Presence.NothingRunsExactly does not.
- Presence.ReadyMeansAway: is for runs whose registrations and commits are sound; Presence.ReadyMeansAwayExactly is for all runs.
- Presence.YieldSuspends: is for such runs too; Preempt.PollYields is for every coherent table.
- Presence.IdleResumes: is for such runs too; Preempt.PollResumes is for every coherent table.
- Presence.EvictionFreesEveryGpu: is for such runs too; Preempt.EvictedExactly is for all tables.
- Site.ServedClaimMeansAway: is for runs that expose nothing; Site.LateChildIsServed shows that it is false of others.
- Site.ServingMeansAway: is for runs that expose nothing, for the same reason.
- Replicas.RunCoherentExactly: two starts of one model may race, but the process that the second registration orphans is not modelled.
- Supervision.Supervisor.StartReplica: the check and the registration are one call here, and may be apart in Replicas and Presence; process spawning, health goroutines, grace periods and kills are outcomes or steps, and the in-flight probing of the Python supervisor is left out.
- Supervision.Supervisor.MarkCrashed: is by model id as in the source; a late crash report for an earlier process of the same model ends the newer entry in the model too, and the leak of its process is not modelled.
- Discovery.SelectOrigins: returns endpoints, not URL strings; the textual key is taken to be one-to-one on 16-byte addresses and ports, and lower-casing is ASCII only.
- GgufReader.ReadFile: keeps strings as bytes; the lossy UTF-8 decoding of kept strings and keys, and operating-system read errors, are not modelled.
- GgufReader.Reader.ReadText: returns the bytes, not their lossy UTF-8 decoding.
- Download.CacheDir.Ensure: models one model's directory and one caller; the per-model lock and the backoff sleeps are not modelled, and a marker is its digest, not its text.
- Download.PartStaysPrefix: is about one blob; a server that changes its blob between attempts is covered only by the digest check of Download.CacheDir.DownloadAndVerify.
- Reconstruct.ReconstructAtomic: a crash of the process or an I/O error while writing or renaming is not modelled.
- Reconstruct.FetchAndReconstruct: the signature check is a flag, and seeding the store from a directory is left out.
- Bandwidth.BandwidthLimiter.Throttle: rounding of floats is not modelled.
- Bandwidth.SlowerCallStaysWithinExactly: is exact for one more call on a stretch that has reached the bound; below the bound a backward clock may still stay within it, and no condition on whole stretches is given.
- Availability.AvailabilitySource.Recompute: wrap-around of the 64-bit generation counter is not modelled.
- ClaimRunner.ServiceStopsWithAvailability: says a closed channel cancels the request, not how soon; request and response bodies and the backoff between claims are left out.
- EventSink.StepKeepsInv: only the three event kinds the daemon emits, and only the bounded queue's order; JSON, HTTP and the shutdown join are left out. An event dropped by a full buffer is not enqueued, so no claim is made about it.
- EventSink.Deliver: the delays between attempts are not modelled.
- Sequence.PersistentSeq.NextValue: wrap-around of the integer is not modelled; a save is the rename of a temporary file, taken as atomic.
- Preempt.ReclaimController.OnPoll: the control file is a flag passed in, and the background stop is a separate call.
- Liveness and latency: nothing says that a step is ever taken.
- SHA-256, HMAC, hexadecimal and JSON encodings: the hash and the signature are parameters, digests are bytes, manifests are values.
- Relay, TLS pinning, enrolment, mDNS sockets, idle readers and other platform code: foreign calls, so inputs to the models.
- Offline bundles: an import is the loop of Exchange.FetchDelta with a directory in place of the first holder; the bundle's JSON is not modelled.
- Topology-aware holder choice: a sort by an injected key; the delta fetch modelled here takes the first holder, as the source's does.
- The idle predictor: its forecasts steer no decision modelled here.
- The Python port allocator: its lowest-free-port rule is the one of Reconcile.NextPort.
- Version, quantisation-name, RAM-estimate and doctor helpers: table lookups and single comparisons over values read elsewhere.
- Coordinator, scheduler, gateway, command line, rendering, analysis and test bench: not part of this model.
