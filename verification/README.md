# Verification of the sandbox provisioner and the stateful web-client algorithms

A Dafny model of the repository's most intricate behaviour, with proofs of what
it promises. Two areas are covered.

**The sandbox provisioner** (`docker/sandbox_provisioner/app.py`). Operation
pins, the quiescence gate, the generation-fenced in-memory backend and the idle
reaper are modelled as classes whose methods update their fields, and each
method is proved to compute a function on the object's value. The request
handlers, the quiescence workers and the reaper are a transition system over
those functions: every thread has a program counter, one step is one lock-held
region, a condition variable is the set of threads parked on it, and any
interleaving with any failures, timeouts and arrivals is a run. Over all runs:
drain before delete, no create after the gate, fenced removals, no deadlock, no
lost wake-up, no livelock, and what each handler's answer means: success is work
done, failure has its reason and changed no record. The Docker subnet allocator and its retry loop are
methods proved against CIDR blocks (section 3.1 of RFC 4632).

**The web client**. The stream smoother, the event-stream reader and its resume
cursor, mention tokens, the expanded-tree refresh, the task store, chunk merging
and the render cache; and, from the backend, the login rate limit. Objects with
fields are classes with `modifies` clauses, loops are loops with invariants, and
each is tied to a specification function about which the promised properties are
proved for all inputs, runs, chunkings and orders of arrival.

Where the code does not keep a promise in full, the boundary is proved too: a
second delete of an id breaks the exclusion from every state with a delete in
flight; between the reaper's re-check and its erase no pinned refresh lands, and
the sandbox stays idle exactly unless a create's late touch or a matching forget
after a delete, the two updates made without a pin, runs in between; preserving
or restarting a run with a cursor read before waiting replays delivered events,
and keeps delivery on course exactly when that cursor is still at the same
place; preserving an older run displaces a newer one exactly when an interrupt
is pending for the older; a chunk merge rebuilds a text exactly when the longest
overlap is the true one. The tree refresh gives the recursive result for all
trees if no directory lists one read before it, and, where listings hold files
and non-empty directories not yet loaded, only then.

Wherever automatic induction would apply to a lemma it is turned off
(`{:induction false}`), so the proof written is the whole proof.

| files | subject |
|---|---|
| `Prelude.dfy` | options, results, joined sequences, JavaScript whitespace, induction along a run |
| `SandboxState.dfy`, `SandboxProtocol.dfy` | shared objects; handlers as a transition system |
| `SandboxInvariants.dfy`, `SandboxSafety.dfy`, `SandboxFencing.dfy`, `SandboxAnswers.dfy`, `SandboxProgress.dfy` | what all runs keep, and what answers mean |
| `SubnetPool.dfy` | subnet selection and the retry loop |
| `SmootherMessage.dfy`, `SmootherRuns.dfy`, `StreamSmoother.dfy`, `SmootherObject.dfy` | paced replay of streamed text |
| `SseReader.dfy`, `SseRoundTrip.dfy`, `RunSeq.dfy`, `RunStream.dfy`, `RunDelivery.dfy`, `RunLife.dfy` | event reader, resume cursor, run guards |
| `MentionText.dfy`, `MentionRoundTrip.dfy`, `MentionGrammar.dfy`, `MentionDeletion.dfy` | mention tokens |
| `TreeRefresh.dfy`, `TaskStore.dfy`, `TaskRuns.dfy`, `TaskProgress.dfy`, `ChunkMerge.dfy`, `RenderCache.dfy`, `LoginLimiter.dfy` | the other state machines and loops |

## Model

| member | source | states |
|---|---|---|
| SandboxState.SandboxOperationPins.Acquire | docker/sandbox_provisioner/app.py:390-394 | a pin is taken exactly when the id is not being deleted, else the caller is parked; the whole new pin table |
| SandboxState.SandboxOperationPins.Release | docker/sandbox_provisioner/app.py:396-403 | one holder less, no entry left at zero, and everybody woken when the last holder leaves |
| SandboxState.SandboxOperationPins.BeginDelete | docker/sandbox_provisioner/app.py:405-409 | the id is marked first; the caller goes on exactly when nobody holds a pin |
| SandboxState.SandboxOperationPins.EndDelete | docker/sandbox_provisioner/app.py:411-414 | the mark is removed and everybody woken |
| SandboxState.SandboxQuiescenceGate.Begin | docker/sandbox_provisioner/app.py:425-429 | the gate is closed at once; the caller goes on exactly when no create is in flight |
| SandboxState.SandboxQuiescenceGate.AcquireCreate | docker/sandbox_provisioner/app.py:431-437 | refused exactly when the gate is closed, then nothing changes |
| SandboxState.SandboxQuiescenceGate.ReleaseCreate | docker/sandbox_provisioner/app.py:439-443 | one create less, and the quiescers woken at zero |
| SandboxState.MemoryProvisionerBackend.Create | docker/sandbox_provisioner/app.py:460-493 | a live record is reused, another workdir rejected, otherwise a fresh generation stored |
| SandboxState.MemoryProvisionerBackend.Delete | docker/sandbox_provisioner/app.py:503-516 | removes exactly when the fence is absent, empty or matches, else leaves everything |
| SandboxState.SandboxIdleReaper.TouchAt | docker/sandbox_provisioner/app.py:1807-1815 | the new time, with the given or else the remembered generation |
| SandboxState.TouchKeepsGeneration | docker/sandbox_provisioner/app.py:1807-1826 | a touch without a generation keeps the remembered one, so a delete fenced by it still forgets the sandbox |
| SandboxState.SandboxIdleReaper.ForgetFenced | docker/sandbox_provisioner/app.py:1817-1826 | forgets unless a fence is given and differs |
| SandboxState.SandboxIdleReaper.CollectExpired | docker/sandbox_provisioner/app.py:1842-1851 | exactly the entries unused for the timeout or longer, each id once, none without a timeout |
| SandboxState.SandboxIdleReaper.StillExpired | docker/sandbox_provisioner/app.py:1856-1860 | the re-check holds exactly for the same generation, still idle |
| SandboxInvariants.StepKeepsInv | docker/sandbox_provisioner/app.py:382-443 | every step of every handler keeps: pin counts equal current holders with no entry at zero, gate count equals creates in flight, every delete mark has its deleter, no parked thread could go on, generations unique |
| SandboxInvariants.ExecutionInv | docker/sandbox_provisioner/app.py:1959-2165 | that invariant holds in every state of every run from start-up |
| SandboxInvariants.WakeMove | docker/sandbox_provisioner/app.py:390-443 | every change that could end a parked thread's wait also notifies |
| SandboxSafety.DeleteExcludesPins | docker/sandbox_provisioner/app.py:382-414 | with one deleter per id so far, in no run is a pin held on an id whose delete is past its drain |
| SandboxSafety.SecondDeleterBreaksExclusion | docker/sandbox_provisioner/app.py:411-414 | from every invariant state with a delete of an id in flight, admitting one more delete of it leads to a pin held during a delete |
| SandboxSafety.SweepsTrackStep | docker/sandbox_provisioner/app.py:2090-2147 | past the gate every listed record is gone or still has its worker, and an emptied listing stays empty |
| SandboxSafety.QuiescedForever | docker/sandbox_provisioner/app.py:2053-2087 | after the gate no create ever executes and records only vanish; success means empty then and for ever after at most two listings |
| SandboxFencing.RemovalMatchesObservation | docker/sandbox_provisioner/app.py:1853-1867 | in every run a record goes exactly at the erase step of a delete of its id that does not fail and whose fence, if there is one, is its generation; workers and the reaper always have one |
| SandboxFencing.StaleDeleteRemovesNothing | docker/sandbox_provisioner/app.py:503-516 | a delete fenced by a generation already gone removes nothing, so a recreated sandbox survives it |
| SandboxFencing.PinnedRefreshCannotLand | docker/sandbox_provisioner/app.py:1853-1867 | with one deleter per id, between the reaper's re-check and its erase nobody holds a pin on the sandbox, so no get, touch or proxy refreshes it then |
| SandboxFencing.IdleUntilUnpinnedUpdate | docker/sandbox_provisioner/app.py:1853-1867 | under the same condition, what the reaper is about to erase is as idle as its re-check found it, exactly when since then no create touched it and no delete forgot it, unfenced or fenced by the observed generation |
| SandboxFencing.RefreshedIsErased | docker/sandbox_provisioner/app.py:1853-1867 | such an update ends the idleness but does not stop the reaper: in any such state it can erase, and a record of the observed generation goes |
| SandboxFencing.CreateTouchLandsInWindow | docker/sandbox_provisioner/app.py:1984-1988 | a run without delete requests in which a finished create refreshed a sandbox and the reaper then erases it |
| SandboxAnswers.CreateAnswers | docker/sandbox_provisioner/app.py:1959-1989 | over every run: a create that succeeds stored a fresh record of its id and workdir, or found one, and refreshed that generation; one that fails met a backend failure or another workdir and changed no record; one that is refused met a closed gate and changed nothing |
| SandboxAnswers.VisitAnswers | docker/sandbox_provisioner/app.py:1996-2032 | a get, touch or proxy request that succeeds found a record and refreshed its generation's activity; one that fails found none, or the call failed, and refreshed nothing |
| SandboxAnswers.DeleteAnswers | docker/sandbox_provisioner/app.py:2155-2169 | a delete request that succeeds left its id without a record in one of its own steps, the generation it removed is gone for ever, and its activity is forgotten; one that fails met another generation than its fence, or a backend failure, and changed no record |
| SandboxAnswers.WorkerAnswers | docker/sandbox_provisioner/app.py:2130-2147 | the same for a quiescence worker, which also succeeds if its record was replaced; one cancelled before it began changed nothing |
| SandboxAnswers.QuiesceAnswers | docker/sandbox_provisioner/app.py:2053-2087 | a quiescence request that succeeds listed nothing; one that fails met a failing listing, its deadline or a failed worker |
| SandboxAnswers.ReaperHandlesAll | docker/sandbox_provisioner/app.py:1853-1873 | between two listings of the reaper every sandbox that was unused for the timeout is found in use again at its re-check, or found idle and then removed and forgotten, replaced, or failed to be removed |
| SandboxProgress.SomeoneCanWork | docker/sandbox_provisioner/app.py:390-443 | deadlock freedom: while any thread is unfinished some unfinished thread can step without waiting for a deadline, also with several deleters of one id |
| SandboxProgress.StepDescends | docker/sandbox_provisioner/app.py:1959-2165 | every step of an unfinished thread leaves lexicographically less work |
| SandboxProgress.NoEndlessWork | docker/sandbox_provisioner/app.py:2053-2087 | no livelock: without new arrivals and new sweeps no run has endlessly many steps, however time passes between them |
| SubnetPool.ContainsIffSameCell | docker/sandbox_provisioner/app.py:828-832 | a network contains an address exactly when they agree on the prefix bits |
| SubnetPool.NestedOrDisjoint | docker/sandbox_provisioner/app.py:831-832 | two CIDR blocks that overlap are nested |
| SubnetPool.EveryNetworkIsBlock | docker/sandbox_provisioner/app.py:828 | the candidates are all the networks of the prefix inside the pool |
| SubnetPool.BlocksOrdered | docker/sandbox_provisioner/app.py:828 | candidates come in address order and share no address |
| SubnetPool.ValidNetMeans | docker/sandbox_provisioner/app.py:230-257 | a network address is a multiple of its block size inside the address space |
| SubnetPool.MaskedCovers | docker/sandbox_provisioner/app.py:806-814 | an entry is read exactly if its address and prefix are in range, and as the block of just those addresses that agree with its own on the prefix bits |
| SubnetPool.FreeIsUnlisted | docker/sandbox_provisioner/app.py:831-832 | a candidate overlaps no existing network exactly if no listed entry covers one of its addresses |
| SubnetPool.NetworkIpv4Subnets | docker/sandbox_provisioner/app.py:800-815 | exactly the entries that parse as IPv4 networks, host bits cleared: together they contain exactly the addresses the entries cover |
| SubnetPool.NextNetworkSubnet | docker/sandbox_provisioner/app.py:817-837 | the lowest free network of the prefix in the pool, no address of which a listed entry covers; or an error exactly when each one overlaps something |
| SubnetPool.FewSmallNetworksLeaveRoom | docker/sandbox_provisioner/app.py:828-837 | with fewer networks than blocks and none larger than a block, a subnet is found |
| SubnetPool.CreateNetwork | docker/sandbox_provisioner/app.py:844-873 | for any answers and any changing lists the retry loop ends; its attempts are pairwise disjoint blocks, none with an address that an entry of its list covers, all but the last refused as conflicts; capacity is missed only when every block is taken |
| SubnetPool.DockerNetworkPool | docker/sandbox_provisioner/app.py:230-257 | a pool is configured exactly for an aligned IPv4 network and a prefix between its own and 29, and it is that network with that prefix |
| SmootherMessage.TakeFromBuffer | web/src/composables/useStreamSmoother.js:43-53 | whole pieces only: those that fit the count, at least one for a positive count |
| SmootherMessage.TakenBounds | web/src/composables/useStreamSmoother.js:43-53 | more than the count only as a single piece, less than it by less than a piece while any is left |
| SmootherMessage.TakesSome | web/src/composables/useStreamSmoother.js:43-53 | a positive count takes at least one piece, so a frame with a budget moves on |
| SmootherMessage.RateFollowsDemand | web/src/composables/useStreamSmoother.js:91-98 | the first frame takes the least rate that is at least 32, keeps up with what arrives and clears the buffer in 600 ms; later a rate that does not suffice rises toward that one, and one that is more than enough falls toward it, neither past it |
| SmootherMessage.FrameTimeIsCapped | web/src/composables/useStreamSmoother.js:86-90 | a frame accounts for the time since the last, and for at most 64 ms |
| SmootherMessage.StartIsDelayed | web/src/composables/useStreamSmoother.js:75-116 | nothing of a new message is taken from its buffer in the first 180 ms |
| SmootherMessage.PushMeasures | web/src/composables/useStreamSmoother.js:172-182 | a push adds to the buffers and the count, and at 200 ms or more since the last sample moves the arrival rate strictly toward the rate observed and starts a new count |
| SmootherMessage.RateAtLeastMinimum | web/src/composables/useStreamSmoother.js:91-97 | a frame's rate is at least 32 characters a second for every weight strictly between 0 and 1 |
| SmootherMessage.FrameKeepsPace | web/src/composables/useStreamSmoother.js:75-116 | a frame keeps the credit at or above one minus the longest piece, and below one piece while text is left |
| SmootherRuns.RunConserves | web/src/composables/useStreamSmoother.js:60-184 | over any pushes, frames and flushes of a message, delivered followed by buffered is what was there followed by all that was pushed, content and reasoning each in order |
| SmootherRuns.FlushShowsEverything | web/src/composables/useStreamSmoother.js:60-72 | after a flush a message shows exactly what was pushed |
| SmootherRuns.BeatsKeepPace | web/src/composables/useStreamSmoother.js:86-116 | credit plus characters delivered by frames is the credit there was plus rate times elapsed, over a controller's whole life |
| SmootherRuns.OutputFollowsCredit | web/src/composables/useStreamSmoother.js:86-116 | output exceeds earned credit by at most the longest piece minus one, lags it by less than a piece while text is left, and credit grows by at least 32 a second |
| StreamSmoother.NextKeepsFrames | web/src/composables/useStreamSmoother.js:118-122 | after every push, frame, flush and reset each controller has text and exactly one scheduled frame, and no other frame exists |
| StreamSmoother.RunKeepsText | web/src/composables/useStreamSmoother.js:126-203 | with any messages and threads interleaved, a message spared by resets and dead threads loses, doubles and reorders nothing |
| StreamSmoother.FlushedThreadIsComplete | web/src/composables/useStreamSmoother.js:187-192 | flushing a live thread after any such run leaves no buffer and shows, message by message, all that was pushed |
| StreamSmoother.RunKeepsPace | web/src/composables/useStreamSmoother.js:75-184 | along any run of the whole smoother, resets and dead threads included, every controller keeps the minimum rate and the credit bounds |
| StreamSmoother.RunKeepsShown | web/src/composables/useStreamSmoother.js:149-163 | after every run each message with a buffer has been shown, if only as an empty chunk |
| StreamSmoother.ImmediateIsSeen | web/src/composables/useStreamSmoother.js:135-139 | a chunk with tool calls is shown in full behind all that was buffered of its message, no other message changes |
| StreamSmoother.TextIsSeen | web/src/composables/useStreamSmoother.js:140-184 | other text goes behind the buffer of its message, which is there at once |
| StreamSmoother.ResetForgets | web/src/composables/useStreamSmoother.js:195-203 | a reset drops exactly the buffers of its thread, or all, and shows none of them |
| StreamSmoother.DeadThreadShowsNothing | web/src/composables/useStreamSmoother.js:75-84 | a chunk or frame for a thread that is gone shows nothing, and the frame drops the buffer |
| SmootherObject.LiveSmoother.PushChunk | web/src/composables/useStreamSmoother.js:126-184 | the whole new state of a push, every branch |
| SmootherObject.LiveSmoother.Fire | web/src/composables/useStreamSmoother.js:75-123 | the whole new state of a frame, also for a dead thread |
| SmootherObject.LiveSmoother.FlushThread | web/src/composables/useStreamSmoother.js:187-192 | the thread's messages are delivered in full and lose controllers and frames, no others change |
| SmootherObject.LiveSmoother.ResetThread | web/src/composables/useStreamSmoother.js:195-203 | the named thread's, or all, buffers are dropped with their frames |
| SseReader.ProcessRunSseResponse | web/src/composables/useAgentRunStream.js:67-126 | for every cutting of the text into chunks the dispatched events are those of the blocks of the whole text |
| SseReader.BlocksAreTheCut | web/src/composables/useAgentRunStream.js:95-103 | the blocks are the one list without blank lines that, with a blank line between two, gives the lines back |
| SseReader.SplitIsTheCut | web/src/composables/useAgentRunStream.js:92-93 | the lines are the one list of pieces without line feeds that, joined by line feeds, gives the text back |
| SseReader.UnfinishedLineIgnored | web/src/composables/useAgentRunStream.js:93 | a line the stream does not finish adds no event |
| SseReader.EndActsAsBlankLine | web/src/composables/useAgentRunStream.js:118 | the end of the stream after a complete line dispatches the open block as a blank line would |
| SseRoundTrip.PrintedIsRead | web/src/composables/useAgentRunStream.js:67-126 | messages written as a stream, with either line end, comments and padding, are read back as their events: kind, id and the payload, line feeds included |
| SseRoundTrip.LastFieldWins | web/src/composables/useAgentRunStream.js:108-114 | of several lines for one field the last one counts |
| SseRoundTrip.BlankKindIsDefault | web/src/composables/useAgentRunStream.js:108-109 | an empty kind is the default one |
| SseRoundTrip.SilentBlock | web/src/composables/useAgentRunStream.js:76-77 | a block without a data line gives no event |
| RunSeq.CompareIsOrder | web/src/utils/runStreamResume.js:25-34 | comparing cursors is a total preorder on their numbers |
| RunSeq.ComparesNumbers | web/src/utils/runStreamResume.js:9-34 | ids compare as their decimal numbers do, the first ones first, whatever leading zeros and surrounding whitespace they have |
| RunSeq.EveryRunSeqIsText | web/src/utils/runStreamResume.js:1-7 | every well-formed id is the text of two numbers with leading zeros |
| RunSeq.NormalizeIsStable | web/src/utils/runStreamResume.js:3-7 | normalising gives a well-formed cursor and changes nothing the second time |
| RunSeq.MalformedNeverPasses | web/src/composables/useAgentRunStream.js:336-338 | an event with a malformed id never passes the cursor check |
| RunStream.RunThread.StartRunStream | web/src/composables/useAgentRunStream.js:303-318 | the thread's whole new state on starting a run |
| RunStream.RunThread.OnRunEvent | web/src/composables/useAgentRunStream.js:333-341 | exactly when an event passes, and how the cursor and the snapshot move |
| RunStream.RunThread.FinalizeRunStream | web/src/composables/useAgentRunStream.js:216-251 | nothing happens unless the expected run is active; else the settled or interrupted state, with the pending interrupts of all touched threads looked at and cleared |
| RunStream.RunThread.PreserveInterruptedRun | web/src/composables/useAgentRunStream.js:268-280 | the run becomes the active one, with the given or current cursor |
| RunStream.RunThread.EndStream | web/src/composables/useAgentRunStream.js:431-440 | only the own controller is dropped, and an idle thread stops waiting |
| RunDelivery.DeliveredOnceInOrder | web/src/composables/useAgentRunStream.js:292-341 | from any start, over any reconnects, replays, parallel streams, stray events, finalisations, and preserves and restarts at the current place, what passed is the log from the start on, each entry once and in order, and all of it once a stream was read to the end |
| RunDelivery.PreserveKeepsExactly | web/src/composables/useAgentRunStream.js:268-280 | preserving the active run keeps delivery on course exactly when the cursor it sets has just the delivered part behind it |
| RunDelivery.RestartKeepsExactly | web/src/composables/useAgentRunStream.js:303-318 | starting the active run again keeps delivery on course exactly under the same condition |
| RunDelivery.WrongCursorBreaksDelivery | web/src/composables/useAgentRunStream.js:295-338 | with the cursor at any other place, after one reconnect a server that skips nothing can send an entry that passes and leaves a gap or was delivered before, or, with the cursor behind the whole log, end the stream with entries missing, none of which passes any more |
| RunDelivery.StalePreserveReplays | web/src/composables/useAgentRunStream.js:475-487 | preserving with a snapshot cursor read before waiting lets a delivered entry pass again after the next reconnect |
| RunDelivery.StaleRestartReplays | web/src/composables/useAgentRunStream.js:491-500 | starting with a cursor computed before waiting lets a delivered entry pass again |
| RunDelivery.SkippingLeavesGap | web/src/composables/useAgentRunStream.js:326-338 | if the server ever skips an entry behind the cursor, the next delivery leaves a gap |
| RunDelivery.LateStepsAreInert | web/src/composables/useAgentRunStream.js:216-227 | once a newer run is active with its own connection, no events, finalisation, reconnect or end of an older stream change the thread |
| RunDelivery.PreserveDisplacesNewerRun | web/src/composables/useAgentRunStream.js:401-410 | after a status answer for an older run, the newer run's events, finalisation and reconnects still count exactly when no interrupt is pending for the older one; under that check, exactly when both are the same run |
| RunDelivery.PreserveSilencesNewerRun | web/src/composables/useAgentRunStream.js:268-280 | a newer run started while the older one's status was awaited is cut off: no sequence of its own events, finalisations and reconnects changes the thread any more |
| RunLife.StaysCoherent | web/src/composables/useAgentRunStream.js:216-341 | after any operations a thread streams only an active run, is steerable only while it streams, and what is stored of the active run is that run with the cursor reached |
| RunLife.SnapshotResumes | web/src/composables/useAgentRunStream.js:303-318 | starting the stored run from the stored cursor continues at the place reached: the same events pass |
| RunLife.FinalizedIsSettled | web/src/composables/useAgentRunStream.js:216-251 | finalising the active run settles the thread, unless it is interrupted with an interrupt of its own pending; its interrupts go, those of other runs and threads stay |
| RunLife.SettledThreadIsFresh | web/src/composables/useAgentRunStream.js:222-244 | settling an idle thread also puts its cursor back and drops every interrupt of the touched threads |
| RunLife.FinishedRunIsOver | web/src/composables/useAgentRunStream.js:333-341 | after that, no events, finalisations or ends of the finished run's stream change the thread, but for its own connection being dropped |
| RunLife.StartSteers | web/src/composables/useAgentRunStream.js:308-316 | a reconnect keeps a run steerable and another run starts without, unless said otherwise; the thread reconnects only after the end of the connection |
| RunLife.PreservedWaits | web/src/composables/useAgentRunStream.js:268-280 | a preserved run waits: nothing streams or loads, its interrupts stay |
| RunLife.EndedLetsGo | web/src/composables/useAgentRunStream.js:431-440 | the end of a stream drops its own connection only, and without an active run nothing is waited for |
| RunLife.OnlyDataCounts | web/src/composables/useAgentRunStream.js:333-341 | only events with data count, and without an id all of those of the active run |
| MentionText.BodyIsUnique | web/src/utils/mention_utils.js:7-10 | a quoted body is read in exactly one way, up to its first unescaped quote |
| MentionGrammar.ValueIsGrammar | web/src/utils/mention_utils.js:7-10 | for every text: a value reads as quoted if it can, and else as the longest run without whitespace, an unclosed quote included |
| MentionGrammar.MatchIsGrammar | web/src/utils/mention_utils.js:6-10 | a match is an at-sign, one of the five kinds, a colon and such a value, exactly |
| MentionGrammar.UnquoteByUnits | web/src/utils/mention_utils.js:12 | unquoting goes unit by unit through a body: a backslash goes in front of a quote or backslash and stays elsewhere |
| MentionGrammar.QuotedWhenNeeded | web/src/utils/mention_token.js:12-15 | the printer quotes a value exactly if it has whitespace, a quote or a backslash in it |
| MentionText.ParseMentionText | web/src/utils/mention_utils.js:14-59 | the parser's loop computes the segments of the text, for every text |
| MentionText.SegmentsTile | web/src/utils/mention_utils.js:14-59 | segments tile every text without gap or overlap, mentions are matches and plain text contains none |
| MentionRoundTrip.TokenReadsBack | web/src/utils/mention_token.js:9-16 | a printed token reads back in front of any rest exactly when its kind is known and its value is quoted, or non-empty and followed by whitespace or the end |
| MentionRoundTrip.RoundTrip | web/src/utils/mention_utils.js:14-59 | parsing a printed sequence of texts and mentions gives it back, position by position |
| MentionDeletion.ExpandIsReach | web/src/utils/mention_utils.js:159-188 | selections and both caret directions follow one rule: the requested range with all mentions it touches, nothing when it touches none |
| MentionDeletion.DeletionCutsNoMention | web/src/utils/mention_utils.js:141-189 | without a known range at the caret the deletion covers what was asked for, cuts no mention and removes no other |
| MentionDeletion.DeletionIsNeeded | web/src/utils/mention_utils.js:156-189 | the deletion takes no more than what was asked for, the mentions that touches, and forward from a caret one space behind; exactly what was asked for if it touches none |
| MentionDeletion.KnownIsDeleted | web/src/utils/mention_utils.js:151-156 | a backward deletion at a caret deletes the first known range that ends there |
| MentionDeletion.KnownElsewhere | web/src/utils/mention_utils.js:151-156 | in all other cases known ranges do not matter |
| MentionDeletion.ClampedIsNearest | web/src/utils/mention_utils.js:134-150 | a range is moved into the text no further than it must |
| MentionDeletion.UntouchedSurvives | web/src/utils/mention_utils.js:134-139 | what a replacement does not touch is still in the text, in place or moved by the difference in length |
| TreeRefresh.ExpansionOrder | web/src/utils/agentPanelFilesystemPolling.js:52-54 | the expanded keys, each once, by depth, and in the order given among those of one depth |
| TreeRefresh.DepthCountsSlashes | web/src/utils/agentPanelFilesystemPolling.js:52-54 | the depth is one more than the slashes in the key |
| TreeRefresh.LoadFirst | web/src/utils/agentPanelFilesystemPolling.js:55-60 | loading a key that no other listing holds and then refreshing for the others refreshes for all, so no replacement undoes another |
| TreeRefresh.RefreshExpandedTree | web/src/utils/agentPanelFilesystemPolling.js:44-65 | the loop visits the keys in that order, and gives the recursive refresh whenever no directory lists one read before it |
| TreeRefresh.OrderDecides | web/src/utils/agentPanelFilesystemPolling.js:52-65 | with listings of files and of non-empty directories not yet loaded, the loop gives the recursive refresh of every tree exactly under that condition |
| TreeRefresh.DeeperIsLater | web/src/utils/agentPanelFilesystemPolling.js:52-54 | listings that hold other expanded, readable keys only deeper than their directory meet the condition, since the order is by depth |
| TreeRefresh.PathListingsAreDeeper | web/src/utils/agentPanelFilesystemPolling.js:52-54 | keys that extend their directory's key by a part with a slash are deeper |
| TreeRefresh.ShallowKeyIsMissed | web/src/utils/agentPanelFilesystemPolling.js:52-57 | the depth condition is tight: for any two keys with the inner one no deeper, some listings make the loop pass it by before it appears and leave it unloaded |
| TaskStore.TaskerStore.LoadTasks | web/src/stores/tasker.js:94-104 | the state while a list request is out and the ticket it carries; without the right to it, a reset |
| TaskStore.TaskerStore.TasksLoaded | web/src/stores/tasker.js:106-125 | an answer counts exactly for the latest request and an unchanged revision |
| TaskStore.TaskerStore.TaskRefreshed | web/src/stores/tasker.js:135-145 | a detail answer counts exactly while its request is the one waited for and no list was asked for since |
| TaskStore.TaskerStore.TaskCancelled | web/src/stores/tasker.js:148-161 | a cancellation of this session asks for the task again, one of another session does nothing |
| TaskStore.TaskerStore.TaskDeleted | web/src/stores/tasker.js:163-176 | a deletion of this session takes the task out and invalidates lists and details on their way |
| TaskStore.TaskerStore.RegisterQueuedTask | web/src/stores/tasker.js:184-208 | a registration counts exactly in its own session with the right to it |
| TaskStore.TaskerStore.Reset | web/src/stores/tasker.js:250-261 | the store is emptied and all counters that tickets carry move on |
| TaskRuns.SessionsDoNotInterfere | web/src/stores/tasker.js:250-265 | after a change of user any run ends where it ends without the answers to earlier requests, whatever they are and however they mix |
| TaskRuns.SessionsFromStart | web/src/stores/tasker.js:250-265 | that holds after every run from the empty store |
| TaskRuns.DeletingRemoves | web/src/stores/tasker.js:174-176 | after a deletion the task is gone exactly if it was listed at most once |
| TaskRuns.StepKeepsDistinct | web/src/stores/tasker.js:82-92 | while the server's lists name a task once, so does the store |
| TaskRuns.DeletedStaysGone | web/src/stores/tasker.js:94-182 | once a deletion has counted, no answer to an earlier request puts the task back, in any run |
| TaskRuns.DeletedStaysGoneFromStart | web/src/stores/tasker.js:94-182 | that holds after every run from the empty store against a server whose lists name no task twice |
| TaskProgress.AliveFromStart | web/src/stores/tasker.js:94-231 | in every run: while loading, the latest list request is out; each detail waited for was asked for; only an administrator polls or loads, never both at once, and with the drawer open one of the two is always going on |
| TaskProgress.ListIsShown | web/src/stores/tasker.js:94-125 | a list asked for is what the store shows once answered, unless another list request, a change of user or a changed task came between; polling then goes on exactly with the drawer open or a task active |
| TaskProgress.DetailIsShown | web/src/stores/tasker.js:127-146 | a task asked for is shown as it comes back, in place and with all others unchanged, whatever lists, registrations and drawer moves came between |
| TaskProgress.UpsertShows | web/src/stores/tasker.js:82-92 | a task takes the place of its id or comes to the front, the others stay |
| TaskProgress.DeletingKeepsOthers | web/src/stores/tasker.js:174-176 | a deletion leaves the other tasks as they were |
| TaskProgress.OvertakenDetailIsDropped | web/src/stores/tasker.js:135-145 | an answer overtaken by a later request shows nothing |
| TaskProgress.RegisteredIsShown | web/src/stores/tasker.js:184-208 | a queued task registered in its session is shown, and polled for |
| TaskProgress.ForeignRegistrationIsDropped | web/src/stores/tasker.js:201-208 | one of another session, or without the right, changes nothing |
| TaskProgress.UserChangeClears | web/src/stores/tasker.js:250-264 | after a change of user nothing of the last session is seen or waited for |
| ChunkMerge.FindOverlap | web/src/utils/chunkUtils.js:183-201 | the longest suffix of one text that is a prefix of the other, if longer than ten characters |
| ChunkMerge.SortIsTheStableSort | web/src/utils/chunkUtils.js:214 | the sorted chunks are the given ones, by index, those of one index as they stood |
| ChunkMerge.MergeChunks | web/src/utils/chunkUtils.js:208-252 | the loop merges the chunks in that stable order of their index |
| ChunkMerge.MergeKeepsEveryChunk | web/src/utils/chunkUtils.js:213-248 | every chunk's content is in the merged text in one piece, and the recorded ranges tile it |
| ChunkMerge.NextMeans | web/src/utils/chunkUtils.js:230-248 | a further chunk adds what the longest overlap above ten characters leaves of it, behind a line feed if there is none, and gets a range exactly if it adds something |
| ChunkMerge.ApartChunksAreLines | web/src/utils/chunkUtils.js:233-241 | chunks with nothing in common stand on lines of their own |
| ChunkMerge.WindowRebuilds | web/src/utils/chunkUtils.js:232-241 | one overlapping window more rebuilds the text exactly when the longest overlap is the true one |
| ChunkMerge.WindowsRebuild | web/src/utils/chunkUtils.js:208-252 | windows of a text whose found overlaps are the true ones give the text back |
| RenderCache.MarkdownRenderCache.Get | web/src/utils/markdownRenderCache.js:15-21 | a hit returns the entry and moves it behind all others |
| RenderCache.MarkdownRenderCache.Set | web/src/utils/markdownRenderCache.js:22-31 | the new entries, and the running total still equals the sum of sizes within both budgets |
| RenderCache.EvictsLeast | web/src/utils/markdownRenderCache.js:26-28 | what is kept is the longest recent end of the list that leaves room |
| RenderCache.SetKeepsMost | web/src/utils/markdownRenderCache.js:22-31 | a set keeps the longest recent end of the other entries: one more would break a limit; a value too large takes out only its own old one |
| RenderCache.GetKeepsAll | web/src/utils/markdownRenderCache.js:15-21 | a get keeps all entries, and moves the one asked for behind the others |
| RenderCache.CacheIsRecencyList | web/src/utils/markdownRenderCache.js:2-33 | after any run both budgets hold, each entry has the last value set for it, and entries stand by last use |
| RenderCache.LookupGivesLastSet | web/src/utils/markdownRenderCache.js:15-31 | a lookup gives nothing or the last value set, and right after setting that value exactly if it fits |
| LoginLimiter.LoginRateLimit.Attempt | backend/server/main.py:104-118 | admitted exactly with fewer than ten attempts in the window; a rejection records nothing; history and admissions stay those of the run of the client's attempts since its last success; other clients are untouched |
| LoginLimiter.LoginRateLimit.Succeeded | backend/server/main.py:122-124 | the client starts again from no attempts, others are untouched |
| LoginLimiter.AtMostTenPerWindow | backend/server/main.py:100-118 | between two successes no sixty-second window admits more than ten attempts |
| LoginLimiter.TurnedAwayOnlyWhenFull | backend/server/main.py:107-118 | an attempt passes, and only then is counted, exactly if fewer than ten were admitted or the tenth last one is out of the window |

## Left out

- Strings are sequences of characters; JavaScript's lengths in UTF-16 units, and characters outside the basic plane as pairs, are not modelled.
- The Docker and Kubernetes backends other than subnet selection: container mounts, health polling, symlink checks, generated scripts. The in-memory backend stands for the store, with fresh generations assumed; `CreateNetwork` starts from a configured pool, so creation without one is not part of it.
- Seeding of the activity table from records found at start-up: the in-memory store starts empty.
- Deadlines are a choice of the environment, and the size of the quiescence thread pool is unbounded; HTTP status codes are reduced to success and failure.
- Proxy streaming and its cancellation: a proxied request acquires, discovers, touches or fails, and releases.
- SandboxSafety.DeleteExcludesPins: assumes one deleter per id in flight, because the code's set of marks is emptied by the first of two; SandboxSafety.SecondDeleterBreaksExclusion shows that this cannot be dropped.
- Smoother arithmetic is over reals with arbitrary weights for the exponentials; other fields of chunks are not modelled, and the two nested maps of controllers are one map by thread and message.
- JSON parsing and UTF-8 decoding are arbitrary functions before and after the reader; the release of the reader's lock is left out.
- Run streams: suppression of repeated retryable errors, the streaming state of other threads, message refetching, callbacks, and the choices of the resume logic beyond the cursors it may pass.
- RunDelivery.DeliveredOnceInOrder: covers one run from one start on, and admits preserving or restarting it only while it is active and with a cursor at the current place, because the code gives no such assurance: its resume logic can pass a cursor read before it waited, and then RunDelivery.StalePreserveReplays and RunDelivery.StaleRestartReplays show delivered entries passing again. A start from the origin replays into a conversation reset before.
- Mention kinds are the five listed; inherited property names of the kind table, display labels and the active query are left out.
- MentionDeletion.DeletionCutsNoMention: assumes that no known range ends at the caret, since the code returns such a range unchecked.
- The filesystem refresh gate, preview cache entries and polling timer of the panel.
- Task normalisation and sorting for display; message pop-ups; the polling timer is on or off.
- The login limiter's retry hint and the extraction of the client address.
- Routers, API wrappers, stores of view state, rendering, and the engineering-contract scanners.
