# InLumen: a verified model of its protocols and compilers

This project models the parts of InLumen whose correctness does not show in any one function, and proves what
they promise. `dafny verify dfyconfig.toml` checks all of it. `Wrappers` holds what several modules share.

| part | files | main results |
|---|---|---|
| Chat turns (`backend/conversations.py`) | `Clock`, `ChatTables`, `ChatInvariant`, `ChatRuns`, `ChatTurns`, `ChatDecisions`, `ChatStore` | what every transaction keeps; the life of a turn over whole runs; exactly-once starts; heartbeats keep alive; when each request goes ahead |
| The chat feed and its browser tab | `ChatFeed`, `ChatClient`, `ChatHistory` | a polling tab converges after any interleaving; paging back collects every message once |
| Pipeline compiler (`backend/deployment_artifacts.py`) | `StepOrder`, `YamlPrinter`, `RequirementGroups` | the order exists iff there is no cycle, and is determined by the graph; what is printed is read back; image groups are installable |
| Parallel Map runtime (`backend/map_runtime.py`) | `ItemRunner`, `MapScope` | the concurrent runner refines a sequential map; split, steps and collect compose to that map |
| Task workspaces (`backend/filesystem_runtime.py`) | `InputStaging`, `OutputPorts` | the merge is the union of the ports; publishing is all or nothing; producer to consumer is the identity |
| Graph revisions (`backend/graph_revision.py`, the gateway's proxy) | `GraphRevision` | every change counts; no lost update; one request's writes are one block of the history |
| Code generation gate (`backend/inlumen_api.py`) | `CodegenGate` | generated code is attached to all targets or to none |
| WAV check (`backend/attachment_validation.py`) | `WavProbe` | which files are accepted; a probe never misjudges |

## How it is modelled

* Code that changes tables, directories, counters or request state is a class or a method with its loops
  (`ConversationStore`, `InputArea`, `OutputFolder`, `Adapter`, `GatewayRequest`, `StepTable`, and the algorithms
  that are loops); its contract ties the new state to a specification function, and the theorems are about that
  function and about whole runs of it. Code that only computes is a function.
* Chat: one workspace. A table is a map from its primary key. A request is one transaction; one that raises is
  rolled back, and what it expired with it. `uuid4()` is a supply that never repeats. Clock readings are
  parameters, `now` and the cutoff 120 seconds earlier. `finish` is called with terminal statuses, as its callers
  do. One read is answered from one snapshot. `heartbeat` is atomic. SQL compares timestamps as texts, by code
  points (a binary collation).
* The tab (`useConversationSync`) is the state of its reference object: conversation, cursor, messages by
  identifier; and the lower edge of its window, the lowest message of its last first or older page. An answer
  that the tab drops, because it is paused or was changed meanwhile, is a read at the server and nothing more.
* Map runtime: an item folder holds one artifact, the item's own code is a function that may fail, and every wait
  returns an arbitrary non-empty set of the running items. The limit is at least one, which is what
  `_max_concurrency` returns (`backend/map_runtime.py:123-130`).
* Files: a directory is a map from the paths of its files to their contents, a connected port the list of its files
  in the order they are visited. Failing renames and removals are parameters.
* Graph: one graph call is one locked transaction. A route that answers without opening a session moves no
  revision and carries no ETag, like a call to another service.
* Specifier semantics, the per-item code and the sort key of steps are parameters; nothing is assumed about them.
* No proof rests on Dafny's automatic induction. In Dafny 4.11 its hypothesis can assume more about sequences than was
  proved, so lemmas about sequences carry `{:induction false}` whether or not they recurse.

## What turned out false of the code

* The browser asks for what is below its *lowest held* message. For an up-to-date tab that is right exactly when its
  messages fill the range up to its window (`ChatHistory.BrowserBoundExactly`), which is when they have no hole
  (`ChatHistory.CoveredMeansFilled`). When a change to a message under the window has reached the tab they do not
  (`ChatHistory.LowestHeldSkips`, reached by `ChatHistory.SkipIsReachable`), and then a message is skipped: however the
  chat goes on, as long as the conversation is not reset or cleared, no poll and no older page brings it before it is
  changed (`ChatHistory.NeverDelivered`), and a change does (`ChatHistory.DeliveredExactlyWhenChanged`). The edge of
  the window is always covered.
* `_topological_order` compares the number of ordered steps with the number of listed ids, so it also reports a
  cycle when an id is listed twice (`StepOrder.TopologicalOrder`).
* Under `stop` the item runner's exit status 0 means that every item succeeded exactly when the item keys are
  distinct (`ItemRunner.ExitZeroIsHonestExactly`).
* When a producer has a directory where a later one has a file, staging reports success with the file inside that
  directory, unless the directory has one of its own name (`InputStaging.DirectoryThenFile`); in the other order it
  always fails (`InputStaging.FileThenDirectory`). The result is the union exactly when no file is in another's way
  (`InputStaging.MergeIsExplained`).
* A failed publish leaves the old input directory in place, except when moving it back fails as well, or when
  only the removal of the old directory failed (`InputStaging.FailedPublishKeepsOld`).
* The YAML printer drops an empty list that is a list item, and an empty container that is the first value of a
  mapping in a list; exactly then the printed text says something else (`YamlPrinter.RoundTripExactly`).
* What was written under the port's own name, or into a folder named like the keep file, does not reach the consumer
  where it was written, and a required consumer fails when the producer leaves neither a result nor a port folder
  (`OutputPorts.ProducerToConsumerExactly`).
* After a read, the ETag of a gateway response can be newer than what the request acknowledged
  (`GraphRevision.ReadMovesOnlyTheResponse`).
* Attaching generated code checks the browser's condition against the graph of that moment, and ownership against the
  graph that was read. The one protects the other exactly when the browser named a revision the graph had by the time
  it was read (`CodegenGate.ProtectedExactlyWhenSeen`).
* The docstring at `backend/deployment_artifacts.py:4881-4882` speaks of the fewest groups; the code is first-fit,
  and that is what is modelled.

## Model

| member | source | states |
|---|---|---|
| Clock.TextOrderIsTimeOrder | backend/conversations.py:30-31 | The text order of two `isoformat()` strings is the order of the instants, although a zero fraction is not printed. |
| Clock.PadOrder | backend/conversations.py:136-139 | Zero-padded decimal fields compare as text exactly as the numbers do. |
| ChatInvariant.NextKeepsInv | backend/conversations.py:148-301 | Every request, at any time and with any arguments, keeps the invariant: rows and owners agree, contiguous sequences ending at the counter, distinct revisions above the reset revision, question/answer pairs, receipts with stored outcomes, at most one pending turn, and a pending turn exactly where a question is unanswered at the end. |
| ChatInvariant.AnswerInsertable | backend/conversations.py:120-134 | The UNIQUE constraints never refuse the answer of a pending turn. |
| ChatInvariant.ScalarOne | backend/conversations.py:224-225 | `scalar_one` in `_finish` finds exactly one row. |
| ChatInvariant.AlwaysFinishable | backend/conversations.py:214-229 | Every pending turn has its conversation and its question, so finishing never raises. |
| ChatInvariant.QuestionAllowed | backend/conversations.py:191-211 | When `start` gets as far as inserting, the conversation ends in an answer and the turn is new to it. |
| ChatInvariant.OneStale | backend/conversations.py:136-146 | The expiry loop finds at most one turn, and expiring is finishing that one. |
| ChatInvariant.ExpireKeepsInv | backend/conversations.py:136-146 | Expiry, of a user or of the workspace, keeps the invariant. |
| ChatInvariant.StartKeepsInv | backend/conversations.py:180-212 | Starting a turn keeps the invariant. |
| ChatInvariant.FinishKeepsInv | backend/conversations.py:214-229 | Finishing a turn keeps the invariant. |
| ChatInvariant.ResetKeepsInv | backend/conversations.py:253-271 | Resetting a conversation keeps the invariant. |
| ChatInvariant.ProposalKeepsInv | backend/conversations.py:273-285 | Updating a proposal keeps the invariant. |
| ChatRuns.Reachable | backend/conversations.py:43-301 | Every state a run of requests reaches from empty tables satisfies the invariant. |
| ChatRuns.StepKeeps | backend/conversations.py:180-285 | One request drops a receipt only as a clear, rewrites a recorded outcome only as its user's reset, never drops a cancel request, and starts a turn only when it has no receipt. |
| ChatRuns.ReceiptsSurvive | backend/conversations.py:180-271 | The same over any run without a clear: receipts, hashes and cancels survive, outcomes too unless their user resets. |
| ChatRuns.StartsOnce | backend/conversations.py:180-212 | A turn is told to run twice only if the workspace was cleared in between. |
| ChatRuns.RepeatIsAnswered | backend/conversations.py:183-190 | After any run without clear or reset, repeating a finished turn replays its stored outcome under the same hash and is refused under another; no late `finish` or expiry has changed it. |
| ChatRuns.BusyWorkspaceRefuses | backend/conversations.py:186-196 | While a turn is alive, every start in the workspace is refused or replayed, and its own repeat is told to wait. |
| ChatRuns.ResetLeavesReceipts | backend/conversations.py:264-270 | A reset leaves every receipt of the conversation, with status cancelled, 409 and no old content. |
| ChatRuns.CancelSticks | backend/conversations.py:235-251 | Once a cancel is recorded, before or after the start, every later heartbeat of the turn says stop, unless the workspace is cleared. |
| ChatRuns.ExpiryIsExact | backend/conversations.py:136-146 | After a workspace expiry every pending turn's heartbeat is at most 120 seconds old; fresh and finished turns are untouched and exactly the stale ones have failed. |
| ChatRuns.OnePendingTurn | backend/conversations.py:194-196 | In every reachable state at most one turn of the workspace is pending, across users. |
| ChatTurns.TurnLife | backend/conversations.py:136-251 | After a turn was told to run, in every run in which the workspace is not cleared and its user does not reset: the tables hold it under the hash and with the text it was given; and it is pending, unfinished, with its start or last heartbeat as its sign of life, or closed with the response, status and texts of its first `finish`, or failed as interrupted by a request that came more than 120 seconds after its last sign of life. |
| ChatTurns.HeartbeatsKeepAlive | backend/conversations.py:235-243 | As long as no request comes more than 120 seconds after the turn's start or last heartbeat, the turn stays pending until its own `finish`, whatever else is asked: no clear and no reset by its user goes through. |
| ChatTurns.AliveTurnRefuses | backend/conversations.py:180-196 | Meanwhile every start in the workspace is refused or answered from a receipt and changes nothing; its own is told to wait, or is a conflict under another hash. |
| ChatTurns.RepeatedStart | backend/conversations.py:183-190 | A turn that was told to run is started again: another hash is a conflict; under its own it is told to wait only while unfinished and not silent, and otherwise gets the response and status of what ended it. |
| ChatTurns.FinishedIsReplayed | backend/conversations.py:183-190 | What the first `finish` in time said is what every repetition is answered until a clear or reset. |
| ChatTurns.MessageStays | backend/conversations.py:120-285 | Until its conversation is erased, no request changes a message but for deciding its pending proposal. |
| ChatDecisions.NewTurnIsDecided | backend/conversations.py:191-205 | A turn without a receipt goes ahead exactly when the conversation it names, if any, is its user's active one and no turn of the workspace gave a sign of life in 120 seconds; in the user's conversation or a new one. |
| ChatDecisions.ResetIsDecided | backend/conversations.py:253-271 | A reset goes through exactly when it names the active conversation, if any, and no turn of its user is alive; then the conversation is empty under a new reset revision and no other message is lost. |
| ChatDecisions.ClearIsDecided | backend/conversations.py:287-301 | A clear goes through exactly when no turn is alive, and leaves empty tables. |
| ChatDecisions.ReadSweepsExactly | backend/conversations.py:148-151 | A read fails exactly its own user's turn that is silent for more than 120 seconds, and changes nothing else. |
| ChatDecisions.ProposalIsDecided | backend/conversations.py:273-285 | A proposal is decided exactly by the owner of its message, for `applied` or `discarded`, while pending or decided the same way before; nothing else of any message or turn changes. |
| ChatDecisions.DecisionsStand | backend/conversations.py:273-285 | Over any run without a clear or reset by the owner, a decided proposal stays as it was decided. |
| ChatDecisions.CancelsAreStored | backend/conversations.py:245-251 | In every run from tables whose flags agree, as those of the empty ones do (`ChatDecisions.EmptyIsFlagged`), the stored cancel requests are exactly those served since the last clear, and a pending turn is flagged exactly when it has one. |
| ChatDecisions.StopsExactlyWhenCancelled | backend/conversations.py:235-251 | A running turn's heartbeat says stop exactly when a cancel of it was served, before or after its start, and the workspace not cleared since. |
| ChatFeed.AscendingIsOrdered | backend/conversations.py:159-165 | ORDER BY lists each selected row once, strictly ascending. |
| ChatFeed.RowsAreKeyed | backend/conversations.py:159-165 | Rows of one conversation tie neither in sequence nor in revision, so the listing is unique. |
| ChatFeed.TranscriptContiguous | backend/conversations.py:120-134 | Read in order, a conversation's sequences are contiguous and end at its counter. |
| ChatFeed.TranscriptAlternates | backend/conversations.py:214-229 | Read in order, a conversation is question, answer, question, answer, pairs of the same turn, with at most one unanswered question at the end. |
| ChatFeed.HeadShowsPending | backend/conversations.py:171-176 | Every page names exactly the pending turn of its user, and says whether it is being cancelled. |
| ChatFeed.PageFills | backend/conversations.py:149-167 | A page holds at most the messages asked for, between 1 and 100, and exactly so many when there are more. |
| ChatStore.ConversationStore.constructor | backend/conversations.py:44-99 | A new store is empty and satisfies the invariant. |
| ChatStore.ConversationStore.Increment | backend/conversations.py:120-123 | The counters go up by one, the sequence only for a message. |
| ChatStore.ConversationStore.InsertMessage | backend/conversations.py:125-134 | The message takes the new counters; the caller owes both UNIQUE constraints. |
| ChatStore.ConversationStore.FinishLocked | backend/conversations.py:214-229 | The terminal outcome for a pending turn, and nothing for any other turn. |
| ChatStore.ConversationStore.ExpireLocked | backend/conversations.py:136-146 | The loop over stale turns performs the specified expiry. |
| ChatStore.ConversationStore.Start | backend/conversations.py:180-212 | `start` performs its transaction, refusals leave the tables as they were, and the invariant is kept. |
| ChatStore.ConversationStore.Finish | backend/conversations.py:231-233 | `finish` performs its transaction and keeps the invariant. |
| ChatStore.ConversationStore.Heartbeat | backend/conversations.py:235-243 | `heartbeat` performs its transaction and answers whether to stop. |
| ChatStore.ConversationStore.Cancel | backend/conversations.py:245-251 | `cancel` performs its transaction and keeps the invariant. |
| ChatStore.ConversationStore.Reset | backend/conversations.py:253-271 | `reset` performs its transaction, refusals leave the tables as they were. |
| ChatStore.ConversationStore.UpdateProposal | backend/conversations.py:273-285 | `update_proposal` performs its transaction, refusals leave the tables as they were. |
| ChatStore.ConversationStore.Clear | backend/conversations.py:287-301 | The guarded clear is refused while a turn is pending and otherwise empties the workspace. |
| ChatStore.ConversationStore.OrderBy | backend/conversations.py:159-165 | The listing of rows that do not tie is the ascending one. |
| ChatStore.ConversationStore.Snapshot | backend/conversations.py:149-178 | The page, its cursor and its flags, from one snapshot. |
| ChatStore.ConversationStore.Read | backend/conversations.py:148-178 | `read` expires only this user's dead turn, then answers with the page of that state. |
| ChatClient.NextEvolves | backend/conversations.py:120-134 | Every request only grows the conversations it leaves: new messages above the counters, changes under higher revisions, removals only under a new reset revision. |
| ChatClient.ServerKeepsAgreement | backend/conversations.py:148-178 | No request of anyone breaks what a tab knows. |
| ChatClient.DeltaPage | backend/conversations.py:163-172 | A continuing page holds exactly the changes right after the cursor, up to the cursor it hands back. |
| ChatClient.BackPage | backend/conversations.py:159-169 | A first or older page holds the newest messages in reach, none left out above its lowest one. |
| ChatClient.UpsertFacts | frontend/src/features/chat/conversationService.ts:30-40 | Merging keeps what is held and takes each incoming message under its identifier. |
| ChatClient.PollAgrees | frontend/src/features/chat/useConversationSync.ts:37-64 | A poll keeps the agreement; one that continues raises the cursor; one that does not is exact. |
| ChatHistory.PollingConverges | backend/conversations.py:148-178 | After any interleaving of everybody's requests with the tab's polls, older pages, dropped answers and fresh starts, for every page limit, and whatever bound it asks older pages with as long as its messages cover the range from there to its window, a poll that does not continue leaves exactly the server's messages of the tab's window, and none that was deleted. |
| ChatHistory.CatchUp | backend/conversations.py:163-172 | With nobody writing, polling ends, and it ends exact. |
| ChatHistory.OlderKeepsAgreement | frontend/src/features/chat/useConversationSync.ts:66-81 | Loading what is below any bound keeps the agreement exactly when no message between the bound and the window is missing. |
| ChatHistory.CoveredLeavesNoGap | frontend/src/features/chat/useConversationSync.ts:66-81 | A tab that holds a message at every sequence from the bound to its window misses none, whatever the server did since its last poll. |
| ChatHistory.BrowserBoundExactly | frontend/src/features/chat/useConversationSync.ts:66-81 | For an up-to-date tab, asking below the lowest held message keeps the agreement exactly when its messages cover the range up to the window, which it can check before it asks. |
| ChatHistory.CoveredMeansFilled | frontend/src/features/chat/useConversationSync.ts:66-81 | For an up-to-date tab that condition is that there is no hole among its messages from the lowest one up. |
| ChatHistory.LowestHeldSkips | frontend/src/features/chat/useConversationSync.ts:66-81 | A change to a message under the window of a fresh tab leaves it uncovered; from then on, in every history of a browser in which the conversation is not reset or cleared, the message after the changed one is skipped exactly as long as it is not changed itself. |
| ChatHistory.NeverDelivered | frontend/src/features/chat/useConversationSync.ts:66-81 | In every history of requests by anyone, polls and older pages below the lowest held message, without a reset or clear: a message skipped above a lower held one stays skipped exactly as long as it is not changed, and after one older page the window wrongly claims it. |
| ChatHistory.DeliveredExactlyWhenChanged | frontend/src/features/chat/useConversationSync.ts:66-81 | Whenever a poll of such a history has nothing left to come, the skipped message is held exactly when it was changed. |
| ChatHistory.SkipIsReachable | frontend/src/features/chat/useConversationSync.ts:66-81 | Two turns, a poll for one message, a proposal update and a poll lead from a fresh workspace and a new tab to such a tab: sound, exact, not covered, a message skipped. |
| ChatHistory.OlderBlock | backend/conversations.py:159-177 | An older page is the block that ends right under the bound, and says whether anything is left. |
| ChatHistory.PagingCollectsAll | backend/conversations.py:158-178 | Paging back while others append and update proposals collects every message under the first bound, numbered without a gap, and is complete after at most as many pages. |
| ChatHistory.CollectedOnce | backend/conversations.py:158-178 | Each of those messages is collected at exactly one place, the one its sequence says. |
| StepOrder.TopologicalOrder | backend/deployment_artifacts.py:1139-1166 | Raises exactly when the edges among the steps contain a cycle or an id is listed twice; otherwise a permutation of the ids with every edge going forward, in which what becomes ready first comes first, and what becomes ready together in key order. |
| StepOrder.OrderIsDetermined | backend/deployment_artifacts.py:1139-1166 | When no two steps have the same key, that order is the only one: it depends on the graph and not on how steps and edges are listed. |
| StepOrder.Sorted | backend/deployment_artifacts.py:776-781 | Sorting by the step key is a permutation in key order. |
| StepOrder.CountEdges | backend/deployment_artifacts.py:1140-1149 | The counters and edge lists count parallel edges consistently and ignore edges to other nodes. |
| StepOrder.Release | backend/deployment_artifacts.py:1156-1159 | Releasing a step's targets leaves counters and queue as if the step had been taken out of the graph; what becomes ready is appended in key order. |
| StepOrder.StuckMeansCycle | backend/deployment_artifacts.py:1161-1165 | If every remaining step waits for a remaining step, the graph has a cycle. |
| StepOrder.ForwardMeansNoCycle | backend/deployment_artifacts.py:1161-1165 | A graph with a forward order has no cycle. |
| StepOrder.DependencyLookup | backend/deployment_artifacts.py:1169-1179 | Every step's parents, exactly the sources of its edges, each once, sorted. |
| StepOrder.ParentsFirst | backend/deployment_artifacts.py:1139-1179 | Every parent comes before its child in the order. |
| StepOrder.ExtractEdges | backend/deployment_artifacts.py:655-710 | The usable edges of canvas and flows, none twice, linking exactly the same pairs. |
| YamlPrinter.ReadsBack | backend/deployment_artifacts.py:2115-2159 | For every document, reading the printed lines gives the document with each dropped container replaced by null. |
| YamlPrinter.RoundTripExactly | backend/deployment_artifacts.py:2115-2159 | The printed document says the same exactly when it is not empty and nothing in it is dropped. |
| YamlPrinter.KeptIffPrintable | backend/deployment_artifacts.py:2135-2158 | Nothing is dropped exactly when no list item is an empty list or a mapping whose first value is an empty container. |
| YamlPrinter.PrintingIsInjective | backend/deployment_artifacts.py:2115-2159 | Documents that print alike differ in dropped containers only. |
| RequirementGroups.RequirementSpecifiers | backend/deployment_artifacts.py:4791-4809 | For each package mentioned, everything the lines ask of it, and no other package. |
| RequirementGroups.SpecifiersOverlap | backend/deployment_artifacts.py:4812-4835 | True exactly when nothing is asked or one of the candidates, version 0, the named versions and those just above, meets both sides. |
| RequirementGroups.RequirementConflict | backend/deployment_artifacts.py:4838-4845 | The first package, in sorted order, that both ask for without a common candidate; none exactly when there is none. |
| RequirementGroups.PlaceStep | backend/deployment_artifacts.py:4856-4869 | A step joins the first group it fits, or opens a last group that reports a conflict with every other. |
| RequirementGroups.StepGoesWhereItFits | backend/deployment_artifacts.py:4812-4870 | A step goes into the first group with which, for every package that both ask for, version 0, a version named by a specifier or one just above it meets everything asked; it opens a new group exactly when there is none. |
| RequirementGroups.CompatibleRequirementGroups | backend/deployment_artifacts.py:4848-4870 | The groups are what placing the steps in order leads to. |
| RequirementGroups.GroupedIsGrouping | backend/deployment_artifacts.py:4848-4870 | The groups partition the steps, each in order, with exactly their requirements; every group records one real conflict per earlier group, with ids that are a prefix of that group's; and satisfiable steps make satisfiable groups. |
| RequirementGroups.ImagesInstallableExactly | backend/deployment_artifacts.py:4812-4870 | Every group has for each package one version meeting all its specifiers exactly when every step alone has. |
| ItemRunner.RunItems | backend/map_runtime.py:425-452 | For every limit, policy and completion order: it ends, never more than the limit run, keys are started in order and each once, it only waits when the limit run, all is started or it has stopped, nothing is started after a known failure under `stop`, and the statuses are those of a sequential run of the started prefix with the rest skipped; one at a time under `stop` it starts exactly up to the first failure. |
| ItemRunner.LegalAtAnyMoment | backend/map_runtime.py:428-434 | At no moment of a run are more than the limit running. |
| ItemRunner.DiligentAtAnyMoment | backend/map_runtime.py:426-444 | At any moment of a run: a start means that no failure is known under `stop`, and a wait means that the limit run, all is started, or the runner has stopped. |
| ItemRunner.StartedOnce | backend/map_runtime.py:430-433 | Starts are in key order, so nothing is started twice. |
| ItemRunner.ContinueIsSequential | backend/map_runtime.py:435-452 | Under `continue` the final index is that of running the items one by one, and the run fails only if all items did. |
| ItemRunner.StopRunsAPrefix | backend/map_runtime.py:443-445 | Under `stop` the started keys are a prefix with their outcomes, the rest is skipped. |
| ItemRunner.StopExitsZeroIffAllSucceed | backend/map_runtime.py:448-452 | Under `stop`, with distinct keys, exit 0 means that every item ran and succeeded. |
| ItemRunner.RepeatedKeyHidesFailure | backend/map_runtime.py:444-452 | Run one at a time, a key listed again after its first occurrence failed is skipped the second time, and the run exits 0. |
| ItemRunner.ExitZeroIsHonestExactly | backend/map_runtime.py:444-452 | For runs one at a time, exit 0 under `stop` means that every item succeeded, whatever the items do, exactly when the keys are distinct; and then it does for every limit and completion order. |
| MapScope.SharedKeys | backend/map_runtime.py:418-422 | The loop over the inputs keeps the keys all of them have, in the first one's order. |
| MapScope.CollectGathersTheMap | backend/map_runtime.py:353-452 | After split and any chain or join of lifted steps that exited 0, collecting gathers exactly the items every step succeeded on, in split order, under distinct keys, each with the composed result. |
| MapScope.ScopeOutputIsPublished | backend/map_runtime.py:262-320 | What a scope leaves can be split again, so that scopes compose. |
| MapScope.RunFailsOnlyWhenAllFail | backend/map_runtime.py:448-452 | A lifted step's run fails exactly when it had items and lost them all. |
| MapScope.UniqueKey | backend/map_runtime.py:248-254 | The key is the first free candidate, and the search ends. |
| MapScope.CandidatesDiffer | backend/map_runtime.py:250-252 | The candidates tried for one name are all different. |
| MapScope.SplitMembers | backend/map_runtime.py:277-284 | Every member is published under its own key, in order. |
| MapScope.SplitCollection | backend/map_runtime.py:270-276 | A collection that has items keeps their keys and artifacts; it fails exactly when an item's folder is missing or a repeated key holds a folder; what is published has distinct keys exactly when the index does, and always without an index. |
| MapScope.ReadIndex | backend/map_runtime.py:222-229 | A collection without an index lists every item folder, once, by name, as succeeded. |
| MapScope.Collect | backend/map_runtime.py:297-315 | The index, or the folder listing without one, is kept, failures included, and exactly the successful artifacts are copied; it fails exactly when one is missing or a repeated key holds a folder; the result has distinct keys exactly when the index does. |
| InputStaging.SameFileContents | backend/filesystem_runtime.py:94-105 | Chunk-wise comparison decides equality. |
| InputStaging.Merge | backend/filesystem_runtime.py:206-234 | The nested loops come to the merge of the ports in this order. |
| InputStaging.MergeIsExplained | backend/filesystem_runtime.py:206-234 | Success means all required ports exist and producers agree, and then the result is the union of the ports exactly when no file is in another's way; each error names what is violated, a collision the path with two contents and a failed copy a path with a file above or below it; and without violations the merge succeeds. |
| InputStaging.OrderDoesNotMatter | backend/filesystem_runtime.py:206-234 | Ports that go together merge to the same tree in any order, with or without repetitions. |
| InputStaging.CopyKeepsPrefixFree | backend/filesystem_runtime.py:82-91 | Copying a file in never makes a file the parent of another. |
| InputStaging.DirectoryThenFile | backend/filesystem_runtime.py:82-91 | When one producer has a directory at the path of a file of a later one, at any depth and among any other producers, and they otherwise go together, the merge succeeds with the file inside the directory, over a file of that name, unless a directory of that name is there; then it fails at the file. |
| InputStaging.FileThenDirectory | backend/filesystem_runtime.py:82-91 | With the file's producer first, the merge fails at the first file of the directory. |
| InputStaging.FailedPublishKeepsOld | backend/filesystem_runtime.py:115-134 | When publishing fails, the old directory is there exactly when there was none, moving it aside failed, or it was moved back. |
| InputStaging.InputArea.Publish | backend/filesystem_runtime.py:115-134 | Two renames, the first undone when the second fails: what the destination is after any failure. |
| InputStaging.InputArea.StageInputBindings | backend/filesystem_runtime.py:186-239 | Publishes what the merge comes to, and only if it succeeded; on any merge error the old directory is unchanged and the staging directory is gone. |
| OutputPorts.MoveInto | backend/filesystem_runtime.py:274-281 | Moving an entry adds exactly its files under its name. |
| OutputPorts.OutputFolder.Normalize | backend/filesystem_runtime.py:242-282 | Which results are moved, in sorted order, which outcome is an error, and that the port's folder then holds its old files and every result, with nothing else changed; at the first collision, the same for exactly the results that sort before it. |
| OutputPorts.ProducerToConsumerExactly | backend/filesystem_runtime.py:186-282 | Once the results are moved, staging the port succeeds with exactly what was written, less the reserved names, if and only if nothing was written under the port's own name or into a folder named like the keep file, and the consumer can do without the port or there is a port folder or a result. |
| OutputPorts.HiddenUnderPort | backend/filesystem_runtime.py:256-281 | When something was written into a folder with the port's own name, the files staged are not the files written. |
| OutputPorts.ValidateOutputPorts | backend/filesystem_runtime.py:307-320 | Passes exactly when every required port holds an artifact; otherwise names one that does not. |
| OutputPorts.ValidatedPortStagesSomething | backend/filesystem_runtime.py:215-233 | A port that passes validation is staged, and not empty. |
| OutputPorts.BookkeepingIsStaged | backend/filesystem_runtime.py:307-320 | The converse fails exactly for ports with bookkeeping files in subfolders: they stage something without holding an artifact. |
| GraphRevision.Adapter.LockRevision | backend/graph_revision.py:9-22 | The stored revision, created at 0, and whether the condition is stale. |
| GraphRevision.Adapter.FinishRevision | backend/graph_revision.py:25-32 | One revision more exactly when something changed. |
| GraphRevision.Adapter.Dispatch | backend/neo4j_api.py:138-163 | One graph call: revision and reply after a conflict, an exception or a commit. |
| GraphRevision.EveryChangeCounts | backend/graph_revision.py:25-32 | In every run the revisions are exactly the calls that got through and changed the graph, one each, in order. |
| GraphRevision.ChangeCounts | backend/graph_revision.py:25-32 | A change is answered with the revision it made, and a successful write is acknowledged with it. |
| GraphRevision.OtherCallsAreRemembered | backend/inlumen_api.py:366-371 | A call elsewhere or a route that raises leaves what the request remembers; a route that changes nothing hands out the stored revision, as the next condition only for a successful write. |
| GraphRevision.NoLostUpdate | backend/graph_revision.py:17-21 | Of the requests sent with the same If-Match, at most one ever has a change accepted, in any interleaving. |
| GraphRevision.GatewayRequest.Proxy | backend/inlumen_api.py:337-371 | The condition sent, and which replies advance it: successful graph writes only, nothing from other services. |
| GraphRevision.WritesAreConsecutive | backend/inlumen_api.py:351-370 | In any interleaving one request's successful writes are one block of the history: consecutive revisions, right after its If-Match when it sent one, no other request's write between them. |
| GraphRevision.RefusedExactlyWhenMoved | backend/inlumen_api.py:351-355 | After any run, a request that has written or came with a condition is refused its next mutating call exactly when the graph left the revision it acknowledged. |
| GraphRevision.RefusedChangesNothing | backend/graph_revision.py:17-21 | A refused call changes nothing but the response's ETag. |
| GraphRevision.AloneIsNeverRefused | backend/inlumen_api.py:351-370 | A request that runs alone from the revision it was sent with is never refused. |
| GraphRevision.ReadMovesOnlyTheResponse | backend/inlumen_api.py:366-370 | A read leaves the acknowledged revision alone; the response's ETag agrees with it exactly when nothing moved. |
| WavProbe.WalkChunks | backend/attachment_validation.py:80-100 | The chunk loop finds what a recursive scan of the chunks finds. |
| WavProbe.WavErrors | backend/attachment_validation.py:56-111 | The verdict is the specified one, whose meaning `VerdictIsExplained` and `ProbeExactly` state. |
| WavProbe.AcceptedExactly | backend/attachment_validation.py:56-111 | Any bytes are accepted exactly when the header is good and the rest is a list of chunks with a format chunk of at least 16 bytes and a non-empty data chunk. |
| WavProbe.SerialisedVerdict | backend/attachment_validation.py:56-111 | Every serialised list of chunks gets the verdict its chunks deserve. |
| WavProbe.LaidOutIsFound | backend/attachment_validation.py:80-100 | The walk over laid-out chunks neither overruns nor misses one. |
| WavProbe.FoundIsLaidOut | backend/attachment_validation.py:80-100 | A walk that does not overrun has read a list of chunks. |
| WavProbe.ProbeNeverMisjudges | backend/attachment_validation.py:80-111 | A partial probe of at least 12 bytes is accepted or gets the whole file's own verdict. |
| WavProbe.ProbeExactly | backend/attachment_validation.py:56-100 | A partial probe gets the whole file's verdict when the header is bad; with a good header it is refused exactly when a chunk whose head lies in the probe, after chunks laid out in the file, ends beyond the file. |
| WavProbe.VerdictIsExplained | backend/attachment_validation.py:56-111 | Each verdict on a whole file, by what its bytes and chunks are. |
| CodegenGate.ConflictGuardsUserCode | backend/inlumen_api.py:1439-1725 | A run is refused exactly when it has no target or reaches, without approval, a Task whose node is marked user-modified or has code files that the service did not generate; targets are Tasks. |
| CodegenGate.PreflightIsExplained | backend/inlumen_api.py:1381-1521 | The targets of each scope, the guarded targets and the reusable rest, by what the nodes say. |
| CodegenGate.ItemIsExplained | backend/inlumen_api.py:1381-1437 | Ownership, reusability and status of one Task, by what its node says. |
| CodegenGate.PartialRunReusesTheRest | backend/inlumen_api.py:1439-1521 | For every scope, a run with targets is partial exactly when it leaves out some Task and all it leaves out is reusable generated code. |
| CodegenGate.InvalidCodegenNodes | backend/inlumen_api.py:393-479 | It reports exactly the problems there are: of single entries, of missing or repeated results, of unknown nodes. |
| CodegenGate.ReportsAreExplained | backend/inlumen_api.py:393-479 | Every report, by what the entries say: what is wrong with one, none or several for an expected node, one for an unexpected node. |
| CodegenGate.GateExactly | backend/inlumen_api.py:1763-1773 | Nothing is reported exactly when every Task has one result, valid and with a script. |
| CodegenGate.StepTable.ReplaceTaskPackages | backend/neo4j_api.py:1511-1547 | All packages are attached in one transaction, or none; never without a condition, or when the graph is not at the revision it names. |
| CodegenGate.FinalizeResponse | backend/inlumen_api.py:1728-1830 | All the named Tasks get their one result, or nothing changes; which failure is reported when. |
| CodegenGate.GeneratePipelineScripts | backend/inlumen_api.py:2827-2845 | Whatever the service answers, whatever fails and whatever happened to the graph since it was read: precisely the preflight's targets got their results, all valid, under a condition that named the graph's revision, or nothing changed; without approval none of them was user-owned in the graph that was read, nor in the graph the code is attached to when the browser named a revision no later than the one read. |
| CodegenGate.ProtectedExactlyWhenSeen | backend/inlumen_api.py:351-370 | In every run of requests, packages sent after a read are accepted exactly when the graph is at the revision the browser named, and then user-owned code is protected, for all graphs and requests, exactly when the graph had that revision by the time it was read. |

## Left out

- ChatStore.ConversationStore.Read: the read runs without the workspace lock in the source; here it is one snapshot. Timestamps shown to the user (`created_at`, `updated_at`) are omitted.
- ChatStore.ConversationStore.Clear: what happens between the guard and the clear (graph and object storage) is not part of this model.
- ChatHistory.PollingConverges: a tab that edits its messages or its conversation locally is not modelled; histories in which the tab asks for older messages with a bound its messages do not cover are excluded, because the property fails there (`ChatHistory.SkipIsReachable`).
- StepOrder.OrderIsDetermined: steps with equal keys, such as `1` and `01`, keep the order in which they are listed; that is not stated.
- YamlPrinter.ReadsBack: quoting of scalars and keys is left out; they are opaque tokens.
- RequirementGroups.GroupedIsGrouping: the number of groups is not claimed minimal, and a missed overlap of specifiers is possible, as the source's own comment says.
- ItemRunner.RunItems: what running one item does to files and processes is one outcome per key; error texts are not cut to 2000 characters.
- MapScope.CollectGathersTheMap: item folders and the index file are separate names, and every item folder holds one artifact; choosing an artifact by file name is left out, and so are lifted steps with several output ports, which hold one collection each.
- MapScope.SplitMembers: cleaning a member's name into a base key is a parameter.
- InputStaging.Merge: symbolic links and empty directories are left out; sorting the files of a port is the listing it is given.
- InputStaging.InputArea.StageInputBindings: a failing removal of the staging directory is left out.
- OutputPorts.OutputFolder.Normalize: empty folders below the top level are left out.
- GraphRevision.Adapter.Dispatch: the contents of the graph are left out; a call changes it or not. Cleaning up a preview workspace deletes its revision row (`backend/neo4j_api.py:1652-1657`), so that its revisions can start again at 0; that is left out.
- WavProbe.AcceptedExactly: the 64-bit sizes of RF64 files are not read, as in the source, and the placeholder-text scan is left out.
- CodegenGate.PartialRunReusesTheRest: fetching the reused files from storage, which may turn a partial run into a full one, is left out.
- CodegenGate.FinalizeResponse: the artifact is an opaque value; run ids, file hashes and storage addresses are left out.
- Asynchronous code-generation runs that are finalised later (`backend/inlumen_api.py:3268-3330`), with their own check that the graph is unchanged.
- The other staging routine, `stage_input_directories`, the run caches and the provenance receipts.
- Flask routes, authentication, MinIO, Neo4j and SQL plumbing, generated Dockerfiles, scripts and README text, LLM clients.
- Contract lifting (`lift_contract`), name sanitising, resource profiles and role permissions: easy members only, or built on functions that are not part of this model.
