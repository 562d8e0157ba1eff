# Cloud Agents: verified core

Cloud Agents runs agent workflows and chats: definitions of agent steps and approval gates,
executed step by step, in sandboxes that a gateway provides, with results and transcripts in
a store. This project models the parts of that system whose correctness spans many steps,
and proves what its documentation and tests count on.

`dafny verify dfyconfig.toml` checks everything. The modules:

- **Workflow, WorkflowTransparency, WorkflowReachable, LocalRunner** - the local run machine.
  A definition is a list of nodes; a segment runs nodes, persists new results, and ends at a
  gate; an approval rebuilds everything from the stored row. `Workflow.Inline` is a separate
  reference: one uninterrupted pass that knows nothing of pausing. The class in `LocalRunner`
  is proved against the functions, and the theorems are about those.
- **ChatTurns, ChatHistory, ChatNames** - a chat turn from run parts to bounded transcript
  events, to saved messages, to the provider history of later turns, and the turn names that
  key the store.
- **Lifetime, Spawn, Slots** - the sandbox: its expiry label against a reaper on another
  replica, what a failed spawn leaves at the gateway, and the concurrency cap.
- **Chunking, Retry** - parallel groups and the retry loop.
- **RateLimiter, Dedup** - two maps that are pruned for memory.
- **Text, ProgressStream, Redact, Conditions, ConditionGluing, ConditionMisreading,
  Interpolation** - strings: line reassembly, secret redaction, the condition language,
  template paths.
- **Prelude, Json, Decimal** - shared values.

Agents, regular expressions, JSON text, the gateway and the clock are parameters; all that
is assumed of them stands in `requires` clauses (parsing a dumped JSON value gives it back,
`int()` reads the numerals that `str()` prints, decoding no bytes gives no text). Floating
point is modelled by reals, and a replica's clock is global time plus a constant offset.

## What the code does not do

Where a property fails for the code as it is, the project keeps the code, shows an input,
and proves exactly when the property holds.

- A workflow that is a single approval gate without an output key never gets past it: the
  graph stores the gate under `result`, an approval writes under the step's name
  (`LoneGateNeverOpens`; exactly then: `TransparentIff`, `ReachableIff`).
- A skipped step is evaluated again on resume, so a condition that refers to a later step can
  turn true and the step runs after all (`LookingAheadIsObservable`). Pausing cannot be
  observed exactly if no condition refers to a step between its own and a gate behind it
  (`TransparentDefinitions`).
- A task cancelled before it first runs never enters `_execute`; its row stays `running`
  (`CancelledBeforeItRan`). A cancel marks the row exactly if no task is launched
  (`CancelEndsRun`).
- A tool call that its turn never answers takes the first result of a later turn, under
  another tool's name (`UnansweredCallTakesNextResult`). Names match exactly if the saved
  results are named like the first saved calls, in order (`ConversationNamesIff`).
- A context window of zero turns names every turn `turn-0` (`NoTurnLostIff`).
- A policy that cannot be built stops a spawn between the creation of the provider and the
  region that cleans up, and the provider stays behind: a malformed entry in
  `allowed_skills`, a provider or MCP server url that cannot be taken apart, an MCP server
  that is no dictionary (`BadUrlStrands`; exactly then: `DoSpawn`, the clause on `Strands`).
- The local step runner destroys even after a refused spawn, and the counter then admits one
  sandbox more than the cap (`StrayDestroyBreaksCap`, `UndercountBreaksCap`). The counter
  stays exact exactly if every destroy releases a sandbox or finds it at zero (`ExactIff`).
- Redaction: a secret that can overlap the placeholder survives in some text, among some
  secrets, and no other does (`NeverSurvivesIff`); without a star, those are the secrets
  inside the word `REDACTED` (`CleanIff`).
- In a condition, an empty atom at an end is eaten by the stripping, and the word of its
  separator is glued to its neighbour (`EmptyAtomIsEaten`). The printed text is read back
  exactly if no end is empty (`RoundTripIff`), and it evaluates to its meaning exactly if
  nothing that is read differently is ever asked (`EvaluatesIff`), which is weaker
  (`MisreadUnnoticed`) unless all atoms differ (`DistinctEvaluatesIff`).
- A template that names a missing single key inserts `null`; a missing nested key raises
  (`SimpleKeyAgreesIff`).
- JSON text does not keep the closing data delimiter out of an inserted value, as a comment
  in the code has it (`DelimiterCanBeInserted`); the delimiter is unique exactly if the
  inserted text holds none (`ClosesOnceIff`).

The margin that an expiry label leaves is 135 seconds, fifteen more than the documented 120,
since a phase that is followed by another one has not used its cancel grace (`MarginIff`). A negative run
timeout would shorten the label and no phase (`NegativeTimeoutIsNotCovered`), but that is a
fact about `step_sandbox_lifetime_seconds` alone: definitions are validated to have a positive
one (src/cloud_agents/workflow/core/permissions.py:29) before either runner uses them.

## Model

| member | source | states |
|---|---|---|
| `Workflow.KeysAgreeIff` | src/cloud_agents/workflow/executor/graph_translator.py:136-143 | the key the graph stores a gate under is the key an approval writes, for every gate, if and only if the definition is not a lone gate without an output key |
| `Workflow.ApproveKeyIs` | src/cloud_agents/workflow/executor/local/executor.py:256-316 | under unique names an approval writes to the step's output key, or to its name |
| `Workflow.BranchTells` | src/cloud_agents/workflow/executor/graph_translator.py:257-447 | which branch a visited node takes: it is left alone exactly if it has completed, or is an agent that failed; a gate is asked or approves itself; an agent is skipped during a pause, skipped for its condition, or run |
| `WorkflowTransparency.PauseResumeIsTransparent` | src/cloud_agents/workflow/executor/local/executor.py:145-362 | for every definition with unique keys, every agent that settles, every condition that answering a gate behind it does not change, and every list of decisions, the run through pause, store, approval and rebuild ends with the status, the step results and the waiting gate of one uninterrupted pass |
| `WorkflowTransparency.LookingBackIsStable` | src/cloud_agents/workflow/executor/graph_translator.py:274-281 | conditions that read only earlier steps are such conditions |
| `WorkflowTransparency.TransparentDefinitions` | src/cloud_agents/workflow/executor/local/executor.py:145-362 | of all definitions with unique keys: the run ends as the uninterrupted pass in every world whose agents settle, whose gates wait and whose conditions read only what they refer to, if and only if the definition is not a lone gate without an output key and no condition refers to a step between its own and a gate behind it |
| `WorkflowTransparency.TransparentIff` | src/cloud_agents/workflow/executor/local/executor.py:256-362 | that holds for all decision lists if and only if gates are auto-approved or the definition is not a lone gate without an output key |
| `WorkflowTransparency.LoneGateNeverOpens` | src/cloud_agents/workflow/executor/graph_translator.py:392-447 | such a gate is paused again after every approval, however many there are |
| `WorkflowTransparency.SegmentIsPass` | src/cloud_agents/workflow/executor/local/executor.py:318-362 | a segment resumed behind an answered gate, or started at the first node, ends where the uninterrupted pass from that point ends |
| `WorkflowTransparency.Replay` | src/cloud_agents/workflow/executor/graph_translator.py:257-281 | visiting nodes that are already settled changes no stored result and reaches the first unsettled node in the same state |
| `WorkflowTransparency.ResumeRunsNoAgentTwice` | src/cloud_agents/workflow/executor/graph_translator.py:257-281 | on the way back to the answered gate no agent runs and no gate opens, whenever the segment is cancelled |
| `WorkflowTransparency.LookingAheadIsObservable` | src/cloud_agents/workflow/executor/graph_translator.py:276-281 | for every definition with a condition that refers ahead, some world whose conditions read only their references and some decisions for which the run and the uninterrupted pass end differently |
| `WorkflowReachable.ReachableIff` | src/cloud_agents/workflow/executor/local/executor.py:273-316 | after every sequence of start, segment, approve and cancel the stored results cover exactly a prefix of the steps, all but the last completed or skipped (so a result awaiting approval is the last), if and only if gates are auto-approved or the definition is not a lone gate without an output key |
| `WorkflowReachable.ApprovalIsStored` | src/cloud_agents/workflow/executor/local/executor.py:294-316 | an approval leaves, under the step's output key or else its name, a completed result that is approved exactly if the decision says so and is not marked automatic; no other result changes, and the row runs on |
| `WorkflowReachable.StoredSurvives` | src/cloud_agents/workflow/executor/local/executor.py:145-254 | what is stored when a segment starts is stored when it ends, cancelled or not |
| `WorkflowReachable.SettledForGood` | src/cloud_agents/workflow/executor/local/executor.py:145-376 | over every sequence of operations, a stored result that does not await approval is never rewritten, unless the definition is a lone gate without an output key that waits |
| `WorkflowReachable.GateLeaves` | src/cloud_agents/workflow/executor/graph_translator.py:392-447 | a gate that is not answered yet is stored as approved automatically, or as waiting with the message it shows |
| `WorkflowReachable.LoneGateLeavesPrefix` | src/cloud_agents/workflow/executor/local/executor.py:273-316 | start, segment and approval of a lone gate without an output key leave results that cover no prefix |
| `WorkflowReachable.PausesAlternate` | src/cloud_agents/workflow/executor/local/executor.py:273-316 | in every reachable state of every definition and world pauses and approvals alternate, each approval consuming the one open pause of its own step, and a launched task works on a running row with no open pause |
| `WorkflowReachable.SegmentKeeps` | src/cloud_agents/workflow/executor/local/executor.py:145-254 | a segment, cancelled at any node or not, takes a launched task to a row at rest |
| `WorkflowReachable.NeverSkipsWhilePaused` | src/cloud_agents/workflow/executor/graph_translator.py:267-272 | the "workflow_paused" skip branch runs in no segment from any state |
| `WorkflowReachable.NoApprovalAfterCancel` | src/cloud_agents/workflow/executor/local/executor.py:273-316 | a run with no launched task and no waiting gate stays so under every sequence of operations, and no approval is added to it |
| `WorkflowReachable.CancelEndsRun` | src/cloud_agents/workflow/executor/local/executor.py:364-376 | in every reachable state of every definition a cancel leaves no launched task and no waiting gate; it marks the row cancelled if and only if no task is launched, and leaves it running otherwise |
| `WorkflowReachable.CancelledBeforeItRan` | src/cloud_agents/workflow/executor/local/executor.py:364-376 | a cancel right after a start leaves the row running with nothing working on it |
| `WorkflowReachable.CancelledSegment` | src/cloud_agents/workflow/executor/local/executor.py:145-254 | a segment cancelled at a node ends cancelled, or as it would have ended without the cancel |
| `LocalRunner.LocalWorkflowRunner.Start` | src/cloud_agents/workflow/executor/local/executor.py:67-125 | creates the row and launches the task, refuses an id that exists, and touches no other workflow |
| `LocalRunner.LocalWorkflowRunner.Execute` | src/cloud_agents/workflow/executor/local/executor.py:145-254 | the node-by-node loop with its persisted keys is one segment step of the state machine |
| `LocalRunner.LocalWorkflowRunner.PersistNew` | src/cloud_agents/storage/run_state_store.py:245-280 | the inner loop stores exactly the results not stored yet, however many, in any order; the last one stored is the current step |
| `LocalRunner.LocalWorkflowRunner.Approve` | src/cloud_agents/workflow/executor/local/executor.py:256-362 | succeeds exactly on the paused row's own step, and then records, resumes and relaunches from the store; what it records is `ApprovalIsStored` |
| `LocalRunner.LocalWorkflowRunner.Cancel` | src/cloud_agents/workflow/executor/local/executor.py:364-376 | cancels the task, or marks the row if there is none; a missing workflow changes nothing |
| `ChatTurns.TranscriptEvents` | src/cloud_agents/workflow/executor/step/transcript_events.py:150-233 | the nested loops yield one event per call, return, retry and non-blank thinking, then the result event |
| `ChatTurns.BuildTurnMessages` | src/cloud_agents/workflow/executor/chat/runner.py:620-675 | the loop over events with its pending queue builds the saved messages of the turn |
| `ChatTurns.SavedCallsAreOriginal` | src/cloud_agents/workflow/executor/step/transcript_events.py:196-214 | the calls saved from a run are exactly the calls whose argument text was not cut, in order, with their original arguments |
| `ChatTurns.ResultsAreReturned` | src/cloud_agents/workflow/executor/step/transcript_events.py:207-222 | the result events of a run are, in order, one for each return and each retry, with the first 2000 characters of its text |
| `ChatTurns.CallsAreRecorded` | src/cloud_agents/workflow/executor/step/transcript_events.py:196-206 | the call events are, in order, one for each call, with the first 2000 characters of its argument text |
| `ChatTurns.TranscriptLength` | src/cloud_agents/workflow/executor/step/transcript_events.py:150-233 | a run has one event for each part but text and blank thinking, and one that ends it |
| `ChatTurns.ReturnedIsSaved` | src/cloud_agents/workflow/executor/chat/runner.py:620-675 | from run parts to saved messages: the n-th text given back is saved, cut, under the name of the call it is paired with, exactly if that call was kept |
| `ChatTurns.PairedResultIsSaved` | src/cloud_agents/workflow/executor/chat/runner.py:655-675 | of any events, a text result paired with a kept, named call is saved under its name with exactly that text |
| `ChatTurns.ContentIsFaithful` | src/cloud_agents/workflow/executor/chat/runner.py:620-675 | a text is saved as it is, and anything structured as JSON that reads back |
| `ChatTurns.ObjectArgsAreKept` | src/cloud_agents/workflow/executor/chat/runner.py:620-660 | arguments given as an object are kept as they are, and nothing else but text is |
| `ChatTurns.CutIsNoticed` | src/cloud_agents/workflow/executor/chat/runner.py:620-660 | arguments whose text was longer than the limit are never kept |
| `ChatTurns.SavedByPairing` | src/cloud_agents/workflow/executor/chat/runner.py:620-675 | for every event list the queue computes first-in-first-out pairing: a result is saved under its call's name exactly if its call was kept |
| `ChatHistory.BuildMessageHistory` | src/cloud_agents/workflow/executor/step/direct.py:252-357 | the saved messages are read back from the history's parts, kind by kind, in order and in full, ids aside; adjacent calls share one response, adjacent returns one request, and nothing else is merged |
| `ChatHistory.PartsRecover` | src/cloud_agents/workflow/executor/step/direct.py:290-357 | the parts determine the messages; messages without ids are read back as they are |
| `ChatHistory.EmptyIdIsNone` | src/cloud_agents/workflow/executor/step/direct.py:301-340 | a message with an empty id is treated like one without |
| `ChatHistory.MadeUpIds` | src/cloud_agents/workflow/executor/step/direct.py:301-340 | what the id of a call without one looks like |
| `ChatHistory.GivenIdIsKept` | src/cloud_agents/workflow/executor/step/direct.py:301-340 | an id that a message brings is the id of its part; a result with one takes its call out of the queue |
| `ChatHistory.WithoutDropsFirst` | src/cloud_agents/workflow/executor/step/direct.py:324-335 | what a given id takes out is the first waiting call of that id, and all others wait on in order |
| `ChatHistory.HistoryIsAnswerable` | src/cloud_agents/workflow/executor/step/direct.py:272-357 | for every sequence of turns with arbitrary events, each return has the id of an earlier call, distinct calls have distinct ids, and no call is answered twice |
| `ChatHistory.CoveredIsAnswerable` | src/cloud_agents/workflow/executor/step/direct.py:272-357 | that holds of any id-less message list in which results never outnumber the calls before them |
| `ChatHistory.SavedConserves` | src/cloud_agents/workflow/executor/chat/runner.py:620-675 | names are conserved: results saved and names still queued are, in order, the names queued before and the calls saved |
| `ChatHistory.ReturnsCarryTheirCallsName` | src/cloud_agents/workflow/executor/chat/runner.py:620-675 | if every turn answers its kept calls, each return also carries the tool name of the call whose id it has |
| `ChatHistory.NamesMatchIff` | src/cloud_agents/workflow/executor/step/direct.py:272-357 | for id-less messages whose results never outnumber the calls before them, every return carries its call's name if and only if the results' names are, in order, the first calls' names |
| `ChatHistory.ConversationNamesIff` | src/cloud_agents/workflow/executor/chat/runner.py:620-675 | the same for every sequence of saved turns |
| `ChatHistory.UnansweredCallTakesNextResult` | src/cloud_agents/workflow/executor/step/direct.py:272-357 | two turns in which a return has the id of a call of another tool |
| `ChatHistory.ReplayedCallsAreOriginal` | src/cloud_agents/workflow/executor/chat/runner.py:620-660 | over whole conversations the calls that survive events and saving are exactly the uncut ones |
| `ChatHistory.NoCutArgumentsReplayed` | src/cloud_agents/workflow/executor/step/direct.py:272-357 | every call part of a rebuilt history carries a tool name and arguments that some run really called |
| `ChatNames.TranscriptStore.Save` | src/cloud_agents/storage/transcript_store.py:139-175 | saving under a known name updates that row in place and keeps old messages when none are given, otherwise it appends |
| `ChatNames.TranscriptStore.LoadRecentTurns` | src/cloud_agents/storage/transcript_store.py:243-275 | the newest turns that have messages, at most the limit, oldest first |
| `ChatNames.NextTurnNumber` | src/cloud_agents/workflow/executor/chat/runner.py:514-530 | one more than the highest turn number in the window, 0 if there is none |
| `ChatNames.SendMessage` | src/cloud_agents/workflow/executor/chat/runner.py:176-234 | loads the window, names the turn from it and upserts the saved messages under that name |
| `ChatNames.TurnNamingIsFaithful` | src/cloud_agents/workflow/executor/chat/runner.py:514-530 | the number of a turn is read back from the name printed from it |
| `ChatNames.TurnNamesNeverCollide` | src/cloud_agents/workflow/executor/chat/runner.py:188-198 | with a window of at least one turn the n-th saved turn is named turn-(n-1), so no save overwrites a turn |
| `ChatNames.NoTurnLostIff` | src/cloud_agents/storage/transcript_store.py:25-39 | no conversation ever loses a turn if and only if the window is at least one turn |
| `ChatNames.EmptyWindowOverwrites` | src/cloud_agents/storage/transcript_store.py:25-39 | with an empty window only the last turn is left |
| `ChatNames.HistoryIsChronological` | src/cloud_agents/workflow/executor/step/direct.py:278-290 | sorting the context by turn number gives the newest turns in the order they were saved |
| `ChatNames.SortsByTurn` | src/cloud_agents/workflow/executor/step/direct.py:278-286 | whatever keys a context has, sorting puts turn numbers in ascending order and other names last, and keeps the entries of one number, or of none, in order |
| `ChatNames.ConversationIsAnswerable` | src/cloud_agents/workflow/executor/chat/runner.py:176-234 | for every conversation and window, the history given to the next turn is exactly that of the newest turns, its returns have the ids of earlier calls, its calls have distinct ids, and none is answered twice |
| `Lifetime.AwaitWithin` | src/cloud_agents/spawner/lifetime.py:113-133 | when and how control comes back, for every task and every cancellation of the caller |
| `Lifetime.ControlComesBack` | src/cloud_agents/spawner/lifetime.py:113-133 | control is back within the timeout plus the cancel grace whatever the task does; normally if and only if the task finishes in time and before the caller is cancelled, and then as soon as it has; with a deadline error if and only if neither happens in time |
| `Lifetime.CancelWithin` | src/cloud_agents/spawner/lifetime.py:136-157 | when the wait ends, whether the caller was cancelled meanwhile, and that the task is abandoned exactly if it is not over by then |
| `Lifetime.CancelComesBack` | src/cloud_agents/spawner/lifetime.py:136-157 | control is back within the grace whatever the task does, as soon as the task is over or the caller is cancelled and not before |
| `Lifetime.WaitIsFirst` | src/cloud_agents/spawner/lifetime.py:124-133 | a wait ends at the earliest of the task's end, the cancellation of the caller and the deadline, for the reason it names |
| `Lifetime.OverAtIs` | src/cloud_agents/spawner/lifetime.py:136-157 | a cancelled task is over by a moment exactly if it has finished or stopped by then |
| `Lifetime.LifetimeInSeconds` | src/cloud_agents/spawner/lifetime.py:49-105 | a lifetime is 625 seconds and the timeout rounded up, 1225 by default, and the longest use 490 seconds and the timeout |
| `Lifetime.UseSandbox` | src/cloud_agents/workflow/core/step_runner.py:358-511 | the phases in the order the step runner awaits them, with every early exit, a cancel during the progress cleanup and a fetch that leaves nothing to save included, end at the last use |
| `Lifetime.UseIsBounded` | src/cloud_agents/workflow/core/step_runner.py:358-511 | with waits that give control back as `ControlComesBack` and `CancelComesBack` say, the last use comes within the sum of the deadlines, two cancel graces and the gaps, however tasks behave and whenever the step is cancelled |
| `Lifetime.BoundIsReached` | src/cloud_agents/workflow/core/step_runner.py:358-511 | some attempt uses the sandbox exactly that long |
| `Lifetime.ReaperComesLater` | src/cloud_agents/spawner/openshell_spawner.py:1081-1097 | if the label covers the longest use with the attempt's gaps, no reaper within the skew that waits for the label acts before the last use |
| `Lifetime.SafeIffCovers` | src/cloud_agents/spawner/lifetime.py:83-105 | at every stamp, all attempts with the given gaps are safe from every such reaper if and only if the label covers the longest use |
| `Lifetime.CoversIff` | src/cloud_agents/spawner/openshell_spawner.py:1081-1097 | the label covers at every reading of the clock if and only if the lifetime does without the rounding |
| `Lifetime.DocumentedMarginCovers` | src/cloud_agents/spawner/lifetime.py:49-105 | a non-negative timeout and gaps within the destroy grace are covered |
| `Lifetime.NegativeTimeoutIsNotCovered` | src/cloud_agents/spawner/lifetime.py:83-105 | the lifetime computed for a timeout of -136 seconds or less covers nothing unless lifetimes have a floor; validated definitions have no such timeout |
| `Lifetime.MarginIff` | src/cloud_agents/spawner/lifetime.py:83-105 | without a floor, a lifetime covers exactly the gaps of up to 135 seconds and what rounding the timeout up adds, less what a negative timeout takes |
| `Lifetime.RunStep` | src/cloud_agents/workflow/core/step_runner.py:358-511 | the stamped label and the last use of one step under the documented conditions, which no such reaper can precede |
| `Spawn.OpenShellSpawner.DoSpawn` | src/cloud_agents/spawner/openshell_spawner.py:972-1281 | wherever a gateway call fails, a failed spawn whose deletions go through leaves sandboxes, providers and attachments as before and no tracking entry of its own, except exactly when a credential was given and a network or filesystem policy cannot be built, which strands the provider and its tracking entry; a successful one leaves exactly what it created and answers with the endpoint of the exposed service |
| `Spawn.OpenShellSpawner.BuildNetworkPolicy` | src/cloud_agents/spawner/openshell_spawner.py:869-915 | returns exactly if the provider url can be taken apart and the MCP text fails with a decode error, cannot be gone through at all, or is a list of dictionaries whose urls can be taken apart |
| `Spawn.FalsyValues` | src/cloud_agents/spawner/openshell_spawner.py:885-915 | the values that an url lookup passes over |
| `Spawn.OpenShellSpawner.BuildFilesystemPolicy` | src/cloud_agents/spawner/openshell_spawner.py:273-294 | returns exactly if the spawn is advisory or every allowed skill is a bare name |
| `Spawn.BadUrlStrands` | src/cloud_agents/spawner/openshell_spawner.py:1120-1125 | one MCP server url that cannot be taken apart strands the provider of any spawn with a credential, advisory or not |
| `Spawn.OpenShellSpawner.GiveBack` | src/cloud_agents/spawner/openshell_spawner.py:1218-1281 | deletes the sandbox, then the provider, which by then is attached to nothing, so the gateway accepts it |
| `Spawn.OpenShellSpawner.CleanupSandbox` | src/cloud_agents/spawner/openshell_spawner.py:1283-1309 | detaches, deletes and forgets; the tracking entries go even if the gateway's calls fail |
| `Spawn.OpenShellSpawner.PrepareProvider` | src/cloud_agents/spawner/openshell_spawner.py:972-1068 | a credential step that fails leaves no provider and no tracking entry |
| `Slots.CounterStaysUnderCap` | src/cloud_agents/spawner/base.py:187-216 | over every interleaving of spawn and destroy sections the counter never exceeds the cap |
| `Slots.PairedCounterIsExact` | src/cloud_agents/workflow/executor/temporal/activities.py:796-804 | when destroy follows each successful spawn once, the counter equals spawns in flight plus sandboxes not released, and the cap bounds the sandboxes |
| `Slots.ClampNeverFires` | src/cloud_agents/spawner/base.py:243-247 | then no destroy finds the counter at zero |
| `Slots.ExactIff` | src/cloud_agents/spawner/base.py:187-247 | over every interleaving, paired or not, the counter is exact after every prefix if and only if every destroy releases a live sandbox or finds the counter at zero |
| `Slots.UndercountBreaksCap` | src/cloud_agents/spawner/base.py:187-216 | from any state whose counter is below the truth, spawns alone lead to more sandboxes than the cap |
| `Slots.StrayDestroyBreaksCap` | src/cloud_agents/workflow/core/step_runner.py:571-579 | a destroy after a refused spawn lets two sandboxes live under a cap of one |
| `Slots.AgentSpawner.Acquire` | src/cloud_agents/spawner/base.py:187-216 | the first section refuses at the cap and otherwise takes a slot |
| `Slots.AgentSpawner.ReleaseAfterFailure` | src/cloud_agents/spawner/base.py:187-216 | a failed spawn gives its slot back |
| `Slots.AgentSpawner.ReleaseAfterDestroy` | src/cloud_agents/spawner/base.py:243-247 | destroy gives a slot back, clamped at zero |
| `Chunking.ChunkParallelGroups` | src/cloud_agents/workflow/core/execution.py:403-454 | the two loops yield the chunks of the step list |
| `Chunking.FlattenGivesSteps` | src/cloud_agents/workflow/core/execution.py:403-454 | flattening the chunks gives back the step list in order |
| `Chunking.ChunksAreMaximalRuns` | src/cloud_agents/workflow/core/execution.py:403-454 | every grouped chunk is a whole maximal run of one group in which no step refers to a step by name or output key, and every other chunk is one step that has no group or is in a run in which one does |
| `Chunking.DependsInsideIff` | src/cloud_agents/workflow/core/execution.py:428-447 | the test on sets of identifiers holds exactly if some member refers to a member |
| `Chunking.GroupResults` | src/cloud_agents/workflow/executor/temporal/workflow.py:182-190 | every member of a group leaves what it yields from what it is shown, and the run stops exactly if one of them stops it |
| `Chunking.GroupMeansSteps` | src/cloud_agents/workflow/executor/temporal/workflow.py:182-190 | running a grouped chunk's members from the state before it, whatever finished siblings they are shown, stops exactly if running them one by one stops, with the same results if it does not |
| `Chunking.ChunkingPreservesMeaning` | src/cloud_agents/workflow/core/execution.py:403-454 | the same for whole definitions; when the run stops, the one-by-one run's results are among the chunked run's |
| `Retry.RunWithRetries` | src/cloud_agents/workflow/core/execution.py:315-373 | makes k+1 attempts and yields outcome k, k the least index that is a success, a non-transient failure or max_retries, with doubling delays; the assertion behind the loop is reached exactly for a negative count |
| `Retry.TotalBackoff` | src/cloud_agents/workflow/core/execution.py:360-371 | the delays before k retries add up to backoff * (2^k - 1) |
| `Retry.StopsOnce` | src/cloud_agents/workflow/core/execution.py:353-373 | for every outcome sequence and limit there is exactly one such k |
| `Retry.MoreRetriesMatterIff` | src/cloud_agents/workflow/core/execution.py:303-312 | a higher limit changes k if and only if the last attempt allowed was still transient |
| `RateLimiter.TokenBucket.Allow` | src/cloud_agents/runtime/rate_limiter.py:62-98 | answers from the refilled bucket, takes a token if it grants one, and counts the call towards cleanup |
| `RateLimiter.TokenBucket.MaybeCleanup` | src/cloud_agents/runtime/rate_limiter.py:100-114 | prunes on every hundredth call and on no other |
| `RateLimiter.TokenBucket.CleanupStale` | src/cloud_agents/runtime/rate_limiter.py:116-127 | deletes exactly the stale buckets |
| `RateLimiter.PrunesEveryHundredth` | src/cloud_agents/runtime/rate_limiter.py:100-114 | of a run of calls every hundredth prunes, and no other |
| `RateLimiter.StaleIsSpent` | src/cloud_agents/runtime/rate_limiter.py:116-127 | a bucket old enough to be deleted would have refilled to the burst, or never grants |
| `RateLimiter.PruningIsInvisible` | src/cloud_agents/runtime/rate_limiter.py:76-127 | for every rate, burst and run of calls with a non-decreasing clock, the answers are those of a limiter that never deletes a bucket |
| `RateLimiter.AllowedIff` | src/cloud_agents/runtime/rate_limiter.py:62-127 | in every run with a non-decreasing clock, a call is allowed if and only if, counted from any call before it or from itself, its key has then been allowed no more than the burst plus the rate times the seconds since |
| `RateLimiter.WaitingEarns` | src/cloud_agents/runtime/rate_limiter.py:76-98 | in every such run a call that comes at least 1 / rate seconds after the last call for its key is allowed, if the burst is at least one |
| `RateLimiter.RateBound` | src/cloud_agents/runtime/rate_limiter.py:62-127 | in every window of every run a key is allowed at most the burst plus the rate times the seconds between the window's first and last call, across deletions and re-creations |
| `RateLimiter.BurstIsGranted` | src/cloud_agents/runtime/rate_limiter.py:76-98 | the bound is tight: of any number of calls at one instant a new key gets exactly the first burst |
| `Dedup.AlertDedupTracker.ShouldFire` | src/cloud_agents/workflow/triggers/alert_trigger.py:216-236 | prunes, then fires and records unless the kept entry is within the window |
| `Dedup.AlertDedupTracker.Prune` | src/cloud_agents/workflow/triggers/alert_trigger.py:238-247 | deletes exactly the entries older than two windows |
| `Dedup.PruningIsInvisible` | src/cloud_agents/workflow/triggers/alert_trigger.py:216-247 | for every window, also a negative one, and every run, the answers are those of a tracker that keeps every entry |
| `Dedup.FiresExactlyOncePerWindow` | src/cloud_agents/workflow/triggers/alert_trigger.py:216-236 | an alert fires if and only if its fingerprint has not fired within the window before it |
| `ProgressStream.SyncStream` | src/cloud_agents/spawner/openshell_spawner.py:1928-1979 | for every cut of the output into chunks, empty ones and mid-line cuts included, the queue holds the events of the newline-terminated lines of all bytes printed before the stream ended, in order, then its ending |
| `ProgressStream.TakeChunk` | src/cloud_agents/spawner/openshell_spawner.py:1948-1958 | one chunk completes lines and leaves the rest of the last one buffered |
| `ProgressStream.EndsInNewline` | src/cloud_agents/spawner/openshell_spawner.py:1952-1958 | data that ends in a newline leaves nothing to buffer |
| `ProgressStream.EventsOnlyGrow` | src/cloud_agents/spawner/openshell_spawner.py:1936-1972 | more output only adds events behind those already sent |
| `ProgressStream.LinesAreTheText` | src/cloud_agents/spawner/openshell_spawner.py:1950-1958 | joined by newlines, the lines and the remainder are the bytes, and none of them holds a newline |
| `Redact.RedactSecrets` | src/cloud_agents/workflow/security/redact.py:13-36 | replaces every non-empty secret once, none before a longer one, in some order of the set; leaves no secret that cannot overlap the placeholder, and a text without secrets as it is |
| `Redact.RedactInOrder` | src/cloud_agents/workflow/security/redact.py:28-36 | the loop, for the order it takes |
| `Redact.RedactedIsClean` | src/cloud_agents/workflow/security/redact.py:26-36 | no secret that cannot overlap the placeholder is left in any text, whatever the other secrets: later replacements never recreate it |
| `Redact.NeverSurvivesIff` | src/cloud_agents/workflow/security/redact.py:10-36 | for every secret, starred or not: it is left in no text, whatever the other secrets and their order, if and only if it cannot overlap the placeholder |
| `Redact.Planted` | src/cloud_agents/workflow/security/redact.py:33-36 | a secret that stands in some short surroundings of the placeholder survives in a text that another secret of its length turns into them |
| `Redact.CleanIff` | src/cloud_agents/workflow/security/redact.py:10-36 | for secrets without a star, no text keeps one if and only if none stands in the word REDACTED |
| `Redact.StarFreeIsClear` | src/cloud_agents/workflow/security/redact.py:10-36 | a secret without a star that is not in that word cannot overlap the placeholder |
| `Redact.StarredSecretSurvives` | src/cloud_agents/workflow/security/redact.py:33-36 | a set of secrets and a text for which a secret with a star appears only through the redaction |
| `Redact.CleanTextIsKept` | src/cloud_agents/workflow/security/redact.py:33-36 | a text without secrets is unchanged |
| `Conditions.EvaluateIsMeaning` | src/cloud_agents/workflow/core/conditions.py:19-44 | every text, well formed or not, evaluates to the short-circuit any/all of the atoms it is cut into, including which parse error comes out |
| `Conditions.RoundTripIff` | src/cloud_agents/workflow/core/conditions.py:32-44 | an or-of-ands of trimmed atoms that contain no separator when padded is read back from its printed text if and only if no end of a list of several is empty |
| `Text.StripIsMiddle` | src/cloud_agents/workflow/core/conditions.py:32-44 | stripping takes blanks off both ends and nothing else |
| `Text.BlankCharacters` | src/cloud_agents/workflow/core/conditions.py:32-44 | the 29 characters that stripping takes off |
| `ConditionMisreading.EvaluatesIff` | src/cloud_agents/workflow/core/conditions.py:32-44 | for every expression of plain atoms, its printed text evaluates to its meaning whatever the atoms mean, including which error comes out, if and only if no list of several starts empty, every atom that is read with a word glued to it is dead (an earlier conjunction consists of atoms before it), and a trailing empty conjunction was asked before |
| `ConditionMisreading.DistinctEvaluatesIff` | src/cloud_agents/workflow/core/conditions.py:32-44 | if no atom occurs twice, exactly the expressions that are read back evaluate to their meaning |
| `ConditionMisreading.UnsoundShows` | src/cloud_agents/workflow/core/conditions.py:32-44 | for every other expression some atoms for which the printed text evaluates differently |
| `ConditionMisreading.PrintedReadsLike` | src/cloud_agents/workflow/core/conditions.py:32-44 | how an expression whose lists do not start empty is read: conjunction by conjunction, up to the atoms with a glued word |
| `ConditionMisreading.MisreadUnnoticed` | src/cloud_agents/workflow/core/conditions.py:32-44 | an expression that is not read back and yet evaluates to its meaning |
| `ConditionGluing.ReadBack` | src/cloud_agents/workflow/core/conditions.py:32-44 | splitting a stripped text and stripping the parts gives back, up to blanks, every list it was joined from that has no blank end and no other place to cut |
| `Conditions.ReadIsFirm` | src/cloud_agents/workflow/core/conditions.py:32-44 | no text is cut into an expression with such an empty end |
| `Conditions.EmptyAtomIsEaten` | src/cloud_agents/workflow/core/conditions.py:32-44 | a printed conjunction with an empty first atom evaluates as another atom |
| `Interpolation.ResolvePath` | src/cloud_agents/workflow/core/interpolation.py:29-77 | the loop over segments walks to the value, or stops with the failure and the way walked so far |
| `Interpolation.JoinedPath` | src/cloud_agents/workflow/core/interpolation.py:29-77 | resolving p.q is resolving q inside the result of p; it fails exactly when either part does, with p's failure, or q's with the way to it prefixed |
| `Interpolation.ReachedIff` | src/cloud_agents/workflow/core/interpolation.py:29-77 | a path reaches a value if and only if the data is that value put, from the inside out, into the places that the segments name: under a key, or in a list there behind as many items as the index says |
| `Interpolation.Format` | src/cloud_agents/workflow/core/interpolation.py:108-128 | at most 10016 characters, between the data delimiters |
| `Interpolation.FormatRoundTrip` | src/cloud_agents/workflow/core/interpolation.py:80-128 | a value that is not cut is read back from between the delimiters |
| `Interpolation.ClosesOnceIff` | src/cloud_agents/workflow/core/interpolation.py:108-128 | the closing delimiter stands only at the end of an inserted value if and only if the dumped and possibly cut text holds none |
| `Interpolation.DelimiterCanBeInserted` | src/cloud_agents/workflow/core/interpolation.py:108-128 | a string value whose inserted text closes the data early |
| `Interpolation.Substitute` | src/cloud_agents/workflow/core/interpolation.py:160 | the left-to-right substitution loop renders the pieces of the template in order, up to the first failure |
| `Interpolation.PiecesPartition` | src/cloud_agents/workflow/core/interpolation.py:160 | the pieces that the scan cuts, placeholders where the pattern matches and single characters elsewhere, make up the template |
| `Interpolation.OnlyTemplateScanned` | src/cloud_agents/workflow/core/interpolation.py:148-160 | two patterns that match the template alike cut it alike, however they match any inserted text |
| `Interpolation.RenderedByPlace` | src/cloud_agents/workflow/core/interpolation.py:148-160 | each piece is rendered as the template says where it starts: a match by the replacement for the step and the path it names, anything else by its character |
| `Interpolation.Interpolate` | src/cloud_agents/workflow/core/interpolation.py:131-160 | the substitution with values from the state; the result is at most the template's length plus 10016 per placeholder |
| `Interpolation.ExpandIff` | src/cloud_agents/workflow/core/interpolation.py:148-160 | a placeholder is replaced if and only if its step has an output and the path leads somewhere in it (a single key always does), by a text from which the value is read back unless its dump is cut; otherwise the step is reported missing, or the path's failure |
| `Interpolation.InterpolatedLength` | src/cloud_agents/workflow/core/interpolation.py:131-160 | that bound, for every replacement of at most 10016 characters |
| `Interpolation.InsertedVerbatim` | src/cloud_agents/workflow/core/interpolation.py:148-160 | every piece of the template stands in the result as it was rendered, right behind what the pieces before it were rendered to |
| `Interpolation.FailsAtFirst` | src/cloud_agents/workflow/core/interpolation.py:148-160 | the substitution fails exactly when some placeholder does, with the failure of the first |
| `Interpolation.SimpleKeyAgreesIff` | src/cloud_agents/workflow/core/interpolation.py:154-157 | a single key and a path of one segment agree if and only if the key is there; a missing key is null for the one and a failure for the other |

## Left out

- HTTP, gRPC, SQL, TLS, telemetry and metrics code: the store and the gateway are maps, sets and sequences.
- Interleavings inside one runner operation: start, segment, approve and cancel are atomic, except that a segment may be cancelled at any node. A cancel overwrites any status, so that a terminal status is final is not claimed.
- Event payloads: events carry the step names and decisions only; trace parents, timestamps and message texts are not modelled.
- Definitions without steps, steps without a name, and an explicit null output key.
- Approval gates have no condition in the model because the local runner ignores theirs.
- Workflow.Persist: a node adds at most one new result, so a segment's store does not depend on the order in which `PersistNew` would store several.
- Chat messages with provider-given call ids: the builder handles them (`ChatHistory.Advance`), but saved turns never carry one, and HistoryIsAnswerable is about saved turns.
- ChatNames.HistoryIsChronological: rows are in order of creation, that is, creation times are distinct and increase.
- Lifetime.UseIsBounded: a task that ignored its cancellation and was abandoned is not counted as a use after control came back; gaps before the run, the fetch and the save include the second readiness check.
- Spawn.OpenShellSpawner.DoSpawn: cancellation during a spawn, a CreateSandbox that times out, imported provider profiles and the sets of server tasks are not modelled; deleting a sandbox at the gateway drops its attachments. JSON decoding and taking a url apart are parameters; environment values and names are texts that the gateway's message fields accept.
- Normal destroy, which detaches a provider and does not delete it.
- Chunking.ChunkingPreservesMeaning: of a run that stops it says only that the one-by-one run's results are among the chunked run's, since a group runs its later members too.
- Retry.RunWithRetries: which failure texts count as transient is a parameter; exceptions outside `Exception`, such as cancellation, are not modelled.
- The audit-event throttle of the rate limiting middleware.
- ProgressStream.SyncStream: UTF-8 decoding and JSON parsing are parameters, and parsing fails only as an invalid line; the thread and the consumer of the queue are not modelled.
- Conditions.Evaluate: what a single atom means (the pattern, lookups and comparisons) is a parameter.
- Interpolation.Resolve: the segment pattern is a parameter, and so is matching the placeholder pattern at a position; a match is assumed not to be empty and to lie inside the text. JSON numbers are integers.
- Redact.NeverSurvivesIff: quantifies over the other secrets; a given set can be clean although one of its secrets overlaps the placeholder, when another secret happens to remove it.
- Normalisation defaults, permission collapse, policies, validation messages, risk classification, circuit breaker, CLI sessions, notifiers, escalation, schedules, migrations: mostly single-branch facts.
