# ATEStudio, verified core

Models of the parts of ATEStudio whose correctness is not visible from one
function at a time, with proofs about every input, every run or every reachable
state. One module per component:

- `Options`, `Graphs`, `Plans`: optional values; paths, cycles and reachability;
  plan entries.
- `StepSort`, `PlanWiring`, `PlanImport`, `PlanExport`: a nested plan becomes
  nodes and edges in the editor, and comes out again, loop bodies included,
  through Kahn's algorithm.
- `DependencyCheck`: the editor's cycle check on the UI thread and through the
  worker's message channel, and every history of edits it guards.
- `TypeStrings`, `TypeTranslator`, `TranslatorProofs`: Python annotations printed
  to text and the text translated to TypeScript.
- `TokenRefresh`, `RefreshProtocol`: the 401 interceptor with its waiter queue,
  the rotating refresh tokens, and every interleaving of the two.
- `Batching`, `BatchTiming`: the batch buffer with its staged timer; when it hands
  over and what, told from the history of events.
- `ExecutionStatus`, `StatusHistory`: live step statuses through the buffer against
  the same events applied at once; what the screen shows, told from the history.
- `Topology`, `TopologyValidator`, `LinkCheck`: fixture wiring, the server's
  validator, and the editor's link check.
- `RelayContacts`, `FixtureLayout`: contact binding and matrix sizes; tier layout.
- `SseTickets`: one-time tickets in a store that purges as it goes.

Objects and module variables that the program updates in place are classes
(`CheckWorker`, `Interceptor`, `RefreshStore`, `BatchBuffer`, `Composable`,
`ValidationResult`, `TicketStore`); loops that fill local maps and lists are methods with loops. Each
method is tied to a function of its arguments or old state, and the results over
whole runs are lemmas about those functions. Clock readings, new ids and tokens,
dagre's coordinates, server verdicts and the moments at which callbacks run are
parameters or events.

## What was found on the way

- Sorting: the warning branch is taken exactly when a step is blocked: it depends,
  directly or not, on a missing step, on a cycle, or on a step that lists one
  precondition twice (the in-degree counts repeats, the release does not).
- Export: the comment on `buildPreconditionMap` says loop-back edges are skipped.
  Imported iteration edges carry `output-`/`input-` ports, so they are kept unless
  a node id itself contains the marker text (`PlanExport.ImportedKept`). A loop body
  of two steps or more therefore comes back with its first step listing its last:
  it warns exactly when its own preconditions are cyclic or lead from the first step
  to the last, and otherwise the last step is put before the first
  (`PlanExport.IterationEdgeCounts`; `TwoStepLoop` is the smallest case).
- Types: the translator is exact on the intended annotations if and only if no
  union both starts and ends with a bracketed generic; on a union of two lists it
  never ends (`TranslatorProofs.TranslationExactly`, `ListUnionNeverEnds`).
- Worker: a reply names no request, so a check posted while another is outstanding
  is told the older verdict. Its answer is right exactly when nothing was outstanding
  or the two verdicts agree (`DependencyCheck.ToldOldestVerdict`), and an edge that
  closes a cycle can be told that it does not (`CycleToldHarmless`).
- Containers: an accepted connection keeps the whole graph acyclic exactly unless it
  is exempt and its target reaches its source (`ConnectKeepsWholeExactly`).
- Relays: an accepted bind keeps terminals exclusive exactly when at most one relay
  has the id; an unbind or a resize also when it leaves nothing bound
  (`RelayContacts.EditExactly`).
- Tickets: purging shows in an answer exactly when an earlier clock reading had
  reached the expiry of a ticket that is used before it, so only when the clock goes
  back (`SseTickets.AgreeExactly`).
- Buffer: the comment says a flush is forced when the size exceeds the maximum; the
  code forces it on reaching the maximum, which is what is modelled.
- Wiring: the validator takes the first match of an endpoint, the editor the last
  entity with the id. They agree on accepted topologies exactly when no link end is
  shadowed by a later entity without the port (`LinkCheck.AcceptedHasNoProblemsIff`).

## Model

| member | source | states |
|---|---|---|
| `StepSort.TopologicalSort` | frontend/src/composables/useSerializer.ts:635-698 | With unique ids the result is a permutation that starts with the entries without preconditions in input order: first exactly the unblocked steps, each after all its preconditions, then the blocked ones in input order; the warning is given exactly when preconditions are cyclic, missing or listed twice. The step-only sort at lines 706-766 is the same loop |
| `StepSort.InDegrees` | frontend/src/composables/useSerializer.ts:639-649 | The in-degree of each step starts as the length of its precondition list, that of every other entry as 0, and each id is found again |
| `StepSort.InitialQueue` | frontend/src/composables/useSerializer.ts:651-659 | The queue starts with exactly the ids of in-degree 0 in input order, without repeats |
| `StepSort.Release` | frontend/src/composables/useSerializer.ts:668-678 | Counting off a placed step keeps every in-degree equal to the preconditions still open and the queue equal to the ready, unplaced steps; the waiting set shrinks or nothing is queued, so the loop ends |
| `StepSort.PlaceReady` | frontend/src/composables/useSerializer.ts:661-679 | When the queue runs dry everything placed stands after its preconditions, free entries first in input order, and nothing unplaced is ready |
| `StepSort.AppendRest` | frontend/src/composables/useSerializer.ts:681-697 | The leftover branch appends what was not placed, in input order, and is taken exactly when there is some |
| `StepSort.PlacedNotBlocked` | frontend/src/composables/useSerializer.ts:661-679 | No placed step depends, directly or not, on a cycle, a missing step or a repeated precondition |
| `StepSort.UnplacedBlocked` | frontend/src/composables/useSerializer.ts:681-695 | Every step left over does: backward search over waiting steps must end in such a cause |
| `StepSort.SortableUnblocked` | frontend/src/composables/useSerializer.ts:635-698 | If preconditions are acyclic, all listed and without repeats, no step is blocked |
| `StepSort.UnblockedSortable` | frontend/src/composables/useSerializer.ts:635-698 | If no step is blocked then preconditions are acyclic, all listed and without repeats |
| `PlanWiring.WirePreconditions` | frontend/src/composables/useSerializer.ts:257-270 | One default edge per listed precondition: the pairs are exactly the precondition relation and the count is that of the lists |
| `PlanWiring.WireSequence` | frontend/src/composables/useSerializer.ts:278-315 | Every edge is a precondition or joins neighbours of which the first is free of preconditions, and every such pair is joined, counting edges of loop bodies |
| `PlanWiring.WiringMeans` | frontend/src/composables/useSerializer.ts:256-315 | The wiring of a plan is exactly each step to the preconditions it names and each entry to the next unless it is a step that names some |
| `PlanWiring.BackAlongPlan` | frontend/src/composables/useSerializer.ts:278-315 | In wiring whose edges into unbound entries join neighbours, a path ending in an entry without preconditions runs along consecutive plan positions |
| `PlanWiring.WiringSubset` | frontend/src/composables/useSerializer.ts:256-315 | With unique ids any part of the wiring is acyclic if and only if the preconditions in that part are |
| `PlanWiring.WiringAcyclic` | frontend/src/composables/useSerializer.ts:256-315 | So the wired graph is acyclic if and only if the preconditions are |
| `PlanWiring.RepeatedIdCycle` | frontend/src/composables/useSerializer.ts:278-315 | An id used again after free entries closes a cycle in every plan, whatever the preconditions are |
| `PlanImport.SplitBody` | frontend/src/composables/useSerializer.ts:373-384 | Steps and loops of a body in order, and the preconditions its steps name |
| `PlanImport.PartsInOrder` | frontend/src/composables/useSerializer.ts:373-384 | The two parts hold all steps and all loops of the body, each in the order of the body |
| `PlanImport.BodyFollows` | frontend/src/composables/useSerializer.ts:373-387 | A body whose steps name only each other, none twice and without a cycle, is laid out along its precondition relation |
| `PlanImport.StepNodes` | frontend/src/composables/useSerializer.ts:394-416 | One step node per sorted step, in that order, and none besides |
| `PlanImport.ChildLoops` | frontend/src/composables/useSerializer.ts:419-453 | One node per loop followed by all nodes below it; fails exactly when a non-empty body lies too deep |
| `PlanImport.LoopBack` | frontend/src/composables/useSerializer.ts:470-486 | Bodies of two or more sorted steps get one edge from the last to the first, with ports of its own |
| `PlanImport.CreateChildNodes` | frontend/src/composables/useSerializer.ts:349-489 | Fails exactly when a non-empty body lies beyond the limit counted from this depth; else the nodes are one per step and loop at every depth, the steps first in execution order, and the edges are at every depth the precondition relation plus one iteration edge from the last sorted step to the first, all ending below the container |
| `PlanImport.NodesOfPermutation` | frontend/src/composables/useSerializer.ts:394-416 | Sorting a body loses and invents no node at any depth |
| `PlanImport.ImportNodes` | frontend/src/composables/useSerializer.ts:199-254 | One node per entry at every depth; child edges end strictly below the top level and wire every body |
| `PlanImport.ImportPlan` | frontend/src/composables/useSerializer.ts:182-337 | Rejected exactly when a non-empty loop body lies more than five loops deep; nodes are one per step and loop at every depth plus one for variables; top-level edges are exactly the wiring, acyclic if and only if the preconditions are; every loop body at every depth is wired by its preconditions and its iteration edge and by nothing else |
| `PlanExport.BuildPreconditionMap` | frontend/src/composables/useSerializer.ts:496-531 | For every edge list, a source is listed under a target, once, if and only if some edge from it to the target joins known nodes at ports without the marker and is not for the failed or skipped outcome |
| `PlanExport.FailedEdgeIgnored` | frontend/src/composables/useSerializer.ts:518-527 | Adding or removing a failed or skipped edge anywhere leaves every possible export of every level as it is, loop bodies included |
| `PlanExport.SameLists` | frontend/src/composables/useSerializer.ts:113-154 | Two exports of a level agree on the warning and on what each step lists |
| `PlanExport.ImportedKept` | frontend/src/composables/useSerializer.ts:476-514 | An imported edge, iteration edges included, survives the loop-back filter exactly when neither of its node ids contains the marker |
| `PlanExport.KeptOnCanvas` | frontend/src/composables/useSerializer.ts:496-531 | Of the edges an import leaves, exactly those between known nodes without the marker count as preconditions |
| `PlanExport.ExportLevel` | frontend/src/composables/useSerializer.ts:557-596 | A level becomes its steps and loops, loops recursively, steps with the preconditions collected between known nodes, sorted. The top level at lines 113-154 is the same with every node known |
| `PlanExport.LevelExported` | frontend/src/composables/useSerializer.ts:113-154 | Whatever the graph: an exported level holds the same steps and loops, each step lists exactly the sources of the edges that count, the warning is given exactly when those edges have a cycle or a source outside the level, and otherwise every edge points forward |
| `PlanExport.ResultLoops` | frontend/src/composables/useSerializer.ts:557-596 | Every loop of an exported level is the export of the children of its node, so the statements hold at every depth |
| `PlanExport.TopWiringAcyclic` | frontend/src/composables/useSerializer.ts:135-154 | The synthesised edges never cause the warning: the wiring that counts is acyclic if and only if the preconditions that count are |
| `PlanExport.ReExport` | frontend/src/composables/useSerializer.ts:113-154 | Import then export, top-level nodes read in any order, ids arbitrary: the same entries come out; every step lists exactly what it named and the free entry before it, as far as those ids and its own do not hold the marker; the warning is given exactly when the plan's own unmarked preconditions are cyclic or a top-level step names a node that is not at the top; otherwise every step follows everything it lists |
| `PlanExport.LoopReExported` | frontend/src/composables/useSerializer.ts:557-596 | Every loop body of an imported plan, at any depth, exported with its children in any order: it warns exactly when its unmarked preconditions and its iteration edge together have a cycle, and is otherwise ordered along both |
| `PlanExport.IterationEdgeCounts` | frontend/src/composables/useSerializer.ts:470-514 | With two sorted steps or more and unmarked ends, the first step comes to list the last; the sort warns exactly when the body's own preconditions are cyclic or the first step reaches the last, and otherwise puts the last before the first |
| `PlanExport.FreeLoopReordered` | frontend/src/composables/useSerializer.ts:470-514 | So every loop over two or more steps without preconditions comes back, without a warning, with its last step before its first |
| `PlanExport.TwoStepLoop` | frontend/src/composables/useSerializer.ts:470-514 | At an input: a loop over a and b comes back with b listed under a and put before it |
| `DependencyCheck.BuildAdjacency` | frontend/src/workers/dependencyCheck.worker.ts:25-37 | The adjacency lists hold exactly the edges with both ends attached that start at a node |
| `DependencyCheck.CanReach` | frontend/src/composables/useDependencyCheck.ts:152-180 | The stack search ends and answers true exactly when a path exists |
| `DependencyCheck.HasPath` | frontend/src/workers/dependencyCheck.worker.ts:43-78 | Returns a real path between the two nodes, or nothing exactly when there is none |
| `DependencyCheck.CheckCycle` | frontend/src/workers/dependencyCheck.worker.ts:84-98 | Reports a cycle exactly when the target reaches the source; the reported path runs over existing edges and is closed by the proposed one |
| `DependencyCheck.WouldCreateCycle` | frontend/src/composables/useDependencyCheck.ts:111-147 | True exactly when the pair is not exempt in its container and the target reaches the source |
| `DependencyCheck.SerializeEdges` | frontend/src/composables/useDependencyCheck.ts:55-66 | The edges posted to the worker are the attached ones in order, and show it the same graph |
| `DependencyCheck.CheckWorker.Start` | frontend/src/composables/useDependencyCheck.ts:301-327 | A check is answered at once, and rightly, exactly when the pair is exempt or there are at most 50 nodes; otherwise its request is posted and its handler waits |
| `DependencyCheck.CheckWorker.ReplyToOldest` | frontend/src/workers/dependencyCheck.worker.ts:84-98 | The verdict of the oldest request, whether its target reaches its source, goes to every waiting handler |
| `DependencyCheck.WouldCreateCycleAsync` | frontend/src/composables/useDependencyCheck.ts:301-327 | The routed check with its own reply awaited is right if and only if the pair is exempt, or there are at most 50 nodes, or no other request was outstanding, or the verdict of the oldest outstanding one is the same |
| `DependencyCheck.ToldOldestVerdict` | frontend/src/composables/useDependencyCheck.ts:78-101 | Whatever is posted after it, a check that goes to the worker is told the verdict of the oldest request outstanding: right if and only if there was none or the two agree |
| `DependencyCheck.CycleToldHarmless` | frontend/src/composables/useDependencyCheck.ts:78-101 | On an acyclic graph of more than 50 nodes an edge that closes a cycle is told that it does not |
| `DependencyCheck.ValidateConnection` | frontend/src/composables/useDependencyCheck.ts:256-273 | Accepts exactly the pairs of two different nodes that close no cycle outside the exemption |
| `DependencyCheck.GetDependencyChain` | frontend/src/composables/useDependencyCheck.ts:189-246 | Downstream exactly the nodes the start leads to, upstream exactly those that lead to it, the start excepted; on a graph whose edges join nodes the two mirror each other |
| `DependencyCheck.EditOutcome` | frontend/src/composables/useDependencyCheck.ts:256-273 | What each edit of a history leaves: connections are made exactly when accepted, removals take the edge, or the node with its edges, and nothing else |
| `DependencyCheck.EditKeepsOuter` | frontend/src/composables/useDependencyCheck.ts:111-147 | One accepted connection, removal or new node keeps the graph without intra-container edges acyclic |
| `DependencyCheck.HistoryKeepsOuter` | frontend/src/composables/useDependencyCheck.ts:39-49 | So does every history of edits |
| `DependencyCheck.ConnectKeepsWholeExactly` | frontend/src/composables/useDependencyCheck.ts:256-273 | An accepted connection keeps the whole graph acyclic if and only if it is not an exempt pair whose target reaches its source |
| `DependencyCheck.HistoryKeepsWhole` | frontend/src/composables/useDependencyCheck.ts:256-273 | With no container argument every history keeps the whole graph acyclic |
| `DependencyCheck.ContainerAllowsCycle` | frontend/src/composables/useDependencyCheck.ts:39-49 | With one it need not: two accepted edges inside a container close a cycle |
| `TypeStrings.SplitLoop` | scripts/generate_dsl_types.py:88-129 | Both splitters compute the cut function |
| `TypeStrings.CutRejoins` | scripts/generate_dsl_types.py:88-129 | Gluing the parts gives the input back, up to one trailing separator |
| `TypeStrings.CutAtDepthZero` | scripts/generate_dsl_types.py:88-129 | No part holds a separator at depth zero and all but the last are balanced, for every input |
| `TypeStrings.SplitTwo` | scripts/generate_dsl_types.py:110-129 | Splitting undoes joining after any part that holds no separator at depth zero |
| `TypeTranslator.PrintShape` | scripts/generate_dsl_types.py:132-154 | Printed annotations are trimmed and balanced, hold no comma at depth zero, no bar unless they are unions, and end in a bracket exactly when their last member is a generic |
| `TranslatorProofs.NamesTranslate` | scripts/generate_dsl_types.py:22-51 | Every name: the seven built-in ones become string, number, number, boolean, unknown, null and null, a known enum its name with Value appended, any other name itself, dotted names with their parts joined by dots |
| `TranslatorProofs.OddDict` | scripts/generate_dsl_types.py:60-69 | A dict without exactly two arguments becomes a record of strings to anything |
| `TranslatorProofs.Exact` | scripts/generate_dsl_types.py:36-154 | Without a misread union, printing then translating ends within the annotation's height and gives its compositional translation |
| `TranslatorProofs.Bounded` | scripts/generate_dsl_types.py:36-85 | On any string at all, if translation ends its output has at most as many bars and generic brackets as the input |
| `TranslatorProofs.CrossedLoses` | scripts/generate_dsl_types.py:36-85 | Text with a bar below depth zero loses structure whenever its translation ends |
| `TranslatorProofs.DirectWeight` | scripts/generate_dsl_types.py:36-85 | The compositional translation keeps all structure |
| `TranslatorProofs.MisreadNeverExact` | scripts/generate_dsl_types.py:55-82 | With a misread union anywhere the result, if there is one at any recursion depth, has lost structure |
| `TranslatorProofs.TranslationExactly` | scripts/generate_dsl_types.py:36-154 | For every annotation of the grammar: print-then-translate equals the compositional translation, which has a table of names of its own, if and only if no union both starts and ends with a bracketed generic |
| `TranslatorProofs.NeverEnds` | scripts/generate_dsl_types.py:78-82 | Text that is its own only part recurses at every depth |
| `TranslatorProofs.ListUnionNeverEnds` | scripts/generate_dsl_types.py:72-82 | The union of any two lists of names never translates |
| `TokenRefresh.Interceptor.NotifySubscribers` | frontend/src/api/interceptor.ts:17-20 | Every waiter is resumed, or rejected when there is no token, no other request changes, and the list is empty afterwards |
| `TokenRefresh.Interceptor.HandleUnauthorized` | frontend/src/api/interceptor.ts:53-77 | The 401 step of every run below; a refresh is posted with the stored token exactly by a request not retried before, with a token, while none is in flight |
| `TokenRefresh.Interceptor.HandleRefreshed` | frontend/src/api/interceptor.ts:79-88 | New tokens stored, waiters released with the outcome, leader resent, flag cleared |
| `TokenRefresh.Interceptor.HandleRefreshFailed` | frontend/src/api/interceptor.ts:89-95 | Waiters and leader rejected, session dropped, flag cleared |
| `RefreshProtocol.StepKeeps` | frontend/src/api/interceptor.ts:50-100 | Every event keeps the single-flight, counting and token invariants |
| `RefreshProtocol.ServeRotates` | src/ate_cloud/auth/jwt.py:162-184 | Consuming the presented token and storing its successor keeps the rotation invariant: stored tokens stand for their owners, were never served, and the client's token is stored and unpresented unless a refresh is under way |
| `RefreshProtocol.UnauthorizedOutcome` | frontend/src/api/interceptor.ts:53-77 | In every run a 401 rejects its request exactly when it was retried before or no refresh token is stored (which drops the session); otherwise the request joins the end of the queue exactly while a refresh is under way, and else leads one with the stored token, which is then presented; no other request is touched |
| `RefreshProtocol.QueuedThenSettled` | frontend/src/api/interceptor.ts:63-96 | Whatever happens meanwhile, a request that met a 401 during a refresh is sent again when that refresh delivers an access token and rejected when it delivers none or is lost |
| `RefreshProtocol.ReplyOutcome` | frontend/src/api/interceptor.ts:50-53 | In every run a success resolves its request, another failure rejects it, and nothing else changes |
| `RefreshProtocol.ServeOutcome` | src/ate_cloud/api/v1/auth.py:134-186 | In every run the token of a posted refresh is spent, and its user gets a new one stored and sent exactly when active |
| `RefreshProtocol.SettledSession` | frontend/src/api/interceptor.ts:83-96 | Delivered tokens are stored as they came, a lost refresh drops both, and no call or waiter is left |
| `RefreshProtocol.SessionOutcome` | frontend/src/api/interceptor.ts:26-29 | A login stores its tokens and a logout drops them, and neither touches a request or a refresh under way |
| `RefreshProtocol.OneRefreshAtATime` | frontend/src/api/interceptor.ts:50-100 | In every run at most one refresh is in flight, the queue is empty when none is, and every queued request was released exactly once unless it still waits |
| `RefreshProtocol.SettlingReleasesAll` | frontend/src/api/interceptor.ts:79-96 | When a refresh settles every waiter and the leader get its outcome and no other request is touched |
| `RefreshProtocol.NoneForgotten` | frontend/src/api/interceptor.ts:50-100 | With nothing on the wire every request has been resolved or rejected |
| `RefreshProtocol.Bounds` | frontend/src/api/interceptor.ts:53-96 | N requests cause at most N refreshes and N + N*N sends |
| `RefreshProtocol.Terminates` | frontend/src/api/interceptor.ts:53-96 | A run over N requests takes at most N*N + 4*N steps apart from logins and logouts |
| `RefreshProtocol.RotationNeverReused` | src/ate_cloud/auth/jwt.py:96-184 | In every run each refresh token is presented at most once, and consuming it in the store answers the user it was issued to: for every token served so far and for the one under way |
| `Batching.BatchBuffer.constructor` | frontend/src/composables/batchBuffer.ts:99-114 | A new buffer is empty, idle and live, with zero statistics |
| `Batching.BatchBuffer.Push` | frontend/src/composables/batchBuffer.ts:127-146 | The next state and the batch handed over, if any, are those of the push event |
| `Batching.BatchBuffer.Flush` | frontend/src/composables/batchBuffer.ts:158-187 | Hands over the whole buffer and clears it with its timer; nothing when empty or destroyed |
| `Batching.BatchBuffer.DestroyBuffer` | frontend/src/composables/batchBuffer.ts:193-197 | The last data is handed over once and later calls do nothing |
| `Batching.BatchBuffer.ScheduleFlush` | frontend/src/composables/batchBuffer.ts:211-215 | A live buffer gets its first frame callback |
| `Batching.BatchBuffer.FireTimer` | frontend/src/composables/batchBuffer.ts:211-245 | The three stages of the pending callback |
| `Batching.Reachable` | frontend/src/composables/batchBuffer.ts:127-257 | In every reachable state a callback is pending exactly while something is buffered, and the size is below the maximum |
| `Batching.RunKeeps` | frontend/src/composables/batchBuffer.ts:127-257 | Every run keeps that invariant, with empty buffers after destruction and published statistics in step |
| `Batching.AverageCountsEntries` | frontend/src/composables/batchBuffer.ts:168-179 | In every reachable state average times flush count is the number of entries handed over |
| `Batching.Conserved` | frontend/src/composables/batchBuffer.ts:127-187 | For every run from any state, the batches received in order and overlaid with the buffer equal applying each accepted push at once |
| `Batching.UpToDate` | frontend/src/composables/batchBuffer.ts:158-187 | So the receiver is up to date whenever the buffer is empty |
| `Batching.FirstDelivery` | frontend/src/composables/batchBuffer.ts:211-245 | From any non-empty buffer the first batch comes no later than the last stage of its timer and is the buffer merged with the pushes up to then |
| `Batching.PushIsDelivered` | frontend/src/composables/batchBuffer.ts:127-245 | Every accepted push is in the next batch, handed over within three firings whatever else happens |
| `BatchTiming.CallbackDelivers` | frontend/src/composables/batchBuffer.ts:211-245 | In every run a callback hands over the whole buffer if and only if windowMs has passed since the push that opened the window or two callbacks have run since, and else nothing |
| `BatchTiming.CallDelivers` | frontend/src/composables/batchBuffer.ts:127-197 | In every run a push hands over if and only if it brings the number of nodes to the maximum, a flush or destruction if and only if something is buffered |
| `BatchTiming.LatestWins` | frontend/src/composables/batchBuffer.ts:127-132 | Key by key the receiver ends up with the value of the last push that named it before the destruction |
| `BatchTiming.ReceivedCounts` | frontend/src/composables/batchBuffer.ts:128-134 | The received count is the number of pushes before the destruction |
| `BatchTiming.PublishedWithBatch` | frontend/src/composables/batchBuffer.ts:168-179 | Statistics are published with each batch and at no other time |
| `ExecutionStatus.Composable.constructor` | frontend/src/composables/useExecutionStatus.ts:121-174 | A blank screen over a new buffer |
| `ExecutionStatus.Composable.OnFlush` | frontend/src/composables/useExecutionStatus.ts:164-172 | Every entry with a status is written and nothing else changes |
| `ExecutionStatus.Composable.OnMessage` | frontend/src/composables/useExecutionStatus.ts:248-281 | Routes by category, inferred when missing, to the next tracker state |
| `ExecutionStatus.Composable.HandleEventCategory` | frontend/src/composables/useExecutionStatus.ts:286-337 | Start, completion, pause and step events: phase, counters, wiping and the pushed status |
| `ExecutionStatus.Composable.ReadStepEvent` | frontend/src/composables/useExecutionStatus.ts:314-332 | The status and completion count of the step events in the histories of `StatusHistory` |
| `ExecutionStatus.Composable.HandleAlarmCategory` | frontend/src/composables/useExecutionStatus.ts:350-359 | The latest alarm, and an error status for a timed-out step |
| `ExecutionStatus.Composable.OnRunChange` | frontend/src/composables/useExecutionStatus.ts:372-396 | Another run flushes and clears; no run flushes only |
| `ExecutionStatus.Composable.ResetAll` | frontend/src/composables/useExecutionStatus.ts:409-422 | Flushes, then clears everything |
| `ExecutionStatus.Composable.OnBeforeUnmount` | frontend/src/composables/useExecutionStatus.ts:425-428 | Pending updates are written and the buffer is closed |
| `ExecutionStatus.StepAgrees` | frontend/src/composables/useExecutionStatus.ts:286-428 | One input moves the overlaid screen as it moves the screen without a buffer |
| `ExecutionStatus.BufferedIsDirect` | frontend/src/composables/useExecutionStatus.ts:163-174 | For every sequence of inputs with flushes anywhere, statuses overlaid with the pending buffer, and all other fields, equal those of direct application |
| `ExecutionStatus.SameWhenFlushed` | frontend/src/composables/useExecutionStatus.ts:163-174 | Whenever nothing is pending the two screens are the same |
| `ExecutionStatus.SettlesInThreeTicks` | frontend/src/composables/batchBuffer.ts:211-245 | Which is so after three callbacks from any reachable state |
| `ExecutionStatus.NothingStale` | frontend/src/composables/useExecutionStatus.ts:288-422 | After a start, a change to another run or a reset no earlier status is shown or pending |
| `StatusHistory.ShowsLastReport` | frontend/src/composables/useExecutionStatus.ts:286-359 | For every history and step: once the callbacks have run, a status is shown if and only if it is that of the last report on the step, on a screen live then and not started over since; running, failed and skipped by event type, completed and changed events by their word in any case, a timeout alarm as an error |
| `StatusHistory.ReportIsShown` | frontend/src/composables/useExecutionStatus.ts:314-336 | So a report on a live screen is shown three callbacks later |
| `StatusHistory.ScreenRecalls` | frontend/src/composables/useExecutionStatus.ts:286-422 | In every history the completion count is the number of completing events since the last start-over, and phase, alarm, measurements and total are those of the last input that set them |
| `StatusHistory.EndFlushes` | frontend/src/composables/useExecutionStatus.ts:389-428 | When the run id is cleared or the component goes away, everything reported is shown at once |
| `StatusHistory.PendingLimits` | frontend/src/composables/useExecutionStatus.ts:163-174 | Fewer than 200 steps are pending at any time, and a callback shows them exactly when 50 ms have passed since the first or it is the third |
| `TopologyValidator.InstrumentPort` | src/shared/fixture_topology.py:1054-1059 | Found exactly when some instrument with the id has a channel with the port id |
| `TopologyValidator.FirstInstrument` | src/shared/fixture_topology.py:1054-1059 | An instrument channel resolves to that of the first instrument with the id that has the port |
| `TopologyValidator.FirstFixture` | src/shared/fixture_topology.py:1060-1065 | A fixture terminal resolves to that of the first fixture with the id that has the port |
| `TopologyValidator.FirstDut` | src/shared/fixture_topology.py:1066-1071 | A test point resolves to that of the first DUT with the id that has the port |
| `TopologyValidator.FirstChannel` | src/shared/fixture_topology.py:1054-1065 | Within an entity the first channel or terminal with the id gives type, direction and specs |
| `TopologyValidator.FirstPoint` | src/shared/fixture_topology.py:1066-1071 | Within a DUT the first test point with the id gives the type, and there is no direction |
| `TopologyValidator.CheckPortTypeMatch` | src/shared/fixture_topology.py:774-803 | Reports exactly the ends whose type the link's signal does not allow, on links that resolve |
| `TopologyValidator.CheckSignalDirection` | src/shared/fixture_topology.py:805-845 | Reports exactly the unresolved ends, sources that are no outputs and targets that are no inputs |
| `TopologyValidator.TargetCounts` | src/shared/fixture_topology.py:851-854 | The ids of the links to each target, in order |
| `TopologyValidator.LinksInOrder` | src/shared/fixture_topology.py:851-854 | The ids listed for a port are those of all links to it, in the order of the links |
| `TopologyValidator.CheckShortCircuitConflict` | src/shared/fixture_topology.py:847-863 | Reports exactly the targets of two or more links, with all of them |
| `TopologyValidator.ChannelTargets` | src/shared/fixture_topology.py:884-893 | The distinct test points each channel is wired to |
| `TopologyValidator.CheckChannelOccupancy` | src/shared/fixture_topology.py:882-912 | Reports exactly the channels wired to several test points with no routed link from the channel |
| `TopologyValidator.RoutesById` | src/shared/fixture_topology.py:916-916 | The last route with each id |
| `TopologyValidator.CheckRouteReachable` | src/shared/fixture_topology.py:914-948 | Reports exactly the missing relays, missing routes and links their route does not list |
| `TopologyValidator.CheckFixtureControl` | src/shared/fixture_topology.py:950-968 | Reports exactly the relays and actuators without control |
| `TopologyValidator.CheckGpibConflict` | src/shared/fixture_topology.py:1010-1025 | Reports every later instrument on a used address against the first holder |
| `TopologyValidator.CheckGroundIntegrity` | src/shared/fixture_topology.py:865-880 | Warns exactly when there is a power link and no ground link |
| `TopologyValidator.CheckDutCoverage` | src/shared/fixture_topology.py:970-988 | Warns of exactly the test points with an expected range that no link ends at |
| `TopologyValidator.CheckPowerCapacity` | src/shared/fixture_topology.py:990-1008 | Warns of exactly the power links above the rated current of their channel |
| `TopologyValidator.ValidationResult.Add` | src/shared/fixture_topology.py:1031-1045 | Files an issue under the level in force and leaves the other list alone |
| `TopologyValidator.NoViolations` | src/shared/fixture_topology.py:733-1025 | The blocking checks find nothing if and only if the topology is well formed, stated with none of their tables or helpers: links run from ports that can drive to ports that can listen, each of a type that carries the signal, targets are not shared, split channels are switched, routes and relays fit, controls are present, addresses differ |
| `TopologyValidator.Validate` | src/shared/fixture_topology.py:733-754 | In error mode there is no error exactly for well-formed topologies, the errors are exactly the violations and the warnings the cautions; in warning mode there is never an error |
| `TopologyValidator.NeverLinked` | src/shared/fixture_topology.py:760-772 | A well-formed topology has no air link, no link starting at a test point and no relay contact at either end |
| `LinkCheck.ValidateTopologyLinks` | frontend/src/utils/topologySimulation.ts:129-199 | The problems are exactly those of the ends whose entity does not exist or whose last entity with the id lacks the port, told link by link and start before end; none exactly when both ends of every link are found |
| `LinkCheck.CheckEnd` | frontend/src/utils/topologySimulation.ts:141-192 | At most one problem per end: unknown entity, else unknown port; of a relay contact only the relay counts |
| `LinkCheck.SameEndpoints` | frontend/src/utils/topologySimulation.ts:141-192 | With unique ids the editor's and the validator's look-up differ on existing relay contacts alone |
| `LinkCheck.AcceptedHasNoProblems` | src/shared/fixture_topology.py:805-845 | With unique ids a topology the validator accepts has no link problem |
| `LinkCheck.AcceptedHasNoProblemsIff` | src/shared/fixture_topology.py:1047-1072 | In general that holds exactly when no link end is shadowed by a later entity with the same id |
| `LinkCheck.RepeatedIdDisagrees` | frontend/src/utils/topologySimulation.ts:132-136 | A topology with a repeated instrument id is accepted and still has a problem |
| `LinkCheck.RelayContactDisagrees` | frontend/src/utils/topologySimulation.ts:185-190 | A topology without problems is rejected because of a relay contact |
| `RelayContacts.FindOccupant` | frontend/src/utils/relayContacts.ts:126-139 | Finds another contact that holds the terminal exactly when there is one, on the first relay that has one |
| `RelayContacts.ApplyBind` | frontend/src/utils/relayContacts.ts:169-183 | Refused exactly when no terminal is given or another contact holds it; otherwise that contact of the relay with the id holds it and nothing else changes: not its other contacts or fields, not another relay (of several with the id each takes the contacts of the first) |
| `RelayContacts.UnbindClears` | frontend/src/utils/relayContacts.ts:186-190 | That contact is emptied and nothing else changes |
| `RelayContacts.ToggleFlips` | frontend/src/utils/relayContacts.ts:193-197 | The state of the relay with the id flips and nothing else changes, so two toggles cancel |
| `RelayContacts.UnbindUndoesBind` | frontend/src/utils/relayContacts.ts:169-190 | Unbinding undoes the bind of a contact that held nothing |
| `RelayContacts.WithContactsKeeps` | frontend/src/utils/relayContacts.ts:200-206 | Replacing the contacts of a relay whose id is its own by old bindings and at most one free terminal keeps terminals exclusive |
| `RelayContacts.WithContactsExactly` | frontend/src/utils/relayContacts.ts:200-206 | In general it does so if and only if at most one relay has the id or the new contacts bind nothing |
| `RelayContacts.BindExactly` | frontend/src/utils/relayContacts.ts:147-183 | An accepted bind keeps terminals exclusive if and only if at most one relay has the id |
| `RelayContacts.EditExactly` | frontend/src/utils/relayContacts.ts:126-225 | Any edit of any relays keeps terminals exclusive if and only if it is a refused bind, a toggle, an edit of an id that at most one relay has, or an unbind or resize whose new contacts bind nothing |
| `RelayContacts.StaysExclusiveExactly` | frontend/src/utils/relayContacts.ts:126-225 | Over every sequence of edits, ids repeated or not, terminals stay exclusive throughout if and only if every edit meets that condition where it is made |
| `RelayContacts.AlwaysExclusive` | frontend/src/utils/relayContacts.ts:126-225 | So with unique ids no terminal is held by two contacts after any sequence of edits |
| `RelayContacts.UnboundIsExclusive` | frontend/src/utils/relayContacts.ts:126-139 | Relays without bindings are a valid start |
| `RelayContacts.RepeatedIdBindsTwice` | frontend/src/utils/relayContacts.ts:169-183 | With two relays of one id a single bind takes a terminal twice |
| `RelayContacts.DecimalRoundTrip` | frontend/src/utils/relayContacts.ts:57-59 | Reading a printed number gives it back |
| `RelayContacts.CellsAreNamed` | frontend/src/utils/relayContacts.ts:57-59 | The format of cell names, at two cells |
| `RelayContacts.CellRoundTrip` | frontend/src/utils/relayContacts.ts:57-75 | The cell name pattern reads back the row and column a name was made from |
| `RelayContacts.MatrixSize` | frontend/src/utils/relayContacts.ts:62-75 | The largest row and column among cell names, or 2 by 2 |
| `RelayContacts.ResizeMatrixContacts` | frontend/src/utils/relayContacts.ts:211-225 | Exactly the cells of the new grid; a cell that was there keeps its binding and a new one is unbound |
| `RelayContacts.SizeRoundTrip` | frontend/src/utils/relayContacts.ts:62-75 | Measuring a resized grid gives its size back for all rows and columns of at least 1, and 2 by 2 otherwise |
| `RelayContacts.ContactNamesForType` | frontend/src/utils/relayContacts.ts:47-99 | For a matrix the cells of its measured size row by row; else the listed names of an spdt or dpdt relay, and those of spst for any other type |
| `RelayContacts.GridListed` | frontend/src/utils/relayContacts.ts:84-93 | Going row by row lists every cell of the grid exactly once |
| `RelayContacts.NamesAreKeys` | frontend/src/utils/relayContacts.ts:80-99 | The names listed for a resized matrix are exactly its keys without repeats, and bindings in range are those from before |
| `FixtureLayout.RankEdges` | frontend/src/utils/fixtureLayout.ts:82-94 | For any links the edges handed to dagre are the cross-tier ones turned downward, and form an acyclic graph |
| `FixtureLayout.EdgesRunDown` | frontend/src/utils/fixtureLayout.ts:82-94 | With unique ids dagre gets an edge between two nodes exactly when they are linked, whichever way, and the first is in a higher band |
| `FixtureLayout.Sorted` | frontend/src/utils/fixtureLayout.ts:106-110 | The row is ordered by dagre's x and then by input order |
| `FixtureLayout.SortedPermutes` | frontend/src/utils/fixtureLayout.ts:106-110 | It is a permutation of the tier, repeated nodes included |
| `FixtureLayout.PlaceRow` | frontend/src/utils/fixtureLayout.ts:112-116 | Each box of the row stands where the widths and gaps before it end; nothing else moves |
| `FixtureLayout.NextBandY` | frontend/src/utils/fixtureLayout.ts:118-119 | The next band starts below the tallest box of this one, or at the same place for an empty tier |
| `FixtureLayout.ComputeFixtureTierLayout` | frontend/src/utils/fixtureLayout.ts:64-123 | Every node gets a position; with unique ids the rows are packed in order, and with non-negative sizes and gaps a box that dagre puts further left, or in the same place and earlier in the input, stands left of the other with the gap between, and bands are stacked instrument, fixture, DUT |
| `FixtureLayout.RowsArePacked` | frontend/src/utils/fixtureLayout.ts:112-116 | Each row starts at the origin's x and each box exactly where the one before it and the gap end |
| `FixtureLayout.BandsArePacked` | frontend/src/utils/fixtureLayout.ts:97-119 | The first band starts at the origin's y and each band exactly where the tallest box of the one before it and the gap end |
| `FixtureLayout.DefaultGaps` | frontend/src/utils/fixtureLayout.ts:69-71 | Without options the block starts at (40, 40) with gaps of 60 and 80 |
| `FixtureLayout.NoOverlap` | frontend/src/utils/fixtureLayout.ts:97-120 | No two boxes of such a layout overlap |
| `SseTickets.TicketStore.PurgeExpired` | src/ate_cloud/auth/sse_ticket.py:52-56 | Exactly the entries that have expired are gone |
| `SseTickets.TicketStore.IssueTicket` | src/ate_cloud/auth/sse_ticket.py:59-74 | Purges, then stores the ticket for its user until its expiry: the issue step of every history below |
| `SseTickets.TicketStore.ConsumeTicket` | src/ate_cloud/auth/sse_ticket.py:77-99 | The consume step: the user of a stored ticket that has not expired, and the ticket is gone whatever the answer |
| `SseTickets.AnswerExactly` | src/ate_cloud/auth/sse_ticket.py:52-99 | Whatever the clock does, a ticket held since its issue answers its user if and only if neither this reading nor any since the issue has reached its expiry |
| `SseTickets.SixtySeconds` | src/ate_cloud/auth/sse_ticket.py:43-74 | A ticket of the default lifetime is good for sixty seconds |
| `SseTickets.AgreeExactly` | src/ate_cloud/auth/sse_ticket.py:52-99 | In every history an answer equals that of a store that never purges if and only if no reading between issue and use had reached an expiry that the use comes before; `PurgingIsInvisible` draws this for a clock that does not go back |
| `SseTickets.ClockGoesBack` | src/ate_cloud/auth/sse_ticket.py:52-56 | At an input with a clock that goes back the two differ |
| `SseTickets.SuccessMeansValid` | src/ate_cloud/auth/sse_ticket.py:77-99 | A ticket succeeds only for the user it was issued to, before its expiry, unused since its issue and not dropped by a reset |
| `SseTickets.SingleUse` | src/ate_cloud/auth/sse_ticket.py:77-99 | With fresh tickets none succeeds twice, whatever the clock does |
| `SseTickets.ResetForgets` | src/ate_cloud/auth/sse_ticket.py:102-105 | With fresh tickets none issued before a reset succeeds after it |

## Left out

- X6, dagre, YAML parsing, node coordinates and shapes, and the detection of parents by bounding box: foreign libraries and geometry.
- Other fields of steps and loops (parameters, timeouts, retry, resources, loop modes): carried or dropped one by one, nothing to prove beyond that.
- `PlanExport.ReExport`: takes the top-level nodes as given, since which nodes lie in a container is decided by geometry.
- `PlanExport.LoopReExported`: takes the children of a container as given, for the same reason.
- `PlanExport.ExportLevel`: does not model a step or loop renamed in the property panel, whose `stepId` or `loopId` differs from its node id; an import leaves the two equal.
- Annotations that print through `ast.unparse`, constants other than None, and Unicode white space in `strip`: outside the modelled grammar.
- `TranslatorProofs.TranslationExactly`: recursion is modelled by a depth that runs out, so "never ends" reads as no result at any depth.
- JWT signing and claims, user look-ups, redirects, and what the server does with a refresh call after the client gave it up; several browser tabs sharing one storage; a refresh answer without tokens, which the browser stores as text.
- Errors thrown by the flush callback, pushes from inside it, and the error fallback of the worker.
- Connection status, persisted event ids and progress text of `useExecutionStatus`: display state. Lower-casing covers what the compared words need.
- `TopologyValidator.Validate`: does not state the order of the issues in the lists nor the wording of messages.
- `RelayContacts.FindOccupant`: does not state which contact of that first relay is found when several hold the terminal, because object keys are visited in some order.
- `FixtureLayout.ComputeFixtureTierLayout`: coordinates are real numbers, not floating point.
- `deriveGpibGateways`, `deriveTcpDevices`, `createRelay`, adding and removing relays, role tables, views, stores, API clients, migrations, scheduler and executor: would only add easy members, or are I/O.
