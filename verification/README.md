# Verified model of the repository's scripts

This project models the logic of seven programs in the repository and proves what they are for.
Run `dafny verify dfyconfig.toml` in this directory to check everything.

| file | what it models |
|---|---|
| `Utils.dfy` | options, minimum and maximum, sequences without duplicates, decimal numbers and reading them back |
| `Graphs.dfy`, `Components.dfy`, `Tarjan.dfy` | Tarjan's search for strongly connected components, with its index, low links, stack and recursion, proved to output the condensation of the graph |
| `FeedbackArcs.dfy` | the Eades-Lin-Smyth greedy order and the feedback arc set read off it |
| `CycleReport.dfy`, `CycleBreaking.dfy` | the dependency graph of the module table, the cycle report, the edges to cut or invert, and the eviction claim |
| `Octets.dfy`, `Frames.dfy`, `RequestLoop.dfy` | the WebSocket codec (RFC 6455, sections 5.2, 5.3 and 5.5) and the loop that turns frames into requests |
| `Gateway.dfy`, `GatewayLaws.dfy`, `GatewayServer.dfy` | connections sharing one `GatewayState`, interleaved at every `await`; what each client is told and owed; the server that runs them |
| `Campaign.dfy`, `CampaignHistory.dfy` | the resumable benchmark campaign: single invocations, and any sequence of them, also when some are cut short |
| `FitGeometry.dfy` | fit zoom, centred rectangle and centred scroll |
| `QueryResponder.dfy` | the terminal query responder, on whole streams and on streams cut into chunks |
| `PanicBudget.dfy` | the `#[cfg(test)]` scanner, the counts and the ratchet |
| `SidePanel.dfy` | replaying side-panel calls into a sorted snapshot |

How the source is read:

- Orders that the source takes from sorting or from a hash table (successors, remaining vertices, finished
  jobs, hash-map values) are arbitrary choices here, so every result holds for the source's order too. The tie-break of
  the greedy pick is arbitrary as well.
- Code that updates variables step by step is a method with loops and, where the variables are shared, a class.
  Each such method is proved against a function or predicate, and the theorems are about that.
- The file system, subprocesses and JSON are parameters: `Campaign.World` and `SidePanel.World` are arbitrary
  functions, and a gateway request is an already decoded value.
- `hide` statements in proofs only keep the solver from unfolding definitions that a step does not need.

What turned out to be conditional, with the exact condition proved:

- A control frame (such as the pong that echoes a ping) reads back as itself if and only if its payload has at most 125
  bytes; the encoder does not enforce this (`Frames.ControlFrameRoundTripIff`).
- `read_frame` documents "None on EOF/close". It returns None if and only if fewer than two bytes are left
  (`Frames.EofIffNoHeader`), and it raises if and only if what is left is a proper beginning of some frame with at least
  its two-byte header (`Frames.IncompleteIffTruncated`). A ping of 256 bytes or more cannot be echoed and ends the
  connection (`RequestLoop.GoesOn`).
- A campaign invocation that reports success without `--continue-on-failure` leaves a requested benchmark completed if
  and only if its name is not empty and it was completed before, or no earlier job was adopted for it, or the adopted
  job has a mean reward (`Campaign.CampaignDir.Invoke`). Over all job directories, adoption completes a benchmark if and
  only if its name is not empty and at least one attempt is asked for (`Campaign.AdoptionCompletesIff`);
  `Campaign.AdoptedWithoutRewards` shows the failure with zero attempts.
- A module leaves its cycle if and only if each of its edges into the rest of the cycle is cut or inverted
  (`CycleReport.EvictedIffAllReworked`).
- With positive font sizes the fit zoom is the smaller axis zoom if and only if no size is zero, or each axis whose sizes
  are known fits its pane at full size (`FitGeometry.FitZoomIsMinOfAxesIff`). It is so for all positive sizes if and only
  if both font sizes are positive (`FitGeometry.AxesAgreeIffFontsPositive`).
- The query responder answers exactly the queries asked and leaves exactly the text around them if and only if that text
  by itself, put together, holds no query (`QueryResponder.StreamAnsweredIff`). `QueryResponder.StrayEscapeIsSpliced`
  is a text that does. That the cut into chunks does not matter holds of every stream.
- A braced block after `#[cfg(test)]` is cut out whole if and only if its first line matches the item pattern and leaves
  a brace open (`PanicBudget.BlockVanishesIff`). An `impl` or an `async fn` does not match, a signature over several
  lines opens no brace; then everything after that line counts as production code (`PanicBudget.OpenLineLeaks`). Adding
  or removing a block that is cut out changes no count if and only if no line between its attribute and its item holds a
  use (`PanicBudget.TestBlockCountsNothingIff`).
- The policy is that no count may increase. Passing checks alone do not ensure that
  (`PanicBudget.ChecksAloneLetCountsGrowBack`): the baseline moves only with `--update`, which is unconditional. Over any
  sequence of checks and updates, whatever passes would have passed against every earlier baseline if and only if every
  update was made in a passing state (`PanicBudget.NeverLoosensIff`).

- Of two side-panel pages the one changed later has the larger time stamp if and only if the other one's last change is
  before the counter saturates (`SidePanel.StampsFollowCalls`), so in a session of at most 2^64 - 1 calls the list is in
  the order of the last changes (`SidePanel.ListFollowsCalls`).

## Model

| member | source | states |
|---|---|---|
| Tarjan.StronglyConnectedComponents | scripts/analyze_root_crate.py:271-315 | the components partition all nodes, also targets that are not keys; two nodes share one iff they reach each other; every prefix of the output is closed under edges |
| Tarjan.Search.Run | scripts/analyze_root_crate.py:312-315 | the outer loop ends with an empty stack and the condensation in `result` |
| Tarjan.Search.StrongConnect | scripts/analyze_root_crate.py:290-310 | a search keeps the invariant, extends numbering, stack and components without touching earlier ones, and leaves a low link that bounds every edge into the older stack |
| Tarjan.Search.VisitSuccessor | scripts/analyze_root_crate.py:296-301 | one successor, unvisited, on the stack or emitted, is folded into the low link soundly |
| Tarjan.Search.Leave | scripts/analyze_root_crate.py:302-310 | a node whose low link is its number is popped as a component, any other stays and still reaches an active node |
| Tarjan.Search.PopComponent | scripts/analyze_root_crate.py:303-309 | the pops return everything from `v` up, topmost first, and clear exactly those flags |
| Components.EmitKeepsInv | scripts/analyze_root_crate.py:302-310 | emitting at a root keeps the invariant: the popped nodes are one whole class of mutual reachability |
| Components.TopIsComponent | scripts/analyze_root_crate.py:302-310 | what lies at or above a root on the stack is a component: sound and maximal |
| Components.FinishKeepsInv | scripts/analyze_root_crate.py:302-302 | a node with a smaller low link may end its call and stay on the stack |
| Components.PushKeepsInv | scripts/analyze_root_crate.py:291-295 | numbering and pushing an unvisited node keeps the invariant |
| CycleReport.EdgesLeadToEarlierComponents | scripts/analyze_root_crate.py:277-278 | reverse topological order: an edge between components leads to one emitted no later |
| CycleReport.CondensationsAgree | scripts/analyze_root_crate.py:271-315 | any two runs list the same classes |
| CycleReport.SingletonsMeanAcyclic | scripts/analyze_root_crate.py:400-411 | without self-loops, only singleton components means the graph is a DAG |
| CycleReport.AcyclicMeansSingletons | scripts/analyze_root_crate.py:400-411 | in a DAG every component is a singleton |
| CycleReport.Cycles | scripts/analyze_root_crate.py:400-411 | of the module table itself: two modules share a listed cycle iff they lie on a common ring of references among modules that are not fully extracted; every member refers to another one; no cycle is listed iff the graph is a DAG |
| CycleReport.MutualMeansRing | scripts/analyze_root_crate.py:400-411 | modules that reach each other lie on a common ring |
| CycleReport.EvictedIffAllReworked | scripts/analyze_root_crate.py:450-478 | a module becomes a component by itself iff each edge of it into the rest of its cycle is cut or inverted, in any mixture |
| CycleReport.OtherComponentsKept | scripts/analyze_root_crate.py:450-478 | cutting edges out of a module or inverting its edges into its cycle leaves every other component as it was |
| FeedbackArcs.EadesOrder | scripts/analyze_root_crate.py:483-522 | terminates with a permutation; back edges carry at most half the total weight, each enters a greedy pick from a node unplaced then; a DAG needs no pick |
| FeedbackArcs.PeelEnds | scripts/analyze_root_crate.py:497-511 | the two inner scans end with neither a sink nor a source left and decide no weight backwards |
| FeedbackArcs.SinkPass | scripts/analyze_root_crate.py:501-505 | one scan for sinks, over a snapshot, reports a change iff it moved something |
| FeedbackArcs.SourcePass | scripts/analyze_root_crate.py:506-511 | the same for sources |
| FeedbackArcs.BestPick | scripts/analyze_root_crate.py:515-519 | the picked vertex maximises outgoing minus incoming weight within the remaining ones |
| FeedbackArcs.TakePick | scripts/analyze_root_crate.py:514-521 | a pick keeps the weight decided backwards within the weight decided forwards |
| FeedbackArcs.BestScoreNotNegative | scripts/analyze_root_crate.py:515-519 | scores sum to zero over the remaining vertices, so the best one is not negative |
| FeedbackArcs.NegativeScoresSum | scripts/analyze_root_crate.py:515-518 | negative scores over a set mean less weight out of it than into it |
| FeedbackArcs.AcyclicHasASink | scripts/analyze_root_crate.py:496-513 | in a DAG any nonempty remaining set still has a sink |
| FeedbackArcs.ForwardGraphAcyclic | scripts/analyze_root_crate.py:429-439 | cutting the edges with pos[v] < pos[u], or inverting any of them instead, leaves a DAG iff there is no self-loop, for every order |
| FeedbackArcs.BackByPosition | scripts/analyze_root_crate.py:430-435 | the position test picks out exactly the backward edges |
| FeedbackArcs.CollectBackEdges | scripts/analyze_root_crate.py:430-435 | the nested loops list every backward edge once, with its weight |
| FeedbackArcs.FeedbackReport | scripts/analyze_root_crate.py:429-443 | the reported edges weigh at most half of all, their total is right, and cutting or inverting each leaves a DAG iff there is no self-loop; nothing is reported for a DAG |
| CycleBreaking.BreakCycle | scripts/analyze_root_crate.py:421-446 | for any reported cycle, the listed references are real ones with their counts, every ring inside the cycle goes through one of them, and whichever are cut and the others inverted, the cycle's dependency graph becomes a DAG |
| CycleBreaking.CycleEdgesMean | scripts/analyze_root_crate.py:424-428 | which references weigh how much; a reference without a count weighs one |
| CycleBreaking.BreakingEveryCycle | scripts/analyze_root_crate.py:400-443 | once the edges listed for each cycle are cut or inverted, the whole dependency graph is a DAG |
| CycleBreaking.CycleEdgesMatchGraph | scripts/analyze_root_crate.py:424-428 | the weighted graph handed to the order is the dependency graph restricted to the cycle, also after cutting and inverting |
| Frames.EncodeTextFrame | ios/TestHarness/mock_gateway.py:108-120 | the bytes of the shortest-form frame, final and with opcode 1, which read back as the payload; or a refusal from 2^64 bytes on |
| Frames.ControlFrameIsFinal | ios/TestHarness/mock_gateway.py:123-125 | a control frame has the final bit, its opcode and its payload |
| Frames.StreamReader.ReadFrame | ios/TestHarness/mock_gateway.py:128-147 | consumes exactly what the parse of the unread bytes consumes |
| Frames.StreamReader.ReadExactly | ios/TestHarness/mock_gateway.py:131-144 | gives n bytes or, at end of file, loses the partial data |
| Frames.ParseEncoding | ios/TestHarness/mock_gateway.py:108-147 | every well-formed frame, masked with any key and in any length form, reads back as its payload with nothing else consumed |
| Frames.ParsedIsEncoding | ios/TestHarness/mock_gateway.py:128-147 | the converse: whatever reads as a frame is the encoding of one |
| Frames.EofIffNoHeader | ios/TestHarness/mock_gateway.py:128-133 | None is returned iff the header itself is missing |
| Frames.IncompleteIffTruncated | ios/TestHarness/mock_gateway.py:131-147 | reading raises iff the bytes are a header at least and a proper prefix of some well-formed frame |
| Frames.TextFrameIsShortest | ios/TestHarness/mock_gateway.py:110-120 | no frame with this payload is shorter than the encoder's |
| Frames.StreamRoundTrip | ios/TestHarness/mock_gateway.py:108-147 | concatenated frames are read back one by one, in order, ending at end of file |
| Frames.ControlFrameRoundTripIff | ios/TestHarness/mock_gateway.py:123-125 | a control frame survives the trip iff its payload has at most 125 bytes |
| Frames.MaskTwice | ios/TestHarness/mock_gateway.py:145-146 | unmasking undoes masking |
| Frames.UnpackPack | ios/TestHarness/mock_gateway.py:116-142 | big-endian lengths read back |
| Frames.MostSignificantFirst | ios/TestHarness/mock_gateway.py:116-142 | the first byte of a length is the most significant |
| RequestLoop.ServeText | ios/TestHarness/mock_gateway.py:461-469 | the requests of one frame are its own trimmed, non-blank lines, up to the first whose handler raises; what is carried over is whitespace without a newline |
| RequestLoop.CarriedSpaceIsInert | ios/TestHarness/mock_gateway.py:449-469 | the carried buffer never changes a request |
| RequestLoop.RequestsAreLines | ios/TestHarness/mock_gateway.py:462-469 | the requests in a text are its non-blank lines, stripped, in order |
| RequestLoop.StripIs | ios/TestHarness/mock_gateway.py:464-468 | stripping removes white space at both ends and leaves none there |
| RequestLoop.ServeFrame | ios/TestHarness/mock_gateway.py:454-469 | dispatch by opcode: close ends, ping is echoed, text and binary are requests, anything else is ignored; a raising handler ends the connection |
| RequestLoop.FrameKinds | ios/TestHarness/mock_gateway.py:451-469 | by opcode: close ends, a ping gets a pong with opcode 10 and its payload, which reads back iff it has at most 125 bytes, or ends the connection from 256 bytes on; text and binary are requests; the rest is ignored |
| RequestLoop.ServeWebSocket | ios/TestHarness/mock_gateway.py:448-471 | the buffered loop acts as if every frame were served by itself, up to and including the first request whose handler raises |
| RequestLoop.UntilAll | ios/TestHarness/mock_gateway.py:461-475 | all actions are taken if no handler raises; otherwise those before the first raising request, and that one last |
| RequestLoop.ClientRequestsArrive | ios/TestHarness/mock_gateway.py:128-469 | from bytes to requests: one request per frame, under any masks and length forms, is handled in order |
| Gateway.GatewayState.Run | ios/TestHarness/mock_gateway.py:193-328 | each piece between awaits has exactly its effect on the shared fields and sends exactly its event |
| Gateway.TranscriptAlwaysAlternates | ios/TestHarness/mock_gateway.py:193-328 | under every interleaving the transcript alternates user and assistant, and so does every history sent |
| Gateway.TokensAlwaysAddUp | ios/TestHarness/mock_gateway.py:229-231 | the counters are the exact bill of the streams past their update, and the token events are its running totals |
| Gateway.ConnectionRunsItsRequests | ios/TestHarness/mock_gateway.py:263-328 | each connection runs its own requests' actions in order, whatever the others do; a dropped one a prefix |
| Gateway.TurnsAreBilledBeforeRecorded | ios/TestHarness/mock_gateway.py:229-243 | a turn is recorded only right after the token update for the same text |
| Gateway.ClientsReceiveTheirReplies | ios/TestHarness/mock_gateway.py:184-225 | the text deltas an idle client has received join to exactly the replies to its own messages |
| Gateway.ChunksJoin | ios/TestHarness/mock_gateway.py:184-186 | the chunks of a text join to the text |
| Gateway.ChunkSizes | ios/TestHarness/mock_gateway.py:184-186 | no chunk is empty and all but the last are full |
| GatewayLaws.RepliesStreamInPieces | ios/TestHarness/mock_gateway.py:189-225 | replies are streamed in pieces of at most eight characters |
| GatewayLaws.EventsAreTruthful | ios/TestHarness/mock_gateway.py:193-328 | under every interleaving, each event tells session, title, model, effort, transcript and token counts as the actions up to then have left them |
| GatewayLaws.PerformReflects | ios/TestHarness/mock_gateway.py:229-320 | the last resume, rename, model and effort that named a value decide the fields |
| GatewayLaws.RepliesAreOwed | ios/TestHarness/mock_gateway.py:263-328 | a client receives, character by character and in order, a beginning of what its requests are owed, and all of it when idle; its changes to the state are those its requests ask for |
| GatewayLaws.ProgramReceived | ios/TestHarness/mock_gateway.py:263-328 | what each request is owed, with its own id |
| Gateway.TranscriptIsCompletedTurns | ios/TestHarness/mock_gateway.py:233-320 | the transcript is the completed turns since the last clear or resume |
| Gateway.ScenariosAlternate | ios/TestHarness/mock_gateway.py:54-96 | every seeded transcript, texts and tool data included, alternates |
| Gateway.LongTurnsAlternate | ios/TestHarness/mock_gateway.py:74-87 | the long transcript alternates for any number of turns |
| Gateway.ServerRunsAreConsistent | ios/TestHarness/mock_gateway.py:519-522 | every run from an alternating transcript keeps transcript and bill consistent |
| GatewayServer.Serve | ios/TestHarness/mock_gateway.py:193-328 | driven by any schedule, the shared object holds the state, the connections receive the events that the interleaving says, every event is truthful, and every client is served what it is owed |
| GatewayServer.StartServer | ios/TestHarness/mock_gateway.py:519-527 | from any scenario and under any schedule: the same, and the messages alternate and the counters are the exact bill |
| Campaign.CampaignDir.Invoke | scripts/run_terminal_bench_campaign.py:416-514 | exactly the jobs launched, in the order asked for and with their names, the exit code, the settings pinned and the records written; in terms of what the jobs leave behind: code 0 iff failures are tolerated or every launched job left a full result; a benchmark is completed afterwards iff it was before, its adopted job has a mean, or its launched job left a full result; nothing completed is launched |
| Campaign.OutcomesDecide | scripts/run_terminal_bench_campaign.py:330-391 | success, completion and stopping in terms of the result a job leaves |
| Campaign.CampaignDir.RunTasks | scripts/run_terminal_bench_campaign.py:447-514 | adopts first, then launches every pending job, or without --continue-on-failure and parallel jobs those up to the first failure |
| Campaign.InvocationMeans | scripts/run_terminal_bench_campaign.py:416-514 | an invocation writes about different benchmarks, none completed before; who is launched and who is completed afterwards, both as an iff |
| Campaign.FreshLog | scripts/run_terminal_bench_campaign.py:154-238 | records for different benchmarks that are not completed yet each decide about their own benchmark and no other |
| Campaign.CampaignDir.PrepareAll | scripts/run_terminal_bench_campaign.py:447-456 | pending are exactly the benchmarks neither completed nor adoptable, written are exactly the first adoptable jobs of the others; complete are exactly those completed before or adopted with a mean |
| Campaign.CampaignDir.PrepareTask | scripts/run_terminal_bench_campaign.py:396-413 | a completed benchmark is skipped, else the first qualifying job is adopted, else the next job is scheduled; it is completed afterwards iff it was before or the adopted job has a mean |
| Campaign.CampaignDir.RunSequential | scripts/run_terminal_bench_campaign.py:462-483 | records the launched jobs in order and stops at the first failure with its return code, or 1; code 0 iff failures are tolerated or there is none; completed are exactly the launched ones that succeeded |
| Campaign.CampaignDir.RunParallel | scripts/run_terminal_bench_campaign.py:485-514 | for every order in which jobs finish: every job is recorded, code 0 iff failures are tolerated or there is none, and completed are exactly those that succeeded |
| Campaign.CampaignDir.RunJob | scripts/run_terminal_bench_campaign.py:463-480 | one job writes one record, and its benchmark is complete iff it succeeded and has a name |
| Campaign.CampaignDir.FinalizeTaskResult | scripts/run_terminal_bench_campaign.py:318-393 | writes the record of the outcome; the final raise is unreachable |
| Campaign.FinalizedMeans | scripts/run_terminal_bench_campaign.py:330-391 | success iff there is a result with a numeric reward for every attempt and at least one, whatever the return code; the exact outcomes of each of the other four statuses |
| Campaign.MeanIsAverage | scripts/run_terminal_bench_campaign.py:199-210 | the mean is there iff some reward is numeric; times their number it is their sum, and it lies between them |
| Campaign.RewardsCounted | scripts/run_terminal_bench_campaign.py:201-222 | exactly the numeric rewards are counted |
| Campaign.FinalizedIffComplete | scripts/run_terminal_bench_campaign.py:330-391 | later invocations will count the record as complete iff success is reported and the name is not empty |
| Campaign.CampaignDir.AdoptExistingJob | scripts/run_terminal_bench_campaign.py:241-261 | adopts the first qualifying directory, and none only if none qualifies |
| Campaign.FirstAdoptedMeans | scripts/run_terminal_bench_campaign.py:241-261 | which directory qualifies, that the first such one is adopted, and what is recorded for it |
| Campaign.AdoptionCompletesExactly | scripts/run_terminal_bench_campaign.py:225-261 | the adopted record counts as complete iff the name is not empty and it has a mean reward |
| Campaign.AdoptionCompletesIff | scripts/run_terminal_bench_campaign.py:225-261 | adopting always completes a benchmark iff attempts >= 1 and its name is not empty |
| Campaign.AdoptedWithoutRewards | scripts/run_terminal_bench_campaign.py:249-260 | with zero attempts a job without rewards is adopted and its benchmark stays incomplete |
| Campaign.CampaignDir.AppendResult | scripts/run_terminal_bench_campaign.py:154-171 | an upsert by key; keys stay unique and the exported results equal the manifest |
| Campaign.CampaignDir.CompletedRecordedJobs | scripts/run_terminal_bench_campaign.py:225-238 | completed are the benchmarks with a completed, named record that has a mean and enough numeric rewards |
| Campaign.CompletedMeans | scripts/run_terminal_bench_campaign.py:225-238 | and the last such record counts |
| Campaign.CampaignDir.EnsureManifest | scripts/run_terminal_bench_campaign.py:119-140 | accepts a new campaign or equal pinned settings and refuses drift |
| Campaign.CompletedForever | scripts/run_terminal_bench_campaign.py:154-171 | over any sequence of such writes a completed record stays that very record |
| CampaignHistory.CampaignIsSafe | scripts/run_terminal_bench_campaign.py:416-514 | over any sequence of invocations, each run to its end or cut short after any of its records: settings stay pinned, keys stay unique, nothing completed is launched again, replaced or lost |
| CampaignHistory.StepIsRespectful | scripts/run_terminal_bench_campaign.py:154-171 | every such step writes a log that leaves completed benchmarks alone |
| CampaignHistory.Reruns | scripts/run_terminal_bench_campaign.py:416-514 | running the script any number of times on a new or old campaign is such a history, invocation by invocation |
| Campaign.Dedupe | scripts/run_terminal_bench_campaign.py:46-62 | keeps the first occurrence of every name, in order |
| Campaign.JobNameHoldsNumber | scripts/run_terminal_bench_campaign.py:455-455 | a job name is `run-` and its number in at least three digits |
| Campaign.NextJobIsNew | scripts/run_terminal_bench_campaign.py:453-455 | the next job of a benchmark gets a name of its own |
| FitGeometry.FitZoomIsLargestThatFits | scripts/mermaid_fit_probe.py:40-45 | within the clamp, a zoom fits on both axes iff it is at most the fit zoom |
| FitGeometry.ZoomsAreClamped | scripts/mermaid_fit_probe.py:34-45 | every zoom lies between 1 and 1000 percent |
| FitGeometry.FitZoomIsMinOfAxesIff | scripts/mermaid_fit_probe.py:34-45 | for positive fonts the fit zoom is the smaller axis zoom iff no size is zero or each known axis fits at full size |
| FitGeometry.AxesAgreeIffFontsPositive | scripts/mermaid_fit_probe.py:34-45 | the two formulas agree on all positive sizes iff both font sizes are positive |
| FitGeometry.ZeroFontDisagrees | scripts/mermaid_fit_probe.py:34-45 | for any zero font size, sizes on which they differ |
| FitGeometry.FitZoomFromScale | scripts/mermaid_fit_probe.py:40-53 | the fit zoom is the clamped floor of 100 times the exact scale of the rectangle |
| FitGeometry.FittedRectangle | scripts/mermaid_fit_probe.py:48-61 | the rectangle covers the scaled image and is the smallest that does, lies in the pane, fills an axis, and its margins differ by at most one cell; without a size it is the pane |
| FitGeometry.CenteredScrollStaysInside | scripts/mermaid_fit_probe.py:64-72 | the viewport never passes the image, the right margin exceeds the left by less than two cells, and a cell is the least whole number of pixels that covers it |
| FitGeometry.NoScrollWhenImageFits | scripts/mermaid_fit_probe.py:64-70 | no scroll when the view shows the whole image or a size is zero |
| QueryResponder.ReplyQueries | scripts/verify_light_theme.py:29-57 | terminates on every buffer, answers leftmost first, and leaves no query |
| QueryResponder.PrefixFree | scripts/verify_light_theme.py:33-43 | no query is a prefix of another, so at most one matches at a place |
| QueryResponder.ColorReports | scripts/verify_light_theme.py:29-43 | a color report is the query with the color in place of the question mark; background and foreground are opposite |
| QueryResponder.NoOverlap | scripts/verify_light_theme.py:33-43 | two queries at different places of a buffer never overlap |
| QueryResponder.StreamAnsweredIff | scripts/verify_light_theme.py:29-57 | text mixed with queries gets exactly its responses in order and leaves exactly the text iff the text by itself holds no query |
| QueryResponder.PrefixFirst | scripts/verify_light_theme.py:44-91 | answering what has arrived so far changes neither the remaining text nor the answers, for any bytes, also when a query is cut in two |
| QueryResponder.ChunkingDoesNotMatter | scripts/verify_light_theme.py:78-91 | however any stream is cut into chunks, text and answers are those for the whole stream |
| QueryResponder.Capture | scripts/verify_light_theme.py:78-91 | the capture loop computes the chunk-wise answers |
| QueryResponder.StrayEscapeIsSpliced | scripts/verify_light_theme.py:47-57 | with a stray escape character one query is answered twice |
| PanicBudget.ProductionLines | scripts/check_panic_budget.py:79-105 | the skip stack is a counter: at most one entry, and a positive one |
| PanicBudget.AllKept | scripts/check_panic_budget.py:79-105 | a file without test attributes is kept whole |
| PanicBudget.CuttingCommutes | scripts/check_panic_budget.py:79-105 | cutting a test block out of a file and scanning commute |
| PanicBudget.BlockVanishesIff | scripts/check_panic_budget.py:79-105 | a braced block after the attribute is cut out whole iff its first line is an item line that leaves a brace open |
| PanicBudget.OpenLineLeaks | scripts/check_panic_budget.py:89-105 | otherwise everything after that line is scanned as production code |
| PanicBudget.CurrentCounts | scripts/check_panic_budget.py:108-116 | the files with a use in their production lines, with the number of such lines |
| PanicBudget.UsesIsNumber | scripts/check_panic_budget.py:111-111 | the count is the number of lines with a use |
| PanicBudget.TestBlockCountsNothingIff | scripts/check_panic_budget.py:79-116 | adding or removing a test block changes no count iff the lines between its attribute and its item hold no use |
| PanicBudget.Check | scripts/check_panic_budget.py:160-196 | reports every new, grown, shrunken and removed file under its own heading, and the total; fails iff the total or some file grew or a new file appeared |
| PanicBudget.PassesIffNoFileGrew | scripts/check_panic_budget.py:134-187 | against a written baseline a check passes iff no file has more uses |
| PanicBudget.Invoke | scripts/check_panic_budget.py:146-196 | an update writes the counts and returns 0, a check compares and leaves the baseline alone |
| PanicBudget.NeverLoosensIff | scripts/check_panic_budget.py:9-13 | over any sequence of checks and updates whatever passes would have passed against every earlier baseline iff each update was made in a passing state |
| PanicBudget.PassingStaysWithinAll | scripts/check_panic_budget.py:9-13 | in such a sequence no file and no total of a passing state exceeds any baseline so far |
| PanicBudget.ChecksAloneLetCountsGrowBack | scripts/check_panic_budget.py:160-196 | without an update a count may fall and grow again under passing checks |
| SidePanel.Panel.Block | src/bin/tui_bench.rs:664-790 | one block has exactly the effect of the call it makes, if any |
| SidePanel.Reconstruct | src/bin/tui_bench.rs:657-807 | the snapshot is the sorted list of the replayed pages, most recently changed first, with the focus rule |
| SidePanel.ReplayProjects | src/bin/tui_bench.rs:660-791 | a page's title, content, file and source depend on the calls about that page alone |
| SidePanel.DeletionForgets | src/bin/tui_bench.rs:780-786 | nothing before a page's last deletion matters to it |
| SidePanel.ContentSince | src/bin/tui_bench.rs:685-763 | a page holds what the last write or load put there, nothing after a deletion, and then everything appended since, each piece on a new line |
| SidePanel.JoinedExtends | src/bin/tui_bench.rs:705-714 | what was appended earlier stays at the front |
| SidePanel.TitleOfLastCall | src/bin/tui_bench.rs:685-690 | the last call gives the title, or the page id if its title is missing or blank |
| SidePanel.FileSince | src/bin/tui_bench.rs:696-760 | file and source are those of the last load or of the creation |
| SidePanel.FocusSince | src/bin/tui_bench.rs:718-786 | the focus is on the page of the last focusing call unless that page was deleted afterwards |
| SidePanel.CallsMean | src/bin/tui_bench.rs:664-690 | which blocks make which call |
| SidePanel.AllCallsConcat | src/bin/tui_bench.rs:662-663 | every block of every message is replayed, in order |
| SidePanel.ReplayKeepsStamps | src/bin/tui_bench.rs:702-773 | below the 64-bit limit no two pages share a time stamp |
| SidePanel.StampsFollowCalls | src/bin/tui_bench.rs:702-773 | a page has the larger stamp iff its last write, append or load is the later one and the counter was not saturated before |
| SidePanel.ListFollowsCalls | src/bin/tui_bench.rs:793-798 | up to the 64-bit limit the list shows the pages most recently changed first |
| SidePanel.ListIsUnique | src/bin/tui_bench.rs:793-798 | the sorted list is unique, so the hash map's order cannot show |
| SidePanel.SortPages | src/bin/tui_bench.rs:793-798 | collecting in any order and sorting gives that list |

## Left out

- `analyze_root_crate.py`: file walking, counting references, facade classification and printing; the module table is an input. The recursion limit of 10000 is not modelled: on a graph with a longer chain of calls the source raises. Sorting of the printed lines by weight or size, and printing only the first 30 of them, is not modelled.
- `eades_order`: the tables `in_w` and `out_w`, which the source fills and never reads.
- `mock_gateway.py`: the HTTP routes, the handshake, keepalive and push timers, JSON text and UTF-8. Decoding a frame's payload is an arbitrary function in `RequestLoop`; requests in `Gateway` are decoded values, and a request that raises is a dropped connection. Which requests raise is an arbitrary function in `RequestLoop`. Fragmented frames are not joined, as in the source.
- `run_terminal_bench_campaign.py`: hashing, git, building commands, wall-clock fields, and crashes in the middle of one append.
- `mermaid_fit_probe.py`: floating-point rounding (divisions are exact here) and the utilisation report.
- `check_panic_budget.py`: the regular expressions, and which files are production files; a line carries the answers the expressions give.
- `tui_bench.rs`: everything but the side-panel replay; linked files are an arbitrary function. That the focused page exists is not claimed, because a focus call accepts any id.
- `bench_memory_cli.py`: the process-tree closure.
