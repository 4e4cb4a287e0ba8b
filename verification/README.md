# What the agent daemon guarantees

A Dafny 4.11 model of the hard parts of the agent daemon and proofs about it: who may run a task, what
a run may do and spend, what readers of memory see of it, which OAuth tokens are alive, who receives
which progress event, and that the hand-written codecs invert each other. `dafny verify
dfyconfig.toml` checks everything.

| file | models |
|---|---|
| `Admission.dfy` | the two tables that admit task starts, under every interleaving of lock regions |
| `DispatchTracker.dfy` | the bounded cache of dispatched task ids |
| `EventHub.dfy` | the hub of progress events, under every interleaving |
| `Budget.dfy` | pricing, preflight estimates, the budget controller |
| `Sanitizer.dfy`, `Text.dfy` | what counts as a result in the model's text |
| `PromptBlocks.dfy` | the messages sent to the model, as escaped data blocks |
| `JsonScanner.dfy` | the scanner for a JSON object inside prose |
| `Verdicts.dfy` | reading the verdict of a review |
| `TaskRun.dfy`, `TaskRunner.dfy` | the run: execute, sanitize, check, review, repair, retry |
| `Answers.dfy` | what becomes of every answer of the model |
| `StatusReader.dfy`, `TaskStatus.dfy` | the status a reader derives from facts and copies of them |
| `Persistence.dfy`, `Persister.dfy` | persisting the outcome, with delayed visibility and failing calls |
| `MemoryRuns.dfy`, `Agreement.dfy` | when an outcome can be persisted, and when the status written is the status read, for tasks with any history |
| `Readers.dfy` | readers whose five queries fall anywhere |
| `AgentRun.dfy` | a run followed by its persistence |
| `Sessions.dfy`, `SessionStore.dfy` | pending OAuth authorisations |
| `Tokens.dfy`, `TokenStore.dfy` | the token registry, with failing saves and restarts |
| `OAuthGrants.dfy` | both OAuth stores together |
| `Base64Url.dfy` | the codec of join tokens |
| `Framing.dfy`, `Utf8Text.dfy` | the two message framings of the stdio proxy, and the text behind their bytes |
| `Wrappers.dfy` | optional values and results |

## How to read it

Code that updates tables or loops over variables is written as a class or a method, and its contract
equates the new state with a pure function of the old one. The theorems are lemmas about those
functions, over every input, every run or every interleaving. What the program does not decide is a
parameter: the order of lock regions, the answers of the model, whether a call, a save or a write
succeeds, when a written fact becomes visible, random ids and codes (which never repeat), and the
clock. Money is `real`; integers are unbounded where the program's widths cannot be reached in
practice, and bounded (`USIZE_MAX`, bytes, sextets) where the width is the point.

## What the proofs found

Properties that one might expect and that do not hold in general. Each has a run or an input that shows
it, and a lemma that says exactly when it does hold.

| expected | shown false by | holds exactly when |
|---|---|---|
| a start answered "already_running" is told about a task that runs | `Admission.AlreadyRunningCanBeSpurious`: the holder is refused a slot | `Admission.AlreadyRunningIsTrueExactly`: the holder runs already, or finds a free slot when it asks |
| an open stream of a bound session receives its task's events | `EventHub.DeliveryCanBeUnsure`, `EventHub.HalfDoneUnsubscribeLosesEvents`: an older unsubscription of the session is half done | `EventHub.DeliveryIsSureExactly`: no unsubscription of the session is half done; for a given run, `EventHub.StreamsReceiveExactly`: the session is bound at every lookup |
| so it does with a second emitter | `EventHub.SecondEmitterSilencesTheFirst`, and from the empty hub `EventHub.SecondEmitterIsPossible`: the other's terminal event unbinds the task | `EventHub.EventReachesExactlyTheBound`: the session is bound at the lookup of that event |
| a revocation that was answered is final | `Tokens.RetriedRevocationCanBeLost`: the retry of a revocation whose save failed saves nothing | `Tokens.UnknownTokenIsFinalExactlyOffDisk`, `Tokens.NoClientTokensIsFinalExactlyOffDisk`: nothing of it is left in the file |
| a rotation whose save failed leaves the client its old token | `Tokens.LostRotationExactly`: the retry is answered "no grant" | the same lemma: it was in the file and a restart comes before the next successful save |
| a sanitized result stays as it is | `Sanitizer.AcceptedOnceRefusedTwice` | `Sanitizer.ResanitizeIsIdentityExactly`: it shows no leading tag and no marker |
| a done run was reviewed by a model | `TaskRun.ExhaustedRunIsDone`: done without any call | `TaskRun.DoneRunsAreReviewedExactly`: the estimate of its last review was within the budget left |
| a done run can be persisted as done | `AgentRun.UnreviewedRunCanBeLost`: its result is refused when it is sanitized again | `AgentRun.RunCanBePersistedExactly`: the result is sanitized a second time; `AgentRun.ReviewedRunsCanBePersisted`: so it is after any review call |
| a done task is not read as failed | `Readers.SplitReadCanFail`: result, session and copies are queried separately | `Readers.SplitReadFailsExactly`: unless the result and then its copy are missed although the session is not, or the session is missed and its copy too although that of the result is not, or memory says failed |
| a run that returns "failed" is not read as done | `Readers.DoneCanBeSeenBeforeFailed`: it is persisted again as failed | `Readers.DoneSeenBeforeFailedExactly`, `Readers.DoneSessionIsWrittenExactly`: its first attempt left no done session |
| the status written is the status read | `Agreement.StaleVersionsCanDisagree`: an older session passes for the new one | `Agreement.AgreementFailsExactly`: no older session with the status can be listed when the final one is verified while another status is the newest visible one then or later |
| the preflight estimate bounds the cost of a call | `Budget.CachedUseCostsMore` | `Budget.PreflightCoversExactly`: cached tokens are not dearer than plain input, which the configuration does not demand |
| the framing written is the framing detected | `Framing.HeaderIsNoObject`: a length header arrives in pieces | `Framing.SessionReadsBackExactly`: lines, or the first 15 bytes arrive together |

## Model

| member | source | states |
|---|---|---|
| Admission.RunKeepsTablesAgree | src/server/handlers/mcp/start.rs:90-168 | in every interleaving of any number of starts the task set is exactly the set of tasks held by one start each, every agent's count is the number of its slot holders, at most the maximum, and there are no zero entries |
| Admission.AdmissionIsSafe | src/server/handlers/mcp/start.rs:90-168 | no two starts are between claim and release of one task, no agent exceeds its slots, and when every start has ended both tables are empty |
| Admission.ReleaseFallbacksAreDead | src/server/handlers/mcp/start.rs:160-168 | a release never meets a missing entry or a zero count |
| Admission.RefusalsAreExact | src/server/handlers/mcp/start.rs:90-133 | "already_running" is answered if and only if another start holds the task, "busy" if and only if the maximum of other starts hold the agent's slots |
| Admission.StartsAlwaysAdvance | src/server/handlers/mcp/start.rs:90-168 | a start that has not ended always has exactly one next region, enabled whatever the tables hold, which brings it closer to its end and moves no other start |
| Admission.RunsExactlyWhenASlotIsFree | src/server/handlers/mcp/start.rs:110-119 | a start runs if and only if it asks for a slot at a moment when fewer than the maximum of other starts hold one of its agent |
| Admission.AlreadyRunningIsTrueExactly | src/server/handlers/mcp/start.rs:90-133 | the holder behind an "already_running" runs, in any continuation, if and only if it runs already or later asks for a slot while fewer than the maximum of others hold one; a refused holder never runs |
| Admission.RefusedNeverRuns | src/server/handlers/mcp/start.rs:120-133 | once refused a slot, a start only releases its task and ends busy |
| Admission.AlreadyRunningCanBeSpurious | src/server/handlers/mcp/start.rs:120-123 | the other case arises: a run in which a start is told "already_running" about a task that is refused a slot |
| Admission.AdmissionTables.constructor | src/server/state.rs:76-78 | new tables are empty and consistent |
| Admission.AdmissionTables.ClaimTask | src/server/handlers/mcp/start.rs:90-98 | one lock region: tells whether the task is held, claims it otherwise, and keeps the tables consistent |
| Admission.AdmissionTables.ClaimSlot | src/server/handlers/mcp/start.rs:110-119 | one lock region: tells whether the agent is busy, takes a slot otherwise, and keeps the tables consistent |
| Admission.AdmissionTables.ReleaseTask | src/server/handlers/mcp/start.rs:120-123 | the busy release and the final release of a task keep the tables consistent |
| Admission.AdmissionTables.ReleaseSlot | src/server/handlers/mcp/start.rs:160-168 | the release of a slot keeps the tables consistent and leaves no zero entry |
| DispatchTracker.AcceptedApart | src/server/state.rs:27-43 | two accepted claims of one id are more than 10,000 accepted claims apart |
| DispatchTracker.RedispatchNeedsManyOthers | src/watcher.rs:185-203 | between two dispatches of one id, from poller or courier, 10,000 other ids, all different, were dispatched |
| DispatchTracker.RejectedExactlyInWindow | src/server/state.rs:29-31 | a claim is refused if and only if the id is among the last 10,000 accepted ones |
| DispatchTracker.WindowIsDistinct | src/server/state.rs:33-41 | the remembered claims are all different |
| DispatchTracker.DispatchedTracker.Claim | src/server/state.rs:27-43 | the queue is the last 10,000 accepted claims of the whole history and the set has exactly its elements, after every claim |
| EventHub.RunsAreConsistent | src/server/mcp_events.rs:40-116 | in every interleaving numbers are fresh, the table matches the streams, no entry is empty, and every stream that was not dropped is open and listed |
| EventHub.TablesStayTidy | src/server/mcp_events.rs:40-116 | a stream number stands for one stream of one session, no table entry is empty, and a new stream never replaces another |
| EventHub.BoundExactly | src/server/mcp_events.rs:53-116 | in every interleaving a session is bound to a task if and only if the last of these says so: its binding, the end of a terminal event of the task, or the second region of an unsubscription of the session |
| EventHub.ListedExactly | src/server/mcp_events.rs:40-105 | a stream is in the table if and only if it was inserted and since then neither its unsubscription nor a send that found its channel closed took it out |
| EventHub.LastStreamUnbinds | src/server/mcp_events.rs:92-109 | an unsubscription goes on to unbind the session if and only if no other stream of the session is in the table |
| EventHub.StreamsReceiveDeliveries | src/server/mcp_events.rs:79-89 | with any emitters, a stream that is not dropped receives exactly the events sent to its session, once and in order |
| EventHub.EventReachesExactlyTheBound | src/server/mcp_events.rs:57-89 | with any emitters, an undropped stream takes the event of an emission if and only if its session was bound when the emission looked up its sessions |
| EventHub.StreamsReceiveExactly | src/server/mcp_events.rs:57-89 | with one emitter, between two idle moments, an undropped stream receives the events emitted while its session was bound, in order; it receives all of them if and only if the session was bound at every lookup |
| EventHub.StreamsReceiveTheirTask | src/server/mcp_events.rs:57-89 | from an idle moment with the session bound and no half-done unsubscription, that is the case: exactly the events of the one emitter, once and in order, up to and including the terminal one, and the session stays bound until then |
| EventHub.DeliveryIsSureExactly | src/server/mcp_events.rs:91-116 | from an idle moment with the session bound, every continuation with one emitter delivers everything if and only if no unsubscription of the session is half done |
| EventHub.HalfDoneUnsubscribeLosesEvents | src/server/mcp_events.rs:91-116 | from every state with a half-done unsubscription of the session there is a continuation that loses an event of an open stream |
| EventHub.DeliveryCanBeUnsure | src/server/mcp_events.rs:91-116 | such a state is reached by a new subscription and a binding between the two regions of an old unsubscription |
| EventHub.SecondEmitterSilencesTheFirst | src/server/handlers/mcp/start.rs:99-100 | from every state in which a stream listens to a task, the terminal event of one emitter is received and the next event of another reaches nobody |
| EventHub.SecondEmitterIsPossible | src/server/handlers/mcp/start.rs:99-100 | such a run from the empty hub: a subscribed stream that is open and never dropped misses an event |
| EventHub.McpEventHub.TakeNumber | src/server/mcp_events.rs:41 | stream numbers are handed out in order |
| EventHub.McpEventHub.Insert | src/server/mcp_events.rs:43-44 | a new stream joins the streams of its session |
| EventHub.McpEventHub.BindTaskSession | src/server/mcp_events.rs:53-56 | the session is added to those of the task |
| EventHub.McpEventHub.LoadSessions | src/server/mcp_events.rs:62-65 | an emission looks up the sessions bound to its task at that moment |
| EventHub.McpEventHub.TrySenders | src/server/mcp_events.rs:84-87 | every open channel of the session takes the event once, and exactly the closed ones leave the table |
| EventHub.McpEventHub.SendToSessions | src/server/mcp_events.rs:81-89 | every open listed channel of the sessions takes the event once, no other channel does, and sessions left without streams leave the table |
| EventHub.McpEventHub.UnbindTask | src/server/mcp_events.rs:75-78 | the sessions of the task are forgotten |
| EventHub.McpEventHub.Remove | src/server/mcp_events.rs:92-105 | the first region of an unsubscription, and whether the session still has streams |
| EventHub.McpEventHub.UnbindSession | src/server/mcp_events.rs:111-115 | the second region removes the session from every task and leaves no empty entry |
| Budget.PreflightCovers | src/agent/budget.rs:48-70 | a call within its estimated tokens costs at most its estimate when the cache rates are at most the input rate |
| Budget.PreflightCoversExactly | src/agent/budget.rs:48-70 | the estimate bounds every call within its tokens if and only if both cache rates are at most the input rate |
| Budget.UseIsChargedByKind | src/agent/budget.rs:48-59 | a call costs the sum of its token counts at their rates per thousand; input not read from or written to the cache is never negative |
| Budget.BudgetController.CanAfford | src/agent/budget.rs:19-25 | an execution call that costs at most its estimate leaves the reserve, a review call the budget, and exactly those are allowed |
| Budget.BudgetController.ExecutionRemaining | src/agent/budget.rs:37-39 | never negative, zero exactly once spending has reached the cap, and otherwise what takes spending to the cap |
| Sanitizer.Sanitize | src/agent/run.rs:2675-2723 | the loop terminates, as every stripped block shortens the text, and computes the specification |
| Sanitizer.AcceptedIsSuffix | src/agent/run.rs:2675-2723 | an accepted text is a non-blank, trimmed, contiguous piece from the end of the trimmed input |
| Sanitizer.SurroundingsDoNotMatter | src/agent/run.rs:2675-2679 | white space around the text does not change what it is judged as |
| Text.TrimTakesOnlySpace | src/agent/run.rs:2675-2679 | trimming takes all white space off both ends and nothing else |
| Text.FindIsFirst | src/agent/run.rs:2735-2749 | a search finds the first occurrence, or none only if there is none |
| Sanitizer.LeadingBlockIsDropped | src/agent/run.rs:2681-2705 | a text that begins with a reasoning tag in any letter case, with attributes or without, is judged as what follows the first closing tag after it; if there is none, or nothing follows, it is rejected as reasoning only |
| Sanitizer.AnswerIsJudged | src/agent/run.rs:2707-2776 | any other text is judged by what follows the first place, at the start of a line, of the first marker that has one, or by all of it without a marker: empty, reasoning by its prefix in any letter case, or accepted as it is |
| Sanitizer.ResanitizeIsIdentityExactly | src/agent/run.rs:1637-1647 | sanitizing an accepted text again gives it back if and only if it shows no leading reasoning tag and no answer marker |
| Sanitizer.UnmarkedResultIsStable | src/agent/run.rs:1178-1180 | a result accepted without extracting a marked answer is kept by review and persistence |
| Sanitizer.AcceptedOnceRefusedTwice | src/agent/run.rs:2707-2720 | a text that is accepted, and whose accepted part is rejected when it is sanitized again |
| PromptBlocks.ReplacementsAreOnePass | src/agent/run.rs:2310-2312 | the three replacements in a row escape every character on its own |
| PromptBlocks.UnescapeEscape | src/agent/run.rs:2310-2312 | escaping loses nothing: it has a left inverse |
| PromptBlocks.MessagesParseBack | src/agent/run.rs:2300-2302 | a rendered message parses back to its list of tags and contents, so no content can imitate a block |
| PromptBlocks.MessageShowsItsSlots | src/agent/run.rs:2304-2308 | what is read back is every required content and every optional content that is not blank, and no other |
| PromptBlocks.ExecutionMessageIsWellFormed | src/agent/run.rs:2178-2197 | the execution message has distinct tags without angle brackets and starts with a required block, as reading back needs |
| PromptBlocks.ReviewMessagesAreWellFormed | src/agent/run.rs:2199-2298 | so have the review and the repair message |
| PromptBlocks.ExecutionMessageSays | src/agent/run.rs:2178-2197 | the execution message reads back to the task first, and each of contract, context, retry reason, tool trace and note under its own tag, as given, unless it is blank; nothing else |
| PromptBlocks.ReviewMessageSays | src/agent/run.rs:2199-2215 | so does the review message to task, context, the result under review and the tool trace |
| PromptBlocks.RepairMessageSays | src/agent/run.rs:2287-2298 | and the repair message to task, context, the output to repair and the tool trace |
| PromptBlocks.RequestSays | src/agent/run.rs:2141-2168 | every execution is told task, context and tool trace, after a returned attempt also the reason, and otherwise the contract and the recovery note |
| PromptBlocks.ToolTraceIsTold | src/agent/run.rs:2314-2320 | an empty tool trace is not shown, and any other, of lines without line feeds, can be read off line by line |
| PromptBlocks.EqualMessagesShowTheSame | src/agent/run.rs:2178-2197 | two messages with the same tags are equal only if they show the same contents |
| JsonScanner.ExtractEmbeddedJsonObject | src/agent/run.rs:2823-2859 | yields the text from the first opening brace whose string-aware depth returns to zero, and nothing exactly if there is none |
| Verdicts.ReadVerdict | src/agent/run.rs:2778-2821 | the reader of verdicts: acceptance if and only if the payload says "ok", a return with reason r if and only if it says "retry" with a reason that trims to r and is not blank |
| Verdicts.VerdictIsOfPayload | src/agent/run.rs:2778-2821 | the same of its specification, for every text and every JSON parser; the payload is what the trimmed text parses to, or else the first balanced object in it |
| Verdicts.WrappedVerdictIsRead | src/agent/run.rs:2778-2821 | a verdict after any text without an opening brace and before any text is read like the bare JSON object, unless the whole text, trimmed, is JSON itself |
| JsonScanner.MatchBraces | src/agent/run.rs:2828-2856 | the inner loop finds where the depth first returns to zero |
| JsonScanner.ValueKeeps | src/agent/run.rs:2831-2855 | scanning any JSON value of RFC 8259, however spelled, leaves depth and string state as they were |
| JsonScanner.EmbeddedObjectIsFound | src/agent/run.rs:2823-2859 | after any text without an opening brace and before any text, the scanner yields exactly the printed JSON object |
| TaskRun.RunEndsWell | src/agent/run.rs:510-709 | for every model, deliverable check and artifact store: the n-th call of the trace has the model's n-th answer; spending and tool trace are those of the answers; the trace is attempt 1, its review, attempt 2 and so on, one artifact each with what it shows; every attempt is told why the one before was sent back and started only with a retry and execution budget left; if the loop ends by itself, status, result and error are exactly those of the end of the trace, and otherwise the failed write or query is named |
| TaskRun.EveryToolIsRecorded | src/agent/run.rs:1123-1146 | one line and one entry of the tool trace a tool call, in order, with its name and success |
| TaskRun.ToolLineTells | src/agent/run.rs:1142 | a line of the tool trace tells name and output, for names without a closing bracket |
| TaskRun.DecimalTextTells | src/agent/run.rs:1074-1081 | the number in the notice of exhaustion is the iteration |
| TaskRun.TraceIsBounded | src/agent/run.rs:510-707 | a trace of that form has at most one artifact an attempt, `maxRetries` + 1 attempts and two more calls an attempt |
| TaskRun.RunIsBounded | src/agent/run.rs:2322-2329 | at most `maxRetries` + 1 attempts, 32 execution calls in all attempts together, and 32 + 2 (`maxRetries` + 1) calls in all |
| Answers.EveryAnswerIsUsed | src/agent/run.rs:1018-1148 | in every run an answer with tool calls, and the first text of an attempt if it is blank and follows tools, is followed by another round of the same attempt or the error of too many rounds; a failed call by its error; every other text, like the notice of exhaustion with the tool trace so far, by the artifact that shows it sanitized or says why not |
| Answers.DoneResultIsAnAnswer | src/agent/run.rs:510-590 | the result of a done run is the sanitized text that ended its last execution |
| TaskRun.TraceSpends | src/agent/run.rs:1069-1094 | at every stage of a trace, what may have been spent if calls keep to their estimates |
| TaskRun.RunStaysInBudget | src/agent/run.rs:1157-1231 | if preflighted calls cost at most their estimates, a run exceeds its budget by at most one repair call, not at all without one, and every review starts with the whole reserve unspent |
| TaskRun.TokensWithinEstimatesFit | src/agent/budget.rs:48-70 | that hypothesis follows from the token counts when the cache is never dearer than plain input |
| TaskRun.AcceptedIsUsable | src/agent/run.rs:519-521 | whatever becomes the result of a run is trimmed and not blank |
| TaskRun.TraceReview | src/agent/run.rs:1157-1231 | at every stage of a trace, which calls the review of the last attempt has made and what its last answer says |
| TaskRun.DoneRunsAreReviewedExactly | src/agent/run.rs:1157-1180 | a done run has no review call in its last attempt if and only if the estimate of that review exceeded the budget left; otherwise the payload of the last answer to it says "ok" |
| TaskRun.ExhaustedRunIsDone | src/agent/run.rs:1074-1081 | the first case can be reached without any call: when neither the first execution nor its review can be afforded, the run is done with the notice of exhaustion as its result |
| TaskRunner.TaskRunner.constructor | src/agent/run.rs:157-176 | a new run has spent nothing and done nothing |
| TaskRunner.TaskRunner.Chat | src/agent/run.rs:1083-1095 | an answered call is charged, a failed one is not |
| TaskRunner.TaskRunner.Store | src/agent/run.rs:1300-1350 | a stored artifact joins the trace, a failed one does not |
| TaskRunner.TaskRunner.Iterate | src/agent/run.rs:1046-1147 | one round of the execution loop, over the counter that all attempts share |
| TaskRunner.TaskRunner.ExecutionLoop | src/agent/run.rs:1027-1147 | the loop ends and refines the recursive specification that the theorems are about |
| TaskRunner.TaskRunner.Review | src/agent/run.rs:1150-1235 | the review refines its specification: unaffordable means accepted, unsanitary means sent back, one repair without preflight |
| TaskRunner.TaskRunner.RetryOrGiveUp | src/agent/run.rs:2647-2660 | retries left are checked before budget left |
| TaskRunner.TaskRunner.RunAttempt | src/agent/run.rs:510-707 | one attempt refines its specification |
| TaskRunner.TaskRunner.Run | src/agent/run.rs:510-707 | the retry loop ends and refines the specification, so that every theorem about runs holds of it |
| StatusReader.WrittenFactsAreReadByTheTable | src/server/handlers/mcp/status.rs:48-251 | on the facts and the copies that the agent writes, whose text tells their status, the string logic reports the status of the decision table: the session's, but "done" only with a result or its copy; without it the session copy's, after a result's; a lone result never as done. An incomplete persistence is reported exactly for a result without session or a done session without result |
| StatusReader.SpelledStatusIsRead | src/server/handlers/mcp/status.rs:178-228 | of facts of any origin, a status in any accepted spelling is read: the session's first, "done" only with a result, then the result's |
| StatusReader.UnspelledStatusIsRead | src/server/handlers/mcp/status.rs:178-251 | without one, the text of the session is searched for "status failed" and "status done", and at last the facts are echoed |
| Persistence.TerminalStatuses | src/agent/run.rs:1649-1657 | a failed, overdrawn or too complex run, and no other that is over, is persisted with a reason in place of a missing result |
| Persistence.SnapshotsAreConsistent | src/agent/run.rs:1659-1793 | whatever fails or is delayed, every reader of one state of memory sees the newest visible session's status, or before that the newest result's, which is then not done |
| Readers.SplitReadSaysDoneExactly | src/server/handlers/mcp/status.rs:36-66 | wherever its five queries fall, a reader is told "done" if and only if it found a done session and a result or its copy, or neither session nor result and then a copy of a done session |
| Readers.DoneReadsAreTrue | src/server/handlers/mcp/status.rs:36-66 | for a fresh task that is true: memory said "done" at its session query, or, if that found none, at its last |
| Readers.DoneReadsHaveDeliverable | src/agent/run.rs:1582-1629 | when a reader is told "done" of a fresh task that needs a deliverable, one was visible at the moment memory said so |
| Persistence.FinishRunIsCoherent | src/agent/run.rs:709-800 | both attempts to persist keep that true at every moment, for a task with any history |
| Persistence.PersistResultsStages | src/agent/run.rs:1631-1793 | new sessions are running anchors followed by the final status, new results and copies have the final status, success means the final status was listed, and without success no session is copied |
| Persistence.PersistSucceedsExactly | src/agent/run.rs:1400-1451 | a fact is persisted if and only if one of three rounds sees it and no write up to then failed |
| Persistence.OldVersionsDoNotPass | src/agent/run.rs:1365-1398 | a verification is passed if and only if one of the five newest visible versions, or of the fewer listed, has the status |
| Persistence.SuccessLeavesAll | src/agent/run.rs:1582-1769 | whatever the history, a success leaves the required deliverable visible, and the running session, the result and the final session written in that order with the right status |
| Persistence.SuccessLeavesCopies | src/agent/run.rs:1718-1790 | when no call fails, it leaves one more copy of the session, and one of a result that the model gave |
| Persistence.DoneRunsLeaveAll | src/agent/run.rs:709-800 | a run that returns "done" has left deliverable, result and session |
| Persistence.ReturnsItsStatusExactly | src/agent/run.rs:725-800 | a run returns the status it ended with, except that "done" becomes "failed" if and only if its first attempt to persist left no verified done session |
| Persistence.StatusesOnlyAdvance | src/agent/run.rs:1659-1793 | a fresh task, with or without deliverables already there, is seen as pending, active, final, in that order, never stepping back and never as failed when it is done |
| Persistence.NewStatusStaysRead | src/agent/run.rs:1400-1451 | a status that no earlier session has is read after a success and from then on |
| Agreement.CanBePersistedExactly | src/agent/run.rs:1582-1660 | whatever memory holds, some environment lets the outcome be persisted if and only if its result is sanitized once more and a deliverable that only the external program could write is there |
| Agreement.AgreementFailsExactly | src/agent/run.rs:1365-1451 | over all environments that list a given number of versions, a success can leave a different status to be read if and only if an older session with the status can be listed when the final one is verified, while a session of another status, which the anchor always is, is the newest visible one then or later |
| Agreement.WriterAndReaderAgree | src/agent/run.rs:1400-1451 | without such a cause the status read after a success, and from then on, is the one written |
| Agreement.NothingMisleads | src/agent/run.rs:1365-1398 | there is no such cause if no older session has the status, or if queries list only the newest version and every older session is visible |
| Persistence.FinishedRunsAgree | src/agent/run.rs:709-818 | whenever the last persist of a fresh task succeeded, also as a remedy or an early failure, with or without deliverables already there, every later reader sees the status the run returned |
| Readers.SplitReadFailsExactly | src/server/handlers/mcp/status.rs:36-66 | for a done run of a fresh task, the remedy included, a reader is told "failed" if and only if memory says so at its session query, or that found a done session but neither the result query nor the copy query a result, or it found none and the copies found are of a result only or of a failed session |
| Readers.SplitReadCanFail | src/server/handlers/mcp/status.rs:36-66 | it happens although every call succeeds, both without the copies and because of them |
| Agreement.StaleVersionsCanDisagree | src/agent/run.rs:1365-1398 | three runs from empty memory, failed, done and failed, after which an older failed session was taken for the new one and the reader still sees done |
| Readers.DoneSeenBeforeFailedExactly | src/agent/run.rs:725-800 | a done run of a fresh task that returns "failed" can, by some movement of visibility after its first attempt to persist, be seen as done if and only if that attempt left a done session; otherwise no reader, wherever its five queries fall, is ever told "done" |
| Readers.DoneSessionIsWrittenExactly | src/agent/run.rs:1659-1769 | it leaves one if and only if anchor, deliverable and result were persisted and the first write of the session was carried out |
| Readers.DoneCanBeSeenBeforeFailed | src/agent/run.rs:725-800 | it happens although every call succeeds |
| Persister.Persister.PersistCanonicalFactWithVerification | src/agent/run.rs:1400-1451 | three rounds of writing and verifying at most; a failed write ends them, a failed verification does not |
| Persister.Persister.ResolveOrPersistTerminalDeliverable | src/agent/run.rs:1582-1629 | the deliverable is found, or written unless an external program should have written it |
| Persister.Persister.PersistResults | src/agent/run.rs:1631-1793 | the sequence of writes refines the specification that the theorems are about |
| Persister.Persister.FinishRun | src/agent/run.rs:709-818 | so does the end of a run with its second attempt |
| AgentRun.ReturnedStatusIsRead | src/agent/run.rs:709-818 | for a whole run of a fresh task, with any deliverables in memory, the status returned is the one every later reader sees whenever its last persist succeeded |
| AgentRun.RunCanBePersistedExactly | src/agent/run.rs:1489-1528 | a run that ended, on memory that holds the deliverable it found, can be persisted with the status it ended with if and only if its result, if any, is sanitized a second time; a missing deliverable is never the obstacle |
| AgentRun.ReviewedRunsCanBePersisted | src/agent/run.rs:1631-1654 | so every done run whose last review asked a model can be persisted as done |
| AgentRun.UnreviewedRunCanBeLost | src/agent/run.rs:725-800 | a family of done runs, with a marked answer and no budget for a review, that in every environment return "failed" and leave memory as it was |
| AgentRun.DoneMeansReviewed | src/server/handlers/mcp/status.rs:36-228 | wherever the five queries of a reader fall, it is told "done" only if the last review of the run passed: the payload of the model's last answer to it says "ok", or, exactly if its estimate exceeded the budget left, there was no review call |
| Sessions.EveryHistoryIsALifecycle | src/oauth/sessions.rs:206-396 | in every run every session's history is a lifecycle and its record is what the history says |
| Sessions.ExchangeComesOnceInTime | src/oauth/sessions.rs:329-386 | an exchange is the last event, follows the only approval, which used the PIN issued last, all before their deadlines and before creation plus ten minutes and a minute |
| Sessions.CodeExactlyWhenApproved | src/oauth/sessions.rs:286-296 | a session carries a code if and only if it is approved |
| Sessions.StatusesOnlyAdvance | src/oauth/sessions.rs:267-386 | statuses only move from pending to approved or denied, and from approved to consumed |
| Sessions.OneExchangePerCode | src/oauth/sessions.rs:329-386 | a code is exchanged at most once, ever |
| Sessions.ExchangeSucceedsExactly | src/oauth/sessions.rs:329-386 | an exchange succeeds exactly for the code of an approved session, in time, by its client, redirect URI and verifier, and changes nothing otherwise |
| Sessions.PinIsIssuedExactly | src/oauth/sessions.rs:250-261 | in every run a PIN is issued if and only if the session is there, undecided and within its lifetime; it is then the PIN that counts, and otherwise nothing changes |
| Sessions.ApprovalSucceedsExactly | src/oauth/sessions.rs:269-306 | an approval succeeds if and only if the session is there, its history ends with a PIN, that PIN is provided, and both are within their lifetimes; it hands out the new code with the redirect URI and state of the request, and every refusal names its first reason and changes nothing |
| Sessions.DenialSucceedsExactly | src/oauth/sessions.rs:313-321 | a session is denied if and only if it is there and undecided, and no other changes |
| Sessions.ExchangeAnswersExactly | src/oauth/sessions.rs:338-386 | a code is known if and only if the session whose history ends with its approval is there; the answer then follows from that history: in time, client, redirect URI, verifier, in this order, or client and scope |
| Sessions.ApprovedCodeCanBeExchanged | src/oauth/sessions.rs:338-386 | right after an approval its client can exchange the code, for a minute, with the verifier of the challenge |
| Sessions.SessionStaysExactly | src/oauth/sessions.rs:211-396 | a session is there from its creation until it is dropped, swept after its lifetime, or lost in a restart |
| SessionStore.SessionStore.Create | src/oauth/sessions.rs:206-231 | a new pending session, and no other change |
| SessionStore.SessionStore.IssuePin | src/oauth/sessions.rs:249-265 | a PIN for a pending session in time, replacing the one before |
| SessionStore.SessionStore.Approve | src/oauth/sessions.rs:267-302 | the errors in their order, and no change with any of them |
| SessionStore.SessionStore.Deny | src/oauth/sessions.rs:304-312 | only a pending session is denied |
| SessionStore.SessionStore.ConsumeAuthorizationCode | src/oauth/sessions.rs:329-386 | the errors in their order, and no change with any of them |
| SessionStore.SessionStore.Sweep | src/oauth/sessions.rs:390-396 | exactly the expired sessions go |
| Tokens.RunsAreConsistent | src/oauth/tokens.rs:143-344 | over all runs with failed saves and restarts: records match what was issued, one live refresh token a grant in memory and on disk, every access token backed by its refresh token, and nothing reported removed is left |
| Tokens.OneLivePairPerGrant | src/oauth/tokens.rs:187-259 | a grant never has two live refresh tokens or two live access tokens |
| Tokens.AcceptedAccessIsBacked | src/oauth/tokens.rs:264-274 | an access token is accepted only within an hour of its mint and while its refresh token is neither rotated nor revoked |
| Tokens.AcceptedExactly | src/oauth/tokens.rs:187-344 | an access token is accepted if and only if its hour is not over and no call since its mint was a restart, the rotation or revocation of its refresh token, its own revocation or its client's, or a sweep after its hour; it then stands for the client and scope of the grant |
| Tokens.RotatesExactly | src/oauth/tokens.rs:235-344 | without a restart, a refresh token can be rotated if and only if its client asks and it was neither rotated nor revoked since its mint; the scope is handed on, and until then its record tells mint and last touch |
| Tokens.FileIsLastSaved | src/oauth/tokens.rs:143-182 | the file always holds the refresh tokens as they were at the last successful save, and a restart brings back just these |
| Tokens.RevocationTells | src/oauth/tokens.rs:298-310 | a revocation by id leaves nothing of the token in memory, its flag tells whether it was there, and true means that it is not in the file either |
| Tokens.RefreshRevocationTells | src/oauth/tokens.rs:314-320 | a revocation by the refresh token is that of its id, and of an unknown token changes nothing and answers false |
| Tokens.AccessRevocationTells | src/oauth/tokens.rs:325-328 | a revoked access token is not accepted any more, and the flag tells whether it was there |
| Tokens.ClientRevocationTells | src/oauth/tokens.rs:335-344 | the revocation of a client leaves none of its tokens in memory, and answers how many refresh tokens it had |
| Tokens.RemovedTokensStayRemoved | src/oauth/tokens.rs:235-259 | a refresh token that a call reported removed is found neither in memory nor on disk after any further calls and restarts |
| Tokens.UnknownTokenIsFinalExactlyOffDisk | src/oauth/tokens.rs:298-310 | a revocation answered `Ok(false)` is final if and only if the token is not on disk either |
| Tokens.RetriedRevocationCanBeLost | src/oauth/tokens.rs:298-310 | a run in which a revoked token comes back |
| Tokens.LivesAgainExactly | src/oauth/tokens.rs:143-182 | a token that is in the file but not in memory lives again, in any continuation, if and only if a restart comes before the next successful save |
| Tokens.LostRotationExactly | src/oauth/tokens.rs:235-259 | a rotation whose save failed is answered "no grant" when it is retried, and its token lives again if and only if it was in the file and a restart comes before the next successful save |
| Tokens.NoClientTokensIsFinalExactlyOffDisk | src/oauth/tokens.rs:335-344 | revoking a client without tokens in memory saves nothing, and that answer is final if and only if the file holds no token of the client |
| Tokens.EvictionByClientIsByOrigin | src/oauth/tokens.rs:335-344 | evicting access tokens by client is evicting them by the client's token ids, as every access token is backed |
| Tokens.ClientRevocationInAnyOrder | src/oauth/tokens.rs:335-344 | revoking a client leaves the same memory as revoking its tokens one by one in any order, whatever saves fail |
| TokenStore.TokenStore.Load | src/oauth/tokens.rs:143-156 | after a restart the refresh tokens are those of the file and there are no access tokens |
| TokenStore.TokenStore.Save | src/oauth/tokens.rs:158-181 | the file is replaced as a whole or not at all |
| TokenStore.TokenStore.MintPair | src/oauth/tokens.rs:187-224 | a linked pair, kept in memory even if the save fails |
| TokenStore.TokenStore.FindByRefreshHash | src/oauth/tokens.rs:276-284 | the one record with the presented token's hash, and none exactly if there is none |
| TokenStore.TokenStore.RotateRefresh | src/oauth/tokens.rs:235-259 | the old pair goes and a new one comes, for its own client only |
| TokenStore.TokenStore.RevokeById | src/oauth/tokens.rs:298-310 | the token and its access token go; a save only if there was a token |
| TokenStore.TokenStore.RevokeByClient | src/oauth/tokens.rs:335-344 | all tokens of the client go and are counted |
| TokenStore.TokenStore.SweepAccess | src/oauth/tokens.rs:378-384 | exactly the expired access tokens go |
| OAuthGrants.ExchangedCodeIsGone | src/oauth/sessions.rs:329-386 | no session carries a code that was exchanged |
| OAuthGrants.RunKeepsConsistent | src/oauth/sessions.rs:181-183 | with mints only after successful exchanges, every grant has its own code and that code was exchanged by its session |
| OAuthGrants.OneLivePairPerCode | src/oauth/sessions.rs:181-183 | every token goes back to one exchanged code, and a code never has two live refresh tokens or two live access tokens |
| OAuthGrants.TokensServeTheirRequest | src/oauth/tokens.rs:187-259 | in every combined run every token, accepted, kept or in the file, stands for the client and scope for which the session was opened whose code it goes back to |
| Base64Url.EncodingFollowsBits | src/join.rs:64-84 | the encoder writes the bits of the input, six at a time, in order (section 5 of RFC 4648) |
| Base64Url.AlphabetIsTable | src/join.rs:56-84 | the alphabet is that of section 5 of RFC 4648 |
| Base64Url.RoundTrip | src/join.rs:64-116 | decoding an encoding gives the bytes back, for every byte string |
| Base64Url.DecodeSucceedsExactly | src/join.rs:86-116 | decoding succeeds if and only if all characters are in the alphabet and the length is not 1 modulo 4 |
| Base64Url.DecodeReportsFirstInvalid | src/join.rs:86-116 | the error names the first invalid character |
| Base64Url.ReencodeExactlyCanonical | src/join.rs:64-116 | encoding a decoded text gives the text back if and only if the unused low bits of its last character are zero (section 3.5 of RFC 4648) |
| Base64Url.Base64UrlEncode | src/join.rs:64-84 | the chunk loop computes the encoding |
| Base64Url.Base64UrlDecode | src/join.rs:86-116 | the chunk loop computes the decoding or its error |
| Framing.LengthReadsBack | src/plugin/proxy.rs:234-239 | a length is read back from its decimal form, up to 64 bits |
| Framing.LengthParsesExactly | src/plugin/proxy.rs:234-239 | a length is decimal digits, perhaps after a plus sign, whose value fits into 64 bits; nothing else is one |
| Framing.LengthFramesReadBack | src/plugin/proxy.rs:225-249 | every list of bodies is read back from its length-framed stream, which is read to its end |
| Framing.HeadersReadExactly | src/plugin/proxy.rs:225-249 | a message is read whatever headers come with it: the last length counts and other headers are ignored; a malformed or missing length, an early end and a body that is no UTF-8 are reported, the first of them |
| Framing.BadHeaderIsReported | src/plugin/proxy.rs:225-233 | so is a header that is no UTF-8 |
| Framing.LineFramesReadBack | src/plugin/proxy.rs:252-264 | so is every list of trimmed, non-empty, single-line bodies from its lines |
| Framing.FirstLineDecides | src/plugin/proxy.rs:252-264 | a line that is no UTF-8 is an error, a blank one is skipped, and any other is the message, trimmed |
| Framing.LastLineNeedsNoFeed | src/plugin/proxy.rs:252-264 | the last message may end with the stream |
| Framing.LineMessagesAreTrimmed | src/plugin/proxy.rs:252-264 | whatever the stream holds, a message read from a line is a trimmed, non-empty, single line |
| Framing.LineFrameReadsBackExactly | src/plugin/proxy.rs:252-264 | a body survives the line framing if and only if it is one |
| Utf8Text.Utf8Exactly | src/plugin/proxy.rs:225-264 | what the reader takes for UTF-8 is exactly the encoding of some text (section 3 of RFC 3629) |
| Utf8Text.TrimIsEncoded | src/plugin/proxy.rs:225-264 | trimming the bytes of a line is trimming its text of Unicode white space |
| Framing.SessionReadsBackExactly | src/plugin/proxy.rs:215-222 | with detection from the bytes that arrive first, a stream of JSON objects is read back if and only if it is line-framed or the first 15 bytes arrive together |
| Framing.SessionIsDetectedExactly | src/plugin/proxy.rs:215-222 | a session is read by length if and only if the stream begins with the name of a length header, in either spelling, and all of it arrived first |
| Framing.ReadHeaderLines | src/plugin/proxy.rs:225-244 | the header loop refines the specification; the last length counts |
| Framing.ReadContentLengthMessage | src/plugin/proxy.rs:225-249 | reads the body and leaves the rest, or reports the error of the specification |
| Framing.ReadNewlineMessage | src/plugin/proxy.rs:252-264 | reads the first line that is not blank and leaves the rest |
| Framing.ReadMessages | src/plugin/proxy.rs:50-72 | the reading thread delivers exactly the messages of the session, up to the first error |
| Framing.ByteWriter.WriteResponse | src/plugin/proxy.rs:267-279 | one frame is appended to the output |

## Left out

- HTTP, SSE and stdio transports, routing, authentication middleware and the OAuth endpoints: plumbing over libraries; the stores behind them are modelled, and the token endpoint as "exchange, then mint".
- Cryptography and randomness: a hash is an injective constructor, ids, codes and tokens never repeat; the program's 32-bit session and token ids could collide in principle.
- Cancellation: a start or a run that has begun reaches its end, and a call that times out is a call that fails.
- Local failure files and their pruning, progress reporting inside a run, and setup, configuration and key handling.
- Task resolution, recall and backend selection before the attempt loop; an early failure is a run that ends as failed without a result.
- Rounding: amounts are real numbers where the program uses `f64`.
- TaskRun.RunEndsWell: token estimates, the JSON parser, tool outputs and error texts are parameters of the environment; an attempt artifact holds the whole text, not its first 4,000 characters.
- TaskRun.RunStaysInBudget: the reserve is taken to be between 0 and 1, as the configuration check demands, and the budget not to be negative, as the request check demands.
- Persistence.SnapshotsAreConsistent: versions become visible in the order in which they were written, results, sessions, deliverables and both kinds of copies independently of each other; a reader's failed query is not distinguished from one that finds nothing.
- Persistence.FinishedRunsAgree: a failed write takes effect in its place or never; a request that was abandoned at its timeout and lands after later writes, such as a done session after the failed one of the remedy, is not modelled.
- StatusReader.WrittenFactsAreReadByTheTable: the text of a session's copy tells its status by the words "status done" or "status failed"; an agent, task or model name that holds these words would mislead the reader, which is not modelled. A copy is read as its newest visible version.
- Persister.Persister.FinishRun: the error text that a failed persist adds to the returned result is not modelled.
- EventHub.StreamsReceiveTheirTask: events without a task id, which the hub ignores, are not modelled.
- EventHub.TablesStayTidy: the 64-bit stream counter does not wrap around.
- EventHub.McpEventHub.SendToSessions: a channel is the list of events it has taken; what its holder has read of them is not modelled.
- JsonScanner.MatchBraces: the depth counter is unbounded instead of 32 bits wide.
- Framing.ReadContentLengthMessage: an announced length that cannot be allocated, and how much a failing read consumes.
- Sessions.ExchangeComesOnceInTime: as in the program, an exchange looks at the code's deadline only, so it may come up to a minute after the session's own deadline.
- List views and counters (`list`, `list_refresh`, `find`): single-expression reads.
