# Verified model of the coding agent and its gateway

The repository holds a terminal coding agent (`src/llm_assistant_agent`) and an
OpenAI-compatible gateway in front of a model server (`src/llm_assistant_api`).
This project models the stateful parts of both in Dafny and proves what they
are for. `dafny verify dfyconfig.toml` checks all of it.

## The modules

The agent's turn protocol:

- `Transcript`: messages, and what the gateway accepts. `Acceptable` reads a
  transcript from the front; `EveryCallAnsweredOnce` says the same of the whole
  transcript at once, and the two are proved equal.
- `Compaction`: dropping the middle of a long transcript.
- `Protocol`: `Session` as a state machine, with one phase for each place where
  the code waits or asks, so that a run is any sequence of replies, decisions,
  results, failures, cancellations and compactions.
- `Sessions`: the class `Session` with the source's loops, proved to follow
  `Protocol.Run` event by event, whatever the environment does.
- `Json`, `JsonGrammar`: the acceptor behind `json.loads` as positions in a
  text, and the grammar of sections 2 to 7 of RFC 8259, independent of it, to
  which Python adds three constants; they accept the same texts.
- `Client`: assembling streamed tool calls and deciding which may run.

The agent's files:

- `Search`, `Edits`: `find`, `count`, `split`, `join` and `replace` on strings,
  the strict replacer, and its diagnosis of an anchor that is not there.
- `Cache`: the file cache, against the record of everything ever touched.
- `Workspaces`: an abstract disk that others change too, reading through the
  cache, the read-before-edit permission, writing.
- `Store`: what a saved session remembers of files and what a resumed one gets.
- `Tools`: the approval preview, the tools that touch files, whole runs of them.

The gateway's guards:

- `Times`, `RateLimiting`: the sliding-window limiter against the full log of
  the calls it allowed.
- `CircuitBreaker`: the breaker of one upstream against the full log of what was
  recorded on it.
- `Retry`: the backoff loop, and the breaker bookkeeping of one forwarded request.
- `Payload`: the copy-on-write repair of an inbound request body.

`Text` and `Wrappers` hold what the others share. State that the source updates
in place is a class (`Session`, `AssistantTurn`, `FileCache`, `Workspace`,
`ToolBox`, `RateLimiter`, `CircuitBreaker`); each method is proved equal to a
function on the state, and the theorems are about that function over whole runs.
Whatever the code gets from elsewhere (clock readings, replies, tool outcomes,
approvals, random draws, file changes by others) is a parameter, so a theorem
holds for every behaviour of it.

## Where the code does not do what is said of it

The model follows the code. Each of these is a lemma with the exact condition,
or with a family of inputs, and not a single case where a family exists.

- A turn stopped early leaves its later calls unanswered: the transcript stays
  acceptable exactly when the stopping call was the turn's last
  (`Protocol.StopIsAcceptableIff`), and the next question, sent whole, exactly
  when nothing was left open (`Protocol.NextAskIsAcceptableIff`). Nothing mends
  it, a cancellation later on included, although
  `src/llm_assistant_agent/session.py:230` says that one leaves the transcript
  acceptable: until a compaction everything sent is unacceptable
  (`Protocol.AbandonedTurnSpoils`, `Protocol.SpoiledUntilCompacted`).
- Compaction puts a result of a file being edited in twice. It keeps a
  transcript acceptable exactly when no surviving result is of that kind
  (`Compaction.CompactionKeepsOrderIff`).
- Compaction reads stored arguments as a record, but the client stores text, on
  which the read raises. A long transcript over its budget then raises exactly
  when one of its last six messages is a file tool's result while some file is
  being edited, or a dropped message is the result of a read
  (`Compaction.TextRaisesIff`; both happen: `Compaction.RecentResultRaises`,
  `Compaction.DroppedReadRaises`). Arguments are modelled as either.
- Compaction can also hide what an abandoned turn left open: what it sends is
  acceptable exactly when the suffix that survives is
  (`Protocol.CompactedAskIsAcceptableIff`, `Protocol.CompactionHidesOpenCalls`).
  The archive, which is what is saved, is out of its reach, so that nothing mends
  that (`Protocol.ArchiveIsNeverMended`): a resumed session sends nothing
  acceptable until it compacts (`Protocol.HiddenCallsComeBack`).
- A call that comes without an id gets one made from its index, which the model
  may have given to another. The calls of a reply have distinct ids exactly when
  that does not happen and no id was given twice (`Client.IdsAreDistinctIff`,
  `Client.FallbackCanBeTaken`).
- An anchor that overlaps itself can stand at two places and still pass as
  unique. The anchors for which success means a single occurrence in every file
  are exactly those of which no proper prefix is a suffix
  (`Edits.UniqueIffUnbordered`).
- A report that the file differs "only in indentation" can name the same
  indentation twice, which `src/llm_assistant_agent/edits.py:97` means to avoid:
  stripping takes away the end of a line too. It names two different ones
  exactly when the line is blank or the two differ with only their ends stripped
  (`Edits.IndentationDiffersIff`). In the file "a", "x", "b", the anchor "a",
  "x ", "b" is told of no indentation on either side; so is any such anchor
  (`Edits.TrailingBlankIsCalledIndentation`).
- The diagnosis of an anchor that is not there, which is made for the model
  (`src/llm_assistant_agent/edits.py:49`), never reaches it: the tool looks for
  the anchor before the replacer does (`Tools.DiagnosisIsNeverGiven`).
- An edit whose new text has no carriage return changes more than its
  replacement, namely every line end of the file, exactly when the file has a
  carriage return (`Tools.EditInPlaceIff`); and a `write_file` of the text a file
  already shows rewrites its bytes without asking, exactly then
  (`Tools.UnaskedRewriteIff`).
- The cache hides an outside change exactly when it has an entry for the path
  with the change's mtime and another text, in whatever state
  (`Workspaces.ChangeIsSeenIff`). Directly after an undisturbed read, that is a
  change of text that keeps the mtime (`Workspaces.StaleIffMtimeKept`); but an
  mtime from before the last can also come back
  (`Workspaces.OldMtimeComesBack`).
- A stored digest is of the content at the time of saving, not of reading, as
  `src/llm_assistant_agent/store.py:70` says (`Store.DigestIsOfSaveTime`).
- Cleanup uses the global window for every endpoint. An endpoint is limited
  exactly, over all runs with a clock that does not go back, if and only if its
  own window is no longer than the global one or it never allows anything
  (`RateLimiting.ExactIffNarrow`). Exactly then is a reset time after a refusal
  right, too (`RateLimiting.ResetTimeIsExactIff`); for a wider window a caller is
  allowed before it (`RateLimiting.AllowedBeforeReset`).
- New limits for an endpoint in use hold from then on if its window does not
  grow (`RateLimiting.ReconfiguredIsValid`). If it grows, what the old window has
  dropped is missing, and a limit used up is allowed again
  (`RateLimiting.GrownWindowForgets`).
- The clock is read outside the lock, so readings can go back. For a clock that
  falls back by at most d, decisions agree with the log over all runs if and only
  if the endpoint never allows anything, or its window is not positive even with
  d added, or d is zero and its window is no longer than the global one
  (`RateLimiting.ExactWithinIff`). With a positive limit and window, then, however
  little the clock falls back is too much (`RateLimiting.EarlierCallIsAllowed`).
  The same goes for the gateway, which never asks what remains, except for a
  limit of one on a window that is not negative and, with d added, no longer than
  the global one (`RateLimiting.ExactPlainlyIff`).
  Both kinds of error happen: for every limit of at least two a call is refused
  that the log would allow (`RateLimiting.ClockGoingBackRefuses`), and a window
  holds more calls than the limit (`RateLimiting.ClockGoingBackAdmits`); with a
  query in between, that goes for every positive limit
  (`RateLimiting.LateQueryAdmits`).
- A failure does not reopen a half-open breaker, although
  `tests/test_circuit_breaker.py:110` expects it, and every request passes while
  it is half-open (`CircuitBreaker.HalfOpenAdmits`).
- An upstream that answers 429 to every attempt is recorded as healthy
  (`Retry.RateLimitedCountsAsHealthy`).

## Model

| member | source | states |
|---|---|---|
| Transcript.AcceptableIff | src/llm_assistant_agent/session.py:409-432 | The order the gateway demands, read message by message, holds exactly when every call is answered once, directly behind its message and in call order, and no result stands anywhere else. |
| Transcript.SuffixStands | src/llm_assistant_agent/session.py:508-510 | Cutting a well-ordered transcript before a message that is not a result leaves two parts that stand on their own. |
| Transcript.DoubledResultBreaks | src/llm_assistant_agent/session.py:502-506 | A result put in twice side by side is never acceptable when ids are distinct within a message, whatever follows. |
| Compaction.CompactionKeepsEnds | src/llm_assistant_agent/session.py:461-548 | A compaction that copies nothing leaves the first message, one notice counting what is gone, and a contiguous suffix that does not begin with a result; at most eight messages, so that a second one at once changes nothing. |
| Compaction.UnderBudgetIsKept | src/llm_assistant_agent/session.py:473-478 | Under its budget, whatever its length, and up to eight messages, whatever its budget, a transcript is left as it is, and nothing raises. |
| Compaction.CompactionKeepsOrder | src/llm_assistant_agent/session.py:461-548 | Such a compaction keeps an acceptable transcript acceptable. |
| Compaction.CompactionKeepsOrderIff | src/llm_assistant_agent/session.py:488-510 | With distinct ids, compaction keeps a transcript acceptable if and only if no surviving result belongs to a file written since it was read. |
| Compaction.CompactionCanDuplicate | src/llm_assistant_agent/session.py:500-506 | The bad case occurs: a concrete acceptable transcript that compaction makes unacceptable. |
| Compaction.TextIsHarmless | src/llm_assistant_agent/session.py:484-506 | With arguments stored as text, or with no file written since it was read, nothing is ever copied. |
| Compaction.TextRaisesIff | src/llm_assistant_agent/session.py:484-548 | With text arguments a long transcript over its budget raises if and only if one of its last six messages is a file tool's result while some file is being edited, or a dropped message is the result of a read_file; otherwise it compacts. |
| Compaction.RecentResultRaises | src/llm_assistant_agent/session.py:492-504 | Every file tool, with any file being edited, gives an acceptable transcript on which compaction raises. |
| Compaction.DroppedReadRaises | src/llm_assistant_agent/session.py:518-529 | So does a read followed by eight or more questions, with nothing being edited. |
| Compaction.RecordsCompact | src/llm_assistant_agent/session.py:484-548 | With arguments stored as records a long transcript over its budget never raises: what is left is the first message, a notice and the surviving messages, each result once more for every message that asked a file tool for it with a file being edited, or the transcript itself if that is no shorter. |
| Compaction.CompactedPending | src/llm_assistant_agent/session.py:461-548 | Whatever was open before it, a compacted transcript is acceptable if and only if the surviving suffix is, when nothing is copied, and never when something is and ids are distinct. |
| Protocol.EveryTranscriptSentIsAcceptable | src/llm_assistant_agent/session.py:227-304 | Over every run of questions, replies, results, refusals, cancellations at any wait and compactions, in which no turn is abandoned with calls open and no surviving result is of a file being edited, every transcript sent has each call answered exactly once, in order, directly behind its message; and the working list stays the archive or its first message, a notice and a suffix of it. |
| Protocol.RealSessionsStayAcceptable | src/llm_assistant_agent/session.py:227-304 | A session whose replies come from the client and whose arguments are text sends only acceptable transcripts, whatever files are being edited, if no turn is abandoned with calls open and no reply gives two calls one id, or one the id another falls back on. |
| Protocol.IdlessRepliesAreReal | src/llm_assistant_agent/client.py:289 | Nothing at all is asked of a reply whose calls came without ids. |
| Protocol.StepStaysText | src/llm_assistant_agent/session.py:210-213 | A transcript with text arguments keeps them: every stored call holds the text the client assembled. |
| Protocol.HistoryOnlyGrows | src/llm_assistant_agent/session.py:206-213 | In every run whatever, the archive only grows at its end: compaction and repair lose nothing of it. |
| Protocol.ArchiveIsKept | src/llm_assistant_agent/session.py:461-548 | At every state any run reaches, abandoned turns, crashes and any ids included, the working list is the archive, or its first message, one notice and a contiguous suffix of it, if no compaction meets a surviving result of a file being edited. |
| Protocol.TextArchiveIsKept | src/llm_assistant_agent/session.py:461-548 | With text arguments, as the client stores them, this holds over every run without exception. |
| Protocol.ArchiveIsAcceptable | src/llm_assistant_agent/session.py:193-213 | Over every run in which no turn is abandoned with calls open, no surviving result is copied and ids are good, the archive has open exactly what the working list has, whatever is compacted, and is acceptable at rest. |
| Protocol.ResumedSessionsStayAcceptable | src/llm_assistant_agent/session.py:193-205 | Over any number of sessions as the client feeds them, each resumed from the archive the one before saved at rest, every transcript sent is acceptable. |
| Protocol.AnsweredIsPrefix | src/llm_assistant_agent/session.py:334-380 | At every point of every run, whatever came before, the answered calls of the last assistant message are a prefix of its calls. |
| Protocol.CancelAnswersTheRest | src/llm_assistant_agent/session.py:234-242 | A cancellation while call k runs, abandoned turns before it or not, adds to both lists one invented result for each call from k on, in order, and leaves none of the turn's calls open. |
| Protocol.RepairAnswersTheRest | src/llm_assistant_agent/session.py:409-453 | With the first k calls of the last assistant message answered, whatever stands before it, repair finds exactly the later ids, in order, and answering them answers the whole message; with nothing open before, it makes the transcript acceptable. |
| Protocol.RepairClosesIff | src/llm_assistant_agent/session.py:434-453 | For any ids at all, repair closes the turn if and only if the open ids are not empty and not among those answered. |
| Protocol.RepairIsIdempotent | src/llm_assistant_agent/session.py:419-432 | On any transcript whatever, a second repair adds nothing. |
| Protocol.NothingOpen | src/llm_assistant_agent/session.py:434-453 | In an acceptable transcript repair finds nothing to add. |
| Protocol.AbandonedTurnLeavesOpen | src/llm_assistant_agent/session.py:347-379 | A turn given up at one call, or whose user cannot be asked, leaves exactly the later calls open. |
| Protocol.StopIsAcceptableIff | src/llm_assistant_agent/session.py:347-380 | After a turn is stopped the transcript is acceptable if and only if the stopping call was the last and nothing raised. |
| Protocol.AbandonedTurnSpoils | src/llm_assistant_agent/session.py:347-380 | A turn stopped with later calls open, or by an exception, leaves something no message added at the end can mend. |
| Protocol.SpoiledUntilCompacted | src/llm_assistant_agent/session.py:227-304 | From then on every transcript any run sends is unacceptable until a compaction, whatever is answered, cancelled or repaired in between. |
| Protocol.NextAskSends | src/llm_assistant_agent/session.py:244-268 | The next question sends its whole transcript, or what compaction makes of it, or nothing if compacting raises. |
| Protocol.NextAskIsAcceptableIff | src/llm_assistant_agent/session.py:244-268 | Sent whole, it is acceptable if and only if nothing was left open. |
| Protocol.CompactedAskIsAcceptableIff | src/llm_assistant_agent/session.py:251-268 | Sent compacted, it is acceptable if and only if the surviving suffix is, when nothing is copied; and never when something is and ids are distinct. |
| Protocol.CompactionHidesOpenCalls | src/llm_assistant_agent/session.py:508-510 | When the last six messages are five results and the question, compaction leaves the first message, a notice and the question: acceptable, whatever was open. |
| Protocol.OpenCallIsHidden | src/llm_assistant_agent/session.py:508-510 | It happens: an unacceptable transcript with one call open that compaction makes acceptable. |
| Protocol.AbandonedTurnSpoilsArchive | src/llm_assistant_agent/session.py:347-380 | A turn stopped with later calls open, or by an exception, leaves the archive unacceptable too, if it had open what the working list had. |
| Protocol.ArchiveIsNeverMended | src/llm_assistant_agent/session.py:206-213 | An archive with something open or out of order stays so over every run whatever, compactions included. |
| Protocol.HiddenCallsComeBack | src/llm_assistant_agent/cli.py:518-536 | However such a session went on, one resumed from its archive sends only unacceptable transcripts until it compacts. |
| Protocol.LoopsAreBounded | src/llm_assistant_agent/session.py:306-379 | From any resting state, u questions let the same call with the same arguments run and fail at most max(0, 3 - c) + u times, c being its failures so far: four in one question, 3 + u in a session of u, since the counter is never reset. |
| Protocol.FailuresAreCounted | src/llm_assistant_agent/session.py:314-318 | Over any run the counter of a call rises by exactly the number of its failed executions. |
| Protocol.RequestsAreBounded | src/llm_assistant_agent/session.py:251-303 | u questions send at most 40u requests to the model. |
| Protocol.TurnIsSent | src/llm_assistant_agent/session.py:251-380 | A question goes on after a turn's calls: whatever the user refuses and whatever fails short of a fourth time, the next request before the fortieth, if not compacted, is the transcript, the reply with each call's id, name and arguments, and one result for each in order, with its content, or the refusal, and the number of a second or third failure. |
| Protocol.RetryIsSent | src/llm_assistant_agent/session.py:283-299 | When nothing the model called could run, the next request is the transcript, the reply, and a message that names every problem and asks to try again. |
| Protocol.QuestionEndsIff | src/llm_assistant_agent/session.py:250-304 | A question comes to rest if and only if a reply has neither calls nor problems, there is no reply, the user cannot be asked, a call has failed a fourth time, something raises, it is cancelled, or the turn of its fortieth request is over. |
| Protocol.RemarkIsByCount | src/llm_assistant_agent/session.py:306-332 | Over a whole session, a call's first failure passes without remark, its second and third are remarked on with their number, the fourth and later ones end the question; a success is never remarked on. |
| Protocol.SignatureIsInjective | src/llm_assistant_agent/session.py:314 | Calls are told apart by name and decoded arguments, both, if names hold no colon. |
| Protocol.UnaskableIsAnswered | src/llm_assistant_agent/session.py:350-358 | A call whose user cannot be asked is answered so in both lists, and the question ends. |
| Protocol.UnpressedSendsAll | src/llm_assistant_agent/session.py:470-478 | Over every run in which the estimate stays under the budget, the working list is the archive, and the model is sent the whole archive at every request. |
| Protocol.RulesOpenTheSession | src/llm_assistant_agent/session.py:244-248 | Over every run of a new session, the rules stand in the first message of the archive and in no other. |
| Sessions.Session.SayMessage | src/llm_assistant_agent/session.py:210-213 | A message goes to the end of both lists. |
| Sessions.Session.Repetition | src/llm_assistant_agent/session.py:306-332 | A failure is counted under name and arguments, remarked on from the second time, and ends the turn from the fourth. |
| Sessions.Session.ExecuteOne | src/llm_assistant_agent/session.py:336-380 | Asking about, running and recording one call takes the machine through that call's events. |
| Sessions.Session.Execute | src/llm_assistant_agent/session.py:334-380 | The loop over a turn's calls takes the machine through exactly their events, and stops where the machine stops. |
| Sessions.Session.UnansweredToolCalls | src/llm_assistant_agent/session.py:434-453 | The backward scan finds the ids the last assistant message still lacks. |
| Sessions.Session.RepairAfterCancel | src/llm_assistant_agent/session.py:409-432 | One invented result for each open id, in order, in both lists, and their number returned. |
| Sessions.Session.CopiesToKeep | src/llm_assistant_agent/session.py:495-504 | How often the nested search inserts a result again, or that it raises. |
| Sessions.Session.NamingFails | src/llm_assistant_agent/session.py:518-529 | Naming the dropped files raises exactly when a dropped result answers a read with text arguments. |
| Sessions.Session.BuildTail | src/llm_assistant_agent/session.py:488-506 | The newest-first loop builds the window with every result behind its copies. |
| Sessions.Session.CompactIfNeeded | src/llm_assistant_agent/session.py:461-548 | Compaction in place gives exactly the specified transcript, or leaves it alone when it declines or raises. |
| Sessions.Session.OneTurn | src/llm_assistant_agent/session.py:251-301 | One iteration follows the machine from compaction through the reply and its calls. |
| Sessions.Session.OneStep | src/llm_assistant_agent/session.py:251-301 | The same as a part of its question: what is left to do leads to the same end. |
| Sessions.Session.StepLoop | src/llm_assistant_agent/session.py:251-304 | The loop of at most forty iterations follows the machine to its end or a cancellation. |
| Sessions.Session.AskOnce | src/llm_assistant_agent/session.py:244-304 | A whole question follows the machine, from the message said to the end or a cancellation. |
| Sessions.Session.AskSession | src/llm_assistant_agent/session.py:227-242 | With the repair on cancellation, a question leaves exactly the state the machine reaches, so that every theorem about runs holds of the class; and it ends in a cancellation, in another exception or normally as the event does that ends it. |
| Json.ObjectsArePrefixFree | src/llm_assistant_agent/client.py:259-262 | No proper prefix of a JSON object is JSON, through nested strings, escapes and brackets. |
| JsonGrammar.ObjectTextsLoad | src/llm_assistant_agent/client.py:259-262 | Every object of the RFC 8259 grammar is accepted and is recognised as an object. |
| JsonGrammar.LoadsIff | src/llm_assistant_agent/client.py:261 | A text loads if and only if the grammar of RFC 8259 with `NaN`, `Infinity` and `-Infinity` derives it. |
| JsonGrammar.LoadsObjectIff | src/llm_assistant_agent/client.py:261-285 | It loads as a dict if and only if its value is an object. |
| JsonGrammar.StrippedIsObjectText | src/llm_assistant_agent/client.py:259-262 | Stripping an object text leaves an object text. |
| Client.Assembled | src/llm_assistant_agent/client.py:223-237 | What is assembled for an index is the concatenation of its fragments' names and arguments in stream order, and its last id. |
| Client.AssembledKeys | src/llm_assistant_agent/client.py:223-229 | An index is assembled exactly when some fragment mentions it. |
| Client.SameAssembly | src/llm_assistant_agent/client.py:223-237 | Two streams that read the same for every index assemble the same calls. |
| Client.SplittingIsInvisible | src/llm_assistant_agent/client.py:223-237 | Sending one fragment as two, anywhere in a stream, changes nothing. |
| Client.SwappingIsInvisible | src/llm_assistant_agent/client.py:223-237 | Swapping adjacent fragments of different indices, anywhere in a stream, changes nothing. |
| Client.TruncationIsNeverExecuted | src/llm_assistant_agent/client.py:259-283 | Of a call whose arguments are an object, a cut-off part executes if and only if it is blank (and runs as an empty object) or complete; otherwise it gives one note of the right kind. |
| Client.CutStreamsAreSafe | src/llm_assistant_agent/client.py:189-283 | The same for a stream cut anywhere, for every object of RFC 8259. |
| Client.StreamRuns | src/llm_assistant_agent/client.py:189-297 | From the fragments of a whole stream: the calls that run are, in index order, those of exactly the indices that are spoken of, have a name, and whose arguments are an object; each has the last id given or `call_` and its index, the whole name, and the whole arguments without white space around them, `{}` if there are none; and the payload that goes back is the same. |
| Client.StreamNotes | src/llm_assistant_agent/client.py:253-287 | Every other index gives, in index order, the one note that says why: no name, no JSON, cut off by the output limit, or no object. |
| Client.DecimalIsWorth | src/llm_assistant_agent/client.py:289 | The index in an invented id is written in plain decimal digits with no leading zero, and read back is the index. |
| Client.OneVerdictEach | src/llm_assistant_agent/client.py:253-297 | Every index gives exactly one call or one malformed note, and nothing else gives either. |
| Client.CallsInOrder | src/llm_assistant_agent/client.py:253-297 | The k-th call comes from the k-th of a strictly increasing sequence of indices, which are exactly those whose call may run. |
| Client.IdsAreNeverEmpty | src/llm_assistant_agent/client.py:289 | No call that may run has an empty id. |
| Client.FallbackIdIsInjective | src/llm_assistant_agent/client.py:289 | Different indices fall back on different ids, negative ones included. |
| Client.IdsAreDistinctIff | src/llm_assistant_agent/client.py:289-297 | The calls of a reply that may run have distinct ids if and only if the model gave no two of them one id, and none the id that another, sent without one, falls back on. |
| Client.FallbackCanBeTaken | src/llm_assistant_agent/client.py:289 | It happens, for any two indices: one call is given the id the other falls back on, and both run under it. |
| Client.AssistantTurn.Consume | src/llm_assistant_agent/client.py:189-237 | One event extends the content and absorbs its fragments, in place. |
| Client.AssistantTurn.Assemble | src/llm_assistant_agent/client.py:149-187 | All events of a stream, in place: its whole text, its last finish reason, and the calls, payload and notes that its fragments come to. |
| Client.AssistantTurn.SettleAll | src/llm_assistant_agent/client.py:253-297 | The loop appends each index's verdict; the raw calls agree with the executable ones element by element. |
| Client.AssistantTurn.SettleOne | src/llm_assistant_agent/client.py:254-297 | One index gives its verdict: a call and its raw form, or one note. |
| Client.AssistantTurn.Finalise | src/llm_assistant_agent/client.py:249-315 | The same over the sorted indices, with a leaked call noted only when nothing parsed. |
| Search.CountIsOneIff | src/llm_assistant_agent/edits.py:314-355 | The non-overlapping count is one if and only if there is an occurrence inside which every other one starts. |
| Search.CountIsZeroIff | src/llm_assistant_agent/edits.py:314-316 | The count is zero if and only if there is no occurrence. |
| Search.GreedySplitIsUnique | src/llm_assistant_agent/edits.py:352-353 | A text has only one split at greedy non-overlapping occurrences. |
| Search.SplitIsGreedy | src/llm_assistant_agent/edits.py:352-353 | Splitting finds that one. |
| Search.ReplaceJoins | src/llm_assistant_agent/edits.py:352-353 | Replacing every occurrence is splitting at them and joining with the new text. |
| Edits.DivergenceIsTrue | src/llm_assistant_agent/edits.py:120-208 | A reported divergence is true: the run really matches, is the longest over all candidate starts and the earliest of those, and the line it names really differs, a report of indentation meaning that only white space at either end does, or the file really ends there. |
| Edits.StartsIff | src/llm_assistant_agent/edits.py:131-142 | The candidate starts are the lines equal to the anchor's first solid line or, only if there is none, those equal to it when stripped. |
| Edits.HintIsRight | src/llm_assistant_agent/edits.py:306-326 | Of the four answers to an anchor that is not there, the first that is true is given: where it stops matching, that only white space differs, that its first line is invented, or none of these. |
| Edits.SquashIs | src/llm_assistant_agent/edits.py:78-83 | Texts are compared up to white space: any run of it is as good as any other, none counts at the ends, and a tidy text is itself. |
| Edits.FailureIsRight | src/llm_assistant_agent/edits.py:277-350 | Every failure says what is true: no anchor; a change to itself, and whether the text is there; not found, with the right hint and the staleness given; or ambiguous, with the number of pieces a split makes less one, and the first five lines at which the anchor stands. |
| Edits.IndentationDiffersIff | src/llm_assistant_agent/edits.py:190-200 | A report of indentation names two different indentations if and only if the line is blank or the two lines differ with only their ends stripped; otherwise it names the same one twice. |
| Edits.TrailingBlankIsCalledIndentation | src/llm_assistant_agent/edits.py:190-200 | It does the latter: for every file of three lines whose first is solid and like no other, a blank too many behind an unindented second line is reported as indentation, with none on either side. |
| Edits.HintsExclude | src/llm_assistant_agent/edits.py:120-227 | At most one of the two hints answers; neither does exactly when the anchor is blank or all of it from its first solid line is in the file. |
| Edits.ExactlyOneHint | src/llm_assistant_agent/edits.py:120-227 | For an anchor that is not in the file and does not begin with a blank line, exactly one of the two hints answers. |
| Edits.SingleEditIff | src/llm_assistant_agent/edits.py:261-355 | A single edit succeeds if and only if some occurrence has every other one start inside it, and gives the text before it, the new text and the text behind it. |
| Edits.OverlappingAnchorPasses | src/llm_assistant_agent/edits.py:314-355 | So an anchor standing at two places can pass as unique. |
| Edits.UniqueIffUnbordered | src/llm_assistant_agent/edits.py:314-355 | Success means a single occurrence, in every file, if and only if no proper prefix of the anchor is also its suffix. |
| Edits.ReplaceAllIff | src/llm_assistant_agent/edits.py:261-355 | Replace-all succeeds if and only if the anchor occurs; it keeps the pieces of the one greedy split, joins them with the new text, and its length is the old one plus the count times the difference. |
| Edits.ReplaceAllMeans | src/llm_assistant_agent/edits.py:352-353 | The same in terms of the computed split, with the length law for every input. |
| Edits.SuccessChanges | src/llm_assistant_agent/edits.py:277-355 | A successful edit never gives back the text it was given. |
| Edits.StalenessIsOnlyAdvice | src/llm_assistant_agent/edits.py:261-341 | Whether the file was written since it was read changes only the message of a failure. |
| Edits.OccurrenceIsListed | src/llm_assistant_agent/edits.py:54-60 | Every occurrence, overlapping ones too, has its line listed. |
| Edits.ListedIsOccurrence | src/llm_assistant_agent/edits.py:54-60 | Every line listed is that of an occurrence. |
| Edits.ListedInOrder | src/llm_assistant_agent/edits.py:54-60 | The lines listed are those of all occurrences, one for each, in order. |
| Edits.LineOfCounts | src/llm_assistant_agent/edits.py:58 | A position's line is one more than the number of line feeds before it. |
| Edits.AtLeastTwoLines | src/llm_assistant_agent/edits.py:342-350 | An ambiguous anchor is always given at least two lines. |
| Edits.LineNumbersOf | src/llm_assistant_agent/edits.py:54-60 | The loop lists the lines of all occurrences in order. |
| Edits.DivergenceHint | src/llm_assistant_agent/edits.py:120-208 | The loop over candidate starts keeps the earliest longest run, so that its report is the one proved true. |
| Edits.Matched | src/llm_assistant_agent/edits.py:120-208 | The inner loop measures the whole run of equal lines. |
| Cache.PutHoldsLatest | src/llm_assistant_agent/workspace.py:74-81 | Storing keeps the cache a suffix of the keys in order of last use; only a full cache evicts, and then only the least recently used key. |
| Cache.GetHoldsLatest | src/llm_assistant_agent/workspace.py:61-72 | So does a lookup: a hit becomes the most recent, an entry with another mtime goes. |
| Cache.DropHoldsLatest | src/llm_assistant_agent/workspace.py:83-86 | So does an invalidation, which removes at most that key. |
| Cache.RecencyIsByLastUse | src/llm_assistant_agent/workspace.py:50-55 | The order kept is that of the last use of each key over the whole record of operations. |
| Cache.RecencyHoldsTheUsed | src/llm_assistant_agent/workspace.py:50-55 | It holds exactly the keys used and not deleted since. |
| Cache.FileCache.GetText | src/llm_assistant_agent/workspace.py:61-72 | The lookup in place, keeping at most the maximum size in order of use. |
| Cache.FileCache.PutText | src/llm_assistant_agent/workspace.py:74-81 | The store in place, keeping the same. |
| Cache.FileCache.Invalidate | src/llm_assistant_agent/workspace.py:83-86 | The deletion in place, keeping the same. |
| Workspaces.ReadIsHonest | src/llm_assistant_agent/workspace.py:149-200 | Whatever happens to the disk between the two looks a read takes, the text it gives is the disk's at one of them, and no entry left in the cache can mislead a later read, if outside changes bring mtimes the path has not had. |
| Workspaces.CacheIsInvisible | src/llm_assistant_agent/workspace.py:174-200 | Undisturbed, a read through the cache answers as one without it, error for error, and marks the file read as the arguments say. |
| Workspaces.WriteKeepsGood | src/llm_assistant_agent/workspace.py:211-226 | An agent's write may reuse any mtime without the cache going wrong, and keeps the three sets of paths within one another. |
| Workspaces.WriteIs | src/llm_assistant_agent/workspace.py:211-226 | A write fails exactly on a directory or under a file, and then changes nothing; otherwise the file has the text, the cache no entry for it, the path is seen, written and written since it was read, and nothing else changes. |
| Workspaces.ReadIs | src/llm_assistant_agent/workspace.py:165-200 | What any read answers: the refusal of the first look, else the text the cache has for the mtime then seen, else what the second look finds. |
| Workspaces.ChangeIsSeenIff | src/llm_assistant_agent/workspace.py:174-200 | In any state whatever, the read after an outside change tells the truth if and only if the cache has no entry for the path with the change's mtime and another text. |
| Workspaces.OldMtimeComesBack | src/llm_assistant_agent/workspace.py:181-196 | That mtime need not be the file's last: a change in the middle of a read leaves its text in the cache under the older mtime, and the old version put back is not seen. |
| Workspaces.StaleIffMtimeKept | src/llm_assistant_agent/workspace.py:181-187 | After an outside change directly behind an undisturbed read, the next read tells the truth if and only if the mtime differs from the one read or the text is the same. |
| Workspaces.TranslateIsIdentityIff | src/llm_assistant_agent/workspace.py:190 | Reading in text mode gives the file's own text if and only if it has no carriage return, and reading what was read changes no more. |
| Workspaces.TranslateIs | src/llm_assistant_agent/workspace.py:190 | Text is kept, and a carriage return, with the line feed behind it if there is one, becomes one newline. |
| Workspaces.Workspace.ReadText | src/llm_assistant_agent/workspace.py:149-200 | The read in place, with the outside world acting between its two looks. |
| Workspaces.Workspace.WriteText | src/llm_assistant_agent/workspace.py:211-226 | The write in place: file, cache, and all three sets. |
| Store.DigestsOf | src/llm_assistant_agent/store.py:255-262 | One item for each seen file that is still there, with its present content, and no other. |
| Store.RestoreSeen | src/llm_assistant_agent/store.py:201-219 | Exactly the files whose items stand become seen, and restored plus stale is the number of items. |
| Store.PermissionIff | src/llm_assistant_agent/store.py:201-262 | Across a save and a resume, wherever names lead by then, if anywhere, permission for a file comes back if and only if some file was seen and there at the save whose name now leads to this one, and this one has the content that one had. |
| Store.RestoredIff | src/llm_assistant_agent/store.py:201-262 | If every file seen is still found under its own name, permission for a file comes back if and only if it was seen, was there at the save, and has the content it had then. |
| Store.ResumeIsRoundTrip | src/llm_assistant_agent/store.py:201-262 | With the disk unchanged and every file seen still found under its own name, resuming gives back every seen file still there, and nothing else. |
| Store.DigestIsOfSaveTime | src/llm_assistant_agent/store.py:255-262 | Whatever the session read, a later outside change on disk at the save is what a resumed session is trusted with, if the file is still found under its own name. |
| Tools.ApprovedIsWritten | src/llm_assistant_agent/tools.py:449-529 | What is asked names the path as given and whether it edits, creates or overwrites, and shows two different texts; with nothing in between, the approved call leaves exactly the previewed text in the previewed file and no other file touched, or the whole disk alone; and it succeeds if and only if the target is not a directory and does not lie under a file, and, for an edit, is small enough to read. |
| Tools.NothingToApprove | src/llm_assistant_agent/tools.py:458-494 | Whenever there is nothing to approve, the call leaves every file looking as it did, a missing one counted as empty. |
| Tools.NoUnapprovedChange | src/llm_assistant_agent/tools.py:496-529 | No file's look changes but after a yes, and then as previewed. |
| Tools.CommandNeedsYes | src/llm_assistant_agent/tools.py:427-444 | A command runs if and only if it is not blank and was approved as shown. |
| Tools.AskedIff | src/llm_assistant_agent/tools.py:418-506 | Only commands, edits and writes are asked about; a call is declined exactly when it was to be asked about and the answer is no, and then nothing is done. |
| Tools.OutsideIsRefused | src/llm_assistant_agent/tools.py:460-467 | A path that leads nowhere inside the workspace is not asked about, and is refused with nothing done. |
| Tools.EditOutcomes | src/llm_assistant_agent/tools.py:656-696 | What an undisturbed edit comes to: refused without permission, without an anchor, with nothing to read or with an anchor that is not there, in this order, and otherwise as the replacer says on the disk's text and the staleness before the read. |
| Tools.DiagnosisIsNeverGiven | src/llm_assistant_agent/tools.py:673-687 | Whatever happens meanwhile, an edit that the replacer refuses is ambiguous or changes nothing: its account of an anchor that is not there is never given. |
| Tools.UnaskedRewriteIff | src/llm_assistant_agent/tools.py:468-494 | Writing back what a file shows asks for nothing, and leaves its bytes alone if and only if it has no carriage return or cannot be written at all. |
| Tools.EditInPlaceIff | src/llm_assistant_agent/tools.py:669-696 | An edit with a text free of carriage returns leaves none in the file, and is the same replacement in the stored bytes if and only if they had none. |
| Tools.SeenIffGranted | src/llm_assistant_agent/tools.py:449-529 | After any run of calls, previews, resumes and outside changes, the files the agent may edit are exactly those some read, write or restore of the run granted: previews grant nothing. |
| Tools.EditsArePermitted | src/llm_assistant_agent/tools.py:656-659 | Every file an edit changes was granted earlier in the same session. |
| Tools.MarkedIffWrittenLast | src/llm_assistant_agent/workspace.py:184-225 | After any run a file counts as written since it was read exactly when the last thing done to it was a write or an edit, and not a whole read or an edit that read it and failed. |
| Tools.WrittenIffDone | src/llm_assistant_agent/workspace.py:211-226 | After any run a file counts as written exactly when some write or edit of the run was done on it. |
| Tools.SetsStayNested | src/llm_assistant_agent/tools.py:496-529 | Over every run, whatever the mtimes, written-since-read stays within written, and written within seen. |
| Tools.ReadsAreHonest | src/llm_assistant_agent/tools.py:614-711 | Over every run whose outside changes bring new mtimes, no read shows a text the disk does not hold, and every edit that is done has made its replacement in a text the file held at one of its two looks, and changed no other file. |
| Tools.SessionReadsAreHonest | src/llm_assistant_agent/workspace.py:120-127 | In particular from a newly opened workspace. |
| Tools.StepKeepsGood | src/llm_assistant_agent/tools.py:496-529 | One event of any kind keeps the cache true and the sets nested. |
| Tools.ToolBox.Approval | src/llm_assistant_agent/tools.py:418-447 | What is asked, computed without changing the workspace. |
| Tools.ToolBox.EditApproval | src/llm_assistant_agent/tools.py:449-494 | The preview, computed without changing the workspace. |
| Tools.ToolBox.InvokeCall | src/llm_assistant_agent/tools.py:496-529 | Asking unless approved, then the call, in place; after a no, nothing. |
| Tools.ToolBox.Act | src/llm_assistant_agent/tools.py:508-529 | The tool a call names, in place. |
| Tools.ToolBox.EditFileAt | src/llm_assistant_agent/tools.py:656-701 | An edit in place: permission, read, replacement, write, with the state each failure leaves. |
| Tools.ToolBox.WriteFileAt | src/llm_assistant_agent/tools.py:703-711 | A write in place, refused for a file that is not text. |
| RateLimiting.AllowIsExact | src/llm_assistant_api/rate_limiting.py:92-124 | On an endpoint whose window is no longer than the global one, a call is allowed if and only if fewer than the limit of all calls ever allowed for its key lie in the last window of the full log, so that pruning and cleanup are invisible. |
| RateLimiting.ExactIffNarrow | src/llm_assistant_api/rate_limiting.py:92-231 | An endpoint's decisions agree with the full log after every run with a clock that does not go back, if and only if its window is no longer than the global one or its limit is not positive. |
| RateLimiting.NarrowIsExact | src/llm_assistant_api/rate_limiting.py:92-231 | One decision at the end of any such run of a fresh limiter, on a narrow window. |
| RateLimiting.RemainingIsExact | src/llm_assistant_api/rate_limiting.py:192-209 | What remains is the limit less what the full log has in the window, and asking does not disturb later answers. |
| RateLimiting.RemainingPredictsAllow | src/llm_assistant_api/rate_limiting.py:192-209 | On a narrow window, something remains if and only if a call at that moment would be allowed. |
| RateLimiting.LimiterFollowsLog | src/llm_assistant_api/rate_limiting.py:92-231 | Over every run of calls and queries on any endpoints, with a clock that does not go back, the answers on a narrow endpoint are those its full log alone dictates. |
| RateLimiting.DefaultsHold | src/llm_assistant_api/rate_limiting.py:83-122 | An endpoint without limits of its own is held, after every run of a fresh limiter, to the configuration's number of calls in the configuration's seconds: the decision, what remains, every window of the log, the answers of the whole run, and the reset time after a refusal, which is that of the limit's-last call in the log plus the window. |
| RateLimiting.OwnLimitsHold | src/llm_assistant_api/rate_limiting.py:72-122 | One with limits of its own, and a window no longer than the global one, is held to those in the same way. |
| RateLimiting.ReconfiguredIsValid | src/llm_assistant_api/rate_limiting.py:72-77 | New limits set in the middle of a run hold from then on if the window does not grow. |
| RateLimiting.GrownWindowForgets | src/llm_assistant_api/rate_limiting.py:72-77 | For every window that grows and stays within the global one, a run ends in a call allowed with the whole limit in the new window. |
| RateLimiting.NoWindowExceeds | src/llm_assistant_api/rate_limiting.py:92-124 | No window of a key's length, wherever it ends, ever holds more allowed calls than the limit. |
| RateLimiting.ResetTimeIsExact | src/llm_assistant_api/rate_limiting.py:173-190 | On a narrow window, at the end of every run, after a refusal with no calls in between, a later call is allowed if and only if its time is at or past the reset time; a limit that is not positive never allows one. |
| RateLimiting.ResetTimeIsExactIff | src/llm_assistant_api/rate_limiting.py:173-231 | That holds after every refusal of every run with a clock that does not go back, if and only if the window is no longer than the global one or the limit is not positive. |
| RateLimiting.AllowedBeforeReset | src/llm_assistant_api/rate_limiting.py:173-231 | For every wider window and positive limit, a run of a fresh limiter ends in a refused caller that is allowed before its reset time. |
| RateLimiting.CleanupIsInvisible | src/llm_assistant_api/rate_limiting.py:211-231 | Cleanup deletes only keys with nothing left in their own window. |
| RateLimiting.CleanupLeaves | src/llm_assistant_api/rate_limiting.py:211-231 | A cleanup takes place when an interval has passed since the last one, and leaves, as they are, exactly the keys with a call no older than the global window. |
| RateLimiting.WideWindowForgets | src/llm_assistant_api/rate_limiting.py:220-227 | For every endpoint window longer than the global one, a run of a fresh limiter ends in a call allowed well inside the window although the limit is used up. |
| RateLimiting.KeptIsSuffix | src/llm_assistant_api/rate_limiting.py:92-231 | Under any clock and any windows, what is kept of a key is a suffix of its log. |
| RateLimiting.ExactWithinIff | src/llm_assistant_api/rate_limiting.py:92-231 | For a clock that falls back by at most d, every decision over all runs agrees with the full log if and only if the limit is not positive, or window plus d is not, or d is zero and the window no longer than the global one. |
| RateLimiting.EarlierCallIsAllowed | src/llm_assistant_api/rate_limiting.py:192-209 | However little the clock falls back, if window plus d is positive: a limit used up is dropped by a later query, and a call read d earlier is allowed with the whole limit still in its window. |
| RateLimiting.ExactPlainlyIff | src/llm_assistant_api/rate_limiting.py:92-231 | For runs of calls and reset times only, and a clock that falls back by at most d, decisions agree with the full log if and only if they do for all runs, or the limit is one, the window not negative, and window plus d no longer than the global one. |
| RateLimiting.EarlierPlainCallIsAllowed | src/llm_assistant_api/rate_limiting.py:92-122 | For every limit of at least two, if window plus d is positive: a call that drops a limit used up lets one read d earlier pass with more than the limit in its window. |
| RateLimiting.CleanedUpByAnother | src/llm_assistant_api/rate_limiting.py:211-231 | With a limit of one, if window plus d passes the global window: another caller's cleanup lets a call read d earlier pass with the limit used up. |
| RateLimiting.LowerCallHides | src/llm_assistant_api/rate_limiting.py:104-122 | With a limit of one and a negative window, window plus d positive, a call read earlier hides one read later. |
| RateLimiting.WrongDecisions | src/llm_assistant_api/rate_limiting.py:92-124 | Under any clock and any windows, a call is wrongly refused only where an old time hides behind a live one, and wrongly allowed only where a live call was dropped. |
| RateLimiting.HiddenIff | src/llm_assistant_api/rate_limiting.py:116-117 | No old call is still counted if and only if no kept time outside the window stands behind one inside it. |
| RateLimiting.LostIff | src/llm_assistant_api/rate_limiting.py:220-227 | No live call is lost if and only if every logged time not kept has left the window. |
| RateLimiting.ClockGoingBackRefuses | src/llm_assistant_api/rate_limiting.py:104-122 | For every limit of at least two: a call, the rest at an earlier time, and a call is refused with one call in the window. |
| RateLimiting.ClockGoingBackAdmits | src/llm_assistant_api/rate_limiting.py:104-122 | For every limit of at least two: a call, an earlier one, and a cleanup, after which the window holds more calls than the limit. |
| RateLimiting.LateQueryAdmits | src/llm_assistant_api/rate_limiting.py:192-209 | For every positive limit: asking at a later time what remains lets twice the limit through at an earlier one. |
| RateLimiting.KeysAreDistinct | src/llm_assistant_api/rate_limiting.py:112 | Endpoints without a colon keep the keys of all pairs apart. |
| RateLimiting.ColonsCollide | src/llm_assistant_api/rate_limiting.py:112 | With a colon in it, an endpoint shares its key with another. |
| RateLimiting.RateLimiter.IsAllowed | src/llm_assistant_api/rate_limiting.py:92-124 | The decision in place, in the numbers configured: of all calls ever allowed for the key, fewer than the limit lie in the last window, for an endpoint without limits of its own or with a narrow window; the log grows exactly by the calls allowed. |
| RateLimiting.RateLimiter.DecideInPlace | src/llm_assistant_api/rate_limiting.py:112-124 | The part below the cleanup: prune, decide, store. |
| RateLimiting.RateLimiter.GetRemainingRequests | src/llm_assistant_api/rate_limiting.py:192-209 | The limit less the calls of the log in the window, in the numbers configured, for an endpoint without limits of its own or with a narrow window. |
| RateLimiting.RateLimiter.GetResetTime | src/llm_assistant_api/rate_limiting.py:173-190 | The time the oldest kept call leaves the window, or now. |
| RateLimiting.RateLimiter.MaybeCleanup | src/llm_assistant_api/rate_limiting.py:211-231 | Deletes the stale keys, at most once an interval. |
| RateLimiting.RateLimiter.ConfigureEndpoint | src/llm_assistant_api/rate_limiting.py:72-77 | Sets one endpoint's limits and nothing else, and keeps the limiter right if the window does not grow. |
| CircuitBreaker.ClosedIff | src/llm_assistant_api/proxy.py:71-89 | Over every log, the breaker is closed if and only if, since the last success or reset, no failure was the threshold-th within the window that ends at it. |
| CircuitBreaker.BreakerFollowsLog | src/llm_assistant_api/proxy.py:71-123 | It keeps exactly the failures that can still matter, and has no opening time exactly while it is closed. |
| CircuitBreaker.TrippedIs | src/llm_assistant_api/proxy.py:82-89 | The trip is the first failure that makes up the threshold. |
| CircuitBreaker.AdmittedIff | src/llm_assistant_api/proxy.py:91-109 | As the gateway uses it, a request is admitted if and only if no failure has tripped the breaker or the timeout has passed since the first that did; requests and failures in between change nothing. |
| CircuitBreaker.OpenedAtFirstTrip | src/llm_assistant_api/proxy.py:87-89 | The opening time is that of the first trip. |
| CircuitBreaker.OpenRefuses | src/llm_assistant_api/proxy.py:77-106 | Once open it refuses every request until the timeout, whatever failures arrive, unless a success or reset is recorded. |
| CircuitBreaker.HalfOpenAdmits | src/llm_assistant_api/proxy.py:77-109 | Half-open it admits every request, and no failure reopens it. |
| CircuitBreaker.HalfOpenIff | src/llm_assistant_api/proxy.py:91-109 | It is half-open if and only if, since the last success or reset, it tripped and a request was let through once the timeout had passed. |
| CircuitBreaker.ReopenedRefuses | src/llm_assistant_api/proxy.py:111-117 | Reopened by hand, a half-open breaker refuses for the whole timeout again, and any other is left alone. |
| CircuitBreaker.SuccessForgets | src/llm_assistant_api/proxy.py:71-75 | After a success or a reset only what follows counts. |
| CircuitBreaker.FailureCountIsExact | src/llm_assistant_api/proxy.py:130-137 | The failure count is that of the full log. |
| CircuitBreaker.CircuitBreaker.RecordFailure | src/llm_assistant_api/proxy.py:77-89 | Trips in place exactly when the full log says so, and otherwise changes neither mode nor opening time. |
| CircuitBreaker.CircuitBreaker.RecordSuccess | src/llm_assistant_api/proxy.py:71-75 | Back to the fresh state. |
| CircuitBreaker.CircuitBreaker.ResetNow | src/llm_assistant_api/proxy.py:119-123 | Back to the fresh state. |
| CircuitBreaker.CircuitBreaker.CanProceed | src/llm_assistant_api/proxy.py:91-109 | Admits exactly when the log of failures says so, and turns an open breaker half-open only then. |
| CircuitBreaker.CircuitBreaker.TransitionToOpen | src/llm_assistant_api/proxy.py:111-117 | Reopens a half-open breaker and leaves any other alone. |
| CircuitBreaker.CircuitBreaker.CountFailures | src/llm_assistant_api/proxy.py:130-137 | Counts the failures of the full log in the window. |
| Retry.CallsAreBounded | src/llm_assistant_api/proxy.py:207-240 | At most the allowed number of attempts, and every one but the last ended in something retryable. |
| Retry.AttemptIsMadeIff | src/llm_assistant_api/proxy.py:207-240 | An attempt is made if and only if it is within the number allowed and every one before it came to a 429, 502, 503 or 504, a timeout or a failed connection, with a jitter of a millisecond at least and no cancellation. |
| Retry.DeliveredIsLast | src/llm_assistant_api/proxy.py:207-240 | The caller gets the last attempt's response or error, and a retryable one only after every attempt. |
| Retry.OtherEnds | src/llm_assistant_api/proxy.py:207-243 | The code behind the loop is reached if and only if no attempt was allowed, and the draw fails exactly for a jitter below a millisecond with a retry due. |
| Retry.TotalSleepIsBounded | src/llm_assistant_api/proxy.py:217-240 | The whole sleep is at most base * (2^(n-1) - 1) + (n-1) * jitter. |
| Retry.SleepIsBounded | src/llm_assistant_api/proxy.py:217-240 | n sleeps take between the backoff and the backoff plus the jitter. |
| Retry.SleptIs | src/llm_assistant_api/proxy.py:217-240 | n sleeps take exactly base * (2^n - 1) seconds and the milliseconds drawn. |
| Retry.DefaultsAreBounded | src/llm_assistant_api/proxy.py:29-38 | With the defaults, three attempts and 2.1 seconds of sleep at most; and half a second at least before the second attempt, one and a half before the third. |
| Retry.RetryWithBackoff | src/llm_assistant_api/proxy.py:182-243 | The loop makes exactly the specified calls, sleeps and ending; no error is pending behind it. |
| Retry.Forward | src/llm_assistant_api/proxy.py:446-548 | A forwarded request records its probe and its verdict on the breaker and nothing else, and a refused one makes no call. |
| Retry.OneVerdict | src/llm_assistant_api/proxy.py:470-488 | An admitted request records exactly one verdict, a success if and only if the status is below 500, unless it is cancelled or fails outside the HTTP library. |
| Retry.ReplyIs | src/llm_assistant_api/proxy.py:470-494 | An admitted request is answered with the status of the last response, 504 for a timeout, 502 for any other failure of the connection, and nothing of the gateway's own where it was cancelled or something else raised. |
| Retry.RateLimitedCountsAsHealthy | src/llm_assistant_api/proxy.py:476-477 | An upstream that answers 429 to all attempts is recorded as healthy. |
| Retry.DeadUpstreamIsShielded | src/llm_assistant_api/proxy.py:446-548 | While everything sent fails, in any stretch shorter than the window and the open timeout, requests in turn make at most three calls for each failure the threshold allows. |
| Payload.NormalizeIsIdempotent | src/llm_assistant_api/payload.py:97-127 | Repairing twice is repairing once, and the second time gives no notes. |
| Payload.NotesIffChanged | src/llm_assistant_api/payload.py:97-127 | Notes are given if and only if something changed. |
| Payload.NormalizeKeeps | src/llm_assistant_api/payload.py:97-127 | Every field but the messages, the number and order of messages, every field of a message but content and calls, the number and order of calls, and everything in a call but its arguments, are kept; changed arguments are JSON text. |
| Payload.NormalizeIsRight | src/llm_assistant_api/payload.py:97-127 | What goes upstream for a payload: every call's arguments convey, as JSON text, what its caller meant, wherever that can be told and written and they are not JSON text already, and are left alone elsewhere and with argument repair off; every other field of a call, its function, the message and the payload is the same; content is kept, unwrapped, or written out; calls come as a list, in order. |
| Payload.NormalizeSays | src/llm_assistant_api/payload.py:97-127 | The notes are, message by message, one for content that changed and one for calls that came as something else than a list, each of the right kind, and then, call by call, one of the right kind for each call whose arguments were written. |
| Payload.RepairMeans | src/llm_assistant_api/toolcalls.py:67-98 | JSON text is left alone; other arguments whose meaning can be told and written are sent on as JSON text of that meaning; the rest is left alone. |
| Payload.WrappedTextIsUnwrapped | src/llm_assistant_api/payload.py:41-47 | A text wrapped in a small object comes out as itself. |
| Payload.OtherContentIsWritten | src/llm_assistant_api/payload.py:49-59 | Any other object becomes JSON text where it can, and anything else plain text. |
| Payload.MessageIsCandid | src/llm_assistant_api/toolcalls.py:101-132 | The calls of a message are repaired with notes exactly for what changed, and stay as repaired. |
| Payload.StructureIsCandid | src/llm_assistant_api/payload.py:32-94 | The structural repair of a message gives notes exactly when it changed it, and stays as repaired. |
| Payload.NormalizeMessage | src/llm_assistant_api/toolcalls.py:101-132 | The loop over calls, copying only on a change. |
| Payload.NormalizeToolArguments | src/llm_assistant_api/toolcalls.py:135-157 | The loop over messages, copying only on a change. |
| Payload.NormalizeInboundPayload | src/llm_assistant_api/payload.py:97-127 | Both passes, with either switched off as the flags say. |

## Left out

- RateLimiting.LimiterFollowsLog: limits stay as they are during a run; what `configure_endpoint` does in the middle of one is said by `RateLimiting.ReconfiguredIsValid` and `RateLimiting.GrownWindowForgets`.
- RateLimiting.AllowIsExact: endpoints without a colon, since two of them could then share a key (`RateLimiting.ColonsCollide`); longer windows and other clocks are covered by the lemmas that say exactly what happens there.
- Tools.ApprovedIsWritten: nothing from outside happens between the preview and the end of the call; the code does not look again, so a change there is written over. Permissions and full disks, which can also fail a write, are not modelled; nor is a text that cannot be encoded, having a lone surrogate (which JSON can express and Dafny's characters exclude): there the code opens and empties the file before it raises, so that this failed call does not leave the disk alone.
- Tools.ReadsAreHonest: an outside change brings an mtime its path has not had, which is sufficient over a run; for a single read the exact condition is `Workspaces.ChangeIsSeenIff`.
- Protocol.EveryTranscriptSentIsAcceptable: runs in which a turn is abandoned with calls open, or a surviving result is copied, or two calls of a reply share an id, or one has none, are excluded by `Fair`; the lemmas named above say exactly what becomes of those.
- Retry.DeadUpstreamIsShielded: requests one after another; requests in flight together are covered only by the breaker's theorems over arbitrary logs.
- Payload.NormalizeIsIdempotent: assumes only that what is dumped as JSON parses as JSON, as do the other laws of the repair; `Payload.RepairMeans` alone also assumes that it is read back as what was written.
- The Redis limiter, whose client is not part of this model, and `clear`.
- The HTTP clients, routing, middleware, headers and the relay of a stream after its first byte: only the outcome of each attempt is kept.
- Model names, targets, token caps and the context guard of `prepare_payload`.
- Token estimates (a yes or no for each compaction), rendering, spinners, prompts and the end-of-turn summary.
- The wording of notices, errors, the remarks on failures and diffs, the file names in a compaction notice, the size hint, and the text of the leaked-call pattern (a name, if it matched).
- `list_files`, `grep`, `read_document`, `git_diff`, checks and the sandbox, which change nothing modelled; a command is whatever it does to the disk.
- Line windows and the redirect to `read_document` of `read_file`: a read that gets past them is modelled, whole or partial.
- Path resolution and symbolic links: any function from path text to paths inside the workspace, or to none; making missing parent directories is not recorded on the disk.
- Tool arguments that are not text where text is expected, which the code turns into text first; strings with lone surrogates, which Dafny's characters exclude (for what they do to a write, see `Tools.ApprovedIsWritten` above).
- Session files: writing, listing, pruning, deleting, exporting and importing them; digests stand for contents, which takes the hash as injective.
- Python's own limits in `json.loads` (recursion, digits of an integer) and booleans as stream indices.
- Text diffs: taken to be empty exactly when the two texts are equal.
- Real time is a real number: floating-point rounding of clock readings and delays.
- `get_circuit_breaker` and the registry: one breaker for one upstream.
- Threads: methods of the limiter and the breaker are taken one at a time, in the order of their clock readings.
