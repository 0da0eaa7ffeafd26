# Verified model of the electerm agent

Dafny models of the algorithms and protocols of the electerm agent, with proofs of what they keep. Check everything with
`dafny verify dfyconfig.toml`.

| file | models |
|---|---|
| Prelude.dfy | optional values, minimum and maximum |
| Utf8.dfy, Utf8Encoding.dfy | well-formed UTF-8 (sections 3 and 4 of RFC 3629), shared by the others |
| TunnelHealth.dfy, TunnelRuntime.dfy, TunnelEffects.dfy, TunnelObjects.dfy | the SSH tunnel runtime: failure classes and verdicts, the state machine with its invariants over every run, what each event does field by field, and the objects proved against it |
| ProbeOperation.dfy, RemoteBindings.dfy | resources of a tunnel probe, and the routing of forwarded channels |
| FileRange.dfy, LogSearch.dfy, LogText.dfy | byte-exact paging of text files, the line search over pages, and what it finds said of the text |
| OutputCollector.dfy | the bounded output collector and the budget two of them share |
| SftpCopy.dfy | the recursive SFTP copy with its budget and rollback |
| ChainedDigest.dfy, TransferPlan.dfy, TransferOutcome.dfy | the chained digest, the description of a local transfer source, and when its walk gets through |
| SkillRepository.dfy, SkillRuns.dfy, KeyedLocks.dfy | the skill repository, its runs with interleaved operations, and its locks |
| ManagedInput.dfy | the managed terminal writer |
| SessionProcess.dfy | ports and request order of sessions |
| FleetPool.dfy, Inventory.dfy, InventoryLaws.dfy | the fleet worker pool, the inventory normaliser, and its tables and orders |
| Der.dfy | the DER codec and RDCleanPath messages |

A protocol with awaits is a state machine whose steps are the code between two awaits: a value `State`, a function `Step`,
an invariant, and theorems over every sequence of events. Beside it stands a class with the fields of the source whose
methods are proved to do those steps. Loops of the source are loops with invariants, proved against functions, and the
lemmas say what the functions mean: those named `…Iff`, `…Effect` or `…Table` in the terms of the source alone, with its
own numbers and names. Functions the model cannot see into are parameters.

What the proofs found in the code:

- A tunnel that reports listening in plain `failed` keeps the reconnect timer of an earlier loss, which later tears the
  healthy tunnel down (`TunnelRuntime.HealthyWithTimerIff`, `TunnelRuntime.HealthyTunnelIsTornDown`).
- `remove` of a skill snapshots under the digest it read before its lock: a version enabled in between can be lost
  (`SkillRepository.RemoveKeepsIff`, `SkillRuns.StaleRemoveLosesAVersion`).
- `cleanupHistory`, which the repository exports and takes no lock, can remove the snapshot of a version just before an
  operation replaces it; no shipped code calls it yet (`SkillRuns.CleanUpLosesIff`, `SkillRuns.CleanUpLosesAVersion`).
- `enableDraft` without a digest does not notice that a draft changed its id between its two validations
  (`SkillRepository.EnableKeepsConsistentIff`, `SkillRepository.RewrittenDraftIsMisplaced`).
- A log search says `truncated` wrongly exactly when more lines match than are wanted and the limit falls in the last
  page, or just as many match and it falls earlier (`LogSearch.TruncatedIsRightIff`).
- A walk over a transfer source cannot be repeated from its records if the root was skipped, because the root is recorded
  under its own name, or if a skipped path looks like one on a drive (`TransferPlan.RepeatableIff`).
- A page of a text file can be empty although more follows, but only for a request of less than 7 bytes inside a character
  (`FileRange.EmptyPageIff`).
- DER lengths survive exactly below 2^31 (`Der.LengthRoundTripIff`); beyond they can read as negative, and decoding the
  children then ends exactly if no offset repeats (`Der.EndsIffNoRepeat`, `Der.EndlessRequest`).
- Cutting a cleaned inventory text can leave a blank, so that merging changes the item (`Inventory.NormalizeAgainIff`,
  `Inventory.MergeOfOneIff`, `Inventory.LongNameIsNotKept`).
- A terminal that opens late under another id than it was asked to have stays open; the `openTerminal` of the source
  gives the id it was asked for, so only one injected in its place can do that (`FleetPool.EveryTargetHasItsResult`,
  `FleetPool.LateOtherIdStaysOpen`).
- With every port of the range pending, the search for the next one never ends (`SessionProcess.PortPool.SkipPending`).

## Model

| member | source | states |
|---|---|---|
| `TunnelRuntime.StepKeepsInv` | apps/electerm-agent/src/app/server/ssh-tunnel-runtime.js:109-497 | Every handler, timer, probe, stop and closing keeps the invariant of the runtime: entries, map and controllers together. |
| `TunnelRuntime.EveryTunnelIsSafe` | apps/electerm-agent/src/app/server/ssh-tunnel-runtime.js:109-497 | In every run: at most one armed timer or running reconnect a tunnel, at most three timers between two resets, attempts in 0..3, a lost session is always being retried, a tunnel shown as testing will get a result, a stopped tunnel holds no timer and no listener, and the event list ends with the state. |
| `TunnelRuntime.NoControllerLeaks` | apps/electerm-agent/src/app/server/ssh-tunnel-runtime.js:297-344 | In every run each controller ever returned was closed or is the current one of a tunnel in the map, also when a stop or `closeAll` lands inside a reconnect. |
| `TunnelRuntime.StoppedIsFrozen` | apps/electerm-agent/src/app/server/ssh-tunnel-runtime.js:437-497 | After a stop no event whatever changes the state, events, test result, attempts or controller of a tunnel. |
| `TunnelRuntime.StaleProbeIsNeverApplied` | apps/electerm-agent/src/app/server/ssh-tunnel-runtime.js:109-210 | A probe under way when its tunnel failed, saw traffic, reconnected or stopped is never applied, whatever happens before and after. |
| `TunnelRuntime.GenerationRun` | apps/electerm-agent/src/app/server/ssh-tunnel-runtime.js:109-222 | The probe generation of a tunnel never goes back in any run. |
| `TunnelRuntime.HealthyWithTimerIff` | apps/electerm-agent/src/app/server/ssh-tunnel-runtime.js:258-273 | A tunnel becomes healthy with an armed reconnect timer exactly when it reports listening in plain `failed` with a timer armed. |
| `TunnelRuntime.HealthyTunnelIsTornDown` | apps/electerm-agent/src/app/server/ssh-tunnel-runtime.js:258-344 | Such a timer tears the healthy tunnel down: a run in which the stale timer fires and closes a controller that was working. |
| `TunnelRuntime.FailureEffect` | apps/electerm-agent/src/app/server/ssh-tunnel-runtime.js:345-379 | A failure of a running tunnel keeps the controller, its wiring and the probes in flight but makes them stale; a timer is armed exactly for a lost session that has none and has attempts left. |
| `TunnelRuntime.ResultEffect` | apps/electerm-agent/src/app/server/ssh-tunnel-runtime.js:109-152 | A result changes nothing unless it is for the current controller and generation of a running tunnel, and never those or the probes; when it is stored, and when it brings a failed tunnel back, exactly. |
| `TunnelHealth.FailureClassIff` | apps/electerm-agent/src/app/server/ssh-tunnel-health.js:12-26 | Each class of failure has exactly its codes; the lists do not overlap. |
| `TunnelHealth.DelaysGrow` | apps/electerm-agent/src/app/server/ssh-tunnel-health.js:11 | There is a delay exactly for the first three attempts, each longer than the one before. |
| `TunnelHealth.AppendKeepsNewest` | apps/electerm-agent/src/app/server/ssh-tunnel-health.js:39-53 | Before the new event stand the newest of the others in their order; only a list of fifty loses one. |
| `TunnelHealth.VerdictIsWorstStage` | apps/electerm-agent/src/app/server/ssh-tunnel-probe.js:24-53 | The verdict is the status of a worst stage; a result is a success exactly when it has stages and all of them passed. |
| `TunnelHealth.ProbeStagesForError` | apps/electerm-agent/src/app/server/ssh-tunnel-probe.js:55-85 | An error never yields a success. |
| `TunnelHealth.StagesForErrorIff` | apps/electerm-agent/src/app/server/ssh-tunnel-probe.js:55-85 | Which stages an error shows as passed, limited, failed and not reached. |
| `TunnelHealth.VerdictOrder` | apps/electerm-agent/src/app/server/ssh-tunnel-probe.js:24-53 | A failed stage outweighs a limited one, that an unverified one, that a passed one. |
| `TunnelObjects.TunnelEntry.Handle` | apps/electerm-agent/src/app/server/ssh-tunnel-runtime.js:109-379 | The object handlers of one tunnel do exactly what the machine does to its entry. |
| `TunnelObjects.SshTunnelRuntime.OnEntryEvent` | apps/electerm-agent/src/app/server/ssh-tunnel-runtime.js:258-295 | Delivering an event to an entry is one step of the machine and leaves every other entry alone. |
| `TunnelObjects.SshTunnelRuntime.StartBegins` | apps/electerm-agent/src/app/server/ssh-tunnel-runtime.js:381-389 | A start is refused exactly for a blank or running id. |
| `TunnelObjects.SshTunnelRuntime.StartReturns` | apps/electerm-agent/src/app/server/ssh-tunnel-runtime.js:390-435 | The part of `start` after its await is one step: the new entry is in the map, attached, healthy and has a probe queued. |
| `TunnelObjects.SshTunnelRuntime.TimerFires` | apps/electerm-agent/src/app/server/ssh-tunnel-runtime.js:297-313 | A firing timer is one step: nothing for a stopped tunnel, else the reconnect begins and the old controller is closed. |
| `TunnelObjects.SshTunnelRuntime.ReconnectReturns` | apps/electerm-agent/src/app/server/ssh-tunnel-runtime.js:314-343 | A reconnect that returns is one step: the new controller is taken over, or closed at once if a stop came first. |
| `TunnelObjects.SshTunnelRuntime.Test` | apps/electerm-agent/src/app/server/ssh-tunnel-runtime.js:465-476 | A test of a known id is one step that probes at most once at a time. |
| `TunnelObjects.SshTunnelRuntime.Stop` | apps/electerm-agent/src/app/server/ssh-tunnel-runtime.js:437-459 | `stop` is one step: the entry is halted, out of the map, and its controller closed. |
| `TunnelObjects.SshTunnelRuntime.CloseAll` | apps/electerm-agent/src/app/server/ssh-tunnel-runtime.js:478-497 | The loop of `closeAll` over the running entries is one step of the machine for all of them. |
| `TunnelEffects.EventEffect` | apps/electerm-agent/src/app/server/ssh-tunnel-runtime.js:109-379 | What each event makes of a tunnel, field by field, in every reachable state: attempts, timer and its delay, controller, listeners, state, events, generation, probes, test results. A takeover resets the attempts, attaches the new controller and queues its probe. |
| `TunnelEffects.RestEffect` | apps/electerm-agent/src/app/server/ssh-tunnel-runtime.js:297-497 | What each event makes of the map, the starts under way, and the controllers opened and closed. |
| `TunnelEffects.StartedTunnel` | apps/electerm-agent/src/app/server/ssh-tunnel-runtime.js:390-435 | A start that returns adds one running tunnel, healthy, attached, without attempts, its probe queued. |
| `TunnelEffects.ReconnectedTunnelIsRetried` | apps/electerm-agent/src/app/server/ssh-tunnel-runtime.js:314-379 | A tunnel that came back is healthy with all its attempts: its next lost session is retried after one second. |
| `FileRange.NormalizeRangeOptions` | apps/electerm-agent/src/app/common/file-range.js:7-15 | The page size ends up in 4 bytes to 1 MiB and usable values are kept. |
| `FileRange.RangeOptionsIff` | apps/electerm-agent/src/app/common/file-range.js:3-15 | The numbers: 4 bytes, 1 MiB, 256 KiB and offset 0 by default. |
| `FileRange.FindSafeStart` | apps/electerm-agent/src/app/common/file-range.js:43-63 | The start is the first character edge at or after the request, for any bytes. |
| `FileRange.FindContentEnd` | apps/electerm-agent/src/app/common/file-range.js:65-95 | The loop computes the end of the content. |
| `FileRange.ContentEndProperties` | apps/electerm-agent/src/app/common/file-range.js:65-95 | The end is a character edge of the file, within the limit and at most three bytes short of it. |
| `FileRange.ReadTextRange` | apps/electerm-agent/src/app/common/file-range.js:97-180 | For a file that keeps its contents: the offsets of its page, exactly the bytes between them unless those look binary, and `binary` exactly if they do. In every case offsets are ordered and more is announced only before the end; after a short read the total is what is left of the file. |
| `FileRange.PageProperties` | apps/electerm-agent/src/app/common/file-range.js:97-180 | A page lies between two character edges, makes progress, stays within the size asked for and ends the file when it can. |
| `FileRange.PagesTileTheFile` | apps/electerm-agent/src/app/common/file-range.js:97-180 | For any bytes: pages read one after another are contiguous, fit, end on character edges, hold every byte of the file, terminate, and all but the last hold at least `maxBytes - 3` bytes. |
| `FileRange.PagesOfValidFile` | apps/electerm-agent/src/app/common/file-range.js:97-180 | Every page of well-formed UTF-8 is well formed, and the decoded pages joined are the decoded file. |
| `FileRange.EmptyPageIff` | apps/electerm-agent/src/app/common/file-range.js:97-180 | A page holds no bytes although more follow exactly if the first edge announces a sequence that does not end within the size asked for; never from 7 bytes on, and never for a request at an edge. |
| `FileRange.MidCharacterPageCanBeEmpty` | apps/electerm-agent/src/app/common/file-range.js:43-63 | A request inside a character for which that happens. |
| `LogSearch.NormalizeSearchOptions` | apps/electerm-agent/src/app/common/log-search.js:10-37 | An empty or too long query is refused; else 1 to 500 matches, at most 20 lines of context, chunks of 1 byte to 1 MiB, and usable values are kept. |
| `LogSearch.SplitConcat` | apps/electerm-agent/src/app/common/log-search.js:81-87 | Splitting at newlines commutes with cutting the text: what follows the last newline is carried over. |
| `LogSearch.HitsAreTheFirst` | apps/electerm-agent/src/app/common/log-search.js:89-104 | The reported lines match, ascend, and no earlier match is left out. |
| `LogSearch.FillAfterContext` | apps/electerm-agent/src/app/common/log-search.js:51-60 | Exactly the matches that lack lines after them get the line, and the pending list stays the list of those. |
| `LogSearch.SearchLine` | apps/electerm-agent/src/app/common/log-search.js:90-113 | One turn of the inner loop turns the search of some lines into the search of one more. |
| `LogSearch.SearchTextReader` | apps/electerm-agent/src/app/common/log-search.js:62-142 | The loop over the pages ends as specified: with the search of the lines its pages complete, with an error for binary content or no progress, or waiting. |
| `LogSearch.LinesOfJoinedText` | apps/electerm-agent/src/app/common/log-search.js:81-87 | The lines completed by the pages are those of their joined text, however it is cut. |
| `LogSearch.AgreesWithWholeText` | apps/electerm-agent/src/app/common/log-search.js:62-142 | Searching pages finds the same lines with the same lines before them as searching the whole text; the lines after a match agree exactly when the pages read complete them. |
| `LogSearch.ChunkingIsInvisible` | apps/electerm-agent/src/app/common/log-search.js:62-142 | Any two ways of cutting a text give the same matches, and the same lines after them when the limit does not end the search. |
| `LogSearch.CompleteIff` | apps/electerm-agent/src/app/common/log-search.js:89-104 | A result holds every matching line exactly when no more than the limit match. |
| `LogSearch.ReadsAllIff` | apps/electerm-agent/src/app/common/log-search.js:62-142 | The search reads every page exactly if the pages before the last hold fewer matches than are wanted. |
| `LogSearch.TruncatedIff` | apps/electerm-agent/src/app/common/log-search.js:115-126 | `truncated` says exactly whether the limit falls before the last page. |
| `LogSearch.TruncatedIsRightIff` | apps/electerm-agent/src/app/common/log-search.js:115-126 | It says whether matches were dropped, except exactly when more match than are wanted and the limit falls in the last page, or just as many match and it falls earlier. |
| `LogSearch.UntruncatedCanDropMatches` | apps/electerm-agent/src/app/common/log-search.js:115-126 | A search of the first kind. |
| `LogSearch.AfterDependsOnChunks` | apps/electerm-agent/src/app/common/log-search.js:115-120 | Two ways of cutting one text that differ in the lines after a match. |
| `LogSearch.FilePagesAreAnswers` | apps/electerm-agent/src/app/common/log-search.js:77-80 | The pages of a file from a character edge on are the answers of `readTextRange` at the offsets the search asks for. |
| `LogSearch.FilePagesEndAtTotal` | apps/electerm-agent/src/app/common/log-search.js:115-120 | They end where the file does, as the results on `truncated` ask. |
| `LogSearch.FileSearchIndependentOfPageSize` | apps/electerm-agent/src/app/common/log-search.js:62-142 | The search of a well-formed file from any character edge on always ends with a result, the same for every page size, but for the lines after a match when the limit ends it. |
| `LogText.SplitIff` | apps/electerm-agent/src/app/common/log-search.js:81-87 | The pieces are the one list of texts without a newline that joined by newlines gives the text back. |
| `LogText.NormalizeLineIff` | apps/electerm-agent/src/app/common/log-search.js:39-41 | A line is its piece without one carriage return at the end. |
| `LogText.MatchesOfText` | apps/electerm-agent/src/app/common/log-search.js:62-142 | Whatever the pages, the matches are the first matching lines of the text, each with exactly the lines before it, and after it as many as the pages read complete; a match is missing only behind as many as were wanted. |
| `LogText.MatchOffset` | apps/electerm-agent/src/app/common/log-search.js:98-112 | A match carries the offset of the page that completes its line. |
| `LogText.ResultNumbers` | apps/electerm-agent/src/app/common/log-search.js:77-139 | Where the result says the search ended, and the last sizes reported that are not 0. |
| `LogText.ReturnsChangeNoLineIff` | apps/electerm-agent/src/app/common/log-search.js:39-41 | Carriage returns before all newlines change no line, exactly if there were none before. |
| `LogText.ReturnsAreInvisible` | apps/electerm-agent/src/app/common/log-search.js:39-141 | A log with them gives the same matches, before and after lists as without, however both are cut. |
| `LogText.BinaryContentIff` | apps/electerm-agent/src/app/common/log-search.js:66-75 | A search ends as binary exactly with the first binary page. |
| `LogText.BinaryFileIsRefused` | apps/electerm-agent/src/app/common/log-search.js:66-75 | A file whose first page looks binary is refused at once, whatever follows. |
| `OutputCollector.Utf8SafeEnd` | apps/electerm-agent/src/app/server/session-common.js:103-117 | The loop finds the end before an incomplete last sequence. |
| `OutputCollector.SafeEndIsLastBoundary` | apps/electerm-agent/src/app/server/session-common.js:103-117 | In text cut anywhere it is the last character edge, at most three bytes back. |
| `OutputCollector.SafeStartIsFirstBoundary` | apps/electerm-agent/src/app/server/session-common.js:119-123 | In text cut anywhere it is the first character edge, at most three bytes in. |
| `OutputCollector.OutputTruncationSeparator` | apps/electerm-agent/src/app/server/session-common.js:125-133 | The separator fits the limit, is not empty for a positive one, and is well-formed text. |
| `OutputCollector.RingAppend` | apps/electerm-agent/src/app/server/session-common.js:149-171 | Writing round the end of the ring and dropping the overflow keeps the last bytes, oldest first. |
| `OutputCollector.BoundedOutputCollector.AppendTail` | apps/electerm-agent/src/app/server/session-common.js:149-171 | The ring holds the last bytes of all it was given, and the head in the same buffer is untouched. |
| `OutputCollector.BoundedOutputCollector.TailBuffers` | apps/electerm-agent/src/app/server/session-common.js:173-187 | The one or two parts of the ring are the tail of the stream. |
| `OutputCollector.BoundedOutputCollector.Append` | apps/electerm-agent/src/app/server/session-common.js:190-202 | Head and ring are the first and the last bytes of the stream so far; the claim grows by what the budget grants. |
| `OutputCollector.BoundedOutputCollector.Render` | apps/electerm-agent/src/app/server/session-common.js:209-237 | The rendering is the specified function of the whole stream. |
| `OutputCollector.RenderingExactOrBounded` | apps/electerm-agent/src/app/server/session-common.js:209-237 | It never exceeds the claimed bytes and is the stream itself when nothing was cut. |
| `OutputCollector.CutRendering` | apps/electerm-agent/src/app/server/session-common.js:209-237 | A cut rendering is a prefix, the separator and a later part that does not overlap the prefix. |
| `OutputCollector.CutRenderingOfValidText` | apps/electerm-agent/src/app/server/session-common.js:209-237 | Of well-formed text it is well formed, reaches the end of the stream and wastes at most three bytes at each inner edge. |
| `OutputCollector.CutRenderingNumbers` | apps/electerm-agent/src/app/server/session-common.js:209-237 | In numbers: of what the separator leaves of the claim the beginning gets one half and the end the other. |
| `OutputCollector.SeparatorText` | apps/electerm-agent/src/app/server/session-common.js:125-133 | The separator reads as the first of three texts that fits, or as tildes. |
| `OutputCollector.SharedOutputBudget.Claim` | apps/electerm-agent/src/app/server/session-common.js:92-101 | A claim gets what is left, up to what it asks for. |
| `OutputCollector.BudgetConserved` | apps/electerm-agent/src/app/server/session-common.js:92-101 | What both streams claimed and what is left always sum to the budget, and nothing is refused while some is left. |
| `OutputCollector.JointRendering` | apps/electerm-agent/src/app/server/session-common.js:322-364 | Under every interleaving both renderings together fit the budget, are flagged exactly when the streams together do not, and are well formed if the streams are. |
| `OutputCollector.RunCmdOutput.BoundedResult` | apps/electerm-agent/src/app/server/session-common.js:356-363 | The result of a command: two renderings within the budget, exact unless flagged as truncated. |
| `SftpCopy.BoundedInteger` | apps/electerm-agent/src/app/server/sftp-copy-budget.js:9-16 | A limit is refused exactly below its minimum; a missing one takes its default. |
| `SftpCopy.BoundedLimitsIff` | apps/electerm-agent/src/app/server/sftp-copy-budget.js:3-60 | Limits are refused exactly if depth or bytes are below 0 or nodes below 1; each is its own option, or 128 levels, 10000 nodes, 8 GiB. |
| `SftpCopy.CopyOperation.WhyRefused` | apps/electerm-agent/src/app/server/sftp-copy-budget.js:64-81 | An entry refused for depth, nodes, bytes or kind shows that the source is too deep, too large, or holds such an entry. |
| `SftpCopy.CopyOperation.ConsumeBudget` | apps/electerm-agent/src/app/server/sftp-copy-budget.js:64-81 | An entry is counted exactly when it keeps within depth, nodes and bytes; else nothing is counted. |
| `SftpCopy.CopyOperation.ConsumeActualBytes` | apps/electerm-agent/src/app/server/sftp-copy-budget.js:83-92 | Streamed bytes are counted exactly while they keep within the limit. |
| `SftpCopy.CopyOperation.ApplyMetadata` | apps/electerm-agent/src/app/server/session-sftp.js:655-685 | Success means that the last look shows the wanted owner and mode; only that entry changed. |
| `SftpCopy.CopyOperation.Fill` | apps/electerm-agent/src/app/server/session-sftp.js:706-733 | Success: the new file has the bytes and metadata of its source and exactly its size was counted. On every failure only that file changed. A server that does what it is asked never fails it within the limit. |
| `SftpCopy.CopyOperation.CopyFile` | apps/electerm-agent/src/app/server/session-sftp.js:687-733 | A copied file has the bytes and metadata of its source; on every failure only the new file changed and it is owned. |
| `SftpCopy.CopyOperation.CopyDirectory` | apps/electerm-agent/src/app/server/session-sftp.js:735-769 | A copied directory mirrors its source, entry by entry. |
| `SftpCopy.CopyOperation.CopyEntryWithinBudget` | apps/electerm-agent/src/app/server/session-sftp.js:771-789 | One entry, file or directory: on success the target mirrors the source and declared, streamed and stored bytes agree. |
| `SftpCopy.NewestIsEmpty` | apps/electerm-agent/src/app/server/session-sftp.js:808-824 | The newest entry created is there and holds nothing, so removal in reverse order never meets a directory that is not empty. |
| `SftpCopy.CopyOperation.CleanUp` | apps/electerm-agent/src/app/server/session-sftp.js:808-824 | If the server refuses no removal, the tree is the one before the copy; nothing that was there before is ever touched. |
| `SftpCopy.DirectoryMirrors` | apps/electerm-agent/src/app/server/session-sftp.js:735-769 | A directory mirrors another when it looks the same and each of its entries does. |
| `SftpCopy.MirrorsIff` | apps/electerm-agent/src/app/server/session-sftp.js:655-769 | A mirror has for every entry one of the same kind at the same place with the same bytes, mode bits and owner, and nothing else. |
| `SftpCopy.CopyableIff` | apps/electerm-agent/src/app/server/session-sftp.js:771-789 | What can be copied: directories and files of at most 2^53 - 1 bytes whose owner can be read. |
| `SftpCopy.CopyOperation.FinishedWithinLimits` | apps/electerm-agent/src/app/server/session-sftp.js:771-789 | A finished copy kept to depth, node and byte limits, counted over the whole source. |
| `SftpCopy.CopyOperation.RoomForOneMore` | apps/electerm-agent/src/app/server/session-sftp.js:771-789 | While an entry is missing, limits that hold for the whole source leave room for it. |
| `SftpCopy.CopyEntry` | apps/electerm-agent/src/app/server/session-sftp.js:642-653 | Success: the target is new, mirrors the source in shape, bytes, mode and owner, and nothing else changed. Failure with removals allowed: nothing changed at all, and an error about depth, size or kind has its cause in the source. On a server that does what it is asked, success exactly when the source can be copied within the limits given, or 128 levels, 10000 nodes and 8 GiB. |
| `ChainedDigest.BoundedDigest.Update` | apps/electerm-agent/src/app/server/session-sftp.js:56-77 | However the bytes are cut, the object holds the chain over all bytes fed so far. |
| `ChainedDigest.BoundedDigest.Finish` | apps/electerm-agent/src/app/server/session-sftp.js:79-90 | The digest is that of the bytes fed; a length of 2^64 or more has none. |
| `ChainedDigest.DigestOfChunks` | apps/electerm-agent/src/app/server/session-sftp.js:48-91 | The digest of a stream is that of its joined chunks. |
| `ChainedDigest.FeedPiece` | apps/electerm-agent/src/app/lib/local-transfer-source-plan.js:44-62 | How the chain and the open block grow with a piece that at most fills the block. |
| `ChainedDigest.BigEndianInjective` | apps/electerm-agent/src/app/lib/local-transfer-source-plan.js:30-34 | The length bytes determine the length. |
| `ChainedDigest.CollisionReduction` | apps/electerm-agent/src/app/lib/local-transfer-source-plan.js:36-76 | Two different byte strings with equal digests yield two different hash inputs with the same hash, both hashed on the way. |
| `ChainedDigest.DigestFormat` | apps/electerm-agent/src/app/lib/local-transfer-source-plan.js:36-76 | The digest octet by octet: 32 zeros, 64 KiB blocks hashed behind the state and a zero, at the end the state, a one, the rest and the length in eight octets. |
| `TransferPlan.TransferWalk.DescribeEntry` | apps/electerm-agent/src/app/lib/local-transfer-source-plan.js:276-357 | The walk over the source is the specified one: same outcome, same skips, pins and counts. |
| `TransferPlan.TransferWalk.DescribeEntries` | apps/electerm-agent/src/app/lib/local-transfer-source-plan.js:332-348 | So is its loop over the entries of a directory. |
| `TransferPlan.DescriptionIsIdeal` | apps/electerm-agent/src/app/lib/local-transfer-source-plan.js:276-357 | A description is that of the tree without exactly the paths that were skipped. |
| `TransferPlan.CreatePinnedTransferSkipMap` | apps/electerm-agent/src/app/lib/local-transfer-source-plan.js:198-222 | The loop accepts the records exactly if they are distinct paths below the root with codes that may be skipped, and maps each to its code. |
| `TransferPlan.PinRoundTripIff` | apps/electerm-agent/src/app/lib/local-transfer-source-plan.js:111-129 | A path below the root is recorded as a text that is read back as the same path, exactly if it does not look like one on a drive. |
| `TransferPlan.SkipsAcceptedIff` | apps/electerm-agent/src/app/lib/local-transfer-source-plan.js:161-222 | The skips of a described source are accepted as pins exactly if none looks like a path on a drive. |
| `TransferPlan.ReplayGivesTheSame` | apps/electerm-agent/src/app/lib/local-transfer-source-plan.js:359-395 | A walk given the skips of an earlier one gives the same description, whatever has become of the skipped paths. |
| `TransferPlan.RepeatableIff` | apps/electerm-agent/src/app/lib/local-transfer-source-plan.js:359-395 | A walk that did not fail, whether or not it was itself given skips, can be repeated from its records, whatever has become of the skipped paths, exactly if the root was not skipped and no skipped path looks like one on a drive. |
| `TransferPlan.SkippedRootDiffers` | apps/electerm-agent/src/app/lib/local-transfer-source-plan.js:118-129 | For every skipped root there is a source that agrees with it and for which the repeated walk reads the root again. |
| `TransferPlan.SkippedRootPinsAnEntry` | apps/electerm-agent/src/app/lib/local-transfer-source-plan.js:118-129 | The record of a skipped root is accepted as the pin of an entry of that name. |
| `TransferPlan.DriveLikeSkipIsRefused` | apps/electerm-agent/src/app/lib/local-transfer-source-plan.js:161-175 | A described source whose skips are refused: an unreadable entry of a directory `c:`. |
| `TransferOutcome.PrepareIff` | apps/electerm-agent/src/app/lib/local-transfer-source-plan.js:359-388 | A preparing walk gets through exactly if the tree, without what is skipped, has no fault of its own and keeps to depth, nodes and bytes; then it skips exactly the pinned and faulty paths, in order. |
| `TransferOutcome.DescribeIff` | apps/electerm-agent/src/app/lib/local-transfer-source-plan.js:359-395 | A plain walk gets through exactly if there is no fault at all and the limits hold; it then describes the whole tree. |
| `TransferOutcome.WalkIff` | apps/electerm-agent/src/app/lib/local-transfer-source-plan.js:276-357 | The same for the walk of any path in any context, with what it counts. |
| `TransferOutcome.FailureCause` | apps/electerm-agent/src/app/lib/local-transfer-source-plan.js:276-357 | Each error has its own cause: depth, nodes, bytes, or a fault that something looked at gives. |
| `TransferOutcome.PinsAreTaken` | apps/electerm-agent/src/app/lib/local-transfer-source-plan.js:224-274 | In every walk a pin goes exactly when its path is recorded as skipped. |
| `TransferOutcome.AcceptPinsIff` | apps/electerm-agent/src/app/lib/local-transfer-source-plan.js:198-222 | Records are accepted exactly if each names a path and a code of EBUSY, EACCES and EPERM, and no two the same path; then each path gets its code. |
| `TransferOutcome.PinPathIff` | apps/electerm-agent/src/app/lib/local-transfer-source-plan.js:161-196 | A text names a pin exactly if, with either separator, it spells a path below the root out of proper names and none on a drive. |
| `SkillRepository.SkillRepository.AtomicReplaceDirectory` | apps/electerm-agent/src/app/lib/agent-skill-repository.js:208-221 | The candidate is at the target, or nothing has moved. |
| `SkillRepository.SkillRepository.SnapshotDirectory` | apps/electerm-agent/src/app/lib/agent-skill-repository.js:310-328 | The history gains the package under a digest it does validate to, or nothing changes. |
| `SkillRepository.SkillRepository.EnableDraft` | apps/electerm-agent/src/app/lib/agent-skill-repository.js:546-588 | Done: the package enabled is the draft that `locate` found, with the requested digest, and the draft is used up. Else the states are as before. Each error only for its cause. |
| `SkillRepository.SkillRepository.Disable` | apps/electerm-agent/src/app/lib/agent-skill-repository.js:590-625 | Done: the package moved from enabled to disabled and is in the history. Else the states are as before. |
| `SkillRepository.SkillRepository.Rollback` | apps/electerm-agent/src/app/lib/agent-skill-repository.js:627-649 | Done: the enabled package is the one stored under the digest. Else the states are as before. |
| `SkillRepository.SkillRepository.Remove` | apps/electerm-agent/src/app/lib/agent-skill-repository.js:651-667 | Done: of the enabled package, the disabled one and the draft of that name the first that is there is gone, after a snapshot under the digest read before the lock, and all else stays. Else nothing changed, each error only for its cause. |
| `SkillRepository.SkillRepository.UpdateDraftFile` | apps/electerm-agent/src/app/lib/agent-skill-repository.js:512-544 | The edited copy of the first of enabled, disabled and draft takes the place of the draft or becomes a new one; else nothing changed. |
| `SkillRepository.SkillRepository.CleanupHistory` | apps/electerm-agent/src/app/lib/agent-skill-repository.js:669-721 | Exactly the expired entries of the history that nobody refers to are removed. |
| `SkillRepository.FailureChangesNothing` | apps/electerm-agent/src/app/lib/agent-skill-repository.js:546-649 | A failed transaction leaves the three states alone; the history may have gained the enabled package. |
| `SkillRepository.EnablesIff` | apps/electerm-agent/src/app/lib/agent-skill-repository.js:553-588 | Enabling, location by location: the draft moves to its id, what was enabled is in the history, all else stays. |
| `SkillRepository.DisablesIff` | apps/electerm-agent/src/app/lib/agent-skill-repository.js:590-625 | So for disabling. |
| `SkillRepository.RollsBackIff` | apps/electerm-agent/src/app/lib/agent-skill-repository.js:627-649 | So for a rollback. |
| `SkillRepository.LocateIff` | apps/electerm-agent/src/app/lib/agent-skill-repository.js:300-308 | The enabled package is found before the disabled one, and that before a draft. |
| `SkillRepository.RemovesFirstIff` | apps/electerm-agent/src/app/lib/agent-skill-repository.js:651-667 | Removal takes exactly the one found first and may add one history entry. |
| `SkillRepository.NextKeepsConsistent` | apps/electerm-agent/src/app/lib/agent-skill-repository.js:546-721 | Every operation keeps each package under its own id and each version under its own digest, but for an `enableDraft` without a digest whose draft changed its id before the lock. |
| `SkillRepository.EnableKeepsConsistentIff` | apps/electerm-agent/src/app/lib/agent-skill-repository.js:546-588 | An `enableDraft` that gets through keeps that exactly if the draft still has the id it was validated with. |
| `SkillRepository.RewrittenDraftIsMisplaced` | apps/electerm-agent/src/app/lib/agent-skill-repository.js:546-561 | A draft rewritten under another id between its two validations is enabled under the former one. |
| `SkillRepository.RollbackRestores` | apps/electerm-agent/src/app/lib/agent-skill-repository.js:627-649 | A version that another replaced comes back whole by a rollback to its digest. |
| `SkillRepository.RemoveKeepsIff` | apps/electerm-agent/src/app/lib/agent-skill-repository.js:651-667 | `remove` keeps the enabled version exactly when it is in the history already, or what was read before the lock was valid and its digest is not yet there. |
| `SkillRuns.NextIsRun` | apps/electerm-agent/src/app/lib/agent-skill-repository.js:546-721 | What an operation makes of the directories when nothing interrupts it is what its steps do, one after another. |
| `SkillRuns.LockedOut` | apps/electerm-agent/src/app/lib/agent-skill-repository.js:180-188 | Operations of one key wait for each other. |
| `SkillRuns.ReplaceEffect` | apps/electerm-agent/src/app/lib/agent-skill-repository.js:546-649 | What a replacement does to every directory, and when it cannot happen. |
| `SkillRuns.StepKeepsGuarded` | apps/electerm-agent/src/app/lib/agent-skill-repository.js:310-721 | Every step of every operation, whatever is between its snapshot and its replacement at the time, keeps the version enabled or stored, under the conditions of the next row. |
| `SkillRuns.NoEnabledVersionIsLost` | apps/electerm-agent/src/app/lib/agent-skill-repository.js:546-721 | In every interleaving of operations and clean-ups a valid version that was ever enabled stays enabled or in the history under its own digest, unless a clean-up takes the last entry of that digest while the version is not enabled or is being replaced, or a removal of it, while it is not stored, read before the lock a package that was invalid or is stored already. |
| `SkillRuns.CleanUpKeepsIff` | apps/electerm-agent/src/app/lib/agent-skill-repository.js:669-721 | A clean-up by itself loses a version exactly if it takes the last place that holds it while it is not enabled. |
| `SkillRuns.CleanUpLosesIff` | apps/electerm-agent/src/app/lib/agent-skill-repository.js:546-588 | A clean-up between the snapshot of `enableDraft` and its replacement loses the version exactly if it takes the last place that holds it and another version replaces it. |
| `SkillRuns.CleanUpLosesAVersion` | apps/electerm-agent/src/app/lib/agent-skill-repository.js:669-721 | A run in which that happens. |
| `SkillRuns.StaleRemoveLosesAVersion` | apps/electerm-agent/src/app/lib/agent-skill-repository.js:651-667 | A run in which a version enabled between the reading and the removal is lost. |
| `KeyedLocks.KeyedLocks.WithLock` | apps/electerm-agent/src/app/lib/agent-skill-repository.js:180-188 | A call waits for the last one of its key. |
| `KeyedLocks.KeyedLocks.Finish` | apps/electerm-agent/src/app/lib/agent-skill-repository.js:180-188 | The entry of the map goes exactly when nobody came after. |
| `KeyedLocks.OneRunsAtATime` | apps/electerm-agent/src/app/lib/agent-skill-repository.js:180-188 | At most one operation of a key runs at a time, in the order of the calls. |
| `KeyedLocks.SomeoneMayGoOn` | apps/electerm-agent/src/app/lib/agent-skill-repository.js:180-188 | Of the calls of a key that are not done one runs or may start. |
| `ManagedInput.SplitUtf8Chunks` | apps/electerm-agent/src/app/server/managed-terminal-input.js:13-29 | The loop computes the chunks of a command. |
| `ManagedInput.SplitProperties` | apps/electerm-agent/src/app/server/managed-terminal-input.js:13-29 | The chunks are the command, each fits or is one character, and none could take the first character of the next. |
| `ManagedInput.BytesAreEncoded` | apps/electerm-agent/src/app/server/managed-terminal-input.js:13-29 | The bytes counted for a text are those of its UTF-8. |
| `ManagedInput.OutputIsCommandsInOrder` | apps/electerm-agent/src/app/server/managed-terminal-input.js:62-116 | In every run the output is one block after another: commands are not interleaved, a carriage return follows all chunks of a command in order, and exactly when its status is `written`. |
| `ManagedInput.PastIsFrozen` | apps/electerm-agent/src/app/server/managed-terminal-input.js:100-108 | No byte of a cancelled command follows its interrupt. |
| `ManagedInput.NothingAfterDispose` | apps/electerm-agent/src/app/server/managed-terminal-input.js:110-116 | After a disposal nothing is written, whatever happens. |
| `ManagedInput.SubmittedCommandIsSent` | apps/electerm-agent/src/app/server/managed-terminal-input.js:62-98 | An accepted command that no interrupt, disposal or error disturbs, whether the terminal takes its writes at once or asks to wait, is sent whole with its carriage return within two awaits a chunk. |
| `ManagedInput.AcceptsIff` | apps/electerm-agent/src/app/server/managed-terminal-input.js:62-67 | A command is accepted exactly if nothing is in progress or disposed, its id has 32 hexadecimal digits, and it has 1 byte to 4 MiB. |
| `ManagedInput.EndStatus` | apps/electerm-agent/src/app/server/managed-terminal-input.js:68-96 | A command that ends is failed if the terminal or an await failed, interrupted if it was cancelled, else written. |
| `ManagedInput.InterruptEffect` | apps/electerm-agent/src/app/server/managed-terminal-input.js:100-108 | An interrupt is the character 3 at once and cancels what is in progress. |
| `ManagedInput.DisposeEndsOutput` | apps/electerm-agent/src/app/server/managed-terminal-input.js:110-116 | A disposal is the end of the output in every run. |
| `ManagedInput.ManagedTerminalInputWriter.Submit` | apps/electerm-agent/src/app/server/managed-terminal-input.js:62-98 | A command is accepted exactly when none is in progress and it is well formed; its first chunk goes out at once. |
| `ManagedInput.ManagedTerminalInputWriter.Resume` | apps/electerm-agent/src/app/server/managed-terminal-input.js:68-92 | The step after each await is that of the machine. |
| `ManagedInput.ManagedTerminalInputWriter.Interrupt` | apps/electerm-agent/src/app/server/managed-terminal-input.js:100-108 | An interrupt is sent unless disposed, and cancels the command in progress. |
| `ManagedInput.ManagedTerminalInputWriter.Dispose` | apps/electerm-agent/src/app/server/managed-terminal-input.js:110-116 | A disposal cancels the command in progress. |
| `ProbeOperation.ProbeOperation.Finish` | apps/electerm-agent/src/app/server/ssh-tunnel.js:157-181 | Every call of `finish` is one step of the machine, before and after the operation settled. |
| `ProbeOperation.ProbeOperation.Cancel` | apps/electerm-agent/src/app/server/ssh-tunnel.js:182-187 | So is a cancellation. |
| `ProbeOperation.EveryResourceOnce` | apps/electerm-agent/src/app/server/ssh-tunnel.js:143-200 | Once settled and seen, every resource given to the operation was delivered or disposed of exactly once, except exactly an early one when the first to decide is a success without a resource and it is not reported later. |
| `ProbeOperation.ResolvedIff` | apps/electerm-agent/src/app/server/ssh-tunnel.js:143-181 | The promise resolves to a value exactly if that success decided first and was completed before an error or a cancellation. |
| `ProbeOperation.RejectedIff` | apps/electerm-agent/src/app/server/ssh-tunnel.js:143-187 | It is rejected exactly if one of those came and no success was completed before. |
| `ProbeOperation.ProbesLoseNothing` | apps/electerm-agent/src/app/server/ssh-tunnel.js:188-200 | In every run of the two probes, in any order of success, error, early close, cancellation and timeout, the socket or stream is delivered or disposed of, exactly once. |
| `ProbeOperation.ProbesAreDisciplined` | apps/electerm-agent/src/app/server/ssh-tunnel.js:470-489 | Their runs set at most one resource, at the start, and report none twice and no other. |
| `ProbeOperation.ProbeIsGiven` | apps/electerm-agent/src/app/server/ssh-tunnel.js:470-489 | What a probe is given is its socket from the start, or the stream it gets. |
| `ProbeOperation.ProbeOperation.Observed` | apps/electerm-agent/src/app/server/ssh-tunnel-probe.js:100-113 | A value that comes after the timeout is disposed of, else delivered. |
| `ProbeOperation.DeliveredIff` | apps/electerm-agent/src/app/server/ssh-tunnel-probe.js:87-115 | A resource is delivered exactly if the promise had it when it was first looked at and no timeout came before. |
| `RemoteBindings.RouteIff` | apps/electerm-agent/src/app/server/ssh-tunnel.js:72-107 | A channel goes to a binding exactly when it alone fits the address best on its port, or none fits and it is the only one there. |
| `RemoteBindings.NoBindingIff` | apps/electerm-agent/src/app/server/ssh-tunnel.js:72-107 | Nothing is decided exactly when no binding is on the port. |
| `RemoteBindings.OrderDoesNotMatter` | apps/electerm-agent/src/app/server/ssh-tunnel.js:72-107 | The order of registration does not matter for the route. |
| `RemoteBindings.ExactAddressWins` | apps/electerm-agent/src/app/server/ssh-tunnel.js:72-107 | An exact address outranks every wildcard. |
| `RemoteBindings.RouteByRank` | apps/electerm-agent/src/app/server/ssh-tunnel.js:72-107 | Exact address first, then a wildcard of the same family, then one of none; a channel that fits none goes to the only binding on the port. |
| `RemoteBindings.RejectOwnerIff` | apps/electerm-agent/src/app/server/ssh-tunnel.js:72-107 | What is neither routed nor nobody's is rejected in the name of the binding registered first on the port. |
| `SessionProcess.PortPool.SkipPending` | apps/electerm-agent/src/app/server/session-process.js:30-31 | The loop finds the next port that is not pending; it never ends exactly if all of the range are. |
| `SessionProcess.PortPool.GetPort` | apps/electerm-agent/src/app/server/session-process.js:27-60 | The call probes the first port from its start on that nobody else holds, within 30975 to 65534 and going round, unless all are pending. |
| `SessionProcess.PortPool.ProbeAnswers` | apps/electerm-agent/src/app/server/session-process.js:33-50 | A port that another call holds is never reserved; an error or invalid port ends the call. |
| `SessionProcess.PortPool.ReleasePort` | apps/electerm-agent/src/app/server/session-process.js:23-25 | A release frees the own port and no other. |
| `SessionProcess.ClaimMoves` | apps/electerm-agent/src/app/server/session-process.js:27-60 | Whatever one call does, no two live calls hold the same port. |
| `SessionProcess.StepKeeps` | apps/electerm-agent/src/app/server/session-process.js:359-448 | Beginning, installing, failing and ending keep the request order. |
| `SessionProcess.InstalledInOrder` | apps/electerm-agent/src/app/server/session-process.js:419-423 | In every run the requests of a pid are installed in the order in which they began. |
| `SessionProcess.OlderNeverReplaces` | apps/electerm-agent/src/app/server/session-process.js:419-423 | What is active is only ever replaced by a newer request. |
| `SessionProcess.SupersededNeverInstalls` | apps/electerm-agent/src/app/server/session-process.js:419-423 | A request overtaken before it was installed never is. |
| `SessionProcess.InstalledIff` | apps/electerm-agent/src/app/server/session-process.js:415-423 | After any run a request is installed exactly if it was not aborted and is still the newest of its pid. |
| `SessionProcess.ActiveIff` | apps/electerm-agent/src/app/server/session-process.js:359-448 | In every run the active request of a pid is the last installed one, unless its child ended. |
| `FleetPool.BoundedConcurrency` | apps/electerm-agent/src/app/server/fleet-status-service.js:174-178 | One to five workers. |
| `FleetPool.StepKeeps` | apps/electerm-agent/src/app/server/fleet-status-service.js:503-704 | Every step of a worker, a late answer and an abort keep the invariant of the pool. |
| `FleetPool.OneWorkerATarget` | apps/electerm-agent/src/app/server/fleet-status-service.js:658-670 | In every run no two workers hold the same target, none one that has a result, and at most `concurrency` work. |
| `FleetPool.EveryTargetHasItsResult` | apps/electerm-agent/src/app/server/fleet-status-service.js:672-704 | On return every slot holds one result for its own target, filled in only after an abort; every terminal opened in time was asked to close, and exactly those stay open that opened late under an id the task has not recorded. |
| `FleetPool.LateUidIsClosed` | apps/electerm-agent/src/app/server/fleet-status-service.js:608-615 | A terminal that opens late under the id it was asked to have is asked to close after that. |
| `FleetPool.LateOtherIdStaysOpen` | apps/electerm-agent/src/app/server/fleet-status-service.js:537-615 | A run in which a terminal opens late under another id and stays open. |
| `FleetPool.ResultsStay` | apps/electerm-agent/src/app/server/fleet-status-service.js:658-670 | A result never changes. |
| `FleetPool.FleetTask.TakeNext` | apps/electerm-agent/src/app/server/fleet-status-service.js:658-663 | The head of a worker loop takes the next target unless aborted. |
| `FleetPool.FleetTask.TargetEnds` | apps/electerm-agent/src/app/server/fleet-status-service.js:574-615 | How a target ends decides its status, and its terminal is asked to close. |
| `FleetPool.FleetTask.Conclude` | apps/electerm-agent/src/app/server/fleet-status-service.js:674-703 | The filling loop gives every target its result. |
| `FleetPool.WorkerEffect` | apps/electerm-agent/src/app/server/fleet-status-service.js:497-670 | What each event makes of a worker. |
| `FleetPool.TerminalEffect` | apps/electerm-agent/src/app/server/fleet-status-service.js:537-615 | A terminal is open from its opening until it is asked to close; what is recorded, late and asked. |
| `FleetPool.CountersEffect` | apps/electerm-agent/src/app/server/fleet-status-service.js:658-670 | What each event makes of the counters and the results. |
| `FleetPool.StartEffect` | apps/electerm-agent/src/app/server/fleet-status-service.js:672-673 | The workers begin with the first targets, one each. |
| `FleetPool.StatusIsEarned` | apps/electerm-agent/src/app/server/fleet-status-service.js:574-606 | In every run the status of a target is the one its ending earned at the time: success, out of time, cancelled, failed. |
| `FleetPool.FilledStatus` | apps/electerm-agent/src/app/server/fleet-status-service.js:674-683 | A target nobody took is reported out of time if the task ran out of time, else cancelled. |
| `Inventory.BetterIsTotal` | apps/electerm-agent/src/app/common/fleet-service-inventory.js:145-157 | Of two different duplicates exactly one is better. |
| `Inventory.BetterIsTransitive` | apps/electerm-agent/src/app/common/fleet-service-inventory.js:145-157 | Being better is transitive. |
| `Inventory.SortProperties` | apps/electerm-agent/src/app/common/fleet-service-inventory.js:172-178 | Sorting items with different keys gives the same items in strictly ascending order. |
| `Inventory.Deduplicate` | apps/electerm-agent/src/app/common/fleet-service-inventory.js:159-171 | The map holds exactly the best item of every key. |
| `Inventory.CutToSize` | apps/electerm-agent/src/app/common/fleet-service-inventory.js:179-192 | The loop keeps the longest beginning whose serialized array fits 64 KiB and 256 items. |
| `Inventory.NormalizeServiceInventoryResult` | apps/electerm-agent/src/app/common/fleet-service-inventory.js:159-196 | The result is the longest fitting beginning of the one sorted list of best items, truncated exactly if items are missing. |
| `Inventory.OrderDoesNotMatter` | apps/electerm-agent/src/app/common/fleet-service-inventory.js:159-196 | A set of items has one result, whatever order they come in. |
| `Inventory.MergeIsNormalize` | apps/electerm-agent/src/app/common/fleet-service-inventory.js:577-599 | Parts that were normalised without being cut have exactly the result of all their values at once when merged. |
| `Inventory.NormalizeAgainIff` | apps/electerm-agent/src/app/common/fleet-service-inventory.js:107-135 | Normalising a normalised item again keeps it exactly if none of its texts ends in a blank, and what comes out ends in none. |
| `Inventory.CleanTextTwice` | apps/electerm-agent/src/app/common/fleet-service-inventory.js:61-66 | Cleaning a cleaned text again keeps it exactly if its cut left no blank at the end. |
| `Inventory.MergeServiceInventoryResults` | apps/electerm-agent/src/app/common/fleet-service-inventory.js:577-599 | Merging the untruncated results of several lists of values gives the result of all the values at once, unless a cut left a blank at the end of a text. |
| `Inventory.MergeOfOneIff` | apps/electerm-agent/src/app/common/fleet-service-inventory.js:577-599 | Merging one untruncated result gives it back exactly if none of its texts ends in a blank. |
| `Inventory.MergedEndInNoBlank` | apps/electerm-agent/src/app/common/fleet-service-inventory.js:577-599 | No merged text ends in a blank, whatever was merged. |
| `Inventory.MergeOfOneItemIff` | apps/electerm-agent/src/app/common/fleet-service-inventory.js:577-599 | So for a single item that fits. |
| `Inventory.LongNameIsNotKept` | apps/electerm-agent/src/app/common/fleet-service-inventory.js:61-66 | A name of 255 letters, a blank and a letter comes out with the blank at its end, and merging gives another item, under another key. |
| `InventoryLaws.SourceTable` | apps/electerm-agent/src/app/common/fleet-service-inventory.js:19-47 | The seven sources by rank, with their names and the types of their items. |
| `InventoryLaws.StateTable` | apps/electerm-agent/src/app/common/fleet-service-inventory.js:5-14 | The names of the states. |
| `InventoryLaws.AutostartTable` | apps/electerm-agent/src/app/common/fleet-service-inventory.js:96-105 | Which words mean enabled, disabled, static and masked. |
| `InventoryLaws.LessIff` | apps/electerm-agent/src/app/common/fleet-service-inventory.js:137-143 | Texts are ordered by the first character in which they differ. |
| `InventoryLaws.BetterIff` | apps/electerm-agent/src/app/common/fleet-service-inventory.js:145-157 | The earlier source is better, then the item of which more is known, then the one whose JSON comes first. |
| `InventoryLaws.BeforeIff` | apps/electerm-agent/src/app/common/fleet-service-inventory.js:172-178 | Services, then containers, then processes; by name without case, by name, by source. |
| `InventoryLaws.KeyIff` | apps/electerm-agent/src/app/common/fleet-service-inventory.js:164-166 | Duplicates have the same type and the same name without case. |
| `InventoryLaws.FitsIff` | apps/electerm-agent/src/app/common/fleet-service-inventory.js:179-192 | No more than 256 items and 65536 bytes with brackets and commas. |
| `InventoryLaws.CleanTextIsWords` | apps/electerm-agent/src/app/common/fleet-service-inventory.js:61-66 | A cleaned text is its words with one blank between, cut to its length. |
| `InventoryLaws.NormalizeItemIff` | apps/electerm-agent/src/app/common/fleet-service-inventory.js:107-135 | A value becomes an item exactly if its source is known, its type is that of the source and it has a name; and what every field becomes. |
| `Der.DerEncodeLength` | apps/electerm-agent/src/app/server/rdp-proxy.js:28-39 | The loop gives the length octets. |
| `Der.LengthIsMinimal` | apps/electerm-agent/src/app/server/rdp-proxy.js:28-39 | Below 2^31 they are the shortest form (section 10.1 of ITU-T X.690). |
| `Der.LengthRoundTripIff` | apps/electerm-agent/src/app/server/rdp-proxy.js:28-104 | A length decodes to itself exactly below 2^31. |
| `Der.DerEncodeInteger` | apps/electerm-agent/src/app/server/rdp-proxy.js:52-67 | The loop gives the INTEGER element. |
| `Der.IntegerRoundTrip` | apps/electerm-agent/src/app/server/rdp-proxy.js:52-127 | An integer below 2^31 decodes to itself, from minimal octets that never read as negative (section 8.3). |
| `Der.TlvRoundTrip` | apps/electerm-agent/src/app/server/rdp-proxy.js:44-116 | An element decodes to its tag and content, whatever stands around it. |
| `Der.DerDecodeLength` | apps/electerm-agent/src/app/server/rdp-proxy.js:93-104 | The loop decodes lengths with 32-bit shifts and reads past the end. |
| `Der.DerDecodeInteger` | apps/electerm-agent/src/app/server/rdp-proxy.js:121-127 | The loop decodes integers with 32-bit shifts. |
| `Der.DerDecodeChildren` | apps/electerm-agent/src/app/server/rdp-proxy.js:133-142 | The loop gives the elements it comes to, and None exactly if it never ends. |
| `Der.ChildrenAreVisited` | apps/electerm-agent/src/app/server/rdp-proxy.js:133-142 | They are the elements at the offsets the loop stands at, one after another up to the end. |
| `Der.EndsIffNoRepeat` | apps/electerm-agent/src/app/server/rdp-proxy.js:133-142 | Decoding ends exactly if the loop never stands at the same offset twice. |
| `Der.RepeatNeverEnds` | apps/electerm-agent/src/app/server/rdp-proxy.js:133-142 | Once an offset repeats it never ends. |
| `Der.ForwardEnds` | apps/electerm-agent/src/app/server/rdp-proxy.js:133-142 | It ends if no element it comes to has a negative decoded length. |
| `Der.EndlessNeverEnds` | apps/electerm-agent/src/app/server/rdp-proxy.js:133-142 | An element of six bytes at which the loop stands for ever. |
| `Der.EndlessRequest` | apps/electerm-agent/src/app/server/rdp-proxy.js:153-213 | A request that holds it never gets an answer. |
| `Der.ChildrenRoundTrip` | apps/electerm-agent/src/app/server/rdp-proxy.js:133-142 | Elements written one after another are the children read back. |
| `Der.ParseRDCleanPathRequest` | apps/electerm-agent/src/app/server/rdp-proxy.js:153-213 | The parser computes the specified result, with its errors; it never returns exactly if the request is a SEQUENCE whose decoding never ends. |
| `Der.RequestRoundTrip` | apps/electerm-agent/src/app/server/rdp-proxy.js:153-213 | A request parses back to its fields. |
| `Der.ResponseRoundTrip` | apps/electerm-agent/src/app/server/rdp-proxy.js:223-242 | A response decodes to its version, X.224 bytes, certificates in order and address. |
| `Der.ErrorRoundTrip` | apps/electerm-agent/src/app/server/rdp-proxy.js:250-272 | An error message decodes to its version, code and optional status. |
| `Der.ParsedIff` | apps/electerm-agent/src/app/server/rdp-proxy.js:153-213 | What is asked of a request, in order, and which child each field comes from: the last of its number. |
| `Der.SliceIff` | apps/electerm-agent/src/app/server/rdp-proxy.js:109-116 | `slice` counts negative ends from the back and stays within the buffer. |
| `Der.ResponseOctets` | apps/electerm-agent/src/app/server/rdp-proxy.js:223-242 | A response octet by octet. |
| `Der.ErrorOctets` | apps/electerm-agent/src/app/server/rdp-proxy.js:250-272 | An error octet by octet. |
| `Utf8.ValidAtBoundary` | apps/electerm-agent/src/app/common/file-range.js:37-41 | Every character edge of well-formed text is one of its character positions. |
| `Utf8.ValidSlice` | apps/electerm-agent/src/app/common/file-range.js:37-41 | Cutting well-formed text at two edges leaves well-formed text. |
| `Utf8.BoundaryIffNoContinuation` | apps/electerm-agent/src/app/common/file-range.js:17-35 | In well-formed text the edges are exactly the positions without a continuation byte. |
| `Utf8.DecodeConcat` | apps/electerm-agent/src/app/common/file-range.js:172 | Decoding commutes with cutting between characters. |
| `Utf8Encoding.TextRoundTrip` | apps/electerm-agent/src/app/server/managed-terminal-input.js:13-29 | Every text reads back from its UTF-8 (section 3 of RFC 3629). |
| `Utf8Encoding.BytesRoundTrip` | apps/electerm-agent/src/app/common/file-range.js:172 | Well-formed bytes are written as they were read. |

## Left out

- Sockets, child processes, real time, Electron IPC and library calls are events, parameters or operations that may fail.
- SHA-256 is a parameter of the digest; validation of a skill package, `JSON.stringify`, `toLowerCase`, `trim`, `isLikelyBinaryBuffer` and the regular expressions that read the state of a service are parameters too.
- Strings are sequences of Unicode scalar values, not of UTF-16 code units; `toString('utf8')` is modelled on well-formed bytes only, and the bounds on renderings are stated on the bytes before it.
- `Number(...)` and `String(...)` coercions: a value that is no safe integer is None.
- TunnelRuntime: messages and times of events are left out; controllers have `on` and `off`; the descriptor of a controller does not change the id; starts of one id do not overlap, because `start` checks the id before its await and stores after it; a failing `close` counts as closed.
- TunnelHealth.FailureClassIff: takes the code in upper case.
- OutputCollector.RunCmdOutput: the timeout, cancellation and exit events of a command are left out; the two collectors and their budget are modelled.
- LogSearch.FillAfterContext: pending records name their match by its index, because the source shares the match object; the query itself is left out, a search takes any test of lines.
- FileRange.ReadTextRange: for a file that changes during the call the order of the offsets and the total are stated, not its page.
- SftpCopy.CopyEntry: assumes that nobody else changes the tree during the copy, that a failing creation has no effect, and paths without symbolic links given by their components; `cp`, which claims nothing and cleans up nothing, is left out.
- SftpCopy.CopyOperation.Stream: a write stream that reports `open` only after its pipeline failed is left out.
- ChainedDigest.BoundedDigest.Update: sizes above 2^53, where the source's counter is no longer exact, are left out.
- TransferPlan: the host is a POSIX one, so neither case folding nor the drive prefixes of Windows hosts are modelled; the byte limit of the manifest and records that are no objects are left out; entries come in the order `localeCompare` gives them.
- SkillRepository: one rename and any copies may fail; a failing removal of a backup directory, fsync, storage limits, creation of drafts from files, and the migration of legacy skills are left out.
- SkillRuns.NoEnabledVersionIsLost: the replacement of a directory, with its renames, is one step, and so are the checks with the snapshot; a crash inside them is left out. Without its conditions on clean-ups and removals it is false of the code, see `CleanUpLosesAVersion` and `StaleRemoveLosesAVersion`.
- ManagedInput: a write that throws is taken to have written nothing.
- ProbeOperation.EveryResourceOnce: asks that at most one resource is set, at the start, that success reports that one or none, and that no resource is reported twice, as both probes do. Errors carry no resource. The set of cancellations a manager holds is left out: they are events, and a closed manager cancels on the spot.
- SessionProcess.PortPool.SkipPending: None stands for the loop of the source that never ends, with all 34560 ports pending.
- SessionProcess: the messages to and from the child process, and the closing of superseded terminals, are left out.
- FleetPool.EveryTargetHasItsResult: a terminal that opens after the task has returned is left out.
- Inventory: the parsers of the inventory outputs and the list of errors are left out.
- Der.DerDecodeChildren: None stands for the loop of the source that never ends; the model gives up after more rounds than there are offsets.
- Der.ParseRDCleanPathRequest: for an empty message the source fails while it writes the error text; the model answers ExpectedSequence.
- Der: the relay after the handshake and the parsing of destinations are left out.
- RemoteBindings: the normalisation of bind addresses is left out.
- `ssh-known-hosts.js`, `parse-quick-connect.js`, `diagnostic-pack.js`, `version-compare.js` and configuration, window and update code are left out: they are regular expressions or plumbing.
