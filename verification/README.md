# AuditForwarder: verified models of its decisions, protocols, texts and stores

AuditForwarder collects audit events on client machines, ships them to a manager, and looks there for
operations that several operators complete together. These files model its parts with the most state and
branching in Dafny and prove what they keep, find or give back, over every input, every run or every
reachable state. `dafny verify dfyconfig.toml` checks everything.

- **Collusion engine.** The wildcard loop (`Wildcard`), rule steps (`Rules`), the time-ordered list
  (`StableOrder`), sequence matching and the tight window (`SequenceMatch`), the correlation matcher
  (`Correlation`), the pruned event buffer and its evaluation (`ChainBuffer`, `ChainEngine`),
  tumbling-window aggregation with flush and profile (`Aggregation`, `AggregationEngine`, `Profile`), and the
  risk score (`RiskScore`, `RiskLaws`, `Int32`).
- **Delivery protocols** with lost requests and lost answers: remote commands (`RemoteCommands`), the bounded
  audit queue (`AuditQueue`), the upload queue with backoff (`UploadQueue`).
- **Texts.** The configuration printer and parser (`ConfigJson`, `ConfigPrinter`, `ConfigParser`,
  `ConfigRoundTrip`, `ConfigGrammar`, `ConfigLayout`), the server's request-body scanners (`ObjectArray`,
  `FieldReader`), base64 and bearer-token identity (`Base64`, `Identity`), HTTP action normalisation (`ActionNorm`,
  `ActionWords`), byte strings (`Text`).
- **Stores and throttles.** Hot and archived log buckets with queries (`LogQuery`, `LogStore`), the layered
  operation logs on top of them (`OperationLogs`), the self-evicting file-event coalescer and the deduplicator
  (`Coalescer`).

Where the source changes state step by step, a class or a loop does so here. A class of a protocol or a store
keeps, as ghost state, the run that its calls make up; every method is a step of that run, so the theorems about
runs speak of the fields. Loops over `std::map` are written over the key set in any order, which covers the map's
own order. What the specification functions mean is stated besides, in terms of the inputs alone: a grammar for the
configuration parser, word lists for action names, ranges for risk levels, the events that count as candidates, the
batches that a send takes.

Several promises hold only under a condition; each of these is stated as an equivalence.

- The wildcard loop tests letter equality before `*`, so a `*` in the text can be eaten as a letter: the loop
  agrees with the meaning of every pattern exactly on star-free texts.
- The comment above `minimal_match_window` promises the shortest window; the code returns the earliest end and
  the latest begin for it, which is the shortest under all event times exactly when the rule has one step or
  does not complete again later.
- `match_correlation_rule` finds every chain exactly when at most one operator is asked for.
- The chain buffer is the recent part of the full history at every moment exactly when the span never holds more
  events than the hard cap.
- All configuration trees over a set of keys come back from their printed texts exactly when no key of the set has
  a quote or a backslash.
- The field reader takes the first quoted key it finds, be it a key, a value or the end of a value. A text field is
  read back exactly when no quoted key with a colon behind it stands ahead of its text, and the text has no control
  character other than those with a short escape. In `{"o":"m","p":"b","m":"hi"}` it reads `b` for `m`, so an
  operator called `target` redirects the reading of a log's target.
- A login name is read back from a token exactly when it is printable ASCII without quote and backslash.
- A longer span never raises the score exactly when the hour product fits in an int and no sum of factors leaves
  the int range; decay costs more than its cap exactly when it uses up the rule factor while the clues alone stand
  at the high mark; a verified work order never raises the score exactly when the configured deduction did not turn
  negative in the cast (or wraps every sum below zero); the order of rules shows exactly when the cap on further
  hits bites under different first hits.
- The coalescer never admits an event twice within its window, whatever the keys, exactly when times never go back.
- A dated line is never lost to bucket skipping exactly when its day bucket is the day of its timestamp, or its
  month bucket a month whose days 01 to 31 hold it.
- Queries of the operation logs are exact if and only if no matching record comes from a collector called
  `privileged`, whose file is taken for the mirror of privileged records: ordinary queries miss it, and queries for
  high priority show it once too often.
- The backoff follows min(2^k, max) exactly when 1 <= max < 2^30 (the upper bound only matters when there is a
  server to fail): from 2^30 on, the doubling in an int overflows.

## Model

| member | source | states |
|---|---|---|
| Wildcard.Match | server/src/collusion/collusion.cpp:651-664 | the backtracking loop returns the specified result and terminates, measured on the star's mark, the text index and the pattern index |
| Wildcard.GlobMatch | client/src/collector/collector_base.cpp:10-26 | the collectors' copy, which folds case pair by pair inside the loop, computes the same result on every pattern and text |
| Wildcard.RunComplete | server/src/collusion/collusion.cpp:656-661 | on a star-free text, remembering only the last star loses no match |
| Wildcard.Sound | server/src/collusion/collusion.cpp:651-664 | whatever the loop accepts the pattern denotes, case-folded, for every pattern and text |
| Wildcard.Complete | client/src/collector/collector_filter.cpp:30-49 | every star-free text that the pattern denotes is accepted |
| Wildcard.ExactlyOnStarFreeTexts | server/src/collusion/collusion.cpp:657-661 | loop and meaning agree for all patterns exactly when the text has no star |
| Wildcard.PlainPattern | shared/src/common/asset_profile.cpp:154-174 | a pattern without wildcards matches exactly the texts equal to it up to case |
| Rules.ScanKeywords | server/src/collusion/collusion.cpp:666-674 | some non-empty keyword occurs in the text, up to case |
| Rules.CheckStep | server/src/collusion/collusion.cpp:688-708 | one event performs one rule step, strictly or by keyword |
| Rules.StrictStepIsEquality | server/src/collusion/collusion.cpp:688-708 | on normalised events, wildcard-free dotted keywords hit by equality of action names and by nothing else |
| Rules.LooseStepExactly | server/src/collusion/collusion.cpp:666-708 | without action names a step is performed exactly when the operation, the resource or a parameter mentions one of its words, up to case |
| Rules.FindAssetGroup | server/src/collusion/collusion.cpp:844-852 | the loops over groups and patterns compute the group of a resource |
| Rules.AssetGroupExactly | server/src/collusion/collusion.cpp:844-852 | a resource belongs to the first group one of whose patterns matches it, and to none when no pattern does |
| Rules.MatchAssetGroup | server/src/collusion/collusion.cpp:844-852 | the name of the first group one of whose patterns matches the resource; a non-empty answer always is such a group |
| StableOrder.AppendOrdered | server/src/collusion/collusion.cpp:720-724 | insertion by backward walk keeps the list sorted and its elements |
| StableOrder.BuildSortsArrivals | server/src/collusion/collusion.cpp:720-724 | after any arrivals the list is a sorted permutation of them |
| StableOrder.BuildIsStable | server/src/collusion/collusion.cpp:720-724 | events of equal time stay in order of arrival |
| StableOrder.OrderInvisibleExactly | server/src/collusion/collusion.cpp:710-724 | every permutation of the arrivals builds the same list exactly when different arrivals have different times |
| SequenceMatch.IsSubsequence | server/src/collusion/collusion.cpp:726-734 | the greedy scan accepts exactly when a strictly increasing embedding of the steps exists |
| SequenceMatch.GreedyIsFurthest | server/src/collusion/collusion.cpp:726-734 | no placement gets further than the greedy scan |
| SequenceMatch.MinimalMatchWindow | server/src/collusion/collusion.cpp:747-782 | succeeds exactly when the sequence occurs; its window has the least possible end and the greatest begin for that end |
| SequenceMatch.EarliestEnd | server/src/collusion/collusion.cpp:753-763 | the first pass finds the end of the greedy completion, or reports that there is none |
| SequenceMatch.LatestStart | server/src/collusion/collusion.cpp:765-778 | the backward pass computes the latest start and both of its early returns are dead |
| SequenceMatch.LatestBeginIsLatest | server/src/collusion/collusion.cpp:765-778 | no placement of the same steps before the same end begins later |
| SequenceMatch.TightUnique | server/src/collusion/collusion.cpp:747-782 | there is at most one such window |
| SequenceMatch.TightWindowIsIrreducible | server/src/collusion/collusion.cpp:736-782 | the slice itself satisfies the sequence and no smaller slice inside it does |
| SequenceMatch.ShortestExactly | server/src/collusion/collusion.cpp:736-782 | when the window is the shortest whatever the event times are: one step, or no completion that begins later |
| SequenceMatch.InsertionPreservesOccurs | server/src/collusion/collusion.cpp:726-734 | an event inserted anywhere never undoes a satisfied sequence |
| SequenceMatch.VerdictIgnoresArrivalOrder | server/src/collusion/collusion.cpp:710-734 | with distinct times the verdict is the same for every order of arrival |
| Correlation.MatchCorrelationRule | server/src/collusion/collusion.cpp:791-842 | the anchored search with sorting, grouping, span and operator count returns the specified report |
| Correlation.SearchExactly | server/src/collusion/collusion.cpp:804-836 | for any number of operators: the first anchor is reported from which always taking the next fitting event of its group, in time, completes the steps with so many operators; none is reported exactly when no anchor does |
| Correlation.ReportMeans | server/src/collusion/collusion.cpp:791-842 | a report in plain terms: one event per step, in time order within the span, all of one operator, resource or asset group as the rule asks, its operators each once, its first and last time |
| Correlation.SearchIsSound | server/src/collusion/collusion.cpp:804-836 | reported events are in order, share one non-empty group, perform the steps one by one, fit the span and the operator count |
| Correlation.MatcherIsSound | server/src/collusion/collusion.cpp:791-842 | a report means that a chain exists |
| Correlation.MatcherIsComplete | server/src/collusion/collusion.cpp:791-842 | for at most one required operator every existing chain leads to a report |
| Correlation.FindsExactly | server/src/collusion/collusion.cpp:784-842 | for at most one required operator a match is found exactly when the time-sorted events hold such a plain chain |
| Correlation.CompleteExactlyForOneOperator | server/src/collusion/collusion.cpp:791-842 | completeness over all rules that ask for m operators holds exactly for m <= 1; a family of inputs defeats every larger m |
| ChainBuffer.ForEventsValid | server/src/collusion/collusion.cpp:1514-1521 | events that count as replays of each other have the same time, as the buffer laws need |
| ChainBuffer.BufferRefinesExactly | server/src/collusion/collusion.cpp:1487-1527 | the deduplicated, pruned buffer is at every moment the part of the full history inside the span of its newest event, for any order of arrival, exactly when that span never holds more events than the hard cap |
| ChainBuffer.HistoryMeans | server/src/collusion/collusion.cpp:1514-1525 | the history is the arrivals that have a time, in time order, each once |
| ChainBuffer.RecentMeans | server/src/collusion/collusion.cpp:1492-1499 | the part inside the span reaches back from the newest event by exactly the configured milliseconds |
| ChainBuffer.ReplayMeans | server/src/collusion/collusion.cpp:1514-1521 | a replay is an event with the time, operator, resource and action of a buffered one |
| ChainBuffer.CandidatesAre | server/src/collusion/collusion.cpp:1532-1546 | the candidates are exactly the buffered events of the same asset group, not later and inside the span, in order, the newest ones when there are too many |
| ChainBuffer.CandidatesFromHistory | server/src/collusion/collusion.cpp:1532-1546 | the candidates of an event, told from the full history, wherever the buffer refines it |
| ChainBuffer.InOrderCandidatesAreComplete | server/src/collusion/collusion.cpp:1511-1546 | for arrivals in time order an event sees what a scan of the whole history would show |
| ChainBuffer.ReplayIsIdle | server/src/collusion/collusion.cpp:1514-1521 | replaying a buffered event changes nothing |
| ChainEngine.ChooseRule | server/src/collusion/collusion.cpp:1548-1565 | a rule is chosen exactly when an applicable enabled one occurs; it has the tight window of least span, the first rule on ties |
| ChainEngine.Engine.IsReplay | server/src/collusion/collusion.cpp:1514-1521 | the two-second backward scan decides the duplicate test |
| ChainEngine.Engine.PruneChain | server/src/collusion/collusion.cpp:1487-1499 | both pruning loops leave the specified tail of the buffer |
| ChainEngine.Engine.CollectCandidates | server/src/collusion/collusion.cpp:1532-1545 | the loop computes the candidate list that CandidatesAre characterises |
| ChainEngine.EvidenceFromHistory | server/src/collusion/collusion.cpp:1532-1593 | for arrivals in time order the buffer supports exactly the evidence, with rule and window, that the whole history supports |
| ChainEngine.BestIsUnique | server/src/collusion/collusion.cpp:1548-1565 | at most one rule and window are the best, so buffer and history choose the same |
| ChainEngine.Engine.ChainEval | server/src/collusion/collusion.cpp:1511-1593 | along any run of calls the buffer is the specified one; reported evidence is an enabled rule of the asset group with a slice of arrivals of that group, inside the span, that performs its steps and holds two operators; nothing is reported only for a replay, an event without time or group, no rule that occurs, or one operator; for arrivals in time order within the cap the verdict is the one on the whole history |
| RemoteCommands.Exchange.QueueCommand | server/src/manager/manager_server.cpp:2402-2439 | queueing a fresh command on the server object is a step of the protocol |
| RemoteCommands.Server.AcceptResult | server/src/manager/manager_server.cpp:3867-3899 | the result is recorded, then every line with its id leaves the queue |
| RemoteCommands.WithoutRemoves | server/src/manager/manager_server.cpp:2189-2208 | removal takes exactly the lines of that id and keeps ids unique |
| RemoteCommands.WithoutInOrder | server/src/manager/manager_server.cpp:2189-2208 | what stays of the queue stays in its order |
| RemoteCommands.ToExecuteInOrder | client/src/core/remote_client.cpp:828-857 | executed are exactly the readable new commands, each at its first line, in line order |
| RemoteCommands.Agent.PollCommands | client/src/core/remote_client.cpp:828-857 | readable unknown commands are executed once, in order, and their results queued |
| RemoteCommands.Exchange.ReadAnswer | client/src/core/remote_client.cpp:828-857 | working through an answer on the agent object is a step of the protocol |
| RemoteCommands.Exchange.PostResult | server/src/manager/manager_server.cpp:3867-3899 | one result request, with request or answer lost, is a step of the protocol on both objects |
| RemoteCommands.Exchange.SendPendingResults | client/src/core/remote_client.cpp:859-884 | a report round is a run of the protocol: unanswered results stay pending; those that arrived are recorded and leave the queue, whatever is lost |
| RemoteCommands.Exchange.ObjectsAreSafe | client/src/core/remote_client.cpp:828-884 | after any calls, told of the agent's and the server's fields: at most one execution per command, no command or result lost |
| RemoteCommands.ReportedOrKept | client/src/core/remote_client.cpp:859-884 | every result of a round is recorded or kept |
| RemoteCommands.UnansweredMeans | client/src/core/remote_client.cpp:867-884 | kept are exactly the results without an answer, in order |
| RemoteCommands.ReachedMeans | server/src/manager/manager_server.cpp:3867-3899 | recorded are exactly the results whose request arrived, in order |
| RemoteCommands.StepKeepsInv | client/src/core/remote_client.cpp:828-884 | every step of the protocol keeps its invariant, under lost requests and lost answers |
| RemoteCommands.DeliverySafety | client/src/core/remote_client.cpp:828-884 | in every reachable state: at most one execution per command; a command leaves the queue only executed and recorded; every command is queued or acknowledged; every result is under way or recorded |
| RemoteCommands.LogGrows | client/src/core/remote_client.cpp:828-884 | executions and records are never undone |
| RemoteCommands.CleanRoundDrains | client/src/core/remote_client.cpp:828-884 | one loss-free round leaves exactly the unreadable commands queued and nothing to report |
| RemoteCommands.CleanRoundIsRun | server/src/manager/manager_server.cpp:3557-3577 | that round is a run of the protocol from any reachable resting state |
| AuditQueue.Queues.Enqueue | client/src/core/remote_client.cpp:412-437 | a batch joins the end of its own queue, the oldest of a thousand or more goes, the other queue stays: a step of the run that the queues record |
| AuditQueue.Queues.TakeBatches | client/src/core/remote_client.cpp:604-630 | the first forty of the high queue followed by the normal one, or of the high queue alone, are taken and the rest stays in order: a step of that run |
| AuditQueue.Queues.PutBack | client/src/core/remote_client.cpp:733-740 | the reverse loop over mixed batches returns each to the head of its own queue, in order |
| AuditQueue.Queues.Finish | client/src/core/remote_client.cpp:733-740 | sent batches leave and failed ones return to the head of their own queue, in order: a step of that run |
| AuditQueue.Queues.QueuesAreSafe | client/src/core/remote_client.cpp:412-740 | after any calls the queue fields keep conservation, order and the bound of 1040 |
| AuditQueue.AuditQueueSafety | client/src/core/remote_client.cpp:412-740 | after any interleaving: arrivals are sent, dropped, in flight or queued; each priority is strictly increasing through sent, in flight and queued; a queue with its flight never exceeds 1040; no batch changes priority |
| AuditQueue.FifoUntilOverflow | client/src/core/remote_client.cpp:412-740 | a priority is delivered in arrival order without gaps exactly as long as nothing of it was dropped |
| AuditQueue.FailUndoesTake | client/src/core/remote_client.cpp:733-740 | a failed send leaves both queues as if it had not been tried |
| AuditQueue.QueuesDrain | client/src/core/remote_client.cpp:604-740 | with no arrivals, n successful sends take forty batches each of whatever priority until everything queued has been sent in order |
| UploadQueue.Transport.TakeNext | client/src/transport/https_transport.cpp:203-223 | the head of the high queue, or of the normal queue when the high one is empty, is taken and nothing else changes: a step of the run that the transport records |
| UploadQueue.Transport.Upload | client/src/transport/https_transport.cpp:228-250 | servers are tried in order; acceptance resets the backoff |
| UploadQueue.Transport.PutBack | client/src/transport/https_transport.cpp:251-261 | a refused batch returns to its head, as a step of that run; after k earlier failures the worker waits min(2^k, max) |
| UploadQueue.Transport.QueuesKeepOrder | client/src/transport/https_transport.cpp:137-275 | after any calls, uploaded, in flight and the queue fields are the arrivals in order |
| UploadQueue.NothingLostOrReordered | client/src/transport/https_transport.cpp:137-275 | with a server, uploaded, in flight and queued together are exactly the arrivals in order, per priority; without one every taken batch is discarded |
| UploadQueue.HighFirst | client/src/transport/https_transport.cpp:214-222 | a normal batch is taken only when no high one waits |
| UploadQueue.RefusedUndoesTake | client/src/transport/https_transport.cpp:251-261 | a refused batch stands where it stood before the try |
| UploadQueue.QueuesDrain | client/src/transport/https_transport.cpp:198-250 | as long as some server accepts, everything queued is uploaded in order, high batches first |
| UploadQueue.BackoffLawExactly | client/src/transport/https_transport.cpp:198-261 | the backoff is min(2^k, max) after k failures along every run exactly when max >= 1 and, given a server, max < 2^30, where its double is still an int |
| Coalescer.LookupDecides | client/src/collector/collector_filter.cpp:163-169 | a memory that forgets only expired keys gives the verdict of one that never forgets |
| Coalescer.Forget | client/src/processor/processor.cpp:90-93 | dropping a key whose window has passed is harmless |
| Coalescer.FileEventCoalescer.Accept | client/src/collector/collector_filter.cpp:163-181 | for events at any times the verdict and the memory, eviction included, are those of the specification |
| Coalescer.InOrderVerdict | client/src/collector/collector_filter.cpp:163-181 | for times in order an event passes exactly when no accepted one with its key lies less than a window earlier |
| Coalescer.FaithfulExactly | client/src/collector/collector_filter.cpp:163-181 | the verdicts are those of a log that never forgets, for all keys, exactly when the times never go back |
| Coalescer.Deduper.Process | client/src/processor/processor.cpp:79-95 | the same verdict, untouched by the ten-window sweep |
| Coalescer.BackwardsClockAdmitsTwice | client/src/collector/collector_filter.cpp:163-181 | from the empty coalescer, any step back of the clock admits a key twice within its window |
| ConfigJson.ParseValue | shared/src/common/config_parser.cpp:158-170 | the recursive parser ends on every text and every success moves the cursor |
| ConfigGrammar.ParseExactly | shared/src/common/config_parser.cpp:20-179 | the parser accepts exactly the texts of a grammar defined without it, and returns exactly the value and the end that the grammar gives |
| ConfigGrammar.StringExactly | shared/src/common/config_parser.cpp:42-92 | a string literal stands for exactly what its characters and escapes say |
| ConfigGrammar.Utf8Exactly | shared/src/common/config_parser.cpp:61-82 | an escaped code point becomes its shortest UTF-8 form, one to three bytes |
| ConfigGrammar.IntExactly | shared/src/common/config_parser.cpp:94-110 | an integer is an optional sign and digits with any leading zeros, in 64 bits; what follows the digits in the token is ignored |
| ConfigGrammar.MapMeans | shared/src/common/config_parser.cpp:143-152 | an object that is read is in key order and holds for each key the value of its first place |
| ConfigPrinter.Stream.WriteEscaped | shared/src/common/config.cpp:161-180 | the character loop writes the escaped text |
| ConfigPrinter.Stream.WriteList | shared/src/common/config.cpp:181-196 | the list loop writes commas between elements and none behind the last |
| ConfigPrinter.Stream.WriteMap | shared/src/common/config.cpp:197-214 | the map loop writes separators before all entries but the first |
| ConfigLayout.LayoutExactly | shared/src/common/config.cpp:181-214 | a list or map is printed as its parts are printed by themselves, each on its own lines, two blanks further in, with commas between them |
| ConfigPrinter.PrintJson | shared/src/common/config.cpp:148-215 | the stream printer produces the specified text |
| ConfigParser.JsonCursor.ReadString | shared/src/common/config_parser.cpp:42-92 | the cursor loop with escapes reads what the function on texts reads, and ends where it ends |
| ConfigParser.JsonCursor.ReadHex4 | shared/src/common/config_parser.cpp:61-73 | four digits are read as one number, or rejected at the first non-digit |
| ConfigParser.JsonCursor.ReadArray | shared/src/common/config_parser.cpp:122-136 | the element loop against the function on texts |
| ConfigParser.JsonCursor.ReadObject | shared/src/common/config_parser.cpp:138-156 | the entry loop, where the first of equal keys wins |
| ConfigParser.ParseMinimalJson | shared/src/common/config_parser.cpp:173-179 | the cursor parser computes the parse function |
| ConfigRoundTrip.ReadsParses | shared/src/common/config_parser.cpp:20-179 | every text of a tree, with any white space and any string escapes, parses to that tree |
| ConfigRoundTrip.ConfigRoundTrip | shared/src/common/config.cpp:148-215 | parsing the printed text gives back every tree of null, bool, 64-bit int, any string, list and map, and consumes the whole text |
| ConfigRoundTrip.DumpIsInjective | shared/src/common/config.cpp:148-215 | different printable trees have different texts |
| ConfigRoundTrip.FirstKeyIsKept | shared/src/common/config_parser.cpp:143-152 | the first key that is read is a key of the result |
| ConfigRoundTrip.KeyRoundTripExactly | shared/src/common/config.cpp:148-215 | all ordered double-free trees with keys in a set come back exactly when no key of the set has a quote or a backslash |
| ObjectArray.ScanObjectArray | server/src/manager/log_policy_util.h:128-163 | the scanning loop computes the scanner function |
| ObjectArray.QuotePasses | client/src/core/remote_client.cpp:44-67 | whatever a string holds, its printed form leaves the scanner as it was |
| ObjectArray.ValuePasses | server/src/manager/log_policy_util.h:139-161 | inside an object, every nested value leaves the scanner as it was |
| ObjectArray.ObjectIsFound | server/src/manager/log_policy_util.h:150-157 | a top-level object is reported with exactly its text |
| ObjectArray.ArrayIsRead | server/src/manager/log_policy_util.h:128-163 | the objects of the array come back in order, as printed |
| ObjectArray.LogsArrive | client/src/core/remote_client.cpp:656-713 | the server reads from an operation-log body exactly the logs the agent printed, whatever the host id and the strings hold |
| FieldReader.UnescapeLoop | server/src/manager/log_policy_util.h:42-61 | the unescaping loop computes its function |
| FieldReader.ReadStringField | server/src/manager/log_policy_util.h:63-81 | the field reader computes its function |
| FieldReader.RawOfEscaped | server/src/manager/log_policy_util.h:71-80 | the raw loop stops at the closing quote of an escaped text and keeps all escapes |
| FieldReader.EscapesMean | server/src/manager/log_policy_util.h:42-61 | eight escapes stand for one character each; behind any other character the backslash is kept |
| FieldReader.FieldReadExactly | server/src/manager/log_policy_util.h:63-81 | a field at any place of a record is read back, for every text without rare control characters, exactly when the quoted key with a colon somewhere behind it does not stand ahead of the field's own text |
| FieldReader.FieldRoundTripExactly | server/src/manager/log_policy_util.h:42-81 | in such a record a text is read back exactly when it has no control character without a short escape |
| FieldReader.OwnKeyIsFirstExactly | server/src/manager/log_policy_util.h:63-65 | the first quoted key is the field's own exactly when no key and no text ahead of it, at any depth, is the key or ends in a quote and the key |
| FieldReader.FieldIsRead | server/src/manager/log_policy_util.h:63-81 | a field that no such string shadows is read back exactly when its text has no control character without a short escape |
| FieldReader.FlatRecordExactly | server/src/manager/log_policy_util.h:63-81 | behind a flat member the field is read back for every text exactly when no string ahead of it shadows its key, the value directly in front excepted |
| FieldReader.ValueTakesTheField | server/src/manager/log_policy_util.h:63-81 | a value equal to the key makes the reader return the text of the member behind it instead of the field's |
| Base64.DecodeLoop | client/src/collector/http_proxy_collector.cpp:254-277 | the loop on a 32-bit accumulator computes the decoder function |
| Base64.AlphabetExactly | client/src/collector/http_proxy_collector.cpp:255-269 | each digit value has its character in the table, and two more in the url alphabet |
| Base64.GarbageIsSkipped | client/src/collector/http_proxy_collector.cpp:267-269 | a character outside the alphabet changes nothing, wherever it stands |
| Base64.PaddingEnds | client/src/collector/http_proxy_collector.cpp:260-261 | the first equal sign ends the text |
| Base64.ShiftIs | client/src/collector/http_proxy_collector.cpp:267-274 | only the low bits of the accumulator matter, so its overflow does not |
| Base64.DecodeInvertsEncode | client/src/collector/http_proxy_collector.cpp:254-277 | decoding inverts the encodings of sections 4 and 5 of RFC 4648, padded or not, for every byte string |
| Identity.ReadUsername | client/src/collector/http_proxy_collector.cpp:282-290 | the login name from an authorization header, with the decoding loop |
| Identity.ValueExactly | client/src/collector/http_proxy_collector.cpp:238-251 | the value of the first such key is read up to its first quote, blanks in front skipped; a value that is no text or is not closed reads as empty |
| Identity.TokenForms | client/src/collector/http_proxy_collector.cpp:282-290 | the scheme in front and the signature behind may be missing; an empty header or token reads as empty |
| Identity.NameFromToken | lab/book_system/backend/auth.py:16-37 | what the proxy reads from an issued token, for every user |
| Identity.IdentityRoundTripExactly | client/src/collector/http_proxy_collector.cpp:238-290 | the issued name is read back exactly when it is printable ASCII without quote and backslash |
| ActionNorm.PathSegments | client/src/processor/processor.cpp:396-418 | the splitting loop computes the kept segments |
| ActionNorm.SegmentsTogether | client/src/processor/processor.cpp:396-418 | the segments of a path are those of its parts |
| ActionNorm.IgnoredPartVanishes | client/src/processor/processor.cpp:403-410 | ids, versions and API prefixes anywhere in a path change nothing |
| ActionNorm.NormalizeUri | client/src/processor/processor.cpp:478-567 | the loops for verb, nearest entity, qualifier and body action compute the action name |
| ActionNorm.DeleteBackupNeedsBackup | client/src/processor/processor.cpp:478-567 | a request becomes delete.backup, in any case, only if some segment is `backup`, `backups` or `bak` |
| ActionWords.EntityExactly | client/src/processor/processor.cpp:447-474 | each entity has exactly its words |
| ActionWords.ActionExactly | client/src/processor/processor.cpp:424-445 | a segment is taken for an action exactly when it is one of its words or begins with one of its stems |
| ActionWords.WordExactly | client/src/processor/processor.cpp:397-417 | a path word is kept in lower case unless it is empty, a number, a version or an API prefix |
| ActionWords.SeparatedExactly | client/src/processor/processor.cpp:411-416 | slash, question mark, ampersand and equal sign all separate, and nothing is lost between them |
| ActionWords.RequestExactly | client/src/processor/processor.cpp:478-567 | the name is action and entity exactly when the last action word, or else the method, says the action and the entity word nearest before it, else the first behind it, else the last of all, names the entity |
| ActionWords.DeleteExactly | client/src/processor/processor.cpp:517-534 | without an action word: exactly a DELETE, in any case, whose last entity word is one for the entity |
| ActionWords.AuditExactly | client/src/processor/processor.cpp:536-546 | an audit is named after the last other entity of the path, if there is one |
| ActionWords.NothingNamed | client/src/processor/processor.cpp:565-566 | a request without an entity word is about `unknown` |
| ActionWords.ExecExactly | client/src/processor/processor.cpp:548-563 | an exec request is named after the action in its body |
| ActionWords.BackupAlarmExactly | server/src/collusion/collusion.cpp:316-323 | requests complete rule R-001 exactly when one deletes a backup, a later one unmounts or detaches a volume, and a still later one deletes a snapshot |
| ActionNorm.NoBackupNoAlarm | server/src/collusion/collusion.cpp:316-323 | no sequence of requests without a backup segment, however long, satisfies rule R-001 |
| ActionNorm.QueryCountsAsPath | client/src/processor/processor.cpp:411-414 | for all paths and queries a request reads as if its question mark were a slash |
| Aggregation.KeyIsInjective | server/src/collusion/collusion.cpp:1359-1362 | equal aggregate keys mean the same asset group and window, whatever the group is called |
| Aggregation.PutIsSound | server/src/collusion/collusion.cpp:1363-1378 | a set keeps distinct operators and work orders, exactly those of its events, in time order inside one window whose start is a multiple of its length |
| Aggregation.AddConserves | server/src/collusion/collusion.cpp:1357-1381 | accepting an event keeps all sets sound and every event in exactly one live or flushed set |
| Aggregation.EventsBelong | server/src/collusion/collusion.cpp:1357-1381 | an event in a live set was accepted under its group and falls into its aligned window |
| Aggregation.SameSetExactly | server/src/collusion/collusion.cpp:1360-1362 | two events share a set exactly when their groups and their aligned intervals are the same |
| Aggregation.OneSetPerWindow | server/src/collusion/collusion.cpp:1357-1381 | accepted events of one group and one aligned interval that were not flushed are together in one live set, and in no other |
| Aggregation.FlushMap | server/src/collusion/collusion.cpp:1596-1611 | the erasing loop takes out exactly the due sets |
| Aggregation.FlushConserves | server/src/collusion/collusion.cpp:1595-1614 | flushing loses and copies nothing |
| AggregationEngine.UpdateProfile | server/src/collusion/collusion.cpp:1829-1838 | the nested loops count every pair and every operator's group once |
| AggregationEngine.RowsLength | server/src/collusion/collusion.cpp:1831-1834 | how many pairs the nested loops visit |
| AggregationEngine.LearnedCounts | server/src/collusion/collusion.cpp:1829-1838 | each pair count is the number of flushed sets' pairs with that key; all together grow by n(n-1)/2 per set of n operators; so do group counts per operator |
| AggregationEngine.Aggregator.Ingest | server/src/collusion/collusion.cpp:1346-1398 | any run of ingestion keeps conservation for both window kinds and the profile; every set whose end and grace period are over has left, and no other |
| AggregationEngine.Aggregator.TogetherWhileLive | server/src/collusion/collusion.cpp:1346-1381 | for both kinds, events of one group and one aligned interval are together in one live set until it leaves |
| AggregationEngine.Aggregator.FlushDue | server/src/collusion/collusion.cpp:1595-1614 | the flush of both kinds with profile learning |
| AggregationEngine.Aggregator.PairCountsAddUp | server/src/collusion/collusion.cpp:1829-1838 | at any time the pair counts sum to the pairs of all flushed sets plus what was loaded |
| AggregationEngine.Aggregator.ProfileMeans | server/src/collusion/collusion.cpp:1829-1838 | at any time the count of a pair has grown by the flushed sets that hold both operators, and an operator's count in a group by the learned sets of that group that hold him |
| AggregationEngine.PairKeyExactly | server/src/collusion/collusion.cpp:1829-1838 | for names without a bar a pair key stands for one unordered pair |
| RiskScore.ConfigRanges | server/src/collusion/collusion.cpp:480-502 | every configuration text yields scores, factors and decay fields in the documented ranges; a deduction or bonus turns negative only through the cast |
| RiskScore.ConfigKeeps | server/src/collusion/collusion.cpp:480-502 | values inside their ranges are read as they are, field by field |
| RiskScore.WindowRanges | server/src/collusion/collusion.cpp:472-492 | the short window is never longer than the long one, neither is empty, and the grace and the chain buffer are bounded |
| RiskScore.EvaluateRules | server/src/collusion/collusion.cpp:1009-1034 | the rule loop computes the capped base and the hit list |
| RiskScore.CheckWorkOrders | server/src/collusion/collusion.cpp:986-1007 | valid exactly when some reference is verified; forged exactly when a missing one comes before any verified one |
| RiskScore.Detect | server/src/collusion/collusion.cpp:967-1170 | factors, decay, total and level are those of the specification |
| RiskScore.DetectionIsBounded | server/src/collusion/collusion.cpp:1154-1158 | every total is in 0..100 and every clue factor respects its cap |
| RiskLaws.LevelExactly | server/src/collusion/collusion.cpp:1159-1170 | outside the whitelist HIGH, MID, LOW and NONE are exactly the totals from scoreHigh on, from scoreMid to below it, from 1 to below that, and 0; a whitelisted set is LOW with nothing scored |
| RiskLaws.LevelNeverFalls | server/src/collusion/collusion.cpp:1165-1168 | a higher total never means a lower level |
| RiskLaws.HighNeedsRule | server/src/collusion/collusion.cpp:1009-1170 | behind every HIGH an enabled rule for this asset group and number of operators has its steps in order among the events |
| RiskLaws.RuleFactorMeans | server/src/collusion/collusion.cpp:1009-1034 | reported are exactly the rules that fire, in order; the first counts in full, the others together up to the cap, operators beyond the second five points each up to twenty |
| RiskLaws.DecayMeans | server/src/collusion/collusion.cpp:1036-1056 | points off for time: the rate for each whole hour beyond the start, up to the cap, never below zero |
| RiskLaws.TotalMeans | server/src/collusion/collusion.cpp:1154-1163 | the total is the sum of the factors less the deduction, clamped to 0..100, and below HIGH without a rule factor |
| RiskLaws.WhitelistExactly | server/src/collusion/collusion.cpp:951-984 | whitelisted exactly when one valid group knows every operator and there is one to know |
| RiskLaws.TicketsMean | server/src/collusion/collusion.cpp:931-1007 | the ticket counts exactly when a reference is approved by status, time and operators; it is forged exactly when an unknown one comes before all approved ones |
| RiskLaws.ProfileMeans | server/src/collusion/collusion.cpp:1059-1090 | strangers twelve points, operators not at home in the group six each up to thirteen, a forged order its bonus, together up to the cap |
| RiskScore.SpanDecayExactly | server/src/collusion/collusion.cpp:1036-1056 | for every configuration, a longer span never raises the score, up to a limit, exactly when the hour product fits in an int there and taking points off cannot carry a sum of factors out of the int range |
| RiskScore.DecayCostExactly | server/src/collusion/collusion.cpp:1036-1163 | for every configuration and all factors, decay costs at most its cap exactly unless it uses up the rule factor while the clues alone stand at the high mark, from which the final clamp takes the rest |
| RiskScore.StretchingNeverRaises | server/src/collusion/collusion.cpp:1009-1163 | the same events further apart have the same hits and factors and no higher score, wherever decay is safe in the sense of the previous result |
| RiskScore.TicketNeverHurtsExactly | server/src/collusion/collusion.cpp:1154-1157 | a verified work order never raises the score exactly when the deduction is not negative and no sum falls out of the int range, or the deduction wraps every sum below zero |
| RiskScore.RuleOrderInvisibleExactly | server/src/collusion/collusion.cpp:1009-1034 | for any two orders of the rules: the rule factor is the same exactly when nothing is hit, the first hits score alike, or the cap on further hits is reached in neither order |
| RiskScore.LaterRuleNeverLowers | server/src/collusion/collusion.cpp:1023-1034 | one more rule at the end never lowers the rule factor |
| LogQuery.DaySkippingExactly | server/src/manager/manager_server.cpp:1564-1576 | a dated line is never skipped exactly when its day bucket is the day of its timestamp |
| LogQuery.MonthSkippingExactly | server/src/manager/manager_server.cpp:1564-1576 | for a dated line a month bucket is never skipped exactly when the date lies between its days 01 and 31 |
| LogQuery.OwnBucketIsNotSkipped | server/src/manager/manager_server.cpp:1564-1576 | a line in the day or month bucket of its date is seen by every query it matches |
| LogQuery.UndatedLineIsSkipped | server/src/manager/manager_server.cpp:1341-1343 | a line without a timestamp passes every filter but is lost to queries about later days |
| LogQuery.MatchesMeans | server/src/manager/manager_server.cpp:1324-1352 | what a query asks of a line, condition by condition |
| LogQuery.DatesMakeBuckets | server/src/manager/manager_server.cpp:1490-1521 | a dated line belongs to the bucket of its day and, in monthly stores, to that of its month |
| LogStore.MergeBucket | server/src/manager/manager_server.cpp:232-296 | merging a late bucket appends its lines file by file |
| LogStore.TypeDirectory.ArchiveTypeDir | server/src/manager/manager_server.cpp:1731-1773 | every expired bucket is moved or merged, all others stay |
| LogStore.TypeDirectory.PurgeArchiveDir | server/src/manager/manager_server.cpp:1776-1790 | exactly the expired archived buckets go |
| LogStore.RoundsMean | server/src/manager/manager_server.cpp:1725-1790 | an archive round takes from the hot root exactly the buckets whose last day is before the cutoff, a purge from the archive |
| LogStore.RunKeepsLines | server/src/manager/manager_server.cpp:232-296 | after any run both roots hold the end of what was appended to each file, in order, and all of it unless a purge reached the bucket |
| LogStore.ReadFile | server/src/manager/manager_server.cpp:1324-1352 | the trimmed read of one file is the last matching lines |
| LogStore.FilterMeans | server/src/manager/manager_server.cpp:1324-1352 | the filter keeps exactly the matching lines, in order |
| LogStore.ReadDir | server/src/manager/manager_server.cpp:1396-1413 | trimming file by file equals taking the last lines of the untrimmed whole |
| LogStore.LastOfLast | server/src/manager/manager_server.cpp:1407-1410 | early trimming of both parts changes nothing |
| LogStore.WantedFilesAreScanned | server/src/manager/manager_server.cpp:1607-1706 | whatever files a query wants by name, pruning buckets, archiving and merging lose and add no matching line of theirs |
| LogStore.QueryIsFullScan | server/src/manager/manager_server.cpp:1653-1706 | with one file per host, a query over the pruned enumeration returns exactly the matching lines of everything appended, as a multiset |
| LogStore.RecentQueryIsFullScan | server/src/manager/manager_server.cpp:1711-1790 | in particular every query that starts no earlier than the purge cutoffs |
| OperationLogs.SanitizeCollector | include/auditforwarder/log_meta.h:170-183 | the character loop computes the base name of a collector's files |
| OperationLogs.OnlyPrivilegedIsMirrored | include/auditforwarder/log_meta.h:170-183 | no other collector's name is mapped onto that of the mirror files |
| OperationLogs.StoreRecord | server/src/manager/manager_server.cpp:3719-3740 | a record goes to its collector's file and, with high priority, to the mirror, as steps of the store's run |
| OperationLogs.ShownCopies | server/src/manager/manager_server.cpp:1901-1951 | how often a query shows each record, for both kinds of query and every collector name |
| OperationLogs.LayeredQueryExactly | server/src/manager/manager_server.cpp:1607-1951 | over layers, buckets and archive, a query returns exactly the records it asks about, each as often as received, if and only if none that passes its filters comes from a collector called privileged |

## Left out

- Wildcard.Match: three copies of the loop are the same; one is modelled and the others are cited beside it. The fourth is Wildcard.GlobMatch; the regular expressions tried after it are left out.
- ChainBuffer.CandidatesFromHistory: asks, like ChainBuffer.InOrderCandidatesAreComplete, that the span never holds more events than the hard cap, the exact condition of ChainBuffer.BufferRefinesExactly; beyond it the oldest events of the span go.
- Correlation.MatcherIsComplete: leaves out event times within one time span of 2^64 microseconds, where the unsigned sum wraps.
- ChainEngine.Engine.ChainEval: 64-bit overflow of `ts_ms + 2000` is not modelled; scoring and storing the evidence are elsewhere or left out.
- RemoteCommands.DeliverySafety: one server and one agent process; command ids are fresh, as 64 random bits make them; executed ids are not kept across agent restarts.
- Coalescer.FileEventCoalescer.Accept: event times are unbounded and one thread calls; `Clear` is a reset, not an event.
- ConfigRoundTrip.ConfigRoundTrip: doubles print through stream formatting and read through `std::stod`, so trees with doubles are not claimed; text behind the value is ignored by the parser.
- FieldReader.FieldReadExactly: keys are printed as they are (no control character, quote or backslash), as all keys of the agents are; FieldReader.OwnKeyIsFirstExactly also asks that a key does not begin with a colon, a comma or a closing bracket, for which the text between two strings can pass.
- ObjectArray.LogsArrive: numbers, booleans and raw fields of a log are assumed free of quotes and braces, because the agent prints them unescaped.
- Identity.NameFromToken: the signature and the expiry are arbitrary texts; checking the signature is not part of the proxy.
- RiskLaws.TotalMeans: the plain sum is claimed while it fits in an int, which it does for every deduction and bonus below 2^31 - 1000.
- ConfigGrammar.ParseExactly: which texts `std::stod` accepts is a parameter, and messages of errors are compared in ConfigParser only.
- RiskScore.Detect: the model and graph scores come in as arbitrary non-negative numbers; notes are left out; signed overflow is modelled as two's complement, and the sum of base scores as unbounded.
- AggregationEngine.Aggregator.Ingest: evaluation, alerts and eager mode are left out; window ends are unbounded sums.
- LogStore.RunKeepsLines: file operations succeed, compression is the identity, hot buckets hold plain files, retention trimming of very large files is left out, and the archive stays enabled.
- LogStore.QueryIsFullScan: about lines stored under their own host in the bucket of their date, at one granularity per store; OperationLogs.LayeredQueryExactly likewise.
- OperationLogs.LayeredQueryExactly: is about the lines a query collects; the final unstable sort by time, the limit, files migrated from older layouts (`legacy`) and the per-collector content profiles are left out.
- ActionNorm.NormalizeUri: only the HTTP branch; names from command lines and file paths are left out.
- Sockets, TLS, HTTP framing, encryption, compression and the file system: modelled as success or loss where a protocol depends on them, otherwise absent.
- YAML configuration, regular-expression filters, masking, sessions, reports and user interfaces: they would add mostly easy members.
- Rule files: `rules_to_json` leaves out a closing quote, so its output does not parse back and no round trip is claimed.
- The claim that chain mode is a superset of fixed windows (comment at collusion.cpp:1600-1602) is not made here.
- Hash chain, Merkle tree, behaviour graphs and the inference model: only their interfaces are visible.
- Correlation-buffer pruning with unlimited and finite rules together, and unlocked concurrent access to command files.
