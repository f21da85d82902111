# Verified models of Slab

Slab is an ERP back end. This project models the parts of it whose correctness is not settled by reading one
function, and proves what holds of them for all inputs and over all runs.

| files | component |
|---|---|
| `FilterSyntax`, `FilterParser`, `FilterGrammar`, `FilterNumbers`, `FilterSql`, `FilterReading` | the RSQL filter: cursor parser, an independent grammar, a printer, compilation to SQL with three-valued semantics |
| `EventBusSpec`, `EventBusTheorems`, `EventBusTimes`, `EventBusLiveness`, `EventBusOutcomes`, `EventBus` | the outbox dispatcher: events, deliveries, retries, aggregation, collection |
| `JobQueueSpec`, `JobQueueTheorems`, `JobQueueTimes`, `JobQueueOutcomes`, `JobQueue` | the job queue: leases, crashes, orphan sweep, retries, batch collection |
| `JsonTrees`, `AuditDiff`, `AuditApply`, `AuditPaths`, `AuditExact`, `AuditEmptyKey`, `AuditCreate` | the audit diff of JSON snapshots |
| `CategoryTree` | building the item category tree |
| `TtlStore`, `RefreshTokens`, `RefreshTokenSteps`, `RefreshTokenTheorems`, `RefreshTokenBound`, `RefreshTokenTimes` | the TTL cache and refresh-token rotation |
| `InventoryLedger`, `Costing`, `Receivables` | stock ledger, weighted-average cost, payments and aging |
| `Wrappers`, `Collections`, `Sums`, `Powers`, `SortedStrings`, `Batches` | shared vocabulary: options, sets and sequences, finite sums, powers of two, the order of strings, ORDER BY with LIMIT |

Code that works by changing things in place is a class whose methods, loops included, are proved against functions
on values; the lemmas are about those functions, and for the protocols about runs: sequences of states in which each
step is one transaction. `dafny verify dfyconfig.toml` checks everything.

Assumptions. Each database transaction is one atomic step; concurrent ones hold disjoint row locks, which appear as
the rows a query skips. All clocks in a component agree. The event registry is frozen, event payloads come from
`publish` and so parse, attempt limits are at least 1, and a new delivery row is due at once (the column default is
the transaction's time). Job and event ids are never reused, and token names are fresh.

Where code and documentation disagree the model follows the code. The comment at `libs/filter_kit/lib.rs:323` gives field names
that start with a letter or underscore, but the loop below it also takes a leading digit:
`FilterGrammar.DocumentedNamesExactly`. The module text promises that
`*` stands for any text, but the other wildcards of LIKE pass through: `FilterSql.WildcardExact` says exactly when the
promise holds. The job queue's documented doubling stops at 30 doublings: `JobQueueTheorems.BackoffExact`. Its
finishing statements check only the id, so Done and Failed are final only under a timing condition:
`JobQueueTheorems.LeaseBoundExact`. Audit paths join keys with dots, so a report can be misread:
`AuditExact.DiffRebuildsExactly`, `AuditEmptyKey.EmptyKeyExactly` and `AuditCreate.CreationFaithfulExactly` say exactly when
it is not. A user can end up with two working refresh tokens, by overlapping logins (`RefreshTokenBound.OverlapLeavesTwo`) or by
one that fails half-way (`RefreshTokenBound.MidwayLeavesTwo`); `RefreshTokenBound.TokenBoundExact` says exactly when not.

## Model

| member | source | states |
|---|---|---|
| `FilterParsing.ParseFilter` | libs/filter_kit/lib.rs:407-420 | the cursor parser ends on every input and returns exactly what the scanning specification gives: the tree or the same error; success only when all input is consumed |
| `FilterParsing.Parser.ParseOr` | libs/filter_kit/lib.rs:279-290 | from any cursor position: the left-folded OR of AND chains that the specification scans from the remaining text, and the cursor where it stops |
| `FilterParsing.Parser.ParseAnd` | libs/filter_kit/lib.rs:293-304 | the same for AND chains |
| `FilterParsing.Parser.ParsePrimary` | libs/filter_kit/lib.rs:307-319 | a parenthesised OR expression or a comparison, as specified, with the cursor behind it |
| `FilterParsing.Parser.ParseComparison` | libs/filter_kit/lib.rs:321-352 | field, operator, value and check, in this order and with the error of the first that fails |
| `FilterParsing.Parser.ParseValue` | libs/filter_kit/lib.rs:355-385 | quoted value with doubled quotes undone, or the longest run without delimiters; unclosed quote and empty value are syntax errors |
| `FilterParsing.Parser.EatKeyword` | libs/filter_kit/lib.rs:258-276 | eats a keyword in any letter case exactly when no identifier character follows; otherwise the cursor stays |
| `FilterParsing.Parser.SkipBlanks` | libs/filter_kit/lib.rs:252-256 | moves over exactly the leading white space |
| `FilterGrammar.ParseComplete` | libs/filter_kit/lib.rs:279-385 | every text of the grammar (all blanks, both spellings of AND and OR, both quotings, nesting) is accepted, with the left fold of ORs over left folds of ANDs as its tree |
| `FilterGrammar.ParseSound` | libs/filter_kit/lib.rs:404-420 | every accepted text is a text of the grammar, trailing blanks aside, and the tree is the grammar's |
| `FilterGrammar.ExactLanguage` | libs/filter_kit/lib.rs:9-33 | the parser returns a tree for a text if and only if the grammar derives that text with that tree |
| `FilterGrammar.ParsedIsAccepted` | libs/filter_kit/lib.rs:388-401 | every comparison in a parsed tree has an identifier name and passes the field, kind and integer checks |
| `FilterGrammar.RoundTrip` | libs/filter_kit/lib.rs:279-420 | printing any tree whose comparisons pass the checks, with quoted values and only the parentheses precedence and association need, then parsing it, gives back that tree |
| `FilterGrammar.PrintedParse` | libs/filter_kit/lib.rs:404-420 | printing what was parsed gives a text with the same parse |
| `FilterGrammar.DocumentedNamesExactly` | libs/filter_kit/lib.rs:321-331 | the field names of all accepted filters have the documented form, no digit first, if and only if the schema has no column that begins with a digit |
| `FilterGrammar.DigitFirstAccepted` | libs/filter_kit/lib.rs:208-210 | a concrete filter on a column that begins with a digit is accepted |
| `FilterGrammar.SpelledAsDocumented` | libs/filter_kit/lib.rs:190-198 | the operators the scanner tries are spelled as the documentation spells them, in a table of the grammar's own |
| `FilterReading.OperatorSpellings` | libs/filter_kit/lib.rs:321-352 | for every field, value, quoting and blanks the texts with ==, !=, =gt=, =ge=, =lt=, =le= and =ilike= are the comparisons of those meanings, or fail with the error of their check |
| `FilterReading.MatrixExact` | libs/filter_kit/lib.rs:388-401 | a comparison passes if and only if the documented kind x operator matrix allows it and an integer column gets a 64-bit number; an unknown field is its own error |
| `FilterReading.BareValueEnds` | libs/filter_kit/lib.rs:371-384 | an unquoted value ends at a comma, semicolon, parenthesis or Unicode blank, and nowhere else |
| `FilterReading.BlanksExact` | libs/filter_kit/lib.rs:252-256 | the blanks are exactly the 25 code points with the White_Space property |
| `FilterReading.NameCharsExact` | libs/filter_kit/lib.rs:208-210 | field names consist of ASCII letters, digits and underscores |
| `FilterReading.KeywordsExact` | libs/filter_kit/lib.rs:258-276 | the keywords are and and or in all eight and four letter cases, and nothing else |
| `FilterReading.CaseExact` | libs/filter_kit/lib.rs:258-276 | characters match regardless of case if and only if they are equal or one ASCII letter in both cases |
| `FilterNumbers.ParseI64Exact` | libs/filter_kit/lib.rs:388-401 | a text is read as n if and only if it is an optional sign and digits whose signed positional value is n, within 64 bits |
| `FilterNumbers.DecimalReadBack` | libs/filter_kit/lib.rs:454-456 | every 64-bit number in decimal notation is read back |
| `FilterSql.FallbacksUnreachable` | libs/filter_kit/lib.rs:434-470 | no accepted input reaches a defensive fallback of the compiler (unexpected operator, unreadable number, unknown field) |
| `FilterSql.ComparisonMeaning` | libs/filter_kit/lib.rs:434-470 | a checked comparison, compiled and evaluated in three-valued SQL logic, decides as the comparison itself does on every row, nulls included |
| `FilterSql.CompilationPreservesMeaning` | libs/filter_kit/lib.rs:424-433 | for every accepted text and every row with columns of the declared kinds, the compiled expression evaluates as the boolean tree does |
| `FilterSql.WildcardExact` | libs/filter_kit/lib.rs:440-441 | the compiled `=ilike=` pattern means `*` = any text on every string if and only if the value has no `%`, `_` or backslash |
| `FilterSql.DocumentedMeaning` | libs/filter_kit/lib.rs:20-29 | with such values the compiled query agrees with the documented reading of the filter |
| `FilterReading.IntFilterSelects` | libs/filter_kit/lib.rs:454-467 | from text to rows: a filter on an integer column selects exactly the rows whose number compares so with the number written, and none with null |
| `FilterReading.DateFilterSelects` | libs/filter_kit/lib.rs:442-453 | the same on a date column, by the moment the text is cast to |
| `FilterReading.TextFilterSelects` | libs/filter_kit/lib.rs:437-441 | on a text column: equal, different, or matching the wildcard pattern |
| `FilterReading.KleeneLogic` | libs/filter_kit/lib.rs:424-433 | AND is the lesser and OR the greater of false, unknown and true |
| `FilterReading.CombinedSelects` | libs/filter_kit/lib.rs:424-433 | a row passes a conjunction if and only if it passes both sides, and a disjunction if and only if it passes one |
| `EventBus.EventRegistry.Register` | infrastructure/event_bus/registry.rs:26-39 | appends the subscriber, and refuses exactly a second one of the same name on the topic; names stay distinct |
| `EventBus.Dispatcher.PublishEvent` | infrastructure/event_bus/publish.rs:6-32 | adds one pending event, due now or later, under a fresh id |
| `EventBus.Dispatcher.EnsureDeliveries` | infrastructure/event_bus/dispatcher.rs:206-228 | after the loop there is a row for every subscriber of the topic; existing rows are untouched |
| `EventBus.Dispatcher.DeliverDue` | infrastructure/event_bus/dispatcher.rs:171-293 | exactly the due rows take one step by their own handler's outcome, whatever the order of the calls |
| `EventBus.Dispatcher.RefreshState` | infrastructure/event_bus/dispatcher.rs:423-473 | the event's status and next time are the aggregate over its rows: failed first, least pending time, infinity when none is pending |
| `EventBus.Dispatcher.ProcessMessage` | infrastructure/event_bus/dispatcher.rs:142-203 | the three parts together, and terminal failure of an event nobody subscribes to |
| `EventBus.Dispatcher.SelectBatch` | infrastructure/event_bus/dispatcher.rs:92-125 | the first unlocked selectable events by due time and id, up to the limit |
| `EventBus.Dispatcher.RunOneCycle` | infrastructure/event_bus/dispatcher.rs:83-139 | one committed cycle is one step of the state machine |
| `EventBus.Dispatcher.DeleteDelivered` | infrastructure/event_bus/gc.rs:14-38 | deletes exactly the delivered events older than the retention (at least a day), with their deliveries, and counts them |
| `EventBus.Dispatcher.RunUntilIdle` | infrastructure/event_bus/dispatcher.rs:59-73 | the loop that continues without sleeping ends, within the number of attempts left plus one cycles, with a failed cycle or with nothing due but rows other dispatchers hold |
| `EventBusTheorems.BatchEffect` | infrastructure/event_bus/dispatcher.rs:133-139 | processing a batch leaves each of its events as processing it alone would, and all other events untouched |
| `EventBusTheorems.RunInv` | infrastructure/event_bus/dispatcher.rs:83-473 | the invariant of both tables holds in every state of every run of publishes, cycles, aborted cycles and collections |
| `EventBusTheorems.GateExact` | infrastructure/event_bus/dispatcher.rs:99-121 | the row-level gate passes an event exactly when the full selection does: it never hides a due delivery |
| `EventBusTheorems.IndexExact` | infrastructure/event_bus/dispatcher.rs:432-473 | in every reachable state an event with deliveries has as its next time the least among its pending ones, infinity if none |
| `EventBusTheorems.RowIsolation` | infrastructure/event_bus/dispatcher.rs:231-293 | a committed cycle changes a delivery row by nothing or by one attempt decided by that handler's own outcome alone |
| `EventBusTheorems.CallHistory` | infrastructure/event_bus/dispatcher.rs:367-421 | over every run the number of committed calls of a handler can be read off its row |
| `EventBusTheorems.CallsBounded` | infrastructure/event_bus/dispatcher.rs:367-421 | calls per event and handler never exceed the event's attempt limit, even after collection |
| `EventBusTheorems.NoCallsAfterFinal` | infrastructure/event_bus/dispatcher.rs:171-203 | no call follows Delivered or Failed, and such a row never changes |
| `EventBusTheorems.Finality` | infrastructure/event_bus/dispatcher.rs:423-473 | Delivered and Failed event statuses never change again |
| `EventBusTheorems.FanOutComplete` | infrastructure/event_bus/dispatcher.rs:432-473 | an event is Delivered if and only if every subscriber registered for its topic has a Delivered row |
| `EventBusTheorems.CollectionSafe` | infrastructure/event_bus/gc.rs:24-36 | only collection removes events, only events every subscriber handled, and the rest stay whole |
| `EventBusOutcomes.CallOutcome` | infrastructure/event_bus/dispatcher.rs:231-293 | after a call the row is delivered at that moment if and only if the handler succeeded; failed for good after a panic; after an error one attempt more, failed if and only if that is the last |
| `EventBusOutcomes.RowTellsHistory` | infrastructure/event_bus/dispatcher.rs:255-286 | over every run a row tells its handler's history: pending after fewer errors than the limit, delivered after one success, failed after one panic or as many errors as the limit |
| `EventBusOutcomes.DeliveredExactly` | infrastructure/event_bus/dispatcher.rs:432-473 | over every run an event is delivered if and only if every subscriber of its topic has once succeeded with it |
| `EventBusOutcomes.FailedExactly` | infrastructure/event_bus/dispatcher.rs:423-446 | it is failed if and only if one of its deliveries is, even while others are pending, or it was processed and nobody subscribes to its topic |
| `EventBusOutcomes.UnsubscribedFails` | infrastructure/event_bus/dispatcher.rs:142-163 | an event nobody subscribes to fails for good when processed, with its attempts used up and no deliveries |
| `EventBusOutcomes.PublishedExactly` | infrastructure/event_bus/publish.rs:6-32 | a published event is pending, due when asked, with its limit, under a new number; nothing else changes |
| `EventBusOutcomes.DelayWaits` | infrastructure/event_bus/publish.rs:16-32 | over every run a delayed event is not selected before its time |
| `EventBusOutcomes.BatchExactly` | infrastructure/event_bus/dispatcher.rs:92-125 | a cycle takes due events, earliest first by time and number, at most the batch size; what it leaves is held by others, not due, or after a full batch |
| `EventBusOutcomes.CollectedExactly` | infrastructure/event_bus/gc.rs:14-38 | collection takes exactly the events delivered longer ago than the retention, at least a day, and leaves the others whole |
| `EventBusTheorems.CycleProgress` | infrastructure/event_bus/dispatcher.rs:133-139 | a committed cycle that selects an event strictly lowers the attempts left plus unprocessed events |
| `EventBusTheorems.DrainBound` | infrastructure/event_bus/dispatcher.rs:59-73 | consecutive productive cycles number at most the attempts left |
| `EventBusTheorems.QuiescentIsTerminal` | infrastructure/event_bus/dispatcher.rs:99-121 | when nothing is selectable although every retry has come due, every event is terminal |
| `EventBusTheorems.EventuallyTerminal` | infrastructure/event_bus/dispatcher.rs:52-80 | for one dispatcher at work: after as many cycles as attempts left, each letting retries come due, every event is terminal whatever the handlers did |
| `EventBusLiveness.SelectionsBounded` | infrastructure/event_bus/dispatcher.rs:83-139 | in every run the cycles that select an event, with the attempts it has left, number at most 1 + subscribers x max_attempts |
| `EventBusLiveness.SelectionsStop` | infrastructure/event_bus/dispatcher.rs:83-139 | that bound on selections also holds after the event has been collected |
| `EventBusLiveness.SelectedEnoughIsTerminal` | infrastructure/event_bus/dispatcher.rs:99-121 | in every run an event selected that often is terminal |
| `EventBusLiveness.UnfinishedIsSelectable` | infrastructure/event_bus/dispatcher.rs:99-121 | in every run an event that is not terminal has a finite due time and is selectable exactly from then on |
| `EventBusTheorems.BackoffMonotone` | infrastructure/event_bus/status.rs:30-57 | delays never shrink from one failure to the next and stay within the cap and 1024 seconds |
| `EventBusTimes.ErrorsUseAllAttempts` | infrastructure/event_bus/status.rs:30-57 | a handler that always errs is called exactly `max_attempts` times: pending and due 2, 4, 8, ... seconds later up to the cap, then failed |
| `EventBusTimes.RetryWaits` | infrastructure/event_bus/dispatcher.rs:367-421 | over every run, the call that follows an error comes no earlier than the backoff for the number of calls made so far |
| `EventBusTimes.DeliveredWhen` | infrastructure/event_bus/dispatcher.rs:447-456 | a delivered event records the moment of a cycle that processed it |
| `EventBusTimes.RetentionKept` | infrastructure/event_bus/gc.rs:14-38 | an event disappears only by collection, longer than the retention and a day after the cycle that delivered it |
| `JobQueue.Queue.EnqueueAfter` | infrastructure/job_queue/lib.rs:203-225 | one pending row due after the delay, with RETRIES + 1 as its limit |
| `JobQueue.Queue.FetchDue` | infrastructure/job_queue/backend.rs:61-95 | takes the first due jobs of the type (by due time and id, or by id on SQLite), skipping locked ones, and starts one execution each |
| `JobQueue.Queue.LockAndMark` | infrastructure/job_queue/backend.rs:270-308 | the marking loop: each selected row Running and locked now, each with its counters copied into its execution |
| `JobQueue.Queue.Poll` | infrastructure/job_queue/lib.rs:491-517 | asks for as many jobs as it has permits, so never more than `concurrency` executions are held |
| `JobQueue.Queue.FinishJob` | infrastructure/job_queue/lib.rs:525-553 | success marks the row done, failure or timeout goes to the retry decision; a deleted row stays deleted |
| `JobQueue.Queue.FinishFailure` | infrastructure/job_queue/lib.rs:555-587 | one attempt more than was read: pending with backoff below the limit, else failed |
| `JobQueue.Queue.ReenqueueOrphaned` | infrastructure/job_queue/backend.rs:151-164 | exactly the Running rows locked before the timeout become pending, without counting an attempt; none is left |
| `JobQueue.Queue.DeleteBatch` | infrastructure/job_queue/backend.rs:176-189 | one statement deletes up to 1000 expired rows and is one step of the state machine; a short batch leaves none |
| `JobQueue.Queue.DeleteFinishedOlderThan` | infrastructure/job_queue/backend.rs:170-198 | the batch loop ends and, undisturbed, deletes exactly the finished rows expired at its last batch; the count is right |
| `JobQueueTheorems.RunInv` | infrastructure/job_queue/backend.rs:61-164 | in every state of a run whose finishing writes are in time, live executions hold their rows, at most one per row |
| `JobQueueTheorems.LeaseExclusion` | infrastructure/job_queue/lib.rs:525-622 | two executions of one job that both get to write never coexist, with any workers, crashes and sweeps |
| `JobQueueTheorems.LiveUntilFinish` | infrastructure/job_queue/backend.rs:61-95 | an execution that will write holds the row's lock, with current counters, in every state it is seen in |
| `JobQueueTheorems.FinalStays` | infrastructure/job_queue/backend.rs:97-148 | Done and Failed rows stay as they are until collected |
| `JobQueueTheorems.NoFetchAfterFinal` | infrastructure/job_queue/backend.rs:61-95 | no worker takes a finished job again |
| `JobQueueTheorems.Accounting` | infrastructure/job_queue/lib.rs:555-595 | fetches = attempts + recoveries + (1 if Running) + (1 if Done); attempts never exceed the limit and reach it exactly on Failed rows |
| `JobQueueTheorems.ExecutionsBounded` | infrastructure/job_queue/lib.rs:22-30 | a job is executed at most `max_attempts` times plus once per recovery |
| `JobQueueTheorems.NeverEarly` | infrastructure/job_queue/backend.rs:61-127 | no row is fetched before any due time it has had, enqueue delay and backoffs alike |
| `JobQueueTheorems.LateWrite` | infrastructure/job_queue/backend.rs:97-127 | a concrete run: a finishing write one tick after the lease reopens a job another worker completed |
| `JobQueueTheorems.LeaseBoundExact` | infrastructure/job_queue/backend.rs:97-164 | a bound on the lateness of finishing writes makes Done and Failed final in every run if and only if it is within the orphan timeout |
| `JobQueueTheorems.BackoffExact` | infrastructure/job_queue/lib.rs:589-595 | every delay is base doubled per failure up to the cap, as documented, if and only if base is zero or the cap is reached within 30 doublings |
| `JobQueueTheorems.BackoffGrows` | infrastructure/job_queue/lib.rs:589-595 | later failures never wait less, and never more than the cap |
| `JobQueueOutcomes.FetchExactly` | infrastructure/job_queue/backend.rs:61-95 | every job taken is waiting, of the worker's type and due; every such job that is not taken is locked by others or comes, in the database's order, after a full batch |
| `JobQueueOutcomes.FetchEffect` | infrastructure/job_queue/backend.rs:67-77 | taken jobs are running from now, otherwise unchanged; others are untouched |
| `JobQueueOutcomes.EnqueueExactly` | infrastructure/job_queue/lib.rs:203-225 | the new row: its type, waiting, no attempts, one attempt more than retries, due after the delay |
| `JobQueueOutcomes.TypeKept` | infrastructure/job_queue/backend.rs:41-58 | over every timely run a row keeps the type and limit it was enqueued with |
| `JobQueueOutcomes.FinishExactly` | infrastructure/job_queue/lib.rs:525-587 | a finishing execution makes its job done if and only if it succeeded; on failure one attempt more, failed if and only if that is the last, else waiting until its backoff is over |
| `JobQueueOutcomes.RowTellsOutcomes` | infrastructure/job_queue/lib.rs:525-587 | over every timely run a job is done after exactly one success, and its attempts are its failures |
| `JobQueueOutcomes.FinalExactly` | infrastructure/job_queue/lib.rs:22-30 | so it is done if and only if it succeeded once, and failed if and only if it failed as often as its limit |
| `JobQueueOutcomes.SweepExactly` | infrastructure/job_queue/backend.rs:151-164 | the sweep makes exactly the jobs wait again that have run longer than the timeout, attempts and due time kept |
| `JobQueueOutcomes.KeptExactly` | infrastructure/job_queue/backend.rs:170-198 | a complete collection removes exactly the rows done or failed more than the retention ago |
| `JobQueueTimes.RetryWaits` | infrastructure/job_queue/lib.rs:555-595 | a job that failed below its limit is not taken again before its backoff is over, whatever sweeps and other workers do |
| `JobQueueTimes.DelayWaits` | infrastructure/job_queue/lib.rs:203-225 | a delayed job is not taken before its delay is over |
| `JobQueueTimes.RetentionKept` | infrastructure/job_queue/backend.rs:170-198 | a row disappears only by collection, longer than the retention after the execution that finished it |
| `AuditDiff.ComputeDiff` | features/audit/diff.rs:23-48 | the loops compute the specified report for all four combinations of present and missing snapshots |
| `AuditDiff.CollectLeaves` | features/audit/diff.rs:51-67 | all leaves with their dotted paths, keys in increasing order |
| `AuditDiff.DiffInto` | features/audit/diff.rs:69-96 | appends the specified changes to what was already collected |
| `AuditDiff.DiffSymmetric` | features/audit/diff.rs:23-96 | diffing the other way round gives the same list in the same order with sides swapped, missing snapshots included |
| `AuditDiff.DiffEmptyExactly` | features/audit/diff.rs:69-96 | nothing is reported if and only if the snapshots are equal after dropping null-valued object keys |
| `AuditApply.NamedValue` | features/audit/diff.rs:77-81 | for all keys, the report is the difference over key lists with the lists joined into paths |
| `AuditApply.ChangesRebuild` | features/audit/diff.rs:69-96 | over key lists and without any condition, writing the changes into `before` gives `after` up to null-valued keys |
| `AuditApply.ChangesReal` | features/audit/diff.rs:69-96 | every change reports the two values found at its path; they differ and are not both objects |
| `AuditPaths.SplitJoinExactly` | features/audit/diff.rs:59-63 | a path reads back as the keys it was written from if and only if it does not begin with an empty key and no key has a dot |
| `AuditExact.DiffRebuildsExactly` | features/audit/diff.rs:23-96 | setting each reported path of `before` to its `after` value, null removing the key, gives `after` up to null-valued keys if and only if the snapshots agree at every dotted key of two common objects; for all snapshots that agree at the outermost empty key |
| `AuditExact.DiffUndoneExactly` | features/audit/diff.rs:23-96 | setting them to their `before` values in `after` gives `before` back, if and only if the same condition holds |
| `AuditExact.DottedKeyMisread` | features/audit/diff.rs:77-81 | a concrete pair of snapshots with a dotted key whose report does not rebuild the target |
| `AuditEmptyKey.EmptyKeyExactly` | features/audit/diff.rs:77-81 | snapshots that differ at the outermost empty key, and agree at dotted keys: the report rebuilds the target if and only if the target has nothing there and otherwise keeps nothing of what was before |
| `AuditEmptyKey.EmptyKeyMisread` | features/audit/diff.rs:77-81 | a concrete pair of snapshots with an empty key whose report does not rebuild the target |
| `AuditEmptyKey.DottedAndEmptyRebuilt` | features/audit/diff.rs:77-81 | a concrete pair that differs both at the outermost empty key and at a dotted key, and whose report does rebuild the target |
| `AuditEmptyKey.DottedAndEmptyMisread` | features/audit/diff.rs:77-81 | and one whose report does not |
| `AuditCreate.CreationFaithfulExactly` | features/audit/diff.rs:51-67 | a creation report tells the whole value, up to null-valued keys, if and only if no object in it is without leaves, no key has a dot and the outermost object has no empty key; for values whose null-valued keys are named well |
| `AuditCreate.CreationEmptyExactly` | features/audit/diff.rs:24-40 | the report of a creation or deletion is empty if and only if the value has no leaf |
| `SortedStrings.SortedAscending` | features/audit/diff.rs:73-75 | keys are visited in strictly increasing order, each once |
| `SortedStrings.LexExact` | features/audit/diff.rs:73-75 | a key comes first if and only if it is a prefix of the other or smaller at the first difference |
| `CategoryTree.ChainBound` | features/item/endpoint/item_category_tree.rs:57-68 | parent chains from a root are no longer than the table, so the recursion from the root ends even with parent cycles |
| `CategoryTree.ContainsExactlyRooted` | features/item/endpoint/item_category_tree.rs:57-68 | the tree holds a row if and only if its parent links lead to a root |
| `CategoryTree.EachOnce` | features/item/endpoint/item_category_tree.rs:57-68 | no row appears twice |
| `CategoryTree.KeepsOrder` | features/item/endpoint/item_category_tree.rs:57-68 | every node carries its row's data, and its children are the rows naming it as parent, in table order |
| `TtlStore.Kv.GetRaw` | infrastructure/kv/redb.rs:48-59 | the value while it is live, by each backend's own test at the moment of expiry |
| `TtlStore.Kv.TakeRaw` | infrastructure/kv/redb.rs:77-94 | returns the live value and removes it; redb removes a dead one too, PostgreSQL leaves it |
| `TtlStore.Kv.DeleteExpired` | infrastructure/kv/redb.rs:107-133 | the two loops remove exactly the entries expired before now, and count them |
| `TtlStore.SweepUnseen` | infrastructure/kv/pg.rs:85-92 | a sweep is never observed by any read at that moment or later |
| `TtlStore.SweepExact` | infrastructure/kv/redb.rs:107-133 | a sweep removes exactly what expired before it |
| `TtlStore.TakenOnce` | infrastructure/kv/pg.rs:61-74 | after a take the key reads as missing for good, and no other key is affected; an expired entry is dropped by redb and left by PostgreSQL |
| `TtlStore.ReadBack` | infrastructure/kv/redb.rs:61-75 | a written value is read until its time is up and no longer |
| `RefreshTokens.KeysNeverCollide` | libs/authn_kit/keys.rs:14-24 | within a realm, keys of different kinds, tokens or users are different strings |
| `RefreshTokens.KeyTexts` | libs/authn_kit/keys.rs:14-24 | the three keys as they are stored |
| `RefreshTokens.IssueTokens` | features/identity/shared/token_ops.rs:21-60 | is the request's sequence of cache operations, time and sweeps passing in between, stopping at the first that fails; when it returns ok the token's key holds the user, the user's key the token and the access key the identifier, each with its expiry (or swept after it), the token named before is gone, and no other entry has changed |
| `RefreshTokens.ConsumeRefreshToken` | features/identity/shared/token_ops.rs:64-75 | takes the token's key and returns its user, or none |
| `RefreshTokens.RevokeTokens` | features/identity/shared/token_ops.rs:79-89 | is the request's sequence of cache operations, stopping at the first that fails; when it returns ok the token that the user's key named, that key and the access key are gone, and no other entry has changed |
| `RefreshTokenTheorems.RunInv` | features/identity/shared/token_ops.rs:21-89 | every cache operation a step, requests overlapping and stopping anywhere except that the lookup-to-user-key windows of one user do not overlap and no request stops between its two keys: in every state a user's tokens stand as the phase of the request in its window says, and outside windows the working one is the one the user's key names |
| `RefreshTokenTheorems.AtMostOneToken` | features/identity/shared/token_ops.rs:21-60 | in such runs no user has two working refresh tokens in any state |
| `RefreshTokenBound.TokenBoundExact` | features/identity/shared/token_ops.rs:32-53 | a limit on the overlapping windows of one user, with or without a ban on stopping between the two keys, leaves every user at most one working token in every run if and only if tokens never live, or the limit is none, or it is one and the ban holds |
| `RefreshTokenBound.OverlapLeavesTwo` | features/identity/shared/token_ops.rs:32-47 | a concrete run: two issues for one user whose windows overlap leave two working tokens |
| `RefreshTokenBound.MidwayLeavesTwo` | features/identity/shared/token_ops.rs:36-47 | a concrete run with never more than one open request: an issue that fails between its token and the user's key, and the next issue, leave two working tokens |
| `RefreshTokenTheorems.SettlingSpends` | features/identity/shared/token_ops.rs:21-89 | a request that writes or deletes its user's key spends every other token of the user that no request has yet to write |
| `RefreshTokenTheorems.NeverAgain` | features/identity/shared/token_ops.rs:21-89 | a token that stood when an issue or a revocation wrote or deleted its user's key never succeeds at any later step |
| `RefreshTokenTheorems.UsedOnce` | features/identity/shared/token_ops.rs:64-75 | a token is used successfully at most once in every run, however requests overlap and stop |
| `RefreshTokenTheorems.SuccessIsOwners` | features/identity/shared/token_ops.rs:64-75 | a successful use returns the user the token was issued to, in every run |
| `RefreshTokenTimes.TokenWorksUntil` | features/identity/shared/token_ops.rs:36-41 | in every run, from the step that writes it a token works exactly until its time is up, as long as nobody uses it and no request that looked it up deletes it |
| `RefreshTokenTimes.AccessValidUntil` | features/identity/shared/token_ops.rs:48-53 | in every run an access identifier is valid exactly until its time is up, as long as no other request of its user gets to the access key |
| `RefreshTokenTimes.RevocationClears` | features/identity/shared/token_ops.rs:79-89 | in every run what a revocation deletes, the user's named token or access identifier, stays away until a request of the same user writes it again |
| `Costing.CostBook.RecalcWeightedAverage` | cross_domain/costing/lib.rs:17-90 | the new average from the stock before the receipt, rounding toward zero; the old current row becomes history and a new one is added; none and no change when the division is by zero |
| `Costing.TotalStock` | cross_domain/costing/lib.rs:34-40 | the item's stock summed over all warehouses |
| `Costing.RecostedOne` | cross_domain/costing/lib.rs:54-88 | at most one current row per item is kept, the new average is current, other items and past costs are untouched |
| `Costing.AverageBetween` | cross_domain/costing/lib.rs:45-52 | the new average lies between the old one and the price, and rounding loses less than one unit of cost per unit of stock |
| `Costing.PriceWithoutStock` | cross_domain/costing/lib.rs:46-52 | without positive stock before the receipt, negative stock included, or without a cost, the new average is the price |
| `Costing.AverageWithStock` | cross_domain/costing/lib.rs:46-50 | otherwise it is the cost of old stock and receipt over their quantity, for all signs |
| `Costing.QuotientTruncates` | cross_domain/costing/lib.rs:48-49 | division loses less than the divisor in size, toward zero |
| `Costing.PurchaseDrift` | cross_domain/costing/lib.rs:45-52 | per receipt the gap between cost in minus cost out and stock at average grows by less than the stock on hand, and not at all from zero stock, where the average is the price |
| `Costing.DriftBounded` | cross_domain/costing/lib.rs:42-52 | over every run of purchases, sales and moves from zero stock the gap is never negative and at most the sum of stock on hand less one per receipt |
| `Costing.GapGrows` | cross_domain/costing/lib.rs:42-52 | the gap never shrinks |
| `InventoryLedger.Ledger.ReceiveStock` | cross_domain/inventory_ledger/lib.rs:65-69 | raises the quantity and logs the receipt |
| `InventoryLedger.Ledger.ForceIssueStock` | cross_domain/inventory_ledger/lib.rs:74-78 | lowers the quantity and logs it, below zero if need be |
| `InventoryLedger.Ledger.IssueStock` | cross_domain/inventory_ledger/lib.rs:84-91 | refuses without any change exactly when the stock does not suffice; otherwise lowers it and logs |
| `InventoryLedger.Ledger.AdjustStock` | cross_domain/inventory_ledger/lib.rs:94-117 | sets the quantity and logs the difference; no row when there is none |
| `InventoryLedger.Ledger.TransferStock` | cross_domain/inventory_ledger/lib.rs:120-156 | issue then receive, or nothing at all |
| `InventoryLedger.Ledger.UpsertAndLog` | cross_domain/inventory_ledger/lib.rs:175-225 | new row at version 1 or the next version of the old one, and one log row |
| `InventoryLedger.LedgerReplays` | cross_domain/inventory_ledger/lib.rs:65-225 | after any run the log replayed from the opening stock gives every quantity and version, and each row starts from what the rows before it lead to |
| `InventoryLedger.ConsecutiveRows` | cross_domain/inventory_ledger/lib.rs:199-225 | consecutive log rows of a place chain: after equals the next before |
| `InventoryLedger.QuantityIsSum` | cross_domain/inventory_ledger/lib.rs:175-225 | a quantity is its opening value plus all that the log moved, and its version counts the moves |
| `InventoryLedger.TotalChanges` | cross_domain/inventory_ledger/lib.rs:65-156 | a transfer conserves every item's total, equal warehouses included; other operations change only their item's total, by their quantity |
| `InventoryLedger.IssueLeavesStock` | cross_domain/inventory_ledger/lib.rs:84-91 | a successful issue never leaves a negative quantity, even for a negative request |
| `InventoryLedger.NeverNegative` | cross_domain/inventory_ledger/lib.rs:71-91 | from non-negative stock, runs without forced issues and with non-negative inflows stay non-negative everywhere |
| `InventoryLedger.LogExplains` | cross_domain/inventory_ledger/lib.rs:65-225 | every log row of every run shows its own change: the logged quantity up to sign, with the sign fixed for transfers and counts |
| `InventoryLedger.OthersUntouched` | cross_domain/inventory_ledger/lib.rs:65-156 | an operation leaves every place but its own alone |
| `InventoryLedger.AppliedExactly` | cross_domain/inventory_ledger/lib.rs:84-156 | an issue or transfer goes through if and only if the stock it takes from suffices; the others always do |
| `InventoryLedger.LogsExactly` | cross_domain/inventory_ledger/lib.rs:175-225 | the log rows of each operation: place, type, quantity, before and after |
| `InventoryLedger.QuantityExactly` | cross_domain/inventory_ledger/lib.rs:65-156 | the quantity of every place after each operation |
| `Receivables.Finance.CreatePayment` | features/finance/endpoint/payment_create.rs:55-138 | the first failing check decides the error and nothing changes; otherwise the payment is recorded and the invoice's paid amount raised by it |
| `Receivables.AcceptedExactly` | features/finance/endpoint/payment_create.rs:60-74 | a payment is accepted if and only if it is positive, names a kind and an invoice of it, and does not exceed what is unpaid; payment in full is accepted |
| `Receivables.RefusedBy` | features/finance/endpoint/payment_create.rs:60-74 | otherwise the error is of the first thing wrong |
| `Receivables.PaidExactly` | features/finance/endpoint/payment_create.rs:84-134 | what a payment changes, by kind of invoice, and that it changes nothing else |
| `Receivables.PaymentLowersUnpaid` | features/finance_contract/port.rs:98-123 | a payment lowers the unpaid total of its kind by its amount |
| `Receivables.UnpaidAtFirst` | features/finance_contract/port.rs:105-113 | with nothing paid the unpaid total is the total |
| `Receivables.PaymentsReconcile` | features/finance/endpoint/payment_create.rs:60-134 | over every run of requests paid amounts stay between 0 and the total and equal opening plus recorded payments |
| `Receivables.TotalReconciles` | features/finance_contract/port.rs:98-179 | the unpaid total is the sum of the aging buckets, the undated invoices and the (non-positive) rest of settled dated ones |
| `Receivables.ReportsAgreeExactly` | features/finance_contract/port.rs:94-179 | unpaid total = aging buckets + undated invoices if and only if no dated invoice is overpaid, on any day |
| `Receivables.AgingCounts` | features/finance_contract/port.rs:125-151 | every unpaid dated invoice is counted in exactly one bucket |
| `Receivables.AgingExact` | features/finance_contract/port.rs:125-151 | the report has its labels in order and no empty bucket, each row counts and sums exactly the unpaid invoices of the ages its label names, and no unpaid dated invoice is missing |
| `Receivables.ReportsAgreeAfterPayments` | features/finance_contract/port.rs:98-179 | and so after every run of payments |

## Left out

- Rendering of SQL text and its parentheses: the model stops at an expression tree with its own evaluation.
- `filter_where`, which trims the parameter and maps a blank one to no condition, and the operator listings for clients.
- Collations and letter case beyond ASCII in `ILIKE`; a LIKE pattern ending in a lone backslash is a query error in PostgreSQL and matches nothing here; a failing date cast makes the whole expression an error here, while the database may skip the comparison.
- Machine-integer overflow of amounts, quantities, ids, attempts and times: integers are unbounded except where the filter checks 64-bit values and in the backoff shift.
- Error texts, `updated_at`, payloads, `lock_by` and other columns that no decision reads.
- What handlers do through their own connections: only their outcomes and how often they are called in committed cycles.
- Changing the registry between runs and manual repair of event rows, which break the index by design.
- Wake-up by notification, sleeping, shutdown, tracing and metrics.
- The NATS, Redis, blob, HTTP-client and flow adapters, authorization, approval states, pagination, and the user interface.
- Real isolation levels; in particular nothing is claimed about two concurrent first receipts into a warehouse, where the row lock has no row to lock.
- Calling the category builder for a parent that lies on a cycle, which does not end in the source; only the call from the root is modelled.
- Access tokens themselves, and keys of different realms.
- Batch numbers, references and locked quantities of inventory rows; cost types other than weighted average.
- Payment numbering, audit rows and payment dates.
- AuditExact.DiffRebuildsExactly: snapshots that differ both at the outermost empty key and at a dotted key of common objects are covered neither by it nor by `AuditEmptyKey.EmptyKeyExactly`; there the order of the misread writes decides, and `AuditEmptyKey` gives a snapshot pair for either outcome.
- AuditCreate.CreationFaithfulExactly: a null-valued key with a dot, or a null-valued empty key of the outermost object, is left out: whether its write does harm depends on the keys around it.
- JobQueue.Queue.DeleteFinishedOlderThan: no other statement runs between its batches; the runs of `JobQueueTheorems` and `JobQueueTimes` take each batch as a step of its own, with anything in between.
