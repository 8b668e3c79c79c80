# openstack: models and proofs

openstack answers the AWS APIs on a single machine. This project models the parts of it that carry
invariants over unbounded inputs or interleavings, one Dafny module for each component, and proves what
those parts are for. `dafny verify dfyconfig.toml` checks everything.

Where the source works step by step (locks, maps and buffers changed in place, cursor loops), the model has
classes and methods with loops, each proved against a specification function; the properties are then proved
about those functions. Where many tasks interleave, the model is a step system whose runs are sequences of
task numbers, and the properties hold in every reachable state.

| component | modules |
|---|---|
| DynamoDB item writers | `Store`, `ItemWriters`, `TwoPhase`, `Serializability`, `DynamoDbProvider` |
| DynamoDB key conditions | `KeyCondition`, `KeyConditionParser`, `KeyConditionMeaning` |
| DynamoDB streams | `Decimal`, `StreamCursor`, `StreamConsumer` |
| Lazy service start and stop | `ServiceContainer`, `ServiceStop` |
| Guided flows | `GuidedTemplates`, `GuidedManifest`, `GuidedRuntime`, `GuidedFlowProperties`, `Workspace` |
| Bounded logs | `InteractionHistory`, `TransactionLog` |
| CloudFormation | `CloudFormation` |
| CloudWatch | `MetricData`, `CloudWatchLogs` |
| Tenancy | `AccountRegion` |
| XML | `XmlEscape` |
| Shared | `Base`, `Text` |

The main results:

* **DynamoDB writes are serializable and never deadlock.** Any number of PutItem, DeleteItem, UpdateItem,
  BatchWriteItem and TransactWriteItems requests, interleaved lock by lock and access by access, leave the
  tables and get the answers of running their units one at a time, in the order in which each got its last
  lock; some request can always step, and every run is finite. What each request does to its table, its answer and
  its stream record is stated item by item.
* **A linted flow cannot get stuck for an input.** The lint, the collector of required inputs and the
  interpolator scan `{{…}}` on their own; they are proved to read the same template, so that a clean lint and
  supplied inputs leave only unbound context and capture names as a cause of failure.
* **A service starts once.** `start()` is never entered twice at a time nor after a success, whatever the
  interleaving, and a failed or stopped service refuses every further call. With concurrent stops, each step leaves mirror and state agreeing at every later quiet moment
  exactly if it is not a start's last store over a state that a stop has overwritten meanwhile.
* **A stream consumer gets every record once.** If iterators can carry its ARN, it is never refused, receives records
  in order, misses none exactly if every read comes while at most a thousand records are unread, and with enough
  reads receives everything. The records are those of the table's writes, with the item before and after.
* **Order does not matter** for `Fn::Sub` (every hash-map order gives the one simultaneous substitution) and for
  the rebuilding of metric data (every order of the parameters gives the flattened data back).
* **Texts are read back**: shard iterators, joined key conditions, escaped XML, combined tenant keys, replayed
  requests.

Several properties hold only under a condition. Then the theorem is an equivalence with that condition, and it
covers the failing inputs as well: `IteratorRoundTrip`, `FetchIff`, `ExactlyOnceInOrder`, `LatestRepeatsNewest`,
`IsolationIff`, `StepIsSafeIff`, `OrderIndependentIff`, `UpdateKeepsOrderIff`, `ReadsOnlyWhatIsCollected`, `SubAgreesWithRef`, `NextIdIsNew`, `AverageIsMean`,
`LastIsLatestIff`, `WriteThenGet`, `RefusedIff`.

## Where the source and its documentation disagree

The model follows the code.

* The comment on `parse_key_condition` (crates/services/dynamodb/src/provider.rs:288-289) gives a BETWEEN clause as
  the form it reads. The splitter has cut that clause at its own AND by then, so that no ASCII text parses to a
  BETWEEN condition (`NeverBetween`), and the documented form loses its range condition (`BetweenIsLost`).
* CreateTable accepts any table name (crates/services/dynamodb/src/provider.rs:643-654), and a name can hold the `::`
  that separates the parts of a shard iterator. An iterator for the stream of a table named `t/stream/L::x`, with L the
  label of the stream of table `t`, is answered with the records of `t` (`ReadsAnotherStream`).
* A LATEST shard iterator carries the number of the newest record, and GetRecords includes it: the first page
  repeats that record (`LatestRepeatsNewest`).
* Writers accept a boolean as a key attribute, readers form no key from one, so such an item is stored under
  its writer's key and never found again (`WriteThenGet`).
* `ensure_running` treats its atomic mirror as a trustworthy copy of the state
  (crates/service-framework/src/container.rs:71-80); a complete `stop` between the two writes ending a start
  leaves a stopped service that the mirror calls running (`StoppedButRunning`).
* `Fn::Sub` looks again at text that it has inserted, so that with values that spell placeholders the result depends
  on the iteration order of a hash map (`RescanDependsOnOrder`).
* `scoping.rs` says that a NUL byte never appears in account ids, and nothing checks it; with one, two tenants share
  their state (`KeyIsShared`, `IsolationIff`).
* `collect_from_text` skips a bare `{{inputs.}}` although the interpolator looks its empty name up
  (`ReadsOnlyWhatIsCollected`).

## Model

| member | source | states |
|---|---|---|
| Serializability.Serializable | crates/services/dynamodb/src/provider.rs:864-1734 | for any requests of any tenants and any finished interleaving of their locks and accesses, the tables and every caller's answers are those of running the logged units one at a time; each request ran all of its units or stopped at the one that failed; no lock is left held |
| Serializability.LogOnlyGrows | crates/services/dynamodb/src/provider.rs:1595-1602 | the serial order is that of the last locks: nothing is ever inserted before a logged unit, so a request answered before another one locks comes first |
| Serializability.DeadlockFree | crates/services/dynamodb/src/provider.rs:1578-1602 | in every reachable state with an unfinished request some request can step |
| Serializability.RunsAreBounded | crates/services/dynamodb/src/provider.rs:1595-1719 | no run is longer than the locks and accesses its requests still have to make, so progress means completion |
| TwoPhase.RunIsLocal | crates/services/dynamodb/src/provider.rs:1604-1719 | a unit reads and changes nothing but tables whose locks it holds: on databases that agree there it gives the same answer and the same changes, and the rest stays as it was |
| ItemWriters.UnitsWellFormed | crates/services/dynamodb/src/provider.rs:1578-1602 | for every request the keys locked are strictly ascending, hence without duplicates, and cover every table that is checked or written |
| ItemWriters.TableNamesSorted | crates/services/dynamodb/src/provider.rs:1578-1592 | the names collected from a transaction are exactly those its parts mention, each once, in ascending order |
| ItemWriters.AllOrNothing | crates/services/dynamodb/src/provider.rs:1606-1719 | a transaction is cancelled and changes nothing exactly when some part's table is missing or its condition is false before the first write; otherwise the result is the left fold of the writes in request order |
| ItemWriters.BatchKeepsPrefix | crates/services/dynamodb/src/provider.rs:1455-1506 | a batch fails exactly when it names a missing table, and keeps all it wrote to the tables before that one |
| DynamoDbProvider.Provider.GetTableLock | crates/services/dynamodb/src/provider.rs:62-70 | a key's first caller makes its mutex, every later one gets the same, and different keys never share one |
| DynamoDbProvider.Provider.GetTableLocks | crates/services/dynamodb/src/provider.rs:1595-1602 | the mutexes of a transaction's tables, in the order of the names, none twice |
| DynamoDbProvider.Provider.Put | crates/services/dynamodb/src/provider.rs:864-912 | the tables and the answer are those of the PutItem unit that the serializability theorem is about |
| DynamoDbProvider.Provider.Delete | crates/services/dynamodb/src/provider.rs:977-1024 | the same for DeleteItem |
| DynamoDbProvider.Provider.Update | crates/services/dynamodb/src/provider.rs:1034-1103 | the same for UpdateItem, the missing-key error after the condition included |
| DynamoDbProvider.Provider.BatchWrite | crates/services/dynamodb/src/provider.rs:1455-1506 | every table before the first missing one gets all its puts and deletes in order, the others none |
| DynamoDbProvider.Provider.TransactWrite | crates/services/dynamodb/src/provider.rs:1604-1719 | the three passes over the items leave all writes done in order, or an error and unchanged tables |
| Store.WritersKeepConsistency | crates/services/dynamodb/src/store.rs:516-618 | every writer keeps items under their own key, the item count, and a gap-free numbering of the last thousand stream records |
| Store.WriteThenGet | crates/services/dynamodb/src/store.rs:541-618 | a written item sits under its writer's key, and through any key that spells the same is read back exactly when that key holds no boolean; a deleted one is gone, and no other item changes |
| Store.KeyIsSpelled | crates/services/dynamodb/src/store.rs:541-568 | an item's key is what its hash attribute and, where the table has one, its range attribute spell, a boolean as true or false; a reader's key is the same but for booleans |
| Store.PutEffect | crates/services/dynamodb/src/store.rs:570-596 | a put replaces exactly what stood under the item's key and returns it; an enabled stream gets one record, MODIFY or INSERT, with the replaced item and the new one |
| Store.DeleteEffect | crates/services/dynamodb/src/store.rs:603-618 | a delete removes exactly what stood under the key and returns it; only then does an enabled stream get a record, REMOVE with that item |
| Store.UpdateEffect | crates/services/dynamodb/src/provider.rs:1083-1103 | an update edits the stored item, or the key itself if there is none, and puts the result under the key that it has then; it returns what stood there, and the stream gets both images |
| ItemWriters.PutRequestEffect | crates/services/dynamodb/src/provider.rs:864-912 | PutItem is refused for a missing table or a false condition and then changes nothing; otherwise only its table changes, the item replacing what stood under its key, and that is the answer |
| ItemWriters.DeleteRequestEffect | crates/services/dynamodb/src/provider.rs:977-1024 | the same of DeleteItem, which removes exactly what stood under the key |
| ItemWriters.UpdateRequestEffect | crates/services/dynamodb/src/provider.rs:1034-1103 | the same of UpdateItem, also refused for a key it cannot form, which applies the edit to the stored item, or to the key if there is none |
| ItemWriters.LastWriteDecides | crates/services/dynamodb/src/provider.rs:1666-1719 | a transaction that goes through leaves under each key what its last write to that key put there, an update editing what the writes before it left; what none of its writes concerns stays |
| ItemWriters.LastEntryDecides | crates/services/dynamodb/src/provider.rs:1488-1500 | after the puts and deletes of a batch to one table, each key holds what the last entry with that key says |
| StreamCursor.IteratorRoundTrip | crates/services/dynamodb/src/provider.rs:610-622 | parsing an encoded shard iterator gives ARN and number back, for every 64-bit number, exactly when the ARN holds no `::` and does not end in a colon |
| StreamCursor.ParseOfMade | crates/services/dynamodb/src/provider.rs:610-622 | for any other ARN the parsed iterator names the text before the first `::`, itself such an ARN, and the number is lost if the ARN holds a `::` |
| StreamCursor.PageIsStretch | crates/services/dynamodb/src/provider.rs:1893-1940 | a page is the stretch of all records ever appended that starts at the cursor, or at the oldest retained record if that is later, and the next cursor follows its last record |
| StreamCursor.FirstPage | crates/services/dynamodb/src/provider.rs:1833-1845 | the first page for every iterator type and every requested number: from the oldest record for TRIM_HORIZON and for a number that is missing or cannot be read, from record n for AT_SEQUENCE_NUMBER, from its successor for AFTER_SEQUENCE_NUMBER, and always from the oldest retained record if that is later |
| StreamCursor.RequestedRecord | crates/services/dynamodb/src/provider.rs:1836-1842 | the padded number of a record is read as what it is |
| StreamConsumer.FetchIff | crates/services/dynamodb/src/provider.rs:1863-1940 | among any streams, an iterator made for one is answered with that stream's page of its number and that stream's next iterator exactly if its ARN holds no `::` and does not end in a colon |
| StreamConsumer.FetchOfMade | crates/services/dynamodb/src/provider.rs:1863-1940 | any iterator made for a stream is answered from the stream it names when parsed, and with an error exactly if there is none |
| StreamConsumer.ReadsAnotherStream | crates/services/dynamodb/src/provider.rs:1880-1891 | a stream whose ARN goes on behind another's with `::` is answered from the other stream, from the beginning, and then with its iterators |
| StreamConsumer.ExactlyOnceInOrder | crates/services/dynamodb/src/provider.rs:1851-1940 | among any streams, following NextShardIterator as text for an ARN with no `::` and no trailing colon, with any appends in between, is never refused and delivers records at most once and in order; and every record from the start to the cursor is delivered exactly if every read with a limit of at least one comes while at most a thousand records are unread |
| StreamConsumer.ReadsCatchUp | crates/services/dynamodb/src/provider.rs:1893-1940 | reads without writes in between move the cursor by the sum of their limits, up to the end, and deliver all records on the way |
| StreamConsumer.EveryRecordArrives | crates/services/dynamodb/src/provider.rs:1893-1940 | a consumer that has kept up and is in time receives everything from its start on with enough further reads |
| StreamConsumer.RefusedIfNoneIsNamed | crates/services/dynamodb/src/provider.rs:1880-1891 | a consumer whose iterator names no stream is refused by every read and gets nothing |
| StreamConsumer.FollowsTheNamedStream | crates/services/dynamodb/src/provider.rs:1851-1940 | otherwise it gets, through any run, exactly what a consumer of the stream so named gets |
| StreamConsumer.StepLoses | crates/services/dynamodb/src/store.rs:534-538 | a read skips records exactly if it asks for some when more than a thousand are unread |
| StreamConsumer.WritesAreDelivered | crates/services/dynamodb/src/store.rs:516-618 | whoever asks for what comes behind the records so far gets, after a put, exactly one record, with the replaced item, if any, the new one and the matching event; after a delete, one with the removed item; and nothing new if nothing was removed |
| StreamConsumer.UpdateIsDelivered | crates/services/dynamodb/src/provider.rs:1094-1103 | the same of an update that leaves the item its key: the item before it and after it |
| StreamConsumer.WriteIsAnEvent | crates/services/dynamodb/src/store.rs:516-618 | each such write is an event of the consumer's run, so the results on runs apply to it |
| StreamCursor.LatestRepeatsNewest | crates/services/dynamodb/src/provider.rs:1835-1835 | the first page of a LATEST iterator is the newest record exactly if there is one and the limit is at least one, and empty otherwise |
| Decimal.ReadPadded | crates/services/dynamodb/src/provider.rs:611-617 | a number printed with twenty digits, trimmed of zeros and parsed, is itself, except that zero leaves nothing to parse |
| Decimal.ParseIs | crates/services/cloudwatch/src/provider.rs:118-120 | a text is read as a number exactly if it is one digit or more, perhaps behind a plus sign, in range |
| KeyCondition.SplitTopLevelAnd | crates/services/dynamodb/src/provider.rs:373-401 | the depth-tracking loop computes the recursive splitting |
| KeyCondition.SplitIsExact | crates/services/dynamodb/src/provider.rs:373-401 | weaving the removed separators between the parts restores the expression, each separator was an AND at depth zero, and no part still holds one |
| KeyConditionParser.ParseKeyCondition | crates/services/dynamodb/src/provider.rs:282-371 | the loop over parts and operators computes the fold that the theorems below are about |
| KeyConditionParser.FindKeywordPos | crates/services/dynamodb/src/provider.rs:403-418 | the loop finds the first occurrence of the keyword at depth zero |
| KeyConditionMeaning.ParseIsMeaning | crates/services/dynamodb/src/provider.rs:282-440 | any number of comparisons, `begins_with` calls and half BETWEEN clauses over well-formed words, with any spacing and any letter case, parse to exactly what each says, later ones overwriting earlier ones |
| KeyConditionMeaning.HashAndRange | crates/services/dynamodb/src/provider.rs:336-368 | `h = a AND r op b` parses to the text of a's value, if that is a string, number or binary, and to the condition op on b's value, for each of the five operators, and to no condition for `<>`; names and values are looked up in the maps of the request, a name not in its map standing for itself and a value not in its map being Null |
| KeyConditionMeaning.HashAndPrefix | crates/services/dynamodb/src/provider.rs:298-315 | `h = a AND begins_with(r, b)` parses to that text and the prefix b stands for, the empty prefix if that is not a string, with the same lookups |
| KeyConditionMeaning.BetweenIsLost | crates/services/dynamodb/src/provider.rs:288-335 | `h = a AND r BETWEEN x AND y` parses to that text and no range condition, with the same lookups |
| KeyConditionMeaning.LaterCounts | crates/services/dynamodb/src/provider.rs:336-368 | of two conditions on hash attributes, and of two on the range key, the later counts; a hash attribute is only compared by `=` |
| KeyConditionMeaning.AndInAnyCase | crates/services/dynamodb/src/provider.rs:386-396 | the separator is AND in any letter case between two blanks, and nothing else |
| KeyConditionMeaning.NeverBetween | crates/services/dynamodb/src/provider.rs:316-335 | no ASCII text parses to a BETWEEN condition |
| ServiceContainer.StartProtocol | crates/service-framework/src/container.rs:70-151 | for any number of calls and any interleaving, starts never overlap, none follows a success, the mirror says Running only when the state is, and Ok is returned only after a successful start |
| ServiceContainer.RunningIsFinal | crates/service-framework/src/container.rs:70-151 | once the state is Running it stays so |
| ServiceContainer.StartedExactlyOnce | crates/service-framework/src/container.rs:70-151 | when all calls have returned, the attempts metric counts the calls of `start()`, and if no start failed there was exactly one and every call got Ok |
| ServiceContainer.ErrorIsFinal | crates/service-framework/src/container.rs:84-94 | once the state is Error and no call has gone past its check, `start()` is never called again and every further call answers `Service in error state: ` and the message |
| ServiceContainer.OwnStartAnswered | crates/service-framework/src/container.rs:119-150 | the call that starts the service answers Ok if its own `start()` succeeded, and otherwise that failure's message as it is, whatever the others do meanwhile |
| ServiceContainer.EveryAttemptWaited | crates/service-framework/src/container.rs:96-116 | the attempts metric never exceeds the waits metric, nor that the number of calls |
| ServiceContainer.SomeoneCanStep | crates/service-framework/src/container.rs:70-151 | while a call has not returned, some call can step |
| ServiceContainer.RunsAreBounded | crates/service-framework/src/container.rs:70-151 | every run is finite, so every call returns |
| ServiceStop.StartsNeverOverlap | crates/service-framework/src/container.rs:70-168 | with any number of calls and stops, calls of `start()` never overlap, and one is under way exactly while the owner of the init lock awaits it |
| ServiceStop.MirrorSurvivesStops | crates/service-framework/src/container.rs:70-168 | with any number of calls and stops, each lock, write and store a step of its own, mirror and state agree at every quiet moment of a run in which no start stores its mirror over a state that a stop has overwritten, unless a stop that will store after it holds the lock |
| ServiceStop.StepIsSafeIff | crates/service-framework/src/container.rs:70-168 | a step of such a run leaves mirror and state agreeing at every later quiet moment exactly if it is not that store |
| ServiceStop.StoppedButRunning | crates/service-framework/src/container.rs:119-168 | one caller and one complete stop reach a stopped service whose mirror says Running, both having returned |
| ServiceStop.StopAlone | crates/service-framework/src/container.rs:153-168 | a stop left alone ends with state and mirror at Stopped, or both at Stopping if the provider's stop fails, and touches nothing else |
| ServiceStop.StopIsFinal | crates/service-framework/src/container.rs:71-94 | once a service is stopped, no other stop is under way and no call has gone past its check, it is never started again and every further call answers that it has been stopped |
| GuidedTemplates.ScanReads | crates/studio-ui/src/guided_runtime.rs:423-453 | reading a text as literals and expressions loses nothing, and each piece ends at the first mark that can end it |
| GuidedTemplates.ScanOfUnparse | crates/studio-ui/src/guided_runtime.rs:423-453 | such a reading is unique: every canonical template is the reading of its own text |
| GuidedTemplates.AcceptedExpressions | crates/studio-ui/src/guided_manifest.rs:498-538 | the validator accepts exactly the built-ins and a source followed by a dotted path of identifiers |
| GuidedTemplates.CheckInterpolationValue | crates/studio-ui/src/guided_manifest.rs:472-496 | the lint's cursor loop reports the complaints of the one reading, in order |
| GuidedTemplates.ComplaintsAreExact | crates/studio-ui/src/guided_manifest.rs:472-496 | the complaints of a text are exactly those of its rejected expressions and of an expression left open |
| GuidedTemplates.RejectedExpressions | crates/studio-ui/src/guided_manifest.rs:498-522 | which complaint a rejected expression draws: empty, unsafe characters, a bad path behind a known source, or an unknown source |
| Text.TrimIs | crates/studio-ui/src/guided_runtime.rs:443-443 | expressions are read without the white space at both ends, and nothing else is taken away |
| GuidedTemplates.CollectFromText | crates/studio-ui/src/workspace.rs:186-202 | the collector's cursor loop adds the non-empty input names of the one reading |
| GuidedTemplates.InterpolateValue | crates/studio-ui/src/guided_runtime.rs:423-453 | the interpolator's cursor loop renders the one reading |
| GuidedTemplates.CleanTemplate | crates/studio-ui/src/guided_runtime.rs:423-503 | a text without complaints whose required inputs are bound renders exactly when its context and capture names are bound, and otherwise fails on such a name |
| GuidedTemplates.ReadsOnlyWhatIsCollected | crates/studio-ui/src/workspace.rs:186-202 | rendering depends on the inputs only through the collected names exactly when it does not get to a bare `inputs.`, which the lint rejects |
| GuidedTemplates.SinglePass | crates/studio-ui/src/guided_runtime.rs:423-503 | a rendered text is the literals of the template interleaved with what its expressions stand for: the binding of the name in the map that the prefix names, inserted as it is, or the next generated text; an error is that of the first expression that is unbound or unknown, or of one left open |
| GuidedManifest.LintManifest | crates/studio-ui/src/guided_manifest.rs:380-470 | the nested loops report exactly the issues of every flow, step, cleanup step and field |
| GuidedManifest.RequiredInputs | crates/studio-ui/src/workspace.rs:167-184 | the loop collects the input names of all steps and cleanup steps |
| GuidedManifest.InterpolateOperation | crates/studio-ui/src/guided_runtime.rs:378-403 | headers, query, path and body are rendered, and the first error among them is the answer |
| GuidedManifest.ResolvedFields | crates/studio-ui/src/guided_runtime.rs:378-403 | a resolved operation has the same method, the same header and query names in the same order, and in every place the rendered text of that place |
| GuidedManifest.LintCoversSteps | crates/studio-ui/src/guided_manifest.rs:380-470 | a manifest without issues has no complaint in any text of any step |
| GuidedManifest.LintReportsExactly | crates/studio-ui/src/guided_manifest.rs:380-470 | an issue is reported if and only if it is there: a flow without any assertion, an L1 flow without cleanup, or a complaint of a text of a step, at its place |
| GuidedManifest.RequiredExactly | crates/studio-ui/src/workspace.rs:167-202 | the required inputs are exactly the non-empty names that some text of some step or cleanup step reads |
| GuidedManifest.LintSoundness | crates/studio-ui/src/guided_manifest.rs:380-522 | with a clean lint and the required inputs bound, resolving a step or cleanup step succeeds exactly when its context and capture names are bound, and otherwise fails on such a name |
| GuidedRuntime.RunGuidedFlow | crates/studio-ui/src/guided_runtime.rs:131-279 | the loops over steps and cleanup leave exactly the report, calls, history and captures of the specification of a run |
| GuidedRuntime.RunAttempts | crates/studio-ui/src/guided_runtime.rs:160-231 | the retry loop leaves exactly the attempts, last response, error, captures and calls of its specification |
| GuidedRuntime.RunCleanup | crates/studio-ui/src/guided_runtime.rs:302-337 | cleanup tries every step with the captures as they are |
| GuidedRuntime.BindingContext.Apply | crates/studio-ui/src/guided_runtime.rs:405-417 | the extracted values are bound in the order of the capture list, the names not found keep their value |
| GuidedFlowProperties.RetryDiscipline | crates/studio-ui/src/guided_runtime.rs:160-231 | one operation is sent at most the allowed number of times, every attempt but the last drew a retryable answer in time, and the step succeeds exactly when the last answer is below 400, in time, adapted and meets every assertion |
| GuidedFlowProperties.StepReport | crates/studio-ui/src/guided_runtime.rs:160-261 | a step reports the status and the error of its last answer: a failed call, a late answer, an HTTP error with its code, message and whether it may be retried, a failed adapter, or the first assertion that does not hold; captures change only when the adapter succeeded |
| GuidedFlowProperties.BindMeans | crates/studio-ui/src/guided_runtime.rs:405-417 | a name that the step captures and the adapter found is bound to what was found, and every other name keeps its value |
| GuidedFlowProperties.SourcesMean | crates/studio-ui/src/guided_runtime.rs:201-205 | of two captures of one name the adapter is given the source of the later |
| GuidedFlowProperties.CaptureReachesNextStep | crates/studio-ui/src/guided_runtime.rs:207-215 | what an accepted step extracts is what the next step's `captures.` expression of that name stands for |
| GuidedFlowProperties.CleanupReport | crates/studio-ui/src/guided_runtime.rs:302-337 | a cleanup step is reported as successful exactly if it could be resolved and was answered below 400 |
| GuidedFlowProperties.FlowReport | crates/studio-ui/src/guided_runtime.rs:131-337 | outcomes follow a prefix of the steps with only the last possibly failed, the flow succeeded exactly if every step did, every cleanup step is reported in order, and the executor was called once an attempt and once for each cleanup step that resolves |
| GuidedFlowProperties.LintedRunNeverStuck | crates/studio-ui/src/guided_runtime.rs:131-279 | in a run of a linted flow with its inputs supplied, no step fails to resolve but for an unbound context or capture name |
| GuidedFlowProperties.RunIsRecorded | crates/studio-ui/src/guided_runtime.rs:233-247 | a run extends the history by one exchange under a new id for each step that drew a response, in order |
| Workspace.ServiceWorkspace.ExecuteGuided | crates/studio-ui/src/workspace.rs:65-125 | refused, with nothing called and nothing recorded, unless the service matches, the flow exists and every required input is present and not empty; otherwise the run's report is kept, and of a linted manifest it is never stuck for an input |
| Workspace.ChosenIsFirst | crates/studio-ui/src/workspace.rs:80-91 | the selected flow is the first of that id, and without a selection the first of all |
| Workspace.ServiceWorkspace.ExecuteRaw | crates/studio-ui/src/workspace.rs:142-164 | an answered request is recorded under a new id, under which replay gives it back; a failed one leaves no trace |
| Workspace.ServiceWorkspace.ReplayIntoRaw | crates/studio-ui/src/workspace.rs:127-136 | the console takes the recorded request over and forgets the last response, or stays as it is |
| Workspace.ReplayAfterAnyWork | crates/studio-ui/src/workspace.rs:65-164 | after any guided runs and raw requests, replaying id k gives exactly the k-th answered request while it is among the newest |
| InteractionHistory.History.NextId | crates/studio-ui/src/history.rs:28-35 | the loop finds one above the greatest id present, saturating |
| InteractionHistory.History.Push | crates/studio-ui/src/history.rs:37-42 | the newest entries within capacity are kept |
| InteractionHistory.KeepsTheNewest | crates/studio-ui/src/history.rs:28-42 | after any pushes under `next_id`, the kept entries are the newest ones and the k-th exchange carries id k |
| InteractionHistory.ReplayIsExact | crates/studio-ui/src/history.rs:28-53 | replaying id k gives the k-th request while it is among the newest and nothing after that, so no id is given twice |
| InteractionHistory.NextIdIsNew | crates/studio-ui/src/history.rs:28-35 | the next id is new exactly while the 64-bit counter has not reached its end |
| TransactionLog.Log.Push | crates/studio-ui/src/transaction_log.rs:171-182 | the record goes to the front under the next id, the oldest are evicted, and the invariant survives exactly when the counter does not wrap |
| TransactionLog.Log.Update | crates/studio-ui/src/transaction_log.rs:194-205 | exactly the first record with the id is edited, and found exactly if there is one |
| TransactionLog.Log.ClearService | crates/studio-ui/src/transaction_log.rs:239-243 | exactly the records of other services are kept, in order, and the removed ones counted |
| TransactionLog.Log.Summarize | crates/studio-ui/src/transaction_log.rs:246-279 | each outcome is counted exactly, the counts sum to the total, and the average divides the 64-bit sum of the durations by their number |
| TransactionLog.CompletionMovesOne | crates/studio-ui/src/transaction_log.rs:34-137 | completing a logged record moves exactly it from its outcome to that of the status, by the ranges of HTTP statuses, and its duration takes the place of the one it had in the sum |
| TransactionLog.AverageIsMean | crates/studio-ui/src/transaction_log.rs:260-277 | the reported average is the rounded mean, between the least and greatest duration, exactly when the sum stays below 2^64 |
| TransactionLog.IdsNeverReused | crates/studio-ui/src/transaction_log.rs:171-243 | over any run of fewer than 2^64 pushes, clears and updates that leave ids alone, the length stays within capacity, ids strictly descend below the counter, and every record is an old one or has a new id |
| TransactionLog.UpdateKeepsOrderIff | crates/studio-ui/src/transaction_log.rs:194-205 | an update that rewrites an id keeps the ids descending below the counter exactly if the new id fits between the neighbours' |
| TransactionLog.RecordSurvives | crates/studio-ui/src/transaction_log.rs:171-243 | a record that no clear concerns is still there after capacity less one further pushes, if updates leave ids and services alone |
| CloudFormation.Sub | crates/services/cloudformation/src/provider.rs:144-155 | the loops over parameters and resources are the replacements one after the other in the maps' order |
| CloudFormation.ReplaceIsSubstitution | crates/services/cloudformation/src/provider.rs:146-154 | one textual replacement in a template replaces exactly the variables of that name |
| CloudFormation.SubIsSimultaneous | crates/services/cloudformation/src/provider.rs:144-155 | whatever the order of the maps, the result is one simultaneous substitution, parameters over resources over the two pseudo parameters, if no value can form a placeholder still to be replaced |
| CloudFormation.DollarFreeValues | crates/services/cloudformation/src/provider.rs:144-155 | values without `$` always meet that condition |
| CloudFormation.RescanDependsOnOrder | crates/services/cloudformation/src/provider.rs:146-151 | with a value that spells a placeholder, two orders of one map give different results |
| CloudFormation.RescanCanBeHarmless | crates/services/cloudformation/src/provider.rs:146-151 | the condition is not necessary: with a value that spells a placeholder still to be replaced, both orders give the simultaneous substitution |
| CloudFormation.SubAgreesWithRef | crates/services/cloudformation/src/provider.rs:88-155 | `Fn::Sub` of one placeholder and `Ref` of its name agree exactly when the name is bound |
| CloudFormation.RefGives | crates/services/cloudformation/src/provider.rs:89-103 | `Ref` gives the value of a parameter, the id of a resource or a pseudo parameter, in that order, nothing for `AWS::NoValue`, and any other name itself, whatever else the object holds |
| CloudFormation.GetAttGives | crates/services/cloudformation/src/provider.rs:105-124 | `Fn::GetAtt` gives the ARN of a resource, or its physical id for any other attribute, and stays for an unknown resource |
| CloudFormation.JoinGives | crates/services/cloudformation/src/provider.rs:126-142 | `Fn::Join` gives the texts its items resolve to, the separator between any two, an item that is no text counting as empty |
| CloudFormation.SelectGives | crates/services/cloudformation/src/provider.rs:157-166 | `Fn::Select` gives the resolved item of that index, the first for what is no index |
| CloudFormation.IfGives | crates/services/cloudformation/src/provider.rs:168-172 | `Fn::If` gives its resolved first branch |
| CloudFormation.SplitGives | crates/services/cloudformation/src/provider.rs:174-180 | `Fn::Split` gives parts that join to the text with the separator and do not contain it; the characters, between two empty texts, for the empty separator |
| CloudFormation.OthersGive | crates/services/cloudformation/src/provider.rs:182-199 | a list is resolved item by item, and an object without intrinsic functions field by field |
| CloudFormation.PlainIsUnchanged | crates/services/cloudformation/src/provider.rs:79-200 | a template without intrinsic functions resolves to itself |
| MetricData.Collect | crates/services/cloudwatch/src/provider.rs:112-152 | the loop over the parameters answers the list, in index order, of the fold of their effects in the map's order |
| MetricData.OrderIndependent | crates/services/cloudwatch/src/provider.rs:112-151 | any two orders of parameters no two of which clash rebuild the same members |
| MetricData.ClashShows | crates/services/cloudwatch/src/provider.rs:112-151 | two that clash rebuild different members in their two orders |
| MetricData.OrderIndependentIff | crates/services/cloudwatch/src/provider.rs:112-151 | every order of the parameters rebuilds the same members exactly if no two give one place different values, but for dimensions that a scalar called Dimensions hides |
| MetricData.Reassembly | crates/services/cloudwatch/src/provider.rs:112-152 | the flattened parameters of a list of data, visited in any order, come back as the list of the data in their order, each with its fields and its dimensions in order |
| MetricData.EachComesBack | crates/services/cloudwatch/src/provider.rs:112-152 | data none of which is bare come back as a list of as many members, member i holding exactly the coerced fields and the dimensions of datum i |
| MetricData.PassedOver | crates/services/cloudwatch/src/provider.rs:114-124 | a parameter that is not metric data, has no field, or whose index is no number changes nothing |
| MetricData.OnlyTouches | crates/services/cloudwatch/src/provider.rs:124-133 | a dimension without a name, or whose number is none, only makes sure that its member is there |
| CloudWatchLogs.Provider.CreateLogGroup | crates/services/cloudwatch/src/provider.rs:800-834 | the state and answer of the request's specification |
| CloudWatchLogs.Provider.DeleteLogGroup | crates/services/cloudwatch/src/provider.rs:838-861 | the same: the group goes with all its streams and events, or the answer is an error |
| CloudWatchLogs.Provider.CreateLogStream | crates/services/cloudwatch/src/provider.rs:898-947 | the same: an empty stream in an existing group, or an error |
| CloudWatchLogs.Provider.PutLogEvents | crates/services/cloudwatch/src/provider.rs:992-1056 | the same: events appended in order, token and timestamps updated, or an error |
| CloudWatchLogs.StreamIsItsHistory | crates/services/cloudwatch/src/provider.rs:800-1056 | after any requests, a stream exists exactly if it was created in a group not deleted since, and its events, token and both timestamps are those of the batches accepted since then |
| CloudWatchLogs.RunsKeepIntegrity | crates/services/cloudwatch/src/provider.rs:800-1056 | every event list has its stream, every stream its group and matches its key, and the first timestamp is the first stored event's |
| CloudWatchLogs.RecreatedStartsEmpty | crates/services/cloudwatch/src/provider.rs:838-947 | a deleted and recreated group and stream hold nothing of before, whatever other groups see meanwhile |
| CloudWatchLogs.LastIsLatestIff | crates/services/cloudwatch/src/provider.rs:1040-1052 | the last timestamp is that of the last stored event exactly when the latest batch brought one, or none ever did |
| CloudWatchLogs.RefusedIff | crates/services/cloudwatch/src/provider.rs:800-1022 | each error exactly when a name is missing, the thing exists already, or its group or stream does not; a refused request changes nothing |
| CloudWatchLogs.BatchAdds | crates/services/cloudwatch/src/provider.rs:1023-1046 | an accepted batch adds one event for each entry, in order, with the time given or else the present, the message given or else none, and the present as ingestion time; no other stream changes |
| CloudWatchLogs.GroupIsItsHistory | crates/services/cloudwatch/src/provider.rs:800-861 | after any requests a group exists exactly if created and not deleted since, with the retention, cut to 32 bits, and the time of that creation |
| AccountRegion.AccessorsInvert | crates/state/src/scoping.rs:17-38 | the accessors give account and region back exactly when the account id holds no NUL byte |
| AccountRegion.KeyIsInjective | crates/state/src/scoping.rs:17-23 | without NUL bytes in the account ids different pairs have different keys |
| AccountRegion.KeyIsShared | crates/state/src/scoping.rs:17-23 | an account id with one shares its key with another pair whose account id has none |
| AccountRegion.LookupKey | crates/state/src/bundle.rs:45-69 | the bytes copied into the 64-byte buffer and the key built on the heap are the same combined key |
| AccountRegion.Bundle.GetOrCreate | crates/state/src/bundle.rs:22-32 | the state found or made and the map after the caller's write |
| AccountRegion.Bundle.GetMut | crates/state/src/bundle.rs:75-104 | the state found, if any, and the map after the caller's write |
| AccountRegion.RunAgrees | crates/state/src/bundle.rs:22-117 | every run over account ids without NUL bytes gives the answers, and leaves the states, of a map keyed by the pair |
| AccountRegion.FindsItsOwn | crates/state/src/bundle.rs:22-117 | in any run over account ids without NUL bytes, each operation finds what the earlier operations of the same tenant made of its state, and a creation the initial state where there is none |
| AccountRegion.WriteThenFind | crates/state/src/bundle.rs:22-117 | what is written through either guard is found, a lookup changes nothing, and clearing leaves nothing |
| AccountRegion.IsolationIff | crates/state/src/bundle.rs:22-69 | a tenant's state stays hidden from every other well-formed tenant exactly when its account id holds no NUL byte |
| XmlEscape.XmlEscape | crates/service-framework/src/xml.rs:7-28 | the loop computes the one-pass escape, and the text is handed back borrowed exactly when nothing needs escaping, which then equals the slow path |
| XmlEscape.SequentialIsOnePass | crates/aws-protocol/src/query.rs:86-92 | the five replacements one after the other equal the one pass on every text |
| XmlEscape.UnescapeInverts | crates/aws-protocol/src/query.rs:86-92 | decoding the five predefined entities (section 4.6 of XML 1.0) gives the text back from either escaper |
| XmlEscape.EntityTable | crates/service-framework/src/xml.rs:15-25 | each of the five characters becomes its own predefined entity |
| XmlEscape.NoMarkupSurvives | crates/service-framework/src/xml.rs:15-25 | the output holds no markup character, and every ampersand in it begins a predefined entity |

## Left out

- Lock-free readers (GetItem, Query, Scan, TransactGetItems): they take no table mutex, so the serial order says nothing about them.
- CreateTable, DeleteTable and UpdateTable: the set of tables is fixed during a run of the step system.
- Transaction items without a table name, which the source locks nothing for: a part always names its table.
- A `Put` of a transaction that carries a `Key` besides its `Item`: its condition is evaluated on the item's own key.
- Condition and update expressions: arbitrary functions of an item.
- Cancelled tasks. Atomic accesses are sequentially consistent, so the memory orderings of the source are not modelled.
- Store.WritersKeepConsistency: secondary indexes, and the keys and times inside stream records, are not modelled.
- StreamConsumer.ExactlyOnceInOrder: a run appends fewer than 2^64 records, streams stay enabled and each ARN belongs to one table; a record's number is a number rather than its padded text, which `RequestedRecord` shows to be read as that number.
- StreamConsumer.WritesAreDelivered: a record's key map and time are not modelled, nor is the stream view type, which GetRecords reports but does not apply.
- ItemWriters.LastWriteDecides: an update counts as a write to its key only if its edit leaves the item that key, as for StreamConsumer.UpdateIsDelivered; UpdateEffect covers edits that change it.
- KeyCondition.SplitIsExact: expressions are ASCII, since the source slices at byte offsets.
- KeyConditionMeaning.NeverBetween: texts are ASCII, since the source changes letter case by Unicode rules, which can change the length of a text, and then slices at byte offsets of the changed one.
- KeyConditionMeaning.ParseIsMeaning: words hold no white space, parentheses, commas or operator characters; `Parse` itself is defined on every text.
- CloudFormation.SubIsSimultaneous: the condition on the values is sufficient and not necessary, since whether a value that spells part of a placeholder does harm depends on the template; RescanDependsOnOrder shows the harm and RescanCanBeHarmless a case without any.
- CloudFormation.PlainIsUnchanged: resource types are put into lower case as ASCII texts; the order of an object's fields is not modelled.
- MetricData.Reassembly: a datum or trailing dimension without any parameter leaves no trace; a dimension index of 0 is read as in a release build, where the subtraction wraps and finds nothing (a debug build panics).
- TransactionLog.IdsNeverReused: updates leave ids alone, although the closure of `update` may write any field; so, with services, for TransactionLog.RecordSurvives.
- TransactionLog.Log.Push: the counter and the sum of durations wrap around as in a release build; a debug build panics.
- CloudWatchLogs.Provider.PutLogEvents: the upload token is an unbounded number, where the source adds in 64 bits.
- GuidedRuntime.RunGuidedFlow: the executor, the protocol adapters' captures, the evaluation of an assertion, the step timeout, random strings and the clock are arbitrary functions.
- GuidedManifest.RequiredInputs: the names are a set, where the source hands out a sorted list; so are the missing inputs in Workspace.ServiceWorkspace.ExecuteGuided.
- Header, query and other hash maps that are iterated are lists in an arbitrary order. Concurrent access to the tenant map is not modelled.
- JSON decoding of requests, HTTP, rendering, metrics statistics in floating point, persistence and all other services: input and output, or settled by reading one branch.
