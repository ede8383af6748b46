# Azure Timer Service: a verified model of the scheduling core

The Azure Timer Service runs delayed and recurring jobs. A job is created in two steps:

- Its envelope (`TimerJobMessage<T>`: service name, job id, payload, scheduled time, recurrence code, expiry) is put on a Service Bus queue, scheduled to become visible at the job's appearance time.
- A `TimerJob` record is kept in an Azure table, under partition key = service name and row key = job id.

A timer loop does the rest. It receives due envelopes and throws away the ones that have expired or were cancelled. For a recurring job it first schedules the next occurrence: one day, one week or one calendar month later, with up to three attempts. It then hands the payload to the subclass's `ProcessTimerJob` callback, and records the outcome as a comment on the job's record.

The model has eight modules, one per file:

- **`Calendar`**: .NET `DateTime` ticks, the proleptic Gregorian calendar, `AddDays` and `AddMonths` with their overflow exceptions, and the en-US rendering used inside comments.
- **`Entity`**: the recurrence codes, the envelope, the job record as a value (`TimerJobRow`), and the record as a mutable object (`class TimerJob`) with its two key-keeping setters.
- **`Ordinal`**: ordinal string order, which the table service uses to return a partition's rows.
- **`TableStorage`**: `TableStorageHelper` as a class holding the table as a `map` from (PartitionKey, RowKey) to records. Each method is specified by a function on that map; the merge rules of the three write modes are a function too.
- **`DelayQueue`**: the Service Bus queue as a value. It supports send-with-schedule, receive-with-lock, complete and abandon.
- **`TimerJobManager`**: a class owning the queue state and a `TableStorageHelper`. Each operation reads one record, changes fields of the `TimerJob` object, and writes it back. The operations whose body sits in a `try` block answer false, null or "" when the table fails; `VerifyJob` has no `try`, but the `Get` it calls turns a failing lookup into null.
- **`TimerJobService`**: the service class. It covers creation, cancellation and reporting, the `RunTimerService`/`IsTimerRunning` flags, and the timer loop.
- **`Wrappers`**: `Option`, `Result` and `Outcome`.

The runtime's inputs are parameters:

- **`CreateInputs`** for one create: the clock, the two `Guid.NewGuid()` values, whether the send fails, and how the table treats the record's insert.
- **`StepInputs`** for one loop iteration: the clock at the receive, at the expiry check and at the final comment; the queue faults; how the table treats `VerifyJob`, the scheduling comment and the final or discard status; the inputs of the three scheduling attempts; and how the callback ended.
- **A script of iterations** for the loop, which in the source never ends. The model runs the loop over a finite `seq<StepInputs>`.

A table fault is a `Fault` value handed to each table call: `Answered` (every request is answered on its merits), `QueryFault` (the lookup query fails) or `SaveFault` (the lookup is answered and the save fails). The helper treats them as its code does:

- `Get` catches every exception, so a failing lookup reads as null.
- `Upsert` catches the lookup's `DataServiceQueryException`. On a 404 it inserts. On any other failure it reports success without writing anything.
- The writes, `Delete` and the listings raise `QueryFailed` or `SaveFailed`.

For a manager operation, all of its table calls see the same fault. Two consequences follow from the catches:

- A create whose lookups fail answers with the job id but records nothing, and its envelope is later discarded (`UnrecordedJobIsDiscarded`).
- A create whose save fails answers "" but leaves its envelope on the queue, and the retry loop adds one envelope per such attempt (`FailedSavesLeaveEnvelopes`).

Exceptions are explicit values: `Result`/`Outcome` of `StoreError` and `QueueError`, `None` for the `ArgumentOutOfRangeException` of the date arithmetic, and a `LoopStopped` outcome when one reaches the loop's handler.

Where the code and its documentation disagree, the model follows the code:

- **The auto-start is inert.** `CreateTimerJob` "auto-starts" the loop (`TimerJobService.cs:204`), but it calls `TimerJob()` only while `IsTimerRunning` is false, and the loop's guard requires it to be true. The call therefore does nothing, and the model gives it no effect.
- **Startup is not automatic by default.** `IsServiceStartupTypeAutomatic` is documented as true by default (`TimerJobService.cs:59-62`), but the base class leaves it false. A subclass may set it (the demo does), yet it has no effect either way, because the auto-start it enables does nothing (see above).
- **Point lookups raise 404.** A lookup by both keys on a missing record raises a 404 in the table client used here. `Upsert` relies on this (it catches the 404 and inserts), and `Get` swallows it. So `Update`, `Replace`, `OverwriteReferenceTypesOnly` and `Delete(pk, rk)` also fail with `NotFound` on an absent key. They leave the table unchanged, but they do not return silently.
- **A write cannot move a record.** `Replace`, `Update` and `OverwriteReferenceTypesOnly` copy properties through the setters, so an incoming non-empty ServiceName or TimerJobId that differs from the stored one also changes PartitionKey or RowKey. The table service refuses a write whose keys differ from the addressed entity's, so the model fails such a write with 400 (`BadRequest`) and leaves the table unchanged (`WriteResult`).
- **`Delete(partitionKey)` can fail.** It deletes the listed records one by one. A record whose row key is the empty string is listed first, and its delete fails the helper's own row-key check. The call then raises and deletes nothing (`DeletePartitionResult`).
- **A nameless job can stop the loop.** A job created with an empty service name gets its envelope enqueued, but the record insert fails and the call answers "". When the envelope comes due, `VerifyJob` raises `ArgumentNullException` and the timer loop stops (`NamelessJobStopsLoop`).

## Model

| member | source | states |
|---|---|---|
| Calendar.DaysInMonth | AzureTimerService/Service/TimerJobService.cs:299-300 | a month of the Gregorian calendar has 28 to 31 days (February has 29 in leap years) |
| Calendar.DatePart | AzureTimerService/Service/TimerJobService.cs:293-300 | an instant's date is a valid calendar date whose day number is the instant's whole days since 0001-01-01 |
| Calendar.FromDateAndTime | AzureTimerService/Service/TimerJobService.cs:299-300 | building an instant from a date and a time of day is the inverse of taking its date and time of day apart |
| Calendar.AddDays | AzureTimerService/Service/TimerJobService.cs:293-298 | `AddDays` succeeds exactly when the result stays in `DateTime`'s range, adds whole days, keeps the time of day, and advances the day number by the count |
| Calendar.NextMonthIsLater | AzureTimerService/Service/TimerJobService.cs:299-300 | every day of the following month comes after the given date |
| Calendar.AddOneMonth | AzureTimerService/Service/TimerJobService.cs:299-300 | `AddMonths(1)` moves to the next month with year carry, clamps the day to the month's length, keeps the time of day, lands strictly later, and fails exactly past year 9999 |
| Ordinal.LessTotal | AzureTimerService/Helper/TableStorageHelper.cs:121-131 | ordinal order ranks any two distinct row keys |
| Ordinal.Least | AzureTimerService/Helper/TableStorageHelper.cs:121-131 | a non-empty set of row keys has a least one in ordinal order |
| Ordinal.Ascending | AzureTimerService/Helper/TableStorageHelper.cs:121-131 | the row keys of a partition, listed once each in strictly ascending ordinal order |
| Entity.WithServiceName | AzureTimerService/Entity/TimerJob.cs:14-25 | a non-empty service name becomes both ServiceName and PartitionKey; null or empty changes nothing; no other field changes; the key discipline is kept |
| Entity.WithTimerJobId | AzureTimerService/Entity/TimerJob.cs:28-43 | a non-empty job id becomes both TimerJobId and RowKey; null or empty changes nothing; no other field changes; the key discipline is kept |
| Entity.ApplyWrite | AzureTimerService/Entity/TimerJob.cs:44-53 | each auto-property write sets exactly its own field to the written value and leaves every other field as it was, the keys, the identity fields and the timestamp included |
| Entity.WritesKeepKeysFollowingIds | AzureTimerService/Entity/TimerJob.cs:14-53 | any sequence of property writes keeps PartitionKey = ServiceName and RowKey = TimerJobId |
| Entity.NewJobKeyedByIds | AzureTimerService/Entity/TimerJob.cs:14-53 | a record built by the default constructor and written only through its properties is stored under (ServiceName, TimerJobId) |
| Entity.TimerJob.constructor | AzureTimerService/Entity/TimerJob.cs:44-53 | a new job holds null strings, zeros, false flags and `DateTime.MinValue` dates |
| Entity.TimerJob.FromRow | AzureTimerService/Entity/TimerJob.cs:44-53 | the object materialised from a stored record holds exactly that record |
| Entity.TimerJob.SetServiceName | AzureTimerService/Entity/TimerJob.cs:14-25 | the setter's effect on the object is `WithServiceName` |
| Entity.TimerJob.SetTimerJobId | AzureTimerService/Entity/TimerJob.cs:28-43 | the setter's effect on the object is `WithTimerJobId` |
| TableStorage.MinSupportedDateTimeIs1601 | AzureTimerService/Helper/TableStorageHelper.cs:435-450 | the table's minimum date is 1601-01-01 at midnight |
| TableStorage.FixedMinDates | AzureTimerService/Helper/TableStorageHelper.cs:435-450 | every date other than Timestamp that held `DateTime.MinValue` holds the table's minimum date, nothing else changes, and an already fixed record is left alone (so fixing twice is fixing once) |
| TableStorage.ReplaceTakesIncoming | AzureTimerService/Helper/TableStorageHelper.cs:184-214 | `Replace` stores the incoming record, except where the setters ignore a null or empty ServiceName or TimerJobId |
| TableStorage.UpdateKeepsNullProperties | AzureTimerService/Helper/TableStorageHelper.cs:248-266 | `Update` keeps the stored Timestamp and every string the incoming record leaves null, and takes every other field from it |
| TableStorage.NonDefaultMergeKeepsDefaults | AzureTimerService/Helper/TableStorageHelper.cs:304-320 | `OverwriteReferenceTypesOnly` leaves a stored value-typed field alone when the incoming one holds its default (false, 0, the minimum date), and keeps Timestamp |
| TableStorage.NonDefaultMergeAgreesWithUpdate | AzureTimerService/Helper/TableStorageHelper.cs:248-320 | when no incoming value-typed field holds its default, `OverwriteReferenceTypesOnly` and `Update` store the same record |
| TableStorage.MergeWithItself | AzureTimerService/Helper/TableStorageHelper.cs:184-320 | writing a record onto itself changes nothing, in every write mode |
| TableStorage.UpdateOfModifiedRecord | AzureTimerService/Helper/TableStorageHelper.cs:248-266 | a read-modify-write that keeps the keys and sets strings only to non-null values is stored exactly as written |
| TableStorage.MergeKeepsDatesFixed | AzureTimerService/Helper/TableStorageHelper.cs:184-320 | a merge of two fixed records holds no `DateTime.MinValue` date |
| TableStorage.InsertResult | AzureTimerService/Helper/TableStorageHelper.cs:64-73 | an insert succeeds exactly for a non-null entity with both keys under a free key when the save does not fail, storing it with fixed dates; a taken key is a conflict, a failing save fails it, and a failure leaves the table unchanged |
| TableStorage.GetResult | AzureTimerService/Helper/TableStorageHelper.cs:81-114 | `Get` raises only for a null or empty key, and otherwise returns the record under both keys, or null when there is none or the lookup fails |
| TableStorage.WriteResult | AzureTimerService/Helper/TableStorageHelper.cs:184-325 | a write keeps the set of keys; with good arguments it fails with 404 exactly when the lookup is answered and no record exists, with a lookup fault exactly when the lookup fails, and with a save fault exactly when the record exists and the save fails, and with 400 (Bad Request) exactly when the table answers and the merged record's PartitionKey or RowKey differs from the addressed key, since the write would move the record; on success it replaces that one record by the merge, and a failure leaves the table unchanged |
| TableStorage.UpsertResult | AzureTimerService/Helper/TableStorageHelper.cs:334-377 | an upsert never loses a key, keeps the table well formed, and a failed one leaves the table unchanged |
| TableStorage.UpsertStoresUnderKey | AzureTimerService/Helper/TableStorageHelper.cs:334-377 | when the lookup fails the upsert swallows it, reports success and writes nothing; a failing save fails it; otherwise, on an absent key it falls back to an insert and succeeds, and on a present key it stores the merge |
| TableStorage.DeleteResult | AzureTimerService/Helper/TableStorageHelper.cs:384-405 | a delete succeeds exactly when the table answers and the record exists, and then removes only it; a failing lookup or save fails it; otherwise the table is unchanged |
| TableStorage.WithoutPartition | AzureTimerService/Helper/TableStorageHelper.cs:407-419 | the table without one partition holds exactly the other partitions' records, unchanged |
| TableStorage.DeletePartitionResult | AzureTimerService/Helper/TableStorageHelper.cs:407-419 | deleting a partition keeps the table well formed |
| TableStorage.AscendingRowKeys | AzureTimerService/Helper/TableStorageHelper.cs:121-131 | every listed row key of the partition has a record |
| TableStorage.PartitionListing | AzureTimerService/Helper/TableStorageHelper.cs:121-131 | the listing holds the partition's records in ascending row-key order |
| TableStorage.PartitionListingSound | AzureTimerService/Helper/TableStorageHelper.cs:121-131 | the listing holds exactly the records with that partition key, each under its own key, in strictly ascending row-key order |
| TableStorage.Page | AzureTimerService/Helper/TableStorageHelper.cs:140-150 | `Skip(start).Take(take)` has the length of the window and holds the listing's elements from `start` on |
| TableStorage.PagesConcatenate | AzureTimerService/Helper/TableStorageHelper.cs:140-150 | two consecutive pages put together are the page spanning both |
| TableStorage.WholeListingIsOnePage | AzureTimerService/Helper/TableStorageHelper.cs:140-150 | a page from 0 as long as the listing is the whole listing |
| TableStorage.ListResult | AzureTimerService/Helper/TableStorageHelper.cs:121-131 | listing raises exactly for a null or empty partition key or a failing query, and otherwise returns the partition's listing |
| TableStorage.TableStorageHelper.constructor | AzureTimerService/Helper/TableStorageHelper.cs:48-53 | a new helper sees an empty table |
| TableStorage.TableStorageHelper.FixMinDate | AzureTimerService/Helper/TableStorageHelper.cs:435-450 | the in-place rewrite leaves the entity as `FixedMinDates` of its old value |
| TableStorage.TableStorageHelper.Insert | AzureTimerService/Helper/TableStorageHelper.cs:64-73 | the new table and outcome are `InsertResult`, and the entity's own dates are fixed in place |
| TableStorage.TableStorageHelper.Get | AzureTimerService/Helper/TableStorageHelper.cs:81-114 | answers as `GetResult`, with a fresh object holding the found record |
| TableStorage.TableStorageHelper.GetList | AzureTimerService/Helper/TableStorageHelper.cs:121-131 | answers as `ListResult` |
| TableStorage.TableStorageHelper.GetListPaginated | AzureTimerService/Helper/TableStorageHelper.cs:140-150 | raises exactly for a null or empty partition key or a failing query, and otherwise returns the page of the partition's listing |
| TableStorage.TableStorageHelper.CopyProperties | AzureTimerService/Helper/TableStorageHelper.cs:205-320 | the reflection loop leaves the stored object as the merge of the incoming record onto it |
| TableStorage.TableStorageHelper.CopyRemaining | AzureTimerService/Helper/TableStorageHelper.cs:248-266 | the copy of the auto-properties and inherited keys, each copied or kept by the mode's rule |
| TableStorage.TableStorageHelper.WriteMerged | AzureTimerService/Helper/TableStorageHelper.cs:184-325 | the write shared by the three modes has the effect `WriteResult` gives |
| TableStorage.TableStorageHelper.Replace | AzureTimerService/Helper/TableStorageHelper.cs:184-214 | the new table and outcome are `WriteResult` in replace mode |
| TableStorage.TableStorageHelper.Update | AzureTimerService/Helper/TableStorageHelper.cs:222-270 | the new table and outcome are `WriteResult` in the non-null merge mode; after the argument checks the entity's dates are fixed in place |
| TableStorage.TableStorageHelper.OverwriteReferenceTypesOnly | AzureTimerService/Helper/TableStorageHelper.cs:278-325 | the new table and outcome are `WriteResult` in the non-default merge mode |
| TableStorage.TableStorageHelper.UpsertMerged | AzureTimerService/Helper/TableStorageHelper.cs:334-377 | the write, with the 404 of a missing record turned into an insert, has the effect `UpsertResult` gives |
| TableStorage.TableStorageHelper.Upsert | AzureTimerService/Helper/TableStorageHelper.cs:360-377 | the new table and outcome are `UpsertResult` with the `Update` merge |
| TableStorage.TableStorageHelper.Repsert | AzureTimerService/Helper/TableStorageHelper.cs:334-351 | the new table and outcome are `UpsertResult` with the `Replace` merge |
| TableStorage.TableStorageHelper.Delete | AzureTimerService/Helper/TableStorageHelper.cs:384-405 | the new table and outcome are `DeleteResult` |
| TableStorage.TableStorageHelper.DeletePartition | AzureTimerService/Helper/TableStorageHelper.cs:407-419 | the loop over the listing has the effect `DeletePartitionResult` gives, and a success answers true |
| TableStorage.TableStorageHelper.DeleteNext | AzureTimerService/Helper/TableStorageHelper.cs:413-416 | one delete of the loop removes one more listed record, or fails on the first record with nothing deleted |
| TableStorage.FailedDeleteIsFirst | AzureTimerService/Helper/TableStorageHelper.cs:411-416 | a delete in the loop fails only on the first listed record, the one with the empty row key, before anything is deleted |
| TableStorage.EmptyRowKeyListedFirst | AzureTimerService/Helper/TableStorageHelper.cs:411-416 | a record with the empty row key is the first one listed |
| TableStorage.ListingDeleted | AzureTimerService/Helper/TableStorageHelper.cs:411-416 | deleting every listed record removes exactly the partition |
| TableStorage.PartitionDeleted | AzureTimerService/Helper/TableStorageHelper.cs:407-419 | when no record has the empty row key, the loop's result is the table without the partition and true |
| DelayQueue.FirstDeliverable | AzureTimerService/Helper/SbQueueStorageHelper.cs:50-53 | the position of the first message whose scheduled time has come and that is not locked |
| DelayQueue.PositionOf | AzureTimerService/Helper/SbQueueStorageHelper.cs:55-65 | the position of the message with a given sequence number |
| DelayQueue.SendResult | AzureTimerService/Helper/SbQueueStorageHelper.cs:44-48 | a send succeeds unless it faults, and then appends exactly one message, keeping the queue ordered |
| DelayQueue.ReceiveResult | AzureTimerService/Helper/SbQueueStorageHelper.cs:50-75 | a receive hands out a message that was deliverable (due and unlocked) and locks it in place, every other message unchanged, or answers null with the queue unchanged only when no message is deliverable |
| DelayQueue.CompleteResult | AzureTimerService/Helper/SbQueueStorageHelper.cs:61-65 | completing removes exactly the message with that sequence number and keeps the others in order, so none with its sequence number remains |
| DelayQueue.AbandonResult | AzureTimerService/Helper/SbQueueStorageHelper.cs:55-59 | abandoning keeps every message in order and only releases the lock on the abandoned message, so it is unlocked again |
| DelayQueue.NotDeliveredEarly | AzureTimerService/Helper/TimerJobManager.cs:28-48 | a message sent for a later time is not received before that time |
| DelayQueue.CompletedNotRedelivered | AzureTimerService/Helper/SbQueueStorageHelper.cs:61-65 | a received and completed message is never received again |
| DelayQueue.AbandonedIsRedeliverable | AzureTimerService/Helper/SbQueueStorageHelper.cs:55-59 | an abandoned message can be received again at once, and that receive hands out the same message, with the same sequence number |
| TimerJobManager.StoredRecordFollowsIds | AzureTimerService/Helper/TimerJobManager.cs:50-80 | every stored job record has keys equal to its service name and job id |
| TimerJobManager.EnqueueResult | AzureTimerService/Helper/TimerJobManager.cs:28-48 | the fresh message id is returned exactly when there is an envelope and the send succeeds, and then exactly that envelope is on the queue, scheduled for its appearance time; otherwise the reply is "" and the queue is unchanged |
| TimerJobManager.InsertEntityStores | AzureTimerService/Helper/TimerJobManager.cs:50-80 | the insert succeeds exactly when the envelope names a job and the save does not fail; when the table answers, a success stores the prepared record under the job's key and changes nothing else; a failing lookup reports success with nothing stored; a failure changes nothing |
| TimerJobManager.UnrecordedInsertDoesNotVerify | AzureTimerService/Helper/TimerJobManager.cs:50-129 | when the table's lookups fail, inserting a job that is not on record answers true yet stores nothing, so the job then does not verify |
| TimerJobManager.InsertedRecord | AzureTimerService/Helper/TimerJobManager.cs:54-73 | the inserted record is active with the new message id and the envelope's schedule; a new one is undelivered, created now, without comments; an existing one is flagged delivered and keeps its creation time, comments, processed flag and last appearance |
| TimerJobManager.InsertEntityKeepsKeys | AzureTimerService/Helper/TimerJobManager.cs:50-80 | the insert keeps every record keyed by its identity |
| TimerJobManager.RetrieveResult | AzureTimerService/Helper/TimerJobManager.cs:82-94 | a fault answers null with the queue unchanged; a received message is due and on the queue; null otherwise means nothing was deliverable |
| TimerJobManager.DeleteMessageResult | AzureTimerService/Helper/TimerJobManager.cs:96-107 | a fault answers false with the queue unchanged; true means the message is gone |
| TimerJobManager.ReleaseResult | AzureTimerService/Helper/TimerJobManager.cs:109-120 | a fault answers false with the queue unchanged |
| TimerJobManager.VerifyResult | AzureTimerService/Helper/TimerJobManager.cs:122-129 | false for a null envelope; raises exactly for an envelope with an empty service name or job id; true exactly when the lookup is answered and the record exists and is active, so a failing lookup reads as false |
| TimerJobManager.CancelEffect | AzureTimerService/Helper/TimerJobManager.cs:131-148 | cancel succeeds exactly when the table answers and the record exists, and then sets only its IsActive to false; otherwise nothing changes |
| TimerJobManager.CancelTwice | AzureTimerService/Helper/TimerJobManager.cs:131-148 | a second cancel gives the same answer and changes nothing more |
| TimerJobManager.CancelKeepsKeys | AzureTimerService/Helper/TimerJobManager.cs:131-148 | cancel keeps every record keyed by its identity |
| TimerJobManager.MarkedRecord | AzureTimerService/Helper/TimerJobManager.cs:156-159 | IsDelivered and IsProcessed take the given flags; the old comments are a prefix of the new; a non-empty comment is appended with a newline and an empty one adds nothing; the last appearance changes only for a non-default time; only the two flags, comments and last appearance change |
| TimerJobManager.MarkEffect | AzureTimerService/Helper/TimerJobManager.cs:150-168 | mark succeeds exactly when the table answers and the record exists, and then only that record changes, into its marked form; otherwise nothing changes |
| TimerJobManager.MarkKeepsKeys | AzureTimerService/Helper/TimerJobManager.cs:150-168 | mark keeps every record keyed by its identity |
| TimerJobManager.DetailsResult | AzureTimerService/Helper/TimerJobManager.cs:170-182 | the record under (service name, job id), or null when it is absent, a key is null or empty, or the lookup fails |
| TimerJobManager.AllJobsResult | AzureTimerService/Helper/TimerJobManager.cs:184-196 | null exactly for a null or empty service name or a failing query, otherwise the service's listing |
| TimerJobManager.CancelledJobDoesNotVerify | AzureTimerService/Helper/TimerJobManager.cs:122-148 | after a successful cancel the job no longer verifies |
| TimerJobManager.InsertedJobVerifies | AzureTimerService/Helper/TimerJobManager.cs:50-129 | after a successful insert the job verifies as active |
| TimerJobManager.TimerJobManager.constructor | AzureTimerService/Helper/TimerJobManager.cs:18-26 | a new manager sees an empty queue and an empty table |
| TimerJobManager.TimerJobManager.EnqueueTimerJob | AzureTimerService/Helper/TimerJobManager.cs:28-48 | the new queue and the reply are `EnqueueResult` |
| TimerJobManager.TimerJobManager.InsertTimerJobEntity | AzureTimerService/Helper/TimerJobManager.cs:50-80 | the new table and the reply are those of the insert-or-refresh |
| TimerJobManager.TimerJobManager.PrepareJob | AzureTimerService/Helper/TimerJobManager.cs:56-71 | the object written is the found one, or a fresh one, with the prepared fields set |
| TimerJobManager.TimerJobManager.CreateJob | AzureTimerService/Helper/TimerJobManager.cs:59-64 | a fresh record named after the envelope, created now, undelivered, never appeared |
| TimerJobManager.TimerJobManager.ScheduleJob | AzureTimerService/Helper/TimerJobManager.cs:68-71 | the message id, active flag, recurrence and schedule are set, and nothing else |
| TimerJobManager.TimerJobManager.RetrieveBrokeredMessage | AzureTimerService/Helper/TimerJobManager.cs:82-94 | the new queue and the reply are `RetrieveResult` |
| TimerJobManager.TimerJobManager.DeleteBrokeredMessage | AzureTimerService/Helper/TimerJobManager.cs:96-107 | the new queue and the reply are `DeleteMessageResult` |
| TimerJobManager.TimerJobManager.ReleaseBrokeredMessage | AzureTimerService/Helper/TimerJobManager.cs:109-120 | the new queue and the reply are `ReleaseResult` |
| TimerJobManager.TimerJobManager.VerifyJob | AzureTimerService/Helper/TimerJobManager.cs:122-129 | answers as `VerifyResult` on the current table |
| TimerJobManager.TimerJobManager.CancelTimerJob | AzureTimerService/Helper/TimerJobManager.cs:131-148 | the new table and the reply are those of the cancel |
| TimerJobManager.TimerJobManager.Deactivate | AzureTimerService/Helper/TimerJobManager.cs:138 | only IsActive changes, to false |
| TimerJobManager.TimerJobManager.MarkTimerJobProcessStatus | AzureTimerService/Helper/TimerJobManager.cs:150-168 | the new table and the reply are those of the mark |
| TimerJobManager.TimerJobManager.MarkJob | AzureTimerService/Helper/TimerJobManager.cs:156-159 | the object becomes `MarkedRecord` of its old value |
| TimerJobManager.TimerJobManager.RetrieveTimerJobDetails | AzureTimerService/Helper/TimerJobManager.cs:170-182 | a fresh object holding `DetailsResult`, or null |
| TimerJobManager.TimerJobManager.RetrieveAllTimerJobs | AzureTimerService/Helper/TimerJobManager.cs:184-196 | answers as `AllJobsResult` |
| TimerJobService.SleepInterval | AzureTimerService/Service/TimerJobService.cs:222 | the pause is the configured time when positive and 10000 ms otherwise, never zero or negative |
| TimerJobService.JobIdOf | AzureTimerService/Service/TimerJobService.cs:180-181 | the job id used is never empty, and a supplied non-empty id is reused |
| TimerJobService.CreateResult | AzureTimerService/Service/TimerJobService.cs:177-214 | a null payload answers the fixed text and changes nothing; an expiry already passed answers "" and changes nothing; any other reply is "" or the job id |
| TimerJobService.CreateEffect | AzureTimerService/Service/TimerJobService.cs:177-214 | an accepted create keeps the stores consistent; a failed send changes nothing and answers ""; otherwise exactly one envelope is enqueued and stays there (the default expiry stored as `MaxValue`); the reply is the job id exactly when the service name is usable and the save does not fail; the job is then on record, active, with the new message id when the table answers; a failing lookup or an empty reply leaves the table unchanged |
| TimerJobService.NextAppearanceIsLater | AzureTimerService/Service/TimerJobService.cs:291-303 | a non-recurring code gives `DateTime.MinValue`; a recurring job's next occurrence is strictly later, at the same time of day |
| TimerJobService.NextAppearanceSteps | AzureTimerService/Service/TimerJobService.cs:291-303 | daily and weekly advance by exactly 1 and 7 calendar days from the scheduled time; monthly moves to the next month with the day clamped; each fails exactly past the end of `DateTime`'s range |
| TimerJobService.MonthlyJobClampsToMonthEnd | AzureTimerService/Service/TimerJobService.cs:299-300 | a monthly job on 2024-01-31 next runs on 2024-02-29 |
| TimerJobService.Attempt | AzureTimerService/Service/TimerJobService.cs:241-258 | the retry loop makes between one and the remaining number of attempts, and all of them when none succeeds |
| TimerJobService.AttemptsStopAtSuccess | AzureTimerService/Service/TimerJobService.cs:241-258 | an attempt that succeeds is the last one |
| TimerJobService.ThirdAttemptSucceeds | AzureTimerService/Service/TimerJobService.cs:241-258 | two failed sends followed by a good one make the third attempt, which schedules the job unless its save fails, and the failed ones leave the stores as they were |
| TimerJobService.FailedSavesLeaveEnvelopes | AzureTimerService/Service/TimerJobService.cs:177-258 | three attempts whose sends go through but whose saves fail leave the job not rescheduled and the table unchanged, yet add three envelopes to the queue |
| TimerJobService.RunStep | AzureTimerService/Service/TimerJobService.cs:220-289 | the loop is one iteration followed by the rest, unless that iteration stopped it |
| TimerJobService.DiscardRecords | AzureTimerService/Service/TimerJobService.cs:274-279 | a discard removes the message for good; when the table answers it marks the job's record as neither delivered nor processed, with the receive time and the discard comment last; otherwise the table is unchanged |
| TimerJobService.ExpiredOrInactiveJobIsDiscarded | AzureTimerService/Service/TimerJobService.cs:231-279 | an expired, unrecorded or cancelled job's envelope, or one whose lookup fails, is discarded: removed from the queue, the record marked with the discard comment when the table answers and unchanged otherwise, the callback never run |
| TimerJobService.NullPayloadLeftLocked | AzureTimerService/Service/TimerJobService.cs:234-235 | an active job without payload leaves its message locked on the queue and the table unchanged |
| TimerJobService.DeliverReschedulesOnlyWhenDue | AzureTimerService/Service/TimerJobService.cs:238-259 | a delivered job is rescheduled exactly when it recurs and its next occurrence is a real date before the expiry; its processed flag is the callback's result |
| TimerJobService.ReschedulesOnlyWhenDue | AzureTimerService/Service/TimerJobService.cs:238-259 | the same, for a whole loop iteration |
| TimerJobService.RescheduleWritesOneComment | AzureTimerService/Service/TimerJobService.cs:250-258 | scheduling writes exactly one comment, scheduled or not scheduled, and records the job as delivered and not processed when the table answers; a failing write leaves the record as the attempts left it |
| TimerJobService.DeliverIgnoresCallback | AzureTimerService/Service/TimerJobService.cs:237-268 | the callback's outcome has no bearing on the queue or on whether the next occurrence is scheduled |
| TimerJobService.ReschedulingIgnoresCallback | AzureTimerService/Service/TimerJobService.cs:237-268 | the same, for a whole loop iteration |
| TimerJobService.OneTimeJobNotRescheduled | AzureTimerService/Service/TimerJobService.cs:237-238 | a delivered one-time job is completed and no new envelope is sent |
| TimerJobService.DeliverOneTime | AzureTimerService/Service/TimerJobService.cs:237-238 | the same, for the delivery step |
| TimerJobService.FinishRecords | AzureTimerService/Service/TimerJobService.cs:269-271 | the final mark records the job as delivered, with the callback's result, the receive time and the processing comment last, when the table answers; a failing table is left unchanged |
| TimerJobService.DeliverRecords | AzureTimerService/Service/TimerJobService.cs:237-271 | a delivered job ends the step recorded as processed that way when the table answers the final mark |
| TimerJobService.ProcessedJobRecorded | AzureTimerService/Service/TimerJobService.cs:235-271 | a delivered job ends the iteration recorded as delivered, with the callback's result (false for an exception), the receive time and the processing comment last, when the table answers the final mark |
| TimerJobService.RescheduleKeepsJob | AzureTimerService/Service/TimerJobService.cs:238-259 | scheduling keeps the stores consistent and the job on record |
| TimerJobService.AttemptKeepsJob | AzureTimerService/Service/TimerJobService.cs:241-258 | every attempt keeps the stores consistent and the job on record |
| TimerJobService.CreateKeepsJob | AzureTimerService/Service/TimerJobService.cs:177-214 | a create for a job already on record keeps it there |
| TimerJobService.NamelessJobStopsLoop | AzureTimerService/Service/TimerJobService.cs:177-232 | a create with an empty service name answers "" but leaves an envelope whose delivery stops the loop |
| TimerJobService.UnrecordedJobIsDiscarded | AzureTimerService/Service/TimerJobService.cs:177-235 | a create whose table lookups fail answers the job id but records nothing, and its envelope, once due, is discarded without the callback |
| TimerJobService.Summaries | AzureTimerService/Service/TimerJobService.cs:126-150 | one summary per listed record, in order |
| TimerJobService.DetailsReplyOf | AzureTimerService/Service/TimerJobService.cs:122-171 | a missing service name gets the fixed reply; with the table answering, a job id selects exactly the job's record, and no job id selects the service's whole listing when it is not empty; a failing lookup and anything else get "" |
| TimerJobService.ListingCoversService | AzureTimerService/Service/TimerJobService.cs:126-150 | without a job id and with the table answering, the reply lists exactly when the service has a record, and covers every record of the service |
| TimerJobService.ListingOfService | AzureTimerService/Helper/TableStorageHelper.cs:121-131 | the service's listing is empty exactly when it has no record, and holds each of its records |
| TimerJobService.CancelGuardIsRedundant | AzureTimerService/Service/TimerJobService.cs:102-114 | the service's own empty-id guard answers what the manager would: false, nothing changed |
| TimerJobService.TimerJobService.constructor | AzureTimerService/Service/TimerJobService.cs:59-76 | a new service is stopped, not running, with sleep time 0 and automatic startup off |
| TimerJobService.TimerJobService.CreateTimerJob | AzureTimerService/Service/TimerJobService.cs:91-94 | the public create is the private one with an empty job id, so a fresh id is drawn |
| TimerJobService.TimerJobService.CreateTimerJobWithId | AzureTimerService/Service/TimerJobService.cs:177-214 | the new state and the reply are `CreateResult` |
| TimerJobService.TimerJobService.CancelTimerJob | AzureTimerService/Service/TimerJobService.cs:102-114 | the new table and the reply are those of the manager's cancel |
| TimerJobService.TimerJobService.RetrieveTimerJobDetails | AzureTimerService/Service/TimerJobService.cs:122-171 | answers `DetailsReplyOf` the current table |
| TimerJobService.TimerJobService.Summarize | AzureTimerService/Service/TimerJobService.cs:131-146 | the loop builds one summary per listed record, in order |
| TimerJobService.TimerJobService.SetIsTimerRunning | AzureTimerService/Service/TimerJobService.cs:32-41 | sets the flag and no other |
| TimerJobService.TimerJobService.SetRunTimerService | AzureTimerService/Service/TimerJobService.cs:43-57 | switching on an idle service runs the loop; switching on a running one changes nothing; switching off clears `IsTimerRunning` |
| TimerJobService.TimerJobService.TimerJob | AzureTimerService/Service/TimerJobService.cs:216-289 | the loop runs only while both flags hold; its effect is `Run` over the iterations, and an exception clears `IsTimerRunning` |
| TimerJobService.TimerJobService.DispatchStep | AzureTimerService/Service/TimerJobService.cs:222-282 | one iteration has the effect and outcome `DispatchResult` gives |
| TimerJobService.TimerJobService.Discard | AzureTimerService/Service/TimerJobService.cs:274-279 | the effect of the discard branch is `DiscardResult` |
| TimerJobService.TimerJobService.Deliver | AzureTimerService/Service/TimerJobService.cs:237-271 | the effect of the delivery branch is `DeliverResult` |
| TimerJobService.TimerJobService.Finish | AzureTimerService/Service/TimerJobService.cs:269-271 | the effect of the final mark is `FinishResult` |
| TimerJobService.TimerJobService.Reschedule | AzureTimerService/Service/TimerJobService.cs:238-259 | the retry loop and its comment have the effect `RescheduleResult` gives |

## Left out

- Logging (`LoggingService`, `LogEntry`): every log call only writes an audit entry, so it is left out.
- Binary serialisation (`Serializer`, the `ISerializable` plumbing): a message body is a value that is an envelope, a foreign object or unreadable.
- `Thread.Sleep`, `DateTime.UtcNow` and `Guid.NewGuid`: the sleep only waits and is left out; the clock readings and fresh ids are inputs.
- The callback `ProcessTimerJob` and the demo subclasses (`TimerServiceDemo`, `TimerProgram`): the callback is an input that returns a result or throws.
- The Service Bus client setup, queue creation, the receive wait time, the maximum delivery count and the message time-to-live. The queue is a value with a fixed two-minute lock, and a lock never expires while a message is processed.
- The storage account, configuration loading and the retry policy of the table client. `GetAll`, `GetAllPaginated` and `GetContext` are not used by the core and are left out.
- The server-side `Timestamp`: the table does not refresh it on a write.
- The XML rendering of `RetrieveTimerJobDetails` (`DynamicExtensions`, `XmlSerializer`): the reply is a datatype of the selected summaries.
- The culture of `DateTime.ToString`: comments render dates in the en-US general pattern.
- `TimerJobService.TimerJobService.SetIsTimerRunning`: does not make the re-entrant `TimerJob()` call of the setter. When the setter clears the flag, that call's loop stops at once, so it has no effect.
- `TimerJobService.TimerJobService.TimerJob`: runs over a finite script of iterations, not forever.
- `TimerJobService.TimerJobService.CreateTimerJobWithId`: does not model the auto-start call, because the call has no effect.
- `TimerJobService.CreateResult`: a payload equal to `default(T)` counts as null, which for a value type `T` also holds for its default value.
- `TimerJobManager.EnqueueResult`: does not model the message's time-to-live, which the source sets to the maximum. It also does not model the `ToUniversalTime()` conversion of the scheduled time: the time is taken as already in UTC, which holds for a UTC-kind input or on a host whose local zone is UTC.
- `TableStorage.ListResult`: the listing is one query answered in full. The table client answers at most 1000 entities per request and the helper follows no continuation token, so a partition of more than 1000 records is listed only in part by the source.
- `TableStorage.TableStorageHelper.DeletePartition`: its listing and deletes are modelled with the table answering; faults inside the loop are not modelled.
- Table faults are one per manager call: a call whose first lookup fails while its later save succeeds (for instance `InsertTimerJobEntity` rewriting an existing record as a new one) is not modelled.
- Lock renewal, concurrency among several service instances, and the eventual expiry of locks on messages left locked (`Skipped`, `NullPayload`) are not modelled.
