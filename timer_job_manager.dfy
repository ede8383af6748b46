/** `TimerJobManager`: the glue between the scheduler and its two stores. It
    puts job envelopes on the delay queue and keeps one `TimerJob` record per
    (ServiceName, TimerJobId) in the table. Every operation catches the
    exceptions of its store and answers with a sentinel (empty string, false,
    null), except `VerifyJob`, which lets them through. A table operation
    takes the `Fault` of the table service during the call: all of its helper
    calls meet the same one. */
module TimerJobManager {
  import opened Wrappers
  import opened Calendar
  import opened Entity
  import opened TableStorage
  import opened DelayQueue

  /** `Environment.NewLine` on the service's platform. */
  const NewLine: string := "\r\n"

  /** Every record stored by the manager carries its key as its identity. */
  predicate RecordsKeyed(rows: Rows) {
    forall k | k in rows :: rows[k].serviceName == Some(k.0) && rows[k].timerJobId == Some(k.1)
  }

  /** The key of a job, when both parts are usable. */
  function JobKey(serviceName: NullableString, timerJobId: NullableString): Option<Key> {
    if IsNullOrEmpty(serviceName) || IsNullOrEmpty(timerJobId) then None
    else Some((serviceName.value, timerJobId.value))
  }

  lemma StoredRecordFollowsIds(rows: Rows, k: Key)
    requires WellStored(rows) && RecordsKeyed(rows) && k in rows
    ensures KeysFollowIds(rows[k])
  {
  }

  // ---------------------------------------------------------------------------
  // EnqueueTimerJob

  /** `EnqueueTimerJob`: the envelope goes on the queue, scheduled for its
      appearance time, under the fresh message id; the id is returned, or the
      empty string when there is no envelope or the send fails. */
  function EnqueueResult<T>(q: QueueState<T>, msg: Option<TimerJobMessage<T>>, messageId: GuidString, sendFails: bool)
    : (r: (QueueState<T>, string))
    ensures Ordered(q) ==> Ordered(r.0)
    ensures r.1 == messageId <==> msg.Some? && !sendFails
    ensures r.1 != messageId ==> r.1 == "" && r.0 == q
    ensures r.1 == messageId ==>
      r.0 == QueueState(q.messages + [BrokeredMessage(messageId, q.nextSequenceNumber, Serialized(msg.value),
                                                       msg.value.scheduledAppearanceOnInUTC, MinValue)],
                        q.nextSequenceNumber + 1)
  {
    if msg.None? then (q, "")
    else
      var (sent, outcome) := SendResult(q, messageId, Serialized(msg.value), msg.value.scheduledAppearanceOnInUTC, sendFails);
      if outcome.Pass? then (sent, messageId) else (sent, "")
  }

  // ---------------------------------------------------------------------------
  // InsertTimerJobEntity

  /** The record `InsertTimerJobEntity` builds when none exists yet. */
  function CreatedRecord<T>(m: TimerJobMessage<T>, now: DateTime): TimerJobRow {
    WithTimerJobId(WithServiceName(DefaultRow, m.serviceName), m.timerJobId)
      .(createdOn := now, isDelivered := false, lastAppearedOnInUTC := MinValue)
  }

  /** The record `InsertTimerJobEntity` writes: the existing one flagged as
      delivered, or a new one, with the new message id and schedule. */
  function PreparedRecord<T>(found: Option<TimerJobRow>, m: TimerJobMessage<T>, messageId: string, now: DateTime)
    : TimerJobRow
  {
    var base := if found.None? then CreatedRecord(m, now) else found.value.(isDelivered := true);
    base.(brokeredMessageId := Some(messageId), isActive := true,
          recurrenceType := m.recurrenceType, scheduledAppearanceOnInUTC := m.scheduledAppearanceOnInUTC)
  }

  function InsertEntityResult<T>(rows: Rows, msg: Option<TimerJobMessage<T>>, messageId: string, now: DateTime,
                                 fault: Fault): (Rows, bool)
  {
    if msg.None? then (rows, false)
    else
      var m := msg.value;
      match GetResult(rows, m.serviceName, m.timerJobId, fault)
      case Failure(_) => (rows, false)
      case Success(found) =>
        var job := PreparedRecord(found, m, messageId, now);
        var w := UpsertResult(rows, job.partitionKey, job.rowKey, Some(job), MergeNonNull, fault);
        (w.rows, w.outcome.Pass?)
  }

  /** `InsertTimerJobEntity` answers true exactly when the envelope names a
      job and no save fails. With the table answering it writes the prepared
      record, dates fixed, under the job's key and nothing else; when the
      lookups fail, `Get` answers null and `Upsert` swallows the failure, so
      the call answers true having written nothing. */
  lemma InsertEntityStores<T>(rows: Rows, m: TimerJobMessage<T>, messageId: string, now: DateTime, fault: Fault)
    requires WellStored(rows) && RecordsKeyed(rows)
    ensures var (after, ok) := InsertEntityResult(rows, Some(m), messageId, now, fault);
      && (ok <==> JobKey(m.serviceName, m.timerJobId).Some? && !fault.SaveFault?)
      && (!ok || !fault.Answered? ==> after == rows)
      && (ok && fault.Answered? ==> var k := JobKey(m.serviceName, m.timerJobId).value;
            after == rows[k := FixedMinDates(PreparedRecord(if k in rows then Some(rows[k]) else None, m, messageId, now))])
  {
    if JobKey(m.serviceName, m.timerJobId).Some? {
      var k := JobKey(m.serviceName, m.timerJobId).value;
      var found := if k in rows && !fault.QueryFault? then Some(rows[k]) else None;
      var job := PreparedRecord(found, m, messageId, now);
      assert KeyOf(job) == Some(k);
      UpsertStoresUnderKey(rows, job.partitionKey, job.rowKey, job, MergeNonNull, fault);
      if k in rows && fault.Answered? {
        StoredRecordFollowsIds(rows, k);
        UpdateOfModifiedRecord(rows[k], FixedMinDates(job));
      }
    }
  }

  /** The record the insert leaves is active and holds the message id and the
      schedule. A new record is undelivered, created now and has no comments;
      an existing one is flagged delivered and keeps its creation time,
      comments and last appearance. */
  lemma InsertedRecord<T>(rows: Rows, m: TimerJobMessage<T>, messageId: string, now: DateTime)
    requires WellStored(rows) && RecordsKeyed(rows)
    requires InsertEntityResult(rows, Some(m), messageId, now, Answered).1
    ensures var after := InsertEntityResult(rows, Some(m), messageId, now, Answered).0;
      var k := JobKey(m.serviceName, m.timerJobId).value;
      && k in after
      && after[k].isActive && after[k].brokeredMessageId == Some(messageId)
      && after[k].recurrenceType == m.recurrenceType
      && after[k].scheduledAppearanceOnInUTC == FixDate(m.scheduledAppearanceOnInUTC)
      && after[k].serviceName == m.serviceName && after[k].timerJobId == m.timerJobId
      && (k !in rows ==> !after[k].isDelivered && after[k].createdOn == FixDate(now) && after[k].jobComments.None?)
      && (k in rows ==>
            && after[k].isDelivered && after[k].createdOn == rows[k].createdOn
            && after[k].jobComments == rows[k].jobComments
            && after[k].isProcessed == rows[k].isProcessed
            && after[k].lastAppearedOnInUTC == rows[k].lastAppearedOnInUTC)
  {
    InsertEntityStores(rows, m, messageId, now, Answered);
  }

  /** The insert keeps every record keyed by its identity. */
  lemma InsertEntityKeepsKeys<T>(rows: Rows, msg: Option<TimerJobMessage<T>>, messageId: string, now: DateTime,
                                 fault: Fault)
    requires WellStored(rows) && RecordsKeyed(rows)
    ensures RecordsKeyed(InsertEntityResult(rows, msg, messageId, now, fault).0)
  {
    if msg.Some? {
      InsertEntityStores(rows, msg.value, messageId, now, fault);
    }
  }

  // ---------------------------------------------------------------------------
  // The queue sentinels

  /** `RetrieveBrokeredMessage`: the received message, or null when none is
      deliverable or the receive fails. */
  function RetrieveResult<T>(q: QueueState<T>, now: DateTime, fails: bool)
    : (r: (QueueState<T>, Option<BrokeredMessage<T>>))
    ensures Ordered(q) ==> Ordered(r.0)
    ensures fails ==> r == (q, None)
    ensures r.1.Some? ==> r.1.value.scheduledEnqueueTimeUtc <= now && r.1.value in r.0.messages
    ensures !fails && r.1.None? ==> r.0 == q && forall m | m in q.messages :: !Deliverable(m, now)
  {
    var (after, received) := ReceiveResult(q, now, fails);
    if received.Failure? then (after, None) else (after, received.value)
  }

  /** `DeleteBrokeredMessage`: completes the message; false when that fails. */
  function DeleteMessageResult<T>(q: QueueState<T>, m: BrokeredMessage<T>, fails: bool)
    : (r: (QueueState<T>, bool))
    ensures Ordered(q) ==> Ordered(r.0)
    ensures !r.1 ==> r.0 == q
    ensures Ordered(q) && r.1 ==> forall x | x in r.0.messages :: x.sequenceNumber != m.sequenceNumber
    ensures fails ==> !r.1
  {
    var (after, outcome) := CompleteResult(q, m, fails);
    (after, outcome.Pass?)
  }

  /** `ReleaseBrokeredMessage`: abandons the message; false when that fails. */
  function ReleaseResult<T>(q: QueueState<T>, m: BrokeredMessage<T>, fails: bool)
    : (r: (QueueState<T>, bool))
    ensures Ordered(q) ==> Ordered(r.0)
    ensures !r.1 ==> r.0 == q
    ensures fails ==> !r.1
  {
    var (after, outcome) := AbandonResult(q, m, fails);
    (after, outcome.Pass?)
  }

  // ---------------------------------------------------------------------------
  // VerifyJob, CancelTimerJob, MarkTimerJobProcessStatus and the lookups

  /** `VerifyJob`: whether the envelope's job is on record and active. The
      argument checks of `Get` are not caught; a failed lookup reads as "not
      on record". */
  function VerifyResult<T>(rows: Rows, msg: Option<TimerJobMessage<T>>, fault: Fault): (r: Result<bool, StoreError>)
    ensures msg.None? ==> r == Success(false)
    ensures msg.Some? ==> (r.Failure? <==> JobKey(msg.value.serviceName, msg.value.timerJobId).None?)
    ensures r == Success(true) <==>
      msg.Some? && !fault.QueryFault? && var k := JobKey(msg.value.serviceName, msg.value.timerJobId);
      k.Some? && k.value in rows && rows[k.value].isActive
  {
    if msg.None? then Success(false)
    else
      match GetResult(rows, msg.value.serviceName, msg.value.timerJobId, fault)
      case Failure(e) => Failure(e)
      case Success(None) => Success(false)
      case Success(Some(job)) => Success(job.isActive)
  }

  function CancelResult(rows: Rows, serviceName: NullableString, timerJobId: NullableString, fault: Fault)
    : (Rows, bool)
  {
    match GetResult(rows, serviceName, timerJobId, fault)
    case Failure(_) => (rows, false)
    case Success(None) => (rows, false)
    case Success(Some(job)) =>
      var cancelled := job.(isActive := false);
      var w := WriteResult(rows, cancelled.partitionKey, cancelled.rowKey, Some(cancelled), MergeNonNull, fault);
      (w.rows, w.outcome.Pass?)
  }

  /** `CancelTimerJob` succeeds exactly when the job is on record and the
      table answers, and then only that record changes: it becomes inactive. */
  lemma CancelEffect(rows: Rows, serviceName: NullableString, timerJobId: NullableString, fault: Fault)
    requires WellStored(rows) && RecordsKeyed(rows)
    ensures var (after, ok) := CancelResult(rows, serviceName, timerJobId, fault);
      var k := JobKey(serviceName, timerJobId);
      && (ok <==> fault.Answered? && k.Some? && k.value in rows)
      && (!ok ==> after == rows)
      && (ok ==> after == rows[k.value := rows[k.value].(isActive := false)])
      && WellStored(after) && RecordsKeyed(after)
  {
    var k := JobKey(serviceName, timerJobId);
    if k.Some? && k.value in rows && !fault.QueryFault? {
      var x := rows[k.value];
      StoredRecordFollowsIds(rows, k.value);
      UpdateOfModifiedRecord(x, FixedMinDates(x.(isActive := false)));
    }
  }

  /** Cancelling a job a second time, with the table behaving as it did the
      first time, answers as the first cancel did and changes nothing more. */
  lemma CancelTwice(rows: Rows, serviceName: NullableString, timerJobId: NullableString, fault: Fault)
    requires WellStored(rows) && RecordsKeyed(rows)
    ensures var (once, ok) := CancelResult(rows, serviceName, timerJobId, fault);
      CancelResult(once, serviceName, timerJobId, fault) == (once, ok)
  {
    CancelEffect(rows, serviceName, timerJobId, fault);
    var (once, ok) := CancelResult(rows, serviceName, timerJobId, fault);
    CancelEffect(once, serviceName, timerJobId, fault);
    if ok {
      var k := JobKey(serviceName, timerJobId).value;
      assert once[k].(isActive := false) == once[k];
      assert once[k := once[k]] == once;
    }
  }

  lemma CancelKeepsKeys(rows: Rows, serviceName: NullableString, timerJobId: NullableString, fault: Fault)
    requires WellStored(rows) && RecordsKeyed(rows)
    ensures RecordsKeyed(CancelResult(rows, serviceName, timerJobId, fault).0)
  {
    CancelEffect(rows, serviceName, timerJobId, fault);
  }

  /** The record as `MarkTimerJobProcessStatus` leaves it: the two flags set,
      a non-empty comment appended as a new line, and the last appearance set
      unless the default date is given. */
  function MarkedRecord(x: TimerJobRow, isDelivered: bool, isProcessed: bool, comments: string, lastAppearedOn: DateTime)
    : (r: TimerJobRow)
    ensures r.isDelivered == isDelivered && r.isProcessed == isProcessed
    ensures TextOf(x.jobComments) <= TextOf(r.jobComments)
    ensures comments == "" ==> r.jobComments == x.jobComments
    ensures comments != "" ==> TextOf(r.jobComments)[|TextOf(x.jobComments)|..] == comments + NewLine
    ensures r.lastAppearedOnInUTC == if lastAppearedOn == MinValue then x.lastAppearedOnInUTC else lastAppearedOn
    ensures r.(isDelivered := x.isDelivered, isProcessed := x.isProcessed, jobComments := x.jobComments,
               lastAppearedOnInUTC := x.lastAppearedOnInUTC) == x
  {
    var flagged := x.(isDelivered := isDelivered, isProcessed := isProcessed);
    var commented := if comments != "" then flagged.(jobComments := Some(TextOf(x.jobComments) + comments + NewLine)) else flagged;
    if lastAppearedOn != MinValue then commented.(lastAppearedOnInUTC := lastAppearedOn) else commented
  }

  function MarkResult(rows: Rows, serviceName: NullableString, timerJobId: NullableString, isDelivered: bool,
                      isProcessed: bool, comments: string, lastAppearedOn: DateTime, fault: Fault): (Rows, bool)
  {
    match GetResult(rows, serviceName, timerJobId, fault)
    case Failure(_) => (rows, false)
    case Success(None) => (rows, false)
    case Success(Some(job)) =>
      var marked := MarkedRecord(job, isDelivered, isProcessed, comments, lastAppearedOn);
      var w := WriteResult(rows, marked.partitionKey, marked.rowKey, Some(marked), MergeNonNull, fault);
      (w.rows, w.outcome.Pass?)
  }

  /** `MarkTimerJobProcessStatus` succeeds exactly when the job is on record
      and the table answers, and then only that record changes, into its
      marked form. */
  lemma MarkEffect(rows: Rows, serviceName: NullableString, timerJobId: NullableString, isDelivered: bool,
                   isProcessed: bool, comments: string, lastAppearedOn: DateTime, fault: Fault)
    requires WellStored(rows) && RecordsKeyed(rows)
    ensures var (after, ok) :=
      MarkResult(rows, serviceName, timerJobId, isDelivered, isProcessed, comments, lastAppearedOn, fault);
      var k := JobKey(serviceName, timerJobId);
      && (ok <==> fault.Answered? && k.Some? && k.value in rows)
      && (!ok ==> after == rows)
      && (ok ==> after == rows[k.value := MarkedRecord(rows[k.value], isDelivered, isProcessed, comments, lastAppearedOn)])
      && WellStored(after) && RecordsKeyed(after)
  {
    var k := JobKey(serviceName, timerJobId);
    if k.Some? && k.value in rows && !fault.QueryFault? {
      var x := rows[k.value];
      var marked := MarkedRecord(x, isDelivered, isProcessed, comments, lastAppearedOn);
      assert FixedMinDates(marked) == marked;
      StoredRecordFollowsIds(rows, k.value);
      UpdateOfModifiedRecord(x, marked);
    }
  }

  lemma MarkKeepsKeys(rows: Rows, serviceName: NullableString, timerJobId: NullableString, isDelivered: bool,
                      isProcessed: bool, comments: string, lastAppearedOn: DateTime, fault: Fault)
    requires WellStored(rows) && RecordsKeyed(rows)
    ensures RecordsKeyed(MarkResult(rows, serviceName, timerJobId, isDelivered, isProcessed, comments, lastAppearedOn,
                                    fault).0)
  {
    MarkEffect(rows, serviceName, timerJobId, isDelivered, isProcessed, comments, lastAppearedOn, fault);
  }

  /** `RetrieveTimerJobDetails`: the job's record, or null when the job is not
      on record, a key is null or empty, or the lookup fails. */
  function DetailsResult(rows: Rows, serviceName: NullableString, timerJobId: NullableString, fault: Fault)
    : (r: Option<TimerJobRow>)
    ensures r.Some? <==>
      !fault.QueryFault? && JobKey(serviceName, timerJobId).Some? && JobKey(serviceName, timerJobId).value in rows
    ensures r.Some? ==> r.value == rows[JobKey(serviceName, timerJobId).value]
  {
    match GetResult(rows, serviceName, timerJobId, fault)
    case Failure(_) => None
    case Success(found) => found
  }

  /** `RetrieveAllTimerJobs`: the records of the service's partition, or null
      when the service name is null or empty or the query fails. */
  function AllJobsResult(rows: Rows, serviceName: NullableString, fault: Fault): (r: Option<seq<TimerJobRow>>)
    ensures r.None? <==> IsNullOrEmpty(serviceName) || fault.QueryFault?
    ensures r.Some? ==> r.value == PartitionListing(rows, serviceName.value)
  {
    match ListResult(rows, serviceName, fault)
    case Failure(_) => None
    case Success(list) => Some(list)
  }

  /** A cancelled job no longer verifies, however the table behaves, while
      the envelope's other fields play no part. */
  lemma CancelledJobDoesNotVerify<T>(rows: Rows, m: TimerJobMessage<T>, fault: Fault)
    requires WellStored(rows) && RecordsKeyed(rows)
    requires CancelResult(rows, m.serviceName, m.timerJobId, Answered).1
    ensures VerifyResult(CancelResult(rows, m.serviceName, m.timerJobId, Answered).0, Some(m), fault) == Success(false)
  {
    CancelEffect(rows, m.serviceName, m.timerJobId, Answered);
  }

  /** A job whose envelope was just recorded verifies while the table answers. */
  lemma InsertedJobVerifies<T>(rows: Rows, m: TimerJobMessage<T>, messageId: string, now: DateTime)
    requires WellStored(rows) && RecordsKeyed(rows)
    requires InsertEntityResult(rows, Some(m), messageId, now, Answered).1
    ensures VerifyResult(InsertEntityResult(rows, Some(m), messageId, now, Answered).0, Some(m), Answered) == Success(true)
  {
    InsertEntityStores(rows, m, messageId, now, Answered);
  }

  /** With the table failing its lookups, an insert answers true yet records
      nothing, so a job that was not on record before does not verify. */
  lemma UnrecordedInsertDoesNotVerify<T>(rows: Rows, m: TimerJobMessage<T>, messageId: string, now: DateTime,
                                         fault: Fault)
    requires WellStored(rows) && RecordsKeyed(rows)
    requires JobKey(m.serviceName, m.timerJobId).Some? && JobKey(m.serviceName, m.timerJobId).value !in rows
    ensures InsertEntityResult(rows, Some(m), messageId, now, QueryFault) == (rows, true)
    ensures VerifyResult(InsertEntityResult(rows, Some(m), messageId, now, QueryFault).0, Some(m), fault) == Success(false)
  {
    InsertEntityStores(rows, m, messageId, now, QueryFault);
  }

  // ---------------------------------------------------------------------------
  // The manager object

  class TimerJobManager<T> {
    /** The "scheduledjobs" queue. */
    var queue: QueueState<T>
    /** The "TimerJob" table. */
    const store: TableStorageHelper

    ghost predicate Valid()
      reads this, store
    {
      Ordered(queue) && store.Valid() && RecordsKeyed(store.rows)
    }

    constructor ()
      ensures Valid() && fresh(store)
      ensures queue == QueueState([], 0) && store.rows == map[]
    {
      queue := QueueState([], 0);
      store := new TableStorageHelper();
    }

    /** `messageId` is the `Guid.NewGuid()` the source draws; `sendFails`
        stands for an exception of the queue client. */
    method EnqueueTimerJob(msg: Option<TimerJobMessage<T>>, messageId: GuidString, sendFails: bool)
      returns (r: string)
      requires Valid()
      modifies this
      ensures Valid()
      ensures (queue, r) == EnqueueResult(old(queue), msg, messageId, sendFails)
    {
      if msg.None? {
        return "";
      }
      var (sent, outcome) := SendResult(queue, messageId, Serialized(msg.value), msg.value.scheduledAppearanceOnInUTC, sendFails);
      queue := sent;
      if outcome.Pass? {
        return messageId;
      }
      r := "";
    }

    /** `now` is `DateTime.UtcNow` when a new record is created; `fault` is how
        the table service treats the call. */
    method InsertTimerJobEntity(msg: Option<TimerJobMessage<T>>, messageId: string, now: DateTime, fault: Fault)
      returns (ok: bool)
      requires Valid()
      modifies store
      ensures Valid()
      ensures (store.rows, ok) == InsertEntityResult(old(store.rows), msg, messageId, now, fault)
    {
      if msg.None? {
        return false;
      }
      var m := msg.value;
      var got := store.Get(m.serviceName, m.timerJobId, fault);
      if got.Failure? {
        return false;
      }
      var job := PrepareJob(got.value, m, messageId, now);
      InsertEntityKeepsKeys(store.rows, msg, messageId, now, fault);
      var outcome := store.Upsert(job.partitionKey, job.rowKey, job, fault);
      ok := outcome.Pass?;
    }

    /** The record object `InsertTimerJobEntity` writes: the one read from the
        table, or a new one when there was none, filled in from the envelope. */
    method PrepareJob(existing: TimerJob?, m: TimerJobMessage<T>, messageId: string, now: DateTime)
      returns (job: TimerJob)
      modifies existing
      ensures existing == null ==> fresh(job)
      ensures existing != null ==> job == existing
      ensures job.Row() == PreparedRecord(old(RowOf(existing)), m, messageId, now)
    {
      if existing == null {
        job := CreateJob(m, now);
      } else {
        job := existing;
        job.isDelivered := true;
      }
      ScheduleJob(job, m, messageId);
    }

    /** A new record object for the envelope's job. */
    method CreateJob(m: TimerJobMessage<T>, now: DateTime) returns (job: TimerJob)
      ensures fresh(job)
      ensures job.Row() == CreatedRecord(m, now)
    {
      job := new TimerJob();
      job.SetServiceName(m.serviceName);
      job.SetTimerJobId(m.timerJobId);
      job.createdOn := now;
      job.isDelivered := false;
      job.lastAppearedOnInUTC := MinValue;
    }

    /** The writes shared by new and existing records. */
    method ScheduleJob(job: TimerJob, m: TimerJobMessage<T>, messageId: string)
      modifies job
      ensures job.Row() == old(job.Row()).(brokeredMessageId := Some(messageId), isActive := true,
        recurrenceType := m.recurrenceType, scheduledAppearanceOnInUTC := m.scheduledAppearanceOnInUTC)
    {
      job.brokeredMessageId := Some(messageId);
      job.isActive := true;
      job.recurrenceType := m.recurrenceType;
      job.scheduledAppearanceOnInUTC := m.scheduledAppearanceOnInUTC;
    }

    /** `now` is the time of the receive; `fails` stands for an exception of the
        queue client. */
    method RetrieveBrokeredMessage(now: DateTime, fails: bool) returns (r: Option<BrokeredMessage<T>>)
      requires Valid()
      modifies this
      ensures Valid()
      ensures (queue, r) == RetrieveResult(old(queue), now, fails)
    {
      var (after, received) := ReceiveResult(queue, now, fails);
      queue := after;
      if received.Failure? {
        return None;
      }
      r := received.value;
    }

    method DeleteBrokeredMessage(m: BrokeredMessage<T>, fails: bool) returns (ok: bool)
      requires Valid()
      modifies this
      ensures Valid()
      ensures (queue, ok) == DeleteMessageResult(old(queue), m, fails)
    {
      var (after, outcome) := CompleteResult(queue, m, fails);
      queue := after;
      ok := outcome.Pass?;
    }

    method ReleaseBrokeredMessage(m: BrokeredMessage<T>, fails: bool) returns (ok: bool)
      requires Valid()
      modifies this
      ensures Valid()
      ensures (queue, ok) == ReleaseResult(old(queue), m, fails)
    {
      var (after, outcome) := AbandonResult(queue, m, fails);
      queue := after;
      ok := outcome.Pass?;
    }

    method VerifyJob(msg: Option<TimerJobMessage<T>>, fault: Fault) returns (r: Result<bool, StoreError>)
      ensures r == VerifyResult(store.rows, msg, fault)
    {
      if msg.None? {
        return Success(false);
      }
      var got := store.Get(msg.value.serviceName, msg.value.timerJobId, fault);
      if got.Failure? {
        return Failure(got.error);
      }
      if got.value == null {
        return Success(false);
      }
      r := Success(got.value.isActive);
    }

    method CancelTimerJob(serviceName: NullableString, timerJobId: NullableString, fault: Fault) returns (ok: bool)
      requires Valid()
      modifies store
      ensures Valid()
      ensures (store.rows, ok) == CancelResult(old(store.rows), serviceName, timerJobId, fault)
    {
      var got := store.Get(serviceName, timerJobId, fault);
      if got.Failure? || got.value == null {
        return false;
      }
      var job := got.value;
      Deactivate(job);
      CancelKeepsKeys(store.rows, serviceName, timerJobId, fault);
      var outcome := store.Update(job.partitionKey, job.rowKey, job, fault);
      ok := outcome.Pass?;
    }

    /** The optional `comments` and `lastAppearedOn` of the source are passed
        as "" and `DateTime.MinValue` when left out. */
    method MarkTimerJobProcessStatus(serviceName: NullableString, timerJobId: NullableString, isDelivered: bool,
                                     isProcessed: bool, comments: string, lastAppearedOn: DateTime, fault: Fault)
      returns (ok: bool)
      requires Valid()
      modifies store
      ensures Valid()
      ensures (store.rows, ok) ==
        MarkResult(old(store.rows), serviceName, timerJobId, isDelivered, isProcessed, comments, lastAppearedOn, fault)
    {
      var got := store.Get(serviceName, timerJobId, fault);
      if got.Failure? || got.value == null {
        return false;
      }
      var job := got.value;
      MarkJob(job, isDelivered, isProcessed, comments, lastAppearedOn);
      MarkKeepsKeys(store.rows, serviceName, timerJobId, isDelivered, isProcessed, comments, lastAppearedOn, fault);
      var outcome := store.Update(job.partitionKey, job.rowKey, job, fault);
      ok := outcome.Pass?;
    }

    /** The property writes `MarkTimerJobProcessStatus` makes on the record object. */
    method Deactivate(job: TimerJob)
      modifies job
      ensures job.Row() == old(job.Row()).(isActive := false)
    {
      job.isActive := false;
    }

    method MarkJob(job: TimerJob, isDelivered: bool, isProcessed: bool, comments: string, lastAppearedOn: DateTime)
      modifies job
      ensures job.Row() == MarkedRecord(old(job.Row()), isDelivered, isProcessed, comments, lastAppearedOn)
    {
      job.isDelivered := isDelivered;
      job.isProcessed := isProcessed;
      if comments != "" {
        job.jobComments := Some(TextOf(job.jobComments) + comments + NewLine);
      }
      if lastAppearedOn != MinValue {
        job.lastAppearedOnInUTC := lastAppearedOn;
      }
    }

    method RetrieveTimerJobDetails(serviceName: NullableString, timerJobId: NullableString, fault: Fault)
      returns (r: TimerJob?)
      ensures r != null ==> fresh(r)
      ensures RowOf(r) == DetailsResult(store.rows, serviceName, timerJobId, fault)
    {
      var got := store.Get(serviceName, timerJobId, fault);
      if got.Failure? {
        return null;
      }
      r := got.value;
    }

    method RetrieveAllTimerJobs(serviceName: NullableString, fault: Fault) returns (r: Option<seq<TimerJobRow>>)
      ensures r == AllJobsResult(store.rows, serviceName, fault)
    {
      var list := store.GetList(serviceName, fault);
      if list.Failure? {
        return None;
      }
      r := Some(list.value);
    }
  }
}
