/** `TimerJobService<T>`: the public face of the scheduler. It creates jobs
    (an envelope on the delay queue plus a record in the table), cancels
    them, reports on them, and runs the timer loop that receives due
    envelopes, discards inactive or expired ones, schedules the next
    occurrence of recurring ones (up to three attempts) and hands the payload
    to the subclass's callback. */
module TimerJobService {
  import opened Wrappers
  import opened Calendar
  import opened Entity
  import opened TableStorage
  import opened DelayQueue
  import opened TimerJobManager

  /** The contents of the two stores the service works on. */
  datatype System<T> = System(queue: QueueState<T>, rows: Rows)

  /** The invariant every operation keeps. */
  predicate Consistent<T>(s: System<T>) {
    Ordered(s.queue) && WellStored(s.rows) && RecordsKeyed(s.rows)
  }

  /** The pause before each receive, in milliseconds. */
  function SleepInterval(timerServiceSleepTime: int): (ms: int)
    ensures ms > 0
    ensures timerServiceSleepTime > 0 ==> ms == timerServiceSleepTime
    ensures timerServiceSleepTime <= 0 ==> ms == 10000
  {
    if timerServiceSleepTime <= 0 then 10000 else timerServiceSleepTime
  }

  // ---------------------------------------------------------------------------
  // Creating a job

  /** What the runtime supplies to one `CreateTimerJob` call: the clock, the
      two `Guid.NewGuid()` values it may draw, whether the send fails, and
      how the table treats the insert of the record. */
  datatype CreateInputs =
    CreateInputs(now: DateTime, freshJobId: GuidString, messageId: GuidString, sendFails: bool, storeFault: Fault)

  const CustomObjectNullReply: string := "Custom object can't be null."

  /** The job id the call uses: the one given, or a fresh one. */
  function JobIdOf(timerJobId: NullableString, env: CreateInputs): (id: string)
    ensures id != ""
    ensures !IsNullOrEmpty(timerJobId) ==> id == timerJobId.value
  {
    if IsNullOrEmpty(timerJobId) then env.freshJobId else timerJobId.value
  }

  /** The envelope of a new job; a default expiry means "never". */
  function EnvelopeOf<T>(serviceName: NullableString, customObject: Option<T>, scheduledAppearanceOnInUTC: DateTime,
                         recurrenceType: int, expiresOn: DateTime, timerJobId: string): TimerJobMessage<T>
  {
    TimerJobMessage(serviceName, Some(timerJobId), customObject, scheduledAppearanceOnInUTC, recurrenceType,
                    if expiresOn == MinValue then MaxValue else expiresOn)
  }

  /** The private `CreateTimerJob`: the new state and the reply. */
  function CreateResult<T>(s: System<T>, serviceName: NullableString, customObject: Option<T>,
                           scheduledAppearanceOnInUTC: DateTime, recurrenceType: int, expiresOn: DateTime,
                           timerJobId: NullableString, env: CreateInputs): (r: (System<T>, string))
    ensures customObject.None? ==> r == (s, CustomObjectNullReply)
    ensures customObject.Some? && expiresOn != MinValue && expiresOn <= env.now ==> r == (s, "")
    ensures customObject.Some? ==> r.1 == "" || r.1 == JobIdOf(timerJobId, env)
  {
    if customObject.None? then (s, CustomObjectNullReply)
    else
      var id := JobIdOf(timerJobId, env);
      if expiresOn != MinValue && expiresOn <= env.now then (s, "")
      else
        var msg := EnvelopeOf(serviceName, customObject, scheduledAppearanceOnInUTC, recurrenceType, expiresOn, id);
        var (queue, messageId) := EnqueueResult(s.queue, Some(msg), env.messageId, env.sendFails);
        if messageId == "" then (System(queue, s.rows), "")
        else
          var (rows, ok) := InsertEntityResult(s.rows, Some(msg), messageId, env.now, env.storeFault);
          (System(queue, rows), if ok then id else "")
  }

  /** A create that is not rejected up front puts exactly one envelope on the
      queue, under the fresh message id and scheduled for the requested time,
      unless the send fails, and leaves it there whatever becomes of the
      record. It answers with the job id exactly when the service name is
      usable and no save of the table fails. The job is then recorded active
      under (service name, job id) when the table answers, and not recorded
      at all when the table's lookups fail; a create that answers empty
      leaves the table as it was. */
  lemma CreateEffect<T>(s: System<T>, serviceName: NullableString, customObject: T,
                        scheduledAppearanceOnInUTC: DateTime, recurrenceType: int, expiresOn: DateTime,
                        timerJobId: NullableString, env: CreateInputs)
    requires Consistent(s)
    requires expiresOn == MinValue || env.now < expiresOn
    ensures var (after, reply) := CreateResult(s, serviceName, Some(customObject), scheduledAppearanceOnInUTC,
                                               recurrenceType, expiresOn, timerJobId, env);
      var id := JobIdOf(timerJobId, env);
      && Consistent(after)
      && (env.sendFails ==> after == s && reply == "")
      && (!env.sendFails ==>
            && after.queue.messages == s.queue.messages + [BrokeredMessage(env.messageId, s.queue.nextSequenceNumber,
                 Serialized(EnvelopeOf(serviceName, Some(customObject), scheduledAppearanceOnInUTC, recurrenceType, expiresOn, id)),
                 scheduledAppearanceOnInUTC, MinValue)]
            && (reply == id <==> !IsNullOrEmpty(serviceName) && !env.storeFault.SaveFault?)
            && (reply != id || !env.storeFault.Answered? ==> after.rows == s.rows)
            && (reply == id && env.storeFault.Answered? ==> var k := (serviceName.value, id);
                  k in after.rows && after.rows[k].isActive && after.rows[k].brokeredMessageId == Some(env.messageId)))
  {
    var id := JobIdOf(timerJobId, env);
    var msg := EnvelopeOf(serviceName, Some(customObject), scheduledAppearanceOnInUTC, recurrenceType, expiresOn, id);
    if !env.sendFails {
      InsertEntityStores(s.rows, msg, env.messageId, env.now, env.storeFault);
      InsertEntityKeepsKeys(s.rows, Some(msg), env.messageId, env.now, env.storeFault);
      if !IsNullOrEmpty(serviceName) && env.storeFault.Answered? {
        InsertedRecord(s.rows, msg, env.messageId, env.now);
      }
    }
  }

  // ---------------------------------------------------------------------------
  // The next occurrence

  /** `NextAppearanceOn`: one day, one week or one calendar month after the
      scheduled time for the recurring kinds, and `DateTime.MinValue` for any
      other kind. `None` stands for the exception raised when the date would
      pass `DateTime.MaxValue`. */
  function NextAppearanceOn<T>(msg: TimerJobMessage<T>): Option<DateTime> {
    var t := msg.scheduledAppearanceOnInUTC;
    if msg.recurrenceType == Daily then AddDays(t, 1)
    else if msg.recurrenceType == Weekly then AddDays(t, 7)
    else if msg.recurrenceType == Monthly then AddMonths(t, 1)
    else Some(MinValue)
  }

  predicate Recurring(recurrenceType: int) {
    recurrenceType == Daily || recurrenceType == Weekly || recurrenceType == Monthly
  }

  /** The next occurrence of a recurring job lies strictly after the current
      one and at the same time of day; a non-recurring kind yields the
      default date, which the loop treats as "no next occurrence". */
  lemma NextAppearanceIsLater<T>(msg: TimerJobMessage<T>)
    ensures !Recurring(msg.recurrenceType) ==> NextAppearanceOn(msg) == Some(MinValue)
    ensures Recurring(msg.recurrenceType) && NextAppearanceOn(msg).Some? ==>
      msg.scheduledAppearanceOnInUTC < NextAppearanceOn(msg).value &&
      TimeOfDay(NextAppearanceOn(msg).value) == TimeOfDay(msg.scheduledAppearanceOnInUTC)
  {
    if msg.recurrenceType == Monthly {
      AddOneMonth(msg.scheduledAppearanceOnInUTC);
    }
  }

  /** Daily and weekly jobs advance by exactly 1 and 7 calendar days; monthly
      jobs move to the next month, the day clamped to its length. The step
      fails only past the end of year 9999. */
  lemma NextAppearanceSteps<T>(msg: TimerJobMessage<T>)
    ensures var t := msg.scheduledAppearanceOnInUTC; var next := NextAppearanceOn(msg);
      && (msg.recurrenceType == Daily ==>
            (next.Some? <==> t + TicksPerDay <= MaxTicks) &&
            (next.Some? ==> DayNumber(DatePart(next.value)) == DayNumber(DatePart(t)) + 1))
      && (msg.recurrenceType == Weekly ==>
            (next.Some? <==> t + 7 * TicksPerDay <= MaxTicks) &&
            (next.Some? ==> DayNumber(DatePart(next.value)) == DayNumber(DatePart(t)) + 7))
      && (msg.recurrenceType == Monthly ==>
            var d := DatePart(t); var (y, m) := NextMonth(d);
            (next.Some? <==> y <= 9999) &&
            (next.Some? ==> DatePart(next.value) == Date(y, m, Min(d.day, DaysInMonth(y, m)))))
  {
    if msg.recurrenceType == Monthly {
      AddOneMonth(msg.scheduledAppearanceOnInUTC);
    }
  }

  /** A monthly job on the last day of January 2024 next runs on the last
      day of February, the 29th of that leap year. */
  lemma MonthlyJobClampsToMonthEnd<T>(msg: TimerJobMessage<T>)
    requires msg.recurrenceType == Monthly && DatePart(msg.scheduledAppearanceOnInUTC) == Date(2024, 1, 31)
    ensures NextAppearanceOn(msg).Some?
    ensures DatePart(NextAppearanceOn(msg).value) == Date(2024, 2, 29)
  {
    NextAppearanceSteps(msg);
  }

  // ---------------------------------------------------------------------------
  // Rescheduling

  /** The inputs of the up-to-three scheduling attempts. */
  datatype Attempts = Attempts(first: CreateInputs, second: CreateInputs, third: CreateInputs)

  /** The inputs of the attempt made while `left` attempts remain (3, 2, 1). */
  function AttemptFor(at: Attempts, left: int): CreateInputs {
    if left == 3 then at.first else if left == 2 then at.second else at.third
  }

  const NotScheduledComment: string := "Next Timer could not be scheduled."

  function ScheduledComment(next: DateTime): string {
    "Next Timer scheduled on " + FormatDateTime(next) + "."
  }

  /** The `for (int i = 3; ; )` loop: `CreateTimerJob` for the next
      occurrence, retried while it answers empty, up to `left` more times.
      The result tells how many attempts were made and whether one succeeded. */
  function Attempt<T>(s: System<T>, msg: TimerJobMessage<T>, next: DateTime, at: Attempts, left: int)
    : (r: (System<T>, nat, bool))
    requires 1 <= left <= 3
    ensures 1 <= r.1 <= left
    ensures !r.2 ==> r.1 == left
    decreases left
  {
    var (s1, id) := CreateResult(s, msg.serviceName, msg.customObject, next, msg.recurrenceType, msg.expiresOn,
                                 msg.timerJobId, AttemptFor(at, left));
    if id == "" then
      if left - 1 > 0 then
        var (s2, n, ok) := Attempt(s1, msg, next, at, left - 1);
        (s2, n + 1, ok)
      else (s1, 1, false)
    else (s1, 1, true)
  }

  /** The scheduling loop followed by its one status comment, written while
      the table behaves as `commentFault` says. */
  function RescheduleResult<T>(s: System<T>, msg: TimerJobMessage<T>, next: DateTime, at: Attempts, commentFault: Fault)
    : (r: (System<T>, bool))
  {
    var (s1, _, ok) := Attempt(s, msg, next, at, 3);
    var comment := if ok then ScheduledComment(next) else NotScheduledComment;
    var (rows, _) := MarkResult(s1.rows, msg.serviceName, msg.timerJobId, true, false, comment, MinValue, commentFault);
    (System(s1.queue, rows), ok)
  }

  /** A retry happens only after a failed attempt: the attempts stop at the
      first success, and there are never more than three. */
  lemma {:induction false} AttemptsStopAtSuccess<T>(s: System<T>, msg: TimerJobMessage<T>, next: DateTime, at: Attempts, left: int)
    requires 1 <= left <= 3
    requires CreateResult(s, msg.serviceName, msg.customObject, next, msg.recurrenceType, msg.expiresOn,
                          msg.timerJobId, AttemptFor(at, left)).1 != ""
    ensures Attempt(s, msg, next, at, left) ==
      (CreateResult(s, msg.serviceName, msg.customObject, next, msg.recurrenceType, msg.expiresOn,
                    msg.timerJobId, AttemptFor(at, left)).0, 1, true)
  {
  }

  /** When the first two sends fail and the third goes through, the third
      attempt is made, the first two left the stores as they were, and the
      next occurrence counts as scheduled unless the third attempt's table
      save fails. */
  lemma ThirdAttemptSucceeds<T>(s: System<T>, msg: TimerJobMessage<T>, next: DateTime, at: Attempts)
    requires Consistent(s)
    requires msg.customObject.Some? && !IsNullOrEmpty(msg.serviceName) && !IsNullOrEmpty(msg.timerJobId)
    requires at.first.now < msg.expiresOn && at.second.now < msg.expiresOn && at.third.now < msg.expiresOn
    requires at.first.sendFails && at.second.sendFails && !at.third.sendFails
    ensures var (after, n, ok) := Attempt(s, msg, next, at, 3);
      && n == 3 && (ok <==> !at.third.storeFault.SaveFault?)
      && after == CreateResult(s, msg.serviceName, msg.customObject, next, msg.recurrenceType, msg.expiresOn,
                               msg.timerJobId, at.third).0
  {
    var obj := msg.customObject.value;
    CreateEffect(s, msg.serviceName, obj, next, msg.recurrenceType, msg.expiresOn, msg.timerJobId, at.first);
    CreateEffect(s, msg.serviceName, obj, next, msg.recurrenceType, msg.expiresOn, msg.timerJobId, at.second);
    CreateEffect(s, msg.serviceName, obj, next, msg.recurrenceType, msg.expiresOn, msg.timerJobId, at.third);
    assert msg.expiresOn != MinValue;
    assert JobIdOf(msg.timerJobId, at.third) == msg.timerJobId.value;
  }

  /** An attempt whose send goes through but whose table save fails still
      leaves its envelope on the queue. When all three attempts fail that
      way, the job counts as not rescheduled, the table is as it was, and
      three new envelopes for it wait on the queue. */
  lemma FailedSavesLeaveEnvelopes<T>(s: System<T>, msg: TimerJobMessage<T>, next: DateTime, at: Attempts)
    requires Consistent(s)
    requires msg.customObject.Some? && !IsNullOrEmpty(msg.serviceName) && !IsNullOrEmpty(msg.timerJobId)
    requires at.first.now < msg.expiresOn && at.second.now < msg.expiresOn && at.third.now < msg.expiresOn
    requires !at.first.sendFails && !at.second.sendFails && !at.third.sendFails
    requires at.first.storeFault.SaveFault? && at.second.storeFault.SaveFault? && at.third.storeFault.SaveFault?
    ensures var (after, n, ok) := Attempt(s, msg, next, at, 3);
      && n == 3 && !ok
      && after.rows == s.rows
      && |after.queue.messages| == |s.queue.messages| + 3
  {
    var obj := msg.customObject.value;
    assert msg.expiresOn != MinValue;
    var (s1, id1) := CreateResult(s, msg.serviceName, msg.customObject, next, msg.recurrenceType, msg.expiresOn,
                                  msg.timerJobId, at.first);
    CreateEffect(s, msg.serviceName, obj, next, msg.recurrenceType, msg.expiresOn, msg.timerJobId, at.first);
    var (s2, id2) := CreateResult(s1, msg.serviceName, msg.customObject, next, msg.recurrenceType, msg.expiresOn,
                                  msg.timerJobId, at.second);
    CreateEffect(s1, msg.serviceName, obj, next, msg.recurrenceType, msg.expiresOn, msg.timerJobId, at.second);
    var (s3, id3) := CreateResult(s2, msg.serviceName, msg.customObject, next, msg.recurrenceType, msg.expiresOn,
                                  msg.timerJobId, at.third);
    CreateEffect(s2, msg.serviceName, obj, next, msg.recurrenceType, msg.expiresOn, msg.timerJobId, at.third);
    assert id1 == "" && id2 == "" && id3 == "";
    assert Attempt(s2, msg, next, at, 1) == (s3, 1, false);
    assert Attempt(s1, msg, next, at, 2) == (s3, 2, false);
  }

  // ---------------------------------------------------------------------------
  // One iteration of the timer loop

  /** How the subclass's `ProcessTimerJob` callback ended. */
  datatype CallbackResult = Returned(result: bool) | Threw

  /** What the runtime supplies to one iteration: the clock at the receive,
      at the expiry check and at the final status; the faults of the queue;
      how the table treats `VerifyJob`, the scheduling comment and the final
      (or discard) status; the inputs of the scheduling attempts; and the
      callback's outcome. */
  datatype StepInputs = StepInputs(
    receivedAt: DateTime,
    receiveFails: bool,
    checkedAt: DateTime,
    verifyFault: Fault,
    completeFails: bool,
    attempts: Attempts,
    commentFault: Fault,
    callback: CallbackResult,
    processedAt: DateTime,
    statusFault: Fault)

  /** What became of the next occurrence of a processed job. */
  datatype Rescheduling =
    | NotRecurring   // a one-time job
    | NoNextRun      // the next occurrence is not before the expiry, or the kind is unknown
    | Scheduled      // an attempt succeeded
    | NotScheduled   // all three attempts failed

  datatype StepOutcome =
    | Idle                                            // nothing received
    | Skipped                                         // a body of another type; the message stays locked
    | Discarded                                       // expired or not active: completed and marked
    | NullPayload                                     // active but without payload; the message stays locked
    | Processed(rescheduling: Rescheduling, processed: bool)
    | LoopStopped                                     // an exception reached the loop's handler

  const DiscardComment: string := "Either the task is not active or has reached/exceeded EOT"

  function ProcessedComment(processedAt: DateTime, isProcessed: bool): string {
    "Timer Job processed on " + FormatDateTime(processedAt) + " with result as "
      + (if isProcessed then "True" else "False") + "."
  }

  function ProcessedFlag(callback: CallbackResult): bool {
    if callback.Returned? then callback.result else false
  }

  /** The `else` branch: the message is completed and the job marked as not
      delivered. */
  function DiscardResult<T>(s: System<T>, bm: BrokeredMessage<T>, msg: TimerJobMessage<T>, inp: StepInputs): System<T> {
    var (queue, _) := DeleteMessageResult(s.queue, bm, inp.completeFails);
    var (rows, _) := MarkResult(s.rows, msg.serviceName, msg.timerJobId, false, false, DiscardComment, inp.receivedAt,
                                inp.statusFault);
    System(queue, rows)
  }

  /** The callback and the final status comment. */
  function FinishResult<T>(s: System<T>, msg: TimerJobMessage<T>, inp: StepInputs): System<T> {
    var isProcessed := ProcessedFlag(inp.callback);
    var (rows, _) := MarkResult(s.rows, msg.serviceName, msg.timerJobId, true, isProcessed,
                                ProcessedComment(inp.processedAt, isProcessed), inp.receivedAt, inp.statusFault);
    System(s.queue, rows)
  }

  /** An active job with a payload: complete the message, schedule the next
      occurrence when the job recurs, then run the callback and record it. */
  function DeliverResult<T>(s: System<T>, bm: BrokeredMessage<T>, msg: TimerJobMessage<T>, inp: StepInputs)
    : (System<T>, StepOutcome)
  {
    var (queue, _) := DeleteMessageResult(s.queue, bm, inp.completeFails);
    var s1 := System(queue, s.rows);
    if msg.recurrenceType == OneTime then
      (FinishResult(s1, msg, inp), Processed(NotRecurring, ProcessedFlag(inp.callback)))
    else
      match NextAppearanceOn(msg)
      case None => (s1, LoopStopped)
      case Some(next) =>
        if next < msg.expiresOn && next != MinValue then
          var (s2, ok) := RescheduleResult(s1, msg, next, inp.attempts, inp.commentFault);
          (FinishResult(s2, msg, inp), Processed(if ok then Scheduled else NotScheduled, ProcessedFlag(inp.callback)))
        else
          (FinishResult(s1, msg, inp), Processed(NoNextRun, ProcessedFlag(inp.callback)))
  }

  /** One pass of the `while` body of `TimerJob`. */
  function DispatchResult<T>(s: System<T>, inp: StepInputs): (System<T>, StepOutcome) {
    var (queue, received) := RetrieveResult(s.queue, inp.receivedAt, inp.receiveFails);
    var s1 := System(queue, s.rows);
    if received.None? then (s1, Idle)
    else
      var bm := received.value;
      match bm.body
      case Corrupt => (s1, LoopStopped)
      case ForeignObject => (s1, Skipped)
      case Serialized(msg) =>
        if !(inp.checkedAt < msg.expiresOn) then (DiscardResult(s1, bm, msg, inp), Discarded)
        else
          match VerifyResult(s1.rows, Some(msg), inp.verifyFault)
          case Failure(_) => (s1, LoopStopped)
          case Success(active) =>
            if !active then (DiscardResult(s1, bm, msg, inp), Discarded)
            else if msg.customObject.None? then (s1, NullPayload)
            else DeliverResult(s1, bm, msg, inp)
  }

  /** The loop's iterations until the script of inputs runs out or an
      exception stops it; the flag tells whether it stopped. */
  function Run<T>(s: System<T>, script: seq<StepInputs>): (System<T>, bool)
    decreases |script|
  {
    if script == [] then (s, false)
    else
      var (s1, o) := DispatchResult(s, script[0]);
      if o.LoopStopped? then (s1, true) else Run(s1, script[1..])
  }

  /** One iteration of `Run` over the suffix from `k`. */
  lemma RunStep<T>(s: System<T>, script: seq<StepInputs>, k: nat)
    requires k < |script|
    ensures Run(s, script[k..]) ==
      var (s1, o) := DispatchResult(s, script[k]);
      if o.LoopStopped? then (s1, true) else Run(s1, script[k + 1..])
  {
    assert script[k..][0] == script[k] && script[k..][1..] == script[k + 1..];
  }

  // ---------------------------------------------------------------------------
  // Properties of an iteration

  /** Discarding completes the message, so it never comes back, and marks
      the job, when it is on record and the table answers, as neither
      delivered nor processed, with the receive time and the discard comment
      as its last line; otherwise the table is left as it was. */
  lemma DiscardRecords<T>(s: System<T>, bm: BrokeredMessage<T>, msg: TimerJobMessage<T>, inp: StepInputs)
    requires Consistent(s) && !inp.completeFails && bm in s.queue.messages
    ensures var k := JobKey(msg.serviceName, msg.timerJobId);
      var after := DiscardResult(s, bm, msg, inp);
      && Consistent(after)
      && (forall x | x in after.queue.messages :: x.sequenceNumber != bm.sequenceNumber)
      && (inp.statusFault.Answered? && k.Some? && k.value in s.rows ==>
            && k.value in after.rows
            && !after.rows[k.value].isDelivered && !after.rows[k.value].isProcessed
            && after.rows[k.value].isActive == s.rows[k.value].isActive
            && (inp.receivedAt != MinValue ==> after.rows[k.value].lastAppearedOnInUTC == inp.receivedAt)
            && after.rows[k.value].jobComments == Some(TextOf(s.rows[k.value].jobComments) + DiscardComment + NewLine))
      && (!inp.statusFault.Answered? || k.None? || k.value !in s.rows ==> after.rows == s.rows)
  {
    var i :| 0 <= i < |s.queue.messages| && s.queue.messages[i] == bm;
    assert PositionOf(s.queue.messages, bm.sequenceNumber) <= i;
    MarkEffect(s.rows, msg.serviceName, msg.timerJobId, false, false, DiscardComment, inp.receivedAt, inp.statusFault);
  }

  /** An envelope whose expiry has passed, or whose job is not on record, was
      cancelled, or cannot be looked up because the table fails, is removed
      from the queue for good, and the job's record, if any, is marked as
      discarded when the table answers; the payload is never handed to the
      callback. A failing lookup thus drops a live recurring job. */
  lemma ExpiredOrInactiveJobIsDiscarded<T>(s: System<T>, inp: StepInputs)
    requires Consistent(s) && !inp.receiveFails && !inp.completeFails
    requires var r := RetrieveResult(s.queue, inp.receivedAt, false).1;
      r.Some? && r.value.body.Serialized? &&
      var msg := r.value.body.message; var k := JobKey(msg.serviceName, msg.timerJobId);
      || msg.expiresOn <= inp.checkedAt
      || (k.Some? && (inp.verifyFault.QueryFault? || k.value !in s.rows || !s.rows[k.value].isActive))
    ensures var bm := RetrieveResult(s.queue, inp.receivedAt, false).1.value;
      var msg := bm.body.message; var k := JobKey(msg.serviceName, msg.timerJobId);
      var (after, o) := DispatchResult(s, inp);
      && o == Discarded
      && (forall x | x in after.queue.messages :: x.sequenceNumber != bm.sequenceNumber)
      && (inp.statusFault.Answered? && k.Some? && k.value in s.rows ==>
            && k.value in after.rows
            && !after.rows[k.value].isDelivered && !after.rows[k.value].isProcessed
            && after.rows[k.value].jobComments == Some(TextOf(s.rows[k.value].jobComments) + DiscardComment + NewLine))
      && (!inp.statusFault.Answered? || k.None? || k.value !in s.rows ==> after.rows == s.rows)
  {
    var (q, r) := RetrieveResult(s.queue, inp.receivedAt, false);
    var bm := r.value;
    var msg := bm.body.message;
    var s1 := System(q, s.rows);
    if inp.checkedAt < msg.expiresOn {
      assert VerifyResult(s1.rows, Some(msg), inp.verifyFault) == Success(false);
    }
    assert DispatchResult(s, inp) == (DiscardResult(s1, bm, msg, inp), Discarded);
    DiscardRecords(s1, bm, msg, inp);
  }

  /** An active job without payload is neither completed nor marked: the
      message stays on the queue under its lock and the table is unchanged. */
  lemma NullPayloadLeftLocked<T>(s: System<T>, inp: StepInputs)
    requires DispatchResult(s, inp).1 == NullPayload
    ensures var (q, r) := RetrieveResult(s.queue, inp.receivedAt, inp.receiveFails);
      && DispatchResult(s, inp).0 == System(q, s.rows)
      && r.Some? && r.value in q.messages && r.value.body.message.customObject.None?
  {
  }

  /** The next occurrence is scheduled exactly when the job recurs and its
      next occurrence is a real date before the expiry. */
  lemma DeliverReschedulesOnlyWhenDue<T>(s: System<T>, bm: BrokeredMessage<T>, msg: TimerJobMessage<T>, inp: StepInputs)
    requires DeliverResult(s, bm, msg, inp).1 .Processed?
    ensures var o := DeliverResult(s, bm, msg, inp).1;
      && (o.rescheduling == NotRecurring <==> msg.recurrenceType == OneTime)
      && (o.rescheduling in {Scheduled, NotScheduled} <==>
            && msg.recurrenceType != OneTime
            && NextAppearanceOn(msg).value != MinValue
            && NextAppearanceOn(msg).value < msg.expiresOn)
      && o.processed == ProcessedFlag(inp.callback)
  {
  }

  lemma ReschedulesOnlyWhenDue<T>(s: System<T>, inp: StepInputs)
    requires DispatchResult(s, inp).1 .Processed?
    ensures var msg := RetrieveResult(s.queue, inp.receivedAt, inp.receiveFails).1.value.body.message;
      var o := DispatchResult(s, inp).1;
      && (o.rescheduling == NotRecurring <==> msg.recurrenceType == OneTime)
      && (o.rescheduling in {Scheduled, NotScheduled} <==>
            && msg.recurrenceType != OneTime
            && NextAppearanceOn(msg).value != MinValue
            && NextAppearanceOn(msg).value < msg.expiresOn)
      && o.processed == ProcessedFlag(inp.callback)
  {
    var (q, r) := RetrieveResult(s.queue, inp.receivedAt, inp.receiveFails);
    var msg := r.value.body.message;
    assert DispatchResult(s, inp) == DeliverResult(System(q, s.rows), r.value, msg, inp);
    DeliverReschedulesOnlyWhenDue(System(q, s.rows), r.value, msg, inp);
  }

  /** The scheduling loop leaves exactly one comment on the job, saying
      whether the next occurrence was scheduled, and records the job as
      delivered but not yet processed; when the table fails that write, the
      record stays as the attempts left it. */
  lemma RescheduleWritesOneComment<T>(s: System<T>, msg: TimerJobMessage<T>, next: DateTime, at: Attempts,
                                      commentFault: Fault)
    requires Consistent(s)
    requires JobKey(msg.serviceName, msg.timerJobId).Some? && JobKey(msg.serviceName, msg.timerJobId).value in s.rows
    ensures var (mid, _, ok) := Attempt(s, msg, next, at, 3);
      var (after, scheduled) := RescheduleResult(s, msg, next, at, commentFault);
      var k := JobKey(msg.serviceName, msg.timerJobId).value;
      && scheduled == ok
      && after.queue == mid.queue
      && k in mid.rows && k in after.rows
      && (commentFault.Answered? ==>
            && after.rows[k].jobComments
               == Some(TextOf(mid.rows[k].jobComments) + (if ok then ScheduledComment(next) else NotScheduledComment) + NewLine)
            && after.rows[k].isDelivered && !after.rows[k].isProcessed)
      && (!commentFault.Answered? ==> after.rows == mid.rows)
  {
    AttemptKeepsJob(s, msg, next, at, 3);
    var (mid, _, ok) := Attempt(s, msg, next, at, 3);
    var comment := if ok then ScheduledComment(next) else NotScheduledComment;
    MarkEffect(mid.rows, msg.serviceName, msg.timerJobId, true, false, comment, MinValue, commentFault);
  }

  /** The reschedule comes before the callback: how the callback ends has no
      bearing on whether the next occurrence is scheduled or on the queue. */
  lemma DeliverIgnoresCallback<T>(s: System<T>, bm: BrokeredMessage<T>, msg: TimerJobMessage<T>, inp: StepInputs,
                                  callback: CallbackResult)
    ensures var (a, oa) := DeliverResult(s, bm, msg, inp);
      var (b, ob) := DeliverResult(s, bm, msg, inp.(callback := callback));
      && a.queue == b.queue
      && oa.Processed? == ob.Processed?
      && (oa.Processed? ==> oa.rescheduling == ob.rescheduling)
  {
  }

  lemma ReschedulingIgnoresCallback<T>(s: System<T>, inp: StepInputs, callback: CallbackResult)
    ensures var (a, oa) := DispatchResult(s, inp);
      var (b, ob) := DispatchResult(s, inp.(callback := callback));
      && a.queue == b.queue
      && oa.Processed? == ob.Processed?
      && (oa.Processed? ==> oa.rescheduling == ob.rescheduling)
  {
    var (q, r) := RetrieveResult(s.queue, inp.receivedAt, inp.receiveFails);
    var other := inp.(callback := callback);
    assert RetrieveResult(s.queue, other.receivedAt, other.receiveFails) == (q, r);
    if r.Some? && r.value.body.Serialized? {
      DeliverIgnoresCallback(System(q, s.rows), r.value, r.value.body.message, inp, callback);
    }
  }

  /** A delivered one-time job leaves nothing of itself on the queue: the
      received message is completed and no new one is sent. */
  lemma OneTimeJobNotRescheduled<T>(s: System<T>, inp: StepInputs)
    requires Consistent(s) && !inp.completeFails
    requires DispatchResult(s, inp).1 .Processed?
    requires var r := RetrieveResult(s.queue, inp.receivedAt, inp.receiveFails).1;
      r.Some? && r.value.body.Serialized? && r.value.body.message.recurrenceType == OneTime
    ensures DispatchResult(s, inp).1 == Processed(NotRecurring, ProcessedFlag(inp.callback))
    ensures |DispatchResult(s, inp).0.queue.messages| == |s.queue.messages| - 1
  {
    var (q, r) := RetrieveResult(s.queue, inp.receivedAt, inp.receiveFails);
    DeliverOneTime(System(q, s.rows), r.value, r.value.body.message, inp);
  }

  lemma DeliverOneTime<T>(s: System<T>, bm: BrokeredMessage<T>, msg: TimerJobMessage<T>, inp: StepInputs)
    requires Ordered(s.queue) && bm in s.queue.messages && !inp.completeFails && msg.recurrenceType == OneTime
    ensures DeliverResult(s, bm, msg, inp).1 == Processed(NotRecurring, ProcessedFlag(inp.callback))
    ensures |DeliverResult(s, bm, msg, inp).0.queue.messages| == |s.queue.messages| - 1
  {
    var i :| 0 <= i < |s.queue.messages| && s.queue.messages[i] == bm;
    assert PositionOf(s.queue.messages, bm.sequenceNumber) <= i;
  }

  /** The job's record after the final status: delivered, with the
      callback's result, the receive time and the processing comment last. */
  predicate RecordedAsProcessed(rows: Rows, k: Key, inp: StepInputs) {
    && k in rows
    && rows[k].isDelivered
    && rows[k].isProcessed == ProcessedFlag(inp.callback)
    && rows[k].lastAppearedOnInUTC == inp.receivedAt
    && var text := TextOf(rows[k].jobComments);
       var tail := ProcessedComment(inp.processedAt, ProcessedFlag(inp.callback)) + NewLine;
       |tail| <= |text| && text[|text| - |tail|..] == tail
  }

  /** The final status marks the job as processed when the table answers,
      and leaves the table as it was when it fails. */
  lemma FinishRecords<T>(s: System<T>, msg: TimerJobMessage<T>, inp: StepInputs)
    requires Consistent(s) && inp.receivedAt != MinValue
    requires JobKey(msg.serviceName, msg.timerJobId).Some? && JobKey(msg.serviceName, msg.timerJobId).value in s.rows
    ensures Consistent(FinishResult(s, msg, inp))
    ensures inp.statusFault.Answered? ==>
      RecordedAsProcessed(FinishResult(s, msg, inp).rows, JobKey(msg.serviceName, msg.timerJobId).value, inp)
    ensures !inp.statusFault.Answered? ==> FinishResult(s, msg, inp).rows == s.rows
  {
    var isProcessed := ProcessedFlag(inp.callback);
    MarkEffect(s.rows, msg.serviceName, msg.timerJobId, true, isProcessed,
               ProcessedComment(inp.processedAt, isProcessed), inp.receivedAt, inp.statusFault);
  }

  lemma DeliverRecords<T>(s: System<T>, bm: BrokeredMessage<T>, msg: TimerJobMessage<T>, inp: StepInputs)
    requires Consistent(s) && inp.receivedAt != MinValue
    requires JobKey(msg.serviceName, msg.timerJobId).Some? && JobKey(msg.serviceName, msg.timerJobId).value in s.rows
    requires DeliverResult(s, bm, msg, inp).1 .Processed?
    ensures inp.statusFault.Answered? ==>
      RecordedAsProcessed(DeliverResult(s, bm, msg, inp).0.rows, JobKey(msg.serviceName, msg.timerJobId).value, inp)
  {
    var (q, _) := DeleteMessageResult(s.queue, bm, inp.completeFails);
    var s1 := System(q, s.rows);
    RescheduleKeepsJob(s1, msg, inp);
    if msg.recurrenceType != OneTime && NextAppearanceOn(msg).value < msg.expiresOn
       && NextAppearanceOn(msg).value != MinValue {
      FinishRecords(RescheduleResult(s1, msg, NextAppearanceOn(msg).value, inp.attempts, inp.commentFault).0, msg, inp);
    } else {
      FinishRecords(s1, msg, inp);
    }
  }

  /** A delivered job's record ends the iteration delivered, with the
      callback's result as its processed flag, the receive time as its last
      appearance, and the processing comment as its last line, provided the
      table answers the final status. */
  lemma ProcessedJobRecorded<T>(s: System<T>, inp: StepInputs)
    requires Consistent(s)
    requires inp.receivedAt != MinValue
    requires DispatchResult(s, inp).1 .Processed?
    ensures var msg := RetrieveResult(s.queue, inp.receivedAt, inp.receiveFails).1.value.body.message;
      inp.statusFault.Answered? ==>
      RecordedAsProcessed(DispatchResult(s, inp).0.rows, JobKey(msg.serviceName, msg.timerJobId).value, inp)
  {
    var (q, r) := RetrieveResult(s.queue, inp.receivedAt, inp.receiveFails);
    var msg := r.value.body.message;
    DeliverRecords(System(q, s.rows), r.value, msg, inp);
  }

  /** The scheduling step keeps the stores consistent and the job on record. */
  lemma RescheduleKeepsJob<T>(s: System<T>, msg: TimerJobMessage<T>, inp: StepInputs)
    requires Consistent(s)
    requires JobKey(msg.serviceName, msg.timerJobId).Some? && JobKey(msg.serviceName, msg.timerJobId).value in s.rows
    ensures msg.recurrenceType != OneTime && NextAppearanceOn(msg).Some? ==>
      var after := RescheduleResult(s, msg, NextAppearanceOn(msg).value, inp.attempts, inp.commentFault).0;
      Consistent(after) && JobKey(msg.serviceName, msg.timerJobId).value in after.rows
  {
    if msg.recurrenceType != OneTime && NextAppearanceOn(msg).Some? {
      var next := NextAppearanceOn(msg).value;
      AttemptKeepsJob(s, msg, next, inp.attempts, 3);
      var (s1, _, ok) := Attempt(s, msg, next, inp.attempts, 3);
      var comment := if ok then ScheduledComment(next) else NotScheduledComment;
      MarkEffect(s1.rows, msg.serviceName, msg.timerJobId, true, false, comment, MinValue, inp.commentFault);
    }
  }

  lemma {:induction false} AttemptKeepsJob<T>(s: System<T>, msg: TimerJobMessage<T>, next: DateTime, at: Attempts, left: int)
    requires Consistent(s) && 1 <= left <= 3
    requires JobKey(msg.serviceName, msg.timerJobId).Some? && JobKey(msg.serviceName, msg.timerJobId).value in s.rows
    ensures var after := Attempt(s, msg, next, at, left).0;
      Consistent(after) && JobKey(msg.serviceName, msg.timerJobId).value in after.rows
    decreases left
  {
    var env := AttemptFor(at, left);
    var (s1, id) := CreateResult(s, msg.serviceName, msg.customObject, next, msg.recurrenceType, msg.expiresOn,
                                 msg.timerJobId, env);
    CreateKeepsJob(s, msg, next, env);
    if id == "" && left - 1 > 0 {
      AttemptKeepsJob(s1, msg, next, at, left - 1);
    }
  }

  /** A create for an existing job keeps the stores consistent and the job on record. */
  lemma CreateKeepsJob<T>(s: System<T>, msg: TimerJobMessage<T>, next: DateTime, env: CreateInputs)
    requires Consistent(s)
    requires JobKey(msg.serviceName, msg.timerJobId).Some? && JobKey(msg.serviceName, msg.timerJobId).value in s.rows
    ensures var after := CreateResult(s, msg.serviceName, msg.customObject, next, msg.recurrenceType, msg.expiresOn,
                                      msg.timerJobId, env).0;
      Consistent(after) && JobKey(msg.serviceName, msg.timerJobId).value in after.rows
  {
    if msg.customObject.Some? && !(msg.expiresOn != MinValue && msg.expiresOn <= env.now) && !env.sendFails {
      CreateEffect(s, msg.serviceName, msg.customObject.value, next, msg.recurrenceType, msg.expiresOn, msg.timerJobId, env);
    }
  }

  /** A create whose job has no usable service name fails, yet leaves its
      envelope on the queue; when that envelope comes due and has not expired,
      `VerifyJob` raises and the whole timer loop stops. */
  lemma NamelessJobStopsLoop<T>(s: System<T>, customObject: T, scheduledAppearanceOnInUTC: DateTime,
                                recurrenceType: int, env: CreateInputs, inp: StepInputs)
    requires Consistent(s)
    requires s.queue.messages == []
    requires !env.sendFails
    requires !inp.receiveFails && scheduledAppearanceOnInUTC <= inp.receivedAt && inp.checkedAt < MaxValue
    ensures var (s1, reply) := CreateResult(s, Some(""), Some(customObject), scheduledAppearanceOnInUTC,
                                            recurrenceType, MinValue, Some(""), env);
      && reply == ""
      && |s1.queue.messages| == 1
      && DispatchResult(s1, inp).1 == LoopStopped
  {
    var (s1, reply) := CreateResult(s, Some(""), Some(customObject), scheduledAppearanceOnInUTC,
                                    recurrenceType, MinValue, Some(""), env);
    CreateEffect(s, Some(""), customObject, scheduledAppearanceOnInUTC, recurrenceType, MinValue, Some(""), env);
    assert Deliverable(s1.queue.messages[0], inp.receivedAt);
    assert FirstDeliverable(s1.queue.messages, inp.receivedAt) == 0;
  }

  /** A create whose table lookups fail answers with the job id, yet records
      nothing. When its envelope comes due and has not expired, `VerifyJob`
      finds no record and the envelope is discarded, so the job never reaches
      the callback, even though its creator was told it was scheduled. */
  lemma UnrecordedJobIsDiscarded<T>(s: System<T>, serviceName: string, customObject: T,
                                    scheduledAppearanceOnInUTC: DateTime, recurrenceType: int,
                                    timerJobId: NullableString, env: CreateInputs, inp: StepInputs)
    requires Consistent(s)
    requires s.queue.messages == []
    requires serviceName != "" && (serviceName, JobIdOf(timerJobId, env)) !in s.rows
    requires !env.sendFails && env.storeFault.QueryFault?
    requires !inp.receiveFails && scheduledAppearanceOnInUTC <= inp.receivedAt && inp.checkedAt < MaxValue
    ensures var (s1, reply) := CreateResult(s, Some(serviceName), Some(customObject), scheduledAppearanceOnInUTC,
                                            recurrenceType, MinValue, timerJobId, env);
      && reply == JobIdOf(timerJobId, env)
      && s1.rows == s.rows
      && |s1.queue.messages| == 1
      && DispatchResult(s1, inp).1 == Discarded
  {
    var (s1, reply) := CreateResult(s, Some(serviceName), Some(customObject), scheduledAppearanceOnInUTC,
                                    recurrenceType, MinValue, timerJobId, env);
    CreateEffect(s, Some(serviceName), customObject, scheduledAppearanceOnInUTC, recurrenceType, MinValue, timerJobId, env);
    var id := JobIdOf(timerJobId, env);
    var msg := EnvelopeOf(Some(serviceName), Some(customObject), scheduledAppearanceOnInUTC, recurrenceType, MinValue, id);
    assert s1.queue.messages[0].body == Serialized(msg);
    assert Deliverable(s1.queue.messages[0], inp.receivedAt);
    assert FirstDeliverable(s1.queue.messages, inp.receivedAt) == 0;
    var (q, received) := RetrieveResult(s1.queue, inp.receivedAt, inp.receiveFails);
    assert received == Some(q.messages[0]) && q.messages[0].body == Serialized(msg);
    assert inp.checkedAt < msg.expiresOn;
    assert VerifyResult(s1.rows, Some(msg), inp.verifyFault) == Success(false);
  }

  // ---------------------------------------------------------------------------
  // Reporting

  /** The fields of a record shown by `RetrieveTimerJobDetails`. */
  datatype JobSummary = JobSummary(
    serviceName: NullableString,
    timerJobId: NullableString,
    createdOn: DateTime,
    isDelivered: bool,
    isActive: bool,
    eventOccurredOn: DateTime,
    isProcessedOn: bool,
    comments: NullableString)

  function SummaryOf(r: TimerJobRow): JobSummary {
    JobSummary(r.serviceName, r.timerJobId, r.createdOn, r.isDelivered, r.isActive, r.lastAppearedOnInUTC,
               r.isProcessed, r.jobComments)
  }

  /** The reply of `RetrieveTimerJobDetails`: the fixed message for a missing
      service name, the empty string when nothing is found, or the summaries
      that the source renders as XML. */
  datatype DetailsReply =
    | ServiceNameMissing
    | NothingFound
    | Single(job: JobSummary)
    | Listing(jobs: seq<JobSummary>)

  function Summaries(list: seq<TimerJobRow>): (r: seq<JobSummary>)
    ensures |r| == |list| && forall i | 0 <= i < |list| :: r[i] == SummaryOf(list[i])
  {
    if list == [] then [] else [SummaryOf(list[0])] + Summaries(list[1..])
  }

  const ServiceNameMissingReply: string := "Timer Job could not be null or empty."

  function DetailsReplyOf(rows: Rows, serviceName: NullableString, timerJobId: NullableString, fault: Fault)
    : (r: DetailsReply)
    ensures r.ServiceNameMissing? <==> IsNullOrEmpty(serviceName)
    ensures r.Single? <==>
      !fault.QueryFault? && JobKey(serviceName, timerJobId).Some? && JobKey(serviceName, timerJobId).value in rows
    ensures r.Single? ==> r.job == SummaryOf(rows[JobKey(serviceName, timerJobId).value])
    ensures r.Listing? <==> !IsNullOrEmpty(serviceName) && IsNullOrEmpty(timerJobId) && !fault.QueryFault?
                            && PartitionListing(rows, serviceName.value) != []
    ensures r.Listing? ==> var list := PartitionListing(rows, serviceName.value);
      |r.jobs| == |list| && forall i | 0 <= i < |list| :: r.jobs[i] == SummaryOf(list[i])
  {
    if IsNullOrEmpty(serviceName) then ServiceNameMissing
    else if IsNullOrEmpty(timerJobId) then
      match AllJobsResult(rows, serviceName, fault)
      case None => NothingFound
      case Some(list) =>
        if |list| > 0 then Listing(Summaries(list)) else NothingFound
    else
      match DetailsResult(rows, serviceName, timerJobId, fault)
      case None => NothingFound
      case Some(job) => Single(SummaryOf(job))
  }

  /** Without a job id, and with the table answering, the reply covers every
      job of the service, one summary per job, in row-key order. */
  lemma ListingCoversService(rows: Rows, serviceName: string)
    requires WellStored(rows) && serviceName != ""
    ensures var r := DetailsReplyOf(rows, Some(serviceName), None, Answered);
      && (r.Listing? <==> exists k :: k in rows && k.0 == serviceName)
      && (r.Listing? ==> forall k | k in rows && k.0 == serviceName :: SummaryOf(rows[k]) in r.jobs)
  {
    var list := PartitionListing(rows, serviceName);
    assert DetailsReplyOf(rows, Some(serviceName), None, Answered) ==
      if list != [] then Listing(Summaries(list)) else NothingFound;
    ListingOfService(rows, serviceName);
    forall k | k in rows && k.0 == serviceName
      ensures SummaryOf(rows[k]) in Summaries(list)
    {
      SummaryListed(list, rows[k]);
    }
  }

  /** The listing is empty exactly when the service has no record, and holds
      every record it has. */
  lemma ListingOfService(rows: Rows, serviceName: string)
    requires WellStored(rows)
    ensures var list := PartitionListing(rows, serviceName);
      && (list != [] <==> exists k :: k in rows && k.0 == serviceName)
      && (forall k | k in rows && k.0 == serviceName :: rows[k] in list)
  {
    PartitionListingSound(rows, serviceName);
    var list := PartitionListing(rows, serviceName);
    if exists k :: k in rows && k.0 == serviceName {
      var k :| k in rows && k.0 == serviceName;
      assert rows[k] in list;
    }
    if list != [] {
      assert list[0] in list;
    }
  }

  lemma SummaryListed(list: seq<TimerJobRow>, x: TimerJobRow)
    requires x in list
    ensures SummaryOf(x) in Summaries(list)
  {
    var i :| 0 <= i < |list| && list[i] == x;
    assert Summaries(list)[i] == SummaryOf(x);
  }

  /** `CancelTimerJob`'s own guard against an empty job id changes nothing:
      the manager already answers false for it. */
  lemma CancelGuardIsRedundant(rows: Rows, serviceName: NullableString, timerJobId: NullableString, fault: Fault)
    requires IsNullOrEmpty(timerJobId)
    ensures CancelResult(rows, serviceName, timerJobId, fault) == (rows, false)
  {
  }

  // ---------------------------------------------------------------------------
  // The service object

  class TimerJobService<T> {
    const manager: TimerJobManager<T>
    var runTimerService: bool
    var isTimerRunning: bool
    var timerServiceSleepTime: int
    /** Left at its default, false, by the constructor. */
    var isServiceStartupTypeAutomatic: bool

    ghost predicate Valid()
      reads manager, manager.store
    {
      manager.Valid()
    }

    /** The contents of the queue and the table. */
    function Snapshot(): System<T>
      reads manager, manager.store
    {
      System(manager.queue, manager.store.rows)
    }

    constructor ()
      ensures Valid() && fresh(manager) && fresh(manager.store)
      ensures Snapshot() == System(QueueState([], 0), map[])
      ensures !runTimerService && !isTimerRunning && timerServiceSleepTime == 0 && !isServiceStartupTypeAutomatic
    {
      manager := new TimerJobManager();
      runTimerService, isTimerRunning := false, false;
      timerServiceSleepTime := 0;
      isServiceStartupTypeAutomatic := false;
    }

    /** The public `CreateTimerJob`: a fresh job id is always drawn. */
    method CreateTimerJob(serviceName: NullableString, customObject: Option<T>, scheduledAppearanceOnInUTC: DateTime,
                          recurrenceType: int, expiresOn: DateTime, env: CreateInputs)
      returns (r: string)
      requires Valid()
      modifies manager, manager.store
      ensures Valid()
      ensures (Snapshot(), r) == CreateResult(old(Snapshot()), serviceName, customObject, scheduledAppearanceOnInUTC,
                                              recurrenceType, expiresOn, Some(""), env)
    {
      r := CreateTimerJobWithId(serviceName, customObject, scheduledAppearanceOnInUTC, recurrenceType, expiresOn,
                                Some(""), env);
    }

    /** The private `CreateTimerJob`, which the loop also uses to schedule the
        next occurrence under the same job id. */
    method CreateTimerJobWithId(serviceName: NullableString, customObject: Option<T>,
                                scheduledAppearanceOnInUTC: DateTime, recurrenceType: int, expiresOn: DateTime,
                                timerJobId: NullableString, env: CreateInputs)
      returns (r: string)
      requires Valid()
      modifies manager, manager.store
      ensures Valid()
      ensures (Snapshot(), r) == CreateResult(old(Snapshot()), serviceName, customObject, scheduledAppearanceOnInUTC,
                                              recurrenceType, expiresOn, timerJobId, env)
    {
      if customObject.None? {
        return CustomObjectNullReply;
      }
      var id := if IsNullOrEmpty(timerJobId) then env.freshJobId else timerJobId.value;
      if expiresOn != MinValue && expiresOn <= env.now {
        return "";
      }
      var msg := TimerJobMessage(serviceName, Some(id), customObject, scheduledAppearanceOnInUTC, recurrenceType,
                                 if expiresOn == MinValue then MaxValue else expiresOn);
      var messageId := manager.EnqueueTimerJob(Some(msg), env.messageId, env.sendFails);
      if messageId != "" {
        var ok := manager.InsertTimerJobEntity(Some(msg), messageId, env.now, env.storeFault);
        if ok {
          // The auto-start here runs the loop only while `isTimerRunning`
          // holds, and it is called only when it does not: it does nothing.
          return id;
        }
      }
      r := "";
    }

    /** `fault` is how the table treats the call. */
    method CancelTimerJob(serviceName: NullableString, timerJobId: NullableString, fault: Fault) returns (ok: bool)
      requires Valid()
      modifies manager.store
      ensures Valid()
      ensures (Snapshot().rows, ok) == CancelResult(old(Snapshot().rows), serviceName, timerJobId, fault)
    {
      if IsNullOrEmpty(timerJobId) {
        CancelGuardIsRedundant(manager.store.rows, serviceName, timerJobId, fault);
        return false;
      }
      ok := manager.CancelTimerJob(serviceName, timerJobId, fault);
    }

    method RetrieveTimerJobDetails(serviceName: NullableString, timerJobId: NullableString, fault: Fault)
      returns (r: DetailsReply)
      ensures r == DetailsReplyOf(Snapshot().rows, serviceName, timerJobId, fault)
    {
      if IsNullOrEmpty(serviceName) {
        return ServiceNameMissing;
      }
      if IsNullOrEmpty(timerJobId) {
        var list := manager.RetrieveAllTimerJobs(serviceName, fault);
        if list.Some? {
          var jobs := Summarize(list.value);
          if |jobs| > 0 {
            return Listing(jobs);
          }
        }
      } else {
        var job := manager.RetrieveTimerJobDetails(serviceName, timerJobId, fault);
        if job != null {
          return Single(SummaryOf(job.Row()));
        }
      }
      r := NothingFound;
    }

    /** The `foreach` loop that copies the listed records into summaries. */
    method Summarize(list: seq<TimerJobRow>) returns (jobs: seq<JobSummary>)
      ensures jobs == Summaries(list)
    {
      jobs := [];
      for i := 0 to |list|
        invariant |jobs| == i
        invariant forall j | 0 <= j < i :: jobs[j] == SummaryOf(list[j])
      {
        jobs := jobs + [SummaryOf(list[i])];
      }
    }

    /** The private `IsTimerRunning` setter. When it clears the flag while the
        service is switched on it calls `TimerJob` again, whose loop then
        stops at once; that call is left implicit. */
    method SetIsTimerRunning(value: bool)
      modifies this
      ensures isTimerRunning == value
      ensures runTimerService == old(runTimerService) && timerServiceSleepTime == old(timerServiceSleepTime)
      ensures isServiceStartupTypeAutomatic == old(isServiceStartupTypeAutomatic)
    {
      isTimerRunning := value;
    }

    /** The `RunTimerService` setter. Switching the service on while the loop
        is idle starts the loop, here over `script`, the inputs of its
        iterations; switching it off clears `isTimerRunning`. */
    method SetRunTimerService(value: bool, script: seq<StepInputs>)
      requires Valid()
      modifies this, manager, manager.store
      ensures Valid()
      ensures runTimerService == value
      ensures value && !old(isTimerRunning) ==>
        Snapshot() == Run(old(Snapshot()), script).0 && isTimerRunning == !Run(old(Snapshot()), script).1
      ensures value && old(isTimerRunning) ==> Snapshot() == old(Snapshot()) && isTimerRunning
      ensures !value ==> Snapshot() == old(Snapshot()) && !isTimerRunning
    {
      runTimerService := value;
      if runTimerService && !isTimerRunning {
        SetIsTimerRunning(true);
        TimerJob(script);
      } else if !runTimerService {
        SetIsTimerRunning(false);
      }
    }

    /** The timer loop, over the inputs of its iterations. An exception inside
        an iteration ends the loop and clears `isTimerRunning`. */
    method TimerJob(script: seq<StepInputs>)
      requires Valid()
      modifies this, manager, manager.store
      ensures Valid()
      ensures runTimerService == old(runTimerService)
      ensures old(isTimerRunning && runTimerService) ==>
        Snapshot() == Run(old(Snapshot()), script).0 && isTimerRunning == !Run(old(Snapshot()), script).1
      ensures !old(isTimerRunning && runTimerService) ==>
        Snapshot() == old(Snapshot()) && isTimerRunning == old(isTimerRunning)
    {
      if !(isTimerRunning && runTimerService) {
        return;
      }
      ghost var start := Snapshot();
      var k := 0;
      while k < |script| && isTimerRunning && runTimerService
        invariant 0 <= k <= |script|
        invariant Valid() && runTimerService
        invariant isTimerRunning ==> Run(start, script) == Run(Snapshot(), script[k..])
        invariant !isTimerRunning ==> Run(start, script) == (Snapshot(), true)
        decreases |script| - k
      {
        RunStep(Snapshot(), script, k);
        var o := DispatchStep(script[k]);
        if o.LoopStopped? {
          SetIsTimerRunning(false);
        }
        k := k + 1;
      }
    }

    /** One iteration of the loop's body. */
    method DispatchStep(inp: StepInputs) returns (o: StepOutcome)
      requires Valid()
      modifies manager, manager.store
      ensures Valid()
      ensures (Snapshot(), o) == DispatchResult(old(Snapshot()), inp)
    {
      var received := manager.RetrieveBrokeredMessage(inp.receivedAt, inp.receiveFails);
      if received.None? {
        return Idle;
      }
      var bm := received.value;
      match bm.body {
        case Corrupt =>
          // The deserializer raises; the loop's handler catches it.
          return LoopStopped;
        case ForeignObject =>
          return Skipped;
        case Serialized(msg) =>
          if !(inp.checkedAt < msg.expiresOn) {
            Discard(bm, msg, inp);
            return Discarded;
          }
          var verified := manager.VerifyJob(Some(msg), inp.verifyFault);
          if verified.Failure? {
            return LoopStopped;
          }
          if !verified.value {
            Discard(bm, msg, inp);
            return Discarded;
          }
          if msg.customObject.None? {
            return NullPayload;
          }
          o := Deliver(bm, msg, inp);
      }
    }

    method Discard(bm: BrokeredMessage<T>, msg: TimerJobMessage<T>, inp: StepInputs)
      requires Valid()
      modifies manager, manager.store
      ensures Valid()
      ensures Snapshot() == DiscardResult(old(Snapshot()), bm, msg, inp)
    {
      var _ := manager.DeleteBrokeredMessage(bm, inp.completeFails);
      var _ := manager.MarkTimerJobProcessStatus(msg.serviceName, msg.timerJobId, false, false, DiscardComment,
                                                 inp.receivedAt, inp.statusFault);
    }

    method Deliver(bm: BrokeredMessage<T>, msg: TimerJobMessage<T>, inp: StepInputs) returns (o: StepOutcome)
      requires Valid()
      modifies manager, manager.store
      ensures Valid()
      ensures (Snapshot(), o) == DeliverResult(old(Snapshot()), bm, msg, inp)
    {
      var _ := manager.DeleteBrokeredMessage(bm, inp.completeFails);
      var rescheduling := NotRecurring;
      if msg.recurrenceType != OneTime {
        var next := NextAppearanceOn(msg);
        if next.None? {
          // AddDays or AddMonths raises; the loop's handler catches it.
          return LoopStopped;
        }
        if next.value < msg.expiresOn && next.value != MinValue {
          var ok := Reschedule(msg, next.value, inp.attempts, inp.commentFault);
          rescheduling := if ok then Scheduled else NotScheduled;
        } else {
          rescheduling := NoNextRun;
        }
      }
      var isProcessed := ProcessedFlag(inp.callback);
      Finish(msg, inp, isProcessed);
      o := Processed(rescheduling, isProcessed);
    }

    method Finish(msg: TimerJobMessage<T>, inp: StepInputs, isProcessed: bool)
      requires Valid()
      requires isProcessed == ProcessedFlag(inp.callback)
      modifies manager.store
      ensures Valid()
      ensures Snapshot() == FinishResult(old(Snapshot()), msg, inp)
    {
      var _ := manager.MarkTimerJobProcessStatus(msg.serviceName, msg.timerJobId, true, isProcessed,
                                                 ProcessedComment(inp.processedAt, isProcessed), inp.receivedAt,
                                                 inp.statusFault);
    }

    /** Schedules the next occurrence, retrying a failed create up to three
        attempts in all, then records how it went. */
    method Reschedule(msg: TimerJobMessage<T>, next: DateTime, at: Attempts, commentFault: Fault) returns (ok: bool)
      requires Valid()
      modifies manager, manager.store
      ensures Valid()
      ensures (Snapshot(), ok) == RescheduleResult(old(Snapshot()), msg, next, at, commentFault)
    {
      var i := 3;
      while true
        invariant 1 <= i <= 3
        invariant Valid()
        invariant Attempt(old(Snapshot()), msg, next, at, 3).0 == Attempt(Snapshot(), msg, next, at, i).0
        invariant Attempt(old(Snapshot()), msg, next, at, 3).2 == Attempt(Snapshot(), msg, next, at, i).2
        decreases i
      {
        var id := CreateTimerJobWithId(msg.serviceName, msg.customObject, next, msg.recurrenceType, msg.expiresOn,
                                       msg.timerJobId, AttemptFor(at, i));
        if id == "" {
          i := i - 1;
          if i > 0 {
            continue;
          } else {
            var _ := manager.MarkTimerJobProcessStatus(msg.serviceName, msg.timerJobId, true, false,
                                                       NotScheduledComment, MinValue, commentFault);
            ok := false;
          }
          break;
        }
        var _ := manager.MarkTimerJobProcessStatus(msg.serviceName, msg.timerJobId, true, false,
                                                   ScheduledComment(next), MinValue, commentFault);
        ok := true;
        break;
      }
    }
  }
}
