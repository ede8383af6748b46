/** The Service Bus queue that holds scheduled job messages. A message is sent
    with a scheduled enqueue time and becomes receivable once that time has
    come; a receive locks it for the queue's lock duration; completing removes
    it and abandoning unlocks it. The queue is a value, kept by the manager. */
module DelayQueue {
  import opened Wrappers
  import opened Calendar
  import opened Entity

  /** The queue's lock duration: two minutes. */
  const LockDuration: int := 2 * TicksPerMinute

  /** What a message body deserialises to. */
  datatype Body<T> =
    | Serialized(message: TimerJobMessage<T>)  // a binary-serialised `TimerJobMessage<T>`
    | ForeignObject                            // a readable body that holds some other type
    | Corrupt                                  // a body the deserialiser cannot read

  datatype BrokeredMessage<T> = BrokeredMessage(
    messageId: string,
    sequenceNumber: nat,
    body: Body<T>,
    scheduledEnqueueTimeUtc: DateTime,
    lockedUntil: DateTime)

  /** The messages in sequence-number order, and the next number to hand out. */
  datatype QueueState<T> = QueueState(messages: seq<BrokeredMessage<T>>, nextSequenceNumber: nat)

  /** The exceptions the queue client raises. */
  datatype QueueError =
    | ServiceFault   // the service could not be reached or refused the call
    | LockLost       // the message is no longer held under the receiver's lock

  const EmptyQueue: QueueState<int> := QueueState([], 0)

  /** Sequence numbers are unique, ascending, and below the next one. */
  predicate Ordered<T>(q: QueueState<T>) {
    && (forall i, j | 0 <= i < j < |q.messages| :: q.messages[i].sequenceNumber < q.messages[j].sequenceNumber)
    && (forall i | 0 <= i < |q.messages| :: q.messages[i].sequenceNumber < q.nextSequenceNumber)
  }

  /** A message a receive at `now` can hand out: its scheduled time has come
      and no lock is held on it. */
  predicate Deliverable<T>(m: BrokeredMessage<T>, now: DateTime) {
    m.scheduledEnqueueTimeUtc <= now && m.lockedUntil <= now
  }

  /** The position of the first deliverable message, or |ms| when there is none. */
  function FirstDeliverable<T>(ms: seq<BrokeredMessage<T>>, now: DateTime): (i: nat)
    ensures i <= |ms|
    ensures forall j | 0 <= j < i :: !Deliverable(ms[j], now)
    ensures i < |ms| ==> Deliverable(ms[i], now)
    decreases |ms|
  {
    if ms == [] then 0
    else if Deliverable(ms[0], now) then 0
    else 1 + FirstDeliverable(ms[1..], now)
  }

  /** The position of the message with sequence number `n`, or |ms| when there is none. */
  function PositionOf<T>(ms: seq<BrokeredMessage<T>>, n: nat): (i: nat)
    ensures i <= |ms|
    ensures forall j | 0 <= j < i :: ms[j].sequenceNumber != n
    ensures i < |ms| ==> ms[i].sequenceNumber == n
    decreases |ms|
  {
    if ms == [] then 0
    else if ms[0].sequenceNumber == n then 0
    else 1 + PositionOf(ms[1..], n)
  }

  /** `QueueClient.Send` of a message scheduled for `at`. */
  function SendResult<T>(q: QueueState<T>, messageId: string, body: Body<T>, at: DateTime, fails: bool)
    : (r: (QueueState<T>, Outcome<QueueError>))
    ensures Ordered(q) ==> Ordered(r.0)
    ensures r.1.Pass? <==> !fails
    ensures r.1.Fail? ==> r.0 == q
    ensures r.1.Pass? ==> |r.0.messages| == |q.messages| + 1 && r.0.messages[..|q.messages|] == q.messages
  {
    if fails then (q, Fail(ServiceFault))
    else
      var m := BrokeredMessage(messageId, q.nextSequenceNumber, body, at, MinValue);
      (QueueState(q.messages + [m], q.nextSequenceNumber + 1), Pass)
  }

  /** `QueueClient.Receive` at `now`: the first deliverable message, now
      locked for the lock duration, or null when none is deliverable. */
  function ReceiveResult<T>(q: QueueState<T>, now: DateTime, fails: bool)
    : (r: (QueueState<T>, Result<Option<BrokeredMessage<T>>, QueueError>))
    ensures Ordered(q) ==> Ordered(r.0)
    ensures r.1.Failure? <==> fails
    ensures r.1.Success? && r.1.value.Some? ==> var m := r.1.value.value;
      && m.scheduledEnqueueTimeUtc <= now
      && now <= m.lockedUntil && (now < MaxValue ==> now < m.lockedUntil)
      && m in r.0.messages
    ensures r.1.Success? && r.1.value.None? ==> r.0 == q && forall m | m in q.messages :: !Deliverable(m, now)
    ensures r.1.Success? && r.1.value.Some? ==>
      exists i | 0 <= i < |q.messages| ::
        && Deliverable(q.messages[i], now)
        && r.1.value.value == q.messages[i].(lockedUntil := r.1.value.value.lockedUntil)
        && r.0 == q.(messages := q.messages[i := r.1.value.value])
    ensures |r.0.messages| == |q.messages|
  {
    if fails then (q, Failure(ServiceFault))
    else
      var i := FirstDeliverable(q.messages, now);
      if i == |q.messages| then (q, Success(None))
      else
        var locked := q.messages[i].(lockedUntil := Min(now + LockDuration, MaxTicks));
        var ms := q.messages[i := locked];
        assert ms[i] == locked;
        (q.(messages := ms), Success(Some(locked)))
  }

  /** `BrokeredMessage.Complete`: the message leaves the queue. */
  function CompleteResult<T>(q: QueueState<T>, m: BrokeredMessage<T>, fails: bool)
    : (r: (QueueState<T>, Outcome<QueueError>))
    ensures Ordered(q) ==> Ordered(r.0)
    ensures r.1.Fail? ==> r.0 == q
    ensures r.1.Pass? ==> |r.0.messages| == |q.messages| - 1
    ensures Ordered(q) && r.1.Pass? ==> forall x | x in r.0.messages :: x.sequenceNumber != m.sequenceNumber
    ensures r.1.Pass? ==>
      exists i | 0 <= i < |q.messages| ::
        q.messages[i].sequenceNumber == m.sequenceNumber && r.0 == q.(messages := q.messages[..i] + q.messages[i + 1..])
  {
    if fails then (q, Fail(ServiceFault))
    else
      var i := PositionOf(q.messages, m.sequenceNumber);
      if i == |q.messages| then (q, Fail(LockLost))
      else (q.(messages := q.messages[..i] + q.messages[i + 1..]), Pass)
  }

  /** `BrokeredMessage.Abandon`: the lock is released and the message can be
      received again at once. */
  function AbandonResult<T>(q: QueueState<T>, m: BrokeredMessage<T>, fails: bool)
    : (r: (QueueState<T>, Outcome<QueueError>))
    ensures Ordered(q) ==> Ordered(r.0)
    ensures r.1.Fail? ==> r.0 == q
    ensures |r.0.messages| == |q.messages|
    ensures Ordered(q) && r.1.Pass? ==>
      (&& r.0.nextSequenceNumber == q.nextSequenceNumber
       && forall i | 0 <= i < |q.messages| ::
            r.0.messages[i] == if q.messages[i].sequenceNumber == m.sequenceNumber
                               then q.messages[i].(lockedUntil := MinValue) else q.messages[i])
  {
    if fails then (q, Fail(ServiceFault))
    else
      var i := PositionOf(q.messages, m.sequenceNumber);
      if i == |q.messages| then (q, Fail(LockLost))
      else (q.(messages := q.messages[i := q.messages[i].(lockedUntil := MinValue)]), Pass)
  }

  /** A message sent for a future time is not handed out before that time. */
  lemma {:induction false} NotDeliveredEarly<T>(q: QueueState<T>, id: string, body: Body<T>, at: DateTime, now: DateTime)
    requires Ordered(q)
    requires now < at
    ensures var sent := SendResult(q, id, body, at, false).0;
      ReceiveResult(sent, now, false).1.Success? &&
      (ReceiveResult(sent, now, false).1.value.Some? ==>
         ReceiveResult(sent, now, false).1.value.value.sequenceNumber != q.nextSequenceNumber)
  {
    var sent := SendResult(q, id, body, at, false).0;
    var i := FirstDeliverable(sent.messages, now);
    assert sent.messages[|q.messages|].scheduledEnqueueTimeUtc == at;
    assert i != |q.messages|;
    if i < |sent.messages| {
      assert sent.messages[i] == q.messages[i];
    }
  }

  /** A received message, once completed, is never received again. */
  lemma CompletedNotRedelivered<T>(q: QueueState<T>, now: DateTime, later: DateTime)
    requires Ordered(q)
    requires ReceiveResult(q, now, false).1 .Success? && ReceiveResult(q, now, false).1 .value.Some?
    ensures var (q1, r) := ReceiveResult(q, now, false);
      var (q2, c) := CompleteResult(q1, r.value.value, false);
      && c.Pass?
      && (ReceiveResult(q2, later, false).1 .value.Some? ==>
            ReceiveResult(q2, later, false).1 .value.value.sequenceNumber != r.value.value.sequenceNumber)
  {
    var (q1, r) := ReceiveResult(q, now, false);
    var i := FirstDeliverable(q.messages, now);
    assert q1.messages[i] == r.value.value;
    assert PositionOf(q1.messages, r.value.value.sequenceNumber) <= i;
    var (q2, c) := CompleteResult(q1, r.value.value, false);
    var (q3, r3) := ReceiveResult(q2, later, false);
    if r3.value.Some? {
      assert r3.value.value.sequenceNumber == q2.messages[FirstDeliverable(q2.messages, later)].sequenceNumber;
    }
  }

  /** An abandoned message can be received again straight away. */
  lemma AbandonedIsRedeliverable<T>(q: QueueState<T>, now: DateTime)
    requires Ordered(q)
    requires ReceiveResult(q, now, false).1 .Success? && ReceiveResult(q, now, false).1 .value.Some?
    ensures var (q1, r) := ReceiveResult(q, now, false);
      var (q2, a) := AbandonResult(q1, r.value.value, false);
      && a.Pass? && ReceiveResult(q2, now, false).1 .value.Some?
      && ReceiveResult(q2, now, false).1 .value.value.sequenceNumber == r.value.value.sequenceNumber
  {
    var (q1, r) := ReceiveResult(q, now, false);
    var i := FirstDeliverable(q.messages, now);
    assert q1.messages[i] == r.value.value;
    var p := PositionOf(q1.messages, r.value.value.sequenceNumber);
    assert p == i;
    var (q2, a) := AbandonResult(q1, r.value.value, false);
    assert Deliverable(q2.messages[i], now);
    assert FirstDeliverable(q2.messages, now) == i;
  }
}
