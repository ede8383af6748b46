/** The scheduler's data: recurrence codes, the envelope carried by the delay
    queue, and the job record persisted in the table (`TimerJob`). */
module Entity {
  import opened Wrappers
  import opened Calendar

  // Recurrence codes, stored as plain integers in envelopes and records.
  const Unknown: int := 0
  const OneTime: int := 1
  const Daily: int := 2
  const Weekly: int := 3
  const Monthly: int := 4

  /** A .NET string reference: `None` is null. */
  type NullableString = Option<string>

  predicate IsNullOrEmpty(s: NullableString) {
    s.None? || s.value == ""
  }

  /** The text of a nullable string, as C#'s `+` sees it (null reads as ""). */
  function TextOf(s: NullableString): string {
    if s.None? then "" else s.value
  }

  /** `Guid.NewGuid().ToString()`: an identifier produced by the runtime, never empty. */
  type GuidString = s: string | s != "" witness "0"

  /** The envelope put on the delay queue. The payload is `Option<T>`, with
      `None` standing for a null (default) custom object. */
  datatype TimerJobMessage<T> = TimerJobMessage(
    serviceName: NullableString,
    timerJobId: NullableString,
    customObject: Option<T>,
    scheduledAppearanceOnInUTC: DateTime,
    recurrenceType: int,
    expiresOn: DateTime)

  /** The persisted job record: every property of `TimerJob`, including the
      `PartitionKey`, `RowKey` and `Timestamp` it inherits from the table entity
      base class. */
  datatype TimerJobRow = TimerJobRow(
    partitionKey: NullableString,
    rowKey: NullableString,
    timestamp: DateTime,
    serviceName: NullableString,
    timerJobId: NullableString,
    scheduledAppearanceOnInUTC: DateTime,
    recurrenceType: int,
    isActive: bool,
    isDelivered: bool,
    lastAppearedOnInUTC: DateTime,
    brokeredMessageId: NullableString,
    createdOn: DateTime,
    jobComments: NullableString,
    timerServiceCaller: NullableString,
    isProcessed: bool)

  /** A freshly constructed `TimerJob`: null strings, zero numbers, false flags
      and `DateTime.MinValue` dates. */
  const DefaultRow: TimerJobRow :=
    TimerJobRow(None, None, MinValue, None, None, MinValue, 0, false, false, MinValue, None, MinValue, None, None, false)

  /** The key discipline of `TimerJob`: the table keys mirror the job's identity. */
  predicate KeysFollowIds(r: TimerJobRow) {
    r.partitionKey == r.serviceName && r.rowKey == r.timerJobId
  }

  /** The `ServiceName` setter: a non-empty value becomes both the service name
      and the partition key; null or empty is ignored. */
  function WithServiceName(r: TimerJobRow, value: NullableString): (s: TimerJobRow)
    ensures IsNullOrEmpty(value) ==> s == r
    ensures !IsNullOrEmpty(value) ==> s.serviceName == value && s.partitionKey == value
    ensures s.(serviceName := r.serviceName, partitionKey := r.partitionKey) == r
    ensures KeysFollowIds(r) ==> KeysFollowIds(s)
  {
    if IsNullOrEmpty(value) then r else r.(serviceName := value, partitionKey := value)
  }

  /** The `TimerJobId` setter: a non-empty value becomes both the job id and the
      row key; null or empty is ignored. */
  function WithTimerJobId(r: TimerJobRow, value: NullableString): (s: TimerJobRow)
    ensures IsNullOrEmpty(value) ==> s == r
    ensures !IsNullOrEmpty(value) ==> s.timerJobId == value && s.rowKey == value
    ensures s.(timerJobId := r.timerJobId, rowKey := r.rowKey) == r
    ensures KeysFollowIds(r) ==> KeysFollowIds(s)
  {
    if IsNullOrEmpty(value) then r else r.(timerJobId := value, rowKey := value)
  }

  /** One write of a public `TimerJob` property, as client code performs it. */
  datatype PropertyWrite =
    | ServiceNameWrite(s: NullableString)
    | TimerJobIdWrite(s: NullableString)
    | ScheduledAppearanceOnInUTCWrite(t: DateTime)
    | RecurrenceTypeWrite(i: int)
    | IsActiveWrite(b: bool)
    | IsDeliveredWrite(b: bool)
    | LastAppearedOnInUTCWrite(t: DateTime)
    | BrokeredMessageIdWrite(s: NullableString)
    | CreatedOnWrite(t: DateTime)
    | JobCommentsWrite(s: NullableString)
    | TimerServiceCallerWrite(s: NullableString)
    | IsProcessedWrite(b: bool)

  /** The effect of one property write. Each auto-property sets its own
      field to the written value and leaves every other field as it was,
      never the keys or the identity fields. */
  function ApplyWrite(r: TimerJobRow, w: PropertyWrite): (s: TimerJobRow)
    ensures !w.ServiceNameWrite? && !w.TimerJobIdWrite? ==>
      s.partitionKey == r.partitionKey && s.rowKey == r.rowKey &&
      s.serviceName == r.serviceName && s.timerJobId == r.timerJobId && s.timestamp == r.timestamp
    ensures w.ScheduledAppearanceOnInUTCWrite? ==> s == r.(scheduledAppearanceOnInUTC := w.t)
    ensures w.RecurrenceTypeWrite? ==> s == r.(recurrenceType := w.i)
    ensures w.IsActiveWrite? ==> s == r.(isActive := w.b)
    ensures w.IsDeliveredWrite? ==> s == r.(isDelivered := w.b)
    ensures w.LastAppearedOnInUTCWrite? ==> s == r.(lastAppearedOnInUTC := w.t)
    ensures w.BrokeredMessageIdWrite? ==> s == r.(brokeredMessageId := w.s)
    ensures w.CreatedOnWrite? ==> s == r.(createdOn := w.t)
    ensures w.JobCommentsWrite? ==> s == r.(jobComments := w.s)
    ensures w.TimerServiceCallerWrite? ==> s == r.(timerServiceCaller := w.s)
    ensures w.IsProcessedWrite? ==> s == r.(isProcessed := w.b)
  {
    match w
    case ServiceNameWrite(v) => WithServiceName(r, v)
    case TimerJobIdWrite(v) => WithTimerJobId(r, v)
    case ScheduledAppearanceOnInUTCWrite(t) => r.(scheduledAppearanceOnInUTC := t)
    case RecurrenceTypeWrite(i) => r.(recurrenceType := i)
    case IsActiveWrite(b) => r.(isActive := b)
    case IsDeliveredWrite(b) => r.(isDelivered := b)
    case LastAppearedOnInUTCWrite(t) => r.(lastAppearedOnInUTC := t)
    case BrokeredMessageIdWrite(v) => r.(brokeredMessageId := v)
    case CreatedOnWrite(t) => r.(createdOn := t)
    case JobCommentsWrite(v) => r.(jobComments := v)
    case TimerServiceCallerWrite(v) => r.(timerServiceCaller := v)
    case IsProcessedWrite(b) => r.(isProcessed := b)
  }

  function ApplyWrites(r: TimerJobRow, ws: seq<PropertyWrite>): TimerJobRow
    decreases |ws|
  {
    if ws == [] then r else ApplyWrites(ApplyWrite(r, ws[0]), ws[1..])
  }

  /** Whatever public properties are written, in whatever order, a record whose
      keys mirror its identity keeps them mirrored: its table key stays
      (ServiceName, TimerJobId), the key the manager looks it up by. */
  lemma {:induction false} WritesKeepKeysFollowingIds(r: TimerJobRow, ws: seq<PropertyWrite>)
    requires KeysFollowIds(r)
    ensures KeysFollowIds(ApplyWrites(r, ws))
    decreases |ws|
  {
    if ws != [] {
      WritesKeepKeysFollowingIds(ApplyWrite(r, ws[0]), ws[1..]);
    }
  }

  /** A `TimerJob` built by the default constructor and then written only through
      its public properties has its table key equal to (ServiceName, TimerJobId). */
  lemma NewJobKeyedByIds(ws: seq<PropertyWrite>)
    ensures var r := ApplyWrites(DefaultRow, ws); r.partitionKey == r.serviceName && r.rowKey == r.timerJobId
  {
    WritesKeepKeysFollowingIds(DefaultRow, ws);
  }

  /** The job record as a mutable object, the way the manager handles it between
      reading it from the table and writing it back. */
  class TimerJob {
    var partitionKey: NullableString
    var rowKey: NullableString
    var timestamp: DateTime
    var serviceName: NullableString
    var timerJobId: NullableString
    var scheduledAppearanceOnInUTC: DateTime
    var recurrenceType: int
    var isActive: bool
    var isDelivered: bool
    var lastAppearedOnInUTC: DateTime
    var brokeredMessageId: NullableString
    var createdOn: DateTime
    var jobComments: NullableString
    var timerServiceCaller: NullableString
    var isProcessed: bool

    /** The object's current property values. */
    function Row(): TimerJobRow
      reads this
    {
      TimerJobRow(partitionKey, rowKey, timestamp, serviceName, timerJobId, scheduledAppearanceOnInUTC,
        recurrenceType, isActive, isDelivered, lastAppearedOnInUTC, brokeredMessageId, createdOn,
        jobComments, timerServiceCaller, isProcessed)
    }

    constructor ()
      ensures Row() == DefaultRow
    {
      partitionKey, rowKey, timestamp := None, None, MinValue;
      serviceName, timerJobId := None, None;
      scheduledAppearanceOnInUTC, recurrenceType := MinValue, 0;
      isActive, isDelivered, lastAppearedOnInUTC := false, false, MinValue;
      brokeredMessageId, createdOn := None, MinValue;
      jobComments, timerServiceCaller, isProcessed := None, None, false;
    }

    /** The object the table client materialises from a stored record. */
    constructor FromRow(r: TimerJobRow)
      ensures Row() == r
    {
      partitionKey, rowKey, timestamp := r.partitionKey, r.rowKey, r.timestamp;
      serviceName, timerJobId := r.serviceName, r.timerJobId;
      scheduledAppearanceOnInUTC, recurrenceType := r.scheduledAppearanceOnInUTC, r.recurrenceType;
      isActive, isDelivered, lastAppearedOnInUTC := r.isActive, r.isDelivered, r.lastAppearedOnInUTC;
      brokeredMessageId, createdOn := r.brokeredMessageId, r.createdOn;
      jobComments, timerServiceCaller, isProcessed := r.jobComments, r.timerServiceCaller, r.isProcessed;
    }

    method SetServiceName(value: NullableString)
      modifies this
      ensures Row() == WithServiceName(old(Row()), value)
    {
      if !IsNullOrEmpty(value) {
        serviceName := value;
        partitionKey := serviceName;
      }
    }

    method SetTimerJobId(value: NullableString)
      modifies this
      ensures Row() == WithTimerJobId(old(Row()), value)
    {
      if !IsNullOrEmpty(value) {
        timerJobId := value;
        rowKey := timerJobId;
      }
    }
  }
}
