/** The generic table helper, here instantiated for `TimerJob` records. The
    table is a map from (PartitionKey, RowKey) to the stored record; every
    operation is a method on `TableStorageHelper` whose effect is given by a
    function over the map, and the lemmas below are about those functions. */
module TableStorage {
  import opened Wrappers
  import opened Calendar
  import opened Entity
  import Ordinal

  type Key = (string, string)
  type Rows = map<Key, TimerJobRow>

  /** The exceptions the helper lets escape to its caller. */
  datatype StoreError =
    | ArgumentNull(paramName: string)  // an argument check failed
    | NotFound                         // a lookup by both keys matched nothing (status 404)
    | Conflict                         // an inserted key is already taken (status 409)
    | BadRequest                       // a record with a null key, or a write that would move a record (status 400)
    | QueryFailed                      // a lookup query failed with a fault
    | SaveFailed                       // a save request failed with a fault

  /** How the table service treats the requests of one helper call. Its own
      answers (404, 409, 400) follow from the table's contents; a fault is any
      other failure of a request (a 5xx status, a timeout, a lost connection)
      that outlasts the client's retries. */
  datatype Fault =
    | Answered    // every request is answered on its merits
    | QueryFault  // the lookup query fails
    | SaveFault   // the lookup is answered and the save request fails

  /** `CloudTableClient.MinSupportedDateTime`. */
  const MinSupportedDateTime: DateTime := 504_911_232_000_000_000

  lemma MinSupportedDateTimeIs1601()
    ensures DatePart(MinSupportedDateTime) == Date(1601, 1, 1) && TimeOfDay(MinSupportedDateTime) == 0
  {
    var d := Date(1601, 1, 1);
    assert DayNumber(d) == 584_388;
    DayNumberRoundTrip(d);
    assert MinSupportedDateTime / TicksPerDay == 584_388 && MinSupportedDateTime % TicksPerDay == 0;
  }

  // ---------------------------------------------------------------------------
  // Dates the table cannot hold

  function FixDate(t: DateTime): DateTime {
    if t == MinValue then MinSupportedDateTime else t
  }

  /** No date property other than the service-owned `Timestamp` holds `DateTime.MinValue`. */
  predicate DatesFixed(r: TimerJobRow) {
    r.scheduledAppearanceOnInUTC != MinValue && r.lastAppearedOnInUTC != MinValue && r.createdOn != MinValue
  }

  /** What `FixMinDate` leaves in an entity: every `DateTime` property except
      `Timestamp` that held `DateTime.MinValue` now holds the minimum date the
      table supports; nothing else changes, and a fixed entity is left alone. */
  function FixedMinDates(r: TimerJobRow): (f: TimerJobRow)
    ensures DatesFixed(f)
    ensures DatesFixed(r) ==> f == r
    ensures f.(scheduledAppearanceOnInUTC := r.scheduledAppearanceOnInUTC,
               lastAppearedOnInUTC := r.lastAppearedOnInUTC,
               createdOn := r.createdOn) == r
    ensures r.createdOn == MinValue ==> f.createdOn == MinSupportedDateTime
    ensures r.lastAppearedOnInUTC == MinValue ==> f.lastAppearedOnInUTC == MinSupportedDateTime
    ensures r.scheduledAppearanceOnInUTC == MinValue ==> f.scheduledAppearanceOnInUTC == MinSupportedDateTime
  {
    r.(scheduledAppearanceOnInUTC := FixDate(r.scheduledAppearanceOnInUTC),
       lastAppearedOnInUTC := FixDate(r.lastAppearedOnInUTC),
       createdOn := FixDate(r.createdOn))
  }

  // ---------------------------------------------------------------------------
  // Copying an incoming entity onto the stored one

  /** How a write copies the incoming entity's properties onto the stored record. */
  datatype MergeMode =
    | ReplaceAll       // `Replace`: every property, `Timestamp` included
    | MergeNonNull     // `Update`: every value-typed property, and the non-null reference-typed ones
    | MergeNonDefault  // `OverwriteReferenceTypesOnly`: the properties that differ from their type's default

  /** Whether a string property holding `v` is copied. */
  predicate CopiesReference(mode: MergeMode, v: NullableString) {
    mode.ReplaceAll? || v.Some?
  }

  /** Whether a value-typed property is copied, given that it does or does not
      hold its default (`MinSupportedDateTime` for dates, 0, false). */
  predicate CopiesValue(mode: MergeMode, isDefault: bool) {
    !mode.MergeNonDefault? || !isDefault
  }

  /** The first two steps of the reflection loop: ServiceName and TimerJobId,
      each through its setter. */
  function MergeIdentity(x: TimerJobRow, e: TimerJobRow, mode: MergeMode): TimerJobRow {
    var named := if CopiesReference(mode, e.serviceName) then WithServiceName(x, e.serviceName) else x;
    if CopiesReference(mode, e.timerJobId) then WithTimerJobId(named, e.timerJobId) else named
  }

  /** The remaining steps: the auto-properties in declaration order, then the
      inherited PartitionKey, RowKey and Timestamp, each copied or kept. */
  function MergeProperties(y: TimerJobRow, e: TimerJobRow, mode: MergeMode): TimerJobRow {
    y.(scheduledAppearanceOnInUTC :=
         if CopiesValue(mode, e.scheduledAppearanceOnInUTC == MinSupportedDateTime)
         then e.scheduledAppearanceOnInUTC else y.scheduledAppearanceOnInUTC,
       recurrenceType := if CopiesValue(mode, e.recurrenceType == 0) then e.recurrenceType else y.recurrenceType,
       isActive := if CopiesValue(mode, !e.isActive) then e.isActive else y.isActive,
       isDelivered := if CopiesValue(mode, !e.isDelivered) then e.isDelivered else y.isDelivered,
       lastAppearedOnInUTC :=
         if CopiesValue(mode, e.lastAppearedOnInUTC == MinSupportedDateTime)
         then e.lastAppearedOnInUTC else y.lastAppearedOnInUTC,
       brokeredMessageId := if CopiesReference(mode, e.brokeredMessageId) then e.brokeredMessageId else y.brokeredMessageId,
       createdOn := if CopiesValue(mode, e.createdOn == MinSupportedDateTime) then e.createdOn else y.createdOn,
       jobComments := if CopiesReference(mode, e.jobComments) then e.jobComments else y.jobComments,
       timerServiceCaller :=
         if CopiesReference(mode, e.timerServiceCaller) then e.timerServiceCaller else y.timerServiceCaller,
       isProcessed := if CopiesValue(mode, !e.isProcessed) then e.isProcessed else y.isProcessed,
       partitionKey := if CopiesReference(mode, e.partitionKey) then e.partitionKey else y.partitionKey,
       rowKey := if CopiesReference(mode, e.rowKey) then e.rowKey else y.rowKey,
       timestamp := if mode.ReplaceAll? then e.timestamp else y.timestamp)
  }

  /** The stored record `x` after the reflection loop of a write has copied
      the incoming entity `e` onto it. */
  function Merge(x: TimerJobRow, e: TimerJobRow, mode: MergeMode): TimerJobRow {
    MergeProperties(MergeIdentity(x, e, mode), e, mode)
  }

  /** `Replace` makes the stored record the incoming one, except where a null
      or empty ServiceName or TimerJobId is ignored by its setter. */
  lemma ReplaceTakesIncoming(x: TimerJobRow, e: TimerJobRow)
    ensures Merge(x, e, ReplaceAll) ==
      e.(serviceName := if IsNullOrEmpty(e.serviceName) then x.serviceName else e.serviceName,
         timerJobId := if IsNullOrEmpty(e.timerJobId) then x.timerJobId else e.timerJobId)
  {
  }

  /** `Update` keeps the stored `Timestamp` and the stored value of every
      string property the incoming entity leaves null, and takes every other
      property from the incoming entity. */
  lemma UpdateKeepsNullProperties(x: TimerJobRow, e: TimerJobRow)
    requires KeysFollowIds(x) && KeysFollowIds(e)
    ensures var m := Merge(x, e, MergeNonNull);
      && m.timestamp == x.timestamp
      && m.partitionKey == (if e.partitionKey.Some? then e.partitionKey else x.partitionKey)
      && m.rowKey == (if e.rowKey.Some? then e.rowKey else x.rowKey)
      && m.brokeredMessageId == (if e.brokeredMessageId.Some? then e.brokeredMessageId else x.brokeredMessageId)
      && m.jobComments == (if e.jobComments.Some? then e.jobComments else x.jobComments)
      && m.timerServiceCaller == (if e.timerServiceCaller.Some? then e.timerServiceCaller else x.timerServiceCaller)
      && m.(timestamp := e.timestamp, partitionKey := e.partitionKey, rowKey := e.rowKey,
            serviceName := e.serviceName, timerJobId := e.timerJobId,
            brokeredMessageId := e.brokeredMessageId, jobComments := e.jobComments,
            timerServiceCaller := e.timerServiceCaller) == e
  {
  }

  /** `OverwriteReferenceTypesOnly` differs from `Update` only where the incoming
      entity holds a default value: where it holds none, the two agree. */
  lemma NonDefaultMergeAgreesWithUpdate(x: TimerJobRow, e: TimerJobRow)
    requires e.scheduledAppearanceOnInUTC != MinSupportedDateTime && e.lastAppearedOnInUTC != MinSupportedDateTime
    requires e.createdOn != MinSupportedDateTime && e.recurrenceType != 0
    requires e.isActive && e.isDelivered && e.isProcessed
    ensures Merge(x, e, MergeNonDefault) == Merge(x, e, MergeNonNull)
  {
  }

  /** A value-typed property that the incoming entity leaves at its default does
      not overwrite the stored one under `OverwriteReferenceTypesOnly`. */
  lemma NonDefaultMergeKeepsDefaults(x: TimerJobRow, e: TimerJobRow)
    ensures var m := Merge(x, e, MergeNonDefault);
      && (e.scheduledAppearanceOnInUTC == MinSupportedDateTime ==> m.scheduledAppearanceOnInUTC == x.scheduledAppearanceOnInUTC)
      && (e.lastAppearedOnInUTC == MinSupportedDateTime ==> m.lastAppearedOnInUTC == x.lastAppearedOnInUTC)
      && (e.createdOn == MinSupportedDateTime ==> m.createdOn == x.createdOn)
      && (e.recurrenceType == 0 ==> m.recurrenceType == x.recurrenceType)
      && (!e.isActive ==> m.isActive == x.isActive)
      && (!e.isDelivered ==> m.isDelivered == x.isDelivered)
      && (!e.isProcessed ==> m.isProcessed == x.isProcessed)
      && m.timestamp == x.timestamp
  {
  }

  /** Writing a record back onto itself changes nothing, in every mode. */
  lemma MergeWithItself(x: TimerJobRow, mode: MergeMode)
    requires KeysFollowIds(x)
    ensures Merge(x, x, mode) == x
  {
  }

  /** The manager's read-modify-write: an incoming record that is the stored one
      with value-typed properties changed and string properties changed only to
      non-null values is stored exactly as it is by `Update`. */
  lemma UpdateOfModifiedRecord(x: TimerJobRow, e: TimerJobRow)
    requires KeysFollowIds(x)
    requires e.partitionKey == x.partitionKey && e.rowKey == x.rowKey && e.timestamp == x.timestamp
    requires e.serviceName == x.serviceName && e.timerJobId == x.timerJobId
    requires e.brokeredMessageId == x.brokeredMessageId || e.brokeredMessageId.Some?
    requires e.jobComments == x.jobComments || e.jobComments.Some?
    requires e.timerServiceCaller == x.timerServiceCaller || e.timerServiceCaller.Some?
    ensures Merge(x, e, MergeNonNull) == e
  {
  }

  lemma MergeKeepsDatesFixed(x: TimerJobRow, e: TimerJobRow, mode: MergeMode)
    ensures DatesFixed(x) && DatesFixed(e) ==> DatesFixed(Merge(x, e, mode))
  {
  }

  // ---------------------------------------------------------------------------
  // The table as a map, and the effect of each operation on it

  /** The key an entity is stored under, when both of its keys are set. */
  function KeyOf(r: TimerJobRow): Option<Key> {
    if r.partitionKey.Some? && r.rowKey.Some? then Some((r.partitionKey.value, r.rowKey.value)) else None
  }

  /** A stored record sits under its own keys and holds no `DateTime.MinValue` date. */
  predicate StoredAt(k: Key, r: TimerJobRow) {
    KeyOf(r) == Some(k) && DatesFixed(r)
  }

  predicate WellStored(rows: Rows) {
    forall k | k in rows :: StoredAt(k, rows[k])
  }

  /** The table after a write, and the write's outcome. */
  datatype StoreWrite = StoreWrite(rows: Rows, outcome: Outcome<StoreError>)

  /** The argument checks shared by the keyed operations. */
  function KeyArgument(pk: NullableString, rk: NullableString): Result<Key, StoreError> {
    if IsNullOrEmpty(pk) then Failure(ArgumentNull("partitionKey"))
    else if IsNullOrEmpty(rk) then Failure(ArgumentNull("rowKey"))
    else Success((pk.value, rk.value))
  }

  /** `Insert`: one save request, so only a `SaveFault` applies. */
  function InsertResult(rows: Rows, entity: Option<TimerJobRow>, fault: Fault): (w: StoreWrite)
    ensures WellStored(rows) ==> WellStored(w.rows)
    ensures w.outcome.Pass? <==>
      entity.Some? && !fault.SaveFault? && KeyOf(entity.value).Some? && KeyOf(entity.value).value !in rows
    ensures w.outcome.Pass? ==> w.rows == rows[KeyOf(entity.value).value := FixedMinDates(entity.value)]
    ensures w.outcome.Fail? ==> w.rows == rows
    ensures entity.Some? && fault.SaveFault? ==> w.outcome == Fail(SaveFailed)
    ensures entity.Some? && !fault.SaveFault? && KeyOf(entity.value).Some? && KeyOf(entity.value).value in rows ==>
      w.outcome == Fail(Conflict)
  {
    if entity.None? then StoreWrite(rows, Fail(ArgumentNull("entity")))
    else if fault.SaveFault? then StoreWrite(rows, Fail(SaveFailed))
    else
      var e := FixedMinDates(entity.value);
      match KeyOf(e)
      case None => StoreWrite(rows, Fail(BadRequest))
      case Some(k) => if k in rows then StoreWrite(rows, Fail(Conflict)) else StoreWrite(rows[k := e], Pass)
  }

  /** `Get`: the record under both keys, or null; only the argument checks
      raise, since the query's `catch` swallows every exception, a fault
      included, and answers null. */
  function GetResult(rows: Rows, pk: NullableString, rk: NullableString, fault: Fault)
    : (r: Result<Option<TimerJobRow>, StoreError>)
    ensures r.Success? <==> !IsNullOrEmpty(pk) && !IsNullOrEmpty(rk)
    ensures r.Success? ==> (r.value.Some? <==> !fault.QueryFault? && (pk.value, rk.value) in rows)
    ensures r.Success? && r.value.Some? ==> r.value.value == rows[(pk.value, rk.value)]
  {
    match KeyArgument(pk, rk)
    case Failure(err) => Failure(err)
    case Success(k) => Success(if fault.QueryFault? || k !in rows then None else Some(rows[k]))
  }

  /** `Replace`, `Update` and `OverwriteReferenceTypesOnly`: the incoming entity
      (its dates fixed) merged onto the record under both keys. A merge whose
      keys differ from the addressed ones would move the record; the table
      service refuses such a write with 400 (Bad Request). */
  function WriteResult(rows: Rows, pk: NullableString, rk: NullableString, entity: Option<TimerJobRow>,
                       mode: MergeMode, fault: Fault): (w: StoreWrite)
    ensures WellStored(rows) ==> WellStored(w.rows)
    ensures w.rows.Keys == rows.Keys
    ensures w.outcome.Fail? ==> w.rows == rows
    ensures w.outcome == Fail(NotFound) <==>
      !IsNullOrEmpty(pk) && !IsNullOrEmpty(rk) && entity.Some? && !fault.QueryFault? && (pk.value, rk.value) !in rows
    ensures w.outcome == Fail(QueryFailed) <==>
      !IsNullOrEmpty(pk) && !IsNullOrEmpty(rk) && entity.Some? && fault.QueryFault?
    ensures w.outcome == Fail(SaveFailed) <==>
      !IsNullOrEmpty(pk) && !IsNullOrEmpty(rk) && entity.Some? && fault.SaveFault? && (pk.value, rk.value) in rows
    ensures w.outcome.Pass? ==>
      && !IsNullOrEmpty(pk) && !IsNullOrEmpty(rk) && entity.Some? && fault.Answered? && (pk.value, rk.value) in rows
      && var k := (pk.value, rk.value);
      w.rows == rows[k := Merge(rows[k], FixedMinDates(entity.value), mode)]
    ensures !IsNullOrEmpty(pk) && !IsNullOrEmpty(rk) && entity.Some? ==>
      var k := (pk.value, rk.value);
      (w.outcome == Fail(BadRequest) <==>
         fault.Answered? && k in rows && KeyOf(Merge(rows[k], FixedMinDates(entity.value), mode)) != Some(k))
  {
    match KeyArgument(pk, rk)
    case Failure(err) => StoreWrite(rows, Fail(err))
    case Success(k) =>
      if entity.None? then StoreWrite(rows, Fail(ArgumentNull("entity")))
      else if fault.QueryFault? then StoreWrite(rows, Fail(QueryFailed))
      else if k !in rows then StoreWrite(rows, Fail(NotFound))
      else if fault.SaveFault? then StoreWrite(rows, Fail(SaveFailed))
      else
        var merged := Merge(rows[k], FixedMinDates(entity.value), mode);
        if KeyOf(merged) != Some(k) then StoreWrite(rows, Fail(BadRequest))
        else
          MergeKeepsDatesFixed(rows[k], FixedMinDates(entity.value), mode);
          StoreWrite(rows[k := merged], Pass)
  }

  /** `Upsert` (mode `MergeNonNull`) and `Repsert` (mode `ReplaceAll`): the
      write, or an insert of the entity when the write's lookup answers 404.
      The `catch` that handles that 404 also swallows a lookup query that
      fails with any other status: the upsert then returns normally without
      writing anything. */
  function UpsertResult(rows: Rows, pk: NullableString, rk: NullableString, entity: Option<TimerJobRow>,
                        mode: MergeMode, fault: Fault): (w: StoreWrite)
    ensures WellStored(rows) ==> WellStored(w.rows)
    ensures rows.Keys <= w.rows.Keys
    ensures w.outcome.Fail? ==> w.rows == rows
  {
    match KeyArgument(pk, rk)
    case Failure(err) => StoreWrite(rows, Fail(err))
    case Success(_) =>
      if entity.None? then StoreWrite(rows, Fail(ArgumentNull("entity")))
      else
        var w := WriteResult(rows, pk, rk, entity, mode, fault);
        if w.outcome == Fail(NotFound) then InsertResult(rows, entity, fault)
        else if w.outcome == Fail(QueryFailed) then StoreWrite(rows, Pass)
        else w
  }

  /** What an upsert of an entity that carries the addressed keys leaves: the
      inserted record when none was there, the merged one when one was; a
      failed lookup passes without a write, a failed save fails. */
  lemma UpsertStoresUnderKey(rows: Rows, pk: NullableString, rk: NullableString, e: TimerJobRow, mode: MergeMode,
                             fault: Fault)
    requires !IsNullOrEmpty(pk) && !IsNullOrEmpty(rk)
    requires KeyOf(e) == Some((pk.value, rk.value))
    ensures var w := UpsertResult(rows, pk, rk, Some(e), mode, fault); var k := (pk.value, rk.value);
      && (fault.QueryFault? ==> w == StoreWrite(rows, Pass))
      && (fault.SaveFault? ==> w == StoreWrite(rows, Fail(SaveFailed)))
      && (fault.Answered? && k !in rows ==> w.outcome.Pass? && w.rows == rows[k := FixedMinDates(e)])
      && (fault.Answered? && k in rows && w.outcome.Pass? ==> w.rows == rows[k := Merge(rows[k], FixedMinDates(e), mode)])
  {
  }

  /** `Delete(partitionKey, rowKey)`: a lookup, then the save of the delete. */
  function DeleteResult(rows: Rows, pk: NullableString, rk: NullableString, fault: Fault): (w: StoreWrite)
    ensures WellStored(rows) ==> WellStored(w.rows)
    ensures w.outcome.Pass? <==> !IsNullOrEmpty(pk) && !IsNullOrEmpty(rk) && fault.Answered? && (pk.value, rk.value) in rows
    ensures w.outcome.Pass? ==> w.rows == rows - {(pk.value, rk.value)}
    ensures w.outcome.Fail? ==> w.rows == rows
    ensures !IsNullOrEmpty(pk) && !IsNullOrEmpty(rk) && fault.QueryFault? ==> w.outcome == Fail(QueryFailed)
  {
    match KeyArgument(pk, rk)
    case Failure(err) => StoreWrite(rows, Fail(err))
    case Success(k) =>
      if fault.QueryFault? then StoreWrite(rows, Fail(QueryFailed))
      else if k !in rows then StoreWrite(rows, Fail(NotFound))
      else if fault.SaveFault? then StoreWrite(rows, Fail(SaveFailed))
      else StoreWrite(rows - {k}, Pass)
  }

  /** The row keys of one partition. */
  function PartitionRowKeys(rows: Rows, pk: string): set<string> {
    set k | k in rows && k.0 == pk :: k.1
  }

  /** The table with one partition taken out. */
  function WithoutPartition(rows: Rows, pk: string): (rest: Rows)
    ensures forall k :: k in rest <==> k in rows && k.0 != pk
    ensures forall k | k in rest :: rest[k] == rows[k]
  {
    map k | k in rows && k.0 != pk :: rows[k]
  }

  /** `Delete(partitionKey)`: every record of the partition is deleted in
      listing order. The first listed record is the one with the empty row key,
      if there is one; its delete fails the row-key check and nothing is deleted.
      The requests of this operation are taken to be answered. */
  function DeletePartitionResult(rows: Rows, pk: NullableString): (w: StoreWrite)
    ensures WellStored(rows) ==> WellStored(w.rows)
  {
    if IsNullOrEmpty(pk) then StoreWrite(rows, Fail(ArgumentNull("partitionKey")))
    else if (pk.value, "") in rows then StoreWrite(rows, Fail(ArgumentNull("rowKey")))
    else StoreWrite(WithoutPartition(rows, pk.value), Pass)
  }

  // ---------------------------------------------------------------------------
  // Listings

  /** The row keys of one partition in ascending ordinal order. */
  function AscendingRowKeys(rows: Rows, pk: string): (ks: seq<string>)
    ensures forall i | 0 <= i < |ks| :: (pk, ks[i]) in rows
  {
    var ks := Ordinal.Ascending(PartitionRowKeys(rows, pk));
    assert forall i | 0 <= i < |ks| :: (pk, ks[i]) in rows by {
      forall i | 0 <= i < |ks|
        ensures (pk, ks[i]) in rows
      {
        assert ks[i] in PartitionRowKeys(rows, pk);
        var k :| k in rows && k.0 == pk && k.1 == ks[i];
        assert k == (pk, ks[i]);
      }
    }
    ks
  }

  /** The records of partition `pk` in the order the table service returns
      them: ascending ordinal order of their row keys. */
  function PartitionListing(rows: Rows, pk: string): (list: seq<TimerJobRow>)
    ensures |list| == |AscendingRowKeys(rows, pk)|
    ensures forall i | 0 <= i < |list| :: list[i] == rows[(pk, AscendingRowKeys(rows, pk)[i])]
  {
    var ks := AscendingRowKeys(rows, pk);
    seq(|ks|, i requires 0 <= i < |ks| => rows[(pk, ks[i])])
  }

  /** The listing holds exactly the records of the partition, each once, in
      strictly ascending row-key order. */
  lemma PartitionListingSound(rows: Rows, pk: string)
    requires WellStored(rows)
    ensures var list := PartitionListing(rows, pk);
      && (forall i | 0 <= i < |list| ::
            list[i].partitionKey == Some(pk) && list[i].rowKey.Some? && (pk, list[i].rowKey.value) in rows
            && rows[(pk, list[i].rowKey.value)] == list[i])
      && (forall k | k in rows && k.0 == pk :: rows[k] in list)
      && (forall i, j | 0 <= i < j < |list| :: Ordinal.Less(list[i].rowKey.value, list[j].rowKey.value))
  {
    var ks := AscendingRowKeys(rows, pk);
    var list := PartitionListing(rows, pk);
    assert forall i | 0 <= i < |list| :: list[i].rowKey == Some(ks[i]);
    forall k | k in rows && k.0 == pk
      ensures rows[k] in list
    {
      assert k.1 in PartitionRowKeys(rows, pk);
      var i :| 0 <= i < |ks| && ks[i] == k.1;
      assert list[i] == rows[k];
    }
  }

  /** LINQ `Skip`: a count of zero or less skips nothing. */
  function Skip<X>(s: seq<X>, n: int): seq<X> {
    if n <= 0 then s else if n >= |s| then [] else s[n..]
  }

  /** LINQ `Take`: a count of zero or less takes nothing. */
  function Take<X>(s: seq<X>, n: int): seq<X> {
    if n <= 0 then [] else if n >= |s| then s else s[..n]
  }

  function Max0(n: int): nat { if n < 0 then 0 else n }

  /** `Skip(start).Take(take)`: the window of `s` that begins at `start` and
      holds at most `take` elements. */
  function Page<X>(s: seq<X>, start: int, take: int): (p: seq<X>)
    ensures |p| == Min(Max0(take), Max0(|s| - Max0(start)))
    ensures forall i | 0 <= i < |p| :: Max0(start) + i < |s| && p[i] == s[Max0(start) + i]
  {
    Take(Skip(s, start), take)
  }

  /** Consecutive pages put together are the page that spans both. */
  lemma PagesConcatenate<X>(s: seq<X>, start: int, a: int, b: int)
    requires 0 <= start && 0 <= a && 0 <= b
    ensures Page(s, start, a) + Page(s, start + a, b) == Page(s, start, a + b)
  {
    var p, q, r := Page(s, start, a), Page(s, start + a, b), Page(s, start, a + b);
    assert |p + q| == |r|;
    forall i | 0 <= i < |r|
      ensures (p + q)[i] == r[i]
    {
      if i >= |p| {
        assert (p + q)[i] == q[i - |p|];
      }
    }
  }

  /** One page from the start as large as the listing is the whole listing. */
  lemma WholeListingIsOnePage<X>(s: seq<X>)
    ensures Page(s, 0, |s|) == s
  {
  }

  /** `GetList`: the listing query; a failed query raises. */
  function ListResult(rows: Rows, pk: NullableString, fault: Fault): (r: Result<seq<TimerJobRow>, StoreError>)
    ensures r.Failure? <==> IsNullOrEmpty(pk) || fault.QueryFault?
    ensures !IsNullOrEmpty(pk) && fault.QueryFault? ==> r == Failure(QueryFailed)
    ensures r.Success? ==> r.value == PartitionListing(rows, pk.value)
  {
    if IsNullOrEmpty(pk) then Failure(ArgumentNull("partitionKey"))
    else if fault.QueryFault? then Failure(QueryFailed)
    else Success(PartitionListing(rows, pk.value))
  }

  // ---------------------------------------------------------------------------
  // The helper object

  function RowOf(entity: TimerJob?): Option<TimerJobRow>
    reads entity
  {
    if entity == null then None else Some(entity.Row())
  }

  class TableStorageHelper {
    var rows: Rows

    ghost predicate Valid()
      reads this
    {
      WellStored(rows)
    }

    constructor ()
      ensures Valid() && rows == map[]
    {
      rows := map[];
    }

    /** Rewrites in place every `DateTime.MinValue` date of the entity except `Timestamp`. */
    method FixMinDate(entity: TimerJob)
      modifies entity
      ensures entity.Row() == FixedMinDates(old(entity.Row()))
    {
      if entity.scheduledAppearanceOnInUTC == MinValue {
        entity.scheduledAppearanceOnInUTC := MinSupportedDateTime;
      }
      if entity.lastAppearedOnInUTC == MinValue {
        entity.lastAppearedOnInUTC := MinSupportedDateTime;
      }
      if entity.createdOn == MinValue {
        entity.createdOn := MinSupportedDateTime;
      }
    }

    method Insert(entity: TimerJob?, fault: Fault) returns (r: Outcome<StoreError>)
      requires Valid()
      modifies this, entity
      ensures Valid()
      ensures StoreWrite(rows, r) == InsertResult(old(rows), old(RowOf(entity)), fault)
      ensures entity != null ==> entity.Row() == FixedMinDates(old(entity.Row()))
    {
      if entity == null {
        return Fail(ArgumentNull("entity"));
      }
      FixMinDate(entity);
      if fault.SaveFault? {
        return Fail(SaveFailed);
      }
      var e := entity.Row();
      if e.partitionKey.None? || e.rowKey.None? {
        return Fail(BadRequest);
      }
      var k := (e.partitionKey.value, e.rowKey.value);
      if k in rows {
        return Fail(Conflict);
      }
      rows := rows[k := e];
      r := Pass;
    }

    /** The record under both keys as a fresh object, or null. */
    method Get(pk: NullableString, rk: NullableString, fault: Fault) returns (r: Result<TimerJob?, StoreError>)
      ensures GetResult(rows, pk, rk, fault).Failure? ==> r == Failure(GetResult(rows, pk, rk, fault).error)
      ensures GetResult(rows, pk, rk, fault) == Success(None) ==> r == Success(null)
      ensures GetResult(rows, pk, rk, fault).Success? && GetResult(rows, pk, rk, fault).value.Some? ==>
        r.Success? && r.value != null && fresh(r.value) && r.value.Row() == GetResult(rows, pk, rk, fault).value.value
    {
      var key := KeyArgument(pk, rk);
      if key.Failure? {
        return Failure(key.error);
      }
      if fault.QueryFault? || key.value !in rows {
        return Success(null);
      }
      var found := new TimerJob.FromRow(rows[key.value]);
      r := Success(found);
    }

    method GetList(pk: NullableString, fault: Fault) returns (r: Result<seq<TimerJobRow>, StoreError>)
      ensures r == ListResult(rows, pk, fault)
    {
      if IsNullOrEmpty(pk) {
        return Failure(ArgumentNull("partitionKey"));
      }
      if fault.QueryFault? {
        return Failure(QueryFailed);
      }
      r := Success(PartitionListing(rows, pk.value));
    }

    method GetListPaginated(pk: NullableString, start: int, take: int, fault: Fault)
      returns (r: Result<seq<TimerJobRow>, StoreError>)
      ensures r.Failure? <==> IsNullOrEmpty(pk) || fault.QueryFault?
      ensures r.Success? ==> r.value == Page(PartitionListing(rows, pk.value), start, take)
    {
      if IsNullOrEmpty(pk) {
        return Failure(ArgumentNull("partitionKey"));
      }
      if fault.QueryFault? {
        return Failure(QueryFailed);
      }
      r := Success(Page(PartitionListing(rows, pk.value), start, take));
    }

    /** The reflection loop of the writes: copies `source` onto `target`. */
    method CopyProperties(target: TimerJob, source: TimerJobRow, mode: MergeMode)
      modifies target
      ensures target.Row() == Merge(old(target.Row()), source, mode)
    {
      if CopiesReference(mode, source.serviceName) {
        target.SetServiceName(source.serviceName);
      }
      if CopiesReference(mode, source.timerJobId) {
        target.SetTimerJobId(source.timerJobId);
      }
      assert target.Row() == MergeIdentity(old(target.Row()), source, mode);
      CopyRemaining(target, source, mode);
    }

    method CopyRemaining(target: TimerJob, source: TimerJobRow, mode: MergeMode)
      modifies target
      ensures target.Row() == MergeProperties(old(target.Row()), source, mode)
    {
      var m := MergeProperties(target.Row(), source, mode);
      target.scheduledAppearanceOnInUTC := m.scheduledAppearanceOnInUTC;
      target.recurrenceType := m.recurrenceType;
      target.isActive := m.isActive;
      target.isDelivered := m.isDelivered;
      target.lastAppearedOnInUTC := m.lastAppearedOnInUTC;
      target.brokeredMessageId := m.brokeredMessageId;
      target.createdOn := m.createdOn;
      target.jobComments := m.jobComments;
      target.timerServiceCaller := m.timerServiceCaller;
      target.isProcessed := m.isProcessed;
      target.partitionKey := m.partitionKey;
      target.rowKey := m.rowKey;
      target.timestamp := m.timestamp;
    }

    /** The body shared by `Replace`, `Update` and `OverwriteReferenceTypesOnly`. */
    method WriteMerged(pk: NullableString, rk: NullableString, entity: TimerJob?, mode: MergeMode, fault: Fault)
      returns (r: Outcome<StoreError>)
      requires Valid()
      modifies this, entity
      ensures Valid()
      ensures StoreWrite(rows, r) == WriteResult(old(rows), pk, rk, old(RowOf(entity)), mode, fault)
      ensures entity != null ==>
        entity.Row() == if KeyArgument(pk, rk).Success? then FixedMinDates(old(entity.Row())) else old(entity.Row())
    {
      var key := KeyArgument(pk, rk);
      if key.Failure? {
        return Fail(key.error);
      }
      if entity == null {
        return Fail(ArgumentNull("entity"));
      }
      FixMinDate(entity);
      if fault.QueryFault? {
        return Fail(QueryFailed);
      }
      var k := key.value;
      if k !in rows {
        return Fail(NotFound);
      }
      if fault.SaveFault? {
        return Fail(SaveFailed);
      }
      var existing := new TimerJob.FromRow(rows[k]);
      CopyProperties(existing, entity.Row(), mode);
      var merged := existing.Row();
      if KeyOf(merged) != Some(k) {
        return Fail(BadRequest);
      }
      MergeKeepsDatesFixed(rows[k], entity.Row(), mode);
      rows := rows[k := merged];
      r := Pass;
    }

    method Replace(pk: NullableString, rk: NullableString, entity: TimerJob?, fault: Fault) returns (r: Outcome<StoreError>)
      requires Valid()
      modifies this, entity
      ensures Valid()
      ensures StoreWrite(rows, r) == WriteResult(old(rows), pk, rk, old(RowOf(entity)), ReplaceAll, fault)
    {
      r := WriteMerged(pk, rk, entity, ReplaceAll, fault);
    }

    method Update(pk: NullableString, rk: NullableString, entity: TimerJob?, fault: Fault) returns (r: Outcome<StoreError>)
      requires Valid()
      modifies this, entity
      ensures Valid()
      ensures StoreWrite(rows, r) == WriteResult(old(rows), pk, rk, old(RowOf(entity)), MergeNonNull, fault)
      ensures entity != null ==>
        entity.Row() == if KeyArgument(pk, rk).Success? then FixedMinDates(old(entity.Row())) else old(entity.Row())
    {
      r := WriteMerged(pk, rk, entity, MergeNonNull, fault);
    }

    method OverwriteReferenceTypesOnly(pk: NullableString, rk: NullableString, entity: TimerJob?, fault: Fault)
      returns (r: Outcome<StoreError>)
      requires Valid()
      modifies this, entity
      ensures Valid()
      ensures StoreWrite(rows, r) == WriteResult(old(rows), pk, rk, old(RowOf(entity)), MergeNonDefault, fault)
    {
      r := WriteMerged(pk, rk, entity, MergeNonDefault, fault);
    }

    /** The body shared by `Upsert` and `Repsert`: the write, and on the 404 of
        a missing record, an insert of the same entity; any other failed
        lookup is swallowed. */
    method UpsertMerged(pk: NullableString, rk: NullableString, entity: TimerJob?, mode: MergeMode, fault: Fault)
      returns (r: Outcome<StoreError>)
      requires Valid()
      modifies this, entity
      ensures Valid()
      ensures StoreWrite(rows, r) == UpsertResult(old(rows), pk, rk, old(RowOf(entity)), mode, fault)
    {
      var key := KeyArgument(pk, rk);
      if key.Failure? {
        return Fail(key.error);
      }
      if entity == null {
        return Fail(ArgumentNull("entity"));
      }
      r := WriteMerged(pk, rk, entity, mode, fault);
      if r == Fail(NotFound) {
        r := Insert(entity, fault);
      } else if r == Fail(QueryFailed) {
        r := Pass;
      }
    }

    method Upsert(pk: NullableString, rk: NullableString, entity: TimerJob?, fault: Fault) returns (r: Outcome<StoreError>)
      requires Valid()
      modifies this, entity
      ensures Valid()
      ensures StoreWrite(rows, r) == UpsertResult(old(rows), pk, rk, old(RowOf(entity)), MergeNonNull, fault)
    {
      r := UpsertMerged(pk, rk, entity, MergeNonNull, fault);
    }

    method Repsert(pk: NullableString, rk: NullableString, entity: TimerJob?, fault: Fault) returns (r: Outcome<StoreError>)
      requires Valid()
      modifies this, entity
      ensures Valid()
      ensures StoreWrite(rows, r) == UpsertResult(old(rows), pk, rk, old(RowOf(entity)), ReplaceAll, fault)
    {
      r := UpsertMerged(pk, rk, entity, ReplaceAll, fault);
    }

    method Delete(pk: NullableString, rk: NullableString, fault: Fault) returns (r: Outcome<StoreError>)
      requires Valid()
      modifies this
      ensures Valid()
      ensures StoreWrite(rows, r) == DeleteResult(old(rows), pk, rk, fault)
    {
      var key := KeyArgument(pk, rk);
      if key.Failure? {
        return Fail(key.error);
      }
      if fault.QueryFault? {
        return Fail(QueryFailed);
      }
      if key.value !in rows {
        return Fail(NotFound);
      }
      if fault.SaveFault? {
        return Fail(SaveFailed);
      }
      rows := rows - {key.value};
      r := Pass;
    }

    /** `Delete(partitionKey)`: lists the partition and deletes its records one by one. */
    method DeletePartition(pk: NullableString) returns (r: Result<bool, StoreError>)
      requires Valid()
      modifies this
      ensures Valid()
      ensures r.Success? ==> r.value
      ensures StoreWrite(rows, if r.Success? then Pass else Fail(r.error)) == DeletePartitionResult(old(rows), pk)
    {
      if IsNullOrEmpty(pk) {
        return Failure(ArgumentNull("partitionKey"));
      }
      var listed := GetList(pk, Answered);
      var items := listed.value;
      ghost var original := rows;
      var i := 0;
      while i < |items|
        invariant 0 <= i <= |items|
        invariant Valid()
        invariant rows == original - DeletedKeys(pk.value, items, i)
        invariant i > 0 ==> (pk.value, "") !in original
      {
        var d := DeleteNext(original, pk.value, items, i);
        if d.Fail? {
          return Failure(d.error);
        }
        i := i + 1;
      }
      if (pk.value, "") in original {
        EmptyRowKeyListedFirst(original, pk.value, items);
      }
      PartitionDeleted(original, pk.value, items);
      r := Success(true);
    }

    /** The delete of the `i`-th listed record. */
    method DeleteNext(ghost original: Rows, pk: string, items: seq<TimerJobRow>, i: nat) returns (d: Outcome<StoreError>)
      requires Valid() && WellStored(original) && pk != "" && items == PartitionListing(original, pk) && i < |items|
      requires rows == original - DeletedKeys(pk, items, i)
      requires i > 0 ==> (pk, "") !in original
      modifies this
      ensures Valid()
      ensures d.Pass? ==> (pk, "") !in original && rows == original - DeletedKeys(pk, items, i + 1)
      ensures d.Fail? ==> rows == original && StoreWrite(original, d) == DeletePartitionResult(original, Some(pk))
    {
      d := Delete(items[i].partitionKey, items[i].rowKey, Answered);
      if d.Fail? {
        FailedDeleteIsFirst(original, pk, items, i);
      } else {
        DeleteStepSucceeds(original, pk, items, i);
        if (pk, "") in original {
          EmptyRowKeyListedFirst(original, pk, items);
        }
      }
    }
  }

  /** The keys of the first `i` listed records of partition `pk`. */
  ghost function DeletedKeys(pk: string, items: seq<TimerJobRow>, i: nat): set<Key>
    requires i <= |items|
  {
    set j | 0 <= j < i && items[j].rowKey.Some? :: (pk, items[j].rowKey.value)
  }

  lemma RemoveNothing(m: Rows)
    ensures m - {} == m
  {
  }

  lemma RemoveOneMore(m: Rows, gone: set<Key>, k: Key)
    ensures m - gone - {k} == m - (gone + {k})
  {
  }

  lemma DeletedKeysStep(pk: string, items: seq<TimerJobRow>, i: nat)
    requires i < |items| && items[i].rowKey.Some?
    ensures DeletedKeys(pk, items, i + 1) == DeletedKeys(pk, items, i) + {(pk, items[i].rowKey.value)}
  {
  }

  /** The `i`-th listed record has not been deleted by the deletes before it,
      and only the first listed record can have the empty row key. */
  lemma ListedRecordRemains(original: Rows, pk: string, items: seq<TimerJobRow>, i: nat)
    requires WellStored(original) && items == PartitionListing(original, pk) && i < |items|
    ensures items[i].partitionKey == Some(pk) && items[i].rowKey.Some?
    ensures (pk, items[i].rowKey.value) in original - DeletedKeys(pk, items, i)
    ensures items[i].rowKey == Some("") ==> i == 0
  {
    PartitionListingSound(original, pk);
    var k := (pk, items[i].rowKey.value);
    if k in DeletedKeys(pk, items, i) {
      var j :| 0 <= j < i && items[j].rowKey.Some? && k == (pk, items[j].rowKey.value);
      Ordinal.LessIrreflexive(items[i].rowKey.value);
    }
    if i > 0 {
      Ordinal.EmptyIsLeast(items[0].rowKey.value);
    }
  }

  /** A delete in the loop that succeeds removes one more listed record. */
  lemma DeleteStepSucceeds(original: Rows, pk: string, items: seq<TimerJobRow>, i: nat)
    requires WellStored(original) && items == PartitionListing(original, pk) && i < |items|
    requires DeleteResult(original - DeletedKeys(pk, items, i), items[i].partitionKey, items[i].rowKey, Answered).outcome.Pass?
    ensures items[i].rowKey != Some("")
    ensures DeleteResult(original - DeletedKeys(pk, items, i), items[i].partitionKey, items[i].rowKey, Answered).rows
         == original - DeletedKeys(pk, items, i + 1)
  {
    ListedRecordRemains(original, pk, items, i);
    DeletedKeysStep(pk, items, i);
    RemoveOneMore(original, DeletedKeys(pk, items, i), (pk, items[i].rowKey.value));
  }

  /** A delete in the loop fails only on the first listed record, when its
      row key is empty; by then nothing has been deleted. */
  lemma FailedDeleteIsFirst(original: Rows, pk: string, items: seq<TimerJobRow>, i: nat)
    requires pk != "" && WellStored(original) && items == PartitionListing(original, pk) && i < |items|
    requires DeleteResult(original - DeletedKeys(pk, items, i), items[i].partitionKey, items[i].rowKey, Answered).outcome.Fail?
    ensures i == 0 && (pk, "") in original
    ensures DeletePartitionResult(original, Some(pk)) == StoreWrite(original, Fail(ArgumentNull("rowKey")))
    ensures DeleteResult(original - DeletedKeys(pk, items, i), items[i].partitionKey, items[i].rowKey, Answered)
         == StoreWrite(original, Fail(ArgumentNull("rowKey")))
  {
    ListedRecordRemains(original, pk, items, i);
    assert items[i].rowKey == Some("");
    assert DeletedKeys(pk, items, 0) == {};
    RemoveNothing(original);
  }

  /** A record with the empty row key, when there is one, is listed first. */
  lemma EmptyRowKeyListedFirst(original: Rows, pk: string, items: seq<TimerJobRow>)
    requires WellStored(original) && items == PartitionListing(original, pk)
    requires (pk, "") in original
    ensures |items| > 0 && items[0].rowKey == Some("")
  {
    PartitionListingSound(original, pk);
    var j :| 0 <= j < |items| && items[j] == original[(pk, "")];
    assert StoredAt((pk, ""), original[(pk, "")]);
    ListedRecordRemains(original, pk, items, j);
  }

  /** The keys of the whole listing are exactly the partition's keys. */
  lemma ListedKeysArePartition(original: Rows, pk: string, items: seq<TimerJobRow>)
    requires WellStored(original) && items == PartitionListing(original, pk)
    ensures forall k | k in original :: k in DeletedKeys(pk, items, |items|) <==> k.0 == pk
  {
    PartitionListingSound(original, pk);
    var gone := DeletedKeys(pk, items, |items|);
    forall k | k in original
      ensures k in gone <==> k.0 == pk
    {
      if k.0 == pk {
        var j :| 0 <= j < |items| && items[j] == original[k];
        assert (pk, items[j].rowKey.value) in gone;
      }
    }
  }

  /** Once every listed record is deleted without a failure, the partition is
      gone and the rest of the table is untouched. */
  lemma ListingDeleted(original: Rows, pk: string, items: seq<TimerJobRow>)
    requires WellStored(original) && items == PartitionListing(original, pk)
    ensures original - DeletedKeys(pk, items, |items|) == WithoutPartition(original, pk)
  {
    ListedKeysArePartition(original, pk, items);
  }

  lemma PartitionDeleted(original: Rows, pk: string, items: seq<TimerJobRow>)
    requires pk != "" && WellStored(original) && items == PartitionListing(original, pk)
    requires (pk, "") !in original
    ensures DeletePartitionResult(original, Some(pk)) == StoreWrite(original - DeletedKeys(pk, items, |items|), Pass)
  {
    ListingDeleted(original, pk, items);
    assert DeletePartitionResult(original, Some(pk)) == StoreWrite(WithoutPartition(original, pk), Pass);
  }
}
