/** Quota observations, their dictionary form, and the strict record validators
    (src/deepr/backends/quota_ledger.py). */
module QuotaEvents {
  import opened Options
  import opened Json
  import Text

  datatype EventType =
    | WindowObserved | AttemptObserved | UsageObserved | Exhausted | ResetObserved | OverageStateObserved | Quarantined

  datatype WindowKind = UnknownWindow | Rolling5h | Daily | Weekly | MonthlyCreditPool

  datatype Confidence = VendorReported | Observed | Estimated | UnknownConfidence

  datatype CostModel = OwnedHardware | CreditPool | RollingWindow | CalendarWindow | Metered

  datatype QuotaEvent = QuotaEvent(
    backendId: string,
    eventType: EventType,
    timestamp: int,
    accountId: string,
    costModel: Option<CostModel>,
    windowKind: WindowKind,
    unitsUsed: Option<real>,
    unitsRemaining: Option<real>,
    unitName: string,
    confidence: Confidence,
    windowStart: Option<int>,
    windowEnd: Option<int>,
    resetAt: Option<int>,
    reserveFloor: Option<real>,
    overage: Option<bool>,
    detail: string,
    metadata: seq<Field>,
    idempotencyKey: string)

  /** What reading a record takes from outside: the clock, `str()` of a value that
      is not a string, and `float()` of a string (`None` when it raises or is not
      finite). */
  datatype Env = Env(now: int, str: Json -> string, float: string -> Option<real>)

  // ----- Enumerations -----

  function EventTypeText(t: EventType): string {
    match t
    case WindowObserved => "window_observed"
    case AttemptObserved => "attempt_observed"
    case UsageObserved => "usage_observed"
    case Exhausted => "exhausted"
    case ResetObserved => "reset_observed"
    case OverageStateObserved => "overage_state_observed"
    case Quarantined => "quarantined"
  }

  function ParseEventType(s: string): (r: Option<EventType>)
    ensures forall t: EventType :: EventTypeText(t) == s <==> r == Some(t)
  {
    if s == "window_observed" then Some(WindowObserved)
    else if s == "attempt_observed" then Some(AttemptObserved)
    else if s == "usage_observed" then Some(UsageObserved)
    else if s == "exhausted" then Some(Exhausted)
    else if s == "reset_observed" then Some(ResetObserved)
    else if s == "overage_state_observed" then Some(OverageStateObserved)
    else if s == "quarantined" then Some(Quarantined)
    else None
  }

  function WindowKindText(k: WindowKind): string {
    match k
    case UnknownWindow => "unknown"
    case Rolling5h => "rolling_5h"
    case Daily => "daily"
    case Weekly => "weekly"
    case MonthlyCreditPool => "monthly_credit_pool"
  }

  function ParseWindowKind(s: string): (r: Option<WindowKind>)
    ensures forall k: WindowKind :: WindowKindText(k) == s <==> r == Some(k)
  {
    if s == "unknown" then Some(UnknownWindow)
    else if s == "rolling_5h" then Some(Rolling5h)
    else if s == "daily" then Some(Daily)
    else if s == "weekly" then Some(Weekly)
    else if s == "monthly_credit_pool" then Some(MonthlyCreditPool)
    else None
  }

  function ConfidenceText(c: Confidence): string {
    match c
    case VendorReported => "vendor_reported"
    case Observed => "observed"
    case Estimated => "estimated"
    case UnknownConfidence => "unknown"
  }

  function ParseConfidence(s: string): (r: Option<Confidence>)
    ensures forall c: Confidence :: ConfidenceText(c) == s <==> r == Some(c)
  {
    if s == "vendor_reported" then Some(VendorReported)
    else if s == "observed" then Some(Observed)
    else if s == "estimated" then Some(Estimated)
    else if s == "unknown" then Some(UnknownConfidence)
    else None
  }

  function CostModelText(m: CostModel): string {
    match m
    case OwnedHardware => "owned_hardware"
    case CreditPool => "credit_pool"
    case RollingWindow => "rolling_window"
    case CalendarWindow => "calendar_window"
    case Metered => "metered"
  }

  function ParseCostModel(s: string): (r: Option<CostModel>)
    ensures forall m: CostModel :: CostModelText(m) == s <==> r == Some(m)
  {
    if s == "owned_hardware" then Some(OwnedHardware)
    else if s == "credit_pool" then Some(CreditPool)
    else if s == "rolling_window" then Some(RollingWindow)
    else if s == "calendar_window" then Some(CalendarWindow)
    else if s == "metered" then Some(Metered)
    else None
  }

  // ----- Writing -----

  function OptNum(x: Option<real>): Json { if x.Some? then JNum(x.value) else JNull }

  /** `value.isoformat()` or null; a decimal numeral stands for the ISO 8601 text. */
  function OptTime(t: Option<int>): Json { if t.Some? then JStr(Text.IntText(t.value)) else JNull }

  function OptBool(b: Option<bool>): Json { if b.Some? then JBool(b.value) else JNull }

  function ToDict(e: QuotaEvent): seq<Field> {
    [ Field("timestamp", JStr(Text.IntText(e.timestamp))),
      Field("backend_id", JStr(e.backendId)),
      Field("account_id", JStr(e.accountId)),
      Field("event_type", JStr(EventTypeText(e.eventType))),
      Field("cost_model", if e.costModel.Some? then JStr(CostModelText(e.costModel.value)) else JNull),
      Field("window_kind", JStr(WindowKindText(e.windowKind))),
      Field("units_used", OptNum(e.unitsUsed)),
      Field("units_remaining", OptNum(e.unitsRemaining)),
      Field("unit_name", JStr(e.unitName)),
      Field("remaining_confidence", JStr(ConfidenceText(e.confidence))),
      Field("window_start", OptTime(e.windowStart)),
      Field("window_end", OptTime(e.windowEnd)),
      Field("reset_at", OptTime(e.resetAt)),
      Field("reserve_floor_fraction", OptNum(e.reserveFloor)),
      Field("overage_enabled", OptBool(e.overage)),
      Field("detail", JStr(e.detail)),
      Field("metadata", JObj(e.metadata)),
      Field("idempotency_key", JStr(e.idempotencyKey)) ]
  }

  // ----- Reading -----

  /** What `data` holds under each field the ledger knows; `None` for a missing key. */
  datatype Record = Record(
    timestamp: Option<Json>,
    backendId: Option<Json>,
    accountId: Option<Json>,
    eventType: Option<Json>,
    costModel: Option<Json>,
    windowKind: Option<Json>,
    unitsUsed: Option<Json>,
    unitsRemaining: Option<Json>,
    unitName: Option<Json>,
    confidence: Option<Json>,
    windowStart: Option<Json>,
    windowEnd: Option<Json>,
    resetAt: Option<Json>,
    reserveFloor: Option<Json>,
    overage: Option<Json>,
    detail: Option<Json>,
    metadata: Option<Json>,
    idempotencyKey: Option<Json>)

  function Fields(d: seq<Field>): Record {
    Record(
      Lookup(d, "timestamp"), Lookup(d, "backend_id"), Lookup(d, "account_id"), Lookup(d, "event_type"),
      Lookup(d, "cost_model"), Lookup(d, "window_kind"), Lookup(d, "units_used"), Lookup(d, "units_remaining"),
      Lookup(d, "unit_name"), Lookup(d, "remaining_confidence"), Lookup(d, "window_start"), Lookup(d, "window_end"),
      Lookup(d, "reset_at"), Lookup(d, "reserve_floor_fraction"), Lookup(d, "overage_enabled"), Lookup(d, "detail"),
      Lookup(d, "metadata"), Lookup(d, "idempotency_key"))
  }

  function OrDefault<T>(x: Option<T>, default: T): T { if x.Some? then x.value else default }

  /** `data.get(key)`: a missing key reads like null. */
  function Get(x: Option<Json>): Json { OrDefault(x, JNull) }

  function PyStr(v: Json, env: Env): string { if v.JStr? then v.s else (env.str)(v) }

  /** `str(data.get(key, default))`. */
  function GetStr(x: Option<Json>, default: string, env: Env): string { PyStr(OrDefault(x, JStr(default)), env) }

  predicate Truthy(v: Json) {
    match v
    case JNull => false
    case JBool(b) => b
    case JNum(n) => n != 0.0
    case JNonFinite => true
    case JStr(s) => s != ""
    case JArr(items) => items != []
    case JObj(fields) => fields != []
  }

  /** `_parse_dt`; the outer `None` is the `ValueError` of an unreadable text. */
  function ParseTime(v: Json, env: Env): Option<Option<int>> {
    if !Truthy(v) then Some(None)
    else match Text.ParseInt(PyStr(v, env))
      case None => None
      case Some(t) => Some(Some(t))
  }

  /** `_optional_float`; the outer `None` is a `TypeError` or `ValueError`. */
  function OptionalFloat(v: Json, env: Env): Option<Option<real>> {
    match v
    case JNull => Some(None)
    case JNum(n) => Some(Some(n))
    case JStr(s) => (match (env.float)(s) case None => None case Some(x) => Some(Some(x)))
    case _ => None
  }

  function LowerAscii(s: string): string {
    seq(|s|, i requires 0 <= i < |s| => if 'A' <= s[i] <= 'Z' then (s[i] as int + 32) as char else s[i])
  }

  function OptionalBool(v: Json): Option<bool> {
    match v
    case JNull => None
    case JBool(b) => Some(b)
    case JStr(s) =>
      var lower := LowerAscii(Text.Strip(s, Text.IsSpace));
      if lower in ["true", "1", "yes"] then Some(true)
      else if lower in ["false", "0", "no"] then Some(false)
      else Some(Truthy(v))
    case _ => Some(Truthy(v))
  }

  /** `QuotaLedgerEvent.from_dict`; `None` is a `KeyError`, `TypeError` or
      `ValueError`. */
  function FromRecord(r: Record, env: Env): Option<QuotaEvent> {
    var stamp, start, end, reset := ParseTime(Get(r.timestamp), env), ParseTime(Get(r.windowStart), env),
                                    ParseTime(Get(r.windowEnd), env), ParseTime(Get(r.resetAt), env);
    var used, remaining, floor := OptionalFloat(Get(r.unitsUsed), env), OptionalFloat(Get(r.unitsRemaining), env),
                                  OptionalFloat(Get(r.reserveFloor), env);
    if || stamp.None? || start.None? || end.None? || reset.None?
       || used.None? || remaining.None? || floor.None? || r.backendId.None? then None
    else
      var key := OrDefault(r.idempotencyKey, JStr(""));
      Some(QuotaEvent(
        PyStr(r.backendId.value, env),
        OrDefault(ParseEventType(PyStr(Get(r.eventType), env)), UsageObserved),
        OrDefault(stamp.value, env.now),
        GetStr(r.accountId, "", env),
        if Get(r.costModel).JNull? then None else ParseCostModel(PyStr(Get(r.costModel), env)),
        OrDefault(ParseWindowKind(PyStr(Get(r.windowKind), env)), UnknownWindow),
        used.value,
        remaining.value,
        GetStr(r.unitName, "unknown", env),
        OrDefault(ParseConfidence(PyStr(Get(r.confidence), env)), UnknownConfidence),
        start.value,
        end.value,
        reset.value,
        floor.value,
        OptionalBool(Get(r.overage)),
        GetStr(r.detail, "", env),
        if Get(r.metadata).JObj? then Get(r.metadata).fields else [],
        if Truthy(key) then PyStr(key, env) else ""))
  }

  function FromDict(d: seq<Field>, env: Env): Option<QuotaEvent> { FromRecord(Fields(d), env) }

  // ----- Strict validation -----

  /** The pre-idempotency fields are all present. */
  predicate Complete(r: Record) {
    && r.timestamp.Some? && r.backendId.Some? && r.accountId.Some? && r.eventType.Some? && r.costModel.Some?
    && r.windowKind.Some? && r.unitsUsed.Some? && r.unitsRemaining.Some? && r.unitName.Some? && r.confidence.Some?
    && r.windowStart.Some? && r.windowEnd.Some? && r.resetAt.Some? && r.reserveFloor.Some? && r.overage.Some?
    && r.detail.Some? && r.metadata.Some?
  }

  predicate ValidHeader(r: Record) {
    && Complete(r)
    && r.backendId.value.JStr? && Text.Strip(r.backendId.value.s, Text.IsSpace) != []
    && r.timestamp.value.JStr? && r.timestamp.value.s != ""
    && r.eventType.value.JStr? && ParseEventType(r.eventType.value.s).Some?
  }

  predicate ValidQuotaFields(r: Record) {
    && Get(r.accountId).JStr?
    && (Get(r.costModel).JNull? || (Get(r.costModel).JStr? && ParseCostModel(Get(r.costModel).s).Some?))
    && Get(r.windowKind).JStr? && ParseWindowKind(Get(r.windowKind).s).Some?
    && (Get(r.unitsUsed).JNull? || Get(r.unitsUsed).JNum?)
    && (Get(r.unitsRemaining).JNull? || Get(r.unitsRemaining).JNum?)
    && Get(r.unitName).JStr?
    && Get(r.confidence).JStr? && ParseConfidence(Get(r.confidence).s).Some?
  }

  predicate NullOrText(v: Json) { v.JNull? || v.JStr? }

  predicate ValidWindowFields(r: Record) {
    && NullOrText(Get(r.windowStart)) && NullOrText(Get(r.windowEnd)) && NullOrText(Get(r.resetAt))
    && (Get(r.reserveFloor).JNull? || Get(r.reserveFloor).JNum?)
    && (Get(r.overage).JNull? || Get(r.overage).JBool?)
    && Get(r.detail).JStr?
  }

  predicate ValidIdentityFields(r: Record) {
    && OrDefault(r.idempotencyKey, JStr("")).JStr?
    && OrDefault(r.metadata, JObj([])).JObj?
  }

  /** `_validate_accounting_record_shape`. */
  predicate ValidRecord(r: Record) {
    ValidHeader(r) && ValidQuotaFields(r) && ValidWindowFields(r) && ValidIdentityFields(r)
  }

  predicate ValidShape(d: seq<Field>) { ValidRecord(Fields(d)) }

  // ----- Identity of observations -----

  /** `_same_idempotent_observation`: everything but timestamp, prose and key. */
  predicate SameObservation(a: QuotaEvent, b: QuotaEvent) {
    && a.(timestamp := 0, detail := "", metadata := [], idempotencyKey := "")
       == b.(timestamp := 0, detail := "", metadata := [], idempotencyKey := "")
    && PyEq(JObj(a.metadata), JObj(b.metadata))
  }

  /** What `_validate_record_request` demands of the caller's event. */
  predicate ValidRequest(e: QuotaEvent) { Text.Strip(e.backendId, Text.IsSpace) != [] }

  /** Metadata that is a JSON-native dictionary. */
  ghost predicate NativeMetadata(e: QuotaEvent) { Native(JObj(e.metadata)) }

  // ----- Properties -----

  /** The canonical fields are told apart by their length and first letter. */
  function KeyIndex(n: nat, c: char): int {
    if n == 9 && c == 't' then 0
    else if n == 10 && c == 'b' then 1
    else if n == 10 && c == 'a' then 2
    else if n == 10 && c == 'e' then 3
    else if n == 10 && c == 'c' then 4
    else if n == 11 && c == 'w' then 5
    else if n == 10 && c == 'u' then 6
    else if n == 15 && c == 'u' then 7
    else if n == 9 && c == 'u' then 8
    else if n == 20 && c == 'r' then 9
    else if n == 12 && c == 'w' then 10
    else if n == 10 && c == 'w' then 11
    else if n == 8 && c == 'r' then 12
    else if n == 22 && c == 'r' then 13
    else if n == 15 && c == 'o' then 14
    else if n == 6 && c == 'd' then 15
    else if n == 8 && c == 'm' then 16
    else if n == 15 && c == 'i' then 17
    else -1
  }

  lemma ToDictIndex(e: QuotaEvent, i: nat)
    requires i < 18
    ensures ToDict(e)[i].key != "" && KeyIndex(|ToDict(e)[i].key|, ToDict(e)[i].key[0]) == i
  {
  }

  lemma ToDictKeys(e: QuotaEvent)
    ensures DistinctKeys(ToDict(e))
    ensures forall i | 0 <= i < |ToDict(e)| :: Lookup(ToDict(e), ToDict(e)[i].key) == Some(ToDict(e)[i].value)
  {
    var d := ToDict(e);
    assert |d| == 18;
    forall i, j | 0 <= i < j < |d| ensures d[i].key != d[j].key {
      ToDictIndex(e, i);
      ToDictIndex(e, j);
    }
    forall i | 0 <= i < |d| ensures Lookup(d, d[i].key) == Some(d[i].value) { LookupDistinct(d, i); }
  }

  lemma TimeRoundTrip(t: Option<int>, env: Env)
    ensures ParseTime(OptTime(t), env) == Some(t)
  {
    if t.Some? { Text.IntRoundTrip(t.value); }
  }

  lemma ToDictLookup(e: QuotaEvent, i: nat)
    requires i < 18
    ensures Lookup(ToDict(e), ToDict(e)[i].key) == Some(ToDict(e)[i].value)
  {
    ToDictKeys(e);
  }

  /** The record a written event reads back as. */
  function Written(e: QuotaEvent): Record {
    Record(
      Some(JStr(Text.IntText(e.timestamp))), Some(JStr(e.backendId)), Some(JStr(e.accountId)),
      Some(JStr(EventTypeText(e.eventType))),
      Some(if e.costModel.Some? then JStr(CostModelText(e.costModel.value)) else JNull),
      Some(JStr(WindowKindText(e.windowKind))), Some(OptNum(e.unitsUsed)), Some(OptNum(e.unitsRemaining)),
      Some(JStr(e.unitName)), Some(JStr(ConfidenceText(e.confidence))), Some(OptTime(e.windowStart)),
      Some(OptTime(e.windowEnd)), Some(OptTime(e.resetAt)), Some(OptNum(e.reserveFloor)), Some(OptBool(e.overage)),
      Some(JStr(e.detail)), Some(JObj(e.metadata)), Some(JStr(e.idempotencyKey)))
  }

  lemma WrittenFields(e: QuotaEvent)
    ensures Fields(ToDict(e)) == Written(e)
  {
    ToDictLookup(e, 0);
    ToDictLookup(e, 1);
    ToDictLookup(e, 2);
    ToDictLookup(e, 3);
    ToDictLookup(e, 4);
    ToDictLookup(e, 5);
    ToDictLookup(e, 6);
    ToDictLookup(e, 7);
    ToDictLookup(e, 8);
    ToDictLookup(e, 9);
    ToDictLookup(e, 10);
    ToDictLookup(e, 11);
    ToDictLookup(e, 12);
    ToDictLookup(e, 13);
    ToDictLookup(e, 14);
    ToDictLookup(e, 15);
    ToDictLookup(e, 16);
    ToDictLookup(e, 17);
  }

  /** `from_dict(to_dict(e)) == e`, whatever the clock says. */
  lemma EventRoundTrip(e: QuotaEvent, env: Env)
    ensures FromDict(ToDict(e), env) == Some(e)
  {
    WrittenFields(e);
    RecordRoundTrip(e, env);
  }

  lemma RecordRoundTrip(e: QuotaEvent, env: Env)
    ensures FromRecord(Written(e), env) == Some(e)
  {
    TimeRoundTrip(Some(e.timestamp), env);
    TimeRoundTrip(e.windowStart, env);
    TimeRoundTrip(e.windowEnd, env);
    TimeRoundTrip(e.resetAt, env);
  }

  /** Whatever the ledger accepts to write, its own strict scan accepts. */
  lemma WrittenIsValid(e: QuotaEvent)
    ensures ValidShape(ToDict(e)) <==> ValidRequest(e)
  {
    WrittenFields(e);
    WrittenRecordIsValid(e);
  }

  lemma WrittenRecordIsValid(e: QuotaEvent)
    ensures ValidRecord(Written(e)) <==> ValidRequest(e)
  {
    hide ValidHeader, ValidQuotaFields, ValidWindowFields, ValidIdentityFields, ValidRequest, Written;
    WrittenHeaderIsValid(e);
    WrittenFieldsAreValid(e);
  }

  lemma WrittenHeaderIsValid(e: QuotaEvent)
    ensures ValidHeader(Written(e)) <==> ValidRequest(e)
  {
  }

  lemma WrittenFieldsAreValid(e: QuotaEvent)
    ensures ValidQuotaFields(Written(e)) && ValidWindowFields(Written(e)) && ValidIdentityFields(Written(e))
  {
  }

  /** A record of valid shape reads the same under every clock and conversion. */
  lemma ValidReadsAlike(d: seq<Field>, env1: Env, env2: Env)
    requires ValidShape(d)
    ensures FromDict(d, env1) == FromDict(d, env2)
  {
    ValidRecordReadsAlike(Fields(d), env1, env2);
  }

  /** Reading a valid record and writing it back restores every field but the times, whose text
      is normalized, and a missing key, which is written as the empty one: so a valid record is
      one that names known enumeration values and holds the types that are written. */
  lemma ValidRewrites(d: seq<Field>, env: Env)
    requires ValidShape(d) && FromDict(d, env).Some?
    ensures var e := FromDict(d, env).value;
            var before, after := Fields(d), Fields(ToDict(e));
            && after.backendId == before.backendId && after.accountId == before.accountId
            && after.eventType == before.eventType && after.costModel == before.costModel
            && after.windowKind == before.windowKind && after.confidence == before.confidence
            && after.unitsUsed == before.unitsUsed && after.unitsRemaining == before.unitsRemaining
            && after.unitName == before.unitName && after.reserveFloor == before.reserveFloor
            && after.overage == before.overage && after.detail == before.detail && after.metadata == before.metadata
            && (before.idempotencyKey.Some? ==> after.idempotencyKey == before.idempotencyKey)
            && (before.idempotencyKey.None? ==> after.idempotencyKey == Some(JStr("")))
            && Retimed(before.timestamp, after.timestamp) && Retimed(before.windowStart, after.windowStart)
            && Retimed(before.windowEnd, after.windowEnd) && Retimed(before.resetAt, after.resetAt)
  {
    WrittenFields(FromDict(d, env).value);
    hide ToDict, Fields;
    RecordRewrites(Fields(d), env);
  }

  /** How a record is read that need not be valid: names that are unknown fall back, a missing
      time of the observation is now, a missing account is empty, metadata that is no object is
      dropped, and the reading fails exactly without a backend or on a time or number that cannot
      be read. */
  lemma LenientMeans(r: Record, env: Env)
    ensures FromRecord(r, env).Some? <==>
              && r.backendId.Some?
              && (forall v <- [r.timestamp, r.windowStart, r.windowEnd, r.resetAt] :: ParseTime(Get(v), env).Some?)
              && (forall v <- [r.unitsUsed, r.unitsRemaining, r.reserveFloor] :: OptionalFloat(Get(v), env).Some?)
    ensures FromRecord(r, env).Some? ==>
              var e := FromRecord(r, env).value;
              && (e.eventType == UsageObserved
                  || EventTypeText(e.eventType) == PyStr(Get(r.eventType), env))
              && (e.windowKind == UnknownWindow || WindowKindText(e.windowKind) == PyStr(Get(r.windowKind), env))
              && (e.confidence == UnknownConfidence || ConfidenceText(e.confidence) == PyStr(Get(r.confidence), env))
              && (e.costModel.Some? ==>
                    Get(r.costModel) != JNull && CostModelText(e.costModel.value) == PyStr(Get(r.costModel), env))
              && (forall t: EventType :: EventTypeText(t) == PyStr(Get(r.eventType), env) ==> e.eventType == t)
              && (forall k: WindowKind :: WindowKindText(k) == PyStr(Get(r.windowKind), env) ==> e.windowKind == k)
              && (forall c: Confidence :: ConfidenceText(c) == PyStr(Get(r.confidence), env) ==> e.confidence == c)
              && (forall m: CostModel :: Get(r.costModel) != JNull && CostModelText(m) == PyStr(Get(r.costModel), env)
                    ==> e.costModel == Some(m))
              && (Get(r.timestamp) in {JNull, JStr("")} ==> e.timestamp == env.now)
              && (Get(r.windowStart) in {JNull, JStr("")} ==> e.windowStart == None)
              && (Get(r.windowEnd) in {JNull, JStr("")} ==> e.windowEnd == None)
              && (Get(r.resetAt) in {JNull, JStr("")} ==> e.resetAt == None)
              && (r.accountId.None? ==> e.accountId == "") && (r.unitName.None? ==> e.unitName == "unknown")
              && (r.detail.None? ==> e.detail == "")
              && (Get(r.idempotencyKey) in {JNull, JBool(false), JNum(0.0)} ==> e.idempotencyKey == "")
              && JObj(e.metadata) == (if r.metadata.Some? && r.metadata.value.JObj? then r.metadata.value else JObj([]))
              && e.overage == OptionalBool(Get(r.overage))
  {
    hide Text.ParseInt, OptionalBool, EventTypeText, WindowKindText, ConfidenceText, CostModelText;
    hide ParseEventType, ParseWindowKind, ParseConfidence, ParseCostModel;
  }

  lemma LowerMeans(s: string, k: nat)
    requires k < |s|
    ensures |LowerAscii(s)| == |s|
    ensures 'A' <= s[k] <= 'Z' ==> LowerAscii(s)[k] as int - 'a' as int == s[k] as int - 'A' as int
    ensures !('A' <= s[k] <= 'Z') ==> LowerAscii(s)[k] == s[k]
  {
  }

  /** Null says nothing about overage, a boolean and its usual texts say what they say, and any
      other value counts as set unless it is empty or zero. */
  lemma OverageMeans(v: Json)
    ensures v.JNull? <==> OptionalBool(v) == None
    ensures v.JBool? ==> OptionalBool(v) == Some(v.b)
    ensures v.JNum? ==> OptionalBool(v) == Some(v.n != 0.0)
    ensures v.JStr? ==>
              var text := LowerAscii(Text.Strip(v.s, Text.IsSpace));
              && (text == "true" || text == "1" || text == "yes" ==> OptionalBool(v) == Some(true))
              && (text == "false" || text == "0" || text == "no" ==> OptionalBool(v) == Some(false))
              && (text !in {"true", "1", "yes", "false", "0", "no"} ==> OptionalBool(v) == Some(v.s != ""))
  {
    hide LowerAscii, Text.Strip;
  }

  /** The two texts say the same time, or neither says any. */
  ghost predicate Retimed(before: Option<Json>, after: Option<Json>) {
    match before
    case Some(JStr(s)) =>
      if s == "" then after == Some(JNull)
      else
        && after.Some? && after.value.JStr? && Text.ParseInt(s).Some?
        && Text.ParseInt(after.value.s) == Text.ParseInt(s)
    case _ => before == after == Some(JNull)
  }

  lemma RecordRewrites(r: Record, env: Env)
    requires ValidRecord(r) && FromRecord(r, env).Some?
    ensures var w := Written(FromRecord(r, env).value);
            && w.backendId == r.backendId && w.accountId == r.accountId && w.eventType == r.eventType
            && w.costModel == r.costModel && w.windowKind == r.windowKind && w.confidence == r.confidence
            && w.unitsUsed == r.unitsUsed && w.unitsRemaining == r.unitsRemaining && w.unitName == r.unitName
            && w.reserveFloor == r.reserveFloor && w.overage == r.overage && w.detail == r.detail
            && w.metadata == r.metadata
            && (r.idempotencyKey.Some? ==> w.idempotencyKey == r.idempotencyKey)
            && (r.idempotencyKey.None? ==> w.idempotencyKey == Some(JStr("")))
            && Retimed(r.timestamp, w.timestamp) && Retimed(r.windowStart, w.windowStart)
            && Retimed(r.windowEnd, w.windowEnd) && Retimed(r.resetAt, w.resetAt)
  {
    hide ParseEventType, ParseWindowKind, ParseConfidence, ParseCostModel, OptionalBool, Text.ParseInt, Text.IntText;
    var e := FromRecord(r, env).value;
    EnumerationsRewrite(r, e, env);
    TimeRewrites(r.timestamp.value, env);
    TimeRewrites(r.windowStart.value, env);
    TimeRewrites(r.windowEnd.value, env);
    TimeRewrites(r.resetAt.value, env);
  }

  lemma EnumerationsRewrite(r: Record, e: QuotaEvent, env: Env)
    requires ValidRecord(r) && FromRecord(r, env) == Some(e)
    ensures r.eventType == Some(JStr(EventTypeText(e.eventType)))
    ensures r.windowKind == Some(JStr(WindowKindText(e.windowKind)))
    ensures r.confidence == Some(JStr(ConfidenceText(e.confidence)))
    ensures r.costModel == Some(if e.costModel.Some? then JStr(CostModelText(e.costModel.value)) else JNull)
    ensures r.overage == Some(OptBool(e.overage))
  {
    hide ParseTime, OptionalFloat;
  }

  lemma TimeRewrites(v: Json, env: Env)
    requires NullOrText(v) && ParseTime(v, env).Some?
    ensures Retimed(Some(v), Some(OptTime(ParseTime(v, env).value)))
  {
    hide Text.ParseInt, Text.IntText;
    var t := ParseTime(v, env).value;
    if t.Some? { Text.IntRoundTrip(t.value); }
  }

  lemma ValidRecordReadsAlike(r: Record, env1: Env, env2: Env)
    requires ValidRecord(r)
    ensures FromRecord(r, env1) == FromRecord(r, env2)
  {
    hide ParseEventType, ParseWindowKind, ParseConfidence, ParseCostModel, OptionalBool;
  }

  lemma SameObservationReflexive(e: QuotaEvent)
    requires NativeMetadata(e)
    ensures SameObservation(e, e)
  {
    PyEqReflexive(JObj(e.metadata));
  }

  lemma ToDictNative(e: QuotaEvent)
    requires NativeMetadata(e)
    ensures Native(JObj(ToDict(e)))
  {
    ToDictKeys(e);
    forall f | f in ToDict(e) ensures Native(f.value) {
      var i :| 0 <= i < |ToDict(e)| && ToDict(e)[i] == f;
      ToDictNativeAt(e, i);
    }
  }

  lemma ToDictNativeAt(e: QuotaEvent, i: nat)
    requires NativeMetadata(e) && i < 18
    ensures Native(ToDict(e)[i].value)
  {
    ToDictScalars(e, i);
  }

  lemma ToDictScalars(e: QuotaEvent, i: nat)
    requires i < 18
    ensures var v := ToDict(e)[i].value;
            if i == 16 then v == JObj(e.metadata) else v.JNull? || v.JBool? || v.JNum? || v.JStr?
  {
  }
}
