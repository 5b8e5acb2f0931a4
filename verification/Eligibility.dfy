/** Quota states and the routing gate over them (src/deepr/backends/quota_ledger.py,
    src/deepr/backends/eligibility.py). */
module Eligibility {
  import opened Options
  import opened Json
  import opened QuotaEvents
  import opened LatestEvents
  import opened Sorting
  import opened QuotaSnapshots
  import Text

  // ----- Quota states -----

  datatype QuotaState = QuotaState(
    backendId: string,
    accountId: string,
    latest: QuotaEvent,
    exhausted: bool,
    quarantined: bool)

  function StateKey(s: QuotaState): string {
    if s.accountId != "" then s.backendId + ":" + s.accountId else s.backendId
  }

  function AccountOf(e: QuotaEvent): (string, string) { (e.backendId, e.accountId) }

  function StampOf(e: QuotaEvent): int { e.timestamp }

  function StateOf(e: QuotaEvent): QuotaState {
    QuotaState(e.backendId, e.accountId, e, e.eventType == Exhausted, e.eventType == Quarantined)
  }

  function ByKey(a: QuotaState, b: QuotaState): bool { Text.StrLe(StateKey(a), StateKey(b)) }

  function States(events: seq<QuotaEvent>): (r: seq<QuotaState>)
    ensures |r| == |events| && forall i :: 0 <= i < |r| ==> r[i] == StateOf(events[i])
  {
    seq(|events|, i requires 0 <= i < |events| => StateOf(events[i]))
  }

  /** `summarize`: one state per account, from its latest event, in key order. */
  function Summarize(events: seq<QuotaEvent>): seq<QuotaState> {
    Sorted(States(Latest(events, AccountOf, StampOf)), ByKey)
  }

  // ----- Backends -----

  datatype Kind = Local | PlanQuota | ApiMetered

  datatype Backend = Backend(
    id: string,
    kind: Kind,
    costModel: CostModel,
    available: bool,
    taskClasses: seq<string>,
    requiresLedger: bool)

  predicate IsMetered(b: Backend) { b.kind == ApiMetered || b.costModel == Metered }

  predicate Supports(b: Backend, task: string) { b.taskClasses == [] || task in b.taskClasses }

  // ----- Decisions -----

  datatype Status =
    | Eligible
    | Unavailable
    | TaskUnsupported
    | MeteredRequiresBudget
    | QuotaUnknown
    | QuotaExhausted
    | QuotaQuarantined
    | QuotaOverageEnabled
    | ReserveFloorReached

  datatype Decision = Decision(status: Status, state: Option<QuotaState>)

  /** `_number_from_metadata`. */
  function MetadataNumber(metadata: seq<Field>, key: string, env: Env): Option<real> {
    match Lookup(metadata, key)
    case None => None
    case Some(v) => if v.JStr? then (env.float)(v.s) else Number(v)
  }

  predicate AtReserveFloor(e: QuotaEvent, env: Env) {
    if e.unitsRemaining.None? then false
    else
      var reserve := MetadataNumber(e.metadata, "reserve_floor_units", env);
      if reserve.Some? then e.unitsRemaining.value <= reserve.value
      else if e.reserveFloor.None? then false
      else
        var total := MetadataNumber(e.metadata, "units_total", env);
        var total' := if total.Some? then total else MetadataNumber(e.metadata, "quota_units_total", env);
        total'.Some? && e.unitsRemaining.value <= total'.value * e.reserveFloor.value
  }

  predicate RemainingUnknown(e: QuotaEvent) { e.unitsRemaining.None? || e.confidence == UnknownConfidence }

  /** `_decision_for_quota_state`. */
  function Judge(s: QuotaState, requireObserved: bool, env: Env): Status {
    if s.quarantined then QuotaQuarantined
    else if s.latest.overage == Some(true) then QuotaOverageEnabled
    else if s.exhausted then QuotaExhausted
    else if AtReserveFloor(s.latest, env) then ReserveFloorReached
    else if requireObserved && RemainingUnknown(s.latest) then QuotaUnknown
    else Eligible
  }

  function BlockPriority(s: Status): nat {
    match s
    case QuotaQuarantined => 0
    case QuotaOverageEnabled => 1
    case QuotaExhausted => 2
    case ReserveFloorReached => 3
    case QuotaUnknown => 4
    case _ => 99
  }

  /** The states of one backend. */
  function Matching(states: seq<QuotaState>, id: string): (r: seq<QuotaState>)
    ensures forall s :: s in r <==> s in states && s.backendId == id
  {
    if states == [] then []
    else (if states[0].backendId == id then [states[0]] else []) + Matching(states[1..], id)
  }

  /** The first eligible state, if any. */
  function FirstEligible(states: seq<QuotaState>, requireObserved: bool, env: Env): Option<QuotaState> {
    if states == [] then None
    else if Judge(states[0], requireObserved, env) == Eligible then Some(states[0])
    else FirstEligible(states[1..], requireObserved, env)
  }

  /** Python's `min` by block priority: the first of the least. */
  function FirstWorst(states: seq<QuotaState>, requireObserved: bool, env: Env): QuotaState
    requires states != []
  {
    if |states| == 1 then states[0]
    else
      var rest := FirstWorst(states[1..], requireObserved, env);
      if BlockPriority(Judge(states[0], requireObserved, env)) <= BlockPriority(Judge(rest, requireObserved, env))
      then states[0] else rest
  }

  /** `evaluate_backend_eligibility`. */
  function Evaluate(b: Backend, states: seq<QuotaState>, task: string, allowMetered: bool, requireObserved: bool,
                    env: Env)
    : Decision
  {
    if !b.available then Decision(Unavailable, None)
    else if task != "" && !Supports(b, task) then Decision(TaskUnsupported, None)
    else if IsMetered(b) && !allowMetered then Decision(MeteredRequiresBudget, None)
    else if !b.requiresLedger then Decision(Eligible, None)
    else
      var matching := Sorted(Matching(states, b.id), ByKey);
      if matching == [] then Decision(if requireObserved then QuotaUnknown else Eligible, None)
      else
        var first := FirstEligible(matching, requireObserved, env);
        if first.Some? then Decision(Eligible, first)
        else
          var worst := FirstWorst(matching, requireObserved, env);
          Decision(Judge(worst, requireObserved, env), Some(worst))
  }

  // ----- Order independence -----

  /** How the gate ranks a state: eligible ones first, blocked ones by priority. */
  function Rank(s: QuotaState, requireObserved: bool, env: Env): int {
    var status := Judge(s, requireObserved, env);
    if status == Eligible then -1 else BlockPriority(status)
  }

  /** `s` is a least state by rank, then by key. */
  ghost predicate IsBest(s: QuotaState, states: seq<QuotaState>, requireObserved: bool, env: Env) {
    && s in states
    && forall t <- states ::
         var (rs, rt) := (Rank(s, requireObserved, env), Rank(t, requireObserved, env));
         rs < rt || (rs == rt && ByKey(s, t))
  }

  lemma KeyOrder()
    ensures TotalPreorder(ByKey)
  {
    forall a: QuotaState, b: QuotaState ensures ByKey(a, b) || ByKey(b, a) {
      Text.StrLeTotal(StateKey(a), StateKey(b));
    }
    forall a: QuotaState, b: QuotaState, c: QuotaState | ByKey(a, b) && ByKey(b, c) ensures ByKey(a, c) {
      Text.StrLeTransitive(StateKey(a), StateKey(b), StateKey(c));
    }
  }

  lemma {:induction false} FirstEligibleIsBest(states: seq<QuotaState>, requireObserved: bool, env: Env)
    requires InOrder(states, ByKey)
    ensures var r := FirstEligible(states, requireObserved, env);
            && (r.None? <==> forall s <- states :: Judge(s, requireObserved, env) != Eligible)
            && (r.Some? ==>
                  IsBest(r.value, states, requireObserved, env) && Judge(r.value, requireObserved, env) == Eligible)
  {
    hide Judge, BlockPriority, Text.StrLe, StateKey;
    if states != [] {
      assert states == [states[0]] + states[1..];
      FirstEligibleIsBest(states[1..], requireObserved, env);
      if Judge(states[0], requireObserved, env) == Eligible {
        forall t | t in states ensures ByKey(states[0], t) {
          var j :| 0 <= j < |states| && states[j] == t;
          if j == 0 { Text.StrLeTotal(StateKey(t), StateKey(t)); }
        }
      }
    }
  }

  lemma {:induction false} FirstWorstIsBest(states: seq<QuotaState>, requireObserved: bool, env: Env)
    requires states != [] && InOrder(states, ByKey)
    requires forall s <- states :: Judge(s, requireObserved, env) != Eligible
    ensures IsBest(FirstWorst(states, requireObserved, env), states, requireObserved, env)
  {
    hide Judge, BlockPriority, Text.StrLe, StateKey;
    assert states == [states[0]] + states[1..];
    Text.StrLeTotal(StateKey(states[0]), StateKey(states[0]));
    if |states| > 1 {
      FirstWorstIsBest(states[1..], requireObserved, env);
      forall t | t in states[1..] ensures ByKey(states[0], t) {
        var j :| 0 <= j < |states[1..]| && states[1..][j] == t;
        assert states[j + 1] == t;
      }
    }
  }

  /** The account the gate reports is the best one by rank, then key: eligible if any
      account is, else the most serious block. */
  lemma ReportsBestAccount(b: Backend, states: seq<QuotaState>, task: string, allowMetered: bool,
                           requireObserved: bool, env: Env)
    ensures var d := Evaluate(b, states, task, allowMetered, requireObserved, env);
            d.state.Some? ==> IsBest(d.state.value, Matching(states, b.id), requireObserved, env)
                              && d.status == Judge(d.state.value, requireObserved, env)
    ensures var d := Evaluate(b, states, task, allowMetered, requireObserved, env);
            d.state.None? && b.available && b.requiresLedger && (task == "" || Supports(b, task))
              && (allowMetered || !IsMetered(b))
            ==> Matching(states, b.id) == []
  {
    hide Judge, BlockPriority, Text.StrLe, StateKey, IsBest, Matching, TotalPreorder;
    var matching := Matching(states, b.id);
    var ordered := Sorted(matching, ByKey);
    KeyOrder();
    SortedInOrder(matching, ByKey);
    SortedMembers(matching, ByKey);
    FirstEligibleIsBest(ordered, requireObserved, env);
    if ordered != [] && FirstEligible(ordered, requireObserved, env).None? {
      FirstWorstIsBest(ordered, requireObserved, env);
      SameBest(FirstWorst(ordered, requireObserved, env), ordered, matching, requireObserved, env);
    } else if ordered != [] {
      SameBest(FirstEligible(ordered, requireObserved, env).value, ordered, matching, requireObserved, env);
    }
  }

  lemma SameBest(s: QuotaState, states: seq<QuotaState>, other: seq<QuotaState>, requireObserved: bool, env: Env)
    requires IsBest(s, states, requireObserved, env) && forall t :: t in states <==> t in other
    ensures IsBest(s, other, requireObserved, env)
  {
  }

  ghost predicate DistinctAccounts(states: seq<QuotaState>) {
    forall s, t :: s in states && t in states && s.backendId == t.backendId && s.accountId == t.accountId ==> s == t
  }

  /** Within one backend the key determines the account. */
  lemma KeyDeterminesAccount(s: QuotaState, t: QuotaState)
    requires s.backendId == t.backendId && StateKey(s) == StateKey(t)
    ensures s.accountId == t.accountId
  {
    if s.accountId != "" && t.accountId != "" {
      var n := |s.backendId| + 1;
      assert StateKey(s)[n..] == s.accountId && StateKey(t)[n..] == t.accountId;
    } else {
      assert |StateKey(s)| == |StateKey(t)|;
    }
  }

  /** The decision does not depend on the order of the quota states. */
  lemma EvaluateIgnoresOrder(b: Backend, states: seq<QuotaState>, other: seq<QuotaState>, task: string,
                             allowMetered: bool, requireObserved: bool, env: Env)
    requires multiset(states) == multiset(other) && DistinctAccounts(states)
    ensures Evaluate(b, states, task, allowMetered, requireObserved, env)
         == Evaluate(b, other, task, allowMetered, requireObserved, env)
  {
    forall s ensures s in states <==> s in other { assert s in multiset(states) <==> s in multiset(other); }
    var m, n := Matching(states, b.id), Matching(other, b.id);
    assert forall s :: s in m <==> s in n;
    assert m == [] <==> n == [] by {
      if m != [] { assert m[0] in n; }
      if n != [] { assert n[0] in m; }
    }
    ReportsBestAccount(b, states, task, allowMetered, requireObserved, env);
    ReportsBestAccount(b, other, task, allowMetered, requireObserved, env);
    EvaluateShape(b, states, task, allowMetered, requireObserved, env);
    EvaluateShape(b, other, task, allowMetered, requireObserved, env);
    hide Evaluate, Judge, Matching;
    var d := Evaluate(b, states, task, allowMetered, requireObserved, env);
    var d' := Evaluate(b, other, task, allowMetered, requireObserved, env);
    if d.state.Some? {
      var s, t := d.state.value, d'.state.value;
      assert s in n && t in m;
      Text.StrLeTotal(StateKey(s), StateKey(t));
      KeyDeterminesAccount(s, t);
    }
  }

  /** Which decisions carry an account, and the status of those that do not. */
  lemma EvaluateShape(b: Backend, states: seq<QuotaState>, task: string, allowMetered: bool, requireObserved: bool,
                      env: Env)
    ensures var d := Evaluate(b, states, task, allowMetered, requireObserved, env);
            var gated := b.available && (task == "" || Supports(b, task)) && (allowMetered || !IsMetered(b))
              && b.requiresLedger;
            && (d.state.Some? <==> gated && Matching(states, b.id) != [])
            && (d.state.None? ==> d == Evaluate(b, [], task, allowMetered, requireObserved, env))
  {
  }

  // ----- End-to-end safety -----

  lemma UnitsTotal(s: Snapshot, now: int, env: Env)
    requires Available(s, now).window.Some? && Available(s, now).window.value.unitsLimit.Some?
    ensures MetadataNumber(EventMetadata(s, now), "units_total", env) == Available(s, now).window.value.unitsLimit
  {
    hide BaseMetadata, Available, PutAll;
    var w := Available(s, now).window.value;
    LookupPut(PutAll(BaseMetadata(s, now), s.metadata), "units_total", JNum(w.unitsLimit.value), "units_total");
  }

  /** The snapshot's metadata names no absolute reserve. */
  predicate NoUnitReserve(s: Snapshot, now: int, env: Env) {
    MetadataNumber(EventMetadata(s, now), "reserve_floor_units", env).None?
  }

  /** Exactly when the state made from a snapshot is eligible under observed quota. */
  lemma SnapshotJudgement(s: Snapshot, now: int, floor: Option<real>, env: Env)
    ensures Judge(StateOf(ToEvent(s, now, floor)), true, env) == Eligible
      <==> && s.ok && s.overage != Some(true)
           && Binding(s.windows, now).Some?
           && (var w := Binding(s.windows, now).value;
               && UnitsRemaining(w, now).Some?
               && Headroom(w, now).Some? && Headroom(w, now).value > 0.0
               && !AtReserveFloor(ToEvent(s, now, floor), env))
  {
    BindingIsLeast(s.windows, now);
    hide EventMetadata, AtReserveFloor, Contains;
  }

  /** If the gate passes an account whose latest event came from a snapshot, the snapshot
      was ok, paid overage was not on, and every measurable window has headroom; with
      windows of one consistent form, also more headroom than the reserve floor. */
  lemma EligibleSnapshotIsSafe(s: Snapshot, now: int, floor: Option<real>, env: Env)
    requires Judge(StateOf(ToEvent(s, now, floor)), true, env) == Eligible
    ensures s.ok && s.overage != Some(true)
    ensures forall w <- s.windows :: Headroom(w, now).Some? ==> Headroom(w, now).value > 0.0
    ensures (forall w <- s.windows :: ConsistentForm(w)) && NoUnitReserve(s, now, env) && floor.Some?
            ==> forall w <- s.windows :: Headroom(w, now).Some? ==> Headroom(w, now).value > floor.value
  {
    BindingIsLeast(s.windows, now);
    SnapshotJudgement(s, now, floor, env);
    var w := Binding(s.windows, now).value;
    if (forall v <- s.windows :: ConsistentForm(v)) && NoUnitReserve(s, now, env) && floor.Some? {
      FloorMeansHeadroom(s, now, floor.value, env);
    }
  }

  /** With consistent forms and no absolute reserve, the gate passes exactly the snapshots
      that are safe and whose binding window counts units. */
  lemma ConsistentSnapshotIffSafe(s: Snapshot, now: int, floor: real, env: Env)
    requires (forall w <- s.windows :: ConsistentForm(w)) && NoUnitReserve(s, now, env)
    ensures Judge(StateOf(ToEvent(s, now, Some(floor))), true, env) == Eligible
      <==> && s.ok && s.overage != Some(true)
           && Binding(s.windows, now).Some? && UnitsRemaining(Binding(s.windows, now).value, now).Some?
           && forall w <- s.windows :: Headroom(w, now).Some? ==>
                Headroom(w, now).value > 0.0 && Headroom(w, now).value > floor
  {
    hide Judge, ToEvent, EventMetadata, Headroom, UnitsRemaining, AtReserveFloor, Binding;
    BindingIsLeast(s.windows, now);
    SnapshotJudgement(s, now, Some(floor), env);
    if s.ok && Binding(s.windows, now).Some? && UnitsRemaining(Binding(s.windows, now).value, now).Some? {
      FloorMeansHeadroom(s, now, floor, env);
    }
  }

  /** With consistent forms the reserve test on units is the test on the fraction. */
  lemma FloorMeansHeadroom(s: Snapshot, now: int, floor: real, env: Env)
    requires Binding(s.windows, now).Some? && s.ok
    requires ConsistentForm(Binding(s.windows, now).value) && UnitsRemaining(Binding(s.windows, now).value, now).Some?
    requires NoUnitReserve(s, now, env)
    ensures Headroom(Binding(s.windows, now).value, now).Some?
    ensures AtReserveFloor(ToEvent(s, now, Some(floor)), env)
            <==> Headroom(Binding(s.windows, now).value, now).value <= floor
  {
    hide EventMetadata, MetadataNumber, Binding, Contains, UnitsRemaining, Headroom, AtReserveFloor, ToEvent, Available;
    var w := Binding(s.windows, now).value;
    UnitsMatchHeadroom(w, now);
    LimitKnown(w, now);
    EventOfWindow(s, now, Some(floor));
    UnitsTotal(s, now, env);
    FractionalFloor(ToEvent(s, now, Some(floor)), w.unitsLimit.value, floor, env);
    Scale(w.unitsLimit.value, Headroom(w, now).value, floor);
  }

  /** What the event takes from the binding window. */
  lemma EventOfWindow(s: Snapshot, now: int, floor: Option<real>)
    requires s.ok && Binding(s.windows, now).Some?
    ensures Available(s, now).window == Binding(s.windows, now)
    ensures var e := ToEvent(s, now, floor);
            && e.unitsRemaining == UnitsRemaining(Binding(s.windows, now).value, now)
            && e.metadata == EventMetadata(s, now) && e.reserveFloor == floor
  {
    hide EventMetadata, Contains, UnitsRemaining, UnitsUsed, Headroom, Binding;
  }

  lemma FractionalFloor(e: QuotaEvent, limit: real, floor: real, env: Env)
    requires e.unitsRemaining.Some? && e.reserveFloor == Some(floor)
    requires MetadataNumber(e.metadata, "reserve_floor_units", env).None?
    requires MetadataNumber(e.metadata, "units_total", env) == Some(limit)
    ensures AtReserveFloor(e, env) <==> e.unitsRemaining.value <= limit * floor
  {
    hide MetadataNumber;
  }

  lemma Scale(limit: real, h: real, floor: real)
    requires limit > 0.0
    ensures limit * h <= limit * floor <==> h <= floor
  {
    if h <= floor { assert limit * (floor - h) >= 0.0; } else { assert limit * (h - floor) > 0.0; }
  }

  lemma LimitKnown(w: Window, now: int)
    requires UnitsRemaining(w, now).Some?
    ensures w.unitsLimit.Some?
  {
  }

  lemma SourceOfEvent(s: Snapshot, now: int, floor: Option<real>)
    ensures AccountOf(ToEvent(s, now, floor)) == (s.backendId, s.accountId)
  {
  }

  lemma NoReserveByDefault(s: Snapshot, now: int, env: Env)
    requires s.metadata == []
    ensures NoUnitReserve(s, now, env)
  {
    var key, base := "reserve_floor_units", BaseMetadata(s, now);
    assert |key| == 19;
    assert forall f <- base :: |f.key| != 19;
    assert Lookup(base, key).None?;
    hide BaseMetadata, Available;
    var w := Available(s, now).window;
    if w.Some? && w.value.unitsLimit.Some? {
      LookupPut(base, "units_total", JNum(w.value.unitsLimit.value), key);
      assert |"units_total"| == 11;
    }
  }

  // ----- Exactly when the reserve floor holds -----

  /** An eligible snapshot has more than the floor's headroom in every measurable window. */
  ghost predicate SafeAbove(s: Snapshot, now: int, floor: real, env: Env) {
    Judge(StateOf(ToEvent(s, now, Some(floor))), true, env) == Eligible
    ==> forall w <- s.windows :: Headroom(w, now).Some? ==> Headroom(w, now).value > floor
  }

  /** The snapshot is blocked whatever the floor, or its binding window counts no more units
      left than its headroom's share of the limit. */
  predicate FloorHolds(s: Snapshot, now: int) {
    || !s.ok || s.overage == Some(true)
    || Binding(s.windows, now).None?
    || var b := Binding(s.windows, now).value;
       || UnitsRemaining(b, now).None? || b.unitsLimit.None? || Headroom(b, now).None?
       || Headroom(b, now).value <= 0.0
       || (b.unitsLimit.value >= 0.0 && UnitsRemaining(b, now).value <= b.unitsLimit.value * Headroom(b, now).value)
  }

  /** The reserve floor protects a snapshot, whatever the floor, if and only if `FloorHolds`;
      when it does not, already some fraction between zero and one is broken. */
  lemma FloorHoldsIff(s: Snapshot, now: int, env: Env)
    requires NoUnitReserve(s, now, env)
    ensures (forall floor: real :: SafeAbove(s, now, floor, env)) <==> FloorHolds(s, now)
    ensures (forall floor: real :: 0.0 <= floor <= 1.0 ==> SafeAbove(s, now, floor, env)) <==> FloorHolds(s, now)
  {
    hide Judge, ToEvent, EventMetadata, Headroom, UnitsRemaining, AtReserveFloor, Binding, NoUnitReserve;
    BindingIsLeast(s.windows, now);
    forall floor: real ensures FloorHolds(s, now) ==> SafeAbove(s, now, floor, env) {
      EligibleAboveFloor(s, now, floor, env);
    }
    if !FloorHolds(s, now) {
      var b := Binding(s.windows, now).value;
      var limit, units, h := b.unitsLimit.value, UnitsRemaining(b, now).value, Headroom(b, now).value;
      HeadroomIsFraction(b, now);
      var floor := if limit < 0.0 then 1.0 else h;
      UnitsNotNegative(b, now);
      EligibleAboveFloor(s, now, floor, env);
      assert b in s.windows && !SafeAbove(s, now, floor, env);
    }
  }

  lemma HeadroomIsFraction(w: Window, now: int)
    requires Headroom(w, now).Some?
    ensures 0.0 <= Headroom(w, now).value <= 1.0
  {
  }

  lemma UnitsNotNegative(w: Window, now: int)
    requires UnitsRemaining(w, now).Some?
    ensures UnitsRemaining(w, now).value >= 0.0
  {
  }

  /** Eligibility under a fractional floor, on the binding window. */
  lemma EligibleAboveFloor(s: Snapshot, now: int, floor: real, env: Env)
    requires NoUnitReserve(s, now, env)
    ensures Judge(StateOf(ToEvent(s, now, Some(floor))), true, env) == Eligible
      <==> && s.ok && s.overage != Some(true) && Binding(s.windows, now).Some?
           && var b := Binding(s.windows, now).value;
              && UnitsRemaining(b, now).Some? && b.unitsLimit.Some? && Headroom(b, now).Some?
              && Headroom(b, now).value > 0.0
              && UnitsRemaining(b, now).value > b.unitsLimit.value * floor
    ensures Judge(StateOf(ToEvent(s, now, Some(floor))), true, env) == Eligible && FloorHolds(s, now)
            ==> Headroom(Binding(s.windows, now).value, now).value > floor
  {
    hide Judge, ToEvent, EventMetadata, Headroom, UnitsRemaining, AtReserveFloor, Binding, MetadataNumber, Available;
    BindingIsLeast(s.windows, now);
    SnapshotJudgement(s, now, Some(floor), env);
    if s.ok && Binding(s.windows, now).Some? && UnitsRemaining(Binding(s.windows, now).value, now).Some? {
      var b := Binding(s.windows, now).value;
      LimitKnown(b, now);
      EventOfWindow(s, now, Some(floor));
      UnitsTotal(s, now, env);
      var limit, h := b.unitsLimit.value, Headroom(b, now).value;
      FractionalFloor(ToEvent(s, now, Some(floor)), limit, floor, env);
      if limit > 0.0 { Scale(limit, h, floor); }
      UnitsNotNegative(b, now);
    }
  }

  // ----- The probe's own verdict -----

  /** The gate and the probe draw the line at different places: the probe calls a snapshot
      available from a small minimum of headroom on, the gate asks for more than none. */
  lemma ProbeAndGate(s: Snapshot, now: int, floor: Option<real>, env: Env)
    requires Judge(StateOf(ToEvent(s, now, floor)), true, env) == Eligible
    ensures Binding(s.windows, now).Some? && Headroom(Binding(s.windows, now).value, now).Some?
    ensures Available(s, now).available <==> Headroom(Binding(s.windows, now).value, now).value > MINIMUM_HEADROOM
  {
    SnapshotJudgement(s, now, floor, env);
    hide Judge, ToEvent, Headroom, Binding, AtReserveFloor;
  }

  /** So a snapshot that the probe calls exhausted can pass the gate. */
  lemma ExhaustedProbePassesGate(env: Env)
    ensures exists s: Snapshot ::
              && Judge(StateOf(ToEvent(s, 0, None)), true, env) == Eligible
              && !Available(s, 0).available && Available(s, 0).reason == "quota exhausted"
  {
    var w := Window("w", Weekly, None, Some(997.0), Some(1000.0), None, "unit", []);
    var s := Snapshot("b", "b", "", None, None, true, "", [w], 0, false, None, []);
    assert Binding([w], 0) == Some(w) by { assert [w][..0] == []; }
    NoReserveByDefault(s, 0, env);
    SnapshotJudgement(s, 0, None, env);
    hide EventMetadata, Contains;
    assert Headroom(w, 0) == Some(0.003) && UnitsRemaining(w, 0) == Some(3.0);
    EventOfWindow(s, 0, None);
    hide Judge, Headroom, UnitsRemaining, MetadataNumber;
    assert !AtReserveFloor(ToEvent(s, 0, None), env);
    assert Judge(StateOf(ToEvent(s, 0, None)), true, env) == Eligible;
  }

  /** Without one consistent form the reserve floor does not hold: the two reports of one
      window disagree, the fraction decides headroom and the count decides the floor. */
  lemma MixedFormsBreakTheFloor(env: Env)
    ensures exists s: Snapshot, floor: real ::
              && Judge(StateOf(ToEvent(s, 0, Some(floor))), true, env) == Eligible && NoUnitReserve(s, 0, env)
              && |s.windows| == 1 && Headroom(s.windows[0], 0).Some? && Headroom(s.windows[0], 0).value < floor
  {
    var w := Window("w", Weekly, Some(0.99), Some(0.0), Some(100.0), None, "unit", []);
    var s := Snapshot("b", "b", "", None, None, true, "", [w], 0, false, None, []);
    assert Binding([w], 0) == Some(w) by { assert [w][..0] == []; }
    NoReserveByDefault(s, 0, env);
    UnitsTotal(s, 0, env);
    hide EventMetadata, Contains;
    SnapshotJudgement(s, 0, Some(0.5), env);
    assert Judge(StateOf(ToEvent(s, 0, Some(0.5))), true, env) == Eligible;
  }

  /** The whole path, for any number of accounts: if the backend is eligible from the ledger's
      summary under observed quota, it is so by one of its accounts, whose latest event is
      reported; and if that event was made from a snapshot, the snapshot is safe. */
  lemma EligibleFromLedgerIsSafe(b: Backend, events: seq<QuotaEvent>, task: string, allowMetered: bool, env: Env)
    requires b.requiresLedger && Evaluate(b, Summarize(events), task, allowMetered, true, env).status == Eligible
    ensures var d := Evaluate(b, Summarize(events), task, allowMetered, true, env);
            && d.state.Some? && d.state.value.latest.backendId == b.id
            && (exists i: nat :: IsLatest(events, i, AccountOf, StampOf) && events[i] == d.state.value.latest)
            && forall s: Snapshot, now: int, floor: Option<real> ::
                 d.state.value.latest == ToEvent(s, now, floor) ==> SafeSnapshot(s, now, floor, env)
  {
    var states := Summarize(events);
    var d := Evaluate(b, states, task, allowMetered, true, env);
    EligibleNeedsAccount(b, states, task, allowMetered, env);
    ReportsBestAccount(b, states, task, allowMetered, true, env);
    hide Evaluate, Judge, ToEvent, SafeSnapshot;
    var state := d.state.value;
    SummaryIsLatest(events, state);
    LatestIsArgmax(events, AccountOf, StampOf, AccountOf(state.latest));
    forall s: Snapshot, now: int, floor: Option<real> | state.latest == ToEvent(s, now, floor)
      ensures SafeSnapshot(s, now, floor, env)
    {
      SafeSnapshotIfEligible(s, now, floor, env);
    }
  }

  /** The snapshot was ok, paid overage was not on, and every measurable window has headroom,
      above the reserve floor when the windows report one consistent form. */
  ghost predicate SafeSnapshot(s: Snapshot, now: int, floor: Option<real>, env: Env) {
    && s.ok && s.overage != Some(true)
    && (forall w <- s.windows :: Headroom(w, now).Some? ==> Headroom(w, now).value > 0.0)
    && ((forall w <- s.windows :: ConsistentForm(w)) && NoUnitReserve(s, now, env) && floor.Some?
        ==> forall w <- s.windows :: Headroom(w, now).Some? ==> Headroom(w, now).value > floor.value)
  }

  lemma SafeSnapshotIfEligible(s: Snapshot, now: int, floor: Option<real>, env: Env)
    requires Judge(StateOf(ToEvent(s, now, floor)), true, env) == Eligible
    ensures SafeSnapshot(s, now, floor, env)
  {
    hide Judge, ToEvent;
    EligibleSnapshotIsSafe(s, now, floor, env);
  }

  /** With one account, whose events end, by time, in one made from a snapshot, that snapshot is
      the one that counts. */
  lemma OneAccountIsSafe(b: Backend, events: seq<QuotaEvent>, s: Snapshot, now: int, floor: Option<real>,
                         i: nat, task: string, allowMetered: bool, env: Env)
    requires b.requiresLedger && Evaluate(b, Summarize(events), task, allowMetered, true, env).status == Eligible
    requires forall e <- events :: e.backendId == b.id ==> AccountOf(e) == (s.backendId, s.accountId)
    requires IsLatest(events, i, AccountOf, StampOf) && events[i] == ToEvent(s, now, floor) && s.backendId == b.id
    ensures Judge(StateOf(ToEvent(s, now, floor)), true, env) == Eligible && SafeSnapshot(s, now, floor, env)
  {
    var states := Summarize(events);
    EligibleNeedsAccount(b, states, task, allowMetered, env);
    ReportsBestAccount(b, states, task, allowMetered, true, env);
    var d := Evaluate(b, states, task, allowMetered, true, env);
    SourceOfEvent(s, now, floor);
    hide Evaluate, Judge, ToEvent, SafeSnapshot;
    SummaryIsLatest(events, d.state.value);
    LatestIsArgmax(events, AccountOf, StampOf, AccountOf(events[i]));
    SafeSnapshotIfEligible(s, now, floor, env);
  }

  lemma EligibleNeedsAccount(b: Backend, states: seq<QuotaState>, task: string, allowMetered: bool, env: Env)
    requires b.requiresLedger && Evaluate(b, states, task, allowMetered, true, env).status == Eligible
    ensures Evaluate(b, states, task, allowMetered, true, env).state.Some?
  {
  }

  lemma SummaryIsLatest(events: seq<QuotaEvent>, state: QuotaState)
    requires state in Summarize(events)
    ensures state == StateOf(state.latest)
    ensures Find(Latest(events, AccountOf, StampOf), AccountOf, AccountOf(state.latest)) == Some(state.latest)
    ensures state.latest in events
  {
    var latest := Latest(events, AccountOf, StampOf);
    var states := States(latest);
    SortedMembers(states, ByKey);
    var j :| 0 <= j < |states| && states[j] == state;
    LatestDistinct(events, AccountOf, StampOf);
    FindDistinct(latest, AccountOf, j);
    LatestIsArgmax(events, AccountOf, StampOf, AccountOf(latest[j]));
  }

  // ----- What each decision means -----

  /** The status of a backend, guard by guard: unavailable, task not supported, metered without
      budget, and then eligible exactly when it needs no ledger, or has no state and none is
      required, or some state of it is judged eligible. */
  lemma EvaluateStatus(b: Backend, states: seq<QuotaState>, task: string, allowMetered: bool, requireObserved: bool,
                       env: Env)
    ensures var status := Evaluate(b, states, task, allowMetered, requireObserved, env).status;
            var supported := task == "" || b.taskClasses == [] || task in b.taskClasses;
            var unpaid := (b.kind == ApiMetered || b.costModel == Metered) && !allowMetered;
            var stateless := forall s <- states :: s.backendId != b.id;
            && (status == Unavailable <==> !b.available)
            && (status == TaskUnsupported <==> b.available && !supported)
            && (status == MeteredRequiresBudget <==> b.available && supported && unpaid)
            && (status == Eligible <==>
                  && b.available && supported && !unpaid
                  && (|| !b.requiresLedger
                      || (stateless && !requireObserved)
                      || exists s <- states :: s.backendId == b.id && Judge(s, requireObserved, env) == Eligible))
            && (b.available && supported && !unpaid && b.requiresLedger && stateless && requireObserved ==>
                  status == QuotaUnknown)
  {
    hide Judge, Text.StrLe, StateKey, Matching, TotalPreorder;
    var matching := Matching(states, b.id);
    SortedMembers(matching, ByKey);
    var ordered := Sorted(matching, ByKey);
    assert matching == [] <==> forall s <- states :: s.backendId != b.id by {
      if matching != [] { assert matching[0] in matching; }
    }
    FirstEligibleExists(ordered, requireObserved, env);
    if ordered != [] { WorstIsBlocked(ordered, requireObserved, env); }
  }

  lemma {:induction false} FirstEligibleExists(states: seq<QuotaState>, requireObserved: bool, env: Env)
    ensures FirstEligible(states, requireObserved, env).Some?
            <==> exists s <- states :: Judge(s, requireObserved, env) == Eligible
  {
    hide Judge;
    if states != [] {
      FirstEligibleExists(states[1..], requireObserved, env);
      assert states == [states[0]] + states[1..];
    }
  }

  lemma {:induction false} WorstIsBlocked(states: seq<QuotaState>, requireObserved: bool, env: Env)
    requires states != []
    ensures FirstWorst(states, requireObserved, env) in states
    ensures forall s :: Judge(s, requireObserved, env)
                        !in {Unavailable, TaskUnsupported, MeteredRequiresBudget}
  {
    if |states| > 1 { WorstIsBlocked(states[1..], requireObserved, env); }
  }

  /** A backend that is blocked by all of its states reports the most serious reason: quarantine,
      paid overage, exhaustion, the reserve floor, unknown quota. */
  lemma BlockedBySeverity(b: Backend, states: seq<QuotaState>, task: string, allowMetered: bool, requireObserved: bool,
                          env: Env)
    requires var d := Evaluate(b, states, task, allowMetered, requireObserved, env);
             d.state.Some? && d.status != Eligible
    ensures var status := Evaluate(b, states, task, allowMetered, requireObserved, env).status;
            && status in {QuotaQuarantined, QuotaOverageEnabled, QuotaExhausted, ReserveFloorReached, QuotaUnknown}
            && forall s <- states :: s.backendId == b.id ==>
                 var own := Judge(s, requireObserved, env);
                 && (own == QuotaQuarantined ==> status == QuotaQuarantined)
                 && (own == QuotaOverageEnabled ==> status in {QuotaQuarantined, QuotaOverageEnabled})
                 && (own == QuotaExhausted ==> status in {QuotaQuarantined, QuotaOverageEnabled, QuotaExhausted})
                 && (own == ReserveFloorReached ==> status != QuotaUnknown)
                 && own != Eligible
  {
    ReportsBestAccount(b, states, task, allowMetered, requireObserved, env);
    hide Evaluate, StateKey, Text.StrLe, AtReserveFloor, Matching;
  }

  /** The status of one quota state, first reason first. */
  lemma JudgeMeans(s: QuotaState, requireObserved: bool, env: Env)
    ensures var status := Judge(s, requireObserved, env);
            var overage := s.latest.overage == Some(true);
            var unknown := s.latest.unitsRemaining.None? || s.latest.confidence == UnknownConfidence;
            && (status == QuotaQuarantined <==> s.quarantined)
            && (status == QuotaOverageEnabled <==> !s.quarantined && overage)
            && (status == QuotaExhausted <==> !s.quarantined && !overage && s.exhausted)
            && (status == ReserveFloorReached <==>
                  !s.quarantined && !overage && !s.exhausted && AtReserveFloor(s.latest, env))
            && (status == QuotaUnknown <==>
                  && !s.quarantined && !overage && !s.exhausted && !AtReserveFloor(s.latest, env)
                  && requireObserved && unknown)
            && (status == Eligible <==>
                  && !s.quarantined && !overage && !s.exhausted && !AtReserveFloor(s.latest, env)
                  && (requireObserved ==> !unknown))
  {
    hide AtReserveFloor;
  }

  /** When the reserve floor is reached: an absolute reserve in the metadata decides; else the
      fraction of the total, taken from `units_total` or else `quota_units_total`; and without a
      count, a floor or a total it is not. */
  lemma ReserveMeans(e: QuotaEvent, env: Env)
    ensures var reserve := MetadataNumber(e.metadata, "reserve_floor_units", env);
            var total := MetadataNumber(e.metadata, "units_total", env);
            var spare := MetadataNumber(e.metadata, "quota_units_total", env);
            && (e.unitsRemaining.None? ==> !AtReserveFloor(e, env))
            && (e.unitsRemaining.Some? && reserve.Some? ==>
                  (AtReserveFloor(e, env) <==> reserve.value >= e.unitsRemaining.value))
            && (reserve.None? && e.reserveFloor.None? ==> !AtReserveFloor(e, env))
            && (e.unitsRemaining.Some? && reserve.None? && e.reserveFloor.Some? && total.Some? ==>
                  (AtReserveFloor(e, env) <==> e.unitsRemaining.value <= e.reserveFloor.value * total.value))
            && (e.unitsRemaining.Some? && reserve.None? && e.reserveFloor.Some? && total.None? && spare.Some? ==>
                  (AtReserveFloor(e, env) <==> e.unitsRemaining.value <= e.reserveFloor.value * spare.value))
            && (reserve.None? && total.None? && spare.None? ==> !AtReserveFloor(e, env))
  {
    hide MetadataNumber;
  }

  /** What counts as a number in the metadata: numbers, booleans as one and zero, and texts that
      read as one. */
  lemma MetadataNumberMeans(metadata: seq<Field>, key: string, env: Env)
    ensures var n := MetadataNumber(metadata, key, env);
            match Lookup(metadata, key)
            case Some(JNum(x)) => n == Some(x)
            case Some(JBool(b)) => n == Some(if b then 1.0 else 0.0)
            case Some(JStr(t)) => n == (env.float)(t)
            case _ => n == None
  {
    hide Lookup;
  }

  /** No event of the same account is stamped later, or as late and recorded later. */
  ghost predicate IsLatestOfAccount(events: seq<QuotaEvent>, i: nat) {
    && i < |events|
    && forall j :: 0 <= j < |events| && events[j].backendId == events[i].backendId
                   && events[j].accountId == events[i].accountId ==>
         if i < j then events[j].timestamp < events[i].timestamp else events[j].timestamp <= events[i].timestamp
  }

  lemma LatestOfAccount(events: seq<QuotaEvent>)
    ensures forall i: nat :: IsLatestOfAccount(events, i) <==> IsLatest(events, i, AccountOf, StampOf)
  {
  }


  /** The summary holds exactly one state per account, made from its latest event, in the order
      of the keys. */
  lemma SummarizeIsExact(events: seq<QuotaEvent>)
    ensures InOrder(Summarize(events), ByKey)
    ensures forall s :: s in Summarize(events) <==>
              exists i: nat :: IsLatestOfAccount(events, i) && s == StateOf(events[i])
    ensures multiset(Summarize(events)) == multiset(States(Latest(events, AccountOf, StampOf)))
    ensures DistinctBy(Latest(events, AccountOf, StampOf), AccountOf)
  {
    var latest := Latest(events, AccountOf, StampOf);
    KeyOrder();
    SortedInOrder(States(latest), ByKey);
    SortedMembers(States(latest), ByKey);
    LatestDistinct(events, AccountOf, StampOf);
    LatestOfAccount(events);
    hide IsLatestOfAccount;
    forall s ensures s in Summarize(events) <==>
                       exists i: nat :: IsLatestOfAccount(events, i) && s == StateOf(events[i])
    {
      if s in Summarize(events) {
        SummaryIsLatest(events, s);
        LatestIsArgmax(events, AccountOf, StampOf, AccountOf(s.latest));
      }
      if i: nat :| IsLatestOfAccount(events, i) && s == StateOf(events[i]) {
        LatestIsArgmax(events, AccountOf, StampOf, AccountOf(events[i]));
        var j :| 0 <= j < |latest| && latest[j] == events[i];
        assert States(latest)[j] == s;
      }
    }
  }

  /** A state holds its event, and its flags are the event's kind. */
  lemma StateMeans(e: QuotaEvent)
    ensures var s := StateOf(e);
            && s.latest == e && s.backendId == e.backendId && s.accountId == e.accountId
            && (s.exhausted <==> e.eventType == EventType.Exhausted)
            && (s.quarantined <==> e.eventType == EventType.Quarantined)
            && StateKey(s) == e.backendId + (if e.accountId == "" then "" else ":" + e.accountId)
  {
    assert e.backendId + "" == e.backendId;
    assert e.backendId + ":" + e.accountId == e.backendId + (":" + e.accountId);
  }
}
