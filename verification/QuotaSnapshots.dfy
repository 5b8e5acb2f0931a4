/** Provider quota snapshots and the one conservative ledger event each becomes
    (src/deepr/backends/quota_snapshot.py). */
module QuotaSnapshots {
  import opened Options
  import opened Json
  import opened QuotaEvents
  import Text

  datatype Window = Window(
    name: string,
    kind: WindowKind,
    usedFraction: Option<real>,
    unitsUsed: Option<real>,
    unitsLimit: Option<real>,
    resetAt: Option<int>,
    unitName: string,
    metadata: seq<Field>)

  datatype Snapshot = Snapshot(
    backendId: string,
    displayName: string,
    accountId: string,
    plan: Option<string>,
    costModel: Option<CostModel>,
    ok: bool,
    error: string,
    windows: seq<Window>,
    asOf: int,
    stale: bool,
    overage: Option<bool>,
    metadata: seq<Field>)

  function Clamp(x: real): (r: real)
    ensures 0.0 <= r <= 1.0
    ensures 0.0 <= x <= 1.0 ==> r == x
  {
    if x < 0.0 then 0.0 else if x > 1.0 then 1.0 else x
  }

  predicate WasReset(w: Window, now: int) { w.resetAt.Some? && w.resetAt.value <= now }

  function UsedFraction(w: Window, now: int): Option<real> {
    if WasReset(w, now) then Some(0.0)
    else if w.usedFraction.Some? then Some(Clamp(w.usedFraction.value))
    else if w.unitsUsed.None? || w.unitsLimit.None? || w.unitsLimit.value <= 0.0 then None
    else Some(Clamp(w.unitsUsed.value / w.unitsLimit.value))
  }

  function Headroom(w: Window, now: int): Option<real> {
    match UsedFraction(w, now)
    case None => None
    case Some(used) => Some(Clamp(1.0 - used))
  }

  function UnitsUsed(w: Window, now: int): Option<real> {
    if WasReset(w, now) then Some(0.0)
    else if w.unitsUsed.Some? then w.unitsUsed
    else if w.usedFraction.Some? && w.unitsLimit.Some? then Some(w.unitsLimit.value * Clamp(w.usedFraction.value))
    else None
  }

  function UnitsRemaining(w: Window, now: int): Option<real> {
    if w.unitsLimit.None? || UnitsUsed(w, now).None? then None
    else
      var left := w.unitsLimit.value - UnitsUsed(w, now).value;
      Some(if left < 0.0 then 0.0 else left)
  }

  /** The first of the measurable windows with the least headroom. */
  function Binding(windows: seq<Window>, now: int): Option<Window> {
    if windows == [] then None
    else
      var worst, last := Binding(windows[..|windows| - 1], now), windows[|windows| - 1];
      if Headroom(last, now).None? then worst
      else if worst.None? || Headroom(worst.value, now).None?
        || Headroom(last, now).value < Headroom(worst.value, now).value
      then Some(last)
      else worst
  }

  method BindingWindow(windows: seq<Window>, now: int) returns (worst: Option<Window>)
    ensures worst == Binding(windows, now)
  {
    worst := None;
    var worstHeadroom := 1.1;
    for i := 0 to |windows|
      invariant worst == Binding(windows[..i], now)
      invariant if worst.None? then worstHeadroom == 1.1 else Headroom(worst.value, now) == Some(worstHeadroom)
    {
      assert windows[..i + 1][..i] == windows[..i];
      var headroom := Headroom(windows[i], now);
      if headroom.Some? && headroom.value < worstHeadroom {
        worst, worstHeadroom := Some(windows[i]), headroom.value;
      }
    }
    assert windows[..|windows|] == windows;
  }

  datatype Availability = Availability(available: bool, headroom: Option<real>, window: Option<Window>, reason: string)

  const MINIMUM_HEADROOM := 0.005

  function Available(s: Snapshot, now: int): Availability {
    if !s.ok then Availability(false, None, None, if s.error != "" then s.error else "quota probe failed")
    else match Binding(s.windows, now)
      case None => Availability(false, None, None, "no usable quota windows reported")
      case Some(w) =>
        var headroom := Headroom(w, now);
        var available := headroom.Some? && headroom.value > MINIMUM_HEADROOM;
        Availability(available, headroom, Some(w), if available then "quota available" else "quota exhausted")
  }

  /** Python's `t in s`. */
  predicate Contains(s: string, t: string) { t <= s || (s != [] && Contains(s[1..], t)) }

  function OptText(s: Option<string>): Json { if s.Some? then JStr(s.value) else JNull }

  function WindowMetadata(w: Window, now: int): Json {
    JObj([ Field("label", JStr(w.name)),
           Field("window_kind", JStr(WindowKindText(w.kind))),
           Field("used_fraction", OptNum(UsedFraction(w, now))),
           Field("remaining_fraction", OptNum(Headroom(w, now))),
           Field("units_used", OptNum(UnitsUsed(w, now))),
           Field("units_limit", OptNum(w.unitsLimit)),
           Field("reset_at", OptTime(w.resetAt)),
           Field("unit_name", JStr(w.unitName)),
           Field("metadata", JObj(w.metadata)) ])
  }

  function BaseMetadata(s: Snapshot, now: int): seq<Field> {
    var a := Available(s, now);
    [ Field("display_name", JStr(s.displayName)),
      Field("plan", OptText(s.plan)),
      Field("snapshot_as_of", JStr(Text.IntText(s.asOf))),
      Field("snapshot_stale", JBool(s.stale)),
      Field("snapshot_ok", JBool(s.ok)),
      Field("headroom_fraction", OptNum(a.headroom)),
      Field("binding_window_label", if a.window.Some? then JStr(a.window.value.name) else JNull),
      Field("quota_windows",
            JArr(seq(|s.windows|, i requires 0 <= i < |s.windows| => WindowMetadata(s.windows[i], now)))) ]
  }

  /** The snapshot's own metadata overrides the base; the unit total overrides both. */
  function EventMetadata(s: Snapshot, now: int): seq<Field> {
    var window := Available(s, now).window;
    var merged := PutAll(BaseMetadata(s, now), s.metadata);
    if window.Some? && window.value.unitsLimit.Some?
    then Put(merged, "units_total", JNum(window.value.unitsLimit.value))
    else merged
  }

  /** `snapshot_to_ledger_event`. */
  function ToEvent(s: Snapshot, now: int, reserveFloor: Option<real>): QuotaEvent {
    var a := Available(s, now);
    var w := a.window;
    var eventType :=
      if !s.ok || w.None? then WindowObserved
      else if a.headroom.Some? && a.headroom.value <= 0.0 then Exhausted
      else UsageObserved;
    var detail :=
      if s.error == "" || Contains(a.reason, s.error) then a.reason
      else if a.reason != "" then a.reason + ": " + s.error
      else s.error;
    QuotaEvent(
      s.backendId,
      eventType,
      now,
      s.accountId,
      s.costModel,
      if w.Some? then w.value.kind else UnknownWindow,
      if w.Some? then UnitsUsed(w.value, now) else None,
      if w.Some? then UnitsRemaining(w.value, now) else None,
      if w.Some? then w.value.unitName else "quota_unit",
      if w.Some? then VendorReported else UnknownConfidence,
      None,
      None,
      if w.Some? then w.value.resetAt else None,
      reserveFloor,
      s.overage,
      detail,
      EventMetadata(s, now),
      "")
  }

  // ----- Properties -----

  /** The binding window is the first of the measurable windows with the least headroom; there
      is none exactly when no window is measurable. */
  lemma {:induction false} BindingIsLeast(windows: seq<Window>, now: int)
    ensures Binding(windows, now).None? <==> forall w <- windows :: Headroom(w, now).None?
    ensures Binding(windows, now).Some? ==>
              var b := Binding(windows, now).value;
              && b in windows && Headroom(b, now).Some?
              && (forall w <- windows :: Headroom(w, now).Some? ==> Headroom(b, now).value <= Headroom(w, now).value)
              && exists i :: 0 <= i < |windows| && windows[i] == b && FirstWith(windows, i, now)
  {
    hide Headroom, FirstWith;
    if windows != [] {
      var front := windows[..|windows| - 1];
      assert windows == front + [windows[|windows| - 1]];
      BindingIsLeast(front, now);
      var b := Binding(windows, now);
      if b.Some? {
        if b == Binding(front, now) {
          var i :| 0 <= i < |front| && front[i] == b.value && FirstWith(front, i, now);
          StillFirst(windows, i, now);
          assert windows[i] == b.value;
        } else {
          assert forall w <- front :: Headroom(w, now).Some? ==> Headroom(b.value, now).value < Headroom(w, now).value;
          LastIsFirst(windows, now);
        }
      }
    }
  }

  /** Every measurable window before `i` has more headroom than it. */
  ghost predicate FirstWith(windows: seq<Window>, i: nat, now: int) {
    && i < |windows| && Headroom(windows[i], now).Some?
    && forall j :: 0 <= j < i && Headroom(windows[j], now).Some? ==>
         Headroom(windows[i], now).value < Headroom(windows[j], now).value
  }

  lemma StillFirst(windows: seq<Window>, i: nat, now: int)
    requires windows != [] && FirstWith(windows[..|windows| - 1], i, now)
    ensures FirstWith(windows, i, now)
  {
    hide Headroom;
    var front := windows[..|windows| - 1];
    assert forall j :: 0 <= j <= i ==> front[j] == windows[j];
  }

  lemma LastIsFirst(windows: seq<Window>, now: int)
    requires windows != [] && Headroom(windows[|windows| - 1], now).Some?
    requires forall w <- windows[..|windows| - 1] :: Headroom(w, now).Some? ==>
               Headroom(windows[|windows| - 1], now).value < Headroom(w, now).value
    ensures FirstWith(windows, |windows| - 1, now)
  {
    hide Headroom;
    var last := |windows| - 1;
    forall j | 0 <= j < last && Headroom(windows[j], now).Some?
      ensures Headroom(windows[last], now).value < Headroom(windows[j], now).value
    {
      assert windows[..last][j] in windows[..last];
    }
  }

  /** How much of a window is used at `now`: nothing once it was reset, else what its fraction
      says, or without one its count's share of a positive limit, and never less than nothing
      or more than everything. The headroom is the rest. */
  lemma FractionMeans(w: Window, now: int)
    ensures Headroom(w, now).Some? <==> UsedFraction(w, now).Some?
    ensures Headroom(w, now).Some? ==> Headroom(w, now).value + UsedFraction(w, now).value == 1.0
    ensures w.resetAt.Some? && w.resetAt.value <= now ==> UsedFraction(w, now) == Some(0.0)
    ensures (w.resetAt.None? || w.resetAt.value > now) && w.usedFraction.Some? ==>
              var f := w.usedFraction.value;
              UsedFraction(w, now) == Some(if f < 0.0 then 0.0 else if f <= 1.0 then f else 1.0)
    ensures (w.resetAt.None? || w.resetAt.value > now) && w.usedFraction.None? ==>
              && (UsedFraction(w, now).Some?
                  <==> w.unitsUsed.Some? && w.unitsLimit.Some? && w.unitsLimit.value > 0.0)
              && (UsedFraction(w, now).Some? ==>
                    var used, limit := w.unitsUsed.value, w.unitsLimit.value;
                    && (used <= 0.0 ==> UsedFraction(w, now) == Some(0.0))
                    && (0.0 <= used <= limit ==> UsedFraction(w, now).value * limit == used)
                    && (limit <= used ==> UsedFraction(w, now) == Some(1.0)))
  {
    if !WasReset(w, now) && w.usedFraction.None? && UsedFraction(w, now).Some? {
      Quotient(w.unitsUsed.value, w.unitsLimit.value);
    }
  }

  lemma ShareOf(limit: real, f: real)
    ensures limit * Clamp(f) == if f < 0.0 then 0.0 else if f <= 1.0 then limit * f else limit
  {
    if f < 0.0 {
      assert Clamp(f) == 0.0;
    } else if f <= 1.0 {
      assert Clamp(f) == f;
    } else {
      assert Clamp(f) == 1.0;
    }
  }

  /** How many units of a window are used at `now`: none once it was reset, else its own count,
      or without one the fraction's share of the limit. What is left of the limit is never
      negative. */
  lemma UnitsMean(w: Window, now: int)
    ensures w.resetAt.Some? && w.resetAt.value <= now ==> UnitsUsed(w, now) == Some(0.0)
    ensures w.resetAt.None? || w.resetAt.value > now ==>
              && (w.unitsUsed.Some? ==> UnitsUsed(w, now) == w.unitsUsed)
              && (w.unitsUsed.None? && w.usedFraction.Some? && w.unitsLimit.Some? ==>
                    var f, limit := w.usedFraction.value, w.unitsLimit.value;
                    && UnitsUsed(w, now).Some?
                    && UnitsUsed(w, now).value == if f < 0.0 then 0.0 else if f <= 1.0 then limit * f else limit)
              && (w.unitsUsed.None? && (w.usedFraction.None? || w.unitsLimit.None?) ==> UnitsUsed(w, now) == None)
    ensures UnitsRemaining(w, now).Some? <==> w.unitsLimit.Some? && UnitsUsed(w, now).Some?
    ensures UnitsRemaining(w, now).Some? ==>
              var left := w.unitsLimit.value - UnitsUsed(w, now).value;
              UnitsRemaining(w, now) == Some(if left < 0.0 then 0.0 else left)
  {
    hide Clamp;
    if !WasReset(w, now) && w.unitsUsed.None? && w.usedFraction.Some? && w.unitsLimit.Some? {
      ShareOf(w.unitsLimit.value, w.usedFraction.value);
    }
  }

  /** The one event a snapshot becomes, read off its windows: a failed probe or one without a
      measurable window is only noted, and a window without headroom means exhaustion; the
      first of the windows with the least headroom gives the figures. */
  lemma EventMeans(s: Snapshot, now: int, floor: Option<real>)
    ensures var e := ToEvent(s, now, floor);
            && (e.eventType == WindowObserved <==> !s.ok || forall w <- s.windows :: Headroom(w, now).None?)
            && (e.eventType == Exhausted <==> s.ok && exists w <- s.windows :: Headroom(w, now) == Some(0.0))
            && e.eventType in {WindowObserved, Exhausted, UsageObserved}
            && e.backendId == s.backendId && e.accountId == s.accountId && e.timestamp == now
            && e.costModel == s.costModel && e.reserveFloor == floor && e.overage == s.overage
            && e.windowStart == None && e.windowEnd == None && e.idempotencyKey == ""
            && (e.eventType == WindowObserved ==>
                  && e.windowKind == UnknownWindow && e.unitsUsed == None && e.unitsRemaining == None
                  && e.unitName == "quota_unit" && e.confidence == UnknownConfidence && e.resetAt == None)
            && (e.eventType != WindowObserved ==>
                  && Binding(s.windows, now).Some?
                  && var w := Binding(s.windows, now).value;
                     && e.windowKind == w.kind && e.resetAt == w.resetAt && e.unitName == w.unitName
                     && e.unitsUsed == UnitsUsed(w, now) && e.unitsRemaining == UnitsRemaining(w, now)
                     && e.confidence == VendorReported)
  {
    hide EventMetadata, Contains, UnitsRemaining, UnitsUsed, Binding, Headroom;
    BindingIsLeast(s.windows, now);
    var b := Binding(s.windows, now);
    if b.Some? { HeadroomBounds(b.value, now); }
    forall w | w in s.windows && Headroom(w, now).Some? ensures 0.0 <= Headroom(w, now).value <= 1.0 {
      HeadroomBounds(w, now);
    }
  }

  lemma HeadroomBounds(w: Window, now: int)
    requires Headroom(w, now).Some?
    ensures 0.0 <= Headroom(w, now).value <= 1.0
  {
  }

  /** The detail says whether quota is left, with more than the minimum headroom in every
      measurable window, and holds the probe's error if there is one. */
  lemma DetailMeans(s: Snapshot, now: int, floor: Option<real>)
    ensures var e, a := ToEvent(s, now, floor), Available(s, now);
            && (a.available <==>
                  && s.ok && (exists w <- s.windows :: Headroom(w, now).Some?)
                  && forall w <- s.windows :: Headroom(w, now).Some? ==> Headroom(w, now).value > 0.005)
            && (!s.ok ==> e.detail == if s.error == "" then "quota probe failed" else s.error)
            && (s.ok && s.error == "" ==>
                  e.detail == if a.available then "quota available"
                              else if exists w <- s.windows :: Headroom(w, now).Some? then "quota exhausted"
                              else "no usable quota windows reported")
            && (exists i, j :: 0 <= i <= j <= |e.detail| && e.detail[i..j] == s.error)
  {
    hide EventMetadata, UnitsRemaining, UnitsUsed, Binding, Headroom, Contains;
    BindingIsLeast(s.windows, now);
    var detail := ToEvent(s, now, floor).detail;
    var reason := Available(s, now).reason;
    if s.error == "" {
      assert detail[0..0] == s.error;
    } else if Contains(reason, s.error) {
      var i, j := ContainsMeans(reason, s.error);
      assert detail[i..j] == s.error;
    } else {
      assert detail[|detail| - |s.error|..|detail|] == s.error;
    }
    if !s.ok && s.error != "" { ContainsItself(s.error); }
  }

  lemma {:induction false} ContainsMeans(s: string, t: string) returns (i: nat, j: nat)
    requires Contains(s, t)
    ensures i <= j <= |s| && s[i..j] == t
  {
    if t <= s {
      i, j := 0, |t|;
    } else {
      i, j := ContainsMeans(s[1..], t);
      assert s[1..][i..j] == s[i + 1..j + 1];
      i, j := i + 1, j + 1;
    }
  }

  lemma ContainsItself(s: string)
    ensures Contains(s, s)
  {
  }

  /** The metadata of the event: the unit limit of the binding window comes before the
      snapshot's own metadata, and that before the figures at `now`. */
  lemma MetadataMeans(s: Snapshot, now: int, floor: Option<real>, key: string)
    requires DistinctKeys(s.metadata)
    ensures var e, b := ToEvent(s, now, floor), Binding(s.windows, now);
            Lookup(e.metadata, key) ==
            if s.ok && b.Some? && b.value.unitsLimit.Some? && key == "units_total"
            then Some(JNum(b.value.unitsLimit.value))
            else if Lookup(s.metadata, key).Some? then Lookup(s.metadata, key)
            else Lookup(BaseMetadata(s, now), key)
  {
    hide BaseMetadata, Lookup, Binding, Headroom;
    LookupPutAll(BaseMetadata(s, now), s.metadata, key);
    var window := Available(s, now).window;
    var merged := PutAll(BaseMetadata(s, now), s.metadata);
    if window.Some? && window.value.unitsLimit.Some? {
      LookupPut(merged, "units_total", JNum(window.value.unitsLimit.value), key);
    }
  }

  /** The figures at `now` are those of the binding window. */
  lemma FiguresMean(s: Snapshot, now: int)
    ensures var base, b := BaseMetadata(s, now), Binding(s.windows, now);
            && Lookup(base, "snapshot_stale") == Some(JBool(s.stale))
            && Lookup(base, "snapshot_ok") == Some(JBool(s.ok))
            && Lookup(base, "headroom_fraction")
               == Some(if s.ok && b.Some? then OptNum(Headroom(b.value, now)) else JNull)
            && Lookup(base, "binding_window_label")
               == Some(if s.ok && b.Some? then JStr(b.value.name) else JNull)
  {
    hide WindowMetadata, Binding, Headroom, Lookup, DistinctKeys;
    var base := BaseMetadata(s, now);
    BaseKeysDistinct(s, now);
    LookupDistinct(base, 3);
    LookupDistinct(base, 4);
    LookupDistinct(base, 5);
    LookupDistinct(base, 6);
  }

  lemma BaseKeysDistinct(s: Snapshot, now: int)
    ensures DistinctKeys(BaseMetadata(s, now))
  {
    hide Available, WindowMetadata;
    assert "snapshot_as_of"[9] == 'a' && "snapshot_stale"[9] == 's';
    var base := BaseMetadata(s, now);
    assert |base[0].key| == 12 && |base[1].key| == 4 && |base[2].key| == 14 && |base[3].key| == 14
      && |base[4].key| == 11 && |base[5].key| == 17 && |base[6].key| == 20 && |base[7].key| == 13;
    assert base[2].key[9] != base[3].key[9];
    hide BaseMetadata;
  }

  /** The window reports use one way: as a fraction or as a count, with a positive limit
      if any and no negative use. */
  predicate ConsistentForm(w: Window) {
    && (w.usedFraction.None? || w.unitsUsed.None?)
    && (w.unitsLimit.Some? ==> w.unitsLimit.value > 0.0)
    && (w.unitsUsed.Some? ==> w.unitsUsed.value >= 0.0)
  }

  lemma Quotient(a: real, b: real)
    requires b > 0.0
    ensures a / b * b == a
    ensures a >= 0.0 ==> a / b >= 0.0
    ensures a <= b ==> a / b <= 1.0
    ensures a >= b ==> a / b >= 1.0
    ensures a > b ==> a / b > 1.0
  {
    assert a / b * b == a;
  }

  /** For a window of one consistent form the units left are its headroom's share of the
      limit. */
  lemma UnitsMatchHeadroom(w: Window, now: int)
    requires ConsistentForm(w) && UnitsRemaining(w, now).Some?
    ensures Headroom(w, now).Some?
    ensures UnitsRemaining(w, now).value == w.unitsLimit.value * Headroom(w, now).value
  {
    var limit := w.unitsLimit.value;
    if !WasReset(w, now) {
      if w.unitsUsed.Some? {
        var used := w.unitsUsed.value;
        Quotient(used, limit);
        var q := used / limit;
        if used > limit {
          assert Headroom(w, now) == Some(0.0);
        } else {
          assert Headroom(w, now) == Some(1.0 - q);
          assert limit * (1.0 - q) == limit - q * limit;
        }
      } else {
        var f := Clamp(w.usedFraction.value);
        assert limit * (1.0 - f) == limit - limit * f;
        assert limit * f <= limit * 1.0;
      }
    }
  }
}
