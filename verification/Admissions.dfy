/** Dated admissions of local models (src/deepr/backends/admission.py). */
module Admissions {
  import opened Options
  import opened LatestEvents
  import opened Sorting
  import Text

  datatype Admission = Admission(
    model: string,
    taskClass: string,
    recordedAt: int,
    expiresAt: Option<int>,
    event: string,
    score: Option<real>,
    note: string)

  type Pair = (string, string)

  const SECONDS_PER_DAY := 86400

  function PairOf(e: Admission): Pair { (e.model, e.taskClass) }

  function StampOf(e: Admission): int { e.recordedAt }

  predicate IsActive(e: Admission, now: int) {
    e.event == "admit" && (e.expiresAt.None? || now < e.expiresAt.value)
  }

  /** `record_admission`: the event it appends. */
  function Admit(model: string, taskClass: string, days: int, score: Option<real>, note: string, now: int): Admission {
    Admission(model, taskClass, now, Some(now + days * SECONDS_PER_DAY), "admit", score, note)
  }

  /** `revoke_admission`: the event it appends. */
  function Revoke(model: string, taskClass: string, now: int): Admission {
    Admission(model, taskClass, now, None, "revoke", None, "")
  }

  function LatestPerPair(events: seq<Admission>): seq<Admission> { Latest(events, PairOf, StampOf) }

  function ActiveAdmission(events: seq<Admission>, pair: Pair, now: int): Option<Admission> {
    match Find(LatestPerPair(events), PairOf, pair)
    case None => None
    case Some(e) => if IsActive(e, now) then Some(e) else None
  }

  predicate IsAdmitted(events: seq<Admission>, pair: Pair, now: int) { ActiveAdmission(events, pair, now).Some? }

  predicate PairLe(a: Pair, b: Pair) { if a.0 == b.0 then Text.StrLe(a.1, b.1) else Text.StrLe(a.0, b.0) }

  function Live(latest: seq<Admission>, now: int): (r: seq<Admission>)
    ensures forall e :: e in r <==> e in latest && IsActive(e, now)
    ensures |r| <= |latest|
  {
    if latest == [] then []
    else (if IsActive(latest[0], now) then [latest[0]] else []) + Live(latest[1..], now)
  }

  function ByPair(a: Admission, b: Admission): bool { PairLe(PairOf(a), PairOf(b)) }

  function ListActive(events: seq<Admission>, now: int): seq<Admission> {
    Sorted(Live(LatestPerPair(events), now), ByPair)
  }

  class AdmissionLedger {
    var events: seq<Admission>

    constructor ()
      ensures events == []
    {
      events := [];
    }

    method RecordAdmission(model: string, taskClass: string, days: int, score: Option<real>, note: string, now: int)
      returns (e: Admission)
      modifies this
      ensures e == Admit(model, taskClass, days, score, note, now)
      ensures events == old(events) + [e]
    {
      e := Admit(model, taskClass, days, score, note, now);
      events := events + [e];
    }

    method RevokeAdmission(model: string, taskClass: string, now: int) returns (e: Admission)
      modifies this
      ensures e == Revoke(model, taskClass, now)
      ensures events == old(events) + [e]
    {
      e := Revoke(model, taskClass, now);
      events := events + [e];
    }
  }

  // ----- Properties -----

  /** A pair is admitted exactly when its latest event, by stamp and then position, is
      an admission that has not expired. */
  lemma AdmittedIff(events: seq<Admission>, pair: Pair, now: int)
    ensures IsAdmitted(events, pair, now)
            <==> exists i: nat ::
                   && IsLatestOfPair(events, i)
                   && events[i].model == pair.0 && events[i].taskClass == pair.1
                   && events[i].event == "admit"
                   && (events[i].expiresAt.Some? ==> now < events[i].expiresAt.value)
  {
    LatestIsArgmax(events, PairOf, StampOf, pair);
    LatestOfPair(events);
  }

  /** No event of the same pair is stamped later, or as late and recorded later. */
  ghost predicate IsLatestOfPair(events: seq<Admission>, i: nat) {
    && i < |events|
    && forall j :: 0 <= j < |events| && events[j].model == events[i].model
                   && events[j].taskClass == events[i].taskClass ==>
         if i < j then events[j].recordedAt < events[i].recordedAt else events[j].recordedAt <= events[i].recordedAt
  }

  lemma LatestOfPair(events: seq<Admission>)
    ensures forall i: nat :: IsLatestOfPair(events, i) <==> IsLatest(events, i, PairOf, StampOf)
  {
  }

  /** An admission stamped no earlier than the pair's other events admits the pair for its
      days, to the second, and carries its score and note. */
  lemma AdmitHolds(events: seq<Admission>, pair: Pair, days: int, score: Option<real>, note: string, stamp: int,
                   now: int)
    requires forall e <- events :: e.model == pair.0 && e.taskClass == pair.1 ==> e.recordedAt <= stamp
    ensures var active := ActiveAdmission(events + [Admit(pair.0, pair.1, days, score, note, stamp)], pair, now);
            && (active.Some? <==> now < stamp + days * 86400)
            && (active.Some? ==>
                  var e := active.value;
                  && e.model == pair.0 && e.taskClass == pair.1 && e.recordedAt == stamp && e.score == score
                  && e.note == note && e.event == "admit" && e.expiresAt == Some(stamp + days * 86400))
  {
    hide Upsert, IsLatest;
    var admit := Admit(pair.0, pair.1, days, score, note, stamp);
    assert (events + [admit])[..|events|] == events;
    FindUpsert(LatestPerPair(events), admit, PairOf, StampOf, pair);
    LatestIsRecorded(events, pair);
  }

  lemma LatestIsRecorded(events: seq<Admission>, pair: Pair)
    ensures var latest := Find(LatestPerPair(events), PairOf, pair);
            latest.Some? ==> latest.value in events && latest.value.model == pair.0 && latest.value.taskClass == pair.1
  {
    LatestIsArgmax(events, PairOf, StampOf, pair);
  }

  /** Dates only take admissions away: with no new event, what is not admitted now is
      never admitted later. */
  lemma LapsedStaysLapsed(events: seq<Admission>, pair: Pair, now: int, later: int)
    requires now <= later && !IsAdmitted(events, pair, now)
    ensures !IsAdmitted(events, pair, later)
  {
  }

  /** The latest event of a pair decides, whatever other pairs record. */
  lemma {:induction false} OtherPairsUnaffected(events: seq<Admission>, more: seq<Admission>, pair: Pair, now: int)
    requires forall e <- more :: PairOf(e) != pair
    ensures ActiveAdmission(events + more, pair, now) == ActiveAdmission(events, pair, now)
  {
    if more == [] {
      assert events + more == events;
    } else {
      var front, last := more[..|more| - 1], more[|more| - 1];
      assert events + more == (events + front) + [last];
      assert (events + more)[..|events + more| - 1] == events + front;
      OtherPairsUnaffected(events, front, pair, now);
      FindUpsert(LatestPerPair(events + front), last, PairOf, StampOf, pair);
    }
  }

  /** A revocation stamped no earlier than the pair's earlier events denies the pair at
      every time, until an admission stamped no earlier than the revocation follows. */
  lemma {:induction false} RevokeDenies(events: seq<Admission>, stamp: int, pair: Pair, more: seq<Admission>, now: int)
    requires forall e <- events :: PairOf(e) == pair ==> e.recordedAt <= stamp
    requires forall e <- more :: PairOf(e) == pair && e.event == "admit" ==> e.recordedAt < stamp
    ensures !IsAdmitted(events + [Revoke(pair.0, pair.1, stamp)] + more, pair, now)
    ensures var latest := Find(LatestPerPair(events + [Revoke(pair.0, pair.1, stamp)] + more), PairOf, pair);
            latest.Some? && latest.value.event != "admit" && latest.value.recordedAt >= stamp
  {
    var revoke := Revoke(pair.0, pair.1, stamp);
    if more == [] {
      assert events + [revoke] + more == events + [revoke];
      assert (events + [revoke])[..|events|] == events;
      FindUpsert(LatestPerPair(events), revoke, PairOf, StampOf, pair);
      LatestIsArgmax(events, PairOf, StampOf, pair);
    } else {
      var front, last := more[..|more| - 1], more[|more| - 1];
      assert events + [revoke] + more == (events + [revoke] + front) + [last];
      assert (events + [revoke] + more)[..|events + [revoke] + more| - 1] == events + [revoke] + front;
      RevokeDenies(events, stamp, pair, front, now);
      FindUpsert(LatestPerPair(events + [revoke] + front), last, PairOf, StampOf, pair);
    }
  }

  lemma PairOrder()
    ensures TotalPreorder(ByPair)
  {
    forall a: Admission, b: Admission ensures ByPair(a, b) || ByPair(b, a) {
      Text.StrLeTotal(a.model, b.model);
      Text.StrLeTotal(a.taskClass, b.taskClass);
    }
    forall a: Admission, b: Admission, c: Admission | ByPair(a, b) && ByPair(b, c) ensures ByPair(a, c) {
      if a.model == b.model == c.model {
        Text.StrLeTransitive(a.taskClass, b.taskClass, c.taskClass);
      } else if a.model != b.model && b.model != c.model {
        Text.StrLeTransitive(a.model, b.model, c.model);
        Text.StrLeTotal(a.model, b.model);
      }
    }
  }

  /** `list_active` is in order and lists exactly the pairs `is_admitted` accepts, each
      once and with its active admission. */
  lemma ListActiveIsExact(events: seq<Admission>, now: int, pair: Pair)
    ensures var listed := ListActive(events, now);
            forall i, j :: 0 <= i < j < |listed| ==>
              if listed[i].model == listed[j].model then Text.StrLe(listed[i].taskClass, listed[j].taskClass)
              else Text.StrLe(listed[i].model, listed[j].model)
    ensures forall e :: e in ListActive(events, now) && PairOf(e) == pair
              <==> ActiveAdmission(events, pair, now) == Some(e)
    ensures multiset(ListActive(events, now)) == multiset(Live(LatestPerPair(events), now))
    ensures DistinctBy(Live(LatestPerPair(events), now), PairOf)
  {
    PairOrder();
    var latest := LatestPerPair(events);
    SortedInOrder(Live(latest, now), ByPair);
    LatestDistinct(events, PairOf, StampOf);
    LiveDistinct(latest, now);
    SortedMembers(Live(latest, now), ByPair);
    forall e ensures e in ListActive(events, now) && PairOf(e) == pair
      <==> ActiveAdmission(events, pair, now) == Some(e) {
      if e in latest && PairOf(e) == pair {
        var i :| 0 <= i < |latest| && latest[i] == e;
        FindDistinct(latest, PairOf, i);
      }
    }
  }

  lemma {:induction false} LiveDistinct(latest: seq<Admission>, now: int)
    requires DistinctBy(latest, PairOf)
    ensures DistinctBy(Live(latest, now), PairOf)
  {
    if latest != [] {
      LiveDistinct(latest[1..], now);
      forall e | e in Live(latest[1..], now) ensures PairOf(e) != PairOf(latest[0]) {
        var j :| 0 <= j < |latest[1..]| && latest[1..][j] == e;
        assert latest[j + 1] == e;
      }
    }
  }
}
