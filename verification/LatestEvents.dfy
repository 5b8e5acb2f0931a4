/** The latest event per key: the fold both capacity ledgers use
    (src/deepr/backends/quota_ledger.py, src/deepr/backends/admission.py). The
    dictionary is the sequence of its values, in order of first insertion. */
module LatestEvents {
  import opened Options

  function Find<E, K(==)>(latest: seq<E>, key: E -> K, k: K): (r: Option<E>)
    ensures r.Some? ==> r.value in latest && key(r.value) == k
    ensures r.None? <==> forall e <- latest :: key(e) != k
  {
    if latest == [] then None
    else if key(latest[0]) == k then Some(latest[0])
    else Find(latest[1..], key, k)
  }

  /** `if prev is None or event.at >= prev.at: latest[key] = event`. */
  function Upsert<E, K(==)>(latest: seq<E>, e: E, key: E -> K, at: E -> int): seq<E> {
    if latest == [] then [e]
    else if key(latest[0]) == key(e) then (if at(e) >= at(latest[0]) then [e] + latest[1..] else latest)
    else [latest[0]] + Upsert(latest[1..], e, key, at)
  }

  function Latest<E, K(==)>(events: seq<E>, key: E -> K, at: E -> int): seq<E> {
    if events == [] then []
    else Upsert(Latest(events[..|events| - 1], key, at), events[|events| - 1], key, at)
  }

  method LatestPerKey<E, K(==)>(events: seq<E>, key: E -> K, at: E -> int) returns (latest: seq<E>)
    ensures latest == Latest(events, key, at)
  {
    latest := [];
    for i := 0 to |events|
      invariant latest == Latest(events[..i], key, at)
    {
      assert events[..i + 1][..i] == events[..i];
      latest := Upsert(latest, events[i], key, at);
    }
    assert events[..|events|] == events;
  }

  // ----- The reference definition: argmax by (time, then position) -----

  ghost predicate IsLatest<E, K>(events: seq<E>, i: nat, key: E -> K, at: E -> int) {
    && i < |events|
    && forall j | 0 <= j < |events| && key(events[j]) == key(events[i]) ::
         at(events[j]) < at(events[i]) || (at(events[j]) == at(events[i]) && j <= i)
  }

  lemma {:induction false} FindUpsert<E, K>(latest: seq<E>, e: E, key: E -> K, at: E -> int, k: K)
    ensures Find(Upsert(latest, e, key, at), key, k)
         == if k != key(e) then Find(latest, key, k)
            else if Find(latest, key, k).Some? && at(Find(latest, key, k).value) > at(e) then Find(latest, key, k)
            else Some(e)
  {
    if latest != [] {
      if key(latest[0]) == key(e) {
        assert ([e] + latest[1..])[1..] == latest[1..];
      } else {
        FindUpsert(latest[1..], e, key, at, k);
        assert ([latest[0]] + Upsert(latest[1..], e, key, at))[1..] == Upsert(latest[1..], e, key, at);
      }
    }
  }

  /** The dictionary holds, under each key, the argmax of the events with that key; a
      key without events is absent. */
  lemma {:induction false} LatestIsArgmax<E, K>(events: seq<E>, key: E -> K, at: E -> int, k: K)
    ensures Find(Latest(events, key, at), key, k).None? <==> forall e <- events :: key(e) != k
    ensures forall i: nat :: IsLatest(events, i, key, at) && key(events[i]) == k
                             ==> Find(Latest(events, key, at), key, k) == Some(events[i])
    ensures Find(Latest(events, key, at), key, k).Some?
            ==> exists i: nat :: IsLatest(events, i, key, at) && key(events[i]) == k
  {
    if events != [] {
      var n := |events| - 1;
      var front, last := events[..n], events[n];
      assert events == front + [last];
      LatestIsArgmax(front, key, at, k);
      FindUpsert(Latest(front, key, at), last, key, at, k);
      if Find(Latest(front, key, at), key, k).Some? {
        var m: nat :| IsLatest(front, m, key, at) && key(front[m]) == k;
        assert Find(Latest(front, key, at), key, k) == Some(front[m]);
        assert IsLatest(events, if key(last) == k && at(last) >= at(front[m]) then n else m, key, at);
      } else {
        assert key(last) == k ==> IsLatest(events, n, key, at);
      }
      forall i: nat | IsLatest(events, i, key, at) && key(events[i]) == k
        ensures Find(Latest(events, key, at), key, k) == Some(events[i])
      {
        if i < n {
          assert IsLatest(front, i, key, at) by {
            forall j | 0 <= j < |front| && key(front[j]) == key(front[i])
              ensures at(front[j]) < at(front[i]) || (at(front[j]) == at(front[i]) && j <= i)
            {
              assert front[j] == events[j] && front[i] == events[i];
            }
          }
          assert events[i] == front[i];
        } else if Find(Latest(front, key, at), key, k).Some? {
          var m: nat :| IsLatest(front, m, key, at) && key(front[m]) == k;
          assert events[m] == front[m];
        }
      }
    }
  }

  /** No key occurs twice. */
  ghost predicate DistinctBy<E, K>(latest: seq<E>, key: E -> K) {
    forall i, j :: 0 <= i < j < |latest| ==> key(latest[i]) != key(latest[j])
  }

  lemma {:induction false} UpsertDistinct<E, K>(latest: seq<E>, e: E, key: E -> K, at: E -> int)
    requires DistinctBy(latest, key)
    ensures DistinctBy(Upsert(latest, e, key, at), key)
    ensures forall x <- Upsert(latest, e, key, at) :: x == e || x in latest
  {
    if latest != [] && key(latest[0]) != key(e) {
      UpsertDistinct(latest[1..], e, key, at);
      var tail := Upsert(latest[1..], e, key, at);
      forall j | 0 <= j < |tail| ensures key(tail[j]) != key(latest[0]) {
        assert tail[j] in tail;
        if tail[j] in latest[1..] {
          var i :| 0 <= i < |latest[1..]| && latest[1..][i] == tail[j];
          assert latest[i + 1] == tail[j];
        }
      }
    }
  }

  lemma {:induction false} LatestDistinct<E, K>(events: seq<E>, key: E -> K, at: E -> int)
    ensures DistinctBy(Latest(events, key, at), key)
  {
    if events != [] {
      LatestDistinct(events[..|events| - 1], key, at);
      UpsertDistinct(Latest(events[..|events| - 1], key, at), events[|events| - 1], key, at);
    }
  }

  lemma {:induction false} FindDistinct<E, K>(latest: seq<E>, key: E -> K, i: nat)
    requires DistinctBy(latest, key) && i < |latest|
    ensures Find(latest, key, key(latest[i])) == Some(latest[i])
  {
    if i > 0 { FindDistinct(latest[1..], key, i - 1); }
  }
}
