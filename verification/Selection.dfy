/** The capacity waterfall: the cheapest backend that clears every gate
    (src/deepr/backends/selection.py). */
module Selection {
  import opened Options
  import opened QuotaEvents
  import opened Eligibility
  import opened Sorting
  import Text

  /** What one selection is asked for. */
  datatype Request = Request(
    states: seq<QuotaState>,
    task: string,
    allowMetered: bool,
    requireObserved: bool,
    floor: Option<real>,
    scores: map<string, real>)

  function KindRank(k: Kind): nat {
    match k
    case Local => 0
    case PlanQuota => 1
    case ApiMetered => 2
  }

  function CostRank(m: CostModel): nat {
    match m
    case OwnedHardware => 0
    case CreditPool => 1
    case RollingWindow => 2
    case CalendarWindow => 3
    case Metered => 4
  }

  function ByRank(a: Backend, b: Backend): bool {
    if KindRank(a.kind) != KindRank(b.kind) then KindRank(a.kind) < KindRank(b.kind)
    else if CostRank(a.costModel) != CostRank(b.costModel) then CostRank(a.costModel) < CostRank(b.costModel)
    else Text.StrLe(a.id, b.id)
  }

  predicate ScoreInRange(x: real) { 0.0 <= x <= 1.0 }

  predicate ValidScores(r: Request) {
    && (r.floor.Some? ==> ScoreInRange(r.floor.value))
    && forall id <- r.scores :: ScoreInRange(r.scores[id])
  }

  predicate ClearsQuality(b: Backend, r: Request) {
    r.floor.None? || (b.id in r.scores && r.scores[b.id] >= r.floor.value)
  }

  predicate Routable(b: Backend, r: Request, env: Env) {
    && Evaluate(b, r.states, r.task, r.allowMetered, r.requireObserved, env).status == Eligible
    && ClearsQuality(b, r)
  }

  function FirstRoutable(ordered: seq<Backend>, r: Request, env: Env): Option<Backend> {
    if ordered == [] then None
    else if Routable(ordered[0], r, env) then Some(ordered[0])
    else FirstRoutable(ordered[1..], r, env)
  }

  datatype SelectionError = InvalidScore

  /** `select_capacity_backend`. */
  function Select(backends: seq<Backend>, r: Request, env: Env): Result<Option<Backend>, SelectionError> {
    if !ValidScores(r) then Err(InvalidScore) else Ok(FirstRoutable(Sorted(backends, ByRank), r, env))
  }

  // ----- Properties -----

  lemma RankOrder()
    ensures TotalPreorder(ByRank)
  {
    forall a: Backend, b: Backend ensures ByRank(a, b) || ByRank(b, a) { Text.StrLeTotal(a.id, b.id); }
    forall a: Backend, b: Backend, c: Backend | ByRank(a, b) && ByRank(b, c) ensures ByRank(a, c) {
      if Text.StrLe(a.id, b.id) && Text.StrLe(b.id, c.id) { Text.StrLeTransitive(a.id, b.id, c.id); }
    }
  }

  lemma {:induction false} FirstRoutableIsLeast(ordered: seq<Backend>, r: Request, env: Env)
    requires InOrder(ordered, ByRank)
    ensures var s := FirstRoutable(ordered, r, env);
            && (s.None? <==> forall b <- ordered :: !Routable(b, r, env))
            && (s.Some? ==> s.value in ordered && Routable(s.value, r, env)
                            && forall b <- ordered :: Routable(b, r, env) ==> ByRank(s.value, b))
  {
    hide Routable, Text.StrLe;
    if ordered != [] {
      assert ordered == [ordered[0]] + ordered[1..];
      FirstRoutableIsLeast(ordered[1..], r, env);
      if Routable(ordered[0], r, env) {
        forall b | b in ordered && Routable(b, r, env) ensures ByRank(ordered[0], b) {
          var j :| 0 <= j < |ordered| && ordered[j] == b;
          if j == 0 { Text.StrLeTotal(b.id, b.id); }
        }
      }
    }
  }

  /** The selected backend is routable and of least rank among the routable ones; nothing
      is selected exactly when nothing is routable. */
  lemma SelectsLeastRoutable(backends: seq<Backend>, r: Request, env: Env)
    requires ValidScores(r)
    ensures Select(backends, r, env).Ok?
    ensures var s := Select(backends, r, env).value;
            && (s.None? <==> forall b <- backends :: !Routable(b, r, env))
            && (s.Some? ==> s.value in backends && Routable(s.value, r, env)
                            && forall b <- backends :: Routable(b, r, env) ==> ByRank(s.value, b))
  {
    hide Routable, ByRank, TotalPreorder;
    RankOrder();
    SortedInOrder(backends, ByRank);
    SortedMembers(backends, ByRank);
    FirstRoutableIsLeast(Sorted(backends, ByRank), r, env);
  }

  /** A metered backend is selected only after the caller's explicit budget gate. */
  lemma MeteredNeedsBudget(backends: seq<Backend>, r: Request, env: Env)
    requires ValidScores(r) && Select(backends, r, env).value.Some?
    ensures IsMetered(Select(backends, r, env).value.value) ==> r.allowMetered
  {
    SelectsLeastRoutable(backends, r, env);
    var b := Select(backends, r, env).value.value;
    assert Routable(b, r, env);
    hide Select;
  }

  /** Owned before prepaid before paid: a plan backend is selected only if no local one is
      routable, a paid one only if neither is; and within one kind, metered payment
      comes last. */
  lemma CheapestKindFirst(backends: seq<Backend>, r: Request, env: Env, b: Backend)
    requires ValidScores(r) && b in backends && Routable(b, r, env)
    ensures Select(backends, r, env).value.Some?
    ensures var s := Select(backends, r, env).value.value;
            && (b.kind == Local ==> s.kind == Local)
            && (b.kind == PlanQuota ==> s.kind != ApiMetered)
            && (s.kind == b.kind && s.costModel == Metered ==> b.costModel == Metered)
            && (s.kind == b.kind && b.costModel == OwnedHardware ==> s.costModel == OwnedHardware)
  {
    hide Routable;
    SelectsLeastRoutable(backends, r, env);
    hide Select;
  }

  ghost predicate DistinctIds(backends: seq<Backend>) {
    forall a, b :: a in backends && b in backends && a.id == b.id ==> a == b
  }

  lemma SameRankSameId(a: Backend, b: Backend)
    requires ByRank(a, b) && ByRank(b, a)
    ensures a.id == b.id
  {
    Text.StrLeTotal(a.id, b.id);
  }

  lemma SameMembers<T>(a: seq<T>, b: seq<T>)
    requires multiset(a) == multiset(b)
    ensures forall x :: x in a <==> x in b
  {
    forall x ensures x in a <==> x in b { assert x in multiset(a) <==> x in multiset(b); }
  }

  /** The outcome does not depend on the order of backends with distinct ids. */
  lemma SelectIgnoresBackendOrder(backends: seq<Backend>, other: seq<Backend>, r: Request, env: Env)
    requires multiset(backends) == multiset(other) && DistinctIds(backends)
    ensures Select(backends, r, env) == Select(other, r, env)
  {
    hide Routable, ByRank;
    if ValidScores(r) {
      SameMembers(backends, other);
      SelectsLeastRoutable(backends, r, env);
      SelectsLeastRoutable(other, r, env);
      var s, t := Select(backends, r, env).value, Select(other, r, env).value;
      if s.Some? && t.Some? { SameRankSameId(s.value, t.value); }
    }
  }

  /** Nor on the order of quota states with distinct accounts. */
  lemma {:induction false} FirstRoutableIgnoresStateOrder(ordered: seq<Backend>, r: Request, states: seq<QuotaState>,
                                                          env: Env)
    requires multiset(r.states) == multiset(states) && DistinctAccounts(r.states)
    ensures FirstRoutable(ordered, r, env) == FirstRoutable(ordered, r.(states := states), env)
  {
    hide Evaluate;
    if ordered != [] {
      EvaluateIgnoresOrder(ordered[0], r.states, states, r.task, r.allowMetered, r.requireObserved, env);
      FirstRoutableIgnoresStateOrder(ordered[1..], r, states, env);
    }
  }

  lemma SelectIgnoresStateOrder(backends: seq<Backend>, r: Request, states: seq<QuotaState>, env: Env)
    requires multiset(r.states) == multiset(states) && DistinctAccounts(r.states)
    ensures Select(backends, r, env) == Select(backends, r.(states := states), env)
  {
    FirstRoutableIgnoresStateOrder(Sorted(backends, ByRank), r, states, env);
  }

  /** One more backend never makes the selected rank worse, and never loses a selection. */
  lemma MoreBackendsNeverWorse(backends: seq<Backend>, extra: Backend, r: Request, env: Env)
    requires ValidScores(r) && Select(backends, r, env).value.Some?
    ensures Select(backends + [extra], r, env).value.Some?
    ensures ByRank(Select(backends + [extra], r, env).value.value, Select(backends, r, env).value.value)
  {
    hide Routable, ByRank;
    SelectsLeastRoutable(backends, r, env);
    SelectsLeastRoutable(backends + [extra], r, env);
  }

  // ----- What a selection guarantees -----

  /** The backend selected is available, supports the task, was paid for if metered, and under a
      quality floor has a measured score of at least that floor. */
  lemma SelectedClears(backends: seq<Backend>, r: Request, env: Env)
    requires ValidScores(r) && Select(backends, r, env).value.Some?
    ensures var b := Select(backends, r, env).value.value;
            && b in backends && b.available
            && (r.task == "" || b.taskClasses == [] || r.task in b.taskClasses)
            && (b.kind == ApiMetered || b.costModel == Metered ==> r.allowMetered)
            && (r.floor.Some? ==> b.id in r.scores && r.scores[b.id] >= r.floor.value)
            && (b.requiresLedger && r.requireObserved ==>
                  exists s <- r.states :: s.backendId == b.id && Judge(s, true, env) == Eligible)
  {
    SelectsLeastRoutable(backends, r, env);
    var b := Select(backends, r, env).value.value;
    assert Routable(b, r, env);
    EvaluateStatus(b, r.states, r.task, r.allowMetered, r.requireObserved, env);
    hide Select, Evaluate, Judge;
  }

  /** And a backend that clears all of this is not passed over for nothing. */
  lemma RoutableMeans(b: Backend, r: Request, env: Env)
    ensures Routable(b, r, env) <==>
              && Evaluate(b, r.states, r.task, r.allowMetered, r.requireObserved, env).status == Eligible
              && (r.floor.Some? ==> b.id in r.scores && r.scores[b.id] >= r.floor.value)
  {
    hide Evaluate;
  }

  /** A selection is refused exactly for a floor or a score outside zero and one. */
  lemma RefusedIff(backends: seq<Backend>, r: Request, env: Env)
    ensures Select(backends, r, env) == Err(InvalidScore) <==>
              || (r.floor.Some? && (r.floor.value < 0.0 || r.floor.value > 1.0))
              || exists id <- r.scores :: r.scores[id] < 0.0 || r.scores[id] > 1.0
  {
    hide FirstRoutable;
  }

  /** The rank: local before plan before metered API; then owned hardware, credit pool, rolling
      window, calendar window, metered; then the id. */
  lemma RankMeans(a: Backend, b: Backend)
    ensures a.kind == Local && b.kind != Local ==> ByRank(a, b) && !ByRank(b, a)
    ensures a.kind == PlanQuota && b.kind == ApiMetered ==> ByRank(a, b) && !ByRank(b, a)
    ensures a.kind == b.kind ==>
              && (a.costModel == OwnedHardware && b.costModel != OwnedHardware ==> ByRank(a, b) && !ByRank(b, a))
              && (a.costModel == CreditPool && b.costModel in {RollingWindow, CalendarWindow, Metered} ==>
                    ByRank(a, b) && !ByRank(b, a))
              && (a.costModel == RollingWindow && b.costModel in {CalendarWindow, Metered} ==>
                    ByRank(a, b) && !ByRank(b, a))
              && (a.costModel == CalendarWindow && b.costModel == Metered ==> ByRank(a, b) && !ByRank(b, a))
              && (a.costModel == b.costModel ==> (ByRank(a, b) <==> Text.StrLe(a.id, b.id)))
  {
    hide Text.StrLe;
  }
}
