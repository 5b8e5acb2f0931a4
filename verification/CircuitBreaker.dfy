/** The circuit breaker of a bounded fan-out, and the sequential scan it computes
    (src/deepr/agents/circuit_breaker.py). */
module CircuitBreakers {
  import opened Options

  datatype Status = Success | Failed | Cancelled | BudgetExceeded

  datatype AgentResult = AgentResult(agentId: string, traceId: string, output: string, cost: real, status: Status)

  datatype FanOutConfig = FanOutConfig(
    maxConcurrent: int,
    operationBudget: real,
    failureRateThreshold: real,
    synthesisReserve: real)

  /** What `FanOutConfig.__post_init__` lets through. */
  predicate ValidConfig(c: FanOutConfig) {
    && c.maxConcurrent > 0
    && c.operationBudget >= 0.0
    && 0.0 <= c.failureRateThreshold <= 1.0
    && 0.0 <= c.synthesisReserve <= 1.0
  }

  /** The reason strings, by the figures they print. */
  datatype Reason = CostOver(cost: real) | FailuresOver(failed: nat, resolved: nat)

  datatype BreakerState = BreakerState(
    dispatched: nat,
    completed: nat,
    failed: nat,
    cost: real,
    tripped: bool,
    reason: Option<Reason>,
    trippedAt: Option<int>,
    affected: set<string>)

  const FRESH := BreakerState(0, 0, 0, 0.0, false, None, None, {})

  // ----- The methods on values -----

  function Record(b: BreakerState, r: AgentResult): BreakerState {
    if r.status == Success then b.(completed := b.completed + 1, cost := b.cost + r.cost)
    else b.(failed := b.failed + 1, cost := b.cost + r.cost)
  }

  function ShouldHalt(b: BreakerState, c: FanOutConfig): (bool, Option<Reason>) {
    if b.tripped then (true, b.reason)
    else if b.cost > c.operationBudget then (true, Some(CostOver(b.cost)))
    else
      var resolved := b.completed + b.failed;
      if resolved > 0 && b.failed as real / resolved as real > c.failureRateThreshold
      then (true, Some(FailuresOver(b.failed, resolved)))
      else (false, None)
  }

  function Trip(b: BreakerState, reason: Option<Reason>, ids: set<string>, now: int): BreakerState {
    if b.tripped then b.(affected := b.affected + ids)
    else b.(tripped := true, reason := reason, trippedAt := Some(now), affected := ids)
  }

  function TraceIds(results: seq<AgentResult>): set<string> { set r <- results :: r.traceId }

  /** What a worker does under the results lock, once its result has been appended. */
  function Settle(b: BreakerState, c: FanOutConfig, results: seq<AgentResult>, r: AgentResult, now: int): BreakerState {
    var b1 := Record(b, r);
    var (halt, reason) := ShouldHalt(b1, c);
    if halt then Trip(b1, reason, TraceIds(results), now) else b1
  }

  // ----- The class -----

  class CircuitBreaker {
    const config: FanOutConfig
    var state: BreakerState

    constructor (config: FanOutConfig)
      ensures this.config == config && state == FRESH
    {
      this.config := config;
      state := FRESH;
    }

    method RecordCompletion(r: AgentResult)
      modifies this
      ensures r.status == Success ==> state == Record(old(state), r)
      ensures state == old(state).(completed := old(state.completed) + 1, cost := old(state.cost) + r.cost)
    {
      state := state.(completed := state.completed + 1);
      state := state.(cost := state.cost + r.cost);
    }

    method RecordFailure(r: AgentResult)
      modifies this
      ensures r.status != Success ==> state == Record(old(state), r)
      ensures state == old(state).(failed := old(state.failed) + 1, cost := old(state.cost) + r.cost)
    {
      state := state.(failed := state.failed + 1);
      state := state.(cost := state.cost + r.cost);
    }

    method CheckHalt() returns (halt: bool, reason: Option<Reason>)
      ensures (halt, reason) == ShouldHalt(state, config)
      ensures halt <==> state.tripped || Over(state.completed, state.failed, state.cost, config)
    {
      if state.tripped { return true, state.reason; }
      if state.cost > config.operationBudget { return true, Some(CostOver(state.cost)); }
      var resolved := state.completed + state.failed;
      if resolved > 0 {
        var rate := state.failed as real / resolved as real;
        RateOver(state.failed, resolved, config.failureRateThreshold);
        if rate > config.failureRateThreshold { return true, Some(FailuresOver(state.failed, resolved)); }
      }
      return false, None;
    }

    method TripBreaker(reason: Option<Reason>, ids: set<string>, now: int)
      modifies this
      ensures state == Trip(old(state), reason, ids, now)
    {
      if state.tripped {
        state := state.(affected := state.affected + ids);
        return;
      }
      state := state.(tripped := true, reason := reason, trippedAt := Some(now));
      state := state.(affected := ids);
    }

    method Reset()
      modifies this
      ensures state == FRESH
    {
      state := FRESH;
    }
  }

  // ----- The scan -----

  /** A committed result and the time it was committed. */
  datatype Entry = Entry(worker: nat, result: AgentResult, at: int)

  function Results(log: seq<Entry>): (r: seq<AgentResult>)
    ensures |r| == |log| && forall k :: 0 <= k < |log| ==> r[k] == log[k].result
  {
    seq(|log|, k requires 0 <= k < |log| => log[k].result)
  }

  /** The breaker after reading the results one by one. */
  function Scan(c: FanOutConfig, dispatched: nat, log: seq<Entry>): BreakerState {
    if log == [] then FRESH.(dispatched := dispatched)
    else
      var last := log[|log| - 1];
      Settle(Scan(c, dispatched, log[..|log| - 1]), c, Results(log), last.result, last.at)
  }

  function TotalCost(results: seq<AgentResult>): real {
    if results == [] then 0.0 else TotalCost(results[..|results| - 1]) + results[|results| - 1].cost
  }

  function Succeeded(results: seq<AgentResult>): nat {
    if results == [] then 0
    else Succeeded(results[..|results| - 1]) + if results[|results| - 1].status == Success then 1 else 0
  }

  /** A threshold is exceeded, whatever was decided before. */
  predicate Over(completed: nat, failed: nat, cost: real, c: FanOutConfig) {
    cost > c.operationBudget
    || (completed + failed > 0 && failed as real > c.failureRateThreshold * (completed + failed) as real)
  }

  predicate PrefixOver(results: seq<AgentResult>, c: FanOutConfig) {
    var completed := Succeeded(results);
    completed <= |results| && Over(completed, |results| - completed, TotalCost(results), c)
  }

  /** What the counters of a results list count. */
  lemma {:induction false} CountsMean(r: AgentResult, a: seq<AgentResult>, b: seq<AgentResult>)
    ensures Succeeded([]) == 0 && TotalCost([]) == 0.0
    ensures Succeeded([r]) == (match r.status case Success => 1 case _ => 0) && TotalCost([r]) == r.cost
    ensures Succeeded(a + b) == Succeeded(a) + Succeeded(b) && TotalCost(a + b) == TotalCost(a) + TotalCost(b)
    ensures forall id :: id in TraceIds(a) <==> exists k :: 0 <= k < |a| && a[k].traceId == id
  {
    assert [r][..0] == [];
    if b == [] {
      assert a + b == a;
    } else {
      assert (a + b)[..|a + b| - 1] == a + b[..|b| - 1];
      CountsMean(r, a, b[..|b| - 1]);
    }
  }

  lemma RateOver(failed: nat, resolved: nat, threshold: real)
    requires resolved > 0
    ensures failed as real / resolved as real > threshold <==> failed as real > threshold * resolved as real
  {
    var f, n := failed as real, resolved as real;
    assert f / n * n == f;
    if f / n > threshold { assert (f / n - threshold) * n > 0.0; } else { assert (threshold - f / n) * n >= 0.0; }
  }

  /** The index of the first prefix over a threshold, if any. */
  ghost predicate FirstOver(results: seq<AgentResult>, c: FanOutConfig, k: nat) {
    k <= |results| && PrefixOver(results[..k], c) && forall j :: 0 <= j < k ==> !PrefixOver(results[..j], c)
  }

  /** The reason the check gives for a prefix over a threshold. */
  function ReasonFor(results: seq<AgentResult>, c: FanOutConfig): Reason
    requires PrefixOver(results, c)
  {
    if TotalCost(results) > c.operationBudget then CostOver(TotalCost(results))
    else FailuresOver(|results| - Succeeded(results), |results|)
  }

  lemma {:induction false} ScanCounts(c: FanOutConfig, dispatched: nat, log: seq<Entry>)
    ensures var b, results := Scan(c, dispatched, log), Results(log);
            && b.dispatched == dispatched
            && b.completed == Succeeded(results) && b.completed + b.failed == |results|
            && b.cost == TotalCost(results)
  {
    if log != [] {
      var front := log[..|log| - 1];
      ScanCounts(c, dispatched, front);
      assert Results(log)[..|log| - 1] == Results(front);
    }
  }

  ghost predicate SomePrefixOver(results: seq<AgentResult>, c: FanOutConfig) {
    exists k :: 0 <= k <= |results| && PrefixOver(results[..k], c)
  }

  /** The breaker recorded the trip of the first prefix over a threshold, of length `k`. */
  ghost predicate TripOf(b: BreakerState, c: FanOutConfig, log: seq<Entry>, k: nat) {
    var results := Results(log);
    && 0 < k <= |log| && FirstOver(results, c, k)
    && b.reason == Some(ReasonFor(results[..k], c)) && b.trippedAt == Some(log[k - 1].at)
  }

  /** One more result, after a scan that has not tripped. */
  lemma SettleUntripped(c: FanOutConfig, dispatched: nat, log: seq<Entry>)
    requires log != [] && !Scan(c, dispatched, log[..|log| - 1]).tripped
    ensures var b, before, results := Scan(c, dispatched, log), Scan(c, dispatched, log[..|log| - 1]), Results(log);
            && (b.tripped <==> PrefixOver(results, c))
            && (b.tripped ==>
                  && b.reason == Some(ReasonFor(results, c)) && b.trippedAt == Some(log[|log| - 1].at)
                  && b.affected == TraceIds(results))
            && (!b.tripped ==>
                  b.reason == before.reason && b.trippedAt == before.trippedAt && b.affected == before.affected)
  {
    hide TotalCost, Succeeded, Scan, TraceIds, Results, Over;
    ScanCounts(c, dispatched, log);
    ScanSnoc(c, dispatched, log);
    var before, last := Scan(c, dispatched, log[..|log| - 1]), log[|log| - 1];
    HaltMeaning(Record(before, last.result), c);
  }

  lemma ScanSnoc(c: FanOutConfig, dispatched: nat, log: seq<Entry>)
    requires log != []
    ensures var last := log[|log| - 1];
            Scan(c, dispatched, log)
            == Settle(Scan(c, dispatched, log[..|log| - 1]), c, Results(log), last.result, last.at)
  {
    hide Settle, Results;
  }

  lemma HaltMeaning(b: BreakerState, c: FanOutConfig)
    requires !b.tripped
    ensures var (halt, reason) := ShouldHalt(b, c);
            && (halt <==> Over(b.completed, b.failed, b.cost, c))
            && (halt && b.cost > c.operationBudget ==> reason == Some(CostOver(b.cost)))
            && (halt && b.cost <= c.operationBudget ==> reason == Some(FailuresOver(b.failed, b.completed + b.failed)))
  {
    if b.completed + b.failed > 0 { RateOver(b.failed, b.completed + b.failed, c.failureRateThreshold); }
  }

  /** One more result, after a scan that has tripped. */
  lemma SettleTripped(c: FanOutConfig, dispatched: nat, log: seq<Entry>)
    requires log != [] && Scan(c, dispatched, log[..|log| - 1]).tripped
    ensures var b, before := Scan(c, dispatched, log), Scan(c, dispatched, log[..|log| - 1]);
            && b.tripped && b.reason == before.reason && b.trippedAt == before.trippedAt
            && b.affected == before.affected + TraceIds(Results(log))
  {
    hide TotalCost, Succeeded, TraceIds, Results;
  }

  /** The breaker is tripped exactly when some prefix of the results is over a threshold; its
      reason and time are those of the first such prefix, and the affected traces are those
      of every result so far. */
  lemma {:induction false} ScanTripsAtFirst(c: FanOutConfig, dispatched: nat, log: seq<Entry>)
    requires ValidConfig(c)
    ensures var b, results := Scan(c, dispatched, log), Results(log);
            && (b.tripped <==> SomePrefixOver(results, c))
            && (b.tripped ==> b.affected == TraceIds(results) && exists k :: TripOf(b, c, log, k))
            && (!b.tripped ==> b.reason == None && b.trippedAt == None && b.affected == {})
  {
    var results := Results(log);
    if log == [] {
      assert results[..0] == [];
    } else {
      hide Scan, PrefixOver, TraceIds, Results, ReasonFor, FirstOver, SomePrefixOver;
      var front := log[..|log| - 1];
      ScanTripsAtFirst(c, dispatched, front);
      if Scan(c, dispatched, front).tripped {
        SettleTripped(c, dispatched, log);
        TracesGrow(log);
        var k: nat :| TripOf(Scan(c, dispatched, front), c, front, k);
        TripStays(Scan(c, dispatched, front), Scan(c, dispatched, log), c, log, k);
      } else {
        SettleUntripped(c, dispatched, log);
        NoneBefore(c, log);
        if Scan(c, dispatched, log).tripped { assert TripOf(Scan(c, dispatched, log), c, log, |log|); }
      }
    }
  }

  lemma TripStays(b: BreakerState, b': BreakerState, c: FanOutConfig, log: seq<Entry>, k: nat)
    requires log != [] && TripOf(b, c, log[..|log| - 1], k) && b'.reason == b.reason && b'.trippedAt == b.trippedAt
    ensures TripOf(b', c, log, k) && SomePrefixOver(Results(log), c)
  {
    hide PrefixOver, ReasonFor;
    Prefixes(log);
    assert PrefixOver(Results(log)[..k], c);
  }

  lemma NoneBefore(c: FanOutConfig, log: seq<Entry>)
    requires log != [] && !SomePrefixOver(Results(log[..|log| - 1]), c)
    ensures var results := Results(log);
            && results[..|log|] == results
            && (SomePrefixOver(results, c) <==> PrefixOver(results, c))
            && (PrefixOver(results, c) ==> FirstOver(results, c, |log|))
  {
    hide PrefixOver;
    Prefixes(log);
    var results := Results(log);
    assert results[..|log|] == results;
    forall j | 0 <= j < |log| ensures !PrefixOver(results[..j], c) {
      assert results[..j] == Results(log[..|log| - 1])[..j];
    }
  }

  lemma Prefixes(log: seq<Entry>)
    requires log != []
    ensures forall j :: 0 <= j < |log| ==> Results(log)[..j] == Results(log[..|log| - 1])[..j]
  {
  }

  lemma TracesGrow(log: seq<Entry>)
    requires log != []
    ensures TraceIds(Results(log[..|log| - 1])) <= TraceIds(Results(log))
  {
    var front, results := Results(log[..|log| - 1]), Results(log);
    forall id | id in TraceIds(front) ensures id in TraceIds(results) {
      var k :| 0 <= k < |front| && front[k].traceId == id;
      assert results[k] == front[k];
    }
  }
}
