/** The bounded fan-out: workers behind a semaphore, one results list, one breaker and one
    halt flag, as atomic segments between awaits (src/deepr/agents/runtime.py). */
module FanOuts {
  import opened Counting
  import opened Options
  import opened CircuitBreakers

  /** Where a worker is. `Aborted` is a worker whose body raised something that the handler
      around the agent call does not catch; the gather swallows it. */
  datatype Phase =
    | New
    | Queued
    | Running
    | Returned(result: AgentResult)
    | Committed(result: AgentResult)
    | Skipped
    | Aborted

  predicate Holds(p: Phase) { p.Running? || p.Returned? }

  predicate Finished(p: Phase) { p.Committed? || p.Skipped? || p.Aborted? }

  /** `log` lists the committed results in order, with the worker and the time of each. */
  datatype FanOut = FanOut(workers: seq<Phase>, log: seq<Entry>, breaker: BreakerState, halted: bool, cap: real)

  function Permit(p: Phase): nat { if Holds(p) then 1 else 0 }

  function Held(s: FanOut): nat { Sum(s.workers, Permit) }

  // ----- Launch -----

  datatype Launch = Empty | Blocked | Started(run: FanOut)

  /** `fan_out` up to the dispatch. The override changes only the slice of each worker. */
  function Begin(c: FanOutConfig, queries: nat, override: Option<real>, gateOpen: bool): Launch {
    if queries == 0 then Empty
    else if !gateOpen then Blocked
    else
      var budget := if override.Some? then override.value else c.operationBudget;
      var cap := budget * (1.0 - c.synthesisReserve) / queries as real;
      Started(FanOut(seq(queries, _ => New), [], FRESH.(dispatched := queries), false, cap))
  }

  // ----- Segments -----

  datatype Event =
    | Start(worker: nat)                        // the first halt check
    | Acquire(worker: nat)                      // a permit, and the second halt check
    | Return(worker: nat, result: AgentResult)  // the agent call returned or raised an ordinary exception
    | Abort(worker: nat)                        // the agent call was cancelled
    | Commit(worker: nat, at: int)              // the body under the results lock

  predicate Enabled(s: FanOut, c: FanOutConfig, e: Event) {
    && e.worker < |s.workers|
    && match e
       case Start(i) => s.workers[i].New?
       case Acquire(i) => s.workers[i].Queued? && Held(s) < c.maxConcurrent
       case Return(i, _) => s.workers[i].Running?
       case Abort(i) => s.workers[i].Running?
       case Commit(i, _) => s.workers[i].Returned?
  }

  function Step(s: FanOut, c: FanOutConfig, e: Event): FanOut
    requires Enabled(s, c, e)
  {
    var i := e.worker;
    match e
    case Start(_) => s.(workers := s.workers[i := if s.halted then Skipped else Queued])
    case Acquire(_) =>
      // a negative slice is refused by the budget's own validation, outside the handler
      s.(workers := s.workers[i := if s.halted then Skipped else if s.cap < 0.0 then Aborted else Running])
    case Return(_, result) => s.(workers := s.workers[i := Returned(result)])
    case Abort(_) => s.(workers := s.workers[i := Aborted])
    case Commit(_, at) =>
      var result := s.workers[i].result;
      var log := s.log + [Entry(i, result, at)];
      var breaker := Settle(s.breaker, c, Results(log), result, at);
      s.(workers := s.workers[i := Committed(result)], log := log, breaker := breaker,
         halted := s.halted || breaker.tripped)
  }

  ghost predicate Execution(s: FanOut, c: FanOutConfig, events: seq<Event>)
    decreases |events|
  {
    events == [] || (Enabled(s, c, events[0]) && Execution(Step(s, c, events[0]), c, events[1..]))
  }

  function After(s: FanOut, c: FanOutConfig, events: seq<Event>): FanOut
    requires Execution(s, c, events)
    decreases |events|
  {
    if events == [] then s else After(Step(s, c, events[0]), c, events[1..])
  }

  predicate Complete(s: FanOut) { forall p <- s.workers :: Finished(p) }

  // ----- The class -----

  datatype FanOutResult = FanOutResult(
    results: seq<AgentResult>,
    totalCost: real,
    tripped: bool,
    reason: Option<Reason>)

  class SubagentRuntime {
    const config: FanOutConfig
    const breaker: CircuitBreaker
    var workers: seq<Phase>
    var results: seq<AgentResult>
    var halted: bool
    var cap: real
    ghost var log: seq<Entry>

    ghost predicate Valid()
      reads this, breaker
    {
      breaker.config == config && results == Results(log)
    }

    ghost function State(): FanOut
      reads this, breaker
    {
      FanOut(workers, log, breaker.state, halted, cap)
    }

    constructor (config: FanOutConfig)
      ensures Valid() && this.config == config && fresh(breaker) && State() == FanOut([], [], FRESH, false, 0.0)
    {
      this.config := config;
      breaker := new CircuitBreaker(config);
      workers, results, halted, cap, log := [], [], false, 0.0, [];
    }

    /** Nothing is touched, not even the breaker, when there is no query or the gate is shut. */
    method Launch(queries: nat, override: Option<real>, gateOpen: bool) returns (launched: bool)
      requires Valid()
      modifies this, breaker
      ensures Valid()
      ensures launched == Begin(config, queries, override, gateOpen).Started?
      ensures State() == if launched then Begin(config, queries, override, gateOpen).run else old(State())
    {
      if queries == 0 || !gateOpen { return false; }
      var budget := if override.Some? then override.value else config.operationBudget;
      var pool := budget * (1.0 - config.synthesisReserve);
      cap := pool / queries as real;
      breaker.Reset();
      breaker.state := breaker.state.(dispatched := queries);
      results, log, halted := [], [], false;
      workers := seq(queries, _ => New);
      return true;
    }

    method StartWorker(i: nat)
      requires Valid() && Enabled(State(), config, Start(i))
      modifies this
      ensures Valid() && State() == Step(old(State()), config, Start(i))
    {
      if halted { workers := workers[i := Skipped]; return; }
      workers := workers[i := Queued];
    }

    method AcquirePermit(i: nat)
      requires Valid() && Enabled(State(), config, Acquire(i))
      modifies this
      ensures Valid() && State() == Step(old(State()), config, Acquire(i))
    {
      if halted { workers := workers[i := Skipped]; return; }
      if cap < 0.0 { workers := workers[i := Aborted]; return; }
      workers := workers[i := Running];
    }

    /** The body under the results lock. */
    method CommitResult(i: nat, now: int)
      requires Valid() && Enabled(State(), config, Commit(i, now))
      modifies this, breaker
      ensures Valid() && State() == Step(old(State()), config, Commit(i, now))
    {
      var result := workers[i].result;
      log := log + [Entry(i, result, now)];
      results := results + [result];
      if result.status == Success {
        breaker.RecordCompletion(result);
      } else {
        breaker.RecordFailure(result);
      }
      var halt, reason := breaker.CheckHalt();
      if halt {
        breaker.TripBreaker(reason, TraceIds(results), now);
        halted := true;
      }
      workers := workers[i := Committed(result)];
    }

    /** The gather's end: the costs are summed again, independently of the breaker. */
    method Gather() returns (r: FanOutResult)
      requires Valid() && Complete(State())
      ensures r == FanOutResult(results, TotalCost(results), breaker.state.tripped, breaker.state.reason)
    {
      var total, k := 0.0, 0;
      while k < |results|
        invariant 0 <= k <= |results|
        invariant total == TotalCost(results[..k])
      {
        assert results[..k + 1][..k] == results[..k];
        total := total + results[k].cost;
        k := k + 1;
      }
      assert results[..k] == results;
      return FanOutResult(results, total, breaker.state.tripped, breaker.state.reason);
    }
  }
}

/** What every schedule of the workers keeps (src/deepr/agents/runtime.py). */
module FanOutProofs {
  import opened Counting
  import opened Options
  import opened CircuitBreakers
  import opened FanOuts

  // ----- The invariant -----

  /** The results list and the committed workers are in bijection. */
  ghost predicate LogOk(s: FanOut) {
    && (forall k :: 0 <= k < |s.log| ==>
          s.log[k].worker < |s.workers| && s.workers[s.log[k].worker] == Committed(s.log[k].result))
    && (forall j, k :: 0 <= j < k < |s.log| ==> s.log[j].worker != s.log[k].worker)
    && (forall i :: 0 <= i < |s.workers| && s.workers[i].Committed? ==>
          exists k :: 0 <= k < |s.log| && s.log[k].worker == i)
  }

  /** The workers that still hold a permit when the breaker trips are the only ones that may
      commit after it. */
  ghost predicate TailOk(s: FanOut, c: FanOutConfig) {
    forall k: nat :: TripOf(s.breaker, c, s.log, k) ==> |s.log| - k + Held(s) <= c.maxConcurrent - 1
  }

  ghost predicate PhasesOk(s: FanOut) {
    && (!s.halted ==> forall p <- s.workers :: !p.Skipped?)
    && (s.cap < 0.0 ==> forall p <- s.workers :: p.New? || p.Queued? || p.Skipped? || p.Aborted?)
  }

  ghost predicate Inv(s: FanOut, c: FanOutConfig, n: nat) {
    && |s.workers| == n
    && s.breaker == Scan(c, n, s.log) && s.halted == s.breaker.tripped
    && Held(s) <= c.maxConcurrent
    && LogOk(s) && TailOk(s, c) && PhasesOk(s)
  }

  lemma BeginInv(c: FanOutConfig, n: nat, override: Option<real>)
    requires ValidConfig(c) && n > 0
    ensures Inv(Begin(c, n, override, true).run, c, n)
  {
    var s := Begin(c, n, override, true).run;
    SumZero(s.workers, Permit);
  }

  lemma CommitScan(s: FanOut, c: FanOutConfig, n: nat, i: nat, at: int)
    requires Inv(s, c, n) && Enabled(s, c, Commit(i, at))
    ensures var s' := Step(s, c, Commit(i, at));
            s'.breaker == Scan(c, n, s'.log) && s'.halted == s'.breaker.tripped
  {
    var s' := Step(s, c, Commit(i, at));
    hide Settle, Results, LogOk, TailOk, PhasesOk;
    assert s'.log[..|s'.log| - 1] == s.log;
    ScanSnoc(c, n, s'.log);
    if s.halted { SettleTripped(c, n, s'.log); }
  }

  /** One more commit leaves the bound on late results in place. */
  lemma CommitTail(s: FanOut, c: FanOutConfig, n: nat, i: nat, at: int)
    requires ValidConfig(c) && Inv(s, c, n) && Enabled(s, c, Commit(i, at))
    ensures TailOk(Step(s, c, Commit(i, at)), c)
  {
    hide Settle, Results, LogOk, PhasesOk, FirstOver, ReasonFor, Scan;
    var s' := Step(s, c, Commit(i, at));
    CommitScan(s, c, n, i, at);
    SumUpdate(s.workers, i, Committed(s.workers[i].result), Permit);
    CommitLog(s, c, i, at);
    assert s'.log[..|s'.log| - 1] == s.log;
    forall k: nat | TripOf(s'.breaker, c, s'.log, k) ensures |s'.log| - k + Held(s') <= c.maxConcurrent - 1 {
      if k < |s'.log| {
        TripEarlier(c, n, s.log, s'.log, k);
        assert TripOf(s.breaker, c, s.log, k);
      }
    }
  }

  lemma CommitLog(s: FanOut, c: FanOutConfig, i: nat, at: int)
    requires Enabled(s, c, Commit(i, at))
    ensures var s' := Step(s, c, Commit(i, at));
            && s'.log == s.log + [Entry(i, s.workers[i].result, at)]
            && s'.workers == s.workers[i := Committed(s.workers[i].result)]
  {
  }

  /** A trip recorded for an earlier prefix was recorded before the last commit. */
  lemma TripEarlier(c: FanOutConfig, n: nat, log: seq<Entry>, log': seq<Entry>, k: nat)
    requires ValidConfig(c) && log' != [] && log'[..|log'| - 1] == log && k < |log'|
    requires TripOf(Scan(c, n, log'), c, log', k)
    ensures TripOf(Scan(c, n, log), c, log, k)
  {
    hide PrefixOver, ReasonFor, Scan, Results, SomePrefixOver, FirstOver;
    FirstOverEarlier(c, log', k);
    ScanTripsAtFirst(c, n, log);
    SettleTripped(c, n, log');
  }

  lemma FirstOverEarlier(c: FanOutConfig, log: seq<Entry>, k: nat)
    requires log != [] && k < |log| && FirstOver(Results(log), c, k)
    ensures var earlier := Results(log[..|log| - 1]);
            FirstOver(earlier, c, k) && SomePrefixOver(earlier, c) && earlier[..k] == Results(log)[..k]
  {
    hide PrefixOver;
    Prefixes(log);
    var earlier := Results(log[..|log| - 1]);
    assert PrefixOver(earlier[..k], c);
    forall j | 0 <= j < k ensures !PrefixOver(earlier[..j], c) {
      assert earlier[..j] == Results(log)[..j];
    }
  }

  lemma CommitLogOk(s: FanOut, c: FanOutConfig, i: nat, at: int)
    requires LogOk(s) && Enabled(s, c, Commit(i, at))
    ensures LogOk(Step(s, c, Commit(i, at)))
  {
    var s' := Step(s, c, Commit(i, at));
    CommitLog(s, c, i, at);
    hide Step, Held;
    forall j | 0 <= j < |s'.workers| && s'.workers[j].Committed?
      ensures exists k :: 0 <= k < |s'.log| && s'.log[k].worker == j
    {
      if j == i {
        assert s'.log[|s.log|].worker == i;
      } else {
        var k :| 0 <= k < |s.log| && s.log[k].worker == j;
        assert s'.log[k].worker == j;
      }
    }
  }

  /** Segments other than a commit change one worker and nothing else. */
  lemma MoveKeeps(s: FanOut, c: FanOutConfig, n: nat, i: nat, p: Phase)
    requires Inv(s, c, n) && i < n && !s.workers[i].Committed? && !p.Committed?
    requires Holds(p) && !Holds(s.workers[i]) ==> !s.halted && Held(s) < c.maxConcurrent
    requires p.Skipped? ==> s.halted
    requires s.cap < 0.0 ==> p.New? || p.Queued? || p.Skipped? || p.Aborted?
    requires ValidConfig(c)
    ensures Inv(s.(workers := s.workers[i := p]), c, n)
  {
    hide Scan, LogOk, TailOk;
    SumUpdate(s.workers, i, p, Permit);
    MoveLogOk(s, i, p);
    MoveTailOk(s, c, n, i, p);
  }

  lemma MoveTailOk(s: FanOut, c: FanOutConfig, n: nat, i: nat, p: Phase)
    requires ValidConfig(c) && Inv(s, c, n) && i < n
    requires Holds(p) && !Holds(s.workers[i]) ==> !s.halted
    ensures TailOk(s.(workers := s.workers[i := p]), c)
  {
    var s' := s.(workers := s.workers[i := p]);
    hide Scan, FirstOver, ReasonFor, Results, LogOk, PhasesOk, SomePrefixOver, TripOf;
    SumUpdate(s.workers, i, p, Permit);
    ScanTripsAtFirst(c, n, s.log);
    forall k: nat | TripOf(s'.breaker, c, s'.log, k) ensures |s'.log| - k + Held(s') <= c.maxConcurrent - 1 {
      TripShows(s.breaker, c, s.log, k);
    }
  }

  lemma TripShows(b: BreakerState, c: FanOutConfig, log: seq<Entry>, k: nat)
    requires TripOf(b, c, log, k)
    ensures SomePrefixOver(Results(log), c)
  {
  }

  lemma MoveLogOk(s: FanOut, i: nat, p: Phase)
    requires LogOk(s) && i < |s.workers| && !s.workers[i].Committed? && !p.Committed?
    ensures LogOk(s.(workers := s.workers[i := p]))
  {
  }

  lemma CommitKeeps(s: FanOut, c: FanOutConfig, n: nat, i: nat, at: int)
    requires ValidConfig(c) && Inv(s, c, n) && Enabled(s, c, Commit(i, at))
    ensures Inv(Step(s, c, Commit(i, at)), c, n)
  {
    hide Scan, TailOk, LogOk, Settle, Results;
    assert s.workers[i] in s.workers;
    CommitScan(s, c, n, i, at);
    CommitTail(s, c, n, i, at);
    CommitLogOk(s, c, i, at);
    SumUpdate(s.workers, i, Committed(s.workers[i].result), Permit);
  }

  lemma StepKeeps(s: FanOut, c: FanOutConfig, n: nat, e: Event)
    requires ValidConfig(c) && Inv(s, c, n) && Enabled(s, c, e)
    ensures Inv(Step(s, c, e), c, n)
  {
    hide Scan, TailOk, LogOk, Settle, Results, Sum;
    var i := e.worker;
    assert s.workers[i] in s.workers;
    match e
    case Commit(_, at) => CommitKeeps(s, c, n, i, at);
    case Start(_) => MoveKeeps(s, c, n, i, if s.halted then Skipped else Queued);
    case Acquire(_) => MoveKeeps(s, c, n, i, if s.halted then Skipped else if s.cap < 0.0 then Aborted else Running);
    case Return(_, result) => MoveKeeps(s, c, n, i, Returned(result));
    case Abort(_) => MoveKeeps(s, c, n, i, Aborted);
  }

  lemma {:induction false} InvHolds(s: FanOut, c: FanOutConfig, n: nat, events: seq<Event>)
    requires ValidConfig(c) && Inv(s, c, n) && Execution(s, c, events)
    ensures Inv(After(s, c, events), c, n)
    decreases |events|
  {
    if events != [] {
      hide Inv, Step, Enabled;
      StepKeeps(s, c, n, events[0]);
      InvHolds(Step(s, c, events[0]), c, n, events[1..]);
    }
  }

  // ----- Every schedule -----

  /** A state some schedule of a launched fan-out reaches. */
  ghost predicate Reached(s: FanOut, c: FanOutConfig, n: nat, override: Option<real>, events: seq<Event>) {
    && ValidConfig(c) && n > 0
    && Execution(Begin(c, n, override, true).run, c, events)
    && s == After(Begin(c, n, override, true).run, c, events)
  }

  lemma ReachedInv(s: FanOut, c: FanOutConfig, n: nat, override: Option<real>, events: seq<Event>)
    requires Reached(s, c, n, override, events)
    ensures Inv(s, c, n)
  {
    hide Inv, Execution, After;
    BeginInv(c, n, override);
    InvHolds(Begin(c, n, override, true).run, c, n, events);
  }

  /** The fan-out is a sequential scan of its results: the breaker counts exactly the results
      list, and it is tripped exactly when some prefix of that list is over a threshold, with
      the reason and time of the first such prefix. */
  lemma RefinesScan(s: FanOut, c: FanOutConfig, n: nat, override: Option<real>, events: seq<Event>)
    requires Reached(s, c, n, override, events)
    ensures var results := Results(s.log);
            && s.breaker.completed == Succeeded(results) && s.breaker.completed + s.breaker.failed == |results|
            && s.breaker.cost == TotalCost(results)
            && s.halted == s.breaker.tripped
            && (s.breaker.tripped <==> SomePrefixOver(results, c))
            && (s.breaker.tripped ==>
                  s.breaker.affected == TraceIds(results) && exists k :: TripOf(s.breaker, c, s.log, k))
  {
    ReachedInv(s, c, n, override, events);
    hide Reached, Scan, SomePrefixOver, TripOf, TraceIds, Results;
    ScanCounts(c, n, s.log);
    ScanTripsAtFirst(c, n, s.log);
  }

  /** At any moment at most `maxConcurrent` workers hold a permit; after the trip no worker
      starts, and at most `maxConcurrent - 1` results follow the one that tripped. */
  lemma BoundedTail(s: FanOut, c: FanOutConfig, n: nat, override: Option<real>, events: seq<Event>, e: Event)
    requires Reached(s, c, n, override, events) && Enabled(s, c, e)
    ensures Held(s) <= c.maxConcurrent
    ensures s.halted ==> Step(s, c, e).halted
    ensures s.halted ==>
              forall i :: 0 <= i < |s.workers| && Step(s, c, e).workers[i].Running? ==> s.workers[i].Running?
    ensures forall k: nat :: TripOf(s.breaker, c, s.log, k) ==> |s.log| - k <= c.maxConcurrent - 1
  {
    ReachedInv(s, c, n, override, events);
    hide Reached, Scan, Settle, Results, TripOf;
  }

  /** When every worker has finished and nothing tripped, each query has exactly one entry in
      the results list, except those whose worker was cut short by an uncaught exception. */
  lemma OneResultPerQuery(s: FanOut, c: FanOutConfig, n: nat, override: Option<real>, events: seq<Event>)
    requires Reached(s, c, n, override, events) && Complete(s) && !s.breaker.tripped
    ensures |s.workers| == n
    ensures forall i :: 0 <= i < |s.workers| ==>
              || s.workers[i] == Aborted
              || (exists k :: 0 <= k < |s.log| && s.log[k].worker == i && s.workers[i] == Committed(s.log[k].result)
                              && forall j :: 0 <= j < |s.log| && s.log[j].worker == i ==> j == k)
  {
    ReachedInv(s, c, n, override, events);
    hide Reached, Scan, TailOk, Results;
    forall i | 0 <= i < n && s.workers[i] != Aborted
      ensures exists k :: 0 <= k < |s.log| && s.log[k].worker == i && s.workers[i] == Committed(s.log[k].result)
                          && forall j :: 0 <= j < |s.log| && s.log[j].worker == i ==> j == k
    {
      assert s.workers[i] in s.workers;
      var k :| 0 <= k < |s.log| && s.log[k].worker == i;
    }
  }

  // ----- Progress -----

  function Rank(p: Phase): nat {
    match p
    case New => 4
    case Queued => 3
    case Running => 2
    case Returned(_) => 1
    case _ => 0
  }

  /** Every segment brings the fan-out closer to its end, and until the end some segment can
      run, whatever the schedule did before. */
  lemma Progress(s: FanOut, c: FanOutConfig, e: Event)
    requires Enabled(s, c, e)
    ensures Sum(Step(s, c, e).workers, Rank) < Sum(s.workers, Rank)
  {
    var i := e.worker;
    hide Settle, Results, Held;
    SumUpdate(s.workers, i, Step(s, c, e).workers[i], Rank);
    assert Step(s, c, e).workers == s.workers[i := Step(s, c, e).workers[i]];
  }

  lemma NeverStuck(s: FanOut, c: FanOutConfig, n: nat, override: Option<real>, events: seq<Event>, filler: AgentResult)
    requires Reached(s, c, n, override, events)
    ensures Complete(s) || exists i: nat ::
              Enabled(s, c, Start(i)) || Enabled(s, c, Acquire(i)) || Enabled(s, c, Return(i, filler))
                || Enabled(s, c, Commit(i, 0))
  {
    ReachedInv(s, c, n, override, events);
    hide Reached, Inv;
    if !Complete(s) {
      var p :| p in s.workers && !Finished(p);
      var i: nat :| i < |s.workers| && s.workers[i] == p;
      if p.Queued? && Held(s) >= c.maxConcurrent {
        SumZero(s.workers, Permit);
        var q :| q in s.workers && Permit(q) != 0;
        var j: nat :| j < |s.workers| && s.workers[j] == q;
        assert Enabled(s, c, Return(j, filler)) || Enabled(s, c, Commit(j, 0));
      } else {
        assert Enabled(s, c, Start(i)) || Enabled(s, c, Acquire(i)) || Enabled(s, c, Return(i, filler))
                 || Enabled(s, c, Commit(i, 0));
      }
    }
  }

  /** No schedule has more than four segments per query. */
  lemma {:induction false} SchedulesAreShort(s: FanOut, c: FanOutConfig, events: seq<Event>)
    requires Execution(s, c, events)
    ensures |events| + Sum(After(s, c, events).workers, Rank) <= Sum(s.workers, Rank) <= 4 * |s.workers|
    decreases |events|
  {
    SumBound(s.workers, Rank, 4);
    if events != [] {
      hide Step, Enabled;
      Progress(s, c, events[0]);
      SchedulesAreShort(Step(s, c, events[0]), c, events[1..]);
    }
  }

  // ----- Cost -----

  lemma {:induction false} CostAfter(results: seq<AgentResult>, k: nat, x: real)
    requires k <= |results| && forall r <- results :: r.cost <= x
    ensures TotalCost(results) <= TotalCost(results[..k]) + (|results| - k) as real * x
  {
    if k == |results| {
      assert results[..k] == results;
    } else {
      var front := results[..|results| - 1];
      CostAfter(front, k, x);
      assert front[..k] == results[..k];
      OneMore(|results| - k, x);
    }
  }

  lemma OneMore(m: int, x: real)
    ensures m as real * x == (m - 1) as real * x + x
  {
  }

  /** However the workers interleave, the total overshoots the operation budget by at most one
      result per permit. */
  lemma CostBound(s: FanOut, c: FanOutConfig, n: nat, override: Option<real>, events: seq<Event>, x: real)
    requires Reached(s, c, n, override, events)
    requires x >= 0.0 && forall r <- Results(s.log) :: r.cost <= x
    ensures TotalCost(Results(s.log)) <= c.operationBudget + c.maxConcurrent as real * x
  {
    hide Reached, Scan, Inv, TripOf, PrefixOver, TraceIds, TotalCost, Succeeded, Results;
    assert c.maxConcurrent > 0 by { ReachedValid(s, c, n, override, events); }
    RefinesScan(s, c, n, override, events);
    ReachedInv(s, c, n, override, events);
    var results := Results(s.log);
    if s.breaker.tripped {
      var k: nat :| TripOf(s.breaker, c, s.log, k);
      BeforeTrip(s.breaker, c, s.log, k);
      CostAfter(results, k - 1, x);
      TailBound(s, c, n, k);
      Scale(|results| - (k - 1), c.maxConcurrent, x);
    } else {
      assert results[..|results|] == results;
      assert !PrefixOver(results[..|results|], c);
      NotOver(results, c);
      Scale(0, c.maxConcurrent, x);
    }
  }

  lemma ReachedValid(s: FanOut, c: FanOutConfig, n: nat, override: Option<real>, events: seq<Event>)
    requires Reached(s, c, n, override, events)
    ensures ValidConfig(c)
  {
  }

  lemma Scale(a: int, b: int, x: real)
    requires a <= b && x >= 0.0
    ensures a as real * x <= b as real * x
  {
    assert (b - a) as real * x >= 0.0;
  }

  lemma TailBound(s: FanOut, c: FanOutConfig, n: nat, k: nat)
    requires Inv(s, c, n) && TripOf(s.breaker, c, s.log, k)
    ensures |s.log| - k <= c.maxConcurrent - 1
  {
    hide TripOf, Scan;
  }

  lemma BeforeTrip(b: BreakerState, c: FanOutConfig, log: seq<Entry>, k: nat)
    requires TripOf(b, c, log, k)
    ensures 0 < k <= |log| && TotalCost(Results(log)[..k - 1]) <= c.operationBudget
  {
    NotOver(Results(log)[..k - 1], c);
  }

  lemma NotOver(results: seq<AgentResult>, c: FanOutConfig)
    requires !PrefixOver(results, c)
    ensures TotalCost(results) <= c.operationBudget
  {
    SucceededBound(results);
  }

  lemma {:induction false} SucceededBound(results: seq<AgentResult>)
    ensures Succeeded(results) <= |results|
  {
    if results != [] { SucceededBound(results[..|results| - 1]); }
  }

  /** Workers that stay within their slice leave the synthesis reserve untouched. */
  lemma SliceBound(s: FanOut, c: FanOutConfig, n: nat, override: Option<real>, events: seq<Event>)
    requires Reached(s, c, n, override, events)
    requires forall r <- Results(s.log) :: r.cost <= s.cap
    ensures var budget := if override.Some? then override.value else c.operationBudget;
            var pool := budget * (1.0 - c.synthesisReserve);
            TotalCost(Results(s.log)) <= if pool >= 0.0 then pool else 0.0
  {
    hide Scan, Inv, TotalCost, Results, Reached;
    ReachedInv(s, c, n, override, events);
    ReachedCap(s, c, n, override, events);
    CostAfter(Results(s.log), 0, s.cap);
    assert Results(s.log)[..0] == [];
    EmptyCost();
    DistinctWorkers(s, c, n);
    if s.cap >= 0.0 {
      var budget := if override.Some? then override.value else c.operationBudget;
      Slices(TotalCost(Results(s.log)), |s.log|, n, s.cap, budget * (1.0 - c.synthesisReserve));
    } else {
      assert ValidConfig(c) by { ReachedValid(s, c, n, override, events); }
      NegativeSlice(s, c, n);
      assert Results(s.log) == [];
    }
  }

  lemma ReachedCap(s: FanOut, c: FanOutConfig, n: nat, override: Option<real>, events: seq<Event>)
    requires Reached(s, c, n, override, events)
    ensures n as real * s.cap
            == (if override.Some? then override.value else c.operationBudget) * (1.0 - c.synthesisReserve)
  {
    hide Execution, After;
    CapUnchanged(Begin(c, n, override, true).run, c, events);
    LaunchOutcomes(c, n, override, true);
  }

  lemma Slices(total: real, m: int, n: int, cap: real, pool: real)
    requires total <= m as real * cap && m <= n && cap >= 0.0 && n as real * cap == pool && n >= 0
    ensures total <= pool && pool >= 0.0
  {
    Scale(m, n, cap);
    Scale(0, n, cap);
  }

  lemma EmptyCost()
    ensures TotalCost([]) == 0.0
  {
  }

  lemma {:induction false} CapUnchanged(s: FanOut, c: FanOutConfig, events: seq<Event>)
    requires Execution(s, c, events)
    ensures After(s, c, events).cap == s.cap
    decreases |events|
  {
    if events != [] {
      hide Settle, Results;
      CapUnchanged(Step(s, c, events[0]), c, events[1..]);
    }
  }

  /** There are no more results than queries. */
  lemma DistinctWorkers(s: FanOut, c: FanOutConfig, n: nat)
    requires Inv(s, c, n)
    ensures |s.log| <= n
  {
    hide Scan, TailOk, PhasesOk;
    Injection(seq(|s.log|, k requires 0 <= k < |s.log| => s.log[k].worker), n);
  }

  lemma {:induction false} Injection(xs: seq<nat>, n: nat)
    requires forall x <- xs :: x < n
    requires forall j, k :: 0 <= j < k < |xs| ==> xs[j] != xs[k]
    ensures |xs| <= n
  {
    if xs != [] {
      assert xs[0] in xs;
      if n - 1 in xs {
        var k :| 0 <= k < |xs| && xs[k] == n - 1;
        var ys := xs[..k] + xs[k + 1..];
        assert forall j :: 0 <= j < |ys| ==> ys[j] == if j < k then xs[j] else xs[j + 1];
        forall j | 0 <= j < |ys| ensures ys[j] < n - 1 {
          assert (if j < k then xs[j] else xs[j + 1]) in xs;
        }
        Injection(ys, n - 1);
      } else {
        Injection(xs, n - 1);
      }
    }
  }

  /** The slice of each worker is not negative. */
  predicate NonNegativeSlice(c: FanOutConfig, override: Option<real>) {
    override.None? || override.value >= 0.0 || c.synthesisReserve == 1.0
  }

  lemma SliceSign(s: FanOut, c: FanOutConfig, n: nat, override: Option<real>, events: seq<Event>)
    requires Reached(s, c, n, override, events)
    ensures s.cap >= 0.0 <==> NonNegativeSlice(c, override)
  {
    hide Reached, Execution, After;
    ReachedCap(s, c, n, override, events);
    ReachedValid(s, c, n, override, events);
    ReachedCount(s, c, n, override, events);
    var budget, rest := if override.Some? then override.value else c.operationBudget, 1.0 - c.synthesisReserve;
    SameSign(n as real, s.cap, budget * rest);
    if rest > 0.0 { SameSign(rest, budget, budget * rest); }
  }

  lemma SameSign(a: real, b: real, product: real)
    requires a > 0.0 && a * b == product
    ensures b >= 0.0 <==> product >= 0.0
  {
  }

  /** A negative slice starts no agent at all, and the breaker does not say so: every worker
      fails on its own budget, outside the handler that would report it. */
  lemma NoResults(s: FanOut, c: FanOutConfig, n: nat, override: Option<real>, events: seq<Event>)
    requires Reached(s, c, n, override, events) && !NonNegativeSlice(c, override)
    ensures s.log == [] && !s.breaker.tripped && forall p <- s.workers :: !p.Running? && !p.Committed?
  {
    SliceSign(s, c, n, override, events);
    ReachedInv(s, c, n, override, events);
    NegativeSlice(s, c, n);
    hide Reached, Scan, TailOk, LogOk;
  }

  /** When nothing tripped and no agent call was cancelled, every query has its result if and
      only if the slice is not negative. */
  lemma EveryQueryAnsweredIff(s: FanOut, c: FanOutConfig, n: nat, override: Option<real>, events: seq<Event>)
    requires Reached(s, c, n, override, events) && Complete(s) && !s.breaker.tripped
    requires forall e <- events :: !e.Abort?
    ensures (forall p <- s.workers :: p.Committed?) <==> NonNegativeSlice(c, override)
    ensures NonNegativeSlice(c, override) ==> |s.log| == n
    ensures !NonNegativeSlice(c, override) ==> forall p <- s.workers :: p.Aborted?
  {
    hide Reached, Inv, NonNegativeSlice, Execution, After, Complete;
    SliceSign(s, c, n, override, events);
    ReachedInv(s, c, n, override, events);
    ReachedCount(s, c, n, override, events);
    if NonNegativeSlice(c, override) {
      ReachedNoneAborted(s, c, n, override, events);
      AllCommitted(s, c, n);
      DistinctWorkers(s, c, n);
      AllLogged(s, c, n);
    } else {
      NoResults(s, c, n, override, events);
      AllAborted(s, c, n);
    }
  }

  lemma AllCommitted(s: FanOut, c: FanOutConfig, n: nat)
    requires Inv(s, c, n) && Complete(s) && !s.breaker.tripped && forall p <- s.workers :: !p.Aborted?
    ensures forall p <- s.workers :: p.Committed?
  {
    hide Scan, TailOk, LogOk;
  }

  lemma AllAborted(s: FanOut, c: FanOutConfig, n: nat)
    requires Inv(s, c, n) && Complete(s) && !s.breaker.tripped && n > 0 && forall p <- s.workers :: !p.Committed?
    ensures forall p <- s.workers :: p.Aborted?
    ensures exists p :: p in s.workers && !p.Committed?
  {
    hide Scan, TailOk, LogOk;
    assert s.workers[0] in s.workers;
  }

  lemma ReachedNoneAborted(s: FanOut, c: FanOutConfig, n: nat, override: Option<real>, events: seq<Event>)
    requires Reached(s, c, n, override, events) && s.cap >= 0.0 && forall e <- events :: !e.Abort?
    ensures forall p <- s.workers :: !p.Aborted?
  {
    hide Execution, After;
    CapUnchanged(Begin(c, n, override, true).run, c, events);
    NoneAborted(Begin(c, n, override, true).run, c, events);
  }

  lemma ReachedCount(s: FanOut, c: FanOutConfig, n: nat, override: Option<real>, events: seq<Event>)
    requires Reached(s, c, n, override, events)
    ensures n > 0
  {
  }

  /** With every worker committed there are as many results as workers. */
  lemma AllLogged(s: FanOut, c: FanOutConfig, n: nat)
    requires Inv(s, c, n) && forall p <- s.workers :: p.Committed?
    ensures |s.log| >= n
  {
    hide Scan, TailOk, PhasesOk;
    var xs := seq(|s.log|, k requires 0 <= k < |s.log| => s.log[k].worker);
    forall i: nat | i < n ensures i in xs {
      assert s.workers[i] in s.workers;
      var k :| 0 <= k < |s.log| && s.log[k].worker == i;
      assert xs[k] == i;
    }
    Surjection(xs, n);
  }

  lemma {:induction false} Surjection(xs: seq<nat>, n: nat)
    requires forall i: nat :: i < n ==> i in xs
    ensures |xs| >= n
  {
    if n > 0 {
      assert n - 1 in xs;
      var k :| 0 <= k < |xs| && xs[k] == n - 1;
      var ys := xs[..k] + xs[k + 1..];
      forall i: nat | i < n - 1 ensures i in ys {
        assert i in xs;
        var m :| 0 <= m < |xs| && xs[m] == i;
        assert ys[if m < k then m else m - 1] == i;
      }
      Surjection(ys, n - 1);
    }
  }

  lemma {:induction false} NoneAborted(s: FanOut, c: FanOutConfig, events: seq<Event>)
    requires Execution(s, c, events) && s.cap >= 0.0
    requires forall e <- events :: !e.Abort?
    requires forall p <- s.workers :: !p.Aborted?
    ensures forall p <- After(s, c, events).workers :: !p.Aborted?
    decreases |events|
  {
    if events != [] {
      hide Settle, Results, Held;
      assert events[0] in events;
      forall e | e in events[1..] ensures e in events {}
      NoneAborted(Step(s, c, events[0]), c, events[1..]);
    }
  }

  lemma NegativeSlice(s: FanOut, c: FanOutConfig, n: nat)
    requires Inv(s, c, n) && s.cap < 0.0 && ValidConfig(c)
    ensures s.log == [] && !s.breaker.tripped
  {
    hide Scan, TailOk;
    FirstCommitted(s);
    ScanTripsAtFirst(c, n, []);
  }

  lemma FirstCommitted(s: FanOut)
    requires LogOk(s)
    ensures s.log == [] || exists p <- s.workers :: p.Committed?
  {
    if s.log != [] { assert s.workers[s.log[0].worker] in s.workers; }
  }

  // ----- The gate -----

  /** With the gate shut nothing is dispatched; with no query the gate is not consulted; the
      override reaches the slices and not the breaker. */
  lemma LaunchOutcomes(c: FanOutConfig, n: nat, override: Option<real>, gateOpen: bool)
    ensures Begin(c, n, override, gateOpen).Started? <==> n > 0 && gateOpen
    ensures Begin(c, 0, override, gateOpen) == Empty
    ensures n > 0 && gateOpen ==>
              var s := Begin(c, n, override, gateOpen).run;
              && s.breaker == Scan(c, n, [])
              && n as real * s.cap
                 == (if override.Some? then override.value else c.operationBudget) * (1.0 - c.synthesisReserve)
  {
    if n > 0 && gateOpen {
      var budget := if override.Some? then override.value else c.operationBudget;
      assert n as real * (budget * (1.0 - c.synthesisReserve) / n as real) == budget * (1.0 - c.synthesisReserve);
    }
  }
}
