/** The cost bound of a fan-out is the best there is: under every configuration some schedule
    reaches it (src/deepr/agents/runtime.py). */
module FanOutBounds {
  import opened Counting
  import opened Options
  import opened CircuitBreakers
  import opened FanOuts
  import opened FanOutProofs

  // ----- Reachability -----

  ghost predicate Leads(s: FanOut, c: FanOutConfig, t: FanOut) {
    exists events :: Execution(s, c, events) && After(s, c, events) == t
  }

  lemma LeadsNowhere(s: FanOut, c: FanOutConfig)
    ensures Leads(s, c, s)
  {
    assert Execution(s, c, []) && After(s, c, []) == s;
  }

  lemma LeadsByStep(s: FanOut, c: FanOutConfig, e: Event, t: FanOut)
    requires Enabled(s, c, e) && Leads(Step(s, c, e), c, t)
    ensures Leads(s, c, t)
  {
    hide Enabled, Step;
    var events :| Execution(Step(s, c, e), c, events) && After(Step(s, c, e), c, events) == t;
    assert ([e] + events)[1..] == events;
    assert Execution(s, c, [e] + events);
  }

  lemma LeadsTransitive(s: FanOut, c: FanOutConfig, t: FanOut, u: FanOut)
    requires Leads(s, c, t) && Leads(t, c, u)
    ensures Leads(s, c, u)
  {
    hide Enabled, Step;
    var events :| Execution(s, c, events) && After(s, c, events) == t;
    LeadsAfter(s, c, events, u);
  }

  lemma {:induction false} LeadsAfter(s: FanOut, c: FanOutConfig, events: seq<Event>, u: FanOut)
    requires Execution(s, c, events) && Leads(After(s, c, events), c, u)
    ensures Leads(s, c, u)
    decreases |events|
  {
    hide Enabled, Step, Leads;
    if events != [] {
      LeadsAfter(Step(s, c, events[0]), c, events[1..], u);
      LeadsByStep(s, c, events[0], u);
    }
  }

  // ----- Workers in a row -----

  function Paid(cost: real): AgentResult { AgentResult("", "", "", cost, Success) }

  function LogOf(costs: nat -> real, k: nat): (log: seq<Entry>)
    ensures |log| == k
  {
    seq(k, i requires 0 <= i < k => Entry(i, Paid(costs(i)), 0))
  }

  function PhaseAt(costs: nat -> real, i: nat, done: nat, landed: nat, flying: nat): Phase {
    if i < done then Committed(Paid(costs(i)))
    else if i < landed then Returned(Paid(costs(i)))
    else if i < flying then Running
    else Queued
  }

  /** The first `done` workers have committed, the next have returned up to `landed`, the next
      run up to `flying`, and the others wait; worker `i` costs `costs(i)`. */
  function Row(c: FanOutConfig, n: nat, costs: nat -> real, cap: real, done: nat, landed: nat, flying: nat): FanOut {
    var breaker := Scan(c, n, LogOf(costs, done));
    FanOut(seq(n, i requires 0 <= i < n => PhaseAt(costs, i, done, landed, flying)), LogOf(costs, done), breaker,
           breaker.tripped, cap)
  }

  lemma {:induction false} SumSegment(xs: seq<Phase>, a: nat, b: nat)
    requires a <= b <= |xs|
    requires forall i :: 0 <= i < |xs| ==> Permit(xs[i]) == if a <= i < b then 1 else 0
    ensures Sum(xs, Permit) == b - a
  {
    if xs != [] {
      forall i | 0 <= i < |xs| - 1 ensures Permit(xs[1..][i]) == if a <= i + 1 < b then 1 else 0 {
        assert xs[1..][i] == xs[i + 1];
      }
      SumSegment(xs[1..], if a > 0 then a - 1 else 0, if b > 0 then b - 1 else 0);
    }
  }

  lemma HeldInRow(c: FanOutConfig, n: nat, costs: nat -> real, cap: real, done: nat, landed: nat, flying: nat)
    requires done <= landed <= flying <= n
    ensures Held(Row(c, n, costs, cap, done, landed, flying)) == flying - done
  {
    hide Scan, LogOf;
    SumSegment(Row(c, n, costs, cap, done, landed, flying).workers, done, flying);
  }

  /** Waiting workers take permits one after the other. */
  lemma {:induction false} TakeOff(c: FanOutConfig, n: nat, costs: nat -> real, cap: real, done: nat, landed: nat,
                                   flying: nat, to: nat)
    requires done <= landed <= flying <= to <= n && to - done <= c.maxConcurrent && cap >= 0.0
    requires !Scan(c, n, LogOf(costs, done)).tripped
    ensures Leads(Row(c, n, costs, cap, done, landed, flying), c, Row(c, n, costs, cap, done, landed, to))
    decreases n - flying
  {
    var s := Row(c, n, costs, cap, done, landed, flying);
    if flying == to {
      LeadsNowhere(s, c);
    } else {
      hide Scan, LogOf, Sum, Leads;
      HeldInRow(c, n, costs, cap, done, landed, flying);
      var next := Row(c, n, costs, cap, done, landed, flying + 1);
      assert Step(s, c, Acquire(flying)).workers == next.workers;
      TakeOff(c, n, costs, cap, done, landed, flying + 1, to);
      LeadsByStep(s, c, Acquire(flying), Row(c, n, costs, cap, done, landed, to));
    }
  }

  /** Running workers return one after the other. */
  lemma {:induction false} Land(c: FanOutConfig, n: nat, costs: nat -> real, cap: real, done: nat, landed: nat,
                                flying: nat)
    requires done <= landed <= flying <= n
    ensures Leads(Row(c, n, costs, cap, done, landed, flying), c, Row(c, n, costs, cap, done, flying, flying))
    decreases n - landed
  {
    var s := Row(c, n, costs, cap, done, landed, flying);
    if landed == flying {
      LeadsNowhere(s, c);
    } else {
      hide Scan, LogOf, Sum, Leads, Held;
      var next := Row(c, n, costs, cap, done, landed + 1, flying);
      assert Step(s, c, Return(landed, Paid(costs(landed)))).workers == next.workers;
      Land(c, n, costs, cap, done, landed + 1, flying);
      LeadsByStep(s, c, Return(landed, Paid(costs(landed))), Row(c, n, costs, cap, done, flying, flying));
    }
  }

  lemma CommitNext(c: FanOutConfig, n: nat, costs: nat -> real, cap: real, done: nat, landed: nat)
    requires done < landed <= n
    ensures Enabled(Row(c, n, costs, cap, done, landed, landed), c, Commit(done, 0))
    ensures Step(Row(c, n, costs, cap, done, landed, landed), c, Commit(done, 0))
              == Row(c, n, costs, cap, done + 1, landed, landed)
  {
    hide Scan, Settle, Results, Held;
    var s, next := Row(c, n, costs, cap, done, landed, landed), Row(c, n, costs, cap, done + 1, landed, landed);
    var t := Step(s, c, Commit(done, 0));
    assert t.log == LogOf(costs, done + 1) && t.log[..|t.log| - 1] == s.log;
    ScanSnoc(c, n, t.log);
    if s.halted { SettleTripped(c, n, t.log); }
    assert t.workers == next.workers;
  }

  /** Returned workers commit one after the other. */
  lemma {:induction false} CommitRow(c: FanOutConfig, n: nat, costs: nat -> real, cap: real, done: nat, landed: nat)
    requires done <= landed <= n
    ensures Leads(Row(c, n, costs, cap, done, landed, landed), c, Row(c, n, costs, cap, landed, landed, landed))
    decreases n - done
  {
    hide Row, Leads, Enabled, Step;
    if done == landed {
      LeadsNowhere(Row(c, n, costs, cap, done, landed, landed), c);
    } else {
      CommitNext(c, n, costs, cap, done, landed);
      CommitRow(c, n, costs, cap, done + 1, landed);
      LeadsByStep(Row(c, n, costs, cap, done, landed, landed), c, Commit(done, 0),
        Row(c, n, costs, cap, landed, landed, landed));
    }
  }

  /** A batch of workers, no more than there are permits, all fly before any of them lands. */
  lemma Batch(c: FanOutConfig, n: nat, costs: nat -> real, cap: real, done: nat, to: nat)
    requires done <= to <= n && to - done <= c.maxConcurrent && cap >= 0.0
    requires !Scan(c, n, LogOf(costs, done)).tripped
    ensures Leads(Row(c, n, costs, cap, done, done, done), c, Row(c, n, costs, cap, to, to, to))
  {
    hide Row, Leads, Scan;
    TakeOff(c, n, costs, cap, done, done, done, to);
    Land(c, n, costs, cap, done, done, to);
    CommitRow(c, n, costs, cap, done, to);
    LeadsTransitive(Row(c, n, costs, cap, done, done, done), c, Row(c, n, costs, cap, done, done, to),
                    Row(c, n, costs, cap, done, to, to));
    LeadsTransitive(Row(c, n, costs, cap, done, done, done), c, Row(c, n, costs, cap, done, to, to),
                    Row(c, n, costs, cap, to, to, to));
  }

  /** The first `k` workers have passed the first halt check. */
  function Lined(n: nat, k: nat): seq<Phase> { seq(n, i requires 0 <= i < n => if i < k then Queued else New) }

  lemma {:induction false} LineUp(c: FanOutConfig, n: nat, costs: nat -> real, cap: real, k: nat)
    requires k <= n && ValidConfig(c)
    ensures Leads(Row(c, n, costs, cap, 0, 0, 0).(workers := Lined(n, k)), c, Row(c, n, costs, cap, 0, 0, 0))
    decreases n - k
  {
    assert LogOf(costs, 0) == [];
    ScanTripsAtFirst(c, n, []);
    EmptyNotOver(c);
    var end := Row(c, n, costs, cap, 0, 0, 0);
    var s := end.(workers := Lined(n, k));
    if k == n {
      assert s.workers == end.workers;
      LeadsNowhere(end, c);
    } else {
      hide Scan, SomePrefixOver, Leads, Held;
      assert Step(s, c, Start(k)).workers == Lined(n, k + 1);
      LineUp(c, n, costs, cap, k + 1);
      LeadsByStep(s, c, Start(k), end);
    }
  }

  lemma EmptyNotOver(c: FanOutConfig)
    requires ValidConfig(c)
    ensures !SomePrefixOver(Results([]), c)
  {
    assert Results([])[..0] == [];
  }

  // ----- The costs -----

  function SumTo(costs: nat -> real, k: nat): real { if k == 0 then 0.0 else SumTo(costs, k - 1) + costs(k - 1) }

  lemma {:induction false} RowTotals(costs: nat -> real, k: nat)
    ensures var results := Results(LogOf(costs, k));
            TotalCost(results) == SumTo(costs, k) && Succeeded(results) == k
  {
    var results := Results(LogOf(costs, k));
    if k > 0 {
      RowTotals(costs, k - 1);
      assert results[..k - 1] == Results(LogOf(costs, k - 1));
    }
  }

  /** Successful workers trip nothing as long as their costs stay within the budget. */
  lemma Untripped(c: FanOutConfig, n: nat, costs: nat -> real, k: nat)
    requires ValidConfig(c) && forall j: nat :: j <= k ==> SumTo(costs, j) <= c.operationBudget
    ensures !Scan(c, n, LogOf(costs, k)).tripped
  {
    hide Scan, TotalCost, Succeeded, PrefixOver, SumTo, LogOf, Results;
    ScanTripsAtFirst(c, n, LogOf(costs, k));
    var results := Results(LogOf(costs, k));
    forall j: nat | j <= |results| ensures !PrefixOver(results[..j], c) {
      LogPrefix(costs, k, j);
      RowTotals(costs, j);
      NothingOver(results[..j], c);
    }
  }

  lemma LogPrefix(costs: nat -> real, k: nat, j: nat)
    requires j <= k
    ensures Results(LogOf(costs, k))[..j] == Results(LogOf(costs, j))
  {
  }

  lemma NothingOver(results: seq<AgentResult>, c: FanOutConfig)
    requires ValidConfig(c) && Succeeded(results) == |results| && TotalCost(results) <= c.operationBudget
    ensures !PrefixOver(results, c)
  {
    hide Succeeded, TotalCost;
    assert c.failureRateThreshold * |results| as real >= 0.0;
  }

  /** As many whole results as fit into the budget, one that fills it up, and a last batch. */
  function Costs(budget: real, x: real, q: nat): nat -> real {
    i => if i == q then budget - q as real * x else x
  }

  lemma {:induction false} CostsSum(budget: real, x: real, q: nat, k: nat)
    ensures SumTo(Costs(budget, x, q), k) == if k <= q then k as real * x else budget + (k - q - 1) as real * x
  {
    if k > 0 {
      CostsSum(budget, x, q, k - 1);
      assert k as real * x == (k - 1) as real * x + x;
      if k > q + 1 { assert (k - q - 1) as real * x == (k - 1 - q - 1) as real * x + x; }
    }
  }

  lemma Quotient(budget: real, x: real) returns (q: nat)
    requires budget >= 0.0 && x > 0.0
    ensures q as real * x <= budget < (q + 1) as real * x
  {
    var ratio := budget / x;
    assert ratio * x == budget && ratio >= 0.0;
    q := ratio.Floor;
    Between(q as real, ratio, x, budget);
    OneMore(q + 1, x);
  }

  lemma Between(low: real, ratio: real, x: real, budget: real)
    requires low <= ratio < low + 1.0 && x > 0.0 && ratio * x == budget
    ensures low * x <= budget < low * x + x
  {
    var below, above := ratio - low, low + 1.0 - ratio;
    assert below * x >= 0.0 && above * x > 0.0;
    assert low * x + below * x == (low + below) * x;
    assert ratio * x + above * x == (ratio + above) * x;
    assert (low + 1.0) * x == low * x + x;
  }

  lemma FillsUp(budget: real, x: real, q: nat, k: nat)
    requires x > 0.0 && q as real * x <= budget && k <= q + 1
    ensures SumTo(Costs(budget, x, q), k) <= budget
  {
    CostsSum(budget, x, q, k);
    if k <= q { assert (q - k) as real * x >= 0.0; }
  }

  /** One worker at a time, up to the budget. */
  lemma {:induction false} FillBudget(c: FanOutConfig, n: nat, x: real, q: nat, cap: real, k: nat)
    requires ValidConfig(c) && x > 0.0 && q as real * x <= c.operationBudget && cap >= 0.0
    requires k <= q + 1 <= n
    ensures var costs := Costs(c.operationBudget, x, q);
            Leads(Row(c, n, costs, cap, k, k, k), c, Row(c, n, costs, cap, q + 1, q + 1, q + 1))
    decreases q + 1 - k
  {
    var costs := Costs(c.operationBudget, x, q);
    hide Row, Leads, Scan, Costs, SumTo;
    if k == q + 1 {
      LeadsNowhere(Row(c, n, costs, cap, k, k, k), c);
    } else {
      forall j: nat | j <= k ensures SumTo(costs, j) <= c.operationBudget { FillsUp(c.operationBudget, x, q, j); }
      Untripped(c, n, costs, k);
      Batch(c, n, costs, cap, k, k + 1);
      FillBudget(c, n, x, q, cap, k + 1);
      LeadsTransitive(Row(c, n, costs, cap, k, k, k), c, Row(c, n, costs, cap, k + 1, k + 1, k + 1),
                      Row(c, n, costs, cap, q + 1, q + 1, q + 1));
    }
  }

  // ----- The bound is reached -----

  /** Under every configuration and for every largest cost, some complete schedule costs exactly
      the operation budget plus one such result per permit. */
  lemma CostBoundIsReached(c: FanOutConfig, x: real)
    requires ValidConfig(c) && x > 0.0
    ensures exists n: nat, s, events ::
              && Reached(s, c, n, None, events) && Complete(s)
              && (forall r <- Results(s.log) :: r.cost <= x)
              && TotalCost(Results(s.log)) == c.operationBudget + c.maxConcurrent as real * x
  {
    var q := Quotient(c.operationBudget, x);
    var n: nat := q + 1 + c.maxConcurrent;
    var costs := Costs(c.operationBudget, x, q);
    var begin := Begin(c, n, None, true).run;
    BeginIsRow(c, n, costs);
    LineUp(c, n, costs, begin.cap, 0);
    FillBudget(c, n, x, q, begin.cap, 0);
    forall j: nat | j <= q + 1 ensures SumTo(costs, j) <= c.operationBudget { FillsUp(c.operationBudget, x, q, j); }
    Untripped(c, n, costs, q + 1);
    Batch(c, n, costs, begin.cap, q + 1, n);
    var end := Row(c, n, costs, begin.cap, n, n, n);
    EndOfRow(c, n, x, q, begin.cap);
    hide Begin, Row, Costs, Scan, SumTo, Results, TotalCost, LogOf, Complete;
    LeadsTransitive(begin, c, Row(c, n, costs, begin.cap, 0, 0, 0), Row(c, n, costs, begin.cap, q + 1, q + 1, q + 1));
    LeadsTransitive(begin, c, Row(c, n, costs, begin.cap, q + 1, q + 1, q + 1), end);
    var events :| Execution(begin, c, events) && After(begin, c, events) == end;
    assert Reached(end, c, n, None, events);
  }

  lemma BeginIsRow(c: FanOutConfig, n: nat, costs: nat -> real)
    requires ValidConfig(c) && n > 0
    ensures var begin := Begin(c, n, None, true).run;
            begin.cap >= 0.0 && begin == Row(c, n, costs, begin.cap, 0, 0, 0).(workers := Lined(n, 0))
  {
    LaunchOutcomes(c, n, None, true);
    assert LogOf(costs, 0) == [];
    var begin := Begin(c, n, None, true).run;
    assert begin.workers == Lined(n, 0);
    assert c.operationBudget * (1.0 - c.synthesisReserve) >= 0.0;
    ScanTripsAtFirst(c, n, []);
    EmptyNotOver(c);
  }

  lemma EndOfRow(c: FanOutConfig, n: nat, x: real, q: nat, cap: real)
    requires c.maxConcurrent > 0 && n == q + 1 + c.maxConcurrent && x > 0.0
    requires q as real * x <= c.operationBudget < (q + 1) as real * x
    ensures var s := Row(c, n, Costs(c.operationBudget, x, q), cap, n, n, n);
            && Complete(s) && (forall r <- Results(s.log) :: r.cost <= x)
            && TotalCost(Results(s.log)) == c.operationBudget + c.maxConcurrent as real * x
  {
    hide Scan, Results, TotalCost, Succeeded, SumTo, Costs;
    var costs := Costs(c.operationBudget, x, q);
    RowTotals(costs, n);
    CostsSum(c.operationBudget, x, q, n);
    LastFits(c.operationBudget, x, q);
    RowCosts(costs, n, x);
  }

  lemma LastFits(budget: real, x: real, q: nat)
    requires x > 0.0 && q as real * x <= budget < (q + 1) as real * x
    ensures forall i: nat :: Costs(budget, x, q)(i) <= x
  {
    assert (q + 1) as real * x == q as real * x + x;
  }

  lemma RowCosts(costs: nat -> real, n: nat, x: real)
    requires forall i: nat :: costs(i) <= x
    ensures forall r <- Results(LogOf(costs, n)) :: r.cost <= x
  {
  }
}
