/** Bookkeeping caps: the budget object and the child slice of an agent tool
    (src/deepr/agents/contract.py, src/deepr/agents/agent_tool.py). */
module AgentBudgets {
  import opened Options

  datatype Budget = Budget(max: real, spent: real)

  /** What `__post_init__` lets through. */
  predicate ValidBudget(b: Budget) { b.max >= 0.0 && 0.0 <= b.spent <= b.max }

  /** A new budget, unless its validation raises. */
  function Make(max: real): (r: Option<Budget>)
    ensures r.Some? ==> ValidBudget(r.value)
  {
    if max < 0.0 then None else Some(Budget(max, 0.0))
  }

  function Remaining(b: Budget): real { if b.max - b.spent > 0.0 then b.max - b.spent else 0.0 }

  predicate Allows(b: Budget, cost: real) { cost >= 0.0 && cost <= Remaining(b) }

  function Record(b: Budget, cost: real): Budget { if Allows(b, cost) then b.(spent := b.spent + cost) else b }

  class AgentBudget {
    const max: real
    var spent: real

    ghost function State(): Budget
      reads this
    {
      Budget(max, spent)
    }

    constructor (max: real)
      requires Make(max).Some?
      ensures Make(max) == Some(State())
    {
      this.max := max;
      spent := 0.0;
    }

    method RecordCost(cost: real) returns (accepted: bool)
      requires ValidBudget(State())
      modifies this
      ensures State() == Record(old(State()), cost) && ValidBudget(State())
      ensures accepted <==> cost >= 0.0 && old(spent) + cost <= max
      ensures !accepted ==> spent == old(spent)
    {
      var remaining := if max - spent > 0.0 then max - spent else 0.0;
      if cost < 0.0 || cost > remaining { return false; }
      spent := spent + cost;
      return true;
    }
  }

  // ----- Any sequence of records -----

  function RecordAll(b: Budget, costs: seq<real>): Budget
    decreases |costs|
  {
    if costs == [] then b else RecordAll(Record(b, costs[0]), costs[1..])
  }

  /** The costs accepted, in order. */
  function Accepted(b: Budget, costs: seq<real>): seq<real>
    decreases |costs|
  {
    if costs == [] then []
    else (if Allows(b, costs[0]) then [costs[0]] else []) + Accepted(Record(b, costs[0]), costs[1..])
  }

  function Total(costs: seq<real>): real { if costs == [] then 0.0 else costs[0] + Total(costs[1..]) }

  /** Whatever is offered, the budget stays within its bounds, and the spend is exactly the
      sum of the accepted costs. */
  lemma {:induction false} SpendIsAcceptedTotal(b: Budget, costs: seq<real>)
    requires ValidBudget(b)
    ensures var b' := RecordAll(b, costs);
            && ValidBudget(b') && b'.max == b.max
            && b'.spent == b.spent + Total(Accepted(b, costs))
    decreases |costs|
  {
    if costs != [] {
      SpendIsAcceptedTotal(Record(b, costs[0]), costs[1..]);
      var rest := Accepted(Record(b, costs[0]), costs[1..]);
      if Allows(b, costs[0]) {
        assert ([costs[0]] + rest)[1..] == rest;
      } else {
        assert [] + rest == rest;
      }
    }
  }

  // ----- The agent tool -----

  datatype ToolOutcome =
    | MissingQuery
    | Blocked
    | Exhausted
    | Refused               // the child budget's own validation raised
    | Ran(slice: real)

  /** `AgentTool.execute` up to the delegated call. */
  function Delegate(limit: real, hasQuery: bool, gateOpen: bool, parent: Option<Budget>): ToolOutcome {
    if !hasQuery then MissingQuery
    else if !gateOpen then Blocked
    else
      var slice :=
        if parent.None? then limit
        else if limit < Remaining(parent.value) then limit else Remaining(parent.value);
      if parent.Some? && Remaining(parent.value) <= 0.0 then Exhausted
      else if Make(slice).None? then Refused
      else Ran(slice)
  }

  /** How a call of the tool ends: its query is checked first, then the gate, then what the
      parent has left, then the limit; without a parent the limit itself is the slice, and with
      one the smaller of the limit and what is left. */
  lemma DelegateMeans(limit: real, hasQuery: bool, gateOpen: bool, parent: Option<Budget>)
    requires parent.Some? ==> ValidBudget(parent.value)
    ensures var outcome := Delegate(limit, hasQuery, gateOpen, parent);
            && (outcome == MissingQuery <==> !hasQuery)
            && (outcome == Blocked <==> hasQuery && !gateOpen)
            && (outcome == Exhausted
                <==> hasQuery && gateOpen && parent.Some? && parent.value.spent == parent.value.max)
            && (outcome == Refused
                <==> hasQuery && gateOpen && limit < 0.0
                     && (parent.Some? ==> parent.value.spent < parent.value.max))
            && (parent.None? && outcome.Ran? ==> outcome.slice == limit)
            && (parent.Some? && outcome.Ran? ==>
                  var left := parent.value.max - parent.value.spent;
                  outcome.slice == if limit <= left then limit else left)
  {
  }

  /** One call of a tool whose agent would spend `spends` of its slice: what the parent then
      records. */
  datatype Call = Call(limit: real, hasQuery: bool, spends: real)

  function CallCost(c: Call, parent: Budget): real {
    match Delegate(c.limit, c.hasQuery, true, Some(parent))
    case Ran(_) => c.spends
    case _ => 0.0
  }

  /** Every agent of the sequence keeps to the slice it is given. */
  ghost predicate WithinSlices(parent: Budget, calls: seq<Call>)
    decreases |calls|
  {
    calls == []
    || ((match Delegate(calls[0].limit, calls[0].hasQuery, true, Some(parent))
         case Ran(slice) => 0.0 <= calls[0].spends <= slice
         case _ => true)
        && WithinSlices(Record(parent, CallCost(calls[0], parent)), calls[1..]))
  }

  function CallCosts(parent: Budget, calls: seq<Call>): seq<real>
    decreases |calls|
  {
    if calls == [] then []
    else
      var cost := CallCost(calls[0], parent);
      [cost] + CallCosts(Record(parent, cost), calls[1..])
  }

  /** As long as each result keeps to its slice and is recorded before the next call, every
      record is accepted, and the parent is never exceeded however many tools are called. */
  lemma {:induction false} ToolsNeverExceedParent(parent: Budget, calls: seq<Call>)
    requires ValidBudget(parent) && WithinSlices(parent, calls)
    ensures var costs := CallCosts(parent, calls);
            && Accepted(parent, costs) == costs
            && parent.spent + Total(costs) <= parent.max
    decreases |calls|
  {
    if calls != [] {
      var cost := CallCost(calls[0], parent);
      assert Allows(parent, cost);
      ToolsNeverExceedParent(Record(parent, cost), calls[1..]);
      var rest := CallCosts(Record(parent, cost), calls[1..]);
      assert ([cost] + rest)[1..] == rest;
    }
  }

  /** The slice is the largest one that is safe: within the tool's own limit, every spend the
      slice permits can be recorded in the parent, and any larger one would break one of the
      two. */
  lemma SliceIsLargest(limit: real, parent: Budget, spend: real)
    requires ValidBudget(parent) && spend >= 0.0
    ensures match Delegate(limit, true, true, Some(parent))
            case Ran(slice) => spend <= slice <==> spend <= limit && Allows(parent, spend)
            case Exhausted => Allows(parent, spend) ==> spend == 0.0
            case Refused => limit < 0.0
            case _ => false
  {
  }
}
