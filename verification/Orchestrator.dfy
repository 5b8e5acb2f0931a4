/** The planner, workers and synthesizer of one orchestration
    (src/deepr/agents/orchestrator.py). */
module Orchestrators {
  import opened Options
  import opened Text
  import opened Sorting

  datatype AgentOutcome = AgentOutcome(output: string, cost: real, artifacts: seq<string>)

  /** An entry of the dispatcher's table: no result when the worker raised. */
  datatype Dispatched = Dispatched(id: string, result: Option<AgentOutcome>)

  datatype Reply = PlanningFailed | Reply(subtasks: nat, inputs: seq<string>, cost: real, artifacts: seq<string>)

  // ----- Subtasks -----

  function SplitLines(s: string): (r: seq<string>)
    ensures r != []
  {
    if s == [] then [""]
    else
      var rest := SplitLines(s[1..]);
      if s[0] == '\n' then [""] + rest else [[s[0]] + rest[0]] + rest[1..]
  }

  function NonBlank(lines: seq<string>): (r: seq<string>)
    ensures forall x <- r :: x != ""
  {
    if lines == [] then []
    else
      var line := Strip(lines[0], IsSpace);
      (if line == "" then [] else [line]) + NonBlank(lines[1..])
  }

  /** The planner's non-blank lines, or the query itself when there is none. */
  function Subtasks(plan: string, query: string): (r: seq<string>)
    ensures r != []
  {
    var lines := NonBlank(SplitLines(Strip(plan, IsSpace)));
    if lines == [] then [query] else lines
  }

  function Joined(lines: seq<string>): string {
    if lines == [] then "" else if |lines| == 1 then lines[0] else lines[0] + "\n" + Joined(lines[1..])
  }

  /** Splitting undoes joining lines that hold no line break, so that it is the one way to
      write the text as such lines. */
  lemma {:induction false} SplitJoined(s: string, lines: seq<string>)
    requires lines != []
    ensures SplitLines(s) == lines <==> Joined(lines) == s && forall line <- lines :: '\n' !in line
  {
    SplitJoins(s);
    if Joined(lines) == s && forall line <- lines :: '\n' !in line { JoinSplits(lines); }
  }

  lemma {:induction false} SplitJoins(s: string)
    ensures Joined(SplitLines(s)) == s && forall line <- SplitLines(s) :: '\n' !in line
  {
    if s != [] {
      var rest := SplitLines(s[1..]);
      SplitJoins(s[1..]);
      assert s == [s[0]] + s[1..];
      if s[0] == '\n' {
        assert ([""] + rest)[1..] == rest;
      } else {
        var lines := [[s[0]] + rest[0]] + rest[1..];
        assert lines[1..] == rest[1..];
        assert rest[0] in rest;
        forall line | line in lines ensures '\n' !in line {
          assert line == lines[0] || line in rest;
        }
      }
    }
  }

  lemma {:induction false} JoinSplits(lines: seq<string>)
    requires lines != [] && forall line <- lines :: '\n' !in line
    ensures SplitLines(Joined(lines)) == lines
    decreases |lines|, |lines[0]|
  {
    var s := Joined(lines);
    var first := lines[0];
    if first != "" {
      var shorter := [first[1..]] + lines[1..];
      assert shorter[1..] == lines[1..];
      assert first == [first[0]] + first[1..];
      assert s[1..] == Joined(shorter);
      assert first in lines && first[0] in first;
      forall line | line in shorter ensures '\n' !in line { assert line == first[1..] || line in lines; }
      JoinSplits(shorter);
    } else if |lines| > 1 {
      assert s[1..] == Joined(lines[1..]);
      JoinSplits(lines[1..]);
    } else {
      assert lines == [""];
    }
  }

  /** Blank lines are dropped and the others stripped, in order. */
  lemma {:induction false} NonBlankInOrder(line: string, a: seq<string>, b: seq<string>)
    ensures NonBlank([]) == []
    ensures NonBlank([line]) == if Strip(line, IsSpace) == "" then [] else [Strip(line, IsSpace)]
    ensures NonBlank(a + b) == NonBlank(a) + NonBlank(b)
  {
    hide Strip, IsSpace;
    assert [line][1..] == [];
    if a == [] {
      assert a + b == b;
    } else {
      assert (a + b)[1..] == a[1..] + b;
      NonBlankInOrder(line, a[1..], b);
    }
  }

  /** The lines of the plan that are not blank, stripped and in order, are the subtasks, and
      the query alone is when there is none; the run replies their number. */
  lemma SubtasksMean(lines: seq<string>, plan: AgentOutcome, query: string, workers: nat, tasks: seq<Dispatched>,
                     synthesis: Option<AgentOutcome>)
    requires lines != [] && Strip(plan.output, IsSpace) == Joined(lines) && forall line <- lines :: '\n' !in line
    ensures Subtasks(plan.output, query)
            == if forall line <- lines :: Strip(line, IsSpace) == "" then [query] else NonBlank(lines)
    ensures var reply := ReplyOf(query, Some(plan), workers, tasks, synthesis);
            reply.Reply? && reply.subtasks == |Subtasks(plan.output, query)|
  {
    hide Strip, IsSpace;
    SplitJoined(Strip(plan.output, IsSpace), lines);
    NoLineIff(lines);
  }

  lemma {:induction false} NoLineIff(lines: seq<string>)
    ensures NonBlank(lines) == [] <==> forall line <- lines :: Strip(line, IsSpace) == ""
  {
    hide Strip, IsSpace;
    if lines != [] {
      NoLineIff(lines[1..]);
      assert lines == [lines[0]] + lines[1..];
    }
  }

  // ----- Worker ids -----

  function WorkerId(i: nat): string { "worker-" + Numeral(i) }

  /** What follows the last hyphen, if there is one. */
  function AfterHyphen(s: string): Option<string> {
    if s == [] then None
    else if s[|s| - 1] == '-' then Some("")
    else
      var front := AfterHyphen(s[..|s| - 1]);
      if front.Some? then Some(front.value + [s[|s| - 1]]) else None
  }

  function WorkerIndex(id: string): int {
    var tail := AfterHyphen(id);
    if tail.None? then 0
    else
      var n := ParseNumeral(tail.value);
      if n.Some? then n.value else 0
  }

  lemma {:induction false} AfterHyphenOf(digits: string)
    requires forall k :: 0 <= k < |digits| ==> digits[k] != '-'
    ensures AfterHyphen("worker-" + digits) == Some(digits)
  {
    var s := "worker-" + digits;
    if digits == [] {
      assert s[|s| - 1] == '-';
    } else {
      var front := digits[..|digits| - 1];
      AfterHyphenOf(front);
      assert s[..|s| - 1] == "worker-" + front && s[|s| - 1] == digits[|digits| - 1];
      assert front + [digits[|digits| - 1]] == digits;
    }
  }

  lemma IndexOfId(i: nat)
    ensures WorkerIndex(WorkerId(i)) == i
  {
    forall k | 0 <= k < |Numeral(i)| ensures Numeral(i)[k] != '-' { assert Numeral(i)[k] in Numeral(i); }
    AfterHyphenOf(Numeral(i));
    NumeralRoundTrip(i);
  }

  // ----- Dispatch and collection -----

  /** Every subtask is dispatched, in order, under its own id. */
  function Dispatch(results: seq<Option<AgentOutcome>>): (r: seq<Dispatched>)
    ensures |r| == |results|
  {
    seq(|results|, i requires 0 <= i < |results| => Dispatched(WorkerId(i), results[i]))
  }

  predicate ByIndex(a: Dispatched, b: Dispatched) { WorkerIndex(a.id) <= WorkerIndex(b.id) }

  function Results(tasks: seq<Dispatched>): (r: seq<Option<AgentOutcome>>)
    ensures |r| == |tasks|
  {
    seq(|tasks|, i requires 0 <= i < |tasks| => tasks[i].result)
  }

  function Outputs(results: seq<Option<AgentOutcome>>): seq<string> {
    if results == [] then []
    else Outputs(results[..|results| - 1]) + OutputOf(results[|results| - 1])
  }

  function Costs(results: seq<Option<AgentOutcome>>): real {
    if results == [] then 0.0 else Costs(results[..|results| - 1]) + CostOf(results[|results| - 1])
  }

  function Artifacts(results: seq<Option<AgentOutcome>>): seq<string> {
    if results == [] then []
    else Artifacts(results[..|results| - 1]) + ArtifactsOf(results[|results| - 1])
  }

  /** The worker's budget is an equal part of 70% of the whole. */
  function WorkerSlice(budget: real, subtasks: nat): real
    requires subtasks > 0
  {
    budget * 0.7 / subtasks as real
  }

  function OutputOf(r: Option<AgentOutcome>): seq<string> { if r.Some? then [r.value.output] else [] }

  function CostOf(r: Option<AgentOutcome>): real { if r.Some? then r.value.cost else 0.0 }

  function ArtifactsOf(r: Option<AgentOutcome>): seq<string> { if r.Some? then r.value.artifacts else [] }

  /** The reply of a run, given what the agents and the dispatcher report. `tasks` is the
      dispatcher's table in whatever order the workers finished; with no worker it is not
      consulted. */
  function ReplyOf(query: string, plan: Option<AgentOutcome>, workers: nat, tasks: seq<Dispatched>,
                   synthesis: Option<AgentOutcome>): Reply
  {
    if plan.None? then PlanningFailed
    else
      var sorted := if workers == 0 then [] else Results(Sorted(tasks, ByIndex));
      Reply(|Subtasks(plan.value.output, query)|,
            if workers == 0 then [plan.value.output] else Outputs(sorted),
            plan.value.cost + Costs(sorted) + CostOf(synthesis),
            plan.value.artifacts + Artifacts(sorted) + ArtifactsOf(synthesis))
  }

  method Run(query: string, plan: Option<AgentOutcome>, workers: nat, tasks: seq<Dispatched>,
             synthesis: Option<AgentOutcome>)
    returns (reply: Reply)
    ensures reply == ReplyOf(query, plan, workers, tasks, synthesis)
  {
    hide Sorted, Outputs, Costs, Artifacts, Subtasks;
    if plan.None? { return PlanningFailed; }
    var total, artifacts := plan.value.cost, plan.value.artifacts;
    var subtasks := Subtasks(plan.value.output, query);
    var outputs := [plan.value.output];
    NothingCollected();
    if workers != 0 { outputs, total, artifacts := Collect(tasks, total, artifacts); }
    if synthesis.Some? {
      total := total + synthesis.value.cost;
      artifacts := artifacts + synthesis.value.artifacts;
    }
    return Reply(|subtasks|, outputs, total, artifacts);
  }

  lemma NothingCollected()
    ensures Outputs([]) == [] && Costs([]) == 0.0 && Artifacts([]) == []
  {
  }

  lemma CollectNext(results: seq<Option<AgentOutcome>>, k: nat)
    requires k < |results|
    ensures var r := results[k];
            && Outputs(results[..k + 1]) == Outputs(results[..k]) + (if r.Some? then [r.value.output] else [])
            && Costs(results[..k + 1]) == Costs(results[..k]) + (if r.Some? then r.value.cost else 0.0)
            && Artifacts(results[..k + 1]) == Artifacts(results[..k]) + (if r.Some? then r.value.artifacts else [])
  {
    assert results[..k + 1][..k] == results[..k];
  }

  /** The loop over the sorted table, continuing the running totals. */
  method Collect(tasks: seq<Dispatched>, cost: real, found: seq<string>)
    returns (outputs: seq<string>, total: real, artifacts: seq<string>)
    ensures var results := Results(Sorted(tasks, ByIndex));
            outputs == Outputs(results) && total == cost + Costs(results) && artifacts == found + Artifacts(results)
  {
    hide Sorted, ByIndex, WorkerIndex, Outputs, Costs, Artifacts;
    NothingCollected();
    outputs, total, artifacts := [], cost, found;
    var sorted := Sorted(tasks, ByIndex);
    ghost var results := Results(sorted);
    var k := 0;
    while k < |sorted|
      invariant 0 <= k <= |sorted|
      invariant outputs == Outputs(results[..k])
      invariant total == cost + Costs(results[..k])
      invariant artifacts == found + Artifacts(results[..k])
    {
      CollectNext(results, k);
      var result := sorted[k].result;
      if result.Some? {
        total := total + result.value.cost;
        artifacts := artifacts + result.value.artifacts;
        outputs := outputs + [result.value.output];
      }
      k := k + 1;
    }
    assert results[..k] == results;
  }

  /** One result contributes its output, cost and artifacts, and a failed worker nothing. */
  lemma CollectedOnce(r: Option<AgentOutcome>)
    ensures Outputs([r]) == match r case Some(o) => [o.output] case None => []
    ensures Costs([r]) == match r case Some(o) => o.cost case None => 0.0
    ensures Artifacts([r]) == match r case Some(o) => o.artifacts case None => []
  {
    assert [r][..0] == [];
  }

  /** The outputs and artifacts of earlier subtasks stand before those of later ones, and the
      costs of both are added. */
  lemma {:induction false} CollectedInOrder(a: seq<Option<AgentOutcome>>, b: seq<Option<AgentOutcome>>)
    ensures Outputs(a + b) == Outputs(a) + Outputs(b)
    ensures Costs(a + b) == Costs(a) + Costs(b)
    ensures Artifacts(a + b) == Artifacts(a) + Artifacts(b)
  {
    hide Outputs, Costs, Artifacts;
    NothingCollected();
    if b == [] {
      assert a + b == a;
    } else {
      var front := b[..|b| - 1];
      CollectedInOrder(a, front);
      CollectNext(a + b, |a + front|);
      CollectNext(b, |front|);
      assert (a + b)[..|a + front|] == a + front && (a + b)[..|a + b|] == a + b && b[..|b|] == b;
    }
  }

  /** Whatever order the workers finish in, sorting by the parsed id restores the order of
      the subtasks, at any count. */
  lemma SortingRestoresSubtaskOrder(results: seq<Option<AgentOutcome>>, tasks: seq<Dispatched>)
    requires multiset(tasks) == multiset(Dispatch(results))
    ensures Sorted(tasks, ByIndex) == Dispatch(results)
  {
    var original := Dispatch(results);
    forall i | 0 <= i < |original| ensures WorkerIndex(original[i].id) == i { IndexOfId(i); }
    hide WorkerIndex, WorkerId;
    SortedRestores(original, tasks, ByIndex);
  }

  /** The reply of a run whose plan succeeded, in whatever order the workers finish: every
      phase that reported adds its cost and, in the order of the phases and of the subtasks, its
      artifacts; the synthesizer is given the outputs of the workers that reported, in subtask
      order, or the planner's own when there is no worker. */
  lemma ReplyMeans(query: string, plan: AgentOutcome, workers: nat, results: seq<Option<AgentOutcome>>,
                   tasks: seq<Dispatched>, synthesis: Option<AgentOutcome>)
    requires workers > 0 ==> multiset(tasks) == multiset(Dispatch(results))
    ensures var reply := ReplyOf(query, Some(plan), workers, tasks, synthesis);
            && reply.Reply?
            && reply.cost == (plan.cost + if workers > 0 then Costs(results) else 0.0)
                             + (if synthesis.Some? then synthesis.value.cost else 0.0)
            && reply.artifacts == (plan.artifacts + if workers > 0 then Artifacts(results) else [])
                                  + (if synthesis.Some? then synthesis.value.artifacts else [])
            && reply.inputs == (if workers > 0 then Outputs(results) else [plan.output])
    ensures ReplyOf(query, None, workers, tasks, synthesis) == PlanningFailed
  {
    hide WorkerId, Sorted, ByIndex, Subtasks, Outputs, Costs, Artifacts, Dispatch;
    if workers > 0 { SortingRestoresSubtaskOrder(results, tasks); }
    NothingCollected();
    ResultsOfDispatch(results);
  }

  lemma ResultsOfDispatch(results: seq<Option<AgentOutcome>>)
    ensures Results(Dispatch(results)) == results
  {
  }

  /** The slices of planner, workers and synthesizer sum to the budget; and agents that keep to
      them keep the cost that the run replies within it, in whatever order the workers finish,
      with or without workers, and whether or not the synthesizer fails. */
  lemma RunWithinBudget(budget: real, query: string, plan: AgentOutcome, workers: nat,
                        results: seq<Option<AgentOutcome>>,
                        tasks: seq<Dispatched>, synthesis: Option<AgentOutcome>)
    requires budget >= 0.0 && plan.cost <= budget * 0.1 && CostOf(synthesis) <= budget * 0.2
    requires |results| == |Subtasks(plan.output, query)| && multiset(tasks) == multiset(Dispatch(results))
    requires forall r <- results :: r.Some? ==> r.value.cost <= WorkerSlice(budget, |results|)
    ensures budget * 0.1 + |results| as real * WorkerSlice(budget, |results|) + budget * 0.2 == budget
    ensures var reply := ReplyOf(query, Some(plan), workers, tasks, synthesis);
            reply.Reply? && reply.cost <= budget
  {
    hide WorkerSlice, WorkerId, Costs, Dispatch, ReplyOf, Subtasks, Outputs, Artifacts;
    SlicesTotal(budget, |results|);
    ReplyMeans(query, plan, workers, results, tasks, synthesis);
    CostsWithin(results, WorkerSlice(budget, |results|));
    assert Costs(results) <= budget * 0.7;
  }

  lemma SlicesTotal(budget: real, n: nat)
    requires n > 0 && budget >= 0.0
    ensures n as real * WorkerSlice(budget, n) == budget * 0.7 && WorkerSlice(budget, n) >= 0.0
  {
  }

  lemma {:induction false} CostsWithin(results: seq<Option<AgentOutcome>>, slice: real)
    requires slice >= 0.0 && forall r <- results :: r.Some? ==> r.value.cost <= slice
    ensures Costs(results) <= |results| as real * slice
  {
    if results != [] {
      CostsWithin(results[..|results| - 1], slice);
      assert |results| as real * slice == (|results| - 1) as real * slice + slice;
    }
  }
}
