/** What every sequence of creations and transitions keeps: the admission caps, and
    eviction as a window on the history of terminal transitions
    (src/deepr/a2a/task_manager.py). */
module TaskHistory {
  import opened Options
  import opened TaskManagers

  datatype Op =
    | CreateOp(request: Request, budget: Option<real>, id: string, now: int)
    | TransitionOp(id: string, to: TaskState, update: Update, now: int)

  function Apply(tasks: seq<Task>, limits: Limits, op: Op): (seq<Task>, Result<Task, TaskError>) {
    match op
    case CreateOp(request, budget, id, now) => Create(tasks, limits, request, budget, id, now)
    case TransitionOp(id, to, u, now) => Transition(tasks, limits, id, to, u, now)
  }

  /** The ids of the successful terminal transitions so far, in order. */
  function LogAfter(log: seq<string>, tasks: seq<Task>, limits: Limits, op: Op): seq<string> {
    if op.TransitionOp? && Terminal(op.to) && Apply(tasks, limits, op).1.Ok? then log + [op.id] else log
  }

  function Run(tasks: seq<Task>, log: seq<string>, limits: Limits, ops: seq<Op>): (seq<Task>, seq<string>)
    decreases |ops|
  {
    if ops == [] then (tasks, log)
    else Run(Apply(tasks, limits, ops[0]).0, LogAfter(log, tasks, limits, ops[0]), limits, ops[1..])
  }

  // ----- The invariants -----

  ghost predicate WithinCaps(tasks: seq<Task>, limits: Limits) {
    && DistinctIds(tasks)
    && ActiveCount(tasks) <= limits.maxActive
    && ActiveBytes(tasks) <= limits.maxActiveBytes
    && (forall t <- tasks :: Utf8Length(t.input) <= limits.maxTaskBytes)
    && |TerminalIds(tasks)| <= limits.maxTerminal
  }

  function LastOf<T>(s: seq<T>, n: nat): seq<T> { if |s| <= n then s else s[|s| - n..] }

  /** The retained terminal tasks are the last `maxTerminal` entries of the log. */
  ghost predicate WindowOnLog(tasks: seq<Task>, log: seq<string>, limits: Limits) {
    TerminalIds(tasks) == LastOf(log, limits.maxTerminal)
  }

  // ----- Measures of the dictionary operations -----

  lemma {:induction false} Counts(tasks: seq<Task>)
    ensures |tasks| == ActiveCount(tasks) + |TerminalIds(tasks)|
    ensures ActiveCount(tasks) == |ActiveTasks(tasks)|
  {
    if tasks != [] { Counts(tasks[1..]); }
  }

  lemma {:induction false} TerminalIdsIn(tasks: seq<Task>, id: string)
    ensures id in TerminalIds(tasks) <==> exists t <- tasks :: t.id == id && Terminal(t.state)
  {
    if tasks != [] {
      TerminalIdsIn(tasks[1..], id);
      assert tasks == [tasks[0]] + tasks[1..];
    }
  }

  lemma Appending(tasks: seq<Task>, t: Task)
    ensures ActiveCount(tasks + [t]) == ActiveCount(tasks) + ActiveCount([t])
    ensures ActiveBytes(tasks + [t]) == ActiveBytes(tasks) + ActiveBytes([t])
    ensures TerminalIds(tasks + [t]) == TerminalIds(tasks) + TerminalIds([t])
    ensures ActiveTasks(tasks + [t]) == ActiveTasks(tasks) + ActiveTasks([t])
  {
    hide ActiveCount, ActiveBytes, TerminalIds, ActiveTasks;
    AppendingSums(tasks, t);
    AppendingTerminal(tasks, t);
    AppendingActive(tasks, t);
  }

  lemma {:induction false} AppendingSums(tasks: seq<Task>, t: Task)
    ensures ActiveCount(tasks + [t]) == ActiveCount(tasks) + ActiveCount([t])
    ensures ActiveBytes(tasks + [t]) == ActiveBytes(tasks) + ActiveBytes([t])
  {
    if tasks == [] {
      assert tasks + [t] == [t];
    } else {
      assert (tasks + [t])[0] == tasks[0] && (tasks + [t])[1..] == tasks[1..] + [t];
      AppendingSums(tasks[1..], t);
    }
  }

  lemma {:induction false} AppendingTerminal(tasks: seq<Task>, t: Task)
    ensures TerminalIds(tasks + [t]) == TerminalIds(tasks) + TerminalIds([t])
  {
    if tasks == [] {
      assert tasks + [t] == [t];
    } else {
      assert (tasks + [t])[0] == tasks[0] && (tasks + [t])[1..] == tasks[1..] + [t];
      AppendingTerminal(tasks[1..], t);
    }
  }

  lemma {:induction false} AppendingActive(tasks: seq<Task>, t: Task)
    ensures ActiveTasks(tasks + [t]) == ActiveTasks(tasks) + ActiveTasks([t])
  {
    if tasks == [] {
      assert tasks + [t] == [t];
    } else {
      assert (tasks + [t])[0] == tasks[0] && (tasks + [t])[1..] == tasks[1..] + [t];
      AppendingActive(tasks[1..], t);
    }
  }

  /** Writing an active task adds at most itself, and displaces nothing but an entry of
      the same id. */
  lemma {:induction false} Putting(tasks: seq<Task>, t: Task)
    requires !Terminal(t.state)
    ensures ActiveCount(Put(tasks, t)) <= ActiveCount(tasks) + 1
    ensures ActiveBytes(Put(tasks, t)) <= ActiveBytes(tasks) + Utf8Length(t.input)
    ensures |TerminalIds(Put(tasks, t))| <= |TerminalIds(tasks)|
    ensures t.id !in TerminalIds(tasks) ==> TerminalIds(Put(tasks, t)) == TerminalIds(tasks)
    ensures forall x <- Put(tasks, t) :: x == t || x in tasks
    ensures Find(tasks, t.id).None? ==> Put(tasks, t) == tasks + [t]
  {
    if tasks != [] && tasks[0].id != t.id {
      Putting(tasks[1..], t);
      assert (([tasks[0]] + Put(tasks[1..], t)))[1..] == Put(tasks[1..], t);
      assert tasks == [tasks[0]] + tasks[1..];
    } else if tasks != [] {
      assert ([t] + tasks[1..])[1..] == tasks[1..];
      assert tasks == [tasks[0]] + tasks[1..];
    }
  }

  /** Rewriting an active task by an active task of the same size keeps the measures. */
  lemma {:induction false} Rewriting(tasks: seq<Task>, old': Task, t: Task)
    requires Find(tasks, t.id) == Some(old') && !Terminal(old'.state) && !Terminal(t.state) && t.input == old'.input
    ensures ActiveCount(Put(tasks, t)) == ActiveCount(tasks)
    ensures ActiveBytes(Put(tasks, t)) == ActiveBytes(tasks)
    ensures TerminalIds(Put(tasks, t)) == TerminalIds(tasks)
    ensures forall x <- Put(tasks, t) :: x == t || x in tasks
  {
    if tasks[0].id != t.id {
      Rewriting(tasks[1..], old', t);
      assert ([tasks[0]] + Put(tasks[1..], t))[1..] == Put(tasks[1..], t);
    } else {
      assert ([t] + tasks[1..])[1..] == tasks[1..];
    }
  }

  lemma {:induction false} Removing(tasks: seq<Task>, t: Task)
    requires Find(tasks, t.id) == Some(t) && !Terminal(t.state)
    ensures ActiveCount(Without(tasks, t.id)) == ActiveCount(tasks) - 1
    ensures ActiveBytes(Without(tasks, t.id)) == ActiveBytes(tasks) - Utf8Length(t.input)
    ensures TerminalIds(Without(tasks, t.id)) == TerminalIds(tasks)
  {
    if tasks[0].id != t.id {
      Removing(tasks[1..], t);
      assert ([tasks[0]] + Without(tasks[1..], t.id))[1..] == Without(tasks[1..], t.id);
    }
  }

  /** Dropping removes exactly the oldest terminal tasks and no active one. */
  lemma Dropping(tasks: seq<Task>, excess: int)
    ensures ActiveTasks(DropTerminal(tasks, excess)) == ActiveTasks(tasks)
    ensures ActiveCount(DropTerminal(tasks, excess)) == ActiveCount(tasks)
    ensures ActiveBytes(DropTerminal(tasks, excess)) == ActiveBytes(tasks)
    ensures TerminalIds(DropTerminal(tasks, excess)) == DropFirst(TerminalIds(tasks), excess)
  {
    hide ActiveTasks, ActiveCount, ActiveBytes, TerminalIds, DropTerminal;
    DroppingActive(tasks, excess);
    DroppingSums(tasks, excess);
    DroppingTerminal(tasks, excess);
  }

  function DropFirst<T>(s: seq<T>, n: int): seq<T> { if n <= 0 then s else if n >= |s| then [] else s[n..] }

  lemma {:induction false} DroppingActive(tasks: seq<Task>, excess: int)
    ensures ActiveTasks(DropTerminal(tasks, excess)) == ActiveTasks(tasks)
  {
    if tasks != [] && excess > 0 {
      if Terminal(tasks[0].state) {
        DroppingActive(tasks[1..], excess - 1);
        assert [] + ActiveTasks(tasks[1..]) == ActiveTasks(tasks[1..]);
      } else {
        DroppingActive(tasks[1..], excess);
        assert ([tasks[0]] + DropTerminal(tasks[1..], excess))[1..] == DropTerminal(tasks[1..], excess);
      }
    }
  }

  lemma {:induction false} DroppingSums(tasks: seq<Task>, excess: int)
    ensures ActiveCount(DropTerminal(tasks, excess)) == ActiveCount(tasks)
    ensures ActiveBytes(DropTerminal(tasks, excess)) == ActiveBytes(tasks)
  {
    if tasks != [] && excess > 0 {
      if Terminal(tasks[0].state) {
        DroppingSums(tasks[1..], excess - 1);
      } else {
        DroppingSums(tasks[1..], excess);
        assert ([tasks[0]] + DropTerminal(tasks[1..], excess))[1..] == DropTerminal(tasks[1..], excess);
      }
    }
  }

  lemma {:induction false} DroppingTerminal(tasks: seq<Task>, excess: int)
    ensures TerminalIds(DropTerminal(tasks, excess)) == DropFirst(TerminalIds(tasks), excess)
  {
    if tasks != [] && excess > 0 {
      if Terminal(tasks[0].state) {
        DroppingTerminal(tasks[1..], excess - 1);
        DropFirstCons(tasks[0].id, TerminalIds(tasks[1..]), excess);
      } else {
        DroppingTerminal(tasks[1..], excess);
        assert ([tasks[0]] + DropTerminal(tasks[1..], excess))[1..] == DropTerminal(tasks[1..], excess);
        assert [] + TerminalIds(tasks[1..]) == TerminalIds(tasks[1..]);
      }
    }
  }

  lemma DropFirstCons<T>(x: T, s: seq<T>, n: int)
    requires n > 0
    ensures DropFirst([x] + s, n) == DropFirst(s, n - 1)
  {
    if n < |s| + 1 { assert ([x] + s)[n..] == s[n - 1..]; }
  }

  // ----- Distinct ids -----

  lemma {:induction false} PutDistinct(tasks: seq<Task>, t: Task)
    requires DistinctIds(tasks)
    ensures DistinctIds(Put(tasks, t))
    ensures forall x <- Put(tasks, t) :: x == t || x in tasks
  {
    if tasks != [] && tasks[0].id != t.id {
      PutDistinct(tasks[1..], t);
      ConsDistinct(tasks[0], Put(tasks[1..], t), tasks[1..] + [t]);
    }
  }

  lemma ConsDistinct(head: Task, tail: seq<Task>, others: seq<Task>)
    requires DistinctIds(tail) && (forall x <- tail :: x in others) && forall x <- others :: x.id != head.id
    ensures DistinctIds([head] + tail)
  {
  }

  lemma {:induction false} WithoutDistinct(tasks: seq<Task>, id: string)
    requires DistinctIds(tasks)
    ensures DistinctIds(Without(tasks, id)) && forall t <- Without(tasks, id) :: t.id != id
  {
    if tasks != [] && tasks[0].id != id {
      WithoutDistinct(tasks[1..], id);
      ConsDistinct(tasks[0], Without(tasks[1..], id), tasks[1..]);
    }
  }

  lemma {:induction false} DropDistinct(tasks: seq<Task>, excess: int)
    requires DistinctIds(tasks)
    ensures DistinctIds(DropTerminal(tasks, excess))
  {
    if tasks != [] && excess > 0 {
      if Terminal(tasks[0].state) {
        DropDistinct(tasks[1..], excess - 1);
      } else {
        DropDistinct(tasks[1..], excess);
        ConsDistinct(tasks[0], DropTerminal(tasks[1..], excess), tasks[1..]);
      }
    }
  }

  // ----- One operation -----

  lemma CreateKeepsCaps(tasks: seq<Task>, limits: Limits, request: Request, budget: Option<real>, id: string, now: int)
    requires WithinCaps(tasks, limits)
    ensures WithinCaps(Create(tasks, limits, request, budget, id, now).0, limits)
  {
    var t := NewTask(id, request, budget, now);
    Putting(tasks, t);
    PutDistinct(tasks, t);
  }

  /** A terminal transition moves the task to the end and evicts at most the oldest
      terminal task. */
  lemma FinishMeasures(tasks: seq<Task>, limits: Limits, t: Task, t': Task)
    requires DistinctIds(tasks) && Find(tasks, t.id) == Some(t) && !Terminal(t.state)
    requires Terminal(t'.state) && t'.id == t.id && t'.input == t.input
    ensures var moved := Without(tasks, t.id) + [t'];
            && DistinctIds(Evict(moved, limits))
            && ActiveCount(Evict(moved, limits)) == ActiveCount(tasks) - 1
            && ActiveBytes(Evict(moved, limits)) == ActiveBytes(tasks) - Utf8Length(t.input)
            && TerminalIds(Evict(moved, limits)) == LastOf(TerminalIds(tasks) + [t.id], limits.maxTerminal)
            && ActiveTasks(Evict(moved, limits)) == ActiveTasks(Without(tasks, t.id))
  {
    hide ActiveCount, ActiveBytes, TerminalIds, ActiveTasks, DropTerminal, Without, DistinctIds, Find;
    var rest := Without(tasks, t.id);
    Removing(tasks, t);
    Appending(rest, t');
    var moved := rest + [t'];
    TerminalAlone(t');
    Dropping(moved, |TerminalIds(moved)| - limits.maxTerminal);
    FinishDistinct(tasks, t, t', |TerminalIds(moved)| - limits.maxTerminal);
    assert ActiveTasks(rest) + [] == ActiveTasks(rest);
  }

  lemma TerminalAlone(t: Task)
    requires Terminal(t.state)
    ensures TerminalIds([t]) == [t.id] && ActiveTasks([t]) == [] && ActiveCount([t]) == 0 && ActiveBytes([t]) == 0
  {
  }

  lemma FinishDistinct(tasks: seq<Task>, t: Task, t': Task, excess: int)
    requires DistinctIds(tasks) && t'.id == t.id
    ensures DistinctIds(DropTerminal(Without(tasks, t.id) + [t'], excess))
  {
    WithoutDistinct(tasks, t.id);
    assert DistinctIds(Without(tasks, t.id) + [t']);
    DropDistinct(Without(tasks, t.id) + [t'], excess);
  }

  lemma TransitionKeepsCaps(tasks: seq<Task>, limits: Limits, id: string, to: TaskState, u: Update, now: int)
    requires WithinCaps(tasks, limits)
    ensures WithinCaps(Transition(tasks, limits, id, to, u, now).0, limits)
  {
    var found := Find(tasks, id);
    if found.Some? && Allowed(found.value.state, to) {
      var t' := Updated(found.value, to, u, now);
      if Terminal(to) {
        FinishMeasures(tasks, limits, found.value, t');
        var moved := Without(tasks, id) + [t'];
        forall x | x in Evict(moved, limits) ensures Utf8Length(x.input) <= limits.maxTaskBytes {
          assert x in moved;
        }
      } else {
        Rewriting(tasks, found.value, t');
        PutDistinct(tasks, t');
      }
    }
  }

  /** A rejected call leaves the table unchanged; an accepted one reports what the table
      then holds under the id. */
  lemma RejectionChangesNothing(tasks: seq<Task>, limits: Limits, op: Op)
    requires limits.maxTerminal > 0 && DistinctIds(tasks)
    ensures var (tasks', r) := Apply(tasks, limits, op);
            && (r.Err? ==> tasks' == tasks)
            && (r.Ok? ==> r.value.id == op.id && Find(tasks', op.id) == Some(r.value))
  {
    hide Find, Without, DropTerminal, TerminalIds, DistinctIds, Put, ActiveCount, ActiveBytes, ActiveTasks;
    var (tasks', r) := Apply(tasks, limits, op);
    if r.Ok? {
      if op.TransitionOp? && Terminal(op.to) {
        var t := Find(tasks, op.id).value;
        FinishMeasures(tasks, limits, t, r.value);
        var moved := Without(tasks, op.id) + [r.value];
        assert moved[|moved| - 1] == r.value;
        KeepsLast(moved, |TerminalIds(moved)| - limits.maxTerminal, limits.maxTerminal);
        FindMember(tasks', r.value);
      } else {
        FindPut(tasks, r.value);
      }
    }
  }

  lemma {:induction false} FindPut(tasks: seq<Task>, t: Task)
    ensures Find(Put(tasks, t), t.id) == Some(t)
    ensures forall id :: id != t.id ==> Find(Put(tasks, t), id) == Find(tasks, id)
  {
    if tasks != [] && tasks[0].id != t.id {
      FindPut(tasks[1..], t);
      assert ([tasks[0]] + Put(tasks[1..], t))[1..] == Put(tasks[1..], t);
    } else if tasks != [] {
      assert ([t] + tasks[1..])[1..] == tasks[1..];
    }
  }

  lemma {:induction false} FindMember(tasks: seq<Task>, t: Task)
    requires DistinctIds(tasks) && t in tasks
    ensures Find(tasks, t.id) == Some(t)
  {
    if tasks[0] != t {
      assert t in tasks[1..];
      var i :| 0 <= i < |tasks| && tasks[i] == t;
      FindMember(tasks[1..], t);
    }
  }

  /** Evicting down to at least one terminal task keeps the newest one. */
  lemma {:induction false} KeepsLast(tasks: seq<Task>, excess: int, cap: nat)
    requires tasks != [] && Terminal(tasks[|tasks| - 1].state)
    requires cap > 0 && excess == |TerminalIds(tasks)| - cap
    ensures tasks[|tasks| - 1] in DropTerminal(tasks, excess)
  {
    if excess > 0 && |tasks| > 1 {
      KeepsLast(tasks[1..], if Terminal(tasks[0].state) then excess - 1 else excess, cap);
      assert tasks[1..][|tasks| - 2] == tasks[|tasks| - 1];
    }
  }

  lemma OpKeepsCaps(tasks: seq<Task>, limits: Limits, op: Op)
    requires WithinCaps(tasks, limits)
    ensures WithinCaps(Apply(tasks, limits, op).0, limits)
  {
    match op
    case CreateOp(request, budget, id, now) => CreateKeepsCaps(tasks, limits, request, budget, id, now);
    case TransitionOp(id, to, u, now) => TransitionKeepsCaps(tasks, limits, id, to, u, now);
  }

  /** The id is not that of a terminal task still retained. */
  ghost predicate FreshEnough(tasks: seq<Task>, op: Op) { op.CreateOp? ==> op.id !in TerminalIds(tasks) }

  lemma OpKeepsWindow(tasks: seq<Task>, log: seq<string>, limits: Limits, op: Op)
    requires DistinctIds(tasks) && WindowOnLog(tasks, log, limits) && FreshEnough(tasks, op)
    ensures WindowOnLog(Apply(tasks, limits, op).0, LogAfter(log, tasks, limits, op), limits)
  {
    if op.CreateOp? {
      Putting(tasks, NewTask(op.id, op.request, op.budget, op.now));
    } else {
      var found := Find(tasks, op.id);
      if found.Some? && Allowed(found.value.state, op.to) {
        var t' := Updated(found.value, op.to, op.update, op.now);
        if Terminal(op.to) {
          FinishMeasures(tasks, limits, found.value, t');
          LastOfSnoc(log, op.id, limits.maxTerminal);
        } else {
          Rewriting(tasks, found.value, t');
        }
      }
    }
  }

  lemma LastOfSnoc<T>(s: seq<T>, x: T, n: nat)
    ensures LastOf(LastOf(s, n) + [x], n) == LastOf(s + [x], n)
  {
  }

  // ----- Every run -----

  /** Admission caps hold after any run, so the table never outgrows their sum. */
  lemma {:induction false} CapsHold(tasks: seq<Task>, log: seq<string>, limits: Limits, ops: seq<Op>)
    requires WithinCaps(tasks, limits)
    ensures var last := Run(tasks, log, limits, ops).0;
            WithinCaps(last, limits) && |last| <= limits.maxActive + limits.maxTerminal
    decreases |ops|
  {
    if ops == [] {
      Counts(tasks);
    } else {
      hide WithinCaps, Apply, LogAfter;
      OpKeepsCaps(tasks, limits, ops[0]);
      CapsHold(Apply(tasks, limits, ops[0]).0, LogAfter(log, tasks, limits, ops[0]), limits, ops[1..]);
    }
  }

  /** No creation of the run reuses the id of a terminal task retained at that moment. */
  ghost predicate AllFresh(tasks: seq<Task>, limits: Limits, ops: seq<Op>)
    decreases |ops|
  {
    ops == [] || (FreshEnough(tasks, ops[0]) && AllFresh(Apply(tasks, limits, ops[0]).0, limits, ops[1..]))
  }

  /** Eviction refines the termination log: after any run from an empty table the retained
      terminal tasks are exactly the last `maxTerminal` terminal transitions, in order. */
  lemma {:induction false} RetainsLastTerminations(tasks: seq<Task>, log: seq<string>, limits: Limits, ops: seq<Op>)
    requires WithinCaps(tasks, limits) && WindowOnLog(tasks, log, limits) && AllFresh(tasks, limits, ops)
    ensures var (tasks', log') := Run(tasks, log, limits, ops); WindowOnLog(tasks', log', limits)
    decreases |ops|
  {
    if ops != [] {
      OpKeepsCaps(tasks, limits, ops[0]);
      OpKeepsWindow(tasks, log, limits, ops[0]);
      hide WindowOnLog, Apply, LogAfter, FreshEnough;
      RetainsLastTerminations(Apply(tasks, limits, ops[0]).0, LogAfter(log, tasks, limits, ops[0]), limits, ops[1..]);
    }
  }

  /** Active tasks are never evicted: an operation on another id leaves them as they are. */
  lemma ActiveSurvives(tasks: seq<Task>, limits: Limits, op: Op, id: string)
    requires DistinctIds(tasks) && op.id != id
    requires Find(tasks, id).Some? && !Terminal(Find(tasks, id).value.state)
    ensures Find(Apply(tasks, limits, op).0, id) == Find(tasks, id)
  {
    OtherTask(tasks, limits, op, id);
  }

  /** Terminal tasks are final: an operation on another id leaves them as they are or
      evicts them, and a transition of their own id is refused. */
  lemma TerminalIsFinal(tasks: seq<Task>, limits: Limits, op: Op, id: string)
    requires DistinctIds(tasks) && (op.CreateOp? ==> op.id != id)
    requires Find(tasks, id).Some? && Terminal(Find(tasks, id).value.state)
    ensures Find(Apply(tasks, limits, op).0, id) == Find(tasks, id) || Find(Apply(tasks, limits, op).0, id).None?
    ensures op.id == id ==> Apply(tasks, limits, op) == (tasks, Err(InvalidTransition))
  {
    if op.id != id { OtherTask(tasks, limits, op, id); }
  }

  /** What an operation does to a task it does not name. */
  lemma OtherTask(tasks: seq<Task>, limits: Limits, op: Op, id: string)
    requires DistinctIds(tasks) && op.id != id && Find(tasks, id).Some?
    ensures var t := Find(tasks, id).value;
            var after := Find(Apply(tasks, limits, op).0, id);
            after == Some(t) || (after.None? && Terminal(t.state))
  {
    var t := Find(tasks, id).value;
    if op.CreateOp? {
      FindPut(tasks, NewTask(op.id, op.request, op.budget, op.now));
    } else if Find(tasks, op.id).Some? && Allowed(Find(tasks, op.id).value.state, op.to) {
      var t' := Updated(Find(tasks, op.id).value, op.to, op.update, op.now);
      if Terminal(op.to) {
        FinishOther(tasks, limits, Find(tasks, op.id).value, t', t);
      } else {
        FindPut(tasks, t');
      }
    }
  }

  lemma FinishOther(tasks: seq<Task>, limits: Limits, own: Task, own': Task, t: Task)
    requires DistinctIds(tasks) && Find(tasks, own.id) == Some(own) && own'.id == own.id && t in tasks && t.id != own.id
    ensures var after := Find(Evict(Without(tasks, own.id) + [own'], limits), t.id);
            after == Some(t) || (after.None? && Terminal(t.state))
  {
    hide Find, DropTerminal, Without, DistinctIds, TerminalIds;
    var moved := Without(tasks, own.id) + [own'];
    var excess := |TerminalIds(moved)| - limits.maxTerminal;
    FinishDistinct(tasks, own, own', excess);
    WithoutKeeps(tasks, own.id, t);
    if !Terminal(t.state) { DropKeeps(moved, excess, t); }
    var after := Evict(moved, limits);
    if t in after {
      FindMember(after, t);
    } else {
      forall x | x in after ensures x.id != t.id {
        assert x in moved;
        if x.id == t.id { SameId(tasks, x, t); }
      }
    }
  }

  lemma SameId(tasks: seq<Task>, a: Task, b: Task)
    requires DistinctIds(tasks) && a in tasks && b in tasks && a.id == b.id
    ensures a == b
  {
  }

  lemma {:induction false} WithoutKeeps(tasks: seq<Task>, id: string, t: Task)
    requires t in tasks && t.id != id
    ensures t in Without(tasks, id)
  {
    if tasks[0].id != id && tasks[0] != t { WithoutKeeps(tasks[1..], id, t); }
  }

  lemma {:induction false} DropKeeps(tasks: seq<Task>, excess: int, t: Task)
    requires t in tasks && !Terminal(t.state)
    ensures t in DropTerminal(tasks, excess)
  {
    if excess > 0 && tasks[0] != t {
      DropKeeps(tasks[1..], if Terminal(tasks[0].state) then excess - 1 else excess, t);
    }
  }

  // ----- What each call answers and stores -----

  /** The measures count what they say: a task is active when submitted or working, a character
      weighs what UTF-8 gives it, and both add up. */
  lemma MeasuresMean(t: Task, tasks: seq<Task>)
    ensures ActiveCount([t]) == if t.state == Submitted || t.state == Working then 1 else 0
    ensures ActiveBytes([t]) == if t.state == Submitted || t.state == Working then Utf8Length(t.input) else 0
    ensures TerminalIds([t]) == if t.state == Submitted || t.state == Working then [] else [t.id]
    ensures ActiveCount([]) == 0 && ActiveBytes([]) == 0 && TerminalIds([]) == []
    ensures ActiveCount(tasks + [t]) == ActiveCount(tasks) + ActiveCount([t])
    ensures ActiveBytes(tasks + [t]) == ActiveBytes(tasks) + ActiveBytes([t])
    ensures TerminalIds(tasks + [t]) == TerminalIds(tasks) + TerminalIds([t])
  {
    Appending(tasks, t);
  }

  lemma {:induction false} Utf8Adds(a: string, b: string)
    ensures Utf8Length(a + b) == Utf8Length(a) + Utf8Length(b)
    ensures Utf8Length([]) == 0
    ensures forall c: char :: Utf8Length([c]) ==
              if c as int <= 0x7f then 1 else if c as int <= 0x7ff then 2 else if c as int <= 0xffff then 3 else 4
  {
    if a == [] {
      assert a + b == b;
    } else {
      assert (a + b)[0] == a[0] && (a + b)[1..] == a[1..] + b;
      Utf8Adds(a[1..], b);
    }
  }

  /** A creation is refused for its own size, for the number of active tasks, or for their bytes,
      in this order, and otherwise stores a SUBMITTED task that holds the request. */
  lemma CreateStores(tasks: seq<Task>, limits: Limits, request: Request, budget: Option<real>, id: string, now: int)
    ensures var (tasks', r) := Create(tasks, limits, request, budget, id, now);
            var large := Utf8Length(request.input) > limits.maxTaskBytes;
            var many := ActiveCount(tasks) >= limits.maxActive;
            var heavy := ActiveBytes(tasks) + Utf8Length(request.input) > limits.maxActiveBytes;
            && (r == Err(TooLarge) <==> large)
            && (r == Err(ActiveLimit) <==> !large && many)
            && (r == Err(ActiveBytesLimit) <==> !large && !many && heavy)
            && (r.Ok? <==> !large && !many && !heavy)
            && (r.Err? ==> tasks' == tasks)
            && (r.Ok? ==> Find(tasks', id) == Some(r.value))
            && (r.Ok? ==>
                  && r.value.id == id && r.value.state == Submitted
                  && r.value.skill == request.skill && r.value.input == request.input
                  && r.value.createdAt == now && r.value.updatedAt == now
                  && r.value.result == None && r.value.error == None && r.value.cost == 0.0 && r.value.traceId == ""
                  && r.value.artifacts == []
                  && r.value.budgetCap == if budget.Some? then budget else request.budget)
            && (r.Ok? ==> forall other :: other != id ==> Find(tasks', other) == Find(tasks, other))
  {
    hide ActiveCount, ActiveBytes, Utf8Length, Find, Put;
    FindPut(tasks, NewTask(id, request, budget, now));
  }

  /** A transition of an unknown id is not found; one that is none of SUBMITTED to WORKING or
      CANCELLED, WORKING to COMPLETED, FAILED or CANCELLED is invalid; and any other stores the
      state, the time and what the caller gives, keeping the rest. */
  lemma TransitionStores(tasks: seq<Task>, limits: Limits, id: string, to: TaskState, u: Update, now: int)
    requires limits.maxTerminal > 0 && DistinctIds(tasks)
    ensures var (tasks', r) := Transition(tasks, limits, id, to, u, now);
            var found := Find(tasks, id);
            && (r == Err(NotFound) <==> found.None?)
            && (r.Ok? <==>
                  && found.Some?
                  && (|| (found.value.state == Submitted && (to == Working || to == Cancelled))
                      || (found.value.state == Working && (to == Completed || to == Failed || to == Cancelled))))
            && (r.Err? && found.Some? ==> r == Err(InvalidTransition))
            && (r.Err? ==> tasks' == tasks)
            && (r.Ok? ==> Find(tasks', id) == Some(r.value) && Stores(found.value, r.value, to, u, now))
  {
    hide Find, Without, Put, DropTerminal, TerminalIds, DistinctIds, ActiveCount, ActiveBytes;
    RejectionChangesNothing(tasks, limits, TransitionOp(id, to, u, now));
  }

  /** `t'` is `t` in its new state, with what the caller of the transition gives. */
  ghost predicate Stores(t: Task, t': Task, to: TaskState, u: Update, now: int) {
    && t'.id == t.id && t'.skill == t.skill && t'.input == t.input && t'.createdAt == t.createdAt
    && t'.budgetCap == t.budgetCap && t'.state == to && t'.updatedAt == now
    && (u.result.Some? ==> t'.result == u.result) && (u.result.None? ==> t'.result == t.result)
    && (u.error.Some? ==> t'.error == u.error) && (u.error.None? ==> t'.error == t.error)
    && (u.cost > 0.0 ==> t'.cost == u.cost) && (u.cost <= 0.0 ==> t'.cost == t.cost)
    && (u.traceId != "" ==> t'.traceId == u.traceId) && (u.traceId == "" ==> t'.traceId == t.traceId)
    && (u.artifacts.Some? ==> t'.artifacts == u.artifacts.value) && (u.artifacts.None? ==> t'.artifacts == t.artifacts)
  }
}
