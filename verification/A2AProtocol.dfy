/** What holds in every interleaving of the A2A server's segments
    (src/deepr/a2a/server.py, src/deepr/a2a/task_manager.py). */
module A2AProtocol {
  import opened Counting
  import opened Options
  import opened TaskManagers
  import H = TaskHistory
  import opened A2AServers

  // ----- The table and its history -----

  /** A task is retired once a terminal transition of it is in the log: it is then terminal
      or evicted, and no other issued id is either. */
  ghost predicate TableOk(tasks: seq<Task>, log: seq<string>, used: set<string>) {
    && DistinctIds(tasks)
    && NoRepeats(log)
    && (forall id :: Find(tasks, id).Some? ==> id in used)
    && (forall id <- log :: id in used)
    && (forall id <- used :: id in log <==> (Find(tasks, id).None? || Terminal(Find(tasks, id).value.state)))
  }

  /** The effect of one table operation on every id. */
  lemma OpView(tasks: seq<Task>, limits: Limits, op: H.Op)
    requires limits.maxTerminal > 0 && DistinctIds(tasks)
    ensures var (tasks', r) := H.Apply(tasks, limits, op);
            && DistinctIds(tasks')
            && (r.Err? ==> tasks' == tasks)
            && (r.Ok? ==> Find(tasks', op.id) == Some(r.value))
            && (r.Ok? && op.TransitionOp? ==>
                  && r.value.state == op.to && Find(tasks, op.id).Some?
                  && Allowed(Find(tasks, op.id).value.state, op.to))
            && (r.Ok? && op.CreateOp? ==> r.value.state == Submitted)
            && (op.TransitionOp? && Find(tasks, op.id).Some? && Allowed(Find(tasks, op.id).value.state, op.to) ==>
                  r.Ok?)
            && (op.TransitionOp? && Find(tasks, op.id).None? ==> r == Err(NotFound))
  {
    hide Find, Without, Put, DropTerminal, DistinctIds, TerminalIds, ActiveCount, ActiveBytes;
    H.RejectionChangesNothing(tasks, limits, op);
    OpDistinct(tasks, limits, op);
  }

  lemma OpDistinct(tasks: seq<Task>, limits: Limits, op: H.Op)
    requires DistinctIds(tasks)
    ensures DistinctIds(H.Apply(tasks, limits, op).0)
  {
    hide Without, Put, DropTerminal, DistinctIds, TerminalIds, ActiveCount, ActiveBytes;
    if op.CreateOp? {
      H.PutDistinct(tasks, NewTask(op.id, op.request, op.budget, op.now));
    } else if Find(tasks, op.id).Some? && Allowed(Find(tasks, op.id).value.state, op.to) {
      var t := Find(tasks, op.id).value;
      var t' := Updated(t, op.to, op.update, op.now);
      H.PutDistinct(tasks, t');
      var moved := Without(tasks, op.id) + [t'];
      H.FinishDistinct(tasks, t, t', |TerminalIds(moved)| - limits.maxTerminal);
    }
  }

  /** The effect on an id the operation does not name. */
  lemma OtherView(tasks: seq<Task>, limits: Limits, op: H.Op, id: string)
    requires DistinctIds(tasks) && op.id != id
    ensures var before, after := Find(tasks, id), Find(H.Apply(tasks, limits, op).0, id);
            after == before || (after.None? && before.Some? && Terminal(before.value.state))
  {
    if Find(tasks, id).Some? {
      H.OtherTask(tasks, limits, op, id);
    } else {
      OtherAbsent(tasks, limits, op, id);
    }
  }

  lemma OtherAbsent(tasks: seq<Task>, limits: Limits, op: H.Op, id: string)
    requires op.id != id && Find(tasks, id).None?
    ensures Find(H.Apply(tasks, limits, op).0, id).None?
  {
    hide DropTerminal, Without, Put, TerminalIds, ActiveCount, ActiveBytes;
    var tasks' := H.Apply(tasks, limits, op).0;
    forall x | x in tasks' ensures x.id != id {
      if op.CreateOp? {
        PutMembers(tasks, NewTask(op.id, op.request, op.budget, op.now));
      } else if Find(tasks, op.id).Some? && Allowed(Find(tasks, op.id).value.state, op.to) {
        var t' := Updated(Find(tasks, op.id).value, op.to, op.update, op.now);
        PutMembers(tasks, t');
        if Terminal(op.to) { assert x in Without(tasks, op.id) + [t']; }
      }
    }
  }

  lemma {:induction false} PutMembers(tasks: seq<Task>, t: Task)
    ensures forall x <- Put(tasks, t) :: x == t || x in tasks
  {
    if tasks != [] && tasks[0].id != t.id { PutMembers(tasks[1..], t); }
  }

  /** The history after an operation: a create adds its id to the issued ones. */
  function UsedAfter(used: set<string>, tasks: seq<Task>, limits: Limits, op: H.Op): set<string> {
    if op.CreateOp? && H.Apply(tasks, limits, op).1.Ok? then used + {op.id} else used
  }

  lemma TableStep(tasks: seq<Task>, log: seq<string>, used: set<string>, limits: Limits, op: H.Op)
    requires limits.maxTerminal > 0 && TableOk(tasks, log, used) && (op.CreateOp? ==> op.id !in used)
    ensures TableOk(H.Apply(tasks, limits, op).0, H.LogAfter(log, tasks, limits, op),
                    UsedAfter(used, tasks, limits, op))
  {
    hide Find, DistinctIds, H.Apply;
    OpView(tasks, limits, op);
    forall id | id != op.id
      ensures var before, after := Find(tasks, id), Find(H.Apply(tasks, limits, op).0, id);
              after == before || (after.None? && before.Some? && Terminal(before.value.state))
    {
      OtherView(tasks, limits, op, id);
    }
    if op.TransitionOp? && H.Apply(tasks, limits, op).1.Ok? { assert op.id !in log; }
  }

  // ----- The runs -----

  /** A suspended handler's task is WORKING or was cancelled; an exited handler's task is
      retired unless its run raised and nobody has cancelled the task since. */
  ghost predicate RunOk(r: ConsultRun, tasks: seq<Task>, log: seq<string>, used: set<string>) {
    var found := Find(tasks, r.task);
    && r.task in used
    && (Waiting(r) && r.task in log && found.Some? ==> found.value.state == Cancelled)
    && (r.task !in log ==> found.Some? && found.value.state == Working)
    && (!Waiting(r) && r.task !in log ==> r.progress == Ended(Raised) && !r.interrupted && r.reply == Threw)
  }

  ghost predicate RunsOk(s: Server) {
    && (forall r <- s.runs :: RunOk(r, s.tasks, s.log, s.used))
    && (forall i, j :: 0 <= i < j < |s.runs| ==> s.runs[i].task != s.runs[j].task)
    && (forall r <- s.runs :: !Waiting(r) ==> r.progress.Ended?)
  }

  /** Only suspended handlers are registered, each under its own task's id. */
  ghost predicate ActiveOk(s: Server) {
    forall id <- s.active :: s.active[id] < |s.runs| && s.runs[s.active[id]].task == id && Waiting(s.runs[s.active[id]])
  }

  ghost predicate Inv(s: Server) {
    TableOk(s.tasks, s.log, s.used) && RunsOk(s) && ActiveOk(s)
  }

  /** An operation on another task, or a cancellation, keeps a run's promise. */
  lemma RunAfterOp(r: ConsultRun, tasks: seq<Task>, log: seq<string>, used: set<string>, limits: Limits, op: H.Op)
    requires limits.maxTerminal > 0 && TableOk(tasks, log, used) && RunOk(r, tasks, log, used)
    requires r.task == op.id ==> op.TransitionOp? && (op.to == Cancelled || (Terminal(op.to) && !Waiting(r)))
    ensures RunOk(r, H.Apply(tasks, limits, op).0, H.LogAfter(log, tasks, limits, op),
                  UsedAfter(used, tasks, limits, op))
  {
    hide Find, DistinctIds, H.Apply, NoRepeats;
    OpView(tasks, limits, op);
    if r.task != op.id { OtherView(tasks, limits, op, r.task); }
  }

  lemma SubmitKeeps(s: Server, limits: Limits, request: Request, consult: bool, id: string, now: int)
    requires limits.maxTerminal > 0 && Inv(s) && id !in s.used
    ensures Inv(Submit(s, limits, request, consult, id, now).0)
    ensures Submit(s, limits, request, consult, id, now).1 != Threw
  {
    hide TableOk, RunOk, H.Apply, H.LogAfter, Find;
    var create := H.CreateOp(request, request.budget, id, now);
    TableStep(s.tasks, s.log, s.used, limits, create);
    var (s1, created) := Perform(s, limits, create);
    SubmitFacts(s, limits, create);
    forall r | r in s.runs ensures RunOk(r, s1.tasks, s1.log, UsedAfter(s.used, s.tasks, limits, create)) {
      NotItsTask(r, s, id);
      RunAfterOp(r, s.tasks, s.log, s.used, limits, create);
    }
    if created.Ok? && consult {
      var s2 := s1.(used := s1.used + {id});
      var work := H.TransitionOp(id, Working, NO_UPDATE, now);
      WorkingFacts(s2, limits, id, now);
      TableStep(s2.tasks, s2.log, s2.used, limits, work);
      var s3 := Perform(s2, limits, work).0;
      forall r | r in s.runs ensures RunOk(r, s3.tasks, s3.log, s2.used) {
        NotItsTask(r, s, id);
        RunAfterOp(r, s2.tasks, s2.log, s2.used, limits, work);
      }
      forall r | r in s.runs ensures r.task != id { NotItsTask(r, s, id); }
    }
  }

  lemma NotItsTask(r: ConsultRun, s: Server, id: string)
    requires RunOk(r, s.tasks, s.log, s.used) && id !in s.used
    ensures r.task != id
  {
  }

  lemma SubmitFacts(s: Server, limits: Limits, create: H.Op)
    requires limits.maxTerminal > 0 && Inv(s) && create.CreateOp? && create.id !in s.used
    ensures var (s1, created) := Perform(s, limits, create);
            && s1.log == s.log && create.id !in s.log
            && (created.Err? ==> s1 == s && UsedAfter(s.used, s.tasks, limits, create) == s.used)
            && (created.Ok? ==>
                  && UsedAfter(s.used, s.tasks, limits, create) == s.used + {create.id}
                  && Find(s1.tasks, create.id).Some? && Find(s1.tasks, create.id).value.state == Submitted)
  {
    hide Find, DistinctIds, RunsOk, ActiveOk;
    OpView(s.tasks, limits, create);
  }

  lemma WorkingFacts(s: Server, limits: Limits, id: string, now: int)
    requires limits.maxTerminal > 0 && TableOk(s.tasks, s.log, s.used)
    requires id in s.used && Find(s.tasks, id).Some? && Find(s.tasks, id).value.state == Submitted
    ensures var op := H.TransitionOp(id, Working, NO_UPDATE, now);
            var (s1, r) := Perform(s, limits, op);
            && r.Ok? && UsedAfter(s.used, s.tasks, limits, op) == s.used && s1.log == s.log
            && RunOk(ConsultRun(id, Pending(false), false, Suspended), s1.tasks, s1.log, s.used)
  {
    hide Find, DistinctIds;
    OpView(s.tasks, limits, H.TransitionOp(id, Working, NO_UPDATE, now));
  }

  /** The table part of a segment that performs one transition. */
  lemma TransitionKeeps(s: Server, limits: Limits, op: H.Op)
    requires limits.maxTerminal > 0 && Inv(s) && op.TransitionOp?
    ensures var s1 := Perform(s, limits, op).0;
            && TableOk(s1.tasks, s1.log, s1.used)
            && forall r <- s.runs ::
                 (r.task == op.id ==> op.to == Cancelled || (Terminal(op.to) && !Waiting(r))) ==>
                   RunOk(r, s1.tasks, s1.log, s1.used)
  {
    hide TableOk, RunOk, H.Apply, H.LogAfter, Find;
    TableStep(s.tasks, s.log, s.used, limits, op);
    forall r | r in s.runs && (r.task == op.id ==> op.to == Cancelled || (Terminal(op.to) && !Waiting(r)))
      ensures RunOk(r, Perform(s, limits, op).0.tasks, Perform(s, limits, op).0.log, s.used)
    {
      RunAfterOp(r, s.tasks, s.log, s.used, limits, op);
    }
  }

  /** How a handler ends: on the cancel path its task is retired and nothing is raised; with
      an outcome it commits exactly when the task is not yet retired; a run that raised
      leaves the table as it was. */
  lemma ResumeOutcome(s: Server, limits: Limits, k: nat, now: int)
    requires limits.maxTerminal > 0 && Inv(s) && Enabled(s, ResumeEvent(k, now))
    ensures var (s1, reply) := Resume(s, limits, k, now);
            var r := s.runs[k];
            && reply != Suspended
            && (r.interrupted || r.progress == Ended(WasCancelled) ==>
                  r.task in s1.log && reply == if Find(s.tasks, r.task).None? then Status(404) else Status(200))
            && (!TakesCancelPath(r) && r.progress.how.Returned? ==>
                  r.task in s1.log && (reply == Status(201) <==> r.task !in s.log)
                    && (reply != Status(201) ==> reply == Threw && s1.tasks == s.tasks))
            && (!TakesCancelPath(r) && r.progress.how.Raised? ==>
                  reply == Threw && s1.tasks == s.tasks && s1.log == s.log)
            && (s1.log == s.log || (r.task !in s.log && s1.log == s.log + [r.task]))
            && (r.task in s.log ==> s1.tasks == s.tasks)
  {
    hide Find, DistinctIds, H.Apply, NoRepeats;
    var r := s.runs[k];
    assert RunOk(r, s.tasks, s.log, s.used);
    OpView(s.tasks, limits, H.TransitionOp(r.task, Cancelled, NO_UPDATE, now));
    if r.progress.how.Returned? {
      var outcome := r.progress.how.outcome;
      OpView(s.tasks, limits, H.TransitionOp(r.task, if outcome.ok then Completed else Failed, Commit(outcome), now));
    }
  }

  // ----- One segment -----

  lemma ResumeKeeps(s: Server, limits: Limits, k: nat, now: int)
    requires limits.maxTerminal > 0 && Inv(s) && Enabled(s, ResumeEvent(k, now))
    ensures Inv(Resume(s, limits, k, now).0)
  {
    hide Resume, TableOk, RunOk, Find;
    ResumeTable(s, limits, k, now);
    ExitedRunOk(s, limits, k, now);
    ResumeOutcome(s, limits, k, now);
    ResumeActive(s, limits, k, now);
    hide ActiveOk;
  }

  lemma ResumeActive(s: Server, limits: Limits, k: nat, now: int)
    requires limits.maxTerminal > 0 && Inv(s) && Enabled(s, ResumeEvent(k, now))
    ensures ActiveOk(Resume(s, limits, k, now).0)
  {
    hide TableOk, H.Apply, H.LogAfter, Find, RunOk;
  }

  /** The table part of a resumption, and the runs it does not touch. */
  lemma ResumeTable(s: Server, limits: Limits, k: nat, now: int)
    requires limits.maxTerminal > 0 && Inv(s) && Enabled(s, ResumeEvent(k, now))
    ensures var s1 := Resume(s, limits, k, now).0;
            && TableOk(s1.tasks, s1.log, s1.used) && s1.used == s.used
            && |s1.runs| == |s.runs| && s1.runs[k].task == s.runs[k].task
            && forall j :: 0 <= j < |s.runs| && j != k ==>
                 s1.runs[j] == s.runs[j] && RunOk(s.runs[j], s1.tasks, s1.log, s1.used)
  {
    hide TableOk, H.Apply, H.LogAfter, Find, RunOk;
    var r := s.runs[k];
    TransitionKeeps(s, limits, H.TransitionOp(r.task, Cancelled, NO_UPDATE, now));
    if r.progress.how.Returned? {
      var outcome := r.progress.how.outcome;
      var to := if outcome.ok then Completed else Failed;
      TransitionKeeps(s, limits, H.TransitionOp(r.task, to, Commit(outcome), now));
    }
  }

  lemma ExitedRunOk(s: Server, limits: Limits, k: nat, now: int)
    requires limits.maxTerminal > 0 && Inv(s) && Enabled(s, ResumeEvent(k, now))
    ensures var s1 := Resume(s, limits, k, now).0;
            && RunOk(s1.runs[k], s1.tasks, s1.log, s1.used)
            && s1.runs[k] == s.runs[k].(reply := Resume(s, limits, k, now).1)
  {
    hide H.Apply, H.LogAfter, Find, TableOk;
    ResumeOutcome(s, limits, k, now);
    assert RunOk(s.runs[k], s.tasks, s.log, s.used);
  }

  /** Asking a run to end, or noting that its handler was interrupted, changes no promise. */
  ghost predicate SameButForRequests(a: seq<ConsultRun>, b: seq<ConsultRun>) {
    |a| == |b| && forall k :: 0 <= k < |a| ==> b[k] == a[k] || b[k] == RequestCancel(a[k])
  }

  lemma RequestsKeep(s: Server, runs: seq<ConsultRun>, active: map<string, nat>, stops: seq<set<nat>>)
    requires Inv(s) && SameButForRequests(s.runs, runs)
    requires forall id <- active :: id in s.active && active[id] == s.active[id]
    ensures Inv(s.(runs := runs, active := active, stops := stops))
  {
    hide TableOk, Find;
    forall k | 0 <= k < |runs| ensures RunOk(runs[k], s.tasks, s.log, s.used) {
      assert RunOk(s.runs[k], s.tasks, s.log, s.used);
    }
  }

  lemma CancelKeeps(s: Server, limits: Limits, id: string, now: int)
    requires limits.maxTerminal > 0 && Inv(s)
    ensures Inv(Cancel(s, limits, id, now).0)
  {
    hide TableOk, RunOk, H.Apply, H.LogAfter, Find;
    var s1 := if id in s.active && s.active[id] < |s.runs|
              then s.(runs := s.runs[s.active[id] := RequestCancel(s.runs[s.active[id]])]) else s;
    RequestsKeep(s, s1.runs, s.active, s.stops);
    TransitionKeeps(s1, limits, H.TransitionOp(id, Cancelled, NO_UPDATE, now));
  }

  lemma StopKeeps(s: Server)
    requires Inv(s)
    ensures Inv(StopBegin(s))
    ensures forall call :: 0 <= call < |s.stops| ==> Inv(StopEnd(s, call))
  {
    hide TableOk, RunOk, RunsOk, ActiveOk;
    RequestsKeep(s, StopBegin(s).runs, s.active, StopBegin(s).stops);
    forall call | 0 <= call < |s.stops| ensures Inv(StopEnd(s, call)) {
      RequestsKeep(s, s.runs, map[], StopEnd(s, call).stops);
    }
  }

  lemma EnvironmentKeeps(s: Server, k: nat, r: ConsultRun)
    requires Inv(s) && k < |s.runs| && Waiting(s.runs[k])
    requires Waiting(r) && r.task == s.runs[k].task
    ensures Inv(s.(runs := s.runs[k := r]))
  {
    hide TableOk, Find;
    assert RunOk(s.runs[k], s.tasks, s.log, s.used);
    assert forall j :: 0 <= j < |s.runs| && j != k ==> RunOk(s.runs[j], s.tasks, s.log, s.used);
  }

  lemma StepKeeps(s: Server, limits: Limits, e: Event)
    requires limits.maxTerminal > 0 && Inv(s) && Enabled(s, e)
    ensures Inv(Step(s, limits, e))
  {
    hide Inv, Submit, Resume, Cancel, StopBegin, StopEnd;
    match e
    case SubmitEvent(request, consult, id, now) => SubmitKeeps(s, limits, request, consult, id, now);
    case EndEvent(k, how) => PendingWaits(s, k); EnvironmentKeeps(s, k, s.runs[k].(progress := Ended(how)));
    case InterruptEvent(k) => EnvironmentKeeps(s, k, Interrupted(s.runs[k]));
    case ResumeEvent(k, now) => ResumeKeeps(s, limits, k, now);
    case CancelEvent(id, now) => CancelKeeps(s, limits, id, now);
    case StopBeginEvent => StopKeeps(s);
    case StopEndEvent(call) => StopKeeps(s);
  }

  lemma PendingWaits(s: Server, k: nat)
    requires Inv(s) && k < |s.runs| && s.runs[k].progress.Pending?
    ensures Waiting(s.runs[k])
  {
    assert s.runs[k] in s.runs;
  }

  // ----- Every interleaving -----

  lemma {:induction false} InvHolds(s: Server, limits: Limits, events: seq<Event>)
    requires limits.maxTerminal > 0 && Inv(s) && Execution(s, limits, events)
    ensures Inv(After(s, limits, events))
    decreases |events|
  {
    if events != [] {
      hide Inv, Step, Enabled;
      StepKeeps(s, limits, events[0]);
      InvHolds(Step(s, limits, events[0]), limits, events[1..]);
    }
  }

  /** In every interleaving each task undergoes at most one terminal transition, every
      retired task is terminal or evicted, and a handler exits with its task retired unless
      its run raised an ordinary exception. */
  lemma OneTerminalTransition(limits: Limits, events: seq<Event>)
    requires limits.maxTerminal > 0 && Execution(INITIAL, limits, events)
    ensures var s := After(INITIAL, limits, events);
            && NoRepeats(s.log)
            && (forall id <- s.used :: id in s.log
                  <==> (Find(s.tasks, id).None? || Terminal(Find(s.tasks, id).value.state)))
            && (forall r <- s.runs :: !Waiting(r) ==>
                  || Find(s.tasks, r.task).None? || Terminal(Find(s.tasks, r.task).value.state)
                  || (r.progress == Ended(Raised) && !r.interrupted && Find(s.tasks, r.task).value.state == Working))
  {
    assert Inv(INITIAL);
    InvHolds(INITIAL, limits, events);
    var s := After(INITIAL, limits, events);
    hide Find, Execution, After;
    forall r | r in s.runs && !Waiting(r)
      ensures || Find(s.tasks, r.task).None? || Terminal(Find(s.tasks, r.task).value.state)
              || (r.progress == Ended(Raised) && !r.interrupted && Find(s.tasks, r.task).value.state == Working)
    {
      assert RunOk(r, s.tasks, s.log, s.used);
    }
  }

  /** A handler leaves its task active exactly when its run raised, the handler was not
      interrupted, and nobody had cancelled the task. */
  lemma LeftWorkingIff(s: Server, limits: Limits, k: nat, now: int)
    requires limits.maxTerminal > 0 && Inv(s) && Enabled(s, ResumeEvent(k, now))
    ensures var r := s.runs[k];
            var found := Find(Resume(s, limits, k, now).0.tasks, r.task);
            found.Some? && !Terminal(found.value.state)
            <==> r.progress == Ended(Raised) && !r.interrupted && r.task !in s.log
  {
    hide Find;
    ResumeOutcome(s, limits, k, now);
    ResumeKeeps(s, limits, k, now);
    assert RunOk(s.runs[k], s.tasks, s.log, s.used);
    hide Resume, RunsOk, ActiveOk, DistinctIds, NoRepeats;
  }

  /** Cancelling succeeds exactly on an active task; otherwise the table is untouched and
      the reply tells an unknown or evicted task from a terminal one. */
  lemma CancelOutcome(s: Server, limits: Limits, id: string, now: int)
    requires limits.maxTerminal > 0 && Inv(s)
    ensures var (s1, reply) := Cancel(s, limits, id, now);
            var found := Find(s.tasks, id);
            && (reply == Status(200) <==> found.Some? && !Terminal(found.value.state))
            && (reply == Status(404) <==> found.None?)
            && (reply == Status(409) <==> found.Some? && Terminal(found.value.state))
            && (reply == Status(200) ==> s1.log == s.log + [id])
            && (reply != Status(200) ==> s1.tasks == s.tasks && s1.log == s.log)
  {
    hide Find, DistinctIds, H.Apply, NoRepeats, RunsOk, ActiveOk;
    OpView(s.tasks, limits, H.TransitionOp(id, Cancelled, NO_UPDATE, now));
    if Find(s.tasks, id).Some? && Terminal(Find(s.tasks, id).value.state) {
      RefusedIsInvalid(s.tasks, limits, id, now);
    }
  }

  lemma RefusedIsInvalid(tasks: seq<Task>, limits: Limits, id: string, now: int)
    requires Find(tasks, id).Some? && Terminal(Find(tasks, id).value.state)
    ensures H.Apply(tasks, limits, H.TransitionOp(id, Cancelled, NO_UPDATE, now)) == (tasks, Err(InvalidTransition))
  {
  }

  /** A retired task stays retired: whatever follows, the table holds the same terminal task
      or none, and its id is never logged again. */
  lemma {:induction false} RetiredForever(s: Server, limits: Limits, events: seq<Event>, id: string)
    requires limits.maxTerminal > 0 && Inv(s) && Execution(s, limits, events) && id in s.log
    ensures var s' := After(s, limits, events);
            && id in s'.log && NoRepeats(s'.log)
            && (Find(s'.tasks, id) == Find(s.tasks, id) || Find(s'.tasks, id).None?)
    decreases |events|
  {
    InvHolds(s, limits, events);
    if events != [] {
      hide Step, Enabled, Find;
      StepKeeps(s, limits, events[0]);
      StepRetired(s, limits, events[0], id);
      RetiredForever(Step(s, limits, events[0]), limits, events[1..], id);
      hide Inv;
    }
  }

  lemma StepRetired(s: Server, limits: Limits, e: Event, id: string)
    requires limits.maxTerminal > 0 && Inv(s) && Enabled(s, e) && id in s.log
    ensures var s' := Step(s, limits, e);
            && id in s'.log && (Find(s'.tasks, id) == Find(s.tasks, id) || Find(s'.tasks, id).None?)
  {
    hide Find, H.Apply, DistinctIds, NoRepeats, RunsOk, ActiveOk;
    match e
    case SubmitEvent(request, consult, i, now) =>
      var create := H.CreateOp(request, request.budget, i, now);
      var s1 := Perform(s, limits, create).0;
      OtherView(s.tasks, limits, create, id);
      OpView(s.tasks, limits, create);
      OtherView(s1.tasks, limits, H.TransitionOp(i, Working, NO_UPDATE, now), id);
    case ResumeEvent(k, now) => ResumeRetired(s, limits, k, now, id);
    case CancelEvent(i, now) =>
      var op := H.TransitionOp(i, Cancelled, NO_UPDATE, now);
      CancelOutcome(s, limits, i, now);
      if i != id { OtherView(s.tasks, limits, op, id); }
    case _ =>
  }

  lemma ResumeRetired(s: Server, limits: Limits, k: nat, now: int, id: string)
    requires limits.maxTerminal > 0 && Inv(s) && Enabled(s, ResumeEvent(k, now)) && id in s.log
    ensures var s' := Resume(s, limits, k, now).0;
            && id in s'.log && (Find(s'.tasks, id) == Find(s.tasks, id) || Find(s'.tasks, id).None?)
  {
    hide Find, H.Apply, DistinctIds, NoRepeats, RunsOk, ActiveOk;
    var r := s.runs[k];
    ResumeOutcome(s, limits, k, now);
    if r.task != id {
      OtherView(s.tasks, limits, H.TransitionOp(r.task, Cancelled, NO_UPDATE, now), id);
      if r.progress.how.Returned? {
        var outcome := r.progress.how.outcome;
        var to := if outcome.ok then Completed else Failed;
        OtherView(s.tasks, limits, H.TransitionOp(r.task, to, Commit(outcome), now), id);
      }
    }
  }

  /** Once every handler has exited, the table of active runs is empty. */
  lemma RegistryDrains(limits: Limits, events: seq<Event>)
    requires limits.maxTerminal > 0 && Execution(INITIAL, limits, events)
    requires forall r <- After(INITIAL, limits, events).runs :: !Waiting(r)
    ensures After(INITIAL, limits, events).active == map[]
  {
    InvHolds(INITIAL, limits, events);
    var s := After(INITIAL, limits, events);
    forall id ensures id !in s.active { }
    assert s.active.Keys == {};
  }

  // ----- Every segment is a sequence of table operations -----

  function StepOps(s: Server, limits: Limits, e: Event): seq<H.Op>
    requires Enabled(s, e)
  {
    match e
    case SubmitEvent(request, consult, id, now) =>
      var create := H.CreateOp(request, request.budget, id, now);
      if consult && H.Apply(s.tasks, limits, create).1.Ok?
      then [create, H.TransitionOp(id, Working, NO_UPDATE, now)] else [create]
    case ResumeEvent(k, now) =>
      var r := s.runs[k];
      var found := Find(s.tasks, r.task);
      if TakesCancelPath(r) then
        if found.Some? && found.value.state != Cancelled
        then [H.TransitionOp(r.task, Cancelled, NO_UPDATE, now)] else []
      else if r.progress.how.Raised? then []
      else
        var outcome := r.progress.how.outcome;
        [H.TransitionOp(r.task, if outcome.ok then Completed else Failed, Commit(outcome), now)]
    case CancelEvent(id, now) => [H.TransitionOp(id, Cancelled, NO_UPDATE, now)]
    case _ => []
  }

  lemma StepIsOps(s: Server, limits: Limits, e: Event)
    requires Enabled(s, e)
    ensures var s' := Step(s, limits, e); H.Run(s.tasks, s.log, limits, StepOps(s, limits, e)) == (s'.tasks, s'.log)
  {
    hide Find, H.Apply, H.LogAfter;
    RunShort(s.tasks, s.log, limits, StepOps(s, limits, e));
  }

  lemma RunShort(tasks: seq<Task>, log: seq<string>, limits: Limits, ops: seq<H.Op>)
    requires |ops| <= 2
    ensures ops == [] ==> H.Run(tasks, log, limits, ops) == (tasks, log)
    ensures |ops| == 1 ==>
              H.Run(tasks, log, limits, ops)
              == (H.Apply(tasks, limits, ops[0]).0, H.LogAfter(log, tasks, limits, ops[0]))
    ensures |ops| == 2 ==>
              var tasks1, log1 := H.Apply(tasks, limits, ops[0]).0, H.LogAfter(log, tasks, limits, ops[0]);
              H.Run(tasks, log, limits, ops)
              == (H.Apply(tasks1, limits, ops[1]).0, H.LogAfter(log1, tasks1, limits, ops[1]))
    decreases |ops|
  {
    hide H.Apply, H.LogAfter;
    if |ops| == 2 {
      RunShort(H.Apply(tasks, limits, ops[0]).0, H.LogAfter(log, tasks, limits, ops[0]), limits, ops[1..]);
    }
  }

  lemma FreshShort(tasks: seq<Task>, limits: Limits, ops: seq<H.Op>)
    requires |ops| <= 2 && (ops != [] ==> H.FreshEnough(tasks, ops[0])) && (|ops| == 2 ==> ops[1].TransitionOp?)
    ensures H.AllFresh(tasks, limits, ops)
    decreases |ops|
  {
    hide H.Apply;
    if |ops| == 2 { FreshShort(H.Apply(tasks, limits, ops[0]).0, limits, ops[1..]); }
  }

  lemma StepOpsFresh(s: Server, limits: Limits, e: Event)
    requires limits.maxTerminal > 0 && Inv(s) && Enabled(s, e)
    ensures H.AllFresh(s.tasks, limits, StepOps(s, limits, e))
  {
    hide H.Apply, Find;
    if e.SubmitEvent? {
      H.TerminalIdsIn(s.tasks, e.id);
      assert Find(s.tasks, e.id).None?;
    }
    FreshShort(s.tasks, limits, StepOps(s, limits, e));
  }

  /** The manager's guarantees survive every interleaving: the caps hold, and the retained
      terminal tasks are the last `maxTerminal` terminal transitions in order. */
  lemma {:induction false} TableGuaranteesHold(s: Server, limits: Limits, events: seq<Event>)
    requires limits.maxTerminal > 0 && Inv(s) && Execution(s, limits, events)
    requires H.WithinCaps(s.tasks, limits) && H.WindowOnLog(s.tasks, s.log, limits)
    ensures var s' := After(s, limits, events);
            && H.WithinCaps(s'.tasks, limits) && |s'.tasks| <= limits.maxActive + limits.maxTerminal
            && H.WindowOnLog(s'.tasks, s'.log, limits)
    decreases |events|
  {
    hide Inv, Step, Enabled, H.WithinCaps, H.WindowOnLog, StepOps, H.Run, H.AllFresh;
    if events == [] {
      H.CapsHold(s.tasks, s.log, limits, []);
      RunShort(s.tasks, s.log, limits, []);
    } else {
      var ops := StepOps(s, limits, events[0]);
      StepKeeps(s, limits, events[0]);
      StepIsOps(s, limits, events[0]);
      StepOpsFresh(s, limits, events[0]);
      H.CapsHold(s.tasks, s.log, limits, ops);
      H.RetainsLastTerminations(s.tasks, s.log, limits, ops);
      TableGuaranteesHold(Step(s, limits, events[0]), limits, events[1..]);
    }
  }

  // ----- Reaching the run -----

  /** Cancelling a task asks its run to end exactly when the run is still registered. */
  lemma CancelReachesRegistered(s: Server, limits: Limits, k: nat, now: int)
    requires limits.maxTerminal > 0 && Inv(s) && k < |s.runs| && s.runs[k].progress == Pending(false)
    ensures var s' := Cancel(s, limits, s.runs[k].task, now).0;
            |s'.runs| == |s.runs|
            && (s'.runs[k].progress == Pending(true) <==> s.runs[k].task in s.active)
  {
    hide H.Apply, Find, TableOk;
  }

  ghost predicate AllRegistered(s: Server) {
    forall k :: 0 <= k < |s.runs| && Waiting(s.runs[k]) ==> s.runs[k].task in s.active
  }

  /** As long as no `stop` has finished, every suspended handler's run is registered. */
  lemma {:induction false} RegisteredUntilStopped(s: Server, limits: Limits, events: seq<Event>)
    requires limits.maxTerminal > 0 && Inv(s) && AllRegistered(s) && Execution(s, limits, events)
    requires forall e <- events :: !e.StopEndEvent?
    ensures AllRegistered(After(s, limits, events))
    decreases |events|
  {
    if events != [] {
      hide Inv, Step, Enabled;
      StepKeeps(s, limits, events[0]);
      StepRegistered(s, limits, events[0]);
      RegisteredUntilStopped(Step(s, limits, events[0]), limits, events[1..]);
    }
  }

  lemma StepRegistered(s: Server, limits: Limits, e: Event)
    requires limits.maxTerminal > 0 && Inv(s) && AllRegistered(s) && Enabled(s, e) && !e.StopEndEvent?
    ensures AllRegistered(Step(s, limits, e))
  {
    hide H.Apply, Find, TableOk, RunOk;
    if e.ResumeEvent? { ResumeOutcome(s, limits, e.run, e.now); }
  }

  /** `stop` clears the whole table, so a run begun while it was waiting is dropped from it:
      cancelling that task afterwards succeeds without asking the run to end. */
  lemma LateRunEscapesCancel(s: Server, limits: Limits, call: nat, k: nat, now: int)
    requires limits.maxTerminal > 0 && Inv(s) && Enabled(s, StopEndEvent(call))
    requires k < |s.runs| && s.runs[k].progress == Pending(false) && s.runs[k].task !in s.log
    ensures var (s', reply) := Cancel(StopEnd(s, call), limits, s.runs[k].task, now);
            reply == Status(200) && |s'.runs| == |s.runs| && s'.runs[k].progress == Pending(false)
  {
    hide H.Apply, Find;
    StopKeeps(s);
    var s1 := StopEnd(s, call);
    assert RunOk(s.runs[k], s.tasks, s.log, s.used);
    CancelOutcome(s1, limits, s.runs[k].task, now);
  }

  lemma Prepend(s: Server, limits: Limits, e: Event, events: seq<Event>)
    requires Enabled(s, e) && Execution(Step(s, limits, e), limits, events)
    ensures Execution(s, limits, [e] + events)
              && After(s, limits, [e] + events) == After(Step(s, limits, e), limits, events)
  {
    hide Enabled, Step;
    assert ([e] + events)[1..] == events;
  }

  /** A consult the table admits is registered and pending when its handler suspends. */
  lemma SubmitRegisters(s: Server, limits: Limits, request: Request, id: string, now: int)
    requires limits.maxTerminal > 0 && Inv(s) && id !in s.used && Admission(s.tasks, limits, request.input) == None
    ensures var s' := Submit(s, limits, request, true, id, now).0;
            && s'.runs == s.runs + [ConsultRun(id, Pending(false), false, Suspended)]
            && s'.active == s.active[id := |s.runs|] && s'.stops == s.stops && s'.log == s.log
                 && s'.used == s.used + {id}
  {
    hide Find, DistinctIds, RunsOk, ActiveOk, Put, Admission;
    var create := H.CreateOp(request, request.budget, id, now);
    SubmitFacts(s, limits, create);
    hide TableOk;
    SubmitKeeps(s, limits, request, true, id, now);
    TableStep(s.tasks, s.log, s.used, limits, create);
    var s2 := Perform(s, limits, create).0.(used := s.used + {id});
    WorkingFacts(s2, limits, id, now);
  }

  /** Such a run is reached: a task begun while `stop` waits for an earlier one. */
  lemma LateRunExists(limits: Limits)
    requires ValidLimits(limits) && limits.maxActive >= 2
    ensures exists events ::
              && Execution(INITIAL, limits, events)
              && var s := After(INITIAL, limits, events);
                 Enabled(s, StopEndEvent(0)) && |s.runs| == 2 && s.runs[1].progress == Pending(false)
                   && s.runs[1].task !in s.log
  {
    hide Submit, Inv, Admission, StopBegin, Enabled, Step, Execution, After;
    var request := Request("consult", "", None);
    var first, second := SubmitEvent(request, true, "a", 0), SubmitEvent(request, true, "b", 0);
    var stop, end := StopBeginEvent, EndEvent(0, Raised);
    InitialInv();
    FirstTable(limits, request);
    SubmitRegisters(INITIAL, limits, request, "a", 0);
    SubmitSteps(INITIAL, limits, first);
    var s1 := Step(INITIAL, limits, first);
    StopSteps(s1, limits);
    var s2 := Step(s1, limits, stop);
    SubmitRegisters(s2, limits, request, "b", 0);
    SubmitSteps(s2, limits, second);
    var s3 := Step(s2, limits, second);
    EndSteps(s3, limits);
    Finish(Step(s3, limits, end), limits);
    Prepend(s3, limits, end, []);
    Prepend(s2, limits, second, [end] + []);
    Prepend(s1, limits, stop, [second] + ([end] + []));
    Prepend(INITIAL, limits, first, [stop] + ([second] + ([end] + [])));
  }

  lemma InitialInv()
    ensures Inv(INITIAL)
  {
  }

  lemma SubmitSteps(s: Server, limits: Limits, e: Event)
    requires e.SubmitEvent? && e.id !in s.used && limits.maxTerminal > 0 && Inv(s)
    ensures Enabled(s, e) && Step(s, limits, e) == Submit(s, limits, e.request, e.consult, e.id, e.now).0
              && Inv(Step(s, limits, e))
  {
    hide Submit, Inv;
    SubmitKeeps(s, limits, e.request, e.consult, e.id, e.now);
  }

  lemma StopSteps(s: Server, limits: Limits)
    requires limits.maxTerminal > 0 && Inv(s) && |s.runs| == 1 && s.active == map["a" := 0]
    ensures Enabled(s, StopBeginEvent) && Inv(Step(s, limits, StopBeginEvent))
    ensures var s' := Step(s, limits, StopBeginEvent);
            s' == s.(runs := [RequestCancel(s.runs[0])], stops := s.stops + [{0}])
  {
    hide Inv;
    StepKeeps(s, limits, StopBeginEvent);
    assert s.active["a"] == 0;
    assert s.active.Values == {0};
  }

  lemma EndSteps(s: Server, limits: Limits)
    requires |s.runs| == 2 && s.runs[0].progress.Pending?
    ensures Enabled(s, EndEvent(0, Raised))
    ensures Step(s, limits, EndEvent(0, Raised)) == s.(runs := [s.runs[0].(progress := Ended(Raised)), s.runs[1]])
  {
  }

  lemma Finish(s: Server, limits: Limits)
    requires s.stops == [{0}] && |s.runs| == 2 && s.runs[0].progress.Ended?
    ensures Enabled(s, StopEndEvent(0)) && Execution(s, limits, []) && After(s, limits, []) == s
  {
  }

  /** One empty task leaves room for another. */
  lemma FirstTable(limits: Limits, request: Request)
    requires ValidLimits(limits) && limits.maxActive >= 2 && request.input == ""
    ensures Admission([], limits, "") == None
    ensures Admission(Submit(INITIAL, limits, request, true, "a", 0).0.tasks, limits, "") == None
  {
    var t := NewTask("a", request, request.budget, 0);
    assert Utf8Length("") == 0;
    assert Put([], t) == [t];
    assert Find([t], "a") == Some(t);
    var t' := Updated(t, Working, NO_UPDATE, 0);
    assert Put([t], t') == [t'] + [t][1..] == [t'];
    assert ActiveCount([t']) == 1 && ActiveBytes([t']) == 0;
  }

  // ----- What each segment answers and stores -----

  /** What a new task request is answered, and what the table then holds: 413 for an input that
      is too large, 429 for the other caps, 201 with a SUBMITTED task, or, for a consult, a
      WORKING task whose handler waits for its run. */
  lemma SubmitAnswers(s: Server, limits: Limits, request: Request, consult: bool, id: string, now: int)
    requires limits.maxTerminal > 0 && Inv(s) && id !in s.used
    ensures var (s', reply) := Submit(s, limits, request, consult, id, now);
            var large := Utf8Length(request.input) > limits.maxTaskBytes;
            var full := || ActiveCount(s.tasks) >= limits.maxActive
                        || ActiveBytes(s.tasks) + Utf8Length(request.input) > limits.maxActiveBytes;
            && (large ==> reply == Status(413) && s' == s)
            && (!large && full ==> reply == Status(429) && s' == s)
            && (!large && !full && !consult ==> reply == Status(201) && s'.runs == s.runs && s'.active == s.active)
            && (!large && !full && consult ==>
                  && reply == Suspended && s'.active == s.active[id := |s.runs|]
                  && s'.runs == s.runs + [ConsultRun(id, Pending(false), false, Suspended)])
            && (!large && !full ==>
                  && Find(s'.tasks, id).Some?
                  && var t := Find(s'.tasks, id).value;
                     && t.id == id && t.state == (if consult then Working else Submitted)
                     && t.skill == request.skill && t.input == request.input && t.budgetCap == request.budget
                     && t.createdAt == now && t.updatedAt == now
                     && t.result == None && t.error == None && t.cost == 0.0 && t.traceId == "" && t.artifacts == [])
  {
    hide Find, DistinctIds, RunsOk, ActiveOk, ActiveCount, ActiveBytes, Utf8Length, Put, Create, Transition;
    var create := H.CreateOp(request, request.budget, id, now);
    H.CreateStores(s.tasks, limits, request, request.budget, id, now);
    TableStep(s.tasks, s.log, s.used, limits, create);
    var s1 := Perform(s, limits, create).0;
    H.TransitionStores(s1.tasks, limits, id, Working, NO_UPDATE, now);
  }

  /** What a finished run leaves in the table when nobody was first: COMPLETED if and only if the
      outcome was ok, else FAILED, with the outcome's result, its error only on failure, its
      cost, trace and artifacts, and the rest of the task as it was. */
  lemma ResumeStores(s: Server, limits: Limits, k: nat, now: int, o: Outcome)
    requires limits.maxTerminal > 0 && Inv(s) && Enabled(s, ResumeEvent(k, now))
    requires s.runs[k].progress == Ended(Returned(o)) && !s.runs[k].interrupted && s.runs[k].task !in s.log
    ensures var (s', reply) := Resume(s, limits, k, now);
            var id := s.runs[k].task;
            && reply == Status(201) && Find(s.tasks, id).Some? && Find(s'.tasks, id).Some?
            && var t, t' := Find(s.tasks, id).value, Find(s'.tasks, id).value;
               && (t'.state == Completed <==> o.ok) && (t'.state == Failed <==> !o.ok)
               && t'.result == (if o.result.Some? then o.result else t.result)
               && t'.error == (if !o.ok && o.error.Some? then o.error else t.error)
               && t'.cost == (if o.cost > 0.0 then o.cost else t.cost)
               && t'.traceId == (if o.traceId != "" then o.traceId else t.traceId)
               && t'.artifacts == (if o.artifacts.Some? then o.artifacts.value else [])
               && t'.id == id && t'.input == t.input && t'.skill == t.skill && t'.budgetCap == t.budgetCap
               && t'.createdAt == t.createdAt && t'.updatedAt == now
  {
    hide Find, DistinctIds, NoRepeats, RunsOk, ActiveOk, Transition;
    RunWaits(s, k);
    H.TransitionStores(s.tasks, limits, s.runs[k].task, if o.ok then Completed else Failed, Commit(o), now);
  }

  /** The task of a handler that still waits and is not retired is WORKING. */
  lemma RunWaits(s: Server, k: nat)
    requires Inv(s) && k < |s.runs| && s.runs[k].task !in s.log
    ensures Find(s.tasks, s.runs[k].task).Some? && Find(s.tasks, s.runs[k].task).value.state == Working
  {
    hide Find, DistinctIds, NoRepeats;
    assert RunOk(s.runs[k], s.tasks, s.log, s.used);
  }

  /** What a cancelled run leaves in the table, and what cancelling an active task does: the task
      is CANCELLED and otherwise as it was. */
  lemma CancellingStores(s: Server, limits: Limits, k: nat, id: string, now: int)
    requires limits.maxTerminal > 0 && Inv(s)
    ensures && Enabled(s, ResumeEvent(k, now)) && s.runs[k].task !in s.log
            && (s.runs[k].interrupted || s.runs[k].progress == Ended(WasCancelled)) ==>
              Cancels(s, Resume(s, limits, k, now).0, s.runs[k].task, now)
    ensures Cancel(s, limits, id, now).1 == Status(200) ==> Cancels(s, Cancel(s, limits, id, now).0, id, now)
  {
    hide Find, DistinctIds, NoRepeats, RunsOk, ActiveOk, Transition;
    H.TransitionStores(s.tasks, limits, id, Cancelled, NO_UPDATE, now);
    if Enabled(s, ResumeEvent(k, now)) && s.runs[k].task !in s.log {
      RunWaits(s, k);
      H.TransitionStores(s.tasks, limits, s.runs[k].task, Cancelled, NO_UPDATE, now);
    }
  }

  ghost predicate Cancels(s: Server, s': Server, id: string, now: int) {
    && Find(s.tasks, id).Some?
    && Find(s'.tasks, id) == Some(Find(s.tasks, id).value.(state := Cancelled, updatedAt := now))
  }

  /** Interrupting a suspended handler asks its pending run to end; once the run has ended it
      is the handler that ends on the cancel path, and whatever the run returned is not
      committed: a task that was not retired is then cancelled or evicted. */
  lemma InterruptAsks(s: Server, limits: Limits, k: nat, now: int)
    requires limits.maxTerminal > 0 && Inv(s) && Enabled(s, InterruptEvent(k))
    ensures var s' := Step(s, limits, InterruptEvent(k));
            && s' == s.(runs := s'.runs) && |s'.runs| == |s.runs|
            && (forall j :: 0 <= j < |s.runs| && j != k ==> s'.runs[j] == s.runs[j])
            && (s.runs[k].progress.Pending? ==> s'.runs[k] == s.runs[k].(progress := Pending(true)))
            && (s.runs[k].progress.Ended? ==>
                  && Enabled(s', ResumeEvent(k, now))
                  && var (s'', reply) := Resume(s', limits, k, now);
                     && reply in {Status(200), Status(404)} && s.runs[k].task in s''.log
                     && (s.runs[k].task !in s.log ==> Cancels(s', s'', s.runs[k].task, now)))
  {
    hide TableOk, RunsOk, ActiveOk, Resume;
    var s' := Step(s, limits, InterruptEvent(k));
    if s.runs[k].progress.Ended? {
      StepKeeps(s, limits, InterruptEvent(k));
      ResumeOutcome(s', limits, k, now);
      CancellingStores(s', limits, k, s.runs[k].task, now);
    }
  }

  /** What `stop` asks for: every registered pending run is asked to end, no other run is, and
      the call waits for exactly the registered ones. */
  lemma StopAsks(s: Server, k: nat)
    requires k < |s.runs| && Inv(s)
    ensures var s' := StopBegin(s);
            && |s'.runs| == |s.runs|
            && (s.runs[k].progress.Pending? && (exists id :: id in s.active && s.active[id] == k) ==>
                  s'.runs[k] == s.runs[k].(progress := Pending(true)))
            && (s.runs[k].progress.Ended? || !(exists id :: id in s.active && s.active[id] == k) ==>
                  s'.runs[k] == s.runs[k])
            && s'.tasks == s.tasks && s'.active == s.active
            && s'.stops == if s.active == map[] then s.stops else s.stops + [s.active.Values]
  {
    hide TableOk, RunsOk, ActiveOk;
  }
}
