/** The A2A server between awaits: the consult handler, the background run, cancel and
    stop as atomic segments over one task table (src/deepr/a2a/server.py). */
module A2AServers {
  import opened Options
  import opened TaskManagers
  import H = TaskHistory

  datatype Outcome = Outcome(
    ok: bool,
    result: Option<string>,
    error: Option<string>,
    cost: real,
    traceId: string,
    artifacts: Option<seq<string>>)

  /** How a background run ends: with an outcome, with an ordinary exception, or cancelled. */
  datatype Ending = Returned(outcome: Outcome) | Raised | WasCancelled

  /** Cancelling a pending run only asks: the run may still end in any way. */
  datatype Progress = Pending(cancelRequested: bool) | Ended(how: Ending)

  datatype Reply = Status(code: nat) | Threw | Suspended

  /** A background run together with the handler that awaits it. `interrupted` records that
      the handler itself was cancelled after its run had ended. */
  datatype ConsultRun = ConsultRun(task: string, progress: Progress, interrupted: bool, reply: Reply)

  predicate Waiting(r: ConsultRun) { r.reply == Suspended }

  /** `log` and `used` are history: the ids of the terminal transitions in order, and every
      id ever issued. `stops` holds, for each `stop` call still in its gather, the runs it
      waits for. */
  datatype Server = Server(
    tasks: seq<Task>,
    log: seq<string>,
    used: set<string>,
    runs: seq<ConsultRun>,
    active: map<string, nat>,
    stops: seq<set<nat>>)

  const NO_UPDATE := Update(None, None, 0.0, "", None)

  function Commit(o: Outcome): Update {
    Update(o.result, if o.ok then None else o.error, o.cost, o.traceId,
           Some(if o.artifacts.Some? then o.artifacts.value else []))
  }

  function CapacityStatus(e: TaskError): nat { if e == TooLarge then 413 else 429 }

  function RequestCancel(r: ConsultRun): ConsultRun {
    if r.progress.Pending? then r.(progress := Pending(true)) else r
  }

  // ----- The segments on values -----

  function Perform(s: Server, limits: Limits, op: H.Op): (Server, Result<Task, TaskError>) {
    var (tasks, r) := H.Apply(s.tasks, limits, op);
    (s.(tasks := tasks, log := H.LogAfter(s.log, s.tasks, limits, op)), r)
  }

  /** `POST /tasks`, up to the handler's await. */
  function Submit(s: Server, limits: Limits, request: Request, consult: bool, id: string, now: int): (Server, Reply) {
    var (s1, created) := Perform(s, limits, H.CreateOp(request, request.budget, id, now));
    if created.Err? then (s1, Status(CapacityStatus(created.error)))
    else
      var s2 := s1.(used := s1.used + {id});
      if !consult then (s2, Status(201))
      else
        var (s3, started) := Perform(s2, limits, H.TransitionOp(id, Working, NO_UPDATE, now));
        if started.Err? then (s3, Threw)
        else
          (s3.(runs := s3.runs + [ConsultRun(id, Pending(false), false, Suspended)],
               active := s3.active[id := |s3.runs|]), Suspended)
  }

  predicate TakesCancelPath(r: ConsultRun) { r.interrupted || r.progress == Ended(WasCancelled) }

  /** The handler's code after its await, up to its exit. */
  function Resume(s: Server, limits: Limits, k: nat, now: int): (Server, Reply)
    requires k < |s.runs| && s.runs[k].progress.Ended?
  {
    var run := s.runs[k];
    var id := run.task;
    var (s1, reply) :=
      if TakesCancelPath(run) then
        var found := Find(s.tasks, id);
        if found.None? then (s, Status(404))
        else if found.value.state == Cancelled then (s, Status(200))
        else
          var (t, r) := Perform(s, limits, H.TransitionOp(id, Cancelled, NO_UPDATE, now));
          (t, if r.Ok? then Status(200) else Threw)
      else if run.progress.how.Raised? then (s, Threw)
      else
        var outcome := run.progress.how.outcome;
        var (t, r) := Perform(s, limits,
          H.TransitionOp(id, if outcome.ok then Completed else Failed, Commit(outcome), now));
        (t, if r.Ok? then Status(201) else Threw);
    (s1.(runs := s1.runs[k := run.(reply := reply)],
         active := if id in s1.active && s1.active[id] == k then s1.active - {id} else s1.active), reply)
  }

  /** `POST /tasks/{id}/cancel`. */
  function Cancel(s: Server, limits: Limits, id: string, now: int): (Server, Reply) {
    var s1 := if id in s.active && s.active[id] < |s.runs|
              then s.(runs := s.runs[s.active[id] := RequestCancel(s.runs[s.active[id]])]) else s;
    var (s2, r) := Perform(s1, limits, H.TransitionOp(id, Cancelled, NO_UPDATE, now));
    (s2, if r.Ok? then Status(200) else if r.error == NotFound then Status(404) else Status(409))
  }

  /** `stop` up to its gather; with no registered run there is nothing to wait for. */
  function StopBegin(s: Server): Server {
    s.(runs := seq(|s.runs|, k requires 0 <= k < |s.runs| =>
                     if k in s.active.Values then RequestCancel(s.runs[k]) else s.runs[k]),
       stops := if s.active == map[] then s.stops else s.stops + [s.active.Values])
  }

  predicate Gathered(s: Server, captured: set<nat>) {
    forall k <- captured :: k < |s.runs| && s.runs[k].progress.Ended?
  }

  /** `stop` after its gather. */
  function StopEnd(s: Server, call: nat): Server
    requires call < |s.stops|
  {
    s.(active := map[], stops := s.stops[..call] + s.stops[call + 1..])
  }

  datatype Event =
    | SubmitEvent(request: Request, consult: bool, id: string, now: int)
    | EndEvent(run: nat, how: Ending)
    | InterruptEvent(run: nat)
    | ResumeEvent(run: nat, now: int)
    | CancelEvent(id: string, now: int)
    | StopBeginEvent
    | StopEndEvent(call: nat)

  /** Ids are fresh; a handler resumes once its run has ended; `stop` goes on once every
      run it gathered has ended. */
  predicate Enabled(s: Server, e: Event) {
    match e
    case SubmitEvent(_, _, id, _) => id !in s.used
    case EndEvent(k, _) => k < |s.runs| && s.runs[k].progress.Pending?
    case InterruptEvent(k) => k < |s.runs| && Waiting(s.runs[k])
    case ResumeEvent(k, _) => k < |s.runs| && Waiting(s.runs[k]) && s.runs[k].progress.Ended?
    case StopEndEvent(call) => call < |s.stops| && Gathered(s, s.stops[call])
    case _ => true
  }

  /** Cancelling a suspended handler cancels the run it awaits, or, when that run has
      already ended, the handler's own wake-up. */
  function Interrupted(r: ConsultRun): ConsultRun {
    if r.progress.Pending? then RequestCancel(r) else r.(interrupted := true)
  }

  function Step(s: Server, limits: Limits, e: Event): Server
    requires Enabled(s, e)
  {
    match e
    case SubmitEvent(request, consult, id, now) => Submit(s, limits, request, consult, id, now).0
    case EndEvent(k, how) => s.(runs := s.runs[k := s.runs[k].(progress := Ended(how))])
    case InterruptEvent(k) => s.(runs := s.runs[k := Interrupted(s.runs[k])])
    case ResumeEvent(k, now) => Resume(s, limits, k, now).0
    case CancelEvent(id, now) => Cancel(s, limits, id, now).0
    case StopBeginEvent => StopBegin(s)
    case StopEndEvent(call) => StopEnd(s, call)
  }

  ghost predicate Execution(s: Server, limits: Limits, events: seq<Event>)
    decreases |events|
  {
    events == [] || (Enabled(s, events[0]) && Execution(Step(s, limits, events[0]), limits, events[1..]))
  }

  function After(s: Server, limits: Limits, events: seq<Event>): Server
    requires Execution(s, limits, events)
    decreases |events|
  {
    if events == [] then s else After(Step(s, limits, events[0]), limits, events[1..])
  }

  const INITIAL := Server([], [], {}, [], map[], [])

  // ----- The class -----

  class A2AServer {
    const manager: TaskManager
    var runs: seq<ConsultRun>
    var active: map<string, nat>
    var stops: seq<set<nat>>
    ghost var log: seq<string>
    ghost var used: set<string>

    ghost function State(): Server
      reads this, manager
    {
      Server(manager.tasks, log, used, runs, active, stops)
    }

    constructor (manager: TaskManager)
      requires manager.tasks == []
      ensures this.manager == manager && State() == INITIAL
    {
      this.manager := manager;
      runs, active, stops, log, used := [], map[], [], [], {};
    }

    method HandleCreateTask(request: Request, consult: bool, id: string, now: int) returns (reply: Reply)
      modifies this, manager
      ensures (State(), reply) == Submit(old(State()), manager.limits, request, consult, id, now)
    {
      var created := manager.CreateTask(request, request.budget, id, now);
      if created.Err? { return Status(CapacityStatus(created.error)); }
      used := used + {id};
      if !consult { return Status(201); }
      var started := manager.TransitionTask(id, Working, NO_UPDATE, now);
      if started.Err? { return Threw; }
      active := active[id := |runs|];
      runs := runs + [ConsultRun(id, Pending(false), false, Suspended)];
      return Suspended;
    }

    method ResumeConsult(k: nat, now: int) returns (reply: Reply)
      requires k < |runs| && runs[k].progress.Ended?
      modifies this, manager
      ensures (State(), reply) == Resume(old(State()), manager.limits, k, now)
    {
      var run := runs[k];
      if TakesCancelPath(run) {
        var found := Find(manager.tasks, run.task);
        if found.None? {
          reply := Status(404);
        } else if found.value.state == Cancelled {
          reply := Status(200);
        } else {
          log := H.LogAfter(log, manager.tasks, manager.limits, H.TransitionOp(run.task, Cancelled, NO_UPDATE, now));
          var r := manager.TransitionTask(run.task, Cancelled, NO_UPDATE, now);
          reply := if r.Ok? then Status(200) else Threw;
        }
      } else if run.progress.how.Raised? {
        reply := Threw;
      } else {
        var outcome := run.progress.how.outcome;
        var to := if outcome.ok then Completed else Failed;
        log := H.LogAfter(log, manager.tasks, manager.limits, H.TransitionOp(run.task, to, Commit(outcome), now));
        var r := manager.TransitionTask(run.task, to, Commit(outcome), now);
        reply := if r.Ok? then Status(201) else Threw;
      }
      runs := runs[k := run.(reply := reply)];
      if run.task in active && active[run.task] == k { active := active - {run.task}; }
    }

    method HandleCancelTask(id: string, now: int) returns (reply: Reply)
      modifies this, manager
      ensures (State(), reply) == Cancel(old(State()), manager.limits, id, now)
    {
      if id in active && active[id] < |runs| {
        var k := active[id];
        assert runs[k := runs[k]] == runs;
        if runs[k].progress.Pending? { runs := runs[k := runs[k].(progress := Pending(true))]; }
      }
      log := H.LogAfter(log, manager.tasks, manager.limits, H.TransitionOp(id, Cancelled, NO_UPDATE, now));
      var r := manager.TransitionTask(id, Cancelled, NO_UPDATE, now);
      return if r.Ok? then Status(200) else if r.error == NotFound then Status(404) else Status(409);
    }

    method BeginStop()
      modifies this
      ensures State() == StopBegin(old(State()))
    {
      var captured := active.Values;
      var k := 0;
      while k < |runs|
        invariant 0 <= k <= |runs| == |old(runs)|
        invariant forall j :: 0 <= j < k ==>
                    runs[j] == if j in captured then RequestCancel(old(runs)[j]) else old(runs)[j]
        invariant runs[k..] == old(runs)[k..]
        invariant active == old(active) && stops == old(stops) && log == old(log) && used == old(used)
      {
        assert runs[k] == runs[k..][0] == old(runs)[k..][0] == old(runs)[k];
        if k in captured { runs := runs[k := RequestCancel(runs[k])]; }
        k := k + 1;
      }
      if active != map[] { stops := stops + [captured]; }
    }

    method EndStop(call: nat)
      requires call < |stops|
      modifies this
      ensures State() == StopEnd(old(State()), call)
    {
      active := map[];
      stops := stops[..call] + stops[call + 1..];
    }
  }
}
