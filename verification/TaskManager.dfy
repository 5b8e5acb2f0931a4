/** The A2A task table: admission caps, the transition table and ordered eviction
    (src/deepr/a2a/task_manager.py, src/deepr/a2a/models.py). The ordered dictionary of
    tasks is the sequence of its values. */
module TaskManagers {
  import opened Options

  datatype TaskState = Submitted | Working | Completed | Failed | Cancelled

  predicate Terminal(s: TaskState) { s == Completed || s == Failed || s == Cancelled }

  /** `VALID_TRANSITIONS`. */
  predicate Allowed(from: TaskState, to: TaskState) {
    match from
    case Submitted => to == Working || to == Cancelled
    case Working => Terminal(to)
    case _ => false
  }

  datatype Task = Task(
    id: string,
    state: TaskState,
    skill: string,
    input: string,
    result: Option<string>,
    error: Option<string>,
    cost: real,
    traceId: string,
    artifacts: seq<string>,
    createdAt: int,
    updatedAt: int,
    budgetCap: Option<real>)

  datatype Request = Request(skill: string, input: string, budget: Option<real>)

  /** What a transition may set besides the state. */
  datatype Update = Update(
    result: Option<string>,
    error: Option<string>,
    cost: real,
    traceId: string,
    artifacts: Option<seq<string>>)

  datatype Limits = Limits(maxTerminal: nat, maxActive: nat, maxActiveBytes: nat, maxTaskBytes: nat)

  predicate ValidLimits(l: Limits) {
    l.maxTerminal > 0 && l.maxActive > 0 && l.maxActiveBytes > 0 && l.maxTaskBytes > 0
  }

  datatype TaskError = TooLarge | ActiveLimit | ActiveBytesLimit | NotFound | InvalidTransition

  // ----- Measures -----

  /** The length of a character in UTF-8. */
  function Utf8Width(c: char): nat {
    if c as int < 0x80 then 1 else if c as int < 0x800 then 2 else if c as int < 0x10000 then 3 else 4
  }

  function Utf8Length(s: string): nat { if s == [] then 0 else Utf8Width(s[0]) + Utf8Length(s[1..]) }

  function ActiveCount(tasks: seq<Task>): nat {
    if tasks == [] then 0
    else (if Terminal(tasks[0].state) then 0 else 1) + ActiveCount(tasks[1..])
  }

  function ActiveBytes(tasks: seq<Task>): nat {
    if tasks == [] then 0
    else (if Terminal(tasks[0].state) then 0 else Utf8Length(tasks[0].input)) + ActiveBytes(tasks[1..])
  }

  /** The ids of the terminal tasks, oldest first. */
  function TerminalIds(tasks: seq<Task>): seq<string> {
    if tasks == [] then []
    else (if Terminal(tasks[0].state) then [tasks[0].id] else []) + TerminalIds(tasks[1..])
  }

  function ActiveTasks(tasks: seq<Task>): seq<Task> {
    if tasks == [] then []
    else (if Terminal(tasks[0].state) then [] else [tasks[0]]) + ActiveTasks(tasks[1..])
  }

  // ----- The ordered dictionary -----

  function Find(tasks: seq<Task>, id: string): (r: Option<Task>)
    ensures r.Some? ==> r.value in tasks && r.value.id == id
    ensures r.None? <==> forall t <- tasks :: t.id != id
  {
    if tasks == [] then None
    else if tasks[0].id == id then Some(tasks[0])
    else Find(tasks[1..], id)
  }

  /** `tasks[t.id] = t`. */
  function Put(tasks: seq<Task>, t: Task): seq<Task> {
    if tasks == [] then [t]
    else if tasks[0].id == t.id then [t] + tasks[1..]
    else [tasks[0]] + Put(tasks[1..], t)
  }

  function Without(tasks: seq<Task>, id: string): (r: seq<Task>)
    ensures forall t <- r :: t in tasks
    ensures |r| <= |tasks|
  {
    if tasks == [] then []
    else if tasks[0].id == id then tasks[1..]
    else [tasks[0]] + Without(tasks[1..], id)
  }

  ghost predicate DistinctIds(tasks: seq<Task>) {
    forall i, j :: 0 <= i < j < |tasks| ==> tasks[i].id != tasks[j].id
  }

  // ----- The operations on values -----

  function Admission(tasks: seq<Task>, limits: Limits, input: string): Option<TaskError> {
    if Utf8Length(input) > limits.maxTaskBytes then Some(TooLarge)
    else if ActiveCount(tasks) >= limits.maxActive then Some(ActiveLimit)
    else if ActiveBytes(tasks) + Utf8Length(input) > limits.maxActiveBytes then Some(ActiveBytesLimit)
    else None
  }

  function NewTask(id: string, request: Request, budget: Option<real>, now: int): Task {
    Task(id, Submitted, request.skill, request.input, None, None, 0.0, "", [], now, now,
         if budget.Some? then budget else request.budget)
  }

  function Create(tasks: seq<Task>, limits: Limits, request: Request, budget: Option<real>, id: string, now: int)
    : (seq<Task>, Result<Task, TaskError>)
  {
    match Admission(tasks, limits, request.input)
    case Some(error) => (tasks, Err(error))
    case None =>
      var t := NewTask(id, request, budget, now);
      (Put(tasks, t), Ok(t))
  }

  function Updated(t: Task, to: TaskState, u: Update, now: int): Task {
    t.(state := to, updatedAt := now,
       result := if u.result.Some? then u.result else t.result,
       error := if u.error.Some? then u.error else t.error,
       cost := if u.cost > 0.0 then u.cost else t.cost,
       traceId := if u.traceId != "" then u.traceId else t.traceId,
       artifacts := if u.artifacts.Some? then u.artifacts.value else t.artifacts)
  }

  /** Drops the oldest `excess` terminal tasks. */
  function DropTerminal(tasks: seq<Task>, excess: int): (r: seq<Task>)
    ensures forall t <- r :: t in tasks
  {
    if tasks == [] || excess <= 0 then tasks
    else if Terminal(tasks[0].state) then DropTerminal(tasks[1..], excess - 1)
    else [tasks[0]] + DropTerminal(tasks[1..], excess)
  }

  function Evict(tasks: seq<Task>, limits: Limits): seq<Task> {
    DropTerminal(tasks, |TerminalIds(tasks)| - limits.maxTerminal)
  }

  function Transition(tasks: seq<Task>, limits: Limits, id: string, to: TaskState, u: Update, now: int)
    : (seq<Task>, Result<Task, TaskError>)
  {
    match Find(tasks, id)
    case None => (tasks, Err(NotFound))
    case Some(t) =>
      if !Allowed(t.state, to) then (tasks, Err(InvalidTransition))
      else
        var t' := Updated(t, to, u, now);
        (if Terminal(to) then Evict(Without(tasks, id) + [t'], limits) else Put(tasks, t'), Ok(t'))
  }

  // ----- The class -----

  class TaskManager {
    var tasks: seq<Task>
    const limits: Limits

    constructor (limits: Limits)
      requires ValidLimits(limits)
      ensures tasks == [] && this.limits == limits
    {
      tasks := [];
      this.limits := limits;
    }

    method CreateTask(request: Request, budget: Option<real>, id: string, now: int) returns (r: Result<Task, TaskError>)
      modifies this
      ensures (tasks, r) == Create(old(tasks), limits, request, budget, id, now)
    {
      var inputBytes := Utf8Length(request.input);
      if inputBytes > limits.maxTaskBytes { return Err(TooLarge); }
      var count, bytes := 0, 0;
      var i := |tasks|;
      while i > 0
        invariant 0 <= i <= |tasks|
        invariant count == ActiveCount(tasks[i..]) && bytes == ActiveBytes(tasks[i..])
      {
        i := i - 1;
        assert tasks[i..] == [tasks[i]] + tasks[i + 1..];
        if !Terminal(tasks[i].state) {
          count := count + 1;
          bytes := bytes + Utf8Length(tasks[i].input);
        }
      }
      assert tasks[0..] == tasks;
      if count >= limits.maxActive { return Err(ActiveLimit); }
      if bytes + inputBytes > limits.maxActiveBytes { return Err(ActiveBytesLimit); }
      var t := NewTask(id, request, budget, now);
      tasks := Put(tasks, t);
      return Ok(t);
    }

    method EvictOldTerminal()
      modifies this
      ensures tasks == Evict(old(tasks), limits)
    {
      var terminalCount := |TerminalIds(tasks)|;
      if terminalCount <= limits.maxTerminal { return; }
      var excess := terminalCount - limits.maxTerminal;
      var kept := [];
      var i := 0;
      assert tasks[0..] == tasks && kept + DropTerminal(tasks, excess) == DropTerminal(tasks, excess);
      while i < |tasks| && terminalCount > limits.maxTerminal
        invariant 0 <= i <= |tasks|
        invariant tasks == old(tasks)
        invariant terminalCount >= limits.maxTerminal
        invariant kept + DropTerminal(tasks[i..], terminalCount - limits.maxTerminal) == Evict(tasks, limits)
      {
        var rest := tasks[i..];
        assert rest[0] == tasks[i] && rest[1..] == tasks[i + 1..];
        if Terminal(tasks[i].state) {
          terminalCount := terminalCount - 1;
        } else {
          assert kept + ([tasks[i]] + DropTerminal(rest[1..], terminalCount - limits.maxTerminal))
              == kept + [tasks[i]] + DropTerminal(rest[1..], terminalCount - limits.maxTerminal);
          kept := kept + [tasks[i]];
        }
        i := i + 1;
      }
      tasks := kept + tasks[i..];
    }

    method TransitionTask(id: string, to: TaskState, u: Update, now: int) returns (r: Result<Task, TaskError>)
      modifies this
      ensures (tasks, r) == Transition(old(tasks), limits, id, to, u, now)
    {
      var found := Find(tasks, id);
      if found.None? { return Err(NotFound); }
      var t := found.value;
      if !Allowed(t.state, to) { return Err(InvalidTransition); }
      t := Updated(t, to, u, now);
      if Terminal(to) {
        tasks := Without(tasks, id) + [t];
        EvictOldTerminal();
      } else {
        tasks := Put(tasks, t);
      }
      return Ok(t);
    }
  }
}
