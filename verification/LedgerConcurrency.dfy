/** Calls of many threads in many processes at once: the lock protocol, the file, and where
    each caller's call is between its scan and its barrier
    (src/deepr/backends/quota_ledger.py). */
module LedgerConcurrency {
  import opened Options
  import opened Json
  import opened QuotaEvents
  import opened LedgerLog
  import opened QuotaLedgers
  import L = LedgerLocks

  datatype Request =
    | RecordEvent(e: QuotaEvent, requireFsync: bool, env: Env)
    | GetEvents(env: Env)

  /** Where a caller's call is. A scan's result is held until the call acts on it, and a line is
      written in pieces. */
  datatype Body =
    | Idle
    | Asked(request: Request)
    | Scanned(request: Request, result: ScanResult)
    | Writing(request: Request, written: nat)
    | Answered

  /** What has happened, in the order of the bodies: a call and the outcome it was given, a call
      cut short by the death of its process, a crash, or what a reader saw. */
  datatype Entry =
    | Acted(action: Action, outcome: Option<Outcome>)
    | Saw(env: Env, events: Option<seq<QuotaEvent>>)

  datatype World = World(locks: L.State, disk: Disk, bodies: seq<Body>, history: seq<Entry>)

  function Init(process: seq<nat>): World {
    World(L.Init(process), FRESH, seq(|process|, _ => Idle), [])
  }

  /** Unfiltered `get_events`; `None` is its uncaught error. */
  function Listing(content: seq<Sym>, env: Env): Option<seq<QuotaEvent>> {
    if exists l <- Lines(content) :: Read(l, env).Fails? then None else Some(Rows(Lines(content), env))
  }

  datatype Event =
    | Ask(caller: nat, request: Request)
    | Lock(event: L.Event)
    | ScanFile(caller: nat, readOk: bool)
    | Resolve(caller: nat)                // acts on a scan that calls for no access to the file
    | Write(caller: nat, count: nat)      // the next symbols of the line
    | WriteFails(caller: nat)
    | Close(caller: nat)                  // the whole line is written and no barrier is asked for
    | Barrier(caller: nat, ok: bool)
    | ListRows(caller: nat)
    | PowerLoss(keep: nat)                // every process dies and the file loses its end

  // ----- Steps -----

  predicate InBody(w: World, i: nat) {
    i < |w.locks.pc| && i < |w.bodies| && w.locks.pc[i] == L.InBody
  }

  predicate ValidCall(r: Request) { r.RecordEvent? && ValidRequest(r.e) && Finite(JObj(r.e.metadata)) }

  ghost predicate NativeCall(r: Request) { r.RecordEvent? ==> NativeMetadata(r.e) }

  /** The call is about to append: its scan was clear and found no match. */
  predicate Appending(b: Body) {
    (b.Scanned? && b.request.RecordEvent? && b.result == Clear(None)) || (b.Writing? && b.request.RecordEvent?)
  }

  function WrittenBy(b: Body): nat { if b.Writing? then b.written else 0 }

  predicate Replaying(b: Body) { b.Scanned? && b.request.RecordEvent? && b.result.Clear? && b.result.found.Some? }

  predicate LockEnabled(w: World, ev: L.Event) {
    && ev.caller < |w.bodies|
    && match ev
       case AcquireThread(i) => w.bodies[i].Asked?
       case ThreadTimeout(i) => w.bodies[i].Asked?
       case EndBody(i, _) => w.bodies[i].Answered?
       case _ => true
  }

  ghost predicate Enabled(w: World, process: seq<nat>, ev: Event)
    requires |w.locks.pc| == |process| == |w.bodies|
  {
    match ev
    case Ask(i, r) => i < |process| && w.locks.pc[i] == L.Outside && w.bodies[i] == Idle && NativeCall(r)
    case Lock(lock) => L.Enabled(w.locks, process, lock) && LockEnabled(w, lock)
    case ScanFile(i, _) => InBody(w, i) && w.bodies[i].Asked? && w.bodies[i].request.RecordEvent?
    case Resolve(i) =>
      && InBody(w, i) && w.bodies[i].Scanned? && w.bodies[i].request.RecordEvent?
      && (!w.bodies[i].result.Clear? || (Replaying(w.bodies[i]) && !w.bodies[i].request.requireFsync))
    case Write(i, n) =>
      InBody(w, i) && Appending(w.bodies[i]) && WrittenBy(w.bodies[i]) + n <= |Appended(w.bodies[i].request.e)|
    case WriteFails(i) => InBody(w, i) && Appending(w.bodies[i])
    case Close(i) =>
      && InBody(w, i) && Appending(w.bodies[i]) && !w.bodies[i].request.requireFsync
      && WrittenBy(w.bodies[i]) == |Appended(w.bodies[i].request.e)|
    case Barrier(i, _) =>
      && InBody(w, i) && (Replaying(w.bodies[i]) || Appending(w.bodies[i])) && w.bodies[i].request.requireFsync
      && (Appending(w.bodies[i]) ==> WrittenBy(w.bodies[i]) == |Appended(w.bodies[i].request.e)|)
    case ListRows(i) => InBody(w, i) && w.bodies[i].Asked? && w.bodies[i].request.GetEvents?
    case PowerLoss(keep) => w.disk.durable <= keep <= |w.disk.content|
  }

  /** The call that a writing body amounts to so far. */
  function PendingOf(b: Body): seq<Entry> {
    if b.Writing? && b.request.RecordEvent? then
      [Acted(Call(b.request.e, b.request.requireFsync, Io(true, false, b.written, false), b.request.env), None)]
    else []
  }

  /** The unfinished call of whoever holds the file lock. */
  function Pending(w: World): seq<Entry> {
    if w.locks.fileLock.HeldBy? && w.locks.fileLock.caller < |w.bodies|
    then PendingOf(w.bodies[w.locks.fileLock.caller])
    else []
  }

  /** Caller `i` is answered: the call, what the system did to it and its outcome. */
  function Conclude(w: World, i: nat, io: Io, outcome: Outcome, disk: Disk): World
    requires i < |w.bodies| && (w.bodies[i].Asked? || w.bodies[i].Scanned? || w.bodies[i].Writing?)
    requires w.bodies[i].request.RecordEvent?
  {
    var r := w.bodies[i].request;
    w.(disk := disk, bodies := w.bodies[i := Answered],
       history := w.history + [Acted(Call(r.e, r.requireFsync, io, r.env), Some(outcome))])
  }

  function LockStep(w: World, process: seq<nat>, ev: L.Event): World
    requires |w.locks.pc| == |process| == |w.bodies|
    requires L.Enabled(w.locks, process, ev)
  {
    var w' := w.(locks := L.Step(w.locks, process, ev));
    match ev
    case ThreadTimeout(i) => w'.(bodies := w.bodies[i := Idle])
    case FileFails(i) => w'.(bodies := w.bodies[i := Idle])
    case ReleaseThread(i) => w'.(bodies := w.bodies[i := Idle])
    case Dies(i) =>
      var p := process[i];
      w'.(bodies := seq(|w.bodies|, j requires 0 <= j < |w.bodies| => if process[j] == p then Idle else w.bodies[j]),
          history := w.history + if HolderIn(w, process, p) then Pending(w) else [])
    case _ => w'
  }

  /** The holder of the file lock is a caller in process `p`. */
  predicate HolderIn(w: World, process: seq<nat>, p: nat) {
    w.locks.fileLock.HeldBy? && w.locks.fileLock.caller < |process| && process[w.locks.fileLock.caller] == p
  }

  function ScanStep(w: World, i: nat, readOk: bool): World
    requires InBody(w, i) && w.bodies[i].Asked? && w.bodies[i].request.RecordEvent?
  {
    var r := w.bodies[i].request;
    if !readOk then Conclude(w, i, Io(false, true, 0, true), ReadError, w.disk)
    else w.(bodies := w.bodies[i := Scanned(r, Scan(Lines(w.disk.content), r.e, None, r.env))])
  }

  function ResolveStep(w: World, i: nat): World
    requires InBody(w, i) && w.bodies[i].Scanned? && w.bodies[i].request.RecordEvent?
    requires !w.bodies[i].result.Clear? || Replaying(w.bodies[i])
  {
    match w.bodies[i].result
    case Corrupt => Conclude(w, i, GOOD, ReadError, w.disk)
    case Conflict => Conclude(w, i, GOOD, IdempotencyConflict, w.disk)
    case Clear(found) => Conclude(w, i, GOOD, Accepted(found.value), w.disk)
  }

  function WriteStep(w: World, i: nat, n: nat): World
    requires InBody(w, i) && Appending(w.bodies[i])
    requires WrittenBy(w.bodies[i]) + n <= |Appended(w.bodies[i].request.e)|
  {
    var r, k := w.bodies[i].request, WrittenBy(w.bodies[i]);
    w.(disk := Disk(w.disk.content + Appended(r.e)[k..k + n], w.disk.durable),
      bodies := w.bodies[i := Writing(r, k + n)])
  }

  function BarrierStep(w: World, i: nat, ok: bool): World
    requires InBody(w, i) && (Replaying(w.bodies[i]) || Appending(w.bodies[i]))
  {
    var b := w.bodies[i];
    if !ok then Conclude(w, i, Io(true, true, 0, false), DurabilityError, w.disk)
    else
      Conclude(w, i, GOOD, Accepted(if Replaying(b) then b.result.found.value else b.request.e),
               Disk(w.disk.content, |w.disk.content|))
  }

  function PowerLossStep(w: World, process: seq<nat>, keep: nat): World
    requires w.disk.durable <= keep <= |w.disk.content|
  {
    World(L.Init(process), Disk(w.disk.content[..keep], w.disk.durable), seq(|process|, _ => Idle),
          w.history + Pending(w) + [Acted(Crash(keep), None)])
  }

  ghost function Step(w: World, process: seq<nat>, ev: Event): World
    requires |w.locks.pc| == |process| == |w.bodies| && Enabled(w, process, ev)
  {
    match ev
    case Ask(i, r) =>
      if r.RecordEvent? && !ValidCall(r) then
        w.(history := w.history + [Acted(Call(r.e, r.requireFsync, GOOD, r.env), Some(InvalidRequest))])
      else w.(bodies := w.bodies[i := Asked(r)])
    case Lock(lock) => LockStep(w, process, lock)
    case ScanFile(i, readOk) => ScanStep(w, i, readOk)
    case Resolve(i) => ResolveStep(w, i)
    case Write(i, n) => WriteStep(w, i, n)
    case WriteFails(i) => Conclude(w, i, Io(true, false, WrittenBy(w.bodies[i]), false), WriteError, w.disk)
    case Close(i) => Conclude(w, i, GOOD, Accepted(w.bodies[i].request.e), w.disk)
    case Barrier(i, ok) => BarrierStep(w, i, ok)
    case ListRows(i) =>
      var env := w.bodies[i].request.env;
      w.(bodies := w.bodies[i := Answered], history := w.history + [Saw(env, Listing(w.disk.content, env))])
    case PowerLoss(keep) => PowerLossStep(w, process, keep)
  }

  /** The states that some interleaving reaches. */
  ghost predicate Reaches(w: World, process: seq<nat>, events: seq<Event>, last: World)
    decreases |events|
  {
    |w.locks.pc| == |process| == |w.bodies| &&
    if events == [] then last == w
    else Enabled(w, process, events[0]) && Reaches(Step(w, process, events[0]), process, events[1..], last)
  }

  // ----- The sequential ledger behind a history -----

  function Actions(history: seq<Entry>): seq<QuotaLedgers.Action> {
    if history == [] then []
    else (if history[0].Acted? then [history[0].action] else []) + Actions(history[1..])
  }

  /** The file after the actions of a history, one at a time. */
  function Base(history: seq<Entry>): Disk { QuotaLedgers.Run(FRESH, Actions(history)) }

  /** An entry tells what the sequential ledger would have answered at its place. */
  ghost predicate EntryOk(history: seq<Entry>, k: nat)
    requires k < |history|
  {
    match history[k]
    case Acted(Call(e, requireFsync, io, env), Some(outcome)) =>
      outcome == RecordCall(Base(history[..k]), e, requireFsync, io, env).1
    case Acted(_, _) => true
    case Saw(env, events) => events == Listing(Base(history[..k]).content, env)
  }

  ghost predicate Sequential(history: seq<Entry>) { forall k: nat :: k < |history| ==> EntryOk(history, k) }

  ghost predicate SoundHistory(history: seq<Entry>) { forall x <- history :: x.Acted? ==> Sound(x.action) }

  lemma {:induction false} ActionsConcat(a: seq<Entry>, b: seq<Entry>)
    ensures Actions(a + b) == Actions(a) + Actions(b)
  {
    if a == [] {
      assert a + b == b;
    } else {
      assert (a + b)[0] == a[0] && (a + b)[1..] == a[1..] + b;
      ActionsConcat(a[1..], b);
    }
  }

  lemma {:induction false} RunConcat(d: Disk, a: seq<QuotaLedgers.Action>, b: seq<QuotaLedgers.Action>)
    ensures QuotaLedgers.Run(d, a + b) == QuotaLedgers.Run(QuotaLedgers.Run(d, a), b)
    decreases |a|
  {
    if a == [] {
      assert a + b == b;
    } else {
      hide QuotaLedgers.Step;
      assert (a + b)[0] == a[0] && (a + b)[1..] == a[1..] + b;
      RunConcat(QuotaLedgers.Step(d, a[0]), a[1..], b);
    }
  }

  lemma BaseSnoc(history: seq<Entry>, x: Entry)
    ensures Base(history + [x]) == if x.Acted? then QuotaLedgers.Step(Base(history), x.action) else Base(history)
  {
    hide QuotaLedgers.Step;
    ActionsConcat(history, [x]);
    assert [x][1..] == [];
    RunConcat(FRESH, Actions(history), Actions([x]));
    if x.Acted? { assert [x.action][1..] == []; }
  }

  lemma SequentialSnoc(history: seq<Entry>, x: Entry)
    requires Sequential(history) && EntryOk(history + [x], |history|)
    ensures Sequential(history + [x])
  {
    hide RecordCall, Base, Listing;
    var more := history + [x];
    forall k: nat | k < |more| ensures EntryOk(more, k) {
      if k < |history| {
        assert EntryOk(history, k) && more[..k] == history[..k] && more[k] == history[k];
      }
    }
  }

  // ----- The invariant -----

  /** Only the caller in the body has scanned or written, and each stage of a call matches the
      caller's place in the lock protocol. */
  ghost predicate BodyOk(b: Body, pc: L.Pc) {
    && (b.Asked? || b.Scanned? || b.Writing? ==>
          (b.request.RecordEvent? ==> ValidCall(b.request) && NativeCall(b.request)))
    && (b.Scanned? || b.Writing? ==> b.request.RecordEvent?)
    && match pc
       case Outside => b.Idle? || b.Asked?
       case WaitingForFile => b.Asked?
       case InBody => !b.Idle?
       case Leaving => b.Answered?
  }

  /** What the caller in the body knows of the file: the result it holds is still the scan of
      the file as it is; and a writer's line comes after a file whose scan was clear. */
  ghost predicate KnowsFile(b: Body, disk: Disk, base: Disk) {
    && (b.Scanned? && b.request.RecordEvent? ==>
          b.result == Scan(Lines(disk.content), b.request.e, None, b.request.env))
    && (b.Writing? && b.request.RecordEvent? ==>
          && b.written <= |Appended(b.request.e)|
          && Scan(Lines(base.content), b.request.e, None, b.request.env) == Clear(None)
          && disk == Disk(base.content + Appended(b.request.e)[..b.written], base.durable))
    && (!b.Writing? ==> disk == base)
  }

  ghost predicate Inv(w: World, process: seq<nat>) {
    && L.Inv(w.locks, process) && |w.bodies| == |process|
    && (forall i :: 0 <= i < |process| ==> BodyOk(w.bodies[i], w.locks.pc[i]))
    && (forall i :: 0 <= i < |process| && w.locks.pc[i] == L.InBody ==> KnowsFile(w.bodies[i], w.disk, Base(w.history)))
    && ((forall i :: 0 <= i < |process| ==> w.locks.pc[i] != L.InBody) ==> w.disk == Base(w.history))
    && Valid(Base(w.history)) && Sequential(w.history) && SoundHistory(w.history)
  }

  lemma InitInv(process: seq<nat>)
    ensures Inv(Init(process), process)
  {
    hide RecordCall, Scan;
    assert L.Inv(L.Init(process), process);
  }

  /** Only one caller is in the body. */
  lemma OneInBody(w: World, process: seq<nat>, i: nat)
    requires Inv(w, process) && InBody(w, i)
    ensures i < |process| && w.locks.fileLock == L.HeldBy(i) && BodyOk(w.bodies[i], L.InBody)
    ensures KnowsFile(w.bodies[i], w.disk, Base(w.history))
    ensures forall j :: 0 <= j < |process| && j != i ==> w.locks.pc[j] != L.InBody
  {
    hide KnowsFile, BodyOk, Sequential, SoundHistory, Base;
  }

  lemma InvShape(w: World, process: seq<nat>)
    requires Inv(w, process)
    ensures |w.locks.pc| == |process| == |w.bodies|
  {
  }

  lemma InvHistory(w: World, process: seq<nat>)
    requires Inv(w, process)
    ensures Valid(Base(w.history)) && Sequential(w.history) && SoundHistory(w.history)
  {
  }

  /** The caller in the body moves on: what it then holds and knows is all there is to show. */
  lemma BodyMoves(w: World, process: seq<nat>, i: nat, b: Body, disk: Disk, history: seq<Entry>)
    requires Inv(w, process) && InBody(w, i)
    requires BodyOk(b, L.InBody) && KnowsFile(b, disk, Base(history))
    requires Valid(Base(history)) && Sequential(history) && SoundHistory(history)
    ensures Inv(w.(disk := disk, bodies := w.bodies[i := b], history := history), process)
  {
    OneInBody(w, process, i);
    hide L.Inv, BodyOk, KnowsFile, Base, Valid, Sequential, SoundHistory;
  }

  /** An answer that the sequential ledger would give at this point keeps the invariant. */
  lemma ConcludeKeeps(w: World, process: seq<nat>, i: nat, io: Io, outcome: Outcome, disk: Disk)
    requires Inv(w, process) && InBody(w, i)
    requires (w.bodies[i].Asked? || w.bodies[i].Scanned? || w.bodies[i].Writing?) && w.bodies[i].request.RecordEvent?
    requires var r := w.bodies[i].request;
             RecordCall(Base(w.history), r.e, r.requireFsync, io, r.env) == (disk, outcome)
    ensures Inv(Conclude(w, i, io, outcome, disk), process)
  {
    hide RecordCall, Base, Scan, Sequential, SoundHistory, ValidCall, NativeMetadata, Appended, Lines, Valid, Inv;
    OneInBody(w, process, i);
    InvHistory(w, process);
    var r := w.bodies[i].request;
    var x := Acted(Call(r.e, r.requireFsync, io, r.env), Some(outcome));
    EntryKeeps(w.history, x, disk);
    BodyMoves(w, process, i, Answered, disk, w.history + [x]);
  }

  lemma EntryKeeps(history: seq<Entry>, x: Entry, disk: Disk)
    requires Valid(Base(history)) && Sequential(history) && SoundHistory(history)
    requires x.Acted? && x.action.Call? && NativeMetadata(x.action.e)
    requires RecordCall(Base(history), x.action.e, x.action.requireFsync, x.action.io, x.action.env).0 == disk
    requires x.outcome.Some? ==>
               x.outcome.value
               == RecordCall(Base(history), x.action.e, x.action.requireFsync, x.action.io, x.action.env).1
    ensures Base(history + [x]) == disk
    ensures Valid(Base(history + [x])) && Sequential(history + [x]) && SoundHistory(history + [x])
  {
    var k := CallShape(Base(history), x.action.e, x.action.requireFsync, x.action.io, x.action.env);
    hide RecordCall, Base, Appended, Lines, NativeMetadata, ValidRequest, AllAcceptable, Scan;
    BaseSnoc(history, x);
    assert (history + [x])[..|history|] == history;
    SequentialSnoc(history, x);
  }

  // ----- What the sequential ledger answers -----

  lemma UnreadCall(d: Disk, r: Request, io: Io)
    requires ValidCall(r) && !io.readOk
    ensures RecordCall(d, r.e, r.requireFsync, io, r.env) == (d, ReadError)
  {
    hide ValidRequest, Finite, Scan;
  }

  lemma ScannedCall(d: Disk, r: Request)
    requires ValidCall(r)
    ensures var result := Scan(Lines(d.content), r.e, None, r.env);
            && (result.Corrupt? ==> RecordCall(d, r.e, r.requireFsync, GOOD, r.env) == (d, ReadError))
            && (result.Conflict? ==> RecordCall(d, r.e, r.requireFsync, GOOD, r.env) == (d, IdempotencyConflict))
            && (result.Clear? && result.found.Some? && !r.requireFsync ==>
                  RecordCall(d, r.e, r.requireFsync, GOOD, r.env) == (d, Accepted(result.found.value)))
            && (result.Clear? && result.found.Some? && r.requireFsync ==>
                  && RecordCall(d, r.e, true, GOOD, r.env)
                     == (Disk(d.content, |d.content|), Accepted(result.found.value))
                  && RecordCall(d, r.e, true, Io(true, true, 0, false), r.env) == (d, DurabilityError))
  {
    hide ValidRequest, Finite, Scan, SplitLines;
  }

  lemma AppendingCall(base: Disk, r: Request, k: nat)
    requires ValidCall(r) && Scan(Lines(base.content), r.e, None, r.env) == Clear(None) && k <= |Appended(r.e)|
    ensures RecordCall(base, r.e, r.requireFsync, Io(true, false, k, false), r.env)
            == (Disk(base.content + Appended(r.e)[..k], base.durable), WriteError)
    ensures var whole := base.content + Appended(r.e)[..|Appended(r.e)|];
            && (!r.requireFsync ==>
                  RecordCall(base, r.e, r.requireFsync, GOOD, r.env) == (Disk(whole, base.durable), Accepted(r.e)))
            && (r.requireFsync ==>
                  && RecordCall(base, r.e, r.requireFsync, GOOD, r.env) == (Disk(whole, |whole|), Accepted(r.e))
                  && RecordCall(base, r.e, r.requireFsync, Io(true, true, 0, false), r.env)
                     == (Disk(whole, base.durable), DurabilityError))
  {
    hide ValidRequest, Finite, Scan, SplitLines, Appended;
    assert Appended(r.e)[..|Appended(r.e)|] == Appended(r.e);
  }

  /** A writer's file is the file before it and the part written so far. */
  lemma AppenderKnows(w: World, process: seq<nat>, i: nat)
    requires Inv(w, process) && InBody(w, i) && Appending(w.bodies[i])
    ensures var b, base := w.bodies[i], Base(w.history);
            && ValidCall(b.request) && NativeCall(b.request)
            && Scan(Lines(base.content), b.request.e, None, b.request.env) == Clear(None)
            && WrittenBy(b) <= |Appended(b.request.e)|
            && w.disk == Disk(base.content + Appended(b.request.e)[..WrittenBy(b)], base.durable)
  {
    OneInBody(w, process, i);
    hide Base, Scan, Lines, Appended, ValidRequest, NativeMetadata, Finite;
    var base := Base(w.history);
    assert base.content + Appended(w.bodies[i].request.e)[..0] == base.content;
  }

  // ----- Each step -----

  lemma ScanKeeps(w: World, process: seq<nat>, i: nat, readOk: bool)
    requires Inv(w, process) && InBody(w, i) && w.bodies[i].Asked? && w.bodies[i].request.RecordEvent?
    ensures Inv(ScanStep(w, i, readOk), process)
  {
    hide RecordCall, Base, Scan, Sequential, SoundHistory, ValidRequest, NativeMetadata, Appended, Lines, Valid, Inv,
         Finite;
    OneInBody(w, process, i);
    InvHistory(w, process);
    if !readOk {
      UnreadCall(w.disk, w.bodies[i].request, Io(false, true, 0, true));
      ConcludeKeeps(w, process, i, Io(false, true, 0, true), ReadError, w.disk);
    } else {
      BodyMoves(w, process, i, ScanStep(w, i, readOk).bodies[i], w.disk, w.history);
    }
  }

  lemma ResolveKeeps(w: World, process: seq<nat>, i: nat)
    requires Inv(w, process) && InBody(w, i) && w.bodies[i].Scanned? && w.bodies[i].request.RecordEvent?
    requires !w.bodies[i].result.Clear? || (Replaying(w.bodies[i]) && !w.bodies[i].request.requireFsync)
    ensures Inv(ResolveStep(w, i), process)
  {
    OneInBody(w, process, i);
    hide RecordCall, Base, Scan, Sequential, SoundHistory, ValidRequest, NativeMetadata, Appended, Lines, Valid,
         L.Inv, Finite;
    ScannedCall(w.disk, w.bodies[i].request);
    match w.bodies[i].result
    case Corrupt => ConcludeKeeps(w, process, i, GOOD, ReadError, w.disk);
    case Conflict => ConcludeKeeps(w, process, i, GOOD, IdempotencyConflict, w.disk);
    case Clear(found) => ConcludeKeeps(w, process, i, GOOD, Accepted(found.value), w.disk);
  }

  lemma WriteKeeps(w: World, process: seq<nat>, i: nat, n: nat)
    requires Inv(w, process) && InBody(w, i) && Appending(w.bodies[i])
    requires WrittenBy(w.bodies[i]) + n <= |Appended(w.bodies[i].request.e)|
    ensures Inv(WriteStep(w, i, n), process)
  {
    hide RecordCall, Base, Scan, Sequential, SoundHistory, ValidRequest, NativeMetadata, Appended, Lines, Valid, Inv,
         Finite;
    OneInBody(w, process, i);
    InvHistory(w, process);
    AppenderKnows(w, process, i);
    var r, k, base := w.bodies[i].request, WrittenBy(w.bodies[i]), Base(w.history);
    var text := Appended(r.e);
    assert base.content + text[..k] + text[k..k + n] == base.content + text[..k + n];
    BodyMoves(w, process, i, Writing(r, k + n), WriteStep(w, i, n).disk, w.history);
  }

  lemma AppendEndKeeps(w: World, process: seq<nat>, i: nat, io: Io, outcome: Outcome, disk: Disk)
    requires Inv(w, process) && InBody(w, i) && Appending(w.bodies[i])
    requires var r, k := w.bodies[i].request, WrittenBy(w.bodies[i]);
             || (io == Io(true, false, k, false) && outcome == WriteError && disk == w.disk)
             || (k == |Appended(r.e)| && !r.requireFsync && io == GOOD && outcome == Accepted(r.e) && disk == w.disk)
             || (k == |Appended(r.e)| && r.requireFsync && io == GOOD && outcome == Accepted(r.e)
                 && disk == Disk(w.disk.content, |w.disk.content|))
             || (k == |Appended(r.e)| && r.requireFsync && io == Io(true, true, 0, false) && outcome == DurabilityError
                 && disk == w.disk)
    ensures Inv(Conclude(w, i, io, outcome, disk), process)
  {
    OneInBody(w, process, i);
    AppenderKnows(w, process, i);
    hide RecordCall, Base, Scan, Sequential, SoundHistory, ValidRequest, NativeMetadata, Appended, Lines, Valid,
         L.Inv, Finite;
    AppendingCall(Base(w.history), w.bodies[i].request, WrittenBy(w.bodies[i]));
    ConcludeKeeps(w, process, i, io, outcome, disk);
  }

  lemma BarrierKeeps(w: World, process: seq<nat>, i: nat, ok: bool)
    requires Inv(w, process) && InBody(w, i) && (Replaying(w.bodies[i]) || Appending(w.bodies[i]))
    requires w.bodies[i].request.requireFsync
    requires Appending(w.bodies[i]) ==> WrittenBy(w.bodies[i]) == |Appended(w.bodies[i].request.e)|
    ensures Inv(BarrierStep(w, i, ok), process)
  {
    OneInBody(w, process, i);
    hide RecordCall, Base, Scan, Sequential, SoundHistory, ValidRequest, NativeMetadata, Appended, Lines, Valid,
         L.Inv, Finite;
    var io := if ok then GOOD else Io(true, true, 0, false);
    var disk := if ok then Disk(w.disk.content, |w.disk.content|) else w.disk;
    if Replaying(w.bodies[i]) {
      ScannedCall(w.disk, w.bodies[i].request);
      ConcludeKeeps(w, process, i, io, if ok then Accepted(w.bodies[i].result.found.value) else DurabilityError, disk);
    } else {
      AppendEndKeeps(w, process, i, io, if ok then Accepted(w.bodies[i].request.e) else DurabilityError, disk);
    }
  }

  lemma ListKeeps(w: World, process: seq<nat>, i: nat)
    requires Inv(w, process) && InBody(w, i) && w.bodies[i].Asked? && w.bodies[i].request.GetEvents?
    ensures var env := w.bodies[i].request.env;
            Inv(w.(bodies := w.bodies[i := Answered],
              history := w.history + [Saw(env, Listing(w.disk.content, env))]), process)
  {
    hide RecordCall, Base, Scan, ValidRequest, NativeMetadata, Appended, Lines, Valid, Inv, Finite, Listing, Sequential;
    OneInBody(w, process, i);
    InvHistory(w, process);
    var x := Saw(w.bodies[i].request.env, Listing(w.disk.content, w.bodies[i].request.env));
    BaseSnoc(w.history, x);
    assert (w.history + [x])[..|w.history|] == w.history;
    SequentialSnoc(w.history, x);
    BodyMoves(w, process, i, Answered, w.disk, w.history + [x]);
  }

  lemma AskKeeps(w: World, process: seq<nat>, i: nat, r: Request)
    requires Inv(w, process) && Enabled(w, process, Ask(i, r))
    ensures Inv(Step(w, process, Ask(i, r)), process)
  {
    hide Base, Scan, Appended, Lines, ValidRequest, NativeMetadata, Finite;
    if r.RecordEvent? && !ValidCall(r) {
      var x := Acted(Call(r.e, r.requireFsync, GOOD, r.env), Some(InvalidRequest));
      EntryKeeps(w.history, x, Base(w.history));
    }
    hide RecordCall, Sequential, SoundHistory, Valid, L.Inv;
  }

  /** The lock steps move no body forward, and the file only in so far as a dying writer's part
      of a line becomes an entry of the history. */
  lemma LockKeeps(w: World, process: seq<nat>, ev: L.Event)
    requires Inv(w, process) && L.Enabled(w.locks, process, ev) && LockEnabled(w, ev)
    ensures Inv(LockStep(w, process, ev), process)
  {
    L.StepKeepsInv(w.locks, process, ev);
    if ev.Dies? {
      DeathKeeps(w, process, ev.caller);
    } else {
      hide RecordCall, Base, Scan, Sequential, SoundHistory, ValidCall, NativeMetadata, Appended, Lines, Valid;
      LockMoves(w, process, ev);
    }
  }

  lemma LockMoves(w: World, process: seq<nat>, ev: L.Event)
    requires Inv(w, process) && L.Enabled(w.locks, process, ev) && LockEnabled(w, ev) && !ev.Dies?
    requires L.Inv(L.Step(w.locks, process, ev), process)
    ensures Inv(LockStep(w, process, ev), process)
  {
    hide RecordCall, Base, Scan, Sequential, SoundHistory, ValidCall, NativeMetadata, Appended, Lines, Valid;
    var i := ev.caller;
    var w' := LockStep(w, process, ev);
    assert BodyOk(w.bodies[i], w.locks.pc[i]);
    forall j | 0 <= j < |process| ensures BodyOk(w'.bodies[j], w'.locks.pc[j]) {
      assert BodyOk(w.bodies[j], w.locks.pc[j]);
    }
  }

  /** The history once the holder's unfinished call, if any, counts as an entry. */
  lemma PendingKeeps(w: World, process: seq<nat>)
    requires Inv(w, process)
    ensures var h := w.history + Pending(w);
            && Base(h) == w.disk && Valid(Base(h)) && Sequential(h) && SoundHistory(h)
  {
    hide RecordCall, Base, Scan, Sequential, SoundHistory, ValidRequest, NativeMetadata, Appended, Lines, Valid, Finite;
    if Pending(w) == [] {
      assert w.history + Pending(w) == w.history;
      NothingPending(w, process);
    } else {
      var i := w.locks.fileLock.caller;
      HolderInBody(w, process);
      var b := w.bodies[i];
      AppenderKnows(w, process, i);
      AppendingCall(Base(w.history), b.request, b.written);
      EntryKeeps(w.history, Pending(w)[0], w.disk);
    }
  }

  lemma HolderInBody(w: World, process: seq<nat>)
    requires Inv(w, process) && w.locks.fileLock.HeldBy?
    ensures w.locks.fileLock.caller < |process| && InBody(w, w.locks.fileLock.caller)
  {
    hide BodyOk, KnowsFile, Base, Sequential, SoundHistory;
  }

  lemma NothingPending(w: World, process: seq<nat>)
    requires Inv(w, process) && Pending(w) == []
    ensures w.disk == Base(w.history)
  {
    hide RecordCall, Base, Scan, Sequential, SoundHistory, ValidCall, NativeMetadata, Appended, Lines, Valid;
    if w.locks.fileLock.HeldBy? {
      HolderInBody(w, process);
      OneInBody(w, process, w.locks.fileLock.caller);
    }
  }

  lemma DeathKeeps(w: World, process: seq<nat>, i: nat)
    requires Inv(w, process) && i < |process|
    requires L.Inv(L.Step(w.locks, process, L.Dies(i)), process)
    ensures Inv(LockStep(w, process, L.Dies(i)), process)
  {
    hide RecordCall, Base, Scan, Sequential, SoundHistory, ValidCall, NativeMetadata, Appended, Lines, Valid;
    var p := process[i];
    var w' := LockStep(w, process, L.Dies(i));
    PendingKeeps(w, process);
    assert w.history + [] == w.history;
    forall j | 0 <= j < |process| ensures BodyOk(w'.bodies[j], w'.locks.pc[j]) {
      assert BodyOk(w.bodies[j], w.locks.pc[j]);
    }
    if HolderIn(w, process, p) {
      HolderInBody(w, process);
      OneInBody(w, process, w.locks.fileLock.caller);
    } else if !w.locks.fileLock.HeldBy? {
      assert Pending(w) == [];
    }
  }

  lemma PowerLossKeeps(w: World, process: seq<nat>, keep: nat)
    requires Inv(w, process) && w.disk.durable <= keep <= |w.disk.content|
    ensures Inv(PowerLossStep(w, process, keep), process)
  {
    hide RecordCall, Scan, ValidCall, NativeMetadata, Appended, Lines;
    InitInv(process);
    hide Sequential, Base;
    PendingKeeps(w, process);
    var h, x := w.history + Pending(w), Acted(Crash(keep), None);
    BaseSnoc(h, x);
    SequentialSnoc(h, x);
  }

  lemma StepKeeps(w: World, process: seq<nat>, ev: Event)
    requires Inv(w, process) && Enabled(w, process, ev)
    ensures Inv(Step(w, process, ev), process)
  {
    hide Inv, LockStep, ScanStep, ResolveStep, WriteStep, BarrierStep, PowerLossStep, Conclude, RecordCall, Scan,
         Appended, Lines, ValidCall, NativeMetadata;
    InvShape(w, process);
    match ev
    case Ask(i, r) => AskKeeps(w, process, i, r);
    case Lock(lock) => LockKeeps(w, process, lock);
    case ScanFile(i, readOk) => ScanKeeps(w, process, i, readOk);
    case Resolve(i) => ResolveKeeps(w, process, i);
    case Write(i, n) => WriteKeeps(w, process, i, n);
    case WriteFails(i) =>
      AppendEndKeeps(w, process, i, Io(true, false, WrittenBy(w.bodies[i]), false), WriteError, w.disk);
    case Close(i) => AppendEndKeeps(w, process, i, GOOD, Accepted(w.bodies[i].request.e), w.disk);
    case Barrier(i, ok) => BarrierKeeps(w, process, i, ok);
    case ListRows(i) => ListKeeps(w, process, i);
    case PowerLoss(keep) => PowerLossKeeps(w, process, keep);
  }

  lemma {:induction false} InvHolds(w: World, process: seq<nat>, events: seq<Event>, last: World)
    requires Inv(w, process) && Reaches(w, process, events, last)
    ensures Inv(last, process)
    decreases |events|
  {
    hide Inv, Step, Enabled;
    if events != [] {
      StepKeeps(w, process, events[0]);
      InvHolds(Step(w, process, events[0]), process, events[1..], last);
    }
  }

  // ----- Every interleaving -----

  /** Over all interleavings of all callers in all processes, the calls take effect one at a
      time in the order of their bodies: the file is what the sequential ledger makes of the
      history and the part of a line being written, and every call and every reader was
      answered as the sequential ledger would have answered at its place. */
  lemma CallsTakeEffectInOrder(process: seq<nat>, events: seq<Event>, last: World)
    requires Reaches(Init(process), process, events, last)
    ensures last.disk == QuotaLedgers.Run(FRESH, Actions(last.history + Pending(last)))
    ensures Sequential(last.history)
  {
    hide Inv, Sequential, Reaches, QuotaLedgers.Run;
    InitInv(process);
    InvHolds(Init(process), process, events, last);
    InvHistory(last, process);
    PendingKeeps(last, process);
  }

  /** When a caller acts on its scan, the file is still as it was scanned: a result that is
      held is the scan of the file as it is, and a line is written only behind a file whose
      scan was clear. */
  lemma HeldScanIsCurrent(process: seq<nat>, events: seq<Event>, last: World, i: nat)
    requires Reaches(Init(process), process, events, last) && i < |process|
    ensures |last.bodies| == |process| && KnowsCurrent(last, i)
  {
    hide Reaches, Scan, Appended, Lines, Sequential, SoundHistory;
    InitInv(process);
    InvHolds(Init(process), process, events, last);
    assert BodyOk(last.bodies[i], last.locks.pc[i]);
    hide Base;
  }

  ghost predicate KnowsCurrent(w: World, i: nat)
    requires i < |w.bodies|
  {
    match w.bodies[i]
    case Scanned(RecordEvent(e, _, env), result) => result == Scan(Lines(w.disk.content), e, None, env)
    case Writing(RecordEvent(e, _, env), k) =>
      var before := Base(w.history).content;
      && Scan(Lines(before), e, None, env) == Clear(None)
      && k <= |Appended(e)| && w.disk.content == before + Appended(e)[..k]
    case _ => true
  }

  /** Exactly once: in every state of every interleaving, a write half done included, no two
      readable rows share a non-empty key, and a crash at any point keeps it so. */
  lemma ExactlyOnceInEveryInterleaving(process: seq<nat>, events: seq<Event>, last: World, reader: Env)
    requires Reaches(Init(process), process, events, last)
    ensures UniqueKeys(Rows(Lines(last.disk.content), reader))
    ensures OnceInEveryPrefix(last.disk.content, reader)
  {
    hide Inv, Reaches, QuotaLedgers.Run, Rows, Lines, UniqueKeys, OnceInEveryPrefix, Sound, Sequential;
    InitInv(process);
    InvHolds(Init(process), process, events, last);
    PendingKeeps(last, process);
    var h := last.history + Pending(last);
    ActionsSound(h);
    ExactlyOnceFromEmpty(Actions(h), reader);
  }

  lemma {:induction false} ActionsSound(history: seq<Entry>)
    requires SoundHistory(history)
    ensures forall a <- Actions(history) :: Sound(a)
  {
    hide Sound;
    if history != [] {
      assert history[0] in history;
      forall x | x in history[1..] ensures x in history {}
      ActionsSound(history[1..]);
    }
  }

  /** An acknowledgement outlives every interleaving: once a call with a barrier has been
      accepted on a file that ended in a finished line, or already held the row on one, its
      event is readable in every later state. */
  lemma AcknowledgedInEveryInterleaving(process: seq<nat>, events: seq<Event>, last: World, reader: Env, k: nat)
    requires Reaches(Init(process), process, events, last) && k < |last.history|
    requires var x := last.history[k];
             && x.Acted? && x.action.Call? && x.action.requireFsync && x.outcome.Some? && x.outcome.value.Accepted?
             && var before := Base(last.history[..k]).content;
                CleanTail(before) || OnFinishedLine(before, x.outcome.value.event, reader)
    ensures last.history[k].outcome.value.event in Rows(Lines(last.disk.content), reader)
  {
    hide Inv, Reaches, QuotaLedgers.Run, Rows, Lines, CleanTail, OnFinishedLine, RecordCall, NativeMetadata, Valid;
    InitInv(process);
    InvHolds(Init(process), process, events, last);
    InvHistory(last, process);
    PendingKeeps(last, process);
    var before, x := last.history[..k], last.history[k];
    assert EntryOk(last.history, k);
    assert x in last.history;
    var h := last.history + Pending(last);
    var later := h[k + 1..];
    assert h == before + ([x] + later);
    PrefixIsValid(before, [x] + later);
    AcknowledgedForever(Base(before), x.action.e, x.action.io, x.action.env, reader);
    ActionsConcat(before, [x] + later);
    ActionsConcat([x], later);
    assert [x][1..] == [] && Actions([x]) == [x.action];
    RunConcat(FRESH, Actions(before), [x.action] + Actions(later));
    FirstAction(Base(before), x.action, Actions(later));
    forall y | y in later ensures y in h {}
    ActionsSound(later);
  }

  lemma FirstAction(d: Disk, a: QuotaLedgers.Action, later: seq<QuotaLedgers.Action>)
    ensures QuotaLedgers.Run(d, [a] + later) == QuotaLedgers.Run(QuotaLedgers.Step(d, a), later)
  {
    hide QuotaLedgers.Step;
    assert ([a] + later)[1..] == later;
  }

  lemma PrefixIsValid(before: seq<Entry>, rest: seq<Entry>)
    requires SoundHistory(before + rest)
    ensures Valid(Base(before))
  {
    forall x | x in before ensures x in before + rest {}
    ActionsSound(before);
    hide Sound, RecordCall;
    ExactlyOnceFromEmpty(Actions(before), Env(0, _ => "", _ => None));
  }

  /** The lock is what the result rests on: two callers that scan the same empty file are both
      told to append, and if both do, two readable rows share the key. */
  lemma UnlockedCallsDuplicate(e: QuotaEvent, env: Env, reader: Env)
    requires NativeMetadata(e) && ValidRequest(e) && e.idempotencyKey != ""
    ensures Scan(Lines(FRESH.content), e, None, env) == Clear(None)
    ensures Rows(Lines(Appended(e) + Appended(e)), reader) == [e, e]
    ensures !UniqueKeys(Rows(Lines(Appended(e) + Appended(e)), reader))
  {
    hide StrictRow, Stripped, LineOf, SplitLines, ValidRequest, NativeMetadata, Scan, Rows, Read;
    EmptyFile(env);
    EmptyFile(reader);
    FirstCallIsAcknowledged(e, env, reader);
    JsonFinite(e);
    FreshIsHealthy(reader);
    HealthyAppend(FRESH.content, e, reader);
    assert FRESH.content + Appended(e) == Appended(e);
    assert Appended(e)[..|Appended(e)|] == Appended(e);
    AppendRows(Appended(e), e, |Appended(e)|, reader);
    assert [e] + [e] == [e, e];
    assert [e, e][0].idempotencyKey == [e, e][1].idempotencyKey;
  }

  lemma FreshIsHealthy(env: Env)
    ensures Healthy(FRESH.content, env)
  {
    EmptyFile(env);
    assert Lines([]) == [[]];
  }
}
