/** The lock protocol around every ledger access: one lock per process and path, then
    the file lock between processes (src/deepr/backends/quota_ledger.py). */
module LedgerLocks {
  /** Where a caller of `_locked` is. */
  datatype Pc =
    | Outside         // not in `_locked`, or returned, or raised
    | WaitingForFile  // holds its process's thread lock
    | InBody          // the caller's code between the locks
    | Leaving         // the file lock has been given up, the thread lock not yet

  /** The file lock; a failed release may leave it with the process. */
  datatype FileLock = Free | HeldBy(caller: nat) | LeftBehind(process: nat)

  datatype State = State(pc: seq<Pc>, threadLock: map<nat, nat>, fileLock: FileLock)

  datatype Event =
    | AcquireThread(caller: nat)
    | ThreadTimeout(caller: nat)
    | AcquireFile(caller: nat)
    | FileFails(caller: nat)                    // timeout or OSError
    | EndBody(caller: nat, leavesBehind: bool)  // file release: done, or failed
    | ReleaseThread(caller: nat)
    | Dies(caller: nat)                         // the caller's whole process

  /** `process[i]` is the process of caller `i`. */
  function Init(process: seq<nat>): State { State(seq(|process|, _ => Outside), map[], Free) }

  predicate Enabled(s: State, process: seq<nat>, ev: Event)
    requires |s.pc| == |process|
  {
    && ev.caller < |process|
    && match ev
       case AcquireThread(i) => s.pc[i] == Outside && process[i] !in s.threadLock
       case ThreadTimeout(i) => s.pc[i] == Outside
       case AcquireFile(i) => s.pc[i] == WaitingForFile && (s.fileLock == Free || s.fileLock == LeftBehind(process[i]))
       case FileFails(i) => s.pc[i] == WaitingForFile
       case EndBody(i, _) => s.pc[i] == InBody
       case ReleaseThread(i) => s.pc[i] == Leaving
       case Dies(_) => true
  }

  /** The file lock after a process has died: the operating system lets go of it. */
  function FreedBy(lock: FileLock, process: seq<nat>, p: nat): FileLock {
    match lock
    case Free => Free
    case HeldBy(i) => if i < |process| && process[i] == p then Free else lock
    case LeftBehind(q) => if q == p then Free else lock
  }

  function Step(s: State, process: seq<nat>, ev: Event): (s': State)
    requires |s.pc| == |process| && Enabled(s, process, ev)
    ensures |s'.pc| == |process|
  {
    match ev
    case AcquireThread(i) => s.(pc := s.pc[i := WaitingForFile], threadLock := s.threadLock[process[i] := i])
    case ThreadTimeout(i) => s
    case AcquireFile(i) => s.(pc := s.pc[i := InBody], fileLock := HeldBy(i))
    case FileFails(i) => s.(pc := s.pc[i := Outside], threadLock := s.threadLock - {process[i]})
    case EndBody(i, leavesBehind) =>
      s.(pc := s.pc[i := Leaving], fileLock := if leavesBehind then LeftBehind(process[i]) else Free)
    case ReleaseThread(i) => s.(pc := s.pc[i := Outside], threadLock := s.threadLock - {process[i]})
    case Dies(i) =>
      var p := process[i];
      State(seq(|s.pc|, j requires 0 <= j < |s.pc| => if process[j] == p then Outside else s.pc[j]),
            s.threadLock - {p}, FreedBy(s.fileLock, process, p))
  }

  /** A caller inside `_locked` is exactly the holder of its process's thread lock, and
      the caller in the body is exactly the holder of the file lock. */
  ghost predicate Inv(s: State, process: seq<nat>) {
    && |s.pc| == |process|
    && (forall i | 0 <= i < |process| ::
          s.pc[i] != Outside <==> process[i] in s.threadLock && s.threadLock[process[i]] == i)
    && (forall p <- s.threadLock :: s.threadLock[p] < |process| && process[s.threadLock[p]] == p)
    && (forall i | 0 <= i < |process| :: s.pc[i] == InBody <==> s.fileLock == HeldBy(i))
    && (s.fileLock.HeldBy? ==> s.fileLock.caller < |process|)
  }

  /** The states some run reaches. */
  ghost predicate Reaches(s: State, process: seq<nat>, events: seq<Event>, last: State)
    decreases |events|
  {
    |s.pc| == |process| &&
    if events == [] then last == s
    else Enabled(s, process, events[0]) && Reaches(Step(s, process, events[0]), process, events[1..], last)
  }

  lemma StepKeepsInv(s: State, process: seq<nat>, ev: Event)
    requires Inv(s, process) && Enabled(s, process, ev)
    ensures Inv(Step(s, process, ev), process)
  {
  }

  lemma {:induction false} RunKeepsInv(s: State, process: seq<nat>, events: seq<Event>, last: State)
    requires Inv(s, process) && Reaches(s, process, events, last)
    ensures Inv(last, process)
    decreases |events|
  {
    if events != [] {
      StepKeepsInv(s, process, events[0]);
      RunKeepsInv(Step(s, process, events[0]), process, events[1..], last);
    }
  }

  /** Over all runs of any callers in any processes: at most one is in the body, it holds
      both locks, and whoever is outside holds no thread lock, however it left. */
  lemma MutualExclusion(process: seq<nat>, events: seq<Event>, last: State, i: nat, j: nat)
    requires Reaches(Init(process), process, events, last)
    requires i < |process| && j < |process|
    ensures |last.pc| == |process|
    ensures last.pc[i] == InBody && last.pc[j] == InBody ==> i == j
    ensures last.pc[i] == InBody ==> last.fileLock == HeldBy(i) && process[i] in last.threadLock
                                     && last.threadLock[process[i]] == i
    ensures last.pc[i] == Outside ==> process[i] !in last.threadLock || last.threadLock[process[i]] != i
  {
    RunKeepsInv(Init(process), process, events, last);
  }

  /** The step with which a caller leaves, by success, timeout, acquisition error, release
      error or death, makes its process's thread lock free. */
  lemma ExitFreesThreadLock(s: State, process: seq<nat>, ev: Event)
    requires Inv(s, process) && Enabled(s, process, ev)
    requires s.pc[ev.caller] != Outside && Step(s, process, ev).pc[ev.caller] == Outside
    ensures process[ev.caller] !in Step(s, process, ev).threadLock
  {
  }

  // ----- Progress -----

  /** The events with which a caller inside `_locked` gets on, neither failing nor dying. */
  predicate Advances(ev: Event) { ev.AcquireFile? || ev.EndBody? || ev.ReleaseThread? }

  /** A failed release left the file lock behind, and whoever is inside waits for it in
      another process. */
  ghost predicate ShutOut(s: State, process: seq<nat>)
    requires |s.pc| == |process|
  {
    && s.fileLock.LeftBehind?
    && forall i | 0 <= i < |process| && s.pc[i] != Outside ::
         s.pc[i] == WaitingForFile && process[i] != s.fileLock.process
  }

  /** Some caller inside `_locked` can get on unless all of them are shut out; and a free
      thread lock can be taken at once. */
  lemma SomeoneCanMove(s: State, process: seq<nat>)
    requires Inv(s, process)
    ensures (exists ev :: Advances(ev) && Enabled(s, process, ev))
            <==> (exists i: nat :: i < |process| && s.pc[i] != Outside) && !ShutOut(s, process)
    ensures forall i: nat | i < |process| && process[i] !in s.threadLock :: Enabled(s, process, AcquireThread(i))
  {
    if ev :| Advances(ev) && Enabled(s, process, ev) {
      assert s.pc[ev.caller] != Outside;
    }
    if i: nat :| i < |process| && s.pc[i] != Outside && !ShutOut(s, process) {
      var j: nat := if s.fileLock.HeldBy? then s.fileLock.caller else i;
      if s.pc[j] == InBody {
        assert Enabled(s, process, EndBody(j, false));
      } else if s.pc[j] == Leaving {
        assert Enabled(s, process, ReleaseThread(j));
      } else if s.fileLock == Free {
        assert Enabled(s, process, AcquireFile(j));
      } else {
        var k: nat :| k < |process| && s.pc[k] != Outside
          && (s.pc[k] != WaitingForFile || process[k] == s.fileLock.process);
        assert Enabled(s, process, AcquireFile(k)) || Enabled(s, process, ReleaseThread(k));
      }
    }
  }

  /** A file lock left behind by a failed release shuts every other process out, for as long
      as the process that left it does nothing. */
  lemma {:induction false} LeftBehindShutsOut(s: State, process: seq<nat>, events: seq<Event>, last: State, p: nat)
    requires Inv(s, process) && Reaches(s, process, events, last) && s.fileLock == LeftBehind(p)
    requires forall ev <- events :: ev.caller < |process| ==> process[ev.caller] != p
    ensures last.fileLock == LeftBehind(p) && |last.pc| == |process|
    ensures forall i :: 0 <= i < |process| ==> last.pc[i] != InBody
    ensures forall ev <- events :: !ev.AcquireFile?
    decreases |events|
  {
    if events != [] {
      assert events[0] in events;
      StepKeepsInv(s, process, events[0]);
      LeftBehindShutsOut(Step(s, process, events[0]), process, events[1..], last, p);
    }
  }

  /** A file lock is left behind by a failed release and by nothing else, and stays so until it
      is acquired again or its process dies. */
  lemma LeftBehindByRelease(s: State, process: seq<nat>, ev: Event, p: nat)
    requires Inv(s, process) && Enabled(s, process, ev)
    ensures Step(s, process, ev).fileLock == LeftBehind(p) <==>
              || (ev.EndBody? && ev.leavesBehind && process[ev.caller] == p)
              || (s.fileLock == LeftBehind(p) && !ev.AcquireFile? && !(ev.Dies? && process[ev.caller] == p))
  {
  }

  /** Some run leaves the file lock behind with every caller outside. */
  lemma LeftBehindExists(process: seq<nat>)
    requires process != []
    ensures exists events, last ::
              && Reaches(Init(process), process, events, last) && last.fileLock == LeftBehind(process[0])
              && forall i :: 0 <= i < |last.pc| ==> last.pc[i] == Outside
  {
    var s1 := Step(Init(process), process, AcquireThread(0));
    var s2 := Step(s1, process, AcquireFile(0));
    var s3 := Step(s2, process, EndBody(0, true));
    var s4 := Step(s3, process, ReleaseThread(0));
    assert Reaches(s4, process, [], s4);
    Prepend(s3, process, ReleaseThread(0), [], s4);
    Prepend(s2, process, EndBody(0, true), [ReleaseThread(0)] + [], s4);
    Prepend(s1, process, AcquireFile(0), [EndBody(0, true)] + ([ReleaseThread(0)] + []), s4);
    Prepend(Init(process), process, AcquireThread(0),
            [AcquireFile(0)] + ([EndBody(0, true)] + ([ReleaseThread(0)] + [])), s4);
    assert s4.fileLock == LeftBehind(process[0]);
  }

  lemma Prepend(s: State, process: seq<nat>, ev: Event, events: seq<Event>, last: State)
    requires |s.pc| == |process| && Enabled(s, process, ev) && Reaches(Step(s, process, ev), process, events, last)
    ensures Reaches(s, process, [ev] + events, last)
  {
    assert ([ev] + events)[1..] == events;
  }
}
