/** Reserving, marking, settling and refunding around benchmark calls made from a pool of
    threads (scripts/benchmark_models.py). The spend guard itself is seen only through the
    calls made to it. */
module Reservations {
  import opened Options

  datatype Closing = Refund | Settle(status: string)

  /** What `pool.submit` does: it accepts the job, or raises. The exception may be an ordinary
      one or not (a keyboard interrupt), and may come before or after the job is queued. */
  datatype Submitted = Accepted | Raised(ordinary: bool, queued: bool)

  predicate Queues(s: Submitted) { s.Accepted? || s.queued }

  /** The accounted wrapper running in a pool thread. */
  datatype Worker = Idle | Queued | MarkFailed | Marked | CallRaised | CallReturned(failed: bool) | Closed

  /** One planned call and the closing calls made for its reservation, by the loop and by the
      thread. */
  datatype Job = Job(
    reserved: bool,
    submitted: Option<Submitted>,
    worker: Worker,
    marked: Option<bool>,
    called: Option<Worker>,
    byLoop: seq<Closing>,
    byThread: seq<Closing>)

  const UNPLANNED := Job(false, None, Idle, None, None, [], [])

  /** The submitting loop: at job `i`, or leaving. */
  datatype Loop = Reserving(i: nat) | Submitting(i: nat) | Refunding(i: nat) | Left

  datatype Run = Run(jobs: seq<Job>, loop: Loop)

  datatype Reserve = Granted | BudgetExceeded | ReserveRaised

  datatype Event =
    | LoopReserve(reserve: Reserve)
    | LoopSubmit(submit: Submitted)
    | LoopRefund
    | ThreadMark(job: nat, ok: bool)
    | ThreadCall(job: nat, end: Worker)
    | ThreadClose(job: nat)

  predicate Enabled(r: Run, e: Event) {
    match e
    case LoopReserve(_) => r.loop.Reserving? && r.loop.i < |r.jobs|
    case LoopSubmit(_) => r.loop.Submitting? && r.loop.i < |r.jobs|
    case LoopRefund => r.loop.Refunding? && r.loop.i < |r.jobs|
    case ThreadMark(j, _) => j < |r.jobs| && r.jobs[j].worker.Queued?
    case ThreadCall(j, outcome) =>
      && j < |r.jobs| && r.jobs[j].worker.Marked?
      && (outcome.CallRaised? || outcome.CallReturned?)
    case ThreadClose(j) =>
      && j < |r.jobs|
      && (r.jobs[j].worker.MarkFailed? || r.jobs[j].worker.CallRaised? || r.jobs[j].worker.CallReturned?)
  }

  function ClosingOf(w: Worker): Closing {
    match w
    case CallRaised => Settle("ambiguous_error")
    case CallReturned(failed) => Settle(if failed then "failed" else "completed")
    case _ => Refund
  }

  function Step(r: Run, e: Event): Run
    requires Enabled(r, e)
  {
    match e
    case LoopReserve(outcome) =>
      if outcome.Granted? then
        r.(jobs := r.jobs[r.loop.i := r.jobs[r.loop.i].(reserved := true)], loop := Submitting(r.loop.i))
      else r.(loop := Left)
    case LoopSubmit(outcome) =>
      var i := r.loop.i;
      var job := r.jobs[i].(submitted := Some(outcome), worker := if Queues(outcome) then Queued else Idle);
      Run(r.jobs[i := job],
          if outcome.Accepted? then Reserving(i + 1) else if outcome.ordinary then Refunding(i) else Left)
    case LoopRefund =>
      var i := r.loop.i;
      Run(r.jobs[i := r.jobs[i].(byLoop := r.jobs[i].byLoop + [Refund])], Left)
    case ThreadMark(j, ok) =>
      r.(jobs := r.jobs[j := r.jobs[j].(worker := if ok then Marked else MarkFailed, marked := Some(ok))])
    case ThreadCall(j, outcome) =>
      r.(jobs := r.jobs[j := r.jobs[j].(worker := outcome, called := Some(outcome))])
    case ThreadClose(j) =>
      var job := r.jobs[j];
      r.(jobs := r.jobs[j := job.(worker := Closed, byThread := job.byThread + [ClosingOf(job.worker)])])
  }

  ghost predicate Execution(r: Run, events: seq<Event>)
    decreases |events|
  {
    events == [] || (Enabled(r, events[0]) && Execution(Step(r, events[0]), events[1..]))
  }

  function After(r: Run, events: seq<Event>): Run
    requires Execution(r, events)
    decreases |events|
  {
    if events == [] then r else After(Step(r, events[0]), events[1..])
  }

  function Begin(n: nat): Run { Run(seq(n, _ => UNPLANNED), Reserving(0)) }

  /** The loop has left, or run out of jobs, and the pool has drained: leaving the pool waits
      for every queued job. */
  predicate Over(r: Run) {
    && (r.loop.Left? || (r.loop.Reserving? && r.loop.i >= |r.jobs|))
    && forall job <- r.jobs :: job.worker.Idle? || job.worker.Closed?
  }

  // ----- The invariant -----

  /** What the thread still owes its reservation, and what it has paid. */
  ghost predicate ThreadOk(job: Job) {
    match job.worker
    case Idle =>
      && job.byThread == [] && job.marked == None && job.called == None
      && (job.submitted.None? || !Queues(job.submitted.value))
    case Queued => job.byThread == [] && job.marked == None && job.called == None
    case MarkFailed => job.byThread == [] && job.marked == Some(false) && job.called == None
    case Marked => job.byThread == [] && job.marked == Some(true) && job.called == None
    case CallRaised => job.byThread == [] && job.marked == Some(true) && job.called == Some(CallRaised)
    case CallReturned(failed) =>
      && job.byThread == [] && job.marked == Some(true)
      && job.called == Some(CallReturned(failed))
    case Closed =>
      if job.marked == Some(false) then job.called == None && job.byThread == [Refund]
      else
        && job.marked == Some(true) && job.called.Some?
             && (job.called.value.CallRaised? || job.called.value.CallReturned?)
        && job.byThread == [ClosingOf(job.called.value)]
  }

  ghost predicate JobOk(job: Job, i: nat, loop: Loop) {
    && ThreadOk(job)
    && (!job.worker.Idle? ==> job.submitted.Some? && Queues(job.submitted.value))
    && (job.submitted.Some? ==> job.reserved)
    && (job.submitted.None? ==> job.byLoop == [])
    && (job.submitted.Some? ==>
          var refunded := job.submitted.value.Raised? && job.submitted.value.ordinary && loop != Refunding(i);
          job.byLoop == if refunded then [Refund] else [])
    && (loop == Submitting(i) ==> job.reserved && job.submitted.None?)
    && (loop == Refunding(i) ==> job.submitted.Some? && job.submitted.value.Raised? && job.submitted.value.ordinary)
    && (job.reserved && job.submitted.None? ==> loop == Submitting(i))
    && (loop.Reserving? && i >= loop.i ==> job == UNPLANNED)
    && (loop.Submitting? && i > loop.i ==> job == UNPLANNED)
  }

  ghost predicate Inv(r: Run) { forall i :: 0 <= i < |r.jobs| ==> JobOk(r.jobs[i], i, r.loop) }

  lemma BeginInv(n: nat)
    ensures Inv(Begin(n))
  {
  }

  lemma StepKeeps(r: Run, e: Event)
    requires Inv(r) && Enabled(r, e)
    ensures Inv(Step(r, e)) && |Step(r, e).jobs| == |r.jobs|
  {
    var r' := Step(r, e);
    forall i | 0 <= i < |r'.jobs| ensures JobOk(r'.jobs[i], i, r'.loop) {
      assert JobOk(r.jobs[i], i, r.loop);
    }
  }

  lemma {:induction false} InvHolds(r: Run, events: seq<Event>)
    requires Inv(r) && Execution(r, events)
    ensures Inv(After(r, events)) && |After(r, events).jobs| == |r.jobs|
    decreases |events|
  {
    if events != [] {
      hide Inv, Step, Enabled;
      StepKeeps(r, events[0]);
      InvHolds(Step(r, events[0]), events[1..]);
    }
  }

  // ----- Conservation -----

  function Closings(job: Job): seq<Closing> { job.byLoop + job.byThread }

  /** The submit raised an exception that the loop's handler does not match to what became of
      the job: an extraordinary one with the job not queued, or an ordinary one with the job
      queued all the same. */
  predicate Mismatched(s: Submitted) { s.Raised? && s.ordinary == s.queued }

  /** Over all interleavings: an unreserved call is never closed, and a reservation gets
      exactly one closing call if and only if its submit is not mismatched; otherwise it gets
      none when nothing was queued, and two when something was. */
  lemma ClosedExactlyOnce(n: nat, events: seq<Event>, i: nat)
    requires Execution(Begin(n), events) && Over(After(Begin(n), events)) && i < n
    ensures var r := After(Begin(n), events);
            && i < |r.jobs|
            && (!r.jobs[i].reserved ==> Closings(r.jobs[i]) == [])
            && (r.jobs[i].reserved ==>
                  && r.jobs[i].submitted.Some?
                  && (|Closings(r.jobs[i])| == 1 <==> !Mismatched(r.jobs[i].submitted.value))
                  && (|Closings(r.jobs[i])| == 0 <==> r.jobs[i].submitted.value == Raised(false, false)))
  {
    BeginInv(n);
    InvHolds(Begin(n), events);
    var r := After(Begin(n), events);
    assert JobOk(r.jobs[i], i, r.loop);
    assert r.jobs[i] in r.jobs;
  }

  /** Which closing call it is: a refund if and only if no thread got the job or marking the
      provider work raised, and otherwise a settlement whose status tells how the call went. */
  lemma RefundOrSettle(n: nat, events: seq<Event>, i: nat)
    requires Execution(Begin(n), events) && Over(After(Begin(n), events)) && i < n
    requires var r := After(Begin(n), events);
             i < |r.jobs| && r.jobs[i].reserved && r.jobs[i].submitted.Some? && !Mismatched(r.jobs[i].submitted.value)
    ensures var job := After(Begin(n), events).jobs[i];
            && |Closings(job)| == 1
            && (Closings(job)[0] == Refund <==> !Queues(job.submitted.value) || job.marked == Some(false))
            && (Closings(job)[0] == Settle("ambiguous_error")
                <==> job.called == Some(CallRaised) && Queues(job.submitted.value))
            && (Closings(job)[0] == Settle("failed")
                <==> job.called == Some(CallReturned(true)) && Queues(job.submitted.value))
            && (Closings(job)[0] == Settle("completed")
                <==> job.called == Some(CallReturned(false)) && Queues(job.submitted.value))
            && (Closings(job)[0] == Refund
                || Closings(job)[0] in {Settle("ambiguous_error"), Settle("failed"), Settle("completed")})
  {
    BeginInv(n);
    InvHolds(Begin(n), events);
    var r := After(Begin(n), events);
    assert JobOk(r.jobs[i], i, r.loop);
    assert r.jobs[i] in r.jobs;
  }

  /** At any moment, a reservation whose provider call has been made is never refunded by its
      thread, and is refunded by the loop only if its submit raised after queueing it. */
  lemma NoRefundAfterProviderWork(n: nat, events: seq<Event>, i: nat)
    requires Execution(Begin(n), events) && i < n
    ensures var r := After(Begin(n), events);
            i < |r.jobs|
            && (r.jobs[i].called.Some? && Refund in Closings(r.jobs[i]) ==>
                  r.jobs[i].submitted == Some(Raised(true, true)))
  {
    BeginInv(n);
    InvHolds(Begin(n), events);
    var r := After(Begin(n), events);
    assert JobOk(r.jobs[i], i, r.loop);
  }

  /** A non-ordinary exception out of submit leaves the reservation open for good. */
  lemma InterruptLeaksReservation()
    ensures exists events ::
              && Execution(Begin(1), events) && Over(After(Begin(1), events))
              && |After(Begin(1), events).jobs| == 1 && After(Begin(1), events).jobs[0].reserved
              && Closings(After(Begin(1), events).jobs[0]) == []
  {
    var e0, e1 := LoopReserve(Granted), LoopSubmit(Raised(false, false));
    var r1 := Step(Begin(1), e0);
    var r2 := Step(r1, e1);
    Prepend(r1, e1, []);
    Prepend(Begin(1), e0, [e1] + []);
    assert Over(r2) && r2.jobs[0].reserved;
  }

  lemma Prepend(r: Run, e: Event, events: seq<Event>)
    requires Enabled(r, e) && Execution(Step(r, e), events)
    ensures Execution(r, [e] + events) && After(r, [e] + events) == After(Step(r, e), events)
  {
    assert ([e] + events)[1..] == events;
  }
}
