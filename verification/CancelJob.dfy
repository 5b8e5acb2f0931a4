/** Cancelling a stored job by compare-and-swap on its etag, against writers that interfere
    between the read and the replace (deploy/azure/functions/function_app.py). */
module CancelJobs {
  import opened Options

  /** A stored job. The store stamps every write with a fresh etag; `None` is a document that
      carries no etag. */
  datatype Doc = Doc(status: Option<string>, etag: Option<nat>)

  predicate Terminal(d: Doc) { d.status in {Some("completed"), Some("failed"), Some("cancelled")} }

  datatype Reply = Success | NotFound | NotCancellable | Conflict | Failed500 | Threw

  /** Where the request is: about to read, about to replace what it read, or answered. */
  datatype Control = Reading(attempt: nat) | Replacing(attempt: nat, seen: Doc) | Replied(reply: Reply)

  /** `nextEtag` is above every etag issued; `replaced` lists the documents this request has
      overwritten; `stamps` tells whether the store stamps its documents. */
  datatype World = World(doc: Option<Doc>, nextEtag: nat, stamps: bool, control: Control, replaced: seq<Doc>)

  datatype Event =
    | Read(broken: bool)
    | Replace
    | ReplaceBroke(applied: bool)     // another exception; the write may have been applied
    | OtherWrite(status: Option<string>)
    | OtherDelete

  const ATTEMPTS := 3

  function Stamped(w: World, status: Option<string>): Doc { Doc(status, if w.stamps then Some(w.nextEtag) else None) }

  function Write(w: World, status: Option<string>): World {
    w.(doc := Some(Stamped(w, status)), nextEtag := w.nextEtag + 1)
  }

  predicate Enabled(w: World, e: Event) {
    match e
    case Read(_) => w.control.Reading?
    case Replace => w.control.Replacing?
    case ReplaceBroke(applied) => w.control.Replacing? && (applied ==> w.doc.Some? && Matches(w))
    case _ => true
  }

  /** The store accepts the replace: it is unconditional, or the etag still matches. */
  predicate Matches(w: World)
    requires w.control.Replacing?
  {
    w.doc.Some? && (w.control.seen.etag.None? || w.doc.value.etag == w.control.seen.etag)
  }

  function CancelWrite(w: World): World
    requires w.doc.Some?
  {
    Write(w, Some("cancelled")).(replaced := w.replaced + [w.doc.value])
  }

  function Step(w: World, e: Event): World
    requires Enabled(w, e)
  {
    match e
    case Read(broken) =>
      var attempt := w.control.attempt;
      if attempt >= ATTEMPTS then w.(control := Replied(Failed500))
      else if broken || w.doc.None? then w.(control := Replied(NotFound))
      else if Terminal(w.doc.value) then w.(control := Replied(NotCancellable))
      else w.(control := Replacing(attempt, w.doc.value))
    case Replace =>
      var attempt := w.control.attempt;
      if w.doc.None? then w.(control := Replied(Threw))
      else if Matches(w) then CancelWrite(w).(control := Replied(Success))
      else if attempt == ATTEMPTS - 1 then w.(control := Replied(Conflict))
      else w.(control := Reading(attempt + 1))
    case ReplaceBroke(applied) => (if applied then CancelWrite(w) else w).(control := Replied(Threw))
    case OtherWrite(status) => Write(w, status)
    case OtherDelete => w.(doc := None)
  }

  ghost predicate Execution(w: World, events: seq<Event>)
    decreases |events|
  {
    events == [] || (Enabled(w, events[0]) && Execution(Step(w, events[0]), events[1..]))
  }

  function After(w: World, events: seq<Event>): World
    requires Execution(w, events)
    decreases |events|
  {
    if events == [] then w else After(Step(w, events[0]), events[1..])
  }

  // ----- The request as it is written -----

  /** What other writers do between two accesses of this request. */
  datatype Interference = Nothing | Deleted | Written(status: Option<string>)

  /** Whether the request's replace is answered, or its call raises another error, having been
      applied or not. */
  datatype Call = Answered | Broken(applied: bool)

  /** One attempt: interference ahead of the read, whether the read raises, interference ahead of
      the replace, and how the replace goes. */
  datatype Round = Round(before: Interference, readBroken: bool, between: Interference, replace: Call)

  function Interfere(w: World, i: Interference): World {
    match i
    case Nothing => w
    case Deleted => w.(doc := None)
    case Written(status) => Write(w, status)
  }

  class JobsContainer {
    var doc: Option<Doc>
    var nextEtag: nat
    const stamps: bool
    var replaced: seq<Doc>

    constructor (doc: Option<Doc>, nextEtag: nat, stamps: bool)
      ensures this.doc == doc && this.nextEtag == nextEtag && this.stamps == stamps && replaced == []
    {
      this.doc, this.nextEtag, this.stamps, replaced := doc, nextEtag, stamps, [];
    }

    ghost function At(control: Control): World
      reads this
    {
      World(doc, nextEtag, stamps, control, replaced)
    }

    method ApplyInterference(i: Interference)
      modifies this
      ensures forall c :: At(c) == Interfere(old(At(c)), i)
    {
      match i {
        case Nothing =>
        case Deleted => doc := None;
        case Written(status) =>
          doc := Some(Doc(status, if stamps then Some(nextEtag) else None));
          nextEtag := nextEtag + 1;
      }
    }

    /** The loop: it runs the request's segments against the given rounds until one of them
        answers. */
    method CancelJob(rounds: seq<Round>) returns (reply: Reply)
      requires |rounds| == ATTEMPTS
      modifies this
      ensures At(Replied(reply)) == Attempts(old(At(Reading(0))), rounds)
    {
      hide Attempts, Step;
      var attempt := 0;
      while attempt < ATTEMPTS
        invariant 0 <= attempt <= ATTEMPTS
        invariant Attempts(At(Reading(attempt)), rounds) == Attempts(old(At(Reading(0))), rounds)
      {
        var round := rounds[attempt];
        AttemptCases(At(Reading(attempt)), rounds);
        ApplyInterference(round.before);
        if round.readBroken || doc.None? { return NotFound; }
        var job := doc.value;
        if Terminal(job) { return NotCancellable; }
        ReplaceCases(Interfere(At(Replacing(attempt, job)), round.between), round.replace);
        ApplyInterference(round.between);
        var matches := doc.Some? && (job.etag.None? || doc.value.etag == job.etag);
        if matches && round.replace != Broken(false) {
          replaced := replaced + [doc.value];
          doc := Some(Doc(Some("cancelled"), if stamps then Some(nextEtag) else None));
          nextEtag := nextEtag + 1;
        }
        if doc.None? || round.replace.Broken? { return Threw; }
        if matches { return Success; }
        if attempt == ATTEMPTS - 1 { return Conflict; }
        attempt := attempt + 1;
      }
      Exhausted(At(Reading(attempt)), rounds);
      return Failed500;
    }
  }

  /** The event a replace amounts to. */
  function ReplaceEvent(w: World, call: Call): Event
    requires w.control.Replacing?
  {
    if call.Answered? then Replace else ReplaceBroke(call.applied && Matches(w))
  }

  /** The request's own segments from a read on, with the given rounds. */
  function Attempts(w: World, rounds: seq<Round>): World
    requires |rounds| == ATTEMPTS && w.control.Reading?
    decreases ATTEMPTS - w.control.attempt
  {
    var attempt := w.control.attempt;
    if attempt >= ATTEMPTS then Step(w, Read(false))
    else
      var round := rounds[attempt];
      var r := Step(Interfere(w, round.before), Read(round.readBroken));
      if r.control.Replied? then r
      else
        var ready := Interfere(r, round.between);
        var s := Step(ready, ReplaceEvent(ready, round.replace));
        if s.control.Replied? then s else Attempts(s, rounds)
  }

  lemma AttemptCases(w: World, rounds: seq<Round>)
    requires |rounds| == ATTEMPTS && w.control.Reading? && w.control.attempt < ATTEMPTS
    ensures var round := rounds[w.control.attempt];
            var w1 := Interfere(w, round.before);
            && (round.readBroken || w1.doc.None? ==> Attempts(w, rounds) == w1.(control := Replied(NotFound)))
            && (!round.readBroken && w1.doc.Some? && Terminal(w1.doc.value) ==>
                  Attempts(w, rounds) == w1.(control := Replied(NotCancellable)))
            && (!round.readBroken && w1.doc.Some? && !Terminal(w1.doc.value) ==>
                  var ready := Interfere(w1.(control := Replacing(w.control.attempt, w1.doc.value)), round.between);
                  ready.control.Replacing?
                  && var s := Step(ready, ReplaceEvent(ready, round.replace));
                     Attempts(w, rounds) == if s.control.Replied? then s else Attempts(s, rounds))
  {
    hide Step, Interfere, Terminal, ReplaceEvent;
    var round := rounds[w.control.attempt];
    InterfereControl(w, round.before);
    ReadCases(Interfere(w, round.before), round.readBroken);
    var w1 := Interfere(w, round.before);
    if w1.doc.Some? { InterfereControl(w1.(control := Replacing(w.control.attempt, w1.doc.value)), round.between); }
  }

  lemma InterfereControl(w: World, i: Interference)
    ensures Interfere(w, i).control == w.control
  {
  }

  lemma ReplaceCases(w: World, call: Call)
    requires w.control.Replacing?
    ensures var matches := w.doc.Some? && (w.control.seen.etag.None? || w.doc.value.etag == w.control.seen.etag);
            var cancelled := Doc(Some("cancelled"), if w.stamps then Some(w.nextEtag) else None);
            var written := World(Some(cancelled), w.nextEtag + 1,
                                 w.stamps, w.control, if w.doc.Some? then w.replaced + [w.doc.value] else w.replaced);
            var after := if matches && call != Broken(false) then written else w;
            Step(w, ReplaceEvent(w, call)) == after.(control :=
              if w.doc.None? || call.Broken? then Replied(Threw)
              else if matches then Replied(Success)
              else if w.control.attempt == ATTEMPTS - 1 then Replied(Conflict)
              else Reading(w.control.attempt + 1))
  {
  }

  lemma Exhausted(w: World, rounds: seq<Round>)
    requires |rounds| == ATTEMPTS && w.control == Reading(ATTEMPTS)
    ensures Attempts(w, rounds) == w.(control := Replied(Failed500))
  {
  }

  // ----- What every interleaving keeps -----

  /** Etags are fresh, and a document that still has the etag the request read is still the
      document it read. */
  ghost predicate Inv(w: World) {
    && (w.doc.Some? ==> (w.doc.value.etag.Some? <==> w.stamps))
    && (w.doc.Some? && w.doc.value.etag.Some? ==> w.doc.value.etag.value < w.nextEtag)
    && (w.control.Reading? ==> w.control.attempt < ATTEMPTS && w.replaced == [])
    && (w.control.Replacing? ==>
          && w.control.attempt < ATTEMPTS && w.replaced == [] && !Terminal(w.control.seen)
          && (w.control.seen.etag.Some? <==> w.stamps)
          && (w.stamps ==> w.control.seen.etag.value < w.nextEtag)
          && (w.stamps && w.doc.Some? && w.doc.value.etag == w.control.seen.etag ==> w.doc.value == w.control.seen))
    && (w.control.Replied? ==>
          && w.control.reply != Failed500
          && |w.replaced| <= 1
          && (w.control.reply == Success ==> |w.replaced| == 1)
          && (|w.replaced| == 1 ==> w.control.reply == Success || w.control.reply == Threw))
    && (w.stamps ==> forall d <- w.replaced :: !Terminal(d))
  }

  lemma StepKeeps(w: World, e: Event)
    requires Inv(w) && Enabled(w, e)
    ensures Inv(Step(w, e)) && Step(w, e).stamps == w.stamps
  {
  }

  lemma {:induction false} InvHolds(w: World, events: seq<Event>)
    requires Inv(w) && Execution(w, events)
    ensures Inv(After(w, events)) && After(w, events).stamps == w.stamps
    decreases |events|
  {
    if events != [] {
      hide Inv, Step, Enabled;
      StepKeeps(w, events[0]);
      InvHolds(Step(w, events[0]), events[1..]);
    }
  }

  /** A stored job that a request is about to read for the first time. */
  ghost predicate Fresh(w: World) {
    && w.control == Reading(0) && w.replaced == []
    && (w.doc.Some? ==> (w.doc.value.etag.Some? <==> w.stamps))
    && (w.doc.Some? && w.doc.value.etag.Some? ==> w.doc.value.etag.value < w.nextEtag)
  }

  /** With etags, whatever other writers do, the request never replaces a terminal document,
      writes at most once, reports success only if it wrote, and never falls through to the
      final error; a write it does not report is one whose call raised. */
  lemma CancelIsCompareAndSwap(w: World, events: seq<Event>)
    requires Fresh(w) && w.stamps && Execution(w, events)
    ensures var w' := After(w, events);
            && (forall d <- w'.replaced :: !Terminal(d))
            && |w'.replaced| <= 1
            && (w'.control == Replied(Success) ==> |w'.replaced| == 1)
            && (|w'.replaced| == 1 ==> w'.control == Replied(Success) || w'.control == Replied(Threw))
            && w'.control != Replied(Failed500)
  {
    InvHolds(w, events);
  }

  lemma InterfereKeeps(w: World, i: Interference)
    requires Inv(w)
    ensures Inv(Interfere(w, i)) && Interfere(w, i).stamps == w.stamps && Interfere(w, i).control == w.control
  {
    match i {
      case Nothing =>
      case Deleted => StepKeeps(w, OtherDelete);
      case Written(status) => StepKeeps(w, OtherWrite(status));
    }
  }

  /** So the loop as it is written always answers, never with the final error; it reports
      success only if it wrote, writes at most once, and writes without reporting only when a
      replace raised; and with etags it never replaces a terminal document. */
  lemma {:induction false} LoopAnswers(w: World, rounds: seq<Round>)
    requires |rounds| == ATTEMPTS && Inv(w) && w.control.Reading?
    ensures var w' := Attempts(w, rounds);
            && Inv(w') && w'.stamps == w.stamps
            && w'.control.Replied? && w'.control.reply != Failed500 && |w'.replaced| <= 1
            && (w'.control.reply == Success ==> |w'.replaced| == 1)
            && (w'.stamps ==> forall d <- w'.replaced :: !Terminal(d))
            && ((forall round <- rounds :: round.replace.Answered?) ==>
                   (w'.control.reply == Success <==> |w'.replaced| == 1))
    decreases ATTEMPTS - w.control.attempt
  {
    hide Attempts, Step, Inv, ReplaceEvent, Terminal;
    ReadingBound(w);
    var attempt := w.control.attempt;
    var round := rounds[attempt];
    AttemptCases(w, rounds);
    InterfereKeeps(w, round.before);
    var w1 := Interfere(w, round.before);
    ReadingBound(w1);
    StepKeeps(w1, Read(round.readBroken));
    ReadCases(w1, round.readBroken);
    if !round.readBroken && w1.doc.Some? && !Terminal(w1.doc.value) {
      var r := w1.(control := Replacing(attempt, w1.doc.value));
      InterfereKeeps(r, round.between);
      var ready := Interfere(r, round.between);
      EventEnabled(ready, round.replace);
      StepKeeps(ready, ReplaceEvent(ready, round.replace));
      ReplaceCases(ready, round.replace);
      ReplacingUnwritten(ready);
      var s := Step(ready, ReplaceEvent(ready, round.replace));
      if s.control.Reading? { LoopAnswers(s, rounds); } else { InvReplied(s); }
    } else {
      InvReplied(Step(w1, Read(round.readBroken)));
    }
  }

  /** Undisturbed, the request answers as the job stands: a completed, failed or cancelled job
      is left alone, a missing one is not found, and any other ends up cancelled. */
  lemma UndisturbedCancel(w: World, rounds: seq<Round>)
    requires Fresh(w) && |rounds| == ATTEMPTS && rounds[0] == Round(Nothing, false, Nothing, Answered)
    ensures var w' := Attempts(w, rounds);
            && w'.control.Replied?
            && (w.doc.None? <==> w'.control.reply == NotFound)
            && (w.doc.Some? && w.doc.value.status in {Some("completed"), Some("failed"), Some("cancelled")}
                <==> w'.control.reply == NotCancellable)
            && (w'.control.reply != Success ==> w'.doc == w.doc && w'.replaced == [])
            && (w'.control.reply == Success ==>
                  w'.doc.Some? && w'.doc.value.status == Some("cancelled") && w'.replaced == [w.doc.value])
            && w'.control.reply in {NotFound, NotCancellable, Success}
  {
    hide Attempts, Step, Inv;
    AttemptCases(w, rounds);
    if w.doc.Some? { ReplaceCases(w.(control := Replacing(0, w.doc.value)), Answered); }
  }

  /** With etags, a job that is rewritten between the read and the replace of all three attempts
      and stays open is reported as a conflict, and keeps what was last written. */
  lemma {:induction false} ConflictAfterThree(w: World, rounds: seq<Round>)
    requires Inv(w) && w.stamps && |rounds| == ATTEMPTS && w.control.Reading? && w.doc.Some?
    requires forall round <- rounds :: round.before.Nothing? && !round.readBroken && round.between.Written?
                                       && round.replace.Answered?
    requires forall round <- rounds :: round.between.status !in {Some("completed"), Some("failed"), Some("cancelled")}
    requires w.doc.value.status !in {Some("completed"), Some("failed"), Some("cancelled")}
    ensures var w' := Attempts(w, rounds);
            && w'.control == Replied(Conflict) && w'.replaced == []
            && w'.doc.Some? && w'.doc.value.status == rounds[2].between.status
    decreases ATTEMPTS - w.control.attempt
  {
    hide Attempts, Step;
    AttemptCases(w, rounds);
    var attempt := w.control.attempt;
    var round := rounds[attempt];
    assert round in rounds;
    var ready := Interfere(w.(control := Replacing(attempt, w.doc.value)), round.between);
    ReplaceCases(ready, Answered);
    if attempt < 2 { ConflictAfterThree(ready.(control := Reading(attempt + 1)), rounds); }
  }

  lemma EventEnabled(w: World, call: Call)
    requires w.control.Replacing?
    ensures Enabled(w, ReplaceEvent(w, call)) && !ReplaceEvent(w, call).OtherWrite?
  {
  }

  lemma InvReplied(w: World)
    requires Inv(w) && w.control.Replied?
    ensures w.control.reply != Failed500 && |w.replaced| <= 1 && (w.control.reply == Success ==> |w.replaced| == 1)
    ensures w.stamps ==> forall d <- w.replaced :: !Terminal(d)
  {
  }

  lemma ReadingBound(w: World)
    requires Inv(w) && w.control.Reading?
    ensures w.control.attempt < ATTEMPTS && w.replaced == []
  {
  }

  lemma ReplacingUnwritten(w: World)
    requires Inv(w) && w.control.Replacing?
    ensures w.control.attempt < ATTEMPTS && w.replaced == []
  {
  }

  lemma ReadCases(w: World, broken: bool)
    requires w.control.Reading? && w.control.attempt < ATTEMPTS
    ensures Step(w, Read(broken)) == w.(control :=
              if broken || w.doc.None? then Replied(NotFound)
              else if Terminal(w.doc.value) then Replied(NotCancellable)
              else Replacing(w.control.attempt, w.doc.value))
  {
  }

  function Remaining(c: Control): nat {
    match c
    case Reading(attempt) => if attempt <= ATTEMPTS then 2 * (ATTEMPTS - attempt) + 1 else 1
    case Replacing(attempt, _) => if attempt <= ATTEMPTS then 2 * (ATTEMPTS - attempt) else 1
    case Replied(_) => 0
  }

  /** The request's own segments count down, and no other writer's do: it answers within
      three reads and three replaces. */
  lemma OwnSegmentsCountDown(w: World, e: Event)
    requires Inv(w) && Enabled(w, e)
    ensures if e.OtherWrite? || e.OtherDelete? then Remaining(Step(w, e).control) == Remaining(w.control)
            else Remaining(Step(w, e).control) < Remaining(w.control)
    ensures w.control == Reading(0) ==> Remaining(w.control) == 7
  {
  }

  /** A replace overwrites a terminal document exactly when the document it read carried no
      etag and has meanwhile become terminal. */
  lemma OverwritesTerminalIff(w: World)
    requires Inv(w) && w.control.Replacing?
    ensures (exists d <- Step(w, Replace).replaced :: Terminal(d))
            <==> !w.stamps && w.doc.Some? && Terminal(w.doc.value)
  {
    if w.doc.Some? && Matches(w) {
      assert Step(w, Replace).replaced[0] == w.doc.value;
    }
  }

  /** Without etags: the job completes between the read and the replace, and the completed
      job is overwritten. */
  lemma UnstampedStoreLosesCompletion()
    ensures exists w, events ::
              Fresh(w) && !w.stamps && Execution(w, events) && After(w, events).control == Replied(Success)
              && After(w, events).replaced == [Doc(Some("completed"), None)]
  {
    var w := World(Some(Doc(Some("running"), None)), 0, false, Reading(0), []);
    var e0, e1, e2 := Read(false), OtherWrite(Some("completed")), Replace;
    var w1 := Step(w, e0);
    var w2 := Step(w1, e1);
    var w3 := Step(w2, e2);
    Prepend(w2, e2, []);
    Prepend(w1, e1, [e2] + []);
    Prepend(w, e0, [e1] + ([e2] + []));
    assert w3.replaced == [Doc(Some("completed"), None)];
  }

  lemma Prepend(w: World, e: Event, events: seq<Event>)
    requires Enabled(w, e) && Execution(Step(w, e), events)
    ensures Execution(w, [e] + events) && After(w, [e] + events) == After(Step(w, e), events)
  {
    assert ([e] + events)[1..] == events;
  }
}
