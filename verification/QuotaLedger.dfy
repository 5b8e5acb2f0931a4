/** The durable append-only ledger: one call, and what any run of calls, failed
    writes, failed barriers and crashes keeps
    (src/deepr/backends/quota_ledger.py). */
module QuotaLedgers {
  import opened Options
  import opened Json
  import opened QuotaEvents
  import opened LedgerLog
  import JsonProofs
  import LatestEvents
  import Text

  /** The file; a missing file is empty. A successful barrier makes everything written
      so far durable, and a crash may lose anything behind the durable prefix. */
  datatype Disk = Disk(content: seq<Sym>, durable: nat)

  ghost predicate Valid(d: Disk) { d.durable <= |d.content| }

  /** What the operating system does to one call. A failed append leaves the first
      `written` symbols behind; on the replay path `writeOk` is the reopening. */
  datatype Io = Io(readOk: bool, writeOk: bool, written: nat, fsyncOk: bool)

  datatype Outcome =
    | Accepted(event: QuotaEvent)
    | InvalidRequest
    | ReadError
    | IdempotencyConflict
    | WriteError
    | DurabilityError

  // ----- One call -----

  function AppendLine(d: Disk, e: QuotaEvent, requireFsync: bool, io: Io): (Disk, Outcome) {
    var text := Appended(e);
    if !io.writeOk then
      (Disk(d.content + text[..if io.written < |text| then io.written else |text|], d.durable), WriteError)
    else
      var content := d.content + text;
      if !requireFsync then (Disk(content, d.durable), Accepted(e))
      else if io.fsyncOk then (Disk(content, |content|), Accepted(e))
      else (Disk(content, d.durable), DurabilityError)
  }

  function AcceptReplay(d: Disk, found: QuotaEvent, requireFsync: bool, io: Io): (Disk, Outcome) {
    if !requireFsync then (d, Accepted(found))
    else if io.writeOk && io.fsyncOk then (Disk(d.content, |d.content|), Accepted(found))
    else (d, DurabilityError)
  }

  /** `record_event`, with both locks held. */
  function RecordCall(d: Disk, e: QuotaEvent, requireFsync: bool, io: Io, env: Env): (Disk, Outcome) {
    if !ValidRequest(e) || !Finite(JObj(e.metadata)) then (d, InvalidRequest)
    else if !io.readOk then (d, ReadError)
    else match Scan(Lines(d.content), e, None, env)
      case Corrupt => (d, ReadError)
      case Conflict => (d, IdempotencyConflict)
      case Clear(Some(found)) => AcceptReplay(d, found, requireFsync, io)
      case Clear(None) => AppendLine(d, e, requireFsync, io)
  }

  class QuotaLedger {
    var content: seq<Sym>
    ghost var durable: nat

    ghost function State(): Disk
      reads this
    {
      Disk(content, durable)
    }

    constructor ()
      ensures State() == Disk([], 0)
    {
      content, durable := [], 0;
    }

    /** `_find_idempotent_event`: the scan keeps the last match and stops at the first
        line it cannot accept. */
    method FindIdempotentEvent(proposed: QuotaEvent, env: Env) returns (result: ScanResult)
      ensures result == Scan(Lines(content), proposed, None, env)
    {
      var lines := Lines(content);
      var found: Option<QuotaEvent> := None;
      var i := 0;
      assert lines[0..] == lines;
      while i < |lines|
        invariant 0 <= i <= |lines|
        invariant Scan(lines, proposed, None, env) == Scan(lines[i..], proposed, found, env)
      {
        hide StrictRow, SameObservation, Stripped;
        assert lines[i..][1..] == lines[i + 1..] && lines[i..][0] == lines[i];
        if Stripped(lines[i]) != [] {
          var row := StrictRow(lines[i], env);
          if row.None? { return Corrupt; }
          if proposed.idempotencyKey != "" && row.value.idempotencyKey == proposed.idempotencyKey {
            if !SameObservation(row.value, proposed) { return Conflict; }
            found := row;
          }
        }
        i := i + 1;
      }
      return Clear(found);
    }

    method RecordEvent(e: QuotaEvent, requireFsync: bool, io: Io, env: Env) returns (result: Outcome)
      modifies this
      ensures (State(), result) == RecordCall(old(State()), e, requireFsync, io, env)
    {
      hide Appended, ValidRequest, Finite, Lines, Scan;
      if !ValidRequest(e) || !Finite(JObj(e.metadata)) { return InvalidRequest; }
      if !io.readOk { return ReadError; }
      var scan := FindIdempotentEvent(e, env);
      match scan
      case Corrupt => return ReadError;
      case Conflict => return IdempotencyConflict;
      case Clear(match1) =>
        if match1.Some? {
          if requireFsync {
            if !(io.writeOk && io.fsyncOk) { return DurabilityError; }
            durable := |content|;
          }
          return Accepted(match1.value);
        }
        var text := Appended(e);
        if !io.writeOk {
          content := content + text[..if io.written < |text| then io.written else |text|];
          return WriteError;
        }
        content := content + text;
        if requireFsync {
          if !io.fsyncOk { return DurabilityError; }
          durable := |content|;
        }
        return Accepted(e);
    }

    /** `get_events`; `None` is the uncaught error of a line that is JSON but no
        object. */
    method GetEvents(f: Filter, env: Env) returns (events: Option<seq<QuotaEvent>>)
      ensures events.None? <==> exists l <- Lines(content) :: Read(l, env).Fails?
      ensures events.Some? ==> events.value == Select(Rows(Lines(content), env), f)
    {
      hide Read, Keeps;
      var lines := Lines(content);
      var kept := [];
      for i := 0 to |lines|
        invariant kept == Select(Rows(lines[..i], env), f)
        invariant forall k | 0 <= k < i :: !Read(lines[k], env).Fails?
      {
        var reading := Read(lines[i], env);
        assert lines[..i + 1][..i] == lines[..i];
        match reading {
          case Fails => return None;
          case Skipped =>
          case Row(e) =>
            var before := Rows(lines[..i], env);
            assert (before + [e])[..|before|] == before;
            if Keeps(f, e) { kept := kept + [e]; }
        }
      }
      assert lines[..|lines|] == lines;
      return Some(kept);
    }
  }

  // ----- Runs -----

  /** Calls taken one at a time; `LedgerConcurrency` shows that every interleaving under the
      locks amounts to such a run. A process that dies inside a call is a failed write; a
      crash is the machine's. */
  datatype Action =
    | Call(e: QuotaEvent, requireFsync: bool, io: Io, env: Env)
    | Crash(keep: nat)

  /** What one call does to the file, whatever becomes of it: it keeps what was there, adds the
      event's line only when it accepts a fresh event or fails behind the write, part of it when
      the write fails, and makes the file durable only by a barrier that succeeds. */
  lemma CallEffect(d: Disk, e: QuotaEvent, requireFsync: bool, io: Io, env: Env)
    ensures var (d', o) := RecordCall(d, e, requireFsync, io, env);
            var added := LineOf(e) + [Ch('\n')];
            && (o == InvalidRequest <==> Text.Strip(e.backendId, Text.IsSpace) == "" || !Finite(JObj(e.metadata)))
            && (o in {InvalidRequest, ReadError, IdempotencyConflict} ==> d' == d)
            && (o.Accepted? ==>
                  || (d'.content == d.content && o.event.idempotencyKey == e.idempotencyKey != "")
                  || (d'.content == d.content + added && o.event == e && io.writeOk))
            && (o == WriteError ==>
                  && !io.writeOk && d'.durable == d.durable
                  && d'.content == d.content + added[..if io.written < |added| then io.written else |added|])
            && (o == DurabilityError ==>
                  && requireFsync && !(io.writeOk && io.fsyncOk) && d'.durable == d.durable
                  && (d'.content == d.content || d'.content == d.content + added))
            && d'.durable == if o.Accepted? && requireFsync then |d'.content| else d.durable
  {
    hide Finite, SplitLines, StrictRow, SameObservation, LineOf;
    if Scan(Lines(d.content), e, None, env).Clear? { ScanFinds(Lines(d.content), e, None, env); }
    hide Scan;
  }

  lemma {:induction false} ScanFinds(lines: seq<Line>, e: QuotaEvent, found: Option<QuotaEvent>, env: Env)
    requires found.Some? ==> found.value.idempotencyKey == e.idempotencyKey != ""
    ensures var r := Scan(lines, e, found, env);
            r.Clear? && r.found.Some? ==> r.found.value.idempotencyKey == e.idempotencyKey != ""
    decreases |lines|
  {
    hide StrictRow, SameObservation, Stripped;
    if lines != [] {
      ScanFinds(lines[1..], e, found, env);
      if StrictRow(lines[0], env).Some? && StrictRow(lines[0], env).value.idempotencyKey == e.idempotencyKey != "" {
        ScanFinds(lines[1..], e, StrictRow(lines[0], env), env);
      }
    }
  }

  ghost predicate Sound(a: Action) { a.Call? ==> NativeMetadata(a.e) }

  function Step(d: Disk, a: Action): Disk {
    match a
    case Call(e, requireFsync, io, env) => RecordCall(d, e, requireFsync, io, env).0
    case Crash(keep) => if d.durable <= keep <= |d.content| then Disk(d.content[..keep], d.durable) else d
  }

  function Run(d: Disk, actions: seq<Action>): Disk
    decreases |actions|
  {
    if actions == [] then d else Run(Step(d, actions[0]), actions[1..])
  }

  const FRESH := Disk([], 0)

  /** A call leaves the file alone, or appends to it the start of its own line; it
      appends only when the scan accepted every line and none carries the key. */
  lemma CallShape(d: Disk, e: QuotaEvent, requireFsync: bool, io: Io, env: Env)
    returns (k: nat)
    requires Valid(d)
    ensures k <= |Appended(e)| && RecordCall(d, e, requireFsync, io, env).0.content == d.content + Appended(e)[..k]
    ensures Valid(RecordCall(d, e, requireFsync, io, env).0)
    ensures d.durable <= RecordCall(d, e, requireFsync, io, env).0.durable
    ensures k > 0 ==> ValidRequest(e) && AllAcceptable(Lines(d.content), env)
                      && forall l <- Lines(d.content) :: !Matches(l, e, env)
    ensures RecordCall(d, e, requireFsync, io, env).1.Accepted? && Scan(Lines(d.content), e, None, env) == Clear(None)
            ==> k == |Appended(e)|
  {
    hide Appended, ValidRequest, Finite, Lines, Scan, AllAcceptable, Matches;
    var d' := RecordCall(d, e, requireFsync, io, env).0;
    assert d.content + Appended(e)[..0] == d.content;
    assert Appended(e)[..|Appended(e)|] == Appended(e);
    if ValidRequest(e) && Finite(JObj(e.metadata)) && io.readOk && Scan(Lines(d.content), e, None, env) == Clear(None) {
      ScanClear(Lines(d.content), e, None, env);
      k := if io.writeOk || io.written >= |Appended(e)| then |Appended(e)| else io.written;
    } else {
      k := 0;
    }
  }

  // ----- Exactly once -----

  ghost predicate UniqueKeys(rows: seq<QuotaEvent>) {
    forall i, j :: 0 <= i < j < |rows| && rows[i].idempotencyKey != "" ==>
      rows[i].idempotencyKey != rows[j].idempotencyKey
  }

  /** Whatever prefix of the file survives, no two readable rows share a key. */
  ghost predicate OnceInEveryPrefix(content: seq<Sym>, reader: Env) {
    forall n: nat :: n <= |content| ==> UniqueKeys(Rows(Lines(content[..n]), reader))
  }

  /** No readable row carries the proposed key when no accepted line matches it. */
  lemma NoRowMatches(lines: seq<Line>, e: QuotaEvent, env: Env, reader: Env, i: nat)
    requires AllAcceptable(lines, env) && forall l <- lines :: !Matches(l, e, env)
    requires i < |Rows(lines, reader)| && e.idempotencyKey != ""
    ensures Rows(lines, reader)[i].idempotencyKey != e.idempotencyKey
  {
    hide Stripped, StrictRow, Read;
    RowsComeFromLines(lines, i, reader);
    var l :| l in lines && Read(l, reader) == Row(Rows(lines, reader)[i]);
    assert Acceptable(l, env) && !Matches(l, e, env);
    if Stripped(l) == [] { BlankReads(l, reader); } else { StrictRowReads(l, env, reader); }
  }

  lemma CallKeepsOnce(d: Disk, a: Action, reader: Env)
    requires Valid(d) && a.Call? && Sound(a)
    requires OnceInEveryPrefix(d.content, reader)
    ensures OnceInEveryPrefix(Step(d, a).content, reader)
  {
    hide Lines, Rows, AllAcceptable, RecordCall, ValidRequest, NativeMetadata, Appended, Matches, UniqueKeys, Scan,
         Finite, SplitLines;
    var k := CallShape(d, a.e, a.requireFsync, a.io, a.env);
    var content' := Step(d, a).content;
    forall n: nat | n <= |content'| ensures UniqueKeys(Rows(Lines(content'[..n]), reader)) {
      if n <= |d.content| {
        assert content'[..n] == d.content[..n];
      } else {
        var m := n - |d.content|;
        assert content'[..n] == d.content + Appended(a.e)[..m];
        AppendKeepsUnique(d.content, a.e, m, a.env, reader);
      }
    }
  }

  lemma AppendKeepsUnique(s: seq<Sym>, e: QuotaEvent, k: nat, env: Env, reader: Env)
    requires NativeMetadata(e) && ValidRequest(e) && k <= |Appended(e)|
    requires AllAcceptable(Lines(s), env) && forall l <- Lines(s) :: !Matches(l, e, env)
    requires OnceInEveryPrefix(s, reader)
    ensures UniqueKeys(Rows(Lines(s + Appended(e)[..k]), reader))
  {
    ReadersAgree(Lines(s), env, reader);
    AppendRows(s, e, k, reader);
    RowsSnoc(SplitLines(s).done, SplitLines(s).cur, reader);
    hide Rows, AllAcceptable, ValidRequest, NativeMetadata, Appended, Matches, SplitLines, Read, LineOf, Stripped,
         UniqueKeys;
    assert s[..|s|] == s;
    var rows := Rows(Lines(s), reader);
    assert UniqueKeys(rows);
    forall i | 0 <= i < |rows| && e.idempotencyKey != "" ensures rows[i].idempotencyKey != e.idempotencyKey {
      NoRowMatches(Lines(s), e, env, reader, i);
    }
    UniqueSnoc(rows, e);
    UniquePrefix(Rows(SplitLines(s).done, reader), rows);
  }

  lemma UniqueSnoc(rows: seq<QuotaEvent>, e: QuotaEvent)
    requires UniqueKeys(rows)
    requires forall i | 0 <= i < |rows| && e.idempotencyKey != "" :: rows[i].idempotencyKey != e.idempotencyKey
    ensures UniqueKeys(rows + [e])
  {
  }

  lemma UniquePrefix(a: seq<QuotaEvent>, b: seq<QuotaEvent>)
    requires a <= b && UniqueKeys(b)
    ensures UniqueKeys(a)
  {
  }

  lemma CrashKeepsOnce(d: Disk, keep: nat, reader: Env)
    requires OnceInEveryPrefix(d.content, reader)
    ensures OnceInEveryPrefix(Step(d, Crash(keep)).content, reader)
  {
    hide Lines, Rows, UniqueKeys;
    var content' := Step(d, Crash(keep)).content;
    forall n: nat | n <= |content'| ensures UniqueKeys(Rows(Lines(content'[..n]), reader)) {
      assert content'[..n] == d.content[..n];
    }
  }

  lemma StepKeeps(d: Disk, a: Action, reader: Env)
    requires Valid(d) && Sound(a) && OnceInEveryPrefix(d.content, reader)
    ensures Valid(Step(d, a)) && OnceInEveryPrefix(Step(d, a).content, reader)
  {
    hide RecordCall, OnceInEveryPrefix;
    if a.Call? {
      var k := CallShape(d, a.e, a.requireFsync, a.io, a.env);
      CallKeepsOnce(d, a, reader);
    } else {
      CrashKeepsOnce(d, a.keep, reader);
    }
  }

  /** Exactly once: in every run from any file with unique keys in every prefix, and so
      from an empty one, no two readable rows ever share a non-empty key. */
  lemma {:induction false} ExactlyOnce(d: Disk, actions: seq<Action>, reader: Env)
    requires Valid(d) && OnceInEveryPrefix(d.content, reader)
    requires forall a <- actions :: Sound(a)
    ensures Valid(Run(d, actions))
    ensures UniqueKeys(Rows(Lines(Run(d, actions).content), reader))
    ensures OnceInEveryPrefix(Run(d, actions).content, reader)
    decreases |actions|
  {
    if actions == [] {
      assert d.content[..|d.content|] == d.content;
    } else {
      hide Step, OnceInEveryPrefix;
      StepKeeps(d, actions[0], reader);
      ExactlyOnce(Step(d, actions[0]), actions[1..], reader);
    }
  }

  lemma ExactlyOnceFromEmpty(actions: seq<Action>, reader: Env)
    requires forall a <- actions :: Sound(a)
    ensures Valid(Run(FRESH, actions))
    ensures UniqueKeys(Rows(Lines(Run(FRESH, actions).content), reader))
    ensures OnceInEveryPrefix(Run(FRESH, actions).content, reader)
  {
    assert Lines([]) == [[]];
    assert Rows([[]], reader) == [];
    assert forall n: nat :: n <= |FRESH.content| ==> FRESH.content[..n] == [];
    assert OnceInEveryPrefix(FRESH.content, reader);
    ExactlyOnce(FRESH, actions, reader);
  }

  // ----- Acknowledged rows -----

  /** Nothing but blanks follows the last line break: the caller's check that makes an
      append safe. */
  predicate CleanTail(content: seq<Sym>) { Stripped(SplitLines(content).cur) == [] }

  /** An acknowledged call with a barrier left the whole file durable. On the replay
      path the file is untouched and holds the returned row, the same observation under
      the same key. On the fresh path the rows are exactly the old ones and `e` if the
      tail was clean; otherwise the row on the unfinished last line is lost and `e` is
      not readable either. */
  lemma AcknowledgedIsDurable(d: Disk, e: QuotaEvent, io: Io, env: Env, reader: Env)
    requires Valid(d) && NativeMetadata(e)
    requires RecordCall(d, e, true, io, env).1.Accepted?
    ensures AllAcceptable(Lines(d.content), env) && Scan(Lines(d.content), e, None, env).Clear?
    ensures var (d', out) := RecordCall(d, e, true, io, env);
            var found := Scan(Lines(d.content), e, None, env).found;
            && d'.durable == |d'.content|
            && (found.Some? ==>
                  && d'.content == d.content && out.event == found.value && SameObservation(found.value, e)
                  && found.value.idempotencyKey == e.idempotencyKey != ""
                  && found.value in Rows(Lines(d.content), reader))
            && (found.None? ==>
                  && d'.content == d.content + Appended(e) && out.event == e
                  && Rows(Lines(d'.content), reader)
                     == if CleanTail(d.content) then Rows(Lines(d.content), reader) + [e]
                        else Rows(SplitLines(d.content).done, reader))
  {
    hide StrictRow, SameObservation, Stripped, Read, Rows, AllAcceptable, Finite, ValidRequest, NativeMetadata,
         SplitLines, Scan;
    var lines := Lines(d.content);
    ScanClear(lines, e, None, env);
    ReadersAgree(lines, env, reader);
    if Scan(lines, e, None, env) == Clear(None) {
      assert Appended(e)[..|Appended(e)|] == Appended(e);
      AppendRows(d.content, e, |Appended(e)|, reader);
      LineOfEnds(e);
    } else {
      var found := Scan(lines, e, None, env).found;
      var l :| l in lines && Matches(l, e, env) && StrictRow(l, env) == found && SameObservation(found.value, e);
      StrictRowReads(l, env, reader);
      LinesGiveRows(lines, l, reader);
    }
  }

  /** A first acknowledged append is readable, and costs no other row, exactly when the
      tail was clean before the call. */
  lemma AcknowledgedIsReadableIffCleanTail(d: Disk, e: QuotaEvent, io: Io, env: Env, reader: Env)
    requires Valid(d) && NativeMetadata(e)
    requires RecordCall(d, e, true, io, env).1.Accepted? && Scan(Lines(d.content), e, None, env) == Clear(None)
    ensures Rows(Lines(RecordCall(d, e, true, io, env).0.content), reader) == Rows(Lines(d.content), reader) + [e]
            <==> CleanTail(d.content)
  {
    hide RecordCall, Read, Scan, Stripped, NativeMetadata;
    AcknowledgedIsDurable(d, e, io, env, reader);
    RowsSnoc(SplitLines(d.content).done, SplitLines(d.content).cur, reader);
  }

  /** A finished line of the durable prefix holds the row. */
  ghost predicate Sealed(d: Disk, e: QuotaEvent, reader: Env) {
    d.durable <= |d.content| && exists l <- SplitLines(d.content[..d.durable]).done :: Read(l, reader) == Row(e)
  }

  lemma {:induction false} DoneGrows(a: seq<Sym>, b: seq<Sym>)
    ensures SplitLines(a).done <= SplitLines(a + b).done
  {
    if b == [] {
      assert a + b == a;
    } else {
      assert (a + b)[..|a + b| - 1] == a + b[..|b| - 1];
      DoneGrows(a, b[..|b| - 1]);
    }
  }

  lemma SealedStep(d: Disk, a: Action, e: QuotaEvent, reader: Env)
    requires Valid(d) && Sound(a) && Sealed(d, e, reader)
    ensures Valid(Step(d, a)) && Sealed(Step(d, a), e, reader)
  {
    hide SplitLines, Read, RecordCall, Appended, Lines, AllAcceptable, Matches, ValidRequest, NativeMetadata;
    var d' := Step(d, a);
    if a.Call? {
      var k := CallShape(d, a.e, a.requireFsync, a.io, a.env);
    }
    var old', new' := d.content[..d.durable], d'.content[..d'.durable];
    assert new' == old' + new'[|old'|..];
    DoneGrows(old', new'[|old'|..]);
    var l :| l in SplitLines(old').done && Read(l, reader) == Row(e);
    assert l in SplitLines(new').done;
  }

  /** A sealed row stays readable in every later state of every run. */
  lemma {:induction false} SealedForever(d: Disk, actions: seq<Action>, e: QuotaEvent, reader: Env)
    requires Valid(d) && Sealed(d, e, reader)
    requires forall a <- actions :: Sound(a)
    ensures Sealed(Run(d, actions), e, reader)
    ensures e in Rows(Lines(Run(d, actions).content), reader)
    decreases |actions|
  {
    hide Step, Sealed, Rows;
    if actions == [] {
      SealedIsReadable(d, e, reader);
    } else {
      SealedStep(d, actions[0], e, reader);
      SealedForever(Step(d, actions[0]), actions[1..], e, reader);
    }
  }

  lemma SealedIsReadable(d: Disk, e: QuotaEvent, reader: Env)
    requires Sealed(d, e, reader)
    ensures e in Rows(Lines(d.content), reader)
  {
    hide SplitLines, Read, Rows;
    var l :| l in SplitLines(d.content[..d.durable]).done && Read(l, reader) == Row(e);
    assert d.content == d.content[..d.durable] + d.content[d.durable..];
    DoneGrows(d.content[..d.durable], d.content[d.durable..]);
    assert l in Lines(d.content);
    LinesGiveRows(Lines(d.content), l, reader);
  }

  /** Durability of acknowledgements: the event that an accepted call with a barrier returns
      is readable for ever, whatever calls, failures and crashes follow, if and only if it is
      sealed when the call returns. */
  lemma AcknowledgedForeverIffSealed(d: Disk, e: QuotaEvent, io: Io, env: Env, reader: Env)
    requires Valid(d) && NativeMetadata(e)
    requires RecordCall(d, e, true, io, env).1.Accepted?
    ensures var (d', out) := RecordCall(d, e, true, io, env);
            ReadableForever(d', out.event, reader) <==> Sealed(d', out.event, reader)
  {
    var k := CallShape(d, e, true, io, env);
    hide RecordCall, Sealed, Rows, Run, Sound;
    var (d', out) := RecordCall(d, e, true, io, env);
    if Sealed(d', out.event, reader) {
      forall later: seq<Action> | AllSound(later) ensures out.event in Rows(Lines(Run(d', later).content), reader) {
        SealedForever(d', later, out.event, reader);
      }
    } else {
      NotSealedIsLost(d, e, io, env, reader);
    }
  }

  ghost predicate AllSound(actions: seq<Action>) { forall a <- actions :: Sound(a) }

  ghost predicate ReadableForever(d: Disk, e: QuotaEvent, reader: Env) {
    forall later: seq<Action> :: AllSound(later) ==> e in Rows(Lines(Run(d, later).content), reader)
  }

  /** The same condition on the file before the call: the row is readable for ever if and only
      if the file ended in a finished line, or a finished line of it already read as the
      event. */
  lemma AcknowledgedForever(d: Disk, e: QuotaEvent, io: Io, env: Env, reader: Env)
    requires Valid(d) && NativeMetadata(e)
    requires RecordCall(d, e, true, io, env).1.Accepted?
    ensures var (d', out) := RecordCall(d, e, true, io, env);
            ReadableForever(d', out.event, reader)
            <==> CleanTail(d.content) || OnFinishedLine(d.content, out.event, reader)
  {
    hide RecordCall, Sealed, ReadableForever, OnFinishedLine, CleanTail;
    AcknowledgedForeverIffSealed(d, e, io, env, reader);
    SealedIff(d, e, io, env, reader);
  }

  ghost predicate OnFinishedLine(content: seq<Sym>, e: QuotaEvent, reader: Env) {
    exists l <- SplitLines(content).done :: Read(l, reader) == Row(e)
  }

  lemma SealedIff(d: Disk, e: QuotaEvent, io: Io, env: Env, reader: Env)
    requires Valid(d) && NativeMetadata(e)
    requires RecordCall(d, e, true, io, env).1.Accepted?
    ensures var (d', out) := RecordCall(d, e, true, io, env);
            Sealed(d', out.event, reader) <==> CleanTail(d.content) || OnFinishedLine(d.content, out.event, reader)
  {
    hide RecordCall, SplitLines, Read, Scan, Rows, Stripped, StrictRow, Appended, AllAcceptable, SameObservation,
         NativeMetadata, ValidRequest;
    AcknowledgedIsDurable(d, e, io, env, reader);
    AcceptedIsValid(d, e, true, io, env);
    var (d', out) := RecordCall(d, e, true, io, env);
    assert d'.content[..d'.durable] == d'.content;
    var found := Scan(Lines(d.content), e, None, env).found;
    if found.Some? {
      if CleanTail(d.content) { ReplayedLine(d.content, e, env, reader); }
    } else if CleanTail(d.content) {
      AppendedLine(d.content, e, env, reader);
      assert SplitLines(d.content).cur + LineOf(e) in SplitLines(d'.content).done;
    } else {
      MergedAppend(d.content, e, env, reader);
    }
  }

  /** Appending to an unfinished line finishes that line and leaves it unreadable. */
  lemma MergedAppend(s: seq<Sym>, e: QuotaEvent, env: Env, reader: Env)
    requires NativeMetadata(e) && AllAcceptable(Lines(s), env) && !CleanTail(s)
    ensures var split := SplitLines(s);
            && SplitLines(s + Appended(e)) == Split(split.done + [split.cur + LineOf(e)], [])
            && Read(split.cur + LineOf(e), reader) == Skipped && !Acceptable(split.cur + LineOf(e), env)
  {
    hide SplitLines, Read, NativeMetadata, Acceptable, Stripped;
    LineOfEnds(e);
    assert Appended(e)[..|Appended(e)|] == Appended(e) && LineOf(e)[..|LineOf(e)|] == LineOf(e);
    hide LineOf;
    AppendSplits(s, e, |Appended(e)|);
    var cur := SplitLines(s).cur;
    assert cur in Lines(s);
    MergedLineIsSkipped(cur, e, |LineOf(e)|, env);
    ReadersAgree(Lines(s), env, reader);
    MergedLineIsSkipped(cur, e, |LineOf(e)|, reader);
  }

  /** An event that is not sealed is unreadable at once, or lost to one keyless call. */
  lemma NotSealedIsLost(d: Disk, e: QuotaEvent, io: Io, env: Env, reader: Env)
    requires Valid(d) && NativeMetadata(e)
    requires RecordCall(d, e, true, io, env).1.Accepted?
    requires var (d', out) := RecordCall(d, e, true, io, env); !Sealed(d', out.event, reader)
    ensures var (d', out) := RecordCall(d, e, true, io, env); !ReadableForever(d', out.event, reader)
  {
    hide RecordCall, SplitLines, Read, Scan, Rows, Stripped, StrictRow, Appended, AllAcceptable, SameObservation,
         NativeMetadata, ValidRequest;
    AcknowledgedIsDurable(d, e, io, env, reader);
    AcceptedIsValid(d, e, true, io, env);
    SealedIff(d, e, io, env, reader);
    var (d', out) := RecordCall(d, e, true, io, env);
    NotOnFinishedLine(d.content, out.event, reader);
    if Scan(Lines(d.content), e, None, env).found.None? {
      assert Run(d', []) == d';
      assert AllSound([]);
    } else {
      var keyless, good := e.(idempotencyKey := ""), Io(true, true, 0, true);
      var later := [Call(keyless, true, good, env)];
      KeylessCall(d', e, env, reader);
      assert Sound(later[0]) && AllSound(later);
      assert later[1..] == [] && Run(d', later) == Step(d', later[0]);
    }
  }

  lemma NotOnFinishedLine(s: seq<Sym>, e: QuotaEvent, reader: Env)
    requires !OnFinishedLine(s, e, reader)
    ensures e !in Rows(SplitLines(s).done, reader)
  {
    hide SplitLines, Read;
    var done := SplitLines(s).done;
    if i: nat :| i < |Rows(done, reader)| && Rows(done, reader)[i] == e {
      RowsComeFromLines(done, i, reader);
    }
  }

  /** A call without a key is appended to any accepted file, and after an unfinished line it
      leaves only the rows of the finished ones. */
  lemma KeylessCall(d: Disk, e: QuotaEvent, env: Env, reader: Env)
    requires Valid(d) && NativeMetadata(e) && ValidRequest(e)
    requires AllAcceptable(Lines(d.content), env) && !CleanTail(d.content)
    ensures var keyless := e.(idempotencyKey := "");
            && NativeMetadata(keyless)
            && Rows(Lines(RecordCall(d, keyless, true, Io(true, true, 0, true), env).0.content), reader)
               == Rows(SplitLines(d.content).done, reader)
  {
    var keyless, good := e.(idempotencyKey := ""), Io(true, true, 0, true);
    JsonFinite(e);
    hide StrictRow, Stripped, LineOf, SplitLines, Finite, Read, Rows, SameObservation, AllAcceptable;
    assert NativeMetadata(keyless) && ValidRequest(keyless) && Finite(JObj(keyless.metadata));
    hide NativeMetadata, ValidRequest;
    KeylessScan(Lines(d.content), keyless, None, env);
    assert RecordCall(d, keyless, true, good, env).1 == Accepted(keyless);
    AcknowledgedIsDurable(d, keyless, good, env, reader);
  }

  lemma {:induction false} KeylessScan(lines: seq<Line>, e: QuotaEvent, found: Option<QuotaEvent>, env: Env)
    requires AllAcceptable(lines, env) && e.idempotencyKey == ""
    ensures Scan(lines, e, found, env) == Clear(found)
    decreases |lines|
  {
    hide StrictRow, Stripped, SameObservation;
    if lines != [] {
      assert lines[0] in lines && Acceptable(lines[0], env);
      KeylessScan(lines[1..], e, found, env);
    }
  }

  lemma AcceptedIsValid(d: Disk, e: QuotaEvent, requireFsync: bool, io: Io, env: Env)
    requires RecordCall(d, e, requireFsync, io, env).1.Accepted?
    ensures ValidRequest(e)
  {
    hide ValidRequest, Finite, Scan;
  }

  /** Appending after a clean tail finishes one line that reads as the event. */
  lemma AppendedLine(s: seq<Sym>, e: QuotaEvent, env: Env, reader: Env)
    requires NativeMetadata(e) && ValidRequest(e) && CleanTail(s)
    ensures SplitLines(s + Appended(e)) == Split(SplitLines(s).done + [SplitLines(s).cur + LineOf(e)], [])
    ensures StrictRow(SplitLines(s).cur + LineOf(e), env) == Some(e)
    ensures Stripped(SplitLines(s).cur + LineOf(e)) != []
    ensures Read(SplitLines(s).cur + LineOf(e), reader) == Row(e)
  {
    hide SplitLines, Read, StrictRow, NativeMetadata, ValidRequest, LineOf, Stripped;
    assert Appended(e)[..|Appended(e)|] == Appended(e);
    AppendSplits(s, e, |Appended(e)|);
    WrittenLineReads(SplitLines(s).cur, e, env);
    StrictRowReads(SplitLines(s).cur + LineOf(e), env, reader);
  }

  /** With a clean tail, the row a replay returns is on a finished line. */
  lemma ReplayedLine(s: seq<Sym>, e: QuotaEvent, env: Env, reader: Env)
    requires CleanTail(s) && Scan(Lines(s), e, None, env).Clear? && Scan(Lines(s), e, None, env).found.Some?
    ensures exists l <- SplitLines(s).done :: Read(l, reader) == Row(Scan(Lines(s), e, None, env).found.value)
  {
    hide StrictRow, SameObservation, Read, Scan, Stripped, SplitLines;
    ScanClear(Lines(s), e, None, env);
    var found := Scan(Lines(s), e, None, env).found;
    var l :| l in Lines(s) && Matches(l, e, env) && StrictRow(l, env) == found;
    StrictRowReads(l, env, reader);
    assert l in SplitLines(s).done;
  }

  /** The first call on an empty ledger is acknowledged, and its row is the one row. */
  lemma FirstCallIsAcknowledged(e: QuotaEvent, env: Env, reader: Env)
    requires NativeMetadata(e) && ValidRequest(e)
    ensures RecordCall(FRESH, e, true, Io(true, true, 0, true), env) == (Disk(Appended(e), |Appended(e)|), Accepted(e))
    ensures CleanTail(FRESH.content) && Rows(Lines(Appended(e)), reader) == [e]
  {
    hide NativeMetadata, ValidRequest, LineOf, Finite, StrictRow, Stripped, Scan, Read, SplitLines, SameObservation,
         Rows, Appended;
    EmptyFile(env);
    JsonFinite(e);
    assert [] + Appended(e) == Appended(e);
    AcknowledgedIsDurable(FRESH, e, Io(true, true, 0, true), env, reader);
    EmptyRows(reader);
    assert [] + [e] == [e];
  }

  lemma EmptyRows(reader: Env)
    ensures Rows(Lines([]), reader) == []
  {
    assert Lines([]) == [[]];
    assert Rows([[]], reader) == [];
  }

  /** On a clean tail an accepted call adds its row, or, as a replay, none. */
  lemma AcceptedRows(d: Disk, e: QuotaEvent, requireFsync: bool, io: Io, env: Env, reader: Env)
    requires NativeMetadata(e) && CleanTail(d.content)
    requires RecordCall(d, e, requireFsync, io, env).1.Accepted?
    ensures Rows(Lines(RecordCall(d, e, requireFsync, io, env).0.content), reader)
            == Rows(Lines(d.content), reader) + if Scan(Lines(d.content), e, None, env) == Clear(None) then [e] else []
  {
    hide StrictRow, SameObservation, Stripped, Read, Rows, AllAcceptable, Finite, ValidRequest, NativeMetadata,
         SplitLines, Scan;
    LineOfEnds(e);
    if Scan(Lines(d.content), e, None, env) == Clear(None) {
      ScanClear(Lines(d.content), e, None, env);
      ReadersAgree(Lines(d.content), env, reader);
      AcceptedIsValid(d, e, requireFsync, io, env);
      assert Appended(e)[..|Appended(e)|] == Appended(e);
      AppendRows(d.content, e, |Appended(e)|, reader);
    }
  }

  /** The latest-event table can be kept up to date call by call: an accepted first call on a
      clean tail upserts its own event, and a replay changes nothing. */
  lemma LatestAfterCall<K>(d: Disk, e: QuotaEvent, requireFsync: bool, io: Io, env: Env, reader: Env,
                               key: QuotaEvent -> K, at: QuotaEvent -> int)
    requires NativeMetadata(e) && CleanTail(d.content)
    requires RecordCall(d, e, requireFsync, io, env).1.Accepted?
    ensures var before := LatestEvents.Latest(Rows(Lines(d.content), reader), key, at);
            var after := RecordCall(d, e, requireFsync, io, env).0;
            LatestEvents.Latest(Rows(Lines(after.content), reader), key, at)
            == if Scan(Lines(d.content), e, None, env) == Clear(None)
               then LatestEvents.Upsert(before, e, key, at) else before
  {
    hide RecordCall, Rows, Lines, Scan, CleanTail, NativeMetadata, LatestEvents.Upsert;
    AcceptedRows(d, e, requireFsync, io, env, reader);
    var rows := Rows(Lines(d.content), reader);
    assert (rows + [e])[..|rows|] == rows && rows + [] == rows;
  }

  // ----- Which observations are the same -----

  /** A call under a key that the file holds for just one row. It conflicts, and changes nothing,
      if and only if row and event differ in backend, account, kind, cost model, window, use,
      remainder, unit, confidence, window bounds, reset, reserve floor, overage or metadata;
      otherwise it is a replay of that row, whatever its timestamp and prose say. */
  lemma ConflictIff(d: Disk, e: QuotaEvent, r: QuotaEvent, requireFsync: bool, io: Io, env: Env)
    requires ValidRequest(e) && Finite(JObj(e.metadata)) && io.readOk && e.idempotencyKey != ""
    requires AllAcceptable(Lines(d.content), env)
    requires r in StrictRows(Lines(d.content), env) && r.idempotencyKey == e.idempotencyKey
    requires forall x <- StrictRows(Lines(d.content), env) :: x.idempotencyKey == e.idempotencyKey ==> x == r
    ensures RecordCall(d, e, requireFsync, io, env) == (d, IdempotencyConflict) <==>
              || r.backendId != e.backendId || r.accountId != e.accountId || r.eventType != e.eventType
              || r.costModel != e.costModel || r.windowKind != e.windowKind || r.unitsUsed != e.unitsUsed
              || r.unitsRemaining != e.unitsRemaining || r.unitName != e.unitName || r.confidence != e.confidence
              || r.windowStart != e.windowStart || r.windowEnd != e.windowEnd || r.resetAt != e.resetAt
              || r.reserveFloor != e.reserveFloor || r.overage != e.overage
              || !PyEq(JObj(r.metadata), JObj(e.metadata))
    ensures RecordCall(d, e, requireFsync, io, env) != (d, IdempotencyConflict) ==>
              RecordCall(d, e, requireFsync, io, env) ==
              if !requireFsync then (d, Accepted(r))
              else if io.writeOk && io.fsyncOk then (Disk(d.content, |d.content|), Accepted(r))
              else (d, DurabilityError)
  {
    hide StrictRow, Stripped, SplitLines, ValidRequest, Finite, PyEq;
    ScanOfKey(Lines(d.content), e, r, None, env);
    SameFields(r, e);
    hide Scan, StrictRows, SameObservation;
  }

  lemma SameFields(a: QuotaEvent, b: QuotaEvent)
    ensures SameObservation(a, b) <==>
              && a.backendId == b.backendId && a.accountId == b.accountId && a.eventType == b.eventType
              && a.costModel == b.costModel && a.windowKind == b.windowKind && a.unitsUsed == b.unitsUsed
              && a.unitsRemaining == b.unitsRemaining && a.unitName == b.unitName && a.confidence == b.confidence
              && a.windowStart == b.windowStart && a.windowEnd == b.windowEnd && a.resetAt == b.resetAt
              && a.reserveFloor == b.reserveFloor && a.overage == b.overage
              && PyEq(JObj(a.metadata), JObj(b.metadata))
  {
    hide PyEq;
  }

  /** The scan of an accepted file where one row carries the key. */
  lemma {:induction false} ScanOfKey(lines: seq<Line>, e: QuotaEvent, r: QuotaEvent, found: Option<QuotaEvent>,
                                     env: Env)
    requires AllAcceptable(lines, env) && e.idempotencyKey != "" && r.idempotencyKey == e.idempotencyKey
    requires forall x <- StrictRows(lines, env) :: x.idempotencyKey == e.idempotencyKey ==> x == r
    ensures Scan(lines, e, found, env) ==
            if r !in StrictRows(lines, env) then Clear(found)
            else if SameObservation(r, e) then Clear(Some(r))
            else Conflict
    decreases |lines|
  {
    hide StrictRow, Stripped, SameObservation;
    if lines != [] {
      StrictRowsCons(lines, env);
      assert lines[0] in lines && Acceptable(lines[0], env);
      var row := StrictRow(lines[0], env);
      if Stripped(lines[0]) != [] && row == Some(r) {
        if SameObservation(r, e) { ScanOfKey(lines[1..], e, r, Some(r), env); }
      } else {
        ScanOfKey(lines[1..], e, r, found, env);
      }
    }
  }

  lemma {:induction false} StrictRowsCons(lines: seq<Line>, env: Env)
    requires lines != []
    ensures var own := if Stripped(lines[0]) == [] || StrictRow(lines[0], env).None? then []
                       else [StrictRow(lines[0], env).value];
            StrictRows(lines, env) == own + StrictRows(lines[1..], env)
    decreases |lines|
  {
    hide StrictRow, Stripped;
    var front := lines[..|lines| - 1];
    if front == [] {
      assert lines[1..] == [];
    } else {
      StrictRowsCons(front, env);
      assert front[1..] == lines[1..][..|lines[1..]| - 1] && front[0] == lines[0];
    }
  }

  // ----- The unclean tail -----

  /** A write that tears exactly before its line break is acknowledged on retry, and the
      next acknowledged append destroys both rows: nothing is readable, although both
      calls returned after a successful barrier. */
  lemma AcknowledgedRowsLost(e1: QuotaEvent, e2: QuotaEvent, env: Env, reader: Env)
    requires NativeMetadata(e1) && NativeMetadata(e2) && ValidRequest(e1) && ValidRequest(e2)
    requires e1.idempotencyKey != "" && e2.idempotencyKey != e1.idempotencyKey
    ensures var torn := RecordCall(FRESH, e1, true, Io(true, false, |LineOf(e1)|, true), env);
            var retried := RecordCall(torn.0, e1, true, Io(true, true, 0, true), env);
            var next := RecordCall(retried.0, e2, true, Io(true, true, 0, true), env);
            && torn.1 == WriteError && retried.1 == Accepted(e1) && next.1 == Accepted(e2)
            && next.0.durable == |next.0.content|
            && Rows(Lines(next.0.content), reader) == []
  {
    hide NativeMetadata, ValidRequest, LineOf, Finite, StrictRow, Stripped, Scan, Read, SplitLines, SameObservation,
         Rows;
    var good := Io(true, true, 0, true);
    var line := LineOf(e1);
    JsonFinite(e1);
    JsonFinite(e2);
    SameObservationReflexive(e1);
    EmptyFile(env);
    TornBeforeBreak(e1, env, reader);
    OneLineScan(line, e1, e1, env);
    OneLineScan(line, e1, e2, env);
    TornCall(e1, env);
    assert RecordCall(Disk(line, 0), e1, true, good, env) == (Disk(line, |line|), Accepted(e1));
    LostByNextCall(line, e2, env, reader);
  }

  lemma TornCall(e: QuotaEvent, env: Env)
    requires ValidRequest(e) && Finite(JObj(e.metadata)) && Scan(Lines([]), e, None, env) == Clear(None)
    ensures RecordCall(FRESH, e, true, Io(true, false, |LineOf(e)|, true), env) == (Disk(LineOf(e), 0), WriteError)
  {
    hide ValidRequest, LineOf, Finite, Scan, SplitLines;
    assert Appended(e)[..|LineOf(e)|] == LineOf(e) && [] + LineOf(e) == LineOf(e);
  }

  lemma LostByNextCall(line: Line, e: QuotaEvent, env: Env, reader: Env)
    requires NativeMetadata(e) && ValidRequest(e) && Finite(JObj(e.metadata))
    requires SplitLines(line) == Split([], line) && Stripped(line) != []
    requires Scan([line], e, None, env) == Clear(None)
    ensures var (d', out) := RecordCall(Disk(line, |line|), e, true, Io(true, true, 0, true), env);
            out == Accepted(e) && d'.durable == |d'.content| && Rows(Lines(d'.content), reader) == []
  {
    hide NativeMetadata, ValidRequest, LineOf, Finite, StrictRow, Stripped, Scan, Read, SplitLines, Rows;
    var d, good := Disk(line, |line|), Io(true, true, 0, true);
    assert Lines(line) == [line];
    assert RecordCall(d, e, true, good, env).1 == Accepted(e);
    AcknowledgedIsDurable(d, e, good, env, reader);
    NoRows(reader);
  }

  lemma NoRows(reader: Env)
    ensures Rows([], reader) == []
  {
  }

  /** The line alone, without its break, is an unfinished line that reads as the row. */
  lemma TornBeforeBreak(e: QuotaEvent, env: Env, reader: Env)
    requires NativeMetadata(e) && ValidRequest(e)
    ensures SplitLines(LineOf(e)) == Split([], LineOf(e)) && Lines(LineOf(e)) == [LineOf(e)]
    ensures StrictRow(LineOf(e), env) == Some(e) && Stripped(LineOf(e)) != []
  {
    LineOfHasNoBreak(e);
    SplitAppend([], LineOf(e));
    EmptyFile(env);
    hide NativeMetadata, ValidRequest, LineOf, StrictRow, Stripped, Read;
    assert [] + LineOf(e) == LineOf(e);
    WrittenLineReads([], e, env);
    StrictRowReads(LineOf(e), env, reader);
  }

  lemma JsonFinite(e: QuotaEvent)
    requires NativeMetadata(e)
    ensures Finite(JObj(e.metadata))
  {
    JsonProofs.NativeIsFinite(JObj(e.metadata));
  }

  lemma EmptyFile(env: Env)
    ensures SplitLines([]) == Split([], []) && Stripped([]) == []
    ensures forall e: QuotaEvent :: Scan(Lines([]), e, None, env) == Clear(None)
  {
  }

  lemma OneLineScan(line: Line, row: QuotaEvent, proposed: QuotaEvent, env: Env)
    requires Stripped(line) != [] && StrictRow(line, env) == Some(row)
    ensures Scan([line], proposed, None, env)
         == if proposed.idempotencyKey == "" || row.idempotencyKey != proposed.idempotencyKey then Clear(None)
            else if !SameObservation(row, proposed) then Conflict
            else Clear(Some(row))
  {
    hide StrictRow, SameObservation, Stripped;
    assert [line][1..] == [];
  }

  // ----- The ledger does not block itself -----

  ghost predicate Healthy(content: seq<Sym>, env: Env) { AllAcceptable(Lines(content), env) && CleanTail(content) }

  /** From a healthy file, a call whose reads and writes succeed never fails the scan
      and leaves the file healthy, whether or not the barrier succeeds. */
  lemma HealthyCall(d: Disk, e: QuotaEvent, requireFsync: bool, io: Io, env: Env)
    requires NativeMetadata(e) && Healthy(d.content, env) && io.readOk && io.writeOk
    ensures var (d', out) := RecordCall(d, e, requireFsync, io, env);
            Healthy(d'.content, env) && !out.ReadError? && !out.WriteError?
  {
    hide StrictRow, Stripped, LineOf, SplitLines, ValidRequest, NativeMetadata, Finite, Scan;
    var lines := Lines(d.content);
    ScanNotCorrupt(lines, e, None, env);
    if ValidRequest(e) && Scan(lines, e, None, env) == Clear(None) { HealthyAppend(d.content, e, env); }
  }

  lemma HealthyAppend(s: seq<Sym>, e: QuotaEvent, env: Env)
    requires NativeMetadata(e) && ValidRequest(e) && Healthy(s, env)
    ensures Healthy(s + Appended(e), env)
  {
    hide StrictRow, Stripped, LineOf, SplitLines, ValidRequest, NativeMetadata, Appended;
    AppendedLine(s, e, env, env);
    EmptyFile(env);
    var lines := Lines(s + Appended(e));
    forall l | l in lines ensures Acceptable(l, env) { assert l in SplitLines(s).done ==> l in Lines(s); }
  }

  ghost predicate Unfailing(a: Action) { a.Call? && NativeMetadata(a.e) && a.io.readOk && a.io.writeOk }

  lemma HealthyUnderEnv(content: seq<Sym>, env: Env, other: Env)
    requires Healthy(content, env)
    ensures Healthy(content, other)
  {
    ReadersAgree(Lines(content), env, other);
  }

  /** The ledger never blocks itself: after any run of calls whose reads and writes
      succeed, the next call finds every line acceptable. */
  lemma {:induction false} NeverBlocksItself(d: Disk, actions: seq<Action>, env: Env)
    requires Healthy(d.content, env)
    requires forall a <- actions :: Unfailing(a)
    ensures Healthy(Run(d, actions).content, env)
    decreases |actions|
  {
    if actions != [] {
      var a := actions[0];
      assert Unfailing(a);
      HealthyUnderEnv(d.content, env, a.env);
      HealthyCall(d, a.e, a.requireFsync, a.io, a.env);
      HealthyUnderEnv(Step(d, a).content, a.env, env);
      hide Healthy, RecordCall;
      NeverBlocksItself(Step(d, a), actions[1..], env);
    }
  }

  // ----- A torn tail blocks -----

  /** What any part of a line does to an accepted file: it stays accepted exactly when nothing
      was written, or the whole line after a finished one. */
  lemma PartialAppend(s: seq<Sym>, e: QuotaEvent, k: nat, env: Env)
    requires NativeMetadata(e) && ValidRequest(e) && AllAcceptable(Lines(s), env) && k <= |Appended(e)|
    ensures AllAcceptable(Lines(s + Appended(e)[..k]), env) <==> k == 0 || (CleanTail(s) && k >= |LineOf(e)|)
    ensures k > 0 && !(CleanTail(s) && k >= |LineOf(e)|) ==>
              var n := if k <= |LineOf(e)| then k else |LineOf(e)|;
              !Acceptable(SplitLines(s).cur + LineOf(e)[..n], env)
  {
    hide SplitLines, Acceptable, LineOf, ValidRequest, NativeMetadata, Stripped, StrictRow;
    AppendSplits(s, e, k);
    EmptyFile(env);
    LineOfEnds(e);
    var n := if k <= |LineOf(e)| then k else |LineOf(e)|;
    var cur := SplitLines(s).cur;
    assert cur in Lines(s);
    var s' := s + Appended(e)[..k];
    assert k > 0 ==> Lines(s')[|SplitLines(s).done|] == cur + LineOf(e)[..n];
    if k == 0 {
      assert s' == s;
    } else if !CleanTail(s) {
      MergedLineIsSkipped(cur, e, n, env);
    } else if k < |LineOf(e)| {
      TornLineIsSkipped(cur, e, k, env);
    } else {
      assert LineOf(e)[..n] == LineOf(e);
      WholeAppend(s, e, k, env);
    }
  }

  lemma WholeAppend(s: seq<Sym>, e: QuotaEvent, k: nat, env: Env)
    requires NativeMetadata(e) && ValidRequest(e) && AllAcceptable(Lines(s), env) && CleanTail(s)
    requires |LineOf(e)| <= k <= |Appended(e)|
    ensures AllAcceptable(Lines(s + Appended(e)[..k]), env)
  {
    hide SplitLines, LineOf, ValidRequest, NativeMetadata, Stripped, StrictRow;
    WrittenLineReads(SplitLines(s).cur, e, env);
    AppendSplits(s, e, k);
    EmptyFile(env);
    assert LineOf(e)[..|LineOf(e)|] == LineOf(e);
    forall l | l in Lines(s + Appended(e)[..k]) ensures Acceptable(l, env) {
      assert l in SplitLines(s).done ==> l in Lines(s);
    }
  }

  /** A failed write leaves a file that no scan accepts exactly when it left something and
      either less than its line or a line merged with an unfinished one. */
  lemma TornCallBlocks(d: Disk, e: QuotaEvent, requireFsync: bool, io: Io, env: Env)
    requires NativeMetadata(e) && AllAcceptable(Lines(d.content), env)
    requires RecordCall(d, e, requireFsync, io, env).1 == WriteError
    ensures !AllAcceptable(Lines(RecordCall(d, e, requireFsync, io, env).0.content), env)
            <==> io.written > 0 && (CleanTail(d.content) ==> io.written < |LineOf(e)|)
  {
    var k := if io.written < |Appended(e)| then io.written else |Appended(e)|;
    hide SplitLines, Acceptable, LineOf, Scan, ValidRequest, NativeMetadata, Finite, Stripped, AllAcceptable;
    PartialAppend(d.content, e, k, env);
  }

  /** While one line is not acceptable, no call is accepted and the file never changes,
      so a torn row can neither be duplicated nor written over. */
  lemma BlockedCall(d: Disk, e: QuotaEvent, requireFsync: bool, io: Io, env: Env)
    requires !AllAcceptable(Lines(d.content), env)
    ensures var (d', out) := RecordCall(d, e, requireFsync, io, env);
            d' == d && (out.InvalidRequest? || out.ReadError? || out.IdempotencyConflict?)
  {
    hide AllAcceptable, Lines, Scan, ValidRequest, Finite;
    if Scan(Lines(d.content), e, None, env).Clear? { ScanClear(Lines(d.content), e, None, env); }
  }

  lemma {:induction false} BlockedRun(d: Disk, actions: seq<Action>, env: Env)
    requires !AllAcceptable(Lines(d.content), env)
    requires forall a <- actions :: a.Call?
    ensures Run(d, actions) == d
    decreases |actions|
  {
    if actions != [] {
      var a := actions[0];
      if AllAcceptable(Lines(d.content), a.env) { ReadersAgree(Lines(d.content), a.env, env); }
      BlockedCall(d, a.e, a.requireFsync, a.io, a.env);
      hide AllAcceptable, RecordCall;
      BlockedRun(d, actions[1..], env);
    }
  }

  // ----- Retry -----

  const GOOD := Io(true, true, 0, true)

  /** What a failed first call leaves, by the number of symbols it wrote. */
  function Torn(d: Disk, e: QuotaEvent, k: nat): Disk
    requires k <= |Appended(e)|
  {
    Disk(d.content + Appended(e)[..k], d.durable)
  }

  /** A retry after a write that left `k` symbols: nothing left, it appends as if for the first
      time; the whole line after a finished one, with or without its break, it replays and
      repeats the barrier; anything else, it is refused and changes nothing. */
  lemma RetryAfterTornWrite(d: Disk, e: QuotaEvent, requireFsync: bool, k: nat, env: Env)
    requires Valid(d) && NativeMetadata(e) && ValidRequest(e) && e.idempotencyKey != ""
    requires Scan(Lines(d.content), e, None, env) == Clear(None) && k <= |Appended(e)|
    ensures RecordCall(d, e, requireFsync, Io(true, false, k, true), env) == (Torn(d, e, k), WriteError)
    ensures RecordCall(Torn(d, e, k), e, true, GOOD, env) ==
            if k == 0 then (Disk(d.content + Appended(e), |d.content + Appended(e)|), Accepted(e))
            else if CleanTail(d.content) && k >= |LineOf(e)| then
              (Disk(Torn(d, e, k).content, |Torn(d, e, k).content|), Accepted(e))
            else (Torn(d, e, k), ReadError)
  {
    hide StrictRow, Stripped, LineOf, SplitLines, ValidRequest, NativeMetadata, Finite, SameObservation, Scan, Appended;
    JsonFinite(e);
    assert Appended(e)[..|Appended(e)|] == Appended(e);
    RetryScan(d.content, e, k, env);
    if k == 0 { assert d.content + Appended(e)[..0] == d.content; }
  }

  /** After a failed barrier the row is in the file but not acknowledged; a retry appends
      nothing, repeats the barrier and returns the same event, unless the row was merged with
      an unfinished line, which every later scan refuses. */
  lemma RetryAfterFailedBarrier(d: Disk, e: QuotaEvent, env: Env)
    requires Valid(d) && NativeMetadata(e) && ValidRequest(e) && e.idempotencyKey != ""
    requires Scan(Lines(d.content), e, None, env) == Clear(None)
    ensures var (d1, failed) := RecordCall(d, e, true, Io(true, true, 0, false), env);
            var retry := RecordCall(d1, e, true, GOOD, env);
            && failed == DurabilityError && d1 == Disk(d.content + Appended(e), d.durable)
            && retry == if CleanTail(d.content) then (Disk(d1.content, |d1.content|), Accepted(e)) else (d1, ReadError)
  {
    hide StrictRow, Stripped, LineOf, SplitLines, ValidRequest, NativeMetadata, Finite, SameObservation, Scan;
    JsonFinite(e);
    assert Appended(e)[..|Appended(e)|] == Appended(e);
    RetryAfterTornWrite(d, e, true, |Appended(e)|, env);
  }

  /** What the retry's scan finds. */
  lemma RetryScan(s: seq<Sym>, e: QuotaEvent, k: nat, env: Env)
    requires NativeMetadata(e) && ValidRequest(e) && e.idempotencyKey != ""
    requires Scan(Lines(s), e, None, env) == Clear(None) && k <= |Appended(e)|
    ensures Scan(Lines(s + Appended(e)[..k]), e, None, env) ==
            if k == 0 then Clear(None)
            else if CleanTail(s) && k >= |LineOf(e)| then Clear(Some(e))
            else Corrupt
  {
    hide StrictRow, Stripped, SplitLines, ValidRequest, NativeMetadata, SameObservation, Scan;
    ScanClear(Lines(s), e, None, env);
    PartialAppend(s, e, k, env);
    AppendSplits(s, e, k);
    SameObservationReflexive(e);
    EmptyFile(env);
    LineOfEnds(e);
    if k == 0 {
      assert s + Appended(e)[..0] == s;
    } else {
      var done, cur := SplitLines(s).done, SplitLines(s).cur;
      var n := if k <= |LineOf(e)| then k else |LineOf(e)|;
      assert LineOf(e)[..|LineOf(e)|] == LineOf(e);
      var line := cur + LineOf(e)[..n];
      var rest: seq<Line> := if k <= |LineOf(e)| then [] else [[]];
      assert Lines(s + Appended(e)[..k]) == done + [line] + rest;
      forall l | l in done ensures Acceptable(l, env) && !Matches(l, e, env) { assert l in Lines(s); }
      if CleanTail(s) && k >= |LineOf(e)| {
        WrittenLineReads(cur, e, env);
        WrittenIsNotBlank(cur, e, env);
      }
      hide LineOf;
      ScanFindsLast(done, line, rest, e, env);
    }
  }

  lemma WrittenIsNotBlank(pad: Line, e: QuotaEvent, env: Env)
    requires StrictRow(pad + LineOf(e), env) == Some(e)
    ensures Stripped(pad + LineOf(e)) != []
  {
    hide Stripped, LineOf;
    EmptyIsNotJson();
  }

  /** A scan over lines without a match ends with what the last line that is not blank is. */
  lemma {:induction false} ScanFindsLast(before: seq<Line>, line: Line, rest: seq<Line>, e: QuotaEvent, env: Env)
    requires AllAcceptable(before, env) && forall l <- before :: !Matches(l, e, env)
    requires e.idempotencyKey != "" && SameObservation(e, e) && Stripped(line) != []
    requires StrictRow(line, env) == Some(e) || StrictRow(line, env) == None
    requires Stripped([]) == [] && (rest == [] || rest == [[]])
    ensures Scan(before + [line] + rest, e, None, env) == if StrictRow(line, env).Some? then Clear(Some(e)) else Corrupt
    decreases |before|
  {
    hide StrictRow, Stripped, SameObservation;
    if before == [] {
      var blank: Line := [];
      assert before + [line] + rest == [line] + rest;
      assert ([line] + rest)[1..] == rest;
      if rest != [] { assert rest == [blank] && rest[1..] == []; }
      assert Scan(rest, e, Some(e), env) == Clear(Some(e));
    } else {
      var l := before[0];
      assert l in before && Acceptable(l, env) && !Matches(l, e, env);
      assert (before + [line] + rest)[0] == l;
      assert (before + [line] + rest)[1..] == before[1..] + [line] + rest;
      ScanFindsLast(before[1..], line, rest, e, env);
    }
  }
}
