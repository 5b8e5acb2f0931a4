/** The ledger file as text: lines, the strict scan before every append, and the
    lenient reader (src/deepr/backends/quota_ledger.py). */
module LedgerLog {
  import opened Options
  import opened Json
  import opened QuotaEvents
  import JsonProofs
  import Text

  type Line = seq<Sym>

  // ----- Lines -----

  /** A line ends at LF or CR; a CR LF pair only adds a blank line. */
  predicate IsBreak(x: Sym) { x == Ch('\n') || x == Ch('\r') }

  predicate IsBlank(x: Sym) { x.Ch? && Text.IsSpace(x.c) }

  /** The finished lines, and the text after the last line break. */
  datatype Split = Split(done: seq<Line>, cur: Line)

  function SplitLines(s: seq<Sym>): Split {
    if s == [] then Split([], [])
    else
      var before := SplitLines(s[..|s| - 1]);
      if IsBreak(s[|s| - 1]) then Split(before.done + [before.cur], [])
      else Split(before.done, before.cur + [s[|s| - 1]])
  }

  function Lines(s: seq<Sym>): seq<Line> { SplitLines(s).done + [SplitLines(s).cur] }

  /** A line break divides the text into the lines before it and the lines after it, and text
      without one is a single line. */
  lemma LinesMean(a: seq<Sym>, b: Sym, c: seq<Sym>)
    requires b == Ch('\n') || b == Ch('\r')
    ensures Lines(a + [b] + c) == Lines(a) + Lines(c)
    ensures (forall x <- c :: x != Ch('\n') && x != Ch('\r')) ==> Lines(c) == [c]
  {
    SplitAround(a, b, c);
    if forall x <- c :: x != Ch('\n') && x != Ch('\r') { Unbroken(c); }
  }

  lemma {:induction false} SplitAround(a: seq<Sym>, b: Sym, c: seq<Sym>)
    requires IsBreak(b)
    ensures SplitLines(a + [b] + c) == Split(Lines(a) + SplitLines(c).done, SplitLines(c).cur)
    decreases |c|
  {
    var s := a + [b] + c;
    if c == [] {
      assert s == a + [b] && s[..|s| - 1] == a;
      assert Lines(a) + [] == Lines(a);
    } else {
      var front, last := c[..|c| - 1], c[|c| - 1];
      assert s[..|s| - 1] == a + [b] + front && s[|s| - 1] == last;
      SplitAround(a, b, front);
      hide Lines;
      SplitSnoc(s);
      SplitSnoc(c);
      hide SplitLines;
      var t := SplitLines(front);
      assert Lines(a) + (t.done + [t.cur]) == Lines(a) + t.done + [t.cur];
    }
  }

  lemma SplitSnoc(s: seq<Sym>)
    requires s != []
    ensures var before := SplitLines(s[..|s| - 1]);
            SplitLines(s) == if IsBreak(s[|s| - 1]) then Split(before.done + [before.cur], [])
                             else Split(before.done, before.cur + [s[|s| - 1]])
  {
  }

  lemma {:induction false} Unbroken(s: seq<Sym>)
    requires forall x <- s :: !IsBreak(x)
    ensures SplitLines(s) == Split([], s)
  {
    if s != [] {
      var front := s[..|s| - 1];
      assert s == front + [s[|s| - 1]];
      Unbroken(front);
    }
  }

  function Stripped(line: Line): Line { Text.Strip(line, IsBlank) }

  /** The text a call appends for `e`, without the line break. */
  function LineOf(e: QuotaEvent): Line { Encode(JObj(ToDict(e))) }

  // ----- One line -----

  /** A row the strict scan accepts; `None` makes the scan fail. */
  function StrictRow(line: Line, env: Env): Option<QuotaEvent> {
    match StrictLoads(Stripped(line))
    case Some(JObj(d)) => if ValidShape(d) then FromDict(d, env) else None
    case _ => None
  }

  /** What `get_events` makes of a line: `Fails` is the uncaught `AttributeError`
      of a JSON value that is not an object. */
  datatype Reading = Row(event: QuotaEvent) | Skipped | Fails

  function Read(line: Line, env: Env): Reading {
    if Stripped(line) == [] then Skipped
    else match Loads(Stripped(line))
      case None => Skipped
      case Some(JObj(d)) => (match FromDict(d, env) case None => Skipped case Some(e) => Row(e))
      case Some(_) => Fails
  }

  /** The rows `get_events` can read, in file order. */
  function Rows(lines: seq<Line>, env: Env): seq<QuotaEvent> {
    if lines == [] then []
    else
      var before := Rows(lines[..|lines| - 1], env);
      var last := Read(lines[|lines| - 1], env);
      if last.Row? then before + [last.event] else before
  }

  predicate Acceptable(line: Line, env: Env) { Stripped(line) == [] || StrictRow(line, env).Some? }

  predicate AllAcceptable(lines: seq<Line>, env: Env) { forall l <- lines :: Acceptable(l, env) }

  // ----- The strict scan -----

  datatype ScanResult = Clear(found: Option<QuotaEvent>) | Corrupt | Conflict

  /** `_find_idempotent_event` from here on, with the match found so far. */
  function Scan(lines: seq<Line>, proposed: QuotaEvent, found: Option<QuotaEvent>, env: Env): ScanResult
    decreases |lines|
  {
    if lines == [] then Clear(found)
    else if Stripped(lines[0]) == [] then Scan(lines[1..], proposed, found, env)
    else match StrictRow(lines[0], env)
      case None => Corrupt
      case Some(row) =>
        if proposed.idempotencyKey == "" || row.idempotencyKey != proposed.idempotencyKey
        then Scan(lines[1..], proposed, found, env)
        else if !SameObservation(row, proposed) then Conflict
        else Scan(lines[1..], proposed, Some(row), env)
  }

  // ----- The lenient reader -----

  datatype Filter = Filter(backendId: string, accountId: Option<string>, start: Option<int>, end: Option<int>)

  predicate Keeps(f: Filter, e: QuotaEvent) {
    && (f.backendId == "" || e.backendId == f.backendId)
    && (f.accountId.None? || e.accountId == f.accountId.value)
    && (f.start.None? || f.start.value <= e.timestamp)
    && (f.end.None? || e.timestamp <= f.end.value)
  }

  function Select(rows: seq<QuotaEvent>, f: Filter): seq<QuotaEvent> {
    if rows == [] then []
    else
      var before := Select(rows[..|rows| - 1], f);
      var last := rows[|rows| - 1];
      if Keeps(f, last) then before + [last] else before
  }

  /** What the filters of `get_events` keep: the rows of the backend and the account asked for,
      if any, with a timestamp in the closed range, each in its place. */
  lemma {:induction false} SelectKeeps(rows: seq<QuotaEvent>, more: seq<QuotaEvent>, f: Filter)
    ensures Select(rows + more, f) == Select(rows, f) + Select(more, f)
    ensures forall e :: Select([e], f) ==
              if && (f.backendId != "" ==> e.backendId == f.backendId)
                 && (f.accountId.Some? ==> e.accountId == f.accountId.value)
                 && (f.start.Some? ==> e.timestamp >= f.start.value)
                 && (f.end.Some? ==> e.timestamp <= f.end.value)
              then [e] else []
    decreases |more|
  {
    forall e ensures Select([e], f) == if Keeps(f, e) then [e] else [] { assert [e][..0] == []; }
    if more == [] {
      assert rows + more == rows;
    } else {
      assert (rows + more)[..|rows + more| - 1] == rows + more[..|more| - 1];
      SelectKeeps(rows, more[..|more| - 1], f);
    }
  }

  /** What both readers make of a line: blank ones are passed over, JSON that is no object makes
      the lenient reader fail and the strict scan refuse it, and an object is read as its event,
      strictly only if it is valid and holds no non-finite number. */
  lemma ReadMeans(line: Line, env: Env)
    ensures var text := Stripped(line);
            && (Read(line, env) == Fails <==> text != [] && Loads(text).Some? && !Loads(text).value.JObj?)
            && (forall d :: text != [] && Loads(text) == Some(JObj(d)) ==>
                  Read(line, env) == if FromDict(d, env).Some? then Row(FromDict(d, env).value) else Skipped)
            && (text == [] || Loads(text).None? ==> Read(line, env) == Skipped)
            && (forall d :: StrictLoads(text) == Some(JObj(d)) && ValidShape(d) ==>
                  StrictRow(line, env) == FromDict(d, env))
            && (StrictRow(line, env).Some? ==> exists d :: StrictLoads(text) == Some(JObj(d)) && ValidShape(d))
  {
    hide Stripped, Loads, StrictLoads, FromDict, ValidShape;
  }

  // ----- Properties of one line -----

  lemma StrictRowReads(line: Line, env: Env, reader: Env)
    requires StrictRow(line, env).Some?
    ensures Stripped(line) != []
    ensures Read(line, reader) == Row(StrictRow(line, env).value)
    ensures StrictRow(line, reader) == StrictRow(line, env)
  {
    EmptyIsNotJson();
    hide Loads, FromDict, ValidShape;
    var d := StrictLoads(Stripped(line)).value.fields;
    ValidReadsAlike(d, env, reader);
  }

  lemma EmptyIsNotJson()
    ensures Loads([]).None?
  {
  }

  lemma LineOfEnds(e: QuotaEvent)
    ensures LineOf(e) != [] && LineOf(e)[0] == Ch('{') && LineOf(e)[|LineOf(e)| - 1] == Ch('}')
  {
  }

  lemma LineOfHasNoBreak(e: QuotaEvent)
    requires NativeMetadata(e)
    ensures forall x <- LineOf(e) :: !IsBreak(x)
  {
    ToDictNative(e);
    JsonProofs.NativeIsFinite(JObj(ToDict(e)));
    JsonProofs.EncodePrintable(JObj(ToDict(e)));
  }

  /** A written line after blanks is the strict row of its event. */
  lemma WrittenLineReads(pad: Line, e: QuotaEvent, env: Env)
    requires NativeMetadata(e) && ValidRequest(e)
    requires Stripped(pad) == []
    ensures StrictRow(pad + LineOf(e), env) == Some(e)
  {
    LineOfEnds(e);
    var j := Text.StripAppend(pad, LineOf(e), IsBlank);
    Text.StripNothing(pad, IsBlank);
    assert LineOf(e)[..j] == LineOf(e) && [] + LineOf(e) == LineOf(e);
    assert Stripped(pad + LineOf(e)) == LineOf(e);
    WrittenRow(e, env);
  }

  lemma WrittenRow(e: QuotaEvent, env: Env)
    requires NativeMetadata(e) && ValidRequest(e)
    ensures match StrictLoads(LineOf(e))
            case Some(JObj(d)) => ValidShape(d) && FromDict(d, env) == Some(e)
            case _ => false
  {
    ToDictNative(e);
    JsonProofs.LoadsEncode(JObj(ToDict(e)));
    WrittenIsValid(e);
    EventRoundTrip(e, env);
  }

  /** A torn line after blanks is skipped by the reader and stops the scan. */
  lemma TornLineIsSkipped(pad: Line, e: QuotaEvent, k: nat, env: Env)
    requires NativeMetadata(e) && 1 <= k < |LineOf(e)|
    requires Stripped(pad) == []
    ensures Read(pad + LineOf(e)[..k], env) == Skipped && !Acceptable(pad + LineOf(e)[..k], env)
  {
    LineOfEnds(e);
    var torn := LineOf(e)[..k];
    var j := Text.StripAppend(pad, torn, IsBlank);
    Text.StripNothing(pad, IsBlank);
    assert [] + torn[..j] == LineOf(e)[..j];
    ToDictNative(e);
    JsonProofs.TornIsUnreadable(JObj(ToDict(e)), j);
    Unreadable(pad + torn, env);
  }

  lemma AcceptableParses(line: Line, env: Env)
    requires Stripped(line) != [] && Acceptable(line, env)
    ensures Loads(Stripped(line)).Some?
  {
    hide Loads, FromDict, ValidShape;
  }

  lemma Unreadable(line: Line, env: Env)
    requires Stripped(line) != [] && Loads(Stripped(line)).None?
    ensures Read(line, env) == Skipped && !Acceptable(line, env)
  {
  }

  /** Anything appended to a readable row on the same line makes that line
      unreadable. */
  lemma MergedLineIsSkipped(cur: Line, e: QuotaEvent, k: nat, env: Env)
    requires Stripped(cur) != [] && Acceptable(cur, env)
    requires 1 <= k <= |LineOf(e)|
    ensures Read(cur + LineOf(e)[..k], env) == Skipped && !Acceptable(cur + LineOf(e)[..k], env)
  {
    LineOfEnds(e);
    AcceptableParses(cur, env);
    hide Loads, Acceptable, Read, LineOf, Stripped, SkipWs;
    var more := LineOf(e)[..k];
    assert more[0] == Ch('{');
    var tail := MergedText(cur, more);
    JsonProofs.MergedIsUnreadable(Stripped(cur), tail);
    Unreadable(cur + more, env);
  }

  lemma MergedText(cur: Line, more: Line) returns (tail: Line)
    requires more != [] && more[0] == Ch('{')
    ensures Stripped(cur + more) == Stripped(cur) + tail && SkipWs(tail) != [] && tail != []
  {
    var j := Text.StripAppend(cur, more, IsBlank);
    var left, row := Text.TrimLeft(cur, IsBlank), Stripped(cur);
    hide Text.TrimLeft, SkipWs, Text.TrimRight;
    tail := left[|row|..] + more[..j];
    assert left == row + left[|row|..];
    JsonProofs.SkipStops(left[|row|..], more[..j]);
  }

  // ----- Splitting undoes appending -----

  lemma {:induction false} SplitAppend(s: seq<Sym>, p: seq<Sym>)
    requires forall x <- p :: !IsBreak(x)
    ensures SplitLines(s + p) == Split(SplitLines(s).done, SplitLines(s).cur + p)
  {
    if p == [] {
      assert s + p == s && SplitLines(s).cur + p == SplitLines(s).cur;
    } else {
      var front, last := p[..|p| - 1], p[|p| - 1];
      assert (s + p)[..|s + p| - 1] == s + front && (s + p)[|s + p| - 1] == last;
      SplitAppend(s, front);
      assert SplitLines(s).cur + front + [last] == SplitLines(s).cur + p;
    }
  }

  lemma SplitBreak(s: seq<Sym>)
    ensures SplitLines(s + [Ch('\n')]) == Split(Lines(s), [])
  {
    assert (s + [Ch('\n')])[..|s|] == s;
  }

  lemma RowsSnoc(lines: seq<Line>, line: Line, env: Env)
    ensures Rows(lines + [line], env) ==
            Rows(lines, env) + (if Read(line, env).Row? then [Read(line, env).event] else [])
  {
    assert (lines + [line])[..|lines|] == lines;
  }

  lemma BlankReads(line: Line, env: Env)
    requires Stripped(line) == []
    ensures Read(line, env) == Skipped
  {
  }

  // ----- What an append does to the rows -----

  /** The rows after the first `k` symbols of `LineOf(e)` and its line break reached
      a file the strict scan accepted. */
  function RowsAfter(s: seq<Sym>, e: QuotaEvent, k: nat, env: Env): seq<QuotaEvent> {
    var rows := Rows(Lines(s), env);
    if k == 0 then rows
    else if Stripped(SplitLines(s).cur) == [] then (if k < |LineOf(e)| then rows else rows + [e])
    else Rows(SplitLines(s).done, env)
  }

  /** The text a call tries to append. */
  function Appended(e: QuotaEvent): seq<Sym> { LineOf(e) + [Ch('\n')] }

  lemma AppendSplits(s: seq<Sym>, e: QuotaEvent, k: nat)
    requires NativeMetadata(e) && k <= |Appended(e)|
    ensures SplitLines(s + Appended(e)[..k]) ==
            if k <= |LineOf(e)| then Split(SplitLines(s).done, SplitLines(s).cur + LineOf(e)[..k])
            else Split(SplitLines(s).done + [SplitLines(s).cur + LineOf(e)], [])
  {
    LineOfHasNoBreak(e);
    if k <= |LineOf(e)| {
      assert Appended(e)[..k] == LineOf(e)[..k];
      SplitAppend(s, LineOf(e)[..k]);
    } else {
      assert s + Appended(e)[..k] == s + LineOf(e) + [Ch('\n')];
      SplitAppend(s, LineOf(e));
      SplitBreak(s + LineOf(e));
    }
  }

  lemma AppendRows(s: seq<Sym>, e: QuotaEvent, k: nat, env: Env)
    requires NativeMetadata(e) && ValidRequest(e) && k <= |Appended(e)|
    requires AllAcceptable(Lines(s), env)
    ensures Rows(Lines(s + Appended(e)[..k]), env) == RowsAfter(s, e, k, env)
  {
    var Split(done, cur) := SplitLines(s);
    assert cur in Lines(s);
    assert Acceptable(cur, env);
    AppendSplits(s, e, k);
    hide SplitLines, Read, LineOf, Stripped, Acceptable, ValidRequest, NativeMetadata;
    RowsSnoc(done, cur, env);
    var n := if k <= |LineOf(e)| then k else |LineOf(e)|;
    var line := cur + LineOf(e)[..n];
    assert LineOf(e)[..|LineOf(e)|] == LineOf(e);
    RowsSnoc(done, line, env);
    BlankReads([], env);
    RowsSnoc(done + [line], [], env);
    LastLine(cur, e, n, env);
  }

  /** What becomes of the last line. */
  lemma LastLine(cur: Line, e: QuotaEvent, n: nat, env: Env)
    requires NativeMetadata(e) && ValidRequest(e) && n <= |LineOf(e)|
    requires Acceptable(cur, env)
    ensures Read(cur + LineOf(e)[..n], env) ==
            if n == 0 then Read(cur, env)
            else if Stripped(cur) == [] && n == |LineOf(e)| then Row(e)
            else Skipped
  {
    if n == 0 {
      assert cur + LineOf(e)[..0] == cur;
    } else if Stripped(cur) != [] {
      MergedLineIsSkipped(cur, e, n, env);
    } else if n < |LineOf(e)| {
      TornLineIsSkipped(cur, e, n, env);
    } else {
      assert LineOf(e)[..n] == LineOf(e);
      WrittenLineReads(cur, e, env);
      StrictRowReads(cur + LineOf(e), env, env);
    }
  }

  // ----- What a scan tells -----

  /** A scan that raises nothing has accepted every line; it reports a match exactly
      when some row carries the proposed key, and that match is the same observation. */
  lemma {:induction false} ScanClear(lines: seq<Line>, proposed: QuotaEvent, found: Option<QuotaEvent>, env: Env)
    requires Scan(lines, proposed, found, env).Clear?
    ensures AllAcceptable(lines, env)
    ensures var r := Scan(lines, proposed, found, env).found;
            && (r.None? <==> found.None? && forall l <- lines :: !Matches(l, proposed, env))
            && (r.Some? && r != found ==> exists l <- lines :: Matches(l, proposed, env) && StrictRow(l, env) == r
                                                               && SameObservation(r.value, proposed))
    decreases |lines|
  {
    hide StrictRow, Stripped, SameObservation;
    if lines != [] {
      var rest := lines[1..];
      assert lines == [lines[0]] + rest;
      if Matches(lines[0], proposed, env) {
        ScanClear(rest, proposed, StrictRow(lines[0], env), env);
      } else {
        ScanClear(rest, proposed, found, env);
      }
    }
  }

  /** The line is a row with the proposed, non-empty key. */
  predicate Matches(line: Line, proposed: QuotaEvent, env: Env) {
    && proposed.idempotencyKey != "" && Stripped(line) != [] && StrictRow(line, env).Some?
    && StrictRow(line, env).value.idempotencyKey == proposed.idempotencyKey
  }

  /** The scan fails as corrupt only on a line that is not acceptable. */
  lemma {:induction false} ScanNotCorrupt(lines: seq<Line>, proposed: QuotaEvent, found: Option<QuotaEvent>, env: Env)
    requires AllAcceptable(lines, env)
    ensures !Scan(lines, proposed, found, env).Corrupt?
    decreases |lines|
  {
    hide StrictRow, Stripped, SameObservation;
    if lines != [] {
      assert lines[0] in lines;
      assert forall l <- lines[1..] :: l in lines;
      if Matches(lines[0], proposed, env) {
        ScanNotCorrupt(lines[1..], proposed, StrictRow(lines[0], env), env);
      } else {
        ScanNotCorrupt(lines[1..], proposed, found, env);
      }
    }
  }

  lemma {:induction false} RowsComeFromLines(lines: seq<Line>, i: nat, env: Env)
    requires i < |Rows(lines, env)|
    ensures exists l <- lines :: Read(l, env) == Row(Rows(lines, env)[i])
  {
    var front, last := lines[..|lines| - 1], lines[|lines| - 1];
    if i < |Rows(front, env)| {
      RowsComeFromLines(front, i, env);
    }
  }

  lemma {:induction false} LinesGiveRows(lines: seq<Line>, line: Line, env: Env)
    requires line in lines && Read(line, env).Row?
    ensures Read(line, env).event in Rows(lines, env)
  {
    hide Read;
    var front, last := lines[..|lines| - 1], lines[|lines| - 1];
    assert lines == front + [last];
    if line in front { LinesGiveRows(front, line, env); }
  }

  // ----- The two readers agree -----

  /** The rows of the strict scan, in file order. */
  function StrictRows(lines: seq<Line>, env: Env): seq<QuotaEvent> {
    if lines == [] then []
    else
      var before := StrictRows(lines[..|lines| - 1], env);
      var last := lines[|lines| - 1];
      if Stripped(last) == [] || StrictRow(last, env).None? then before else before + [StrictRow(last, env).value]
  }

  /** On a file the strict scan accepts, the lenient reader returns the same events in
      the same order, under whatever clock and conversions it reads. */
  lemma {:induction false} ReadersAgree(lines: seq<Line>, env: Env, reader: Env)
    requires AllAcceptable(lines, env)
    ensures Rows(lines, reader) == StrictRows(lines, env)
    ensures forall l <- lines :: !Read(l, reader).Fails?
    ensures AllAcceptable(lines, reader)
  {
    hide Read, StrictRow, Stripped;
    if lines != [] {
      var front, last := lines[..|lines| - 1], lines[|lines| - 1];
      assert lines == front + [last];
      ReadersAgree(front, env, reader);
      assert Acceptable(last, env);
      if Stripped(last) != [] { StrictRowReads(last, env, reader); } else { BlankReads(last, reader); }
    }
  }
}
