/** Round trip, safety of the line format, and no readable proper prefix. */
module JsonProofs {
  import opened Options
  import opened Json

  // ----- A successful read does not depend on what follows -----

  lemma {:induction false} SkipWsExtend(s: seq<Sym>, t: seq<Sym>)
    requires SkipWs(s) != []
    ensures SkipWs(s + t) == SkipWs(s) + t
  {
    if IsWs(s[0]) {
      assert (s + t)[1..] == s[1..] + t;
      SkipWsExtend(s[1..], t);
    }
  }

  lemma ParseUnitExtend(s: seq<Sym>, t: seq<Sym>)
    requires ParseUnit(s).Some?
    ensures ParseUnit(s + t) == Some((ParseUnit(s).value.0, ParseUnit(s).value.1 + t))
  {
    assert forall i | 0 <= i < |s| :: (s + t)[i] == s[i];
    assert (s + t)[6..] == s[6..] + t;
  }

  lemma ParseCharExtend(s: seq<Sym>, t: seq<Sym>)
    requires ParseChar(s).Some?
    ensures ParseChar(s + t) == Some((ParseChar(s).value.0, ParseChar(s).value.1 + t))
  {
    assert (s + t)[0] == s[0] && (s + t)[1..] == s[1..] + t;
    if s[0].c == '\\' {
      assert (s + t)[1] == s[1] && (s + t)[2..] == s[2..] + t;
      if s[1].c == 'u' {
        ParseUnitExtend(s, t);
        var (hi, rest) := ParseUnit(s).value;
        if 0xD800 <= hi < 0xE000 { ParseUnitExtend(rest, t); }
      }
    }
  }

  lemma {:induction false} ParseCharsExtend(s: seq<Sym>, t: seq<Sym>)
    requires ParseChars(s).Some?
    ensures ParseChars(s + t) == Some((ParseChars(s).value.0, ParseChars(s).value.1 + t))
    decreases |s|
  {
    assert s != [];
    assert (s + t)[0] == s[0] && (s + t)[1..] == s[1..] + t;
    if !Starts(s, '"') {
      ParseCharExtend(s, t);
      ParseCharsExtend(ParseChar(s).value.1, t);
    }
  }

  lemma {:induction false} ParseValueExtend(s: seq<Sym>, t: seq<Sym>)
    requires ParseValue(s).Some?
    ensures ParseValue(s + t) == Some((ParseValue(s).value.0, ParseValue(s).value.1 + t))
    decreases |s|, 1
  {
    assert (s + t)[0] == s[0] && (s + t)[1..] == s[1..] + t;
    if s[0].Ch? {
      var c := s[0].c;
      var u := SkipWs(s[1..]);
      if c == '"' {
        ParseCharsExtend(s[1..], t);
      } else if c == '[' {
        SkipWsExtend(s[1..], t);
        assert (u + t)[0] == u[0] && (u + t)[1..] == u[1..] + t;
        if !Starts(u, ']') { ParseItemsExtend(u, t); }
      } else if c == '{' {
        SkipWsExtend(s[1..], t);
        assert (u + t)[0] == u[0] && (u + t)[1..] == u[1..] + t;
        if !Starts(u, '}') { ParseFieldsExtend(u, t); }
      } else {
        LiteralExtend(s, t);
      }
    }
  }

  lemma LiteralExtend(s: seq<Sym>, t: seq<Sym>)
    requires Chars("null") <= s || Chars("true") <= s || Chars("false") <= s
    requires s[0] == Ch('n') || s[0] == Ch('t') || s[0] == Ch('f')
    ensures ParseValue(s + t) == Some((ParseValue(s).value.0, ParseValue(s).value.1 + t))
  {
    assert (s + t)[0] == s[0];
    assert (s + t)[4..] == s[4..] + t;
    if Chars("false") <= s { assert (s + t)[5..] == s[5..] + t; }
    assert Chars("null")[0] == Ch('n') && Chars("true")[0] == Ch('t') && Chars("false")[0] == Ch('f');
  }

  lemma {:induction false} ParseItemsExtend(s: seq<Sym>, t: seq<Sym>)
    requires ParseItems(s).Some?
    ensures ParseItems(s + t) == Some((ParseItems(s).value.0, ParseItems(s).value.1 + t))
    decreases |s|, 2
  {
    ParseValueExtend(s, t);
    var rest := ParseValue(s).value.1;
    var u := SkipWs(rest);
    SkipWsExtend(rest, t);
    assert (u + t)[0] == u[0] && (u + t)[1..] == u[1..] + t;
    if !Starts(u, ']') {
      SkipWsExtend(u[1..], t);
      ParseItemsExtend(SkipWs(u[1..]), t);
    }
  }

  lemma {:induction false} ParseMemberExtend(s: seq<Sym>, t: seq<Sym>)
    requires ParseMember(s).Some?
    ensures ParseMember(s + t) == Some((ParseMember(s).value.0, ParseMember(s).value.1 + t))
    decreases |s|, 2
  {
    assert (s + t)[0] == s[0] && (s + t)[1..] == s[1..] + t;
    ParseCharsExtend(s[1..], t);
    var afterKey := ParseChars(s[1..]).value.1;
    var colon := SkipWs(afterKey);
    SkipWsExtend(afterKey, t);
    assert (colon + t)[0] == colon[0] && (colon + t)[1..] == colon[1..] + t;
    SkipWsExtend(colon[1..], t);
    ParseValueExtend(SkipWs(colon[1..]), t);
  }

  lemma {:induction false} ParseFieldsExtend(s: seq<Sym>, t: seq<Sym>)
    requires ParseFields(s).Some?
    ensures ParseFields(s + t) == Some((ParseFields(s).value.0, ParseFields(s).value.1 + t))
    decreases |s|, 3
  {
    ParseMemberExtend(s, t);
    var rest := ParseMember(s).value.1;
    var u := SkipWs(rest);
    SkipWsExtend(rest, t);
    assert (u + t)[0] == u[0] && (u + t)[1..] == u[1..] + t;
    if !Starts(u, '}') {
      SkipWsExtend(u[1..], t);
      ParseFieldsExtend(SkipWs(u[1..]), t);
    }
  }

  // ----- Reading undoes writing -----

  lemma HexRoundTrip(d: nat)
    requires d < 16
    ensures HexValue(HexDigit(d)) == Some(d)
  {
  }

  lemma HexSum(u: nat)
    requires u < 0x10000
    ensures u / 4096 < 16
    ensures u / 4096 * 4096 + u / 256 % 16 * 256 + u / 16 % 16 * 16 + u % 16 == u
  {
    assert u / 256 / 16 == u / 4096;
    assert u / 16 / 16 == u / 256;
  }

  lemma UnitParts(a: nat, b: nat, c: nat, d: nat, t: seq<Sym>)
    requires a < 16 && b < 16 && c < 16 && d < 16
    ensures ParseUnit([Ch('\\'), Ch('u'), Ch(HexDigit(a)), Ch(HexDigit(b)), Ch(HexDigit(c)), Ch(HexDigit(d))] + t)
         == Some((a * 4096 + b * 256 + c * 16 + d, t))
  {
    var s := [Ch('\\'), Ch('u'), Ch(HexDigit(a)), Ch(HexDigit(b)), Ch(HexDigit(c)), Ch(HexDigit(d))] + t;
    HexRoundTrip(a);
    HexRoundTrip(b);
    HexRoundTrip(c);
    HexRoundTrip(d);
    assert s[6..] == t;
  }

  lemma UnitRoundTrip(u: nat, t: seq<Sym>)
    requires u < 0x10000
    ensures ParseUnit(EscapeUnit(u) + t) == Some((u, t))
  {
    HexSum(u);
    UnitParts(u / 4096, u / 256 % 16, u / 16 % 16, u % 16, t);
  }

  lemma CharRoundTrip(c: char, t: seq<Sym>)
    ensures ParseChar(EncodeChar(c) + t) == Some((c, t))
    ensures !Starts(EncodeChar(c) + t, '"')
  {
    var s := EncodeChar(c) + t;
    if ShortEscape(c).Some? {
      assert s[2..] == t;
    } else if ' ' <= c <= '~' {
      assert s[1..] == t;
    } else {
      EscapedRoundTrip(c, t);
      assert s[0] == Ch('\\') && s[1] == Ch('u');
    }
  }

  lemma EscapedRoundTrip(c: char, t: seq<Sym>)
    requires ShortEscape(c).None? && !(' ' <= c <= '~')
    ensures ParseEscaped(EncodeChar(c) + t) == Some((c, t))
  {
    hide EscapeUnit, ParseUnit;
    if c as int < 0x10000 {
      UnitRoundTrip(c as int, t);
    } else {
      var hi, lo := 0xD800 + (c as int - 0x10000) / 0x400, 0xDC00 + (c as int - 0x10000) % 0x400;
      assert EncodeChar(c) + t == EscapeUnit(hi) + (EscapeUnit(lo) + t);
      UnitRoundTrip(hi, EscapeUnit(lo) + t);
      UnitRoundTrip(lo, t);
    }
  }

  lemma {:induction false} StringRoundTrip(s: string, t: seq<Sym>)
    ensures ParseChars(EncodeChars(s) + [Ch('"')] + t) == Some((s, t))
  {
    if s == [] {
      assert EncodeChars(s) + [Ch('"')] + t == [Ch('"')] + t;
    } else {
      var rest := EncodeChars(s[1..]) + [Ch('"')] + t;
      assert EncodeChars(s) + [Ch('"')] + t == EncodeChar(s[0]) + rest;
      CharRoundTrip(s[0], rest);
      StringRoundTrip(s[1..], t);
      assert [s[0]] + s[1..] == s;
    }
  }

  /** The first symbol of a value is no blank and no closing bracket. */
  lemma EncodeStart(v: Json)
    ensures Encode(v) != [] && !IsWs(Encode(v)[0]) && Encode(v)[0] != Ch(']')
  {
  }

  lemma SkipNone(s: seq<Sym>)
    requires s == [] || !IsWs(s[0])
    ensures SkipWs(s) == s
  {
  }

  lemma SkipOne(s: seq<Sym>)
    requires s == [] || !IsWs(s[0])
    ensures SkipWs([Ch(' ')] + s) == s
  {
    assert ([Ch(' ')] + s)[1..] == s;
  }

  lemma LiteralRoundTrip(v: Json, t: seq<Sym>)
    requires v.JNull? || v.JBool?
    ensures ParseValue(Encode(v) + t) == Some((v, t))
  {
    var s := Encode(v) + t;
    assert Chars("null")[0] == Ch('n') && Chars("true")[0] == Ch('t') && Chars("false")[0] == Ch('f');
    assert s[0] == Encode(v)[0];
    assert s[|Encode(v)|..] == t;
    assert Encode(v) <= s;
  }

  lemma {:induction false} ValueRoundTrip(v: Json, t: seq<Sym>)
    requires Native(v)
    ensures ParseValue(Encode(v) + t) == Some((v, t))
    decreases v, 1
  {
    match v
    case JNull => LiteralRoundTrip(v, t);
    case JBool(b) => LiteralRoundTrip(v, t);
    case JNum(n) => assert (Encode(v) + t)[1..] == t;
    case JStr(cs) =>
      assert (Encode(v) + t)[1..] == EncodeChars(cs) + [Ch('"')] + t;
      StringRoundTrip(cs, t);
    case JArr(items) =>
      if items != [] { ItemsRoundTrip(items, t); }
      ArrayText(items, t);
    case JObj(fields) =>
      if fields != [] {
        FieldsRoundTrip(fields, t);
        assert [] + fields == fields;
        PutAllDistinct([], fields);
      }
      ObjectText(fields, t);
  }

  lemma ArrayText(items: seq<Json>, t: seq<Sym>)
    requires items != [] ==> ParseItems(EncodeItems(items) + [Ch(']')] + t) == Some((items, t))
    ensures ParseValue(Encode(JArr(items)) + t) == Some((JArr(items), t))
  {
    var u := EncodeItems(items) + [Ch(']')] + t;
    assert Encode(JArr(items)) + t == [Ch('[')] + u;
    assert ([Ch('[')] + u)[1..] == u;
    if items == [] {
      assert u == [Ch(']')] + t && u[1..] == t;
    } else {
      EncodeStart(items[0]);
      assert u[0] == Encode(items[0])[0];
    }
    SkipNone(u);
  }

  lemma OpenBrace(u: seq<Sym>, fields: seq<Field>, t: seq<Sym>)
    requires Starts(u, '"') && ParseFields(u) == Some((fields, t))
    ensures ParseValue([Ch('{')] + u) == Some((JObj(PutAll([], fields)), t))
  {
    assert ([Ch('{')] + u)[1..] == u;
    SkipNone(u);
  }

  lemma EmptyObject(t: seq<Sym>)
    ensures ParseValue([Ch('{')] + ([Ch('}')] + t)) == Some((JObj([]), t))
  {
    var u := [Ch('}')] + t;
    assert ([Ch('{')] + u)[1..] == u && u[1..] == t;
    SkipNone(u);
  }

  lemma ObjectText(fields: seq<Field>, t: seq<Sym>)
    requires fields != [] ==> ParseFields(EncodeFields(fields) + [Ch('}')] + t) == Some((fields, t))
    requires PutAll([], fields) == fields
    ensures ParseValue(Encode(JObj(fields)) + t) == Some((JObj(fields), t))
  {
    var u := EncodeFields(fields) + [Ch('}')] + t;
    assert Encode(JObj(fields)) + t == [Ch('{')] + u;
    if fields == [] {
      assert u == [Ch('}')] + t;
      EmptyObject(t);
    } else {
      FieldsStart(fields);
      OpenBrace(u, fields, t);
    }
  }

  lemma Regroup(a: seq<Sym>, b: seq<Sym>, close: Sym, t: seq<Sym>)
    ensures a + Chars(", ") + b + [close] + t == a + ([Ch(',')] + ([Ch(' ')] + (b + [close] + t)))
  {
    assert Chars(", ") == [Ch(','), Ch(' ')];
  }

  lemma LastItem(s: seq<Sym>, v: Json, t: seq<Sym>)
    requires ParseValue(s) == Some((v, [Ch(']')] + t))
    ensures ParseItems(s) == Some(([v], t))
  {
    SkipNone([Ch(']')] + t);
    assert ([Ch(']')] + t)[1..] == t;
  }

  lemma NextItem(s: seq<Sym>, v: Json, next: seq<Sym>, vs: seq<Json>, t: seq<Sym>)
    requires ParseValue(s) == Some((v, [Ch(',')] + ([Ch(' ')] + next)))
    requires next != [] && !IsWs(next[0])
    requires ParseItems(next) == Some((vs, t))
    ensures ParseItems(s) == Some(([v] + vs, t))
  {
    var rest := [Ch(',')] + ([Ch(' ')] + next);
    SkipNone(rest);
    assert rest[1..] == [Ch(' ')] + next;
    SkipOne(next);
  }

  lemma {:induction false} ItemsRoundTrip(items: seq<Json>, t: seq<Sym>)
    requires items != [] && forall x <- items :: Native(x)
    ensures ParseItems(EncodeItems(items) + [Ch(']')] + t) == Some((items, t))
    decreases items, 0
  {
    hide ParseItems, ParseValue, Encode, Native;
    var s := EncodeItems(items) + [Ch(']')] + t;
    if |items| == 1 {
      assert s == Encode(items[0]) + ([Ch(']')] + t);
      ValueRoundTrip(items[0], [Ch(']')] + t);
      LastItem(s, items[0], t);
      assert [items[0]] == items;
    } else {
      var next := EncodeItems(items[1..]) + [Ch(']')] + t;
      var rest := [Ch(',')] + ([Ch(' ')] + next);
      Regroup(Encode(items[0]), EncodeItems(items[1..]), Ch(']'), t);
      assert s == Encode(items[0]) + rest;
      ValueRoundTrip(items[0], rest);
      EncodeStart(items[1]);
      assert next[0] == Encode(items[1])[0];
      ItemsRoundTrip(items[1..], t);
      NextItem(s, items[0], next, items[1..], t);
      assert [items[0]] + items[1..] == items;
    }
  }

  lemma FieldsStart(fields: seq<Field>)
    requires fields != []
    ensures EncodeFields(fields) != [] && EncodeFields(fields)[0] == Ch('"')
  {
    assert EncodeMember(fields[0])[0] == EncodeString(fields[0].key)[0];
    if |fields| > 1 {
      assert EncodeFields(fields)[0] == EncodeMember(fields[0])[0];
    }
  }

  lemma {:induction false} MemberRoundTrip(f: Field, rest: seq<Sym>)
    requires Native(f.value)
    ensures ParseMember(EncodeMember(f) + rest) == Some((f, rest))
    decreases f, 2
  {
    hide Native, SkipWs, ParseValue, ParseChars, Encode, EncodeChars;
    var s := EncodeMember(f) + rest;
    var value := Encode(f.value) + rest;
    var colon := [Ch(':')] + ([Ch(' ')] + value);
    assert Chars(": ") == [Ch(':'), Ch(' ')];
    assert s == [Ch('"')] + (EncodeChars(f.key) + [Ch('"')] + colon);
    assert s[1..] == EncodeChars(f.key) + [Ch('"')] + colon;
    StringRoundTrip(f.key, colon);
    SkipNone(colon);
    assert colon[1..] == [Ch(' ')] + value;
    EncodeStart(f.value);
    SkipOne(value);
    ValueRoundTrip(f.value, rest);
  }

  lemma LastField(s: seq<Sym>, f: Field, t: seq<Sym>)
    requires ParseMember(s) == Some((f, [Ch('}')] + t))
    ensures ParseFields(s) == Some(([f], t))
  {
    SkipNone([Ch('}')] + t);
    assert ([Ch('}')] + t)[1..] == t;
  }

  lemma NextField(s: seq<Sym>, f: Field, next: seq<Sym>, fs: seq<Field>, t: seq<Sym>)
    requires ParseMember(s) == Some((f, [Ch(',')] + ([Ch(' ')] + next)))
    requires next != [] && !IsWs(next[0])
    requires ParseFields(next) == Some((fs, t))
    ensures ParseFields(s) == Some(([f] + fs, t))
  {
    var rest := [Ch(',')] + ([Ch(' ')] + next);
    SkipNone(rest);
    assert rest[1..] == [Ch(' ')] + next;
    SkipOne(next);
  }

  lemma {:induction false} FieldsRoundTrip(fields: seq<Field>, t: seq<Sym>)
    requires fields != [] && forall f <- fields :: Native(f.value)
    ensures ParseFields(EncodeFields(fields) + [Ch('}')] + t) == Some((fields, t))
    decreases fields, 0
  {
    hide ParseFields, ParseMember, EncodeMember, Native;
    var s := EncodeFields(fields) + [Ch('}')] + t;
    if |fields| == 1 {
      assert s == EncodeMember(fields[0]) + ([Ch('}')] + t);
      MemberRoundTrip(fields[0], [Ch('}')] + t);
      LastField(s, fields[0], t);
      assert [fields[0]] == fields;
    } else {
      var next := EncodeFields(fields[1..]) + [Ch('}')] + t;
      var rest := [Ch(',')] + ([Ch(' ')] + next);
      Regroup(EncodeMember(fields[0]), EncodeFields(fields[1..]), Ch('}'), t);
      assert s == EncodeMember(fields[0]) + rest;
      MemberRoundTrip(fields[0], rest);
      FieldsStart(fields[1..]);
      assert next[0] == Ch('"');
      FieldsRoundTrip(fields[1..], t);
      NextField(s, fields[0], next, fields[1..], t);
      assert [fields[0]] + fields[1..] == fields;
    }
  }

  // ----- What one line can contain -----

  /** A symbol `json.dumps(ensure_ascii=True, allow_nan=False)` may produce: a
      numeral or a printable ASCII character, hence no line break. */
  predicate Printable(x: Sym) { x.Num? || (x.Ch? && ' ' <= x.c <= '~') }

  lemma {:induction false} EncodeCharsPrintable(s: string)
    ensures forall x <- EncodeChars(s) :: Printable(x)
  {
    if s != [] { EncodeCharsPrintable(s[1..]); }
  }

  lemma {:induction false} EncodePrintable(v: Json)
    requires Finite(v)
    ensures forall x <- Encode(v) :: Printable(x)
    decreases v, 1
  {
    match v
    case JStr(s) => EncodeCharsPrintable(s);
    case JArr(items) => EncodeItemsPrintable(items);
    case JObj(fields) => EncodeFieldsPrintable(fields);
    case _ =>
  }

  lemma {:induction false} EncodeItemsPrintable(items: seq<Json>)
    requires forall x <- items :: Finite(x)
    ensures forall x <- EncodeItems(items) :: Printable(x)
    decreases items, 0
  {
    if items != [] {
      EncodePrintable(items[0]);
      EncodeItemsPrintable(items[1..]);
    }
  }

  lemma {:induction false} EncodeFieldsPrintable(fields: seq<Field>)
    requires forall f <- fields :: Finite(f.value)
    ensures forall x <- EncodeFields(fields) :: Printable(x)
    decreases fields, 0
  {
    if fields != [] {
      EncodeCharsPrintable(fields[0].key);
      EncodePrintable(fields[0].value);
      EncodeFieldsPrintable(fields[1..]);
    }
  }

  /** A native value that serializes is finite everywhere. */
  lemma {:induction false} NativeIsFinite(v: Json)
    requires Native(v)
    ensures Finite(v)
  {
    match v
    case JArr(items) => forall x | x in items ensures Finite(x) { NativeIsFinite(x); }
    case JObj(fields) => forall f | f in fields ensures Finite(f.value) { NativeIsFinite(f.value); }
    case _ =>
  }

  // ----- Whole lines -----

  /** Both readers return exactly the value that was written. */
  lemma LoadsEncode(v: Json)
    requires Native(v)
    ensures Loads(Encode(v)) == Some(v) && StrictLoads(Encode(v)) == Some(v)
  {
    EncodeStart(v);
    SkipNone(Encode(v));
    assert Encode(v) + [] == Encode(v);
    ValueRoundTrip(v, []);
    NativeIsFinite(v);
    EncodePrintable(v);
  }

  /** A torn write is not JSON: no non-empty proper prefix of a written value reads. */
  lemma TornIsUnreadable(v: Json, k: nat)
    requires Native(v) && k < |Encode(v)|
    ensures Loads(Encode(v)[..k]).None?
  {
    var s := Encode(v);
    var p, q := s[..k], s[k..];
    assert s == p + q;
    EncodeStart(v);
    if p != [] { assert p[0] == s[0]; }
    SkipNone(p);
    if ParseValue(p).Some? {
      ParseValueExtend(p, q);
      assert s + [] == s;
      ValueRoundTrip(v, []);
      assert false;
    }
  }

  /** A complete value followed by more than blanks is not JSON ("Extra data"). */
  lemma MergedIsUnreadable(line: seq<Sym>, more: seq<Sym>)
    requires Loads(line).Some?
    requires SkipWs(more) != []
    ensures Loads(line + more).None?
  {
    SkipWsExtend(line, more);
    var s := SkipWs(line);
    ParseValueExtend(s, more);
    SkipBlank(ParseValue(s).value.1, more);
  }

  lemma {:induction false} SkipBlank(blank: seq<Sym>, more: seq<Sym>)
    requires SkipWs(blank) == []
    ensures SkipWs(blank + more) == SkipWs(more)
  {
    if blank == [] {
      assert blank + more == more;
    } else {
      assert (blank + more)[1..] == blank[1..] + more;
      SkipBlank(blank[1..], more);
    }
  }

  lemma {:induction false} SkipStops(a: seq<Sym>, b: seq<Sym>)
    requires b != [] && !IsWs(b[0])
    ensures SkipWs(a + b) != []
  {
    if a == [] {
      assert a + b == b;
    } else {
      assert (a + b)[1..] == a[1..] + b;
      if IsWs(a[0]) { SkipStops(a[1..], b); }
    }
  }
}
