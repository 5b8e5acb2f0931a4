/** The JSON text of one ledger line, as `json.dumps(..., ensure_ascii=True)`
    writes it and `json.loads` reads it. */
module Json {
  import opened Options

  /** One symbol of the file. A numeral and a `NaN`/`Infinity` constant are single
      symbols, because number formatting is not modelled. */
  datatype Sym = Ch(c: char) | Num(n: real) | NonFinite

  datatype Json =
    | JNull
    | JBool(b: bool)
    | JNum(n: real)
    | JNonFinite
    | JStr(s: string)
    | JArr(items: seq<Json>)
    | JObj(fields: seq<Field>)   // a dict: distinct keys, in insertion order

  datatype Field = Field(key: string, value: Json)

  // ----- Dictionaries -----

  function Lookup(fields: seq<Field>, key: string): (r: Option<Json>)
    ensures r.Some? ==> Field(key, r.value) in fields
    ensures r.None? <==> forall f <- fields :: f.key != key
  {
    if fields == [] then None
    else if fields[0].key == key then Some(fields[0].value)
    else Lookup(fields[1..], key)
  }

  /** `fields[key] = value`: in place when the key is present, else at the end. */
  function Put(fields: seq<Field>, key: string, value: Json): seq<Field> {
    if fields == [] then [Field(key, value)]
    else if fields[0].key == key then [Field(key, value)] + fields[1..]
    else [fields[0]] + Put(fields[1..], key, value)
  }

  function PutAll(fields: seq<Field>, more: seq<Field>): seq<Field>
    decreases |more|
  {
    if more == [] then fields else PutAll(Put(fields, more[0].key, more[0].value), more[1..])
  }

  ghost predicate DistinctKeys(fields: seq<Field>) {
    forall i, j :: 0 <= i < j < |fields| ==> fields[i].key != fields[j].key
  }

  lemma {:induction false} LookupPut(fields: seq<Field>, key: string, value: Json, other: string)
    ensures Lookup(Put(fields, key, value), other) == if other == key then Some(value) else Lookup(fields, other)
  {
    if fields != [] && fields[0].key != key { LookupPut(fields[1..], key, value, other); }
  }

  /** The later dictionary's values come first. */
  lemma {:induction false} LookupPutAll(fields: seq<Field>, more: seq<Field>, key: string)
    requires DistinctKeys(more)
    ensures Lookup(PutAll(fields, more), key)
            == if Lookup(more, key).Some? then Lookup(more, key) else Lookup(fields, key)
    decreases |more|
  {
    if more != [] {
      LookupPutAll(Put(fields, more[0].key, more[0].value), more[1..], key);
      LookupPut(fields, more[0].key, more[0].value, key);
    }
  }

  lemma {:induction false} PutFresh(fields: seq<Field>, key: string, value: Json)
    requires forall f <- fields :: f.key != key
    ensures Put(fields, key, value) == fields + [Field(key, value)]
  {
    if fields != [] { PutFresh(fields[1..], key, value); }
  }

  lemma {:induction false} PutAllDistinct(fields: seq<Field>, more: seq<Field>)
    requires DistinctKeys(fields + more)
    decreases |more|
    ensures PutAll(fields, more) == fields + more
  {
    if more != [] {
      forall f | f in fields ensures f.key != more[0].key {
        var i :| 0 <= i < |fields| && fields[i] == f;
        assert (fields + more)[i] == f && (fields + more)[|fields|] == more[0];
      }
      PutFresh(fields, more[0].key, more[0].value);
      assert fields + [more[0]] + more[1..] == fields + more;
      PutAllDistinct(fields + [more[0]], more[1..]);
    } else {
      assert fields + more == fields;
    }
  }

  lemma {:induction false} LookupDistinct(fields: seq<Field>, i: nat)
    requires i < |fields| && DistinctKeys(fields)
    ensures Lookup(fields, fields[i].key) == Some(fields[i].value)
  {
    if i > 0 { LookupDistinct(fields[1..], i - 1); }
  }

  /** A value Python's `json` returns unchanged: dictionaries have distinct string
      keys, and there is no NaN or infinity. */
  ghost predicate Native(v: Json) {
    match v
    case JNonFinite => false
    case JArr(items) => forall x <- items :: Native(x)
    case JObj(fields) => DistinctKeys(fields) && forall f <- fields :: Native(f.value)
    case _ => true
  }

  predicate Finite(v: Json) {
    match v
    case JNonFinite => false
    case JArr(items) => forall x <- items :: Finite(x)
    case JObj(fields) => forall f <- fields :: Finite(f.value)
    case _ => true
  }

  function Number(v: Json): Option<real> {
    match v
    case JBool(b) => Some(if b then 1.0 else 0.0)
    case JNum(n) => Some(n)
    case _ => None
  }

  /** Python's `==` on JSON values: `True == 1`, and dictionaries ignore order. */
  predicate PyEq(a: Json, b: Json)
    decreases a
  {
    if Number(a).Some? || Number(b).Some? then Number(a) == Number(b)
    else match (a, b)
      case (JNull, JNull) => true
      case (JStr(s), JStr(t)) => s == t
      case (JArr(xs), JArr(ys)) => |xs| == |ys| && forall i | 0 <= i < |xs| :: PyEq(xs[i], ys[i])
      case (JObj(fs), JObj(gs)) =>
        |fs| == |gs| && forall f <- fs :: Lookup(gs, f.key).Some? && PyEq(f.value, Lookup(gs, f.key).value)
      case _ => false
  }

  lemma {:induction false} PyEqReflexive(v: Json)
    requires Native(v)
    ensures PyEq(v, v)
  {
    match v
    case JArr(items) => forall i | 0 <= i < |items| ensures PyEq(items[i], items[i]) { PyEqReflexive(items[i]); }
    case JObj(fields) =>
      forall f | f in fields
        ensures Lookup(fields, f.key) == Some(f.value) && PyEq(f.value, f.value)
      {
        var i :| 0 <= i < |fields| && fields[i] == f;
        LookupDistinct(fields, i);
        PyEqReflexive(f.value);
      }
    case _ =>
  }

  function KeySet(fields: seq<Field>): set<string> { set f <- fields :: f.key }

  lemma {:induction false} KeySetSize(fields: seq<Field>)
    requires DistinctKeys(fields)
    ensures |KeySet(fields)| == |fields|
  {
    if fields == [] {
      assert KeySet(fields) == {};
    } else {
      KeySetSize(fields[1..]);
      assert fields == [fields[0]] + fields[1..];
      assert KeySet(fields) == {fields[0].key} + KeySet(fields[1..]);
      forall i | 0 <= i < |fields| - 1 ensures fields[1..][i].key != fields[0].key {
        assert fields[1..][i] == fields[i + 1];
      }
    }
  }

  lemma SubsetOfSameSize(a: set<string>, b: set<string>)
    requires a <= b && |a| == |b|
    ensures a == b
  {
    assert |b - a| == |b| - |a|;
    assert a + (b - a) == b;
  }

  /** Python's equality, kind by kind: numbers and booleans by value, texts by content, lists
      position by position, and dictionaries key by key in whatever order they hold them. */
  lemma PyEqMeaning(a: Json, b: Json)
    ensures a.JNull? ==> (PyEq(a, b) <==> b.JNull?)
    ensures a.JStr? ==> (PyEq(a, b) <==> b == a)
    ensures a.JNum? ==> (PyEq(a, b) <==> b == a || (b.JBool? && a.n == if b.b then 1.0 else 0.0))
    ensures a.JBool? ==> (PyEq(a, b) <==> b == a || (b.JNum? && b.n == if a.b then 1.0 else 0.0))
    ensures a.JArr? ==>
              (PyEq(a, b) <==>
                b.JArr? && |b.items| == |a.items| && forall i :: 0 <= i < |a.items| ==> PyEq(a.items[i], b.items[i]))
    ensures a.JObj? && (b.JObj? ==> DistinctKeys(a.fields) && DistinctKeys(b.fields)) ==>
              (PyEq(a, b) <==> b.JObj? && SameEntries(a.fields, b.fields))
  {
    if a.JObj? && b.JObj? && DistinctKeys(a.fields) && DistinctKeys(b.fields) { PyEqDicts(a.fields, b.fields); }
  }

  /** The same keys, with equal values. */
  ghost predicate SameEntries(fs: seq<Field>, gs: seq<Field>) {
    && (forall k :: Lookup(fs, k).Some? <==> Lookup(gs, k).Some?)
    && forall k :: Lookup(fs, k).Some? && Lookup(gs, k).Some? ==> PyEq(Lookup(fs, k).value, Lookup(gs, k).value)
  }

  lemma PyEqDicts(fs: seq<Field>, gs: seq<Field>)
    requires DistinctKeys(fs) && DistinctKeys(gs)
    ensures PyEq(JObj(fs), JObj(gs)) <==> SameEntries(fs, gs)
  {
    if PyEq(JObj(fs), JObj(gs)) {
      EqualDictsAgree(fs, gs);
    } else if SameEntries(fs, gs) {
      AgreeingDictsEqual(fs, gs);
    }
  }

  lemma EqualDictsAgree(fs: seq<Field>, gs: seq<Field>)
    requires DistinctKeys(fs) && DistinctKeys(gs) && PyEq(JObj(fs), JObj(gs))
    ensures forall k :: Lookup(fs, k).Some? <==> Lookup(gs, k).Some?
    ensures forall k :: Lookup(fs, k).Some? && Lookup(gs, k).Some? ==> PyEq(Lookup(fs, k).value, Lookup(gs, k).value)
  {
    forall k | Lookup(fs, k).Some? ensures Lookup(gs, k).Some? && PyEq(Lookup(fs, k).value, Lookup(gs, k).value) {
      LookupMember(fs, k);
    }
    KeySetSize(fs);
    KeySetSize(gs);
    SameKeys(fs, gs);
  }

  lemma SameKeys(fs: seq<Field>, gs: seq<Field>)
    requires forall k :: Lookup(fs, k).Some? ==> Lookup(gs, k).Some?
    requires |KeySet(fs)| == |KeySet(gs)|
    ensures forall k :: Lookup(fs, k).Some? <==> Lookup(gs, k).Some?
  {
    InKeySet(fs);
    InKeySet(gs);
    hide Lookup, KeySet;
    SubsetOfSameSize(KeySet(fs), KeySet(gs));
  }

  lemma InKeySet(fields: seq<Field>)
    ensures forall k :: k in KeySet(fields) <==> Lookup(fields, k).Some?
  {
  }

  lemma AgreeingDictsEqual(fs: seq<Field>, gs: seq<Field>)
    requires DistinctKeys(fs) && DistinctKeys(gs)
    requires forall k :: Lookup(fs, k).Some? <==> Lookup(gs, k).Some?
    requires forall k :: Lookup(fs, k).Some? && Lookup(gs, k).Some? ==> PyEq(Lookup(fs, k).value, Lookup(gs, k).value)
    ensures PyEq(JObj(fs), JObj(gs))
  {
    KeySetSize(fs);
    KeySetSize(gs);
    InKeySet(fs);
    InKeySet(gs);
    assert KeySet(fs) == KeySet(gs);
    forall f | f in fs ensures Lookup(gs, f.key).Some? && PyEq(f.value, Lookup(gs, f.key).value) {
      var i :| 0 <= i < |fs| && fs[i] == f;
      LookupDistinct(fs, i);
    }
  }

  lemma LookupMember(fields: seq<Field>, key: string)
    requires Lookup(fields, key).Some?
    ensures Field(key, Lookup(fields, key).value) in fields
  {
  }

  // ----- Writing -----

  function Chars(s: string): (r: seq<Sym>)
    ensures |r| == |s| && forall i | 0 <= i < |s| :: r[i] == Ch(s[i])
  {
    seq(|s|, i requires 0 <= i < |s| => Ch(s[i]))
  }

  function HexDigit(d: nat): char
    requires d < 16
  {
    if d < 10 then ('0' as int + d) as char else ('a' as int + d - 10) as char
  }

  function HexSym(x: Sym): (r: Option<nat>)
    ensures r.Some? ==> r.value < 16
  {
    if x.Ch? then HexValue(x.c) else None
  }

  function HexValue(c: char): (r: Option<nat>)
    ensures r.Some? ==> r.value < 16
  {
    if '0' <= c <= '9' then Some(c as int - '0' as int)
    else if 'a' <= c <= 'f' then Some(c as int - 'a' as int + 10)
    else if 'A' <= c <= 'F' then Some(c as int - 'A' as int + 10)
    else None
  }

  /** `\uXXXX` for one UTF-16 code unit. */
  function EscapeUnit(u: nat): seq<Sym>
    requires u < 0x10000
  {
    [Ch('\\'), Ch('u'), Ch(HexDigit(u / 4096)), Ch(HexDigit(u / 256 % 16)), Ch(HexDigit(u / 16 % 16)),
      Ch(HexDigit(u % 16))]
  }

  function ShortEscape(c: char): Option<char> {
    if c == '"' then Some('"')
    else if c == '\\' then Some('\\')
    else if c == '\n' then Some('n')
    else if c == '\r' then Some('r')
    else if c == '\t' then Some('t')
    else if c == '\U{0c}' then Some('f')
    else if c == '\U{08}' then Some('b')
    else None
  }

  function EncodeChar(c: char): seq<Sym> {
    if ShortEscape(c).Some? then [Ch('\\'), Ch(ShortEscape(c).value)]
    else if ' ' <= c <= '~' then [Ch(c)]
    else if c as int < 0x10000 then EscapeUnit(c as int)
    else EscapeUnit(0xD800 + (c as int - 0x10000) / 0x400) + EscapeUnit(0xDC00 + (c as int - 0x10000) % 0x400)
  }

  function EncodeChars(s: string): seq<Sym> {
    if s == [] then [] else EncodeChar(s[0]) + EncodeChars(s[1..])
  }

  function EncodeString(s: string): seq<Sym> { [Ch('"')] + EncodeChars(s) + [Ch('"')] }

  function Encode(v: Json): seq<Sym>
    decreases v, 1
  {
    match v
    case JNull => Chars("null")
    case JBool(b) => if b then Chars("true") else Chars("false")
    case JNum(n) => [Num(n)]
    case JNonFinite => [NonFinite]
    case JStr(s) => EncodeString(s)
    case JArr(items) => [Ch('[')] + EncodeItems(items) + [Ch(']')]
    case JObj(fields) => [Ch('{')] + EncodeFields(fields) + [Ch('}')]
  }

  function EncodeItems(items: seq<Json>): seq<Sym>
    decreases items, 0
  {
    if items == [] then []
    else if |items| == 1 then Encode(items[0])
    else Encode(items[0]) + Chars(", ") + EncodeItems(items[1..])
  }

  function EncodeMember(f: Field): seq<Sym>
    decreases f, 2
  {
    EncodeString(f.key) + Chars(": ") + Encode(f.value)
  }

  function EncodeFields(fields: seq<Field>): seq<Sym>
    decreases fields, 0
  {
    if fields == [] then []
    else if |fields| == 1 then EncodeMember(fields[0])
    else EncodeMember(fields[0]) + Chars(", ") + EncodeFields(fields[1..])
  }

  // ----- Reading -----

  predicate IsWs(x: Sym) { x.Ch? && x.c in " \t\n\r" }

  function SkipWs(s: seq<Sym>): (r: seq<Sym>)
    ensures |r| <= |s|
    ensures r != [] ==> !IsWs(r[0])
  {
    if s != [] && IsWs(s[0]) then SkipWs(s[1..]) else s
  }

  predicate Starts(s: seq<Sym>, c: char) { s != [] && s[0] == Ch(c) }

  function ParseUnit(s: seq<Sym>): (r: Option<(nat, seq<Sym>)>)
    ensures r.Some? ==> r.value.0 < 0x10000 && |r.value.1| < |s|
  {
    if |s| < 6 || s[0] != Ch('\\') || s[1] != Ch('u') then None
    else match (HexSym(s[2]), HexSym(s[3]), HexSym(s[4]), HexSym(s[5]))
      case (Some(a), Some(b), Some(c), Some(d)) => Some((a * 4096 + b * 256 + c * 16 + d, s[6..]))
      case _ => None
  }

  /** One character of a string literal; `s` does not start with the closing quote. */
  function ParseChar(s: seq<Sym>): (r: Option<(char, seq<Sym>)>)
    ensures r.Some? ==> |r.value.1| < |s|
  {
    if s == [] || !s[0].Ch? || s[0].c < ' ' then None
    else if s[0].c != '\\' then Some((s[0].c, s[1..]))
    else if |s| < 2 || !s[1].Ch? then None
    else match s[1].c
      case '"' => Some(('"', s[2..]))
      case '\\' => Some(('\\', s[2..]))
      case '/' => Some(('/', s[2..]))
      case 'n' => Some(('\n', s[2..]))
      case 'r' => Some(('\r', s[2..]))
      case 't' => Some(('\t', s[2..]))
      case 'f' => Some(('\U{0c}', s[2..]))
      case 'b' => Some(('\U{08}', s[2..]))
      case 'u' => ParseEscaped(s)
      case _ => None
  }

  function ParseEscaped(s: seq<Sym>): (r: Option<(char, seq<Sym>)>)
    ensures r.Some? ==> |r.value.1| < |s|
  {
    match ParseUnit(s)
    case None => None
    case Some((hi, rest)) =>
      if hi < 0xD800 || 0xE000 <= hi then Some((hi as char, rest))
      else if 0xDC00 <= hi then None
      else match ParseUnit(rest)
        case None => None
        case Some((lo, rest2)) =>
          if 0xDC00 <= lo < 0xE000
          then Some(((0x10000 + (hi - 0xD800) * 0x400 + (lo - 0xDC00)) as char, rest2)) else None
  }

  function ParseChars(s: seq<Sym>): (r: Option<(string, seq<Sym>)>)
    ensures r.Some? ==> |r.value.1| < |s|
    decreases |s|
  {
    if Starts(s, '"') then Some(("", s[1..]))
    else match ParseChar(s)
      case None => None
      case Some((c, rest)) =>
        match ParseChars(rest)
        case None => None
        case Some((cs, rest2)) => Some(([c] + cs, rest2))
  }

  function ParseValue(s: seq<Sym>): (r: Option<(Json, seq<Sym>)>)
    ensures r.Some? ==> |r.value.1| < |s|
    decreases |s|, 1
  {
    if s == [] then None
    else match s[0]
      case Num(n) => Some((JNum(n), s[1..]))
      case NonFinite => Some((JNonFinite, s[1..]))
      case Ch(c) =>
        if c == '"' then
          match ParseChars(s[1..])
          case None => None
          case Some((cs, rest)) => Some((JStr(cs), rest))
        else if c == '[' then
          var t := SkipWs(s[1..]);
          if Starts(t, ']') then Some((JArr([]), t[1..]))
          else match ParseItems(t)
            case None => None
            case Some((items, rest)) => Some((JArr(items), rest))
        else if c == '{' then
          var t := SkipWs(s[1..]);
          if Starts(t, '}') then Some((JObj([]), t[1..]))
          else match ParseFields(t)
            case None => None
            case Some((fields, rest)) => Some((JObj(PutAll([], fields)), rest))
        else if Chars("null") <= s then Some((JNull, s[4..]))
        else if Chars("true") <= s then Some((JBool(true), s[4..]))
        else if Chars("false") <= s then Some((JBool(false), s[5..]))
        else None
  }

  /** The elements of an array up to and including the closing bracket. */
  function ParseItems(s: seq<Sym>): (r: Option<(seq<Json>, seq<Sym>)>)
    ensures r.Some? ==> |r.value.1| < |s|
    decreases |s|, 2
  {
    match ParseValue(s)
    case None => None
    case Some((v, rest)) =>
      var t := SkipWs(rest);
      if Starts(t, ']') then Some(([v], t[1..]))
      else if Starts(t, ',') then
        match ParseItems(SkipWs(t[1..]))
        case None => None
        case Some((vs, rest2)) => Some(([v] + vs, rest2))
      else None
  }

  /** One `"key": value` member. */
  function ParseMember(s: seq<Sym>): (r: Option<(Field, seq<Sym>)>)
    ensures r.Some? ==> |r.value.1| < |s|
    decreases |s|, 2
  {
    if !Starts(s, '"') then None
    else match ParseChars(s[1..])
      case None => None
      case Some((key, afterKey)) =>
        var colon := SkipWs(afterKey);
        if !Starts(colon, ':') then None
        else match ParseValue(SkipWs(colon[1..]))
          case None => None
          case Some((v, rest)) => Some((Field(key, v), rest))
  }

  /** The members of an object up to and including the closing brace. */
  function ParseFields(s: seq<Sym>): (r: Option<(seq<Field>, seq<Sym>)>)
    ensures r.Some? ==> |r.value.1| < |s|
    decreases |s|, 3
  {
    match ParseMember(s)
    case None => None
    case Some((f, rest)) =>
      var t := SkipWs(rest);
      if Starts(t, '}') then Some(([f], t[1..]))
      else if Starts(t, ',') then
        match ParseFields(SkipWs(t[1..]))
        case None => None
        case Some((more, rest2)) => Some(([f] + more, rest2))
      else None
  }

  /** `json.loads(s)`; `None` stands for `JSONDecodeError`. */
  function Loads(s: seq<Sym>): Option<Json> {
    match ParseValue(SkipWs(s))
    case None => None
    case Some((v, rest)) => if SkipWs(rest) == [] then Some(v) else None
  }

  /** `json.loads(s, parse_constant=_reject_json_constant)`. */
  function StrictLoads(s: seq<Sym>): Option<Json> {
    if NonFinite in s then None else Loads(s)
  }
}
