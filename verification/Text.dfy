/** The option and result types, Python's `str.strip`, the order of strings, and
    decimal numerals. */
module Options {
  datatype Option<+T> = None | Some(value: T)
  datatype Result<+T, +E> = Ok(value: T) | Err(error: E)
}

module Text {
  import opened Options

  /** The characters `str.strip()` removes. */
  predicate IsSpace(c: char) {
    || '\t' <= c <= '\r' || '\U{1c}' <= c <= ' ' || c == '\U{85}' || c == '\U{a0}'
    || c == '\U{1680}' || '\U{2000}' <= c <= '\U{200a}' || c == '\U{2028}' || c == '\U{2029}'
    || c == '\U{202f}' || c == '\U{205f}' || c == '\U{3000}'
  }

  function TrimLeft<T>(s: seq<T>, blank: T -> bool): (r: seq<T>)
    ensures |r| <= |s|
    ensures r != [] ==> !blank(r[0])
  {
    if s != [] && blank(s[0]) then TrimLeft(s[1..], blank) else s
  }

  function TrimRight<T>(s: seq<T>, blank: T -> bool): (r: seq<T>)
    ensures r <= s
    ensures r != [] ==> !blank(r[|r| - 1])
  {
    if s != [] && blank(s[|s| - 1]) then TrimRight(s[..|s| - 1], blank) else s
  }

  function Strip<T>(s: seq<T>, blank: T -> bool): (r: seq<T>)
    ensures |r| <= |s|
  {
    TrimRight(TrimLeft(s, blank), blank)
  }

  lemma {:induction false} TrimLeftAppend<T>(a: seq<T>, b: seq<T>, blank: T -> bool)
    requires b != [] && !blank(b[0])
    ensures TrimLeft(a + b, blank) == TrimLeft(a, blank) + b
  {
    if a == [] {
      assert a + b == b;
    } else {
      assert (a + b)[0] == a[0] && (a + b)[1..] == a[1..] + b;
      if blank(a[0]) { TrimLeftAppend(a[1..], b, blank); }
    }
  }

  lemma {:induction false} TrimRightAppend<T>(a: seq<T>, b: seq<T>, blank: T -> bool) returns (j: nat)
    requires b != [] && !blank(b[0])
    ensures 1 <= j <= |b| && TrimRight(a + b, blank) == a + b[..j]
    ensures !blank(b[|b| - 1]) ==> j == |b|
  {
    var last := |b| - 1;
    assert (a + b)[|a + b| - 1] == b[last];
    if blank(b[last]) {
      assert (a + b)[..|a + b| - 1] == a + b[..last];
      j := TrimRightAppend(a, b[..last], blank);
      assert b[..last][..j] == b[..j];
    } else {
      j := |b|;
      assert b[..j] == b;
    }
  }

  /** Stripping `a + b`, where `b` starts with a non-blank, trims `a` on the left
      and `b` on the right. */
  lemma StripAppend<T>(a: seq<T>, b: seq<T>, blank: T -> bool) returns (j: nat)
    requires b != [] && !blank(b[0])
    ensures 1 <= j <= |b| && Strip(a + b, blank) == TrimLeft(a, blank) + b[..j]
    ensures !blank(b[|b| - 1]) ==> j == |b|
  {
    TrimLeftAppend(a, b, blank);
    j := TrimRightAppend(TrimLeft(a, blank), b, blank);
  }

  /** Stripping leaves nothing exactly when trimming on the left does. */
  lemma {:induction false} StripNothing<T>(s: seq<T>, blank: T -> bool)
    ensures Strip(s, blank) == [] <==> TrimLeft(s, blank) == []
  {
    var t := TrimLeft(s, blank);
    if t != [] {
      var j := TrimRightAppend([], t, blank);
      assert [] + t == t;
    }
  }

  /** Stripping takes away blanks at the ends, and only those. */
  lemma StripMeans<T>(s: seq<T>, blank: T -> bool) returns (i: nat, j: nat)
    ensures i <= j <= |s| && Strip(s, blank) == s[i..j]
    ensures forall k :: 0 <= k < i || j <= k < |s| ==> blank(s[k])
    ensures i < j ==> !blank(s[i]) && !blank(s[j - 1])
  {
    i := TrimLeftDrops(s, blank);
    TrimmedAreBlank(s[i..], blank);
    j := i + |TrimRight(s[i..], blank)|;
    assert s[i..][..j - i] == s[i..j];
    forall k | j <= k < |s| ensures blank(s[k]) { assert s[i..][k - i] == s[k]; }
  }

  lemma {:induction false} TrimmedAreBlank<T>(s: seq<T>, blank: T -> bool)
    ensures forall k :: |TrimRight(s, blank)| <= k < |s| ==> blank(s[k])
  {
    if s != [] && blank(s[|s| - 1]) { TrimmedAreBlank(s[..|s| - 1], blank); }
  }

  lemma {:induction false} TrimLeftDrops<T>(s: seq<T>, blank: T -> bool) returns (i: nat)
    ensures i <= |s| && TrimLeft(s, blank) == s[i..] && (i < |s| ==> !blank(s[i]))
    ensures forall k :: 0 <= k < i ==> blank(s[k])
  {
    i := 0;
    if s != [] && blank(s[0]) {
      var rest := TrimLeftDrops(s[1..], blank);
      i := rest + 1;
      assert forall k :: 0 < k < i ==> s[k] == s[1..][k - 1];
    }
  }

  /** Python's `<=` on strings: lexicographic by code point. */
  predicate StrLe(a: string, b: string) {
    if a == [] then true
    else if b == [] then false
    else if a[0] == b[0] then StrLe(a[1..], b[1..])
    else a[0] < b[0]
  }

  /** The first difference decides, and a prefix comes first. */
  lemma {:induction false} StrLeMeans(a: string, b: string)
    ensures StrLe(a, b)
            <==> a <= b || exists k :: 0 <= k < |a| && k < |b| && a[..k] == b[..k] && a[k] < b[k]
  {
    if a != [] && b != [] {
      if a[0] == b[0] {
        StrLeMeans(a[1..], b[1..]);
        assert a == [a[0]] + a[1..] && b == [b[0]] + b[1..];
        assert forall k :: 0 <= k < |a| - 1 && k < |b| - 1 ==>
                 a[..k + 1] == [a[0]] + a[1..][..k] && b[..k + 1] == [b[0]] + b[1..][..k];
        if k :| 0 <= k < |a| - 1 && k < |b| - 1 && a[1..][..k] == b[1..][..k] && a[1..][k] < b[1..][k] {
          assert a[..k + 1] == b[..k + 1] && a[k + 1] < b[k + 1];
        }
        if k :| 0 <= k < |a| && k < |b| && a[..k] == b[..k] && a[k] < b[k] {
          assert a[1..][..k - 1] == a[1..k] == a[..k][1..] && b[1..][..k - 1] == b[1..k] == b[..k][1..];
        }
      } else {
        assert a[..0] == b[..0];
        forall k | 0 < k < |a| && k < |b| ensures a[..k] != b[..k] {
          assert a[..k][0] == a[0] && b[..k][0] == b[0];
        }
      }
    }
  }

  lemma {:induction false} StrLeTotal(a: string, b: string)
    ensures StrLe(a, b) || StrLe(b, a)
    ensures StrLe(a, b) && StrLe(b, a) ==> a == b
  {
    if a != [] && b != [] {
      StrLeTotal(a[1..], b[1..]);
      assert a == [a[0]] + a[1..] && b == [b[0]] + b[1..];
    }
  }

  lemma {:induction false} StrLeTransitive(a: string, b: string, c: string)
    requires StrLe(a, b) && StrLe(b, c)
    ensures StrLe(a, c)
  {
    if a != [] && b != [] && c != [] && a[0] == b[0] == c[0] { StrLeTransitive(a[1..], b[1..], c[1..]); }
  }

  function Digit(d: nat): char
    requires d < 10
  {
    "0123456789"[d]
  }

  /** `str(n)` for a natural number. */
  function Numeral(n: nat): (s: string)
    ensures s != [] && forall c <- s :: '0' <= c <= '9'
  {
    if n < 10 then [Digit(n)] else Numeral(n / 10) + [Digit(n % 10)]
  }

  /** `int(s)` for a string of digits. */
  function ParseNumeral(s: string): Option<nat> {
    if s == [] || !('0' <= s[|s| - 1] <= '9') then None
    else
      var d := s[|s| - 1] as int - '0' as int;
      if |s| == 1 then Some(d)
      else match ParseNumeral(s[..|s| - 1])
           case None => None
           case Some(n) => Some(10 * n + d)
  }

  lemma {:induction false} NumeralRoundTrip(n: nat)
    ensures ParseNumeral(Numeral(n)) == Some(n)
  {
    if n >= 10 {
      NumeralRoundTrip(n / 10);
      assert Numeral(n)[..|Numeral(n)| - 1] == Numeral(n / 10);
    }
  }

  function IntText(t: int): (s: string)
    ensures s != []
  {
    if t < 0 then "-" + Numeral(-t) else Numeral(t)
  }

  function ParseInt(s: string): Option<int> {
    if s != [] && s[0] == '-' then
      match ParseNumeral(s[1..])
      case None => None
      case Some(n) => var m: int := n; Some(-m)
    else
      match ParseNumeral(s)
      case None => None
      case Some(n) => Some(n)
  }

  lemma IntRoundTrip(t: int)
    ensures ParseInt(IntText(t)) == Some(t)
  {
    NumeralRoundTrip(if t < 0 then -t else t);
    if t < 0 { assert IntText(t)[1..] == Numeral(-t); } else { assert Numeral(t)[0] in Numeral(t); }
  }
}
