/** Python's stable `sorted`, as insertion behind every element that is not greater. */
module Sorting {
  function Insert<E>(s: seq<E>, e: E, le: (E, E) -> bool): (r: seq<E>)
    ensures multiset(r) == multiset(s) + multiset{e}
    ensures |r| == |s| + 1
  {
    if s == [] then [e]
    else
      var front, last := s[..|s| - 1], s[|s| - 1];
      assert s == front + [last];
      if le(last, e) then s + [e] else Insert(front, e, le) + [last]
  }

  function Sorted<E>(s: seq<E>, le: (E, E) -> bool): (r: seq<E>)
    ensures multiset(r) == multiset(s)
    ensures |r| == |s|
  {
    if s == [] then []
    else
      assert s == s[..|s| - 1] + [s[|s| - 1]];
      Insert(Sorted(s[..|s| - 1], le), s[|s| - 1], le)
  }

  ghost predicate TotalPreorder<E(!new)>(le: (E, E) -> bool) {
    && (forall a, b :: le(a, b) || le(b, a))
    && (forall a, b, c :: le(a, b) && le(b, c) ==> le(a, c))
  }

  ghost predicate InOrder<E>(s: seq<E>, le: (E, E) -> bool) {
    forall i, j :: 0 <= i < j < |s| ==> le(s[i], s[j])
  }

  lemma {:induction false} InsertInOrder<E(!new)>(s: seq<E>, e: E, le: (E, E) -> bool)
    requires TotalPreorder(le) && InOrder(s, le)
    ensures InOrder(Insert(s, e, le), le)
  {
    if s != [] {
      var front, last := s[..|s| - 1], s[|s| - 1];
      assert s == front + [last];
      InsertInOrder(front, e, le);
      var r := Insert(front, e, le);
      forall i | 0 <= i < |r| && !le(last, e) ensures le(r[i], last) {
        assert r[i] in multiset(r);
        assert r[i] == e || r[i] in front;
      }
    }
  }

  lemma {:induction false} SortedInOrder<E(!new)>(s: seq<E>, le: (E, E) -> bool)
    requires TotalPreorder(le)
    ensures InOrder(Sorted(s, le), le)
  {
    if s != [] {
      SortedInOrder(s[..|s| - 1], le);
      InsertInOrder(Sorted(s[..|s| - 1], le), s[|s| - 1], le);
    }
  }

  lemma SortedMembers<E>(s: seq<E>, le: (E, E) -> bool)
    ensures forall e :: e in Sorted(s, le) <==> e in s
  {
    forall e ensures e in Sorted(s, le) <==> e in s {
      assert e in multiset(Sorted(s, le)) <==> e in multiset(s);
    }
  }

  ghost predicate StrictlyInOrder<E>(s: seq<E>, le: (E, E) -> bool) {
    forall i, j :: 0 <= i < j < |s| ==> le(s[i], s[j]) && !le(s[j], s[i])
  }

  /** Only one ordering of distinct keys is in order. */
  lemma {:induction false} OrderIsUnique<E>(a: seq<E>, b: seq<E>, le: (E, E) -> bool)
    requires StrictlyInOrder(a, le) && InOrder(b, le) && multiset(a) == multiset(b)
    ensures a == b
  {
    SameLength(a, b);
    if a != [] {
      SameHead(a, b, le);
      TailMembers(a);
      TailMembers(b);
      OrderIsUnique(a[1..], b[1..], le);
      assert a == [a[0]] + a[1..] && b == [b[0]] + b[1..];
    }
  }

  lemma SameLength<E>(a: seq<E>, b: seq<E>)
    requires multiset(a) == multiset(b)
    ensures |a| == |b|
  {
    assert |a| == |multiset(a)| == |multiset(b)| == |b|;
  }

  lemma TailMembers<E>(s: seq<E>)
    requires s != []
    ensures multiset(s[1..]) == multiset(s) - multiset{s[0]}
  {
    assert s == [s[0]] + s[1..];
  }

  lemma SameHead<E>(a: seq<E>, b: seq<E>, le: (E, E) -> bool)
    requires StrictlyInOrder(a, le) && InOrder(b, le) && multiset(a) == multiset(b) && a != [] && b != []
    ensures a[0] == b[0]
  {
    assert a[0] in multiset(b) && b[0] in multiset(a);
    var k :| 0 <= k < |b| && b[k] == a[0];
    var m :| 0 <= m < |a| && a[m] == b[0];
  }

  /** Sorting by distinct keys undoes any shuffling. */
  lemma SortedRestores<E(!new)>(original: seq<E>, shuffled: seq<E>, le: (E, E) -> bool)
    requires TotalPreorder(le) && StrictlyInOrder(original, le) && multiset(shuffled) == multiset(original)
    ensures Sorted(shuffled, le) == original
  {
    SortedInOrder(shuffled, le);
    OrderIsUnique(original, Sorted(shuffled, le), le);
  }
}
