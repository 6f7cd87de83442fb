/** Sorting as the standard library promises it: the sorted permutation, which a total order makes unique. */
module Ordering {

  predicate Comparable<T>(leq: (T, T) -> bool, x: T, y: T) {
    leq(x, y) || leq(y, x)
  }

  predicate Antisymmetric<T(==)>(leq: (T, T) -> bool, x: T, y: T) {
    leq(x, y) && leq(y, x) ==> x == y
  }

  predicate Transitive<T>(leq: (T, T) -> bool, x: T, y: T, z: T) {
    leq(x, y) && leq(y, z) ==> leq(x, z)
  }

  /** The laws hold everywhere; a proof names the instances it uses. */
  ghost predicate TotalOrder<T(!new)>(leq: (T, T) -> bool) {
    && (forall x, y :: Comparable(leq, x, y))
    && (forall x, y :: Antisymmetric(leq, x, y))
    && (forall x, y, z :: Transitive(leq, x, y, z))
  }

  ghost predicate Sorted<T>(leq: (T, T) -> bool, s: seq<T>) {
    forall i, j :: 0 <= i < j < |s| ==> leq(s[i], s[j])
  }

  ghost predicate Distinct<T>(s: seq<T>) {
    forall i, j :: 0 <= i < j < |s| ==> s[i] != s[j]
  }

  function Insert<T>(leq: (T, T) -> bool, x: T, s: seq<T>): seq<T> {
    if s == [] then [x]
    else if leq(x, s[0]) then [x] + s
    else [s[0]] + Insert(leq, x, s[1..])
  }

  function Sort<T>(leq: (T, T) -> bool, s: seq<T>): seq<T> {
    if s == [] then [] else Insert(leq, s[|s| - 1], Sort(leq, s[..|s| - 1]))
  }

  /** `dedup`: drops every element equal to its predecessor. */
  function Dedup<T(==)>(s: seq<T>): seq<T> {
    if |s| < 2 then s
    else if s[|s| - 2] == s[|s| - 1] then Dedup(s[..|s| - 1])
    else Dedup(s[..|s| - 1]) + [s[|s| - 1]]
  }

  lemma {:induction false} InsertPermutes<T>(leq: (T, T) -> bool, x: T, s: seq<T>)
    ensures multiset(Insert(leq, x, s)) == multiset(s) + multiset{x}
  {
    if s != [] && !leq(x, s[0]) {
      InsertPermutes(leq, x, s[1..]);
      assert s == [s[0]] + s[1..];
    }
  }

  lemma PrependSorts<T>(leq: (T, T) -> bool, x: T, s: seq<T>)
    requires Sorted(leq, s) && forall i :: 0 <= i < |s| ==> leq(x, s[i])
    ensures Sorted(leq, [x] + s)
  {
  }

  lemma {:induction false} InsertSorts<T(!new)>(leq: (T, T) -> bool, x: T, s: seq<T>)
    requires TotalOrder(leq) && Sorted(leq, s)
    ensures Sorted(leq, Insert(leq, x, s))
  {
    if s != [] {
      assert Comparable(leq, x, s[0]);
      if leq(x, s[0]) {
        forall i | 0 <= i < |s|
          ensures leq(x, s[i])
        {
          assert Transitive(leq, x, s[0], s[i]);
        }
        PrependSorts(leq, x, s);
      } else {
        InsertSorts(leq, x, s[1..]);
        InsertPermutes(leq, x, s[1..]);
        var rest := Insert(leq, x, s[1..]);
        forall i | 0 <= i < |rest|
          ensures leq(s[0], rest[i])
        {
          assert rest[i] in multiset(rest);
        }
        PrependSorts(leq, s[0], rest);
      }
    }
  }

  lemma {:induction false} SortSorts<T(!new)>(leq: (T, T) -> bool, s: seq<T>)
    requires TotalOrder(leq)
    ensures Sorted(leq, Sort(leq, s)) && multiset(Sort(leq, s)) == multiset(s)
  {
    if s != [] {
      var shorter, x := s[..|s| - 1], s[|s| - 1];
      SortSorts(leq, shorter);
      InsertSorts(leq, x, Sort(leq, shorter));
      InsertPermutes(leq, x, Sort(leq, shorter));
      assert s == shorter + [x];
    }
  }

  lemma TailBag<T>(s: seq<T>)
    requires s != []
    ensures multiset(s[1..]) == multiset(s) - multiset{s[0]}
  {
    assert s == [s[0]] + s[1..];
  }

  /** Whatever algorithm sorts, the result is the same. */
  lemma {:induction false} SortedIsUnique<T(!new)>(leq: (T, T) -> bool, a: seq<T>, b: seq<T>)
    requires TotalOrder(leq) && Sorted(leq, a) && Sorted(leq, b) && multiset(a) == multiset(b)
    ensures a == b
  {
    assert |a| == |multiset(a)| && |b| == |multiset(b)|;
    if a != [] {
      HeadIsLeast(leq, a, b);
      HeadIsLeast(leq, b, a);
      assert Antisymmetric(leq, a[0], b[0]);
      TailBag(a);
      TailBag(b);
      SortedIsUnique(leq, a[1..], b[1..]);
      assert a == [a[0]] + a[1..] && b == [b[0]] + b[1..];
    }
  }

  lemma HeadIsLeast<T(!new)>(leq: (T, T) -> bool, a: seq<T>, b: seq<T>)
    requires TotalOrder(leq) && Sorted(leq, a) && a != [] && b != [] && multiset(a) == multiset(b)
    ensures leq(a[0], b[0])
  {
    assert b[0] in multiset(a);
    var i :| 0 <= i < |a| && a[i] == b[0];
    assert Comparable(leq, a[0], a[0]);
  }

  /** Sorting does not see the order it is given. */
  lemma SortIgnoresOrder<T(!new)>(leq: (T, T) -> bool, a: seq<T>, b: seq<T>)
    requires TotalOrder(leq) && multiset(a) == multiset(b)
    ensures Sort(leq, a) == Sort(leq, b)
  {
    SortSorts(leq, a);
    SortSorts(leq, b);
    SortedIsUnique(leq, Sort(leq, a), Sort(leq, b));
  }

  // ----- mapping an order embedding over a sort

  function Map<A, B>(f: A -> B, s: seq<A>): (r: seq<B>)
    ensures |r| == |s| && forall i :: 0 <= i < |s| ==> r[i] == f(s[i])
  {
    if s == [] then [] else Map(f, s[..|s| - 1]) + [f(s[|s| - 1])]
  }

  predicate EmbedsAt<A, B>(f: A -> B, leqA: (A, A) -> bool, leqB: (B, B) -> bool, x: A, y: A) {
    leqA(x, y) <==> leqB(f(x), f(y))
  }

  ghost predicate Embeds<A(!new), B>(f: A -> B, leqA: (A, A) -> bool, leqB: (B, B) -> bool) {
    forall x, y :: EmbedsAt(f, leqA, leqB, x, y)
  }

  lemma InsertCons<T>(leq: (T, T) -> bool, x: T, head: T, tail: seq<T>)
    ensures Insert(leq, x, [head] + tail) == if leq(x, head) then [x] + ([head] + tail) else [head] + Insert(leq, x, tail)
  {
    assert ([head] + tail)[1..] == tail;
  }

  lemma MapCons<A, B>(f: A -> B, head: A, tail: seq<A>)
    ensures Map(f, [head] + tail) == [f(head)] + Map(f, tail)
  {
  }

  lemma {:induction false} InsertMaps<A(!new), B>(f: A -> B, leqA: (A, A) -> bool, leqB: (B, B) -> bool, x: A, s: seq<A>)
    requires Embeds(f, leqA, leqB)
    ensures Insert(leqB, f(x), Map(f, s)) == Map(f, Insert(leqA, x, s))
  {
    if s == [] {
      assert Map(f, [x]) == [f(x)];
    } else {
      var head, tail := s[0], s[1..];
      assert s == [head] + tail;
      InsertMaps(f, leqA, leqB, x, tail);
      InsertConsMaps(f, leqA, leqB, x, head, tail);
    }
  }

  lemma InsertConsMaps<A(!new), B>(f: A -> B, leqA: (A, A) -> bool, leqB: (B, B) -> bool, x: A, head: A, tail: seq<A>)
    requires Embeds(f, leqA, leqB) && Insert(leqB, f(x), Map(f, tail)) == Map(f, Insert(leqA, x, tail))
    ensures Insert(leqB, f(x), Map(f, [head] + tail)) == Map(f, Insert(leqA, x, [head] + tail))
  {
    assert EmbedsAt(f, leqA, leqB, x, head);
    MapCons(f, head, tail);
    InsertCons(leqB, f(x), f(head), Map(f, tail));
    InsertCons(leqA, x, head, tail);
    MapCons(f, x, [head] + tail);
    MapCons(f, head, Insert(leqA, x, tail));
  }

  lemma SortAppend<T>(leq: (T, T) -> bool, s: seq<T>, x: T)
    ensures Sort(leq, s + [x]) == Insert(leq, x, Sort(leq, s))
  {
    assert (s + [x])[..|s + [x]| - 1] == s;
  }

  lemma MapAppend<A, B>(f: A -> B, s: seq<A>, x: A)
    ensures Map(f, s + [x]) == Map(f, s) + [f(x)]
  {
    assert (s + [x])[..|s + [x]| - 1] == s;
  }

  lemma {:induction false} SortMaps<A(!new), B>(f: A -> B, leqA: (A, A) -> bool, leqB: (B, B) -> bool, s: seq<A>)
    requires Embeds(f, leqA, leqB)
    ensures Sort(leqB, Map(f, s)) == Map(f, Sort(leqA, s))
  {
    if s != [] {
      var front, x := s[..|s| - 1], s[|s| - 1];
      assert s == front + [x];
      SortMaps(f, leqA, leqB, front);
      MapAppend(f, front, x);
      SortAppend(leqB, Map(f, front), f(x));
      SortAppend(leqA, front, x);
      InsertMaps(f, leqA, leqB, x, Sort(leqA, front));
    }
  }

  // ----- dedup

  lemma {:induction false} DedupKeepsDistinct<T>(s: seq<T>)
    requires Distinct(s)
    ensures Dedup(s) == s
  {
    if |s| >= 2 {
      DedupKeepsDistinct(s[..|s| - 1]);
    }
  }

  /** After sorting, dedup leaves each value once, in strictly increasing order. */
  lemma {:induction false} DedupSorted<T(!new)>(leq: (T, T) -> bool, s: seq<T>)
    requires TotalOrder(leq) && Sorted(leq, s)
    ensures Sorted(leq, Dedup(s)) && Distinct(Dedup(s))
    ensures forall x :: x in Dedup(s) <==> x in s
    ensures s != [] ==> Dedup(s) != [] && Dedup(s)[|Dedup(s)| - 1] == s[|s| - 1]
  {
    if |s| >= 2 {
      var shorter := s[..|s| - 1];
      DedupSorted(leq, shorter);
      assert s == shorter + [s[|s| - 1]];
      assert s[|s| - 2] in shorter;
      var d := Dedup(shorter);
      if s[|s| - 2] != s[|s| - 1] {
        forall i | 0 <= i < |d|
          ensures leq(d[i], s[|s| - 1]) && d[i] != s[|s| - 1]
        {
          LastIsNew(leq, s, d[i]);
        }
      }
    }
  }

  lemma LastIsNew<T(!new)>(leq: (T, T) -> bool, s: seq<T>, x: T)
    requires TotalOrder(leq) && Sorted(leq, s) && |s| >= 2 && s[|s| - 2] != s[|s| - 1] && x in s[..|s| - 1]
    ensures leq(x, s[|s| - 1]) && x != s[|s| - 1]
  {
    var i :| 0 <= i < |s| - 1 && s[i] == x;
    assert Antisymmetric(leq, s[|s| - 2], s[|s| - 1]);
  }

  // ----- strings, compared scalar by scalar (the order of their UTF-8 bytes)

  predicate StringLeq(a: string, b: string) {
    a == [] || (b != [] && (a[0] < b[0] || (a[0] == b[0] && StringLeq(a[1..], b[1..]))))
  }

  /** Dictionary order: a prefix comes first, otherwise the first differing character decides. */
  lemma {:induction false} StringLeqIsDictionary(a: string, b: string)
    ensures StringLeq(a, b) <==> a <= b || exists i :: DecidedAt(a, b, i)
  {
    if a != [] && b != [] {
      var x, y := a[1..], b[1..];
      assert a == [a[0]] + x && b == [b[0]] + y;
      forall i | DecidedAt(a, b, i)
        ensures i == 0 || a[0] == b[0]
      {
        DecidedLater(a, b, i);
      }
      if a[0] == b[0] {
        StringLeqIsDictionary(x, y);
        if i :| DecidedAt(x, y, i) {
          assert a[..i + 1] == [a[0]] + x[..i] && b[..i + 1] == [b[0]] + y[..i];
          assert DecidedAt(a, b, i + 1);
        }
        if i :| DecidedAt(a, b, i) {
          assert x[..i - 1] == a[..i][1..] && y[..i - 1] == b[..i][1..];
          assert DecidedAt(x, y, i - 1);
        }
      } else {
        if a[0] < b[0] {
          assert DecidedAt(a, b, 0);
        }
      }
    }
  }

  lemma DecidedLater(a: string, b: string, i: int)
    requires DecidedAt(a, b, i)
    ensures i == 0 || a[0] == b[0]
  {
    if i != 0 {
      assert a[..i][0] == a[0] && b[..i][0] == b[0];
    }
  }

  /** The strings agree before `i`, and `a` has the smaller scalar there. */
  predicate DecidedAt(a: string, b: string, i: int) {
    0 <= i < |a| && i < |b| && a[..i] == b[..i] && a[i] as int < b[i] as int
  }

  lemma {:induction false} StringLeqTotal(a: string, b: string)
    ensures StringLeq(a, b) || StringLeq(b, a)
  {
    if a != [] && b != [] {
      StringLeqTotal(a[1..], b[1..]);
    }
  }

  lemma {:induction false} StringLeqAntisymmetric(a: string, b: string)
    requires StringLeq(a, b) && StringLeq(b, a)
    ensures a == b
  {
    if a != [] {
      StringLeqAntisymmetric(a[1..], b[1..]);
      assert a == [a[0]] + a[1..] && b == [b[0]] + b[1..];
    }
  }

  lemma {:induction false} StringLeqTransitive(a: string, b: string, c: string)
    requires StringLeq(a, b) && StringLeq(b, c)
    ensures StringLeq(a, c)
  {
    if a != [] && a[0] == b[0] == c[0] {
      StringLeqTransitive(a[1..], b[1..], c[1..]);
    }
  }

  lemma StringOrder()
    ensures TotalOrder(StringLeq)
  {
    forall a, b
      ensures Comparable(StringLeq, a, b)
    {
      StringLeqTotal(a, b);
    }
    forall a, b
      ensures Antisymmetric(StringLeq, a, b)
    {
      if StringLeq(a, b) && StringLeq(b, a) {
        StringLeqAntisymmetric(a, b);
      }
    }
    forall a, b, c
      ensures Transitive(StringLeq, a, b, c)
    {
      if StringLeq(a, b) && StringLeq(b, c) {
        StringLeqTransitive(a, b, c);
      }
    }
  }

  lemma CommonHead(c: char, a: string, b: string)
    ensures StringLeq([c] + a, [c] + b) <==> StringLeq(a, b)
  {
    assert ([c] + a)[1..] == a && ([c] + b)[1..] == b;
  }

  lemma {:induction false} CommonPrefix(p: string, a: string, b: string)
    ensures StringLeq(p + a, p + b) <==> StringLeq(a, b)
  {
    if p == [] {
      assert p + a == a && p + b == b;
    } else {
      var front, last := p[..|p| - 1], p[|p| - 1];
      assert p + a == front + ([last] + a) && p + b == front + ([last] + b);
      CommonPrefix(front, [last] + a, [last] + b);
      CommonHead(last, a, b);
    }
  }
}
