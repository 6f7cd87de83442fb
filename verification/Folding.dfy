/** Summing over a sequence in a commutative monoid: the order does not matter. */
module Folding {

  datatype Monoid<!M> = Monoid(op: (M, M) -> M, unit: M)

  predicate Associates<M(==)>(m: Monoid<M>, x: M, y: M, z: M) {
    m.op(m.op(x, y), z) == m.op(x, m.op(y, z))
  }

  predicate Commutes<M(==)>(m: Monoid<M>, x: M, y: M) {
    m.op(x, y) == m.op(y, x)
  }

  predicate Absorbs<M(==)>(m: Monoid<M>, x: M) {
    m.op(x, m.unit) == x
  }

  /** The laws hold everywhere; a proof names the instances it uses. */
  ghost predicate Commutative<M(!new)>(m: Monoid<M>) {
    && (forall x, y, z :: Associates(m, x, y, z))
    && (forall x, y :: Commutes(m, x, y))
    && (forall x :: Absorbs(m, x))
  }

  function Fold<A, M>(m: Monoid<M>, f: A -> M, s: seq<A>): M {
    if s == [] then m.unit else m.op(Fold(m, f, s[..|s| - 1]), f(s[|s| - 1]))
  }

  lemma FoldPrefix<A, M>(m: Monoid<M>, f: A -> M, s: seq<A>, i: nat)
    requires i < |s|
    ensures Fold(m, f, s[..i + 1]) == m.op(Fold(m, f, s[..i]), f(s[i]))
  {
    assert s[..i + 1][..i] == s[..i];
  }

  lemma FoldAppend<A, M>(m: Monoid<M>, f: A -> M, s: seq<A>, x: A)
    ensures Fold(m, f, s + [x]) == m.op(Fold(m, f, s), f(x))
  {
    assert (s + [x])[..|s + [x]| - 1] == s;
  }

  lemma {:induction false} FoldSplit<A, M(!new)>(m: Monoid<M>, f: A -> M, u: seq<A>, v: seq<A>)
    requires Commutative(m)
    ensures Fold(m, f, u + v) == m.op(Fold(m, f, u), Fold(m, f, v))
  {
    if v == [] {
      assert u + v == u;
      assert Absorbs(m, Fold(m, f, u));
    } else {
      var front, x := v[..|v| - 1], v[|v| - 1];
      FoldSplit(m, f, u, front);
      FoldAppend(m, f, u + front, x);
      assert u + v == u + front + [x];
      assert Associates(m, Fold(m, f, u), Fold(m, f, front), f(x));
    }
  }

  lemma SwapLast<M(!new)>(m: Monoid<M>, x: M, y: M, z: M)
    requires Commutative(m)
    ensures m.op(m.op(x, y), z) == m.op(m.op(x, z), y)
  {
    assert Associates(m, x, y, z) && Associates(m, x, z, y) && Commutes(m, y, z);
  }

  lemma FoldRemove<A, M(!new)>(m: Monoid<M>, f: A -> M, s: seq<A>, i: nat)
    requires Commutative(m) && i < |s|
    ensures Fold(m, f, s) == m.op(Fold(m, f, s[..i] + s[i + 1..]), f(s[i]))
  {
    var u, x, v := s[..i], s[i], s[i + 1..];
    assert s == (u + [x]) + v;
    FoldSplit(m, f, u + [x], v);
    FoldSplit(m, f, u, v);
    FoldAppend(m, f, u, x);
    SwapLast(m, Fold(m, f, u), f(x), Fold(m, f, v));
  }

  lemma Removed<A>(a: seq<A>, b: seq<A>, i: nat)
    requires a != [] && multiset(a) == multiset(b) && i < |b| && b[i] == a[|a| - 1]
    ensures multiset(b[..i] + b[i + 1..]) == multiset(a[..|a| - 1])
  {
    var x := a[|a| - 1];
    assert a == a[..|a| - 1] + [x];
    assert b == b[..i] + [x] + b[i + 1..];
    assert multiset(a) == multiset(a[..|a| - 1]) + multiset{x};
    assert multiset(b) == multiset(b[..i]) + multiset{x} + multiset(b[i + 1..]);
    assert multiset(b[..i] + b[i + 1..]) == multiset(b[..i]) + multiset(b[i + 1..]) == multiset(b) - multiset{x};
    assert multiset(a[..|a| - 1]) == multiset(a) - multiset{x};
  }

  lemma LastAppears<A>(a: seq<A>, b: seq<A>) returns (i: nat)
    requires a != [] && multiset(a) == multiset(b)
    ensures i < |b| && b[i] == a[|a| - 1]
  {
    assert a[|a| - 1] in multiset(b);
    i :| i < |b| && b[i] == a[|a| - 1];
  }

  lemma {:induction false} FoldIgnoresOrder<A, M(!new)>(m: Monoid<M>, f: A -> M, a: seq<A>, b: seq<A>)
    requires Commutative(m) && multiset(a) == multiset(b)
    ensures Fold(m, f, a) == Fold(m, f, b)
    decreases |a|
  {
    if a == [] {
      assert |b| == |multiset(b)| == 0;
    } else {
      var i := LastAppears(a, b);
      Removed(a, b, i);
      FoldIgnoresOrder(m, f, a[..|a| - 1], b[..i] + b[i + 1..]);
      FoldRemove(m, f, b, i);
    }
  }

  // ----- the two monoids used

  const Plus: Monoid<int> := Monoid((x: int, y: int) => x + y, 0)

  function Union<T>(): Monoid<multiset<T>> {
    Monoid((x: multiset<T>, y: multiset<T>) => x + y, multiset{})
  }

  lemma SumIgnoresOrder<A>(f: A -> int, a: seq<A>, b: seq<A>)
    requires multiset(a) == multiset(b)
    ensures Fold(Plus, f, a) == Fold(Plus, f, b)
  {
    FoldIgnoresOrder(Plus, f, a, b);
  }

  lemma UnionCommutes<T(!new)>()
    ensures Commutative(Union<T>())
  {
    var m := Union<T>();
    forall x, y, z
      ensures Associates(m, x, y, z)
    {
      assert (x + y) + z == x + (y + z);
    }
    forall x, y
      ensures Commutes(m, x, y)
    {
      assert x + y == y + x;
    }
    forall x
      ensures Absorbs(m, x)
    {
      assert x + multiset{} == x;
    }
  }

  /** The bag of a longer prefix. */
  lemma BagPrefix<A, T>(f: A -> multiset<T>, s: seq<A>, i: nat)
    requires i < |s|
    ensures Fold(Union(), f, s[..i + 1]) == Fold(Union(), f, s[..i]) + f(s[i])
  {
    FoldPrefix(Union<T>(), f, s, i);
  }

  lemma BagIgnoresOrder<A, T(!new)>(f: A -> multiset<T>, a: seq<A>, b: seq<A>)
    requires multiset(a) == multiset(b)
    ensures Fold(Union(), f, a) == Fold(Union(), f, b)
  {
    UnionCommutes<T>();
    FoldIgnoresOrder(Union<T>(), f, a, b);
  }
}
