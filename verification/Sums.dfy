/** Sums over sequences and maps: the vocabulary the other modules count with.
    A count is a sum of an indicator, so one definition serves occupancy,
    ranks and revenue alike. */
module Sums {

  function Sum<T>(f: T -> int, s: seq<T>): int {
    if s == [] then 0 else Sum(f, s[..|s| - 1]) + f(s[|s| - 1])
  }

  lemma SumOne<T>(f: T -> int, a: T)
    ensures Sum(f, [a]) == f(a)
  {
    assert [a][..0] == [];
  }

  lemma {:induction false} SumAppend<T>(f: T -> int, a: seq<T>, b: seq<T>)
    ensures Sum(f, a + b) == Sum(f, a) + Sum(f, b)
  {
    if b == [] {
      assert a + b == a;
    } else {
      assert (a + b)[..|a + b| - 1] == a + b[..|b| - 1];
      SumAppend(f, a, b[..|b| - 1]);
    }
  }

  lemma {:induction false} SumSplit<T>(f: T -> int, s: seq<T>, k: nat)
    requires k < |s|
    ensures Sum(f, s) == Sum(f, s[..k]) + f(s[k]) + Sum(f, s[k + 1..])
  {
    assert s == s[..k + 1] + s[k + 1..];
    SumAppend(f, s[..k + 1], s[k + 1..]);
    assert s[..k + 1][..k] == s[..k];
  }

  lemma SumUpdate<T>(f: T -> int, s: seq<T>, k: nat, x: T)
    requires k < |s|
    ensures Sum(f, s[k := x]) == Sum(f, s) - f(s[k]) + f(x)
  {
    SumSplit(f, s, k);
    SumSplit(f, s[k := x], k);
    assert s[k := x][..k] == s[..k] && s[k := x][k + 1..] == s[k + 1..];
  }

  /** A sum depends on which elements occur, not on their order. */
  lemma {:induction false} SumPermutation<T>(f: T -> int, a: seq<T>, b: seq<T>)
    requires multiset(a) == multiset(b)
    ensures Sum(f, a) == Sum(f, b)
    decreases |a|
  {
    if a == [] {
      assert |multiset(b)| == 0;
    } else {
      var n, x := |a| - 1, a[|a| - 1];
      assert a == a[..n] + [x];
      assert x in multiset(b);
      var k :| 0 <= k < |b| && b[k] == x;
      assert b == b[..k] + [x] + b[k + 1..];
      var rest := b[..k] + b[k + 1..];
      assert multiset(a) == multiset(a[..n]) + multiset{x};
      assert multiset(b) == multiset(rest) + multiset{x};
      assert multiset(a[..n]) == multiset(a) - multiset{x};
      SumPermutation(f, a[..n], rest);
      SumAppend(f, b[..k], b[k + 1..]);
      SumSplit(f, b, k);
    }
  }

  lemma {:induction false} SumLessEqual<T>(f: T -> int, g: T -> int, s: seq<T>)
    requires forall x :: x in s ==> f(x) <= g(x)
    ensures Sum(f, s) <= Sum(g, s)
  {
    if s != [] {
      SumLessEqual(f, g, s[..|s| - 1]);
    }
  }

  lemma SumEqual<T>(f: T -> int, g: T -> int, s: seq<T>)
    requires forall x :: x in s ==> f(x) == g(x)
    ensures Sum(f, s) == Sum(g, s)
  {
    SumLessEqual(f, g, s);
    SumLessEqual(g, f, s);
  }

  function Zero<T>(): T -> int {
    (x: T) => 0
  }

  lemma {:induction false} SumZero<T>(f: T -> int, s: seq<T>)
    requires forall x :: x in s ==> f(x) == 0
    ensures Sum(f, s) == 0
  {
    if s != [] {
      SumZero(f, s[..|s| - 1]);
    }
  }

  ghost function SumMap<K, V>(f: V -> int, m: map<K, V>): int
    decreases |m|
  {
    if m == map[] then 0
    else
      assert m.Keys != {};
      var k :| k in m;
      f(m[k]) + SumMap(f, m - {k})
  }

  lemma {:induction false} SumMapRemove<K, V>(f: V -> int, m: map<K, V>, k: K)
    requires k in m
    ensures SumMap(f, m) == f(m[k]) + SumMap(f, m - {k})
    decreases |m|
  {
    var c :| c in m && SumMap(f, m) == f(m[c]) + SumMap(f, m - {c});
    if c != k {
      SumMapRemove(f, m - {c}, k);
      SumMapRemove(f, m - {k}, c);
      assert m - {c} - {k} == m - {k} - {c};
    }
  }

  /** Writing one entry changes the sum by that entry's change. */
  lemma SumMapUpdate<K, V>(f: V -> int, m: map<K, V>, k: K, v: V)
    ensures SumMap(f, m[k := v]) == SumMap(f, m) - (if k in m then f(m[k]) else 0) + f(v)
  {
    SumMapRemove(f, m[k := v], k);
    assert m[k := v] - {k} == m - {k};
    if k in m {
      SumMapRemove(f, m, k);
    } else {
      assert m - {k} == m;
    }
  }
}
