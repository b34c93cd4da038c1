/** A sort by an arbitrary total preorder. Its callers rely on its contract
    alone, so what they prove holds for every correct sort. */
module Sorting {

  ghost predicate TotalPreorder<T(!new)>(le: (T, T) -> bool) {
    && (forall a, b :: le(a, b) || le(b, a))
    && (forall a, b, c :: le(a, b) && le(b, c) ==> le(a, c))
  }

  ghost predicate SortedBy<T>(le: (T, T) -> bool, s: seq<T>) {
    forall i, j :: 0 <= i < j < |s| ==> le(s[i], s[j])
  }

  function InsertBy<T>(le: (T, T) -> bool, x: T, s: seq<T>): (r: seq<T>)
    ensures multiset(r) == multiset(s) + multiset{x}
  {
    if s == [] then [x]
    else if le(s[|s| - 1], x) then s + [x]
    else
      assert s == s[..|s| - 1] + [s[|s| - 1]];
      InsertBy(le, x, s[..|s| - 1]) + [s[|s| - 1]]
  }

  lemma {:induction false} InsertBySorted<T(!new)>(le: (T, T) -> bool, x: T, s: seq<T>)
    requires TotalPreorder(le) && SortedBy(le, s)
    ensures SortedBy(le, InsertBy(le, x, s))
  {
    if s != [] {
      var last := s[|s| - 1];
      if !le(last, x) {
        var init := s[..|s| - 1];
        InsertBySorted(le, x, init);
        var r := InsertBy(le, x, init);
        forall i | 0 <= i < |r| ensures le(r[i], last) {
          assert r[i] in multiset(r);
          assert r[i] in multiset(init) || r[i] == x;
        }
      } else {
        forall i | 0 <= i < |s| ensures le(s[i], x) {
          assert i == |s| - 1 || le(s[i], last);
        }
      }
    }
  }

  function SortBy<T(!new)>(le: (T, T) -> bool, s: seq<T>): (r: seq<T>)
    requires TotalPreorder(le)
    ensures SortedBy(le, r) && multiset(r) == multiset(s) && |r| == |s|
  {
    if s == [] then []
    else
      assert s == s[..|s| - 1] + [s[|s| - 1]];
      var init := SortBy(le, s[..|s| - 1]);
      InsertBySorted(le, s[|s| - 1], init);
      var r := InsertBy(le, s[|s| - 1], init);
      assert |multiset(r)| == |multiset(s)|;
      r
  }

  lemma SameMembers<T>(a: seq<T>, b: seq<T>)
    requires multiset(a) == multiset(b)
    ensures forall x :: x in a <==> x in b
  {
    forall x ensures x in a <==> x in b {
      assert x in a <==> x in multiset(a);
    }
  }
}
