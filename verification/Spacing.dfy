/** Event times that keep their distance, and how many fit into an interval. */
module Spacing {
  import opened Clock

  ghost predicate Ascending(h: seq<Instant>) {
    forall i, j :: 0 <= i < j < |h| ==> h[i] <= h[j]
  }

  /** Any m + 1 of the times in a row span at least d. */
  ghost predicate Spaced(h: seq<Instant>, m: int, d: Duration) {
    forall i, j :: 0 <= i < j < |h| && j - i == m ==> h[j] - h[i] >= d
  }

  lemma SpacedSnoc(h: seq<Instant>, m: int, d: Duration, now: Instant)
    requires m > 0 && Ascending(h) && Spaced(h, m, d)
    requires h != [] ==> h[|h| - 1] <= now
    requires m <= |h| ==> now - h[|h| - m] >= d
    ensures Ascending(h + [now]) && Spaced(h + [now], m, d)
    ensures forall i :: 0 <= i < |h| ==> h[i] <= now
  {
    forall i | 0 <= i < |h| ensures h[i] <= now {
      assert i == |h| - 1 || h[i] <= h[|h| - 1];
    }
  }

  function CountWithin(h: seq<Instant>, from: Instant, until: Instant): nat {
    if h == [] then 0
    else CountWithin(h[..|h| - 1], from, until) + (if from <= h[|h| - 1] < until then 1 else 0)
  }

  lemma {:induction false} CountAtMost(h: seq<Instant>, from: Instant, until: Instant)
    ensures CountWithin(h, from, until) <= |h|
  {
    if h != [] { CountAtMost(h[..|h| - 1], from, until); }
  }

  lemma {:induction false} CountOfSuffix(h: seq<Instant>, from: Instant, until: Instant, k: nat)
    requires k <= |h| && forall i :: 0 <= i < k ==> h[i] < from
    ensures CountWithin(h, from, until) <= |h| - k
  {
    if k < |h| {
      CountOfSuffix(h[..|h| - 1], from, until, k);
    } else if h != [] {
      CountOfSuffix(h[..|h| - 1], from, until, k - 1);
    }
  }

  /** Times of which any m+1 in a row span at least d: no interval of length d holds
      more than m of them. */
  lemma {:induction false} SpacedMeansFew(h: seq<Instant>, m: nat, d: Duration, from: Instant)
    requires m > 0 && Ascending(h) && Spaced(h, m, d)
    ensures CountWithin(h, from, from + d) <= m
  {
    if |h| <= m {
      CountAtMost(h, from, from + d);
    } else if h[|h| - 1] < from + d {
      var k := |h| - m;
      assert h[|h| - 1] - h[k - 1] >= d;
      CountOfSuffix(h, from, from + d, k);
    } else {
      SpacedMeansFew(h[..|h| - 1], m, d, from);
    }
  }

  /** When exactly the last c times lie in an interval, it holds c of them. */
  lemma {:induction false} CountOfTail(h: seq<Instant>, from: Instant, until: Instant, c: nat)
    requires c <= |h|
    requires forall i :: 0 <= i < |h| - c ==> h[i] < from
    requires forall i :: |h| - c <= i < |h| ==> from <= h[i] < until
    ensures CountWithin(h, from, until) == c
  {
    if h != [] {
      CountOfTail(h[..|h| - 1], from, until, if c == 0 then 0 else c - 1);
    }
  }
}
