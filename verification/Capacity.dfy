/** The two slot generators compared: a box that is free for a whole window
    leaves capacity at each of its instants, but not the other way round. */
module Capacity {
  import opened Clock
  import opened Availability

  function Ranges(busy: seq<BusyBoxInterval>): (r: seq<TimeRange>)
    ensures |r| == |busy| && forall i :: 0 <= i < |busy| ==> r[i] == busy[i].Range()
  {
    seq(|busy|, i requires 0 <= i < |busy| => busy[i].Range())
  }

  /** No box is booked twice at once. */
  ghost predicate BoxesDisjoint(busy: seq<BusyBoxInterval>) {
    forall i, j :: 0 <= i < j < |busy| && busy[i].box == busy[j].box ==> !Overlaps(busy[i].Range(), busy[j].Range())
  }

  ghost predicate BoxesWithin(busy: seq<BusyBoxInterval>, boxesCount: int) {
    forall i :: 0 <= i < |busy| ==> 1 <= busy[i].box <= boxesCount
  }

  /** The boxes occupied at instant t. */
  function BoxesAt(t: Instant, busy: seq<BusyBoxInterval>): set<int> {
    set i | 0 <= i < |busy| && Holds(busy[i].Range(), t) :: busy[i].box
  }

  lemma BoxesAtLast(t: Instant, busy: seq<BusyBoxInterval>)
    requires busy != []
    ensures var last := busy[|busy| - 1];
            BoxesAt(t, busy) == BoxesAt(t, busy[..|busy| - 1]) + if Holds(last.Range(), t) then {last.box} else {}
  {
    var n := |busy| - 1;
    assert forall i :: 0 <= i < n ==> busy[..n][i] == busy[i];
    assert forall b :: b in BoxesAt(t, busy) <==> b in BoxesAt(t, busy[..n]) || (Holds(busy[n].Range(), t) && b == busy[n].box);
  }

  lemma LastBoxIsNew(t: Instant, busy: seq<BusyBoxInterval>)
    requires BoxesDisjoint(busy) && busy != [] && Holds(busy[|busy| - 1].Range(), t)
    ensures busy[|busy| - 1].box !in BoxesAt(t, busy[..|busy| - 1])
  {
    var n := |busy| - 1;
    forall i | 0 <= i < n && Holds(busy[i].Range(), t) ensures busy[i].box != busy[n].box {
      assert Overlaps(busy[i].Range(), busy[n].Range());
    }
  }

  lemma RangesPrefix(busy: seq<BusyBoxInterval>, n: nat)
    requires n <= |busy|
    ensures Ranges(busy)[..n] == Ranges(busy[..n])
  {
    var a, b := Ranges(busy)[..n], Ranges(busy[..n]);
    forall k | 0 <= k < n ensures a[k] == b[k] {
      assert busy[..n][k] == busy[k];
    }
  }

  /** With disjoint boxes the load at an instant is the number of occupied boxes. */
  lemma {:induction false} LoadCountsBoxes(t: Instant, busy: seq<BusyBoxInterval>)
    requires BoxesDisjoint(busy)
    ensures Load(t, Ranges(busy)) == |BoxesAt(t, busy)|
  {
    if busy != [] {
      var n := |busy| - 1;
      LoadCountsBoxes(t, busy[..n]);
      BoxesAtLast(t, busy);
      RangesPrefix(busy, n);
      if Holds(busy[n].Range(), t) {
        LastBoxIsNew(t, busy);
      }
    }
  }

  lemma {:induction false} SetWithin(s: set<int>, n: nat)
    requires forall x :: x in s ==> 1 <= x <= n
    ensures |s| <= n
  {
    if n == 0 {
      forall x ensures x !in s {
        assert x in s ==> 1 <= x <= n;
      }
      assert s == {};
    } else {
      SetWithin(s - {n}, n - 1);
      assert |s| <= |s - {n}| + 1 by {
        if n in s { assert s == (s - {n}) + {n}; } else { assert s == s - {n}; }
      }
    }
  }

  /** Pigeonhole over the boxes at each instant: a slot with a free box is a slot
      of the aggregate generator. */
  lemma BoxSlotIsAggregateSlot(s: SlotWithBoxes, window: TimeRange, boxesCount: int, duration: Duration,
                               busy: seq<BusyBoxInterval>)
    requires BoxesDisjoint(busy) && BoxesWithin(busy, boxesCount)
    requires IsBoxSlot(s, window, boxesCount, duration, busy)
    ensures IsAggregateSlot(s.Range(), window.start, window.end, boxesCount, duration, Ranges(busy))
  {
    var free := s.availableBoxes[0];
    assert free in s.availableBoxes;
    forall t | Holds(s.Range(), t) ensures Load(t, Ranges(busy)) < boxesCount {
      LoadCountsBoxes(t, busy);
      var taken := BoxesAt(t, busy);
      assert free !in taken;
      SetWithin(taken + {free}, boxesCount);
      assert |taken + {free}| == |taken| + 1;
    }
  }

  /** Two boxes booked in turn: one is always spare, neither is free throughout. */
  const ALTERNATING: seq<BusyBoxInterval> := [BusyBoxInterval(1, 0, 15 * MINUTE), BusyBoxInterval(2, 15 * MINUTE, 30 * MINUTE)]

  lemma AggregateSlotWithoutBox(s: SlotWithBoxes)
    ensures BoxesDisjoint(ALTERNATING) && BoxesWithin(ALTERNATING, 2)
    ensures IsAggregateSlot(TimeRange(0, 30 * MINUTE), 0, 30 * MINUTE, 2, 30 * MINUTE, Ranges(ALTERNATING))
    ensures !IsBoxSlot(s, TimeRange(0, 30 * MINUTE), 2, 30 * MINUTE, ALTERNATING)
  {
    var slot := TimeRange(0, 30 * MINUTE);
    forall t | Holds(slot, t) ensures Load(t, Ranges(ALTERNATING)) < 2 {
      LoadCountsBoxes(t, ALTERNATING);
      var taken := BoxesAt(t, ALTERNATING);
      assert Holds(ALTERNATING[0].Range(), t) <==> t < 15 * MINUTE;
      assert Holds(ALTERNATING[1].Range(), t) <==> 15 * MINUTE <= t;
      assert taken == if t < 15 * MINUTE then {1} else {2};
    }
    assert ALTERNATING[0] in ALTERNATING && ALTERNATING[1] in ALTERNATING;
    if IsBoxSlot(s, slot, 2, 30 * MINUTE, ALTERNATING) {
      var box := s.availableBoxes[0];
      assert box in s.availableBoxes;
    }
  }
}
