/** Free slots of one day: the sweep that counts simultaneous bookings, the
    generators of candidate slots, and the split of a day around its break. */
module Availability {
  import opened Clock
  import opened Options
  import opened Sorting
  import opened Sums

  /** A half-open interval. */
  datatype TimeRange = TimeRange(start: Instant, end: Instant)

  const SLOT_STEP: int := 900_000_000_000

  predicate Overlaps(a: TimeRange, b: TimeRange) {
    a.start < b.end && b.start < a.end
  }

  predicate Holds(r: TimeRange, t: Instant) {
    r.start <= t < r.end
  }

  // ----- how many intervals hold an instant -----

  function Covers(t: Instant): TimeRange -> int {
    (b: TimeRange) => if Holds(b, t) then 1 else 0
  }

  function Load(t: Instant, busy: seq<TimeRange>): int {
    Sum(Covers(t), busy)
  }

  ghost predicate WellFormed(busy: seq<TimeRange>) {
    forall b :: b in busy ==> b.start <= b.end
  }

  /** max is the greatest load at any instant of [start, end), or zero when no
      interval holds any of them. */
  ghost predicate IsMaxLoad(max: int, start: Instant, end: Instant, busy: seq<TimeRange>) {
    && (forall t :: start <= t < end ==> Load(t, busy) <= max)
    && (max == 0 || exists t :: start <= t < end && Load(t, busy) == max)
  }

  // ----- the sweep over +1/-1 events -----

  datatype SweepEvent = SweepEvent(at: Instant, delta: int)

  predicate NotAfter(a: SweepEvent, b: SweepEvent) {
    a.at < b.at || (a.at == b.at && a.delta <= b.delta)
  }

  function EventOrder(): (SweepEvent, SweepEvent) -> bool {
    (a: SweepEvent, b: SweepEvent) => NotAfter(a, b)
  }

  ghost predicate Sorted(es: seq<SweepEvent>) {
    SortedBy(EventOrder(), es)
  }

  ghost predicate UnitDeltas(es: seq<SweepEvent>) {
    forall e :: e in es ==> e.delta == 1 || e.delta == -1
  }

  function Delta(): SweepEvent -> int {
    (e: SweepEvent) => e.delta
  }

  function DeltaBy(t: Instant): SweepEvent -> int {
    (e: SweepEvent) => if e.at <= t then e.delta else 0
  }

  /** The occupancy once every event up to and including t has happened. */
  function Net(t: Instant, es: seq<SweepEvent>): int {
    Sum(DeltaBy(t), es)
  }

  /** The value of the sweep's running counter after k events. */
  function Counter(es: seq<SweepEvent>, k: nat): int
    requires k <= |es|
  {
    Sum(Delta(), es[..k])
  }

  /** Every instant's occupancy is one of the counter's values. */
  lemma {:induction false} NetIsCounter(t: Instant, es: seq<SweepEvent>) returns (k: nat)
    requires Sorted(es)
    ensures k <= |es| && Net(t, es) == Counter(es, k)
  {
    var n := |es|;
    if n == 0 {
      k := 0;
    } else if es[n - 1].at <= t {
      k := n;
      assert es[..n] == es;
      SumEqual(DeltaBy(t), Delta(), es);
    } else {
      k := NetIsCounter(t, es[..n - 1]);
      assert es[..n - 1][..k] == es[..k];
    }
  }

  /** Because ends come before starts at one instant, a positive counter value
      never exceeds the occupancy of some instant. */
  lemma {:induction false} CounterIsReached(es: seq<SweepEvent>, k: nat) returns (t: Instant)
    requires Sorted(es) && UnitDeltas(es) && k <= |es|
    requires Counter(es, k) > 0
    ensures Counter(es, k) <= Net(t, es)
  {
    var last := es[k - 1];
    assert es[..k][..k - 1] == es[..k - 1];
    if last.delta == -1 {
      t := CounterIsReached(es, k - 1);
    } else {
      t := last.at;
      assert es == es[..k] + es[k..];
      SumAppend(DeltaBy(t), es[..k], es[k..]);
      SumEqual(DeltaBy(t), Delta(), es[..k]);
      forall e | e in es[k..] ensures 0 <= DeltaBy(t)(e) {
        assert EventOrder()(last, e);
      }
      SumZero(Zero<SweepEvent>(), es[k..]);
      SumLessEqual(Zero<SweepEvent>(), DeltaBy(t), es[k..]);
    }
  }

  ghost predicate IsPeak(max: int, es: seq<SweepEvent>) {
    && (forall t :: Net(t, es) <= max)
    && (max == 0 || exists t :: Net(t, es) == max)
  }

  /** The sweep proper, over any sorted order of the events. */
  method Sweep(es: seq<SweepEvent>) returns (max: int)
    requires Sorted(es) && UnitDeltas(es)
    ensures max >= 0 && IsPeak(max, es)
  {
    var occupied := 0;
    max := 0;
    ghost var peak := 0;
    for i := 0 to |es|
      invariant occupied == Counter(es, i)
      invariant 0 <= peak <= i && max == Counter(es, peak)
      invariant forall k :: 0 <= k <= i ==> Counter(es, k) <= max
    {
      assert es[..i + 1][..i] == es[..i];
      occupied := occupied + es[i].delta;
      if occupied > max {
        max, peak := occupied, i + 1;
      }
    }
    forall t ensures Net(t, es) <= max {
      var k := NetIsCounter(t, es);
    }
    if max > 0 {
      var t := CounterIsReached(es, peak);
      assert Net(t, es) == max;
    }
  }

  function Max(a: int, b: int): int { if a < b then b else a }
  function Min(a: int, b: int): int { if a < b then a else b }

  /** The two events of b clipped to [start, end), or none when they do not meet. */
  function EventsOf(start: Instant, end: Instant, b: TimeRange): seq<SweepEvent> {
    if b.start < end && start < b.end
    then [SweepEvent(Max(b.start, start), 1), SweepEvent(Min(b.end, end), -1)]
    else []
  }

  function AllEvents(start: Instant, end: Instant, busy: seq<TimeRange>): (es: seq<SweepEvent>)
    ensures UnitDeltas(es)
  {
    if busy == [] then []
    else AllEvents(start, end, busy[..|busy| - 1]) + EventsOf(start, end, busy[|busy| - 1])
  }

  /** Inside the window the events reproduce the load; outside they add nothing. */
  lemma {:induction false} NetIsLoad(t: Instant, start: Instant, end: Instant, busy: seq<TimeRange>)
    requires WellFormed(busy)
    ensures start <= t < end ==> Net(t, AllEvents(start, end, busy)) == Load(t, busy)
    ensures !(start <= t < end) ==> Net(t, AllEvents(start, end, busy)) <= 0
  {
    if busy != [] {
      var init, b := busy[..|busy| - 1], busy[|busy| - 1];
      NetIsLoad(t, start, end, init);
      var es := EventsOf(start, end, b);
      SumAppend(DeltaBy(t), AllEvents(start, end, init), es);
      if es != [] {
        assert es[..1] == [es[0]];
        SumOne(DeltaBy(t), es[0]);
      }
    }
  }

  method MaxOverlap(start: Instant, end: Instant, busy: seq<TimeRange>) returns (max: int)
    ensures IsPeak(max, AllEvents(start, end, busy))
    ensures WellFormed(busy) ==> IsMaxLoad(max, start, end, busy)
  {
    var events: seq<SweepEvent> := [];
    for i := 0 to |busy|
      invariant events == AllEvents(start, end, busy[..i])
    {
      assert busy[..i + 1][..i] == busy[..i];
      var b := busy[i];
      if !(b.start < end) || !(start < b.end) {
        continue;
      }
      var s, e := b.start, b.end;
      if s < start { s := start; }
      if end < e { e := end; }
      events := events + [SweepEvent(s, 1), SweepEvent(e, -1)];
    }
    assert busy[..|busy|] == busy;
    var sorted := SortBy(EventOrder(), events);
    SameMembers(sorted, events);
    max := Sweep(sorted);
    PeakOfSorted(max, sorted, events);
    PeakIsMaxLoad(max, start, end, busy);
  }

  lemma PeakOfSorted(max: int, sorted: seq<SweepEvent>, events: seq<SweepEvent>)
    requires multiset(sorted) == multiset(events) && IsPeak(max, sorted)
    ensures IsPeak(max, events)
  {
    forall t ensures Net(t, sorted) == Net(t, events) {
      SumPermutation(DeltaBy(t), sorted, events);
    }
  }

  lemma PeakIsMaxLoad(max: int, start: Instant, end: Instant, busy: seq<TimeRange>)
    requires IsPeak(max, AllEvents(start, end, busy)) && max >= 0
    ensures WellFormed(busy) ==> IsMaxLoad(max, start, end, busy)
  {
    if WellFormed(busy) {
      var es := AllEvents(start, end, busy);
      forall t ensures start <= t < end ==> Net(t, es) == Load(t, busy)
               ensures !(start <= t < end) ==> Net(t, es) <= 0 {
        NetIsLoad(t, start, end, busy);
      }
      if max != 0 {
        var t :| Net(t, es) == max;
        assert start <= t < end && Load(t, busy) == max;
      }
    }
  }

  // ----- candidate slots -----

  predicate OnGrid(dayOpen: Instant, start: Instant) {
    dayOpen <= start && (start - dayOpen) % SLOT_STEP == 0
  }

  ghost predicate SpareCapacity(slot: TimeRange, boxesCount: int, busy: seq<TimeRange>) {
    forall t :: Holds(slot, t) ==> Load(t, busy) < boxesCount
  }

  ghost predicate IsAggregateSlot(s: TimeRange, dayOpen: Instant, dayClose: Instant, boxesCount: int,
                                  duration: Duration, busy: seq<TimeRange>)
  {
    && duration > 0 && boxesCount > 0
    && OnGrid(dayOpen, s.start) && s.end == s.start + duration && s.end <= dayClose
    && SpareCapacity(s, boxesCount, busy)
  }

  /** What the generator tests of a candidate, whatever the busy intervals: no instant's
      occupancy by the clipped events reaches the number of boxes. */
  ghost predicate SweepSpares(slot: TimeRange, boxesCount: int, busy: seq<TimeRange>) {
    forall t :: Net(t, AllEvents(slot.start, slot.end, busy)) < boxesCount
  }

  ghost predicate IsSweptSlot(s: TimeRange, dayOpen: Instant, dayClose: Instant, boxesCount: int, duration: Duration,
                              busy: seq<TimeRange>)
  {
    && duration > 0 && boxesCount > 0
    && OnGrid(dayOpen, s.start) && s.end == s.start + duration && s.end <= dayClose
    && SweepSpares(s, boxesCount, busy)
  }

  /** Where no interval ends before it starts, that is a box to spare at each instant. */
  lemma SweptSlotIsSpare(s: TimeRange, dayOpen: Instant, dayClose: Instant, boxesCount: int, duration: Duration,
                         busy: seq<TimeRange>)
    requires WellFormed(busy)
    ensures IsSweptSlot(s, dayOpen, dayClose, boxesCount, duration, busy) <==>
            IsAggregateSlot(s, dayOpen, dayClose, boxesCount, duration, busy)
  {
    forall t
      ensures Holds(s, t) ==> Net(t, AllEvents(s.start, s.end, busy)) == Load(t, busy)
      ensures !Holds(s, t) ==> Net(t, AllEvents(s.start, s.end, busy)) <= 0
    {
      NetIsLoad(t, s.start, s.end, busy);
    }
  }

  /** Every candidate window with a box to spare at each of its instants, in order. */
  method ComputeAvailableSlots(dayOpen: Instant, dayClose: Instant, boxesCount: int, duration: Duration,
                               busy: seq<TimeRange>) returns (slots: seq<TimeRange>)
    ensures forall s :: s in slots <==> IsSweptSlot(s, dayOpen, dayClose, boxesCount, duration, busy)
    ensures WellFormed(busy) ==>
              forall s :: s in slots <==> IsAggregateSlot(s, dayOpen, dayClose, boxesCount, duration, busy)
    ensures forall i, j :: 0 <= i < j < |slots| ==> slots[i].start < slots[j].start
  {
    slots := SweptSlots(dayOpen, dayClose, boxesCount, duration, busy);
    if WellFormed(busy) {
      forall s ensures IsSweptSlot(s, dayOpen, dayClose, boxesCount, duration, busy) <==>
                       IsAggregateSlot(s, dayOpen, dayClose, boxesCount, duration, busy)
      {
        SweptSlotIsSpare(s, dayOpen, dayClose, boxesCount, duration, busy);
      }
    }
  }

  method SweptSlots(dayOpen: Instant, dayClose: Instant, boxesCount: int, duration: Duration, busy: seq<TimeRange>)
    returns (slots: seq<TimeRange>)
    ensures forall s :: s in slots <==> IsSweptSlot(s, dayOpen, dayClose, boxesCount, duration, busy)
    ensures forall i, j :: 0 <= i < j < |slots| ==> slots[i].start < slots[j].start
  {
    slots := [];
    if duration <= 0 || boxesCount <= 0 || dayClose <= dayOpen {
      return;
    }
    var start := dayOpen;
    while start + duration <= dayClose
      invariant OnGrid(dayOpen, start)
      invariant forall s :: s in slots <==>
        s.start < start && IsSweptSlot(s, dayOpen, dayClose, boxesCount, duration, busy)
      invariant forall i, j :: 0 <= i < j < |slots| ==> slots[i].start < slots[j].start
      decreases dayClose - start
    {
      var end := start + duration;
      var max := MaxOverlap(start, end, busy);
      var slot := TimeRange(start, end);
      assert max < boxesCount <==> SweepSpares(slot, boxesCount, busy);
      if max < boxesCount {
        slots := slots + [slot];
      }
      forall s: TimeRange | OnGrid(dayOpen, s.start) && start < s.start ensures start + SLOT_STEP <= s.start {
        GridStep(dayOpen, start, s.start);
      }
      start := start + SLOT_STEP;
    }
  }

  /** The grid is every quarter of an hour from opening. */
  lemma GridIsQuarters(dayOpen: Instant, start: Instant)
    ensures OnGrid(dayOpen, start) <==> exists k: nat :: start == dayOpen + k * 15 * MINUTE
  {
    if OnGrid(dayOpen, start) {
      var k: nat := (start - dayOpen) / SLOT_STEP;
      assert start == dayOpen + k * 15 * MINUTE;
    }
    forall k: nat | start == dayOpen + k * 15 * MINUTE ensures OnGrid(dayOpen, start) {
      assert start - dayOpen == k * SLOT_STEP;
    }
  }

  lemma GridStep(dayOpen: Instant, a: Instant, b: Instant)
    requires OnGrid(dayOpen, a) && OnGrid(dayOpen, b) && a < b
    ensures a + SLOT_STEP <= b && OnGrid(dayOpen, a + SLOT_STEP)
  {
    var i, j := (a - dayOpen) / SLOT_STEP, (b - dayOpen) / SLOT_STEP;
    assert a - dayOpen == i * SLOT_STEP && b - dayOpen == j * SLOT_STEP;
  }

  // ----- slots with the boxes that are free -----

  datatype BusyBoxInterval = BusyBoxInterval(box: int, start: Instant, end: Instant) {
    function Range(): TimeRange {
      TimeRange(start, end)
    }
  }

  datatype SlotWithBoxes = SlotWithBoxes(start: Instant, end: Instant, availableBoxes: seq<int>) {
    function Range(): TimeRange {
      TimeRange(start, end)
    }
  }

  ghost predicate BoxFree(box: int, slot: TimeRange, busy: seq<BusyBoxInterval>) {
    forall b :: b in busy && b.box == box ==> !Overlaps(b.Range(), slot)
  }

  /** free lists, in ascending order, exactly the boxes of 1..boxesCount nothing occupies. */
  ghost predicate IsFreeList(free: seq<int>, slot: TimeRange, boxesCount: int, busy: seq<BusyBoxInterval>) {
    && (forall box :: box in free <==> 1 <= box <= boxesCount && BoxFree(box, slot, busy))
    && (forall i, j :: 0 <= i < j < |free| ==> free[i] < free[j])
  }

  method FreeBoxes(start: Instant, end: Instant, boxesCount: int, busy: seq<BusyBoxInterval>) returns (free: seq<int>)
    ensures IsFreeList(free, TimeRange(start, end), boxesCount, busy)
  {
    ghost var slot := TimeRange(start, end);
    var occupied: set<int> := {};
    for i := 0 to |busy|
      invariant forall box :: box in occupied <==> !BoxFree(box, slot, busy[..i])
    {
      var b := busy[i];
      if b.start < end && start < b.end {
        occupied := occupied + {b.box};
      }
    }
    assert busy[..|busy|] == busy;
    free := [];
    var box := 1;
    while box <= boxesCount
      invariant 1 <= box
      invariant boxesCount >= 1 ==> box <= boxesCount + 1
      invariant forall b :: b in free <==> 1 <= b < box && b <= boxesCount && BoxFree(b, slot, busy)
      invariant forall i :: 0 <= i < |free| ==> free[i] < box
      invariant forall i, j :: 0 <= i < j < |free| ==> free[i] < free[j]
    {
      if box !in occupied {
        free := free + [box];
      }
      box := box + 1;
    }
  }

  ghost predicate IsBoxSlot(s: SlotWithBoxes, window: TimeRange, boxesCount: int, duration: Duration,
                            busy: seq<BusyBoxInterval>)
  {
    && duration > 0
    && OnGrid(window.start, s.start) && s.end == s.start + duration && s.end <= window.end
    && IsFreeList(s.availableBoxes, s.Range(), boxesCount, busy)
    && s.availableBoxes != []
  }

  ghost predicate StartsIncrease(slots: seq<SlotWithBoxes>) {
    forall i, j :: 0 <= i < j < |slots| ==> slots[i].start < slots[j].start
  }

  lemma {:induction false} FreeListUnique(a: seq<int>, b: seq<int>)
    requires forall x :: x in a <==> x in b
    requires forall i, j :: 0 <= i < j < |a| ==> a[i] < a[j]
    requires forall i, j :: 0 <= i < j < |b| ==> b[i] < b[j]
    ensures a == b
  {
    if a != [] || b != [] {
      var x := if a != [] then a[0] else b[0];
      assert x in a && x in b;
      assert a[|a| - 1] in b && b[|b| - 1] in a;
      var m, n := |a| - 1, |b| - 1;
      assert a[m] == b[n];
      forall x ensures x in a[..m] <==> x in b[..n] {
        assert x in a[..m] <==> x in a && x != a[m];
        assert x in b[..n] <==> x in b && x != b[n];
      }
      FreeListUnique(a[..m], b[..n]);
    }
  }

  method ComputeAvailableSlotsWithBoxes(dayOpen: Instant, dayClose: Instant, boxesCount: int, duration: Duration,
                                        busy: seq<BusyBoxInterval>) returns (slots: seq<SlotWithBoxes>)
    ensures forall s :: s in slots <==> IsBoxSlot(s, TimeRange(dayOpen, dayClose), boxesCount, duration, busy)
    ensures StartsIncrease(slots)
  {
    ghost var window := TimeRange(dayOpen, dayClose);
    slots := [];
    if duration <= 0 || boxesCount <= 0 || dayClose <= dayOpen {
      assert forall s: SlotWithBoxes :: s.availableBoxes != [] ==> s.availableBoxes[0] in s.availableBoxes;
      return;
    }
    var start := dayOpen;
    while start + duration <= dayClose
      invariant OnGrid(dayOpen, start)
      invariant forall s :: s in slots <==> s.start < start && IsBoxSlot(s, window, boxesCount, duration, busy)
      invariant StartsIncrease(slots)
      decreases dayClose - start
    {
      var end := start + duration;
      var free := FreeBoxes(start, end, boxesCount, busy);
      var slot := SlotWithBoxes(start, end, free);
      if |free| > 0 {
        slots := slots + [slot];
      }
      forall s | IsBoxSlot(s, window, boxesCount, duration, busy) && s.start == start ensures s == slot {
        FreeListUnique(s.availableBoxes, free);
      }
      forall s: SlotWithBoxes | OnGrid(dayOpen, s.start) && start < s.start ensures start + SLOT_STEP <= s.start {
        GridStep(dayOpen, start, s.start);
      }
      start := start + SLOT_STEP;
    }
  }

  // ----- a day's open windows -----

  datatype DaySchedule = DaySchedule(isOpen: bool, open: Instant, close: Instant,
                                     breakStart: Option<Instant>, breakEnd: Option<Instant>)
  {
    function Windows(): seq<TimeRange> {
      if !isOpen || close <= open then []
      else if breakStart.None? || breakEnd.None? then [TimeRange(open, close)]
      else
        var bs := if breakStart.value < open then open else breakStart.value;
        var be := if close < breakEnd.value then close else breakEnd.value;
        if be <= bs then [TimeRange(open, close)]
        else
          (if open < bs then [TimeRange(open, bs)] else []) +
          (if be < close then [TimeRange(be, close)] else [])
    }

    predicate Contains(start: Instant, end: Instant) {
      exists i :: 0 <= i < |Windows()| && Windows()[i].start <= start && end <= Windows()[i].end
    }

    /** Open at t: inside the opening hours and outside the break. */
    predicate OpenAt(t: Instant) {
      isOpen && open <= t < close && !OnBreak(t)
    }

    predicate OnBreak(t: Instant) {
      breakStart.Some? && breakEnd.Some? && breakStart.value <= t < breakEnd.value
    }

    /** Whatever the break, the windows are non-empty, in order, apart, and hold
        exactly the instants at which the point is open. */
    lemma WindowsAreOpenTime()
      ensures forall i :: 0 <= i < |Windows()| ==> Windows()[i].start < Windows()[i].end
      ensures forall i, j :: 0 <= i < j < |Windows()| ==> Windows()[i].end < Windows()[j].start
      ensures forall t :: OpenAt(t) <==> exists i :: 0 <= i < |Windows()| && Holds(Windows()[i], t)
      ensures forall i :: 0 <= i < |Windows()| ==> !OpenAt(Windows()[i].end)
    {
      var ws := Windows();
      forall t ensures OpenAt(t) <==> exists i :: 0 <= i < |ws| && Holds(ws[i], t) {
        if |ws| > 0 { assert Holds(ws[0], t) || !Holds(ws[0], t); }
        if |ws| > 1 { assert Holds(ws[1], t) || !Holds(ws[1], t); }
      }
    }

    /** A non-empty interval is accepted exactly when the point is open throughout. */
    lemma ContainsIsOpenThroughout(start: Instant, end: Instant)
      requires start < end
      ensures Contains(start, end) <==> forall t :: start <= t < end ==> OpenAt(t)
    {
      WindowsAreOpenTime();
      var ws := Windows();
      if forall t :: start <= t < end ==> OpenAt(t) {
        assert OpenAt(start);
        var i :| 0 <= i < |ws| && Holds(ws[i], start);
        var e := ws[i].end;
        assert e < end ==> OpenAt(e);
      }
      if Contains(start, end) {
        var i :| 0 <= i < |ws| && ws[i].start <= start && end <= ws[i].end;
        forall t | start <= t < end ensures OpenAt(t) {
          assert Holds(ws[i], t);
        }
      }
    }
  }

  /** The slots of a whole day: those of its windows. */
  ghost predicate IsDaySlot(s: SlotWithBoxes, day: DaySchedule, boxesCount: int, duration: Duration,
                            busy: seq<BusyBoxInterval>)
  {
    exists i :: 0 <= i < |day.Windows()| && IsBoxSlot(s, day.Windows()[i], boxesCount, duration, busy)
  }

  method ComputeAvailableSlotsForDay(day: DaySchedule, boxesCount: int, duration: Duration, busy: seq<BusyBoxInterval>)
    returns (all: seq<SlotWithBoxes>)
    ensures forall s :: s in all <==> IsDaySlot(s, day, boxesCount, duration, busy)
    ensures StartsIncrease(all)
  {
    var windows := day.Windows();
    day.WindowsAreOpenTime();
    all := [];
    for i := 0 to |windows|
      invariant forall s :: s in all <==>
        exists j :: 0 <= j < i && IsBoxSlot(s, windows[j], boxesCount, duration, busy)
      invariant StartsIncrease(all)
    {
      var w := windows[i];
      var slots := ComputeAvailableSlotsWithBoxes(w.start, w.end, boxesCount, duration, busy);
      assert w == TimeRange(w.start, w.end);
      forall a, b | a in all && b in slots ensures a.start < b.start {
        var j :| 0 <= j < i && IsBoxSlot(a, windows[j], boxesCount, duration, busy);
        assert windows[j].end < w.start;
      }
      all := all + slots;
    }
  }

  /** No slot reaches outside the opening hours or touches the break. */
  lemma DaySlotIsOpen(s: SlotWithBoxes, day: DaySchedule, boxesCount: int, duration: Duration, busy: seq<BusyBoxInterval>)
    requires IsDaySlot(s, day, boxesCount, duration, busy)
    ensures day.Contains(s.start, s.end)
    ensures forall t :: s.start <= t < s.end ==> day.OpenAt(t) && !day.OnBreak(t)
  {
    day.ContainsIsOpenThroughout(s.start, s.end);
  }
}
