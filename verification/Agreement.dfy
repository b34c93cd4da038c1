/** Three answers to "is this box free?" - the public list of slots, the check made
    under the point's lock, and the table's exclusion constraint - are one answer. */
module Agreement {
  import opened Clock
  import opened Iteration
  import opened Availability
  import opened Options
  import opened Bookings
  import opened Planning

  /** The intervals the public list treats as taken: the day's occupying bookings, and
      the whole day for each closed box. */
  ghost predicate IsPublicBusy(busy: seq<BusyBoxInterval>, cat: Catalog, rows: Table, point: PointId, day: DaySchedule) {
    forall b :: b in busy <==>
      || (exists q :: q in BusyRows(rows, point, day.open, day.close) && b == BusyBoxInterval(q.box, q.start, q.end))
      || (cat.BoxClosed(point, b.box) && b == BusyBoxInterval(b.box, day.open, day.close))
  }

  /** slots lists, in order, exactly the public slots of the day. */
  ghost predicate IsPublicList(slots: seq<SlotWithBoxes>, cat: Catalog, rows: Table, point: PointId, day: DaySchedule,
                               duration: Duration)
    requires point in cat.points
  {
    && StartsIncrease(slots)
    && exists busy :: IsPublicBusy(busy, cat, rows, point, day)
         && forall s :: s in slots <==> IsDaySlot(s, day, cat.points[point].boxesCount, duration, busy)
  }

  datatype ListResult = Slots(slots: seq<SlotWithBoxes>) | Failed(fault: Fault)

  /** A booking row as an interval of its box. */
  function IntervalOf(q: Booking): BusyBoxInterval {
    BusyBoxInterval(q.box, q.start, q.end)
  }

  /** The interval a closed box is taken to be busy for. */
  predicate IsClosedBox(b: BusyBoxInterval, boxRows: map<int, bool>, day: DaySchedule) {
    b.box in boxRows && !boxRows[b.box] && b == BusyBoxInterval(b.box, day.open, day.close)
  }

  /** Adds one all-day interval for every closed box, and nothing else. */
  method AddClosedBoxes(booked: seq<BusyBoxInterval>, boxRows: map<int, bool>, day: DaySchedule)
    returns (busy: seq<BusyBoxInterval>)
    ensures forall b :: multiset(busy)[b] == multiset(booked)[b] + if IsClosedBox(b, boxRows, day) then 1 else 0
    ensures forall b :: b in busy <==> b in booked || IsClosedBox(b, boxRows, day)
  {
    busy := booked;
    var numbers := boxRows.Keys;
    while numbers != {}
      invariant numbers <= boxRows.Keys
      invariant forall b ::
        multiset(busy)[b] == multiset(booked)[b] + if b.box !in numbers && IsClosedBox(b, boxRows, day) then 1 else 0
    {
      var n := Pick(numbers);
      numbers := numbers - {n};
      if !boxRows[n] {
        busy := busy + [BusyBoxInterval(n, day.open, day.close)];
      }
    }
    assert forall b :: b in busy <==> b in multiset(busy);
    assert forall b :: b in booked <==> b in multiset(booked);
  }

  method PublicSlots(cat: Catalog, rows: Table, busyRows: seq<Booking>, point: PointId, day: DaySchedule, duration: Duration)
    returns (slots: seq<SlotWithBoxes>)
    requires point in cat.points
    requires forall q :: q in busyRows <==> q in BusyRows(rows, point, day.open, day.close)
    ensures IsPublicList(slots, cat, rows, point, day, duration)
  {
    var busy: seq<BusyBoxInterval> := [];
    for i := 0 to |busyRows|
      invariant forall b :: b in busy <==> exists q :: q in busyRows[..i] && b == IntervalOf(q)
    {
      busy := busy + [IntervalOf(busyRows[i])];
      assert busyRows[..i + 1] == busyRows[..i] + [busyRows[i]];
    }
    assert busyRows[..|busyRows|] == busyRows;
    busy := AddClosedBoxes(busy, if point in cat.boxes then cat.boxes[point] else map[], day);
    slots := ComputeAvailableSlotsForDay(day, cat.points[point].boxesCount, duration, busy);
    assert IsPublicBusy(busy, cat, rows, point, day);
  }

  predicate ServedAt(cat: Catalog, point: PointId, service: ServiceId) {
    service in cat.services && cat.services[service].point == point
  }

  /** Why nothing is listed: no such point, else the first service that is unknown or of another
      point, else unreadable hours. */
  ghost predicate ExplainsNoList(fault: Fault, cat: Catalog, point: PointId, services: seq<ServiceId>) {
    if point !in cat.points then fault == PointNotFound
    else
      || (exists k :: 0 <= k < |services| && !ServedAt(cat, point, services[k])
            && fault == (if services[k] in cat.services then ServiceNotAtPoint else ServiceNotFound)
            && forall j :: 0 <= j < k ==> ServedAt(cat, point, services[j]))
      || (fault == InternalFault && forall j :: 0 <= j < |services| ==> ServedAt(cat, point, services[j]))
  }

  lemma SlotsLast(slots: seq<SlotWithBoxes>, cat: Catalog, rows: Table, point: PointId, day: DaySchedule,
                  duration: Duration)
    requires point in cat.points && IsPublicList(slots, cat, rows, point, day, duration)
    ensures forall s :: s in slots ==> s.end == s.start + duration
  {
    var busy :| IsPublicBusy(busy, cat, rows, point, day)
      && forall s :: s in slots <==> IsDaySlot(s, day, cat.points[point].boxesCount, duration, busy);
  }

  /** The public list for services at a point on the local day of day. */
  method ListAvailability(cat: Catalog, rows: Table, busyRows: seq<Booking>, point: PointId,
                          services: seq<ServiceId>, day: Instant)
    returns (r: ListResult)
    requires forall d :: cat.DayFor(point, day) == Some(d) ==>
               forall q :: q in busyRows <==> q in BusyRows(rows, point, d.open, d.close)
    ensures r.Slots? <==>
            && point in cat.points && cat.DayFor(point, day).Some?
            && forall s :: s in services ==> s in cat.services && cat.services[s].point == point
    ensures r.Slots? ==> AllKnown(cat, services)
    ensures r.Slots? ==> forall s :: s in r.slots ==> s.end == s.start + Blocked(cat, services) * MINUTE
    ensures r.Failed? ==> ExplainsNoList(r.fault, cat, point, services)
    ensures r.Slots? ==>
            IsPublicList(r.slots, cat, rows, point, cat.DayFor(point, day).value, TotalMinutes(cat, services) * MINUTE)
  {
    if point !in cat.points {
      return Failed(PointNotFound);
    }
    var totalMinutes := 0;
    for k := 0 to |services|
      invariant totalMinutes == TotalMinutes(cat, services[..k])
      invariant forall s :: s in services[..k] ==> s in cat.services && cat.services[s].point == point
    {
      assert services[..k + 1][..k] == services[..k];
      var id := services[k];
      assert id in services;
      if id !in cat.services {
        return Failed(ServiceNotFound);
      }
      var svc := cat.services[id];
      if svc.point != point {
        return Failed(ServiceNotAtPoint);
      }
      totalMinutes := totalMinutes + svc.EffectiveQueueMinutes();
    }
    assert services[..|services|] == services;
    var schedule := cat.DayFor(point, day);
    if schedule.None? {
      return Failed(InternalFault);
    }
    var slots := PublicSlots(cat, rows, busyRows, point, schedule.value, totalMinutes * MINUTE);
    forall k | 0 <= k < |services| ensures services[k] in cat.services {
      var id := services[k];
      assert id in services[..|services|];
    }
    TotalIsBlocked(cat, services);
    SlotsLast(slots, cat, rows, point, schedule.value, totalMinutes * MINUTE);
    r := Slots(slots);
  }

  /** A start is offered when a window of the day has it on its 15-minute grid. */
  ghost predicate Offered(day: DaySchedule, start: Instant, end: Instant) {
    exists i :: 0 <= i < |day.Windows()| && OnGrid(day.Windows()[i].start, start) && end <= day.Windows()[i].end
  }

  /** A slot lies in its window, so a closed box's all-day interval always meets it. */
  lemma PublicBoxFree(busy: seq<BusyBoxInterval>, cat: Catalog, rows: Table, point: PointId, day: DaySchedule,
                      box: int, start: Instant, end: Instant)
    requires IsPublicBusy(busy, cat, rows, point, day)
    requires day.open <= start < end <= day.close
    ensures BoxFree(box, TimeRange(start, end), busy) <==>
            !cat.BoxClosed(point, box) && BoxAvailable(box, start, end, BusyRows(rows, point, day.open, day.close))
  {
    var slot := TimeRange(start, end);
    var booked := BusyRows(rows, point, day.open, day.close);
    if BoxFree(box, slot, busy) {
      forall q | q in booked && q.box == box ensures !(q.start < end && start < q.end) {
        assert BusyBoxInterval(q.box, q.start, q.end) in busy;
      }
      assert cat.BoxClosed(point, box) ==> BusyBoxInterval(box, day.open, day.close) in busy;
    }
  }

  ghost predicate Lists(slots: seq<SlotWithBoxes>, start: Instant, box: int) {
    exists s :: s in slots && s.start == start && box in s.availableBoxes
  }

  /** The free list of a slot exists: a box that is free belongs to some listed slot. */
  lemma {:induction false} FreeListExists(slot: TimeRange, boxesCount: int, busy: seq<BusyBoxInterval>)
    returns (free: seq<int>)
    ensures IsFreeList(free, slot, boxesCount, busy)
    decreases if boxesCount < 0 then 0 else boxesCount
  {
    if boxesCount <= 0 {
      free := [];
    } else {
      var fewer := FreeListExists(slot, boxesCount - 1, busy);
      assert forall i :: 0 <= i < |fewer| ==> fewer[i] in fewer;
      free := if BoxFree(boxesCount, slot, busy) then fewer + [boxesCount] else fewer;
    }
  }

  lemma ListedMeansFree(slots: seq<SlotWithBoxes>, cat: Catalog, rows: Table, point: PointId, day: DaySchedule,
                        duration: Duration, start: Instant, box: int)
    requires point in cat.points && duration > 0
    requires IsPublicList(slots, cat, rows, point, day, duration)
    ensures Lists(slots, start, box) <==>
            && Offered(day, start, start + duration)
            && 1 <= box <= cat.points[point].boxesCount && !cat.BoxClosed(point, box)
            && BoxAvailable(box, start, start + duration, BusyRows(rows, point, day.open, day.close))
  {
    var n := cat.points[point].boxesCount;
    var busy :| IsPublicBusy(busy, cat, rows, point, day)
      && forall s :: s in slots <==> IsDaySlot(s, day, n, duration, busy);
    var end := start + duration;
    if Offered(day, start, end) {
      day.WindowsAreOpenTime();
      assert day.open <= start < end <= day.close;
      PublicBoxFree(busy, cat, rows, point, day, box, start, end);
      var free := FreeListExists(TimeRange(start, end), n, busy);
      if box in free {
        var s := SlotWithBoxes(start, end, free);
        var i :| 0 <= i < |day.Windows()| && OnGrid(day.Windows()[i].start, start) && end <= day.Windows()[i].end;
        assert IsBoxSlot(s, day.Windows()[i], n, duration, busy);
        assert s in slots;
      }
    }
  }

  /** The public list and a booking request agree: a box is listed at a start exactly
      when that start is on the grid and a request for that box and start is planned
      and then finds the box free among the rows re-read under the lock. */
  lemma AvailabilityAgreesWithBooking(slots: seq<SlotWithBoxes>, cat: Catalog, rows: Table, r: Request, day: Instant,
                                      now: Instant)
    requires cat.Valid() && ItemsBookable(cat, r.items, r.onlyPoint)
    requires var point := PointOf(cat, r.items);
             && point in cat.points && cat.points[point].isActive
             && cat.DayFor(point, day).Some?
             && IsPublicList(slots, cat, rows, point, cat.DayFor(point, day).value,
                             TotalMinutes(cat, ServicesOf(r.items)) * MINUTE)
    requires LocalDay(r.start) == LocalDay(day) && now < r.start && !r.isOverflow
    ensures var d := cat.DayFor(PointOf(cat, r.items), day).value;
            var plan := PlanFor(cat, r, now);
            var end := r.start + TotalMinutes(cat, ServicesOf(r.items)) * MINUTE;
            Lists(slots, r.start, r.box) <==>
              && Offered(d, r.start, end)
              && plan.Ok?
              && BoxAvailable(r.box, r.start, plan.value.end,
                              BusyRows(rows, plan.value.point, plan.value.dayOpen, plan.value.dayClose))
  {
    var point := PointOf(cat, r.items);
    var d := cat.DayFor(point, day).value;
    var duration := TotalMinutes(cat, ServicesOf(r.items)) * MINUTE;
    DayBoundsTile(r.start, day);
    assert cat.DayFor(point, r.start) == cat.DayFor(point, day);
    forall k | 0 <= k < |r.items| ensures r.items[k].service in cat.services {
      assert ItemFault(cat, r.items, r.onlyPoint, k).None?;
    }
    TotalMinutesPositive(cat, ServicesOf(r.items));
    NoFaultMeansBookable(cat, r.items, r.onlyPoint, 0);
    ListedMeansFree(slots, cat, rows, point, d, duration, r.start, r.box);
  }

  /** A slot of the day starts on that local day, so no listed slot is outside the
      reach of the agreement. */
  lemma SlotsStayOnTheirDay(cat: Catalog, point: PointId, day: Instant, start: Instant, end: Instant)
    requires cat.DayFor(point, day).Some? && start < end
    requires Offered(cat.DayFor(point, day).value, start, end)
    ensures LocalDay(start) == LocalDay(day)
  {
    var d := cat.DayFor(point, day).value;
    d.WindowsAreOpenTime();
    var i :| 0 <= i < |d.Windows()| && OnGrid(d.Windows()[i].start, start) && end <= d.Windows()[i].end;
    assert Holds(d.Windows()[i], start);
    assert d.open <= start < d.close;
    ResolvedWithinDay(day, cat.RowFor(point, WeekdayIndex(day)));
    DayBoundsTile(day, start);
  }

  lemma ResolvedWithinDay(day: Instant, row: Option<Schedules.Row>)
    requires Schedules.ResolveDaySchedule(day, row).Some? && Schedules.ResolveDaySchedule(day, row).value.isOpen
    ensures var d := Schedules.ResolveDaySchedule(day, row).value;
            DayBounds(day).0 <= d.open < DayBounds(day).1 && DayBounds(day).0 <= d.close < DayBounds(day).1
  {
    ParsedWithinDay(row.value.openTime.value);
    ParsedWithinDay(row.value.closeTime.value);
  }

  lemma ParsedWithinDay(s: string)
    ensures Schedules.ParseClock(s).Some? ==>
              var t := Schedules.ParseClock(s).value; 0 <= t.0 * HOUR + t.1 * MINUTE < DAY
  {
  }

  /** The lock's check and the exclusion constraint agree: the day's rows show every
      row of the table that a planned booking would clash with, and only those. */
  lemma LockCheckIsExclusion(rows: Table, q: Booking, dayOpen: Instant, dayClose: Instant)
    requires Planned(q, dayOpen, dayClose) && !q.isOverflow
    ensures BoxAvailable(q.box, q.start, q.end, BusyRows(rows, q.point, dayOpen, dayClose)) <==>
            forall i :: i in rows ==> !Clash(rows[i], q)
  {
    forall i | i in rows && Clash(rows[i], q)
      ensures !BoxAvailable(q.box, q.start, q.end, BusyRows(rows, q.point, dayOpen, dayClose))
    {
      BeginSeesClashes(rows, q, dayOpen, dayClose, i);
    }
  }

  /** From the screen to the table: for a customer with no active booking, on a point
      nobody is inserting into, the boxes listed at an offered start are exactly the
      boxes for which the request is planned and its insert then succeeds. */
  lemma ListedMeansBookable(slots: seq<SlotWithBoxes>, cat: Catalog, s: State, r: Request, user: UserId, id: BookingId,
                            day: Instant, now: Instant)
    requires cat.Valid() && ItemsBookable(cat, r.items, r.onlyPoint)
    requires var point := PointOf(cat, r.items);
             && point in cat.points && cat.points[point].isActive
             && cat.DayFor(point, day).Some? && point !in s.open
             && IsPublicList(slots, cat, s.rows, point, cat.DayFor(point, day).value,
                             TotalMinutes(cat, ServicesOf(r.items)) * MINUTE)
    requires LocalDay(r.start) == LocalDay(day) && now < r.start && !r.isOverflow
    requires id !in s.rows && forall i :: i in s.rows && Active(s.rows[i]) ==> s.rows[i].user != user
    ensures var d := cat.DayFor(PointOf(cat, r.items), day).value;
            var plan := PlanFor(cat, r, now);
            Lists(slots, r.start, r.box) <==>
              && Offered(d, r.start, r.start + TotalMinutes(cat, ServicesOf(r.items)) * MINUTE)
              && plan.Ok?
              && var q := BookingFor(user, r, plan.value);
                 var booked := Apply(DEPLOYED, Apply(DEPLOYED, s, Begin(q, plan.value.dayOpen, plan.value.dayClose)),
                                     Commit(q.point, id));
                 booked.rows == s.rows[id := q]
  {
    AvailabilityAgreesWithBooking(slots, cat, s.rows, r, day, now);
    PlanMeaning(cat, r, now);
    var plan := PlanFor(cat, r, now);
    if plan.Ok? {
      var q := BookingFor(user, r, plan.value);
      LockCheckIsExclusion(s.rows, q, plan.value.dayOpen, plan.value.dayClose);
      var locked := Apply(DEPLOYED, s, Begin(q, plan.value.dayOpen, plan.value.dayClose));
      assert locked.open[q.point] == Tx(q, BusyRows(s.rows, q.point, plan.value.dayOpen, plan.value.dayClose));
      assert id in s.rows[id := q];
    }
  }
}
