/** What a booking request must satisfy before the table is touched, and the public
    list of free slots for the same services. */
module Planning {
  import opened Clock
  import opened Availability
  import opened Options
  import opened Bookings
  import opened Sums
  import Schedules

  type ServiceId = int
  type OptionId = int

  const MAX_BOOKING_ITEMS: int := 8

  datatype Service = Service(point: PointId, durationMinutes: int, queueMinutes: Option<int>, isActive: bool,
                             priceOptions: set<OptionId>)
  {
    /** How long a booking of this service blocks a box. */
    function EffectiveQueueMinutes(): int {
      if queueMinutes.Some? then queueMinutes.value else durationMinutes
    }
  }

  datatype Point = Point(isActive: bool, boxesCount: int)

  /** The stored data a request is checked against. Box rows and schedule rows are
      unique per point and number, and per point and weekday. */
  datatype Catalog = Catalog(services: map<ServiceId, Service>, points: map<PointId, Point>,
                             boxes: map<PointId, map<int, bool>>, schedules: map<PointId, map<int, Schedules.Row>>)
  {
    /** Minutes are positive by the services table's checks. */
    ghost predicate Valid() {
      forall s :: s in services ==>
        services[s].durationMinutes > 0 && (services[s].queueMinutes.Some? ==> services[s].queueMinutes.value > 0)
    }

    /** Closed by its row; a missing row counts as open. */
    predicate BoxClosed(point: PointId, number: int) {
      point in boxes && number in boxes[point] && !boxes[point][number]
    }

    function RowFor(point: PointId, weekday: int): Option<Schedules.Row> {
      if point in schedules && weekday in schedules[point] then Some(schedules[point][weekday]) else None
    }

    /** The point's hours on the local day of t; None when a stored time is malformed. */
    function DayFor(point: PointId, t: Instant): Option<DaySchedule> {
      Schedules.ResolveDaySchedule(t, RowFor(point, WeekdayIndex(t)))
    }
  }

  datatype Item = Item(service: ServiceId, option: OptionId)

  datatype Fault = InvalidItems | DuplicateService | ServiceNotFound | ServiceNotAtPoint | ServiceInactive
                 | InvalidPriceOption | PointNotFound | PointInactive | InvalidBoxNumber | BoxIsClosed
                 | InvalidStart | OutsideOperatingHours | InternalFault

  datatype Plan = Plan(point: PointId, end: Instant, dayOpen: Instant, dayClose: Instant)

  datatype Result<+T> = Ok(value: T) | Err(fault: Fault)

  // ----- the request's services -----

  /** What is wrong with the k-th requested service, given those before it. */
  function ItemFault(cat: Catalog, items: seq<Item>, onlyPoint: Option<PointId>, k: nat): Option<Fault>
    requires k < |items|
  {
    var it := items[k];
    if exists j :: 0 <= j < k && items[j].service == it.service then Some(DuplicateService)
    else if it.service !in cat.services then Some(ServiceNotFound)
    else
      var svc := cat.services[it.service];
      if onlyPoint.Some? && svc.point != onlyPoint.value then Some(ServiceNotFound)
      else if items[0].service in cat.services && svc.point != cat.services[items[0].service].point then Some(ServiceNotAtPoint)
      else if !svc.isActive then Some(ServiceInactive)
      else if it.option !in svc.priceOptions then Some(InvalidPriceOption)
      else None
  }

  function FirstItemFault(cat: Catalog, items: seq<Item>, onlyPoint: Option<PointId>, k: nat): Option<Fault>
    requires k <= |items|
    decreases |items| - k
  {
    if k == |items| then None
    else
      var f := ItemFault(cat, items, onlyPoint, k);
      if f.Some? then f else FirstItemFault(cat, items, onlyPoint, k + 1)
  }

  function MinutesOf(cat: Catalog): ServiceId -> int {
    (s: ServiceId) => if s in cat.services then cat.services[s].EffectiveQueueMinutes() else 0
  }

  function TotalMinutes(cat: Catalog, services: seq<ServiceId>): int {
    Sum(MinutesOf(cat), services)
  }

  lemma {:induction false} TotalMinutesPositive(cat: Catalog, services: seq<ServiceId>)
    requires cat.Valid() && services != []
    requires forall i :: 0 <= i < |services| ==> services[i] in cat.services
    ensures TotalMinutes(cat, services) > 0
  {
    var n := |services| - 1;
    var last := services[n];
    assert last in cat.services && MinutesOf(cat)(last) > 0;
    if n > 0 {
      TotalMinutesPositive(cat, services[..n]);
    } else {
      assert services == [services[0]];
      SumOne(MinutesOf(cat), services[0]);
    }
  }

  function ServicesOf(items: seq<Item>): (r: seq<ServiceId>)
    ensures |r| == |items| && forall i :: 0 <= i < |items| ==> r[i] == items[i].service
  {
    seq(|items|, i requires 0 <= i < |items| => items[i].service)
  }

  /** The point the first requested service belongs to. */
  function PointOf(cat: Catalog, items: seq<Item>): PointId {
    if items != [] && items[0].service in cat.services then cat.services[items[0].service].point else 0
  }

  /** All requested services can be booked together. */
  ghost predicate ItemsBookable(cat: Catalog, items: seq<Item>, onlyPoint: Option<PointId>) {
    && 1 <= |items| <= MAX_BOOKING_ITEMS
    && forall k :: 0 <= k < |items| ==> ItemFault(cat, items, onlyPoint, k).None?
  }

  lemma {:induction false} NoFaultMeansBookable(cat: Catalog, items: seq<Item>, onlyPoint: Option<PointId>, k: nat)
    requires k <= |items|
    ensures FirstItemFault(cat, items, onlyPoint, k).None? <==>
            forall j :: k <= j < |items| ==> ItemFault(cat, items, onlyPoint, j).None?
    decreases |items| - k
  {
    if k < |items| {
      NoFaultMeansBookable(cat, items, onlyPoint, k + 1);
    }
  }

  // ----- the whole request -----

  datatype Request = Request(items: seq<Item>, box: int, start: Instant, requireFuture: bool, isOverflow: bool,
                             onlyPoint: Option<PointId>)

  /** planBooking's verdict at time now. */
  ghost function PlanFor(cat: Catalog, r: Request, now: Instant): Result<Plan> {
    if |r.items| == 0 || |r.items| > MAX_BOOKING_ITEMS then Err(InvalidItems)
    else if FirstItemFault(cat, r.items, r.onlyPoint, 0).Some? then Err(FirstItemFault(cat, r.items, r.onlyPoint, 0).value)
    else
      NoFaultMeansBookable(cat, r.items, r.onlyPoint, 0);
      var point := PointOf(cat, r.items);
      var end := r.start + TotalMinutes(cat, ServicesOf(r.items)) * MINUTE;
      if point !in cat.points then Err(PointNotFound)
      else if !cat.points[point].isActive then Err(PointInactive)
      else if !r.isOverflow && !(1 <= r.box <= cat.points[point].boxesCount) then Err(InvalidBoxNumber)
      else if !r.isOverflow && cat.BoxClosed(point, r.box) then Err(BoxIsClosed)
      else if r.requireFuture && r.start <= now then Err(InvalidStart)
      else
        var day := cat.DayFor(point, r.start);
        if day.None? then Err(InternalFault)
        else if !day.value.Contains(r.start, end) then Err(OutsideOperatingHours)
        else Ok(Plan(point, end, day.value.open, day.value.close))
  }

  /** The row a planned request asks for. An overflow booking sits in box 0. */
  function BookingFor(user: UserId, r: Request, plan: Plan): Booking {
    Booking(InQueue, user, plan.point, if r.isOverflow then 0 else r.box, r.isOverflow, r.start, plan.end, None, None)
  }

  /** Goes through the requested services: their common point and total minutes, or the
      first thing wrong with them. */
  method PlanItems(cat: Catalog, items: seq<Item>, onlyPoint: Option<PointId>)
    returns (fault: Option<Fault>, point: Option<PointId>, totalMinutes: int)
    requires items != []
    ensures fault == FirstItemFault(cat, items, onlyPoint, 0)
    ensures fault.None? ==> point == Some(PointOf(cat, items)) && totalMinutes == TotalMinutes(cat, ServicesOf(items))
  {
    fault, point, totalMinutes := None, None, 0;
    var seen: set<ServiceId> := {};
    ghost var ids := ServicesOf(items);
    for k := 0 to |items|
      invariant FirstItemFault(cat, items, onlyPoint, 0) == FirstItemFault(cat, items, onlyPoint, k)
      invariant forall j :: 0 <= j < k ==> items[j].service in cat.services
      invariant seen == set j | 0 <= j < k :: items[j].service
      invariant point == if k == 0 then None else Some(cat.services[items[0].service].point)
      invariant totalMinutes == TotalMinutes(cat, ids[..k])
    {
      var it := items[k];
      assert ids[..k + 1][..k] == ids[..k];
      if it.service in seen {
        return Some(DuplicateService), point, 0;
      }
      seen := seen + {it.service};
      if it.service !in cat.services {
        return Some(ServiceNotFound), point, 0;
      }
      var svc := cat.services[it.service];
      if onlyPoint.Some? && svc.point != onlyPoint.value {
        return Some(ServiceNotFound), point, 0;
      }
      if point.None? {
        point := Some(svc.point);
      } else if svc.point != point.value {
        return Some(ServiceNotAtPoint), point, 0;
      }
      if !svc.isActive {
        return Some(ServiceInactive), point, 0;
      }
      if it.option !in svc.priceOptions {
        return Some(InvalidPriceOption), point, 0;
      }
      totalMinutes := totalMinutes + svc.EffectiveQueueMinutes();
    }
    assert ids[..|items|] == ids;
  }

  method PlanBooking(cat: Catalog, r: Request, now: Instant) returns (plan: Result<Plan>)
    ensures plan == PlanFor(cat, r, now)
  {
    if |r.items| == 0 || |r.items| > MAX_BOOKING_ITEMS {
      return Err(InvalidItems);
    }
    var fault, point, totalMinutes := PlanItems(cat, r.items, r.onlyPoint);
    if fault.Some? {
      return Err(fault.value);
    }
    if point.value !in cat.points {
      return Err(PointNotFound);
    }
    var wp := cat.points[point.value];
    if !wp.isActive {
      return Err(PointInactive);
    }
    if !r.isOverflow {
      if r.box < 1 || r.box > wp.boxesCount {
        return Err(InvalidBoxNumber);
      }
      if cat.BoxClosed(point.value, r.box) {
        return Err(BoxIsClosed);
      }
    }
    if r.requireFuture && r.start <= now {
      return Err(InvalidStart);
    }
    var end := r.start + totalMinutes * MINUTE;
    var day := Schedules.ResolveDaySchedule(r.start, cat.RowFor(point.value, WeekdayIndex(r.start)));
    if day.None? {
      return Err(InternalFault);
    }
    if !day.value.Contains(r.start, end) {
      return Err(OutsideOperatingHours);
    }
    plan := Ok(Plan(point.value, end, day.value.open, day.value.close));
  }

  /** A plan is made exactly for a bookable list of services at an active point, an
      open box in range, a start not in the past when that is asked, and a time the
      point is open throughout; the plan's day then holds the whole booking. */
  lemma PlanMeaning(cat: Catalog, r: Request, now: Instant)
    requires cat.Valid()
    ensures PlanFor(cat, r, now).Ok? <==>
            && ItemsBookable(cat, r.items, r.onlyPoint)
            && var point := PointOf(cat, r.items);
               var end := r.start + TotalMinutes(cat, ServicesOf(r.items)) * MINUTE;
               && point in cat.points && cat.points[point].isActive
               && (r.isOverflow
                   || (1 <= r.box <= cat.points[point].boxesCount
                       && !(point in cat.boxes && r.box in cat.boxes[point] && !cat.boxes[point][r.box])))
               && (r.requireFuture ==> now < r.start)
               && cat.DayFor(point, r.start).Some?
               && forall t :: r.start <= t < end ==> cat.DayFor(point, r.start).value.OpenAt(t)
    ensures PlanFor(cat, r, now).Ok? ==>
            var plan := PlanFor(cat, r, now).value;
            && plan.dayOpen <= r.start < plan.end <= plan.dayClose
            && plan.end == r.start + TotalMinutes(cat, ServicesOf(r.items)) * MINUTE
  {
    NoFaultMeansBookable(cat, r.items, r.onlyPoint, 0);
    if ItemsBookable(cat, r.items, r.onlyPoint) {
      var point := PointOf(cat, r.items);
      forall k | 0 <= k < |r.items| ensures r.items[k].service in cat.services {
        assert ItemFault(cat, r.items, r.onlyPoint, k).None?;
      }
      TotalMinutesPositive(cat, ServicesOf(r.items));
      var end := r.start + TotalMinutes(cat, ServicesOf(r.items)) * MINUTE;
      var day := cat.DayFor(point, r.start);
      if day.Some? {
        day.value.ContainsIsOpenThroughout(r.start, end);
        if day.value.Contains(r.start, end) {
          assert day.value.OpenAt(r.start) && day.value.OpenAt(end - 1);
        }
      }
    }
  }

  // ----- how long a booking is, and which services it may name -----

  predicate AllKnown(cat: Catalog, services: seq<ServiceId>) {
    forall k :: 0 <= k < |services| ==> services[k] in cat.services
  }

  /** The minutes the services block, first to last: each its queue minutes if it has any of its
      own, its duration otherwise. */
  function Blocked(cat: Catalog, services: seq<ServiceId>): int
    requires AllKnown(cat, services)
  {
    if services == [] then 0
    else
      var svc := cat.services[services[0]];
      (match svc.queueMinutes case Some(minutes) => minutes case None => svc.durationMinutes) + Blocked(cat, services[1..])
  }

  lemma {:induction false} TotalIsBlocked(cat: Catalog, services: seq<ServiceId>)
    requires AllKnown(cat, services)
    ensures TotalMinutes(cat, services) == Blocked(cat, services)
  {
    if services != [] {
      TotalIsBlocked(cat, services[1..]);
      assert services == [services[0]] + services[1..];
      SumAppend(MinutesOf(cat), [services[0]], services[1..]);
      SumOne(MinutesOf(cat), services[0]);
    }
  }

  lemma PlannedServicesExist(cat: Catalog, r: Request, now: Instant)
    requires PlanFor(cat, r, now).Ok?
    ensures r.items != [] && AllKnown(cat, ServicesOf(r.items))
  {
    NoFaultMeansBookable(cat, r.items, r.onlyPoint, 0);
    forall k | 0 <= k < |r.items| ensures r.items[k].service in cat.services {
      assert ItemFault(cat, r.items, r.onlyPoint, k).None?;
    }
  }

  /** A planned booking ends when the minutes its services block are over. */
  lemma PlanEnds(cat: Catalog, r: Request, now: Instant)
    requires PlanFor(cat, r, now).Ok?
    ensures AllKnown(cat, ServicesOf(r.items))
    ensures PlanFor(cat, r, now).value.end == r.start + Blocked(cat, ServicesOf(r.items)) * MINUTE
  {
    PlannedServicesExist(cat, r, now);
    TotalIsBlocked(cat, ServicesOf(r.items));
  }

  /** With one service, after its queue minutes, or its duration when it has none of its own. */
  lemma OneServiceEnds(cat: Catalog, r: Request, now: Instant)
    requires PlanFor(cat, r, now).Ok? && |r.items| == 1
    ensures r.items[0].service in cat.services
    ensures var svc := cat.services[r.items[0].service];
            PlanFor(cat, r, now).value.end ==
            r.start + (if svc.queueMinutes.Some? then svc.queueMinutes.value else svc.durationMinutes) * MINUTE
  {
    PlanEnds(cat, r, now);
    assert r.items[0].service == ServicesOf(r.items)[0];
    assert ServicesOf(r.items)[1..] == [];
  }

  lemma {:induction false} BlockedAppend(cat: Catalog, a: seq<ServiceId>, b: seq<ServiceId>)
    requires AllKnown(cat, a) && AllKnown(cat, b)
    ensures AllKnown(cat, a + b) && Blocked(cat, a + b) == Blocked(cat, a) + Blocked(cat, b)
  {
    if a == [] {
      assert a + b == b;
    } else {
      assert (a + b)[1..] == a[1..] + b;
      BlockedAppend(cat, a[1..], b);
    }
  }

  /** Each further service moves the end by its own minutes. */
  lemma FurtherServiceEnds(cat: Catalog, r: Request, more: Item, now: Instant)
    requires PlanFor(cat, r, now).Ok? && PlanFor(cat, r.(items := r.items + [more]), now).Ok?
    ensures more.service in cat.services
    ensures var svc := cat.services[more.service];
            PlanFor(cat, r.(items := r.items + [more]), now).value.end ==
            PlanFor(cat, r, now).value.end
              + (if svc.queueMinutes.Some? then svc.queueMinutes.value else svc.durationMinutes) * MINUTE
  {
    var longer := r.(items := r.items + [more]);
    PlanEnds(cat, r, now);
    PlanEnds(cat, longer, now);
    assert ServicesOf(longer.items) == ServicesOf(r.items) + [more.service];
    assert more.service == ServicesOf(longer.items)[|r.items|];
    BlockedAppend(cat, ServicesOf(r.items), [more.service]);
    assert [more.service][1..] == [];
  }

  /** The services of a request can be booked together exactly when there are one to eight
      different ones, all of one point (the caller's own, where that is asked), all active, each
      with a price option of its own. */
  lemma ItemsBookableExactly(cat: Catalog, items: seq<Item>, onlyPoint: Option<PointId>)
    ensures ItemsBookable(cat, items, onlyPoint) <==>
            && 1 <= |items| <= 8
            && (forall i, j :: 0 <= i < j < |items| ==> items[i].service != items[j].service)
            && (forall k :: 0 <= k < |items| ==>
                  && items[k].service in cat.services
                  && cat.services[items[k].service].isActive
                  && items[k].option in cat.services[items[k].service].priceOptions
                  && (onlyPoint.Some? ==> cat.services[items[k].service].point == onlyPoint.value))
            && (forall i, j :: 0 <= i < j < |items| ==>
                  items[i].service in cat.services && items[j].service in cat.services
                  && cat.services[items[i].service].point == cat.services[items[j].service].point)
  {
    if ItemsBookable(cat, items, onlyPoint) {
      forall k | 0 <= k < |items|
        ensures items[k].service in cat.services && cat.services[items[k].service].isActive
        ensures items[k].option in cat.services[items[k].service].priceOptions
        ensures onlyPoint.Some? ==> cat.services[items[k].service].point == onlyPoint.value
        ensures items[0].service in cat.services
                && cat.services[items[k].service].point == cat.services[items[0].service].point
        ensures forall i :: 0 <= i < k ==> items[i].service != items[k].service
      {
        assert ItemFault(cat, items, onlyPoint, 0).None?;
        assert ItemFault(cat, items, onlyPoint, k).None?;
      }
    } else if 1 <= |items| <= 8 {
      var k :| 0 <= k < |items| && ItemFault(cat, items, onlyPoint, k).Some?;
    }
  }

  /** The first faulty service decides the refusal: a repeated one before an unknown one, one of
      another point before an inactive one, the price option last. */
  lemma FaultsInOrder(cat: Catalog, items: seq<Item>, onlyPoint: Option<PointId>, k: nat)
    requires k < |items|
    requires forall j :: 0 <= j < k ==> ItemFault(cat, items, onlyPoint, j).None?
    ensures var repeated := exists j :: 0 <= j < k && items[j].service == items[k].service;
            var f := ItemFault(cat, items, onlyPoint, k);
            && (repeated ==> f == Some(DuplicateService))
            && (!repeated && items[k].service !in cat.services ==> f == Some(ServiceNotFound))
            && (!repeated && items[k].service in cat.services ==>
                  var svc := cat.services[items[k].service];
                  var elsewhere := k > 0 && items[k - 1].service in cat.services
                                   && svc.point != cat.services[items[k - 1].service].point;
                  && (onlyPoint.Some? && svc.point != onlyPoint.value ==> f == Some(ServiceNotFound))
                  && (onlyPoint.None? && elsewhere ==> f == Some(ServiceNotAtPoint))
                  && (onlyPoint.None? && !elsewhere && !svc.isActive ==> f == Some(ServiceInactive))
                  && (onlyPoint.None? && !elsewhere && svc.isActive && items[k].option !in svc.priceOptions ==>
                        f == Some(InvalidPriceOption)))
  {
    if k > 0 {
      assert ItemFault(cat, items, onlyPoint, 0).None? && ItemFault(cat, items, onlyPoint, k - 1).None?;
    }
  }

  /** A planned booking is at the point of each of its services. */
  lemma PlannedAtServicesPoint(cat: Catalog, r: Request, now: Instant, k: nat)
    requires PlanFor(cat, r, now).Ok? && k < |r.items|
    ensures r.items[k].service in cat.services
    ensures PlanFor(cat, r, now).value.point == cat.services[r.items[k].service].point
  {
    NoFaultMeansBookable(cat, r.items, r.onlyPoint, 0);
    assert ItemFault(cat, r.items, r.onlyPoint, 0).None? && ItemFault(cat, r.items, r.onlyPoint, k).None?;
  }

  /** A whole number of weeks from the local midnight that began Monday, 1970-01-05. */
  predicate BeginsMonday(t: Instant) {
    (t - (4 * DAY - LOCAL_OFFSET)) % (7 * DAY) == 0
  }

  lemma DaysFromMonday(t: Instant, w: int)
    requires 0 <= w < 7 && BeginsMonday(LocalMidnight(t) - w * DAY)
    ensures WeekdayIndex(t) == w
  {
    var week := (LocalMidnight(t) - w * DAY - (4 * DAY - LOCAL_OFFSET)) / (7 * DAY);
    assert LocalDay(t) == 4 + 7 * week + w;
  }

  /** On the w-th day after a Monday a point keeps the hours of its row for weekday w, whatever it
      does on other days. */
  lemma DayKeepsItsRow(cat: Catalog, point: PointId, t: Instant, w: int)
    requires 0 <= w < 7 && BeginsMonday(LocalMidnight(t) - w * DAY)
    ensures cat.DayFor(point, t) ==
            Schedules.ResolveDaySchedule(
              t, if point in cat.schedules && w in cat.schedules[point] then Some(cat.schedules[point][w]) else None)
  {
    DaysFromMonday(t, w);
  }

  /** Whatever planning refuses is refused for a reason that holds. */
  lemma RefusalIsReal(cat: Catalog, r: Request, now: Instant)
    requires PlanFor(cat, r, now).Err? && r.items != [] && r.items[0].service in cat.services
    ensures var point := cat.services[r.items[0].service].point;
            var day, end := cat.DayFor(point, r.start), r.start + TotalMinutes(cat, ServicesOf(r.items)) * MINUTE;
            match PlanFor(cat, r, now).fault
            case InvalidItems => |r.items| > 8
            case PointNotFound => point !in cat.points
            case PointInactive => point in cat.points && !cat.points[point].isActive
            case InvalidBoxNumber => !r.isOverflow && point in cat.points && !(1 <= r.box <= cat.points[point].boxesCount)
            case BoxIsClosed => !r.isOverflow && point in cat.boxes && r.box in cat.boxes[point] && !cat.boxes[point][r.box]
            case InvalidStart => r.requireFuture && r.start <= now
            case OutsideOperatingHours => day.Some? && !day.value.Contains(r.start, end)
            case InternalFault => day.None?
            case other => exists k :: 0 <= k < |r.items| && ItemFault(cat, r.items, r.onlyPoint, k) == Some(other)
  {
    FirstFaultIsAnItems(cat, r.items, r.onlyPoint, 0);
  }

  lemma {:induction false} FirstFaultIsAnItems(cat: Catalog, items: seq<Item>, onlyPoint: Option<PointId>, k: nat)
    requires k <= |items|
    ensures var f := FirstItemFault(cat, items, onlyPoint, k);
            f.Some? ==> exists j :: 0 <= j < |items| && ItemFault(cat, items, onlyPoint, j) == f
    decreases |items| - k
  {
    if k < |items| && ItemFault(cat, items, onlyPoint, k).None? {
      FirstFaultIsAnItems(cat, items, onlyPoint, k + 1);
    }
  }
}
