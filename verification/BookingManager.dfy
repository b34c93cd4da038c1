/** The manager's requests as they run: each reads, validates and writes in separate
    steps, and between them the requests of others run as given by an event list. */
module BookingManager {
  import opened Clock
  import opened Availability
  import EventBus
  import opened Options
  import opened Bookings
  import opened Iteration
  import opened Planning
  import opened Sorting

  datatype Outcome = Done(booking: Booking) | Refused(error: Error) | Invalid(fault: Fault) | NotACustomer | NoSuchCar

  function StartOrder(): (Booking, Booking) -> bool {
    (a: Booking, b: Booking) => a.start <= b.start
  }

  predicate BusyIn(b: Booking, point: PointId, rangeStart: Instant, rangeEnd: Instant) {
    b.point == point && Occupies(b) && b.start < rangeEnd && rangeStart < b.end
  }

  /** The rows among ids with exactly these fields. */
  function IdsOf(rows: Table, ids: set<BookingId>, b: Booking): set<BookingId> {
    set i | i in ids && i in rows && rows[i] == b
  }

  lemma OneIdMore(rows: Table, ids: set<BookingId>, id: BookingId, b: Booking)
    requires id in rows && id !in ids
    ensures |IdsOf(rows, ids + {id}, b)| == |IdsOf(rows, ids, b)| + if rows[id] == b then 1 else 0
  {
    assert IdsOf(rows, ids + {id}, b) == IdsOf(rows, ids, b) + if rows[id] == b then {id} else {};
  }

  lemma FoundById(rows: Table, point: PointId, rangeStart: Instant, rangeEnd: Instant, b: Booking)
    ensures b in BusyRows(rows, point, rangeStart, rangeEnd) <==>
            BusyIn(b, point, rangeStart, rangeEnd) && |IdsOf(rows, rows.Keys, b)| > 0
  {
    var ids := IdsOf(rows, rows.Keys, b);
    if ids == {} {
      forall i | i in rows ensures rows[i] != b {
        assert i !in ids;
      }
    }
    if BusyIn(b, point, rangeStart, rangeEnd) && b !in BusyRows(rows, point, rangeStart, rangeEnd) {
      forall i | i in rows ensures rows[i] != b {
        assert BusyIn(rows[i], point, rangeStart, rangeEnd) ==> rows[i] in BusyRows(rows, point, rangeStart, rangeEnd);
      }
      assert ids == {};
    }
  }

  /** The booking table and the row locks on the washing points. */
  class Database {
    var rows: Table
    var open: map<PointId, Tx>

    constructor ()
      ensures Abs() == EMPTY
    {
      rows, open := map[], map[];
    }

    ghost function Abs(): State
      reads this
    {
      State(rows, open)
    }

    /** Holds of every reachable state. */
    ghost predicate Valid()
      reads this
    {
      Constrained(Abs()) && WellMarked(Abs())
    }

    method FindByID(id: BookingId) returns (r: Option<Booking>)
      ensures r == if id in rows then Some(rows[id]) else None
    {
      r := if id in rows then Some(rows[id]) else None;
    }

    /** Each row that occupies a box of the point in the range, once, by start. */
    method FindActiveBookingsInRange(point: PointId, rangeStart: Instant, rangeEnd: Instant)
      returns (busy: seq<Booking>)
      ensures forall b :: b in busy <==> b in BusyRows(rows, point, rangeStart, rangeEnd)
      ensures forall b :: multiset(busy)[b] == if BusyIn(b, point, rangeStart, rangeEnd) then |IdsOf(rows, rows.Keys, b)| else 0
      ensures forall j, k :: 0 <= j < k < |busy| ==> busy[j].start <= busy[k].start
    {
      var found: seq<Booking> := [];
      var ids := rows.Keys;
      while ids != {}
        invariant ids <= rows.Keys
        invariant forall b ::
          multiset(found)[b] == if BusyIn(b, point, rangeStart, rangeEnd) then |IdsOf(rows, rows.Keys - ids, b)| else 0
      {
        var id := Pick(ids);
        forall b {
          OneIdMore(rows, rows.Keys - ids, id, b);
        }
        assert rows.Keys - (ids - {id}) == rows.Keys - ids + {id};
        ids := ids - {id};
        var q := rows[id];
        if q.point == point && Occupies(q) && q.start < rangeEnd && rangeStart < q.end {
          found := found + [q];
        }
      }
      busy := SortBy(StartOrder(), found);
      assert rows.Keys - {} == rows.Keys;
      forall b ensures b in busy <==> b in BusyRows(rows, point, rangeStart, rangeEnd) {
        assert b in busy <==> b in multiset(busy);
        FoundById(rows, point, rangeStart, rangeEnd, b);
      }
    }

    method HasActiveForUser(user: UserId) returns (active: bool)
      ensures active <==> HasActive(rows, user)
    {
      active := false;
      var ids := rows.Keys;
      while ids != {}
        invariant ids <= rows.Keys
        invariant active <==> exists i :: i in rows && i !in ids && Active(rows[i]) && rows[i].user == user
      {
        var id := Pick(ids);
        ids := ids - {id};
        if Active(rows[id]) && rows[id].user == user {
          active := true;
        }
      }
    }

    /** Inserts q unless a constraint forbids it. */
    method Create(id: BookingId, q: Booking) returns (err: Option<Error>)
      requires id !in rows
      modifies this`rows
      ensures err == WriteError(DEPLOYED, old(rows), id, q)
      ensures rows == if err.None? then old(rows)[id := q] else old(rows)
    {
      err := WriteError(DEPLOYED, rows, id, q);
      if err.None? {
        rows := rows[id := q];
      }
    }

    /** Writes the status, and the cancellation mark where it changes, only while the
        row still has the status the caller read. */
    method UpdateStatus(id: BookingId, from: Status, to: Status, now: Instant) returns (err: Option<Error>)
      modifies this`rows
      ensures err == StatusError(DEPLOYED, old(Abs()), id, from, to, now)
      ensures rows == if err.None? then old(rows)[id := StatusWritten(old(rows)[id], to, now)] else old(rows)
    {
      if id !in rows || rows[id].status != from {
        return Some(StatusChanged);
      }
      var b := rows[id];
      var updated := b.(status := to);
      match to {
        case Canceled => updated := updated.(canceledAt := Some(now));
        case InQueue => updated := updated.(canceledAt := None);
        case _ =>
      }
      err := WriteError(DEPLOYED, rows, id, updated);
      if err.None? {
        rows := rows[id := updated];
      }
    }

    method UpdatePausedAt(id: BookingId, pausedAt: Option<Instant>) returns (err: Option<Error>)
      modifies this`rows
      ensures err.None? <==> id in old(rows) && old(rows)[id].status == Washing
      ensures err.Some? ==> err.value == StatusChanged
      ensures Abs() == Apply(DEPLOYED, old(Abs()), SetPaused(id, pausedAt))
    {
      if id !in rows || rows[id].status != Washing {
        return Some(StatusChanged);
      }
      rows := rows[id := rows[id].(pausedAt := pausedAt)];
      err := None;
    }

    /** What other requests do meanwhile. */
    method Others(env: seq<Event>)
      modifies this
      ensures Abs() == Run(DEPLOYED, old(Abs()), env)
    {
      var s := Run(DEPLOYED, State(rows, open), env);
      rows, open := s.rows, s.open;
    }
  }

  lemma {:induction false} RunKeepsValid(s: State, events: seq<Event>)
    requires Constrained(s) && WellMarked(s)
    ensures Constrained(Run(DEPLOYED, s, events)) && WellMarked(Run(DEPLOYED, s, events))
  {
    RunKeepsMarks(DEPLOYED, s, events);
    if events != [] {
      var init := events[..|events| - 1];
      RunKeepsValid(s, init);
      StepKeepsConstraints(Run(DEPLOYED, s, init), events[|events| - 1]);
    }
  }

  // ----- status requests -----

  method CancelBooking(db: Database, bus: EventBus.Bus, id: BookingId, now: Instant, env: seq<Event>)
    returns (r: Outcome)
    requires db.Valid()
    modifies db, bus
    ensures db.Valid()
    ensures bus.View() == if r.Done? then EventBus.Signaled(old(bus.View()), r.booking.point) else old(bus.View())
    ensures id !in old(db.rows) ==> r == Refused(NotFound) && db.Abs() == old(db.Abs())
    ensures id in old(db.rows) ==>
              (r == Refused(CannotCancel) <==> old(db.rows)[id].status !in {InQueue, Waiting})
    ensures id in old(db.rows) && !Cancelable(old(db.rows)[id].status) ==>
              r == Refused(CannotCancel) && db.Abs() == old(db.Abs())
    ensures id in old(db.rows) && Cancelable(old(db.rows)[id].status) ==>
              var from, s := old(db.rows)[id].status, Run(DEPLOYED, old(db.Abs()), env);
              && db.Abs() == Apply(DEPLOYED, s, SetStatus(id, from, Canceled, now))
              && id in s.rows
              && (s.rows[id].status == from ==>
                    r.Done? && db.rows == s.rows[id := s.rows[id].(status := Canceled, canceledAt := Some(now))])
              && (s.rows[id].status != from ==> r == Refused(StatusChanged) && db.Abs() == s)
              && (r.Done? ==> r.booking == old(db.rows)[id].(status := Canceled, canceledAt := Some(now)))
  {
    var q := db.FindByID(id);
    if q.None? {
      return Refused(NotFound);
    }
    if q.value.status != InQueue && q.value.status != Waiting {
      return Refused(CannotCancel);
    }
    var from := q.value.status;
    RunKeepsProgress(DEPLOYED, db.Abs(), env, id);
    RunKeepsValid(db.Abs(), env);
    db.Others(env);
    StepKeepsConstraints(db.Abs(), SetStatus(id, from, Canceled, now));
    StepKeepsMarks(DEPLOYED, db.Abs(), SetStatus(id, from, Canceled, now));
    var err := db.UpdateStatus(id, from, Canceled, now);
    if err.Some? {
      return Refused(err.value);
    }
    bus.Publish(q.value.point);
    r := Done(StatusWritten(q.value, Canceled, now));
  }

  method UpdateStatus(db: Database, bus: EventBus.Bus, id: BookingId, to: Status, now: Instant, env: seq<Event>)
    returns (r: Outcome)
    requires db.Valid()
    modifies db, bus
    ensures db.Valid()
    ensures bus.View() == if r.Done? then EventBus.Signaled(old(bus.View()), r.booking.point) else old(bus.View())
    ensures id !in old(db.rows) ==> r == Refused(NotFound) && db.Abs() == old(db.Abs())
    ensures id in old(db.rows) ==> (r == Refused(InvalidTransition) <==> !StaffMayMove(old(db.rows)[id].status, to))
    ensures id in old(db.rows) && !StaffTransition(old(db.rows)[id].status, to) ==>
              r == Refused(InvalidTransition) && db.Abs() == old(db.Abs())
    ensures id in old(db.rows) && StaffTransition(old(db.rows)[id].status, to) ==>
              var from, s := old(db.rows)[id].status, Run(DEPLOYED, old(db.Abs()), env);
              && db.Abs() == Apply(DEPLOYED, s, SetStatus(id, from, to, now))
              && id in s.rows
              && (s.rows[id].status != from ==> r == Refused(StatusChanged) && db.Abs() == s)
              && (s.rows[id].status == from && to != InQueue ==>
                    r.Done? && db.rows == s.rows[id := s.rows[id].(status := to)])
              && (s.rows[id].status == from && to == InQueue ==>
                    match WriteError(DEPLOYED, s.rows, id, s.rows[id].(status := InQueue, canceledAt := None))
                    case None => r.Done? && db.rows == s.rows[id := s.rows[id].(status := InQueue, canceledAt := None)]
                    case Some(e) => r == Refused(e) && db.Abs() == s)
              && (r.Done? ==> r.booking == StatusWritten(old(db.rows)[id], to, now))
  {
    if id in db.rows {
      StaffTransitionExactly(db.rows[id].status, to);
    }
    var q := db.FindByID(id);
    if q.None? {
      return Refused(NotFound);
    }
    var from := q.value.status;
    if !StaffTransition(from, to) {
      return Refused(InvalidTransition);
    }
    RunKeepsProgress(DEPLOYED, db.Abs(), env, id);
    RunKeepsValid(db.Abs(), env);
    db.Others(env);
    StepKeepsConstraints(db.Abs(), SetStatus(id, from, to, now));
    StepKeepsMarks(DEPLOYED, db.Abs(), SetStatus(id, from, to, now));
    var err := db.UpdateStatus(id, from, to, now);
    if err.Some? {
      return Refused(err.value);
    }
    bus.Publish(q.value.point);
    r := Done(StatusWritten(q.value, to, now));
  }

  /** pausedAt is the mark to write: a time to pause, None to resume. */
  method PauseOrResume(db: Database, bus: EventBus.Bus, id: BookingId, pausedAt: Option<Instant>, env: seq<Event>)
    returns (r: Outcome)
    requires db.Valid()
    modifies db, bus
    ensures db.Valid()
    ensures bus.View() == if r.Done? then EventBus.Signaled(old(bus.View()), r.booking.point) else old(bus.View())
    ensures id !in old(db.rows) ==> r == Refused(NotFound) && db.Abs() == old(db.Abs())
    ensures id in old(db.rows) && (old(db.rows)[id].status != Washing || old(db.rows)[id].pausedAt.Some? == pausedAt.Some?) ==>
              r == Refused(if pausedAt.Some? then CannotPause else CannotResume) && db.Abs() == old(db.Abs())
    ensures id in old(db.rows) && old(db.rows)[id].status == Washing && old(db.rows)[id].pausedAt.Some? != pausedAt.Some? ==>
              var s := Run(DEPLOYED, old(db.Abs()), env);
              && db.Abs() == Apply(DEPLOYED, s, SetPaused(id, pausedAt))
              && id in s.rows && s.rows[id].status in {Washing, Ready}
              && (s.rows[id].status == Washing ==>
                    r.Done? && db.rows == s.rows[id := s.rows[id].(pausedAt := pausedAt)])
              && (s.rows[id].status == Ready ==> r == Refused(StatusChanged) && db.Abs() == s)
              && (r.Done? ==> r.booking == old(db.rows)[id].(pausedAt := pausedAt))
  {
    var q := db.FindByID(id);
    if q.None? {
      return Refused(NotFound);
    }
    if q.value.status != Washing || q.value.pausedAt.Some? == pausedAt.Some? {
      return Refused(if pausedAt.Some? then CannotPause else CannotResume);
    }
    RunKeepsProgress(DEPLOYED, db.Abs(), env, id);
    RunKeepsValid(db.Abs(), env);
    db.Others(env);
    StepKeepsConstraints(db.Abs(), SetPaused(id, pausedAt));
    StepKeepsMarks(DEPLOYED, db.Abs(), SetPaused(id, pausedAt));
    var err := db.UpdatePausedAt(id, pausedAt);
    if err.Some? {
      return Refused(err.value);
    }
    bus.Publish(q.value.point);
    r := Done(q.value.(pausedAt := pausedAt));
  }

  // ----- inserting -----

  method VerifyBoxAvailable(box: int, start: Instant, end: Instant, busy: seq<Booking>) returns (err: Option<Error>)
    ensures err == if BoxAvailable(box, start, end, set b | b in busy) then None else Some(SlotUnavailable)
  {
    for i := 0 to |busy|
      invariant forall j :: 0 <= j < i ==> !(busy[j].box == box && busy[j].start < end && start < busy[j].end)
    {
      var b := busy[i];
      if b.box == box && b.start < end && start < b.end {
        assert b in set b | b in busy;
        return Some(SlotUnavailable);
      }
    }
    err := None;
  }

  /** Nothing in the events releases the lock of point. */
  predicate LeavesLocked(events: seq<Event>, point: PointId) {
    forall e :: e in events ==> !(e.Commit? && e.point == point) && !(e.Rollback? && e.point == point)
  }

  lemma {:induction false} LockIsHeld(s: State, events: seq<Event>, point: PointId)
    requires point in s.open && LeavesLocked(events, point)
    ensures point in Run(DEPLOYED, s, events).open && Run(DEPLOYED, s, events).open[point] == s.open[point]
  {
    if events != [] {
      assert forall e :: e in events[..|events| - 1] ==> e in events;
      LockIsHeld(s, events[..|events| - 1], point);
      assert events[|events| - 1] in events;
    }
  }

  /** The k-th of the events brought row i back to the queue. */
  ghost predicate RestoredBy(s: State, events: seq<Event>, k: nat, i: BookingId) {
    && k < |events| && IsRestore(events[k]) && events[k].id == i
    && i in Run(DEPLOYED, s, events[..k]).rows && !Occupies(Run(DEPLOYED, s, events[..k]).rows[i])
    && i in Run(DEPLOYED, s, events[..k + 1]).rows && Run(DEPLOYED, s, events[..k + 1]).rows[i].status == InQueue
  }

  lemma ClashAppears(s: State, e: Event, point: PointId, i: BookingId, q: Booking)
    requires WellMarked(s) && point in s.open && q.point == point && LeavesLocked([e], point)
    requires i in Apply(DEPLOYED, s, e).rows && Clash(Apply(DEPLOYED, s, e).rows[i], q)
    requires i in s.rows ==> !Clash(s.rows[i], q)
    ensures IsRestore(e) && e.id == i && i in s.rows && !Occupies(s.rows[i])
    ensures Apply(DEPLOYED, s, e).rows[i].status == InQueue
  {
    assert e in [e];
  }

  /** A clash that the reading under the lock does not show was restored since. */
  lemma {:induction false} UnseenClashWasRestored(s: State, events: seq<Event>, point: PointId, i: BookingId, q: Booking)
    returns (k: nat)
    requires WellMarked(s) && point in s.open && q.point == point && LeavesLocked(events, point)
    requires i in s.rows ==> !Clash(s.rows[i], q)
    requires i in Run(DEPLOYED, s, events).rows && Clash(Run(DEPLOYED, s, events).rows[i], q)
    ensures RestoredBy(s, events, k, i)
  {
    var n := |events| - 1;
    var init := events[..n];
    assert forall e :: e in init ==> e in events;
    var before := Run(DEPLOYED, s, init);
    if i in before.rows && Clash(before.rows[i], q) {
      k := UnseenClashWasRestored(s, init, point, i, q);
      assert init[..k] == events[..k] && init[..k + 1] == events[..k + 1];
    } else {
      k := n;
      LockIsHeld(s, init, point);
      RunKeepsMarks(DEPLOYED, s, init);
      assert events[n] in events;
      ClashAppears(before, events[n], point, i, q);
      assert events[..n + 1] == events;
    }
  }

  /** The account a walk-in's phone number leads to. */
  datatype Account = Known(user: UserId, isCustomer: bool) | Fresh(user: UserId)

  /** The state in which an insert begun in s and overtaken by during is about to commit. */
  ghost function LockedState(s: State, q: Booking, dayOpen: Instant, dayClose: Instant, during: seq<Event>): State {
    Run(DEPLOYED, Apply(DEPLOYED, s, Begin(q, dayOpen, dayClose)), during)
  }

  /** The point's lock is free, others respect it once taken, and the new id is unused. */
  ghost predicate MayInsert(s: State, q: Booking, dayOpen: Instant, dayClose: Instant, id: BookingId, during: seq<Event>) {
    q.point !in s.open && LeavesLocked(during, q.point) && id !in LockedState(s, q, dayOpen, dayClose, during).rows
  }

  /** When the box check passes, the exclusion constraint still rejects the insert exactly
      when a row it clashes with was restored while the lock was held. */
  lemma ConstraintStopsRestores(s: State, q: Booking, dayOpen: Instant, dayClose: Instant, id: BookingId, during: seq<Event>)
    requires WellMarked(s) && Planned(q, dayOpen, dayClose) && RowCheck(q) && !q.isOverflow
    requires MayInsert(s, q, dayOpen, dayClose, id, during)
    requires BoxAvailable(q.box, q.start, q.end, BusyRows(s.rows, q.point, dayOpen, dayClose))
    ensures var begun := Apply(DEPLOYED, s, Begin(q, dayOpen, dayClose));
            var locked := LockedState(s, q, dayOpen, dayClose, during);
            && q.point in locked.open
            && (CommitError(DEPLOYED, locked, q.point, id) == Some(SlotUnavailable) <==>
                exists i, k :: RestoredBy(begun, during, k, i) && i in locked.rows && Clash(locked.rows[i], q))
  {
    var begun := Apply(DEPLOYED, s, Begin(q, dayOpen, dayClose));
    var locked := LockedState(s, q, dayOpen, dayClose, during);
    LockIsHeld(begun, during, q.point);
    StepKeepsMarks(DEPLOYED, s, Begin(q, dayOpen, dayClose));
    forall i | i in locked.rows && Clash(locked.rows[i], q) ensures exists k :: RestoredBy(begun, during, k, i) {
      if i in s.rows && Clash(s.rows[i], q) {
        BeginSeesClashes(s.rows, q, dayOpen, dayClose, i);
      }
      var k := UnseenClashWasRestored(begun, during, q.point, i, q);
    }
  }

  predicate StaffAccount(walkIn: Option<Account>) {
    walkIn.Some? && walkIn.value.Known? && !walkIn.value.isCustomer
  }

  predicate HasActive(rows: Table, user: UserId) {
    exists i :: i in rows && Active(rows[i]) && rows[i].user == user
  }

  /** Why the insert about to commit at point fails, if it does: the box first, then the
      walk-in's account and its active booking, then the table's constraints. */
  ghost function InsertFailure(s: State, point: PointId, id: BookingId, walkIn: Option<Account>): Option<Outcome>
    requires point in s.open
  {
    var q := s.open[point].q;
    if !q.isOverflow && !BoxAvailable(q.box, q.start, q.end, s.open[point].busy) then Some(Refused(SlotUnavailable))
    else if StaffAccount(walkIn) then Some(NotACustomer)
    else if walkIn.Some? && HasActive(s.rows, q.user) then Some(Refused(ActiveBookingExists))
    else match CommitError(DEPLOYED, s, point, id)
      case None => None
      case Some(e) => Some(Refused(e))
  }

  /** Takes the lock, re-reads the day, checks the box, runs the walk-in checks, inserts;
      during is what others do while the lock is held. */
  method InsertLocked(db: Database, q: Booking, dayOpen: Instant, dayClose: Instant, walkIn: Option<Account>, id: BookingId,
                      during: seq<Event>) returns (err: Option<Outcome>)
    requires db.Valid() && Planned(q, dayOpen, dayClose) && RowCheck(q)
    requires walkIn.Some? ==> walkIn.value.user == q.user
    requires MayInsert(db.Abs(), q, dayOpen, dayClose, id, during)
    modifies db
    ensures db.Valid()
    ensures var locked := LockedState(old(db.Abs()), q, dayOpen, dayClose, during);
            && q.point in locked.open
            && err == InsertFailure(locked, q.point, id, walkIn)
            && (err.None? <==> CommitError(DEPLOYED, locked, q.point, id).None? && !StaffAccount(walkIn))
            && db.Abs() == Apply(DEPLOYED, locked, if err.None? then Commit(q.point, id) else Rollback(q.point))
    ensures err.None? <==> id in db.rows
    ensures err.None? ==> db.rows[id] == q && Unrivalled(db.rows, id)
    ensures err.Some? ==> !err.value.Done? && !err.value.Invalid?
  {
    var busy := TakeLock(db, q, dayOpen, dayClose);
    ghost var begun := db.Abs();
    RunKeepsValid(begun, during);
    LockIsHeld(begun, during, q.point);
    db.Others(during);
    err := CommitOrRollBack(db, q, busy, walkIn, id);
  }

  /** Takes the lock of the booking's point and reads the day's busy rows. */
  method TakeLock(db: Database, q: Booking, dayOpen: Instant, dayClose: Instant) returns (busy: seq<Booking>)
    requires db.Valid() && Planned(q, dayOpen, dayClose) && q.point !in db.open
    modifies db
    ensures db.Valid() && db.Abs() == Apply(DEPLOYED, old(db.Abs()), Begin(q, dayOpen, dayClose))
    ensures q.point in db.open && db.open[q.point] == Tx(q, set b | b in busy)
  {
    StepKeepsConstraints(db.Abs(), Begin(q, dayOpen, dayClose));
    StepKeepsMarks(DEPLOYED, db.Abs(), Begin(q, dayOpen, dayClose));
    busy := db.FindActiveBookingsInRange(q.point, dayOpen, dayClose);
    var seen := set b | b in busy;
    assert seen == BusyRows(db.rows, q.point, dayOpen, dayClose);
    db.open := db.open[q.point := Tx(q, seen)];
  }

  /** Checks against what was read under the lock, runs the walk-in checks, inserts, unlocks. */
  method CommitOrRollBack(db: Database, q: Booking, busy: seq<Booking>, walkIn: Option<Account>, id: BookingId)
    returns (err: Option<Outcome>)
    requires db.Valid() && RowCheck(q) && id !in db.rows
    requires q.point in db.open && db.open[q.point] == Tx(q, set b | b in busy) && Active(q)
    modifies db
    ensures db.Valid()
    ensures err == InsertFailure(old(db.Abs()), q.point, id, walkIn)
    ensures err.None? <==> CommitError(DEPLOYED, old(db.Abs()), q.point, id).None? && !StaffAccount(walkIn)
    ensures db.Abs() == Apply(DEPLOYED, old(db.Abs()), if err.None? then Commit(q.point, id) else Rollback(q.point))
    ensures err.None? <==> id in db.rows
    ensures err.None? ==> db.rows[id] == q && Unrivalled(db.rows, id)
    ensures err.Some? ==> !err.value.Done? && !err.value.Invalid?
  {
    StepKeepsConstraints(db.Abs(), Commit(q.point, id));
    StepKeepsMarks(DEPLOYED, db.Abs(), Commit(q.point, id));
    err := None;
    if !q.isOverflow {
      var taken := VerifyBoxAvailable(q.box, q.start, q.end, busy);
      if taken.Some? {
        err := Some(Refused(taken.value));
      }
    }
    if err.None? && walkIn.Some? {
      if walkIn.value.Known? && !walkIn.value.isCustomer {
        err := Some(NotACustomer);
      } else {
        var active := db.HasActiveForUser(q.user);
        if active {
          err := Some(Refused(ActiveBookingExists));
        }
      }
    }
    if err.None? {
      var failed := db.Create(id, q);
      if failed.Some? {
        err := Some(Refused(failed.value));
      }
    }
    db.open := db.open - {q.point};
  }

  /** No other row clashes with row id, nor is another active one its user's. */
  ghost predicate Unrivalled(rows: Table, id: BookingId)
    requires id in rows
  {
    forall i :: i in rows && i != id ==>
      !Clash(rows[i], rows[id]) && (Active(rows[i]) && Active(rows[id]) ==> rows[i].user != rows[id].user)
  }

  lemma PlannedRow(cat: Catalog, user: UserId, r: Request, now: Instant)
    requires cat.Valid() && PlanFor(cat, r, now).Ok?
    ensures var plan := PlanFor(cat, r, now).value;
            Planned(BookingFor(user, r, plan), plan.dayOpen, plan.dayClose) && RowCheck(BookingFor(user, r, plan))
  {
    PlanMeaning(cat, r, now);
  }

  /** The request is refused as planning refuses it and changes nothing, or its insert goes
      through exactly when nothing in the state it commits in forbids it. */
  ghost predicate AsInserted(before: State, after: State, cat: Catalog, walkIn: Option<Account>, user: UserId, r: Request,
                             now: Instant, id: BookingId, env: seq<Event>, during: seq<Event>, outcome: Outcome)
  {
    match PlanFor(cat, r, now)
    case Err(fault) => outcome == Invalid(fault) && after == before
    case Ok(plan) =>
      var q := BookingFor(user, r, plan);
      var locked := LockedState(Run(DEPLOYED, before, env), q, plan.dayOpen, plan.dayClose, during);
      && q.point in locked.open
      && outcome == (match InsertFailure(locked, q.point, id, walkIn) case None => Done(q) case Some(failure) => failure)
      && after == Apply(DEPLOYED, locked, if outcome.Done? then Commit(q.point, id) else Rollback(q.point))
  }

  /** A customer books: env runs between the check for an active booking and the lock,
      during while the lock is held. */
  method CreateBooking(db: Database, bus: EventBus.Bus, cat: Catalog, user: UserId, ownsCar: bool, r: Request,
                       now: Instant, id: BookingId, env: seq<Event>, during: seq<Event>) returns (outcome: Outcome)
    requires db.Valid() && cat.Valid()
    requires r.requireFuture && !r.isOverflow && r.onlyPoint.None?
    requires PlanFor(cat, r, now).Ok? ==>
               var plan := PlanFor(cat, r, now).value;
               MayInsert(Run(DEPLOYED, db.Abs(), env), BookingFor(user, r, plan), plan.dayOpen, plan.dayClose, id, during)
    modifies db, bus
    ensures db.Valid()
    ensures bus.View() == if outcome.Done? then EventBus.Signaled(old(bus.View()), outcome.booking.point) else old(bus.View())
    ensures !ownsCar ==> outcome == NoSuchCar && db.Abs() == old(db.Abs())
    ensures ownsCar && HasActive(old(db.rows), user) ==> outcome == Refused(ActiveBookingExists) && db.Abs() == old(db.Abs())
    ensures ownsCar && !HasActive(old(db.rows), user) ==>
              AsInserted(old(db.Abs()), db.Abs(), cat, None, user, r, now, id, env, during, outcome)
    ensures outcome.Done? ==>
              && PlanFor(cat, r, now).Ok?
              && var plan := PlanFor(cat, r, now).value;
                 outcome.booking == Booking(InQueue, user, plan.point, r.box, false, r.start, plan.end, None, None)
    ensures outcome.Done? ==> id in db.rows && db.rows[id] == outcome.booking && Unrivalled(db.rows, id)
  {
    if !ownsCar {
      return NoSuchCar;
    }
    var active := db.HasActiveForUser(user);
    if active {
      return Refused(ActiveBookingExists);
    }
    var plan := PlanBooking(cat, r, now);
    if plan.Err? {
      return Invalid(plan.fault);
    }
    PlannedRow(cat, user, r, now);
    RunKeepsValid(db.Abs(), env);
    db.Others(env);
    var q := BookingFor(user, r, plan.value);
    var err := InsertLocked(db, q, plan.value.dayOpen, plan.value.dayClose, None, id, during);
    if err.Some? {
      return err.value;
    }
    bus.Publish(plan.value.point);
    outcome := Done(q);
  }

  /** Staff book a walk-in client, in a box or as overflow. */
  method CreateManualBooking(db: Database, bus: EventBus.Bus, cat: Catalog, client: Account, r: Request,
                             now: Instant, id: BookingId, env: seq<Event>, during: seq<Event>) returns (outcome: Outcome)
    requires db.Valid() && cat.Valid() && !r.requireFuture && r.onlyPoint.Some?
    requires PlanFor(cat, r, now).Ok? ==>
               var plan := PlanFor(cat, r, now).value;
               MayInsert(Run(DEPLOYED, db.Abs(), env), BookingFor(client.user, r, plan), plan.dayOpen, plan.dayClose,
                         id, during)
    modifies db, bus
    ensures db.Valid()
    ensures bus.View() == if outcome.Done? then EventBus.Signaled(old(bus.View()), outcome.booking.point) else old(bus.View())
    ensures AsInserted(old(db.Abs()), db.Abs(), cat, Some(client), client.user, r, now, id, env, during, outcome)
    ensures outcome.Done? ==>
              && PlanFor(cat, r, now).Ok? && (client.Known? ==> client.isCustomer)
              && var plan := PlanFor(cat, r, now).value;
                 outcome.booking == Booking(InQueue, client.user, plan.point, if r.isOverflow then 0 else r.box,
                                            r.isOverflow, r.start, plan.end, None, None)
    ensures outcome == NotACustomer ==> client.Known? && !client.isCustomer
    ensures outcome.Done? ==>
              && !StaffAccount(Some(client)) && outcome.booking.point == r.onlyPoint.value
              && id in db.rows && db.rows[id] == outcome.booking && Unrivalled(db.rows, id)
    ensures !outcome.Done? && !outcome.Invalid? ==> id !in db.rows
  {
    var plan := PlanBooking(cat, r, now);
    if plan.Err? {
      return Invalid(plan.fault);
    }
    PlannedRow(cat, client.user, r, now);
    PlanIsAtPoint(cat, r, now);
    RunKeepsValid(db.Abs(), env);
    db.Others(env);
    var q := BookingFor(client.user, r, plan.value);
    var err := InsertLocked(db, q, plan.value.dayOpen, plan.value.dayClose, Some(client), id, during);
    if err.Some? {
      return err.value;
    }
    bus.Publish(plan.value.point);
    outcome := Done(q);
  }

  lemma PlanIsAtPoint(cat: Catalog, r: Request, now: Instant)
    requires PlanFor(cat, r, now).Ok? && r.onlyPoint.Some?
    ensures PlanFor(cat, r, now).value.point == r.onlyPoint.value
  {
    NoFaultMeansBookable(cat, r.items, r.onlyPoint, 0);
    assert ItemFault(cat, r.items, r.onlyPoint, 0).None?;
  }
}
