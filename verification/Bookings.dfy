/** The booking table and every way it changes: the two-step insert under a washing
    point's row lock and the conditional single-row updates, in any interleaving. */
module Bookings {
  import opened Clock
  import opened Availability
  import opened Options

  type BookingId = int
  type UserId = int
  type PointId = nat

  datatype Status = InQueue | Waiting | Washing | Ready | Canceled | NoShow

  datatype Booking = Booking(status: Status, user: UserId, point: PointId, box: int, isOverflow: bool,
                             start: Instant, end: Instant, canceledAt: Option<Instant>, pausedAt: Option<Instant>)
  {
    function Range(): TimeRange {
      TimeRange(start, end)
    }
  }

  type Table = map<BookingId, Booking>

  // ----- the table's constraints -----

  /** Holds its box: the filter shared by the busy query and the exclusion constraint. */
  predicate Occupies(b: Booking) {
    b.status != Canceled && b.status != NoShow && !b.isOverflow
  }

  predicate Active(b: Booking) {
    b.status == InQueue || b.status == Waiting || b.status == Washing
  }

  predicate Clash(a: Booking, b: Booking) {
    Occupies(a) && Occupies(b) && a.point == b.point && a.box == b.box && Overlaps(a.Range(), b.Range())
  }

  ghost predicate NoDoubleBooking(rows: Table) {
    forall i, j :: i in rows && j in rows && i != j ==> !Clash(rows[i], rows[j])
  }

  ghost predicate OneActivePerUser(rows: Table) {
    forall i, j :: i in rows && j in rows && i != j && Active(rows[i]) && Active(rows[j]) ==> rows[i].user != rows[j].user
  }

  predicate RowCheck(b: Booking) {
    b.start < b.end && (if b.isOverflow then b.box == 0 else b.box > 0)
  }

  datatype Error = NotFound | SlotUnavailable | ActiveBookingExists | StatusChanged | Internal
                 | CannotCancel | CannotPause | CannotResume | InvalidTransition

  /** Which constraints the database enforces. Both, in the system as deployed. */
  datatype Guards = Guards(exclusion: bool, unique: bool)

  const DEPLOYED: Guards := Guards(true, true)
  const NO_EXCLUSION: Guards := Guards(false, true)

  /** The error of writing b as row id, if some enforced constraint forbids it. */
  function WriteError(g: Guards, rows: Table, id: BookingId, b: Booking): Option<Error> {
    if !RowCheck(b) then Some(Internal)
    else if g.exclusion && exists j :: j in rows && j != id && Clash(rows[j], b) then Some(SlotUnavailable)
    else if g.unique && Active(b) && exists j :: j in rows && j != id && Active(rows[j]) && rows[j].user == b.user
    then Some(ActiveBookingExists)
    else None
  }

  // ----- the booking lock and the status machine -----

  /** An insert between its lock-and-read and its commit. */
  datatype Tx = Tx(q: Booking, busy: set<Booking>)

  datatype State = State(rows: Table, open: map<PointId, Tx>)

  const EMPTY: State := State(map[], map[])

  /** The rows FindActiveBookingsInRange returns. */
  function BusyRows(rows: Table, point: PointId, rangeStart: Instant, rangeEnd: Instant): set<Booking> {
    set i | i in rows && rows[i].point == point && Occupies(rows[i])
            && rows[i].start < rangeEnd && rangeStart < rows[i].end :: rows[i]
  }

  predicate BoxAvailable(box: int, start: Instant, end: Instant, busy: set<Booking>) {
    forall b :: b in busy ==> !(b.box == box && b.start < end && start < b.end)
  }

  /** The steps forward a member of staff may take, and the two restores. */
  predicate StaffTransition(from: Status, to: Status) {
    match from
    case InQueue => to == Waiting || to == NoShow
    case Waiting => to == Washing || to == NoShow
    case Washing => to == Ready
    case NoShow => to == InQueue
    case Canceled => to == InQueue
    case Ready => false
  }

  predicate Cancelable(from: Status) {
    from == InQueue || from == Waiting
  }

  predicate Edge(from: Status, to: Status) {
    StaffTransition(from, to) || (Cancelable(from) && to == Canceled)
  }

  datatype Event =
    | /** takes the lock of q's point and re-reads the day's busy rows */
      Begin(q: Booking, dayOpen: Instant, dayClose: Instant)
    | /** checks the box against that reading, inserts, commits, releases the lock */
      Commit(point: PointId, id: BookingId)
    | /** abandons the insert and releases the lock */
      Rollback(point: PointId)
    | /** a status write by a request that read status from, some time ago */
      SetStatus(id: BookingId, from: Status, to: Status, now: Instant)
    | /** a pause or resume by a request that read status washing, some time ago */
      SetPaused(id: BookingId, pausedAt: Option<Instant>)

  /** What planBooking guarantees of a booking it hands to the insert. */
  predicate Planned(q: Booking, dayOpen: Instant, dayClose: Instant) {
    q.status == InQueue && q.canceledAt.None? && q.pausedAt.None? && dayOpen <= q.start && q.end <= dayClose
  }

  function StatusWritten(b: Booking, to: Status, now: Instant): Booking {
    if to == Canceled then b.(status := to, canceledAt := Some(now))
    else if to == InQueue then b.(status := to, canceledAt := None)
    else b.(status := to)
  }

  function CommitError(g: Guards, s: State, point: PointId, id: BookingId): Option<Error>
    requires point in s.open
  {
    var q := s.open[point].q;
    if !q.isOverflow && !BoxAvailable(q.box, q.start, q.end, s.open[point].busy) then Some(SlotUnavailable)
    else if id in s.rows then Some(Internal)
    else WriteError(g, s.rows, id, q)
  }

  function StatusError(g: Guards, s: State, id: BookingId, from: Status, to: Status, now: Instant): Option<Error> {
    if id !in s.rows || s.rows[id].status != from then Some(StatusChanged)
    else WriteError(g, s.rows, id, StatusWritten(s.rows[id], to, now))
  }

  /** One step. A step that cannot happen now leaves the state as it is. */
  function Apply(g: Guards, s: State, e: Event): State {
    match e
    case Begin(q, dayOpen, dayClose) =>
      if q.point in s.open || !Planned(q, dayOpen, dayClose) then s
      else s.(open := s.open[q.point := Tx(q, BusyRows(s.rows, q.point, dayOpen, dayClose))])
    case Commit(point, id) =>
      if point !in s.open then s
      else State(if CommitError(g, s, point, id).None? then s.rows[id := s.open[point].q] else s.rows, s.open - {point})
    case Rollback(point) =>
      s.(open := s.open - {point})
    case SetStatus(id, from, to, now) =>
      if !Edge(from, to) || StatusError(g, s, id, from, to, now).Some? then s
      else s.(rows := s.rows[id := StatusWritten(s.rows[id], to, now)])
    case SetPaused(id, pausedAt) =>
      if id !in s.rows || s.rows[id].status != Washing then s
      else s.(rows := s.rows[id := s.rows[id].(pausedAt := pausedAt)])
  }

  function Run(g: Guards, s: State, events: seq<Event>): State {
    if events == [] then s
    else Apply(g, Run(g, s, events[..|events| - 1]), events[|events| - 1])
  }

  predicate IsRestore(e: Event) {
    e.SetStatus? && e.to == InQueue
  }

  // ----- the staff's table, independently -----

  /** How far a wash has come, unless it was called off. */
  function Stage(s: Status): Option<nat> {
    match s
    case InQueue => Some(0)
    case Waiting => Some(1)
    case Washing => Some(2)
    case Ready => Some(3)
    case Canceled => None
    case NoShow => None
  }

  /** Staff move a booking to the next stage, write off one that has not begun, or restore one
      that was written off or canceled. */
  predicate StaffMayMove(from: Status, to: Status) {
    || (Stage(from).Some? && Stage(to) == Some(Stage(from).value + 1))
    || (to == NoShow && (from == InQueue || from == Waiting))
    || (to == InQueue && (from == NoShow || from == Canceled))
  }

  lemma StaffTransitionExactly(from: Status, to: Status)
    ensures StaffTransition(from, to) <==> StaffMayMove(from, to)
  {
  }

  // ----- what every step keeps -----

  ghost predicate Marks(b: Booking) {
    && RowCheck(b)
    && (b.canceledAt.Some? <==> b.status == Canceled)
    && (b.pausedAt.Some? ==> b.status == Washing || b.status == Ready)
  }

  /** Row marks, plus: a booking waiting to be inserted is one that was planned. */
  ghost predicate WellMarked(s: State) {
    && (forall i :: i in s.rows ==> Marks(s.rows[i]))
    && (forall p :: p in s.open ==> s.open[p].q.point == p && Planned(s.open[p].q, s.open[p].q.start, s.open[p].q.end))
  }

  lemma StepKeepsMarks(g: Guards, s: State, e: Event)
    requires WellMarked(s)
    ensures WellMarked(Apply(g, s, e))
  {
  }

  /** The row was not touched, or its status moved along an edge of the machine from
      the status it actually had; identity, box and time never change. */
  ghost predicate Evolved(b: Booking, b': Booking) {
    && (b.user, b.point, b.box, b.isOverflow, b.start, b.end) == (b'.user, b'.point, b'.box, b'.isOverflow, b'.start, b'.end)
    && (b'.status == b.status || Edge(b.status, b'.status))
  }

  lemma StepMovesAlongEdges(g: Guards, s: State, e: Event)
    requires WellMarked(s)
    ensures s.rows.Keys <= Apply(g, s, e).rows.Keys
    ensures forall i :: i in s.rows ==> Evolved(s.rows[i], Apply(g, s, e).rows[i])
    ensures forall i :: i in Apply(g, s, e).rows && i !in s.rows ==> Apply(g, s, e).rows[i].status == InQueue
    ensures forall i :: i in s.rows && s.rows[i].pausedAt != Apply(g, s, e).rows[i].pausedAt ==> s.rows[i].status == Washing
  {
  }

  ghost predicate Constrained(s: State) {
    NoDoubleBooking(s.rows) && OneActivePerUser(s.rows)
  }

  /** What the checked write of one row leaves. */
  lemma WriteKeepsConstraints(rows: Table, id: BookingId, b: Booking)
    requires NoDoubleBooking(rows) && OneActivePerUser(rows) && WriteError(DEPLOYED, rows, id, b).None?
    ensures NoDoubleBooking(rows[id := b]) && OneActivePerUser(rows[id := b])
  {
  }

  /** A status write that is no restore claims nothing its row did not hold already. */
  lemma OnlyRestoresClaim(s: State, id: BookingId, from: Status, to: Status, now: Instant)
    requires Constrained(s) && WellMarked(s) && Edge(from, to) && to != InQueue
    requires id in s.rows && s.rows[id].status == from
    ensures StatusError(DEPLOYED, s, id, from, to, now).None?
  {
    var b := StatusWritten(s.rows[id], to, now);
    assert Occupies(b) ==> Occupies(s.rows[id]);
    assert Active(b) ==> Active(s.rows[id]);
  }

  lemma PauseKeepsConstraints(rows: Table, id: BookingId, pausedAt: Option<Instant>)
    requires NoDoubleBooking(rows) && OneActivePerUser(rows) && id in rows
    ensures NoDoubleBooking(rows[id := rows[id].(pausedAt := pausedAt)])
    ensures OneActivePerUser(rows[id := rows[id].(pausedAt := pausedAt)])
  {
    var b := rows[id].(pausedAt := pausedAt);
    assert forall x :: (Clash(x, b) <==> Clash(x, rows[id])) && (Clash(b, x) <==> Clash(rows[id], x));
  }

  /** Both constraints hold forever, and only an insert or a restore can meet them:
      every other status write that finds its row unchanged goes through. */
  lemma StepKeepsConstraints(s: State, e: Event)
    requires Constrained(s) && WellMarked(s)
    ensures Constrained(Apply(DEPLOYED, s, e))
    ensures e.SetStatus? && Edge(e.from, e.to) && !IsRestore(e) && e.id in s.rows && s.rows[e.id].status == e.from
            ==> StatusError(DEPLOYED, s, e.id, e.from, e.to, e.now).None?
  {
    match e
    case Begin(_, _, _) =>
    case Rollback(_) =>
    case Commit(point, id) =>
      if point in s.open && CommitError(DEPLOYED, s, point, id).None? {
        WriteKeepsConstraints(s.rows, id, s.open[point].q);
      }
    case SetStatus(id, from, to, now) =>
      if id in s.rows && s.rows[id].status == from && Edge(from, to) {
        if to != InQueue {
          OnlyRestoresClaim(s, id, from, to, now);
        }
        if StatusError(DEPLOYED, s, id, from, to, now).None? {
          WriteKeepsConstraints(s.rows, id, StatusWritten(s.rows[id], to, now));
        }
      }
    case SetPaused(id, pausedAt) =>
      if id in s.rows && s.rows[id].status == Washing {
        PauseKeepsConstraints(s.rows, id, pausedAt);
      }
  }

  lemma {:induction false} ReachableIsConstrained(events: seq<Event>)
    ensures Constrained(Run(DEPLOYED, EMPTY, events)) && WellMarked(Run(DEPLOYED, EMPTY, events))
  {
    if events != [] {
      var init, e := events[..|events| - 1], events[|events| - 1];
      ReachableIsConstrained(init);
      StepKeepsConstraints(Run(DEPLOYED, EMPTY, init), e);
      StepKeepsMarks(DEPLOYED, Run(DEPLOYED, EMPTY, init), e);
    }
  }

  /** Every stored booking ends after it starts and sits in a box with a positive number, or in box
      0 as overflow; it has a cancellation time exactly while canceled. */
  lemma ReachableRowsFit(events: seq<Event>, i: BookingId)
    requires i in Run(DEPLOYED, EMPTY, events).rows
    ensures var b := Run(DEPLOYED, EMPTY, events).rows[i];
            && b.start < b.end && b.box >= 0 && (b.isOverflow <==> b.box == 0)
            && (b.canceledAt.Some? <==> b.status == Canceled)
  {
    ReachableIsConstrained(events);
  }

  lemma {:induction false} RunKeepsMarks(g: Guards, s: State, events: seq<Event>)
    requires WellMarked(s)
    ensures WellMarked(Run(g, s, events))
  {
    if events != [] {
      RunKeepsMarks(g, s, events[..|events| - 1]);
      StepKeepsMarks(g, Run(g, s, events[..|events| - 1]), events[|events| - 1]);
    }
  }

  /** Over any further run: rows stay, keep their box and time, and end in a status
      their own leads to. A ready booking stays ready; a washing one can only have
      become ready. */
  lemma {:induction false} RunKeepsProgress(g: Guards, s: State, events: seq<Event>, id: BookingId)
    requires WellMarked(s) && id in s.rows
    ensures id in Run(g, s, events).rows
    ensures Run(g, s, events).rows[id].Range() == s.rows[id].Range() && Run(g, s, events).rows[id].box == s.rows[id].box
    ensures s.rows[id].status == Ready ==> Run(g, s, events).rows[id].status == Ready
    ensures s.rows[id].status == Washing ==> Run(g, s, events).rows[id].status in {Washing, Ready}
  {
    if events != [] {
      var init, e := events[..|events| - 1], events[|events| - 1];
      RunKeepsProgress(g, s, init, id);
      RunKeepsMarks(g, s, init);
      StepMovesAlongEdges(g, Run(g, s, init), e);
    }
  }

  // ----- the lock alone -----

  /** The snapshot of every open insert shows each row its booking would clash with. */
  ghost predicate SnapshotsSuffice(s: State) {
    forall p, i :: p in s.open && i in s.rows && Clash(s.rows[i], s.open[p].q) ==>
      !BoxAvailable(s.open[p].q.box, s.open[p].q.start, s.open[p].q.end, s.open[p].busy)
  }

  ghost predicate LockInv(s: State) {
    WellMarked(s) && Constrained(s) && SnapshotsSuffice(s)
  }

  lemma BeginSeesClashes(rows: Table, q: Booking, dayOpen: Instant, dayClose: Instant, i: BookingId)
    requires Planned(q, dayOpen, dayClose) && i in rows && Clash(rows[i], q)
    ensures !BoxAvailable(q.box, q.start, q.end, BusyRows(rows, q.point, dayOpen, dayClose))
  {
    assert rows[i] in BusyRows(rows, q.point, dayOpen, dayClose);
  }

  /** Without a restore, what the re-read under the lock finds free stays free until
      the insert commits, so the exclusion constraint has nothing to reject. */
  lemma LockSufficesStep(s: State, e: Event)
    requires LockInv(s) && !IsRestore(e)
    ensures Apply(NO_EXCLUSION, s, e) == Apply(DEPLOYED, s, e)
    ensures LockInv(Apply(NO_EXCLUSION, s, e))
  {
    var s' := Apply(NO_EXCLUSION, s, e);
    StepKeepsMarks(NO_EXCLUSION, s, e);
    StepKeepsConstraints(s, e);
    match e {
      case Begin(q, dayOpen, dayClose) =>
        if s' != s {
          forall i | i in s.rows && Clash(s.rows[i], q)
            ensures !BoxAvailable(q.box, q.start, q.end, s'.open[q.point].busy)
          {
            BeginSeesClashes(s.rows, q, dayOpen, dayClose, i);
          }
        }
      case Commit(_, _) =>
      case Rollback(_) =>
      case SetStatus(_, _, _, _) =>
      case SetPaused(_, _) =>
    }
  }

  /** In runs without restores the deployed system and one without the exclusion
      constraint go through the same states, none of which double-books a box. */
  lemma {:induction false} LockSuffices(events: seq<Event>)
    requires forall e :: e in events ==> !IsRestore(e)
    ensures Run(NO_EXCLUSION, EMPTY, events) == Run(DEPLOYED, EMPTY, events)
    ensures LockInv(Run(NO_EXCLUSION, EMPTY, events))
  {
    if events != [] {
      LockSuffices(events[..|events| - 1]);
      LockSufficesStep(Run(NO_EXCLUSION, EMPTY, events[..|events| - 1]), events[|events| - 1]);
    }
  }

  // ----- why restores need the constraint -----

  function Sample(user: UserId): Booking {
    Booking(InQueue, user, 1, 1, false, 0, 10, None, None)
  }

  /** A restore slips between the second insert's reading and its commit. */
  const RESTORE_RACE: seq<Event> := [
    Begin(Sample(1), 0, 10), Commit(1, 1), SetStatus(1, InQueue, Canceled, 5),
    Begin(Sample(2), 0, 10), SetStatus(1, Canceled, InQueue, 6), Commit(1, 2)]

  lemma RunSnoc(g: Guards, s: State, es: seq<Event>, e: Event)
    ensures Run(g, s, es + [e]) == Apply(g, Run(g, s, es), e)
  {
    assert (es + [e])[..|es|] == es;
  }

  lemma RaceBooksAndCancels(g: Guards)
    ensures Run(g, EMPTY, RESTORE_RACE[..3]) ==
            State(map[1 := Sample(1).(status := Canceled, canceledAt := Some(5))], map[])
  {
    var es := RESTORE_RACE;
    assert es[..1] == [] + [es[0]] && es[..2] == es[..1] + [es[1]] && es[..3] == es[..2] + [es[2]];
    RunSnoc(g, EMPTY, [], es[0]);
    assert BusyRows(map[], 1, 0, 10) == {};
    assert Run(g, EMPTY, es[..1]) == State(map[], map[1 := Tx(Sample(1), {})]);
    RunSnoc(g, EMPTY, es[..1], es[1]);
    assert Run(g, EMPTY, es[..2]) == State(map[1 := Sample(1)], map[]);
    RunSnoc(g, EMPTY, es[..2], es[2]);
  }

  lemma RaceReadsThenRestores(g: Guards)
    ensures Run(g, EMPTY, RESTORE_RACE[..5]) == State(map[1 := Sample(1)], map[1 := Tx(Sample(2), {})])
  {
    var es := RESTORE_RACE;
    var row := Sample(1).(status := Canceled, canceledAt := Some(5));
    assert es[..4] == es[..3] + [es[3]] && es[..5] == es[..4] + [es[4]];
    RaceBooksAndCancels(g);
    RunSnoc(g, EMPTY, es[..3], es[3]);
    assert BusyRows(map[1 := row], 1, 0, 10) == {};
    assert Run(g, EMPTY, es[..4]) == State(map[1 := row], map[1 := Tx(Sample(2), {})]);
    RunSnoc(g, EMPTY, es[..4], es[4]);
    assert map[1 := row][1 := Sample(1)] == map[1 := Sample(1)];
  }

  /** With a restore in the run the lock is not enough: the box is booked twice unless
      the exclusion constraint stops the second insert. */
  lemma RestoreDefeatsLock()
    ensures !NoDoubleBooking(Run(NO_EXCLUSION, EMPTY, RESTORE_RACE).rows)
    ensures Run(DEPLOYED, EMPTY, RESTORE_RACE).rows == map[1 := Sample(1)]
  {
    assert Clash(Sample(1), Sample(2));
    assert RESTORE_RACE == RESTORE_RACE[..5] + [RESTORE_RACE[5]];
    RaceReadsThenRestores(DEPLOYED);
    RunSnoc(DEPLOYED, EMPTY, RESTORE_RACE[..5], RESTORE_RACE[5]);
    RaceReadsThenRestores(NO_EXCLUSION);
    RunSnoc(NO_EXCLUSION, EMPTY, RESTORE_RACE[..5], RESTORE_RACE[5]);
    var rows := Run(NO_EXCLUSION, EMPTY, RESTORE_RACE).rows;
    assert rows == map[1 := Sample(1)][2 := Sample(2)];
    assert 1 in rows && 2 in rows && Clash(rows[1], rows[2]);
  }

  // ----- finishing while paused -----

  lemma {:induction false} ReadyIsFrozen(g: Guards, s: State, events: seq<Event>, id: BookingId)
    requires id in s.rows && s.rows[id].status == Ready
    ensures id in Run(g, s, events).rows && Run(g, s, events).rows[id] == s.rows[id]
  {
    if events != [] {
      ReadyIsFrozen(g, s, events[..|events| - 1], id);
    }
  }

  /** Finishing a washing booking goes through and leaves its pause mark for good: whatever
      follows, the ready booking is paused exactly when it was finished while paused. */
  lemma FinishKeepsPause(s: State, id: BookingId, now: Instant, events: seq<Event>)
    requires Constrained(s) && WellMarked(s) && id in s.rows && s.rows[id].status == Washing
    ensures var t := Run(DEPLOYED, Apply(DEPLOYED, s, SetStatus(id, Washing, Ready, now)), events);
            id in t.rows && t.rows[id] == s.rows[id].(status := Ready)
  {
    StepKeepsConstraints(s, SetStatus(id, Washing, Ready, now));
    ReadyIsFrozen(DEPLOYED, Apply(DEPLOYED, s, SetStatus(id, Washing, Ready, now)), events, id);
  }

  /** Booked and waiting. */
  lemma SampleWaits() returns (events: seq<Event>)
    ensures Run(DEPLOYED, EMPTY, events) == State(map[1 := Sample(1).(status := Waiting)], map[])
  {
    events := [Begin(Sample(1), 0, 10)];
    RunSnoc(DEPLOYED, EMPTY, [], events[0]);
    assert BusyRows(map[], 1, 0, 10) == {};
    assert [] + [events[0]] == events;
    events := Extended(events, Commit(1, 1), State(map[1 := Sample(1)], map[]));
    events := Extended(events, SetStatus(1, InQueue, Waiting, 1), State(map[1 := Sample(1).(status := Waiting)], map[]));
  }

  /** So a paused ready booking is reachable. */
  lemma PausedReady() returns (events: seq<Event>)
    ensures Run(DEPLOYED, EMPTY, events).rows == map[1 := Sample(1).(status := Ready, pausedAt := Some(3))]
  {
    events := SampleWaits();
    var b := Sample(1).(status := Washing);
    events := Extended(events, SetStatus(1, Waiting, Washing, 2), State(map[1 := b], map[]));
    b := b.(pausedAt := Some(3));
    events := Extended(events, SetPaused(1, Some(3)), State(map[1 := b], map[]));
    b := b.(status := Ready);
    events := Extended(events, SetStatus(1, Washing, Ready, 4), State(map[1 := b], map[]));
  }

  lemma Extended(events: seq<Event>, e: Event, after: State) returns (longer: seq<Event>)
    requires Apply(DEPLOYED, Run(DEPLOYED, EMPTY, events), e) == after
    ensures Run(DEPLOYED, EMPTY, longer) == after
  {
    longer := events + [e];
    RunSnoc(DEPLOYED, EMPTY, events, e);
  }

  // ----- an undisturbed insert, independently -----

  /** With nothing in between, a planned booking is inserted under a new id exactly when no stored
      booking of its point and box that is neither canceled nor a no-show nor overflow reaches
      into its time (overflow itself never clashes), and its user has none in queue, waiting or
      washing. */
  lemma InsertSucceedsExactly(s: State, q: Booking, dayOpen: Instant, dayClose: Instant, id: BookingId)
    requires q.point !in s.open && Planned(q, dayOpen, dayClose) && RowCheck(q) && id !in s.rows
    ensures var t := Apply(DEPLOYED, Apply(DEPLOYED, s, Begin(q, dayOpen, dayClose)), Commit(q.point, id));
            t.rows == s.rows[id := q] <==>
            forall i :: i in s.rows ==>
              && (q.isOverflow || s.rows[i].isOverflow || s.rows[i].status == Canceled || s.rows[i].status == NoShow
                  || s.rows[i].point != q.point || s.rows[i].box != q.box
                  || s.rows[i].end <= q.start || q.end <= s.rows[i].start)
              && (s.rows[i].user == q.user ==> s.rows[i].status in {Ready, Canceled, NoShow})
  {
    var locked := Apply(DEPLOYED, s, Begin(q, dayOpen, dayClose));
    assert locked.open[q.point] == Tx(q, BusyRows(s.rows, q.point, dayOpen, dayClose));
    assert id in s.rows[id := q];
    forall i | i in s.rows && Clash(s.rows[i], q)
      ensures !BoxAvailable(q.box, q.start, q.end, locked.open[q.point].busy)
    {
      BeginSeesClashes(s.rows, q, dayOpen, dayClose, i);
    }
  }
}
