/** Booking-stage notifications: which stage is due when, and sending each at most once. */
module Notifications {
  import opened Bookings
  import opened Clock
  import opened Iteration
  import opened Options
  import opened Sorting

  datatype Kind = Reminder | Late | Started | Finished

  type Token = nat

  /** What the push provider answers for a token. */
  datatype Answer = Delivered | Unregistered | Failed

  datatype Delivery = Pending | Sent | NotSent

  datatype QueueRow = QueueRow(id: BookingId, status: Status, user: UserId, start: Instant, created: Instant, isOverflow: bool)

  type Key = (BookingId, Kind)

  datatype Push = Push(booking: BookingId, kind: Kind, token: Token)

  function KindForStatus(s: Status): Option<Kind> {
    match s
    case Washing => Some(Started)
    case Ready => Some(Finished)
    case _ => None
  }

  // ----- due windows -----

  predicate TimeBased(kind: Kind) {
    kind == Reminder || kind == Late
  }

  function From(kind: Kind): Duration {
    if kind.Reminder? then -HOUR else 5 * MINUTE
  }

  function Until(kind: Kind): Duration {
    if kind.Reminder? then 0 else 2 * HOUR
  }

  predicate InWindow(kind: Kind, start: Instant, now: Instant) {
    start + From(kind) <= now < start + Until(kind)
  }

  /** Unstarted, in the window, and, for a reminder, made before the window opened. */
  predicate Timely(kind: Kind, row: QueueRow, now: Instant) {
    && (row.status == InQueue || row.status == Waiting)
    && InWindow(kind, row.start, now)
    && (kind.Reminder? ==> row.created <= row.start + From(kind))
  }

  function TokensOf(devices: map<Token, UserId>, user: UserId): set<Token> {
    set t | t in devices && devices[t] == user
  }

  predicate Due(kind: Kind, row: QueueRow, now: Instant, devices: map<Token, UserId>, recorded: set<Key>) {
    Timely(kind, row, now) && TokensOf(devices, row.user) != {} && (row.id, kind) !in recorded
  }

  /** No booking is due for both time-based stages at one instant. */
  lemma NeverBothDue(row: QueueRow, now: Instant)
    ensures !(Timely(Reminder, row, now) && Timely(Late, row, now))
  {
    assert Until(Reminder) <= From(Late);
  }

  function ByStart(): (QueueRow, QueueRow) -> bool {
    (a: QueueRow, b: QueueRow) => a.start <= b.start
  }

  function DueRows(kind: Kind, now: Instant, rows: seq<QueueRow>,
                   devices: map<Token, UserId>, recorded: set<Key>): (r: seq<QueueRow>)
    ensures forall x :: x in r <==> x in rows && Due(kind, x, now, devices, recorded)
  {
    if rows == [] then []
    else
      var n := |rows| - 1;
      assert rows == rows[..n] + [rows[n]];
      DueRows(kind, now, rows[..n], devices, recorded) +
      (if Due(kind, rows[n], now, devices, recorded) then [rows[n]] else [])
  }

  /** The rows to notify, by scheduled start. */
  function FindDue(kind: Kind, now: Instant, rows: seq<QueueRow>,
                   devices: map<Token, UserId>, recorded: set<Key>): (r: seq<QueueRow>)
    ensures forall i, j :: 0 <= i < j < |r| ==> r[i].start <= r[j].start
    ensures forall x :: x in r <==> x in rows && Due(kind, x, now, devices, recorded)
  {
    var due := DueRows(kind, now, rows, devices, recorded);
    assert TotalPreorder(ByStart());
    var r := SortBy(ByStart(), due);
    SameMembers(r, due);
    r
  }

  lemma {:induction false} DueRowsKeepCounts(kind: Kind, now: Instant, rows: seq<QueueRow>, devices: map<Token, UserId>,
                                             recorded: set<Key>, x: QueueRow)
    ensures multiset(DueRows(kind, now, rows, devices, recorded))[x] ==
            if Due(kind, x, now, devices, recorded) then multiset(rows)[x] else 0
  {
    if rows != [] {
      var n := |rows| - 1;
      assert rows == rows[..n] + [rows[n]];
      DueRowsKeepCounts(kind, now, rows[..n], devices, recorded, x);
    }
  }

  /** Each due row is selected as often as it is stored, and no other row is. */
  lemma FindDueIsExact(kind: Kind, now: Instant, rows: seq<QueueRow>, devices: map<Token, UserId>, recorded: set<Key>,
                       x: QueueRow)
    ensures multiset(FindDue(kind, now, rows, devices, recorded))[x] ==
            if Due(kind, x, now, devices, recorded) then multiset(rows)[x] else 0
  {
    DueRowsKeepCounts(kind, now, rows, devices, recorded, x);
    assert TotalPreorder(ByStart());
  }

  /** A late nudge is due from five minutes to two hours after the start, while the booking has
      not begun, for an owner with a device, and only if it is not recorded yet. */
  lemma LateExactly(row: QueueRow, now: Instant, rows: seq<QueueRow>, devices: map<Token, UserId>, recorded: set<Key>)
    requires row in rows
    ensures row in FindDue(Late, now, rows, devices, recorded) <==>
            && row.status in {InQueue, Waiting}
            && row.start + 5 * MINUTE <= now < row.start + 120 * MINUTE
            && (exists t :: t in devices && devices[t] == row.user) && (row.id, Late) !in recorded
  {
    HasToken(devices, row.user);
  }

  /** A reminder is due in the hour before the start, if the booking was made before that hour. */
  lemma ReminderExactly(row: QueueRow, now: Instant, rows: seq<QueueRow>, devices: map<Token, UserId>,
                        recorded: set<Key>)
    requires row in rows
    ensures row in FindDue(Reminder, now, rows, devices, recorded) <==>
            && row.status in {InQueue, Waiting}
            && row.start - 60 * MINUTE <= now < row.start && row.created <= row.start - 60 * MINUTE
            && (exists t :: t in devices && devices[t] == row.user) && (row.id, Reminder) !in recorded
  {
    HasToken(devices, row.user);
  }

  lemma HasToken(devices: map<Token, UserId>, user: UserId)
    ensures TokensOf(devices, user) != {} <==> exists t :: t in devices && devices[t] == user
  {
    forall t | t in devices && devices[t] == user ensures TokensOf(devices, user) != {} {
      assert t in TokensOf(devices, user);
    }
    if forall t :: t in devices ==> devices[t] != user {
      assert TokensOf(devices, user) == {};
    }
  }

  /** Washing begins the started stage, readiness the finished one; nothing else has a stage, and
      neither is a time-based kind. */
  lemma StageOfStatus(s: Status)
    ensures KindForStatus(s) == Some(Started) <==> s == Washing
    ensures KindForStatus(s) == Some(Finished) <==> s == Ready
    ensures KindForStatus(s).Some? ==> KindForStatus(s).value in {Started, Finished}
  {
  }

  // ----- the stored state and the sending loop -----

  /** The devices, the recorded stages and the pushes so far. */
  datatype Snapshot = Snapshot(devices: map<Token, UserId>, recorded: set<Key>, sent: seq<Push>)

  class Store {
    var rows: seq<QueueRow>
    var devices: map<Token, UserId>
    var records: map<Key, Delivery>
    var sent: seq<Push>

    constructor (rows: seq<QueueRow>, devices: map<Token, UserId>)
      ensures this.rows == rows && this.devices == devices && records == map[] && sent == []
    {
      this.rows, this.devices, records, sent := rows, devices, map[], [];
    }

    ghost function Now(): Snapshot
      reads this
    {
      Snapshot(devices, records.Keys, sent)
    }

    /** Creates the record unless there is one. */
    method CreateOnce(key: Key) returns (created: bool)
      modifies this`records
      ensures created == (key !in old(records))
      ensures records == if created then old(records)[key := Pending] else old(records)
    {
      created := key !in records;
      if created {
        records := records[key := Pending];
      }
    }

    method ListByUser(user: UserId) returns (tokens: seq<Token>)
      ensures forall t :: t in tokens <==> t in TokensOf(devices, user)
      ensures forall i, j :: 0 <= i < j < |tokens| ==> tokens[i] != tokens[j]
    {
      tokens := [];
      var rest := TokensOf(devices, user);
      while rest != {}
        invariant rest <= TokensOf(devices, user)
        invariant forall t :: t in tokens <==> t in TokensOf(devices, user) - rest
        invariant forall i, j :: 0 <= i < j < |tokens| ==> tokens[i] != tokens[j]
        decreases |rest|
      {
        var t := Pick(rest);
        assert TokensOf(devices, user) - (rest - {t}) == TokensOf(devices, user) - rest + {t};
        assert forall u :: u in tokens + [t] <==> u in tokens || u == t;
        tokens := tokens + [t];
        rest := rest - {t};
      }
    }

    /** Pushes to each token in turn; drops the ones the provider reports dead. */
    method SendAll(q: QueueRow, kind: Kind, tokens: seq<Token>, ghost all: set<Token>, answer: Token -> Answer)
      returns (delivered: bool, errs: nat)
      requires forall t :: t in tokens <==> t in all
      requires forall i, j :: 0 <= i < j < |tokens| ==> tokens[i] != tokens[j]
      modifies this`devices, this`sent
      ensures delivered <==> exists t :: t in all && answer(t) == Delivered
      ensures errs > 0 <==> exists t :: t in all && answer(t) == Failed
      ensures PushesTo(old(sent), sent, q.id, kind, all)
      ensures forall t :: t in devices <==> t in old(devices) && !(t in all && answer(t) == Unregistered)
      ensures forall t :: t in devices ==> devices[t] == old(devices)[t]
    {
      delivered, errs := false, 0;
      for i := 0 to |tokens|
        invariant delivered <==> exists t :: t in tokens[..i] && answer(t) == Delivered
        invariant errs > 0 <==> exists t :: t in tokens[..i] && answer(t) == Failed
        invariant sent == old(sent) + seq(i, k requires 0 <= k < i => Push(q.id, kind, tokens[k]))
        invariant forall t :: t in devices <==> t in old(devices) && !(t in tokens[..i] && answer(t) == Unregistered)
        invariant forall t :: t in devices ==> devices[t] == old(devices)[t]
      {
        assert tokens[..i + 1] == tokens[..i] + [tokens[i]];
        sent := sent + [Push(q.id, kind, tokens[i])];
        match answer(tokens[i])
        case Delivered => delivered := true;
        case Unregistered => devices := devices - {tokens[i]};
        case Failed => errs := errs + 1;
      }
      assert tokens[..|tokens|] == tokens;
      InTurn(old(sent), sent, q.id, kind, tokens, all);
    }

    /** Notifies the owner of a booking of one stage. Overflow bookings, owners without a
        device and recorded stages change nothing; otherwise every token of the owner is
        pushed to exactly once and the stage is recorded with the outcome. */
    method NotifyStage(q: QueueRow, kind: Kind, answer: Token -> Answer) returns (errs: nat)
      modifies this`devices, this`records, this`sent
      ensures var tokens := TokensOf(old(devices), q.user);
              if q.isOverflow || tokens == {} || (q.id, kind) in old(records)
              then devices == old(devices) && records == old(records) && sent == old(sent) && errs == 0
              else
                && records == old(records)[(q.id, kind) :=
                                if exists t :: t in tokens && answer(t) == Delivered then Sent else NotSent]
                && (forall t :: t in devices <==> t in old(devices) && !(t in tokens && answer(t) == Unregistered))
                && PushesTo(old(sent), sent, q.id, kind, tokens)
                && (errs > 0 <==> exists t :: t in tokens && answer(t) == Failed)
      ensures forall t :: t in devices ==> t in old(devices) && devices[t] == old(devices)[t]
    {
      if q.isOverflow {
        return 0;
      }
      var tokens := ListByUser(q.user);
      if |tokens| == 0 {
        assert TokensOf(devices, q.user) == {};
        return 0;
      }
      assert tokens[0] in TokensOf(devices, q.user);
      var created := CreateOnce((q.id, kind));
      if !created {
        return 0;
      }
      var delivered;
      delivered, errs := SendAll(q, kind, tokens, TokensOf(devices, q.user), answer);
      records := records[(q.id, kind) := if delivered then Sent else NotSent];
    }

    /** After a status change: washing and ready have a stage of their own, no other status does. */
    method NotifyStatus(q: QueueRow, answer: Token -> Answer)
      modifies this`devices, this`records, this`sent
      ensures KindForStatus(q.status).None? ==> devices == old(devices) && records == old(records) && sent == old(sent)
      ensures forall kind :: KindForStatus(q.status) == Some(kind) ==>
                && old(records.Keys) <= records.Keys <= old(records.Keys) + {(q.id, kind)}
                && ((q.id, kind) in records <==>
                      (q.id, kind) in old(records) || (!q.isOverflow && TokensOf(old(devices), q.user) != {}))
      ensures SentOnlyNew(old(sent), sent, old(records.Keys), records.Keys)
      ensures OwnersPushed(old(records.Keys), records.Keys, old(sent), sent, [q], devices)
    {
      var kind := KindForStatus(q.status);
      if kind.Some? {
        var _ := NotifyStage(q, kind.value, answer);
        assert Attempted(old(Now()), Now(), q, kind.value);
        AttemptPushes(old(Now()), Now(), q, kind.value);
      }
    }

    /** Sends what is due of one kind. */
    method TickKind(kind: Kind, now: Instant, answer: Token -> Answer) returns (errs: nat)
      modifies this`devices, this`records, this`sent
      ensures Shrinks(old(devices), devices) && old(records.Keys) <= records.Keys
      ensures OnlyTimely(old(records.Keys), records.Keys, kind, now, rows)
      ensures Settled(kind, now, rows, devices, records.Keys)
      ensures SentOnlyNew(old(sent), sent, old(records.Keys), records.Keys)
      ensures OwnersPushed(old(records.Keys), records.Keys, old(sent), sent, rows, devices)
    {
      errs := 0;
      ghost var start := Now();
      var due := FindDue(kind, now, rows, devices, records.Keys);
      for i := 0 to |due|
        invariant Progress(start, Now(), kind, now, rows)
        invariant HandledUpTo(i, kind, due, Now())
      {
        ghost var before := Now();
        assert due[i] in due;
        var e := NotifyStage(due[i], kind, answer);
        errs := errs + e;
        assert Attempted(before, Now(), due[i], kind);
        ProgressOn(start, before, Now(), due[i], kind, now, rows);
        OneMoreHandled(before, Now(), kind, due, i);
      }
      AllSettled(kind, now, rows, due, start, Now());
    }

    /** Sends everything due. Afterwards every timely booking's stage is recorded, unless the
        booking is overflow or its owner has no device left; nothing else is recorded, and
        nothing is pushed for a stage that was recorded before. */
    method Tick(now: Instant, answer: Token -> Answer) returns (errs: nat)
      modifies this`devices, this`records, this`sent
      ensures Shrinks(old(devices), devices) && old(records.Keys) <= records.Keys
      ensures Settled(Reminder, now, rows, devices, records.Keys) && Settled(Late, now, rows, devices, records.Keys)
      ensures forall key :: key in records && key !in old(records) ==>
        exists r :: r in rows && key.0 == r.id && TimeBased(key.1) && Timely(key.1, r, now) && !r.isOverflow
      ensures SentOnlyNew(old(sent), sent, old(records.Keys), records.Keys)
      ensures OwnersPushed(old(records.Keys), records.Keys, old(sent), sent, rows, devices)
    {
      errs := TickKind(Reminder, now, answer);
      ghost var devicesBetween, recordsBetween, sentBetween := devices, records.Keys, sent;
      var late := TickKind(Late, now, answer);
      errs := errs + late;
      forall r | r in rows && Timely(Reminder, r, now) ensures Handled(Reminder, r, devices, records.Keys) {
        StillHandled(Reminder, r, devicesBetween, devices);
      }
      MorePushed(old(records.Keys), recordsBetween, records.Keys, old(sent), sentBetween, sent, rows,
                 devicesBetween, devices);
    }
  }

  /** sent continues before with one push to each of the tokens, in some order. */
  ghost predicate PushesTo(before: seq<Push>, sent: seq<Push>, booking: BookingId, kind: Kind, tokens: set<Token>) {
    && before <= sent
    && (forall i :: |before| <= i < |sent| ==>
          sent[i].booking == booking && sent[i].kind == kind && sent[i].token in tokens)
    && (forall i, j :: |before| <= i < j < |sent| ==> sent[i].token != sent[j].token)
    && (forall t :: t in tokens ==> Push(booking, kind, t) in sent[|before|..])
  }

  lemma InTurn(before: seq<Push>, sent: seq<Push>, booking: BookingId, kind: Kind, tokens: seq<Token>, all: set<Token>)
    requires sent == before + seq(|tokens|, i requires 0 <= i < |tokens| => Push(booking, kind, tokens[i]))
    requires forall t :: t in tokens <==> t in all
    requires forall i, j :: 0 <= i < j < |tokens| ==> tokens[i] != tokens[j]
    ensures PushesTo(before, sent, booking, kind, all)
  {
    var pushes := sent[|before|..];
    forall t | t in tokens ensures Push(booking, kind, t) in pushes {
      var i :| 0 <= i < |tokens| && tokens[i] == t;
      assert pushes[i] == Push(booking, kind, t);
    }
  }

  ghost predicate Shrinks(before: map<Token, UserId>, after: map<Token, UserId>) {
    forall t :: t in after ==> t in before && after[t] == before[t]
  }

  ghost predicate Handled(kind: Kind, r: QueueRow, devices: map<Token, UserId>, recorded: set<Key>) {
    r.isOverflow || (r.id, kind) in recorded || TokensOf(devices, r.user) == {}
  }

  ghost predicate Settled(kind: Kind, now: Instant, rows: seq<QueueRow>, devices: map<Token, UserId>, recorded: set<Key>) {
    forall r :: r in rows && Timely(kind, r, now) ==> Handled(kind, r, devices, recorded)
  }

  ghost predicate OnlyTimely(before: set<Key>, after: set<Key>, kind: Kind, now: Instant, rows: seq<QueueRow>) {
    forall key :: key in after && key !in before ==>
      exists r :: r in rows && key == (r.id, kind) && Timely(kind, r, now) && !r.isOverflow
  }

  ghost predicate SentOnlyNew(before: seq<Push>, after: seq<Push>, known: set<Key>, recorded: set<Key>) {
    && before <= after
    && forall i :: |before| <= i < |after| ==>
         (after[i].booking, after[i].kind) !in known && (after[i].booking, after[i].kind) in recorded
  }

  /** Something was pushed about the booking, and to every device its owner still has. */
  ghost predicate PushedToOwner(before: seq<Push>, after: seq<Push>, r: QueueRow, kind: Kind,
                                devices: map<Token, UserId>)
  {
    && before <= after
    && (exists i :: |before| <= i < |after| && after[i].booking == r.id && after[i].kind == kind)
    && forall t :: t in devices && devices[t] == r.user ==> Push(r.id, kind, t) in after[|before|..]
  }

  /** What was newly recorded was pushed to the owner of the booking. */
  ghost predicate OwnersPushed(known: set<Key>, recorded: set<Key>, before: seq<Push>, after: seq<Push>,
                               rows: seq<QueueRow>, devices: map<Token, UserId>)
  {
    forall key :: key in recorded && key !in known ==>
      exists r :: r in rows && r.id == key.0 && PushedToOwner(before, after, r, key.1, devices)
  }

  /** One attempt at a stage: nothing, or its record and one push to each of the owner's devices. */
  ghost predicate Attempted(a: Snapshot, b: Snapshot, q: QueueRow, kind: Kind) {
    var tokens := TokensOf(a.devices, q.user);
    if q.isOverflow || tokens == {} || (q.id, kind) in a.recorded then b == a
    else
      && b.recorded == a.recorded + {(q.id, kind)} && Shrinks(a.devices, b.devices)
      && PushesTo(a.sent, b.sent, q.id, kind, tokens)
  }

  lemma AttemptPushes(a: Snapshot, b: Snapshot, q: QueueRow, kind: Kind)
    requires Attempted(a, b, q, kind)
    ensures OwnersPushed(a.recorded, b.recorded, a.sent, b.sent, [q], b.devices)
  {
    if b.recorded != a.recorded {
      HasToken(a.devices, q.user);
      var t :| t in a.devices && a.devices[t] == q.user;
      assert t in TokensOf(a.devices, q.user) && Push(q.id, kind, t) in b.sent[|a.sent|..];
      forall u | u in b.devices && b.devices[u] == q.user ensures Push(q.id, kind, u) in b.sent[|a.sent|..] {
        assert u in TokensOf(a.devices, q.user);
      }
      assert PushedToOwner(a.sent, b.sent, q, kind, b.devices);
    }
  }

  /** What the attempts of one kind up to now have done. */
  ghost predicate Progress(a: Snapshot, b: Snapshot, kind: Kind, now: Instant, rows: seq<QueueRow>) {
    && Shrinks(a.devices, b.devices) && a.recorded <= b.recorded
    && OnlyTimely(a.recorded, b.recorded, kind, now, rows)
    && SentOnlyNew(a.sent, b.sent, a.recorded, b.recorded)
    && OwnersPushed(a.recorded, b.recorded, a.sent, b.sent, rows, b.devices)
  }

  ghost predicate HandledUpTo(n: nat, kind: Kind, due: seq<QueueRow>, b: Snapshot) {
    n <= |due| && forall k :: 0 <= k < n ==> Handled(kind, due[k], b.devices, b.recorded)
  }

  lemma OneMoreHandled(b: Snapshot, c: Snapshot, kind: Kind, due: seq<QueueRow>, i: nat)
    requires i < |due| && HandledUpTo(i, kind, due, b) && Attempted(b, c, due[i], kind)
    ensures HandledUpTo(i + 1, kind, due, c)
  {
    forall k | 0 <= k <= i ensures Handled(kind, due[k], c.devices, c.recorded) {
      if k < i && b != c {
        StillHandled(kind, due[k], b.devices, c.devices);
      }
    }
  }

  /** What was timely but not due was handled before. */
  lemma AllSettled(kind: Kind, now: Instant, rows: seq<QueueRow>, due: seq<QueueRow>, a: Snapshot, b: Snapshot)
    requires due == FindDue(kind, now, rows, a.devices, a.recorded) && Progress(a, b, kind, now, rows)
    requires HandledUpTo(|due|, kind, due, b)
    ensures Settled(kind, now, rows, b.devices, b.recorded)
  {
    forall r | r in rows && Timely(kind, r, now) ensures Handled(kind, r, b.devices, b.recorded) {
      if r in due {
        var k :| 0 <= k < |due| && due[k] == r;
      } else {
        StillHandled(kind, r, a.devices, b.devices);
      }
    }
  }

  lemma ProgressOn(a: Snapshot, b: Snapshot, c: Snapshot, q: QueueRow, kind: Kind, now: Instant, rows: seq<QueueRow>)
    requires Progress(a, b, kind, now, rows) && Attempted(b, c, q, kind)
    requires q in rows && Timely(kind, q, now)
    ensures Progress(a, c, kind, now, rows)
  {
    if b != c {
      AttemptPushes(b, c, q, kind);
      assert OwnersPushed(b.recorded, c.recorded, b.sent, c.sent, rows, c.devices);
      MorePushed(a.recorded, b.recorded, c.recorded, a.sent, b.sent, c.sent, rows, b.devices, c.devices);
    }
  }

  lemma StillPushed(before: seq<Push>, mid: seq<Push>, after: seq<Push>, r: QueueRow, kind: Kind,
                    devices: map<Token, UserId>, left: map<Token, UserId>)
    requires PushedToOwner(before, mid, r, kind, devices) && mid <= after && Shrinks(devices, left)
    ensures PushedToOwner(before, after, r, kind, left)
  {
    assert after[|before|..] == mid[|before|..] + after[|mid|..];
  }

  lemma EarlierPushed(before: seq<Push>, mid: seq<Push>, after: seq<Push>, r: QueueRow, kind: Kind,
                      devices: map<Token, UserId>)
    requires before <= mid && PushedToOwner(mid, after, r, kind, devices)
    ensures PushedToOwner(before, after, r, kind, devices)
  {
    assert after[|before|..] == mid[|before|..] + after[|mid|..];
  }

  lemma MorePushed(known: set<Key>, between: set<Key>, recorded: set<Key>, before: seq<Push>, mid: seq<Push>,
                   after: seq<Push>, rows: seq<QueueRow>, devices: map<Token, UserId>, left: map<Token, UserId>)
    requires OwnersPushed(known, between, before, mid, rows, devices)
    requires OwnersPushed(between, recorded, mid, after, rows, left)
    requires before <= mid <= after && Shrinks(devices, left)
    ensures OwnersPushed(known, recorded, before, after, rows, left)
  {
    forall key | key in recorded && key !in known
      ensures exists r :: r in rows && r.id == key.0 && PushedToOwner(before, after, r, key.1, left)
    {
      if key in between {
        var r :| r in rows && r.id == key.0 && PushedToOwner(before, mid, r, key.1, devices);
        StillPushed(before, mid, after, r, key.1, devices, left);
      } else {
        var r :| r in rows && r.id == key.0 && PushedToOwner(mid, after, r, key.1, left);
        EarlierPushed(before, mid, after, r, key.1, left);
      }
    }
  }

  lemma StillHandled(kind: Kind, r: QueueRow, before: map<Token, UserId>, after: map<Token, UserId>)
    requires Shrinks(before, after)
    ensures TokensOf(before, r.user) == {} ==> TokensOf(after, r.user) == {}
  {
    assert TokensOf(after, r.user) <= TokensOf(before, r.user);
  }
}
