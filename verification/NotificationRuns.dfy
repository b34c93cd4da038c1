/** Stage notifications over whole runs: several instances attempting the same stage at
    once, and the scheduler's ticks against the due windows. */
module NotificationRuns {
  import opened Bookings
  import opened Clock
  import opened Notifications
  import opened Options

  // ----- concurrent attempts -----

  type AttemptId = nat

  /** An attempt has listed the owner's tokens, is pushing to them, or is over. */
  datatype Stage = Listed | Sending | Over

  datatype Attempt = Attempt(key: Key, left: set<Token>, stage: Stage)

  datatype Entry = Entry(sender: AttemptId, push: Push)

  /** The records hold the row id, which is the creating attempt. */
  datatype Run = Run(attempts: map<AttemptId, Attempt>, records: map<Key, AttemptId>, log: seq<Entry>)

  const START := Run(map[], map[], [])

  datatype Event =
    | Begin(a: AttemptId, key: Key, tokens: set<Token>)
    | Insert(a: AttemptId)
    | Send(a: AttemptId, t: Token)
    | Stop(a: AttemptId)

  predicate Enabled(s: Run, e: Event) {
    match e
    case Begin(a, _, tokens) => a !in s.attempts && tokens != {}
    case Insert(a) => a in s.attempts && s.attempts[a].stage.Listed?
    case Send(a, t) => a in s.attempts && s.attempts[a].stage.Sending? && t in s.attempts[a].left
    case Stop(a) => a in s.attempts
  }

  /** An attempt may stop anywhere: it is done, fails, or its process dies. */
  function Step(s: Run, e: Event): Run {
    if !Enabled(s, e) then s
    else match e
      case Begin(a, key, tokens) => s.(attempts := s.attempts[a := Attempt(key, tokens, Listed)])
      case Insert(a) =>
        var x := s.attempts[a];
        if x.key in s.records then s.(attempts := s.attempts[a := x.(stage := Over)])
        else s.(attempts := s.attempts[a := x.(stage := Sending)], records := s.records[x.key := a])
      case Send(a, t) =>
        var x := s.attempts[a];
        s.(attempts := s.attempts[a := x.(left := x.left - {t})],
           log := s.log + [Entry(a, Push(x.key.0, x.key.1, t))])
      case Stop(a) => s.(attempts := s.attempts[a := s.attempts[a].(stage := Over)])
  }

  function After(events: seq<Event>): Run {
    if events == [] then START else Step(After(events[..|events| - 1]), events[|events| - 1])
  }

  function KeyOf(p: Push): Key {
    (p.booking, p.kind)
  }

  /** Only the attempt that created a stage's record sends for it, each token once. */
  ghost predicate Inv(s: Run) {
    && (forall a :: a in s.attempts && s.attempts[a].stage.Sending? ==>
          s.attempts[a].key in s.records && s.records[s.attempts[a].key] == a)
    && (forall key :: key in s.records ==> s.records[key] in s.attempts)
    && (forall i :: 0 <= i < |s.log| ==> Accounted(s, s.log[i]))
    && (forall i, j :: 0 <= i < j < |s.log| ==> s.log[i].push != s.log[j].push)
  }

  ghost predicate Accounted(s: Run, e: Entry) {
    && KeyOf(e.push) in s.records && s.records[KeyOf(e.push)] == e.sender && e.sender in s.attempts
    && s.attempts[e.sender].key == KeyOf(e.push)
    && e.push.token !in s.attempts[e.sender].left
  }

  lemma StepKeeps(s: Run, e: Event)
    requires Inv(s)
    ensures Inv(Step(s, e))
  {
    var t := Step(s, e);
    forall i | 0 <= i < |t.log| ensures Accounted(t, t.log[i]) {
      assert i < |s.log| ==> Accounted(s, s.log[i]);
    }
    if e.Send? && Enabled(s, e) {
      forall i | 0 <= i < |s.log| ensures s.log[i].push != t.log[|s.log|].push {
        assert Accounted(s, s.log[i]);
      }
    }
  }

  lemma {:induction false} RunKeeps(events: seq<Event>)
    ensures Inv(After(events))
  {
    if events != [] {
      RunKeeps(events[..|events| - 1]);
      StepKeeps(After(events[..|events| - 1]), events[|events| - 1]);
    }
  }

  /** However attempts interleave and wherever they die, a stage of a booking is sent by one
      attempt only, and never twice to the same token. */
  lemma SentAtMostOnce(events: seq<Event>, i: nat, j: nat)
    requires i < j < |After(events).log|
    ensures var log := After(events).log;
            && (KeyOf(log[i].push) == KeyOf(log[j].push) ==> log[i].sender == log[j].sender)
            && log[i].push != log[j].push
  {
    RunKeeps(events);
    var s := After(events);
    assert Accounted(s, s.log[i]) && Accounted(s, s.log[j]);
  }

  ghost predicate CreatorIsOver(s: Run, key: Key) {
    key in s.records && s.records[key] in s.attempts && s.attempts[s.records[key]].stage.Over?
  }

  /** The price: once a stage is recorded only its creator can still send it, so if that
      attempt stops, the stage is never sent again. */
  lemma {:induction false} LostWithItsAttempt(events: seq<Event>, n: nat, key: Key)
    requires n <= |events| && CreatorIsOver(After(events[..n]), key)
    ensures var (before, s) := (After(events[..n]), After(events));
            && CreatorIsOver(s, key) && s.records[key] == before.records[key]
            && before.log <= s.log
            && forall i :: |before.log| <= i < |s.log| ==> KeyOf(s.log[i].push) != key
    decreases |events|
  {
    RunKeeps(events[..n]);
    if n == |events| {
      assert events[..n] == events;
    } else {
      var m := |events| - 1;
      assert events[..m][..n] == events[..n];
      LostWithItsAttempt(events[..m], n, key);
      RunKeeps(events[..m]);
      OverStaysSilent(After(events[..m]), events[m], key);
    }
  }

  lemma OverStaysSilent(s: Run, e: Event, key: Key)
    requires Inv(s) && CreatorIsOver(s, key)
    ensures var t := Step(s, e);
            && CreatorIsOver(t, key) && t.records[key] == s.records[key]
            && s.log <= t.log
            && forall i :: |s.log| <= i < |t.log| ==> KeyOf(t.log[i].push) != key
  {
  }

  // ----- an attempt that is not stopped -----

  function Continued(s: Run, events: seq<Event>): Run {
    if events == [] then s else Step(Continued(s, events[..|events| - 1]), events[|events| - 1])
  }

  function Sends(a: AttemptId, order: seq<Token>): seq<Event> {
    seq(|order|, i requires 0 <= i < |order| => Send(a, order[i]))
  }

  function Entries(a: AttemptId, key: Key, order: seq<Token>): seq<Entry> {
    seq(|order|, i requires 0 <= i < |order| => Entry(a, Push(key.0, key.1, order[i])))
  }

  /** The tokens each once, in the order they are pushed to. */
  ghost predicate Orders(order: seq<Token>, tokens: set<Token>) {
    (forall t :: t in order <==> t in tokens) && forall i, j :: 0 <= i < j < |order| ==> order[i] != order[j]
  }

  /** After sending to the tokens in order, with some of left still to go. */
  ghost predicate SentTo(s: Run, t: Run, a: AttemptId, x: Attempt, order: seq<Token>) {
    && t.records == s.records && t.log == s.log + Entries(a, x.key, order)
    && a in t.attempts && t.attempts[a].key == x.key && t.attempts[a].stage.Sending?
    && forall u :: u in t.attempts[a].left <==> u in x.left && u !in order
  }

  lemma SendsOneMore(s: Run, t: Run, a: AttemptId, x: Attempt, order: seq<Token>, u: Token)
    requires SentTo(s, t, a, x, order) && u in x.left && u !in order
    ensures SentTo(s, Step(t, Send(a, u)), a, x, order + [u])
  {
    assert Entries(a, x.key, order + [u]) == Entries(a, x.key, order) + [Entry(a, Push(x.key.0, x.key.1, u))];
  }

  lemma {:induction false} SendsAll(s: Run, a: AttemptId, x: Attempt, order: seq<Token>)
    requires a in s.attempts && s.attempts[a] == x && x.stage.Sending?
    requires (forall u :: u in order ==> u in x.left) && forall i, j :: 0 <= i < j < |order| ==> order[i] != order[j]
    ensures SentTo(s, Continued(s, Sends(a, order)), a, x, order)
  {
    if order != [] {
      var n := |order| - 1;
      assert forall u :: u in order[..n] ==> u in order;
      SendsAll(s, a, x, order[..n]);
      assert Sends(a, order)[..n] == Sends(a, order[..n]);
      SendsOneMore(s, Continued(s, Sends(a, order[..n])), a, x, order[..n], order[n]);
      assert order == order[..n] + [order[n]];
    }
  }

  /** In any state a new attempt at an unrecorded stage, when nothing stops it, records the stage
      and pushes to every token it listed, in whatever order. */
  lemma AttemptSends(s: Run, a: AttemptId, key: Key, tokens: set<Token>, order: seq<Token>)
    requires a !in s.attempts && key !in s.records && tokens != {} && Orders(order, tokens)
    ensures var t := Continued(Step(Step(s, Event.Begin(a, key, tokens)), Insert(a)), Sends(a, order));
            t.records == s.records[key := a] && t.log == s.log + Entries(a, key, order)
  {
    var begun := Step(Step(s, Event.Begin(a, key, tokens)), Insert(a));
    SendsAll(begun, a, Attempt(key, tokens, Sending), order);
  }

  // ----- ticks and windows -----

  ghost predicate Ascending(ticks: seq<Instant>) {
    forall i, j :: 0 <= i < j < |ticks| ==> ticks[i] <= ticks[j]
  }

  ghost predicate GapsAtMost(ticks: seq<Instant>, d: Duration) {
    forall i :: 0 <= i < |ticks| - 1 ==> ticks[i + 1] - ticks[i] <= d
  }

  ghost predicate Hit(ticks: seq<Instant>, kind: Kind, start: Instant) {
    exists i :: 0 <= i < |ticks| && InWindow(kind, start, ticks[i])
  }

  /** The ticks cover a window that neither ended before the first nor began after the last. */
  ghost predicate Spanned(ticks: seq<Instant>, kind: Kind, start: Instant) {
    |ticks| > 0 && ticks[0] < start + Until(kind) && start + From(kind) <= ticks[|ticks| - 1]
  }

  lemma {:induction false} FirstTickFrom(ticks: seq<Instant>, t: Instant) returns (i: nat)
    requires |ticks| > 0 && t <= ticks[|ticks| - 1]
    ensures i < |ticks| && t <= ticks[i] && (i > 0 ==> ticks[i - 1] < t)
  {
    if |ticks| > 1 && t <= ticks[|ticks| - 2] {
      i := FirstTickFrom(ticks[..|ticks| - 1], t);
    } else {
      i := |ticks| - 1;
    }
  }

  lemma GapsHit(ticks: seq<Instant>, kind: Kind, start: Instant)
    requires GapsAtMost(ticks, Until(kind) - From(kind)) && Spanned(ticks, kind, start)
    ensures Hit(ticks, kind, start)
  {
    var i := FirstTickFrom(ticks, start + From(kind));
    assert i > 0 ==> ticks[i - 1 + 1] - ticks[i - 1] <= Until(kind) - From(kind);
    assert InWindow(kind, start, ticks[i]);
  }

  lemma WideGapMisses(ticks: seq<Instant>, kind: Kind, i: nat) returns (start: Instant)
    requires Ascending(ticks) && i < |ticks| - 1 && ticks[i + 1] - ticks[i] > Until(kind) - From(kind)
    ensures Spanned(ticks, kind, start) && !Hit(ticks, kind, start)
  {
    start := ticks[i] - From(kind) + 1;
    assert ticks[0] <= ticks[i] && ticks[i + 1] <= ticks[|ticks| - 1];
    forall k | 0 <= k < |ticks| ensures !InWindow(kind, start, ticks[k]) {
      assert k <= i ==> ticks[k] <= ticks[i];
      assert k > i ==> ticks[i + 1] <= ticks[k];
    }
  }

  /** Every start is hit exactly when no gap between ticks exceeds the window: one hour for
      the reminder, an hour and fifty-five minutes for the late nudge. */
  lemma WindowsAreHit(ticks: seq<Instant>, kind: Kind)
    requires TimeBased(kind) && Ascending(ticks)
    ensures GapsAtMost(ticks, Until(kind) - From(kind)) <==>
            forall start :: Spanned(ticks, kind, start) ==> Hit(ticks, kind, start)
    ensures Until(Reminder) - From(Reminder) == HOUR && Until(Late) - From(Late) == HOUR + 55 * MINUTE
  {
    if GapsAtMost(ticks, Until(kind) - From(kind)) {
      forall start | Spanned(ticks, kind, start) ensures Hit(ticks, kind, start) {
        GapsHit(ticks, kind, start);
      }
    } else {
      var i :| 0 <= i < |ticks| - 1 && ticks[i + 1] - ticks[i] > Until(kind) - From(kind);
      var start := WideGapMisses(ticks, kind, i);
    }
  }

  // ----- the scheduler's runs -----

  /** The stored state, and the stages some tick has selected and not yet tried to send. */
  datatype World = World(rows: seq<QueueRow>, devices: map<Token, UserId>, recorded: set<Key>, selected: set<Key>)

  /** What any instance's scheduler, a status change or anyone else may do next. */
  datatype Act =
    | /** a tick reads what is due of one kind */
      Tick(kind: Kind, now: Instant)
    | /** a selected stage is recorded, to be pushed */
      Record(key: Key)
    | /** a selected stage is skipped: overflow, no device, recorded meanwhile, or an error */
      Skip(key: Key)
    | /** a status change records its own stage */
      Stage(booking: BookingId, status: Status)
    | /** bookings and devices change */
      Change(rows: seq<QueueRow>, devices: map<Token, UserId>)

  function SelectedBy(w: World, kind: Kind, now: Instant): seq<QueueRow> {
    FindDue(kind, now, w.rows, w.devices, w.recorded)
  }

  function Do(w: World, act: Act): World {
    match act
    case Tick(kind, now) => w.(selected := w.selected + set r | r in SelectedBy(w, kind, now) :: (r.id, kind))
    case Record(key) =>
      if key in w.selected then w.(recorded := w.recorded + {key}, selected := w.selected - {key}) else w
    case Skip(key) => w.(selected := w.selected - {key})
    case Stage(booking, status) =>
      if KindForStatus(status).Some? then w.(recorded := w.recorded + {(booking, KindForStatus(status).value)}) else w
    case Change(rows, devices) => w.(rows := rows, devices := devices)
  }

  function Acted(w: World, acts: seq<Act>): World {
    if acts == [] then w else Do(Acted(w, acts[..|acts| - 1]), acts[|acts| - 1])
  }

  /** What the k-th act finds. */
  function Found(w: World, acts: seq<Act>, k: nat): World
    requires k <= |acts|
  {
    Acted(w, acts[..k])
  }

  /** The k-th act is a reminder tick, and it selects the booking, in whatever status. */
  ghost predicate Selects(w: World, acts: seq<Act>, k: nat, row: QueueRow) {
    && k < |acts| && acts[k].Tick? && acts[k].kind == Reminder
    && exists s: Status :: row.(status := s) in SelectedBy(Found(w, acts, k), Reminder, acts[k].now)
  }

  /** An id is one booking: among the rows it only differs in status. */
  ghost predicate SameBooking(rows: seq<QueueRow>, row: QueueRow) {
    forall r :: r in rows && r.id == row.id ==> r == row.(status := r.status)
  }

  ghost predicate OneBooking(w: World, acts: seq<Act>, row: QueueRow) {
    forall k: nat :: k <= |acts| ==> SameBooking(Found(w, acts, k).rows, row)
  }

  lemma FoundInPrefix(w: World, acts: seq<Act>, n: nat, row: QueueRow)
    requires n <= |acts|
    ensures forall k: nat :: k <= n ==> Found(w, acts[..n], k) == Found(w, acts, k)
    ensures OneBooking(w, acts, row) ==> OneBooking(w, acts[..n], row)
    ensures forall k: nat :: k < n && Selects(w, acts[..n], k, row) ==> Selects(w, acts, k, row)
  {
    forall k: nat | k <= n ensures Found(w, acts[..n], k) == Found(w, acts, k) {
      assert acts[..n][..k] == acts[..k];
    }
  }

  /** Neither recorded nor about to be. */
  ghost predicate Untouched(w: World, key: Key) {
    key !in w.recorded && key !in w.selected
  }

  /** A reminder that is recorded, or about to be, was selected by an earlier tick. */
  lemma {:induction false} RecordedWasSelected(w: World, acts: seq<Act>, row: QueueRow) returns (k: nat)
    requires Untouched(w, (row.id, Reminder)) && OneBooking(w, acts, row)
    requires !Untouched(Acted(w, acts), (row.id, Reminder))
    ensures Selects(w, acts, k, row)
  {
    var n := |acts| - 1;
    var before := Acted(w, acts[..n]);
    FoundInPrefix(w, acts, n, row);
    if Untouched(before, (row.id, Reminder)) {
      k := n;
      assert Found(w, acts, n) == before;
      var r :| r in SelectedBy(before, Reminder, acts[n].now) && r.id == row.id;
      assert r == row.(status := r.status);
    } else {
      k := RecordedWasSelected(w, acts[..n], row);
    }
  }

  lemma SelectedIsTimely(w: World, acts: seq<Act>, k: nat, row: QueueRow)
    requires Selects(w, acts, k, row)
    ensures InWindow(Reminder, row.start, acts[k].now) && row.created <= row.start - HOUR
  {
  }

  /** The instants of the reminder ticks. */
  function TickTimes(acts: seq<Act>): seq<Instant> {
    if acts == [] then []
    else
      var last := acts[|acts| - 1];
      TickTimes(acts[..|acts| - 1]) + if last.Tick? && last.kind == Reminder then [last.now] else []
  }

  lemma {:induction false} TickOfTime(acts: seq<Act>, i: nat) returns (k: nat)
    requires i < |TickTimes(acts)|
    ensures k < |acts| && acts[k] == Tick(Reminder, TickTimes(acts)[i])
  {
    var n := |acts| - 1;
    if i < |TickTimes(acts[..n])| {
      k := TickOfTime(acts[..n], i);
    } else {
      k := n;
    }
  }

  /** The booking is still unstarted and its owner has a device. */
  ghost predicate Waits(row: QueueRow, w: World) {
    && (row.(status := InQueue) in w.rows || row.(status := Waiting) in w.rows)
    && TokensOf(w.devices, row.user) != {}
  }

  lemma WaitingIsSelected(w: World, acts: seq<Act>, k: nat, row: QueueRow)
    requires k < |acts| && acts[k].Tick? && acts[k].kind == Reminder && InWindow(Reminder, row.start, acts[k].now)
    requires Waits(row, Found(w, acts, k)) && row.created <= row.start - HOUR
    requires (row.id, Reminder) !in Found(w, acts, k).recorded
    ensures Selects(w, acts, k, row)
  {
    var v := Found(w, acts, k);
    var s := if row.(status := InQueue) in v.rows then InQueue else Waiting;
    assert Timely(Reminder, row.(status := s), acts[k].now);
    assert row.(status := s) in SelectedBy(v, Reminder, acts[k].now);
  }

  /** The k-th act is a reminder tick in the hour before the booking's start. */
  predicate TicksInHour(acts: seq<Act>, k: nat, row: QueueRow) {
    k < |acts| && acts[k].Tick? && acts[k].kind == Reminder && row.start - HOUR <= acts[k].now < row.start
  }

  lemma EarlierSelection(w: World, acts: seq<Act>, n: nat, row: QueueRow) returns (k: nat)
    requires n <= |acts| && Untouched(w, (row.id, Reminder)) && OneBooking(w, acts, row)
    requires (row.id, Reminder) in Found(w, acts, n).recorded
    ensures k < n && Selects(w, acts, k, row)
  {
    FoundInPrefix(w, acts, n, row);
    k := RecordedWasSelected(w, acts[..n], row);
  }

  lemma SomeTickInHour(acts: seq<Act>, row: QueueRow) returns (k: nat)
    requires GapsAtMost(TickTimes(acts), HOUR) && Spanned(TickTimes(acts), Reminder, row.start)
    ensures TicksInHour(acts, k, row)
  {
    GapsHit(TickTimes(acts), Reminder, row.start);
    var i :| 0 <= i < |TickTimes(acts)| && InWindow(Reminder, row.start, TickTimes(acts)[i]);
    k := TickOfTime(acts, i);
  }

  lemma MadeAheadIsSelected(w: World, acts: seq<Act>, row: QueueRow) returns (k: nat)
    requires Untouched(w, (row.id, Reminder)) && OneBooking(w, acts, row) && row.created <= row.start - HOUR
    requires GapsAtMost(TickTimes(acts), HOUR) && Spanned(TickTimes(acts), Reminder, row.start)
    requires forall k: nat :: TicksInHour(acts, k, row) ==> Waits(row, Found(w, acts, k))
    ensures TicksInHour(acts, k, row) && Selects(w, acts, k, row)
  {
    k := SomeTickInHour(acts, row);
    if (row.id, Reminder) in Found(w, acts, k).recorded {
      k := EarlierSelection(w, acts, k, row);
      SelectedIsTimely(w, acts, k, row);
    } else {
      WaitingIsSelected(w, acts, k, row);
    }
  }

  /** Whatever instances, customers and staff do: if the reminder ticks of all instances are at
      most an hour apart around the booking's start, and it waits with a device at those in the
      hour before, then one of those selects it exactly when it was made an hour ahead. */
  lemma RemindedBeforeStart(w: World, acts: seq<Act>, row: QueueRow)
    requires Untouched(w, (row.id, Reminder)) && OneBooking(w, acts, row)
    requires GapsAtMost(TickTimes(acts), HOUR) && Spanned(TickTimes(acts), Reminder, row.start)
    requires forall k: nat :: TicksInHour(acts, k, row) ==> Waits(row, Found(w, acts, k))
    ensures row.created <= row.start - HOUR <==>
            exists k: nat :: TicksInHour(acts, k, row) && Selects(w, acts, k, row)
  {
    if row.created <= row.start - HOUR {
      var k := MadeAheadIsSelected(w, acts, row);
    }
    forall k: nat | Selects(w, acts, k, row) ensures row.created <= row.start - HOUR {
      SelectedIsTimely(w, acts, k, row);
    }
  }
}
