/** The wake-up bus behind the live streams, and the streams' loop over it. */
module EventBus {
  import Iteration

  type Point = nat
  type Channel = nat

  /** Channels hold at most one signal, so their contents are a set. */
  datatype BusState = BusState(subs: map<Point, set<Channel>>, pending: set<Channel>, made: nat)

  function Listeners(subs: map<Point, set<Channel>>, p: Point): set<Channel> {
    if p in subs then subs[p] else {}
  }

  function Signaled(b: BusState, p: Point): BusState {
    b.(pending := b.pending + Listeners(b.subs, p))
  }

  function Joined(b: BusState, p: Point): (r: BusState)
    ensures forall q :: Listeners(r.subs, q) == if q == p then Listeners(b.subs, p) + {b.made} else Listeners(b.subs, q)
  {
    b.(subs := b.subs[p := Listeners(b.subs, p) + {b.made}], made := b.made + 1)
  }

  function Left(b: BusState, p: Point, ch: Channel): (r: BusState)
    ensures forall q :: Listeners(r.subs, q) == if q == p then Listeners(b.subs, p) - {ch} else Listeners(b.subs, q)
  {
    var rest := Listeners(b.subs, p) - {ch};
    b.(subs := if rest == {} then b.subs - {p} else b.subs[p := rest])
  }

  function Drained(b: BusState, ch: Channel): BusState {
    b.(pending := b.pending - {ch})
  }

  /** No subscriber set is empty, and every subscribed channel was made for one point. */
  ghost predicate WellFormed(b: BusState) {
    && (forall p :: p in b.subs ==> b.subs[p] != {})
    && (forall p, ch :: ch in Listeners(b.subs, p) ==> ch < b.made)
    && (forall p, q, ch :: ch in Listeners(b.subs, p) && ch in Listeners(b.subs, q) ==> p == q)
  }

  lemma LeftTwice(b: BusState, p: Point, ch: Channel)
    requires WellFormed(b)
    ensures WellFormed(Left(b, p, ch)) && Left(Left(b, p, ch), p, ch) == Left(b, p, ch)
  {
    var r := Left(b, p, ch);
    forall x, y, c | c in Listeners(r.subs, x) && c in Listeners(r.subs, y) ensures x == y {
      assert c in Listeners(b.subs, x) && c in Listeners(b.subs, y);
    }
    assert Listeners(r.subs, p) - {ch} == Listeners(r.subs, p);
    assert Left(r, p, ch).subs == r.subs;
  }

  class Bus {
    var subs: map<Point, set<Channel>>
    var pending: set<Channel>
    var made: nat

    ghost function View(): BusState
      reads this
    {
      BusState(subs, pending, made)
    }

    constructor ()
      ensures View() == BusState(map[], {}, 0) && WellFormed(View())
    {
      subs, pending, made := map[], {}, 0;
    }

    /** Leaves every subscriber of the point with exactly one signal. A full channel is
        skipped, so no state of the channels can block the publisher. */
    method Publish(p: Point)
      modifies this`pending
      ensures View() == Signaled(old(View()), p)
      ensures pending == old(pending) + if p in subs then subs[p] else {}
    {
      var rest := if p in subs then subs[p] else {};
      while rest != {}
        invariant rest <= Listeners(subs, p)
        invariant pending == old(pending) + (Listeners(subs, p) - rest)
        decreases |rest|
      {
        var ch := Iteration.Pick(rest);
        if ch !in pending {
          pending := pending + {ch};
        }
        rest := rest - {ch};
      }
    }

    method Subscribe(p: Point) returns (ch: Channel)
      requires WellFormed(View())
      modifies this`subs, this`made
      ensures View() == Joined(old(View()), p) && WellFormed(View())
      ensures ch == old(made) && forall q :: ch !in Listeners(old(subs), q)
      ensures subs == old(subs)[p := (if p in old(subs) then old(subs)[p] else {}) + {ch}]
    {
      ch := made;
      made := made + 1;
      if p !in subs {
        subs := subs[p := {}];
      }
      subs := subs[p := subs[p] + {ch}];
      assert subs == old(subs)[p := Listeners(old(subs), p) + {ch}];
    }

    /** Calling it again changes nothing, and no empty set stays behind. */
    method Unsubscribe(p: Point, ch: Channel)
      requires WellFormed(View())
      modifies this`subs
      ensures View() == Left(old(View()), p, ch) && WellFormed(View())
      ensures Left(View(), p, ch) == View()
    {
      if p in subs {
        subs := subs[p := subs[p] - {ch}];
      }
      if p !in subs || subs[p] == {} {
        subs := subs - {p};
      }
      assert subs == Left(old(View()), p, ch).subs;
      assert View() == Left(old(View()), p, ch);
      LeftTwice(old(View()), p, ch);
    }
  }

  // ----- streams over the bus -----

  /** A client that has its first snapshot but has not subscribed. What a snapshot shows is
      the number of writes to the point it includes. */
  datatype Reader = Reader(point: Point, seen: nat)

  datatype Stage = Waiting | Reading

  datatype Stream = Stream(point: Point, stage: Stage, seen: nat)

  datatype State = State(writes: map<Point, nat>, announced: map<Point, nat>, bus: BusState,
                         readers: map<nat, Reader>, streams: map<Channel, Stream>)

  /** Writers commit and then publish; a stream subscribes after its first snapshot, and
      afterwards takes one after each signal it receives. */
  datatype Event =
    | Write(p: Point)
    | Publish(p: Point)
    | Open(id: nat, p: Point)
    | Quit(id: nat)
    | Subscribe(id: nat)
    | Wake(ch: Channel)
    | Snapshot(ch: Channel)
    | Close(ch: Channel)

  function At(m: map<Point, nat>, p: Point): nat {
    if p in m then m[p] else 0
  }

  const INIT := State(map[], map[], BusState(map[], {}, 0), map[], map[])

  predicate Enabled(s: State, e: Event) {
    match e
    case Write(_) => true
    case Publish(_) => true
    case Open(id, _) => id !in s.readers
    case Quit(id) => id in s.readers
    case Subscribe(id) => id in s.readers
    case Wake(ch) => ch in s.streams && s.streams[ch].stage.Waiting? && ch in s.bus.pending
    case Snapshot(ch) => ch in s.streams && s.streams[ch].stage.Reading?
    case Close(ch) => ch in s.streams
  }

  /** An event that is not possible changes nothing. */
  function Step(s: State, e: Event): State {
    if !Enabled(s, e) then s
    else match e
      case Write(p) => s.(writes := s.writes[p := At(s.writes, p) + 1])
      case Publish(p) => s.(bus := Signaled(s.bus, p), announced := s.announced[p := At(s.writes, p)])
      case Open(id, p) => s.(readers := s.readers[id := Reader(p, At(s.writes, p))])
      case Quit(id) => s.(readers := s.readers - {id})
      case Subscribe(id) =>
        var r := s.readers[id];
        s.(bus := Joined(s.bus, r.point), readers := s.readers - {id},
           streams := s.streams[s.bus.made := Stream(r.point, Waiting, r.seen)])
      case Wake(ch) => s.(bus := Drained(s.bus, ch), streams := s.streams[ch := s.streams[ch].(stage := Reading)])
      case Snapshot(ch) =>
        var stream := s.streams[ch];
        s.(streams := s.streams[ch := Stream(stream.point, Waiting, At(s.writes, stream.point))])
      case Close(ch) => s.(bus := Left(s.bus, s.streams[ch].point, ch), streams := s.streams - {ch})
  }

  function Run(events: seq<Event>): State {
    if events == [] then INIT else Step(Run(events[..|events| - 1]), events[|events| - 1])
  }

  /** The bus holds exactly the open streams' channels, and snapshots show no future. */
  ghost predicate Inv(s: State) {
    && WellFormed(s.bus)
    && (forall p, ch :: ch in Listeners(s.bus.subs, p) <==> ch in s.streams && s.streams[ch].point == p)
    && (forall ch :: ch in s.bus.pending ==> ch < s.bus.made)
    && (forall ch :: ch in s.streams ==> ch < s.bus.made && s.streams[ch].seen <= At(s.writes, s.streams[ch].point))
    && (forall id :: id in s.readers ==> s.readers[id].seen <= At(s.writes, s.readers[id].point))
    && (forall p :: At(s.announced, p) <= At(s.writes, p))
  }

  lemma StepKeeps(s: State, e: Event)
    requires Inv(s)
    ensures Inv(Step(s, e))
  {
    if Enabled(s, e) {
      match e
      case Close(ch) => CloseKeeps(s, ch);
      case Subscribe(id) => SubscribeKeeps(s, id);
      case Publish(p) => PublishKeeps(s, p);
      case Wake(ch) => ReadKeeps(s, e);
      case Snapshot(ch) => ReadKeeps(s, e);
      case Write(p) => OutsideKeeps(s, e);
      case Open(id, p) => OutsideKeeps(s, e);
      case Quit(id) => OutsideKeeps(s, e);
    }
  }

  lemma OutsideKeeps(s: State, e: Event)
    requires Inv(s) && Enabled(s, e) && (e.Write? || e.Open? || e.Quit?)
    ensures Inv(Step(s, e))
  {
    assert Step(s, e).bus == s.bus && Step(s, e).streams == s.streams;
  }

  lemma PublishKeeps(s: State, p: Point)
    requires Inv(s)
    ensures Inv(Step(s, Publish(p)))
  {
    forall ch | ch in Step(s, Publish(p)).bus.pending ensures ch < s.bus.made {
      assert ch in s.bus.pending || ch in Listeners(s.bus.subs, p);
    }
  }

  lemma ReadKeeps(s: State, e: Event)
    requires Inv(s) && Enabled(s, e) && (e.Wake? || e.Snapshot?)
    ensures Inv(Step(s, e))
  {
    assert Step(s, e).bus.subs == s.bus.subs;
  }

  lemma CloseKeeps(s: State, ch: Channel)
    requires Inv(s) && Enabled(s, Close(ch))
    ensures Inv(Step(s, Close(ch)))
  {
    LeftTwice(s.bus, s.streams[ch].point, ch);
    var t := Step(s, Close(ch));
    forall p, c ensures c in Listeners(t.bus.subs, p) <==> c in t.streams && t.streams[c].point == p {
      assert c in Listeners(s.bus.subs, p) <==> c in s.streams && s.streams[c].point == p;
    }
  }

  lemma SubscribeKeeps(s: State, id: nat)
    requires Inv(s) && Enabled(s, Subscribe(id))
    ensures Inv(Step(s, Subscribe(id)))
  {
    var t := Step(s, Subscribe(id));
    forall p, c ensures c in Listeners(t.bus.subs, p) <==> c in t.streams && t.streams[c].point == p {
      assert c in Listeners(s.bus.subs, p) <==> c in s.streams && s.streams[c].point == p;
    }
    forall p, q, c | c in Listeners(t.bus.subs, p) && c in Listeners(t.bus.subs, q) ensures p == q {
      assert t.streams[c].point == p && t.streams[c].point == q;
    }
  }

  lemma {:induction false} RunKeeps(events: seq<Event>)
    ensures Inv(Run(events))
  {
    if events != [] {
      RunKeeps(events[..|events| - 1]);
      StepKeeps(Run(events[..|events| - 1]), events[|events| - 1]);
    }
  }

  /** When all streams are closed nothing is left of them in the bus. */
  lemma NothingLeaks(events: seq<Event>)
    ensures Run(events).streams == map[] ==> Run(events).bus.subs == map[]
  {
    RunKeeps(events);
    var s := Run(events);
    forall p | p in s.bus.subs ensures exists ch :: ch in s.streams {
      assert Listeners(s.bus.subs, p) != {};
      var ch :| ch in Listeners(s.bus.subs, p);
      assert ch in s.streams;
    }
  }

  /** A stream was at the point when the i-th event was published there. */
  ghost predicate Heard(events: seq<Event>, i: nat, ch: Channel)
    requires i < |events|
  {
    var s := Run(events[..i]);
    ch in s.streams && events[i] == Publish(s.streams[ch].point)
  }

  /** The stream still owes its client a snapshot. */
  predicate Owes(s: State, ch: Channel)
    requires ch in s.streams
  {
    ch in s.bus.pending || s.streams[ch].stage.Reading?
  }

  /** One event: channels are not reused, and a debt is only settled by a snapshot. */
  lemma StreamStep(s: State, e: Event, ch: Channel, v: nat)
    requires Inv(s) && ch < s.bus.made
    ensures var t := Step(s, e);
            && ch < t.bus.made
            && (forall p :: At(s.writes, p) <= At(t.writes, p))
            && (ch in t.streams ==>
                  && ch in s.streams && t.streams[ch].point == s.streams[ch].point
                  && (v <= At(s.writes, s.streams[ch].point) && (Owes(s, ch) || s.streams[ch].seen >= v) ==>
                        Owes(t, ch) || t.streams[ch].seen >= v))
  {
  }

  /** After what was written before, the stream, if still open, owes or shows it. */
  ghost predicate NothingLost(before: State, s: State, ch: Channel) {
    ch in before.streams &&
    var p := before.streams[ch].point;
    && ch < s.bus.made && At(before.writes, p) <= At(s.writes, p)
    && (ch in s.streams ==> s.streams[ch].point == p && (Owes(s, ch) || s.streams[ch].seen >= At(before.writes, p)))
  }

  lemma PublishSignals(s: State, p: Point, ch: Channel)
    requires Inv(s) && ch in s.streams && s.streams[ch].point == p
    ensures NothingLost(s, Step(s, Publish(p)), ch)
  {
    assert ch in Listeners(s.bus.subs, p);
  }

  lemma NothingLostStep(before: State, s: State, e: Event, ch: Channel)
    requires Inv(s) && NothingLost(before, s, ch)
    ensures NothingLost(before, Step(s, e), ch)
  {
    StreamStep(s, e, ch, At(before.writes, before.streams[ch].point));
  }

  /** No wake-up is lost: whatever happens after a publication, a stream that heard it is
      signalled, or is about to take a snapshot, or shows everything written before it. */
  lemma {:induction false} NoLostWakeUp(events: seq<Event>, i: nat, ch: Channel)
    requires i < |events| && Heard(events, i, ch)
    ensures NothingLost(Run(events[..i]), Run(events), ch)
    decreases |events|
  {
    var n := |events| - 1;
    RunKeeps(events[..n]);
    if i < n {
      assert events[..n][..i] == events[..i] && Heard(events[..n], i, ch);
      NoLostWakeUp(events[..n], i, ch);
      NothingLostStep(Run(events[..i]), Run(events[..n]), events[n], ch);
    } else {
      PublishSignals(Run(events[..n]), events[n].p, ch);
    }
  }

  /** The k-th event subscribed reader id, as channel ch. */
  ghost predicate SubscribedAt(events: seq<Event>, k: nat, id: nat, ch: Channel)
    requires k < |events|
  {
    var s := Run(events[..k]);
    events[k] == Subscribe(id) && id in s.readers && ch == s.bus.made
  }

  lemma QuietStep(s: State, e: Event, ch: Channel, p: Point, stream: Stream)
    requires Inv(s) && ch < s.bus.made && e != Publish(p) && ch !in s.bus.pending && stream.stage.Waiting?
    requires ch in s.streams ==> s.streams[ch] == stream && stream.point == p
    ensures var t := Step(s, e);
            && ch < t.bus.made && ch !in t.bus.pending && (ch in t.streams ==> t.streams[ch] == stream)
            && At(t.announced, p) == At(s.announced, p) && At(s.writes, p) <= At(t.writes, p)
  {
    if e.Publish? {
      assert ch in Listeners(s.bus.subs, e.p) <==> ch in s.streams && s.streams[ch].point == e.p;
    }
  }

  /** Until a publication after it subscribed, a stream shows its first snapshot. */
  lemma {:induction false} FirstSnapshotStays(events: seq<Event>, k: nat, id: nat, ch: Channel)
    requires k < |events| && SubscribedAt(events, k, id, ch)
    requires forall i :: k < i < |events| ==> events[i] != Publish(Run(events[..k]).readers[id].point)
    ensures var (s, reader) := (Run(events), Run(events[..k]).readers[id]);
            && ch < s.bus.made && ch !in s.bus.pending
            && (ch in s.streams ==> s.streams[ch] == Stream(reader.point, Waiting, reader.seen))
            && At(s.announced, reader.point) == At(Run(events[..k]).announced, reader.point)
            && At(Run(events[..k]).writes, reader.point) <= At(s.writes, reader.point)
    decreases |events|
  {
    var n := |events| - 1;
    RunKeeps(events[..k]);
    RunKeeps(events[..n]);
    if k < n {
      assert events[..n][..k] == events[..k];
      FirstSnapshotStays(events[..n], k, id, ch);
      var r := Run(events[..k]).readers[id];
      QuietStep(Run(events[..n]), events[n], ch, r.point, Stream(r.point, Waiting, r.seen));
    }
  }

  /** The most recent publication at a point is what it announced. */
  lemma {:induction false} LastPublication(events: seq<Event>, p: Point, k: nat) returns (i: nat)
    requires exists i :: k < i < |events| && events[i] == Publish(p)
    ensures k < i < |events| && events[i] == Publish(p)
    ensures At(Run(events).announced, p) == At(Run(events[..i]).writes, p)
    decreases |events|
  {
    var n := |events| - 1;
    if events[n] == Publish(p) {
      i := n;
    } else {
      var m :| k < m < |events| && events[m] == Publish(p);
      assert events[..n][m] == Publish(p);
      i := LastPublication(events[..n], p, k);
      assert events[..n][..i] == events[..i];
    }
  }

  lemma {:induction false} StillOpen(events: seq<Event>, k: nat, id: nat, ch: Channel)
    requires k < |events| && SubscribedAt(events, k, id, ch)
    ensures ch < Run(events).bus.made
    ensures ch in Run(events).streams ==> Run(events).streams[ch].point == Run(events[..k]).readers[id].point
    decreases |events|
  {
    var n := |events| - 1;
    RunKeeps(events[..n]);
    if k < n {
      assert events[..n][..k] == events[..k];
      StillOpen(events[..n], k, id, ch);
      StreamStep(Run(events[..n]), events[n], ch, 0);
    }
  }

  lemma {:induction false} WasOpen(events: seq<Event>, i: nat, ch: Channel)
    requires i <= |events| && ch < Run(events[..i]).bus.made && ch in Run(events).streams
    ensures ch in Run(events[..i]).streams
    decreases |events|
  {
    if i == |events| {
      assert events[..i] == events;
    } else {
      var n := |events| - 1;
      assert events[..n][..i] == events[..i];
      RunKeeps(events[..n]);
      MadeGrows(events[..n], i);
      StreamStep(Run(events[..n]), events[n], ch, 0);
      WasOpen(events[..n], i, ch);
    }
  }

  lemma {:induction false} MadeGrows(events: seq<Event>, i: nat)
    requires i <= |events|
    ensures Run(events[..i]).bus.made <= Run(events).bus.made
  {
    if i == |events| {
      assert events[..i] == events;
    } else {
      assert events[..|events| - 1][..i] == events[..i];
      MadeGrows(events[..|events| - 1], i);
    }
  }

  /** When every write is announced, a waiting stream with no signal shows the newest state
      exactly when something was published since it subscribed, or nothing was written
      between its first snapshot and its subscription. */
  lemma FreshUnlessMissed(events: seq<Event>, k: nat, id: nat, ch: Channel)
    requires k < |events| && SubscribedAt(events, k, id, ch)
    requires ch in Run(events).streams && !Owes(Run(events), ch)
    requires var p := Run(events).streams[ch].point; At(Run(events).announced, p) == At(Run(events).writes, p)
    ensures var (s, before) := (Run(events), Run(events[..k]));
            var p := before.readers[id].point;
            && s.streams[ch].point == p
            && (s.streams[ch].seen == At(s.writes, p) <==>
                || (exists i :: k < i < |events| && events[i] == Publish(p))
                || before.readers[id].seen == At(before.writes, p))
  {
    var s, before := Run(events), Run(events[..k]);
    var p := before.readers[id].point;
    StillOpen(events, k, id, ch);
    RunKeeps(events);
    RunKeeps(events[..k]);
    if exists i :: k < i < |events| && events[i] == Publish(p) {
      var i := LastPublication(events, p, k);
      assert events[..i][..k] == events[..k];
      StillOpen(events[..i], k, id, ch);
      WasOpen(events, i, ch);
      NoLostWakeUp(events, i, ch);
    } else {
      FirstSnapshotStays(events, k, id, ch);
    }
  }

  /** The window the condition names is real: a publication between the first snapshot and
      the subscription leaves the stream waiting with stale data. */
  lemma MissedPublication()
    ensures var s := Run([Open(0, 0), Write(0), Publish(0), Subscribe(0)]);
            0 in s.streams && !Owes(s, 0) && s.streams[0].seen < At(s.writes, 0) == At(s.announced, 0)
  {
    var events := [Open(0, 0), Write(0), Publish(0), Subscribe(0)];
    var s1 := Step(INIT, events[0]);
    var s2 := Step(s1, events[1]);
    var s3 := Step(s2, events[2]);
    assert events[..0] == [] && events[..1][..0] == [] && events[..2][..1] == events[..1] && events[..3][..2] == events[..2];
    assert Run(events[..1]) == s1;
    assert Run(events[..2]) == s2;
    assert Run(events[..3]) == s3;
    assert Run(events) == Step(s3, events[3]);
  }

  // ----- a signal is served -----

  /** A signalled stream that wakes and reads shows everything written so far and has no signal
      left. */
  lemma WakeServes(events: seq<Event>, ch: Channel)
    requires var s := Run(events); ch in s.streams && s.streams[ch].stage.Waiting? && ch in s.bus.pending
    ensures var (s, t) := (Run(events), Run(events + [Wake(ch), Snapshot(ch)]));
            && t.writes == s.writes && ch !in t.bus.pending
            && ch in t.streams && t.streams[ch].seen == At(s.writes, s.streams[ch].point)
  {
    var woken := events + [Wake(ch)];
    assert woken[..|events|] == events;
    assert (events + [Wake(ch), Snapshot(ch)])[..|events| + 1] == woken;
  }
}
