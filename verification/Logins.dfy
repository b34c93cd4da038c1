/** Password login as the lockout's caller: a check, some time later a failure or a reset,
    and other logins in between. */
module Logins {
  import opened Clock
  import opened Lockouts
  import opened Options
  import opened Spacing

  type LoginId = nat

  datatype Answer = Locked | InvalidCredentials | Forbidden | TokensIssued | Failed

  /** What the look-up and the comparison come to: the database fails; the name is unknown, has
      no password or another one; or it is the password, of an account that may log in or not. */
  datatype Finding = LookupError | NoMatch | Match(mayLogIn: bool)

  // ----- one login -----

  /** The entries after some operations of others. */
  function Fold(cfg: Config, m: Entries, ops: seq<Op>): Entries {
    if ops == [] then m else Lockouts.Step(cfg, true, Fold(cfg, m, ops[..|ops| - 1]), ops[|ops| - 1])
  }

  /** What a login and the others between its check and its end leave in the lockout. */
  function EntriesAfter(cfg: Config, m: Entries, key: string, checkedAt: Instant, others: seq<Op>, at: Instant,
                        found: Finding): Entries {
    if LockedFor(m, key, checkedAt).Some? then m
    else match found
      case LookupError => Fold(cfg, m, others)
      case NoMatch => cfg.FailSwept(Fold(cfg, m, others), key, at)
      case Match(_) => Fold(cfg, m, others) - {key}
  }

  /** What other logins do meanwhile. */
  method Others(lockout: Lockout, ops: seq<Op>)
    modifies lockout
    ensures lockout.entries == Fold(lockout.cfg, old(lockout.entries), ops)
  {
    for i := 0 to |ops|
      invariant lockout.entries == Fold(lockout.cfg, old(lockout.entries), ops[..i])
    {
      assert ops[..i + 1][..i] == ops[..i];
      match ops[i]
      case Fail(key, at) => lockout.Fail(key, at);
      case Check(key, at) => var _, _ := lockout.Locked(key, at);
      case Reset(key, _) => lockout.Reset(key);
    }
    assert ops[..|ops|] == ops;
  }

  /** A locked name is refused before its password is looked at; an unknown name, one without
      a password and a wrong password are one failure each; the right password resets the name
      even when the account may not log in. Without a lockout nothing locks. */
  method LoginWithPassword(lockout: Lockout?, lockKey: string, checkedAt: Instant, others: seq<Op>, at: Instant,
                           found: Finding) returns (r: Answer)
    modifies lockout
    ensures lockout != null ==>
              lockout.entries == EntriesAfter(lockout.cfg, old(lockout.entries), lockKey, checkedAt, others, at, found)
    ensures r == Locked <==> lockout != null && LockedFor(old(lockout.entries), lockKey, checkedAt).Some?
    ensures r in {TokensIssued, Forbidden} && lockout != null ==> lockKey !in lockout.entries
    ensures r == InvalidCredentials && lockout != null ==>
              lockKey in lockout.entries && lockout.entries[lockKey].lastFailure == at
    ensures r != Locked ==>
              match found
              case LookupError => r == Failed
              case NoMatch => r == InvalidCredentials
              case Match(mayLogIn) => r == if mayLogIn then TokensIssued else Forbidden
  {
    if lockout != null {
      var locked, _ := lockout.Locked(lockKey, checkedAt);
      if locked {
        return Locked;
      }
      Others(lockout, others);
    }
    match found
    case LookupError => r := Failed;
    case NoMatch =>
      if lockout != null {
        lockout.Fail(lockKey, at);
      }
      r := InvalidCredentials;
    case Match(mayLogIn) =>
      if lockout != null {
        lockout.Reset(lockKey);
      }
      r := if mayLogIn then TokensIssued else Forbidden;
  }

  // ----- logins in any interleaving -----

  /** The lockout operations so far, and the name of each login that passed its check and
      has not ended. */
  datatype State = State(ops: seq<Op>, pending: map<LoginId, string>)

  const INIT: State := State([], map[])

  datatype Event =
    | Enter(id: LoginId, key: string, at: Instant)
    | Wrong(id: LoginId, at: Instant)
    | Right(id: LoginId, at: Instant)
    | Quit(id: LoginId, at: Instant)

  predicate Possible(s: State, e: Event) {
    e.id in s.pending <==> !e.Enter?
  }

  /** An event that is not possible changes nothing. */
  function Step(cfg: Config, s: State, e: Event): State {
    if !Possible(s, e) then s
    else match e
      case Enter(id, key, at) =>
        State(s.ops + [Check(key, at)],
              if LockedFor(Run(cfg, true, s.ops), key, at).Some? then s.pending else s.pending[id := key])
      case Wrong(id, at) => State(s.ops + [Fail(s.pending[id], at)], s.pending - {id})
      case Right(id, at) => State(s.ops + [Reset(s.pending[id], at)], s.pending - {id})
      case Quit(id, _) => s.(pending := s.pending - {id})
  }

  function RunFrom(cfg: Config, s: State, events: seq<Event>): State {
    if events == [] then s else Step(cfg, RunFrom(cfg, s, events[..|events| - 1]), events[|events| - 1])
  }

  lemma {:induction false} FoldOfRun(cfg: Config, before: seq<Op>, more: seq<Op>)
    ensures Run(cfg, true, before + more) == Fold(cfg, Run(cfg, true, before), more)
  {
    if more == [] {
      assert before + more == before;
    } else {
      var n := |more| - 1;
      assert (before + more)[..|before| + n] == before + more[..n];
      FoldOfRun(cfg, before, more[..n]);
    }
  }

  lemma {:induction false} OthersLeaveLogin(cfg: Config, s: State, events: seq<Event>, id: LoginId)
    requires id in s.pending && forall e :: e in events ==> e.id != id
    ensures s.ops <= RunFrom(cfg, s, events).ops
    ensures id in RunFrom(cfg, s, events).pending && RunFrom(cfg, s, events).pending[id] == s.pending[id]
  {
    if events != [] {
      assert forall e :: e in events[..|events| - 1] ==> e in events;
      OthersLeaveLogin(cfg, s, events[..|events| - 1], id);
      assert events[|events| - 1] in events;
    }
  }

  function End(id: LoginId, at: Instant, found: Finding): Event {
    match found case LookupError => Quit(id, at) case NoMatch => Wrong(id, at) case Match(_) => Right(id, at)
  }

  lemma EndingFolds(cfg: Config, ops: seq<Op>, others: seq<Op>, key: string, at: Instant)
    ensures var m := Fold(cfg, Run(cfg, true, ops), others);
            && Run(cfg, true, ops + others) == m
            && Run(cfg, true, ops + others + [Fail(key, at)]) == cfg.FailSwept(m, key, at)
            && Run(cfg, true, ops + others + [Reset(key, at)]) == m - {key}
  {
    FoldOfRun(cfg, ops, others);
    RunSnoc(cfg, true, ops + others, Fail(key, at));
    RunSnoc(cfg, true, ops + others, Reset(key, at));
  }

  lemma Entered(cfg: Config, s: State, id: LoginId, key: string, at: Instant)
    requires id !in s.pending
    ensures var (m, t) := (Run(cfg, true, s.ops), Step(cfg, s, Enter(id, key, at)));
            && t.ops == s.ops + [Check(key, at)] && Run(cfg, true, t.ops) == m
            && t.pending == if LockedFor(m, key, at).Some? then s.pending else s.pending[id := key]
  {
    RunSnoc(cfg, true, s.ops, Check(key, at));
  }

  lemma EndedLater(cfg: Config, entered: State, later: State, id: LoginId, key: string, checkedAt: Instant, at: Instant,
                   found: Finding)
    requires entered.ops <= later.ops && id in later.pending && later.pending[id] == key
    requires LockedFor(Run(cfg, true, entered.ops), key, checkedAt).None?
    ensures Run(cfg, true, Step(cfg, later, End(id, at, found)).ops) ==
            EntriesAfter(cfg, Run(cfg, true, entered.ops), key, checkedAt, later.ops[|entered.ops|..], at, found)
  {
    var others := later.ops[|entered.ops|..];
    assert later.ops == entered.ops + others;
    EndingFolds(cfg, entered.ops, others, key, at);
  }

  /** The events of a login, with any events of others between them, have the login's effect. */
  lemma LoginIsItsEvents(cfg: Config, s: State, id: LoginId, key: string, checkedAt: Instant, mid: seq<Event>,
                         at: Instant, found: Finding)
    requires id !in s.pending && forall e :: e in mid ==> e.id != id
    ensures var entered := Step(cfg, s, Enter(id, key, checkedAt));
            var later := RunFrom(cfg, entered, mid);
            var m := Run(cfg, true, s.ops);
            && (LockedFor(m, key, checkedAt).Some? ==> Run(cfg, true, entered.ops) == m && id !in entered.pending)
            && (LockedFor(m, key, checkedAt).None? ==>
                  && entered.ops <= later.ops
                  && Run(cfg, true, Step(cfg, later, End(id, at, found)).ops) ==
                     EntriesAfter(cfg, m, key, checkedAt, later.ops[|entered.ops|..], at, found))
  {
    var entered := Step(cfg, s, Enter(id, key, checkedAt));
    Entered(cfg, s, id, key, checkedAt);
    if LockedFor(Run(cfg, true, s.ops), key, checkedAt).None? {
      OthersLeaveLogin(cfg, entered, mid, id);
      EndedLater(cfg, entered, RunFrom(cfg, entered, mid), id, key, checkedAt, at, found);
    }
  }

  lemma RunSnoc(cfg: Config, sweep: bool, ops: seq<Op>, op: Op)
    ensures Run(cfg, sweep, ops + [op]) == Lockouts.Step(cfg, sweep, Run(cfg, sweep, ops), op)
  {
    assert (ops + [op])[..|ops|] == ops;
  }

  lemma FailTimesSnoc(ops: seq<Op>, op: Op, key: string)
    ensures FailTimes(ops + [op], key) ==
            if op.Fail? && op.key == key then FailTimes(ops, key) + [op.at] else FailTimes(ops, key)
  {
    assert (ops + [op])[..|ops|] == ops;
  }

  // ----- overlapping logins of one name -----

  /** The logins of a name between their unlocked check and their end. */
  function Overlap(s: State, key: string): set<LoginId> {
    set id | id in s.pending && s.pending[id] == key
  }

  ghost predicate Timely(events: seq<Event>) {
    && (forall i :: 0 <= i < |events| ==> events[i].at >= ZERO_TIME)
    && forall i, j :: 0 <= i < j < |events| ==> events[i].at <= events[j].at
  }

  ghost predicate NeverReset(ops: seq<Op>, key: string) {
    forall i :: 0 <= i < |ops| ==> ops[i] != Reset(key, ops[i].at)
  }

  /** Never more than c logins of the name overlap, and none of them is right. Logins of other
      names may do anything. */
  ghost predicate Guessing(cfg: Config, events: seq<Event>, key: string, c: nat) {
    && Timely(events)
    && NeverReset(RunFrom(cfg, INIT, events).ops, key)
    && forall n :: 0 <= n <= |events| ==> |Overlap(RunFrom(cfg, INIT, events[..n]), key)| <= c
  }

  function Guesses(cfg: Config, events: seq<Event>, key: string): seq<Instant> {
    FailTimes(RunFrom(cfg, INIT, events).ops, key)
  }

  // ----- how many of a name's failures are recent -----

  /** How many of the times lie less than d before t. */
  function Recent(h: seq<Instant>, t: Instant, d: Duration): nat {
    if h == [] then 0 else Recent(h[..|h| - 1], t, d) + if h[|h| - 1] > t - d then 1 else 0
  }

  lemma RecentSnoc(h: seq<Instant>, x: Instant, t: Instant, d: Duration)
    ensures Recent(h + [x], t, d) == Recent(h, t, d) + if x > t - d then 1 else 0
  {
    assert (h + [x])[..|h|] == h;
  }

  lemma {:induction false} NoneRecent(h: seq<Instant>, t: Instant, d: Duration)
    requires forall i :: 0 <= i < |h| ==> h[i] <= t - d
    ensures Recent(h, t, d) == 0
  {
    if h != [] {
      NoneRecent(h[..|h| - 1], t, d);
    }
  }

  lemma {:induction false} LastAreRecent(h: seq<Instant>, t: Instant, d: Duration, m: nat)
    requires m <= |h| && forall i :: |h| - m <= i < |h| ==> h[i] > t - d
    ensures Recent(h, t, d) >= m
  {
    if m > 0 {
      LastAreRecent(h[..|h| - 1], t, d, m - 1);
    }
  }

  lemma FewRecentMeansSpaced(h: seq<Instant>, t: Instant, d: Duration, m: nat)
    requires Ascending(h) && 0 < m <= |h| && Recent(h, t, d) < m
    ensures t - h[|h| - m] >= d
  {
    var first := |h| - m;
    if h[first] > t - d {
      forall i | first <= i < |h| ensures h[i] > t - d {
        assert i == first || h[first] <= h[i];
      }
      LastAreRecent(h, t, d, m);
    }
  }

  // ----- the bound -----

  function EntryOf(m: Entries, key: string): Entry {
    if key in m then m[key] else FRESH
  }

  /** h are the failure times of a name with entry e and p logins pending. From any later
      moment t, the failures less than a duration back are at most the present count once the
      lock is over; while it runs, they and the pending logins make at most the bound. */
  ghost predicate BoundInv(cfg: Config, c: nat, h: seq<Instant>, e: Entry, p: nat, now: Instant) {
    && Ascending(h) && Spaced(h, cfg.maxFailures + c - 1, cfg.duration)
    && (forall i :: 0 <= i < |h| ==> h[i] <= now)
    && 0 <= e.failures < cfg.maxFailures && p <= c && ZERO_TIME <= now
    && (if h == [] then e == FRESH else e.lastFailure == h[|h| - 1])
    && (forall t :: t >= now && t >= e.lockedUntil ==> Recent(h, t, cfg.duration) <= e.failures)
    && (forall t :: now <= t < e.lockedUntil ==> Recent(h, t, cfg.duration) + p <= cfg.maxFailures + c - 1)
  }

  lemma StaleHasNoneRecent(cfg: Config, c: nat, h: seq<Instant>, e: Entry, p: nat, now: Instant, t: Instant)
    requires BoundInv(cfg, c, h, e, p, now) && cfg.Stale(e, now) && t >= now
    ensures Recent(h, t, cfg.duration) == 0
  {
    forall i | 0 <= i < |h| ensures h[i] <= t - cfg.duration {
      assert i == |h| - 1 || h[i] <= h[|h| - 1];
    }
    NoneRecent(h, t, cfg.duration);
  }

  /** A pending login fails at now. */
  lemma FailureKeepsBound(cfg: Config, c: nat, h: seq<Instant>, e: Entry, p: nat, now: Instant)
    requires cfg.Enabled() && c >= 1 && p >= 1 && BoundInv(cfg, c, h, e, p, now)
    ensures BoundInv(cfg, c, h + [now], cfg.Failed(if cfg.Stale(e, now) then FRESH else e, now), p - 1, now)
  {
    var m, d := cfg.maxFailures + c - 1, cfg.duration;
    var counted := if cfg.Stale(e, now) then FRESH else e;
    assert Recent(h, now, d) <= m - 1;
    if m <= |h| {
      FewRecentMeansSpaced(h, now, d, m);
    }
    SpacedSnoc(h, m, d, now);
    forall t | t >= now
      ensures Recent(h + [now], t, d) <= Recent(h, t, d) + 1
      ensures t >= now + d ==> Recent(h + [now], t, d) == 0
      ensures cfg.Stale(e, now) ==> Recent(h, t, d) == 0
    {
      RecentSnoc(h, now, t, d);
      if t >= now + d {
        NoneRecent(h + [now], t, d);
      }
      if cfg.Stale(e, now) {
        StaleHasNoneRecent(cfg, c, h, e, p, now, t);
      }
    }
  }

  lemma LockedPlain(cfg: Config, ops: seq<Op>, key: string, now: Instant)
    requires ClockRuns(ops) && forall i :: 0 <= i < |ops| ==> ops[i].at <= now
    ensures LockedFor(Run(cfg, true, ops), key, now) == LockedFor(Run(cfg, false, ops), key, now)
  {
    SweepOnlyDropsStale(cfg, ops, now);
  }

  ghost predicate Until(ops: seq<Op>, now: Instant) {
    ClockRuns(ops) && forall i :: 0 <= i < |ops| ==> ops[i].at <= now
  }

  ghost predicate Bounded(cfg: Config, c: nat, s: State, key: string, now: Instant) {
    && Until(s.ops, now)
    && BoundInv(cfg, c, FailTimes(s.ops, key), EntryOf(Run(cfg, false, s.ops), key), |Overlap(s, key)|, now)
  }

  lemma OverlapShrinks(s: State, id: LoginId, key: string)
    requires id in s.pending
    ensures |Overlap(s.(pending := s.pending - {id}), key)| ==
            |Overlap(s, key)| - if s.pending[id] == key then 1 else 0
  {
    assert Overlap(s.(pending := s.pending - {id}), key) == Overlap(s, key) - {id};
  }

  lemma Later(cfg: Config, c: nat, s: State, key: string, now: Instant, later: Instant)
    requires Bounded(cfg, c, s, key, now) && now <= later
    ensures Bounded(cfg, c, s, key, later)
  {
  }

  /** One more operation that does not concern the name, or only asks about it. */
  lemma OtherOp(cfg: Config, ops: seq<Op>, op: Op, key: string, now: Instant)
    requires Until(ops, now) && op.at == now && ZERO_TIME <= now && (op.key == key ==> op.Check?)
    ensures Until(ops + [op], now) && FailTimes(ops + [op], key) == FailTimes(ops, key)
    ensures EntryOf(Run(cfg, false, ops + [op]), key) == EntryOf(Run(cfg, false, ops), key)
  {
    RunSnoc(cfg, false, ops, op);
    FailTimesSnoc(ops, op, key);
  }

  lemma OwnFailure(cfg: Config, ops: seq<Op>, key: string, now: Instant)
    requires Until(ops, now) && ZERO_TIME <= now
    ensures Until(ops + [Fail(key, now)], now)
    ensures FailTimes(ops + [Fail(key, now)], key) == FailTimes(ops, key) + [now]
    ensures var e := EntryOf(Run(cfg, false, ops), key);
            EntryOf(Run(cfg, false, ops + [Fail(key, now)]), key) == cfg.Failed(if cfg.Stale(e, now) then FRESH else e, now)
  {
    RunSnoc(cfg, false, ops, Fail(key, now));
    FailTimesSnoc(ops, Fail(key, now), key);
  }

  lemma EnterKeepsBound(cfg: Config, c: nat, s: State, key: string, e: Event)
    requires cfg.Enabled() && c >= 1 && Bounded(cfg, c, s, key, e.at)
    requires e.Enter? && Possible(s, e) && |Overlap(Step(cfg, s, e), key)| <= c
    ensures Bounded(cfg, c, Step(cfg, s, e), key, e.at)
  {
    LockedPlain(cfg, s.ops, e.key, e.at);
    OtherOp(cfg, s.ops, Check(e.key, e.at), key, e.at);
    var t := Step(cfg, s, e);
    if e.key != key || LockedFor(Run(cfg, true, s.ops), key, e.at).Some? {
      assert Overlap(t, key) == Overlap(s, key);
    }
  }

  lemma WrongKeepsBound(cfg: Config, c: nat, s: State, key: string, id: LoginId, at: Instant)
    requires cfg.Enabled() && c >= 1 && Bounded(cfg, c, s, key, at)
    requires id in s.pending && s.pending[id] == key
    ensures Bounded(cfg, c, Step(cfg, s, Wrong(id, at)), key, at)
  {
    OverlapShrinks(s, id, key);
    assert Overlap(Step(cfg, s, Wrong(id, at)), key) == Overlap(s.(pending := s.pending - {id}), key);
    assert id in Overlap(s, key);
    OwnFailure(cfg, s.ops, key, at);
    FailureKeepsBound(cfg, c, FailTimes(s.ops, key), EntryOf(Run(cfg, false, s.ops), key), |Overlap(s, key)|, at);
  }

  lemma EndKeepsBound(cfg: Config, c: nat, s: State, key: string, e: Event)
    requires cfg.Enabled() && c >= 1 && Bounded(cfg, c, s, key, e.at)
    requires !e.Enter? && Possible(s, e) && (e.Quit? || s.pending[e.id] != key)
    ensures Bounded(cfg, c, Step(cfg, s, e), key, e.at)
  {
    var name := s.pending[e.id];
    OverlapShrinks(s, e.id, key);
    assert Overlap(Step(cfg, s, e), key) == Overlap(s.(pending := s.pending - {e.id}), key);
    if e.Wrong? {
      OtherOp(cfg, s.ops, Fail(name, e.at), key, e.at);
    } else if e.Right? {
      OtherOp(cfg, s.ops, Reset(name, e.at), key, e.at);
    }
  }

  lemma StepKeepsBound(cfg: Config, c: nat, s: State, key: string, e: Event)
    requires cfg.Enabled() && c >= 1 && Bounded(cfg, c, s, key, e.at)
    requires |Overlap(Step(cfg, s, e), key)| <= c && NeverReset(Step(cfg, s, e).ops, key)
    ensures Bounded(cfg, c, Step(cfg, s, e), key, e.at)
  {
    if Possible(s, e) {
      if e.Enter? {
        EnterKeepsBound(cfg, c, s, key, e);
      } else if e.Wrong? && s.pending[e.id] == key {
        WrongKeepsBound(cfg, c, s, key, e.id, e.at);
      } else {
        if e.Right? {
          assert Step(cfg, s, e).ops[|s.ops|] == Reset(s.pending[e.id], e.at);
        }
        EndKeepsBound(cfg, c, s, key, e);
      }
    }
  }

  lemma GuessingPrefix(cfg: Config, events: seq<Event>, key: string, c: nat)
    requires events != [] && Guessing(cfg, events, key, c)
    ensures Guessing(cfg, events[..|events| - 1], key, c)
    ensures |Overlap(RunFrom(cfg, INIT, events), key)| <= c
  {
    var init := events[..|events| - 1];
    var before, after := RunFrom(cfg, INIT, init).ops, RunFrom(cfg, INIT, events).ops;
    assert before <= after;
    forall i | 0 <= i < |before| ensures before[i] != Reset(key, before[i].at) {
      assert after[i] == before[i];
    }
    forall n | 0 <= n <= |init| ensures |Overlap(RunFrom(cfg, INIT, init[..n]), key)| <= c {
      assert init[..n] == events[..n];
    }
    assert events[..|events|] == events;
  }

  lemma {:induction false} GuessingIsBounded(cfg: Config, c: nat, events: seq<Event>, key: string, now: Instant)
    requires cfg.Enabled() && c >= 1 && Guessing(cfg, events, key, c)
    requires ZERO_TIME <= now && (events != [] ==> events[|events| - 1].at <= now)
    ensures Bounded(cfg, c, RunFrom(cfg, INIT, events), key, now)
  {
    if events == [] {
      assert Overlap(INIT, key) == {};
    } else {
      var n := |events| - 1;
      GuessingPrefix(cfg, events, key, c);
      GuessingIsBounded(cfg, c, events[..n], key, events[n].at);
      StepKeepsBound(cfg, c, RunFrom(cfg, INIT, events[..n]), key, events[n]);
      Later(cfg, c, RunFrom(cfg, INIT, events), key, events[n].at, now);
    }
  }

  /** Whatever the interleaving, and whatever logins of other names do: with at most c wrong
      logins of a name overlapping, no interval as long as the lock holds more than
      maxFailures + c - 1 of its failures. */
  lemma GuessesAreBounded(cfg: Config, c: nat, events: seq<Event>, key: string, from: Instant)
    requires cfg.Enabled() && c >= 1 && Guessing(cfg, events, key, c)
    ensures CountWithin(Guesses(cfg, events, key), from, from + cfg.duration) <= cfg.maxFailures + c - 1
  {
    GuessingIsBounded(cfg, c, events, key, if events == [] then ZERO_TIME else events[|events| - 1].at);
    SpacedMeansFew(Guesses(cfg, events, key), cfg.maxFailures + c - 1, cfg.duration, from);
  }

  // ----- the bound is attained -----

  ghost predicate AllAtZero(events: seq<Event>) {
    forall i :: 0 <= i < |events| ==> events[i].at == 0
  }

  lemma GuessingSnoc(cfg: Config, events: seq<Event>, e: Event, key: string, c: nat)
    requires Guessing(cfg, events, key, c) && AllAtZero(events) && e.at == 0 && !e.Right?
    requires |Overlap(RunFrom(cfg, INIT, events + [e]), key)| <= c
    ensures Guessing(cfg, events + [e], key, c) && AllAtZero(events + [e])
    ensures RunFrom(cfg, INIT, events + [e]) == Step(cfg, RunFrom(cfg, INIT, events), e)
  {
    var all := events + [e];
    assert all[..|events|] == events;
    forall n | 0 <= n <= |all| ensures |Overlap(RunFrom(cfg, INIT, all[..n]), key)| <= c {
      if n <= |events| {
        assert all[..n] == events[..n];
      } else {
        assert all[..n] == all;
      }
    }
  }

  /** Just the logins low..high are pending, all of the name. */
  ghost predicate Waiting(s: State, key: string, low: nat, high: nat) {
    forall id :: (id in s.pending <==> low <= id < high) && (id in s.pending ==> s.pending[id] == key)
  }

  /** f failures, all at instant zero, and the logins low..high pending. */
  ghost predicate Reached(s: State, key: string, f: nat, low: nat, high: nat) {
    && |FailTimes(s.ops, key)| == f
    && (forall i :: 0 <= i < f ==> FailTimes(s.ops, key)[i] == 0)
    && Waiting(s, key, low, high)
  }

  /** f failures counted, and no lock. */
  ghost predicate Counting(cfg: Config, s: State, key: string, f: nat) {
    Run(cfg, true, s.ops) == if f == 0 then map[] else map[key := Entry(f, 0, ZERO_TIME)]
  }

  function Ids(low: nat, high: nat): (ids: set<nat>)
    requires low <= high
    ensures |ids| == high - low
    ensures forall id :: id in ids <==> low <= id < high
    decreases high
  {
    if low == high then {} else Ids(low, high - 1) + {high - 1}
  }

  lemma OverlapSize(s: State, key: string, low: nat, high: nat)
    requires low <= high && Waiting(s, key, low, high)
    ensures |Overlap(s, key)| == high - low
  {
    assert Overlap(s, key) == Ids(low, high);
  }

  lemma OneEnters(cfg: Config, s: State, key: string, f: nat, high: nat)
    requires Reached(s, key, f, 0, high) && Counting(cfg, s, key, f)
    ensures var t := Step(cfg, s, Enter(high, key, 0));
            Reached(t, key, f, 0, high + 1) && Counting(cfg, t, key, f)
  {
    Entered(cfg, s, high, key, 0);
    FailTimesSnoc(s.ops, Check(key, 0), key);
  }

  lemma OneFails(cfg: Config, s: State, key: string, f: nat, low: nat, high: nat)
    requires low < high && Reached(s, key, f, low, high)
    ensures Reached(Step(cfg, s, Wrong(low, 0)), key, f + 1, low + 1, high)
  {
    FailTimesSnoc(s.ops, Fail(key, 0), key);
  }

  lemma OneCounts(cfg: Config, s: State, key: string, f: nat, low: nat, high: nat)
    requires cfg.Enabled() && low < high && f + 1 < cfg.maxFailures
    requires Reached(s, key, f, low, high) && Counting(cfg, s, key, f)
    ensures Counting(cfg, Step(cfg, s, Wrong(low, 0)), key, f + 1)
  {
    RunSnoc(cfg, true, s.ops, Fail(key, 0));
    CountOne(cfg, Run(cfg, true, s.ops), key, f);
  }

  lemma CountOne(cfg: Config, m: Entries, key: string, f: nat)
    requires cfg.Enabled() && f + 1 < cfg.maxFailures
    requires m == if f == 0 then map[] else map[key := Entry(f, 0, ZERO_TIME)]
    ensures cfg.FailSwept(m, key, 0) == map[key := Entry(f + 1, 0, ZERO_TIME)]
  {
    assert |m| <= 1;
  }

  /** Where a guessing run has led. */
  ghost predicate LeadsTo(cfg: Config, events: seq<Event>, key: string, c: nat, s: State) {
    Guessing(cfg, events, key, c) && AllAtZero(events) && RunFrom(cfg, INIT, events) == s
  }

  lemma Extend(cfg: Config, events: seq<Event>, key: string, c: nat, s: State, e: Event) returns (longer: seq<Event>)
    requires LeadsTo(cfg, events, key, c, s) && e.at == 0 && !e.Right? && |Overlap(Step(cfg, s, e), key)| <= c
    ensures LeadsTo(cfg, longer, key, c, Step(cfg, s, e))
  {
    longer := events + [e];
    assert longer[..|events|] == events;
    GuessingSnoc(cfg, events, e, key, c);
  }

  lemma MoreEnter(cfg: Config, events: seq<Event>, key: string, c: nat, s: State, f: nat, high: nat)
    returns (longer: seq<Event>, t: State)
    requires LeadsTo(cfg, events, key, c, s) && high < c
    requires Reached(s, key, f, 0, high) && Counting(cfg, s, key, f)
    ensures LeadsTo(cfg, longer, key, c, t) && Reached(t, key, f, 0, high + 1) && Counting(cfg, t, key, f)
  {
    t := Step(cfg, s, Enter(high, key, 0));
    OneEnters(cfg, s, key, f, high);
    OverlapSize(t, key, 0, high + 1);
    longer := Extend(cfg, events, key, c, s, Enter(high, key, 0));
  }

  lemma MoreFail(cfg: Config, events: seq<Event>, key: string, c: nat, s: State, f: nat, low: nat, high: nat)
    returns (longer: seq<Event>, t: State)
    requires cfg.Enabled() && LeadsTo(cfg, events, key, c, s) && low < high <= c && Reached(s, key, f, low, high)
    ensures LeadsTo(cfg, longer, key, c, t) && Reached(t, key, f + 1, low + 1, high)
    ensures Counting(cfg, s, key, f) && f + 1 < cfg.maxFailures ==> Counting(cfg, t, key, f + 1)
  {
    t := Step(cfg, s, Wrong(low, 0));
    OneFails(cfg, s, key, f, low, high);
    OverlapSize(t, key, low + 1, high);
    longer := Extend(cfg, events, key, c, s, Wrong(low, 0));
    if Counting(cfg, s, key, f) && f + 1 < cfg.maxFailures {
      OneCounts(cfg, s, key, f, low, high);
    }
  }

  lemma NothingYet(cfg: Config, key: string, c: nat)
    ensures LeadsTo(cfg, [], key, c, INIT) && Reached(INIT, key, 0, 0, 0) && Counting(cfg, INIT, key, 0)
  {
    assert Overlap(INIT, key) == {};
  }

  lemma Emptied(s: State, key: string, f: nat)
    requires Reached(s, key, f, 1, 1)
    ensures Reached(s, key, f, 0, 0)
  {
  }

  lemma OneMore(cfg: Config, events: seq<Event>, key: string, c: nat, s: State, f: nat)
    returns (longer: seq<Event>, t: State)
    requires cfg.Enabled() && c >= 1 && f + 1 < cfg.maxFailures
    requires LeadsTo(cfg, events, key, c, s) && Reached(s, key, f, 0, 0) && Counting(cfg, s, key, f)
    ensures LeadsTo(cfg, longer, key, c, t) && Reached(t, key, f + 1, 0, 0) && Counting(cfg, t, key, f + 1)
  {
    var entered, u := MoreEnter(cfg, events, key, c, s, f, 0);
    longer, t := MoreFail(cfg, entered, key, c, u, f, 0, 1);
    Emptied(t, key, f + 1);
  }

  /** f wrong logins, each alone. */
  lemma {:induction false} SerialFailures(cfg: Config, key: string, c: nat, f: nat)
    returns (events: seq<Event>, s: State)
    requires cfg.Enabled() && c >= 1 && f < cfg.maxFailures
    ensures LeadsTo(cfg, events, key, c, s) && Reached(s, key, f, 0, 0) && Counting(cfg, s, key, f)
  {
    if f == 0 {
      NothingYet(cfg, key, c);
      events, s := [], INIT;
    } else {
      events, s := SerialFailures(cfg, key, c, f - 1);
      events, s := OneMore(cfg, events, key, c, s, f - 1);
    }
  }

  lemma {:induction false} AllEnter(cfg: Config, key: string, c: nat, high: nat) returns (events: seq<Event>, s: State)
    requires cfg.Enabled() && 1 <= c && high <= c
    ensures LeadsTo(cfg, events, key, c, s)
    ensures Reached(s, key, cfg.maxFailures - 1, 0, high) && Counting(cfg, s, key, cfg.maxFailures - 1)
  {
    if high == 0 {
      events, s := SerialFailures(cfg, key, c, cfg.maxFailures - 1);
    } else {
      events, s := AllEnter(cfg, key, c, high - 1);
      events, s := MoreEnter(cfg, events, key, c, s, cfg.maxFailures - 1, high - 1);
    }
  }

  lemma {:induction false} AllFail(cfg: Config, key: string, c: nat, low: nat) returns (events: seq<Event>, s: State)
    requires cfg.Enabled() && c >= 1 && low <= c
    ensures LeadsTo(cfg, events, key, c, s) && Reached(s, key, cfg.maxFailures - 1 + low, low, c)
  {
    if low == 0 {
      events, s := AllEnter(cfg, key, c, c);
    } else {
      events, s := AllFail(cfg, key, c, low - 1);
      events, s := MoreFail(cfg, events, key, c, s, cfg.maxFailures - 1 + (low - 1), low - 1, c);
    }
  }

  /** All but one of the allowed failures, then c logins that all check before any fails. */
  lemma BoundIsAttained(cfg: Config, c: nat, key: string) returns (events: seq<Event>)
    requires cfg.Enabled() && c >= 1
    ensures Guessing(cfg, events, key, c)
    ensures CountWithin(Guesses(cfg, events, key), 0, cfg.duration) == cfg.maxFailures + c - 1
  {
    var s;
    events, s := AllFail(cfg, key, c, c);
    var h := Guesses(cfg, events, key);
    CountOfTail(h, 0, cfg.duration, |h|);
  }

  ghost predicate AsDocumented(cfg: Config, events: seq<Event>, key: string, from: Instant) {
    CountWithin(Guesses(cfg, events, key), from, from + cfg.duration) <= cfg.maxFailures
  }

  /** The documented bound holds of all such runs exactly when logins of a name never overlap. */
  lemma BoundNeedsSerialLogins(cfg: Config, c: nat, key: string)
    requires cfg.Enabled() && c >= 1
    ensures (forall events, from :: Guessing(cfg, events, key, c) ==> AsDocumented(cfg, events, key, from)) <==> c == 1
  {
    if c == 1 {
      forall events, from | Guessing(cfg, events, key, c) ensures AsDocumented(cfg, events, key, from) {
        GuessesAreBounded(cfg, c, events, key, from);
      }
    } else {
      var events := BoundIsAttained(cfg, c, key);
      assert !AsDocumented(cfg, events, key, 0);
    }
  }
}
