/** Locks a key after too many consecutive failures. The class sweeps stale entries
    when its map grows; the lemmas show that nobody can tell. */
module Lockouts {
  import opened Clock
  import opened Iteration
  import opened Options
  import opened Spacing

  datatype Entry = Entry(failures: int, lastFailure: Instant, lockedUntil: Instant)

  type Entries = map<string, Entry>

  /** The clock's zero value, before every reading. */
  const ZERO_TIME: Instant := -62_135_596_800_000_000_000

  const FRESH: Entry := Entry(0, ZERO_TIME, ZERO_TIME)

  const SWEEP_ABOVE: int := 10000

  datatype Config = Config(maxFailures: int, duration: Duration) {
    predicate Enabled() {
      maxFailures > 0 && duration > 0
    }

    /** Unlocked, and silent for so long that the entry no longer matters. */
    predicate Stale(e: Entry, now: Instant) {
      now >= e.lockedUntil && now - e.lastFailure >= duration
    }

    /** The entry after one more failure. */
    function Failed(e: Entry, now: Instant): Entry {
      if e.failures + 1 >= maxFailures then Entry(0, now, now + duration)
      else Entry(e.failures + 1, now, e.lockedUntil)
    }

    function Swept(m: Entries, now: Instant): Entries {
      map k | k in m && !Stale(m[k], now) :: m[k]
    }

    /** A failure without any sweep. */
    function FailPlain(m: Entries, key: string, now: Instant): Entries {
      var e := if key in m && !Stale(m[key], now) then m[key] else FRESH;
      m[key := Failed(e, now)]
    }

    function FailSwept(m: Entries, key: string, now: Instant): Entries {
      FailPlain(if |m| > SWEEP_ABOVE then Swept(m, now) else m, key, now)
    }
  }

  /** The remaining lock time, if locked. */
  function LockedFor(m: Entries, key: string, now: Instant): Option<Duration> {
    if key in m && now < m[key].lockedUntil then Some(m[key].lockedUntil - now) else None
  }

  class Lockout {
    const cfg: Config
    var entries: Entries

    constructor (cfg: Config)
      requires cfg.Enabled()
      ensures this.cfg == cfg && entries == map[]
    {
      this.cfg := cfg;
      entries := map[];
    }

    method Sweep(now: Instant)
      modifies this
      ensures entries == cfg.Swept(old(entries), now)
    {
      var keys := entries.Keys;
      while keys != {}
        invariant keys <= entries.Keys
        invariant forall k :: k in entries <==> k in old(entries) && (k in keys || !cfg.Stale(old(entries)[k], now))
        invariant forall k :: k in entries ==> entries[k] == old(entries)[k]
      {
        var k := Pick(keys);
        keys := keys - {k};
        if cfg.Stale(entries[k], now) {
          entries := entries - {k};
        }
      }
    }

    method Fail(key: string, now: Instant)
      modifies this
      ensures entries == cfg.FailSwept(old(entries), key, now)
    {
      if |entries| > SWEEP_ABOVE {
        Sweep(now);
      }
      var e := FRESH;
      if key in entries && !cfg.Stale(entries[key], now) {
        e := entries[key];
      }
      e := e.(failures := e.failures + 1, lastFailure := now);
      if e.failures >= cfg.maxFailures {
        e := e.(failures := 0, lockedUntil := now + cfg.duration);
      }
      entries := entries[key := e];
    }

    method Locked(key: string, now: Instant) returns (locked: bool, retryAfter: Duration)
      ensures locked <==> LockedFor(entries, key, now).Some?
      ensures retryAfter == if locked then LockedFor(entries, key, now).value else 0
    {
      if key !in entries || now >= entries[key].lockedUntil {
        return false, 0;
      }
      return true, entries[key].lockedUntil - now;
    }

    method Reset(key: string)
      modifies this
      ensures entries == old(entries) - {key}
    {
      entries := entries - {key};
    }
  }

  /** A lockout that is not configured is null and never locks. */
  method NewLockout(maxFailures: int, duration: Duration) returns (l: Lockout?)
    ensures l == null <==> !Config(maxFailures, duration).Enabled()
    ensures l != null ==> fresh(l) && l.cfg == Config(maxFailures, duration) && l.entries == map[]
  {
    l := null;
    if maxFailures > 0 && duration > 0 {
      l := new Lockout(Config(maxFailures, duration));
    }
  }

  // ----- runs -----

  datatype Op = Fail(key: string, at: Instant) | Check(key: string, at: Instant) | Reset(key: string, at: Instant)

  /** The clock, read before the lock is taken, never goes back. */
  ghost predicate ClockRuns(ops: seq<Op>) {
    && (forall i :: 0 <= i < |ops| ==> ops[i].at >= ZERO_TIME)
    && forall i, j :: 0 <= i < j < |ops| ==> ops[i].at <= ops[j].at
  }

  function Step(cfg: Config, sweep: bool, m: Entries, op: Op): Entries {
    match op
    case Fail(key, at) => if sweep then cfg.FailSwept(m, key, at) else cfg.FailPlain(m, key, at)
    case Check(_, _) => m
    case Reset(key, _) => m - {key}
  }

  function Run(cfg: Config, sweep: bool, ops: seq<Op>): Entries {
    if ops == [] then map[]
    else Step(cfg, sweep, Run(cfg, sweep, ops[..|ops| - 1]), ops[|ops| - 1])
  }

  /** The answers to every question asked in a run, in order. */
  function Answers(cfg: Config, sweep: bool, ops: seq<Op>): seq<Option<Duration>> {
    if ops == [] then []
    else
      var last := ops[|ops| - 1];
      Answers(cfg, sweep, ops[..|ops| - 1]) +
      (if last.Check? then [LockedFor(Run(cfg, sweep, ops[..|ops| - 1]), last.key, last.at)] else [])
  }

  /** What the sweep removed was stale at that time, and stays so. */
  ghost predicate SweptOf(cfg: Config, swept: Entries, plain: Entries, now: Instant) {
    && (forall k :: k in swept ==> k in plain && swept[k] == plain[k])
    && (forall k :: k in plain && k !in swept ==> cfg.Stale(plain[k], now))
  }

  lemma {:induction false} SweepOnlyDropsStale(cfg: Config, ops: seq<Op>, now: Instant)
    requires ClockRuns(ops) && forall i :: 0 <= i < |ops| ==> ops[i].at <= now
    ensures SweptOf(cfg, Run(cfg, true, ops), Run(cfg, false, ops), now)
  {
    if ops != [] {
      SweepOnlyDropsStale(cfg, ops[..|ops| - 1], ops[|ops| - 1].at);
    }
  }

  /** The sweep is unobservable: in any run every question has the same answer with
      and without it. */
  lemma {:induction false} SweepIsUnobservable(cfg: Config, ops: seq<Op>)
    requires ClockRuns(ops)
    ensures Answers(cfg, true, ops) == Answers(cfg, false, ops)
  {
    if ops != [] {
      var init := ops[..|ops| - 1];
      SweepIsUnobservable(cfg, init);
      SweepOnlyDropsStale(cfg, init, ops[|ops| - 1].at);
    }
  }

  // ----- the bound on failures -----

  /** The times of key's failures. */
  function FailTimes(ops: seq<Op>, key: string): seq<Instant> {
    if ops == [] then []
    else
      var last := ops[|ops| - 1];
      FailTimes(ops[..|ops| - 1], key) + (if last.Fail? && last.key == key then [last.at] else [])
  }

  /** Each failure of key comes at a moment it is not locked, and no success resets it. */
  ghost predicate Disciplined(cfg: Config, ops: seq<Op>, key: string) {
    && (forall i :: 0 <= i < |ops| && ops[i].key == key ==> !ops[i].Reset?)
    && (forall i :: 0 <= i < |ops| && ops[i] == Fail(key, ops[i].at) ==>
          LockedFor(Run(cfg, true, ops[..i]), key, ops[i].at).None?)
  }

  /** What key's entry says about the times h of its failures: the count is that of the
      present streak, which began a duration after the failure before it. */
  ghost predicate StreakInv(cfg: Config, h: seq<Instant>, e: Option<Entry>) {
    var n := |h|;
    && Ascending(h) && Spaced(h, cfg.maxFailures, cfg.duration)
    && (e.None? <==> n == 0)
    && (e.Some? ==>
          && 0 <= e.value.failures < cfg.maxFailures && e.value.failures <= n
          && e.value.lastFailure == h[n - 1]
          && (e.value.failures == 0 ==> e.value.lockedUntil == h[n - 1] + cfg.duration)
          && (0 < e.value.failures < n ==> h[n - e.value.failures] - h[n - e.value.failures - 1] >= cfg.duration))
  }

  function Lookup(m: Entries, key: string): Option<Entry> {
    if key in m then Some(m[key]) else None
  }

  /** A failure at an unlocked moment comes a duration after the maxFailures-th before it. */
  lemma NextIsSpaced(cfg: Config, h: seq<Instant>, e: Option<Entry>, now: Instant)
    requires cfg.Enabled() && StreakInv(cfg, h, e) && cfg.maxFailures <= |h|
    requires h[|h| - 1] <= now && e.value.lockedUntil <= now
    ensures now - h[|h| - cfg.maxFailures] >= cfg.duration
  {
    var n, c := |h|, e.value.failures;
    assert h[n - cfg.maxFailures] <= h[n - 1];
    if 0 < c {
      assert h[n - cfg.maxFailures] <= h[n - c - 1] && h[n - c] <= h[n - 1];
    }
  }

  lemma StreakStep(cfg: Config, h: seq<Instant>, e: Option<Entry>, now: Instant)
    requires cfg.Enabled() && StreakInv(cfg, h, e)
    requires forall i :: 0 <= i < |h| ==> h[i] <= now
    requires e.Some? ==> e.value.lockedUntil <= now
    ensures StreakInv(cfg, h + [now], Some(Recorded(cfg, e, now)))
  {
    var n := |h|;
    if cfg.maxFailures <= n {
      NextIsSpaced(cfg, h, e, now);
    }
    SpacedSnoc(h, cfg.maxFailures, cfg.duration, now);
    if e.Some? && !cfg.Stale(e.value, now) {
      assert e.value.failures > 0;
    }
  }

  lemma DisciplinedPrefix(cfg: Config, ops: seq<Op>, key: string)
    requires ops != [] && ClockRuns(ops) && Disciplined(cfg, ops, key)
    ensures ClockRuns(ops[..|ops| - 1]) && Disciplined(cfg, ops[..|ops| - 1], key)
  {
    var init := ops[..|ops| - 1];
    forall i | 0 <= i < |init| && init[i] == Fail(key, init[i].at)
      ensures LockedFor(Run(cfg, true, init[..i]), key, init[i].at).None?
    {
      assert init[..i] == ops[..i] && ops[i] == Fail(key, ops[i].at);
    }
  }

  lemma UnlockedWithoutSweep(cfg: Config, ops: seq<Op>, key: string)
    requires ops != [] && ClockRuns(ops) && Disciplined(cfg, ops, key)
    requires ops[|ops| - 1] == Fail(key, ops[|ops| - 1].at)
    ensures var e := Lookup(Run(cfg, false, ops[..|ops| - 1]), key);
            e.Some? ==> e.value.lockedUntil <= ops[|ops| - 1].at
  {
    SweepOnlyDropsStale(cfg, ops[..|ops| - 1], ops[|ops| - 1].at);
  }

  function Recorded(cfg: Config, e: Option<Entry>, now: Instant): Entry {
    cfg.Failed(if e.Some? && !cfg.Stale(e.value, now) then e.value else FRESH, now)
  }

  /** How one more operation that is no success changes key's failures and entry. */
  lemma OpChanges(cfg: Config, ops: seq<Op>, key: string)
    requires cfg.Enabled() && ops != [] && !(ops[|ops| - 1].Reset? && ops[|ops| - 1].key == key)
    ensures var init, last := ops[..|ops| - 1], ops[|ops| - 1];
            var (h, h') := (FailTimes(init, key), FailTimes(ops, key));
            var (e, e') := (Lookup(Run(cfg, false, init), key), Lookup(Run(cfg, false, ops), key));
            if last == Fail(key, last.at) then h' == h + [last.at] && e' == Some(Recorded(cfg, e, last.at))
            else h' == h && e' == e
  {
  }

  ghost predicate HistoryInv(cfg: Config, h: seq<Instant>, e: Option<Entry>, now: Instant) {
    StreakInv(cfg, h, e) && forall i :: 0 <= i < |h| ==> h[i] <= now
  }

  lemma NextHistory(cfg: Config, h: seq<Instant>, e: Option<Entry>, now: Instant, h': seq<Instant>, e': Option<Entry>)
    requires cfg.Enabled() && HistoryInv(cfg, h, e, now) && (e.Some? ==> e.value.lockedUntil <= now)
    requires h' == h + [now] && e' == Some(Recorded(cfg, e, now))
    ensures HistoryInv(cfg, h', e', now)
  {
    StreakStep(cfg, h, e, now);
  }

  lemma {:induction false} StreakRun(cfg: Config, ops: seq<Op>, key: string, now: Instant)
    requires cfg.Enabled() && ClockRuns(ops) && Disciplined(cfg, ops, key)
    requires ops != [] ==> ops[|ops| - 1].at <= now
    ensures HistoryInv(cfg, FailTimes(ops, key), Lookup(Run(cfg, false, ops), key), now)
  {
    if ops != [] {
      var init, last := ops[..|ops| - 1], ops[|ops| - 1];
      DisciplinedPrefix(cfg, ops, key);
      StreakRun(cfg, init, key, last.at);
      OpChanges(cfg, ops, key);
      if last == Fail(key, last.at) {
        UnlockedWithoutSweep(cfg, ops, key);
        NextHistory(cfg, FailTimes(init, key), Lookup(Run(cfg, false, init), key), last.at,
                    FailTimes(ops, key), Lookup(Run(cfg, false, ops), key));
      }
    }
  }

  /** No half-open interval as long as the lock holds more than maxFailures failures of
      a key whose every failure followed an unlocked check. */
  lemma FailuresAreBounded(cfg: Config, ops: seq<Op>, key: string, from: Instant)
    requires cfg.Enabled() && ClockRuns(ops) && Disciplined(cfg, ops, key)
    ensures CountWithin(FailTimes(ops, key), from, from + cfg.duration) <= cfg.maxFailures
  {
    StreakRun(cfg, ops, key, if ops == [] then 0 else ops[|ops| - 1].at);
    SpacedMeansFew(FailTimes(ops, key), cfg.maxFailures, cfg.duration, from);
  }

  function Failures(key: string, times: seq<Instant>): (ops: seq<Op>)
    ensures |ops| == |times| && forall i :: 0 <= i < |ops| ==> ops[i] == Fail(key, times[i])
  {
    seq(|times|, i requires 0 <= i < |times| => Fail(key, times[i]))
  }

  /** Failures of one key with less than a duration between neighbours. */
  ghost predicate Streak(cfg: Config, times: seq<Instant>) {
    && times != [] && times[0] >= ZERO_TIME
    && forall i, j :: 0 <= i < |times| && j == i + 1 < |times| ==> times[i] <= times[j] < times[i] + cfg.duration
  }

  lemma OneEntry(cfg: Config, key: string, e: Entry, now: Instant)
    ensures cfg.FailSwept(map[key := e], key, now) == map[key := cfg.Failed(if cfg.Stale(e, now) then FRESH else e, now)]
  {
    assert |map[key := e]| == 1;
  }

  lemma {:induction false} StreakCounts(cfg: Config, key: string, times: seq<Instant>)
    requires cfg.Enabled() && Streak(cfg, times) && |times| < cfg.maxFailures
    ensures Run(cfg, true, Failures(key, times)) == map[key := Entry(|times|, times[|times| - 1], ZERO_TIME)]
    ensures times[|times| - 1] >= ZERO_TIME
  {
    var n := |times| - 1;
    assert Failures(key, times)[..n] == Failures(key, times[..n]);
    if n > 0 {
      StreakCounts(cfg, key, times[..n]);
      assert times[n - 1] <= times[n];
      OneEntry(cfg, key, Entry(n, times[n - 1], ZERO_TIME), times[n]);
    }
  }

  /** Such a streak locks a fresh key with its maxFailures-th failure and not sooner,
      for exactly the duration. */
  lemma StreakLocks(cfg: Config, key: string, times: seq<Instant>, now: Instant)
    requires cfg.Enabled() && Streak(cfg, times) && |times| <= cfg.maxFailures && times[|times| - 1] <= now
    ensures LockedFor(Run(cfg, true, Failures(key, times)), key, now) ==
            var until := times[|times| - 1] + cfg.duration;
            if |times| == cfg.maxFailures && now < until then Some(until - now) else None
  {
    var n := |times| - 1;
    if |times| < cfg.maxFailures {
      StreakCounts(cfg, key, times);
    } else {
      assert Failures(key, times)[..n] == Failures(key, times[..n]);
      if n > 0 {
        StreakCounts(cfg, key, times[..n]);
        assert times[n - 1] <= times[n];
        OneEntry(cfg, key, Entry(n, times[n - 1], ZERO_TIME), times[n]);
      }
    }
  }
}
