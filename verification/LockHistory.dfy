/** What a lockout answers, told from the times of a key's failures alone: which of them lock,
    and when a streak is forgotten. */
module LockHistory {
  import opened Clock
  import opened Lockouts
  import opened Options

  /** The times of the key's failures since it was last reset. */
  function SinceReset(ops: seq<Op>, key: string): seq<Instant> {
    if ops == [] then []
    else
      var init, last := SinceReset(ops[..|ops| - 1], key), ops[|ops| - 1];
      if last.key != key then init
      else match last case Fail(_, at) => init + [at] case Check(_, _) => init case Reset(_, _) => []
  }

  /** How many of the last failures follow one another in less than d. */
  function StreakLength(h: seq<Instant>, d: Duration): nat {
    var n := |h|;
    if n == 0 then 0
    else if n == 1 || h[n - 1] - h[n - 2] >= d then 1
    else StreakLength(h[..n - 1], d) + 1
  }

  /** The last failure that was the m-th, 2m-th, ... of its streak. */
  function LastLock(h: seq<Instant>, d: Duration, m: nat): Option<Instant>
    requires m > 0
  {
    if h == [] then None
    else if StreakLength(h, d) % m == 0 then Some(h[|h| - 1])
    else LastLock(h[..|h| - 1], d, m)
  }

  /** A key is locked for one duration from that failure. */
  function Remaining(h: seq<Instant>, d: Duration, m: nat, now: Instant): Option<Duration>
    requires m > 0
  {
    var lock := LastLock(h, d, m);
    if lock.Some? && now < lock.value + d then Some(lock.value + d - now) else None
  }

  // ----- the entry tells the same -----

  ghost predicate Ordered(h: seq<Instant>, now: Instant) {
    && (forall i :: 0 <= i < |h| ==> ZERO_TIME <= h[i] <= now)
    && forall i, j :: 0 <= i < j < |h| ==> h[i] <= h[j]
  }

  ghost predicate Agrees(cfg: Config, e: Option<Entry>, h: seq<Instant>)
    requires cfg.Enabled()
  {
    if h == [] then e.None?
    else
      var (last, lock) := (h[|h| - 1], LastLock(h, cfg.duration, cfg.maxFailures));
      && e.Some? && e.value.lastFailure == last
      && e.value.failures == StreakLength(h, cfg.duration) % cfg.maxFailures
      && (if e.value.lockedUntil == ZERO_TIME then lock.None? || lock.value + cfg.duration <= last
          else lock.Some? && e.value.lockedUntil == lock.value + cfg.duration)
  }

  lemma {:induction false} LastLockIsFailure(h: seq<Instant>, d: Duration, m: nat, now: Instant)
    requires m > 0 && Ordered(h, now)
    ensures LastLock(h, d, m).Some? ==> h != [] && ZERO_TIME <= LastLock(h, d, m).value <= h[|h| - 1]
  {
    if h != [] && StreakLength(h, d) % m != 0 {
      LastLockIsFailure(h[..|h| - 1], d, m, now);
    }
  }

  lemma NextModulo(x: nat, m: nat)
    requires m > 0
    ensures (x + 1) % m == if x % m + 1 >= m then 0 else x % m + 1
  {
    var q, r := x / m, x % m;
    assert x + 1 == q * m + (r + 1);
    if r + 1 < m {
      ModuloOf(q, r + 1, m);
    } else {
      assert x + 1 == (q + 1) * m + 0;
      ModuloOf(q + 1, 0, m);
    }
  }

  lemma {:induction false} AtLeastOnce(k: nat, m: nat)
    requires k >= 1
    ensures k * m >= m
  {
    if k > 1 {
      AtLeastOnce(k - 1, m);
      assert k * m == (k - 1) * m + m;
    }
  }

  lemma SameRemainder(a: nat, b: nat, q: nat, r: nat, m: nat)
    requires b < m && r < m && a * m + b == q * m + r
    ensures b == r
  {
    if a > q {
      assert (a - q) * m == a * m - q * m;
      AtLeastOnce(a - q, m);
    } else if a < q {
      assert (q - a) * m == q * m - a * m;
      AtLeastOnce(q - a, m);
    }
  }

  lemma ModuloOf(q: nat, r: nat, m: nat)
    requires r < m
    ensures (q * m + r) % m == r
  {
    var x: nat := q * m + r;
    var a, b := x / m, x % m;
    assert a * m + b == x;
    SameRemainder(a, b, q, r, m);
  }

  lemma StreakOfNext(h: seq<Instant>, d: Duration, now: Instant)
    ensures StreakLength(h + [now], d) == if h == [] || now - h[|h| - 1] >= d then 1 else StreakLength(h, d) + 1
    ensures (h + [now])[..|h|] == h
  {
  }

  lemma StaleIsLapsed(cfg: Config, e: Entry, h: seq<Instant>, now: Instant)
    requires cfg.Enabled() && h != [] && Ordered(h, now) && Agrees(cfg, Some(e), h)
    ensures cfg.Stale(e, now) <==> now - h[|h| - 1] >= cfg.duration
  {
    LastLockIsFailure(h, cfg.duration, cfg.maxFailures, now);
  }

  lemma FailureAgrees(cfg: Config, e: Option<Entry>, h: seq<Instant>, now: Instant)
    requires cfg.Enabled() && ZERO_TIME <= now && Ordered(h, now) && Agrees(cfg, e, h)
    ensures Agrees(cfg, Some(Recorded(cfg, e, now)), h + [now])
  {
    var m := cfg.maxFailures;
    StreakOfNext(h, cfg.duration, now);
    NextModulo(0, m);
    LastLockIsFailure(h, cfg.duration, m, now);
    if h != [] {
      StaleIsLapsed(cfg, e.value, h, now);
      NextModulo(StreakLength(h, cfg.duration), m);
    }
  }

  lemma HistoryStep(cfg: Config, ops: seq<Op>, op: Op, key: string)
    ensures SinceReset(ops + [op], key) ==
            if op.key != key || op.Check? then SinceReset(ops, key)
            else if op.Fail? then SinceReset(ops, key) + [op.at] else []
    ensures Lookup(Run(cfg, false, ops + [op]), key) ==
            var e := Lookup(Run(cfg, false, ops), key);
            if op.key != key || op.Check? then e
            else if op.Fail? then Some(Recorded(cfg, e, op.at)) else None
  {
    assert (ops + [op])[..|ops|] == ops;
  }

  lemma {:induction false} HistoryAgrees(cfg: Config, ops: seq<Op>, key: string, now: Instant)
    requires cfg.Enabled() && ClockRuns(ops) && forall i :: 0 <= i < |ops| ==> ops[i].at <= now
    ensures Ordered(SinceReset(ops, key), now)
    ensures Agrees(cfg, Lookup(Run(cfg, false, ops), key), SinceReset(ops, key))
  {
    if ops != [] {
      var init, op := ops[..|ops| - 1], ops[|ops| - 1];
      HistoryAgrees(cfg, init, key, op.at);
      assert ops == init + [op];
      HistoryStep(cfg, init, op, key);
      if op.key == key && op.Fail? {
        FailureAgrees(cfg, Lookup(Run(cfg, false, init), key), SinceReset(init, key), op.at);
      }
    }
  }

  /** In any run, sweeps and all: a key is locked exactly for one duration from each failure that
      is the maxFailures-th, or a multiple of it, of an unbroken streak since its last reset. */
  lemma LockIsExact(cfg: Config, ops: seq<Op>, key: string, now: Instant)
    requires cfg.Enabled() && ClockRuns(ops) && ZERO_TIME <= now
    requires forall i :: 0 <= i < |ops| ==> ops[i].at <= now
    ensures LockedFor(Run(cfg, true, ops), key, now) ==
            Remaining(SinceReset(ops, key), cfg.duration, cfg.maxFailures, now)
  {
    SweepOnlyDropsStale(cfg, ops, now);
    HistoryAgrees(cfg, ops, key, now);
    LastLockIsFailure(SinceReset(ops, key), cfg.duration, cfg.maxFailures, now);
  }

  // ----- a lapsed streak starts over -----

  predicate Resets(ops: seq<Op>, key: string) {
    exists i :: 0 <= i < |ops| && ops[i] == Reset(key, ops[i].at)
  }

  lemma {:induction false} SinceResetAppend(ops: seq<Op>, more: seq<Op>, key: string)
    ensures SinceReset(ops + more, key) ==
            if Resets(more, key) then SinceReset(more, key) else SinceReset(ops, key) + SinceReset(more, key)
  {
    if more == [] {
      assert ops + more == ops;
    } else {
      var n := |more| - 1;
      assert (ops + more)[..|ops| + n] == ops + more[..n];
      SinceResetAppend(ops, more[..n], key);
      assert Resets(more, key) <==> Resets(more[..n], key) || more[n] == Reset(key, more[n].at) by {
        assert forall i :: 0 <= i < n ==> more[..n][i] == more[i];
      }
      if Resets(more[..n], key) {
        assert more[n].key != key || !more[n].Reset? ==> Resets(more, key);
      }
    }
  }

  lemma {:induction false} ResetForgetsSome(ops: seq<Op>, key: string)
    ensures |SinceReset(ops, key)| <= |FailTimes(ops, key)|
    ensures SinceReset(ops, key) != [] ==>
              SinceReset(ops, key)[|SinceReset(ops, key)| - 1] == FailTimes(ops, key)[|FailTimes(ops, key)| - 1]
  {
    if ops != [] {
      ResetForgetsSome(ops[..|ops| - 1], key);
    }
  }

  /** After a gap the streak, and what it locks, is that of the later failures alone. */
  lemma {:induction false} GapStartsOver(a: seq<Instant>, b: seq<Instant>, d: Duration, m: nat)
    requires m > 0 && a != [] && b != [] && b[0] - a[|a| - 1] >= d
    ensures StreakLength(a + b, d) == StreakLength(b, d)
    ensures LastLock(a + b, d, m) == if LastLock(b, d, m).Some? then LastLock(b, d, m) else LastLock(a, d, m)
  {
    var n := |b| - 1;
    assert (a + b)[..|a| + n] == a + b[..n];
    if n == 0 {
      assert a + b[..0] == a;
      assert LastLock(b[..0], d, m) == None;
    } else {
      GapStartsOver(a, b[..n], d, m);
    }
  }

  lemma LapsedLocksNothing(a: seq<Instant>, b: seq<Instant>, d: Duration, m: nat, now: Instant)
    requires m > 0 && Ordered(a, now) && a != [] && now >= a[|a| - 1] + d
    requires b != [] ==> b[0] - a[|a| - 1] >= d
    ensures Remaining(a + b, d, m, now) == Remaining(b, d, m, now)
  {
    LastLockIsFailure(a, d, m, now);
    if b == [] {
      assert a + b == a;
    } else {
      GapStartsOver(a, b, d, m);
    }
  }

  lemma {:induction false} TimesAreOfOps(ops: seq<Op>, key: string, from: Instant)
    requires forall i :: 0 <= i < |ops| ==> ops[i].at >= from
    ensures forall i :: 0 <= i < |SinceReset(ops, key)| ==> SinceReset(ops, key)[i] >= from
  {
    if ops != [] {
      TimesAreOfOps(ops[..|ops| - 1], key, from);
    }
  }

  ghost predicate Until(ops: seq<Op>, now: Instant) {
    forall i :: 0 <= i < |ops| ==> ops[i].at <= now
  }

  lemma ClockPrefix(ops: seq<Op>, more: seq<Op>)
    requires ClockRuns(ops + more)
    ensures ClockRuns(ops)
  {
    forall i, j | 0 <= i < j < |ops| ensures ops[i].at <= ops[j].at {
      assert (ops + more)[i] == ops[i] && (ops + more)[j] == ops[j];
    }
    forall i | 0 <= i < |ops| ensures ops[i].at >= ZERO_TIME {
      assert (ops + more)[i] == ops[i];
    }
  }

  /** What remains depends on the later failures only. */
  lemma HistoryAfterLapse(cfg: Config, ops: seq<Op>, more: seq<Op>, key: string, from: Instant, now: Instant)
    requires cfg.Enabled() && ClockRuns(ops) && Until(ops, from) && from <= now
    requires forall i :: 0 <= i < |more| ==> more[i].at >= from
    requires FailTimes(ops, key) != [] ==> from >= FailTimes(ops, key)[|FailTimes(ops, key)| - 1] + cfg.duration
    ensures Remaining(SinceReset(ops, key) + SinceReset(more, key), cfg.duration, cfg.maxFailures, now) ==
            Remaining(SinceReset(more, key), cfg.duration, cfg.maxFailures, now)
  {
    var a, b := SinceReset(ops, key), SinceReset(more, key);
    if a == [] {
      assert a + b == b;
    } else {
      HistoryAgrees(cfg, ops, key, from);
      ResetForgetsSome(ops, key);
      TimesAreOfOps(more, key, from);
      LapsedLocksNothing(a, b, cfg.duration, cfg.maxFailures, now);
    }
  }

  lemma AnswerAfterLapse(cfg: Config, ops: seq<Op>, more: seq<Op>, key: string, from: Instant, now: Instant)
    requires cfg.Enabled() && ClockRuns(ops + more) && Until(ops + more, now) && ZERO_TIME <= from <= now
    requires Until(ops, from) && forall i :: 0 <= i < |more| ==> more[i].at >= from
    requires FailTimes(ops, key) != [] ==> from >= FailTimes(ops, key)[|FailTimes(ops, key)| - 1] + cfg.duration
    ensures LockedFor(Run(cfg, true, ops + more), key, now) ==
            Remaining(SinceReset(more, key), cfg.duration, cfg.maxFailures, now)
  {
    LockIsExact(cfg, ops + more, key, now);
    SinceResetAppend(ops, more, key);
    ClockPrefix(ops, more);
    HistoryAfterLapse(cfg, ops, more, key, from, now);
  }

  /** Once a key's last failure is a duration old, whatever follows is answered as if none of its
      failures had happened: just as after any other run without a failure of the key. */
  lemma LapsedStreakStartsOver(cfg: Config, ops: seq<Op>, other: seq<Op>, more: seq<Op>, key: string, from: Instant,
                               now: Instant)
    requires cfg.Enabled() && ClockRuns(ops + more) && ClockRuns(other + more) && ZERO_TIME <= from <= now
    requires Until(ops + more, now) && Until(other + more, now) && Until(ops, from) && Until(other, from)
    requires forall i :: 0 <= i < |more| ==> more[i].at >= from
    requires FailTimes(ops, key) != [] ==> from >= FailTimes(ops, key)[|FailTimes(ops, key)| - 1] + cfg.duration
    requires FailTimes(other, key) == []
    ensures LockedFor(Run(cfg, true, ops + more), key, now) == LockedFor(Run(cfg, true, other + more), key, now)
    ensures LockedFor(Run(cfg, true, ops), key, from).None?
  {
    AnswerAfterLapse(cfg, ops, more, key, from, now);
    AnswerAfterLapse(cfg, other, more, key, from, now);
    assert ops + [] == ops;
    ClockPrefix(ops, more);
    AnswerAfterLapse(cfg, ops, [], key, from, from);
  }
}
