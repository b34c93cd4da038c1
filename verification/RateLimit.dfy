/** A fixed-window limiter. The class sweeps expired windows when its map grows; the
    lemmas show that this changes no verdict, and bound what is admitted. */
module RateLimit {
  import opened Clock
  import opened Iteration
  import opened Options
  import opened Spacing

  datatype Window = Window(start: Instant, count: int)

  type Buckets = map<string, Window>

  /** The answer to one hit: admitted, or how long until the window resets. */
  datatype Verdict = Admitted | Refused(retryAfter: Duration)

  const SWEEP_ABOVE: int := 10000

  datatype Config = Config(limit: int, window: Duration) {
    /** A key's first hit of a window is never refused. */
    function Cap(): nat {
      if limit < 1 then 1 else limit
    }

    /** The most a key can get through in any interval of one window length: one window's
        hits at its end and the next one's at its beginning, the first of which opened it. */
    function Burst(): (b: nat)
      ensures b > 0 && b == 2 * Cap() - 1
    {
      2 * Cap() - 1
    }

    predicate Expired(w: Window, now: Instant) {
      now - w.start >= window
    }

    function Swept(m: Buckets, now: Instant): Buckets {
      map k | k in m && !Expired(m[k], now) :: m[k]
    }

    function VerdictPlain(m: Buckets, key: string, now: Instant): Verdict {
      if key !in m || Expired(m[key], now) || m[key].count < limit then Admitted
      else Refused(m[key].start + window - now)
    }

    function HitPlain(m: Buckets, key: string, now: Instant): Buckets {
      if key !in m || Expired(m[key], now) then m[key := Window(now, 1)]
      else if m[key].count >= limit then m
      else m[key := Window(m[key].start, m[key].count + 1)]
    }

    /** The map a hit looks at: swept first when it has grown too large. */
    function Looked(sweep: bool, m: Buckets, now: Instant): Buckets {
      if sweep && |m| > SWEEP_ABOVE then Swept(m, now) else m
    }
  }

  class Limiter {
    const cfg: Config
    var buckets: Buckets

    constructor (limit: int, per: Duration)
      ensures cfg == Config(limit, per) && buckets == map[]
    {
      cfg := Config(limit, per);
      buckets := map[];
    }

    method Allow(key: string, now: Instant) returns (ok: bool, retryAfter: Duration)
      modifies this
      ensures var m := cfg.Looked(true, old(buckets), now);
              && buckets == cfg.HitPlain(m, key, now)
              && cfg.VerdictPlain(m, key, now) == if ok then Admitted else Refused(retryAfter)
    {
      ghost var looked := cfg.Looked(true, buckets, now);
      if |buckets| > SWEEP_ABOVE {
        var keys := buckets.Keys;
        while keys != {}
          invariant keys <= buckets.Keys
          invariant forall k :: k in buckets <==> k in old(buckets) && (k in keys || !cfg.Expired(old(buckets)[k], now))
          invariant forall k :: k in buckets ==> buckets[k] == old(buckets)[k]
        {
          var k := Pick(keys);
          keys := keys - {k};
          if cfg.Expired(buckets[k], now) {
            buckets := buckets - {k};
          }
        }
        assert buckets == looked;
      }
      if key !in buckets || cfg.Expired(buckets[key], now) {
        buckets := buckets[key := Window(now, 1)];
        return true, 0;
      }
      var w := buckets[key];
      if w.count >= cfg.limit {
        return false, w.start + cfg.window - now;
      }
      buckets := buckets[key := w.(count := w.count + 1)];
      return true, 0;
    }
  }

  /** Retry-After: whole seconds, rounded up past the fraction. */
  function RetryAfterSeconds(retryAfter: Duration): int {
    retryAfter / SECOND + 1
  }

  // ----- runs -----

  datatype Hit = Hit(key: string, at: Instant)

  ghost predicate ClockRuns(hits: seq<Hit>) {
    forall i, j :: 0 <= i < j < |hits| ==> hits[i].at <= hits[j].at
  }

  function Run(cfg: Config, sweep: bool, hits: seq<Hit>): Buckets {
    if hits == [] then map[]
    else
      var last := hits[|hits| - 1];
      cfg.HitPlain(cfg.Looked(sweep, Run(cfg, sweep, hits[..|hits| - 1]), last.at), last.key, last.at)
  }

  /** The verdict on one more hit after a run. */
  function VerdictAfter(cfg: Config, sweep: bool, hits: seq<Hit>, hit: Hit): Verdict {
    cfg.VerdictPlain(cfg.Looked(sweep, Run(cfg, sweep, hits), hit.at), hit.key, hit.at)
  }

  /** What a sweep removed had expired, and stays so. */
  ghost predicate SweptOf(cfg: Config, swept: Buckets, plain: Buckets, now: Instant) {
    && (forall k :: k in swept ==> k in plain && swept[k] == plain[k])
    && (forall k :: k in plain && k !in swept ==> cfg.Expired(plain[k], now))
  }

  lemma {:induction false} SweepOnlyDropsExpired(cfg: Config, hits: seq<Hit>, now: Instant)
    requires ClockRuns(hits) && forall i :: 0 <= i < |hits| ==> hits[i].at <= now
    ensures SweptOf(cfg, Run(cfg, true, hits), Run(cfg, false, hits), now)
  {
    if hits != [] {
      SweepOnlyDropsExpired(cfg, hits[..|hits| - 1], hits[|hits| - 1].at);
    }
  }

  /** The sweeping limiter refines the plain one: after any run it gives any next hit
      the same verdict. */
  lemma SweepIsUnobservable(cfg: Config, hits: seq<Hit>, hit: Hit)
    requires ClockRuns(hits + [hit])
    ensures VerdictAfter(cfg, true, hits, hit) == VerdictAfter(cfg, false, hits, hit)
  {
    forall i, j | 0 <= i < j < |hits| ensures hits[i].at <= hits[j].at {
      assert (hits + [hit])[i].at <= (hits + [hit])[j].at;
    }
    forall i | 0 <= i < |hits| ensures hits[i].at <= hit.at {
      assert (hits + [hit])[i].at <= (hits + [hit])[|hits|].at;
    }
    SweepOnlyDropsExpired(cfg, hits, hit.at);
  }

  // ----- how much is admitted -----

  /** The times of key's admitted hits. */
  function AdmittedTimes(cfg: Config, sweep: bool, hits: seq<Hit>, key: string): seq<Instant> {
    if hits == [] then []
    else
      var init, last := hits[..|hits| - 1], hits[|hits| - 1];
      AdmittedTimes(cfg, sweep, init, key) +
      (if last.key == key && VerdictAfter(cfg, sweep, init, last).Admitted? then [last.at] else [])
  }

  lemma {:induction false} SameAdmitted(cfg: Config, hits: seq<Hit>, key: string)
    requires ClockRuns(hits)
    ensures AdmittedTimes(cfg, true, hits, key) == AdmittedTimes(cfg, false, hits, key)
  {
    if hits != [] {
      var init, last := hits[..|hits| - 1], hits[|hits| - 1];
      assert init + [last] == hits;
      SameAdmitted(cfg, init, key);
      SweepIsUnobservable(cfg, init, last);
    }
  }

  /** What key's window says about the times h of its admitted hits: its last count hits
      are those of the window, and h[p] opened the window before, a window length or
      more earlier and at most Cap hits back. */
  ghost predicate WindowInv(cfg: Config, h: seq<Instant>, w: Option<Window>, p: nat) {
    var n := |h|;
    && (w.None? <==> n == 0)
    && (w.Some? ==>
          var first := n - w.value.count;
          && 1 <= w.value.count <= cfg.Cap() && 0 <= first
          && h[first] == w.value.start
          && (w.value.count > 1 ==> h[n - 1] < w.value.start + cfg.window)
          && (0 < first ==> first - cfg.Cap() <= p < first && h[first] - h[p] >= cfg.window)
          && (0 < first && cfg.window > 0 ==> h[first - 1] < w.value.start))
  }

  ghost predicate TimesInv(cfg: Config, h: seq<Instant>) {
    Ascending(h) && Spaced(h, cfg.Burst(), cfg.window)
  }

  function Lookup(m: Buckets, key: string): Option<Window> {
    if key in m then Some(m[key]) else None
  }

  /** The hit Burst before the next one lies at least one whole window back. */
  lemma NextIsSpaced(cfg: Config, h: seq<Instant>, w: Window, now: Instant, p: nat)
    requires TimesInv(cfg, h) && WindowInv(cfg, h, Some(w), p) && cfg.Burst() <= |h| && h[|h| - 1] <= now
    requires cfg.Expired(w, now) || w.count < cfg.Cap()
    ensures now - h[|h| - cfg.Burst()] >= cfg.window
  {
    var n := |h|;
    var first, back := n - w.count, n - cfg.Burst();
    assert h[first] <= h[n - 1] || w.count == 1;
    if cfg.Expired(w, now) {
      assert back < first ==> h[back] <= h[first];
    } else {
      assert back < p ==> h[back] <= h[p];
    }
  }

  lemma WindowStep(cfg: Config, h: seq<Instant>, w: Option<Window>, now: Instant, p: nat) returns (q: nat)
    requires TimesInv(cfg, h) && WindowInv(cfg, h, w, p) && (h != [] ==> h[|h| - 1] <= now)
    requires Admits(cfg, w, now)
    ensures TimesInv(cfg, h + [now])
    ensures forall i :: 0 <= i < |h| ==> h[i] <= now
    ensures WindowInv(cfg, h + [now], Some(Counted(cfg, w, now)), q)
  {
    if cfg.Burst() <= |h| {
      NextIsSpaced(cfg, h, w.value, now, p);
    }
    SpacedSnoc(h, cfg.Burst(), cfg.window, now);
    q := if w.Some? && cfg.Expired(w.value, now) then |h| - w.value.count else p;
  }

  predicate Admits(cfg: Config, w: Option<Window>, now: Instant) {
    w.None? || cfg.Expired(w.value, now) || w.value.count < cfg.limit
  }

  function Counted(cfg: Config, w: Option<Window>, now: Instant): Window {
    if w.None? || cfg.Expired(w.value, now) then Window(now, 1) else Window(w.value.start, w.value.count + 1)
  }

  ghost predicate NotAfter(h: seq<Instant>, now: Instant) {
    forall i :: 0 <= i < |h| ==> h[i] <= now
  }

  /** How one more hit changes key's admitted times and window. */
  lemma HitChanges(cfg: Config, hits: seq<Hit>, key: string)
    requires hits != []
    ensures var init, last := hits[..|hits| - 1], hits[|hits| - 1];
            var h, h' := AdmittedTimes(cfg, false, init, key), AdmittedTimes(cfg, false, hits, key);
            var w, w' := Lookup(Run(cfg, false, init), key), Lookup(Run(cfg, false, hits), key);
            if last.key == key && Admits(cfg, w, last.at) then h' == h + [last.at] && w' == Some(Counted(cfg, w, last.at))
            else h' == h && w' == w
  {
  }

  ghost predicate HistoryInv(cfg: Config, h: seq<Instant>, w: Option<Window>, p: nat, now: Instant) {
    TimesInv(cfg, h) && WindowInv(cfg, h, w, p) && NotAfter(h, now)
  }

  lemma NextHistory(cfg: Config, h: seq<Instant>, w: Option<Window>, p: nat, now: Instant, h': seq<Instant>, w': Option<Window>,
                    counts: bool) returns (q: nat)
    requires HistoryInv(cfg, h, w, p, now)
    requires if counts && Admits(cfg, w, now) then h' == h + [now] && w' == Some(Counted(cfg, w, now)) else h' == h && w' == w
    ensures HistoryInv(cfg, h', w', q, now)
  {
    q := p;
    if counts && Admits(cfg, w, now) {
      q := WindowStep(cfg, h, w, now, p);
    }
  }

  lemma {:induction false} WindowRun(cfg: Config, hits: seq<Hit>, key: string, now: Instant) returns (p: nat)
    requires ClockRuns(hits) && (hits != [] ==> hits[|hits| - 1].at <= now)
    ensures HistoryInv(cfg, AdmittedTimes(cfg, false, hits, key), Lookup(Run(cfg, false, hits), key), p, now)
  {
    p := 0;
    if hits != [] {
      var init, last := hits[..|hits| - 1], hits[|hits| - 1];
      assert init != [] ==> init[|init| - 1].at <= last.at;
      p := WindowRun(cfg, init, key, last.at);
      HitChanges(cfg, hits, key);
      p := NextHistory(cfg, AdmittedTimes(cfg, false, init, key), Lookup(Run(cfg, false, init), key), p, last.at,
                       AdmittedTimes(cfg, false, hits, key), Lookup(Run(cfg, false, hits), key), last.key == key);
    }
  }

  lemma TimesRun(cfg: Config, hits: seq<Hit>, key: string)
    requires ClockRuns(hits)
    ensures TimesInv(cfg, AdmittedTimes(cfg, true, hits, key))
  {
    SameAdmitted(cfg, hits, key);
    var p := WindowRun(cfg, hits, key, LastAt(hits));
  }

  /** Any interval of one window length admits less than twice the limit of a key. */
  lemma AdmittedAreBounded(cfg: Config, hits: seq<Hit>, key: string, from: Instant)
    requires ClockRuns(hits)
    ensures CountWithin(AdmittedTimes(cfg, true, hits, key), from, from + cfg.window) <= cfg.Burst()
  {
    TimesRun(cfg, hits, key);
    SpacedMeansFew(AdmittedTimes(cfg, true, hits, key), cfg.Burst(), cfg.window, from);
  }

  /** The window's count is what it admitted. */
  lemma WindowCount(cfg: Config, h: seq<Instant>, w: Window, p: nat)
    requires cfg.window > 0 && TimesInv(cfg, h) && WindowInv(cfg, h, Some(w), p)
    ensures CountWithin(h, w.start, w.start + cfg.window) == w.count <= cfg.Cap()
  {
    var first, last := |h| - w.count, |h| - 1;
    forall i | first <= i < |h| ensures w.start <= h[i] < w.start + cfg.window {
      assert i == first || h[first] <= h[i];
      assert i == last || h[i] <= h[last];
    }
    forall i | 0 <= i < first ensures h[i] < w.start {
      assert i == first - 1 || h[i] <= h[first - 1];
    }
    CountOfTail(h, w.start, w.start + cfg.window, w.count);
  }

  function LastAt(hits: seq<Hit>): Instant {
    if hits == [] then 0 else hits[|hits| - 1].at
  }

  /** At any moment the present window of a key has admitted exactly its count, and that
      is at most the limit, where the limit is positive. */
  lemma WindowIsBounded(cfg: Config, hits: seq<Hit>, key: string, w: Window)
    requires ClockRuns(hits) && cfg.window > 0 && Lookup(Run(cfg, true, hits), key) == Some(w)
    ensures CountWithin(AdmittedTimes(cfg, true, hits, key), w.start, w.start + cfg.window) == w.count <= cfg.Cap()
  {
    SweepOnlyDropsExpired(cfg, hits, LastAt(hits));
    SameAdmitted(cfg, hits, key);
    var p := WindowRun(cfg, hits, key, LastAt(hits));
    WindowCount(cfg, AdmittedTimes(cfg, false, hits, key), w, p);
  }

  /** The present window of the key, if any, admitted at most the limit. */
  ghost predicate WithinLimit(cfg: Config, hits: seq<Hit>, key: string) {
    var w := Lookup(Run(cfg, true, hits), key);
    w.Some? ==> CountWithin(AdmittedTimes(cfg, true, hits, key), w.value.start, w.value.start + cfg.window) <= cfg.limit
  }

  lemma OneHit(cfg: Config, key: string, hits: seq<Hit>)
    requires hits == [Hit(key, 0)]
    ensures ClockRuns(hits) && Lookup(Run(cfg, true, hits), key) == Some(Window(0, 1))
  {
    assert hits[..0] == [];
  }

  lemma OneHitIsAdmitted(cfg: Config, key: string) returns (once: seq<Hit>)
    requires cfg.window > 0 && cfg.limit < 1
    ensures ClockRuns(once) && !WithinLimit(cfg, once, key)
  {
    once := [Hit(key, 0)];
    OneHit(cfg, key, once);
    WindowIsBounded(cfg, once, key, Window(0, 1));
  }

  /** The documented limit holds of all runs exactly when it is at least one: a window's first
      hit is never refused. */
  lemma LimitMustBePositive(cfg: Config, key: string)
    requires cfg.window > 0
    ensures (forall hits :: ClockRuns(hits) ==> WithinLimit(cfg, hits, key)) <==> cfg.limit >= 1
  {
    if cfg.limit >= 1 {
      forall hits | ClockRuns(hits) ensures WithinLimit(cfg, hits, key) {
        var w := Lookup(Run(cfg, true, hits), key);
        if w.Some? {
          WindowIsBounded(cfg, hits, key, w.value);
        }
      }
    } else {
      var once := OneHitIsAdmitted(cfg, key);
    }
  }

  // ----- the burst is attained -----

  function Repeated(at: Instant, n: nat): (h: seq<Instant>)
    ensures |h| == n && forall i :: 0 <= i < n ==> h[i] == at
  {
    seq(n, _ => at)
  }

  /** A run of one key's hits up to now, all the times admitted, and the window they leave. */
  ghost predicate Leaves(cfg: Config, hits: seq<Hit>, key: string, now: Instant, h: seq<Instant>, w: Window) {
    && ClockRuns(hits) && (forall i :: 0 <= i < |hits| ==> hits[i].at <= now)
    && AdmittedTimes(cfg, false, hits, key) == h && Lookup(Run(cfg, false, hits), key) == Some(w)
  }

  lemma HitAgain(cfg: Config, hits: seq<Hit>, key: string, now: Instant, h: seq<Instant>, w: Window, at: Instant)
    requires Leaves(cfg, hits, key, now, h, w) && now <= at && Admits(cfg, Some(w), at)
    ensures Leaves(cfg, hits + [Hit(key, at)], key, at, h + [at], Counted(cfg, Some(w), at))
  {
    assert (hits + [Hit(key, at)])[..|hits|] == hits;
    HitChanges(cfg, hits + [Hit(key, at)], key);
  }

  /** n more hits at one instant, within the window and the limit. */
  lemma {:induction false} HitMore(cfg: Config, hits: seq<Hit>, key: string, now: Instant, h: seq<Instant>, w: Window,
                                   at: Instant, n: nat) returns (longer: seq<Hit>)
    requires Leaves(cfg, hits, key, now, h, w) && now <= at && !cfg.Expired(w, at) && w.count + n <= cfg.limit
    ensures Leaves(cfg, longer, key, at, h + Repeated(at, n), Window(w.start, w.count + n))
  {
    if n == 0 {
      longer := hits;
      assert h + Repeated(at, 0) == h;
    } else {
      var fewer := HitMore(cfg, hits, key, now, h, w, at, n - 1);
      HitAgain(cfg, fewer, key, at, h + Repeated(at, n - 1), Window(w.start, w.count + n - 1), at);
      longer := fewer + [Hit(key, at)];
      assert h + Repeated(at, n - 1) + [at] == h + Repeated(at, n);
    }
  }

  lemma FirstHit(cfg: Config, key: string)
    ensures Leaves(cfg, [Hit(key, 0)], key, 0, [0], Window(0, 1))
  {
    assert [Hit(key, 0)][..0] == [];
  }

  /** One hit, the rest of its window's at the window's end, and all of the next window's. */
  lemma FullBurst(cfg: Config, key: string) returns (hits: seq<Hit>)
    requires cfg.limit >= 1 && cfg.window > 1
    ensures ClockRuns(hits)
    ensures AdmittedTimes(cfg, false, hits, key) ==
            [0] + Repeated(cfg.window - 1, cfg.limit - 1) + [cfg.window] + Repeated(cfg.window, cfg.limit - 1)
  {
    FirstHit(cfg, key);
    var h, n := [0] + Repeated(cfg.window - 1, cfg.limit - 1), cfg.limit - 1;
    var filled := HitMore(cfg, [Hit(key, 0)], key, 0, [0], Window(0, 1), cfg.window - 1, n);
    HitAgain(cfg, filled, key, cfg.window - 1, h, Window(0, cfg.limit), cfg.window);
    hits := HitMore(cfg, filled + [Hit(key, cfg.window)], key, cfg.window, h + [cfg.window], Window(cfg.window, 1),
                    cfg.window, n);
  }

  lemma CountOfBurst(h: seq<Instant>, limit: nat, window: Duration)
    requires limit >= 1 && window > 1
    requires h == [0] + Repeated(window - 1, limit - 1) + [window] + Repeated(window, limit - 1)
    ensures CountWithin(h, window - 1, window - 1 + window) == 2 * limit - 1
  {
    forall i | 1 <= i < |h| ensures window - 1 <= h[i] <= window {
      assert h[i] == if i < limit then window - 1 else window;
    }
    CountOfTail(h, window - 1, window - 1 + window, 2 * limit - 1);
  }

  lemma SingleBurst(cfg: Config, key: string) returns (hits: seq<Hit>)
    requires cfg.limit < 1 && cfg.window > 0
    ensures ClockRuns(hits)
    ensures CountWithin(AdmittedTimes(cfg, true, hits, key), 0, 0 + cfg.window) == 1
  {
    FirstHit(cfg, key);
    hits := [Hit(key, 0)];
    SameAdmitted(cfg, hits, key);
    CountOfTail(AdmittedTimes(cfg, false, hits, key), 0, cfg.window, 1);
  }

  lemma LongBurst(cfg: Config, key: string) returns (hits: seq<Hit>)
    requires cfg.limit >= 1 && cfg.window > 1
    ensures ClockRuns(hits)
    ensures CountWithin(AdmittedTimes(cfg, true, hits, key), cfg.window - 1, cfg.window - 1 + cfg.window) == 2 * cfg.limit - 1
  {
    hits := FullBurst(cfg, key);
    SameAdmitted(cfg, hits, key);
    CountOfBurst(AdmittedTimes(cfg, false, hits, key), cfg.limit, cfg.window);
  }

  /** The bound cannot be lowered for any limit and any window longer than one nanosecond. */
  lemma BurstIsAttained(cfg: Config, key: string) returns (hits: seq<Hit>, from: Instant)
    requires cfg.window > 1
    ensures ClockRuns(hits)
    ensures CountWithin(AdmittedTimes(cfg, true, hits, key), from, from + cfg.window) == cfg.Burst()
  {
    if cfg.limit < 1 {
      hits := SingleBurst(cfg, key);
      from := 0;
    } else {
      hits := LongBurst(cfg, key);
      from := cfg.window - 1;
    }
  }

  // ----- waiting as told -----

  /** A refused key with no other hit of its own is admitted again exactly when the
      announced time has passed, whatever other keys do; the announced seconds suffice
      and are not a second too many. */
  lemma RetryAfterIsExact(cfg: Config, hits: seq<Hit>, refused: Hit, others: seq<Hit>, again: Hit)
    requires ClockRuns(hits + [refused] + others + [again]) && again.key == refused.key
    requires forall i :: 0 <= i < |others| ==> others[i].key != refused.key
    requires VerdictAfter(cfg, true, hits, refused).Refused?
    ensures var retryAfter := VerdictAfter(cfg, true, hits, refused).retryAfter;
            && retryAfter > 0
            && (VerdictAfter(cfg, true, hits + [refused] + others, again).Admitted? <==>
                again.at >= refused.at + retryAfter)
            && retryAfter <= RetryAfterSeconds(retryAfter) * SECOND <= retryAfter + SECOND
  {
    var all := hits + [refused] + others + [again];
    assert all[..|hits| + 1] == hits + [refused];
    ClockRunsPrefix(all, |hits| + 1);
    SweepIsUnobservable(cfg, hits, refused);
    SweepIsUnobservable(cfg, hits + [refused] + others, again);
    RetryWithoutSweep(cfg, hits, refused, others, again);
  }

  lemma ClockRunsPrefix(hits: seq<Hit>, n: nat)
    requires ClockRuns(hits) && n <= |hits|
    ensures ClockRuns(hits[..n])
  {
  }

  lemma RetryWithoutSweep(cfg: Config, hits: seq<Hit>, refused: Hit, others: seq<Hit>, again: Hit)
    requires again.key == refused.key && forall i :: 0 <= i < |others| ==> others[i].key != refused.key
    requires VerdictAfter(cfg, false, hits, refused).Refused?
    ensures var retryAfter := VerdictAfter(cfg, false, hits, refused).retryAfter;
            && retryAfter > 0
            && (VerdictAfter(cfg, false, hits + [refused] + others, again).Admitted? <==>
                again.at >= refused.at + retryAfter)
  {
    OthersLeaveKey(cfg, hits + [refused], others, refused.key);
    assert (hits + [refused])[..|hits|] == hits;
  }

  lemma {:induction false} OthersLeaveKey(cfg: Config, hits: seq<Hit>, others: seq<Hit>, key: string)
    requires forall i :: 0 <= i < |others| ==> others[i].key != key
    ensures Lookup(Run(cfg, false, hits + others), key) == Lookup(Run(cfg, false, hits), key)
  {
    if others == [] {
      assert hits + others == hits;
    } else {
      var n := |others| - 1;
      assert (hits + others)[..|hits + others| - 1] == hits + others[..n];
      OthersLeaveKey(cfg, hits, others[..n], key);
    }
  }

  // ----- the verdict from the admitted times alone -----

  /** When the present window of a key admitted at the times h opened: with the first admitted
      hit at least a window length after the one that opened the window before. */
  function Opened(h: seq<Instant>, window: Duration): Instant
    requires h != []
  {
    var last := h[|h| - 1];
    if |h| == 1 then last
    else
      var before := Opened(h[..|h| - 1], window);
      if last - before >= window then last else before
  }

  ghost predicate StartsWhenOpened(cfg: Config, h: seq<Instant>, w: Option<Window>) {
    (w.None? <==> h == []) && (w.Some? ==> w.value.start == Opened(h, cfg.window))
  }

  lemma {:induction false} WindowOpened(cfg: Config, hits: seq<Hit>, key: string)
    ensures StartsWhenOpened(cfg, AdmittedTimes(cfg, false, hits, key), Lookup(Run(cfg, false, hits), key))
  {
    if hits != [] {
      var init, last := hits[..|hits| - 1], hits[|hits| - 1];
      WindowOpened(cfg, init, key);
      HitChanges(cfg, hits, key);
      var h := AdmittedTimes(cfg, false, init, key);
      assert (h + [last.at])[..|h|] == h;
    }
  }

  /** The window of a key admitted at the times h is running and has admitted the limit. */
  predicate Full(h: seq<Instant>, limit: int, window: Duration, now: Instant) {
    h != []
    && now < Opened(h, window) + window
    && CountWithin(h, Opened(h, window), Opened(h, window) + window) >= limit
  }

  lemma AnswerOfWindow(cfg: Config, h: seq<Instant>, w: Option<Window>, p: nat, now: Instant)
    requires cfg.window > 0 && StartsWhenOpened(cfg, h, w) && TimesInv(cfg, h) && WindowInv(cfg, h, w, p)
    ensures Admits(cfg, w, now) <==> !Full(h, cfg.limit, cfg.window, now)
  {
    if w.Some? {
      WindowCount(cfg, h, w.value, p);
    }
  }

  lemma AllowWithoutSweep(cfg: Config, hits: seq<Hit>, hit: Hit)
    requires ClockRuns(hits) && cfg.window > 0
    ensures var h := AdmittedTimes(cfg, false, hits, hit.key);
            VerdictAfter(cfg, false, hits, hit) ==
            if Full(h, cfg.limit, cfg.window, hit.at) then Refused(Opened(h, cfg.window) + cfg.window - hit.at)
            else Admitted
  {
    var h, w := AdmittedTimes(cfg, false, hits, hit.key), Lookup(Run(cfg, false, hits), hit.key);
    var p := WindowRun(cfg, hits, hit.key, LastAt(hits));
    WindowOpened(cfg, hits, hit.key);
    AnswerOfWindow(cfg, h, w, p, hit.at);
  }

  /** After any run a hit is refused exactly while the present window of its key is running and has
      admitted the limit, and is told what is left of the window. */
  lemma AllowIsExact(cfg: Config, hits: seq<Hit>, hit: Hit)
    requires ClockRuns(hits + [hit]) && cfg.window > 0
    ensures var h := AdmittedTimes(cfg, true, hits, hit.key);
            VerdictAfter(cfg, true, hits, hit) ==
            if Full(h, cfg.limit, cfg.window, hit.at) then Refused(Opened(h, cfg.window) + cfg.window - hit.at)
            else Admitted
  {
    assert (hits + [hit])[..|hits|] == hits;
    ClockRunsPrefix(hits + [hit], |hits|);
    SweepIsUnobservable(cfg, hits, hit);
    SameAdmitted(cfg, hits, hit.key);
    AllowWithoutSweep(cfg, hits, hit);
  }
}
