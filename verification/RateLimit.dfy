/** The fixed-window limiter and the account lockout (crates/api/src/rate_limit.rs). Each call reads the
    clock once, and calls are in the order in which they took the lock. */
module RateLimit {

  /** How many keys are held before idle ones are swept. */
  const SWEEP_AT := 10_000

  datatype Count = Count(used: nat, started: int)

  type Counts = map<string, Count>

  datatype Buckets = Buckets(counts: Counts, swept: int)

  datatype Answer = Allowed | Refused(retryAfter: int)

  /** Requests (or failures) allowed, and the length of the window. A limit of zero disables. */
  datatype Config = Config(limit: nat, window: nat)

  datatype Call = Check(key: string) | IsLocked(key: string) | RecordFailure(key: string) | Clear(key: string)

  datatype Timed = Timed(at: int, call: Call)

  /** `elapsed` and `duration_since` saturate at zero. */
  function Elapsed(since: int, now: int): nat {
    if now < since then 0 else now - since
  }

  /** `entry(key).or_insert(..)`, then the reset of a window that is over. */
  function Current(c: Counts, key: string, now: int, window: nat): Count {
    var count := if key in c then c[key] else Count(0, now);
    if Elapsed(count.started, now) >= window then Count(0, now) else count
  }

  function RetryAfter(count: Count, now: int, window: nat): nat {
    if Elapsed(count.started, now) > window then 0 else window - Elapsed(count.started, now)
  }

  /** One call on counters that are never swept. */
  function Step(c: Counts, call: Call, now: int, cfg: Config): (Counts, Answer) {
    match call
    case Check(key) =>
      var count := Current(c, key, now, cfg.window);
      if count.used >= cfg.limit then (c[key := count], Refused(RetryAfter(count, now, cfg.window)))
      else (c[key := Count(count.used + 1, count.started)], Allowed)
    case IsLocked(key) =>
      if key in c && c[key].used >= cfg.limit && Elapsed(c[key].started, now) < cfg.window
      then (c, Refused(RetryAfter(c[key], now, cfg.window)))
      else (c, Allowed)
    case RecordFailure(key) =>
      var count := Current(c, key, now, cfg.window);
      (c[key := Count(count.used + 1, count.started)], Allowed)
    case Clear(key) => (c - {key}, Allowed)
  }

  function Sweep(b: Buckets, now: int, window: nat): Buckets {
    if |b.counts| < SWEEP_AT || Elapsed(b.swept, now) < window then b
    else Buckets(map key | key in b.counts && Elapsed(b.counts[key].started, now) < window :: b.counts[key], now)
  }

  /** One call as the code makes it: disabled, or sweeping first unless it only clears. */
  function StepSweeping(b: Buckets, call: Call, now: int, cfg: Config): (Buckets, Answer) {
    if cfg.limit == 0 then (b, Allowed)
    else
      var swept := if call.Clear? then b else Sweep(b, now, cfg.window);
      var (counts, answer) := Step(swept.counts, call, now, cfg);
      (Buckets(counts, swept.swept), answer)
  }

  /** A limiter (`Check`) or a lockout (the other three), over one map behind one lock. */
  class Meter {
    const cfg: Config
    var counts: Counts
    var swept: int

    ghost function State(): Buckets
      reads this
    {
      Buckets(counts, swept)
    }

    constructor (limit: nat, window: nat, now: int)
      ensures cfg == Config(limit, window) && State() == Buckets(map[], now)
    {
      cfg := Config(limit, window);
      counts, swept := map[], now;
    }

    method SweepIdle(now: int)
      modifies this
      ensures State() == Sweep(old(State()), now, cfg.window)
      ensures old(swept) <= now ==>
                if |old(counts)| >= 10_000 && now - old(swept) >= cfg.window then
                  && swept == now
                  && (forall k :: k in counts <==> k in old(counts) && (if now < old(counts)[k].started then 0 else now - old(counts)[k].started) < cfg.window)
                  && (forall k :: k in counts ==> counts[k] == old(counts)[k])
                else counts == old(counts) && swept == old(swept)
    {
      if |counts| < SWEEP_AT || Elapsed(swept, now) < cfg.window {
        return;
      }
      counts := map key | key in counts && Elapsed(counts[key].started, now) < cfg.window :: counts[key];
      swept := now;
    }

    method Check(key: string, now: int) returns (answer: Answer)
      modifies this
      ensures (State(), answer) == StepSweeping(old(State()), Call.Check(key), now, cfg)
    {
      if cfg.limit == 0 {
        return Allowed;
      }
      SweepIdle(now);
      var count := if key in counts then counts[key] else Count(0, now);
      if Elapsed(count.started, now) >= cfg.window {
        count := Count(0, now);
      }
      if count.used >= cfg.limit {
        counts := counts[key := count];
        return Refused(RetryAfter(count, now, cfg.window));
      }
      counts := counts[key := Count(count.used + 1, count.started)];
      answer := Allowed;
    }

    method IsLocked(key: string, now: int) returns (answer: Answer)
      modifies this
      ensures (State(), answer) == StepSweeping(old(State()), Call.IsLocked(key), now, cfg)
    {
      if cfg.limit == 0 {
        return Allowed;
      }
      SweepIdle(now);
      if key in counts && counts[key].used >= cfg.limit && Elapsed(counts[key].started, now) < cfg.window {
        answer := Refused(RetryAfter(counts[key], now, cfg.window));
      } else {
        answer := Allowed;
      }
    }

    method RecordFailure(key: string, now: int)
      modifies this
      ensures State() == StepSweeping(old(State()), Call.RecordFailure(key), now, cfg).0
    {
      if cfg.limit == 0 {
        return;
      }
      SweepIdle(now);
      var count := if key in counts then counts[key] else Count(0, now);
      if Elapsed(count.started, now) >= cfg.window {
        count := Count(0, now);
      }
      counts := counts[key := Count(count.used + 1, count.started)];
    }

    method Clear(key: string, now: int)
      modifies this
      ensures State() == StepSweeping(old(State()), Call.Clear(key), now, cfg).0
    {
      if cfg.limit == 0 {
        return;
      }
      counts := counts - {key};
    }
  }

  /** What a sweep buys: a call that may sweep, with ten thousand keys held and a window since the last sweep, leaves no key
      but its own whose window is over; and a call that only clears never sweeps. */
  lemma SweepingDropsIdleKeys(b: Buckets, call: Call, now: int, cfg: Config, key: string)
    requires cfg.limit > 0 && (forall k :: k in b.counts ==> b.counts[k].started <= now)
    requires |b.counts| >= 10_000 && b.swept <= now - cfg.window
    ensures var after := StepSweeping(b, call, now, cfg).0;
            && (!call.Clear? && key != call.key ==> (key in after.counts <==> key in b.counts && now < b.counts[key].started + cfg.window))
            && (!call.Clear? ==> after.swept == now)
            && (call.Clear? ==> after.swept == b.swept && (key in after.counts <==> key in b.counts && key != call.key))
  {}

  // ---------- Runs ----------

  /** Times never go back. */
  ghost predicate InOrder(calls: seq<Timed>, from: int) {
    && (forall i :: 0 <= i < |calls| ==> from <= calls[i].at)
    && (forall i, j :: 0 <= i < j < |calls| ==> calls[i].at <= calls[j].at)
  }

  /** Run a sequence of calls on counters that are never swept. */
  function Plain(c: Counts, calls: seq<Timed>, cfg: Config): (Counts, seq<Answer>) {
    if calls == [] then (c, [])
    else
      var (before, answers) := Plain(c, calls[..|calls| - 1], cfg);
      var last := calls[|calls| - 1];
      var (after, answer) := Step(before, last.call, last.at, cfg);
      (after, answers + [answer])
  }

  /** Run the same calls as the code does. */
  function Sweeping(b: Buckets, calls: seq<Timed>, cfg: Config): (Buckets, seq<Answer>) {
    if calls == [] then (b, [])
    else
      var (before, answers) := Sweeping(b, calls[..|calls| - 1], cfg);
      var last := calls[|calls| - 1];
      var (after, answer) := StepSweeping(before, last.call, last.at, cfg);
      (after, answers + [answer])
  }

  // ---------- Sweeping cannot be observed ----------

  /** The swept counters are the plain ones, less some whose window is over. */
  ghost predicate Agrees(swept: Counts, plain: Counts, now: int, window: nat) {
    && (forall k :: k in swept ==> k in plain && plain[k] == swept[k])
    && (forall k :: k in plain ==> plain[k].started <= now)
    && (forall k :: k in plain && k !in swept ==> plain[k].started + window <= now)
  }

  lemma SweepAgrees(b: Buckets, plain: Counts, now: int, window: nat)
    requires Agrees(b.counts, plain, now, window)
    ensures Agrees(Sweep(b, now, window).counts, plain, now, window)
  {}

  lemma StepAgrees(swept: Counts, plain: Counts, call: Call, now: int, cfg: Config)
    requires Agrees(swept, plain, now, cfg.window)
    ensures Step(swept, call, now, cfg).1 == Step(plain, call, now, cfg).1
    ensures Agrees(Step(swept, call, now, cfg).0, Step(plain, call, now, cfg).0, now, cfg.window)
  {}

  lemma {:induction false} RunsAgree(b: Buckets, calls: seq<Timed>, cfg: Config, from: int)
    requires cfg.limit > 0 && InOrder(calls, from)
    requires forall k :: k in b.counts ==> b.counts[k].started <= from
    ensures var (b', answers) := Sweeping(b, calls, cfg);
            var (c', answers') := Plain(b.counts, calls, cfg);
            && answers == answers' && |answers| == |calls|
            && Agrees(b'.counts, c', if calls == [] then from else calls[|calls| - 1].at, cfg.window)
  {
    if calls != [] {
      var front, last := calls[..|calls| - 1], calls[|calls| - 1];
      RunsAgree(b, front, cfg, from);
      var b1, c1 := Sweeping(b, front, cfg).0, Plain(b.counts, front, cfg).0;
      assert Agrees(b1.counts, c1, last.at, cfg.window);
      SweepAgrees(b1, c1, last.at, cfg.window);
      StepAgrees(if last.call.Clear? then b1.counts else Sweep(b1, last.at, cfg.window).counts, c1, last.call, last.at, cfg);
    }
  }

  /** However many keys are held and whenever the sweep fires, every answer, wait included, is the one the
      machine without a sweep gives. */
  lemma SweepingIsUnobservable(calls: seq<Timed>, cfg: Config, created: int)
    requires cfg.limit > 0 && InOrder(calls, created)
    ensures Sweeping(Buckets(map[], created), calls, cfg).1 == Plain(map[], calls, cfg).1
    ensures |Plain(map[], calls, cfg).1| == |calls|
  {
    RunsAgree(Buckets(map[], created), calls, cfg, created);
  }

  /** A limit of zero refuses nobody. */
  lemma {:induction false} ZeroDisables(b: Buckets, calls: seq<Timed>, window: nat, i: int)
    ensures |Sweeping(b, calls, Config(0, window)).1| == |calls|
    ensures 0 <= i < |calls| ==> Sweeping(b, calls, Config(0, window)).1[i] == Allowed
  {
    if calls != [] {
      ZeroDisables(b, calls[..|calls| - 1], window, i);
    }
  }

  // ---------- How many requests get through ----------

  /** The times at which a key's requests were allowed. */
  function Hits(calls: seq<Timed>, answers: seq<Answer>, key: string): seq<int>
    requires |calls| == |answers|
  {
    if calls == [] then []
    else
      var n := |calls| - 1;
      Hits(calls[..n], answers[..n], key)
      + if calls[n].call == Check(key) && answers[n] == Allowed then [calls[n].at] else []
  }

  /** How many of some times fall in the half-open interval from `lo` to `hi`. */
  function Within(times: seq<int>, lo: int, hi: int): nat {
    if times == [] then 0
    else Within(times[..|times| - 1], lo, hi) + if lo <= times[|times| - 1] < hi then 1 else 0
  }

  /** The same, over an interval of a given length. */
  function InSpan(times: seq<int>, lo: int, length: nat): nat {
    Within(times, lo, lo + length)
  }

  lemma WithinOneMore(times: seq<int>, t: int, lo: int, hi: int)
    ensures Within(times + [t], lo, hi) == Within(times, lo, hi) + if lo <= t < hi then 1 else 0
  {
    assert (times + [t])[..|times|] == times;
  }

  lemma {:induction false} WithinSplits(times: seq<int>, lo: int, mid: int, hi: int)
    requires lo <= mid <= hi
    ensures Within(times, lo, hi) == Within(times, lo, mid) + Within(times, mid, hi)
  {
    if times != [] { WithinSplits(times[..|times| - 1], lo, mid, hi); }
  }

  lemma {:induction false} WithinIsBounded(times: seq<int>, lo: int, hi: int, top: int)
    requires forall t :: t in times ==> t < top
    ensures Within(times, lo, hi) <= Within(times, lo, top)
    ensures top <= lo ==> Within(times, lo, hi) == 0
  {
    if times != [] {
      var front := times[..|times| - 1];
      assert times[|times| - 1] in times;
      forall t | t in front ensures t < top { assert t in times; }
      WithinIsBounded(front, lo, hi, top);
    }
  }

  /** What a limiter's counter knows about the requests it let through. The window before the current one
      began with a request that is out of reach of any interval touching the current one. */
  ghost predicate Tallied(c: Counts, hits: seq<int>, key: string, now: int, cfg: Config) {
    if key !in c then hits == []
    else
      var Count(used, started) := c[key];
      && started <= now && 1 <= used <= cfg.limit
      && (forall t :: t in hits ==> t <= now && t < started + cfg.window)
      && Within(hits, started, started + cfg.window) == used
      && Within(hits, started, started + 1) >= 1
      && Within(hits, started - cfg.window + 1, started) <= cfg.limit - 1
      && (forall lo :: InSpan(hits, lo, cfg.window) <= 2 * cfg.limit - 1)
  }

  lemma TalliedLater(c: Counts, hits: seq<int>, key: string, now: int, later: int, cfg: Config)
    requires Tallied(c, hits, key, now, cfg) && now <= later
    ensures Tallied(c, hits, key, later, cfg)
  {}

  lemma FirstHit(c: Counts, key: string, now: int, cfg: Config)
    requires key !in c && cfg.limit > 0 && cfg.window > 0
    ensures Step(c, Check(key), now, cfg) == (c[key := Count(1, now)], Allowed)
    ensures Tallied(c[key := Count(1, now)], [now], key, now, cfg)
  {
    forall lo, hi ensures Within([now], lo, hi) == if lo <= now < hi then 1 else 0 {
      assert [now] == [] + [now];
      WithinOneMore([], now, lo, hi);
    }
  }

  /** A request that opens a new window. */
  lemma HitOpensAWindow(c: Counts, hits: seq<int>, key: string, now: int, cfg: Config)
    requires cfg.limit > 0 && cfg.window > 0 && Tallied(c, hits, key, now, cfg)
    requires key in c && c[key].started + cfg.window <= now
    ensures Step(c, Check(key), now, cfg) == (c[key := Count(1, now)], Allowed)
    ensures Tallied(c[key := Count(1, now)], hits + [now], key, now, cfg)
  {
    var w := cfg.window;
    var Count(used, started) := c[key];
    var hits' := hits + [now];
    WithinIsBounded(hits, now, now + w, started + w);
    WithinIsBounded(hits, now, now + 1, started + w);
    WithinOneMore(hits, now, now, now + w);
    WithinOneMore(hits, now, now, now + 1);
    // the old window without its first request
    WithinSplits(hits, started, started + 1, started + w);
    WithinIsBounded(hits, now - w + 1, now, started + w);
    assert Within(hits, now - w + 1, now) <= cfg.limit - 1 by {
      if now - w + 1 <= started + w {
        WithinSplits(hits, started + 1, now - w + 1, started + w);
      } else {
        WithinIsBounded(hits, now - w + 1, now, now - w + 1);
      }
    }
    WithinOneMore(hits, now, now - w + 1, now);
    forall lo ensures InSpan(hits', lo, w) <= 2 * cfg.limit - 1 {
      assert InSpan(hits, lo, w) <= 2 * cfg.limit - 1;
      WithinOneMore(hits, now, lo, lo + w);
      if lo <= now < lo + w {
        WithinSplits(hits, lo, now, lo + w);
        WithinIsBounded(hits, now, lo + w, started + w);
        WithinSplits(hits, now - w + 1, lo, now);
      }
    }
  }

  /** A request counted in the current window. */
  lemma HitInTheWindow(c: Counts, hits: seq<int>, key: string, now: int, cfg: Config)
    requires cfg.limit > 0 && cfg.window > 0 && Tallied(c, hits, key, now, cfg)
    requires key in c && now < c[key].started + cfg.window && c[key].used < cfg.limit
    ensures Step(c, Check(key), now, cfg) == (c[key := Count(c[key].used + 1, c[key].started)], Allowed)
    ensures Tallied(c[key := Count(c[key].used + 1, c[key].started)], hits + [now], key, now, cfg)
  {
    var w := cfg.window;
    var Count(used, started) := c[key];
    var hits' := hits + [now];
    WithinOneMore(hits, now, started, started + w);
    WithinOneMore(hits, now, started, started + 1);
    WithinOneMore(hits, now, started - w + 1, started);
    forall lo ensures InSpan(hits', lo, w) <= 2 * cfg.limit - 1 {
      assert InSpan(hits, lo, w) <= 2 * cfg.limit - 1;
      WithinOneMore(hits, now, lo, lo + w);
      if lo <= now < lo + w {
        assert started - w + 1 <= lo;
        if lo <= started {
          WithinSplits(hits, lo, started, lo + w);
          WithinSplits(hits, started - w + 1, lo, started);
          WithinIsBounded(hits, started, lo + w, started + w);
        } else {
          WithinIsBounded(hits, lo, lo + w, started + w);
          WithinSplits(hits, started, lo, started + w);
        }
      }
    }
  }

  lemma StepTallies(c: Counts, hits: seq<int>, key: string, last: Timed, now: int, cfg: Config)
    requires cfg.limit > 0 && cfg.window > 0 && Tallied(c, hits, key, now, cfg) && now <= last.at && last.call.Check?
    ensures var (c', answer) := Step(c, last.call, last.at, cfg);
            Tallied(c', hits + (if last.call == Check(key) && answer == Allowed then [last.at] else []), key, last.at, cfg)
  {
    TalliedLater(c, hits, key, now, last.at, cfg);
    assert hits + [] == hits;
    if last.call == Check(key) {
      if key !in c {
        assert hits + [last.at] == [last.at];
        FirstHit(c, key, last.at, cfg);
      } else if c[key].started + cfg.window <= last.at {
        HitOpensAWindow(c, hits, key, last.at, cfg);
      } else if c[key].used < cfg.limit {
        HitInTheWindow(c, hits, key, last.at, cfg);
      }
    }
  }

  ghost predicate OnlyChecks(calls: seq<Timed>) {
    forall i :: 0 <= i < |calls| ==> calls[i].call.Check?
  }

  lemma {:induction false} RunTallies(calls: seq<Timed>, key: string, cfg: Config, from: int)
    requires cfg.limit > 0 && cfg.window > 0 && InOrder(calls, from) && OnlyChecks(calls)
    ensures var (c, answers) := Plain(map[], calls, cfg);
            |answers| == |calls|
            && Tallied(c, Hits(calls, answers, key), key, if calls == [] then from else calls[|calls| - 1].at, cfg)
  {
    if calls != [] {
      var n := |calls| - 1;
      RunTallies(calls[..n], key, cfg, from);
      var (c, answers) := Plain(map[], calls[..n], cfg);
      StepTallies(c, Hits(calls[..n], answers, key), key, calls[n], if n == 0 then from else calls[n - 1].at, cfg);
      assert Plain(map[], calls, cfg).1[..n] == answers;
    }
  }

  /** Whatever the request times and however often the map is swept, a key gets at most twice its limit less
      one through in any interval as long as the window. */
  lemma SlidingBound(calls: seq<Timed>, key: string, cfg: Config, created: int, lo: int)
    requires cfg.limit > 0 && cfg.window > 0 && InOrder(calls, created) && OnlyChecks(calls)
    ensures var answers := Sweeping(Buckets(map[], created), calls, cfg).1;
            |answers| == |calls| && InSpan(Hits(calls, answers, key), lo, cfg.window) <= 2 * cfg.limit - 1
  {
    SweepingIsUnobservable(calls, cfg, created);
    RunTallies(calls, key, cfg, created);
    var (c, answers) := Plain(map[], calls, cfg);
    assert key !in c ==> InSpan([], lo, cfg.window) == 0;
    assert key in c ==> InSpan(Hits(calls, answers, key), lo, cfg.window) <= 2 * cfg.limit - 1;
  }

  lemma PlainLast(c: Counts, calls: seq<Timed>, cfg: Config)
    requires calls != []
    ensures var n := |calls| - 1;
            var (c1, answers) := Plain(c, calls[..n], cfg);
            var (c2, answer) := Step(c1, calls[n].call, calls[n].at, cfg);
            Plain(c, calls, cfg) == (c2, answers + [answer])
  {}

  /** One more call against a window that began at `started`. */
  lemma FixedWindowStep(c: Counts, hits: seq<int>, last: Timed, key: string, now: int, cfg: Config, started: int)
    requires cfg.limit > 0 && cfg.window > 0 && Tallied(c, hits, key, now, cfg) && now <= last.at && last.call.Check?
    requires key in c && (c[key].started == started || started + cfg.window <= c[key].started)
    requires Within(hits, started, started + cfg.window) <= cfg.limit
    ensures var (c', answer) := Step(c, last.call, last.at, cfg);
            var hits' := hits + if last.call == Check(key) && answer == Allowed then [last.at] else [];
            && Within(hits', started, started + cfg.window) <= cfg.limit
            && key in c' && (c'[key].started == started || started + cfg.window <= c'[key].started)
  {
    assert hits + [] == hits;
    WithinOneMore(hits, last.at, started, started + cfg.window);
  }

  /** A window that began at `started` let at most the limit through. */
  ghost predicate HoldsToLimit(calls: seq<Timed>, answers: seq<Answer>, key: string, cfg: Config, started: int) {
    |answers| == |calls| && Within(Hits(calls, answers, key), started, started + cfg.window) <= cfg.limit
  }

  /** What a window of a key has let through by the end of a run. */
  ghost predicate WindowHeld(calls: seq<Timed>, key: string, cfg: Config, started: int) {
    var (c, answers) := Plain(map[], calls, cfg);
    && HoldsToLimit(calls, answers, key, cfg, started)
    && key in c && (c[key].started == started || started + cfg.window <= c[key].started)
  }

  lemma WindowHeldLonger(calls: seq<Timed>, key: string, cfg: Config, from: int, started: int)
    requires cfg.limit > 0 && cfg.window > 0 && InOrder(calls, from) && OnlyChecks(calls) && calls != []
    requires WindowHeld(calls[..|calls| - 1], key, cfg, started)
    ensures WindowHeld(calls, key, cfg, started)
  {
    var m := |calls| - 1;
    var front := calls[..m];
    RunTallies(front, key, cfg, from);
    var (c, answers) := Plain(map[], front, cfg);
    FixedWindowStep(c, Hits(front, answers, key), calls[m], key, if m == 0 then from else calls[m - 1].at, cfg, started);
    PlainLast(map[], calls, cfg);
    assert Plain(map[], calls, cfg).1[..m] == answers;
  }

  /** Whatever the request times and however often the map is swept: a window of a key that stands at any point of a run
      lets at most the limit through in the whole run. */
  lemma FixedWindowBound(calls: seq<Timed>, n: nat, key: string, cfg: Config, created: int)
    requires cfg.limit > 0 && cfg.window > 0 && InOrder(calls, created) && OnlyChecks(calls) && n <= |calls|
    requires key in Sweeping(Buckets(map[], created), calls[..n], cfg).0.counts
    ensures var started := Sweeping(Buckets(map[], created), calls[..n], cfg).0.counts[key].started;
            HoldsToLimit(calls, Sweeping(Buckets(map[], created), calls, cfg).1, key, cfg, started)
  {
    CounterIsPlain(calls[..n], key, cfg, created);
    SweepingIsUnobservable(calls, cfg, created);
    WindowsHold(calls, n, key, cfg, created);
    assert WindowHeld(calls, key, cfg, Plain(map[], calls[..n], cfg).0[key].started);
  }

  lemma CounterIsPlain(calls: seq<Timed>, key: string, cfg: Config, created: int)
    requires cfg.limit > 0 && InOrder(calls, created)
    requires key in Sweeping(Buckets(map[], created), calls, cfg).0.counts
    ensures key in Plain(map[], calls, cfg).0
    ensures Plain(map[], calls, cfg).0[key] == Sweeping(Buckets(map[], created), calls, cfg).0.counts[key]
  {
    RunsAgree(Buckets(map[], created), calls, cfg, created);
  }

  /** The same without a sweep. */
  lemma {:induction false} WindowsHold(calls: seq<Timed>, n: nat, key: string, cfg: Config, from: int)
    requires cfg.limit > 0 && cfg.window > 0 && InOrder(calls, from) && OnlyChecks(calls) && n <= |calls|
    requires key in Plain(map[], calls[..n], cfg).0
    ensures WindowHeld(calls, key, cfg, Plain(map[], calls[..n], cfg).0[key].started)
    decreases |calls|
  {
    if n == |calls| {
      assert calls[..n] == calls;
      FixedWindowNow(calls, key, cfg, from);
    } else {
      var front := calls[..|calls| - 1];
      assert front[..n] == calls[..n];
      WindowsHold(front, n, key, cfg, from);
      WindowHeldLonger(calls, key, cfg, from, Plain(map[], calls[..n], cfg).0[key].started);
    }
  }

  lemma FixedWindowNow(calls: seq<Timed>, key: string, cfg: Config, from: int)
    requires cfg.limit > 0 && cfg.window > 0 && InOrder(calls, from) && OnlyChecks(calls)
    requires key in Plain(map[], calls, cfg).0
    ensures WindowHeld(calls, key, cfg, Plain(map[], calls, cfg).0[key].started)
  {
    RunTallies(calls, key, cfg, from);
  }

  // ---------- The sliding bound is attained ----------

  function Repeat(t: int, key: string, n: nat): seq<Timed> {
    seq(n, i => Timed(t, Check(key)))
  }

  function Times(t: int, n: nat): seq<int> {
    seq(n, i => t)
  }

  lemma {:induction false} WithinTimes(hits: seq<int>, t: int, n: nat, lo: int, hi: int)
    ensures Within(hits + Times(t, n), lo, hi) == Within(hits, lo, hi) + if lo <= t < hi then n else 0
  {
    if n == 0 {
      assert hits + Times(t, 0) == hits;
    } else {
      WithinTimes(hits, t, n - 1, lo, hi);
      assert hits + Times(t, n) == (hits + Times(t, n - 1)) + [t];
      WithinOneMore(hits + Times(t, n - 1), t, lo, hi);
    }
  }

  /** Where a run leaves a key: its counter, and the times at which it was let through. */
  ghost predicate Leaves(calls: seq<Timed>, key: string, cfg: Config, count: Count, hits: seq<int>) {
    var (c, answers) := Plain(map[], calls, cfg);
    |answers| == |calls| && key in c && c[key] == count && Hits(calls, answers, key) == hits
  }

  lemma RoomForOne(calls: seq<Timed>, t: int, key: string, cfg: Config, used: nat, started: int, hits: seq<int>)
    requires Leaves(calls, key, cfg, Count(used, started), hits)
    requires started <= t < started + cfg.window && used < cfg.limit
    ensures Leaves(calls + [Timed(t, Check(key))], key, cfg, Count(used + 1, started), hits + [t])
  {
    OneMoreCall(calls, Timed(t, Check(key)), key, cfg);
  }

  /** Requests at one moment are all let through while the window has room for them. */
  lemma {:induction false} RoomForAll(calls: seq<Timed>, t: int, key: string, n: nat, cfg: Config, used: nat, started: int,
                                      hits: seq<int>)
    requires Leaves(calls, key, cfg, Count(used, started), hits)
    requires started <= t < started + cfg.window && used + n <= cfg.limit
    ensures Leaves(calls + Repeat(t, key, n), key, cfg, Count(used + n, started), hits + Times(t, n))
  {
    if n == 0 {
      assert calls + Repeat(t, key, 0) == calls && hits + Times(t, 0) == hits;
    } else {
      RoomForAll(calls, t, key, n - 1, cfg, used, started, hits);
      RoomForOne(calls + Repeat(t, key, n - 1), t, key, cfg, used + n - 1, started, hits + Times(t, n - 1));
      assert calls + Repeat(t, key, n) == calls + Repeat(t, key, n - 1) + [Timed(t, Check(key))];
      assert hits + Times(t, n) == hits + Times(t, n - 1) + [t];
    }
  }

  lemma OneMoreCall(calls: seq<Timed>, last: Timed, key: string, cfg: Config)
    requires |Plain(map[], calls, cfg).1| == |calls|
    ensures var (c, answers) := Plain(map[], calls, cfg);
            var (c', answer) := Step(c, last.call, last.at, cfg);
            && Plain(map[], calls + [last], cfg) == (c', answers + [answer])
            && Hits(calls + [last], answers + [answer], key)
               == Hits(calls, answers, key) + if last.call == Check(key) && answer == Allowed then [last.at] else []
  {
    var (c, answers) := Plain(map[], calls, cfg);
    var (c', answer) := Step(c, last.call, last.at, cfg);
    assert (calls + [last])[..|calls|] == calls && (answers + [answer])[..|calls|] == answers;
  }

  /** One request opens a window; the rest of its allowance comes in the window's last moment, and the whole
      of the next allowance one moment later. */
  function Burst(key: string, cfg: Config): seq<Timed>
    requires cfg.limit > 0
  {
    [Timed(0, Check(key))] + Repeat(cfg.window - 1, key, cfg.limit - 1) + Repeat(cfg.window, key, cfg.limit)
  }

  lemma FullWindow(key: string, cfg: Config)
    requires cfg.limit > 0 && cfg.window > 0
    ensures Leaves([Timed(0, Check(key))] + Repeat(cfg.window - 1, key, cfg.limit - 1), key, cfg,
                   Count(cfg.limit, 0), [0] + Times(cfg.window - 1, cfg.limit - 1))
  {
    var first := [Timed(0, Check(key))];
    assert [] + first == first && [] + [0] == [0];
    OneMoreCall([], Timed(0, Check(key)), key, cfg);
    assert Leaves(first, key, cfg, Count(1, 0), [0]);
    RoomForAll(first, cfg.window - 1, key, cfg.limit - 1, cfg, 1, 0, [0]);
  }

  lemma NextWindow(calls: seq<Timed>, key: string, cfg: Config, hits: seq<int>)
    requires cfg.limit > 0 && cfg.window > 0 && Leaves(calls, key, cfg, Count(cfg.limit, 0), hits)
    ensures Leaves(calls + [Timed(cfg.window, Check(key))], key, cfg, Count(1, cfg.window), hits + [cfg.window])
  {
    OneMoreCall(calls, Timed(cfg.window, Check(key)), key, cfg);
  }

  lemma BurstHits(key: string, cfg: Config)
    requires cfg.limit > 0 && cfg.window > 0
    ensures Leaves(Burst(key, cfg), key, cfg, Count(cfg.limit, cfg.window),
                   [0] + Times(cfg.window - 1, cfg.limit - 1) + [cfg.window] + Times(cfg.window, cfg.limit - 1))
  {
    var w := cfg.window;
    var full, hits := [Timed(0, Check(key))] + Repeat(w - 1, key, cfg.limit - 1), [0] + Times(w - 1, cfg.limit - 1);
    FullWindow(key, cfg);
    NextWindow(full, key, cfg, hits);
    RoomForAll(full + [Timed(w, Check(key))], w, key, cfg.limit - 1, cfg, 1, w, hits + [w]);
    assert [Timed(w, Check(key))] + Repeat(w, key, cfg.limit - 1) == Repeat(w, key, cfg.limit);
    assert Burst(key, cfg) == full + [Timed(w, Check(key))] + Repeat(w, key, cfg.limit - 1);
  }

  /** No smaller bound holds: for every limit and every window of more than one tick, some run lets exactly
      that many through. */
  lemma SlidingBoundIsAttained(key: string, cfg: Config)
    requires cfg.limit > 0 && cfg.window > 1
    ensures InOrder(Burst(key, cfg), 0) && OnlyChecks(Burst(key, cfg))
    ensures var answers := Sweeping(Buckets(map[], 0), Burst(key, cfg), cfg).1;
            && |answers| == |Burst(key, cfg)|
            && InSpan(Hits(Burst(key, cfg), answers, key), cfg.window - 1, cfg.window) == 2 * cfg.limit - 1
  {
    SweepingIsUnobservable(Burst(key, cfg), cfg, 0);
    BurstHits(key, cfg);
    BurstInSpan(cfg);
  }

  lemma BurstInSpan(cfg: Config)
    requires cfg.limit > 0 && cfg.window > 1
    ensures InSpan([0] + Times(cfg.window - 1, cfg.limit - 1) + [cfg.window] + Times(cfg.window, cfg.limit - 1),
                   cfg.window - 1, cfg.window) == 2 * cfg.limit - 1
  {
    var w := cfg.window;
    var lo, hi := w - 1, w - 1 + w;
    WithinOneMore([], 0, lo, hi);
    assert [] + [0] == [0];
    WithinTimes([0], w - 1, cfg.limit - 1, lo, hi);
    WithinOneMore([0] + Times(w - 1, cfg.limit - 1), w, lo, hi);
    WithinTimes([0] + Times(w - 1, cfg.limit - 1) + [w], w, cfg.limit - 1, lo, hi);
  }

  // ---------- How long a refusal lasts ----------

  /** Calls that leave a key's refusal standing: anything but clearing it. */
  ghost predicate NeverCleared(calls: seq<Timed>, key: string) {
    forall i :: 0 <= i < |calls| ==> calls[i].call != Clear(key)
  }

  lemma {:induction false} RefusalStands(c: Counts, calls: seq<Timed>, key: string, cfg: Config, started: int, end: int)
    requires key in c && c[key].used >= cfg.limit && c[key].started == started
    requires end == started + cfg.window && NeverCleared(calls, key)
    requires forall i :: 0 <= i < |calls| ==> started <= calls[i].at < end
    ensures var c' := Plain(c, calls, cfg).0;
            key in c' && c'[key].used >= cfg.limit && c'[key].started == started
  {
    if calls != [] {
      RefusalStands(c, calls[..|calls| - 1], key, cfg, started, end);
    }
  }

  lemma SpentAnswer(c: Counts, ask: Call, now: int, cfg: Config)
    requires cfg.limit > 0 && (ask.Check? || ask.IsLocked?)
    requires ask.key in c && c[ask.key].used >= cfg.limit && c[ask.key].started <= now
    ensures var end := c[ask.key].started + cfg.window;
            Step(c, ask, now, cfg).1 == if now < end then Refused(end - now) else Allowed
  {}

  lemma RefusedMeansSpent(c: Counts, ask: Call, now: int, cfg: Config)
    requires cfg.limit > 0 && (ask.Check? || ask.IsLocked?)
    requires ask.key in c ==> c[ask.key].started <= now
    requires Step(c, ask, now, cfg).1.Refused?
    ensures ask.key in c && c[ask.key].used >= cfg.limit && now < c[ask.key].started + cfg.window
    ensures ask.key in Step(c, ask, now, cfg).0 && Step(c, ask, now, cfg).0[ask.key] == c[ask.key]
    ensures Step(c, ask, now, cfg).1 == Refused(c[ask.key].started + cfg.window - now)
  {}

  /** No counter began after a moment. */
  ghost predicate Begun(c: Counts, now: int) {
    forall k :: k in c ==> c[k].started <= now
  }

  lemma StepBegins(c: Counts, call: Call, now: int, cfg: Config)
    requires Begun(c, now)
    ensures Begun(Step(c, call, now, cfg).0, now)
  {}

  /** After any run the next answer is the one without a sweep. */
  lemma NextAnswerAgrees(b: Buckets, calls: seq<Timed>, ask: Call, from: int, now: int, cfg: Config)
    requires cfg.limit > 0 && InOrder(calls, from) && Begun(b.counts, from) && from <= now && !ask.Clear?
    requires forall i :: 0 <= i < |calls| ==> calls[i].at <= now
    ensures StepSweeping(Sweeping(b, calls, cfg).0, ask, now, cfg).1 == Step(Plain(b.counts, calls, cfg).0, ask, now, cfg).1
  {
    RunsAgree(b, calls, cfg, from);
    var swept, plain := Sweeping(b, calls, cfg).0, Plain(b.counts, calls, cfg).0;
    assert Agrees(swept.counts, plain, now, cfg.window);
    SweepAgrees(swept, plain, now, cfg.window);
    StepAgrees(Sweep(swept, now, cfg.window).counts, plain, ask, now, cfg);
  }

  ghost predicate NoneOf(calls: seq<Timed>, key: string) {
    forall i :: 0 <= i < |calls| ==> calls[i].call.key != key
  }

  /** A refusal at `now` against the answer at `later`: refused until the moment named and, in the quiet, allowed at it. */
  predicate IsExact(answer: Answer, next: Answer, now: int, later: int, window: nat, quiet: bool) {
    && answer.Refused? && 0 < answer.retryAfter <= window
    && var free := now + answer.retryAfter;
       if later < free then next == Refused(free - later) else quiet ==> next == Allowed
  }

  /** The wait a refusal names is exact, for the limiter and for the lockout alike and however often the map is swept.
      From the refusal at `now` until `now + retryAfter`, whatever else is called (more failures included) short of
      clearing the key, asking again is refused until that same moment; and asking then, with nothing else between on
      that key, is allowed. */
  lemma RetryAfterIsExact(b: Buckets, ask: Call, now: int, calls: seq<Timed>, later: int, cfg: Config)
    requires cfg.limit > 0 && (ask.Check? || ask.IsLocked?) && Begun(b.counts, now)
    requires StepSweeping(b, ask, now, cfg).1.Refused?
    requires InOrder(calls, now) && NeverCleared(calls, ask.key) && now <= later
    requires forall i :: 0 <= i < |calls| ==> calls[i].at <= later
    ensures var (b1, answer) := StepSweeping(b, ask, now, cfg);
            IsExact(answer, StepSweeping(Sweeping(b1, calls, cfg).0, ask, later, cfg).1, now, later, cfg.window, NoneOf(calls, ask.key))
  {
    var c := Sweep(b, now, cfg.window).counts;
    AskedOnce(b, ask, now, cfg);
    NextAnswerAgrees(StepSweeping(b, ask, now, cfg).0, calls, ask, now, later, cfg);
    WaitIsExact(c, ask, now, calls, later, cfg);
  }

  lemma AskedOnce(b: Buckets, ask: Call, now: int, cfg: Config)
    requires cfg.limit > 0 && !ask.Clear? && Begun(b.counts, now)
    ensures var c := Sweep(b, now, cfg.window).counts;
            && Begun(c, now) && Begun(StepSweeping(b, ask, now, cfg).0.counts, now)
            && StepSweeping(b, ask, now, cfg).0.counts == Step(c, ask, now, cfg).0
            && StepSweeping(b, ask, now, cfg).1 == Step(c, ask, now, cfg).1
  {
    StepBegins(Sweep(b, now, cfg.window).counts, ask, now, cfg);
  }

  /** The same without a sweep. */
  lemma WaitIsExact(c: Counts, ask: Call, now: int, calls: seq<Timed>, later: int, cfg: Config)
    requires cfg.limit > 0 && (ask.Check? || ask.IsLocked?)
    requires ask.key in c ==> c[ask.key].started <= now
    requires Step(c, ask, now, cfg).1.Refused?
    requires InOrder(calls, now) && NeverCleared(calls, ask.key) && now <= later
    requires forall i :: 0 <= i < |calls| ==> calls[i].at <= later
    ensures var (c1, answer) := Step(c, ask, now, cfg);
            IsExact(answer, Step(Plain(c1, calls, cfg).0, ask, later, cfg).1, now, later, cfg.window, NoneOf(calls, ask.key))
  {
    RefusedMeansSpent(c, ask, now, cfg);
    var c1 := Step(c, ask, now, cfg).0;
    var Count(_, started) := c[ask.key];
    if later < started + cfg.window {
      RefusalStands(c1, calls, ask.key, cfg, started, started + cfg.window);
      SpentAnswer(Plain(c1, calls, cfg).0, ask, later, cfg);
    } else if NoneOf(calls, ask.key) {
      OtherKeysAreApart(c1, calls, ask.key, cfg);
      SpentAnswer(Plain(c1, calls, cfg).0, ask, later, cfg);
    }
  }

  lemma {:induction false} OtherKeysAreApart(c: Counts, calls: seq<Timed>, key: string, cfg: Config)
    requires forall i :: 0 <= i < |calls| ==> calls[i].call.key != key
    ensures var c' := Plain(c, calls, cfg).0;
            (key in c' <==> key in c) && (key in c ==> c'[key] == c[key])
  {
    if calls != [] {
      OtherKeysAreApart(c, calls[..|calls| - 1], key, cfg);
    }
  }

  // ---------- What locks an account ----------

  /** Failures of a key since it was last cleared, from a moment on. */
  function FailuresSince(calls: seq<Timed>, key: string, lo: int): nat {
    if calls == [] then 0
    else
      var front, last := calls[..|calls| - 1], calls[|calls| - 1];
      if last.call == Clear(key) then 0
      else FailuresSince(front, key, lo) + if last.call == RecordFailure(key) && last.at >= lo then 1 else 0
  }

  ghost predicate OnlyLockoutCalls(calls: seq<Timed>) {
    forall i :: 0 <= i < |calls| ==> !calls[i].call.Check?
  }

  lemma {:induction false} FailuresAreCounted(calls: seq<Timed>, key: string, cfg: Config, from: int)
    requires InOrder(calls, from) && OnlyLockoutCalls(calls)
    ensures var c := Plain(map[], calls, cfg).0;
            && (key in c ==> c[key].used <= FailuresSince(calls, key, c[key].started)
                             && c[key].started <= calls[|calls| - 1].at)
            && (key in c ==> calls != [])
  {
    if calls != [] {
      FailuresAreCounted(calls[..|calls| - 1], key, cfg, from);
    }
  }

  lemma LockSeenPlainly(calls: seq<Timed>, key: string, cfg: Config, created: int, now: int)
    requires cfg.limit > 0 && InOrder(calls, created) && created <= now
    requires forall i :: 0 <= i < |calls| ==> calls[i].at <= now
    ensures StepSweeping(Sweeping(Buckets(map[], created), calls, cfg).0, IsLocked(key), now, cfg).1
            == Step(Plain(map[], calls, cfg).0, IsLocked(key), now, cfg).1
  {
    RunsAgree(Buckets(map[], created), calls, cfg, created);
    var b := Sweeping(Buckets(map[], created), calls, cfg).0;
    var c := Plain(map[], calls, cfg).0;
    assert Agrees(b.counts, c, now, cfg.window);
    SweepAgrees(b, c, now, cfg.window);
    StepAgrees(Sweep(b, now, cfg.window).counts, c, IsLocked(key), now, cfg);
  }

  /** An account is only ever locked for failures of its own: at least `limit` of them, all within the last
      window, with no successful sign-in since the first. */
  lemma LockedOnlyForRecentFailures(calls: seq<Timed>, key: string, cfg: Config, created: int, now: int)
    requires cfg.limit > 0 && OnlyLockoutCalls(calls) && InOrder(calls, created) && created <= now
    requires forall i :: 0 <= i < |calls| ==> calls[i].at <= now
    requires StepSweeping(Sweeping(Buckets(map[], created), calls, cfg).0, IsLocked(key), now, cfg).1.Refused?
    ensures FailuresSince(calls, key, now - cfg.window + 1) >= cfg.limit
  {
    LockSeenPlainly(calls, key, cfg, created, now);
    FailuresAreCounted(calls, key, cfg, created);
    FewerFromLater(calls, key, now - cfg.window + 1, Plain(map[], calls, cfg).0[key].started);
  }

  lemma {:induction false} FewerFromLater(calls: seq<Timed>, key: string, lo: int, hi: int)
    requires lo <= hi
    ensures FailuresSince(calls, key, hi) <= FailuresSince(calls, key, lo)
  {
    if calls != [] { FewerFromLater(calls[..|calls| - 1], key, lo, hi); }
  }

  /** From a clean slate, the first failure opens the window, and the account is locked within it exactly
      when `limit` failures have been recorded there. */
  lemma {:induction false} FailuresOfOneWindow(c: Counts, calls: seq<Timed>, key: string, cfg: Config, began: int)
    requires key !in c && cfg.window > 0 && OnlyLockoutCalls(calls) && NeverCleared(calls, key)
    requires calls != [] && calls[0] == Timed(began, RecordFailure(key))
    requires forall i :: 0 <= i < |calls| ==> began <= calls[i].at < began + cfg.window
    ensures var c' := Plain(c, calls, cfg).0;
            key in c' && c'[key] == Count(FailuresSince(calls, key, began), began)
  {
    var front, last := calls[..|calls| - 1], calls[|calls| - 1];
    if front == [] {
      assert Plain(c, front, cfg) == (c, []);
      assert FailuresSince(front, key, began) == 0;
    } else {
      FailuresOfOneWindow(c, front, key, cfg, began);
    }
  }

  lemma LockAnswer(c: Counts, key: string, cfg: Config, n: nat, began: int, now: int)
    requires key in c && c[key] == Count(n, began) && began <= now && cfg.window > 0
    ensures Step(c, IsLocked(key), now, cfg).1
            == if n >= cfg.limit && now < began + cfg.window then Refused(began + cfg.window - now) else Allowed
  {}

  /** A key without a counter whose first failure is recorded at `began`: within that window it is locked exactly when
      `limit` failures have been recorded there, for exactly what is left of the window, however often the map is
      swept. */
  lemma LockedExactlyAfterLimitFailures(b: Buckets, calls: seq<Timed>, key: string, cfg: Config, began: int, now: int)
    requires cfg.limit > 0 && cfg.window > 0 && key !in b.counts && Begun(b.counts, began)
    requires OnlyLockoutCalls(calls) && NeverCleared(calls, key) && InOrder(calls, began)
    requires calls != [] && calls[0] == Timed(began, RecordFailure(key))
    requires forall i :: 0 <= i < |calls| ==> calls[i].at < began + cfg.window && calls[i].at <= now
    ensures StepSweeping(Sweeping(b, calls, cfg).0, IsLocked(key), now, cfg).1
            == if FailuresSince(calls, key, began) >= cfg.limit && now < began + cfg.window
               then Refused(began + cfg.window - now) else Allowed
  {
    NextAnswerAgrees(b, calls, IsLocked(key), began, now, cfg);
    LockedPlainly(b.counts, calls, key, cfg, began, now);
  }

  /** The same without a sweep. */
  lemma LockedPlainly(c: Counts, calls: seq<Timed>, key: string, cfg: Config, began: int, now: int)
    requires key !in c && cfg.window > 0 && OnlyLockoutCalls(calls) && NeverCleared(calls, key)
    requires calls != [] && calls[0] == Timed(began, RecordFailure(key))
    requires forall i :: 0 <= i < |calls| ==> began <= calls[i].at < began + cfg.window
    requires began <= now
    ensures Step(Plain(c, calls, cfg).0, IsLocked(key), now, cfg).1
            == if FailuresSince(calls, key, began) >= cfg.limit && now < began + cfg.window
               then Refused(began + cfg.window - now) else Allowed
  {
    FailuresOfOneWindow(c, calls, key, cfg, began);
    LockAnswer(Plain(c, calls, cfg).0, key, cfg, FailuresSince(calls, key, began), began, now);
  }
}
