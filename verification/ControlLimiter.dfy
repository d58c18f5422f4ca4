/** Token buckets for control messages: one per source, forgotten after a minute of silence, and one for all
    sources together. Tokens and times are reals; the rounding of the source's floating point is not modelled. */
module ControlLimiter {
  import opened Bytes

  /** Rates are per second. A bucket's refill time and its last-seen time are always the same instant. */
  datatype Bucket = Bucket(tokens: real, last: real)

  datatype Config = Config(rate: real, burst: real, globalRate: real, globalBurst: real, capacity: nat) {
    ghost predicate Valid() {
      rate >= 1.0 && burst >= 1.0 && globalRate >= 1.0 && globalBurst >= 1.0
    }
  }

  datatype Limiter = Limiter(global: Bucket, sources: map<IpAddr, Bucket>, lastCleanup: real)

  /** One call: the clock is read once for `now` and again to see whether a cleanup is due. */
  datatype Call = Call(source: IpAddr, now: real, reading: real)

  const FORGET := 60.0

  /** Tokens that come in at `rate` over a stretch of time. */
  function Earned(from: real, to: real, rate: real): real {
    (to - from) * rate
  }

  function Refilled(b: Bucket, rate: real, burst: real, now: real): real {
    var tokens := b.tokens + Earned(b.last, now, rate);
    if tokens <= burst then tokens else burst
  }

  function Take(b: Bucket, rate: real, burst: real, now: real): (Bucket, bool) {
    var tokens := Refilled(b, rate, burst, now);
    if tokens < 1.0 then (Bucket(tokens, now), false) else (Bucket(tokens - 1.0, now), true)
  }

  function Cleaned(l: Limiter, c: Call): Limiter {
    if c.reading - l.lastCleanup >= FORGET then
      l.(sources := map s | s in l.sources && c.now - l.sources[s].last < FORGET :: l.sources[s], lastCleanup := c.now)
    else l
  }

  function BucketFor(cfg: Config, l: Limiter, s: IpAddr, now: real): Bucket {
    if s in l.sources then l.sources[s] else Bucket(cfg.burst, now)
  }

  function AllowClean(cfg: Config, l: Limiter, c: Call): (Limiter, bool) {
    if c.source !in l.sources && |l.sources| >= cfg.capacity then (l, false)
    else
      var (bucket, own) := Take(BucketFor(cfg, l, c.source, c.now), cfg.rate, cfg.burst, c.now);
      var next := l.(sources := l.sources[c.source := bucket]);
      if !own then (next, false)
      else
        var (global, all) := Take(l.global, cfg.globalRate, cfg.globalBurst, c.now);
        (next.(global := global), all)
  }

  function Allow(cfg: Config, l: Limiter, c: Call): (Limiter, bool) {
    AllowClean(cfg, Cleaned(l, c), c)
  }

  class ControlRateLimiter {
    const cfg: Config
    var global: Bucket
    var sources: map<IpAddr, Bucket>
    var lastCleanup: real

    constructor (perSourceRate: Word32, perSourceBurst: Word32, globalRate: Word32, globalBurst: Word32,
                 capacity: nat, now: real)
      ensures cfg == Config(AtLeastOne(perSourceRate), AtLeastOne(perSourceBurst), AtLeastOne(globalRate),
          AtLeastOne(globalBurst), capacity)
      ensures Valid(now) && View() == Fresh(cfg, now)
    {
      cfg := Config(AtLeastOne(perSourceRate), AtLeastOne(perSourceBurst), AtLeastOne(globalRate),
          AtLeastOne(globalBurst), capacity);
      global := Bucket(AtLeastOne(globalBurst), now);
      sources, lastCleanup := map[], now;
    }

    function View(): Limiter
      reads this
    {
      Limiter(global, sources, lastCleanup)
    }

    /** The table is within its capacity, no bucket above its burst, and none from after `now`. */
    ghost predicate Valid(now: real)
      reads this
    {
      cfg.Valid() && Inv(cfg, View(), now)
    }

    /** A call is allowed exactly when, after the cleanup, the table has room for its source and both buckets
        hold a token. It costs its own source at most one token, and no other source anything. */
    method AllowSource(c: Call) returns (allowed: bool)
      requires Valid(c.now)
      modifies this
      ensures Valid(c.now) && (View(), allowed) == Allow(cfg, old(View()), c)
      ensures var cleaned := Cleaned(old(View()), c);
              && (allowed <==>
                    && HasRoom(cfg, cleaned, c.source) && Level(cfg, cleaned, c.source, c.now) >= 1.0
                    && Refilled(cleaned.global, cfg.globalRate, cfg.globalBurst, c.now) >= 1.0)
              && Level(cfg, View(), c.source, c.now) == Level(cfg, cleaned, c.source, c.now)
                 - (if HasRoom(cfg, cleaned, c.source) && Level(cfg, cleaned, c.source, c.now) >= 1.0 then 1.0 else 0.0)
              && forall s :: s != c.source ==> Level(cfg, View(), s, c.now) == Level(cfg, cleaned, s, c.now)
    {
      hide Refilled, Take, Inv, Level;
      AllowMeans(cfg, View(), c);
      if c.reading - lastCleanup >= FORGET {
        sources := map s | s in sources && c.now - sources[s].last < FORGET :: sources[s];
        lastCleanup := c.now;
      }
      if c.source !in sources && |sources| >= cfg.capacity {
        return false;
      }
      ghost var cleaned := sources;
      if c.source !in sources {
        sources := sources[c.source := Bucket(cfg.burst, c.now)];
      }
      var (bucket, own) := Take(sources[c.source], cfg.rate, cfg.burst, c.now);
      assert sources[c.source := bucket] == cleaned[c.source := bucket];
      sources := sources[c.source := bucket];
      if !own {
        return false;
      }
      var (all, ok) := Take(global, cfg.globalRate, cfg.globalBurst, c.now);
      global := all;
      allowed := ok;
    }
  }

  function AtLeastOne(n: Word32): real { if n == 0 then 1.0 else n as real }

  function Fresh(cfg: Config, now: real): Limiter { Limiter(Bucket(cfg.globalBurst, now), map[], now) }

  // ---- levels ----

  ghost predicate BucketOk(b: Bucket, burst: real, now: real) {
    0.0 <= b.tokens <= burst && b.last <= now
  }

  ghost predicate Inv(cfg: Config, l: Limiter, now: real) {
    && BucketOk(l.global, cfg.globalBurst, now) && |l.sources| <= cfg.capacity
    && forall s :: s in l.sources ==> BucketOk(l.sources[s], cfg.burst, now)
  }

  /** What a source could spend at `now`; one without a bucket would get a full one. */
  function Level(cfg: Config, l: Limiter, s: IpAddr, now: real): real {
    if s in l.sources then Refilled(l.sources[s], cfg.rate, cfg.burst, now) else cfg.burst
  }

  lemma EarnedOrder(from: real, to: real, rate: real)
    requires from <= to && rate >= 0.0
    ensures Earned(from, to, rate) >= 0.0 && Earned(from, from, rate) == 0.0
  {
  }

  lemma EarnedSplit(a: real, b: real, c: real, rate: real)
    ensures Earned(a, c, rate) == Earned(a, b, rate) + Earned(b, c, rate)
  {
  }

  lemma EarnedMinute(from: real, to: real, rate: real)
    requires to - from >= FORGET && rate >= 0.0
    ensures Earned(from, to, rate) >= FORGET * rate
  {
  }

  lemma RefillGrows(b: Bucket, rate: real, burst: real, from: real, to: real)
    requires BucketOk(b, burst, from) && from <= to && rate >= 0.0
    ensures 0.0 <= Refilled(b, rate, burst, to) <= burst
    ensures var grown := Refilled(b, rate, burst, from) + Earned(from, to, rate);
            Refilled(b, rate, burst, to) == if grown <= burst then grown else burst
  {
    hide Earned;
    EarnedOrder(b.last, from, rate);
    EarnedOrder(from, to, rate);
    EarnedSplit(b.last, from, to, rate);
  }

  lemma TakeSpends(b: Bucket, rate: real, burst: real, now: real)
    requires BucketOk(b, burst, now) && rate >= 0.0
    ensures var (next, ok) := Take(b, rate, burst, now);
            && BucketOk(next, burst, now)
            && Refilled(next, rate, burst, now) + (if ok then 1.0 else 0.0) == Refilled(b, rate, burst, now)
  {
    hide Earned;
    RefillGrows(b, rate, burst, now, now);
    EarnedOrder(now, now, rate);
  }

  /** A bucket is forgotten exactly when a minute has passed since the last cleanup and since its source was heard. */
  lemma CleanupExactly(l: Limiter, c: Call, s: IpAddr)
    ensures s in Cleaned(l, c).sources <==>
              s in l.sources && (c.reading - l.lastCleanup < 60.0 || c.now - l.sources[s].last < 60.0)
    ensures s in Cleaned(l, c).sources ==> Cleaned(l, c).sources[s] == l.sources[s]
    ensures Cleaned(l, c).lastCleanup == if c.reading - l.lastCleanup < 60.0 then l.lastCleanup else c.now
  {
  }

  /** When a minute refills a bucket completely, forgetting a silent source changes nothing. */
  lemma CleanupKeepsLevel(cfg: Config, l: Limiter, c: Call, s: IpAddr)
    requires cfg.Valid() && Inv(cfg, l, c.now) && cfg.burst <= FORGET * cfg.rate
    ensures Level(cfg, Cleaned(l, c), s, c.now) == Level(cfg, l, s, c.now)
  {
    hide Earned;
    if s in l.sources && s !in Cleaned(l, c).sources {
      EarnedMinute(l.sources[s].last, c.now, cfg.rate);
    }
  }

  lemma CleanupKeepsInv(cfg: Config, l: Limiter, c: Call)
    requires Inv(cfg, l, c.now)
    ensures Inv(cfg, Cleaned(l, c), c.now) && Cleaned(l, c).global == l.global
  {
    SubsetSize(Cleaned(l, c).sources.Keys, l.sources.Keys);
  }

  lemma AllowCleanStep(cfg: Config, l: Limiter, c: Call, s: IpAddr)
    requires cfg.Valid() && Inv(cfg, l, c.now)
    ensures var (next, allowed) := AllowClean(cfg, l, c);
            && Inv(cfg, next, c.now)
            && Level(cfg, next, s, c.now) + (if allowed && c.source == s then 1.0 else 0.0) <= Level(cfg, l, s, c.now)
            && Refilled(next.global, cfg.globalRate, cfg.globalBurst, c.now) + (if allowed then 1.0 else 0.0)
               <= Refilled(l.global, cfg.globalRate, cfg.globalBurst, c.now)
  {
    hide Refilled, Take, Earned;
    FullBucket(cfg, c.now);
    TakeSpends(BucketFor(cfg, l, c.source, c.now), cfg.rate, cfg.burst, c.now);
    TakeSpends(l.global, cfg.globalRate, cfg.globalBurst, c.now);
    assert l.sources[c.source := BucketFor(cfg, l, c.source, c.now)].Keys == l.sources.Keys + {c.source};
  }

  lemma FullBucket(cfg: Config, now: real)
    requires cfg.Valid()
    ensures BucketOk(Bucket(cfg.burst, now), cfg.burst, now)
    ensures Refilled(Bucket(cfg.burst, now), cfg.rate, cfg.burst, now) == cfg.burst
  {
  }

  predicate HasRoom(cfg: Config, l: Limiter, s: IpAddr) {
    s in l.sources || |l.sources| < cfg.capacity
  }

  lemma AllowCleanMeans(cfg: Config, l: Limiter, c: Call)
    requires cfg.Valid() && Inv(cfg, l, c.now)
    ensures var (next, allowed) := AllowClean(cfg, l, c);
            var spends := HasRoom(cfg, l, c.source) && Level(cfg, l, c.source, c.now) >= 1.0;
            && (allowed <==> spends && Refilled(l.global, cfg.globalRate, cfg.globalBurst, c.now) >= 1.0)
            && Level(cfg, next, c.source, c.now) == Level(cfg, l, c.source, c.now) - (if spends then 1.0 else 0.0)
            && forall s :: s != c.source ==> Level(cfg, next, s, c.now) == Level(cfg, l, s, c.now)
  {
    hide Refilled, Earned;
    FullBucket(cfg, c.now);
    TakeSpends(BucketFor(cfg, l, c.source, c.now), cfg.rate, cfg.burst, c.now);
  }

  lemma AllowMeans(cfg: Config, l: Limiter, c: Call)
    requires cfg.Valid() && Inv(cfg, l, c.now)
    ensures var (next, allowed) := Allow(cfg, l, c);
            var cleaned := Cleaned(l, c);
            var spends := HasRoom(cfg, cleaned, c.source) && Level(cfg, cleaned, c.source, c.now) >= 1.0;
            && Inv(cfg, next, c.now)
            && (allowed <==> spends && Refilled(cleaned.global, cfg.globalRate, cfg.globalBurst, c.now) >= 1.0)
            && Level(cfg, next, c.source, c.now) == Level(cfg, cleaned, c.source, c.now) - (if spends then 1.0 else 0.0)
            && forall s :: s != c.source ==> Level(cfg, next, s, c.now) == Level(cfg, cleaned, s, c.now)
  {
    hide AllowClean, Inv, Refilled, Cleaned, Level, HasRoom, Earned;
    CleanupKeepsInv(cfg, l, c);
    AllowCleanMeans(cfg, Cleaned(l, c), c);
    AllowCleanStep(cfg, Cleaned(l, c), c, c.source);
  }

  // ---- every run ----

  ghost predicate InOrder(calls: seq<Call>) {
    && (forall i :: 0 <= i < |calls| ==> calls[i].now <= calls[i].reading)
    && (forall i, j :: 0 <= i < j < |calls| ==> calls[i].reading <= calls[j].now)
  }

  function Run(cfg: Config, l: Limiter, calls: seq<Call>): Limiter {
    if calls == [] then l else Allow(cfg, Run(cfg, l, calls[..|calls| - 1]), calls[|calls| - 1]).0
  }

  function Matches(filter: Option<IpAddr>, c: Call): bool { filter.None? || filter.value == c.source }

  /** How many calls of one source, or of all, were allowed. */
  function Allowed(cfg: Config, l: Limiter, calls: seq<Call>, filter: Option<IpAddr>): nat {
    if calls == [] then 0
    else
      var (front, c) := (calls[..|calls| - 1], calls[|calls| - 1]);
      Allowed(cfg, l, front, filter) + if Matches(filter, c) && Allow(cfg, Run(cfg, l, front), c).1 then 1 else 0
  }

  lemma LaterInv(cfg: Config, l: Limiter, from: real, to: real)
    requires Inv(cfg, l, from) && from <= to
    ensures Inv(cfg, l, to)
  {
  }

  lemma {:induction false} EveryRunKeepsInv(cfg: Config, l: Limiter, calls: seq<Call>, start: real, now: real)
    requires cfg.Valid() && Inv(cfg, l, start) && start <= now && InOrder(calls)
    requires forall i :: 0 <= i < |calls| ==> start <= calls[i].now <= now
    ensures Inv(cfg, Run(cfg, l, calls), now)
    decreases |calls|
  {
    hide Inv, Allow;
    if calls == [] {
      LaterInv(cfg, l, start, now);
    } else {
      var front, c := calls[..|calls| - 1], calls[|calls| - 1];
      EveryRunKeepsInv(cfg, l, front, start, c.now);
      AllowStep(cfg, Run(cfg, l, front), c);
      LaterInv(cfg, Run(cfg, l, calls), c.now, now);
    }
  }

  lemma AllowStep(cfg: Config, l: Limiter, c: Call)
    requires cfg.Valid() && Inv(cfg, l, c.now)
    ensures Inv(cfg, Allow(cfg, l, c).0, c.now)
    ensures var (next, allowed) := Allow(cfg, l, c);
            Refilled(next.global, cfg.globalRate, cfg.globalBurst, c.now) + (if allowed then 1.0 else 0.0)
            <= Refilled(l.global, cfg.globalRate, cfg.globalBurst, c.now)
    ensures cfg.burst <= FORGET * cfg.rate ==>
              forall s :: Level(cfg, Allow(cfg, l, c).0, s, c.now)
                          + (if Allow(cfg, l, c).1 && c.source == s then 1.0 else 0.0) <= Level(cfg, l, s, c.now)
  {
    hide AllowClean, Inv, Refilled, Cleaned, Level, Earned;
    CleanupKeepsInv(cfg, l, c);
    AllowCleanStep(cfg, Cleaned(l, c), c, c.source);
    if cfg.burst <= FORGET * cfg.rate {
      forall s ensures Level(cfg, Allow(cfg, l, c).0, s, c.now)
                       + (if Allow(cfg, l, c).1 && c.source == s then 1.0 else 0.0) <= Level(cfg, l, s, c.now) {
        CleanupKeepsLevel(cfg, l, c, s);
        AllowCleanStep(cfg, Cleaned(l, c), c, s);
      }
    }
  }

  lemma GlobalOk(cfg: Config, l: Limiter, now: real)
    requires Inv(cfg, l, now)
    ensures BucketOk(l.global, cfg.globalBurst, now)
  {
  }

  lemma {:induction false} GlobalSpent(cfg: Config, l: Limiter, calls: seq<Call>, start: real, now: real)
    requires cfg.Valid() && Inv(cfg, l, start) && start <= now && InOrder(calls)
    requires forall i :: 0 <= i < |calls| ==> start <= calls[i].now <= now
    ensures Allowed(cfg, l, calls, None) as real
            + Refilled(Run(cfg, l, calls).global, cfg.globalRate, cfg.globalBurst, now)
            <= Refilled(l.global, cfg.globalRate, cfg.globalBurst, start) + Earned(start, now, cfg.globalRate)
    ensures Allowed(cfg, l, calls, None) as real <= cfg.globalBurst + Earned(start, now, cfg.globalRate)
    decreases |calls|
  {
    hide Refilled, Allow, Earned, Inv;
    GlobalOk(cfg, l, start);
    RefillGrows(l.global, cfg.globalRate, cfg.globalBurst, start, start);
    EveryRunKeepsInv(cfg, l, calls, start, now);
    if calls == [] {
      RefillGrows(l.global, cfg.globalRate, cfg.globalBurst, start, now);
    } else {
      var front, c := calls[..|calls| - 1], calls[|calls| - 1];
      var before := Run(cfg, l, front);
      GlobalSpent(cfg, l, front, start, c.now);
      EveryRunKeepsInv(cfg, l, front, start, c.now);
      AllowStep(cfg, before, c);
      GlobalOk(cfg, Allow(cfg, before, c).0, c.now);
      RefillGrows(Allow(cfg, before, c).0.global, cfg.globalRate, cfg.globalBurst, c.now, now);
      EarnedSplit(start, c.now, now, cfg.globalRate);
    }
    GlobalOk(cfg, Run(cfg, l, calls), now);
    RefillGrows(Run(cfg, l, calls).global, cfg.globalRate, cfg.globalBurst, now, now);
  }

  /** All sources together never get more than the burst plus the rate times the time passed, however many
      sources there are and however they come and go. */
  lemma GlobalBound(cfg: Config, l: Limiter, calls: seq<Call>, start: real, now: real)
    requires cfg.Valid() && Inv(cfg, l, start) && start <= now && InOrder(calls)
    requires forall i :: 0 <= i < |calls| ==> start <= calls[i].now <= now
    ensures Allowed(cfg, l, calls, None) as real
            + Refilled(Run(cfg, l, calls).global, cfg.globalRate, cfg.globalBurst, now)
            <= Refilled(l.global, cfg.globalRate, cfg.globalBurst, start) + (now - start) * cfg.globalRate
    ensures Allowed(cfg, l, calls, None) as real <= cfg.globalBurst + (now - start) * cfg.globalRate
  {
    hide Refilled, Allowed, Run, Inv;
    GlobalSpent(cfg, l, calls, start, now);
  }

  lemma LevelGrows(cfg: Config, l: Limiter, s: IpAddr, from: real, to: real)
    requires cfg.Valid() && Inv(cfg, l, from) && from <= to
    ensures 0.0 <= Level(cfg, l, s, to) <= cfg.burst
    ensures Level(cfg, l, s, to) <= Level(cfg, l, s, from) + Earned(from, to, cfg.rate)
    ensures s in l.sources ==>
              var grown := Level(cfg, l, s, from) + Earned(from, to, cfg.rate);
              Level(cfg, l, s, to) == if grown <= cfg.burst then grown else cfg.burst
  {
    if s in l.sources {
      RefillGrows(l.sources[s], cfg.rate, cfg.burst, from, to);
    } else {
      EarnedOrder(from, to, cfg.rate);
    }
  }

  lemma {:induction false} SourceSpent(cfg: Config, l: Limiter, calls: seq<Call>, s: IpAddr, start: real, now: real)
    requires cfg.Valid() && cfg.burst <= FORGET * cfg.rate
    requires Inv(cfg, l, start) && start <= now && InOrder(calls)
    requires forall i :: 0 <= i < |calls| ==> start <= calls[i].now <= now
    ensures Allowed(cfg, l, calls, Some(s)) as real + Level(cfg, Run(cfg, l, calls), s, now)
            <= Level(cfg, l, s, start) + Earned(start, now, cfg.rate)
    ensures Allowed(cfg, l, calls, Some(s)) as real <= cfg.burst + Earned(start, now, cfg.rate)
    decreases |calls|
  {
    hide Refilled, Allow, Level, Inv, Earned;
    LevelGrows(cfg, l, s, start, start);
    EveryRunKeepsInv(cfg, l, calls, start, now);
    if calls == [] {
      LevelGrows(cfg, l, s, start, now);
    } else {
      var front, c := calls[..|calls| - 1], calls[|calls| - 1];
      var before := Run(cfg, l, front);
      SourceSpent(cfg, l, front, s, start, c.now);
      EveryRunKeepsInv(cfg, l, front, start, c.now);
      AllowStep(cfg, before, c);
      LevelGrows(cfg, Allow(cfg, before, c).0, s, c.now, now);
      EarnedSplit(start, c.now, now, cfg.rate);
    }
    LevelGrows(cfg, Run(cfg, l, calls), s, now, now);
  }

  /** One source never gets more than its burst plus its rate times the time passed, although its bucket is
      thrown away after a minute, provided a minute is enough to refill a bucket. */
  lemma SourceBound(cfg: Config, l: Limiter, calls: seq<Call>, s: IpAddr, start: real, now: real)
    requires cfg.Valid() && cfg.burst <= FORGET * cfg.rate
    requires Inv(cfg, l, start) && start <= now && InOrder(calls)
    requires forall i :: 0 <= i < |calls| ==> start <= calls[i].now <= now
    ensures Allowed(cfg, l, calls, Some(s)) as real + Level(cfg, Run(cfg, l, calls), s, now)
            <= Level(cfg, l, s, start) + (now - start) * cfg.rate
    ensures Allowed(cfg, l, calls, Some(s)) as real <= cfg.burst + (now - start) * cfg.rate
  {
    hide Level, Allowed, Run, Inv;
    SourceSpent(cfg, l, calls, s, start, now);
  }

  // ---- and when a minute does not refill a bucket ----

  function Repeat(c: Call, n: nat): (r: seq<Call>)
    ensures |r| == n && forall i :: 0 <= i < n ==> r[i] == c
  {
    seq(n, i => c)
  }

  lemma {:induction false} RunConcat(cfg: Config, l: Limiter, a: seq<Call>, b: seq<Call>, filter: Option<IpAddr>)
    ensures Run(cfg, l, a + b) == Run(cfg, Run(cfg, l, a), b)
    ensures Allowed(cfg, l, a + b, filter) == Allowed(cfg, l, a, filter) + Allowed(cfg, Run(cfg, l, a), b, filter)
    decreases |b|
  {
    hide Allow;
    if b == [] {
      assert a + b == a;
    } else {
      RunConcat(cfg, l, a, b[..|b| - 1], filter);
      assert (a + b)[..|a + b| - 1] == a + b[..|b| - 1];
    }
  }

  /** Everything a source holds can be spent at once. */
  ghost predicate CanSpend(cfg: Config, l: Limiter, c: Call, own: real, all: real) {
    && c.now == c.reading && c.now - l.lastCleanup < FORGET
    && c.source in l.sources && l.sources[c.source] == Bucket(own, c.now) && l.global == Bucket(all, c.now)
    && own <= cfg.burst && all <= cfg.globalBurst
  }

  lemma SpendOne(cfg: Config, l: Limiter, c: Call, own: real, all: real)
    requires cfg.Valid() && CanSpend(cfg, l, c, own, all) && own >= 1.0 && all >= 1.0
    ensures var (next, allowed) := Allow(cfg, l, c);
            allowed && CanSpend(cfg, next, c, own - 1.0, all - 1.0)
  {
    hide Refilled, Earned;
    TakeNow(l.sources[c.source], cfg.rate, cfg.burst, c.now);
    TakeNow(l.global, cfg.globalRate, cfg.globalBurst, c.now);
  }

  /** A bucket refilled this instant gives exactly one token. */
  lemma TakeNow(b: Bucket, rate: real, burst: real, now: real)
    requires b.last == now && 1.0 <= b.tokens <= burst && rate >= 0.0
    ensures Take(b, rate, burst, now) == (Bucket(b.tokens - 1.0, now), true)
    ensures Refilled(b, rate, burst, now) == b.tokens
  {
    hide Earned;
    EarnedOrder(now, now, rate);
  }

  lemma {:induction false} SpendAll(cfg: Config, l: Limiter, c: Call, own: real, all: real, n: nat)
    requires cfg.Valid() && CanSpend(cfg, l, c, own, all) && own >= n as real && all >= n as real
    ensures Allowed(cfg, l, Repeat(c, n), Some(c.source)) == n
    ensures CanSpend(cfg, Run(cfg, l, Repeat(c, n)), c, own - n as real, all - n as real)
  {
    hide Allow, CanSpend;
    if n > 0 {
      SpendAll(cfg, l, c, own, all, n - 1);
      assert Repeat(c, n)[..n - 1] == Repeat(c, n - 1);
      SpendOne(cfg, Run(cfg, l, Repeat(c, n - 1)), c, own - (n - 1) as real, all - (n - 1) as real);
    }
  }

  /** A source without a bucket, or whose bucket is about to be forgotten, starts from a full one. */
  lemma SpendFirst(cfg: Config, l: Limiter, c: Call)
    requires cfg.Valid() && cfg.capacity >= 1 && c.now == c.reading && Refilled(l.global, cfg.globalRate,
        cfg.globalBurst, c.now) >= 1.0
    requires l.sources.Keys <= {c.source}
    requires c.source in l.sources ==> c.now - l.sources[c.source].last >= FORGET && c.now - l.lastCleanup >= FORGET
    requires c.source !in l.sources ==> c.now - l.lastCleanup < FORGET
    ensures var (next, allowed) := Allow(cfg, l, c);
            allowed && CanSpend(cfg, next, c, cfg.burst - 1.0, Refilled(l.global, cfg.globalRate, cfg.globalBurst,
                c.now) - 1.0)
            && next.sources.Keys == {c.source} && c.now - next.lastCleanup < FORGET
  {
  }

  /** Spending a whole fresh burst of `n` tokens in one instant. */
  lemma SpendBurst(cfg: Config, l: Limiter, c: Call, n: nat)
    requires cfg.Valid() && cfg.capacity >= 1 && cfg.burst == n as real && n >= 1 && c.now == c.reading
    requires Refilled(l.global, cfg.globalRate, cfg.globalBurst, c.now) >= n as real
    requires l.sources.Keys <= {c.source}
    requires c.source in l.sources ==> c.now - l.sources[c.source].last >= FORGET && c.now - l.lastCleanup >= FORGET
    requires c.source !in l.sources ==> c.now - l.lastCleanup < FORGET
    ensures Allowed(cfg, l, Repeat(c, n), Some(c.source)) == n
    ensures var all := Refilled(l.global, cfg.globalRate, cfg.globalBurst, c.now) - n as real;
            CanSpend(cfg, Run(cfg, l, Repeat(c, n)), c, 0.0, all)
    ensures Run(cfg, l, Repeat(c, n)).sources.Keys == {c.source}
  {
    hide Allow, Refilled, CanSpend;
    SpendFirst(cfg, l, c);
    var all := Refilled(l.global, cfg.globalRate, cfg.globalBurst, c.now);
    var one := [c];
    assert one[..0] == [];
    assert Run(cfg, l, one) == Allow(cfg, l, c).0;
    SpendAll(cfg, Run(cfg, l, one), c, cfg.burst - 1.0, all - 1.0, n - 1);
    RunConcat(cfg, l, one, Repeat(c, n - 1), Some(c.source));
    assert one + Repeat(c, n - 1) == Repeat(c, n);
    KeysStay(cfg, Run(cfg, l, one), c, n - 1);
  }

  lemma {:induction false} KeysStay(cfg: Config, l: Limiter, c: Call, n: nat)
    requires l.sources.Keys == {c.source} && c.now == c.reading && c.now - l.lastCleanup < FORGET
    ensures Run(cfg, l, Repeat(c, n)).sources.Keys == {c.source} && Run(cfg, l, Repeat(c,
        n)).lastCleanup == l.lastCleanup
  {
    hide Take;
    if n > 0 {
      KeysStay(cfg, l, c, n - 1);
      assert Repeat(c, n)[..n - 1] == Repeat(c, n - 1);
    }
  }

  /** Two bursts a minute apart: with a burst above sixty times the rate and enough tokens for all sources
      together, forgetting the bucket hands out more than the burst plus the rate times the minute. */
  lemma ForgottenBucketOverspends(cfg: Config, s: IpAddr, n: nat)
    requires cfg.Valid() && cfg.capacity >= 1 && cfg.burst == n as real && cfg.burst > FORGET * cfg.rate
    requires cfg.globalBurst >= (2 * n) as real
    ensures Ordered(TwoBursts(s, n), FORGET) && !SourceWithin(cfg, s, TwoBursts(s, n), FORGET)
    ensures Allowed(cfg, Fresh(cfg, 0.0), TwoBursts(s, n), Some(s)) == 2 * n
  {
    hide Run, Allowed, Allow, Repeat, Cleaned;
    var first, second := Call(s, 0.0, 0.0), Call(s, FORGET, FORGET);
    var start := Fresh(cfg, 0.0);
    SpendBurst(cfg, start, first, n);
    var middle := Run(cfg, start, Repeat(first, n));
    CleanupTime(cfg, start, first, n);
    EarnedOrder(0.0, FORGET, cfg.globalRate);
    SpendBurst(cfg, middle, second, n);
    RunConcat(cfg, start, Repeat(first, n), Repeat(second, n), Some(s));
  }

  function TwoBursts(s: IpAddr, n: nat): seq<Call> {
    Repeat(Call(s, 0.0, 0.0), n) + Repeat(Call(s, FORGET, FORGET), n)
  }

  /** A run that starts with the limiter at time zero and ends by `now`. */
  ghost predicate Ordered(calls: seq<Call>, now: real) {
    InOrder(calls) && 0.0 <= now && forall i :: 0 <= i < |calls| ==> 0.0 <= calls[i].now <= now
  }

  ghost predicate SourceWithin(cfg: Config, s: IpAddr, calls: seq<Call>, now: real) {
    Allowed(cfg, Fresh(cfg, 0.0), calls, Some(s)) as real <= cfg.burst + now * cfg.rate
  }

  /** In every run the source gets at most its burst plus its rate times the time passed. */
  ghost predicate KeepsSourceBound(cfg: Config, s: IpAddr) {
    forall calls, now :: Ordered(calls, now) ==> SourceWithin(cfg, s, calls, now)
  }

  lemma FreshInv(cfg: Config)
    requires cfg.Valid()
    ensures Inv(cfg, Fresh(cfg, 0.0), 0.0)
  {
  }

  lemma EnoughRefill(cfg: Config, s: IpAddr)
    requires cfg.Valid() && cfg.burst <= FORGET * cfg.rate
    ensures KeepsSourceBound(cfg, s)
  {
    hide Inv, Earned, Allowed, Level, Run, Fresh;
    FreshInv(cfg);
    forall calls, now | Ordered(calls, now) ensures SourceWithin(cfg, s, calls, now) {
      SourceBound(cfg, Fresh(cfg, 0.0), calls, s, 0.0, now);
    }
  }

  /** The exact condition: an integral burst and a rate keep the per-source bound under every global setting
      and every table size if and only if a minute refills the bucket. */
  lemma SourceBoundExactly(rate: real, n: nat, s: IpAddr)
    requires rate >= 1.0 && n >= 1
    ensures (forall cfg: Config ::
               cfg.Valid() && cfg.rate == rate && cfg.burst == n as real ==> KeepsSourceBound(cfg, s))
            <==> n as real <= FORGET * rate
  {
    hide KeepsSourceBound;
    if n as real <= FORGET * rate {
      forall cfg: Config | cfg.Valid() && cfg.rate == rate && cfg.burst == n as real ensures KeepsSourceBound(cfg, s) {
        EnoughRefill(cfg, s);
      }
    } else {
      var cfg := Config(rate, n as real, 1.0, (2 * n) as real, 1);
      ForgottenBucketOverspends(cfg, s, n);
      NotKept(cfg, s, TwoBursts(s, n), FORGET);
    }
  }

  lemma NotKept(cfg: Config, s: IpAddr, calls: seq<Call>, now: real)
    requires Ordered(calls, now) && !SourceWithin(cfg, s, calls, now)
    ensures !KeepsSourceBound(cfg, s)
  {
  }

  /** A small enough global bucket keeps the bound whatever the source's own bucket does. */
  lemma GlobalShieldsSource(cfg: Config, s: IpAddr)
    requires cfg.Valid() && cfg.globalBurst <= cfg.burst && cfg.globalRate <= cfg.rate
    ensures KeepsSourceBound(cfg, s)
  {
    hide Inv, Allowed, Refilled, Run, Fresh, Earned;
    FreshInv(cfg);
    forall calls, now | Ordered(calls, now) ensures SourceWithin(cfg, s, calls, now) {
      GlobalBound(cfg, Fresh(cfg, 0.0), calls, 0.0, now);
      SourceAmongAll(cfg, Fresh(cfg, 0.0), calls, s);
      Shielded(cfg, Allowed(cfg, Fresh(cfg, 0.0), calls, Some(s)), Allowed(cfg, Fresh(cfg, 0.0), calls, None), now);
    }
  }

  lemma Shielded(cfg: Config, own: nat, all: nat, now: real)
    requires own <= all && 0.0 <= now && cfg.globalBurst <= cfg.burst && cfg.globalRate <= cfg.rate
    requires all as real <= cfg.globalBurst + (now - 0.0) * cfg.globalRate
    ensures own as real <= cfg.burst + now * cfg.rate
  {
    assert now * cfg.rate == now * cfg.globalRate + now * (cfg.rate - cfg.globalRate);
    assert now * (cfg.rate - cfg.globalRate) >= 0.0;
  }

  lemma {:induction false} SourceAmongAll(cfg: Config, l: Limiter, calls: seq<Call>, s: IpAddr)
    ensures Allowed(cfg, l, calls, Some(s)) <= Allowed(cfg, l, calls, None)
  {
    hide Allow, Run;
    if calls != [] {
      SourceAmongAll(cfg, l, calls[..|calls| - 1], s);
    }
  }

  lemma {:induction false} CleanupTime(cfg: Config, l: Limiter, c: Call, n: nat)
    requires c.now == c.reading && c.now - l.lastCleanup < FORGET
    ensures Run(cfg, l, Repeat(c, n)).lastCleanup == l.lastCleanup
  {
    hide Take;
    if n > 0 {
      CleanupTime(cfg, l, c, n - 1);
      assert Repeat(c, n)[..n - 1] == Repeat(c, n - 1);
    }
  }
}
