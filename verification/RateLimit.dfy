/** The rate-limiter stores: one token bucket per key, and a sweep that forgets idle keys.
  *
  * A bucket's level is held in nanoseconds of refill, so that one token costs the refill
  * interval and all arithmetic is exact.
  */
module RateLimit {
  type Instant = int
  const MILLISECOND: int := 1_000_000
  const SECOND: int := 1000 * MILLISECOND
  const IDLE: int := 15 * 60 * SECOND

  /** rate.Every(interval) with a burst. */
  datatype Config = Config(interval: int, burst: nat)

  predicate Sound(cfg: Config) { cfg.interval > 0 }

  function Capacity(cfg: Config): int { cfg.burst * cfg.interval }

  datatype Bucket = Bucket(level: int, last: Instant)

  datatype Entry = Entry(bucket: Bucket, seen: Instant)

  type Limiters = map<string, Entry>

  function Level(cfg: Config, b: Bucket, now: Instant): int {
    var filled := b.level + if now > b.last then now - b.last else 0;
    if filled > Capacity(cfg) then Capacity(cfg) else filled
  }

  function Full(cfg: Config, now: Instant): Bucket { Bucket(Capacity(cfg), now) }

  predicate Grants(cfg: Config, b: Bucket, now: Instant) { Level(cfg, b, now) >= cfg.interval && cfg.burst >= 1 }

  function Spend(cfg: Config, b: Bucket, now: Instant): Bucket {
    if Grants(cfg, b, now) then Bucket(Level(cfg, b, now) - cfg.interval, now) else b
  }

  // ---- The store's operations ----

  function GetEntry(cfg: Config, m: Limiters, key: string, now: Instant): Entry {
    if key in m then m[key].(seen := now) else Entry(Full(cfg, now), now)
  }

  function TakeStep(cfg: Config, m: Limiters, key: string, seenAt: Instant, at: Instant): Limiters {
    var e := GetEntry(cfg, m, key, seenAt);
    m[key := e.(bucket := Spend(cfg, e.bucket, at))]
  }

  predicate TakeAnswer(cfg: Config, m: Limiters, key: string, seenAt: Instant, at: Instant) {
    Grants(cfg, GetEntry(cfg, m, key, seenAt).bucket, at)
  }

  predicate IsIdle(e: Entry, now: Instant) { now - e.seen >= IDLE }

  function EvictStep(m: Limiters, now: Instant): Limiters {
    map key | key in m && !IsIdle(m[key], now) :: m[key]
  }

  class LimiterStore {
    const cfg: Config
    var limiters: Limiters

    constructor (cfg: Config)
      ensures this.cfg == cfg && limiters == map[]
    {
      this.cfg := cfg;
      limiters := map[];
    }

    method Get(key: string, now: Instant)
      modifies this
      ensures key in limiters && limiters == old(limiters)[key := GetEntry(cfg, old(limiters), key, now)]
    {
      if key !in limiters {
        limiters := limiters[key := Entry(Bucket(cfg.burst * cfg.interval, now), now)];
      }
      limiters := limiters[key := limiters[key].(seen := now)];
    }

    /** Limiter.Allow on the limiter Get returned. */
    method Allow(key: string, now: Instant) returns (allowed: bool)
      requires key in limiters
      modifies this
      ensures allowed <==> Grants(cfg, old(limiters)[key].bucket, now)
      ensures var e := old(limiters)[key];
              limiters == old(limiters)[key := e.(bucket := Spend(cfg, e.bucket, now))]
    {
      var b := limiters[key].bucket;
      var tokens := b.level;
      if now > b.last { tokens := tokens + (now - b.last); }
      if tokens > cfg.burst * cfg.interval { tokens := cfg.burst * cfg.interval; }
      tokens := tokens - cfg.interval;
      allowed := cfg.burst >= 1 && tokens >= 0;
      if allowed {
        limiters := limiters[key := limiters[key].(bucket := Bucket(tokens, now))];
      } else {
        assert limiters[key].(bucket := b) == limiters[key];
      }
    }

    /** The middleware: Get reads the clock once and Allow once more. */
    method Take(key: string, seenAt: Instant, at: Instant) returns (allowed: bool)
      modifies this
      ensures allowed == TakeAnswer(cfg, old(limiters), key, seenAt, at)
      ensures limiters == TakeStep(cfg, old(limiters), key, seenAt, at)
    {
      Get(key, seenAt);
      allowed := Allow(key, at);
    }

    method Delete(key: string)
      modifies this
      ensures limiters == old(limiters) - {key}
      ensures forall k: string, now: Instant ::
                LevelOf(cfg, limiters, k, now) == if k == key then Capacity(cfg)
                    else LevelOf(cfg, old(limiters), k, now)
    {
      limiters := limiters - {key};
    }

    method EvictIdle(now: Instant)
      modifies this
      ensures limiters == EvictStep(old(limiters), now)
    {
      var keys := limiters.Keys;
      while keys != {}
        invariant keys <= old(limiters).Keys
        invariant forall k :: k in limiters <==> k in old(limiters) && (k in keys || !IsIdle(old(limiters)[k], now))
        invariant forall k | k in limiters :: limiters[k] == old(limiters)[k]
      {
        var key :| key in keys;
        if now - limiters[key].seen >= IDLE {
          limiters := limiters - {key};
        }
        keys := keys - {key};
      }
    }
  }

  // ---- Request sequences ----

  datatype Op = Take(key: string, seenAt: Instant, at: Instant) | Delete(key: string) | Evict(now: Instant)

  /** One store over a sequence of operations: the answers given to its Takes. */
  function Answers(cfg: Config, m: Limiters, ops: seq<Op>, evicts: bool): seq<bool>
    decreases |ops|
  {
    if ops == [] then []
    else
      match ops[0]
      case Take(key, seenAt, at) =>
        [TakeAnswer(cfg, m, key, seenAt, at)] + Answers(cfg, TakeStep(cfg, m, key, seenAt, at), ops[1..], evicts)
      case Delete(key) => Answers(cfg, m - {key}, ops[1..], evicts)
      case Evict(now) => Answers(cfg, if evicts then EvictStep(m, now) else m, ops[1..], evicts)
  }

  function OpStart(op: Op, clock: Instant): Instant {
    match op case Take(_, seenAt, _) => seenAt case Delete(_) => clock case Evict(now) => now
  }

  function OpEnd(op: Op, clock: Instant): Instant {
    match op case Take(_, _, at) => at case Delete(_) => clock case Evict(now) => now
  }

  /** The clock goes forward, and a request takes at most slack between its two clock readings. */
  predicate Timely(ops: seq<Op>, clock: Instant, slack: nat)
    decreases |ops|
  {
    ops == [] ||
    (&& clock <= OpStart(ops[0], clock) <= OpEnd(ops[0], clock) <= OpStart(ops[0], clock) + slack
     && Timely(ops[1..], OpEnd(ops[0], clock), slack))
  }

  // ---- Forgetting idle keys cannot be observed ----

  /** What a key is worth now: a forgotten key is worth a full bucket. */
  function LevelOf(cfg: Config, m: Limiters, key: string, now: Instant): int {
    if key in m then Level(cfg, m[key].bucket, now) else Capacity(cfg)
  }

  ghost predicate WellTimed(cfg: Config, m: Limiters, now: Instant, slack: nat) {
    forall key | key in m ::
      && 0 <= m[key].bucket.level <= Capacity(cfg)
      && m[key].bucket.last <= now && m[key].bucket.last <= m[key].seen + slack
  }

  ghost predicate SameWorth(cfg: Config, m: Limiters, n: Limiters, now: Instant) {
    forall key: string :: LevelOf(cfg, m, key, now) == LevelOf(cfg, n, key, now)
  }

  /** Worth at a later time is determined by worth now. */
  lemma LevelLater(cfg: Config, m: Limiters, key: string, now: Instant, later: Instant, slack: nat)
    requires WellTimed(cfg, m, now, slack) && now <= later
    ensures LevelOf(cfg, m, key, later) ==
            var grown := LevelOf(cfg, m, key, now) + (later - now); if grown > Capacity(cfg) then Capacity(cfg)
                else grown
  {
  }

  lemma SameWorthLater(cfg: Config, m: Limiters, n: Limiters, now: Instant, later: Instant, slack: nat)
    requires WellTimed(cfg, m, now, slack) && WellTimed(cfg, n, now, slack) && SameWorth(cfg, m, n, now) && now <= later
    ensures SameWorth(cfg, m, n, later)
  {
    forall key: string
      ensures LevelOf(cfg, m, key, later) == LevelOf(cfg, n, key, later)
    {
      LevelLater(cfg, m, key, now, later, slack);
      LevelLater(cfg, n, key, now, later, slack);
    }
  }

  lemma TakeWorth(cfg: Config, m: Limiters, key: string, seenAt: Instant, at: Instant, slack: nat, other: string)
    requires Sound(cfg) && WellTimed(cfg, m, seenAt, slack) && seenAt <= at <= seenAt + slack
    ensures WellTimed(cfg, TakeStep(cfg, m, key, seenAt, at), at, slack)
    ensures TakeAnswer(cfg, m, key, seenAt, at) <==> LevelOf(cfg, m, key, at) >= cfg.interval && cfg.burst >= 1
    ensures LevelOf(cfg, TakeStep(cfg, m, key, seenAt, at), other, at) ==
            LevelOf(cfg, m, other, at) - if other == key && TakeAnswer(cfg, m, key, seenAt, at) then cfg.interval else 0
  {
    CapacityNonNegative(cfg);
  }

  lemma CapacityNonNegative(cfg: Config)
    requires Sound(cfg)
    ensures Capacity(cfg) >= 0
  {
  }

  lemma EvictWorth(cfg: Config, m: Limiters, now: Instant, slack: nat)
    requires Sound(cfg) && WellTimed(cfg, m, now, slack) && Capacity(cfg) + slack <= IDLE
    ensures WellTimed(cfg, EvictStep(m, now), now, slack) && SameWorth(cfg, EvictStep(m, now), m, now)
  {
  }

  /** The refinement: stores of equal worth, one evicting and one not, answer alike for ever. */
  lemma {:induction false} SameAnswers(cfg: Config, m: Limiters, n: Limiters, ops: seq<Op>, clock: Instant, slack: nat)
    requires Sound(cfg) && Capacity(cfg) + slack <= IDLE && Timely(ops, clock, slack)
    requires WellTimed(cfg, m, clock, slack) && WellTimed(cfg, n, clock, slack) && SameWorth(cfg, m, n, clock)
    ensures Answers(cfg, m, ops, true) == Answers(cfg, n, ops, false)
    decreases |ops|
  {
    if ops != [] {
      match ops[0] {
        case Take(key, seenAt, at) =>
          SameWorthLater(cfg, m, n, clock, at, slack);
          var m', n' := TakeStep(cfg, m, key, seenAt, at), TakeStep(cfg, n, key, seenAt, at);
          TakeWorth(cfg, m, key, seenAt, at, slack, key);
          TakeWorth(cfg, n, key, seenAt, at, slack, key);
          forall other: string
            ensures LevelOf(cfg, m', other, at) == LevelOf(cfg, n', other, at)
          {
            TakeWorth(cfg, m, key, seenAt, at, slack, other);
            TakeWorth(cfg, n, key, seenAt, at, slack, other);
          }
          SameAnswers(cfg, m', n', ops[1..], at, slack);
        case Delete(key) =>
          forall other: string
            ensures LevelOf(cfg, m - {key}, other, clock) == LevelOf(cfg, n - {key}, other, clock)
          {
            assert LevelOf(cfg, m, other, clock) == LevelOf(cfg, n, other, clock);
          }
          SameAnswers(cfg, m - {key}, n - {key}, ops[1..], clock, slack);
        case Evict(now) =>
          SameWorthLater(cfg, m, n, clock, now, slack);
          EvictWorth(cfg, m, now, slack);
          SameAnswers(cfg, EvictStep(m, now), n, ops[1..], now, slack);
      }
    }
  }

  /** Over every request sequence, a store whose burst refills within the idle period (less the
    * time a request may spend between its two clock readings) hides its evictions completely. */
  lemma EvictionUnobservable(cfg: Config, ops: seq<Op>, start: Instant, slack: nat)
    requires Sound(cfg) && Capacity(cfg) + slack <= IDLE && Timely(ops, start, slack)
    ensures Answers(cfg, map[], ops, true) == Answers(cfg, map[], ops, false)
  {
    SameAnswers(cfg, map[], map[], ops, start, slack);
  }

  // ---- The rate itself ----

  /** How many requests for the key are granted. */
  function Granted(cfg: Config, m: Limiters, ops: seq<Op>, key: string): nat
    decreases |ops|
  {
    if ops == [] then 0
    else
      match ops[0]
      case Take(k, seenAt, at) =>
        (if k == key && TakeAnswer(cfg, m, k, seenAt, at) then 1 else 0)
        + Granted(cfg, TakeStep(cfg, m, k, seenAt, at), ops[1..], key)
      case Delete(k) => Granted(cfg, m - {k}, ops[1..], key)
      case Evict(now) => Granted(cfg, EvictStep(m, now), ops[1..], key)
  }

  function EndOf(ops: seq<Op>, clock: Instant): Instant
    decreases |ops|
  {
    if ops == [] then clock else EndOf(ops[1..], OpEnd(ops[0], clock))
  }

  /** Those grants, in nanoseconds of refill. */
  function Spent(cfg: Config, m: Limiters, ops: seq<Op>, key: string): int
    decreases |ops|
  {
    if ops == [] then 0
    else
      match ops[0]
      case Take(k, seenAt, at) =>
        (if k == key && TakeAnswer(cfg, m, k, seenAt, at) then cfg.interval else 0)
        + Spent(cfg, TakeStep(cfg, m, k, seenAt, at), ops[1..], key)
      case Delete(k) => Spent(cfg, m - {k}, ops[1..], key)
      case Evict(now) => Spent(cfg, EvictStep(m, now), ops[1..], key)
  }

  lemma {:induction false} SpentIs(cfg: Config, m: Limiters, ops: seq<Op>, key: string)
    ensures Spent(cfg, m, ops, key) == Granted(cfg, m, ops, key) * cfg.interval
    decreases |ops|
  {
    if ops != [] {
      match ops[0] {
        case Take(k, seenAt, at) =>
          var next := TakeStep(cfg, m, k, seenAt, at);
          SpentIs(cfg, next, ops[1..], key);
          OneMore(Granted(cfg, next, ops[1..], key), cfg.interval);
        case Delete(k) => SpentIs(cfg, m - {k}, ops[1..], key);
        case Evict(now) => SpentIs(cfg, EvictStep(m, now), ops[1..], key);
      }
    }
  }

  lemma OneMore(n: nat, x: int)
    ensures (1 + n) * x == x + n * x
  {
  }

  /** Unless the key is deleted, its grants over any time are paid for by what it was worth at first and
    * by the time gone by. */
  lemma {:induction false} GrantsArePaid(cfg: Config, m: Limiters, ops: seq<Op>, clock: Instant, slack: nat,
      key: string)
    requires Sound(cfg) && Capacity(cfg) + slack <= IDLE && Timely(ops, clock, slack) && WellTimed(cfg, m, clock, slack)
    requires forall k | 0 <= k < |ops| :: ops[k] != Delete(key)
    ensures Spent(cfg, m, ops, key) <= LevelOf(cfg, m, key, clock) + (EndOf(ops, clock) - clock)
    decreases |ops|
  {
    if ops == [] {
      LevelBounds(cfg, m, key, clock, slack);
    } else {
      assert ops[0] != Delete(key);
      match ops[0] {
        case Take(k, seenAt, at) =>
          LevelLater(cfg, m, key, clock, at, slack);
          TakeWorth(cfg, m, k, seenAt, at, slack, key);
          GrantsArePaid(cfg, TakeStep(cfg, m, k, seenAt, at), ops[1..], at, slack, key);
        case Delete(k) => GrantsArePaid(cfg, m - {k}, ops[1..], clock, slack, key);
        case Evict(now) =>
          LevelLater(cfg, m, key, clock, now, slack);
          EvictWorth(cfg, m, now, slack);
          GrantsArePaid(cfg, EvictStep(m, now), ops[1..], now, slack, key);
      }
    }
  }

  lemma LevelBounds(cfg: Config, m: Limiters, key: string, now: Instant, slack: nat)
    requires Sound(cfg) && WellTimed(cfg, m, now, slack)
    ensures 0 <= LevelOf(cfg, m, key, now) <= cfg.burst * cfg.interval
  {
  }

  /** The promise of a limiter: over any time, evictions and all, a key is granted no more than its burst and
    * one request for each interval gone by. */
  lemma RateIsKept(cfg: Config, m: Limiters, ops: seq<Op>, clock: Instant, slack: nat, key: string)
    requires Sound(cfg) && Capacity(cfg) + slack <= IDLE && Timely(ops, clock, slack) && WellTimed(cfg, m, clock, slack)
    requires forall k | 0 <= k < |ops| :: ops[k] != Delete(key)
    ensures Granted(cfg, m, ops, key) * cfg.interval <= cfg.burst * cfg.interval + (EndOf(ops, clock) - clock)
  {
    GrantsArePaid(cfg, m, ops, clock, slack, key);
    SpentIs(cfg, m, ops, key);
    LevelBounds(cfg, m, key, clock, slack);
  }

  // ---- The bound is exact ----

  function Burst(key: string, at: Instant, n: nat): seq<Op> {
    seq(n, _ => Take(key, at, at))
  }

  function AfterBurst(cfg: Config, m: Limiters, key: string, at: Instant, n: nat): Limiters
    decreases n
  {
    if n == 0 then m else AfterBurst(cfg, TakeStep(cfg, m, key, at, at), key, at, n - 1)
  }

  /** n requests at one instant: the last is granted exactly when the level covers all n, and
    * then they leave what they did not use. */
  lemma {:induction false} BurstAnswers(cfg: Config, m: Limiters, key: string, at: Instant, n: nat, rest: seq<Op>,
      evicts: bool)
    requires Sound(cfg) && 1 <= n <= cfg.burst && WellTimed(cfg, m, at, 0)
    ensures var granted := LevelOf(cfg, m, key, at) >= n * cfg.interval;
            var a := Answers(cfg, m, Burst(key, at, n) + rest, evicts);
            var after := AfterBurst(cfg, m, key, at, n);
      && |a| >= n && a[n - 1] == granted && a[n..] == Answers(cfg, after, rest, evicts)
      && WellTimed(cfg, after, at, 0) && key in after && after[key].seen == at
      && (granted ==> LevelOf(cfg, after, key, at) == LevelOf(cfg, m, key, at) - n * cfg.interval)
    decreases n
  {
    var ops := Burst(key, at, n) + rest;
    TakeWorth(cfg, m, key, at, at, 0, key);
    var next := TakeStep(cfg, m, key, at, at);
    var a := Answers(cfg, m, ops, evicts);
    assert a == [TakeAnswer(cfg, m, key, at, at)] + Answers(cfg, next, ops[1..], evicts);
    if n == 1 {
      assert ops[1..] == rest;
      assert AfterBurst(cfg, next, key, at, 0) == next;
    } else {
      MulStep(n, cfg.interval);
      assert ops[1..] == Burst(key, at, n - 1) + rest;
      BurstAnswers(cfg, next, key, at, n - 1, rest, evicts);
      var b := Answers(cfg, next, ops[1..], evicts);
      assert a[n - 1] == b[n - 2] && a[n..] == b[n - 1..];
    }
  }

  lemma MulStep(n: nat, x: int)
    requires n >= 2 && x > 0
    ensures (n - 1) * x == (n - 2) * x + x && n * x == (n - 1) * x + x && (n - 1) * x >= x
  {
  }

  /** A burst that outlasts the idle period is caught: drain it, wait the idle period out, ask again. */
  function Probe(cfg: Config): seq<Op> {
    Burst("k", 0, cfg.burst) + ([Evict(IDLE)] + Burst("k", IDLE, cfg.burst))
  }

  lemma {:induction false} BurstTimely(key: string, at: Instant, n: nat, rest: seq<Op>, clock: Instant)
    requires clock <= at && Timely(rest, at, 0)
    ensures Timely(Burst(key, at, n) + rest, clock, 0) || n == 0
    decreases n
  {
    if n == 1 {
      assert (Burst(key, at, n) + rest)[1..] == rest;
    } else if n > 1 {
      BurstTimely(key, at, n - 1, rest, at);
      assert (Burst(key, at, n) + rest)[1..] == Burst(key, at, n - 1) + rest;
    }
  }

  lemma ProbeTells(cfg: Config)
    requires Sound(cfg) && Capacity(cfg) > IDLE
    ensures Timely(Probe(cfg), 0, 0)
    ensures Answers(cfg, map[], Probe(cfg), true) != Answers(cfg, map[], Probe(cfg), false)
  {
    var n := cfg.burst;
    var second := Burst("k", IDLE, n);
    var rest := [Evict(IDLE)] + second;
    assert n >= 1;
    BurstTimely("k", IDLE, n, [], IDLE);
    assert second + [] == second && rest[1..] == second;
    BurstTimely("k", 0, n, rest, 0);
    // The store that forgets grants the second burst to the end; the other runs dry.
    BurstAnswers(cfg, map[], "k", 0, n, rest, true);
    BurstAnswers(cfg, map[], "k", 0, n, rest, false);
    var m := AfterBurst(cfg, map[], "k", 0, n);
    assert LevelOf(cfg, m, "k", 0) == 0;
    var forgot := EvictStep(m, IDLE);
    assert "k" !in forgot;
    EvictKeepsTiming(cfg, m, IDLE);
    BurstAnswers(cfg, forgot, "k", IDLE, n, [], true);
    LevelLater(cfg, m, "k", 0, IDLE, 0);
    assert LevelOf(cfg, m, "k", IDLE) == IDLE;
    BurstAnswers(cfg, m, "k", IDLE, n, [], false);
    assert Answers(cfg, m, rest, true) == Answers(cfg, forgot, second, true);
    assert Answers(cfg, m, rest, false) == Answers(cfg, m, second, false);
    assert Answers(cfg, map[], Probe(cfg), true)[n..][n - 1] != Answers(cfg, map[], Probe(cfg), false)[n..][n - 1];
  }

  lemma EvictKeepsTiming(cfg: Config, m: Limiters, now: Instant)
    requires WellTimed(cfg, m, 0, 0) && now >= 0
    ensures WellTimed(cfg, EvictStep(m, now), now, 0) && WellTimed(cfg, m, now, 0)
  {
  }

  predicate AnswersAlike(cfg: Config, ops: seq<Op>, start: Instant) {
    Timely(ops, start, 0) ==> Answers(cfg, map[], ops, true) == Answers(cfg, map[], ops, false)
  }

  /** Without slack the condition is exact: eviction is invisible if and only if an empty bucket
    * refills within the idle period. */
  lemma UnobservableExactly(cfg: Config)
    requires Sound(cfg)
    ensures (forall ops: seq<Op>, start: Instant :: AnswersAlike(cfg, ops, start)) <==>
            cfg.burst * cfg.interval <= 15 * 60 * SECOND
  {
    if Capacity(cfg) <= IDLE {
      forall ops: seq<Op>, start: Instant
        ensures AnswersAlike(cfg, ops, start)
      {
        if Timely(ops, start, 0) {
          EvictionUnobservable(cfg, ops, start, 0);
        }
      }
    } else {
      ProbeTells(cfg);
      assert !AnswersAlike(cfg, Probe(cfg), 0);
    }
  }

  /** The thirteen stores the server declares. */
  const STORES: seq<Config> := [
    Config(100 * MILLISECOND, 300), Config(2000 * MILLISECOND, 25), Config(5000 * MILLISECOND, 12),
    Config(6000 * MILLISECOND, 10), Config(1000 * MILLISECOND, 60), Config(500 * MILLISECOND, 120),
    Config(250 * MILLISECOND, 180), Config(2000 * MILLISECOND, 25), Config(200 * MILLISECOND, 60),
    Config(200 * MILLISECOND, 300), Config(5000 * MILLISECOND, 12), Config(30000 * MILLISECOND, 4),
    Config(1500 * MILLISECOND, 40)]

  /** Every declared store hides its evictions, even if a request stalls for thirteen minutes
    * between looking its limiter up and asking it. */
  lemma DeclaredStoresHideEviction(i: nat, ops: seq<Op>, start: Instant)
    requires i < |STORES| && Timely(ops, start, 780 * SECOND)
    ensures Answers(STORES[i], map[], ops, true) == Answers(STORES[i], map[], ops, false)
  {
    EvictionUnobservable(STORES[i], ops, start, 780 * SECOND);
  }
}
