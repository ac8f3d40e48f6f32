/** The two-second cache in front of the gate's status view. */
module GateCache {
  import opened Wrappers
  import opened AgentTables
  import opened Gate

  const TTL: int := 2 * SECOND

  datatype Entry<S> = Entry(state: S, expiresAt: Instant)

  // ---- The three critical sections, for any cached state ----

  function Lookup<S>(cache: map<UserId, Entry<S>>, user: UserId, now: Instant): Option<S> {
    if user in cache && now < cache[user].expiresAt then Some(cache[user].state) else None
  }

  function Store<S>(cache: map<UserId, Entry<S>>, user: UserId, state: S, now: Instant): map<UserId, Entry<S>> {
    cache[user := Entry(state, now + TTL)]
  }

  function Purge<S>(cache: map<UserId, Entry<S>>, user: UserId): map<UserId, Entry<S>> { cache - {user} }

  class StatusGate {
    var cache: map<UserId, Entry<GateState>>

    constructor ()
      ensures cache == map[]
    {
      cache := map[];
    }

    /** One undisturbed call: now is read once, on entry; loaded is what the repository would
      * return and is used only on a miss; decidedAt is the later clock reading of Decide. */
    method Status(user: UserId, claimsDesktop: bool, now: Instant, loaded: Option<GateState>, levers: Levers,
        decidedAt: Instant)
      returns (d: Option<Decision>)
      modifies this
      ensures var hit := Lookup(old(cache), user, now);
        && (hit.Some? ==> cache == old(cache) && d == Some(Decide(StatusInput(hit.value, levers, claimsDesktop),
            decidedAt).(findings := [])))
        && (hit.None? && loaded.None? ==> cache == old(cache) && d.None?)
        && (hit.None? && loaded.Some? ==>
              && d == Some(Decide(StatusInput(loaded.value, levers, claimsDesktop), decidedAt).(findings := []))
              && cache == Store(old(cache), user, loaded.value, now))
    {
      var state: GateState;
      if user in cache && now < cache[user].expiresAt {
        state := cache[user].state;
      } else {
        match loaded {
          case None => return None;
          case Some(s) => state := s;
        }
        cache := cache[user := Entry(state, now + 2 * SECOND)];
      }
      var full := Decide(StatusInput(state, levers, claimsDesktop), decidedAt);
      d := Some(full.(findings := []));
    }

    method Invalidate(user: UserId)
      modifies this
      ensures cache == Purge(old(cache), user)
      ensures forall now: Instant :: Lookup(cache, user, now).None?
      ensures forall u: UserId, now: Instant | u != user :: Lookup(cache, u, now) == Lookup(old(cache), u, now)
    {
      cache := cache - {user};
    }
  }

  // ---- Concurrent calls ----

  type CallId = nat

  /** A gate state together with the instant it was read from the database. */
  datatype Stamped = Stamped(state: GateState, readAt: Instant)

  datatype Call =
    | Started(user: UserId, start: Instant)
    | Missed(user: UserId, start: Instant)
    | Loaded(user: UserId, start: Instant, reading: Stamped)
    | Decided(user: UserId, start: Instant, reading: Stamped)

  datatype CacheSystem = CacheSystem(cache: map<UserId, Entry<Stamped>>, calls: map<CallId, Call>, now: Instant)

  datatype CacheStep =
    | Tick(elapsed: nat)
    | Begin(call: CallId, user: UserId)
    | Look(call: CallId)
    | Load(call: CallId, state: GateState)
    | Put(call: CallId)
    | Invalidate(user: UserId)

  function CacheNext(s: CacheSystem, step: CacheStep): CacheSystem {
    match step
    case Tick(elapsed) => s.(now := s.now + elapsed)
    case Begin(c, user) => if c in s.calls then s else s.(calls := s.calls[c := Started(user, s.now)])
    case Look(c) =>
      if c in s.calls && s.calls[c].Started? then
        var call := s.calls[c];
        match Lookup(s.cache, call.user, call.start) {
          case Some(reading) => s.(calls := s.calls[c := Decided(call.user, call.start, reading)])
          case None => s.(calls := s.calls[c := Missed(call.user, call.start)])
        }
      else s
    case Load(c, state) =>
      if c in s.calls && s.calls[c].Missed?
      then s.(calls := s.calls[c := Loaded(s.calls[c].user, s.calls[c].start, Stamped(state, s.now))])
      else s
    case Put(c) =>
      if c in s.calls && s.calls[c].Loaded? then
        var call := s.calls[c];
        s.(cache := Store(s.cache, call.user, call.reading, call.start),
           calls := s.calls[c := Decided(call.user, call.start, call.reading)])
      else s
    case Invalidate(user) => s.(cache := Purge(s.cache, user))
  }

  function CacheRun(s: CacheSystem, steps: seq<CacheStep>): CacheSystem
    decreases |steps|
  {
    if steps == [] then s else CacheRun(CacheNext(s, steps[0]), steps[1..])
  }

  /** Every reading was taken before now and no earlier than the start of the call that took it. */
  ghost predicate Honest(s: CacheSystem) {
    && (forall u | u in s.cache :: s.cache[u].expiresAt - TTL <= s.cache[u].state.readAt <= s.now)
    && (forall c | c in s.calls :: s.calls[c].start <= s.now)
    && (forall c | c in s.calls && s.calls[c].Loaded? :: s.calls[c].start <= s.calls[c].reading.readAt <= s.now)
    && (forall c | c in s.calls && s.calls[c].Decided? :: s.calls[c].start - TTL < s.calls[c].reading.readAt <= s.now)
  }

  lemma {:induction false} RunHonest(s: CacheSystem, steps: seq<CacheStep>)
    requires Honest(s)
    ensures Honest(CacheRun(s, steps))
    decreases |steps|
  {
    if steps != [] {
      RunHonest(CacheNext(s, steps[0]), steps[1..]);
    }
  }

  /** Under every interleaving of Status calls and invalidations, a call that starts at t decides
    * on a state read later than t minus two seconds. */
  lemma StatusIsFresh(start: Instant, steps: seq<CacheStep>, c: CallId)
    requires var s := CacheRun(CacheSystem(map[], map[], start), steps); c in s.calls && s.calls[c].Decided?
    ensures var call := CacheRun(CacheSystem(map[], map[], start), steps).calls[c];
      call.reading.readAt > call.start - 2 * SECOND
  {
    RunHonest(CacheSystem(map[], map[], start), steps);
  }

  // ---- What Invalidate promises ----

  /** "Forces the next check to query live state": no call begun after the invalidation, in any
    * continuation, decides on a state read before it. */
  ghost predicate ForcesLiveState(s: CacheSystem, user: UserId) {
    forall steps: seq<CacheStep>, c: CallId ::
      NeverOlder(s, CacheRun(CacheNext(s, Invalidate(user)), steps), user, c)
  }

  ghost predicate NeverOlder(s: CacheSystem, r: CacheSystem, user: UserId, c: CallId) {
    c !in s.calls && c in r.calls && r.calls[c].Decided? && r.calls[c].user == user ==>
      r.calls[c].reading.readAt >= s.now
  }

  /** A call that has read the database but not yet stored what it read, and whose entry would still be served. */
  predicate CarriesOld(s: CacheSystem, c: CallId, user: UserId) {
    && c in s.calls && s.calls[c].Loaded? && s.calls[c].user == user
    && s.calls[c].reading.readAt < s.now < s.calls[c].start + 2 * SECOND
  }

  /** The comment on Invalidate holds exactly when no such call is in flight. */
  lemma InvalidateForcesExactly(s: CacheSystem, user: UserId)
    requires Honest(s)
    ensures ForcesLiveState(s, user) <==> forall c | c in s.calls :: !CarriesOld(s, c, user)
  {
    if forall c | c in s.calls :: !CarriesOld(s, c, user) {
      var t := CacheNext(s, Invalidate(user));
      forall steps: seq<CacheStep>, c: CallId
        ensures NeverOlder(s, CacheRun(t, steps), user, c)
      {
        StaysPurged(s, t, steps, user);
      }
    } else {
      var c :| c in s.calls && CarriesOld(s, c, user);
      OldStateReturns(s, c, user);
    }
  }

  /** Nothing older than the cut can still be served to a call that starts at or after it. */
  ghost predicate Purged(s: CacheSystem, r: CacheSystem, user: UserId) {
    && s.now <= r.now && s.calls.Keys <= r.calls.Keys
    && (user in r.cache ==> r.cache[user].state.readAt >= s.now || r.cache[user].expiresAt <= s.now)
    && (forall c | c in r.calls && r.calls[c].user == user && r.calls[c].Loaded? ::
          r.calls[c].reading.readAt >= s.now || r.calls[c].start + TTL <= s.now)
    && (forall c | c in r.calls && c !in s.calls :: r.calls[c].start >= s.now)
    && (forall c | c in r.calls && c !in s.calls && r.calls[c].user == user
        && (r.calls[c].Loaded? || r.calls[c].Decided?) ::
          r.calls[c].reading.readAt >= s.now)
  }

  lemma {:induction false} StaysPurged(s: CacheSystem, r: CacheSystem, steps: seq<CacheStep>, user: UserId)
    requires Purged(s, r, user)
    ensures Purged(s, CacheRun(r, steps), user)
    decreases |steps|
  {
    if steps != [] {
      PurgedStep(s, r, steps[0], user);
      StaysPurged(s, CacheNext(r, steps[0]), steps[1..], user);
    }
  }

  lemma PurgedStep(s: CacheSystem, r: CacheSystem, step: CacheStep, user: UserId)
    requires Purged(s, r, user)
    ensures Purged(s, CacheNext(r, step), user)
  {
  }

  lemma OldStateReturns(s: CacheSystem, c: CallId, user: UserId)
    requires Honest(s) && CarriesOld(s, c, user)
    ensures !ForcesLiveState(s, user)
  {
    var d := FreshCall(s.calls.Keys);
    var s1 := CacheNext(s, Invalidate(user));
    var s2 := CacheNext(s1, Put(c));
    var s3 := CacheNext(s2, Begin(d, user));
    var s4 := CacheNext(s3, Look(d));
    assert s4.calls[d] == Decided(user, s.now, s.calls[c].reading);
    var steps := [Put(c), Begin(d, user), Look(d)];
    assert steps[1..] == [Begin(d, user), Look(d)] && steps[1..][1..] == [Look(d)] && steps[1..][1..][1..] == [];
    assert CacheRun(s4, []) == s4;
    assert CacheRun(s3, [Look(d)]) == s4;
    assert CacheRun(s2, steps[1..]) == s4;
    assert CacheRun(s1, steps) == s4;
    assert !NeverOlder(s, CacheRun(s1, steps), user, d);
  }

  lemma {:induction false} FreshCall(ids: set<CallId>) returns (d: CallId)
    ensures forall i | i in ids :: i < d
  {
    if ids == {} {
      d := 0;
    } else {
      var i :| i in ids;
      d := FreshCall(ids - {i});
      assert forall j | j in ids :: j == i || j in ids - {i};
      d := if d <= i then i + 1 else d;
    }
  }
}
