/** The per-user guard on sandbox runs: one run at a time, three seconds apart, kept in a map
  * that is pruned of old timestamps once it grows past 1024 users. */
module RunGuard {
  import opened Wrappers

  type UserId = string
  type Instant = int
  const SECOND: int := 1_000_000_000
  const COOLDOWN: int := 3 * SECOND
  const FORGET_AFTER: int := 5 * 60 * SECOND
  const PRUNE_ABOVE: nat := 1024

  datatype Answer = Granted | ActiveRun | TooSoon

  datatype Guard = Guard(active: set<UserId>, lastRun: map<UserId, Instant>)

  predicate Old(t: Instant, now: Instant) { now - t > FORGET_AFTER }

  function Prune(lastRun: map<UserId, Instant>, now: Instant): map<UserId, Instant> {
    if |lastRun| > PRUNE_ABOVE then map u | u in lastRun && !Old(lastRun[u], now) :: lastRun[u] else lastRun
  }

  function AcquireAnswer(g: Guard, user: UserId, now: Instant): Answer {
    if user in g.active then ActiveRun
    else
      var lastRun := Prune(g.lastRun, now);
      if user in lastRun && now - lastRun[user] < COOLDOWN then TooSoon else Granted
  }

  function Acquire(g: Guard, user: UserId, now: Instant): Guard {
    var pruned := g.(lastRun := Prune(g.lastRun, now));
    if AcquireAnswer(g, user, now) == Granted then Guard(g.active + {user}, pruned.lastRun[user := now]) else pruned
  }

  class UserRuns {
    var activeRunUsers: set<UserId>
    var userLastRunTimes: map<UserId, Instant>

    constructor ()
      ensures Contents() == Guard({}, map[])
    {
      activeRunUsers, userLastRunTimes := {}, map[];
    }

    function Contents(): Guard
      reads this
    {
      Guard(activeRunUsers, userLastRunTimes)
    }

    method TryAcquire(user: UserId, now: Instant) returns (ok: bool, refusal: Option<Answer>)
      modifies this
      ensures Contents() == Acquire(old(Contents()), user, now)
      ensures ok <==> AcquireAnswer(old(Contents()), user, now) == Granted
      ensures !ok ==> refusal == Some(AcquireAnswer(old(Contents()), user, now))
    {
      if |userLastRunTimes| > PRUNE_ABOVE {
        var users := userLastRunTimes.Keys;
        ghost var before := userLastRunTimes;
        while users != {}
          invariant users <= before.Keys
          invariant forall u :: u in userLastRunTimes <==> u in before && (u in users || !Old(before[u], now))
          invariant forall u | u in userLastRunTimes :: userLastRunTimes[u] == before[u]
          invariant activeRunUsers == old(activeRunUsers)
        {
          var u :| u in users;
          if now - userLastRunTimes[u] > FORGET_AFTER {
            userLastRunTimes := userLastRunTimes - {u};
          }
          users := users - {u};
        }
        assert userLastRunTimes == Prune(before, now);
      }
      if user in activeRunUsers { return false, Some(ActiveRun); }
      if user in userLastRunTimes && now - userLastRunTimes[user] < COOLDOWN { return false, Some(TooSoon); }
      activeRunUsers := activeRunUsers + {user};
      userLastRunTimes := userLastRunTimes[user := now];
      return true, None;
    }

    method Release(user: UserId)
      modifies this
      ensures Contents() == old(Contents()).(active := old(activeRunUsers) - {user})
      ensures forall u: UserId, now: Instant ::
                if u == user then AcquireAnswer(Contents(), u, now) != ActiveRun
                else AcquireAnswer(Contents(), u, now) == AcquireAnswer(old(Contents()), u, now)
    {
      activeRunUsers := activeRunUsers - {user};
    }
  }

  // ---- The guard that forgets nothing ----

  datatype Event = Began(user: UserId, at: Instant) | Ended(user: UserId)

  /** The user's last event in the full history is a run that began. */
  predicate Running(h: seq<Event>, user: UserId) {
    h != [] && var e := h[|h| - 1]; if e.user == user then e.Began? else Running(h[..|h| - 1], user)
  }

  function LastBegan(h: seq<Event>, user: UserId): Option<Instant> {
    if h == [] then None
    else
      var e := h[|h| - 1];
      if e.Began? && e.user == user then Some(e.at) else LastBegan(h[..|h| - 1], user)
  }

  /** The rule in full: refused while a run is on, refused within the cooldown of the last one. */
  function RuleAnswer(h: seq<Event>, user: UserId, now: Instant): Answer {
    if Running(h, user) then ActiveRun
    else if LastBegan(h, user).Some? && now - LastBegan(h, user).value < COOLDOWN then TooSoon
    else Granted
  }

  datatype Op = TryRun(user: UserId, now: Instant) | Finish(user: UserId)

  function GuardNext(g: Guard, op: Op): Guard {
    match op case TryRun(user, now) => Acquire(g, user, now) case Finish(user) => g.(active := g.active - {user})
  }

  function GuardAnswer(g: Guard, op: Op): Option<Answer> {
    match op case TryRun(user, now) => Some(AcquireAnswer(g, user, now)) case Finish(_) => None
  }

  function RuleNext(h: seq<Event>, op: Op): seq<Event> {
    match op
    case TryRun(user, now) => if RuleAnswer(h, user, now) == Granted then h + [Began(user, now)] else h
    case Finish(user) => h + [Ended(user)]
  }

  function RuleReply(h: seq<Event>, op: Op): Option<Answer> {
    match op case TryRun(user, now) => Some(RuleAnswer(h, user, now)) case Finish(_) => None
  }

  function GuardReplies(g: Guard, ops: seq<Op>): seq<Option<Answer>>
    decreases |ops|
  {
    if ops == [] then [] else [GuardAnswer(g, ops[0])] + GuardReplies(GuardNext(g, ops[0]), ops[1..])
  }

  function RuleReplies(h: seq<Event>, ops: seq<Op>): seq<Option<Answer>>
    decreases |ops|
  {
    if ops == [] then [] else [RuleReply(h, ops[0])] + RuleReplies(RuleNext(h, ops[0]), ops[1..])
  }

  predicate Monotone(ops: seq<Op>, clock: Instant)
    decreases |ops|
  {
    ops == [] || (if ops[0].TryRun? then clock <= ops[0].now && Monotone(ops[1..], ops[0].now)
        else Monotone(ops[1..], clock))
  }

  /** The pruned map agrees with the history, but for timestamps too old to matter. */
  ghost predicate Tracks(g: Guard, h: seq<Event>, clock: Instant) {
    forall u: UserId ::
      && (u in g.active <==> Running(h, u))
      && (if u in g.lastRun then LastBegan(h, u) == Some(g.lastRun[u])
          else LastBegan(h, u).None? || clock - LastBegan(h, u).value > FORGET_AFTER)
  }

  lemma TracksStep(g: Guard, h: seq<Event>, op: Op, clock: Instant)
    requires Tracks(g, h, clock) && (op.TryRun? ==> clock <= op.now)
    ensures GuardAnswer(g, op) == RuleReply(h, op)
    ensures Tracks(GuardNext(g, op), RuleNext(h, op), if op.TryRun? then op.now else clock)
  {
    var h' := RuleNext(h, op);
    if h' != h {
      assert h'[..|h'| - 1] == h;
    }
    match op {
      case TryRun(user, now) =>
        assert Tracks(g.(lastRun := Prune(g.lastRun, now)), h, now);
      case Finish(user) =>
    }
  }

  lemma {:induction false} RepliesAgree(g: Guard, h: seq<Event>, ops: seq<Op>, clock: Instant)
    requires Tracks(g, h, clock) && Monotone(ops, clock)
    ensures GuardReplies(g, ops) == RuleReplies(h, ops)
    decreases |ops|
  {
    if ops != [] {
      TracksStep(g, h, ops[0], clock);
      RepliesAgree(GuardNext(g, ops[0]), RuleNext(h, ops[0]), ops[1..], if ops[0].TryRun? then ops[0].now else clock);
    }
  }

  /** Pruning never shows: over every sequence of requests and releases, the bounded map answers
    * exactly as the full history would. */
  lemma PruningNeverShows(ops: seq<Op>, start: Instant)
    requires Monotone(ops, start)
    ensures GuardReplies(Guard({}, map[]), ops) == RuleReplies([], ops)
  {
    RepliesAgree(Guard({}, map[]), [], ops, start);
  }

  /** A user who has begun a run has from then on begun one no earlier, and one that is on stays on
    * until it is finished. */
  lemma BegunStays(h: seq<Event>, op: Op, clock: Instant, user: UserId)
    requires LastBegan(h, user).Some? && LastBegan(h, user).value <= clock && (op.TryRun? ==> clock <= op.now)
    ensures var later := RuleNext(h, op);
      && LastBegan(later, user).Some?
      && LastBegan(h, user).value <= LastBegan(later, user).value <= OpClock(op, clock)
      && (Running(h, user) && op != Finish(user) ==> Running(later, user))
  {
    var later := RuleNext(h, op);
    if later != h {
      assert later[..|later| - 1] == h;
    }
  }

  function OpClock(op: Op, clock: Instant): Instant { if op.TryRun? then op.now else clock }

  /** After a user has begun a run, the next grant to them comes a cooldown later, and only once that
    * run has been finished. */
  lemma {:induction false} NextGrant(g: Guard, h: seq<Event>, ops: seq<Op>, clock: Instant, j: nat, user: UserId)
    requires Tracks(g, h, clock) && Monotone(ops, clock) && j < |ops|
    requires ops[j].TryRun? && ops[j].user == user && GuardAnswer(GuardAfter(g, ops[..j]), ops[j]) == Some(Granted)
    requires LastBegan(h, user).Some? && LastBegan(h, user).value <= clock
    ensures ops[j].now - LastBegan(h, user).value >= COOLDOWN
    ensures Running(h, user) ==> exists k :: 0 <= k < j && ops[k] == Finish(user)
    decreases j
  {
    TracksStep(g, h, ops[0], clock);
    if j > 0 {
      BegunStays(h, ops[0], clock, user);
      assert ops[..j][1..] == ops[1..][..j - 1];
      NextGrant(GuardNext(g, ops[0]), RuleNext(h, ops[0]), ops[1..], OpClock(ops[0], clock), j - 1, user);
      if Running(h, user) && ops[0] != Finish(user) {
        var k :| 0 <= k < j - 1 && ops[1..][k] == Finish(user);
        assert ops[k + 1] == Finish(user);
      }
    }
  }

  /** The guard after a sequence of requests and releases. */
  function GuardAfter(g: Guard, ops: seq<Op>): Guard
    decreases |ops|
  {
    if ops == [] then g else GuardAfter(GuardNext(g, ops[0]), ops[1..])
  }

  /** Request k of the sequence is granted. */
  predicate GrantedAt(g: Guard, ops: seq<Op>, k: nat) {
    k < |ops| && ops[k].TryRun? && GuardAnswer(GuardAfter(g, ops[..k]), ops[k]) == Some(Granted)
  }

  lemma {:induction false} GrantsSpaced(g: Guard, h: seq<Event>, ops: seq<Op>, clock: Instant, i: nat, j: nat)
    requires Tracks(g, h, clock) && Monotone(ops, clock) && i < j
    requires GrantedAt(g, ops, i) && GrantedAt(g, ops, j) && ops[i].user == ops[j].user
    ensures ops[j].now - ops[i].now >= COOLDOWN
    ensures exists k :: i < k < j && ops[k] == Finish(ops[i].user)
    decreases i
  {
    TracksStep(g, h, ops[0], clock);
    var next, later := GuardNext(g, ops[0]), RuleNext(h, ops[0]);
    assert ops[..j][1..] == ops[1..][..j - 1];
    if i == 0 {
      assert later[|later| - 1] == Began(ops[0].user, ops[0].now);
      NextGrant(next, later, ops[1..], OpClock(ops[0], clock), j - 1, ops[0].user);
      var k :| 0 <= k < j - 1 && ops[1..][k] == Finish(ops[0].user);
      assert ops[k + 1] == Finish(ops[0].user);
    } else {
      assert ops[..i][1..] == ops[1..][..i - 1];
      GrantsSpaced(next, later, ops[1..], OpClock(ops[0], clock), i - 1, j - 1);
      var k :| i - 1 < k < j - 1 && ops[1..][k] == Finish(ops[1..][i - 1].user);
      assert ops[k + 1] == Finish(ops[i].user);
    }
  }

  /** Over every sequence of requests and releases, whatever the map has forgotten: between two grants
    * to one user the first run was released, and they are three seconds apart. So no user ever holds
    * two runs. */
  lemma NeverTwoRuns(ops: seq<Op>, start: Instant, i: nat, j: nat)
    requires Monotone(ops, start) && i < j
    requires GrantedAt(Guard({}, map[]), ops, i) && GrantedAt(Guard({}, map[]), ops, j) && ops[i].user == ops[j].user
    ensures ops[j].now - ops[i].now >= 3 * SECOND
    ensures exists k :: i < k < j && ops[k] == Finish(ops[i].user)
  {
    GrantsSpaced(Guard({}, map[]), [], ops, start, i, j);
  }

  /** Each reply is the guard's answer at that point of the sequence. */
  lemma {:induction false} RepliesAt(g: Guard, ops: seq<Op>, k: nat)
    requires k < |ops|
    ensures |GuardReplies(g, ops)| == |ops| && GuardReplies(g, ops)[k] == GuardAnswer(GuardAfter(g, ops[..k]), ops[k])
    decreases |ops|
  {
    if k > 0 {
      RepliesAt(GuardNext(g, ops[0]), ops[1..], k - 1);
      assert ops[..k][1..] == ops[1..][..k - 1];
    } else if |ops| > 1 {
      RepliesAt(GuardNext(g, ops[0]), ops[1..], 0);
    }
  }

  // ---- Every reply, from the requests before it ----

  function GuardAt(ops: seq<Op>, j: nat): Guard
    requires j <= |ops|
  {
    if j == 0 then Guard({}, map[]) else GuardNext(GuardAt(ops, j - 1), ops[j - 1])
  }

  ghost function HistoryAt(ops: seq<Op>, j: nat): seq<Event>
    requires j <= |ops|
  {
    if j == 0 then [] else RuleNext(HistoryAt(ops, j - 1), ops[j - 1])
  }

  function ClockAt(ops: seq<Op>, start: Instant, j: nat): Instant
    requires j <= |ops|
  {
    if j == 0 then start else OpClock(ops[j - 1], ClockAt(ops, start, j - 1))
  }

  lemma {:induction false} GuardAfterSnoc(g: Guard, ops: seq<Op>, op: Op)
    ensures GuardAfter(g, ops + [op]) == GuardNext(GuardAfter(g, ops), op)
    decreases |ops|
  {
    if ops == [] {
      assert ([] + [op])[1..] == [] && ([] + [op])[0] == op;
    } else {
      assert (ops + [op])[1..] == ops[1..] + [op];
      GuardAfterSnoc(GuardNext(g, ops[0]), ops[1..], op);
    }
  }

  lemma {:induction false} GuardAtIs(ops: seq<Op>, j: nat)
    requires j <= |ops|
    ensures GuardAfter(Guard({}, map[]), ops[..j]) == GuardAt(ops, j)
  {
    if j > 0 {
      GuardAtIs(ops, j - 1);
      GuardAfterSnoc(Guard({}, map[]), ops[..j - 1], ops[j - 1]);
      assert ops[..j - 1] + [ops[j - 1]] == ops[..j];
    }
  }

  lemma {:induction false} MonotoneAt(ops: seq<Op>, start: Instant, j: nat)
    requires Monotone(ops, start) && j < |ops|
    ensures ops[j].TryRun? ==> ClockAt(ops, start, j) <= ops[j].now
    decreases |ops|
  {
    if j > 0 {
      MonotoneAt(ops[1..], OpClock(ops[0], start), j - 1);
      ClockShift(ops, start, j);
    }
  }

  lemma {:induction false} ClockShift(ops: seq<Op>, start: Instant, j: nat)
    requires 1 <= j <= |ops|
    ensures ClockAt(ops, start, j) == ClockAt(ops[1..], OpClock(ops[0], start), j - 1)
  {
    if j > 1 {
      ClockShift(ops, start, j - 1);
    }
  }

  lemma {:induction false} ClockCovers(ops: seq<Op>, start: Instant, i: nat, j: nat)
    requires Monotone(ops, start) && i < j <= |ops| && ops[i].TryRun?
    ensures ops[i].now <= ClockAt(ops, start, j)
    decreases j
  {
    if i < j - 1 {
      ClockCovers(ops, start, i, j - 1);
      MonotoneAt(ops, start, j - 1);
    }
  }

  lemma NoLater(ops: seq<Op>, start: Instant, i: nat, j: nat)
    requires Monotone(ops, start) && i < j < |ops| && ops[i].TryRun?
    ensures ops[j].TryRun? ==> ops[i].now <= ops[j].now
  {
    ClockCovers(ops, start, i, j);
    MonotoneAt(ops, start, j);
  }

  lemma {:induction false} TracksAt(ops: seq<Op>, start: Instant, j: nat)
    requires Monotone(ops, start) && j <= |ops|
    ensures Tracks(GuardAt(ops, j), HistoryAt(ops, j), ClockAt(ops, start, j))
  {
    if j > 0 {
      TracksAt(ops, start, j - 1);
      MonotoneAt(ops, start, j - 1);
      TracksStep(GuardAt(ops, j - 1), HistoryAt(ops, j - 1), ops[j - 1], ClockAt(ops, start, j - 1));
    }
  }

  /** Request i of the user was granted. */
  predicate BeginsAt(ops: seq<Op>, i: nat, user: UserId) {
    i < |ops| && GrantedAt(Guard({}, map[]), ops, i) && ops[i].user == user
  }

  lemma GrantedIsRule(ops: seq<Op>, start: Instant, i: nat, user: UserId)
    requires Monotone(ops, start) && i < |ops|
    ensures BeginsAt(ops, i, user) <==>
              ops[i].TryRun? && ops[i].user == user && RuleAnswer(HistoryAt(ops, i), user, ops[i].now) == Granted
  {
    TracksAt(ops, start, i);
    GuardAtIs(ops, i);
    MonotoneAt(ops, start, i);
    TracksStep(GuardAt(ops, i), HistoryAt(ops, i), ops[i], ClockAt(ops, start, i));
  }

  /** Run i of the user is still on before request j. */
  predicate StillOn(ops: seq<Op>, i: nat, j: nat, user: UserId) {
    i < j <= |ops| && BeginsAt(ops, i, user) && forall k | i < k < j :: ops[k] != Finish(user)
  }

  lemma {:induction false} RunningFound(ops: seq<Op>, start: Instant, j: nat, user: UserId) returns (i: nat)
    requires Monotone(ops, start) && j <= |ops| && Running(HistoryAt(ops, j), user)
    ensures StillOn(ops, i, j, user)
  {
    RunningStep(HistoryAt(ops, j - 1), ops[j - 1], user);
    GrantedIsRule(ops, start, j - 1, user);
    if BeginsAt(ops, j - 1, user) {
      i := j - 1;
    } else {
      i := RunningFound(ops, start, j - 1, user);
    }
  }

  lemma {:induction false} StillRuns(ops: seq<Op>, start: Instant, i: nat, j: nat, user: UserId)
    requires Monotone(ops, start) && StillOn(ops, i, j, user)
    ensures Running(HistoryAt(ops, j), user)
    decreases j
  {
    GrantedIsRule(ops, start, j - 1, user);
    if i < j - 1 {
      StillRuns(ops, start, i, j - 1, user);
    }
    RunningStep(HistoryAt(ops, j - 1), ops[j - 1], user);
  }

  lemma RunningStep(h: seq<Event>, op: Op, user: UserId)
    ensures Running(RuleNext(h, op), user) <==>
              || (op.TryRun? && op.user == user && RuleAnswer(h, user, op.now) == Granted)
              || (Running(h, user) && op != Finish(user))
  {
    var later := RuleNext(h, op);
    if later != h {
      assert later[..|later| - 1] == h;
    }
  }

  lemma LastBeganStep(h: seq<Event>, op: Op, user: UserId)
    ensures LastBegan(RuleNext(h, op), user) ==
            if op.TryRun? && op.user == user && RuleAnswer(h, user, op.now) == Granted then Some(op.now)
            else LastBegan(h, user)
  {
    var later := RuleNext(h, op);
    if later != h {
      assert later[..|later| - 1] == h;
    }
  }

  lemma LastBeganAt(ops: seq<Op>, start: Instant, j: nat, user: UserId)
    requires Monotone(ops, start) && 1 <= j <= |ops|
    ensures LastBegan(HistoryAt(ops, j), user) ==
            if BeginsAt(ops, j - 1, user) then Some(ops[j - 1].now) else LastBegan(HistoryAt(ops, j - 1), user)
  {
    GrantedIsRule(ops, start, j - 1, user);
    LastBeganStep(HistoryAt(ops, j - 1), ops[j - 1], user);
  }

  lemma {:induction false} RecentFound(ops: seq<Op>, start: Instant, j: nat, user: UserId) returns (i: nat)
    requires Monotone(ops, start) && j <= |ops| && LastBegan(HistoryAt(ops, j), user).Some?
    ensures i < j && BeginsAt(ops, i, user) && ops[i].now == LastBegan(HistoryAt(ops, j), user).value
  {
    LastBeganAt(ops, start, j, user);
    if BeginsAt(ops, j - 1, user) {
      i := j - 1;
    } else {
      i := RecentFound(ops, start, j - 1, user);
    }
  }

  lemma {:induction false} RecentCovers(ops: seq<Op>, start: Instant, i: nat, j: nat, user: UserId)
    requires Monotone(ops, start) && i < j <= |ops| && BeginsAt(ops, i, user)
    ensures LastBegan(HistoryAt(ops, j), user).Some? && ops[i].now <= LastBegan(HistoryAt(ops, j), user).value
    decreases j
  {
    LastBeganAt(ops, start, j, user);
    if i < j - 1 {
      RecentCovers(ops, start, i, j - 1, user);
      NoLater(ops, start, i, j - 1);
    }
  }

  /** Over every sequence, each reply exactly: refused while a run of the user is on, or else within three
    * seconds of the start of one, and otherwise granted. */
  lemma ReplyExactly(ops: seq<Op>, start: Instant, j: nat)
    requires Monotone(ops, start) && j < |ops| && ops[j].TryRun?
    ensures GuardAnswer(GuardAfter(Guard({}, map[]), ops[..j]), ops[j]) == Some(
              if exists i | 0 <= i < j :: StillOn(ops, i, j, ops[j].user) then ActiveRun
              else if exists i | 0 <= i < j :: BeginsAt(ops, i, ops[j].user) && ops[j].now - ops[i].now < 3 * SECOND
                  then TooSoon
              else Granted)
  {
    TracksAt(ops, start, j);
    GuardAtIs(ops, j);
    MonotoneAt(ops, start, j);
    TracksStep(GuardAt(ops, j), HistoryAt(ops, j), ops[j], ClockAt(ops, start, j));
    var h, user := HistoryAt(ops, j), ops[j].user;
    if Running(h, user) {
      var i := RunningFound(ops, start, j, user);
    } else if i :| 0 <= i < j && StillOn(ops, i, j, user) {
      StillRuns(ops, start, i, j, user);
    }
    if LastBegan(h, user).Some? {
      var i := RecentFound(ops, start, j, user);
    }
    forall i | 0 <= i < j && BeginsAt(ops, i, user)
      ensures LastBegan(h, user).Some? && ops[i].now <= LastBegan(h, user).value
    {
      RecentCovers(ops, start, i, j, user);
    }
  }
}
