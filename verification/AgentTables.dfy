/** The proctoring tables and the SQL statements of the agent repository.
  *
  * A table is a map (agents, keyed by id) or a set of rows; one statement is one
  * function from tables to tables.  Instants are nanoseconds.
  */
module AgentTables {
  import opened Wrappers

  type UserId = nat
  type AgentId = nat
  type Instant = int

  const SECOND: int := 1_000_000_000
  const CLOCK_SKEW_TOLERANCE_MS: int := 120_000
  const INCIDENT_NUMERATOR: int := 3
  const INCIDENT_DENOMINATOR: int := 10
  const INCIDENT_MIN_FLEET: int := 10
  const INCIDENT_GRACE: int := 60 * SECOND

  datatype AgentRow = AgentRow(
    user: UserId,
    machine: string,
    bootId: Option<string>,
    seqNo: int,
    signalHash: string,
    lastEventAt: Option<Instant>,
    clockOffsetMs: Option<int>,
    attestNonce: string,
    prevAttestNonce: string,
    enrolledAt: Instant,
    lastSeenAt: Option<Instant>,
    stoppedAt: Option<Instant>,
    revokedAt: Option<Instant>)

  datatype Gap = Gap(user: UserId, agent: AgentId, startedAt: Instant, endedAt: Option<Instant>, createdAt: Instant)

  datatype Incident = Incident(startedAt: Instant, endedAt: Option<Instant>, affected: int, enrolled: int)

  datatype EventKind = Boot | SignalChange | Keepalive | Backfill

  datatype Event = Event(user: UserId, bootId: string, seqNo: int, kind: EventKind, at: Instant)

  datatype Tables = Tables(
    agents: map<AgentId, AgentRow>,
    gaps: set<Gap>,
    incidents: set<Incident>,
    events: seq<Event>)

  const EMPTY := Tables(map[], {}, {}, [])

  datatype Heartbeat = Heartbeat(
    bootId: string,
    seqNo: int,
    wallTs: Option<Instant>,
    attestNonce: string,
    signalHash: string,
    buffered: bool)

  // ---- Rows ----

  predicate Live(a: AgentRow) { a.revokedAt.None? }

  /** COALESCE(last_seen_at, enrolled_at) */
  function LastContact(a: AgentRow): Instant { a.lastSeenAt.GetOr(a.enrolledAt) }

  predicate Stale(a: AgentRow, now: Instant, staleSeconds: int) {
    LastContact(a) < now - staleSeconds * SECOND
  }

  /** The rows the sweep watches: neither revoked nor deliberately stopped. */
  predicate Watched(a: AgentRow) { Live(a) && a.stoppedAt.None? }

  predicate Dark(a: AgentRow, now: Instant, staleSeconds: int) {
    Watched(a) && Stale(a, now, staleSeconds)
  }

  // ---- What the unique indexes and the sweep keep ----

  predicate OneLivePerUser(agents: map<AgentId, AgentRow>) {
    forall i, j | i in agents && j in agents && Live(agents[i]) && Live(agents[j])
        && agents[i].user == agents[j].user :: i == j
  }

  ghost predicate OneOpenGapPerUser(gaps: set<Gap>) {
    forall g, h | g in gaps && h in gaps && g.endedAt.None? && h.endedAt.None? && g.user == h.user :: g == h
  }

  ghost predicate OneOpenIncident(incidents: set<Incident>) {
    forall i, j | i in incidents && j in incidents && i.endedAt.None? && j.endedAt.None? :: i == j
  }

  ghost predicate Consistent(t: Tables) {
    && OneLivePerUser(t.agents)
    && OneOpenGapPerUser(t.gaps)
    && OneOpenIncident(t.incidents)
  }

  // ---- Statements on agents ----

  function FreshRow(user: UserId, machine: string, at: Instant): AgentRow {
    AgentRow(user, machine, None, 0, "", None, None, "", "", at, None, None, None)
  }

  /** Revokes the user's live rows. */
  function Supersede(agents: map<AgentId, AgentRow>, user: UserId, at: Instant): map<AgentId, AgentRow> {
    map i | i in agents ::
      if agents[i].user == user && Live(agents[i]) then agents[i].(revokedAt := Some(at)) else agents[i]
  }

  lemma NothingToSupersede(agents: map<AgentId, AgentRow>, user: UserId, at: Instant)
    requires forall i | i in agents :: agents[i].user != user || !Live(agents[i])
    ensures Supersede(agents, user, at) == agents
  {
  }

  /** The transaction of Enroll: supersede the user's live rows, then insert. */
  function EnrollStmt(agents: map<AgentId, AgentRow>, user: UserId, machine: string, id: AgentId,
      at: Instant): map<AgentId, AgentRow> {
    Supersede(agents, user, at)[id := FreshRow(user, machine, at)]
  }

  /** WHERE stopped_at IS NULL OR boot_id IS DISTINCT FROM the reported boot. */
  predicate HeartbeatGuard(a: AgentRow, hb: Heartbeat) {
    a.stoppedAt.None? || a.bootId != Some(hb.bootId)
  }

  function Greatest(x: int, y: int): int { if x < y then y else x }

  /** The SET list of RecordHeartbeat, on a row that passed the guard. */
  function Recorded(a: AgentRow, hb: Heartbeat, offsetMs: int, eventWritten: bool, at: Instant): AgentRow {
    a.(bootId := Some(hb.bootId),
       seqNo := if a.bootId != Some(hb.bootId) then hb.seqNo else Greatest(a.seqNo, hb.seqNo),
       prevAttestNonce := if hb.attestNonce != "" && hb.attestNonce != a.attestNonce then a.attestNonce
           else a.prevAttestNonce,
       attestNonce := if hb.attestNonce == "" then a.attestNonce else hb.attestNonce,
       signalHash := hb.signalHash,
       clockOffsetMs := Some(offsetMs),
       lastEventAt := if eventWritten then Some(at) else a.lastEventAt,
       lastSeenAt := Some(at),
       stoppedAt := None)
  }

  function RecordStmt(a: AgentRow, hb: Heartbeat, offsetMs: int, eventWritten: bool, at: Instant): AgentRow {
    if HeartbeatGuard(a, hb) then Recorded(a, hb, offsetMs, eventWritten, at) else a
  }

  function StopStmt(a: AgentRow, at: Instant): AgentRow { a.(stoppedAt := Some(at)) }

  function RevokeStmt(a: AgentRow, at: Instant): AgentRow {
    if Live(a) then a.(revokedAt := Some(at)) else a
  }

  function ClearStmt(a: AgentRow): AgentRow { a.(revokedAt := None, stoppedAt := None) }

  /** UnrevokeAgent's UPDATE, on every row of the user. */
  function ClearAll(agents: map<AgentId, AgentRow>, user: UserId): map<AgentId, AgentRow> {
    map i | i in agents :: if agents[i].user == user then ClearStmt(agents[i]) else agents[i]
  }

  /** The database refuses an update that breaks the unique index on live rows. */
  predicate UnrevokeAborts(agents: map<AgentId, AgentRow>, user: UserId) {
    !OneLivePerUser(ClearAll(agents, user))
  }

  function UnrevokeStmt(agents: map<AgentId, AgentRow>, user: UserId): map<AgentId, AgentRow> {
    if UnrevokeAborts(agents, user) then agents else ClearAll(agents, user)
  }

  predicate EnrolledTwice(agents: map<AgentId, AgentRow>, user: UserId) {
    exists i, j | i in agents && j in agents :: i != j && agents[i].user == user && agents[j].user == user
  }

  predicate HasLive(agents: map<AgentId, AgentRow>, user: UserId) {
    exists i | i in agents :: agents[i].user == user && Live(agents[i])
  }

  /** The update goes through exactly for a user who has enrolled no more than once. */
  lemma RestoreAbortsExactly(agents: map<AgentId, AgentRow>, user: UserId)
    requires OneLivePerUser(agents)
    ensures UnrevokeAborts(agents, user) <==> EnrolledTwice(agents, user)
  {
    var cleared := ClearAll(agents, user);
    if EnrolledTwice(agents, user) {
      var i, j :| i in agents && j in agents && i != j && agents[i].user == user && agents[j].user == user;
      assert Live(cleared[i]) && Live(cleared[j]) && cleared[i].user == cleared[j].user;
    } else {
      forall i, j | i in cleared && j in cleared && Live(cleared[i]) && Live(cleared[j])
          && cleared[i].user == cleared[j].user
        ensures i == j
      {
        assert agents[i].user == cleared[i].user && agents[j].user == cleared[j].user;
        assert agents[i].user != user ==> cleared[i] == agents[i] && cleared[j] == agents[j];
      }
    }
  }

  /** So restoring a user's access leaves a live enrolment exactly if there was one already, or the
    * user has one enrolment in all. */
  lemma RestoreLeavesLiveExactly(agents: map<AgentId, AgentRow>, user: UserId)
    requires OneLivePerUser(agents)
    ensures HasLive(UnrevokeStmt(agents, user), user) <==>
            HasLive(agents, user) || (!EnrolledTwice(agents, user) && exists i | i in agents :: agents[i].user == user)
  {
    RestoreAbortsExactly(agents, user);
    if !EnrolledTwice(agents, user) {
      var cleared := ClearAll(agents, user);
      forall i | i in agents && agents[i].user == user
        ensures HasLive(cleared, user)
      {
        assert i in cleared && cleared[i].user == user && Live(cleared[i]);
      }
      if HasLive(cleared, user) {
        var i :| i in cleared && cleared[i].user == user && Live(cleared[i]);
        assert i in agents && agents[i].user == user;
      }
    }
  }

  /** $2 IN (attest_nonce, prev_attest_nonce), for the user's live enrolment. */
  predicate NonceMatches(agents: map<AgentId, AgentRow>, user: UserId, nonce: string) {
    nonce != "" &&
    exists i | i in agents :: agents[i].user == user && Live(agents[i]) &&
                              (nonce == agents[i].attestNonce || nonce == agents[i].prevAttestNonce)
  }

  // ---- Statements of the sweep ----

  function WatchedIds(agents: map<AgentId, AgentRow>): set<AgentId> {
    set i | i in agents && Watched(agents[i])
  }

  function DarkIds(agents: map<AgentId, AgentRow>, now: Instant, staleSeconds: int): set<AgentId> {
    set i | i in agents && Dark(agents[i], now, staleSeconds)
  }

  predicate FleetWide(agents: map<AgentId, AgentRow>, now: Instant, staleSeconds: int) {
    && |WatchedIds(agents)| >= INCIDENT_MIN_FLEET
    && |DarkIds(agents, now, staleSeconds)| * INCIDENT_DENOMINATOR >= |WatchedIds(agents)| * INCIDENT_NUMERATOR
  }

  predicate GapOpen(gaps: set<Gap>, user: UserId) {
    exists g | g in gaps :: g.user == user && g.endedAt.None?
  }

  predicate IncidentIsOpen(incidents: set<Incident>) {
    exists i | i in incidents :: i.endedAt.None?
  }

  /** The EXISTS of closeGaps: the user's live agent is stopped, or in contact again. */
  predicate Accounted(agents: map<AgentId, AgentRow>, user: UserId, now: Instant, staleSeconds: int) {
    exists i | i in agents :: agents[i].user == user && Live(agents[i]) &&
                              (agents[i].stoppedAt.Some? || !Stale(agents[i], now, staleSeconds))
  }

  function CloseGap(agents: map<AgentId, AgentRow>, g: Gap, now: Instant, staleSeconds: int): Gap {
    if g.endedAt.None? && Accounted(agents, g.user, now, staleSeconds) then g.(endedAt := Some(now)) else g
  }

  function CloseGapsStmt(agents: map<AgentId, AgentRow>, gaps: set<Gap>, now: Instant, staleSeconds: int): set<Gap> {
    set g | g in gaps :: CloseGap(agents, g, now, staleSeconds)
  }

  function NewGap(a: AgentRow, id: AgentId, now: Instant): Gap {
    Gap(a.user, id, LastContact(a), None, now)
  }

  /** ON CONFLICT (user_id) WHERE ended_at IS NULL DO NOTHING drops the users already in a gap. */
  function OpenGapsStmt(agents: map<AgentId, AgentRow>, gaps: set<Gap>, now: Instant, staleSeconds: int): set<Gap> {
    gaps + set i | i in agents && Dark(agents[i], now, staleSeconds) && !GapOpen(gaps, agents[i].user)
           :: NewGap(agents[i], i, now)
  }

  predicate InIncident(incidents: set<Incident>, g: Gap) {
    g.endedAt.None? && exists i | i in incidents :: i.endedAt.None? && g.startedAt >= i.startedAt - INCIDENT_GRACE
  }

  function DiscardGapsStmt(gaps: set<Gap>, incidents: set<Incident>): set<Gap> {
    set g | g in gaps && !InIncident(incidents, g)
  }

  function OpenIncidentStmt(incidents: set<Incident>, affected: int, enrolled: int, now: Instant): set<Incident> {
    if IncidentIsOpen(incidents) then incidents else incidents + {Incident(now, None, affected, enrolled)}
  }

  function CloseIncidentRow(i: Incident, now: Instant): Incident {
    if i.endedAt.None? then i.(endedAt := Some(now)) else i
  }

  function CloseIncidentStmt(incidents: set<Incident>, now: Instant): set<Incident> {
    set i | i in incidents :: CloseIncidentRow(i, now)
  }

  function SweepTables(t: Tables, now: Instant, staleSeconds: int): Tables {
    if FleetWide(t.agents, now, staleSeconds) then
      var incidents := OpenIncidentStmt(t.incidents, |DarkIds(t.agents, now, staleSeconds)|, |WatchedIds(t.agents)|,
          now);
      t.(incidents := incidents, gaps := DiscardGapsStmt(t.gaps, incidents))
    else
      t.(incidents := CloseIncidentStmt(t.incidents, now),
         gaps := OpenGapsStmt(t.agents, CloseGapsStmt(t.agents, t.gaps, now, staleSeconds), now, staleSeconds))
  }

  // ---- What one sweep settles ----

  /** How a user stands after a sweep that blames contestants one by one. */
  ghost predicate GapsSettled(t: Tables, r: Tables, now: Instant, staleSeconds: int) {
    && !IncidentIsOpen(r.incidents)
    && (forall i | i in t.agents && Live(t.agents[i]) :: GapOpen(r.gaps, t.agents[i].user) <==>
        Dark(t.agents[i], now, staleSeconds))
    && (forall u: UserId | !HasLive(t.agents, u) :: GapOpen(r.gaps, u) <==> GapOpen(t.gaps, u))
  }

  /** How the tables stand after a sweep that takes the blame. */
  ghost predicate IncidentSettled(t: Tables, r: Tables, now: Instant) {
    exists i | i in r.incidents && i.endedAt.None? ::
      && (i in t.incidents || (i.startedAt == now && !IncidentIsOpen(t.incidents)))
      && (forall g | g in r.gaps && g.endedAt.None? :: g in t.gaps && g.startedAt < i.startedAt - INCIDENT_GRACE)
      && (forall g | g in t.gaps && g !in r.gaps :: g.endedAt.None? && g.startedAt >= i.startedAt - INCIDENT_GRACE)
  }

  /** Closed gaps are the record an organizer reads: they are never touched again, and a gap
    * that is still open may only be closed now or discarded into an incident. */
  ghost predicate RecordKept(t: Tables, r: Tables, now: Instant) {
    forall g | g in t.gaps :: g in r.gaps || (g.endedAt.None?
        && (g.(endedAt := Some(now)) in r.gaps || InIncident(r.incidents, g)))
  }

  /** No row appears from nowhere: a gap is an old one, an old one closed now, or the blackout
    * of a watched agent, dated back to its last contact. */
  ghost predicate NothingInvented(t: Tables, r: Tables, now: Instant, staleSeconds: int) {
    forall g | g in r.gaps ::
      || g in t.gaps
      || (g.endedAt == Some(now) && g.(endedAt := None) in t.gaps)
      || (g.agent in t.agents && Dark(t.agents[g.agent], now, staleSeconds)
          && !GapOpen(t.gaps, g.user) && g == NewGap(t.agents[g.agent], g.agent, now))
  }

  lemma OpenGapsKeepsOne(agents: map<AgentId, AgentRow>, gaps: set<Gap>, now: Instant, staleSeconds: int)
    requires OneLivePerUser(agents) && OneOpenGapPerUser(gaps)
    ensures OneOpenGapPerUser(OpenGapsStmt(agents, gaps, now, staleSeconds))
  {
  }

  lemma CloseGapsKeepsOne(agents: map<AgentId, AgentRow>, gaps: set<Gap>, now: Instant, staleSeconds: int)
    ensures OneOpenGapPerUser(gaps) ==> OneOpenGapPerUser(CloseGapsStmt(agents, gaps, now, staleSeconds))
    ensures forall u: UserId :: GapOpen(CloseGapsStmt(agents, gaps, now, staleSeconds), u) <==>
                                GapOpen(gaps, u) && !Accounted(agents, u, now, staleSeconds)
  {
    var closed := CloseGapsStmt(agents, gaps, now, staleSeconds);
    forall u: UserId
      ensures GapOpen(closed, u) <==> GapOpen(gaps, u) && !Accounted(agents, u, now, staleSeconds)
    {
      if GapOpen(gaps, u) && !Accounted(agents, u, now, staleSeconds) {
        var g :| g in gaps && g.user == u && g.endedAt.None?;
        assert CloseGap(agents, g, now, staleSeconds) == g;
        assert g in closed;
      }
    }
  }

  lemma OpenGapsOpens(agents: map<AgentId, AgentRow>, gaps: set<Gap>, now: Instant, staleSeconds: int, u: UserId)
    ensures GapOpen(OpenGapsStmt(agents, gaps, now, staleSeconds), u) <==>
            GapOpen(gaps, u) || exists i :: i in agents && agents[i].user == u && Dark(agents[i], now, staleSeconds)
  {
    var after := OpenGapsStmt(agents, gaps, now, staleSeconds);
    if GapOpen(gaps, u) {
      var g :| g in gaps && g.user == u && g.endedAt.None?;
      assert g in after;
    } else if i :| i in agents && agents[i].user == u && Dark(agents[i], now, staleSeconds) {
      assert NewGap(agents[i], i, now) in after;
    }
  }

  /** The heart of the sweeper: "one contestant went dark" or "we broke", never both. */
  lemma SweepSettles(t: Tables, now: Instant, staleSeconds: int)
    requires Consistent(t)
    ensures var r := SweepTables(t, now, staleSeconds);
      && Consistent(r)
      && (!FleetWide(t.agents, now, staleSeconds) ==> GapsSettled(t, r, now, staleSeconds))
      && (FleetWide(t.agents, now, staleSeconds) ==> IncidentSettled(t, r, now))
      && RecordKept(t, r, now)
      && NothingInvented(t, r, now, staleSeconds)
  {
    var r := SweepTables(t, now, staleSeconds);
    if FleetWide(t.agents, now, staleSeconds) {
      FleetSweepSettles(t, now, staleSeconds);
    } else {
      LocalSweepSettles(t, now, staleSeconds);
    }
  }

  lemma FleetSweepSettles(t: Tables, now: Instant, staleSeconds: int)
    requires Consistent(t) && FleetWide(t.agents, now, staleSeconds)
    ensures var r := SweepTables(t, now, staleSeconds);
      Consistent(r) && IncidentSettled(t, r, now) && RecordKept(t, r, now) && NothingInvented(t, r, now, staleSeconds)
  {
    var r := SweepTables(t, now, staleSeconds);
    var i: Incident;
    if IncidentIsOpen(t.incidents) {
      i :| i in t.incidents && i.endedAt.None?;
    } else {
      i := Incident(now, None, |DarkIds(t.agents, now, staleSeconds)|, |WatchedIds(t.agents)|);
    }
    assert i in r.incidents && i.endedAt.None?;
    assert OneOpenIncident(r.incidents);
    forall g | g in r.gaps && g.endedAt.None?
      ensures g in t.gaps && g.startedAt < i.startedAt - INCIDENT_GRACE
    {
      assert !InIncident(r.incidents, g);
    }
  }

  lemma LocalSweepSettles(t: Tables, now: Instant, staleSeconds: int)
    requires Consistent(t) && !FleetWide(t.agents, now, staleSeconds)
    ensures var r := SweepTables(t, now, staleSeconds);
      Consistent(r) && GapsSettled(t, r, now, staleSeconds) && RecordKept(t, r, now)
          && NothingInvented(t, r, now, staleSeconds)
  {
    var r := SweepTables(t, now, staleSeconds);
    var closed := CloseGapsStmt(t.agents, t.gaps, now, staleSeconds);
    CloseGapsKeepsOne(t.agents, t.gaps, now, staleSeconds);
    OpenGapsKeepsOne(t.agents, closed, now, staleSeconds);
    forall u: UserId
      ensures GapOpen(r.gaps, u) <==> GapOpen(closed, u) || exists i ::
          i in t.agents && t.agents[i].user == u && Dark(t.agents[i], now, staleSeconds)
    {
      OpenGapsOpens(t.agents, closed, now, staleSeconds, u);
    }
    forall g | g in t.gaps
      ensures g in r.gaps || (g.endedAt.None? && g.(endedAt := Some(now)) in r.gaps)
    {
      assert CloseGap(t.agents, g, now, staleSeconds) in closed;
    }
    forall i | i in t.agents && Live(t.agents[i])
      ensures GapOpen(r.gaps, t.agents[i].user) <==> Dark(t.agents[i], now, staleSeconds)
    {
      LiveAgentDecides(t.agents, i, now, staleSeconds);
    }
  }

  /** With one live enrolment per user, that row alone decides whether the user is accounted for. */
  lemma LiveAgentDecides(agents: map<AgentId, AgentRow>, id: AgentId, now: Instant, staleSeconds: int)
    requires OneLivePerUser(agents) && id in agents && Live(agents[id])
    ensures Accounted(agents, agents[id].user, now, staleSeconds) <==> !Dark(agents[id], now, staleSeconds)
    ensures (exists i :: i in agents && agents[i].user == agents[id].user && Dark(agents[i], now, staleSeconds)) <==>
        Dark(agents[id], now, staleSeconds)
  {
  }

  /** One flaky laptop cannot look like an outage: an incident needs at least three different
    * contestants dark at once. */
  lemma IncidentNeedsThreeUsers(agents: map<AgentId, AgentRow>, now: Instant, staleSeconds: int)
    requires OneLivePerUser(agents) && FleetWide(agents, now, staleSeconds)
    ensures exists i, j, k :: {i, j, k} <= DarkIds(agents, now, staleSeconds)
              && agents[i].user != agents[j].user && agents[j].user != agents[k].user
              && agents[i].user != agents[k].user
  {
    var dark := DarkIds(agents, now, staleSeconds);
    assert |dark| >= 3;
    var i :| i in dark;
    assert |dark - {i}| >= 2;
    var j :| j in dark - {i};
    assert |dark - {i} - {j}| >= 1;
    var k :| k in dark - {i} - {j};
    assert {i, j, k} <= dark;
  }
}
