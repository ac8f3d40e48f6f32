/** The submission gate: one decision from stored state, and what whole runs of the agent
  * protocol imply for it. */
module Gate {
  import opened Wrappers
  import opened AgentTables
  import opened AgentProtocol

  const GATE_MAX_STALE_SECONDS: int := 20
  const SHELL_GRACE: int := GATE_MAX_STALE_SECONDS * SECOND

  datatype Code = AgentMissing | AgentStale | AgentStopped | NotAttested
  datatype AccessMode = DesktopShell | WebWithAgent | WebOnly
  datatype Rule = Exempted | WebOnlyGrant | NoAgentSubmit | WebClient | NoAttest | PingGap
  datatype Finding = Finding(rule: Rule, weight: nat)

  datatype GateInput = GateInput(
    exempt: bool,
    hasAgent: bool,
    lastSeenAt: Option<Instant>,
    stoppedAt: Option<Instant>,
    shellAlive: bool,
    shellSeenAt: Option<Instant>,
    attestOK: bool,
    requireAttest: bool,
    incidentOpen: bool,
    claimsDesktop: bool,
    grantWebOnly: bool,
    maxStaleSeconds: int)

  datatype Decision = Decision(
    allowed: bool,
    code: Option<Code>,
    exempt: bool,
    attested: bool,
    mode: AccessMode,
    secondsSincePing: int,
    findings: seq<Finding>)

  /** int(d.Seconds()) truncates toward zero. */
  function WholeSeconds(ns: int): int {
    if ns >= 0 then ns / SECOND else -(-ns / SECOND)
  }

  function MaxStale(in_: GateInput): int {
    if in_.maxStaleSeconds <= 0 then GATE_MAX_STALE_SECONDS else in_.maxStaleSeconds
  }

  function SecondsSincePing(in_: GateInput, now: Instant): int {
    match in_.lastSeenAt
    case None => 0
    case Some(seen) => WholeSeconds(now - seen)
  }

  predicate AgentLive(in_: GateInput, now: Instant) {
    in_.hasAgent && in_.stoppedAt.None? && in_.lastSeenAt.Some? && SecondsSincePing(in_, now) <= MaxStale(in_)
  }

  predicate ShellPresent(in_: GateInput, now: Instant) {
    in_.shellAlive || (in_.shellSeenAt.Some? && now - in_.shellSeenAt.value <= SHELL_GRACE)
  }

  function ResolveMode(in_: GateInput, agentLive: bool, now: Instant): AccessMode {
    if in_.grantWebOnly then WebOnly
    else if !agentLive then WebOnly
    else if in_.claimsDesktop && ShellPresent(in_, now) then DesktopShell
    else WebWithAgent
  }

  function Decide(in_: GateInput, now: Instant): Decision {
    var since := SecondsSincePing(in_, now);
    var mode := ResolveMode(in_, AgentLive(in_, now), now);
    var d := Decision(false, None, false, in_.attestOK, mode, since, []);
    if in_.exempt then
      d.(allowed := true, exempt := true, findings := [Finding(Exempted, 15)])
    else if mode == WebOnly then
      if in_.grantWebOnly then
        d.(allowed := true, findings := [Finding(WebOnlyGrant, 15)])
      else if !in_.hasAgent || in_.lastSeenAt.None? then
        d.(code := Some(AgentMissing), findings := [Finding(NoAgentSubmit, 25)])
      else if in_.incidentOpen then
        d.(allowed := true)
      else
        d.(code := Some(if in_.stoppedAt.Some? then AgentStopped else AgentStale),
            findings := [Finding(NoAgentSubmit, 25)])
    else
      var web := if mode == WebWithAgent then [Finding(WebClient, 0)] else [];
      var attest := if in_.attestOK then [] else [Finding(NoAttest, 20)];
      if !in_.attestOK && in_.requireAttest then
        d.(code := Some(NotAttested), findings := web + attest)
      else
        d.(allowed := true, findings := web + attest + if since > 30 then [Finding(PingGap, 10)] else [])
  }

  // ---- What the decision means ----

  /** Liveness on the exact clock: the silence is below one second more than the threshold. */
  predicate LiveWithin(in_: GateInput, now: Instant) {
    && in_.hasAgent && in_.stoppedAt.None? && in_.lastSeenAt.Some?
    && now - in_.lastSeenAt.value < (MaxStale(in_) + 1) * SECOND
  }

  /** The policy as an organizer states it, in terms of the stored state alone. */
  predicate Permitted(in_: GateInput, now: Instant) {
    || in_.exempt || in_.grantWebOnly
    || (LiveWithin(in_, now) && (in_.attestOK || !in_.requireAttest))
    || (in_.hasAgent && in_.lastSeenAt.Some? && !LiveWithin(in_, now) && in_.incidentOpen)
  }

  lemma TruncatedSilence(ns: int, max: int)
    requires max >= 0
    ensures WholeSeconds(ns) <= max <==> ns < (max + 1) * SECOND
  {
  }

  lemma LiveIsLiveWithin(in_: GateInput, now: Instant)
    ensures AgentLive(in_, now) <==> LiveWithin(in_, now)
  {
    if in_.lastSeenAt.Some? {
      TruncatedSilence(now - in_.lastSeenAt.value, MaxStale(in_));
    }
  }

  /** Decide implements the policy; every refusal carries the one code that names its cause
    * and leaves a finding for review. */
  lemma DecideExactly(in_: GateInput, now: Instant)
    ensures var d := Decide(in_, now);
      && (d.allowed <==> Permitted(in_, now))
      && (d.allowed <==> d.code.None?)
      && (d.code == Some(AgentMissing) <==> !d.allowed && (!in_.hasAgent || in_.lastSeenAt.None?))
      && (d.code == Some(AgentStopped) <==> !d.allowed && in_.hasAgent && in_.lastSeenAt.Some? && in_.stoppedAt.Some?)
      && (d.code == Some(NotAttested) <==> !d.allowed && LiveWithin(in_, now))
      && (!d.allowed ==> exists f | f in d.findings :: f.weight >= 20)
      && (in_.exempt ==> d.exempt && d.allowed)
  {
    LiveIsLiveWithin(in_, now);
    var d := Decide(in_, now);
    if d.code == Some(NotAttested) {
      assert Finding(NoAttest, 20) in d.findings;
    } else if !d.allowed {
      assert Finding(NoAgentSubmit, 25) in d.findings;
    }
  }

  /** The client's own claim and every shell sighting pick the label, never the answer: a
    * forged marker can be believed or not, and the outcome is the same. */
  lemma ClaimNeverDecides(in_: GateInput, other: GateInput, now: Instant)
    requires other == in_.(claimsDesktop := other.claimsDesktop, shellAlive := other.shellAlive,
        shellSeenAt := other.shellSeenAt)
    ensures Decide(in_, now).allowed == Decide(other, now).allowed
    ensures Decide(in_, now).code == Decide(other, now).code
    ensures Decide(in_, now).mode == DesktopShell ==>
              in_.claimsDesktop && ShellPresent(in_, now) && LiveWithin(in_, now)
  {
    LiveIsLiveWithin(in_, now);
  }

  /** How a submission arrived: without a live agent, or with a grant, as web-only; from the desktop
    * client exactly if it says so and its shell is alive or was seen in the last twenty seconds. */
  lemma ModeExactly(in_: GateInput, now: Instant)
    ensures var d := Decide(in_, now);
            var live := !in_.grantWebOnly && LiveWithin(in_, now);
            var shell := in_.shellAlive || (in_.shellSeenAt.Some? && now <= in_.shellSeenAt.value + 20 * SECOND);
      && (d.mode == WebOnly <==> !live)
      && (d.mode == DesktopShell <==> live && in_.claimsDesktop && shell)
      && d.attested == in_.attestOK && d.exempt == in_.exempt
      && (in_.lastSeenAt.None? ==> d.secondsSincePing == 0)
      && (in_.lastSeenAt.Some? && now >= in_.lastSeenAt.value ==>
            d.secondsSincePing * SECOND <= now - in_.lastSeenAt.value < (d.secondsSincePing + 1) * SECOND)
  {
    LiveIsLiveWithin(in_, now);
  }

  /** Which findings a decision leaves, each once: an exemption, a grant, a refusal without a live agent,
    * a browser, a missing attestation, a silence of more than thirty seconds. */
  lemma FindingsExactly(in_: GateInput, now: Instant)
    ensures var d := Decide(in_, now);
            var live := !in_.exempt && !in_.grantWebOnly && LiveWithin(in_, now);
            var dark := !in_.exempt && !in_.grantWebOnly && !LiveWithin(in_, now);
            var ours := in_.incidentOpen && in_.hasAgent && in_.lastSeenAt.Some?;
            var desktop := in_.claimsDesktop
              && (in_.shellAlive || (in_.shellSeenAt.Some? && now <= in_.shellSeenAt.value + 20 * SECOND));
      d.findings ==
        (if in_.exempt then [Finding(Exempted, 15)] else [])
        + (if !in_.exempt && in_.grantWebOnly then [Finding(WebOnlyGrant, 15)] else [])
        + (if dark && !ours then [Finding(NoAgentSubmit, 25)] else [])
        + (if live && !desktop then [Finding(WebClient, 0)] else [])
        + (if live && !in_.attestOK then [Finding(NoAttest, 20)] else [])
        + (if live && (in_.attestOK || !in_.requireAttest) && now - in_.lastSeenAt.value >= 31 * SECOND
           then [Finding(PingGap, 10)] else [])
  {
    LiveIsLiveWithin(in_, now);
    if in_.lastSeenAt.Some? {
      TruncatedSilence(now - in_.lastSeenAt.value, 30);
    }
  }

  /** A submission is allowed without a trace exactly when it came from the desktop client, attested,
    * beside an agent heard within 30 seconds, or when the outage was ours. */
  lemma CleanExactly(in_: GateInput, now: Instant)
    ensures var d := Decide(in_, now);
      d.allowed && d.findings == [] <==>
        && !in_.exempt && !in_.grantWebOnly && in_.hasAgent && in_.lastSeenAt.Some?
        && (if LiveWithin(in_, now)
            then in_.claimsDesktop && ShellPresent(in_, now) && in_.attestOK && now - in_.lastSeenAt.value < 31 * SECOND
            else in_.incidentOpen)
  {
    LiveIsLiveWithin(in_, now);
    if in_.lastSeenAt.Some? {
      TruncatedSilence(now - in_.lastSeenAt.value, 30);
    }
  }

  // ---- Reading the stored state ----

  datatype UserRow = UserRow(exempt: bool, exemptUntil: Option<Instant>, allowWebOnly: bool,
      accessUntil: Option<Instant>)
  datatype Shell = Shell(alive: bool, seenAt: Option<Instant>)
  datatype GateState = GateState(
    exempt: bool, hasAgent: bool, lastSeenAt: Option<Instant>, stoppedAt: Option<Instant>,
    shell: Shell, incidentOpen: bool, grantWebOnly: bool)

  predicate NotExpired(until: Option<Instant>, now: Instant) { until.None? || until.value > now }

  /** LEFT JOIN proctor_agents a ON a.user_id = u.id AND a.revoked_at IS NULL */
  ghost function LiveRow(agents: map<AgentId, AgentRow>, user: UserId): Option<AgentRow> {
    if i :| i in agents && agents[i].user == user && Live(agents[i]) then Some(agents[i]) else None
  }

  lemma LiveRowIs(agents: map<AgentId, AgentRow>, id: AgentId)
    requires OneLivePerUser(agents) && id in agents && Live(agents[id])
    ensures LiveRow(agents, agents[id].user) == Some(agents[id])
  {
  }

  ghost function LoadGateState(t: Tables, u: UserRow, shell: Shell, user: UserId, now: Instant): GateState {
    var a := LiveRow(t.agents, user);
    GateState(
      u.exempt && NotExpired(u.exemptUntil, now),
      a.Some?,
      if a.Some? then a.value.lastSeenAt else None,
      if a.Some? then a.value.stoppedAt else None,
      shell,
      IncidentIsOpen(t.incidents),
      u.allowWebOnly && NotExpired(u.accessUntil, now))
  }

  /** The live levers: the contest-wide floor under every grant, the attestation lever, the threshold. */
  datatype Levers = Levers(webOnlyFloor: bool, requireAttest: bool, maxStaleSeconds: int)

  /** The threshold in force: a lever that is not positive means the built-in one. */
  function Threshold(levers: Levers): int {
    if levers.maxStaleSeconds <= 0 then GATE_MAX_STALE_SECONDS else levers.maxStaleSeconds
  }

  function CheckInput(s: GateState, levers: Levers, attestOK: bool, claimsDesktop: bool): GateInput {
    GateInput(s.exempt, s.hasAgent, s.lastSeenAt, s.stoppedAt, s.shell.alive, s.shell.seenAt, attestOK,
              levers.requireAttest, s.incidentOpen, claimsDesktop, levers.webOnlyFloor || s.grantWebOnly,
                  levers.maxStaleSeconds)
  }

  function StatusInput(s: GateState, levers: Levers, claimsDesktop: bool): GateInput {
    CheckInput(s, levers.(requireAttest := false), true, claimsDesktop)
  }

  /** What the portal is told agrees with what a submission will meet, but for attestation,
    * whichever windows the two questions come from. */
  lemma StatusForetellsCheck(s: GateState, levers: Levers, attestOK: bool, claim: bool, polledClaim: bool, now: Instant)
    ensures var check := Decide(CheckInput(s, levers, attestOK, claim), now);
            var status := Decide(StatusInput(s, levers, polledClaim), now);
      && (check.allowed ==> status.allowed)
      && (status.allowed && !check.allowed <==> check.code == Some(NotAttested))
      && (!status.allowed ==> check.code == status.code)
      && status.attested && status.code != Some(NotAttested)
  {
    LiveIsLiveWithin(CheckInput(s, levers, attestOK, claim), now);
    LiveIsLiveWithin(StatusInput(s, levers, polledClaim), now);
  }

  // ---- The answer from the stored columns ----

  /** What lets a contestant in whatever their agent does: an exemption or a web-only grant of their own,
    * untimed or before its expiry, or the contest-wide floor. */
  predicate Excused(u: UserRow, levers: Levers, now: Instant) {
    || levers.webOnlyFloor
    || (u.exempt && (u.exemptUntil == None || now < u.exemptUntil.value))
    || (u.allowWebOnly && (u.accessUntil == None || now < u.accessUntil.value))
  }

  /** This is the user's live enrolment, and it has reported. */
  predicate ReportsFor(t: Tables, i: AgentId, user: UserId) {
    i in t.agents && t.agents[i].user == user && t.agents[i].revokedAt == None && t.agents[i].lastSeenAt.Some?
  }

  /** What that enrolment is worth at the gate. Within the threshold and a second, and not stopped, it
    * lets its contestant in if attested or attestation is not required; otherwise, or if it does not
    * count, only an open incident does. */
  predicate Admits(t: Tables, i: AgentId, counts: bool, levers: Levers, attestOK: bool, now: Instant)
    requires i in t.agents && t.agents[i].lastSeenAt.Some?
  {
    var threshold := if levers.maxStaleSeconds <= 0 then 20 else levers.maxStaleSeconds;
    if counts && t.agents[i].stoppedAt == None && now - t.agents[i].lastSeenAt.value < (threshold + 1) * SECOND
    then attestOK || !levers.requireAttest
    else exists k | k in t.incidents :: k.endedAt == None
  }

  /** The gate's answer from the rows alone: an excused contestant is in, and any other needs a live
    * enrolment that has reported and admits them. */
  lemma GateFromTables(t: Tables, u: UserRow, shell: Shell, user: UserId, levers: Levers,
                       attestOK: bool, claim: bool, now: Instant)
    requires OneLivePerUser(t.agents)
    ensures Decide(CheckInput(LoadGateState(t, u, shell, user, now), levers, attestOK, claim), now).allowed <==>
              || Excused(u, levers, now)
              || exists i: AgentId {:trigger ReportsFor(t, i, user)} ::
                   ReportsFor(t, i, user) && Admits(t, i, true, levers, attestOK, now)
  {
    var state := LoadGateState(t, u, shell, user, now);
    var row := LoadedRow(t, u, shell, user, now);
    DecideExactly(CheckInput(state, levers, attestOK, claim), now);
    if row.Some? && t.agents[row.value].lastSeenAt.Some? {
      assert ReportsFor(t, row.value, user);
    }
    forall i: AgentId | ReportsFor(t, i, user)
      ensures row == Some(i)
    {
      LiveRowIs(t.agents, i);
    }
  }

  /** A submission counts as the desktop client's, from the rows and the request alone: no grant stands, a
    * live enrolment reports within the threshold and a second, and its claim is backed by a shell on
    * that machine, alive or seen in the last twenty seconds. */
  lemma ModeFromTables(t: Tables, u: UserRow, shell: Shell, user: UserId, levers: Levers,
                       attestOK: bool, claim: bool, now: Instant)
    requires OneLivePerUser(t.agents)
    ensures var d := Decide(CheckInput(LoadGateState(t, u, shell, user, now), levers, attestOK, claim), now);
            var granted := levers.webOnlyFloor
              || (u.allowWebOnly && (u.accessUntil == None || now < u.accessUntil.value));
            var threshold := if levers.maxStaleSeconds <= 0 then 20 else levers.maxStaleSeconds;
      && d.attested == attestOK
      && (d.mode == DesktopShell <==>
            && !granted && claim && (shell.alive || (shell.seenAt.Some? && now <= shell.seenAt.value + 20 * SECOND))
            && exists i: AgentId {:trigger ReportsFor(t, i, user)} ::
                 ReportsFor(t, i, user) && t.agents[i].stoppedAt == None
                 && now - t.agents[i].lastSeenAt.value < (threshold + 1) * SECOND)
  {
    var row := LoadedRow(t, u, shell, user, now);
    ModeExactly(CheckInput(LoadGateState(t, u, shell, user, now), levers, attestOK, claim), now);
    if row.Some? && t.agents[row.value].lastSeenAt.Some? {
      assert ReportsFor(t, row.value, user);
    }
    forall i: AgentId | ReportsFor(t, i, user)
      ensures row == Some(i)
    {
      LiveRowIs(t.agents, i);
    }
  }

  /** A timed exemption and a timed grant let a contestant without any agent in at exactly the instants
    * before they expire. */
  lemma TimedExcuses(t: Tables, shell: Shell, user: UserId, levers: Levers, until: Instant, now: Instant)
    requires OneLivePerUser(t.agents) && !HasLive(t.agents, user) && !levers.webOnlyFloor
    ensures var exempt := UserRow(true, Some(until), false, None);
      Decide(CheckInput(LoadGateState(t, exempt, shell, user, now), levers, false, false), now).allowed <==> now < until
    ensures var granted := UserRow(false, None, true, Some(until));
      Decide(CheckInput(LoadGateState(t, granted, shell, user, now), levers, false, false), now).allowed <==>
          now < until
  {
    GateFromTables(t, UserRow(true, Some(until), false, None), shell, user, levers, false, false, now);
    GateFromTables(t, UserRow(false, None, true, Some(until)), shell, user, levers, false, false, now);
    forall i: AgentId
      ensures !ReportsFor(t, i, user)
    {
    }
  }

  // ---- Whole runs ----

  /** The user's stopped enrolment is lifted somewhere in the run. */
  ghost predicate Lifted(s: System, steps: seq<Step>, id: AgentId) {
    exists k :: 0 <= k < |steps| && Lifts(At(s, steps, k), steps[k], id)
  }

  /** The user's live enrolment is one made since s, and it has reported. */
  predicate Reenrolled(s: System, t: Tables, user: UserId) {
    exists j | j in t.agents ::
      j !in s.db.agents && t.agents[j].user == user && Live(t.agents[j]) && t.agents[j].lastSeenAt.Some?
  }

  /** A user's live enrolment is the one they had, or a later one: no older one comes back. */
  lemma LiveIsThisOrLater(s: System, steps: seq<Step>, id: AgentId, j: AgentId)
    requires Consistent(s.db) && id in s.db.agents && Live(s.db.agents[id])
    requires j in Run(s, steps).db.agents && Live(Run(s, steps).db.agents[j])
    requires Run(s, steps).db.agents[j].user == s.db.agents[id].user
    ensures j == id || j !in s.db.agents
  {
    if j in s.db.agents && j != id {
      AtEnd(s, steps);
      RowsStay(s, steps, j, 0, |steps|);
      StaysRevoked(s, steps, id, j);
      assert false;
    }
  }

  /** What the gate knows of the user is their live row, if they have one. */
  lemma LoadedRow(t: Tables, u: UserRow, shell: Shell, user: UserId, now: Instant) returns (row: Option<AgentId>)
    requires OneLivePerUser(t.agents)
    ensures var state := LoadGateState(t, u, shell, user, now);
      && (row.Some? <==> state.hasAgent)
      && (row.Some? ==> row.value in t.agents && Live(t.agents[row.value]) && t.agents[row.value].user == user
                        && state.lastSeenAt == t.agents[row.value].lastSeenAt
                        && state.stoppedAt == t.agents[row.value].stoppedAt)
  {
    if i :| i in t.agents && t.agents[i].user == user && Live(t.agents[i]) {
      LiveRowIs(t.agents, i);
      row := Some(i);
    } else {
      row := None;
    }
  }

  /** Once a contestant's enrolment is stopped, over every run: it counts at the gate again only after a
    * lifting step, and besides it only a later enrolment does. So without an excuse or an incident of
    * ours those are the only ways in, and until then the code says why. */
  lemma StoppedIsRefused(s: System, steps: seq<Step>, id: AgentId, u: UserRow, shell: Shell,
                         levers: Levers, attestOK: bool, claim: bool, now: Instant)
    requires Consistent(s.db) && IsStopped(s, id) && Live(s.db.agents[id])
    ensures var user := s.db.agents[id].user;
            var t := Run(s, steps).db;
            var d := Decide(CheckInput(LoadGateState(t, u, shell, user, now), levers, attestOK, claim), now);
            var lifted := Lifted(s, steps, id);
      && (d.allowed <==>
            || Excused(u, levers, now)
            || exists i: AgentId {:trigger ReportsFor(t, i, user)} ::
                 ReportsFor(t, i, user) && Admits(t, i, lifted || i !in s.db.agents, levers, attestOK, now))
      && (!d.allowed && !lifted && !Reenrolled(s, t, user) ==>
            d.code == Some(if exists i: AgentId :: ReportsFor(t, i, user)
                           then AgentStopped else AgentMissing))
  {
    var user, t := s.db.agents[id].user, Run(s, steps).db;
    RunConsistent(s, steps);
    GateFromTables(t, u, shell, user, levers, attestOK, claim, now);
    forall i: AgentId | ReportsFor(t, i, user)
      ensures i == id || i !in s.db.agents
      ensures i == id && !Lifted(s, steps, id) ==> t.agents[i].stoppedAt.Some?
    {
      LiveIsThisOrLater(s, steps, id, i);
      if !Lifted(s, steps, id) {
        StopHolds(s, steps, id);
      }
    }
    if !Lifted(s, steps, id) && !Reenrolled(s, t, user) {
      RefusalCode(s, steps, id, u, shell, levers, attestOK, claim, now);
    }
  }

  lemma RefusalCode(s: System, steps: seq<Step>, id: AgentId, u: UserRow, shell: Shell,
                    levers: Levers, attestOK: bool, claim: bool, now: Instant)
    requires Consistent(s.db) && IsStopped(s, id) && Live(s.db.agents[id])
    requires !Lifted(s, steps, id) && !Reenrolled(s, Run(s, steps).db, s.db.agents[id].user)
    ensures var user := s.db.agents[id].user;
            var t := Run(s, steps).db;
            var d := Decide(CheckInput(LoadGateState(t, u, shell, user, now), levers, attestOK, claim), now);
      !d.allowed ==> d.code == Some(if exists i: AgentId :: ReportsFor(t, i, user)
                                    then AgentStopped else AgentMissing)
  {
    var user, t := s.db.agents[id].user, Run(s, steps).db;
    RunConsistent(s, steps);
    var row := LoadedRow(t, u, shell, user, now);
    if row.Some? {
      LiveIsThisOrLater(s, steps, id, row.value);
      StopHolds(s, steps, id);
      if t.agents[row.value].lastSeenAt.Some? {
        assert ReportsFor(t, row.value, user);
      }
    }
    forall i: AgentId | ReportsFor(t, i, user)
      ensures row == Some(i)
    {
      LiveRowIs(t.agents, i);
    }
    DecideExactly(CheckInput(LoadGateState(t, u, shell, user, now), levers, attestOK, claim), now);
  }

  /** A contestant enrols anew and sends one heartbeat. */
  function Reenrolment(user: UserId, machine: string, newId: AgentId, req: RequestId, hb: Heartbeat,
                       at: Instant, written: Instant, keepalive: int): seq<Step> {
    [Enroll(user, machine, newId, at), Read(req, newId, hb), Write(req, written, keepalive)]
  }

  lemma ReenrolmentRun(s: System, id: AgentId, machine: string, newId: AgentId, req: RequestId, hb: Heartbeat,
                       at: Instant, written: Instant, keepalive: int)
    requires Consistent(s.db) && IsStopped(s, id)
    requires newId !in s.db.agents && req !in s.inflight && !hb.buffered
    ensures var user := s.db.agents[id].user;
            var steps := Reenrolment(user, machine, newId, req, hb, at, written, keepalive);
            var agents := Run(s, steps).db.agents;
      && !Lifted(s, steps, id)
      && newId in agents && agents[newId].user == user && Live(agents[newId])
      && agents[newId].lastSeenAt == Some(written) && agents[newId].stoppedAt.None?
  {
    var steps := Reenrolment(s.db.agents[id].user, machine, newId, req, hb, at, written, keepalive);
    ReadyToWrite(s, id, machine, newId, req, hb, at, written, keepalive);
    AtEnd(s, steps);
    AtStep(s, steps, 2);
    FirstWrite(At(s, steps, 2), newId, req, hb, written, keepalive);
  }

  /** The first two steps leave the new enrolment blank, its heartbeat in flight, and nothing lifted. */
  lemma ReadyToWrite(s: System, id: AgentId, machine: string, newId: AgentId, req: RequestId, hb: Heartbeat,
                     at: Instant, written: Instant, keepalive: int)
    requires Consistent(s.db) && IsStopped(s, id)
    requires newId !in s.db.agents && req !in s.inflight
    ensures var user := s.db.agents[id].user;
            var steps := Reenrolment(user, machine, newId, req, hb, at, written, keepalive);
            var u := At(s, steps, 2);
      && !Lifted(s, steps, id)
      && newId in u.db.agents && u.db.agents[newId] == FreshRow(user, machine, at)
      && req in u.inflight && u.inflight[req] == Request(newId, FreshRow(user, machine, at), hb)
  {
    var user := s.db.agents[id].user;
    var steps := Reenrolment(user, machine, newId, req, hb, at, written, keepalive);
    AtEnd(s, steps);
    AtStep(s, steps, 0);
    AtStep(s, steps, 1);
    EnrollStep(s, user, machine, newId, at);
  }

  lemma EnrollStep(s: System, user: UserId, machine: string, newId: AgentId, at: Instant)
    requires newId !in s.db.agents
    ensures var t := Next(s, Enroll(user, machine, newId, at));
      newId in t.db.agents && t.db.agents[newId] == FreshRow(user, machine, at) && t.inflight == s.inflight
  {
  }

  lemma FirstWrite(s: System, newId: AgentId, req: RequestId, hb: Heartbeat, written: Instant, keepalive: int)
    requires newId in s.db.agents && s.db.agents[newId].bootId.None? && !hb.buffered
    requires req in s.inflight && s.inflight[req] == Request(newId, s.db.agents[newId], hb)
    ensures var row := s.db.agents[newId]; var t := Next(s, Write(req, written, keepalive)).db;
      && newId in t.agents && t.agents[newId].user == row.user && t.agents[newId].revokedAt == row.revokedAt
      && t.agents[newId].lastSeenAt == Some(written) && t.agents[newId].stoppedAt.None?
  {
  }

  /** Enrolling anew does let a stopped contestant back in, on the same machine and in the same boot:
    * nothing lifts the stop, and the gate admits on the first heartbeat of the new enrolment. */
  lemma ReenrolmentAdmits(s: System, id: AgentId, machine: string, newId: AgentId, req: RequestId, hb: Heartbeat,
                          at: Instant, written: Instant, keepalive: int,
                          u: UserRow, shell: Shell, levers: Levers, attestOK: bool, claim: bool, now: Instant)
    requires Consistent(s.db) && IsStopped(s, id)
    requires newId !in s.db.agents && req !in s.inflight && !hb.buffered && (attestOK || !levers.requireAttest)
    requires now - written < (Threshold(levers) + 1) * SECOND
    ensures var user := s.db.agents[id].user;
            var steps := Reenrolment(user, machine, newId, req, hb, at, written, keepalive);
            var state := LoadGateState(Run(s, steps).db, u, shell, user, now);
      && !Lifted(s, steps, id)
      && Decide(CheckInput(state, levers, attestOK, claim), now).allowed
  {
    var user := s.db.agents[id].user;
    var steps := Reenrolment(user, machine, newId, req, hb, at, written, keepalive);
    ReenrolmentRun(s, id, machine, newId, req, hb, at, written, keepalive);
    RunConsistent(s, steps);
    LiveRowIs(Run(s, steps).db.agents, newId);
    DecideExactly(CheckInput(LoadGateState(Run(s, steps).db, u, shell, user, now), levers, attestOK, claim), now);
  }

  /** A stream of replayed or buffered heartbeats cannot keep a silent agent admitted: once the
    * threshold and a second have passed since its last true contact the gate refuses its contestant, on
    * schedule, unless they have enrolled anew and reported. */
  lemma ReplaysDoNotKeepGateOpen(s: System, steps: seq<Step>, id: AgentId, u: UserRow, shell: Shell,
                                 levers: Levers, attestOK: bool, claim: bool, now: Instant)
    requires Consistent(s.db) && id in s.db.agents && Live(s.db.agents[id]) && s.db.agents[id].lastSeenAt.Some?
    requires forall k | 0 <= k < |steps| :: Replayed(At(s, steps, k), steps[k], id)
    requires now >= s.db.agents[id].lastSeenAt.value + (Threshold(levers) + 1) * SECOND
    ensures var user := s.db.agents[id].user;
            var t := Run(s, steps).db;
      Decide(CheckInput(LoadGateState(t, u, shell, user, now), levers, attestOK, claim), now).allowed <==>
        || Excused(u, levers, now)
        || exists i: AgentId {:trigger ReportsFor(t, i, user)} ::
             ReportsFor(t, i, user) && Admits(t, i, i !in s.db.agents, levers, attestOK, now)
  {
    var user, t := s.db.agents[id].user, Run(s, steps).db;
    RunConsistent(s, steps);
    ReplaysAreNotContact(s, steps, id);
    GateFromTables(t, u, shell, user, levers, attestOK, claim, now);
    forall i: AgentId | ReportsFor(t, i, user)
      ensures i == id || i !in s.db.agents
      ensures i == id ==> now - t.agents[i].lastSeenAt.value >= (Threshold(levers) + 1) * SECOND
    {
      LiveIsThisOrLater(s, steps, id, i);
    }
  }

  /** The sweep counts exact nanoseconds and the gate whole seconds, so on one threshold the
    * sweep calls an agent dark up to one second before the gate refuses it, and never after. */
  lemma SweepLeadsGate(a: AgentRow, state: GateState, levers: Levers, attestOK: bool, claim: bool, now: Instant)
    requires Watched(a) && a.lastSeenAt.Some?
    requires state.hasAgent && state.lastSeenAt == a.lastSeenAt && state.stoppedAt == a.stoppedAt
    ensures var live := AgentLive(CheckInput(state, levers, attestOK, claim), now);
            var silence := now - a.lastSeenAt.value;
      && (!live ==> Dark(a, now, Threshold(levers)))
      && (live && Dark(a, now, Threshold(levers)) <==>
            Threshold(levers) * SECOND < silence < (Threshold(levers) + 1) * SECOND)
  {
    LiveIsLiveWithin(CheckInput(state, levers, attestOK, claim), now);
  }
}
