/** The proctor-agent protocol as a transition system.
  *
  * A live heartbeat is two steps, because the server takes no lock between them: a read
  * (token lookup) and a later guarded write.  Any other step may fall between the two.
  */
module AgentProtocol {
  import opened Wrappers
  import opened Sequences
  import opened AgentTables

  type RequestId = nat

  // ---- Service.Heartbeat ----

  datatype Integrity = Integrity(newBoot: bool, cleanRestart: bool, seqReplay: bool, clockSkewMs: int)

  /** time.Duration.Milliseconds truncates toward zero. */
  function Millis(ns: int): int {
    if ns >= 0 then ns / 1_000_000 else -(-ns / 1_000_000)
  }

  function ClockOffset(hb: Heartbeat, now: Instant): int {
    match hb.wallTs
    case None => 0
    case Some(wall) => Millis(wall - now)
  }

  function ClockSkew(a: AgentRow, hb: Heartbeat, now: Instant): int {
    if hb.buffered || hb.wallTs.None? || a.clockOffsetMs.None? then 0
    else
      var delta := ClockOffset(hb, now) - a.clockOffsetMs.value;
      if delta > CLOCK_SKEW_TOLERANCE_MS || delta < -CLOCK_SKEW_TOLERANCE_MS then delta else 0
  }

  function Classify(a: AgentRow, hb: Heartbeat, now: Instant): Integrity {
    var sameBoot := a.bootId == Some(hb.bootId);
    var newBoot := !sameBoot && a.bootId.Some?;
    Integrity(newBoot, newBoot && a.stoppedAt.Some?, sameBoot && hb.seqNo > 0 && hb.seqNo <= a.seqNo,
        ClockSkew(a, hb, now))
  }

  const DEFAULT_KEEPALIVE: int := 5 * 60 * SECOND

  function SignalsChanged(a: AgentRow, hb: Heartbeat): bool {
    hb.signalHash == "" || hb.signalHash != a.signalHash
  }

  function WritesEvent(a: AgentRow, hb: Heartbeat, now: Instant, keepaliveSeconds: int): bool {
    var keepalive := if keepaliveSeconds * SECOND <= 0 then DEFAULT_KEEPALIVE else keepaliveSeconds * SECOND;
    || SignalsChanged(a, hb)
    || a.lastEventAt.None? || now - a.lastEventAt.value >= keepalive
    || Classify(a, hb, now).newBoot
  }

  function LiveEvent(a: AgentRow, hb: Heartbeat, now: Instant): Event {
    Event(a.user, hb.bootId, hb.seqNo,
          if Classify(a, hb, now).newBoot then Boot else if SignalsChanged(a, hb) then SignalChange else Keepalive,
          now)
  }

  function BufferedEvent(a: AgentRow, hb: Heartbeat, now: Instant): Event {
    Event(a.user, hb.bootId, hb.seqNo, Backfill, hb.wallTs.GetOr(now))
  }

  /** True when the snapshot read at the start of the request lets the write be attempted. */
  predicate Attempts(snapshot: AgentRow, hb: Heartbeat, now: Instant) {
    !hb.buffered && !Classify(snapshot, hb, now).seqReplay
  }

  /** True when the attempted write also passes the guard on the row as it is by then. */
  predicate Accepts(snapshot: AgentRow, current: AgentRow, hb: Heartbeat, now: Instant) {
    Attempts(snapshot, hb, now) && HeartbeatGuard(current, hb)
  }

  function EventsOf(snapshot: AgentRow, hb: Heartbeat, now: Instant, keepaliveSeconds: int): seq<Event> {
    if hb.buffered then [BufferedEvent(snapshot, hb, now)]
    else if Attempts(snapshot, hb, now) && WritesEvent(snapshot, hb, now, keepaliveSeconds)
        then [LiveEvent(snapshot, hb, now)]
    else []
  }

  /** Everything Heartbeat does to the tables once the token has been looked up. */
  function HeartbeatTables(t: Tables, id: AgentId, snapshot: AgentRow, hb: Heartbeat, now: Instant,
      keepaliveSeconds: int): Tables {
    var logged := t.(events := t.events + EventsOf(snapshot, hb, now, keepaliveSeconds));
    if id in t.agents && Attempts(snapshot, hb, now) then
      logged.(agents := t.agents[id := RecordStmt(t.agents[id], hb, ClockOffset(hb, now),
          WritesEvent(snapshot, hb, now, keepaliveSeconds), now)])
    else
      logged
  }

  // ---- Steps and runs ----

  datatype Request = Request(agent: AgentId, snapshot: AgentRow, hb: Heartbeat)

  datatype System = System(db: Tables, inflight: map<RequestId, Request>)

  const INITIAL := System(EMPTY, map[])

  datatype Step =
    | Enroll(user: UserId, machine: string, id: AgentId, at: Instant)
    | Read(req: RequestId, agent: AgentId, hb: Heartbeat)
    | Write(req: RequestId, at: Instant, keepaliveSeconds: int)
    | Flush(agent: AgentId, hbs: seq<Heartbeat>, at: Instant)
    | Shutdown(agent: AgentId, at: Instant)
    | Revoke(agent: AgentId, at: Instant)
    | Unrevoke(user: UserId)
    | Sweep(at: Instant, staleSeconds: int)

  function FlushTables(t: Tables, id: AgentId, snapshot: AgentRow, hbs: seq<Heartbeat>, now: Instant): Tables
    decreases |hbs|
  {
    if hbs == [] then t
    else FlushTables(HeartbeatTables(t, id, snapshot, hbs[0].(buffered := true), now, 0), id, snapshot, hbs[1..], now)
  }

  function Next(s: System, step: Step): System {
    match step
    case Enroll(user, machine, id, at) =>
      if id in s.db.agents then s  // gen_random_uuid never repeats an id
      else s.(db := s.db.(agents := EnrollStmt(s.db.agents, user, machine, id, at)))
    case Read(req, agent, hb) =>
      if agent in s.db.agents && Live(s.db.agents[agent]) && req !in s.inflight
      then s.(inflight := s.inflight[req := Request(agent, s.db.agents[agent], hb)])
      else s
    case Write(req, at, keepaliveSeconds) =>
      if req in s.inflight then
        var r := s.inflight[req];
        System(HeartbeatTables(s.db, r.agent, r.snapshot, r.hb, at, keepaliveSeconds), s.inflight - {req})
      else s
    case Flush(agent, hbs, at) =>
      if agent in s.db.agents then s.(db := FlushTables(s.db, agent, s.db.agents[agent], hbs, at)) else s
    case Shutdown(agent, at) =>
      if agent in s.db.agents
      then s.(db := s.db.(agents := s.db.agents[agent := StopStmt(s.db.agents[agent], at)]))
      else s
    case Revoke(agent, at) =>
      if agent in s.db.agents
      then s.(db := s.db.(agents := s.db.agents[agent := RevokeStmt(s.db.agents[agent], at)]))
      else s
    case Unrevoke(user) => s.(db := s.db.(agents := UnrevokeStmt(s.db.agents, user)))
    case Sweep(at, staleSeconds) => s.(db := SweepTables(s.db, at, staleSeconds))
  }

  function Run(s: System, steps: seq<Step>): System {
    if steps == [] then s else Next(Run(s, Front(steps)), Last(steps))
  }

  /** The state a run is in after its first k steps. */
  function At(s: System, steps: seq<Step>, k: nat): System
    requires k <= |steps|
  {
    Run(s, steps[..k])
  }

  lemma AtStep(s: System, steps: seq<Step>, k: nat)
    requires k < |steps|
    ensures At(s, steps, k + 1) == Next(At(s, steps, k), steps[k])
  {
    assert Front(steps[..k + 1]) == steps[..k];
  }

  lemma AtEnd(s: System, steps: seq<Step>)
    ensures At(s, steps, |steps|) == Run(s, steps) && At(s, steps, 0) == s
  {
    assert steps[..|steps|] == steps;
  }

  // ---- The invariants of every run ----

  lemma {:induction false} FlushKeepsRows(t: Tables, id: AgentId, snapshot: AgentRow, hbs: seq<Heartbeat>, now: Instant)
    ensures var r := FlushTables(t, id, snapshot, hbs, now);
      r.agents == t.agents && r.gaps == t.gaps && r.incidents == t.incidents
      && |r.events| == |t.events| + |hbs| && r.events[..|t.events|] == t.events
      && forall k | 0 <= k < |hbs| ::
           r.events[|t.events| + k] ==
           Event(snapshot.user, hbs[k].bootId, hbs[k].seqNo, Backfill,
               match hbs[k].wallTs case Some(wall) => wall case None => now)
    decreases |hbs|
  {
    if hbs != [] {
      var u := HeartbeatTables(t, id, snapshot, hbs[0].(buffered := true), now, 0);
      FlushKeepsRows(u, id, snapshot, hbs[1..], now);
      var r := FlushTables(t, id, snapshot, hbs, now);
      assert u.events == t.events + [BufferedEvent(snapshot, hbs[0], now)];
      forall k | 0 <= k < |hbs|
        ensures r.events[|t.events| + k] ==
                Event(snapshot.user, hbs[k].bootId, hbs[k].seqNo, Backfill, hbs[k].wallTs.GetOr(now))
      {
        if k == 0 {
          assert r.events[|t.events|] == r.events[..|u.events|][|t.events|];
        } else {
          assert r.events[|u.events| + (k - 1)] ==
                 Event(snapshot.user, hbs[1..][k - 1].bootId, hbs[1..][k - 1].seqNo, Backfill,
                     hbs[1..][k - 1].wallTs.GetOr(now));
        }
      }
      assert r.events[..|t.events|] == r.events[..|u.events|][..|t.events|];
    }
  }

  lemma NextConsistent(s: System, step: Step)
    requires Consistent(s.db)
    ensures Consistent(Next(s, step).db)
    ensures forall g | g in s.db.gaps && g.endedAt.Some? :: g in Next(s, step).db.gaps
  {
    match step {
      case Flush(agent, hbs, at) =>
        if agent in s.db.agents {
          FlushKeepsRows(s.db, agent, s.db.agents[agent], hbs, at);
        }
      case Sweep(at, staleSeconds) => SweepSettles(s.db, at, staleSeconds);
      case _ =>
    }
  }

  /** Whatever the interleaving: one live enrolment and one open gap per user, one open
    * incident, and a blackout once closed stays on the record. */
  lemma {:induction false} RunConsistent(s: System, steps: seq<Step>)
    requires Consistent(s.db)
    ensures Consistent(Run(s, steps).db)
    ensures forall g | g in s.db.gaps && g.endedAt.Some? :: g in Run(s, steps).db.gaps
  {
    if steps != [] {
      RunConsistent(s, Front(steps));
      NextConsistent(Run(s, Front(steps)), Last(steps));
    }
  }

  /** In every reachable state, one more sweep settles every contestant. */
  lemma EverySweepSettles(steps: seq<Step>, at: Instant, staleSeconds: int)
    ensures var t := Run(INITIAL, steps).db;
            var r := Run(INITIAL, steps + [Sweep(at, staleSeconds)]).db;
      && Consistent(r)
      && (if FleetWide(t.agents, at, staleSeconds) then IncidentSettled(t, r, at)
          else GapsSettled(t, r, at, staleSeconds))
      && RecordKept(t, r, at)
      && NothingInvented(t, r, at, staleSeconds)
  {
    RunConsistent(INITIAL, steps);
    var more := steps + [Sweep(at, staleSeconds)];
    assert Front(more) == steps && Last(more) == Sweep(at, staleSeconds);
    SweepSettles(Run(INITIAL, steps).db, at, staleSeconds);
  }

  // ---- One enrolment's view of a run ----

  datatype RowEvent =
    | Beat(hb: Heartbeat, offsetMs: int, eventWritten: bool, at: Instant)
    | Stopped(at: Instant)
    | Revoked(at: Instant)
    | Cleared

  function RowApply(a: AgentRow, e: RowEvent): AgentRow {
    match e
    case Beat(hb, offsetMs, eventWritten, at) => RecordStmt(a, hb, offsetMs, eventWritten, at)
    case Stopped(at) => StopStmt(a, at)
    case Revoked(at) => RevokeStmt(a, at)
    case Cleared => ClearStmt(a)
  }

  function RowFold(a: AgentRow, es: seq<RowEvent>): AgentRow {
    if es == [] then a else RowApply(RowFold(a, Front(es)), Last(es))
  }

  /** What one step does to the row of one enrolment. */
  function StepEvents(s: System, step: Step, id: AgentId): seq<RowEvent>
    requires id in s.db.agents
  {
    match step
    case Enroll(user, _, newId, at) =>
      if newId !in s.db.agents && s.db.agents[id].user == user then [Revoked(at)] else []
    case Write(req, at, keepaliveSeconds) =>
      if req in s.inflight && s.inflight[req].agent == id
          && Attempts(s.inflight[req].snapshot, s.inflight[req].hb, at) then
        var r := s.inflight[req];
        [Beat(r.hb, ClockOffset(r.hb, at), WritesEvent(r.snapshot, r.hb, at, keepaliveSeconds), at)]
      else []
    case Shutdown(agent, at) => if agent == id then [Stopped(at)] else []
    case Revoke(agent, at) => if agent == id then [Revoked(at)] else []
    case Unrevoke(user) =>
      if s.db.agents[id].user == user && !UnrevokeAborts(s.db.agents, user) then [Cleared] else []
    case _ => []
  }

  lemma StepProjects(s: System, step: Step, id: AgentId)
    requires id in s.db.agents
    ensures id in Next(s, step).db.agents
    ensures Next(s, step).db.agents[id] == RowFold(s.db.agents[id], StepEvents(s, step, id))
  {
    var a := s.db.agents[id];
    var es := StepEvents(s, step, id);
    assert |es| <= 1;
    if |es| == 1 {
      assert Front(es) == [];
      assert RowFold(a, es) == RowApply(a, es[0]);
    }
    match step {
      case Flush(agent, hbs, at) =>
        if agent in s.db.agents {
          FlushKeepsRows(s.db, agent, s.db.agents[agent], hbs, at);
        }
      case _ =>
    }
  }

  /** The events of a run that reach one enrolment's row. */
  function Project(s: System, steps: seq<Step>, id: AgentId): (es: seq<RowEvent>)
    requires id in s.db.agents
    ensures id in Run(s, steps).db.agents && Run(s, steps).db.agents[id] == RowFold(s.db.agents[id], es)
  {
    if steps == [] then []
    else
      var before := Project(s, Front(steps), id);
      StepProjects(Run(s, Front(steps)), Last(steps), id);
      RowFoldAppend(s.db.agents[id], before, StepEvents(Run(s, Front(steps)), Last(steps), id));
      before + StepEvents(Run(s, Front(steps)), Last(steps), id)
  }

  lemma {:induction false} RowFoldAppend(a: AgentRow, es: seq<RowEvent>, fs: seq<RowEvent>)
    ensures RowFold(a, es + fs) == RowFold(RowFold(a, es), fs)
  {
    if fs == [] {
      assert es + fs == es;
    } else {
      RowFoldAppend(a, es, Front(fs));
      assert Front(es + fs) == es + Front(fs) && Last(es + fs) == Last(fs);
    }
  }

  /** Rows are never deleted, and never change hands. */
  lemma RowStays(s: System, step: Step, id: AgentId)
    requires id in s.db.agents
    ensures id in Next(s, step).db.agents && Next(s, step).db.agents[id].user == s.db.agents[id].user
  {
    StepProjects(s, step, id);
    var es := StepEvents(s, step, id);
    if |es| == 1 {
      assert Front(es) == [];
      assert RowFold(s.db.agents[id], es) == RowApply(s.db.agents[id], es[0]);
    }
  }

  lemma {:induction false} RowsStay(s: System, steps: seq<Step>, id: AgentId, i: nat, j: nat)
    requires i <= j <= |steps| && id in At(s, steps, i).db.agents
    ensures id in At(s, steps, j).db.agents
    ensures At(s, steps, j).db.agents[id].user == At(s, steps, i).db.agents[id].user
    decreases j
  {
    if i < j {
      RowsStay(s, steps, id, i, j - 1);
      AtStep(s, steps, j - 1);
      RowStays(At(s, steps, j - 1), steps[j - 1], id);
    }
  }

  // ---- Restoring access ----

  lemma EnrolledTwiceForGood(s: System, steps: seq<Step>, user: UserId)
    requires EnrolledTwice(s.db.agents, user)
    ensures EnrolledTwice(Run(s, steps).db.agents, user)
  {
    var i, j :| i in s.db.agents && j in s.db.agents && i != j
                && s.db.agents[i].user == user && s.db.agents[j].user == user;
    AtEnd(s, steps);
    RowsStay(s, steps, i, 0, |steps|);
    RowsStay(s, steps, j, 0, |steps|);
  }

  /** Once a user has enrolled twice, restoring their access changes nothing, in any later state. */
  lemma RestoreInVain(s: System, steps: seq<Step>, user: UserId)
    requires Consistent(s.db) && EnrolledTwice(s.db.agents, user)
    ensures Next(Run(s, steps), Unrevoke(user)) == Run(s, steps)
  {
    RunConsistent(s, steps);
    EnrolledTwiceForGood(s, steps, user);
    RestoreAbortsExactly(Run(s, steps).db.agents, user);
  }

  /** A contestant who enrols twice, is revoked and is then restored has no live enrolment, whatever
    * state they started from. */
  lemma RestoreLeavesNothing(s: System, user: UserId, machine: string, a: AgentId, b: AgentId, at: Instant)
    requires Consistent(s.db) && a !in s.db.agents && b !in s.db.agents && a != b
    ensures var revoked := Next(Next(Next(s, Enroll(user, machine, a, at)), Enroll(user, machine, b, at)),
        Revoke(b, at));
      Next(revoked, Unrevoke(user)) == revoked && !HasLive(revoked.db.agents, user)
  {
    var once := Next(s, Enroll(user, machine, a, at));
    var twice := Next(once, Enroll(user, machine, b, at));
    var revoked := Next(twice, Revoke(b, at));
    NextConsistent(s, Enroll(user, machine, a, at));
    NextConsistent(once, Enroll(user, machine, b, at));
    NextConsistent(twice, Revoke(b, at));
    RowStays(once, Enroll(user, machine, b, at), a);
    RowStays(twice, Revoke(b, at), a);
    assert revoked.db.agents[a].user == user && revoked.db.agents[b].user == user;
    RestoreInVain(revoked, [], user);
  }

  /** An enrolment superseded while the user has another one is never live again. */
  lemma {:induction false} StaysRevoked(s: System, steps: seq<Step>, id: AgentId, old_: AgentId)
    requires Consistent(s.db) && id in s.db.agents && old_ in s.db.agents && id != old_
    requires s.db.agents[id].user == s.db.agents[old_].user && !Live(s.db.agents[old_])
    ensures old_ in Run(s, steps).db.agents && !Live(Run(s, steps).db.agents[old_])
  {
    if steps != [] {
      StaysRevoked(s, Front(steps), id, old_);
      EnrolledTwiceForGood(s, Front(steps), s.db.agents[old_].user);
      RowsStay(s, Front(steps), old_, 0, |Front(steps)|);
      AtEnd(s, Front(steps));
      RunConsistent(s, Front(steps));
      RevokedStep(Run(s, Front(steps)), Last(steps), old_);
    }
  }

  lemma RevokedStep(s: System, step: Step, id: AgentId)
    requires OneLivePerUser(s.db.agents) && id in s.db.agents && !Live(s.db.agents[id])
    requires EnrolledTwice(s.db.agents, s.db.agents[id].user)
    ensures id in Next(s, step).db.agents && !Live(Next(s, step).db.agents[id])
  {
    RestoreAbortsExactly(s.db.agents, s.db.agents[id].user);
    StepProjects(s, step, id);
    var es := StepEvents(s, step, id);
    if |es| == 1 {
      assert Front(es) == [];
      assert RowFold(s.db.agents[id], es) == RowApply(s.db.agents[id], es[0]);
    }
  }

  // ---- The stop lock ----

  /** The steps that may lift a stop: a heartbeat of another boot that reaches its write,
    * or an organizer restoring the contestant's access. */
  predicate Lifts(s: System, step: Step, id: AgentId) {
    id in s.db.agents &&
    match step
    case Write(req, at, _) =>
      && req in s.inflight && s.inflight[req].agent == id
      && Attempts(s.inflight[req].snapshot, s.inflight[req].hb, at)
      && s.db.agents[id].bootId != Some(s.inflight[req].hb.bootId)
    case Unrevoke(user) => s.db.agents[id].user == user && !UnrevokeAborts(s.db.agents, user)
    case _ => false
  }

  /** A stopped row is frozen: only when it was stopped and revoked may change. */
  predicate FrozenSince(a: AgentRow, b: AgentRow) {
    b.stoppedAt.Some? && b == a.(stoppedAt := b.stoppedAt, revokedAt := b.revokedAt)
  }

  lemma StopStep(s: System, step: Step, id: AgentId)
    requires id in s.db.agents && s.db.agents[id].stoppedAt.Some?
    ensures id in Next(s, step).db.agents
    ensures Next(s, step).db.agents[id].stoppedAt.Some? <==> !Lifts(s, step, id)
    ensures !Lifts(s, step, id) ==> FrozenSince(s.db.agents[id], Next(s, step).db.agents[id])
  {
    StepProjects(s, step, id);
    var a := s.db.agents[id];
    var es := StepEvents(s, step, id);
    if |es| == 1 {
      assert Front(es) == [];
      assert RowFold(a, es) == RowApply(a, es[0]);
    }
  }

  predicate IsStopped(s: System, id: AgentId) {
    id in s.db.agents && s.db.agents[id].stoppedAt.Some?
  }

  lemma {:induction false} StopHolds(s: System, steps: seq<Step>, id: AgentId)
    requires IsStopped(s, id)
    requires forall k | 0 <= k < |steps| :: !Lifts(At(s, steps, k), steps[k], id)
    ensures IsStopped(Run(s, steps), id) && FrozenSince(s.db.agents[id], Run(s, steps).db.agents[id])
  {
    if steps != [] {
      var before := Front(steps);
      forall k | 0 <= k < |before|
        ensures !Lifts(At(s, before, k), before[k], id)
      {
        assert before[..k] == steps[..k];
        assert At(s, before, k) == At(s, steps, k);
      }
      StopHolds(s, before, id);
      assert steps[..|before|] == before;
      assert At(s, steps, |before|) == Run(s, before);
      StopStep(Run(s, before), Last(steps), id);
    }
  }

  /** Under every interleaving, including heartbeats read before the stop and written after
    * it, a stopped enrolment is stopped throughout a run exactly when the run takes no lifting
    * step; until then nothing the gate reads of it changes. */
  lemma StopHoldsExactly(s: System, steps: seq<Step>, id: AgentId)
    requires IsStopped(s, id)
    ensures (forall k | 0 <= k <= |steps| :: IsStopped(At(s, steps, k), id)) <==>
            (forall k | 0 <= k < |steps| :: !Lifts(At(s, steps, k), steps[k], id))
    ensures forall k | 0 <= k <= |steps| && (forall j | 0 <= j < k :: !Lifts(At(s, steps, j), steps[j], id)) ::
              IsStopped(At(s, steps, k), id) && FrozenSince(s.db.agents[id], At(s, steps, k).db.agents[id])
  {
    forall k | 0 <= k <= |steps| && (forall j | 0 <= j < k :: !Lifts(At(s, steps, j), steps[j], id))
      ensures IsStopped(At(s, steps, k), id) && FrozenSince(s.db.agents[id], At(s, steps, k).db.agents[id])
    {
      var before := steps[..k];
      forall j | 0 <= j < |before|
        ensures !Lifts(At(s, before, j), before[j], id)
      {
        assert before[..j] == steps[..j];
        assert At(s, before, j) == At(s, steps, j);
      }
      StopHolds(s, before, id);
    }
    if forall k | 0 <= k <= |steps| :: IsStopped(At(s, steps, k), id) {
      forall k | 0 <= k < |steps|
        ensures !Lifts(At(s, steps, k), steps[k], id)
      {
        AtStep(s, steps, k);
        StopStep(At(s, steps, k), steps[k], id);
        assert IsStopped(At(s, steps, k + 1), id);
      }
    }
  }

  // ---- The sequence number ----

  lemma SeqStep(s: System, step: Step, id: AgentId)
    requires id in s.db.agents
    ensures id in Next(s, step).db.agents
    ensures var a := s.db.agents[id]; var b := Next(s, step).db.agents[id];
      a.bootId == b.bootId ==> a.seqNo <= b.seqNo
  {
    StepProjects(s, step, id);
    var es := StepEvents(s, step, id);
    if |es| == 1 {
      assert Front(es) == [];
      assert RowFold(s.db.agents[id], es) == RowApply(s.db.agents[id], es[0]);
    }
  }

  /** The stored boot is the same in every state from step i to step j. */
  ghost predicate BootKept(s: System, steps: seq<Step>, id: AgentId, i: nat, j: nat)
    requires i <= j <= |steps|
  {
    forall k | i <= k <= j :: id in At(s, steps, k).db.agents && id in At(s, steps, i).db.agents
                             && At(s, steps, k).db.agents[id].bootId == At(s, steps, i).db.agents[id].bootId
  }

  /** However reads and writes interleave, the sequence never goes back within a boot. */
  lemma {:induction false} SeqNeverDecreases(s: System, steps: seq<Step>, id: AgentId, i: nat, j: nat)
    requires i <= j <= |steps| && BootKept(s, steps, id, i, j)
    ensures At(s, steps, i).db.agents[id].seqNo <= At(s, steps, j).db.agents[id].seqNo
    decreases j - i
  {
    if i < j {
      assert BootKept(s, steps, id, i, j - 1);
      SeqNeverDecreases(s, steps, id, i, j - 1);
      AtStep(s, steps, j - 1);
      SeqStep(At(s, steps, j - 1), steps[j - 1], id);
    }
  }

  /** Step k writes a heartbeat of this enrolment and the write is accepted. */
  predicate AcceptedWrite(s: System, step: Step, id: AgentId) {
    && step.Write? && step.req in s.inflight && s.inflight[step.req].agent == id && id in s.db.agents
    && Accepts(s.inflight[step.req].snapshot, s.db.agents[id], s.inflight[step.req].hb, step.at)
  }

  function Written(s: System, step: Step): Heartbeat
    requires step.Write? && step.req in s.inflight
  {
    s.inflight[step.req].hb
  }

  lemma AcceptedAdvances(s: System, step: Step, id: AgentId)
    requires AcceptedWrite(s, step, id)
    ensures id in Next(s, step).db.agents
    ensures Next(s, step).db.agents[id].bootId == Some(Written(s, step).bootId)
    ensures Next(s, step).db.agents[id].seqNo >= Written(s, step).seqNo
  {
  }

  /** The stored sequence already covers this heartbeat's number. */
  predicate Covers(a: AgentRow, hb: Heartbeat) {
    a.bootId == Some(hb.bootId) && hb.seqNo <= a.seqNo
  }

  /** Request req of the enrolment was read at step r and is still unwritten before step j. */
  ghost predicate InFlight(s: System, steps: seq<Step>, id: AgentId, req: RequestId, hb: Heartbeat, r: nat, j: nat) {
    && r < j <= |steps| && steps[r] == Read(req, id, hb)
    && id in At(s, steps, r).db.agents && Live(At(s, steps, r).db.agents[id]) && req !in At(s, steps, r).inflight
    && forall k | r < k < j :: !(steps[k].Write? && steps[k].req == req)
  }

  /** What the read saw is what the write will judge by. */
  lemma {:induction false} InFlightIs(s: System, steps: seq<Step>, id: AgentId, req: RequestId, hb: Heartbeat,
                                      r: nat, j: nat)
    requires InFlight(s, steps, id, req, hb, r, j)
    ensures req in At(s, steps, j).inflight
    ensures At(s, steps, j).inflight[req] == Request(id, At(s, steps, r).db.agents[id], hb)
    decreases j
  {
    AtStep(s, steps, j - 1);
    if r < j - 1 {
      InFlightIs(s, steps, id, req, hb, r, j - 1);
    }
  }

  /** Step k is a write that brings the stored sequence up to the heartbeat's number. */
  ghost predicate CoveredAt(s: System, steps: seq<Step>, id: AgentId, hb: Heartbeat, k: nat) {
    && k < |steps| && AcceptedWrite(At(s, steps, k), steps[k], id) && !Covers(At(s, steps, k).db.agents[id], hb)
    && id in At(s, steps, k + 1).db.agents && Covers(At(s, steps, k + 1).db.agents[id], hb)
  }

  lemma {:induction false} CoveredBetween(s: System, steps: seq<Step>, id: AgentId, hb: Heartbeat, r: nat, j: nat)
    returns (k: nat)
    requires r <= j <= |steps| && id in At(s, steps, r).db.agents && id in At(s, steps, j).db.agents
    requires !Covers(At(s, steps, r).db.agents[id], hb) && Covers(At(s, steps, j).db.agents[id], hb)
    ensures r <= k < j && CoveredAt(s, steps, id, hb, k)
    decreases j
  {
    k := j - 1;
    RowsStay(s, steps, id, r, k);
    AtStep(s, steps, k);
    if Covers(At(s, steps, k).db.agents[id], hb) {
      k := CoveredBetween(s, steps, id, hb, r, k);
    } else if !AcceptedWrite(At(s, steps, k), steps[k], id) {
      QuietStep(At(s, steps, k), steps[k], id);
      assert false;
    }
  }

  lemma StaysCovered(s: System, steps: seq<Step>, id: AgentId, hb: Heartbeat, i: nat, j: nat)
    requires i <= j <= |steps| && BootKept(s, steps, id, i, j) && Covers(At(s, steps, i).db.agents[id], hb)
    ensures Covers(At(s, steps, j).db.agents[id], hb)
  {
    SeqNeverDecreases(s, steps, id, i, j);
    assert At(s, steps, j).db.agents[id].bootId == At(s, steps, i).db.agents[id].bootId;
  }

  /** If the read comes after the write, no positive number is accepted twice within a boot:
    * accepted numbers strictly increase. */
  lemma AcceptedOnce(s: System, steps: seq<Step>, id: AgentId, req: RequestId, hb: Heartbeat, i: nat, r: nat, j: nat)
    requires i < r && j < |steps| && InFlight(s, steps, id, req, hb, r, j) && steps[j].Write? && steps[j].req == req
    requires AcceptedWrite(At(s, steps, i), steps[i], id) && AcceptedWrite(At(s, steps, j), steps[j], id)
    requires BootKept(s, steps, id, i + 1, r) && Written(At(s, steps, i), steps[i]).bootId == hb.bootId && hb.seqNo > 0
    ensures Written(At(s, steps, i), steps[i]).seqNo < hb.seqNo
  {
    InFlightIs(s, steps, id, req, hb, r, j);
    AcceptedAdvances(At(s, steps, i), steps[i], id);
    AtStep(s, steps, i);
    if hb.seqNo <= Written(At(s, steps, i), steps[i]).seqNo {
      StaysCovered(s, steps, id, hb, i + 1, r);
      assert false;
    }
  }

  /** Exactly when a number the row already covers is accepted again: the row is not stopped, and did
    * not cover the number when the request was read. So some other write must have covered it
    * between the request's read and its write; and while the boot stays the same, any such write will do. */
  lemma DeliveredAgainExactly(s: System, steps: seq<Step>, id: AgentId, req: RequestId, hb: Heartbeat, r: nat, j: nat)
    requires j < |steps| && InFlight(s, steps, id, req, hb, r, j) && steps[j].Write? && steps[j].req == req
    requires !hb.buffered && hb.seqNo > 0
    requires id in At(s, steps, j).db.agents && Covers(At(s, steps, j).db.agents[id], hb)
    ensures var accepted := AcceptedWrite(At(s, steps, j), steps[j], id);
            var unstopped := At(s, steps, j).db.agents[id].stoppedAt.None?;
      && (accepted <==> unstopped && !Covers(At(s, steps, r).db.agents[id], hb))
      && (accepted ==> exists k :: r < k < j && CoveredAt(s, steps, id, hb, k))
      && (BootKept(s, steps, id, r, j) ==>
            (accepted <==> unstopped && exists k :: r < k < j && CoveredAt(s, steps, id, hb, k)))
  {
    InFlightIs(s, steps, id, req, hb, r, j);
    if !Covers(At(s, steps, r).db.agents[id], hb) {
      var k := CoveredBetween(s, steps, id, hb, r, j);
      assert k != r;
    } else if BootKept(s, steps, id, r, j) {
      forall k | r < k < j
        ensures !CoveredAt(s, steps, id, hb, k)
      {
        assert BootKept(s, steps, id, r, k);
        StaysCovered(s, steps, id, hb, r, k);
      }
    }
  }

  /** It does happen: two copies of a heartbeat, both read before either is written, are both accepted. */
  lemma OverlapAcceptsTwice()
    ensures var hb := Heartbeat("boot", 5, None, "", "", false);
            var s := Run(INITIAL, [Enroll(0, "m", 0, 0), Read(0, 0, hb), Write(0, 1, 0)]);
            var copy := hb.(seqNo := 6);
            var t := Next(Next(s, Read(1, 0, copy)), Read(2, 0, copy));
      && AcceptedWrite(t, Write(1, 2, 0), 0)
      && AcceptedWrite(Next(t, Write(1, 2, 0)), Write(2, 2, 0), 0)
      && Covers(Next(t, Write(1, 2, 0)).db.agents[0], copy)
  {
    var hb := Heartbeat("boot", 5, None, "", "", false);
    var enroll := Enroll(0, "m", 0, 0);
    var steps := [enroll, Read(0, 0, hb), Write(0, 1, 0)];
    assert Front(steps) == [enroll, Read(0, 0, hb)] && Front(Front(steps)) == [enroll] && Front([enroll]) == [];
    assert Run(INITIAL, [enroll]) == Next(INITIAL, enroll);
    assert Run(INITIAL, Front(steps)) == Next(Next(INITIAL, enroll), Read(0, 0, hb));
    assert Run(INITIAL, steps) == Next(Next(Next(INITIAL, enroll), Read(0, 0, hb)), Write(0, 1, 0));
  }

  /** A write of a number the row covered when it was read, or of a buffered heartbeat. */
  predicate Replayed(s: System, step: Step, id: AgentId) {
    step.Write? && step.req in s.inflight && s.inflight[step.req].agent == id ==>
      var r := s.inflight[step.req];
      r.hb.buffered || (0 < r.hb.seqNo && Covers(r.snapshot, r.hb))
  }

  /** Replays, however many, never count as contact. */
  lemma {:induction false} ReplaysAreNotContact(s: System, steps: seq<Step>, id: AgentId)
    requires id in s.db.agents
    requires forall k | 0 <= k < |steps| :: Replayed(At(s, steps, k), steps[k], id)
    ensures id in Run(s, steps).db.agents
    ensures Run(s, steps).db.agents[id].lastSeenAt == s.db.agents[id].lastSeenAt
    ensures LastContact(Run(s, steps).db.agents[id]) == LastContact(s.db.agents[id])
  {
    if steps != [] {
      var before := Front(steps);
      forall k | 0 <= k < |before|
        ensures Replayed(At(s, before, k), before[k], id)
      {
        assert before[..k] == steps[..k];
        assert At(s, before, k) == At(s, steps, k);
      }
      ReplaysAreNotContact(s, before, id);
      assert steps[..|before|] == before;
      assert At(s, steps, |before|) == Run(s, before);
      ReplayIsNotContact(Run(s, before), Last(steps), id);
    }
  }

  lemma ReplayIsNotContact(s: System, step: Step, id: AgentId)
    requires id in s.db.agents && Replayed(s, step, id)
    ensures id in Next(s, step).db.agents
    ensures Next(s, step).db.agents[id].lastSeenAt == s.db.agents[id].lastSeenAt
    ensures LastContact(Next(s, step).db.agents[id]) == LastContact(s.db.agents[id])
  {
    StepProjects(s, step, id);
    var es := StepEvents(s, step, id);
    if |es| == 1 {
      assert Front(es) == [];
      assert RowFold(s.db.agents[id], es) == RowApply(s.db.agents[id], es[0]);
    }
  }

  // ---- The event log ----

  /** Everything a report leaves in the row. */
  predicate SameReport(a: AgentRow, b: AgentRow) {
    b == a.(stoppedAt := b.stoppedAt, revokedAt := b.revokedAt)
  }

  lemma QuietStep(s: System, step: Step, id: AgentId)
    requires id in s.db.agents && !AcceptedWrite(s, step, id)
    ensures id in Next(s, step).db.agents && SameReport(s.db.agents[id], Next(s, step).db.agents[id])
  {
    StepProjects(s, step, id);
    var es := StepEvents(s, step, id);
    if |es| == 1 {
      assert Front(es) == [];
      assert RowFold(s.db.agents[id], es) == RowApply(s.db.agents[id], es[0]);
    }
  }

  lemma {:induction false} QuietRun(s: System, steps: seq<Step>, id: AgentId, i: nat, j: nat)
    requires i <= j <= |steps| && id in At(s, steps, i).db.agents
    requires forall k | i <= k < j :: !AcceptedWrite(At(s, steps, k), steps[k], id)
    ensures id in At(s, steps, j).db.agents
    ensures SameReport(At(s, steps, i).db.agents[id], At(s, steps, j).db.agents[id])
    decreases j - i
  {
    if i < j {
      QuietRun(s, steps, id, i, j - 1);
      AtStep(s, steps, j - 1);
      QuietStep(At(s, steps, j - 1), steps[j - 1], id);
    }
  }

  /** What an accepted write leaves in the row. The stored number starts afresh with a new boot, and is
    * otherwise the larger of the two. */
  lemma ReportStored(s: System, step: Step, id: AgentId)
    requires AcceptedWrite(s, step, id)
    ensures id in Next(s, step).db.agents
    ensures var a, was, hb := Next(s, step).db.agents[id], s.db.agents[id], Written(s, step);
      && (was.bootId != Some(hb.bootId) ==> a.seqNo == hb.seqNo)
      && (was.bootId == Some(hb.bootId) ==> a.seqNo == if hb.seqNo < was.seqNo then was.seqNo else hb.seqNo)
    ensures var a := Next(s, step).db.agents[id];
            var logged := WritesEvent(s.inflight[step.req].snapshot, Written(s, step), step.at, step.keepaliveSeconds);
      && a.bootId == Some(Written(s, step).bootId) && a.signalHash == Written(s, step).signalHash
      && a.lastSeenAt == Some(step.at) && a.stoppedAt.None?
      && a.lastEventAt == (if logged then Some(step.at) else s.db.agents[id].lastEventAt)
      && (logged <==> |Next(s, step).db.events| == |s.db.events| + 1)
  {
  }

  /** The log misses nothing between two consecutive reports of an agent, however many other steps
    * fall between them, if the second was read after the first was written: a new boot or changed
    * signals get an event of their kind, and only repeated signals within the keepalive interval of
    * the last event get none. */
  lemma ChangesAreLogged(s: System, steps: seq<Step>, id: AgentId, i: nat, j: nat)
    requires i < j < |steps|
    requires AcceptedWrite(At(s, steps, i), steps[i], id) && AcceptedWrite(At(s, steps, j), steps[j], id)
    requires forall k | i < k < j :: !AcceptedWrite(At(s, steps, k), steps[k], id)
    requires SameReport(At(s, steps, j).db.agents[id], At(s, steps, j).inflight[steps[j].req].snapshot)
    ensures var u := At(s, steps, j);
            var was, is_ := Written(At(s, steps, i), steps[i]), Written(u, steps[j]);
            var events := At(s, steps, j + 1).db.events;
            var at, last := steps[j].at, u.db.agents[id].lastEventAt;
            var keepalive := if steps[j].keepaliveSeconds > 0 then steps[j].keepaliveSeconds * SECOND
                else 300 * SECOND;
      && (is_.bootId != was.bootId ==>
            events == u.db.events + [Event(u.db.agents[id].user, is_.bootId, is_.seqNo, Boot, at)])
      && (is_.bootId == was.bootId && (is_.signalHash == "" || is_.signalHash != was.signalHash) ==>
            events == u.db.events + [Event(u.db.agents[id].user, is_.bootId, is_.seqNo, SignalChange, at)])
      && (is_.bootId == was.bootId && is_.signalHash != "" && is_.signalHash == was.signalHash ==>
            events == u.db.events + if last.Some? && at - last.value < keepalive then []
                                    else [Event(u.db.agents[id].user, is_.bootId, is_.seqNo, Keepalive, at)])
  {
    ReportStored(At(s, steps, i), steps[i], id);
    AtStep(s, steps, i);
    QuietRun(s, steps, id, i + 1, j);
    AtStep(s, steps, j);
    ReportStored(At(s, steps, j), steps[j], id);
  }

  // ---- The attestation nonce ----

  /** The non-empty nonces recorded for the row, in order. */
  function NonceLog(a: AgentRow, es: seq<RowEvent>): seq<string> {
    if es == [] then []
    else
      var e := Last(es);
      NonceLog(a, Front(es)) +
      (if e.Beat? && HeartbeatGuard(RowFold(a, Front(es)), e.hb) && e.hb.attestNonce != "" then [e.hb.attestNonce]
          else [])
  }

  /** The log with consecutive repeats removed. */
  function Collapse(xs: seq<string>): seq<string> {
    if xs == [] then []
    else if |xs| > 1 && xs[|xs| - 2] == Last(xs) then Collapse(Front(xs))
    else Collapse(Front(xs)) + [Last(xs)]
  }

  function LastTwo(xs: seq<string>): set<string> {
    if |xs| == 0 then {} else if |xs| == 1 then {xs[0]} else {xs[|xs| - 1], xs[|xs| - 2]}
  }

  lemma {:induction false} CollapseLast(xs: seq<string>)
    requires xs != []
    ensures Collapse(xs) != [] && Last(Collapse(xs)) == Last(xs)
  {
    if |xs| > 1 && xs[|xs| - 2] == Last(xs) {
      CollapseLast(Front(xs));
    }
  }

  lemma CollapseAppend(xs: seq<string>, x: string)
    ensures Collapse(xs + [x]) == if xs != [] && Last(xs) == x then Collapse(xs) else Collapse(xs) + [x]
  {
    assert Front(xs + [x]) == xs;
  }

  /** The row's two columns are the last two entries of a history. */
  predicate Windows(r: AgentRow, h: seq<string>) {
    && r.attestNonce == (if |h| == 0 then "" else h[|h| - 1])
    && r.prevAttestNonce == (if |h| < 2 then "" else h[|h| - 2])
  }

  lemma NonceStep(r: AgentRow, log: seq<string>, e: RowEvent)
    requires Windows(r, Collapse(log)) && (forall k | 0 <= k < |log| :: log[k] != "")
    ensures Windows(RowApply(r, e), Collapse(
              if e.Beat? && HeartbeatGuard(r, e.hb) && e.hb.attestNonce != "" then log + [e.hb.attestNonce] else log))
  {
    if log != [] {
      CollapseLast(log);
    }
    if e.Beat? && HeartbeatGuard(r, e.hb) && e.hb.attestNonce != "" {
      CollapseAppend(log, e.hb.attestNonce);
    }
  }

  /** The two columns are always the last two entries of the full history. */
  lemma {:induction false} NonceWindow(a: AgentRow, es: seq<RowEvent>)
    requires a.attestNonce == "" && a.prevAttestNonce == ""
    ensures Windows(RowFold(a, es), Collapse(NonceLog(a, es)))
    ensures forall k | 0 <= k < |NonceLog(a, es)| :: NonceLog(a, es)[k] != ""
  {
    if es != [] {
      NonceWindow(a, Front(es));
      var log := NonceLog(a, Front(es));
      NonceStep(RowFold(a, Front(es)), log, Last(es));
      assert log + [] == log;
    }
  }

  /** From enrolment on, the server accepts a nonce exactly when it is one of the last two
    * distinct ones the live agent reported, whatever else the run contains. */
  lemma NonceAcceptedExactly(s: System, steps: seq<Step>, id: AgentId, nonce: string)
    requires Consistent(s.db) && id in s.db.agents
    requires s.db.agents[id].attestNonce == "" && s.db.agents[id].prevAttestNonce == ""
    requires id in Run(s, steps).db.agents && Live(Run(s, steps).db.agents[id])
    ensures NonceMatches(Run(s, steps).db.agents, Run(s, steps).db.agents[id].user, nonce) <==>
            nonce in LastTwo(Collapse(NonceLog(s.db.agents[id], Project(s, steps, id))))
  {
    RunConsistent(s, steps);
    var es := Project(s, steps, id);
    NonceWindow(s.db.agents[id], es);
    var log := NonceLog(s.db.agents[id], es);
    CollapseNonEmpty(log);
  }

  lemma {:induction false} CollapseNonEmpty(xs: seq<string>)
    requires forall k | 0 <= k < |xs| :: xs[k] != ""
    ensures forall k | 0 <= k < |Collapse(xs)| :: Collapse(xs)[k] != ""
  {
    if xs != [] {
      CollapseNonEmpty(Front(xs));
    }
  }
}
