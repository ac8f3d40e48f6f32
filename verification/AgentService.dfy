/** The repository and the service as the server runs them: fields updated statement by
  * statement, proved against the table transitions of AgentTables and AgentProtocol. */
module AgentService {
  import opened Wrappers
  import opened AgentTables
  import opened AgentProtocol

  datatype Error = UnknownAgent | EnrollmentRevoked

  class Repository {
    var agents: map<AgentId, AgentRow>
    var gaps: set<Gap>
    var incidents: set<Incident>
    var events: seq<Event>

    constructor ()
      ensures Contents() == EMPTY
    {
      agents, gaps, incidents, events := map[], {}, {}, [];
    }

    function Contents(): Tables
      reads this
    {
      Tables(agents, gaps, incidents, events)
    }

    /** id is the key gen_random_uuid hands out: never one already in the table. */
    method Enroll(user: UserId, machine: string, id: AgentId, now: Instant) returns (rebound: bool)
      requires id !in agents && OneLivePerUser(agents)
      modifies this
      ensures Contents() == old(Contents()).(agents := EnrollStmt(old(agents), user, machine, id, now))
      ensures OneLivePerUser(agents) && Live(agents[id])
      ensures rebound <==> exists i | i in old(agents) ::
          old(agents)[i].user == user && Live(old(agents)[i]) && old(agents)[i].machine != machine
    {
      rebound := false;
      if i :| i in agents && agents[i].user == user && Live(agents[i]) {
        var previous := agents[i].machine;
        agents := Supersede(agents, user, now);
        rebound := previous != machine;
      } else {
        NothingToSupersede(agents, user, now);
      }
      agents := agents[id := FreshRow(user, machine, now)];
    }

    /** The token lookup, the token standing for its row. */
    method GetByToken(id: AgentId) returns (found: Option<AgentRow>, err: Option<Error>)
      ensures found.Some? <==> id in agents && Live(agents[id])
      ensures found.Some? ==> found.value == agents[id] && err.None?
      ensures found.None? ==> err == Some(if id in agents then EnrollmentRevoked else UnknownAgent)
    {
      if id !in agents { return None, Some(UnknownAgent); }
      if agents[id].revokedAt.Some? { return None, Some(EnrollmentRevoked); }
      return Some(agents[id]), None;
    }

    method RecordHeartbeat(id: AgentId, hb: Heartbeat, clockOffsetMs: int, eventWritten: bool, now: Instant)
        returns (err: Option<Error>)
      modifies this`agents
      ensures err == None <==> id in old(agents) && HeartbeatGuard(old(agents)[id], hb)
      ensures err.Some? ==> agents == old(agents) && err == Some(UnknownAgent)
      ensures id in old(agents) ==> agents == old(agents)[id := RecordStmt(old(agents)[id], hb, clockOffsetMs,
          eventWritten, now)]
    {
      if id !in agents || !(agents[id].stoppedAt.None? || agents[id].bootId != Some(hb.bootId)) {
        return Some(UnknownAgent);
      }
      agents := agents[id := Recorded(agents[id], hb, clockOffsetMs, eventWritten, now)];
      return None;
    }

    method AppendEvent(e: Event)
      modifies this`events
      ensures events == old(events) + [e]
    {
      events := events + [e];
    }

    method MarkStopped(id: AgentId, now: Instant)
      modifies this`agents
      ensures agents == if id in old(agents) then old(agents)[id := StopStmt(old(agents)[id], now)] else old(agents)
      ensures id in agents ==> forall hb: Heartbeat :: HeartbeatGuard(agents[id], hb) <==>
          agents[id].bootId != Some(hb.bootId)
    {
      if id in agents { agents := agents[id := agents[id].(stoppedAt := Some(now))]; }
    }

    method Revoke(id: AgentId, now: Instant)
      modifies this`agents
      ensures agents == if id in old(agents) then old(agents)[id := RevokeStmt(old(agents)[id], now)] else old(agents)
      ensures id in agents ==> !Live(agents[id])
    {
      if id in agents && agents[id].revokedAt.None? { agents := agents[id := agents[id].(revokedAt := Some(now))]; }
    }

    method VerifyNonce(user: UserId, nonce: string) returns (ok: bool)
      ensures ok <==> NonceMatches(agents, user, nonce)
    {
      if nonce == "" { return false; }
      ok := exists i | i in agents ::
        && agents[i].user == user && agents[i].revokedAt.None?
        && nonce in [agents[i].attestNonce, agents[i].prevAttestNonce];
    }

    method FleetHealth(now: Instant, staleSeconds: int) returns (stale: nat, total: nat)
      ensures stale == |DarkIds(agents, now, staleSeconds)| && total == |WatchedIds(agents)|
      ensures stale <= total
    {
      var watched := set i | i in agents && agents[i].revokedAt.None? && agents[i].stoppedAt.None?;
      var dark := set i | i in watched && LastContact(agents[i]) < now - staleSeconds * SECOND;
      assert watched == WatchedIds(agents) && dark == DarkIds(agents, now, staleSeconds);
      SubsetSize(dark, watched);
      stale, total := |dark|, |watched|;
    }

    method OpenGaps(now: Instant, staleSeconds: int)
      modifies this`gaps
      ensures gaps == OpenGapsStmt(agents, old(gaps), now, staleSeconds)
      ensures forall u: UserId :: GapOpen(gaps, u) <==>
                || GapOpen(old(gaps), u)
                || exists i :: i in agents && agents[i].user == u && Dark(agents[i], now, staleSeconds)
      ensures forall g | g in old(gaps) :: g in gaps
    {
      forall u: UserId
        ensures GapOpen(OpenGapsStmt(agents, gaps, now, staleSeconds), u) <==>
                GapOpen(gaps, u) || exists i :: i in agents && agents[i].user == u && Dark(agents[i], now, staleSeconds)
      {
        OpenGapsOpens(agents, gaps, now, staleSeconds, u);
      }
      gaps := OpenGapsStmt(agents, gaps, now, staleSeconds);
    }

    method CloseGaps(now: Instant, staleSeconds: int)
      modifies this`gaps
      ensures gaps == CloseGapsStmt(agents, old(gaps), now, staleSeconds)
      ensures forall u: UserId :: GapOpen(gaps, u) <==>
                GapOpen(old(gaps), u) && !Accounted(agents, u, now, staleSeconds)
    {
      CloseGapsKeepsOne(agents, gaps, now, staleSeconds);
      gaps := CloseGapsStmt(agents, gaps, now, staleSeconds);
    }

    method DiscardGapsInIncident()
      modifies this`gaps
      ensures gaps == DiscardGapsStmt(old(gaps), incidents)
      ensures forall g | g in old(gaps) && g.endedAt.Some? :: g in gaps
      ensures !IncidentIsOpen(incidents) ==> gaps == old(gaps)
      ensures forall g, i | g in gaps && g.endedAt.None? && i in incidents && i.endedAt.None? ::
                g.startedAt < i.startedAt - INCIDENT_GRACE
    {
      gaps := set g | g in gaps && !InIncident(incidents, g);
    }

    method OpenIncident(affected: int, enrolled: int, now: Instant) returns (inserted: bool)
      modifies this`incidents
      ensures incidents == OpenIncidentStmt(old(incidents), affected, enrolled, now)
      ensures inserted <==> !IncidentIsOpen(old(incidents))
    {
      if exists i | i in incidents :: i.endedAt.None? { return false; }
      incidents := incidents + {Incident(now, None, affected, enrolled)};
      return true;
    }

    method CloseIncident(now: Instant) returns (closed: bool)
      modifies this`incidents
      ensures incidents == CloseIncidentStmt(old(incidents), now)
      ensures closed <==> IncidentIsOpen(old(incidents))
      ensures !IncidentIsOpen(incidents)
    {
      closed := exists i | i in incidents :: i.endedAt.None?;
      incidents := set i | i in incidents :: CloseIncidentRow(i, now);
    }
  }

  lemma SubsetSize<T>(a: set<T>, b: set<T>)
    requires a <= b
    ensures |a| <= |b|
  {
    assert b == a + (b - a);
  }

  class Service {
    const repo: Repository

    constructor (repo: Repository)
      ensures this.repo == repo
    {
      this.repo := repo;
    }

    /** The part of a heartbeat request that follows the token lookup; a is what the lookup
      * read, which the row may no longer be. */
    method Heartbeat(id: AgentId, a: AgentRow, hb: Heartbeat, now: Instant, keepaliveSeconds: int)
        returns (err: Option<Error>)
      modifies repo
      ensures repo.Contents() == HeartbeatTables(old(repo.Contents()), id, a, hb, now, keepaliveSeconds)
      ensures !hb.buffered ==> (err.None? <==> id in old(repo.agents) && Accepts(a, old(repo.agents)[id], hb, now))
      ensures hb.buffered || err.Some? ==> repo.agents == old(repo.agents)
    {
      if hb.buffered {
        Replay(a, hb, now);
        return None;
      }
      var integ := Classify(a, hb, now);
      if integ.seqReplay {
        return Some(UnknownAgent);
      }
      var signalsChanged := hb.signalHash == "" || hb.signalHash != a.signalHash;
      var keepalive := keepaliveSeconds * SECOND;
      if keepalive <= 0 { keepalive := DEFAULT_KEEPALIVE; }
      var keepaliveDue := a.lastEventAt.None? || now - a.lastEventAt.value >= keepalive;
      var writeEvent := signalsChanged || keepaliveDue || integ.newBoot;
      if writeEvent {
        var kind := Keepalive;
        if integ.newBoot { kind := Boot; } else if signalsChanged { kind := SignalChange; }
        repo.AppendEvent(Event(a.user, hb.bootId, hb.seqNo, kind, now));
      }
      err := repo.RecordHeartbeat(id, hb, ClockOffset(hb, now), writeEvent, now);
    }

    method Replay(a: AgentRow, hb: Heartbeat, now: Instant)
      modifies repo`events
      ensures repo.events == old(repo.events) + [BufferedEvent(a, hb, now)]
    {
      var observedAt := now;
      if hb.wallTs.Some? { observedAt := hb.wallTs.value; }
      repo.AppendEvent(Event(a.user, hb.bootId, hb.seqNo, Backfill, observedAt));
    }

    /** The flush of a reconnecting agent: every held heartbeat becomes one event at the wall
      * time it was observed, and no row moves. */
    method Flush(id: AgentId, a: AgentRow, hbs: seq<Heartbeat>, now: Instant) returns (accepted: nat)
      modifies repo
      ensures accepted == |hbs|
      ensures repo.Contents() == FlushTables(old(repo.Contents()), id, a, hbs, now)
      ensures repo.agents == old(repo.agents) && repo.gaps == old(repo.gaps) && repo.incidents == old(repo.incidents)
    {
      accepted := 0;
      ghost var before := repo.Contents();
      for k := 0 to |hbs|
        invariant accepted == k
        invariant FlushTables(before, id, a, hbs, now) == FlushTables(repo.Contents(), id, a, hbs[k..], now)
      {
        var err := Heartbeat(id, a, hbs[k].(buffered := true), now, 0);
        accepted := accepted + 1;
        assert hbs[k..][1..] == hbs[k + 1..];
      }
      FlushKeepsRows(before, id, a, hbs, now);
    }

    method Shutdown(id: AgentId, now: Instant)
      modifies repo
      ensures repo.Contents() == old(repo.Contents()).(agents :=
                if id in old(repo.agents) then old(repo.agents)[id := StopStmt(old(repo.agents)[id], now)]
                    else old(repo.agents))
    {
      repo.MarkStopped(id, now);
    }

    /** One tick of the sweeper. */
    method Sweep(now: Instant, staleSeconds: int)
      requires Consistent(repo.Contents())
      modifies repo
      ensures repo.Contents() == SweepTables(old(repo.Contents()), now, staleSeconds)
      ensures Consistent(repo.Contents())
      ensures if FleetWide(repo.agents, now, staleSeconds)
              then IncidentSettled(old(repo.Contents()), repo.Contents(), now)
              else GapsSettled(old(repo.Contents()), repo.Contents(), now, staleSeconds)
      ensures RecordKept(old(repo.Contents()), repo.Contents(), now)
    {
      SweepSettles(repo.Contents(), now, staleSeconds);
      var stale, total := repo.FleetHealth(now, staleSeconds);
      var fleetWide := total >= INCIDENT_MIN_FLEET && stale * INCIDENT_DENOMINATOR >= total * INCIDENT_NUMERATOR;
      if fleetWide {
        var _ := repo.OpenIncident(stale, total, now);
        repo.DiscardGapsInIncident();
        return;
      }
      var _ := repo.CloseIncident(now);
      repo.CloseGaps(now, staleSeconds);
      repo.OpenGaps(now, staleSeconds);
    }
  }
}
