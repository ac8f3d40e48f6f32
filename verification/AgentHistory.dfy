/** What the stored rows say about the past, column by column, over whole runs of the agent protocol:
  * when an enrolment was made and last heard from, which sequence numbers it has delivered, and when
  * a blackout on the record began. */
module AgentHistory {
  import opened Wrappers
  import opened Sequences
  import opened AgentTables
  import opened AgentProtocol

  // ---- Enrolment ----

  /** What an Enroll writes: a blank live row, and a revocation stamp on the user's live rows only. */
  lemma EnrollExactly(s: System, user: UserId, machine: string, id: AgentId, at: Instant)
    requires id !in s.db.agents
    ensures var t := Next(s, Enroll(user, machine, id, at)).db.agents;
      && t.Keys == s.db.agents.Keys + {id}
      && t[id] == AgentRow(user, machine, None, 0, "", None, None, "", "", at, None, None, None)
      && forall i | i in s.db.agents ::
           var a := s.db.agents[i];
           t[i] == if a.user == user && a.revokedAt.None? then a.(revokedAt := Some(at)) else a
  {
  }

  /** The columns an enrolment is made with never change. */
  predicate SameEnrolment(a: AgentRow, b: AgentRow) {
    a.user == b.user && a.machine == b.machine && a.enrolledAt == b.enrolledAt
  }

  lemma EnrolmentStep(s: System, step: Step, id: AgentId)
    requires id in s.db.agents
    ensures id in Next(s, step).db.agents && SameEnrolment(s.db.agents[id], Next(s, step).db.agents[id])
  {
    StepProjects(s, step, id);
    var es := StepEvents(s, step, id);
    if |es| == 1 {
      assert Front(es) == [];
      assert RowFold(s.db.agents[id], es) == RowApply(s.db.agents[id], es[0]);
    }
  }

  lemma {:induction false} EnrolmentKept(s: System, steps: seq<Step>, id: AgentId, i: nat, j: nat)
    requires i <= j <= |steps| && id in At(s, steps, i).db.agents
    ensures id in At(s, steps, j).db.agents
    ensures SameEnrolment(At(s, steps, i).db.agents[id], At(s, steps, j).db.agents[id])
    decreases j
  {
    if i < j {
      EnrolmentKept(s, steps, id, i, j - 1);
      AtStep(s, steps, j - 1);
      EnrolmentStep(At(s, steps, j - 1), steps[j - 1], id);
    }
  }

  /** Step e made this enrolment. */
  ghost predicate MadeAt(s: System, steps: seq<Step>, id: AgentId, e: nat) {
    e < |steps| && steps[e].Enroll? && steps[e].id == id && id !in At(s, steps, e).db.agents
  }

  lemma {:induction false} StaysAbsent(s: System, steps: seq<Step>, id: AgentId, i: nat, j: nat)
    requires i <= j <= |steps| && id !in At(s, steps, j).db.agents
    ensures id !in At(s, steps, i).db.agents
  {
    if id in At(s, steps, i).db.agents {
      EnrolmentKept(s, steps, id, i, j);
    }
  }

  // ---- Last contact ----

  ghost predicate AcceptedAt(s: System, steps: seq<Step>, id: AgentId, k: nat) {
    k < |steps| && AcceptedWrite(At(s, steps, k), steps[k], id)
  }

  lemma QuietSince(s: System, steps: seq<Step>, id: AgentId, i: nat, j: nat)
    requires i <= j <= |steps| && id in At(s, steps, i).db.agents
    requires forall k | i <= k < j :: !AcceptedAt(s, steps, id, k)
    ensures id in At(s, steps, j).db.agents
    ensures SameReport(At(s, steps, i).db.agents[id], At(s, steps, j).db.agents[id])
  {
    forall k | i <= k < j
      ensures !AcceptedWrite(At(s, steps, k), steps[k], id)
    {
      assert !AcceptedAt(s, steps, id, k);
    }
    QuietRun(s, steps, id, i, j);
  }

  /** Step k is the last heartbeat of the enrolment accepted before j. */
  ghost predicate LastAccepted(s: System, steps: seq<Step>, id: AgentId, k: nat, j: nat) {
    k < j && AcceptedAt(s, steps, id, k) && forall l | k < l < j :: !AcceptedAt(s, steps, id, l)
  }

  /** Over every run from an enrolment on, the row names the user and machine enrolled and the instant of
    * it, and was last seen at its last accepted heartbeat, or never. */
  lemma LastSeenIs(s: System, steps: seq<Step>, id: AgentId, e: nat, j: nat)
    requires e < j <= |steps| && MadeAt(s, steps, id, e)
    ensures id in At(s, steps, j).db.agents
    ensures var a := At(s, steps, j).db.agents[id];
      && a.user == steps[e].user && a.machine == steps[e].machine && a.enrolledAt == steps[e].at
      && (forall k | 0 <= k < j && LastAccepted(s, steps, id, k, j) :: e < k && a.lastSeenAt == Some(steps[k].at))
      && ((forall k | e < k < j :: !AcceptedAt(s, steps, id, k)) ==> a.lastSeenAt.None?)
  {
    AtStep(s, steps, e);
    EnrollExactly(At(s, steps, e), steps[e].user, steps[e].machine, id, steps[e].at);
    EnrolmentKept(s, steps, id, e + 1, j);
    forall k | 0 <= k < j && LastAccepted(s, steps, id, k, j)
      ensures e < k && At(s, steps, j).db.agents[id].lastSeenAt == Some(steps[k].at)
    {
      if k <= e {
        StaysAbsent(s, steps, id, k, e);
        assert false;
      }
      AtStep(s, steps, k);
      ReportStored(At(s, steps, k), steps[k], id);
      QuietSince(s, steps, id, k + 1, j);
    }
    if forall k | e < k < j :: !AcceptedAt(s, steps, id, k) {
      QuietSince(s, steps, id, e + 1, j);
    }
  }

  // ---- The record of blackouts ----

  /** Every gap a sweep opens, on the columns: its user's agent is live, unstopped and silent for more
    * than the threshold, and the blackout is dated back to when it was last seen, or else enrolled. */
  lemma OpenedGapSays(t: Tables, now: Instant, staleSeconds: int, g: Gap)
    requires g in SweepTables(t, now, staleSeconds).gaps && g !in t.gaps && g.endedAt.None?
    ensures g.agent in t.agents
    ensures var a := t.agents[g.agent];
      && a.user == g.user && a.revokedAt.None? && a.stoppedAt.None?
      && (match a.lastSeenAt case Some(seen) => g.startedAt == seen case None => g.startedAt == a.enrolledAt)
      && g.startedAt < now - staleSeconds * SECOND && g.createdAt == now
  {
  }

  /** Over every run: a blackout opened by a sweep began at the last heartbeat accepted from that
    * agent, or, if there was none, when it was enrolled. */
  lemma BlackoutStartsAtLastContact(s: System, steps: seq<Step>, e: nat, now: Instant, staleSeconds: int, g: Gap)
    requires MadeAt(s, steps, g.agent, e)
    requires g in SweepTables(Run(s, steps).db, now, staleSeconds).gaps && g !in Run(s, steps).db.gaps
        && g.endedAt.None?
    ensures g.user == steps[e].user
    ensures forall k | 0 <= k < |steps| && LastAccepted(s, steps, g.agent, k, |steps|) :: g.startedAt == steps[k].at
    ensures (forall k | e < k < |steps| :: !AcceptedAt(s, steps, g.agent, k)) ==> g.startedAt == steps[e].at
  {
    AtEnd(s, steps);
    LastSeenIs(s, steps, g.agent, e, |steps|);
    OpenedGapSays(Run(s, steps).db, now, staleSeconds, g);
  }

  // ---- The incident ----

  function Watching(agents: map<AgentId, AgentRow>): set<AgentId> {
    set i | i in agents && agents[i].revokedAt.None? && agents[i].stoppedAt.None?
  }

  /** Watched agents not seen, or else not enrolled, within the threshold. */
  function Silent(agents: map<AgentId, AgentRow>, now: Instant, staleSeconds: int): set<AgentId> {
    set i | i in Watching(agents) &&
            (match agents[i].lastSeenAt case Some(seen) => seen case None => agents[i].enrolledAt)
            < now - staleSeconds * SECOND
  }

  /** A sweep leaves an incident open exactly if at least ten agents are watched and at least three in
    * ten of them are silent; one that it opens is dated now and counts them. */
  lemma IncidentExactly(t: Tables, now: Instant, staleSeconds: int)
    ensures var r := SweepTables(t, now, staleSeconds).incidents;
            var silent, watched := |Silent(t.agents, now, staleSeconds)|, |Watching(t.agents)|;
      && ((exists i | i in r :: i.endedAt.None?) <==> watched >= 10 && 10 * silent >= 3 * watched)
      && (forall i | i in r && i !in t.incidents && i.endedAt.None? :: i == Incident(now, None, silent, watched))
      && (watched >= 10 && 10 * silent >= 3 * watched && (forall i | i in t.incidents :: i.endedAt.Some?) ==>
            r == t.incidents + {Incident(now, None, silent, watched)})
  {
    assert Watching(t.agents) == WatchedIds(t.agents);
    assert Silent(t.agents, now, staleSeconds) == DarkIds(t.agents, now, staleSeconds);
    var r := SweepTables(t, now, staleSeconds).incidents;
    if FleetWide(t.agents, now, staleSeconds) && forall i | i in t.incidents :: i.endedAt.Some? {
      assert Incident(now, None, |Silent(t.agents, now, staleSeconds)|, |Watching(t.agents)|) in r;
    }
  }

  /** The grace of an incident is a minute: a fleet-wide sweep keeps exactly the gaps that are closed or
    * began more than sixty seconds before the incident. */
  lemma DiscardExactly(t: Tables, now: Instant, staleSeconds: int, i: Incident)
    requires OneOpenIncident(t.incidents) && FleetWide(t.agents, now, staleSeconds)
    requires i in SweepTables(t, now, staleSeconds).incidents && i.endedAt.None?
    ensures SweepTables(t, now, staleSeconds).gaps ==
            set g | g in t.gaps && (g.endedAt.Some? || g.startedAt < i.startedAt - 60 * SECOND)
  {
  }

  // ---- Sequence numbers ----

  /** Step i is the write that brought in the boot the row has kept up to j. */
  ghost predicate BootSince(s: System, steps: seq<Step>, id: AgentId, i: nat, j: nat) {
    && i < j <= |steps| && AcceptedAt(s, steps, id, i)
    && At(s, steps, i).db.agents[id].bootId != Some(Written(At(s, steps, i), steps[i]).bootId)
    && BootKept(s, steps, id, i + 1, j)
  }

  /** The number a step delivers. */
  ghost function NumberAt(s: System, steps: seq<Step>, id: AgentId, k: nat): int
    requires AcceptedAt(s, steps, id, k)
  {
    Written(At(s, steps, k), steps[k]).seqNo
  }

  function StoredNumber(s: System, steps: seq<Step>, id: AgentId, k: nat): int {
    if k <= |steps| && id in At(s, steps, k).db.agents then At(s, steps, k).db.agents[id].seqNo else 0
  }

  /** The stored number is one of those accepted, and none is larger. */
  ghost predicate IsLargest(s: System, steps: seq<Step>, id: AgentId, i: nat, j: nat, top: nat) {
    && i <= top < j && AcceptedAt(s, steps, id, top) && NumberAt(s, steps, id, top) == StoredNumber(s, steps, id, j)
    && forall k | i <= k < j :: AtMost(s, steps, id, k, StoredNumber(s, steps, id, j))
  }

  /** Step k delivers no number above n. */
  ghost predicate AtMost(s: System, steps: seq<Step>, id: AgentId, k: nat, n: int) {
    AcceptedAt(s, steps, id, k) ==> NumberAt(s, steps, id, k) <= n
  }

  /** Over every run the stored number is the largest accepted since the stored boot was first written. */
  lemma LargestAccepted(s: System, steps: seq<Step>, id: AgentId, i: nat, j: nat) returns (top: nat)
    requires BootSince(s, steps, id, i, j)
    ensures id in At(s, steps, j).db.agents && IsLargest(s, steps, id, i, j, top)
  {
    FirstIsLargest(s, steps, id, i);
    forall k | i < k < j
      ensures Larger(s, steps, id, k)
    {
      SameBoot(s, steps, id, i, j, k);
      LargerStep(s, steps, id, k);
    }
    top := LargestUpTo(s, steps, id, i, j);
  }

  lemma {:induction false} LargestUpTo(s: System, steps: seq<Step>, id: AgentId, i: nat, j: nat) returns (top: nat)
    requires i < j && IsLargest(s, steps, id, i, i + 1, i) && forall k | i < k < j :: Larger(s, steps, id, k)
    ensures IsLargest(s, steps, id, i, j, top)
    decreases j
  {
    if j == i + 1 {
      top := i;
    } else {
      var before := LargestUpTo(s, steps, id, i, j - 1);
      top := LargestSoFar(s, steps, id, i, j - 1, before);
    }
  }

  lemma SameBoot(s: System, steps: seq<Step>, id: AgentId, i: nat, j: nat, k: nat)
    requires BootSince(s, steps, id, i, j) && i < k < j
    ensures id in At(s, steps, k).db.agents && id in At(s, steps, k + 1).db.agents
    ensures At(s, steps, k).db.agents[id].bootId == At(s, steps, k + 1).db.agents[id].bootId
  {
  }

  lemma FirstIsLargest(s: System, steps: seq<Step>, id: AgentId, i: nat)
    requires AcceptedAt(s, steps, id, i)
    requires At(s, steps, i).db.agents[id].bootId != Some(Written(At(s, steps, i), steps[i]).bootId)
    ensures IsLargest(s, steps, id, i, i + 1, i)
  {
    AtStep(s, steps, i);
    ReportStored(At(s, steps, i), steps[i], id);
    assert StoredNumber(s, steps, id, i + 1) == NumberAt(s, steps, id, i);
  }

  /** The number stored after one more step. */
  ghost predicate Larger(s: System, steps: seq<Step>, id: AgentId, k: nat) {
    StoredNumber(s, steps, id, k + 1) ==
      if AcceptedAt(s, steps, id, k) && NumberAt(s, steps, id, k) > StoredNumber(s, steps, id, k)
      then NumberAt(s, steps, id, k) else StoredNumber(s, steps, id, k)
  }

  lemma LargestSoFar(s: System, steps: seq<Step>, id: AgentId, i: nat, j: nat, top: nat) returns (next: nat)
    requires IsLargest(s, steps, id, i, j, top) && Larger(s, steps, id, j)
    ensures IsLargest(s, steps, id, i, j + 1, next)
  {
    next := if AcceptedAt(s, steps, id, j) && NumberAt(s, steps, id, j) > StoredNumber(s, steps, id, j) then j else top;
    var stored := StoredNumber(s, steps, id, j + 1);
    assert stored >= StoredNumber(s, steps, id, j);
    forall k | i <= k <= j
      ensures AtMost(s, steps, id, k, stored)
    {
      assert k < j ==> AtMost(s, steps, id, k, StoredNumber(s, steps, id, j));
    }
  }

  /** A step that keeps the boot stores the larger number. */
  lemma LargerStep(s: System, steps: seq<Step>, id: AgentId, k: nat)
    requires k < |steps| && id in At(s, steps, k).db.agents && id in At(s, steps, k + 1).db.agents
    requires At(s, steps, k).db.agents[id].bootId == At(s, steps, k + 1).db.agents[id].bootId
    ensures Larger(s, steps, id, k)
  {
    AtStep(s, steps, k);
    if AcceptedAt(s, steps, id, k) {
      ReportStored(At(s, steps, k), steps[k], id);
    } else {
      QuietStep(At(s, steps, k), steps[k], id);
    }
  }

  /** So a heartbeat of that boot, read after them, is refused as a replay exactly if its number is
    * positive and no larger than one already accepted: never while numbers rise, however high those
    * of an earlier boot were. */
  lemma ReplayExactly(s: System, steps: seq<Step>, id: AgentId, i: nat, r: nat, hb: Heartbeat, now: Instant)
    requires BootSince(s, steps, id, i, r) && hb.bootId == Written(At(s, steps, i), steps[i]).bootId && !hb.buffered
    ensures id in At(s, steps, r).db.agents
    ensures !Attempts(At(s, steps, r).db.agents[id], hb, now) <==>
              && hb.seqNo > 0
              && exists k :: i <= k < r && AcceptedAt(s, steps, id, k) && hb.seqNo <= NumberAt(s, steps, id, k)
  {
    var top := LargestAccepted(s, steps, id, i, r);
    AtStep(s, steps, i);
    ReportStored(At(s, steps, i), steps[i], id);
    assert At(s, steps, r).db.agents[id].bootId == Some(hb.bootId);
    assert StoredNumber(s, steps, id, r) == At(s, steps, r).db.agents[id].seqNo;
    forall k | i <= k < r && AcceptedAt(s, steps, id, k)
      ensures NumberAt(s, steps, id, k) <= StoredNumber(s, steps, id, r)
    {
      assert AtMost(s, steps, id, k, StoredNumber(s, steps, id, r));
    }
  }

  // ---- What a live heartbeat reveals ----

  /** The stored clock offset: milliseconds by which the agent's clock was ahead, truncated toward zero. */
  predicate OffsetOf(offset: int, hb: Heartbeat, at: Instant) {
    match hb.wallTs
    case None => offset == 0
    case Some(wall) =>
      if wall >= at then offset * 1_000_000 <= wall - at < (offset + 1) * 1_000_000
      else (offset - 1) * 1_000_000 < wall - at <= offset * 1_000_000
  }

  lemma OffsetStored(s: System, step: Step, id: AgentId)
    requires AcceptedWrite(s, step, id)
    ensures id in Next(s, step).db.agents
    ensures var offset := Next(s, step).db.agents[id].clockOffsetMs;
      offset.Some? && OffsetOf(offset.value, Written(s, step), step.at)
  {
  }

  /** Between two consecutive reports, over any run: a clock skew is reported exactly if the agent's
    * clock has moved by more than two minutes against the server's, and it is the movement. */
  lemma SkewExactly(s: System, steps: seq<Step>, id: AgentId, i: nat, j: nat, hb: Heartbeat, now: Instant)
    returns (was: int, is_: int)
    requires i < j <= |steps| && AcceptedAt(s, steps, id, i) && forall k | i < k < j :: !AcceptedAt(s, steps, id, k)
    requires !hb.buffered && hb.wallTs.Some?
    ensures id in At(s, steps, j).db.agents
    ensures OffsetOf(was, Written(At(s, steps, i), steps[i]), steps[i].at) && OffsetOf(is_, hb, now)
    ensures Classify(At(s, steps, j).db.agents[id], hb, now).clockSkewMs ==
            if -120_000 <= is_ - was <= 120_000 then 0 else is_ - was
  {
    AtStep(s, steps, i);
    OffsetStored(At(s, steps, i), steps[i], id);
    QuietSince(s, steps, id, i + 1, j);
    was, is_ := At(s, steps, i + 1).db.agents[id].clockOffsetMs.value, ClockOffset(hb, now);
  }

  /** Without a wall time, or before the first report, there is nothing to compare. */
  lemma NoSkewWithoutClock(a: AgentRow, hb: Heartbeat, now: Instant)
    requires hb.buffered || hb.wallTs.None? || a.clockOffsetMs.None?
    ensures Classify(a, hb, now).clockSkewMs == 0
  {
  }

  /** And a crash is recorded exactly if a boot other than the last reported one arrives without a stop. */
  lemma CrashExactly(s: System, steps: seq<Step>, id: AgentId, i: nat, j: nat, hb: Heartbeat, now: Instant)
    requires i < j <= |steps| && AcceptedAt(s, steps, id, i) && forall k | i < k < j :: !AcceptedAt(s, steps, id, k)
    ensures id in At(s, steps, j).db.agents
    ensures var integ := Classify(At(s, steps, j).db.agents[id], hb, now);
      && (integ.newBoot <==> hb.bootId != Written(At(s, steps, i), steps[i]).bootId)
      && (integ.newBoot && !integ.cleanRestart <==> integ.newBoot && !IsStopped(At(s, steps, j), id))
  {
    AtStep(s, steps, i);
    ReportStored(At(s, steps, i), steps[i], id);
    QuietSince(s, steps, id, i + 1, j);
  }
}
