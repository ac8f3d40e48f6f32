/** The repository's methods over the tables of JudgeQueue, each shown to be one step of that
  * machine: queries as scans, updates in place, scores recomputed pair by pair. */
module JudgeStore {
  import opened Wrappers
  import opened JudgeQueue
  import opened JudgeRows

  datatype Outcome = Done | RateLimited | ActiveExists | NotFound | NotActive | LeaseLost

  // ---- Recomputing several pairs, one at a time ----

  ghost function PairsOf(subs: Submissions, ids: set<SubmissionId>): set<Pair>
    requires ids <= subs.Keys
  {
    set i | i in ids :: PairOf(subs[i])
  }

  lemma RecomputeMore(subs: Submissions, scores: map<Pair, Score>, pairs: set<Pair>, pair: Pair)
    ensures Recompute(subs, RecomputeAll(subs, scores, pairs), pair) == RecomputeAll(subs, scores, pairs + {pair})
  {
  }

  lemma RecomputeNone(subs: Submissions, scores: map<Pair, Score>)
    ensures RecomputeAll(subs, scores, {}) == scores
  {
  }

  lemma RecomputeSingle(subs: Submissions, scores: map<Pair, Score>, pair: Pair)
    ensures RecomputeAll(subs, scores, {pair}) == Recompute(subs, scores, pair)
  {
  }

  // ---- Which queued submission is next ----

  /** The team's submissions still queued or running. */
  function Pending(subs: Submissions, team: TeamId): set<SubmissionId> {
    set i | i in subs && subs[i].team == team && Active(subs[i])
  }

  /** The claim query's sort key, less the current time: ten seconds' delay for every other pending
    * submission of the team. */
  function Rank(subs: Submissions, i: SubmissionId): int
    requires i in subs
  {
    (|Pending(subs, subs[i].team)| - 1) * 10 * SECOND + subs[i].createdAt
  }

  ghost predicate IsNext(subs: Submissions, i: SubmissionId) {
    && i in subs && subs[i].state == Queued
    && forall j | j in subs && subs[j].state == Queued :: Rank(subs, i) <= Rank(subs, j)
  }

  /** The next submission exactly: of two queued ones the later-created goes first only if it is less than
    * ten seconds later for each pending submission its team has fewer. */
  lemma NextInLineExactly(subs: Submissions, i: SubmissionId)
    requires i in subs
    ensures IsNext(subs, i) <==>
              && subs[i].state == Queued
              && forall j | j in subs && subs[j].state == Queued ::
                   subs[i].createdAt - subs[j].createdAt <=
                   10 * SECOND * (|InProgress(subs, subs[j].team)| - |InProgress(subs, subs[i].team)|)
  {
    forall team: TeamId
      ensures InProgress(subs, team) == Pending(subs, team)
    {
    }
  }

  function InProgress(subs: Submissions, team: TeamId): set<SubmissionId> {
    set i | i in subs && subs[i].team == team && (subs[i].state == Queued || subs[i].state == Running)
  }

  /** No overtaking beyond ten seconds for each further submission of one's own team: whatever is
    * claimed was created at most that long after any submission left waiting. */
  lemma OvertakingBound(subs: Submissions, claimed: SubmissionId, waiting: SubmissionId)
    requires IsNext(subs, claimed) && waiting in subs && subs[waiting].state == Queued
    ensures subs[claimed].createdAt <= subs[waiting].createdAt + (|Pending(subs, subs[waiting].team)| - 1) * 10 * SECOND
    ensures subs[claimed].team == subs[waiting].team ==> subs[claimed].createdAt <= subs[waiting].createdAt
  {
    assert claimed in Pending(subs, subs[claimed].team);
    assert Rank(subs, claimed) <= Rank(subs, waiting);
  }

  /** The reaper's two statements, requeue then fail, are one pass over the expired rows. */
  lemma ReapInTwo(subs: Submissions, now: Instant)
    ensures GivenUp(Requeued(subs, now), now) == UpdateWhere(subs, Reap(now))
    ensures ToFail(Requeued(subs, now), now) == ToFail(subs, now)
    ensures |ExpiredIds(subs, now)| == |ToRequeue(subs, now)| + |ToFail(subs, now)|
  {
    assert ExpiredIds(subs, now) == ToRequeue(subs, now) + ToFail(subs, now);
    assert ToRequeue(subs, now) !! ToFail(subs, now);
  }

  function ToRejudge(subs: Submissions, problem: ProblemId): set<SubmissionId> {
    set i | i in subs && subs[i].problem == problem && !Active(subs[i])
  }

  function ExpiredIds(subs: Submissions, now: Instant): set<SubmissionId> {
    set i | i in subs && Expired(subs[i], now)
  }

  /** The same on the columns: running, with the lease over. */
  function LapsedIds(subs: Submissions, now: Instant): set<SubmissionId> {
    set i | i in subs && Lapsed(subs[i], now)
  }

  function ToRequeue(subs: Submissions, now: Instant): set<SubmissionId> {
    set i | i in subs && Expired(subs[i], now) && subs[i].attempts < MAX_ATTEMPTS
  }

  function ToFail(subs: Submissions, now: Instant): set<SubmissionId> {
    set i | i in subs && Expired(subs[i], now) && subs[i].attempts >= MAX_ATTEMPTS
  }

  function Requeued(subs: Submissions, now: Instant): Submissions {
    map i | i in subs :: if i in ToRequeue(subs, now) then RequeueRow(subs[i]) else subs[i]
  }

  function GivenUp(subs: Submissions, now: Instant): Submissions {
    map i | i in subs :: if i in ToFail(subs, now) then FailRow(subs[i], now) else subs[i]
  }

  class Repository {
    var subs: Submissions
    var reviews: seq<Review>
    var scores: map<Pair, Score>
    ghost var claims: set<ClaimId>

    ghost function Contents(): Tables
      reads this
    {
      Tables(subs, reviews, scores, claims)
    }

    constructor ()
      ensures Contents() == EMPTY
    {
      subs, reviews, scores, claims := map[], [], map[], {};
    }

    /** id is the caller's fresh UUID. */
    method CreateSubmission(id: SubmissionId, team: TeamId, problem: ProblemId, user: UserId, now: Instant)
        returns (outcome: Outcome)
      requires id !in subs
      modifies this`subs
      ensures outcome == RateLimited <==>
                exists i | i in old(subs) :: old(subs)[i].team == team && now - old(subs)[i].createdAt < 3 * SECOND
      ensures outcome == ActiveExists <==> outcome != RateLimited && SlotTaken(old(subs), Pair(team, problem))
      ensures outcome in {RateLimited, ActiveExists, Done}
      ensures Contents() == if outcome == RateLimited then old(Contents())
          else Next(old(Contents()), Create(id, team, problem, user, now))
    {
      if exists i | i in subs :: subs[i].team == team && subs[i].createdAt > now - 3 * SECOND { return RateLimited; }
      var active := exists i | i in subs ::
        PairOf(subs[i]) == Pair(team, problem) && Active(subs[i]) && !subs[i].isRejudge;
      if active { return ActiveExists; }
      subs := subs[id := Submission(team, problem, user, now, Queued, 0, None, 0, None, None, false, Accepted)];
      return Done;
    }

    // ---- Scores ----

    /** SELECT ... ORDER BY score DESC, created_at ASC, id ASC LIMIT 1 */
    method SelectBest(pair: Pair) returns (best: Option<SubmissionId>)
      ensures best.Some? ==> IsBest(subs, pair, best.value)
      ensures best.None? ==> forall i :: !IsBest(subs, pair, i)
    {
      best := None;
      var rest := subs.Keys;
      while rest != {}
        invariant rest <= subs.Keys
        invariant best.Some? ==> best.value in subs && best.value !in rest && Counts(subs[best.value], pair)
        invariant best.Some? ==> forall j | j in subs && j !in rest && Counts(subs[j], pair) ::
            Before(subs, best.value, j)
        invariant best.None? ==> forall j | j in subs && j !in rest :: !Counts(subs[j], pair)
        decreases |rest|
      {
        var i :| i in rest;
        rest := rest - {i};
        if Counts(subs[i], pair) && (best.None? || Before(subs, i, best.value)) {
          best := Some(i);
        }
      }
    }

    method RecomputeProblemScore(pair: Pair)
      modifies this`scores
      ensures scores == Recompute(subs, old(scores), pair)
    {
      scores := scores - {pair};
      var best := SelectBest(pair);
      match best
      case None =>
      case Some(i) =>
        BestRowIs(subs, pair, i);
        scores := scores[pair := ScoreRow(subs, i)];
    }

    /** Recomputes every pair among the changed rows, in whatever order, each once. */
    method ReconcileSubmissionChanges(changed: set<SubmissionId>) returns (count: nat)
      requires changed <= subs.Keys
      modifies this`scores
      ensures count == |changed|
      ensures scores == RecomputeAll(subs, old(scores), PairsOf(subs, changed))
    {
      var pairs: set<Pair> := set i | i in changed :: PairOf(subs[i]);
      assert pairs == PairsOf(subs, changed);
      ghost var done: set<Pair> := {};
      RecomputeNone(subs, scores);
      while pairs != {}
        invariant done + pairs == PairsOf(subs, changed)
        invariant scores == RecomputeAll(subs, old(scores), done)
        decreases |pairs|
      {
        var pair :| pair in pairs;
        ghost var before := scores;
        RecomputeProblemScore(pair);
        RecomputeMore(subs, old(scores), done, pair);
        assert scores == Recompute(subs, before, pair);
        pairs, done := pairs - {pair}, done + {pair};
      }
      assert done == PairsOf(subs, changed);
      count := |changed|;
    }

    // ---- Reviews ----

    method ReviewSubmission(id: SubmissionId, reviewer: Option<UserId>, status: ReviewStatus, reason: string)
        returns (outcome: Outcome)
      modifies this
      ensures Contents() == Next(old(Contents()), ReviewOp(id, reviewer, status, reason))
      ensures outcome == if id in old(subs) then Done else NotFound
    {
      if id !in subs { return NotFound; }
      var previous := subs[id].review;
      subs := subs[id := subs[id].(review := status)];
      if previous != status {
        reviews := reviews + [Review(id, reviewer, previous, status, reason)];
      }
      RecomputeProblemScore(PairOf(subs[id]));
      return Done;
    }

    // ---- Rejudging and cancelling ----

    method RejudgeSubmission(id: SubmissionId) returns (outcome: Outcome)
      modifies this
      ensures Contents() == Next(old(Contents()), Rejudge(id))
      ensures outcome == if id in old(subs) then Done else NotFound
    {
      var changed := if id in subs then {id} else {};
      if changed == {} { return NotFound; }
      subs := subs[id := RejudgeRow(subs[id])];
      RecomputeSingle(subs, scores, PairOf(subs[id]));
      assert PairsOf(subs, {id}) == {PairOf(subs[id])};
      var _ := ReconcileSubmissionChanges(changed);
      return Done;
    }

    method RejudgeProblemSubmissions(problem: ProblemId) returns (count: nat)
      modifies this
      ensures Contents() == Next(old(Contents()), RejudgeProblem(problem))
      ensures count == |ToRejudge(old(subs), problem)|
    {
      var op := RejudgeProblem(problem);
      var changed := ToRejudge(subs, problem);
      ghost var before := subs;
      subs := UpdateWhere(subs, op);
      assert PairsOf(subs, changed) == TouchedPairs(before, op) by { ReturnedPairs(before, op, changed); }
      count := ReconcileSubmissionChanges(changed);
    }

    method CancelSubmission(id: SubmissionId, now: Instant) returns (outcome: Outcome)
      modifies this
      ensures Contents() == Next(old(Contents()), Cancel(id, now))
      ensures outcome == if id in old(subs) && Active(old(subs)[id]) then Done else NotActive
    {
      var changed := if id in subs && Active(subs[id]) then {id} else {};
      if changed == {} { return NotActive; }
      subs := subs[id := FailRow(subs[id], now)];
      RecomputeSingle(subs, scores, PairOf(subs[id]));
      assert PairsOf(subs, {id}) == {PairOf(subs[id])};
      var _ := ReconcileSubmissionChanges(changed);
      return Done;
    }

    method UnstickTeamSubmissions(team: TeamId, now: Instant)
      modifies this
      ensures Contents() == Next(old(Contents()), Unstick(team, now))
    {
      var op := Unstick(team, now);
      var changed := set i | i in subs && subs[i].team == team && Active(subs[i]);
      ghost var before := subs;
      subs := UpdateWhere(subs, op);
      assert PairsOf(subs, changed) == TouchedPairs(before, op) by { ReturnedPairs(before, op, changed); }
      var _ := ReconcileSubmissionChanges(changed);
    }

    /** Requeues the expired submissions with attempts left, fails the others, and counts both. */
    method ReclaimExpiredLeases(now: Instant) returns (count: nat)
      modifies this
      ensures Contents() == Next(old(Contents()), Reap(now))
      ensures count == |LapsedIds(old(subs), now)|
    {
      ghost var before := subs;
      var requeued := ToRequeue(subs, now);
      subs := Requeued(subs, now);
      var failing := ToFail(subs, now);
      subs := GivenUp(subs, now);
      ReapInTwo(before, now);
      ReturnedPairs(before, Reap(now), failing);
      assert ExpiredIds(before, now) == LapsedIds(before, now);
      var failed := ReconcileSubmissionChanges(failing);
      count := |requeued| + failed;
    }

    // ---- Workers ----

    /** Claims a queued submission of least rank for a fresh claim id. */
    method ClaimNextSubmission(claim: ClaimId, now: Instant) returns (claimed: Option<SubmissionId>)
      requires claim !in claims
      modifies this
      ensures claimed.None? ==> Contents() == old(Contents()) && forall i | i in subs :: subs[i].state != Queued
      ensures claimed.Some? ==>
                && IsNext(old(subs), claimed.value)
                && Contents() == Next(old(Contents()), Claim(claimed.value, claim, now))
    {
      claimed := None;
      var rest := subs.Keys;
      while rest != {}
        invariant rest <= subs.Keys
        invariant claimed.Some? ==>
                    && claimed.value in subs && claimed.value !in rest
                    && subs[claimed.value].state == Queued
        invariant claimed.Some? ==> forall j | j in subs && j !in rest && subs[j].state == Queued ::
            Rank(subs, claimed.value) <= Rank(subs, j)
        invariant claimed.None? ==> forall j | j in subs && j !in rest :: subs[j].state != Queued
        decreases |rest|
      {
        var i :| i in rest;
        rest := rest - {i};
        if subs[i].state == Queued && (claimed.None? || Rank(subs, i) < Rank(subs, claimed.value)) {
          claimed := Some(i);
        }
      }
      if claimed.Some? {
        subs := subs[claimed.value := ClaimRow(subs[claimed.value], claim, now)];
        claims := claims + {claim};
      }
    }

    method RenewLease(id: SubmissionId, claim: ClaimId, now: Instant) returns (outcome: Outcome)
      modifies this`subs
      ensures Contents() == Next(old(Contents()), Renew(id, claim, now))
      ensures outcome == if id in old(subs) && Holds(old(subs)[id], claim, now) then Done else LeaseLost
    {
      if id !in subs || !Holds(subs[id], claim, now) { return LeaseLost; }
      subs := subs[id := subs[id].(leaseUntil := Some(now + LEASE))];
      return Done;
    }

    method CompleteSubmission(id: SubmissionId, claim: ClaimId, passed: bool, score: int, now: Instant)
        returns (outcome: Outcome)
      modifies this
      ensures Contents() == Next(old(Contents()), Complete(id, claim, passed, score, now))
      ensures outcome == if Delivers(old(Contents()), Complete(id, claim, passed, score, now), id, claim) then Done
          else LeaseLost
    {
      if id !in subs || !Holds(subs[id], claim, now) { return LeaseLost; }
      subs := subs[id := FinishRow(subs[id], passed, score, now)];
      RecomputeProblemScore(PairOf(subs[id]));
      return Done;
    }
  }

  /** What RETURNING hands over are the pairs of the rows the statement touched. */
  lemma ReturnedPairs(before: Submissions, op: Op, changed: set<SubmissionId>)
    requires op.Reap? || op.Unstick? || op.RejudgeProblem?
    requires changed == set i | i in before && Touches(op, before[i])
        && (op.Reap? ==> before[i].attempts >= MAX_ATTEMPTS)
    ensures PairsOf(UpdateWhere(before, op), changed) == TouchedPairs(before, op)
  {
    var after := UpdateWhere(before, op);
    forall i | i in before
      ensures PairOf(after[i]) == PairOf(before[i])
    {
    }
    forall pair | pair in TouchedPairs(before, op)
      ensures pair in PairsOf(after, changed)
    {
      var i :| i in changed && PairOf(before[i]) == pair;
      assert PairOf(after[i]) == pair;
    }
  }
}
