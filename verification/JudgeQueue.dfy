/** The judge's tables: the submission queue with its leases, the review log, and the score
  * table that is maintained beside them row by row. */
module JudgeQueue {
  import opened Wrappers

  type SubmissionId = nat
  type TeamId = nat
  type ProblemId = nat
  type UserId = nat
  type ClaimId = nat  // a fresh id for every claim: worker name and random part
  type Instant = int

  const SECOND: int := 1_000_000_000
  const LEASE: int := 60 * SECOND
  const MAX_ATTEMPTS: nat := 3

  datatype State = Queued | Running | Passed | Failed
  datatype ReviewStatus = Accepted | Rejected

  datatype Submission = Submission(
    team: TeamId, problem: ProblemId, user: UserId, createdAt: Instant,
    state: State, score: int, finishedAt: Option<Instant>,
    attempts: nat, claimedBy: Option<ClaimId>, leaseUntil: Option<Instant>, isRejudge: bool,
    review: ReviewStatus)

  datatype Review = Review(submission: SubmissionId, reviewer: Option<UserId>, before: ReviewStatus,
      after: ReviewStatus, reason: string)

  datatype Pair = Pair(team: TeamId, problem: ProblemId)
  datatype Score = Score(submission: SubmissionId, user: UserId, best: int, at: Instant)

  type Submissions = map<SubmissionId, Submission>

  datatype Tables = Tables(subs: Submissions, reviews: seq<Review>, scores: map<Pair, Score>, claims: set<ClaimId>)

  const EMPTY := Tables(map[], [], map[], {})

  // ---- The score table ----

  function PairOf(s: Submission): Pair { Pair(s.team, s.problem) }

  predicate Counts(s: Submission, pair: Pair) {
    PairOf(s) == pair && s.state == Passed && s.review == Accepted && s.finishedAt.Some?
  }

  /** ORDER BY score DESC, created_at ASC, id ASC */
  predicate Before(subs: Submissions, i: SubmissionId, j: SubmissionId)
    requires i in subs && j in subs
  {
    var a, b := subs[i], subs[j];
    a.score > b.score || (a.score == b.score && (a.createdAt < b.createdAt || (a.createdAt == b.createdAt && i <= j)))
  }

  predicate IsBest(subs: Submissions, pair: Pair, i: SubmissionId) {
    && i in subs && Counts(subs[i], pair)
    && forall j | j in subs && Counts(subs[j], pair) :: Before(subs, i, j)
  }

  function Counting(subs: Submissions, pair: Pair): set<SubmissionId> {
    set i | i in subs && Counts(subs[i], pair)
  }

  lemma BestUnique(subs: Submissions, pair: Pair, i: SubmissionId, j: SubmissionId)
    requires IsBest(subs, pair, i) && IsBest(subs, pair, j)
    ensures i == j
  {
  }

  lemma {:induction false} HasBest(subs: Submissions, pair: Pair, among: set<SubmissionId>) returns (i: SubmissionId)
    requires among != {} && among <= Counting(subs, pair)
    ensures i in among && forall j | j in among :: Before(subs, i, j)
    decreases |among|
  {
    i :| i in among;
    if among != {i} {
      assert among - {i} != {};
      var k := HasBest(subs, pair, among - {i});
      assert forall j | j in among :: j == i || j in among - {i};
      i := if Before(subs, i, k) then i else k;
    }
  }

  function ScoreRow(subs: Submissions, i: SubmissionId): Score
    requires i in subs
  {
    Score(i, subs[i].user, subs[i].score, subs[i].createdAt)
  }

  /** What a scan of every submission would put in the score table for this pair. */
  ghost function BestRow(subs: Submissions, pair: Pair): Option<Score> {
    if i :| IsBest(subs, pair, i) then Some(ScoreRow(subs, i)) else None
  }

  function RowAt(scores: map<Pair, Score>, pair: Pair): Option<Score> {
    if pair in scores then Some(scores[pair]) else None
  }

  /** The score table is exactly the scan, for every pair. */
  ghost predicate ScoresExact(t: Tables) {
    forall pair: Pair :: RowAt(t.scores, pair) == BestRow(t.subs, pair)
  }

  ghost function Recompute(subs: Submissions, scores: map<Pair, Score>, pair: Pair): map<Pair, Score> {
    match BestRow(subs, pair)
    case None => scores - {pair}
    case Some(row) => scores[pair := row]
  }

  /** reconcileSubmissionChanges: recompute every pair touched. */
  ghost function RecomputeAll(subs: Submissions, scores: map<Pair, Score>, pairs: set<Pair>): map<Pair, Score> {
    map pair | pair in scores.Keys + pairs && (pair !in pairs || BestRow(subs, pair).Some?) ::
      if pair in pairs then BestRow(subs, pair).value else scores[pair]
  }

  // ---- The statements on one submission ----

  predicate Active(s: Submission) { s.state == Queued || s.state == Running }

  predicate Expired(s: Submission, now: Instant) {
    s.state == Running && s.leaseUntil.Some? && s.leaseUntil.value < now
  }

  predicate Holds(s: Submission, claim: ClaimId, now: Instant) {
    s.claimedBy == Some(claim) && s.state == Running && s.leaseUntil.Some? && s.leaseUntil.value > now
  }

  function ClaimRow(s: Submission, claim: ClaimId, now: Instant): Submission {
    s.(state := Running, claimedBy := Some(claim), leaseUntil := Some(now + LEASE), attempts := s.attempts + 1)
  }

  function RequeueRow(s: Submission): Submission { s.(state := Queued, claimedBy := None, leaseUntil := None) }

  function FailRow(s: Submission, now: Instant): Submission {
    s.(state := Failed, finishedAt := Some(now), score := 0, isRejudge := false, claimedBy := None, leaseUntil := None)
  }

  function RejudgeRow(s: Submission): Submission {
    s.(state := Queued, score := 0, claimedBy := None, leaseUntil := None, finishedAt := None, attempts := 0,
        isRejudge := true)
  }

  function FinishRow(s: Submission, passed: bool, score: int, now: Instant): Submission {
    s.(state := if passed then Passed else Failed, score := score, finishedAt := Some(now), isRejudge := false)
  }

  function ReapRow(s: Submission, now: Instant): Submission {
    if !Expired(s, now) then s
    else if s.attempts < MAX_ATTEMPTS then RequeueRow(s)
    else FailRow(s, now)
  }

  // ---- Operations ----

  datatype Op =
    | Create(id: SubmissionId, team: TeamId, problem: ProblemId, user: UserId, at: Instant)
    | Claim(id: SubmissionId, claim: ClaimId, at: Instant)
    | Renew(id: SubmissionId, claim: ClaimId, at: Instant)
    | Complete(id: SubmissionId, claim: ClaimId, passed: bool, score: int, at: Instant)
    | Reap(at: Instant)
    | Cancel(id: SubmissionId, at: Instant)
    | Unstick(team: TeamId, at: Instant)
    | Rejudge(id: SubmissionId)
    | RejudgeProblem(problem: ProblemId)
    | ReviewOp(id: SubmissionId, reviewer: Option<UserId>, status: ReviewStatus, reason: string)

  /** The unique index on active, first-time submissions. */
  predicate SlotTaken(subs: Submissions, pair: Pair) {
    exists i | i in subs :: PairOf(subs[i]) == pair && Active(subs[i]) && !subs[i].isRejudge
  }

  /** The rows a multi-row statement changes, and what each becomes. */
  predicate Touches(op: Op, s: Submission) {
    match op
    case Reap(at) => Expired(s, at)
    case Unstick(team, _) => s.team == team && Active(s)
    case RejudgeProblem(problem) => s.problem == problem && !Active(s)
    case _ => false
  }

  function Becomes(op: Op, s: Submission): Submission {
    match op
    case Reap(at) => ReapRow(s, at)
    case Unstick(_, at) => FailRow(s, at)
    case RejudgeProblem(_) => RejudgeRow(s)
    case _ => s
  }

  function UpdateWhere(subs: Submissions, op: Op): Submissions {
    map i | i in subs :: if Touches(op, subs[i]) then Becomes(op, subs[i]) else subs[i]
  }

  /** The pairs of the rows RETURNING hands to reconcileSubmissionChanges: for the reaper only the
    * failed ones. */
  function TouchedPairs(subs: Submissions, op: Op): set<Pair> {
    set i | i in subs && Touches(op, subs[i]) && (op.Reap? ==> subs[i].attempts >= MAX_ATTEMPTS) :: PairOf(subs[i])
  }

  ghost function UpdateOne(t: Tables, id: SubmissionId, row: Submission): Tables
    requires id in t.subs
  {
    var subs := t.subs[id := row];
    t.(subs := subs, scores := Recompute(subs, t.scores, PairOf(row)))
  }

  ghost function Next(t: Tables, op: Op): Tables {
    match op
    case Create(id, team, problem, user, at) =>
      if id in t.subs || SlotTaken(t.subs, Pair(team, problem)) then t
      else
        var row := Submission(team, problem, user, at, Queued, 0, None, 0, None, None, false, Accepted);
        t.(subs := t.subs[id := row])
    case Claim(id, claim, at) =>
      if id in t.subs && t.subs[id].state == Queued && claim !in t.claims
      then t.(subs := t.subs[id := ClaimRow(t.subs[id], claim, at)], claims := t.claims + {claim})
      else t
    case Renew(id, claim, at) =>
      if id in t.subs && Holds(t.subs[id], claim, at)
      then t.(subs := t.subs[id := t.subs[id].(leaseUntil := Some(at + LEASE))])
      else t
    case Complete(id, claim, passed, score, at) =>
      if id in t.subs && Holds(t.subs[id], claim, at)
      then UpdateOne(t, id, FinishRow(t.subs[id], passed, score, at))
      else t
    case Cancel(id, at) =>
      if id in t.subs && Active(t.subs[id]) then UpdateOne(t, id, FailRow(t.subs[id], at)) else t
    case Rejudge(id) =>
      if id in t.subs then UpdateOne(t, id, RejudgeRow(t.subs[id])) else t
    case ReviewOp(id, reviewer, status, reason) =>
      if id !in t.subs then t
      else
        var entry := if t.subs[id].review == status then []
            else [Review(id, reviewer, t.subs[id].review, status, reason)];
        UpdateOne(t, id, t.subs[id].(review := status)).(reviews := t.reviews + entry)
    case _ =>
      var subs := UpdateWhere(t.subs, op);
      t.(subs := subs, scores := RecomputeAll(subs, t.scores, TouchedPairs(t.subs, op)))
  }

  ghost function Run(t: Tables, ops: seq<Op>): Tables {
    if ops == [] then t else Next(Run(t, ops[..|ops| - 1]), ops[|ops| - 1])
  }

  ghost function At(t: Tables, ops: seq<Op>, k: nat): Tables
    requires k <= |ops|
  {
    Run(t, ops[..k])
  }

  lemma AtStep(t: Tables, ops: seq<Op>, k: nat)
    requires k < |ops|
    ensures At(t, ops, k + 1) == Next(At(t, ops, k), ops[k])
  {
    assert ops[..k + 1][..k] == ops[..k];
  }

  // ---- The scores are always exact ----

  /** Two tables with the same counting rows for a pair have the same best row. */
  lemma SameBest(a: Submissions, b: Submissions, pair: Pair)
    requires forall i :: i in a && Counts(a[i], pair) <==> i in b && Counts(b[i], pair)
    requires forall i | i in a && Counts(a[i], pair) ::
        i in b && a[i].score == b[i].score && a[i].createdAt == b[i].createdAt && a[i].user == b[i].user
    ensures BestRow(a, pair) == BestRow(b, pair)
  {
    forall i
      ensures IsBest(a, pair, i) <==> IsBest(b, pair, i)
    {
    }
    if i :| IsBest(a, pair, i) {
      assert IsBest(b, pair, i);
      BestRowIs(a, pair, i);
      BestRowIs(b, pair, i);
    }
  }

  lemma BestRowIs(subs: Submissions, pair: Pair, i: SubmissionId)
    requires IsBest(subs, pair, i)
    ensures BestRow(subs, pair) == Some(ScoreRow(subs, i))
  {
    forall j | IsBest(subs, pair, j)
      ensures j == i
    {
      BestUnique(subs, pair, i, j);
    }
  }

  /** Only passed rows count, so a row that neither was nor becomes passed moves no score. */
  predicate Quiet(s: Submission, r: Submission) {
    s == r || (PairOf(s) == PairOf(r) && s.state != Passed && r.state != Passed)
  }

  lemma UpdateOneExact(t: Tables, id: SubmissionId, row: Submission)
    requires ScoresExact(t) && id in t.subs && PairOf(row) == PairOf(t.subs[id])
    ensures ScoresExact(UpdateOne(t, id, row))
  {
    var r := UpdateOne(t, id, row);
    forall pair: Pair
      ensures RowAt(r.scores, pair) == BestRow(r.subs, pair)
    {
      if pair != PairOf(row) {
        SameBest(t.subs, r.subs, pair);
        assert RowAt(t.scores, pair) == BestRow(t.subs, pair);
      }
    }
  }

  lemma QuietKeepsExact(t: Tables, subs: Submissions)
    requires ScoresExact(t) && subs.Keys == t.subs.Keys && forall i | i in subs :: Quiet(t.subs[i], subs[i])
    ensures ScoresExact(t.(subs := subs))
  {
    forall pair: Pair
      ensures RowAt(t.scores, pair) == BestRow(subs, pair)
    {
      SameBest(t.subs, subs, pair);
      assert RowAt(t.scores, pair) == BestRow(t.subs, pair);
    }
  }

  /** A row whose pair is not recomputed is one the statement did not change, or a requeued one. */
  lemma UntouchedIsQuiet(subs: Submissions, op: Op, i: SubmissionId)
    requires i in subs && (op.Reap? || op.Unstick? || op.RejudgeProblem?)
    ensures PairOf(subs[i]) in TouchedPairs(subs, op) || Quiet(subs[i], UpdateWhere(subs, op)[i])
  {
    if Touches(op, subs[i]) && (op.Reap? ==> subs[i].attempts >= MAX_ATTEMPTS) {
      assert PairOf(subs[i]) in TouchedPairs(subs, op);
    }
  }

  lemma UpdateWhereExact(t: Tables, op: Op)
    requires ScoresExact(t) && (op.Reap? || op.Unstick? || op.RejudgeProblem?)
    ensures ScoresExact(Next(t, op))
  {
    var subs, pairs := UpdateWhere(t.subs, op), TouchedPairs(t.subs, op);
    var r := Next(t, op);
    forall pair: Pair
      ensures RowAt(r.scores, pair) == BestRow(subs, pair)
    {
      if pair !in pairs {
        forall i | i in subs && PairOf(subs[i]) == pair
          ensures Quiet(t.subs[i], subs[i])
        {
          UntouchedIsQuiet(t.subs, op, i);
        }
        SameBest(t.subs, subs, pair);
        assert RowAt(t.scores, pair) == BestRow(t.subs, pair);
      }
    }
  }

  lemma CreateExact(t: Tables, id: SubmissionId, row: Submission)
    requires ScoresExact(t) && id !in t.subs && row.state != Passed
    ensures ScoresExact(t.(subs := t.subs[id := row]))
  {
    forall pair: Pair
      ensures RowAt(t.scores, pair) == BestRow(t.subs[id := row], pair)
    {
      SameBest(t.subs, t.subs[id := row], pair);
      assert RowAt(t.scores, pair) == BestRow(t.subs, pair);
    }
  }

  lemma NextExact(t: Tables, op: Op)
    requires ScoresExact(t)
    ensures ScoresExact(Next(t, op))
  {
    match op {
      case Create(id, team, problem, user, at) =>
        if id !in t.subs && !SlotTaken(t.subs, Pair(team, problem)) {
          CreateExact(t, id, Next(t, op).subs[id]);
        }
      case Claim(id, claim, at) =>
        if id in t.subs && t.subs[id].state == Queued && claim !in t.claims {
          QuietKeepsExact(t, t.subs[id := ClaimRow(t.subs[id], claim, at)]);
          assert ScoresExact(t.(subs := Next(t, op).subs));
        }
      case Renew(id, claim, at) =>
        if id in t.subs && Holds(t.subs[id], claim, at) {
          QuietKeepsExact(t, Next(t, op).subs);
        }
      case Complete(id, claim, passed, score, at) =>
        if id in t.subs && Holds(t.subs[id], claim, at) {
          UpdateOneExact(t, id, FinishRow(t.subs[id], passed, score, at));
        }
      case Cancel(id, at) =>
        if id in t.subs && Active(t.subs[id]) { UpdateOneExact(t, id, FailRow(t.subs[id], at)); }
      case Rejudge(id) =>
        if id in t.subs { UpdateOneExact(t, id, RejudgeRow(t.subs[id])); }
      case ReviewOp(id, reviewer, status, reason) =>
        if id in t.subs { UpdateOneExact(t, id, t.subs[id].(review := status)); }
      case _ => UpdateWhereExact(t, op);
    }
  }

  // ---- What each operation does to the board ----

  /** A pair is on the board exactly when something counts for it, with a score nothing beats. */
  lemma OnBoardExactly(t: Tables, pair: Pair)
    requires ScoresExact(t)
    ensures pair in t.scores <==> Counting(t.subs, pair) != {}
    ensures pair in t.scores ==> t.scores[pair].submission in Counting(t.subs, pair)
    ensures forall i | i in Counting(t.subs, pair) :: pair in t.scores && t.subs[i].score <= t.scores[pair].best
  {
    assert RowAt(t.scores, pair) == BestRow(t.subs, pair);
    if Counting(t.subs, pair) != {} {
      var i := HasBest(t.subs, pair, Counting(t.subs, pair));
      assert IsBest(t.subs, pair, i);
      BestRowIs(t.subs, pair, i);
    } else {
      assert forall w | IsBest(t.subs, pair, w) :: w in Counting(t.subs, pair);
    }
  }

  /** The board after a delivered result: moved only by an accepted pass, and then to the new
    * submission exactly if it beats what was there, the earlier one keeping ties. */
  lemma ResultMovesBoard(t: Tables, id: SubmissionId, claim: ClaimId, passed: bool, score: int, now: Instant)
    requires ScoresExact(t) && id in t.subs && Holds(t.subs[id], claim, now)
    ensures var s := t.subs[id];
            var was := RowAt(t.scores, PairOf(s));
            var is_ := RowAt(Next(t, Complete(id, claim, passed, score, now)).scores, PairOf(s));
      is_ == if passed && s.review == Accepted && (was.None? || Beats(id, s.createdAt, score, was.value))
             then Some(Score(id, s.user, score, s.createdAt)) else was
  {
    var pair := PairOf(t.subs[id]);
    var r := Next(t, Complete(id, claim, passed, score, now));
    NextExact(t, Complete(id, claim, passed, score, now));
    assert RowAt(r.scores, pair) == BestRow(r.subs, pair);
    assert RowAt(t.scores, pair) == BestRow(t.subs, pair);
    if !passed || t.subs[id].review != Accepted {
      SameBest(t.subs, r.subs, pair);
    } else if w :| IsBest(t.subs, pair, w) {
      BestRowIs(t.subs, pair, w);
      var best := if Beats(id, t.subs[id].createdAt, score, ScoreRow(t.subs, w)) then id else w;
      forall j | j in r.subs && Counts(r.subs[j], pair)
        ensures Before(r.subs, best, j)
      {
        assert j != id ==> Before(t.subs, w, j);
      }
      BestRowIs(r.subs, pair, best);
    } else {
      OnBoardExactly(t, pair);
      assert forall j | j in r.subs && Counts(r.subs[j], pair) :: j == id || j in Counting(t.subs, pair);
      BestRowIs(r.subs, pair, id);
    }
  }

  predicate Beats(id: SubmissionId, createdAt: Instant, score: int, row: Score) {
    score > row.best || (score == row.best && (createdAt < row.at || (createdAt == row.at && id < row.submission)))
  }

  /** Sending a submission back takes exactly its own points off the board. */
  lemma RejudgeTakesOff(t: Tables, id: SubmissionId)
    requires ScoresExact(t) && id in t.subs
    ensures RowAt(Next(t, Rejudge(id)).scores, PairOf(t.subs[id])) == BestRow(t.subs - {id}, PairOf(t.subs[id]))
  {
    var pair, r := PairOf(t.subs[id]), Next(t, Rejudge(id));
    NextExact(t, Rejudge(id));
    assert RowAt(r.scores, pair) == BestRow(r.subs, pair);
    SameBest(t.subs - {id}, r.subs, pair);
  }

  /** Queueing, claiming, cancelling, unsticking and reaping never move the board. */
  lemma UnfinishedKeepsBoard(t: Tables, op: Op)
    requires ScoresExact(t) && (op.Create? || op.Claim? || op.Renew? || op.Reap? || op.Cancel? || op.Unstick?)
    ensures Next(t, op).scores == t.scores
  {
    NextExact(t, op);
    var r := Next(t, op);
    forall pair: Pair
      ensures RowAt(r.scores, pair) == RowAt(t.scores, pair)
    {
      SameBest(t.subs, r.subs, pair);
      assert RowAt(r.scores, pair) == BestRow(r.subs, pair);
      assert RowAt(t.scores, pair) == BestRow(t.subs, pair);
    }
    SameRows(r.scores, t.scores);
  }

  // ---- Leases, attempts and slots ----

  /** A submission is never handed out more than three times between rejudges, a running one is
    * always under a lease, and what counts on the board has a finishing time. */
  predicate RowSound(s: Submission, claims: set<ClaimId>) {
    && s.attempts <= MAX_ATTEMPTS
    && (s.state == Queued ==> s.attempts < MAX_ATTEMPTS && s.claimedBy.None?)
    && (s.state == Running ==> s.attempts >= 1 && s.claimedBy.Some? && s.leaseUntil.Some?)
    && (s.state == Passed ==> s.finishedAt.Some?)
    && (s.claimedBy.Some? ==> s.claimedBy.value in claims)
  }

  /** The row is what the unique index ranges over. */
  predicate Indexed(s: Submission) { Active(s) && !s.isRejudge }

  ghost predicate RowsSound(subs: Submissions, claims: set<ClaimId>) {
    forall i | i in subs :: RowSound(subs[i], claims)
  }

  ghost predicate IndexUnique(subs: Submissions) {
    forall i, j | i in subs && j in subs && PairOf(subs[i]) == PairOf(subs[j]) && Indexed(subs[i])
        && Indexed(subs[j]) :: i == j
  }

  ghost predicate Sound(t: Tables) {
    ScoresExact(t) && RowsSound(t.subs, t.claims) && IndexUnique(t.subs)
  }

  /** No statement but an insert puts a row into the index. */
  predicate StaysInIndex(s: Submission, r: Submission) {
    PairOf(s) == PairOf(r) && (Indexed(r) ==> Indexed(s))
  }

  lemma UpdateKeepsIndex(subs: Submissions, later: Submissions)
    requires IndexUnique(subs) && later.Keys == subs.Keys
    requires forall i | i in subs :: StaysInIndex(subs[i], later[i])
    ensures IndexUnique(later)
  {
    forall i, j | i in later && j in later && PairOf(later[i]) == PairOf(later[j]) && Indexed(later[i])
        && Indexed(later[j])
      ensures i == j
    {
      assert StaysInIndex(subs[i], later[i]) && StaysInIndex(subs[j], later[j]);
    }
  }

  /** What every operation does to one existing row. */
  lemma RowStep(t: Tables, op: Op, i: SubmissionId)
    requires RowsSound(t.subs, t.claims) && i in t.subs
    ensures i in Next(t, op).subs
    ensures RowSound(Next(t, op).subs[i], Next(t, op).claims)
    ensures StaysInIndex(t.subs[i], Next(t, op).subs[i])
  {
    assert RowSound(t.subs[i], t.claims);
  }

  lemma KeysStep(t: Tables, op: Op)
    requires !op.Create?
    ensures Next(t, op).subs.Keys == t.subs.Keys
  {
  }

  lemma CreateSound(t: Tables, op: Op)
    requires op.Create? && RowsSound(t.subs, t.claims) && IndexUnique(t.subs)
    ensures RowsSound(Next(t, op).subs, Next(t, op).claims) && IndexUnique(Next(t, op).subs)
  {
  }

  lemma NextSound(t: Tables, op: Op)
    requires Sound(t)
    ensures Sound(Next(t, op))
  {
    NextExact(t, op);
    if op.Create? {
      CreateSound(t, op);
    } else {
      KeysStep(t, op);
      var r := Next(t, op);
      forall i | i in r.subs
        ensures RowSound(r.subs[i], r.claims) && StaysInIndex(t.subs[i], r.subs[i])
      {
        RowStep(t, op, i);
      }
      UpdateKeepsIndex(t.subs, r.subs);
    }
  }

  /** Over every run: the maintained score table equals a scan from scratch, no submission is run a
    * fourth time, and a team has one first-time submission in progress per problem. */
  lemma {:induction false} RunSound(t: Tables, ops: seq<Op>)
    requires Sound(t)
    ensures Sound(Run(t, ops))
  {
    if ops != [] {
      RunSound(t, ops[..|ops| - 1]);
      NextSound(Run(t, ops[..|ops| - 1]), ops[|ops| - 1]);
    }
  }

  lemma EmptySound()
    ensures Sound(EMPTY)
  {
  }

  // ---- One result per claim ----

  /** The claim may still deliver a result for the submission. */
  predicate InHand(t: Tables, id: SubmissionId, claim: ClaimId) {
    id in t.subs && t.subs[id].state == Running && t.subs[id].claimedBy == Some(claim)
  }

  predicate Delivers(t: Tables, op: Op, id: SubmissionId, claim: ClaimId) {
    op.Complete? && op.id == id && op.claim == claim && id in t.subs && Holds(t.subs[id], claim, op.at)
  }

  lemma LostStep(t: Tables, op: Op, id: SubmissionId, claim: ClaimId)
    requires claim in t.claims && !InHand(t, id, claim)
    ensures claim in Next(t, op).claims && !InHand(Next(t, op), id, claim)
  {
  }

  /** Once a claim has lost its submission, to the reaper, a cancel, a rejudge or its own result,
    * it has lost it for good. */
  lemma {:induction false} LostForGood(t: Tables, ops: seq<Op>, id: SubmissionId, claim: ClaimId, i: nat, j: nat)
    requires i <= j <= |ops| && claim in At(t, ops, i).claims && !InHand(At(t, ops, i), id, claim)
    ensures claim in At(t, ops, j).claims && !InHand(At(t, ops, j), id, claim)
    decreases j - i
  {
    if i < j {
      LostForGood(t, ops, id, claim, i, j - 1);
      AtStep(t, ops, j - 1);
      LostStep(At(t, ops, j - 1), ops[j - 1], id, claim);
    }
  }

  /** However workers stall and leases expire, one claim writes at most one result. */
  lemma OneResultPerClaim(t: Tables, ops: seq<Op>, id: SubmissionId, claim: ClaimId, i: nat, j: nat)
    requires Sound(t) && i < j < |ops| && Delivers(At(t, ops, i), ops[i], id, claim)
    ensures !Delivers(At(t, ops, j), ops[j], id, claim)
  {
    RunSound(t, ops[..i]);
    AtStep(t, ops, i);
    assert claim in At(t, ops, i + 1).claims && !InHand(At(t, ops, i + 1), id, claim);
    LostForGood(t, ops, id, claim, i + 1, j);
  }

  // ---- The reaper ----

  /** One pass at now requeues exactly the running rows whose lease ended before and that have had fewer
    * than three attempts, fails the others of those, and touches nothing else; none is left running. */
  lemma ReapSettles(t: Tables, now: Instant, i: SubmissionId)
    requires i in t.subs
    ensures i in Next(t, Reap(now)).subs
    ensures var s := t.subs[i]; var r := Next(t, Reap(now)).subs[i];
            var lapsed := s.state == Running && s.leaseUntil.Some? && s.leaseUntil.value < now;
      && (r == s <==> !lapsed)
      && (lapsed && s.attempts < 3 ==> r.state == Queued && r.finishedAt == s.finishedAt)
      && (lapsed && s.attempts >= 3 ==> r.state == Failed && r.finishedAt == Some(now) && r.score == 0)
      && (lapsed ==> r.claimedBy.None? && r.leaseUntil.None?)
      && r.review == s.review && r.attempts == s.attempts
      && (r.state == Running && r.leaseUntil.Some? ==> now <= r.leaseUntil.value)
  {
  }

  // ---- The review log ----

  function Flip(s: ReviewStatus): ReviewStatus { if s == Accepted then Rejected else Accepted }

  /** The log entries of one submission, oldest first. */
  function LogOf(reviews: seq<Review>, id: SubmissionId): seq<Review> {
    if reviews == [] then []
    else LogOf(reviews[..|reviews| - 1], id) + if reviews[|reviews| - 1].submission == id then [reviews[|reviews| - 1]]
        else []
  }

  /** How the submission stood when entry k was written, going by the log alone. */
  function StoodAt(log: seq<Review>, k: nat): ReviewStatus
    requires k <= |log|
  {
    if k == 0 then Accepted else log[k - 1].after
  }

  /** Starting from accepted, each entry starts where the last ended and changes the status. */
  ghost predicate IsChain(log: seq<Review>, final: ReviewStatus) {
    && (forall k {:trigger StoodAt(log, k)} | 0 <= k < |log| ::
        log[k].before == StoodAt(log, k) && log[k].after == Flip(log[k].before))
    && final == StoodAt(log, |log|)
  }

  ghost predicate Chained(t: Tables) {
    forall id: SubmissionId :: IsChain(LogOf(t.reviews, id), Standing(t, id))
  }

  /** No operation but a review writes the log or a verdict. */
  lemma ReviewStep(t: Tables, op: Op, id: SubmissionId)
    requires id in t.subs
    ensures id in Next(t, op).subs
    ensures Next(t, op).subs[id].review == if op.ReviewOp? && op.id == id then op.status else t.subs[id].review
  {
  }

  lemma LogStep(t: Tables, op: Op, id: SubmissionId)
    ensures var log := LogOf(t.reviews, id); var later := LogOf(Next(t, op).reviews, id);
      later == if op.ReviewOp? && op.id == id && id in t.subs && t.subs[id].review != op.status
               then log + [Review(id, op.reviewer, t.subs[id].review, op.status, op.reason)]
               else log
  {
    var r := Next(t, op);
    if op.ReviewOp? && op.id in t.subs && t.subs[op.id].review != op.status {
      assert r.reviews[..|r.reviews| - 1] == t.reviews;
    } else {
      assert r.reviews == t.reviews;
    }
  }

  function Standing(t: Tables, id: SubmissionId): ReviewStatus {
    if id in t.subs then t.subs[id].review else Accepted
  }

  lemma CreatedAccepted(t: Tables, op: Op, id: SubmissionId)
    requires id !in t.subs
    ensures Standing(Next(t, op), id) == Accepted
  {
  }

  lemma NextChained(t: Tables, op: Op)
    requires Chained(t)
    ensures Chained(Next(t, op))
  {
    forall id: SubmissionId
      ensures IsChain(LogOf(Next(t, op).reviews, id), Standing(Next(t, op), id))
    {
      assert IsChain(LogOf(t.reviews, id), Standing(t, id));
      LogStep(t, op, id);
      if id in t.subs {
        ReviewStep(t, op, id);
        if op.ReviewOp? && op.id == id && t.subs[id].review != op.status {
          ChainGrows(LogOf(t.reviews, id), t.subs[id].review,
              Review(id, op.reviewer, t.subs[id].review, op.status, op.reason));
        }
      } else {
        CreatedAccepted(t, op, id);
      }
    }
  }

  lemma {:induction false} RunChained(t: Tables, ops: seq<Op>)
    requires Chained(t)
    ensures Chained(Run(t, ops))
  {
    if ops != [] {
      RunChained(t, ops[..|ops| - 1]);
      NextChained(Run(t, ops[..|ops| - 1]), ops[|ops| - 1]);
    }
  }

  lemma ChainGrows(log: seq<Review>, final: ReviewStatus, entry: Review)
    requires IsChain(log, final) && entry.before == final && entry.after == Flip(final)
    ensures IsChain(log + [entry], entry.after)
  {
    forall k | 0 <= k < |log + [entry]|
      ensures (log + [entry])[k].before == StoodAt(log + [entry], k)
      ensures (log + [entry])[k].after == Flip((log + [entry])[k].before)
    {
      if k < |log| {
        assert log[k].before == StoodAt(log, k);
      }
    }
  }

  lemma {:induction false} ChainParity(log: seq<Review>, final: ReviewStatus, k: nat)
    requires IsChain(log, final) && k <= |log|
    ensures StoodAt(log, k) == if k % 2 == 0 then Accepted else Rejected
  {
    if k > 0 {
      ChainParity(log, final, k - 1);
      assert log[k - 1].before == StoodAt(log, k - 1);
    }
  }

  lemma ChainAlternates(log: seq<Review>, final: ReviewStatus)
    requires IsChain(log, final)
    ensures final == Rejected <==> |log| % 2 == 1
    ensures forall k | 0 <= k < |log| :: log[k].after == if k % 2 == 0 then Rejected else Accepted
  {
    ChainParity(log, final, |log|);
    forall k | 0 <= k < |log|
      ensures log[k].after == if k % 2 == 0 then Rejected else Accepted
    {
      ChainParity(log, final, k + 1);
    }
  }

  lemma EmptyChained()
    ensures Chained(EMPTY)
  {
  }

  /** Over every run of every operation, the verdicts on one submission strictly alternate, and how
    * it stands is the parity of its log. */
  lemma ReviewsAlternate(ops: seq<Op>, id: SubmissionId)
    ensures var t := Run(EMPTY, ops); var log := LogOf(t.reviews, id);
      && IsChain(log, Standing(t, id))
      && (Standing(t, id) == Rejected <==> |log| % 2 == 1)
      && (forall k | 0 <= k < |log| :: log[k].after == if k % 2 == 0 then Rejected else Accepted)
  {
    EmptyChained();
    RunChained(EMPTY, ops);
    var t := Run(EMPTY, ops);
    var log := LogOf(t.reviews, id);
    assert IsChain(log, Standing(t, id));
    ChainAlternates(log, Standing(t, id));
  }

  /** Rejecting a submission takes exactly its points off the board: what is left for the pair is
    * the best of the others, and accepting it again restores the table. */
  lemma RejectThenAcceptRestores(ops: seq<Op>, id: SubmissionId, reviewer: Option<UserId>, reason: string)
    requires id in Run(EMPTY, ops).subs && Run(EMPTY, ops).subs[id].review == Accepted
    ensures var t := Run(EMPTY, ops);
            var rejected := Next(t, ReviewOp(id, reviewer, Rejected, reason));
            var restored := Next(rejected, ReviewOp(id, reviewer, Accepted, reason));
      && BestRow(t.subs - {id}, PairOf(t.subs[id])) == RowAt(rejected.scores, PairOf(t.subs[id]))
      && restored.scores == t.scores && restored.subs == t.subs
  {
    EmptySound();
    RunSound(EMPTY, ops);
    var t := Run(EMPTY, ops);
    var rejected := Next(t, ReviewOp(id, reviewer, Rejected, reason));
    var restored := Next(rejected, ReviewOp(id, reviewer, Accepted, reason));
    NextSound(t, ReviewOp(id, reviewer, Rejected, reason));
    NextSound(rejected, ReviewOp(id, reviewer, Accepted, reason));
    SameBest(t.subs - {id}, rejected.subs, PairOf(t.subs[id]));
    assert restored.subs == t.subs;
    forall pair: Pair
      ensures RowAt(restored.scores, pair) == RowAt(t.scores, pair)
    {
      assert RowAt(t.scores, pair) == BestRow(t.subs, pair);
      assert RowAt(restored.scores, pair) == BestRow(restored.subs, pair);
    }
    SameRows(restored.scores, t.scores);
  }

  lemma SameRows(a: map<Pair, Score>, b: map<Pair, Score>)
    requires forall pair: Pair :: RowAt(a, pair) == RowAt(b, pair)
    ensures a == b
  {
    forall pair: Pair
      ensures pair in a <==> pair in b
      ensures pair in a ==> a[pair] == b[pair]
    {
      assert RowAt(a, pair) == RowAt(b, pair);
    }
  }
}
