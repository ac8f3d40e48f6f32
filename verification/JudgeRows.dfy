/** What the judge's operations make of each submission, column by column, and how long a claim lasts. */
module JudgeRows {
  import opened Wrappers
  import opened JudgeQueue

  // ---- One step ----

  /** The row's lease has run out. */
  predicate Lapsed(s: Submission, now: Instant) {
    s.state == Running && s.leaseUntil.Some? && s.leaseUntil.value < now
  }

  /** The claim is still good for a result. */
  predicate Deliverable(s: Submission, claim: ClaimId, now: Instant) {
    s.state == Running && s.claimedBy == Some(claim) && s.leaseUntil.Some? && now < s.leaseUntil.value
  }

  function GivenBack(s: Submission): Submission {
    s.(state := Queued, claimedBy := None, leaseUntil := None)
  }

  /** Failed without a result, for nothing. */
  function WrittenOff(s: Submission, now: Instant): Submission {
    s.(state := Failed, finishedAt := Some(now), score := 0, isRejudge := false, claimedBy := None, leaseUntil := None)
  }

  function SentBack(s: Submission): Submission {
    s.(state := Queued, score := 0, finishedAt := None, attempts := 0, isRejudge := true, claimedBy := None,
        leaseUntil := None)
  }

  /** What every operation makes of every row, all the others staying as they are. */
  lemma RowExactly(t: Tables, op: Op, i: SubmissionId)
    requires i in t.subs
    ensures i in Next(t, op).subs
    ensures var s := t.subs[i];
      Next(t, op).subs[i] ==
        match op
        case Create(_, _, _, _, _) => s
        case Claim(id, claim, at) =>
          if id == i && s.state == Queued && claim !in t.claims
          then s.(state := Running, claimedBy := Some(claim), leaseUntil := Some(at + 60 * SECOND),
              attempts := s.attempts + 1)
          else s
        case Renew(id, claim, at) =>
          if id == i && Deliverable(s, claim, at) then s.(leaseUntil := Some(at + 60 * SECOND)) else s
        case Complete(id, claim, passed, score, at) =>
          if id == i && Deliverable(s, claim, at)
          then s.(state := if passed then Passed else Failed, score := score, finishedAt := Some(at),
              isRejudge := false)
          else s
        case Reap(at) =>
          if !Lapsed(s, at) then s else if s.attempts < 3 then GivenBack(s) else WrittenOff(s, at)
        case Cancel(id, at) =>
          if id == i && (s.state == Queued || s.state == Running) then WrittenOff(s, at) else s
        case Unstick(team, at) =>
          if s.team == team && (s.state == Queued || s.state == Running) then WrittenOff(s, at) else s
        case Rejudge(id) => if id == i then SentBack(s) else s
        case RejudgeProblem(problem) =>
          if s.problem == problem && (s.state == Passed || s.state == Failed) then SentBack(s) else s
        case ReviewOp(id, _, status, _) => if id == i then s.(review := status) else s
  {
  }

  /** What a submission is created as, and when it is not. */
  lemma CreatedExactly(t: Tables, id: SubmissionId, team: TeamId, problem: ProblemId, user: UserId, at: Instant)
    requires id !in t.subs
    ensures var r := Next(t, Create(id, team, problem, user, at)).subs;
            var taken := exists i | i in t.subs ::
              && t.subs[i].team == team && t.subs[i].problem == problem && !t.subs[i].isRejudge
              && (t.subs[i].state == Queued || t.subs[i].state == Running);
      && (id in r <==> !taken)
      && (id in r ==> r[id] == Submission(team, problem, user, at, Queued, 0, None, 0, None, None, false, Accepted))
  {
    assert forall i | i in t.subs ::
        PairOf(t.subs[i]) == Pair(team, problem) <==> t.subs[i].team == team && t.subs[i].problem == problem;
  }

  // ---- Leases ----

  /** A reaper's pass leaves no lapsed lease behind, and takes back exactly those. */
  lemma NoneLapsed(t: Tables, now: Instant)
    ensures forall i | i in Next(t, Reap(now)).subs :: !Lapsed(Next(t, Reap(now)).subs[i], now)
    ensures forall i | i in t.subs ::
              i in Next(t, Reap(now)).subs && (Next(t, Reap(now)).subs[i] == t.subs[i] <==> !Lapsed(t.subs[i], now))
  {
    forall i | i in t.subs
      ensures i in Next(t, Reap(now)).subs && !Lapsed(Next(t, Reap(now)).subs[i], now)
      ensures Next(t, Reap(now)).subs[i] == t.subs[i] <==> !Lapsed(t.subs[i], now)
    {
      RowExactly(t, Reap(now), i);
    }
    KeysStep(t, Reap(now));
  }

  /** At every instant but the one its lease ends, a running submission can either still be finished by
    * its claim or be reaped: never both, never neither. */
  lemma HeldOrReaped(t: Tables, i: SubmissionId, passed: bool, score: int, now: Instant)
    requires Sound(t) && i in t.subs && t.subs[i].state == Running
    ensures t.subs[i].claimedBy.Some? && t.subs[i].leaseUntil.Some? && i in Next(t, Reap(now)).subs
    ensures var claim := t.subs[i].claimedBy.value;
            var delivers := Delivers(t, Complete(i, claim, passed, score, now), i, claim);
            var reaped := Next(t, Reap(now)).subs[i].state != Running;
      && (now != t.subs[i].leaseUntil.value ==> (delivers <==> !reaped))
      && (now == t.subs[i].leaseUntil.value ==> !delivers && !reaped)
  {
    assert RowSound(t.subs[i], t.claims);
    RowExactly(t, Reap(now), i);
  }

  /** A claim, and every renewal while it holds, is good for a minute; the reaper may take the submission
    * back any time after that. */
  lemma GoodForAMinute(t: Tables, i: SubmissionId, claim: ClaimId, at: Instant, passed: bool, score: int, now: Instant)
    requires i in t.subs
    requires (t.subs[i].state == Queued && claim !in t.claims) || Deliverable(t.subs[i], claim, at)
    ensures var r := Next(t, if t.subs[i].state == Queued then Claim(i, claim, at) else Renew(i, claim, at));
      && i in r.subs
      && (Delivers(r, Complete(i, claim, passed, score, now), i, claim) <==> now < at + 60 * SECOND)
      && (Lapsed(r.subs[i], now) <==> now > at + 60 * SECOND)
  {
    RowExactly(t, if t.subs[i].state == Queued then Claim(i, claim, at) else Renew(i, claim, at), i);
  }

  // ---- Attempts ----

  /** How often the submission has been handed out since it was created or last sent back. */
  ghost function HandedOut(t: Tables, ops: seq<Op>, i: SubmissionId): nat {
    if ops == [] then (if i in t.subs then t.subs[i].attempts else 0)
    else
      var before := Run(t, ops[..|ops| - 1]);
      var n := HandedOut(t, ops[..|ops| - 1], i);
      if i !in before.subs then 0
      else
        var s := before.subs[i];
        match ops[|ops| - 1]
        case Claim(id, claim, _) => if id == i && s.state == Queued && claim !in before.claims then n + 1 else n
        case Rejudge(id) => if id == i then 0 else n
        case RejudgeProblem(problem) => if s.problem == problem && (s.state == Passed || s.state == Failed) then 0
            else n
        case _ => n
  }

  /** Over every run the attempts column counts exactly that, never more than three, and the reaper gives
    * a lapsed submission back for the first two times and writes it off the third. */
  lemma {:induction false} AttemptsCount(t: Tables, ops: seq<Op>, i: SubmissionId)
    requires Sound(t)
    ensures i in Run(t, ops).subs ==> Run(t, ops).subs[i].attempts == HandedOut(t, ops, i) <= 3
  {
    RunSound(t, ops);
    if i in Run(t, ops).subs {
      assert RowSound(Run(t, ops).subs[i], Run(t, ops).claims);
      if ops != [] {
        AttemptsCount(t, ops[..|ops| - 1], i);
        AttemptStep(Run(t, ops[..|ops| - 1]), ops[|ops| - 1], i);
      }
    }
  }

  lemma AttemptStep(t: Tables, op: Op, i: SubmissionId)
    requires i in Next(t, op).subs
    ensures Next(t, op).subs[i].attempts ==
            if i !in t.subs then 0
            else
              var s := t.subs[i];
              match op
              case Claim(id, claim, _) => if id == i && s.state == Queued && claim !in t.claims then s.attempts + 1
                  else s.attempts
              case Rejudge(id) => if id == i then 0 else s.attempts
              case RejudgeProblem(problem) =>
                if s.problem == problem && (s.state == Passed || s.state == Failed) then 0 else s.attempts
              case _ => s.attempts
  {
    if i in t.subs {
      RowExactly(t, op, i);
    }
  }

  /** A submission sent back is queued afresh, whatever became of it: any new claim takes it, for its
    * first attempt. */
  lemma RejudgeQueues(t: Tables, i: SubmissionId, claim: ClaimId, at: Instant)
    requires i in t.subs && claim !in t.claims
    ensures var r := Next(t, Rejudge(i));
      && i in r.subs && r.subs[i].state == Queued && r.subs[i].attempts == 0
      && var c := Next(r, Claim(i, claim, at));
      i in c.subs && c.subs[i].state == Running && c.subs[i].claimedBy == Some(claim) && c.subs[i].attempts == 1
  {
    RowExactly(t, Rejudge(i), i);
    RowExactly(Next(t, Rejudge(i)), Claim(i, claim, at), i);
  }

  // ---- The board ----

  /** What counts for a pair. */
  predicate Scores(s: Submission, team: TeamId, problem: ProblemId) {
    s.team == team && s.problem == problem && s.state == Passed && s.review == Accepted && s.finishedAt.Some?
  }

  /** The board's row for a team and problem, over every run from the empty tables: it is there exactly if
    * something counts, and is then the highest score, of several the earliest, of several the least id. */
  lemma BoardExactly(ops: seq<Op>, team: TeamId, problem: ProblemId)
    ensures var t := Run(EMPTY, ops); var pair := Pair(team, problem);
      && (pair in t.scores <==> exists i | i in t.subs :: Scores(t.subs[i], team, problem))
      && (pair in t.scores ==>
            var row := t.scores[pair];
            && row.submission in t.subs && Scores(t.subs[row.submission], team, problem)
            && row.user == t.subs[row.submission].user && row.best == t.subs[row.submission].score
            && row.at == t.subs[row.submission].createdAt
            && forall j | j in t.subs && Scores(t.subs[j], team, problem) ::
                 var s := t.subs[j];
                 || s.score < row.best
                 || (s.score == row.best
                     && (row.at < s.createdAt || (row.at == s.createdAt && row.submission <= j))))
  {
    EmptySound();
    RunSound(EMPTY, ops);
    var t, pair := Run(EMPTY, ops), Pair(team, problem);
    assert RowAt(t.scores, pair) == BestRow(t.subs, pair);
    forall i | i in t.subs
      ensures Scores(t.subs[i], team, problem) <==> i in Counting(t.subs, pair)
    {
    }
    OnBoardExactly(t, pair);
    if w :| IsBest(t.subs, pair, w) {
      BestRowIs(t.subs, pair, w);
      forall j | j in t.subs && Scores(t.subs[j], team, problem)
        ensures Before(t.subs, w, j)
      {
        assert j in Counting(t.subs, pair);
      }
    }
  }
}
