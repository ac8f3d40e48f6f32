# Verified model of the Labyrithm contest platform

This project models the parts of the contest platform whose correctness is hardest to see from one
function at a time, and proves what they promise over every input, every run or every reachable
state.

| files | what they model |
|---|---|
| `AgentTables.dfy`, `AgentProtocol.dfy`, `AgentHistory.dfy`, `AgentService.dfy` | the proctor-agent protocol, and what its rows say of the past: enrolments, heartbeats split into an unlocked read and a guarded write, buffered replays, shutdown, revocation, and the sweep that tells "one contestant went dark" from "we broke" |
| `Gate.dfy`, `GateCache.dfy` | the submission gate: the decision, what whole runs of the protocol imply for it, and its two-second cache under concurrent calls |
| `ContestClock.dfy`, `ContestTime.dfy`, `ContestView.dfy` | the contest clock: four statuses and whole-second stamps; what whole runs of its controls give contestants, with the running time counted instant by instant; and what they are shown of it |
| `JudgeQueue.dfy`, `JudgeRows.dfy`, `JudgeStore.dfy` | the judge's queue: leases, the reaper, reviews and rejudges, and the score table maintained beside them |
| `RateLimit.dfy`, `RunGuard.dfy` | bounded memory that must answer like unbounded memory |
| `SignalLog.dfy`, `Csv.dfy`, `TestFiles.dfy`, `Pagination.dfy`, `Ordering.dfy`, `WordWrap.dfy` | self-contained algorithms |
| `Wrappers.dfy`, `Sequences.dfy` | shared helpers |

Objects that the source updates in place are classes here (`AgentService.Repository`,
`ContestClock.Manager`, `RateLimit.LimiterStore`, ...). Each of their methods is proved equal to one
transition of a state machine written as functions, and the theorems are about runs of that machine.
Instants are integers, in nanoseconds. Each SQL statement is one atomic transition of the tables.

## Results that differ from what the repository says

- `GateCache.InvalidateForcesExactly`: the comment at `backend/internal/agent/gate.go:429` says that an
  invalidation forces the next check to query live state. It does so exactly when no call has already
  read the user's old state without storing it yet; otherwise that call puts the old state back.
- `AgentProtocol.DeliveredAgainExactly`: a sequence number the row already covers is accepted again if and
  only if the row is not stopped and did not cover it when the request was read, so another heartbeat was
  written in between. `OverlapAcceptsTwice` is such a run; `AcceptedOnce` shows it cannot happen when the
  read comes after the write.
- `AgentTables.RestoreAbortsExactly`: restoring a contestant's access makes all their enrolments live at once,
  and `backend/internal/db/migrations/0007_agents.sql:30` lets that stand if and only if they have enrolled no
  more than once. After a second enrolment a restore changes nothing, ever (`AgentProtocol.RestoreInVain`), and
  a contestant who was revoked stays without a live enrolment (`AgentProtocol.RestoreLeavesNothing`).
- `Gate.ReenrolmentAdmits`: a contestant who stopped proctoring gets back in without lifting the stop, by
  enrolling again, on the same machine and in the same boot. `Gate.StoppedIsRefused` counts this among the
  only ways in.
- `ContestTime.LateEditCosts`: lengthening the contest after its stored end takes exactly the time since that
  end away from contestants; `LateEditRun` is a run in which two hours are 7140 seconds. `CutShortRunsOver`:
  shortening it to an end already past gives them that much more. `ContestTime.OnTimeExactly` lists all the
  steps that change the running time.
- `ContestTime.InBalanceExactly`: extending after the stored end, and editing the duration while not RUNNING,
  are exactly the steps that break the balance of stored seconds.
- `Csv.RoundTripExactly`: a tab in any field makes the parser switch delimiter, so the row is lost,
  unless it is a single quoted field.
- `Gate.SweepLeadsGate`: the sweep compares exact times and the gate whole seconds, so on one threshold
  the sweep calls an agent dark up to one second before the gate refuses it.
- `TestFiles.NothingLostExactly` and `TestFiles.OrderFreeExactly`: from the third file of one base name
  on, uploads vanish without being reported, and upload order decides which side is the input unless
  exactly one of the two names marks an output only.
- `docs/client-design.md:234` speaks of more than 30% of agents inside one 60-second window. The code
  opens an incident at 30% or more of at least ten watched agents that are stale at the sweep, with no
  window; the model follows the code.
- `backend/README.md:112-120` counts an attempt in the reaper. The code counts it when a submission is
  claimed; the model follows the code.

## Model

| member | source | states |
|---|---|---|
| AgentTables.SweepSettles | backend/internal/agent/service.go:227-268 | One sweep either takes the blame or settles every contestant: after a local sweep no incident is open and a live enrolment's user has an open gap exactly when it is unstopped and stale; after a fleet-wide one an incident is open, no open gap starts later than 60 s before it, and only such gaps were dropped; closed gaps are never touched and no row appears from nowhere |
| AgentTables.LocalSweepSettles | backend/internal/agent/service.go:253-268 | The branch that blames contestants one by one |
| AgentTables.FleetSweepSettles | backend/internal/agent/service.go:235-251 | The branch that opens an incident and discards the gaps inside it |
| AgentTables.CloseGapsKeepsOne | backend/internal/agent/repository.go:297-315 | Closing leaves open exactly the gaps of users whose live agent is neither stopped nor in contact |
| AgentTables.OpenGapsOpens | backend/internal/agent/repository.go:281-295 | Opening adds a gap for exactly the users with a dark agent |
| AgentTables.OpenGapsKeepsOne | backend/internal/db/migrations/0007_agents.sql:77-78 | At most one open gap per user survives the insert |
| AgentTables.IncidentNeedsThreeUsers | backend/internal/agent/service.go:15-19 | The thresholds mean an incident needs three different contestants dark at once |
| AgentHistory.IncidentExactly | backend/internal/agent/service.go:227-268 | A sweep leaves an incident open if and only if at least ten agents are watched and three in ten of them silent, counted on the columns; one it opens is dated now and holds both counts |
| AgentHistory.DiscardExactly | backend/internal/agent/repository.go:317-330 | A fleet-wide sweep keeps exactly the closed gaps and those begun more than sixty seconds before the incident |
| AgentHistory.OpenedGapSays | backend/internal/agent/repository.go:281-295 | Every gap a sweep opens names a live, unstopped agent silent beyond the threshold and its user, and starts when the agent was last seen, or else enrolled |
| AgentHistory.BlackoutStartsAtLastContact | backend/internal/agent/repository.go:281-295 | Over every run, a blackout opened by a sweep began at the last heartbeat accepted from that agent, or at its enrolment if there was none |
| AgentTables.RestoreAbortsExactly | backend/internal/agent/repository.go:649-659 | The update that restores a user's enrolments breaks the unique index on live rows if and only if the user has enrolled more than once |
| AgentTables.RestoreLeavesLiveExactly | backend/internal/api/admin_users.go:519-527 | A restore leaves a live enrolment if and only if there was one already or the user has exactly one in all |
| AgentProtocol.NextConsistent | backend/internal/agent/repository.go:25-76 | Every step keeps one live enrolment and one open gap per user and one open incident, and keeps closed gaps |
| AgentProtocol.RunConsistent | backend/internal/db/migrations/0007_agents.sql:30-31 | The same over every run of enrolments, interleaved heartbeats, flushes, shutdowns, revocations, restorations and sweeps |
| AgentProtocol.EverySweepSettles | backend/internal/agent/service.go:227-268 | What one sweep settles, it settles in every reachable state |
| AgentProtocol.FlushKeepsRows | backend/internal/agent/service.go:191-203 | A flush of held heartbeats appends one backfill event each, at the wall time it was observed, and moves no row |
| AgentProtocol.StepProjects | backend/internal/agent/repository.go:117-191 | What every step does to one enrolment's row, so that a run is a fold over that row's own events |
| AgentProtocol.StopStep | backend/internal/agent/repository.go:135-136 | A stop is lifted by exactly two steps: an accepted heartbeat of another boot, or a restoration; any other leaves the row frozen |
| AgentProtocol.StopHoldsExactly | backend/internal/agent/service.go:205-210 | Under every interleaving, also of heartbeats read before the stop and written after it, an enrolment stays stopped exactly as long as no lifting step is taken |
| AgentProtocol.SeqStep | backend/internal/agent/repository.go:121-124 | No step lowers the stored sequence within a boot |
| AgentProtocol.SeqNeverDecreases | backend/internal/agent/repository.go:121-124 | Nor does any run |
| AgentHistory.LargestAccepted | backend/internal/agent/repository.go:121-124 | Over every run the stored number is the largest accepted since the stored boot was first written |
| AgentHistory.ReplayExactly | backend/internal/agent/service.go:44-86 | A heartbeat of that boot is taken for a replay if and only if its number is positive and no larger than one accepted since then, however high the numbers of an earlier boot |
| AgentHistory.EnrollExactly | backend/internal/agent/repository.go:25-76 | An enrolment writes a blank live row and stamps just the user's live rows as revoked |
| AgentHistory.LastSeenIs | backend/internal/agent/repository.go:117-146 | Over every run the row names the user, machine and instant enrolled, and was last seen at its last accepted heartbeat, or never |
| AgentHistory.SkewExactly | backend/internal/agent/service.go:52-59 | Between consecutive reports a skew is reported if and only if the agent's clock moved by more than two minutes against the server's, and is that movement |
| AgentHistory.CrashExactly | backend/internal/agent/service.go:47-50 | A crash is recorded if and only if a boot other than the last reported one arrives without a stop |
| AgentProtocol.RestoreInVain | backend/internal/agent/repository.go:649-659 | Once a user has enrolled twice, restoring their access changes nothing in any later state |
| AgentProtocol.RestoreLeavesNothing | backend/internal/api/admin_users.go:519-527 | From any state, a contestant who enrols twice, is revoked and then restored has no live enrolment |
| AgentProtocol.StaysRevoked | backend/internal/agent/repository.go:43-47 | A superseded enrolment is never live again, over any run |
| AgentProtocol.AcceptedOnce | backend/internal/agent/service.go:44-86 | When a request is read after a write, the number it delivers is greater than the one written, within a boot |
| AgentProtocol.DeliveredAgainExactly | backend/internal/agent/service.go:44-86 | Over every run: a number the row already covers is accepted if and only if the row is not stopped and did not cover it at the request's read; then, and within one boot only then, another write fell in between |
| AgentProtocol.OverlapAcceptsTwice | backend/internal/agent/service.go:71-86 | A run in which overlapping reads let one number in twice |
| AgentProtocol.ReplaysAreNotContact | backend/internal/agent/service.go:71-86 | Buffered heartbeats, and those whose number the row covered when read, however many, leave last contact unchanged |
| AgentProtocol.ReportStored | backend/internal/agent/repository.go:117-146 | An accepted write stores the reported boot, hash and time, starts the number afresh on a new boot and otherwise keeps the larger, lifts the stop, and dates the last event exactly when one was written |
| AgentProtocol.ChangesAreLogged | backend/internal/agent/service.go:106-133 | Between two consecutive reports of an agent, over any run, a new boot or changed signals get an event of their kind, repeated signals a keepalive once the interval is over, and none before |
| AgentProtocol.NonceWindow | backend/internal/agent/repository.go:126-127 | The two nonce columns are always the last two entries of the full history without consecutive repeats |
| AgentProtocol.NonceAcceptedExactly | backend/internal/agent/repository.go:263-279 | The server accepts exactly those two, over every run since enrolment |
| AgentService.Repository.Enroll | backend/internal/agent/repository.go:25-76 | Supersedes the user's live row, inserts a fresh one, and reports a rebind exactly when the machine differs |
| AgentService.Repository.GetByToken | backend/internal/agent/repository.go:94-115 | Finds exactly the unrevoked enrolments, and says which of the two errors otherwise |
| AgentService.Repository.RecordHeartbeat | backend/internal/agent/repository.go:117-146 | Writes the row exactly when the guard holds on the row as it is now, and otherwise changes nothing |
| AgentService.Repository.MarkStopped | backend/internal/agent/repository.go:172-180 | From then on the guard lets through exactly the heartbeats of another boot |
| AgentService.Repository.Revoke | backend/internal/agent/repository.go:182-191 | The row is no longer live; an earlier revocation is kept |
| AgentService.Repository.VerifyNonce | backend/internal/agent/repository.go:263-279 | True exactly for a non-empty nonce in either column of the user's live row |
| AgentService.Repository.FleetHealth | backend/internal/agent/repository.go:248-261 | Counts the watched rows and the dark ones among them |
| AgentService.Repository.OpenGaps | backend/internal/agent/repository.go:281-295 | A gap is open afterwards for exactly the users who had one or have a dark agent, and no gap is lost |
| AgentService.Repository.CloseGaps | backend/internal/agent/repository.go:297-315 | A gap stays open for exactly the users who had one and whose live agent is neither stopped nor in contact |
| AgentService.Repository.DiscardGapsInIncident | backend/internal/agent/repository.go:317-330 | Every gap still open started more than 60 seconds before the open incident; closed gaps stay, and without an incident all do |
| AgentService.Repository.OpenIncident | backend/internal/agent/repository.go:332-342 | Inserts exactly when none is open, and says whether it did |
| AgentService.Repository.CloseIncident | backend/internal/agent/repository.go:344-352 | None is open afterwards, and says whether one was |
| AgentService.Service.Heartbeat | backend/internal/agent/service.go:71-133 | A live heartbeat is the protocol's write step, accepted exactly when it is no replay of the row as read and passes the guard on the row as written; a refused or buffered one moves no row |
| AgentService.Service.Flush | backend/internal/agent/service.go:191-203 | A buffered batch refines the protocol's flush step |
| AgentService.Service.Shutdown | backend/internal/agent/service.go:205-210 | Shutdown is the protocol's stop step |
| AgentService.Service.Sweep | backend/internal/agent/service.go:227-268 | The method's sequence of statements is the sweep transition, with all it settles |
| Gate.DecideExactly | backend/internal/agent/gate.go:151-274 | Decide implements the policy stated on stored state alone; each refusal has the one code that names its cause and leaves a finding |
| Gate.ClaimNeverDecides | backend/internal/agent/gate.go:118-145 | The desktop claim and shell sightings never change the answer or the code; a desktop label needs both, and a live agent |
| Gate.CleanExactly | backend/internal/agent/gate.go:184-274 | A submission is allowed without a finding exactly when it came attested from the desktop client beside a fresh agent, or the outage was the server's |
| Gate.ModeExactly | backend/internal/agent/gate.go:118-169 | A submission counts as the desktop client's if and only if the agent is live, no grant stands, and the claim is backed by a live shell or one seen in the last twenty seconds |
| Gate.FindingsExactly | backend/internal/agent/gate.go:175-274 | The list of findings and weights of every decision |
| Gate.GateFromTables | backend/internal/agent/repository.go:209-241 | The gate's answer from the rows alone: excused by an exemption or grant that is untimed or not yet expired, or admitted by a live enrolment that has reported, or by an open incident |
| Gate.ModeFromTables | backend/internal/agent/gate.go:118-171 | A submission counts as the desktop client's if and only if, on the rows, no grant stands, a live enrolment reports within the threshold, and the claim is backed by a shell alive or seen in the last twenty seconds |
| Gate.TimedExcuses | backend/internal/agent/repository.go:213-224 | A timed exemption and a timed grant let in at exactly the instants before they expire |
| Gate.TruncatedSilence | backend/internal/agent/gate.go:163-168 | Comparing truncated seconds is a strict bound one second higher |
| Gate.StatusForetellsCheck | backend/internal/agent/gate.go:330-427 | What Check allows, Status allows; Status allows what Check refuses only for missing attestation; refusals carry the same code |
| Gate.StoppedIsRefused | backend/internal/agent/gate.go:151-224 | Over every run from a contestant's stop, on the columns: the gate admits if and only if they are excused or a reported enrolment of theirs admits them, which counts only after a lifting step or if made later, and otherwise only in an incident; until then the code names the cause |
| Gate.LiveIsThisOrLater | backend/internal/agent/repository.go:25-76 | Over every run a user's live enrolment is the one they had or a later one |
| Gate.ReenrolmentAdmits | backend/internal/api/agent.go:99-190 | From every state, a stopped contestant who enrols again and sends one heartbeat, be it of the same boot, is admitted though nothing lifted the stop |
| Gate.ReplaysDoNotKeepGateOpen | backend/internal/agent/gate.go:151-168 | However many replays, once the threshold in force and a second have passed since the last true contact, the gate admits if and only if excused, in an incident, or by a later enrolment |
| Gate.SweepLeadsGate | backend/internal/agent/repository.go:252-255 | Sweep and gate disagree on the same row exactly during the one second after the threshold |
| GateCache.StatusGate.Status | backend/internal/agent/gate.go:385-427 | A hit answers from the cache, a miss loads and stores with an expiry of two seconds, a failed load changes nothing |
| GateCache.StatusGate.Invalidate | backend/internal/agent/gate.go:430-437 | No instant finds the user's entry, every other user's is untouched |
| GateCache.RunHonest | backend/internal/agent/gate.go:385-407 | Over every interleaving each reading was taken within two seconds of the call that uses it |
| GateCache.StatusIsFresh | backend/internal/agent/gate.go:385-437 | A Status call starting at t decides on a state read later than t minus two seconds |
| GateCache.InvalidateForcesExactly | backend/internal/agent/gate.go:429-437 | The comment's promise holds if and only if no load of that user's older state is in flight |
| GateCache.PurgedStep | backend/internal/agent/gate.go:401-406 | Without such a load no step brings back a state older than the invalidation |
| ContestClock.Manager.GetState | backend/internal/contest/manager.go:63-156 | The state contestants see, branch by branch, as one function of the snapshot and the clock |
| ContestClock.Manager.StartContest | backend/internal/contest/manager.go:158-191 | The Start transition and its refusals |
| ContestClock.Manager.PauseContest | backend/internal/contest/manager.go:193-211 | The Pause transition, refused once the clock has run out |
| ContestClock.Manager.ResumeContest | backend/internal/contest/manager.go:213-245 | The Resume transition |
| ContestClock.Manager.ExtendContest | backend/internal/contest/manager.go:247-280 | The Extend transition, re-based on now after the stored end |
| ContestClock.Manager.FreezeBoard | backend/internal/contest/manager.go:282-296 | Freezes without touching the clock |
| ContestClock.Manager.UnfreezeBoard | backend/internal/contest/manager.go:298-311 | No instant finds the board frozen, not even past the cutoff |
| ContestClock.Manager.ResetContest | backend/internal/contest/manager.go:313-330 | Every instant shows a contest not started, with its whole duration left |
| ContestClock.Manager.EndContest | backend/internal/contest/manager.go:332-346 | Every instant shows a contest ended |
| ContestClock.Manager.EditSettings | backend/internal/contest/manager.go:348-409 | The duration and freeze edits as one transition |
| ContestClock.Manager.DurationEdits | backend/internal/contest/manager.go:364-379 | The end moves only while RUNNING, by the difference of the durations |
| ContestTime.AfterIs | backend/internal/contest/manager.go:158-409 | What each control makes of a contest in any state, once written as whole-second stamps and parsed again |
| ContestTime.TrackIs | backend/internal/contest/contest.go:66-177 | Over every run the snapshots reasoned about are those the manager parses from its settings |
| ContestTime.ShownIs | backend/internal/contest/manager.go:71-97 | The instants at which contestants are shown a running contest, counted one by one |
| ContestTime.WaitKeeps | backend/internal/contest/manager.go:63-156 | Waiting turns running time to come into running time shown, one for one |
| ContestTime.StepExcess | backend/internal/contest/manager.go:193-280 | A control changes the running time against the duration by its drift and its rounding, and by nothing else |
| ContestTime.DriftExactly | backend/internal/contest/manager.go:247-280 | A control drifts if and only if it extends past the stored end, off a whole second or paused, or edits the duration to another value while paused, after the stored end, or to an end already past |
| ContestTime.TimeIsConserved | backend/internal/contest/manager.go:158-280 | From every Start, over every run of controls, stored end minus start is the duration plus completed pauses plus slips |
| ContestTime.SlipExactly | backend/internal/contest/manager.go:247-378 | A control changes end minus start minus duration by just the pause it completes, unless it extends a whole second or more past the stored end or edits the duration while not RUNNING |
| ContestTime.InBalanceExactly | backend/internal/contest/manager.go:158-378 | The plain balance holds after every step of a run if and only if no step meets one of those guards |
| ContestTime.RunningTimeIsBooked | backend/internal/contest/manager.go:172-245 | Over every run the time shown as RUNNING, past and to come, is the duration plus the drifts, to within n + 1 seconds for n completed pauses |
| ContestTime.RunningTimeIsDuration | backend/internal/contest/manager.go:172-245 | In a run without drifts, after n pauses the time shown as RUNNING from Start to the final end is the configured duration, short by less than n + 1 seconds and over by at most n |
| ContestTime.OnTimeExactly | backend/internal/contest/manager.go:158-378 | The running time is the duration, but for truncation, after every step of a run if and only if no step meets a drifting guard |
| ContestTime.WholeSecondsExact | backend/internal/contest/manager.go:172-245 | On the whole-second clock the running time is the duration plus the drifts to the instant |
| ContestTime.LateEditCosts | backend/internal/contest/manager.go:364-378 | Lengthening the contest after its stored end loses exactly the time since, all of it shown as ENDED |
| ContestTime.CutShortRunsOver | backend/internal/contest/manager.go:364-378 | Shortening it to an end already past runs over by exactly that much |
| ContestTime.LateEditRun | backend/internal/contest/manager.go:364-378 | A run in which a two-hour contest runs 7140 seconds |
| ContestTime.LateExtensionRun | backend/internal/contest/manager.go:261-268 | A run whose stored end slips by a minute while contestants lose nothing |
| ContestTime.PauseIsNeutral | backend/internal/contest/manager.go:193-245 | On whole seconds a pause preserves the remaining time and the freeze flag throughout, and moves the freeze cutoff by its length |
| ContestView.FreezeExactly | backend/internal/contest/manager.go:121-135 | The board is frozen if and only if it was by hand, or, not overridden, fewer than the freeze minutes are left to the stored end, and since when |
| ContestView.StatusExactly | backend/internal/contest/manager.go:71-97 | The status shown is the stored one, but for a clock that has run out |
| ContestView.SecondsAtRest | backend/internal/contest/manager.go:71-118 | The seconds shown before the start, after the end, and without stamps |
| ContestView.ViewOverRuns | backend/internal/contest/manager.go:63-156 | From every Start, at every instant of every run: the seconds left are the running time to come, the seconds gone count from the start, and the board, left to itself, is frozen exactly while less than the freeze minutes of running time are to come |
| ContestView.ClockAddsUp | backend/internal/contest/manager.go:83-111 | Seconds gone and left make up duration, completed pauses and slips, less one between two seconds |
| ContestView.HandDecides | backend/internal/contest/manager.go:282-311 | A board frozen or unfrozen by hand stays so over every run, until the next hand |
| ContestView.RefusedExactly | backend/internal/contest/manager.go:158-250 | Which controls are refused in which state, with which error |
| ContestView.ExtensionReopens | backend/internal/contest/manager.go:261-272 | Extending a contest ended by hand reopens it for the minutes added, counted from the extension |
| ContestView.StoredReadsBack | backend/internal/contest/contest.go:66-130 | A snapshot can be stored and read back if and only if its duration is positive and its freeze not negative |
| ContestView.NothingStored | backend/internal/contest/contest.go:66-130 | Without settings: not started, two hours, frozen half an hour before the end |
| ContestView.JunkIsAbsent | backend/internal/contest/contest.go:66-130 | A value that does not read as what its key holds is as good as absent |
| JudgeQueue.RunSound | backend/internal/judge/queue.go:165-186 | Over every run the maintained score table equals a scan from scratch, no submission is handed out a fourth time between rejudges, and a team has one first-time submission in progress per problem |
| JudgeQueue.NextExact | backend/internal/judge/queue.go:219-253 | Every operation recomputes enough pairs to keep the score table exact, though a requeue recomputes none |
| JudgeQueue.UpdateWhereExact | backend/internal/judge/admin.go:103-130 | The multi-row statements, which recompute only the pairs they return |
| JudgeQueue.UpdateKeepsIndex | backend/internal/db/migrations/0021_submission_concurrency_and_indexes.sql:36-38 | No update can violate the unique index on active first-time submissions |
| JudgeQueue.OnBoardExactly | backend/internal/judge/queue.go:174-181 | A pair is on the board exactly when some submission counts for it, with a score nothing beats |
| JudgeQueue.ResultMovesBoard | backend/internal/judge/queue.go:104-163 | A delivered result moves the board only as an accepted pass that beats what was there, the earlier submission keeping ties |
| JudgeQueue.RejudgeTakesOff | backend/internal/judge/admin.go:73-101 | A rejudge takes exactly that submission's points off the board |
| JudgeQueue.UnfinishedKeepsBoard | backend/internal/judge/admin.go:132-182 | Queueing, claiming, cancelling, unsticking and reaping never move the board |
| JudgeQueue.OneResultPerClaim | backend/internal/judge/queue.go:114-125 | However workers stall and leases expire, one claim writes at most one result |
| JudgeQueue.LostForGood | backend/internal/judge/queue.go:73-86 | A claim that has lost its submission never gets it back |
| JudgeQueue.ReapSettles | backend/internal/judge/reaper.go:10-59 | A pass takes back exactly the running rows whose lease ended before it, requeues those with fewer than three attempts, fails the others, touches nothing else, and leaves none behind |
| JudgeRows.RowExactly | backend/internal/judge/admin.go:12-182 | What every operation makes of every row, column by column, all the others staying as they are |
| JudgeRows.CreatedExactly | backend/internal/judge/repository.go:40-119 | What a submission is created as, and that it is refused exactly while a first-time one is in progress |
| JudgeRows.HeldOrReaped | backend/internal/judge/queue.go:73-125 | At every instant but the one its lease ends, a running submission is either deliverable by its claim or reaped, never both and never neither |
| JudgeRows.GoodForAMinute | backend/internal/judge/queue.go:14-86 | A claim, and every renewal while it holds, is good for sixty seconds, and lapsed after them |
| JudgeRows.AttemptsCount | backend/internal/judge/queue.go:51-57 | Over every run the attempts column counts the times handed out since created or last sent back, at most three |
| JudgeRows.RejudgeQueues | backend/internal/judge/admin.go:73-101 | A submission sent back is queued, and any new claim takes it for its first attempt |
| JudgeRows.BoardExactly | backend/internal/judge/queue.go:174-181 | Over every run from empty tables, a pair's row on the board is the highest score that counts, of several the earliest, of several the least id, on the columns |
| JudgeQueue.ReviewsAlternate | backend/internal/judge/admin.go:37-48 | Over every run of every operation the log of a submission is a chain, its verdicts strictly alternate, and its status is the log's parity |
| JudgeQueue.RejectThenAcceptRestores | backend/internal/judge/admin.go:12-60 | Rejecting leaves the best of the others on the board, and accepting again restores the whole table |
| JudgeStore.Repository.CreateSubmission | backend/internal/judge/repository.go:40-119 | Queues a first-time submission unless the team just submitted or has one in progress |
| JudgeStore.Repository.SelectBest | backend/internal/judge/queue.go:174-181 | The ordered query finds the best counting submission, or shows there is none |
| JudgeStore.Repository.RecomputeProblemScore | backend/internal/judge/queue.go:165-186 | Delete and reinsert give the pair what a scan would |
| JudgeStore.Repository.ReconcileSubmissionChanges | backend/internal/judge/queue.go:219-253 | Recomputes every pair of the changed rows, the same in whatever order, and counts the rows |
| JudgeStore.Repository.ReviewSubmission | backend/internal/judge/admin.go:12-60 | The review transition, logged only when the status changes |
| JudgeStore.Repository.RejudgeSubmission | backend/internal/judge/admin.go:73-101 | The rejudge transition, or not found |
| JudgeStore.Repository.RejudgeProblemSubmissions | backend/internal/judge/admin.go:103-130 | Rejudges the problem's finished submissions and counts them |
| JudgeStore.Repository.CancelSubmission | backend/internal/judge/admin.go:132-158 | Fails an active submission, or reports it is not active |
| JudgeStore.Repository.UnstickTeamSubmissions | backend/internal/judge/admin.go:160-182 | Fails the team's active submissions |
| JudgeStore.Repository.ReclaimExpiredLeases | backend/internal/judge/reaper.go:10-59 | The two statements are one reaping, and the count is the number of expired rows |
| JudgeStore.Repository.ClaimNextSubmission | backend/internal/judge/queue.go:16-71 | Claims a queued submission of least rank, or shows that none is queued |
| JudgeStore.Repository.RenewLease | backend/internal/judge/queue.go:73-86 | Extends the lease exactly while the claim holds it |
| JudgeStore.Repository.CompleteSubmission | backend/internal/judge/queue.go:104-163 | Delivers exactly while the claim holds the lease |
| JudgeStore.OvertakingBound | backend/internal/judge/queue.go:23-41 | What is claimed was created at most ten seconds, for each further pending submission of the waiting team, after any submission left waiting; within a team never after it |
| JudgeStore.NextInLineExactly | backend/internal/judge/queue.go:23-41 | Of two queued submissions the later goes first only if it is less than ten seconds later for each pending submission its team has fewer |
| RateLimit.LimiterStore.Get | backend/internal/api/middleware.go:50-61 | A new key starts full; the key is marked seen |
| RateLimit.LimiterStore.Delete | backend/internal/api/middleware.go:63-67 | At every later instant the key is worth a full bucket, and every other key what it was worth |
| RateLimit.LimiterStore.EvictIdle | backend/internal/api/middleware.go:69-78 | Forgets exactly the keys not seen for the idle period |
| RateLimit.LimiterStore.Take | backend/internal/api/middleware.go:98-116 | Get followed by Allow, as one request with two clock readings |
| RateLimit.SameAnswers | backend/internal/api/middleware.go:69-78 | Stores of equal worth, one evicting and one not, answer alike for ever |
| RateLimit.UnobservableExactly | backend/internal/api/middleware.go:33-48 | Eviction is invisible over all request sequences if and only if an empty bucket refills within the idle period |
| RateLimit.DeclaredStoresHideEviction | backend/internal/api/middleware.go:80-93 | All thirteen declared stores hide their evictions, even with thirteen minutes between the two readings |
| RateLimit.RateIsKept | backend/internal/api/middleware.go:98-116 | Over any time, evictions and all, a key is granted at most its burst and one request for each interval gone by |
| RunGuard.UserRuns.TryAcquire | backend/internal/api/run.go:27-54 | The pruning loop and the two refusals as one transition |
| RunGuard.UserRuns.Release | backend/internal/api/run.go:56-61 | The user's next request is not refused for an active run, and every other user's answer is what it was |
| RunGuard.PruningNeverShows | backend/internal/api/run.go:31-38 | Over every sequence the pruned map answers as the full history would |
| RunGuard.NextGrant | backend/internal/api/run.go:40-53 | From any guard that agrees with the history, the next grant to a user comes a cooldown after their last run began, and after it was released |
| RunGuard.NeverTwoRuns | backend/internal/api/run.go:27-61 | Over every sequence of requests and releases on the pruned map, between two grants to one user the first run was released and three seconds passed |
| RunGuard.ReplyExactly | backend/internal/api/run.go:27-54 | Over every sequence, each reply exactly: refused while a run of the user is on, or else within three seconds of the start of one, and otherwise granted |
| SignalLog.DescribeEvents | backend/internal/agent/eventlog.go:34-103 | The in-place walk describes each row against the newest older report |
| SignalLog.DescribeEntry | backend/internal/agent/eventlog.go:38-98 | One row, case by case |
| SignalLog.DiffSignals | backend/internal/agent/eventlog.go:125-176 | Every difference between two reports, in its fixed order |
| SignalLog.ComputeAdded | backend/internal/agent/eventlog.go:252-265 | What is in the newer list and not in the older, in ascending order |
| SignalLog.ComputeAddedKeys | backend/internal/agent/eventlog.go:267-276 | The same for map keys, each once and in ascending order, whatever order the map is walked in |
| SignalLog.SortOrders | backend/internal/agent/eventlog.go:263 | Sorting gives the same strings in ascending order |
| SignalLog.SortCanonical | backend/internal/agent/eventlog.go:267-276 | Sorting makes the log independent of iteration order |
| SignalLog.DiffReplays | backend/internal/agent/eventlog.go:125-176 | The reported changes carry the older report's sets and flag to the newer one's exactly |
| SignalLog.AppsSaid | backend/internal/agent/eventlog.go:132-143 | Exactly which switch and which opened applications a difference reports, the switch first |
| SignalLog.PortsSaid | backend/internal/agent/eventlog.go:153-159 | Exactly the keys some port has come to be confirmed under, or no longer is, with their labels |
| SignalLog.PortLabelsExactly | backend/internal/agent/eventlog.go:226-240 | A key's label is that of the last confirmed port with it, and no other port has one |
| SignalLog.PortKeyExactly | backend/internal/agent/eventlog.go:226-240 | Two ports share a key if and only if they share rule and number |
| SignalLog.DescribedSays | backend/internal/agent/eventlog.go:34-103 | What title and detail every kind of row is given |
| SignalLog.LogReproducesReports | backend/internal/agent/eventlog.go:34-103 | Given only the oldest report, the structured changes of a described log, read oldest to newest, reproduce the newest report's processes, extensions, confirmed port keys and connectivity |
| Csv.SplitDelimitedLine | admin-frontend/src/lib/csv-utils.ts:1-25 | The index loop refines a scanner |
| Csv.ScanCell | admin-frontend/src/components/credentials-alert.tsx:20-22 | A printed cell scans back to its value under either delimiter |
| Csv.CommaRoundTrip | admin-frontend/src/components/credentials-alert.tsx:53-58 | Rows of trimmed fields survive when the comma is the delimiter |
| Csv.TabsBreakRows | admin-frontend/src/lib/csv-utils.ts:2 | With a tab anywhere the first field read is not the first written |
| Csv.RoundTripExactly | admin-frontend/src/lib/csv-utils.ts:1-25 | Parsing undoes printing for exactly the rows that are not empty, trimmed, and free of tabs or a single quoted field |
| Csv.TrimExactly | admin-frontend/src/lib/csv-utils.ts:17-23 | Trimming drops all white space at both ends and nothing else |
| Csv.TabRoundTripExactly | admin-frontend/src/components/credentials-alert.tsx:12-18 | A line of two or more fields joined by tabs reads back if and only if every field is trimmed and none holds a tab or a quote |
| TestFiles.MatchTestFilePairs | admin-frontend/src/lib/testcase-utils.ts:134-206 | Filling the groups, sorting them by their stored keys and reading them off gives the specified matching |
| TestFiles.FillIs | admin-frontend/src/lib/testcase-utils.ts:167-182 | The four branches amount to keeping a group's first two files, turned only if the first is output-only |
| TestFiles.PlaceFile | admin-frontend/src/lib/testcase-utils.ts:173-181 | The four branches as one rule: the slot asked for if free, or else any free one |
| TestFiles.FillGroups | admin-frontend/src/lib/testcase-utils.ts:167-182 | The first loop refines the collected groups and their order of opening |
| TestFiles.CollectFills | admin-frontend/src/lib/testcase-utils.ts:167-182 | Every base name's collected entry is what its files in upload order determine |
| TestFiles.SortedKeys | admin-frontend/src/lib/testcase-utils.ts:184-186 | Groups are reported by number and then by name, each once |
| TestFiles.PairsExactly | admin-frontend/src/lib/testcase-utils.ts:188-205 | One pair exactly for each base name with two files or more, one leftover exactly for each with one |
| TestFiles.PairSays | admin-frontend/src/lib/testcase-utils.ts:188-203 | Every pair is the first two files of its base name, the output side the first if that marks an output only and else the second, with their sizes together |
| TestFiles.PairsInOrder | admin-frontend/src/lib/testcase-utils.ts:184-191 | The pairs come in ascending order of the number, then of the base name |
| TestFiles.FilesConserved | admin-frontend/src/lib/testcase-utils.ts:134-206 | Every uploaded file is in one side of one pair, in the leftovers, or dropped: none is used twice, and the numbers add up |
| TestFiles.NothingLostExactly | admin-frontend/src/lib/testcase-utils.ts:167-182 | Every upload is accounted for exactly when no base name has three files |
| TestFiles.OrderFreeExactly | admin-frontend/src/lib/testcase-utils.ts:167-182 | For distinct files the matching is independent of upload order if and only if each base name has at most two, and of two exactly one marks an output only |
| Pagination.PageWindow | admin-frontend/src/hooks/use-pagination.ts:61-79 | Ascending numbers with both ends and the page, one unbroken stretch centred on it, an ellipsis between two numbers exactly where they skip, at most maxSlots items from five slots up |
| Pagination.GatherSlots | admin-frontend/src/hooks/use-pagination.ts:66-70 | The loop's set is both ends and one stretch around the page, as far on either side or one further left until it meets an end, of the size asked for |
| Pagination.StripShows | admin-frontend/src/hooks/use-pagination.ts:73-78 | The strip's numbers are the list rendered, its ellipses the skips |
| Pagination.PagesPartitionItems | admin-frontend/src/hooks/use-pagination.ts:31-42 | The pages show every row exactly once and in order, and only an empty table has an empty page |
| Pagination.PageHolds | admin-frontend/src/hooks/use-pagination.ts:31-42 | Each page holds a full page of rows from its place on, or what is left; past the last one is shown the last |
| WordWrap.Wrap | backend/cmd/proctorsim/main.go:562-579 | The loop computes the greedy breaking |
| WordWrap.WrapIsBest | backend/cmd/proctorsim/main.go:562-579 | The lines read back are the words in order, no line of two or more words is too wide, and no breaking of those words under that rule uses fewer lines |
| WordWrap.StaysAhead | backend/cmd/proctorsim/main.go:568-578 | From a line start no earlier than a rival's, greedy needs no more lines |
| WordWrap.FieldsKeepLetters | backend/cmd/proctorsim/main.go:563 | The words hold every letter of the text, in order, and nothing else |

## Left out

- HTTP handlers, routing, authentication, React components, load generators and configuration parsing.
- PostgreSQL itself: each statement, and each transaction, is one atomic step. Within one transaction
  `now()` and the server's own clock are one instant.
- Tables are maps by id or sets of rows: two gap rows or incident rows equal in every modelled column
  count once. The columns for versions, ports, hashes, platforms, stop reasons and gap lengths in seconds
  are not modelled.
- Telemetry batching and risk findings of a heartbeat (`record`, `ApplyEndpointSignals`); the findings of
  `Decide` keep rule and weight, not their evidence. IP addresses and remedy texts are not modelled.
- AgentProtocol.Read: the token is its enrolment's id; hashing of tokens and passwords is not modelled.
- AgentProtocol.RestoreLeavesNothing: the rest of a restore, which also grants web-only access and lifts a suspension,
  is not modelled; the grant is one of the gate's inputs.
- Boot ids are compared as strings; the database compares UUIDs in canonical form.
- A sweep is one step. Two overlapping sweeps, and heartbeats between the statements of one, are not modelled.
- Settings thresholds (`buildSnapshot`, `splitTerms`): simple clamping; the gate and the sweep take any threshold.
- ContestClock.ParseSnapshot: stored texts are typed values, so the parsing of numbers and RFC 3339 stamps is not
  modelled, nor are the title, proctor and download settings.
- ContestClock.Manager.Save: saves all its keys at once and reloads the snapshot; a failing store, a save
  interrupted between keys, and the periodic reload of another process's changes are not modelled.
- ContestClock.Manager.GetState: whole seconds are exact integers, where the source rounds through floating point.
- RateLimit.LimiterStore.Allow: the bucket is exact integer arithmetic, where the rate library uses floating
  point; no other operation falls between a request's Get and its Allow.
- JudgeStore.Repository.CreateSubmission: the look-ups of the problem and its tests, and the maximum scores, are
  not modelled; the checks and the insert are one step.
- JudgeStore.Repository.ClaimNextSubmission: no row is locked by another worker, so SKIP LOCKED skips none.
- JudgeStore.Repository.CompleteSubmission: per-test rows, verdict texts, retries of a failed transaction and
  notifications are not modelled.
- JudgeStore.Repository.ReviewSubmission: the columns for reason, reviewer and time on the submission itself are
  not modelled; the log keeps reviewer and reason.
- Sandbox execution, leaderboard queries and risk scoring.
- SignalLog.LogReproducesReports: is about structured changes, not about the sentences made of them: a port's sentence
  names its product and number and not the rule in its key, and a standing row prints a summary that loses detail.
- SignalLog.DescribeEntry: sentences are structured changes; titles are one constant except for the headline;
  application names and durations in prose are not modelled, nor is JSON decoding.
- WordWrap.Fields: only ASCII white space separates words.
- Pagination.PageWindow: asks for a page in range, as the hook's clamp ensures.
- Csv.SplitDelimitedLine: the splitting of a whole file into lines.
- Csv.TabRow: which fields of a credential a copied line has.
- TestFiles.File: what the name normaliser extracts (base name, input and output marks, number) is given; its
  regular expressions are not modelled, and collation is a rank.
- `generateEvenPoints`, `calculateScoringSummary`, `formatHeadTailPreview`, `LatencyTracker`, the page
  state of the hooks and `privateIP`: they would only add easy members.
