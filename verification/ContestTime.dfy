/** What the contest clock gives contestants over whole runs of its controls: the running time they
  * are shown, counted instant by instant, against the duration configured. */
module ContestTime {
  import opened Wrappers
  import opened Sequences
  import opened ContestClock

  // ---- Runs ----

  datatype Timed = Timed(op: Op, at: Instant)

  function Run(s: Settings, steps: seq<Timed>): Settings {
    if steps == [] then s else Apply(Run(s, Front(steps)), Last(steps).op, Last(steps).at)
  }

  function Clock(t0: Instant, steps: seq<Timed>): Instant { if steps == [] then t0 else Last(steps).at }

  /** Time goes forward from t0, and nobody ends or resets the contest. */
  ghost predicate Uninterrupted(t0: Instant, steps: seq<Timed>) {
    && (forall k | 0 <= k < |steps| :: t0 <= steps[k].at && steps[k].op != End && steps[k].op != Reset)
    && (forall j, k | 0 <= j < k < |steps| :: steps[j].at <= steps[k].at)
  }

  lemma FrontUninterrupted(t0: Instant, steps: seq<Timed>)
    requires Uninterrupted(t0, steps) && steps != []
    ensures Uninterrupted(t0, Front(steps)) && Clock(t0, Front(steps)) <= Last(steps).at
    ensures Last(steps).op != End && Last(steps).op != Reset
  {
  }

  lemma PrefixUninterrupted(t0: Instant, steps: seq<Timed>, k: nat)
    requires Uninterrupted(t0, steps) && k <= |steps|
    ensures Uninterrupted(t0, steps[..k])
  {
  }

  /** Every snapshot between a Start and the next End or Reset. */
  predicate Underway(snap: Snapshot, now: Instant) {
    && (snap.status == Running || snap.status == Paused)
    && snap.startTime.Some? && snap.endTime.Some? && snap.durationSeconds > 0
    && (snap.status == Paused <==> snap.pausedAt.Some?)
    && (snap.pausedAt.Some? ==> snap.pausedAt.value * SECOND <= now && snap.pausedAt.value <= snap.endTime.value)
  }

  // ---- One step ----

  function EndAt(snap: Snapshot): Instant
    requires snap.endTime.Some?
  {
    snap.endTime.value * SECOND
  }

  function EditedEnd(snap: Snapshot, minutes: int): int
    requires snap.endTime.Some?
  {
    snap.endTime.value + minutes * 60 - snap.durationSeconds
  }

  /** What each control makes of a snapshot, in whole seconds. */
  function After(snap: Snapshot, op: Op, now: Instant): Snapshot {
    var second := now / SECOND;
    match op
    case Start(minutes) =>
      if snap.status == Running || snap.status == Paused then snap
      else
        var duration := if minutes > 0 then minutes * 60 else snap.durationSeconds;
        snap.(status := Running, durationSeconds := duration, startTime := Some(second),
            endTime := Some(second + duration),
              pausedAt := None, isFrozen := false, freezeOverridden := false)
    case Pause =>
      if snap.status != Running || PastEnd(snap, now) then snap else snap.(status := Paused, pausedAt := Some(second))
    case Resume =>
      if snap.status != Paused then snap
      else
        var end :=
          if snap.endTime.None? || snap.pausedAt.None? then second + snap.durationSeconds
          else snap.endTime.value + if now < snap.pausedAt.value * SECOND then 0 else second - snap.pausedAt.value;
        snap.(status := Running, pausedAt := None, endTime := Some(end))
    case Extend(minutes) =>
      if minutes <= 0 then snap
      else
        snap.(status := if snap.status == Ended then Running else snap.status,
              durationSeconds := snap.durationSeconds + minutes * 60,
              endTime := if snap.endTime.None? then None
                         else Some(minutes * 60 + if now > EndAt(snap) then second else snap.endTime.value))
    case Freeze => snap.(isFrozen := true, freezeStartTime := Some(second), freezeOverridden := false)
    case Unfreeze => snap.(isFrozen := false, freezeStartTime := None, freezeOverridden := true)
    case Reset =>
      snap.(status := NotStarted, startTime := None, endTime := None, pausedAt := None,
            isFrozen := false, freezeStartTime := None, freezeOverridden := false)
    case End => snap.(status := Ended, endTime := Some(second), pausedAt := None)
    case UpdateSettings(minutes, freezeMinutes) =>
      snap.(durationSeconds := if minutes > 0 then minutes * 60 else snap.durationSeconds,
            endTime := if minutes <= 0 || snap.status != Running then snap.endTime
                       else if snap.endTime.Some? then Some(EditedEnd(snap, minutes))
                       else if snap.startTime.Some? then Some(snap.startTime.value + minutes * 60)
                       else None,
            freezeMinutes := if freezeMinutes >= 0 then freezeMinutes else snap.freezeMinutes)
  }

  lemma Fraction(t: Instant)
    ensures t / SECOND * SECOND <= t < (t / SECOND + 1) * SECOND
  {
  }

  lemma WholePlus(k: int, t: Instant)
    ensures (k * SECOND + t) / SECOND == k + t / SECOND
  {
  }

  lemma AfterStart(s: Settings, minutes: int, now: Instant)
    ensures ParseSnapshot(Apply(s, Start(minutes), now)) == After(ParseSnapshot(s), Start(minutes), now)
  {
    var snap := ParseSnapshot(s);
    WholePlus(if minutes > 0 then minutes * 60 else snap.durationSeconds, now);
  }

  lemma AfterResume(s: Settings, now: Instant)
    ensures ParseSnapshot(Apply(s, Resume, now)) == After(ParseSnapshot(s), Resume, now)
  {
    var snap := ParseSnapshot(s);
    if snap.status == Paused {
      WholePlus(snap.durationSeconds, now);
      if snap.endTime.Some? && snap.pausedAt.Some? {
        WholePlus(snap.endTime.value, 0);
        WholePlus(snap.endTime.value - snap.pausedAt.value, now);
        assert EndAt(snap) + (now - snap.pausedAt.value * SECOND) ==
               (snap.endTime.value - snap.pausedAt.value) * SECOND + now;
      }
    }
  }

  /** The keys an extension writes. */
  lemma ExtendKeys(snap: Snapshot, minutes: int, now: Instant)
    requires minutes > 0
    ensures var u, after := Updates(snap, Extend(minutes), now).updates, After(snap, Extend(minutes), now);
      && u.Keys <= {DurationKey, EndKey, StatusKey}
      && Lookup(u, DurationKey) == Number(after.durationSeconds)
      && (if after.endTime.Some? then Lookup(u, EndKey) == Stamp(after.endTime.value) else EndKey !in u)
      && (if snap.status == Ended then Lookup(u, StatusKey) == Word(Running) else StatusKey !in u)
  {
    if snap.endTime.Some? {
      WholePlus(minutes * 60, Max(EndAt(snap), now));
      WholePlus(snap.endTime.value, 0);
    }
  }

  lemma ParseExtension(s: Settings, u: Settings)
    requires u.Keys <= {DurationKey, EndKey, StatusKey}
    requires Lookup(u, DurationKey).Number? && Lookup(u, DurationKey).n > 0
    requires StatusKey in u ==> u[StatusKey].Word?
    ensures var snap, after := ParseSnapshot(s), ParseSnapshot(s + u);
      && after == snap.(durationSeconds := Lookup(u, DurationKey).n, endTime := after.endTime, status := after.status)
      && after.endTime == (if EndKey in u then ParseTime(u[EndKey]) else snap.endTime)
      && after.status == (if StatusKey in u then u[StatusKey].status else snap.status)
  {
  }

  lemma AfterExtend(s: Settings, minutes: int, now: Instant)
    ensures ParseSnapshot(Apply(s, Extend(minutes), now)) == After(ParseSnapshot(s), Extend(minutes), now)
  {
    if minutes > 0 {
      ExtendKeys(ParseSnapshot(s), minutes, now);
      ParseExtension(s, Updates(ParseSnapshot(s), Extend(minutes), now).updates);
    }
  }

  lemma AfterFreeze(s: Settings, now: Instant)
    ensures ParseSnapshot(Apply(s, Freeze, now)) == After(ParseSnapshot(s), Freeze, now)
  {
  }

  lemma AfterUnfreeze(s: Settings, now: Instant)
    ensures ParseSnapshot(Apply(s, Unfreeze, now)) == After(ParseSnapshot(s), Unfreeze, now)
  {
  }

  lemma AfterReset(s: Settings, now: Instant)
    ensures ParseSnapshot(Apply(s, Reset, now)) == After(ParseSnapshot(s), Reset, now)
  {
  }

  lemma AfterEnd(s: Settings, now: Instant)
    ensures ParseSnapshot(Apply(s, End, now)) == After(ParseSnapshot(s), End, now)
  {
  }

  /** The keys an edit writes. */
  lemma EditKeys(snap: Snapshot, minutes: int, freezeMinutes: int, now: Instant)
    ensures var u := Updates(snap, UpdateSettings(minutes, freezeMinutes), now).updates;
            var end := After(snap, UpdateSettings(minutes, freezeMinutes), now).endTime;
      && u.Keys <= {DurationKey, EndKey, FreezeMinutesKey} && (forall key | key in u :: u[key] != Blank)
      && Lookup(u, DurationKey) == (if minutes > 0 then Number(minutes * 60) else Blank)
      && Lookup(u, FreezeMinutesKey) == (if freezeMinutes >= 0 then Number(freezeMinutes) else Blank)
      && (if minutes > 0 && snap.status == Running && end.Some? then Lookup(u, EndKey) == Stamp(end.value)
          else EndKey !in u && end == snap.endTime)
  {
    if snap.endTime.Some? {
      WholePlus(EditedEnd(snap, minutes), 0);
    } else if snap.startTime.Some? {
      WholePlus(snap.startTime.value + minutes * 60, 0);
    }
  }

  /** Writing those keys leaves the rest of the snapshot alone. */
  lemma ParseEdit(s: Settings, u: Settings)
    requires u.Keys <= {DurationKey, EndKey, FreezeMinutesKey}
    ensures var snap, after := ParseSnapshot(s), ParseSnapshot(s + u);
            var duration, freeze := Lookup(u, DurationKey), Lookup(u, FreezeMinutesKey);
      && after == snap.(durationSeconds := after.durationSeconds, endTime := after.endTime,
                        freezeMinutes := after.freezeMinutes)
      && after.durationSeconds == (if duration.Number? && duration.n > 0 then duration.n
                                   else if DurationKey in u then DEFAULT_DURATION_SECONDS else snap.durationSeconds)
      && after.endTime == (if EndKey in u then ParseTime(u[EndKey]) else snap.endTime)
      && after.freezeMinutes == (if freeze.Number? && freeze.n >= 0 then freeze.n
                                 else if FreezeMinutesKey in u then DEFAULT_FREEZE_MINUTES else snap.freezeMinutes)
  {
  }

  lemma AfterEdit(s: Settings, minutes: int, freezeMinutes: int, now: Instant)
    ensures var op := UpdateSettings(minutes, freezeMinutes);
      ParseSnapshot(Apply(s, op, now)) == After(ParseSnapshot(s), op, now)
  {
    var u := Updates(ParseSnapshot(s), UpdateSettings(minutes, freezeMinutes), now).updates;
    EditKeys(ParseSnapshot(s), minutes, freezeMinutes, now);
    ParseEdit(s, u);
  }

  /** Saving a control's stamps and parsing them back is its effect on the snapshot, in every state. */
  lemma AfterIs(s: Settings, op: Op, now: Instant)
    ensures ParseSnapshot(Apply(s, op, now)) == After(ParseSnapshot(s), op, now)
  {
    match op {
      case Start(minutes) => AfterStart(s, minutes, now);
      case Resume => AfterResume(s, now);
      case Extend(minutes) => AfterExtend(s, minutes, now);
      case UpdateSettings(minutes, freezeMinutes) => AfterEdit(s, minutes, freezeMinutes, now);
      case Pause =>
      case Freeze => AfterFreeze(s, now);
      case Unfreeze => AfterUnfreeze(s, now);
      case Reset => AfterReset(s, now);
      case End => AfterEnd(s, now);
    }
  }

  lemma StaysUnderway(snap: Snapshot, op: Op, now: Instant)
    requires Underway(snap, now) && op != End && op != Reset
    ensures Underway(After(snap, op, now), now)
  {
    Fraction(now);
  }

  // ---- The time shown as RUNNING ----

  /** The instants after a, up to b, at which contestants are shown a running contest. */
  ghost function ShownRunning(snap: Snapshot, a: Instant, b: Instant): nat
    decreases b - a
  {
    if b <= a then 0 else ShownRunning(snap, a, b - 1) + if StateAt(snap, b).status == Running then 1 else 0
  }

  lemma {:induction false} ShownIs(snap: Snapshot, a: Instant, b: Instant)
    requires Underway(snap, a)
    ensures ShownRunning(snap, a, b) == if snap.status == Paused then 0
        else Max(0, (if b < EndAt(snap) then b else EndAt(snap)) - a)
    decreases b - a
  {
    if b > a {
      ShownIs(snap, a, b - 1);
    }
  }

  /** The running time still to come: up to the stored end, or what the paused clock shows. */
  ghost function ToCome(snap: Snapshot, now: Instant): nat
    requires Underway(snap, now)
  {
    if snap.status == Running then ShownRunning(snap, now, Max(now, EndAt(snap)))
    else (snap.endTime.value - snap.pausedAt.value) * SECOND
  }

  lemma ToComeIs(snap: Snapshot, now: Instant)
    requires Underway(snap, now)
    ensures ToCome(snap, now) == if snap.status == Running then Max(0, EndAt(snap) - now)
        else (snap.endTime.value - snap.pausedAt.value) * SECOND
  {
    if snap.status == Running {
      ShownIs(snap, now, Max(now, EndAt(snap)));
    }
  }

  /** By how much the running time, past and to come, exceeds the configured duration. */
  ghost function Excess(snap: Snapshot, shown: int, now: Instant): int
    requires Underway(snap, now)
  {
    shown + ToCome(snap, now) - snap.durationSeconds * SECOND
  }

  /** Waiting turns time to come into time shown. */
  lemma WaitKeeps(snap: Snapshot, shown: int, now: Instant, later: Instant)
    requires Underway(snap, now) && now <= later
    ensures Underway(snap, later)
    ensures Excess(snap, shown + ShownRunning(snap, now, later), later) == Excess(snap, shown, now)
  {
    ShownIs(snap, now, later);
    ToComeIs(snap, now);
    ToComeIs(snap, later);
  }

  // ---- What a step costs ----

  function Behind(end: int, now: Instant): int { Max(0, now - end * SECOND) }

  /** What a control takes from the running time, or adds to it, against the duration. */
  function Drift(snap: Snapshot, op: Op, now: Instant): int
    requires Underway(snap, now)
  {
    match op
    case Extend(minutes) =>
      if minutes <= 0 || now <= EndAt(snap) then 0
      else if snap.status == Paused then (now / SECOND - snap.endTime.value) * SECOND
      else now / SECOND * SECOND - now
    case UpdateSettings(minutes, _) =>
      if minutes <= 0 then 0
      else if snap.status == Paused then (snap.durationSeconds - minutes * 60) * SECOND
      else Behind(EditedEnd(snap, minutes), now) - Behind(snap.endTime.value, now)
    case _ => 0
  }

  /** What is lost or gained because stamps are whole seconds. */
  function Rounding(snap: Snapshot, op: Op, now: Instant): int
    requires Underway(snap, now)
  {
    match op
    case Pause => if StateAt(snap, now).status == Running then now - now / SECOND * SECOND else 0
    case Resume => if snap.status == Paused && snap.pausedAt.value < snap.endTime.value
        then now / SECOND * SECOND - now else 0
    case _ => 0
  }

  /** A control drifts only by extending past the stored end, off a whole second or while paused; or by
    * editing the duration to another value while paused, past the stored end, or to a new end
    * already past. */
  predicate Drifts(snap: Snapshot, op: Op, now: Instant)
    requires Underway(snap, now)
  {
    || (op.Extend? && op.minutes > 0 && now > EndAt(snap)
        && if snap.status == Paused then now >= (snap.endTime.value + 1) * SECOND else now % SECOND != 0)
    || (op.UpdateSettings? && op.durationMinutes > 0 && op.durationMinutes * 60 != snap.durationSeconds
        && (snap.status == Paused || now > EndAt(snap) || now > EditedEnd(snap, op.durationMinutes) * SECOND))
  }

  lemma DriftExactly(snap: Snapshot, op: Op, now: Instant)
    requires Underway(snap, now)
    ensures Drift(snap, op, now) != 0 <==> Drifts(snap, op, now)
  {
    Fraction(now);
  }

  lemma ExtendExcess(snap: Snapshot, minutes: int, now: Instant)
    requires Underway(snap, now) && Underway(After(snap, Extend(minutes), now), now)
    ensures var after := After(snap, Extend(minutes), now);
      ToCome(after, now) - after.durationSeconds * SECOND ==
      ToCome(snap, now) - snap.durationSeconds * SECOND + Drift(snap, Extend(minutes), now)
  {
    ToComeIs(snap, now);
    ToComeIs(After(snap, Extend(minutes), now), now);
    Fraction(now);
  }

  lemma EditExcess(snap: Snapshot, minutes: int, freezeMinutes: int, now: Instant)
    requires Underway(snap, now) && Underway(After(snap, UpdateSettings(minutes, freezeMinutes), now), now)
    ensures var op := UpdateSettings(minutes, freezeMinutes); var after := After(snap, op, now);
      ToCome(after, now) - after.durationSeconds * SECOND ==
      ToCome(snap, now) - snap.durationSeconds * SECOND + Drift(snap, op, now)
  {
    ToComeIs(snap, now);
    ToComeIs(After(snap, UpdateSettings(minutes, freezeMinutes), now), now);
  }

  /** Every control changes the excess by its drift and its rounding, and by nothing else. */
  lemma StepExcess(snap: Snapshot, shown: int, op: Op, now: Instant)
    requires Underway(snap, now) && Underway(After(snap, op, now), now)
    ensures Excess(After(snap, op, now), shown, now) ==
        Excess(snap, shown, now) + Drift(snap, op, now) + Rounding(snap, op, now)
  {
    match op {
      case Extend(minutes) => ExtendExcess(snap, minutes, now);
      case UpdateSettings(minutes, freezeMinutes) => EditExcess(snap, minutes, freezeMinutes, now);
      case _ =>
        ToComeIs(snap, now);
        ToComeIs(After(snap, op, now), now);
        Fraction(now);
    }
  }

  lemma RoundingBound(snap: Snapshot, op: Op, now: Instant)
    requires Underway(snap, now)
    ensures -SECOND < Rounding(snap, op, now) < SECOND
    ensures Rounding(snap, op, now) > 0 ==>
              op == Pause && snap.status == Running && After(snap, op, now).status == Paused
    ensures Rounding(snap, op, now) < 0 ==> op == Resume && snap.status == Paused
    ensures now % SECOND == 0 ==> Rounding(snap, op, now) == 0
  {
    Fraction(now);
  }

  // ---- Stored seconds ----

  /** What the stored end has beyond stored start and duration. */
  function Balance(snap: Snapshot): int
    requires snap.startTime.Some? && snap.endTime.Some?
  {
    snap.endTime.value - snap.startTime.value - snap.durationSeconds
  }

  /** The pause a control completes, in stored seconds. */
  function PauseEnded(snap: Snapshot, op: Op, now: Instant): int {
    if op == Resume && snap.status == Paused && snap.pausedAt.Some? then now / SECOND - snap.pausedAt.value else 0
  }

  /** How else a control moves the stored end away from start and duration. */
  function Slip(snap: Snapshot, op: Op, now: Instant): int
    requires Underway(snap, now)
  {
    match op
    case Extend(minutes) => if minutes > 0 && now > EndAt(snap) then now / SECOND - snap.endTime.value else 0
    case UpdateSettings(minutes, _) =>
      if minutes > 0 && snap.status == Paused then snap.durationSeconds - minutes * 60 else 0
    case _ => 0
  }

  /** Extending a whole second or more past the stored end, or editing the duration to another value
    * while not RUNNING. */
  predicate Slips(snap: Snapshot, op: Op, now: Instant)
    requires Underway(snap, now)
  {
    || (op.Extend? && op.minutes > 0 && now >= (snap.endTime.value + 1) * SECOND)
    || (op.UpdateSettings? && op.durationMinutes > 0 && snap.status != Running
        && op.durationMinutes * 60 != snap.durationSeconds)
  }

  lemma BalanceStep(snap: Snapshot, op: Op, now: Instant)
    requires Underway(snap, now) && op != End && op != Reset
    ensures Underway(After(snap, op, now), now)
    ensures Balance(After(snap, op, now)) == Balance(snap) + PauseEnded(snap, op, now) + Slip(snap, op, now)
    ensures Slip(snap, op, now) != 0 <==> Slips(snap, op, now)
  {
    StaysUnderway(snap, op, now);
    Fraction(now);
  }

  /** A control adds exactly the pause it completes to the balance, unless it meets one of those guards. */
  lemma SlipExactly(s: Settings, op: Op, now: Instant)
    requires Underway(ParseSnapshot(s), now) && op != End && op != Reset
    ensures var snap, after := ParseSnapshot(s), ParseSnapshot(Apply(s, op, now));
      && after.startTime.Some? && after.endTime.Some?
      && Balance(after) == Balance(snap) + PauseEnded(snap, op, now) + Slip(snap, op, now)
      && (Balance(after) != Balance(snap) + PauseEnded(snap, op, now) <==> Slips(snap, op, now))
  {
    AfterIs(s, op, now);
    BalanceStep(ParseSnapshot(s), op, now);
  }

  // ---- Whole runs ----

  /** The snapshots a run goes through. */
  function Track(snap: Snapshot, steps: seq<Timed>): Snapshot {
    if steps == [] then snap else After(Track(snap, Front(steps)), Last(steps).op, Last(steps).at)
  }

  function At(snap: Snapshot, steps: seq<Timed>, k: nat): Snapshot
    requires k <= |steps|
  {
    Track(snap, steps[..k])
  }

  lemma {:induction false} TrackUnderway(snap: Snapshot, t0: Instant, steps: seq<Timed>)
    requires Underway(snap, t0) && Uninterrupted(t0, steps)
    ensures Underway(Track(snap, steps), Clock(t0, steps))
    ensures steps != [] ==> Underway(Track(snap, Front(steps)), Last(steps).at)
  {
    if steps != [] {
      FrontUninterrupted(t0, steps);
      TrackUnderway(snap, t0, Front(steps));
      StaysUnderway(Track(snap, Front(steps)), Last(steps).op, Last(steps).at);
    }
  }

  /** They are the snapshots the manager parses from its settings, at every step of every run. */
  lemma {:induction false} TrackIs(s: Settings, t0: Instant, steps: seq<Timed>)
    requires Underway(ParseSnapshot(s), t0) && Uninterrupted(t0, steps)
    ensures ParseSnapshot(Run(s, steps)) == Track(ParseSnapshot(s), steps)
  {
    if steps != [] {
      FrontUninterrupted(t0, steps);
      TrackUnderway(ParseSnapshot(s), t0, steps);
      TrackIs(s, t0, Front(steps));
      AfterIs(Run(s, Front(steps)), Last(steps).op, Last(steps).at);
    }
  }

  /** The instants shown as RUNNING over a whole run, from t0 to its last step. */
  ghost function Shown(snap: Snapshot, t0: Instant, steps: seq<Timed>): nat {
    if steps == [] then 0
    else
      Shown(snap, t0, Front(steps)) + ShownRunning(Track(snap, Front(steps)), Clock(t0, Front(steps)), Last(steps).at)
  }

  /** What a run adds up to. */
  datatype Ledger = Ledger(paused: int, slip: int, drift: int, rounding: int, cycles: nat)

  function Book(snap: Snapshot, l: Ledger, op: Op, now: Instant): Ledger {
    if !Underway(snap, now) then l
    else Ledger(
      l.paused + PauseEnded(snap, op, now), l.slip + Slip(snap, op, now), l.drift + Drift(snap, op, now),
      l.rounding + Rounding(snap, op, now), l.cycles + if op == Resume && snap.status == Paused then 1 else 0)
  }

  function Books(snap: Snapshot, steps: seq<Timed>): Ledger {
    if steps == [] then Ledger(0, 0, 0, 0, 0)
    else Book(Track(snap, Front(steps)), Books(snap, Front(steps)), Last(steps).op, Last(steps).at)
  }

  lemma {:induction false} RunBalances(snap: Snapshot, t0: Instant, steps: seq<Timed>)
    requires Underway(snap, t0) && Uninterrupted(t0, steps)
    ensures Underway(Track(snap, steps), Clock(t0, steps))
    ensures Balance(Track(snap, steps)) == Balance(snap) + Books(snap, steps).paused + Books(snap, steps).slip
  {
    TrackUnderway(snap, t0, steps);
    if steps != [] {
      FrontUninterrupted(t0, steps);
      RunBalances(snap, t0, Front(steps));
      BalanceStep(Track(snap, Front(steps)), Last(steps).op, Last(steps).at);
    }
  }

  /** The running time contestants are shown, over every run, exceeds the duration by exactly the
    * drifts and the roundings. */
  lemma {:induction false} RunExcess(snap: Snapshot, t0: Instant, steps: seq<Timed>)
    requires Underway(snap, t0) && Uninterrupted(t0, steps)
    ensures Underway(Track(snap, steps), Clock(t0, steps))
    ensures Excess(Track(snap, steps), Shown(snap, t0, steps), Clock(t0, steps)) ==
            Excess(snap, 0, t0) + Books(snap, steps).drift + Books(snap, steps).rounding
  {
    TrackUnderway(snap, t0, steps);
    if steps != [] {
      FrontUninterrupted(t0, steps);
      RunExcess(snap, t0, Front(steps));
      ExcessStep(Track(snap, Front(steps)), Shown(snap, t0, Front(steps)), Clock(t0, Front(steps)), Last(steps));
    }
  }

  lemma ExcessStep(snap: Snapshot, shown: int, before: Instant, step: Timed)
    requires Underway(snap, before) && before <= step.at && step.op != End && step.op != Reset
    ensures Underway(snap, step.at) && Underway(After(snap, step.op, step.at), step.at)
    ensures Excess(After(snap, step.op, step.at), shown + ShownRunning(snap, before, step.at), step.at) ==
            Excess(snap, shown, before) + Drift(snap, step.op, step.at) + Rounding(snap, step.op, step.at)
  {
    WaitKeeps(snap, shown, before, step.at);
    StaysUnderway(snap, step.op, step.at);
    StepExcess(snap, shown + ShownRunning(snap, before, step.at), step.op, step.at);
  }

  /** n completed pauses round by no more than n seconds down, and by n seconds up, or less than one
    * more while paused. */
  predicate Rounded(status: Status, l: Ledger) {
    && (if l.cycles == 0 then 0 <= l.rounding else -(l.cycles * SECOND) < l.rounding)
    && (if status == Paused then l.rounding < (l.cycles + 1) * SECOND else l.rounding <= l.cycles * SECOND)
  }

  lemma {:induction false} RunRounding(snap: Snapshot, t0: Instant, steps: seq<Timed>)
    requires Underway(snap, t0) && snap.status == Running && Uninterrupted(t0, steps)
    ensures Rounded(Track(snap, steps).status, Books(snap, steps))
  {
    if steps != [] {
      FrontUninterrupted(t0, steps);
      RunRounding(snap, t0, Front(steps));
      TrackUnderway(snap, t0, steps);
      RoundingStep(Track(snap, Front(steps)), Books(snap, Front(steps)), Last(steps).op, Last(steps).at);
    }
  }

  lemma RoundingStep(snap: Snapshot, l: Ledger, op: Op, now: Instant)
    requires Underway(snap, now) && Rounded(snap.status, l) && op != End && op != Reset
    ensures Rounded(After(snap, op, now).status, Book(snap, l, op, now))
  {
    RoundingBound(snap, op, now);
  }

  lemma {:induction false} WholeRounding(snap: Snapshot, steps: seq<Timed>)
    requires forall k | 0 <= k < |steps| :: steps[k].at % SECOND == 0
    ensures Books(snap, steps).rounding == 0
  {
    if steps != [] {
      WholeRounding(snap, Front(steps));
      var before := Track(snap, Front(steps));
      if Underway(before, Last(steps).at) {
        RoundingBound(before, Last(steps).op, Last(steps).at);
      }
    }
  }

  // ---- Which runs keep the promise ----

  ghost predicate SlipsAt(snap: Snapshot, steps: seq<Timed>, k: nat)
    requires k < |steps|
  {
    Underway(At(snap, steps, k), steps[k].at) && Slips(At(snap, steps, k), steps[k].op, steps[k].at)
  }

  ghost predicate DriftsAt(snap: Snapshot, steps: seq<Timed>, k: nat)
    requires k < |steps|
  {
    Underway(At(snap, steps, k), steps[k].at) && Drifts(At(snap, steps, k), steps[k].op, steps[k].at)
  }

  ghost predicate SlipFree(snap: Snapshot, steps: seq<Timed>, k: nat)
    requires k <= |steps|
  {
    Books(snap, steps[..k]).slip == 0
  }

  ghost predicate DriftFree(snap: Snapshot, steps: seq<Timed>, k: nat)
    requires k <= |steps|
  {
    Books(snap, steps[..k]).drift == 0
  }

  /** What step k does to the books. */
  lemma StepAt(snap: Snapshot, t0: Instant, steps: seq<Timed>, k: nat)
    requires Underway(snap, t0) && Uninterrupted(t0, steps) && k < |steps|
    ensures SlipFree(snap, steps, k) ==> (SlipFree(snap, steps, k + 1) <==> !SlipsAt(snap, steps, k))
    ensures DriftFree(snap, steps, k) ==> (DriftFree(snap, steps, k + 1) <==> !DriftsAt(snap, steps, k))
  {
    var upTo := steps[..k + 1];
    PrefixUninterrupted(t0, steps, k + 1);
    TrackUnderway(snap, t0, upTo);
    assert Front(upTo) == steps[..k] && Last(upTo) == steps[k];
    DriftExactly(At(snap, steps, k), steps[k].op, steps[k].at);
    BalanceStep(At(snap, steps, k), steps[k].op, steps[k].at);
  }

  lemma {:induction false} NoSlip(snap: Snapshot, t0: Instant, steps: seq<Timed>, n: nat)
    requires Underway(snap, t0) && Uninterrupted(t0, steps) && n <= |steps|
    ensures (forall k | 0 <= k <= n :: SlipFree(snap, steps, k)) <==> forall k | 0 <= k < n :: !SlipsAt(snap, steps, k)
  {
    if n > 0 {
      NoSlip(snap, t0, steps, n - 1);
      StepAt(snap, t0, steps, n - 1);
    }
  }

  lemma {:induction false} NoDrift(snap: Snapshot, t0: Instant, steps: seq<Timed>, n: nat)
    requires Underway(snap, t0) && Uninterrupted(t0, steps) && n <= |steps|
    ensures (forall k | 0 <= k <= n :: DriftFree(snap, steps, k)) <==>
        forall k | 0 <= k < n :: !DriftsAt(snap, steps, k)
  {
    if n > 0 {
      NoDrift(snap, t0, steps, n - 1);
      StepAt(snap, t0, steps, n - 1);
    }
  }

  // ---- The main results, from every Start ----

  predicate Starts(s: Settings, minutes: int, t0: Instant) {
    Updates(ParseSnapshot(s), Start(minutes), t0).Saved?
  }

  function Started(s: Settings, minutes: int, t0: Instant): Snapshot { ParseSnapshot(Apply(s, Start(minutes), t0)) }

  lemma StartUnderway(s: Settings, minutes: int, t0: Instant)
    requires Starts(s, minutes, t0)
    ensures var snap := Started(s, minutes, t0);
      && Underway(snap, t0) && snap.status == Running && Balance(snap) == 0
      && EndAt(snap) == t0 / SECOND * SECOND + snap.durationSeconds * SECOND
  {
    WholePlus(Started(s, minutes, t0).durationSeconds, t0);
  }

  lemma StartExcess(s: Settings, minutes: int, t0: Instant)
    requires Starts(s, minutes, t0)
    ensures var snap := Started(s, minutes, t0);
      Underway(snap, t0) && snap.status == Running && Excess(snap, 0, t0) == t0 / SECOND * SECOND - t0
  {
    StartUnderway(s, minutes, t0);
    ToComeIs(Started(s, minutes, t0), t0);
    Fraction(t0);
  }

  /** The snapshot the manager holds after a run of controls from a Start. */
  lemma StartedTrack(s: Settings, minutes: int, t0: Instant, steps: seq<Timed>)
    requires Starts(s, minutes, t0) && Uninterrupted(t0, steps)
    ensures ParseSnapshot(Run(Apply(s, Start(minutes), t0), steps)) == Track(Started(s, minutes, t0), steps)
    ensures Underway(Track(Started(s, minutes, t0), steps), Clock(t0, steps))
  {
    StartUnderway(s, minutes, t0);
    TrackIs(Apply(s, Start(minutes), t0), t0, steps);
    TrackUnderway(Started(s, minutes, t0), t0, steps);
  }

  /** From every Start, over every run of controls, stored end less stored start is the configured
    * duration plus the completed pauses plus the slips, to the second. */
  lemma TimeIsConserved(s: Settings, minutes: int, t0: Instant, steps: seq<Timed>)
    requires Starts(s, minutes, t0) && Uninterrupted(t0, steps)
    ensures var snap := ParseSnapshot(Run(Apply(s, Start(minutes), t0), steps));
            var l := Books(Started(s, minutes, t0), steps);
      && snap.startTime.Some? && snap.endTime.Some?
      && snap.endTime.value - snap.startTime.value == snap.durationSeconds + l.paused + l.slip
  {
    StartUnderway(s, minutes, t0);
    StartedTrack(s, minutes, t0, steps);
    RunBalances(Started(s, minutes, t0), t0, steps);
  }

  /** After k steps, stored end less stored start is the duration plus the completed pauses. */
  ghost predicate BalancedAt(snap: Snapshot, t0: Instant, steps: seq<Timed>, k: nat)
    requires k <= |steps|
  {
    Underway(At(snap, steps, k), Clock(t0, steps[..k])) && Balance(At(snap, steps, k)) == Books(snap, steps[..k]).paused
  }

  lemma BalancedIfSlipFree(snap: Snapshot, t0: Instant, steps: seq<Timed>, k: nat)
    requires Underway(snap, t0) && Balance(snap) == 0 && Uninterrupted(t0, steps) && k <= |steps|
    ensures BalancedAt(snap, t0, steps, k) <==> SlipFree(snap, steps, k)
  {
    PrefixUninterrupted(t0, steps, k);
    RunBalances(snap, t0, steps[..k]);
  }

  /** The plain balance, without slips, holds after every step of a run if and only if no step meets
    * a slipping guard. */
  lemma InBalanceExactly(s: Settings, minutes: int, t0: Instant, steps: seq<Timed>)
    requires Starts(s, minutes, t0) && Uninterrupted(t0, steps)
    ensures var snap := Started(s, minutes, t0);
      (forall k | 0 <= k <= |steps| :: BalancedAt(snap, t0, steps, k)) <==>
      (forall k | 0 <= k < |steps| :: !SlipsAt(snap, steps, k))
  {
    StartUnderway(s, minutes, t0);
    var snap := Started(s, minutes, t0);
    forall k | 0 <= k <= |steps|
      ensures BalancedAt(snap, t0, steps, k) <==> SlipFree(snap, steps, k)
    {
      BalancedIfSlipFree(snap, t0, steps, k);
    }
    NoSlip(snap, t0, steps, |steps|);
  }

  /** Over every run, the time contestants are shown as RUNNING, up to now and still to come, is the
    * configured duration plus the drifts, short by less than n + 1 seconds and over by at most n, or
    * less than n + 1 while paused, where n counts the completed pauses. */
  lemma RunningTimeIsBooked(s: Settings, minutes: int, t0: Instant, steps: seq<Timed>)
    requires Starts(s, minutes, t0) && Uninterrupted(t0, steps)
    ensures var start := Started(s, minutes, t0);
            var snap, l, now := ParseSnapshot(Run(Apply(s, Start(minutes), t0), steps)), Books(start, steps),
                Clock(t0, steps);
      && Underway(snap, now)
      && var over := Shown(start, t0, steps) + ToCome(snap, now) - snap.durationSeconds * SECOND - l.drift;
      && -(l.cycles + 1) * SECOND < over < (l.cycles + 1) * SECOND
      && (snap.status == Running ==> over <= l.cycles * SECOND)
  {
    var start := Started(s, minutes, t0);
    StartExcess(s, minutes, t0);
    StartedTrack(s, minutes, t0, steps);
    RunExcess(start, t0, steps);
    RunRounding(start, t0, steps);
    Fraction(t0);
  }

  /** The promise to contestants: if no step drifts, then after n pauses the time shown as RUNNING from
    * Start to the final end, counted instant by instant, is the configured duration, short by less
    * than n + 1 seconds and over by at most n. */
  lemma RunningTimeIsDuration(s: Settings, minutes: int, t0: Instant, steps: seq<Timed>)
    requires Starts(s, minutes, t0) && Uninterrupted(t0, steps)
    requires forall k | 0 <= k < |steps| :: !DriftsAt(Started(s, minutes, t0), steps, k)
    requires ParseSnapshot(Run(Apply(s, Start(minutes), t0), steps)).status == Running
    ensures var start := Started(s, minutes, t0);
            var snap, now := ParseSnapshot(Run(Apply(s, Start(minutes), t0), steps)), Clock(t0, steps);
            var n := Books(start, steps).cycles;
      && snap.endTime.Some?
      && var ran := Shown(start, t0, steps) + ShownRunning(snap, now, Max(now, EndAt(snap)));
      -(n + 1) * SECOND < ran - snap.durationSeconds * SECOND <= n * SECOND
  {
    StartUnderway(s, minutes, t0);
    RunningTimeIsBooked(s, minutes, t0, steps);
    NoDrift(Started(s, minutes, t0), t0, steps, |steps|);
    assert DriftFree(Started(s, minutes, t0), steps, |steps|) && steps[..|steps|] == steps;
  }

  /** After k steps, the running time, past and to come, differs from the duration by no more than the
    * truncation of the stamps accounts for. */
  ghost predicate OnTimeAt(snap: Snapshot, t0: Instant, steps: seq<Timed>, k: nat)
    requires k <= |steps|
  {
    && Underway(At(snap, steps, k), Clock(t0, steps[..k]))
    && Excess(At(snap, steps, k), Shown(snap, t0, steps[..k]), Clock(t0, steps[..k])) ==
       t0 / SECOND * SECOND - t0 + Books(snap, steps[..k]).rounding
  }

  lemma OnTimeIfDriftFree(snap: Snapshot, t0: Instant, steps: seq<Timed>, k: nat)
    requires Underway(snap, t0) && Excess(snap, 0, t0) == t0 / SECOND * SECOND - t0
    requires Uninterrupted(t0, steps) && k <= |steps|
    ensures OnTimeAt(snap, t0, steps, k) <==> DriftFree(snap, steps, k)
  {
    PrefixUninterrupted(t0, steps, k);
    RunExcess(snap, t0, steps[..k]);
  }

  /** The promise holds, but for the truncation, after every step of a run if and only if no step meets
    * a drifting guard. */
  lemma OnTimeExactly(s: Settings, minutes: int, t0: Instant, steps: seq<Timed>)
    requires Starts(s, minutes, t0) && Uninterrupted(t0, steps)
    ensures var snap := Started(s, minutes, t0);
      (forall k | 0 <= k <= |steps| :: OnTimeAt(snap, t0, steps, k)) <==>
      (forall k | 0 <= k < |steps| :: !DriftsAt(snap, steps, k))
  {
    StartExcess(s, minutes, t0);
    var snap := Started(s, minutes, t0);
    forall k | 0 <= k <= |steps|
      ensures OnTimeAt(snap, t0, steps, k) <==> DriftFree(snap, steps, k)
    {
      OnTimeIfDriftFree(snap, t0, steps, k);
    }
    NoDrift(snap, t0, steps, |steps|);
  }

  /** On the whole-second clock nothing is truncated: the running time is the duration and the drifts,
    * to the instant. */
  lemma WholeSecondsExact(s: Settings, minutes: int, t0: Instant, steps: seq<Timed>)
    requires Starts(s, minutes, t0) && Uninterrupted(t0, steps)
    requires t0 % SECOND == 0 && forall k | 0 <= k < |steps| :: steps[k].at % SECOND == 0
    ensures var start := Started(s, minutes, t0);
            var snap, now := ParseSnapshot(Run(Apply(s, Start(minutes), t0), steps)), Clock(t0, steps);
      && Underway(snap, now)
      && Shown(start, t0, steps) + ToCome(snap, now) == snap.durationSeconds * SECOND + Books(start, steps).drift
  {
    var start := Started(s, minutes, t0);
    StartExcess(s, minutes, t0);
    StartedTrack(s, minutes, t0, steps);
    RunExcess(start, t0, steps);
    WholeRounding(start, steps);
  }

  // ---- Steps that break the promise ----

  /** Lengthening the contest after its stored end brings it back, but the time since then, throughout
    * which contestants were shown an ended contest, is lost: exactly that much. */
  lemma LateEditCosts(snap: Snapshot, minutes: int, freezeMinutes: int, now: Instant)
    requires Underway(snap, now) && snap.status == Running && minutes > 0
    requires EndAt(snap) < now <= EditedEnd(snap, minutes) * SECOND
    ensures Drift(snap, UpdateSettings(minutes, freezeMinutes), now) == -(now - EndAt(snap))
    ensures forall t | EndAt(snap) < t <= now :: StateAt(snap, t).status == Ended
    ensures StateAt(After(snap, UpdateSettings(minutes, freezeMinutes), now), now).status == Running
  {
  }

  /** Shortening it to an end already past ends it at once, late by exactly that much. */
  lemma CutShortRunsOver(snap: Snapshot, minutes: int, freezeMinutes: int, now: Instant)
    requires Underway(snap, now) && snap.status == Running && minutes > 0
    requires EditedEnd(snap, minutes) * SECOND < now <= EndAt(snap)
    ensures Drift(snap, UpdateSettings(minutes, freezeMinutes), now) == now - EditedEnd(snap, minutes) * SECOND
    ensures StateAt(After(snap, UpdateSettings(minutes, freezeMinutes), now), now).status == Ended
  {
  }

  /** An hour's contest from second 0. */
  lemma HourFromZero(s: Settings)
    requires Starts(s, 60, 0)
    ensures var start := Started(s, 60, 0);
      && Underway(start, 0) && start.status == Running && start.durationSeconds == 3600 && EndAt(start) == 3600 * SECOND
      && Excess(start, 0, 0) == 0 && Balance(start) == 0
  {
    StartUnderway(s, 60, 0);
    StartExcess(s, 60, 0);
  }

  /** A run that does it: an hour's contest, made two hours a minute after it ended, runs 7140 seconds. */
  lemma LateEditRun(s: Settings)
    requires Starts(s, 60, 0)
    ensures var start := Started(s, 60, 0); var edit := Timed(UpdateSettings(120, -1), 3660 * SECOND);
            var snap := ParseSnapshot(Run(Apply(s, Start(60), 0), [edit]));
      && Underway(snap, edit.at) && snap.status == Running && snap.durationSeconds == 7200
      && Shown(start, 0, [edit]) + ToCome(snap, edit.at) == 7140 * SECOND
  {
    HourFromZero(s);
    StartedTrack(s, 60, 0, [Timed(UpdateSettings(120, -1), 3660 * SECOND)]);
    LateEditOf(Started(s, 60, 0));
  }

  lemma LateEditOf(start: Snapshot)
    requires Underway(start, 0) && start.status == Running && start.durationSeconds == 3600
    requires EndAt(start) == 3600 * SECOND && Excess(start, 0, 0) == 0
    ensures var edit := Timed(UpdateSettings(120, -1), 3660 * SECOND); var snap := Track(start, [edit]);
      && Underway(snap, edit.at) && snap.status == Running && snap.durationSeconds == 7200
      && Shown(start, 0, [edit]) + ToCome(snap, edit.at) == 7140 * SECOND
  {
    OneStep(start, 0, Timed(UpdateSettings(120, -1), 3660 * SECOND));
    LateEditCosts(start, 120, -1, 3660 * SECOND);
  }

  lemma OneStep(snap: Snapshot, t0: Instant, step: Timed)
    requires Underway(snap, t0) && t0 <= step.at && step.op != End && step.op != Reset
    ensures Underway(snap, step.at) && Track(snap, [step]) == After(snap, step.op, step.at)
    ensures Underway(Track(snap, [step]), step.at)
    ensures Excess(Track(snap, [step]), Shown(snap, t0, [step]), step.at) ==
            Excess(snap, 0, t0) + Drift(snap, step.op, step.at) + Rounding(snap, step.op, step.at)
    ensures Balance(Track(snap, [step])) == Balance(snap) + PauseEnded(snap, step.op, step.at)
        + Slip(snap, step.op, step.at)
  {
    assert Front([step]) == [];
    RunExcess(snap, t0, [step]);
    RunBalances(snap, t0, [step]);
    assert Books(snap, [step]) == Book(snap, Ledger(0, 0, 0, 0, 0), step.op, step.at);
  }

  /** A run that slips: an hour's contest extended by an hour, a minute after it ended. Its stored end is
    * a minute more than start plus duration, though contestants lose nothing. */
  lemma LateExtensionRun(s: Settings)
    requires Starts(s, 60, 0)
    ensures var start := Started(s, 60, 0); var extend := Timed(Extend(60), 3660 * SECOND);
            var snap := ParseSnapshot(Run(Apply(s, Start(60), 0), [extend]));
      && Underway(snap, extend.at) && Balance(snap) == 60
      && Shown(start, 0, [extend]) + ToCome(snap, extend.at) == snap.durationSeconds * SECOND
  {
    HourFromZero(s);
    StartedTrack(s, 60, 0, [Timed(Extend(60), 3660 * SECOND)]);
    OneStep(Started(s, 60, 0), 0, Timed(Extend(60), 3660 * SECOND));
  }

  /** The snapshots through a pause from second p to second r. */
  function DuringPause(snap: Snapshot, p: int): Snapshot { snap.(status := Paused, pausedAt := Some(p)) }

  function AfterPause(snap: Snapshot, p: int, r: int): Snapshot
    requires snap.endTime.Some?
  {
    snap.(status := Running, pausedAt := None, endTime := Some(snap.endTime.value - p + r))
  }

  lemma PauseSnapshots(s: Settings, p: int, r: int)
    requires p <= r && StateAt(ParseSnapshot(s), p * SECOND).status == Running
    requires ParseSnapshot(s).startTime.Some? && ParseSnapshot(s).endTime.Some?
    ensures ParseSnapshot(Apply(s, Pause, p * SECOND)) == DuringPause(ParseSnapshot(s), p)
    ensures ParseSnapshot(Apply(Apply(s, Pause, p * SECOND), Resume, r * SECOND)) == AfterPause(ParseSnapshot(s), p, r)
  {
    WholePlus(p, 0);
    WholePlus(r, 0);
    AfterResume(Apply(s, Pause, p * SECOND), r * SECOND);
  }

  /** On whole seconds one pause is invisible afterwards: the time left and the freeze are what
    * they were when it began, all through it, and the freeze cutoff moves by its length. */
  lemma PauseIsNeutral(s: Settings, p: int, watched: Instant, r: int)
    requires p <= r
    requires var snap := ParseSnapshot(s);
      StateAt(snap, p * SECOND).status == Running && snap.startTime.Some? && snap.endTime.Some?
    ensures var before := ParseSnapshot(s);
            var during := ParseSnapshot(Apply(s, Pause, p * SECOND));
            var after := ParseSnapshot(Apply(Apply(s, Pause, p * SECOND), Resume, r * SECOND));
      && Remaining(before, p * SECOND) == Remaining(during, watched) == Remaining(after, r * SECOND)
      && StateAt(before, p * SECOND).isFrozen == StateAt(during, watched).isFrozen ==
          StateAt(after, r * SECOND).isFrozen
      && after.endTime.Some? && FreezeCutoff(after) == FreezeCutoff(before) + (r - p)
      && after.status == Running && after.durationSeconds == before.durationSeconds
          && after.startTime == before.startTime
  {
    PauseSnapshots(s, p, r);
    PauseLooksNeutral(ParseSnapshot(s), p, watched, r);
  }

  lemma PauseLooksNeutral(before: Snapshot, p: int, watched: Instant, r: int)
    requires p <= r && StateAt(before, p * SECOND).status == Running && before.startTime.Some? && before.endTime.Some?
    ensures var during, after := DuringPause(before, p), AfterPause(before, p, r);
      && Remaining(before, p * SECOND) == Remaining(during, watched) == Remaining(after, r * SECOND)
      && StateAt(before, p * SECOND).isFrozen == StateAt(during, watched).isFrozen ==
          StateAt(after, r * SECOND).isFrozen
      && FreezeCutoff(after) == FreezeCutoff(before) + (r - p)
  {
  }
}
