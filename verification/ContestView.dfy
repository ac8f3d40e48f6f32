/** What contestants are shown of the contest clock: the seconds left and gone, and the frozen board. */
module ContestView {
  import opened Wrappers
  import opened Sequences
  import opened ContestClock
  import opened ContestTime

  // ---- One snapshot ----

  /** When the board is frozen, and since when: by hand, or, unless overridden, once fewer than the
    * freeze minutes are left to the stored end, the clock standing still while paused. */
  lemma FreezeExactly(snap: Snapshot, now: Instant)
    ensures var seen := StateAt(snap, now);
            var byClock := !snap.freezeOverridden && snap.freezeMinutes > 0 && snap.status != NotStarted
                && snap.endTime.Some?
              && snap.endTime.value * SECOND
                 - (if snap.status == Paused && snap.pausedAt.Some? then snap.pausedAt.value * SECOND else now)
                 < snap.freezeMinutes * 60 * SECOND;
      && (seen.isFrozen <==> snap.isFrozen || byClock)
      && seen.freezeStart == if !snap.isFrozen && byClock then Some(snap.endTime.value - snap.freezeMinutes * 60)
                             else snap.freezeStartTime
  {
  }

  /** The status shown is the stored one, but for a clock that has run out. */
  lemma StatusExactly(snap: Snapshot, now: Instant)
    ensures StateAt(snap, now).status ==
            if snap.status == Running && snap.startTime.Some? && snap.endTime.Some? && snap.endTime.value * SECOND < now
            then Ended else snap.status
  {
  }

  /** The seconds shown outside a running or paused contest, or without the stamps of one. */
  lemma SecondsAtRest(snap: Snapshot, now: Instant)
    ensures var seen := StateAt(snap, now);
      && (snap.status == NotStarted ==> seen.remainingSeconds == snap.durationSeconds && seen.elapsedSeconds == 0)
      && (seen.status == Ended ==> seen.remainingSeconds == 0 && seen.elapsedSeconds == snap.durationSeconds)
      && ((snap.status == Running || snap.status == Paused) && (snap.startTime.None? || snap.endTime.None?) ==>
            seen.remainingSeconds == snap.durationSeconds && seen.elapsedSeconds == 0)
      && (snap.status == Paused && snap.pausedAt.None? ==>
            seen.remainingSeconds == snap.durationSeconds && seen.elapsedSeconds == 0)
  {
  }

  /** Which controls are refused. */
  lemma RefusedExactly(snap: Snapshot, op: Op, now: Instant)
    ensures var out := snap.startTime.Some? && snap.endTime.Some? && snap.endTime.value * SECOND < now;
      Answer(snap, op, now) ==
        if op.Start? && snap.status == Running then Some(AlreadyRunning)
        else if op.Start? && snap.status == Paused then Some(ContestPaused)
        else if op.Pause? && (snap.status != Running || out) then Some(NotRunning)
        else if op.Resume? && snap.status != Paused then Some(NotPaused)
        else if op.Extend? && op.minutes <= 0 then Some(BadMinutes)
        else None
  {
  }

  // ---- Stored settings ----

  function Stamped(t: Option<int>): Value { if t.Some? then Stamp(t.value) else Blank }

  /** The settings that hold a snapshot. */
  function Stored(snap: Snapshot): Settings {
    map[StatusKey := Word(snap.status), DurationKey := Number(snap.durationSeconds),
        FreezeMinutesKey := Number(snap.freezeMinutes), StartKey := Stamped(snap.startTime),
        EndKey := Stamped(snap.endTime), PausedKey := Stamped(snap.pausedAt), FrozenKey := Flag(snap.isFrozen),
        OverriddenKey := Flag(snap.freezeOverridden), FreezeStartKey := Stamped(snap.freezeStartTime)]
  }

  /** Every snapshot with a positive duration and no negative freeze can be stored and read back. */
  lemma StoredReadsBack(snap: Snapshot)
    ensures ParseSnapshot(Stored(snap)) == snap <==> snap.durationSeconds > 0 && snap.freezeMinutes >= 0
  {
    assert ParseSnapshot(Stored(snap)).durationSeconds > 0;
  }

  /** Without settings: not started, two hours, the board freezing half an hour before the end. */
  lemma NothingStored()
    ensures ParseSnapshot(map[]) == Snapshot(NotStarted, None, None, 7200, 30, false, false, None, None)
  {
  }

  /** A value that does not read as what its key holds is as good as absent. */
  lemma JunkIsAbsent(s: Settings, key: Key)
    ensures ParseSnapshot(s[key := Junk]) == ParseSnapshot(s - {key})
  {
    forall other | other != key
      ensures Lookup(s[key := Junk], other) == Lookup(s - {key}, other)
    {
    }
    assert Lookup(s[key := Junk], key) == Junk && Lookup(s - {key}, key) == Blank;
  }

  // ---- Whole runs ----

  lemma {:induction false} StartKept(snap: Snapshot, t0: Instant, steps: seq<Timed>)
    requires Underway(snap, t0) && Uninterrupted(t0, steps)
    ensures Track(snap, steps).startTime == snap.startTime
  {
    if steps != [] {
      FrontUninterrupted(t0, steps);
      StartKept(snap, t0, Front(steps));
      TrackUnderway(snap, t0, Front(steps));
    }
  }

  /** Nobody freezes or unfreezes the board by hand. */
  predicate HandsOff(steps: seq<Timed>) {
    forall k | 0 <= k < |steps| :: steps[k].op != Freeze && steps[k].op != Unfreeze
  }

  lemma {:induction false} FlagsKept(snap: Snapshot, t0: Instant, steps: seq<Timed>)
    requires Underway(snap, t0) && Uninterrupted(t0, steps) && HandsOff(steps)
    ensures Track(snap, steps).isFrozen == snap.isFrozen && Track(snap, steps).freezeOverridden == snap.freezeOverridden
  {
    if steps != [] {
      FrontUninterrupted(t0, steps);
      FlagsKept(snap, t0, Front(steps));
      TrackUnderway(snap, t0, Front(steps));
    }
  }

  /** The clock of a contest under way, on its fields. */
  lemma ClockShows(snap: Snapshot, now: Instant)
    requires Underway(snap, now)
    ensures var seen := StateAt(snap, now);
      && seen.remainingSeconds == ToCome(snap, now) / SECOND
      && (snap.status == Paused ==> seen.elapsedSeconds == Max(0, snap.pausedAt.value - snap.startTime.value))
      && (seen.status == Running ==> seen.elapsedSeconds == Max(0, now - snap.startTime.value * SECOND) / SECOND)
      && (!snap.isFrozen && !snap.freezeOverridden ==>
            (seen.isFrozen <==> snap.freezeMinutes > 0 && ToCome(snap, now) < snap.freezeMinutes * 60 * SECOND))
  {
    ToComeIs(snap, now);
    FreezeExactly(snap, now);
    if snap.status == Paused {
      WholePlus(snap.endTime.value - snap.pausedAt.value, 0);
      WholePlus(snap.pausedAt.value - snap.startTime.value, 0);
    }
  }

  /** From every Start, at every instant of every run: the seconds left are the running time to come, the
    * seconds gone count from the start, pauses included, and, left to itself, the board is frozen
    * exactly while less than the freeze minutes of running time are to come. */
  lemma ViewOverRuns(s: Settings, minutes: int, t0: Instant, steps: seq<Timed>, now: Instant)
    requires Starts(s, minutes, t0) && Uninterrupted(t0, steps) && Clock(t0, steps) <= now
    ensures var snap := ParseSnapshot(Run(Apply(s, Start(minutes), t0), steps)); var seen := StateAt(snap, now);
      && Underway(snap, now)
      && seen.remainingSeconds == ToCome(snap, now) / SECOND
      && (seen.status == Running ==> seen.elapsedSeconds == now / SECOND - t0 / SECOND)
      && (seen.status == Paused ==> seen.elapsedSeconds == snap.pausedAt.value - t0 / SECOND)
      && (HandsOff(steps) ==>
            (seen.isFrozen <==> snap.freezeMinutes > 0 && ToCome(snap, now) < snap.freezeMinutes * 60 * SECOND))
  {
    var start := Started(s, minutes, t0);
    StartUnderway(s, minutes, t0);
    StartedTrack(s, minutes, t0, steps);
    StartKept(start, t0, steps);
    AfterIs(s, Start(minutes), t0);
    var snap := Track(start, steps);
    WaitKeeps(snap, 0, Clock(t0, steps), now);
    ClockShows(snap, now);
    SinceStart(t0, now);
    PausedSinceStart(snap, t0, steps, start);
    if HandsOff(steps) {
      FlagsKept(start, t0, steps);
    }
  }

  lemma SinceStart(t0: Instant, now: Instant)
    requires t0 <= now
    ensures now - t0 / SECOND * SECOND >= 0
    ensures (now - t0 / SECOND * SECOND) / SECOND == now / SECOND - t0 / SECOND
  {
    Fraction(t0);
    WholePlus(-(t0 / SECOND), now);
  }

  /** A pause is stamped no earlier than the start. */
  lemma {:induction false} PausedSinceStart(snap: Snapshot, t0: Instant, steps: seq<Timed>, start: Snapshot)
    requires Underway(start, t0) && start.status == Running && Uninterrupted(t0, steps) && snap == Track(start, steps)
    ensures snap.pausedAt.Some? ==> snap.pausedAt.value >= t0 / SECOND
    decreases |steps|
  {
    if steps != [] {
      FrontUninterrupted(t0, steps);
      TrackUnderway(start, t0, Front(steps));
      PausedSinceStart(Track(start, Front(steps)), t0, Front(steps), start);
      Fraction(t0);
      Fraction(Last(steps).at);
    }
  }

  /** While the contest is not over, the seconds gone and left make up the duration, the completed pauses
    * and the slips; at an instant between two seconds, one less. */
  lemma ClockAddsUp(s: Settings, minutes: int, t0: Instant, steps: seq<Timed>, now: Instant)
    requires Starts(s, minutes, t0) && Uninterrupted(t0, steps) && Clock(t0, steps) <= now
    ensures var snap := ParseSnapshot(Run(Apply(s, Start(minutes), t0), steps)); var seen := StateAt(snap, now);
            var l := Books(Started(s, minutes, t0), steps);
      seen.status == Running || seen.status == Paused ==>
        seen.elapsedSeconds + seen.remainingSeconds ==
        snap.durationSeconds + l.paused + l.slip - if seen.status == Running && now % SECOND != 0 then 1 else 0
  {
    ViewOverRuns(s, minutes, t0, steps, now);
    TimeIsConserved(s, minutes, t0, steps);
    var snap := ParseSnapshot(Run(Apply(s, Start(minutes), t0), steps));
    StartUnderway(s, minutes, t0);
    StartedTrack(s, minutes, t0, steps);
    StartKept(Started(s, minutes, t0), t0, steps);
    AfterIs(s, Start(minutes), t0);
    ToComeIs(snap, now);
    if snap.status == Running && now <= EndAt(snap) {
      LeftOver(snap.endTime.value, now);
    } else if snap.status == Paused {
      WholePlus(snap.endTime.value - snap.pausedAt.value, 0);
    }
  }

  lemma LeftOver(end: int, now: Instant)
    ensures (end * SECOND - now) / SECOND == end - now / SECOND - if now % SECOND != 0 then 1 else 0
  {
    WholePlus(end, -now);
  }

  // ---- Freezing by hand ----

  /** A board frozen by hand stays frozen, since then, until it is unfrozen; one unfrozen by hand is not
    * frozen again by the clock. */
  lemma {:induction false} HandDecides(snap: Snapshot, t0: Instant, op: Op, at: Instant, steps: seq<Timed>,
      now: Instant)
    requires Underway(snap, t0) && t0 <= at && (op == Freeze || op == Unfreeze)
    requires Uninterrupted(at, steps) && HandsOff(steps)
    ensures var seen := StateAt(Track(After(snap, op, at), steps), now);
      && (seen.isFrozen <==> op == Freeze)
      && seen.freezeStart == if op == Freeze then Some(at / SECOND) else None
  {
    var after := After(snap, op, at);
    FreezeStartKept(after, at, steps);
    FlagsKept(after, at, steps);
    FreezeExactly(Track(after, steps), now);
  }

  lemma {:induction false} FreezeStartKept(snap: Snapshot, t0: Instant, steps: seq<Timed>)
    requires Underway(snap, t0) && Uninterrupted(t0, steps) && HandsOff(steps)
    ensures Track(snap, steps).freezeStartTime == snap.freezeStartTime
  {
    if steps != [] {
      FrontUninterrupted(t0, steps);
      FreezeStartKept(snap, t0, Front(steps));
      TrackUnderway(snap, t0, Front(steps));
    }
  }

  // ---- Reopening ----

  /** Extending a contest that was ended by hand reopens it: it runs for the minutes added, counted from
    * the extension in whole seconds, and its duration grows by as much. */
  lemma ExtensionReopens(s: Settings, ended: Instant, minutes: int, now: Instant)
    requires ParseSnapshot(s).startTime.Some? && minutes > 0 && ended <= now
    ensures var before := ParseSnapshot(s);
            var snap := ParseSnapshot(Apply(Apply(s, End, ended), Extend(minutes), now));
      && snap.status == Running && snap.startTime == before.startTime && snap.endTime.Some?
      && snap.durationSeconds == before.durationSeconds + minutes * 60
      && now / SECOND + minutes * 60 == snap.endTime.value
      && (forall t | ended <= t <= now :: StateAt(ParseSnapshot(Apply(s, End, ended)), t).status == Ended)
      && forall t | t >= now :: StateAt(snap, t).status == Running <==> t <= (now / SECOND + minutes * 60) * SECOND
  {
    AfterEnd(s, ended);
    AfterExtend(Apply(s, End, ended), minutes, now);
    Fraction(ended);
    Fraction(now);
  }
}
