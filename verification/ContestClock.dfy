/** The contest clock: four statuses, times stored as whole-second stamps (RFC 3339,
  * section 5.6) in a key-value table, and a snapshot re-parsed from it after every change. */
module ContestClock {
  import opened Wrappers

  type Instant = int  // nanoseconds
  const SECOND: int := 1_000_000_000
  const DEFAULT_DURATION_SECONDS: int := 7200
  const DEFAULT_FREEZE_MINUTES: int := 30

  datatype Status = NotStarted | Running | Paused | Ended

  datatype Key =
    | StatusKey | DurationKey | FreezeMinutesKey | StartKey | EndKey | PausedKey
    | FrozenKey | OverriddenKey | FreezeStartKey

  /** A stored text, by what it parses as; Blank is the empty string and Junk anything else. */
  datatype Value = Blank | Junk | Word(status: Status) | Number(n: int) | Stamp(second: int) | Flag(on: bool)

  type Settings = map<Key, Value>

  datatype Snapshot = Snapshot(
    status: Status,
    startTime: Option<int>,
    endTime: Option<int>,
    durationSeconds: int,
    freezeMinutes: int,
    isFrozen: bool,
    freezeOverridden: bool,
    freezeStartTime: Option<int>,
    pausedAt: Option<int>)

  /** Formatting an instant drops its fraction of a second. */
  function Format(t: Instant): Value { Stamp(t / SECOND) }

  function Lookup(values: Settings, key: Key): Value { if key in values then values[key] else Blank }

  function ParseTime(v: Value): Option<int> { if v.Stamp? then Some(v.second) else None }

  function ParseSnapshot(values: Settings): Snapshot {
    var status := Lookup(values, StatusKey);
    var duration := Lookup(values, DurationKey);
    var freeze := Lookup(values, FreezeMinutesKey);
    Snapshot(
      if status.Word? then status.status else NotStarted,
      ParseTime(Lookup(values, StartKey)),
      ParseTime(Lookup(values, EndKey)),
      if duration.Number? && duration.n > 0 then duration.n else DEFAULT_DURATION_SECONDS,
      if freeze.Number? && freeze.n >= 0 then freeze.n else DEFAULT_FREEZE_MINUTES,
      Lookup(values, FrozenKey) == Flag(true),
      Lookup(values, OverriddenKey) == Flag(true),
      ParseTime(Lookup(values, FreezeStartKey)),
      ParseTime(Lookup(values, PausedKey)))
  }

  // ---- What contestants see ----

  datatype ContestState = ContestState(
    status: Status, remainingSeconds: int, elapsedSeconds: int, isFrozen: bool, freezeStart: Option<int>)

  function NonNegativeSeconds(ns: int): int { if ns < 0 then 0 else ns / SECOND }

  predicate PastEnd(snap: Snapshot, now: Instant) {
    snap.status == Running && snap.startTime.Some? && snap.endTime.Some? && now > snap.endTime.value * SECOND
  }

  function Remaining(snap: Snapshot, now: Instant): int {
    match snap.status
    case NotStarted => snap.durationSeconds
    case Running =>
      if snap.startTime.None? || snap.endTime.None? then snap.durationSeconds
      else if PastEnd(snap, now) then 0
      else NonNegativeSeconds(snap.endTime.value * SECOND - now)
    case Paused =>
      if snap.startTime.None? || snap.endTime.None? || snap.pausedAt.None? then snap.durationSeconds
      else NonNegativeSeconds((snap.endTime.value - snap.pausedAt.value) * SECOND)
    case Ended => 0
  }

  function Elapsed(snap: Snapshot, now: Instant): int {
    match snap.status
    case NotStarted => 0
    case Running =>
      if snap.startTime.None? || snap.endTime.None? then 0
      else if PastEnd(snap, now) then snap.durationSeconds
      else NonNegativeSeconds(now - snap.startTime.value * SECOND)
    case Paused =>
      if snap.startTime.None? || snap.endTime.None? || snap.pausedAt.None? then 0
      else NonNegativeSeconds((snap.pausedAt.value - snap.startTime.value) * SECOND)
    case Ended => snap.durationSeconds
  }

  /** The second at which the board freezes by itself. */
  function FreezeCutoff(snap: Snapshot): int
    requires snap.endTime.Some?
  {
    snap.endTime.value - snap.freezeMinutes * 60
  }

  predicate AutoFrozen(snap: Snapshot, now: Instant) {
    && !snap.isFrozen && !snap.freezeOverridden && snap.status != NotStarted
    && snap.endTime.Some? && snap.freezeMinutes > 0
    && FreezeCutoff(snap) * SECOND <
       if snap.status == Paused && snap.pausedAt.Some? then snap.pausedAt.value * SECOND else now
  }

  function StateAt(snap: Snapshot, now: Instant): ContestState {
    ContestState(
      if PastEnd(snap, now) then Ended else snap.status,
      Remaining(snap, now), Elapsed(snap, now),
      snap.isFrozen || AutoFrozen(snap, now),
      if AutoFrozen(snap, now) then Some(FreezeCutoff(snap)) else snap.freezeStartTime)
  }

  // ---- The controls ----

  datatype Op =
    | Start(minutes: int) | Pause | Resume | Extend(minutes: int)
    | Freeze | Unfreeze | Reset | End
    | UpdateSettings(durationMinutes: int, freezeMinutes: int)

  datatype Error = AlreadyRunning | ContestPaused | NotRunning | NotPaused | BadMinutes

  datatype Outcome = Saved(updates: Settings) | Refused(error: Error)

  function Max(x: int, y: int): int { if x < y then y else x }

  /** The rows an operation writes. */
  function Updates(snap: Snapshot, op: Op, now: Instant): Outcome {
    match op
    case Start(minutes) =>
      if snap.status == Running then Refused(AlreadyRunning)
      else if snap.status == Paused then Refused(ContestPaused)
      else
        var duration := if minutes > 0 then minutes * 60 else snap.durationSeconds;
        Saved(map[StatusKey := Word(Running), DurationKey := Number(duration),
                  StartKey := Format(now), EndKey := Format(now + duration * SECOND), PausedKey := Blank,
                  FrozenKey := Flag(false), OverriddenKey := Flag(false)])
    case Pause =>
      if StateAt(snap, now).status != Running then Refused(NotRunning)
      else Saved(map[StatusKey := Word(Paused), PausedKey := Format(now)])
    case Resume =>
      if snap.status != Paused then Refused(NotPaused)
      else
        var newEnd :=
          if snap.endTime.Some? && snap.pausedAt.Some?
          then snap.endTime.value * SECOND + Max(0, now - snap.pausedAt.value * SECOND)
          else now + snap.durationSeconds * SECOND;
        Saved(map[StatusKey := Word(Running), EndKey := Format(newEnd), PausedKey := Blank])
    case Extend(minutes) =>
      if minutes <= 0 then Refused(BadMinutes)
      else
        var duration := map[DurationKey := Number(snap.durationSeconds + minutes * 60)];
        var end :=
          if snap.endTime.None? then map[]
          else map[EndKey := Format(Max(snap.endTime.value * SECOND, now) + minutes * 60 * SECOND)];
        Saved(duration + end + if snap.status == Ended then map[StatusKey := Word(Running)] else map[])
    case Freeze => Saved(map[FrozenKey := Flag(true), FreezeStartKey := Format(now), OverriddenKey := Flag(false)])
    case Unfreeze => Saved(map[FrozenKey := Flag(false), FreezeStartKey := Blank, OverriddenKey := Flag(true)])
    case Reset =>
      Saved(map[StatusKey := Word(NotStarted), StartKey := Blank, EndKey := Blank, PausedKey := Blank,
                FrozenKey := Flag(false), FreezeStartKey := Blank, OverriddenKey := Flag(false)])
    case End => Saved(map[StatusKey := Word(Ended), EndKey := Format(now), PausedKey := Blank])
    case UpdateSettings(durationMinutes, freezeMinutes) =>
      Saved((if durationMinutes > 0 then map[DurationKey := Number(durationMinutes * 60)] else map[])
            + EndEdit(snap, durationMinutes)
            + if freezeMinutes >= 0 then map[FreezeMinutesKey := Number(freezeMinutes)] else map[])
  }

  /** A new duration moves the end only while the status is RUNNING. */
  function EndEdit(snap: Snapshot, durationMinutes: int): Settings {
    if durationMinutes <= 0 || snap.status != Running then map[]
    else if snap.endTime.Some? then
      map[EndKey := Format((snap.endTime.value + durationMinutes * 60 - snap.durationSeconds) * SECOND)]
    else if snap.startTime.Some? then map[EndKey := Format((snap.startTime.value + durationMinutes * 60) * SECOND)]
    else map[]
  }

  function Apply(s: Settings, op: Op, now: Instant): Settings {
    match Updates(ParseSnapshot(s), op, now)
    case Saved(updates) => s + updates
    case Refused(_) => s
  }

  function Answer(snap: Snapshot, op: Op, now: Instant): Option<Error> {
    match Updates(snap, op, now)
    case Saved(_) => None
    case Refused(e) => Some(e)
  }

  class Manager {
    var settings: Settings
    var snapshot: Snapshot

    ghost predicate Valid()
      reads this
    {
      snapshot == ParseSnapshot(settings)
    }

    constructor (stored: Settings)
      ensures Valid() && settings == stored
    {
      settings := stored;
      snapshot := ParseSnapshot(stored);
    }

    method GetState(now: Instant) returns (state: ContestState)
      ensures state == StateAt(snapshot, now)
    {
      var status := snapshot.status;
      var remaining, elapsed := 0, 0;
      match snapshot.status {
        case NotStarted =>
          remaining := snapshot.durationSeconds;
        case Running =>
          if snapshot.startTime.Some? && snapshot.endTime.Some? {
            if now > snapshot.endTime.value * SECOND {
              status := Ended;
              elapsed := snapshot.durationSeconds;
            } else {
              var left := snapshot.endTime.value * SECOND - now;
              if left < 0 { left := 0; }
              remaining := left / SECOND;
              var gone := now - snapshot.startTime.value * SECOND;
              if gone < 0 { gone := 0; }
              elapsed := gone / SECOND;
            }
          } else {
            remaining := snapshot.durationSeconds;
          }
        case Paused =>
          if snapshot.startTime.Some? && snapshot.endTime.Some? && snapshot.pausedAt.Some? {
            var left := (snapshot.endTime.value - snapshot.pausedAt.value) * SECOND;
            if left < 0 { left := 0; }
            remaining := left / SECOND;
            var gone := (snapshot.pausedAt.value - snapshot.startTime.value) * SECOND;
            if gone < 0 { gone := 0; }
            elapsed := gone / SECOND;
          } else {
            remaining := snapshot.durationSeconds;
          }
        case Ended =>
          elapsed := snapshot.durationSeconds;
      }
      var isFrozen, freezeStart := snapshot.isFrozen, snapshot.freezeStartTime;
      if !isFrozen && !snapshot.freezeOverridden && snapshot.status != NotStarted && snapshot.endTime.Some?
          && snapshot.freezeMinutes > 0 {
        var threshold := (snapshot.endTime.value - snapshot.freezeMinutes * 60) * SECOND;
        var ref := now;
        if snapshot.status == Paused && snapshot.pausedAt.Some? { ref := snapshot.pausedAt.value * SECOND; }
        if ref > threshold {
          isFrozen, freezeStart := true, Some(snapshot.endTime.value - snapshot.freezeMinutes * 60);
        }
      }
      state := ContestState(status, remaining, elapsed, isFrozen, freezeStart);
    }

    method Save(updates: Settings)
      modifies this
      ensures settings == old(settings) + updates && Valid()
    {
      settings := settings + updates;
      snapshot := ParseSnapshot(settings);
    }

    method StartContest(minutes: int, now: Instant) returns (err: Option<Error>)
      requires Valid()
      modifies this
      ensures Valid() && settings == Apply(old(settings), Start(minutes), now)
      ensures err == Answer(old(snapshot), Start(minutes), now)
    {
      if snapshot.status == Running { return Some(AlreadyRunning); }
      if snapshot.status == Paused { return Some(ContestPaused); }
      var duration := snapshot.durationSeconds;
      if minutes > 0 { duration := minutes * 60; }
      Save(map[StatusKey := Word(Running), DurationKey := Number(duration),
               StartKey := Format(now), EndKey := Format(now + duration * SECOND), PausedKey := Blank,
               FrozenKey := Flag(false), OverriddenKey := Flag(false)]);
      return None;
    }

    method PauseContest(now: Instant) returns (err: Option<Error>)
      requires Valid()
      modifies this
      ensures Valid() && settings == Apply(old(settings), Pause, now)
      ensures err == Answer(old(snapshot), Pause, now)
    {
      var state := GetState(now);
      if state.status != Running { return Some(NotRunning); }
      Save(map[StatusKey := Word(Paused), PausedKey := Format(now)]);
      return None;
    }

    method ResumeContest(now: Instant) returns (err: Option<Error>)
      requires Valid()
      modifies this
      ensures Valid() && settings == Apply(old(settings), Resume, now)
      ensures err == Answer(old(snapshot), Resume, now)
    {
      if snapshot.status != Paused { return Some(NotPaused); }
      var newEnd := now + snapshot.durationSeconds * SECOND;
      if snapshot.endTime.Some? && snapshot.pausedAt.Some? {
        var pause := now - snapshot.pausedAt.value * SECOND;
        if pause < 0 { pause := 0; }
        newEnd := snapshot.endTime.value * SECOND + pause;
      }
      Save(map[StatusKey := Word(Running), EndKey := Format(newEnd), PausedKey := Blank]);
      return None;
    }

    method ExtendContest(minutes: int, now: Instant) returns (err: Option<Error>)
      requires Valid()
      modifies this
      ensures Valid() && settings == Apply(old(settings), Extend(minutes), now)
      ensures err == Answer(old(snapshot), Extend(minutes), now)
    {
      if minutes <= 0 { return Some(BadMinutes); }
      var updates: Settings := map[DurationKey := Number(snapshot.durationSeconds + minutes * 60)];
      if snapshot.endTime.Some? {
        var currentEnd := snapshot.endTime.value * SECOND;
        if now > currentEnd { currentEnd := now; }
        updates := updates[EndKey := Format(currentEnd + minutes * 60 * SECOND)];
      }
      if snapshot.status == Ended { updates := updates[StatusKey := Word(Running)]; }
      assert updates == Updates(snapshot, Extend(minutes), now).updates;
      Save(updates);
      return None;
    }

    method FreezeBoard(now: Instant)
      requires Valid()
      modifies this
      ensures Valid() && settings == Apply(old(settings), Freeze, now)
      ensures snapshot.isFrozen && snapshot.endTime == old(snapshot).endTime && snapshot.status == old(snapshot).status
      ensures forall t: Instant ::
                StateAt(snapshot, t).isFrozen && StateAt(snapshot, t).freezeStart == Some(now / SECOND)
    {
      Save(map[FrozenKey := Flag(true), FreezeStartKey := Format(now), OverriddenKey := Flag(false)]);
    }

    method UnfreezeBoard(now: Instant)
      requires Valid()
      modifies this
      ensures Valid() && settings == Apply(old(settings), Unfreeze, now)
      ensures forall t: Instant :: !StateAt(snapshot, t).isFrozen
    {
      Save(map[FrozenKey := Flag(false), FreezeStartKey := Blank, OverriddenKey := Flag(true)]);
    }

    method ResetContest(now: Instant)
      requires Valid()
      modifies this
      ensures Valid() && settings == Apply(old(settings), Reset, now)
      ensures forall t: Instant ::
                StateAt(snapshot, t) == ContestState(NotStarted, snapshot.durationSeconds, 0, false, None)
    {
      Save(map[StatusKey := Word(NotStarted), StartKey := Blank, EndKey := Blank, PausedKey := Blank,
               FrozenKey := Flag(false), FreezeStartKey := Blank, OverriddenKey := Flag(false)]);
    }

    method EndContest(now: Instant)
      requires Valid()
      modifies this
      ensures Valid() && settings == Apply(old(settings), End, now)
      ensures forall t: Instant :: StateAt(snapshot, t).status == Ended && StateAt(snapshot, t).remainingSeconds == 0
    {
      Save(map[StatusKey := Word(Ended), EndKey := Format(now), PausedKey := Blank]);
    }

    method EditSettings(durationMinutes: int, freezeMinutes: int, now: Instant)
      requires Valid()
      modifies this
      ensures Valid() && settings == Apply(old(settings), UpdateSettings(durationMinutes, freezeMinutes), now)
    {
      var updates := DurationEdits(durationMinutes);
      if freezeMinutes >= 0 { updates := updates + map[FreezeMinutesKey := Number(freezeMinutes)]; }
      if updates == map[] {
        assert settings + updates == settings;
        return;
      }
      Save(updates);
    }

    method DurationEdits(durationMinutes: int) returns (updates: Settings)
      ensures updates == (if durationMinutes > 0 then map[DurationKey := Number(durationMinutes * 60)] else map[])
          + EndEdit(snapshot, durationMinutes)
    {
      updates := map[];
      if durationMinutes > 0 {
        var duration := durationMinutes * 60;
        updates := map[DurationKey := Number(duration)];
        if snapshot.status == Running {
          if snapshot.endTime.Some? {
            var newEnd := snapshot.endTime.value + duration - snapshot.durationSeconds;
            updates := updates + map[EndKey := Format(newEnd * SECOND)];
          } else if snapshot.startTime.Some? {
            var newEnd := snapshot.startTime.value + duration;
            updates := updates + map[EndKey := Format(newEnd * SECOND)];
          }
        }
      }
    }
  }
}
