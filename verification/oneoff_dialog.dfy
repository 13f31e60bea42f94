/**
 * The buttons of the one-off timer dialog (ui/OneOffDialog.kt in the current watch app,
 * presentation/OneOffDialog.kt in the older watch app): each is offered only in some
 * states and, when pressed, replaces the timer with a copy. A transition that
 * is not offered, or an input the dialog rejects, is None. The instant the
 * screen was drawn and the instant of the press are taken to be the same `now`.
 */
module OneOffDialog {
  import opened Wrappers
  import opened Time
  import opened Utils
  import opened OneOffTimer
  import AppVibration

  /** `Settings.OneOff.MINIMUM_DURATION` in the current watch app: five seconds. */
  const WatchMinimumPhaseMs: int := 5 * SecondMs

  /** The older watch app's minimum phase: `Vibration.MAXIMUM_DURATION`. */
  function AppMinimumPhaseMs(): (r: int)
    ensures r == 2 * SecondMs
  {
    AppVibration.MaximumDurationMs()
  }

  /** A paused timer always has a start: what every button below keeps true. */
  predicate WellFormed(o: OneOff) {
    o.pausedAt.Some? ==> o.startedAt.Some?
  }

  /** Every phase lasts at least `minimum`: what the add button keeps true. */
  predicate PhasesAtLeast(o: OneOff, minimum: int) {
    forall k :: 0 <= k < |o.durations| ==> o.durations[k] >= minimum
  }

  /** Pause: offered while running; freezes the elapsed time into `pausedAt`. */
  function Pause(o: OneOff, now: int): (r: Option<OneOff>)
    ensures r.Some? <==> IsRunning(o, now)
    ensures r.Some? ==> r.value.startedAt == o.startedAt && r.value.durations == o.durations
    ensures r.Some? ==> r.value.pausedAt == Some(now - o.startedAt.value)
  {
    if IsEnabled(o, now) && o.pausedAt.None? then
      Some(o.(pausedAt := Some(now - o.startedAt.value)))
    else None
  }

  /** Resume: offered while paused; restarts the clock so that it reads `pausedAt` now. */
  function Resume(o: OneOff, now: int): (r: Option<OneOff>)
    ensures r.Some? <==> IsEnabled(o, now) && o.pausedAt.Some?
    ensures r.Some? ==> r.value.pausedAt.None? && r.value.durations == o.durations
    ensures r.Some? ==> r.value.startedAt == Some(now - o.pausedAt.value)
  {
    if IsEnabled(o, now) && o.pausedAt.Some? then
      Some(o.(startedAt := Some(now - o.pausedAt.value), pausedAt := None))
    else None
  }

  /** Stop: offered while enabled; clears both instants and keeps the phases. */
  function Stop(o: OneOff, now: int): (r: Option<OneOff>)
    ensures r.Some? <==> IsEnabled(o, now)
    ensures r.Some? ==> r.value == OneOff(None, None, o.durations)
  {
    if IsEnabled(o, now) then Some(o.(startedAt := None, pausedAt := None)) else None
  }

  /** Start: offered when not enabled and there is a phase; sets only `startedAt`. */
  function Start(o: OneOff, now: int): (r: Option<OneOff>)
    ensures r.Some? <==> !IsEnabled(o, now) && |o.durations| > 0
    ensures r.Some? ==> r.value == o.(startedAt := Some(now))
  {
    if !IsEnabled(o, now) && |o.durations| > 0 then Some(o.(startedAt := Some(now))) else None
  }

  /**
   * Add, confirmed in the duration dialog: offered when not enabled; a phase
   * shorter than `minimum` is rejected with a toast; otherwise it is appended
   * and the start is cleared.
   */
  function AddPhase(o: OneOff, now: int, duration: int, minimum: int): (r: Option<OneOff>)
    ensures r.Some? <==> !IsEnabled(o, now) && duration >= minimum
    ensures r.Some? ==> r.value == OneOff(None, o.pausedAt, o.durations + [duration])
  {
    if IsEnabled(o, now) || duration < minimum then None
    else Some(o.(durations := o.durations + [duration], startedAt := None))
  }

  /** `filterIndexed { i, _ -> i != index }`: every phase but one, in order. */
  function RemoveAt(ds: seq<int>, index: int): (r: seq<int>)
    requires 0 <= index < |ds|
    ensures |r| == |ds| - 1
    ensures forall k :: 0 <= k < index ==> r[k] == ds[k]
    ensures forall k :: index <= k < |r| ==> r[k] == ds[k + 1]
  {
    ds[..index] + ds[index + 1..]
  }

  /** Delete on the chip of phase `index`: allowed only when not enabled. */
  function DeletePhase(o: OneOff, now: int, index: int): (r: Option<OneOff>)
    requires 0 <= index < |o.durations|
    ensures r.Some? <==> !IsEnabled(o, now)
    ensures r.Some? ==> r.value == o.(durations := RemoveAt(o.durations, index))
  {
    if IsEnabled(o, now) then None else Some(o.(durations := RemoveAt(o.durations, index)))
  }

  // ---- What the buttons guarantee ----

  /** Pausing keeps the elapsed time, keeps the timer enabled, and stops it running. */
  lemma PauseKeepsElapsed(o: OneOff, now: int)
    requires IsRunning(o, now)
    ensures Elapsed(Pause(o, now).value, now) == Elapsed(o, now)
    ensures IsEnabled(Pause(o, now).value, now) && !IsRunning(Pause(o, now).value, now)
  {
  }

  /** A paused timer stays frozen: its elapsed time does not depend on `now`. */
  lemma PausedIsFrozen(o: OneOff, t1: int, t2: int)
    requires o.startedAt.Some? && o.pausedAt.Some?
    ensures Elapsed(o, t1) == Elapsed(o, t2) == o.pausedAt
    ensures IsEnabled(o, t1) && !IsRunning(o, t1)
  {
  }

  /** Resuming reads the frozen time back, and runs again unless that time already reached the total. */
  lemma ResumeRestoresElapsed(o: OneOff, now: int)
    requires IsEnabled(o, now) && o.pausedAt.Some?
    ensures o.pausedAt.value < Total(o) ==> Elapsed(Resume(o, now).value, now) == o.pausedAt
    ensures IsRunning(Resume(o, now).value, now) <==> o.pausedAt.value < Total(o)
  {
  }

  /**
   * Pausing at `t1` and resuming at `t2` gives the timer it was, started
   * `t2 - t1` later: from then on it reads, at every instant, what it would
   * have read `t2 - t1` earlier without the pause.
   */
  lemma PauseThenResume(o: OneOff, t1: int, t2: int, x: int)
    requires IsRunning(o, t1)
    ensures Resume(Pause(o, t1).value, t2).Some?
    ensures Resume(Pause(o, t1).value, t2).value == o.(startedAt := Some(o.startedAt.value + (t2 - t1)))
    ensures Elapsed(Resume(Pause(o, t1).value, t2).value, t2 + x) == Elapsed(o, t1 + x)
    ensures NextElapsedIndex(Resume(Pause(o, t1).value, t2).value, t2 + x) == NextElapsedIndex(o, t1 + x)
  {
    var p := Pause(o, t1).value;
    assert IsEnabled(p, t2);
  }

  /** After stopping, the timer is not enabled at any instant and has no phase in progress. */
  lemma StopDisables(o: OneOff, now: int, later: int)
    requires IsEnabled(o, now)
    ensures !IsEnabled(Stop(o, now).value, later)
    ensures NextElapsedIndex(Stop(o, now).value, later).None?
  {
  }

  /** Starting a well-formed timer whose phases all last some time makes it run from its first phase. */
  lemma StartRuns(o: OneOff, now: int)
    requires WellFormed(o) && !IsEnabled(o, now) && |o.durations| > 0 && PhasesAtLeast(o, 1)
    ensures IsRunning(Start(o, now).value, now)
    ensures NextElapsedIndex(Start(o, now).value, now) == Some(0)
  {
    var s := Start(o, now).value;
    SumNonNegative(o.durations);
    SumPrefixMonotone(o.durations, 1, |o.durations|);
    assert o.durations[..|o.durations|] == o.durations;
    assert o.durations[..1] == [] + [o.durations[0]];
    SumSnoc([], o.durations[0]);
  }

  /** Adding a phase never yields an enabled timer, and keeps every phase at least the minimum. */
  lemma AddKeepsPhasesAtLeast(o: OneOff, now: int, duration: int, minimum: int, later: int)
    requires PhasesAtLeast(o, minimum) && AddPhase(o, now, duration, minimum).Some?
    ensures PhasesAtLeast(AddPhase(o, now, duration, minimum).value, minimum)
    ensures |AddPhase(o, now, duration, minimum).value.durations| == |o.durations| + 1
    ensures !IsEnabled(AddPhase(o, now, duration, minimum).value, later)
  {
  }

  /** Deleting a phase keeps the others at least the minimum. */
  lemma DeleteKeepsPhasesAtLeast(o: OneOff, now: int, index: int, minimum: int)
    requires 0 <= index < |o.durations| && PhasesAtLeast(o, minimum) && DeletePhase(o, now, index).Some?
    ensures PhasesAtLeast(DeletePhase(o, now, index).value, minimum)
  {
  }

  /** Every button keeps a paused timer's start. */
  lemma TransitionsKeepWellFormed(o: OneOff, now: int, duration: int, minimum: int, index: int)
    requires WellFormed(o)
    ensures Pause(o, now).Some? ==> WellFormed(Pause(o, now).value)
    ensures Resume(o, now).Some? ==> WellFormed(Resume(o, now).value)
    ensures Stop(o, now).Some? ==> WellFormed(Stop(o, now).value)
    ensures Start(o, now).Some? ==> WellFormed(Start(o, now).value)
    ensures AddPhase(o, now, duration, minimum).Some? ==> WellFormed(AddPhase(o, now, duration, minimum).value)
    ensures 0 <= index < |o.durations| && DeletePhase(o, now, index).Some? ==> WellFormed(DeletePhase(o, now, index).value)
  {
  }

  /** On a well-formed timer the pause and resume buttons exclude each other, and stop comes with either. */
  lemma ButtonsExclusive(o: OneOff, now: int)
    requires WellFormed(o)
    ensures !(Pause(o, now).Some? && Resume(o, now).Some?)
    ensures Stop(o, now).Some? <==> Pause(o, now).Some? || Resume(o, now).Some?
    ensures Stop(o, now).Some? ==> Start(o, now).None? && AddPhase(o, now, WatchMinimumPhaseMs, WatchMinimumPhaseMs).None?
  {
  }

  /** A phase the older watch app accepts is at least as long as any vibration it plays at full duration or less. */
  lemma AppPhaseOutlastsVibration(o: OneOff, now: int, duration: int, v: AppVibration.Vibration)
    requires AddPhase(o, now, duration, AppMinimumPhaseMs()).Some?
    requires 0 <= v.multiplierPercent <= 100
    ensures AppVibration.TotalDuration(v) <= duration
  {
    AppVibration.WithinMaximumDuration(v);
  }
}
