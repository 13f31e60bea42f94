/**
 * `ToggleReceiver` (services/ToggleReceiver.kt): the broadcast behind the
 * notification's start and stop actions. Its `to` extra is required; a
 * "stop" while a one-off timer runs stops that timer, and anything else
 * switches periodic nudges to `to`. Reading and writing the preferences
 * around it is left to NudgeSettings.
 */
module ToggleReceiver {
  import opened Wrappers
  import opened Time
  import opened OneOffTimer
  import opened NudgeSettings
  import opened Scheduler

  /** `onReceive`: None when the `to` extra is missing, where `require` throws. */
  function OnReceive(s: Settings, to: Option<bool>, now: int): (r: Option<Settings>)
    ensures r.Some? <==> to.Some?
    ensures r.Some? ==> r.value.frequency == s.frequency && r.value.hours == s.hours && r.value.days == s.days
    ensures r.Some? ==> r.value.vibration == s.vibration && r.value.runningNotification == s.runningNotification
    ensures r.Some? ==> r.value.oneOff.durations == s.oneOff.durations && r.value.oneOff.pausedAt == s.oneOff.pausedAt
    ensures r.Some? && IsRunning(s.oneOff, now) && !to.value ==> r.value.periodic == s.periodic && r.value.oneOff.startedAt.None?
    ensures r.Some? && !(IsRunning(s.oneOff, now) && !to.value) ==> r.value.periodic == to.value && r.value.oneOff == s.oneOff
  {
    match to
    case None => None
    case Some(on) =>
      if IsRunning(s.oneOff, now) && !on then Some(s.(oneOff := s.oneOff.(startedAt := None)))
      else Some(s.(periodic := on))
  }

  /** Stopping a running one-off disables it at every instant: the next alarm is the one the settings give without any one-off. */
  lemma StopRunningOneOff(s: Settings, now: int, later: int, offset: int)
    requires Schedulable(s) && IsRunning(s.oneOff, now)
    ensures !IsEnabled(OnReceive(s, Some(false), now).value.oneOff, later)
    ensures NextOneOffTrigger(OnReceive(s, Some(false), now).value.oneOff, later) == None
    ensures NextTrigger(OnReceive(s, Some(false), now).value, later, offset) == NextTrigger(s.(oneOff := NoOneOff), later, offset)
  {
    var stopped := OnReceive(s, Some(false), now).value;
    OneOffPriority(stopped, stopped, later, offset);
    assert stopped.(oneOff := NoOneOff) == s.(oneOff := NoOneOff);
  }

  /** Receiving "stop" twice always silences the app: no alarm is left. */
  lemma StopTwiceSilences(s: Settings, now: int, offset: int)
    requires Schedulable(s)
    ensures Schedulable(OnReceive(OnReceive(s, Some(false), now).value, Some(false), now).value)
    ensures NextTrigger(OnReceive(OnReceive(s, Some(false), now).value, Some(false), now).value, now, offset) == None
  {
  }

  /** Receiving "start" switches periodic nudges on and leaves the one-off alone. */
  lemma StartSwitchesPeriodicOn(s: Settings, now: int)
    ensures OnReceive(s, Some(true), now) == Some(s.(periodic := true))
  {
  }
}
