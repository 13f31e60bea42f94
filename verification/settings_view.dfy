/**
 * The phone's settings screen (ui/SettingsView.kt): every control hands back
 * a copy of the settings with one field replaced, and the frequency and
 * hours dialogs reject a value with a toast instead. The screen keeps the
 * frequency at or above the minimum and the hours window non-empty; it does
 * not keep a weekday allowed.
 */
module SettingsView {
  import opened Wrappers
  import opened Time
  import opened Utils
  import opened OneOffTimer
  import opened NudgeSettings
  import opened Scheduler
  import WearVibration

  /** What the screen maintains: a frequency no shorter than the minimum and a non-empty window of times of day. */
  predicate ScreenValid(s: Settings) {
    s.frequency >= MinimumFrequencyMs && 0 <= s.hours.start < s.hours.end < DayMs
  }

  /** The frequency dialog's confirm: a frequency below the minimum is rejected. */
  function ConfirmFrequency(s: Settings, frequency: int): (r: Option<Settings>)
    ensures r.Some? <==> frequency >= MinimumFrequencyMs
    ensures r.Some? ==> r.value == s.(frequency := frequency)
  {
    if frequency < MinimumFrequencyMs then None else Some(s.(frequency := frequency))
  }

  /** The start-of-hours dialog's confirm: a start not before the end is rejected. */
  function ConfirmHoursStart(s: Settings, start: int): (r: Option<Settings>)
    ensures r.Some? <==> start < s.hours.end
    ensures r.Some? ==> r.value == s.(hours := Hours(start, s.hours.end))
  {
    if start >= s.hours.end then None else Some(s.(hours := s.hours.(start := start)))
  }

  /** The end-of-hours dialog's confirm: an end not after the start is rejected. */
  function ConfirmHoursEnd(s: Settings, end: int): (r: Option<Settings>)
    ensures r.Some? <==> s.hours.start < end
    ensures r.Some? ==> r.value == s.(hours := Hours(s.hours.start, end))
  {
    if end <= s.hours.start then None else Some(s.(hours := s.hours.(end := end)))
  }

  /** The periodic switch, disabled while a one-off timer is enabled. */
  function SwitchPeriodic(s: Settings, now: int, on: bool): (r: Option<Settings>)
    ensures r.Some? <==> !IsEnabled(s.oneOff, now)
    ensures r.Some? ==> r.value == s.(periodic := on)
  {
    if IsEnabled(s.oneOff, now) then None else Some(s.(periodic := on))
  }

  /** One interaction with the screen. A time of day comes from a time dialog, so it lies within a day. */
  datatype Edit =
    | OneOffEdit(oneOff: OneOff)
    | PeriodicEdit(on: bool)
    | RunningNotificationEdit(on: bool)
    | FrequencyEdit(frequency: int)
    | HoursStartEdit(start: int)
    | HoursEndEdit(end: int)
    | DayEdit(day: DayOfWeek)
    | VibrationEdit(vibration: WearVibration.Vibration)

  predicate FromDialogs(e: Edit) {
    && (e.HoursStartEdit? ==> 0 <= e.start < DayMs)
    && (e.HoursEndEdit? ==> 0 <= e.end < DayMs)
  }

  /** The settings after an interaction; None when it is rejected or its control is disabled. */
  function Apply(s: Settings, e: Edit, now: int): (r: Option<Settings>)
    ensures !e.FrequencyEdit? ==> (r.Some? ==> r.value.frequency == s.frequency)
    ensures !e.HoursStartEdit? && !e.HoursEndEdit? ==> (r.Some? ==> r.value.hours == s.hours)
    ensures !e.DayEdit? ==> (r.Some? ==> r.value.days == s.days)
    ensures !e.PeriodicEdit? ==> (r.Some? ==> r.value.periodic == s.periodic)
    ensures !e.OneOffEdit? ==> (r.Some? ==> r.value.oneOff == s.oneOff)
    ensures !e.RunningNotificationEdit? ==> (r.Some? ==> r.value.runningNotification == s.runningNotification)
    ensures !e.VibrationEdit? ==> (r.Some? ==> r.value.vibration == s.vibration)
    ensures e.OneOffEdit? ==> r.Some? && r.value.oneOff == e.oneOff
    ensures e.PeriodicEdit? ==> (r.Some? <==> !IsEnabled(s.oneOff, now)) && (r.Some? ==> r.value.periodic == e.on)
    ensures e.RunningNotificationEdit? ==> r.Some? && r.value.runningNotification == e.on
    ensures e.FrequencyEdit? ==>
              (r.Some? <==> e.frequency >= MinimumFrequencyMs) && (r.Some? ==> r.value.frequency == e.frequency)
    ensures e.HoursStartEdit? ==>
              (r.Some? <==> e.start < s.hours.end) && (r.Some? ==> r.value.hours == Hours(e.start, s.hours.end))
    ensures e.HoursEndEdit? ==>
              (r.Some? <==> s.hours.start < e.end) && (r.Some? ==> r.value.hours == Hours(s.hours.start, e.end))
    ensures e.DayEdit? ==> r.Some? && r.value.days == Xor(s.days, e.day)
    ensures e.VibrationEdit? ==> r.Some? && r.value.vibration == e.vibration
  {
    match e
    case OneOffEdit(o) => Some(s.(oneOff := o))
    case PeriodicEdit(on) => SwitchPeriodic(s, now, on)
    case RunningNotificationEdit(on) => Some(s.(runningNotification := on))
    case FrequencyEdit(f) => ConfirmFrequency(s, f)
    case HoursStartEdit(t) => ConfirmHoursStart(s, t)
    case HoursEndEdit(t) => ConfirmHoursEnd(s, t)
    case DayEdit(d) => Some(s.(days := Xor(s.days, d)))
    case VibrationEdit(v) => Some(s.(vibration := v))
  }

  /** A sequence of interactions at one instant; a rejected one leaves the settings as they were. */
  function ApplyAll(s: Settings, edits: seq<Edit>, now: int): Settings
    decreases |edits|
  {
    if |edits| == 0 then s else ApplyAll(Apply(s, edits[0], now).GetOr(s), edits[1..], now)
  }

  /** Every accepted interaction keeps the screen's invariant. */
  lemma ApplyKeepsValid(s: Settings, e: Edit, now: int)
    requires ScreenValid(s) && FromDialogs(e) && Apply(s, e, now).Some?
    ensures ScreenValid(Apply(s, e, now).value)
  {
  }

  /** The screen's invariant is enough for the scheduler not to throw on the frequency. */
  lemma ValidIsSchedulable(s: Settings)
    requires ScreenValid(s)
    ensures Schedulable(s)
  {
  }

  /** The defaults satisfy the screen's invariant. */
  lemma DefaultScreenValid(first: DayOfWeek)
    ensures ScreenValid(Default(first))
  {
    DefaultValid(first);
  }

  /** However the screen is used, starting from valid settings, they stay valid and schedulable. */
  lemma {:induction false} EditsKeepValid(s: Settings, edits: seq<Edit>, now: int)
    requires ScreenValid(s)
    requires forall k :: 0 <= k < |edits| ==> FromDialogs(edits[k])
    ensures ScreenValid(ApplyAll(s, edits, now)) && Schedulable(ApplyAll(s, edits, now))
    decreases |edits|
  {
    if |edits| == 0 {
      ValidIsSchedulable(s);
    } else {
      if Apply(s, edits[0], now).Some? {
        ApplyKeepsValid(s, edits[0], now);
      }
      assert forall k :: 0 <= k < |edits[1..]| ==> FromDialogs(edits[1..][k]) by {
        forall k | 0 <= k < |edits[1..]|
          ensures FromDialogs(edits[1..][k])
        {
          assert edits[1..][k] == edits[k + 1];
        }
      }
      EditsKeepValid(Apply(s, edits[0], now).GetOr(s), edits[1..], now);
    }
  }

  /** Tapping each of the given weekdays once. */
  function DayEdits(ds: seq<DayOfWeek>): (r: seq<Edit>)
    ensures |r| == |ds| && forall i :: 0 <= i < |ds| ==> r[i] == DayEdit(ds[i])
  {
    seq(|ds|, i requires 0 <= i < |ds| => DayEdit(ds[i]))
  }

  /** Tapping every allowed weekday once, each a different day, leaves no weekday allowed and changes nothing else. */
  lemma {:induction false} TappingEveryDayClears(s: Settings, ds: seq<DayOfWeek>, now: int)
    requires forall i, j :: 0 <= i < j < |ds| ==> ds[i] != ds[j]
    requires s.days == set i | 0 <= i < |ds| :: ds[i]
    ensures ApplyAll(s, DayEdits(ds), now) == s.(days := {})
    decreases |ds|
  {
    if |ds| == 0 {
      assert s.days == {};
      assert s.(days := {}) == s;
    } else {
      var next := s.(days := Xor(s.days, ds[0]));
      assert Apply(s, DayEdits(ds)[0], now) == Some(next);
      var rest := ds[1..];
      assert next.days == set i | 0 <= i < |rest| :: rest[i] by {
        forall d | d in next.days
          ensures d in set i | 0 <= i < |rest| :: rest[i]
        {
          var i :| 0 <= i < |ds| && ds[i] == d;
          assert i != 0;
          assert rest[i - 1] == d;
        }
        forall d | d in set i | 0 <= i < |rest| :: rest[i]
          ensures d in next.days
        {
          var i :| 0 <= i < |rest| && rest[i] == d;
          assert ds[i + 1] == d;
        }
      }
      assert DayEdits(ds)[1..] == DayEdits(rest);
      TappingEveryDayClears(next, rest, now);
      assert next.(days := {}) == s.(days := {});
    }
  }

  /** The five weekdays allowed by default, in order from the first day of the week. */
  function DefaultDayList(first: DayOfWeek): (r: seq<DayOfWeek>)
    ensures forall i, j :: 0 <= i < j < |r| ==> r[i] != r[j]
    ensures DefaultDays(first) == set i | 0 <= i < |r| :: r[i]
  {
    var r := seq(5, i => first.Plus(i));
    DefaultDaysDistinct(first, r);
    ListedFive(r);
    assert {r[0], r[1], r[2], r[3], r[4]} == DefaultDays(first);
    r
  }

  lemma DefaultDaysDistinct(first: DayOfWeek, r: seq<DayOfWeek>)
    requires |r| == 5 && forall i :: 0 <= i < 5 ==> r[i] == first.Plus(i)
    ensures forall i, j :: 0 <= i < j < |r| ==> r[i] != r[j]
  {
    forall i, j | 0 <= i < j < |r|
      ensures r[i] != r[j]
    {
      PlusDistinct(first, i, j);
    }
  }

  /** The elements of a five-element list, as a set display. */
  lemma ListedFive<T>(r: seq<T>)
    requires |r| == 5
    ensures (set i | 0 <= i < |r| :: r[i]) == {r[0], r[1], r[2], r[3], r[4]}
  {
    var listed := set i | 0 <= i < |r| :: r[i];
    forall x | x in listed
      ensures x in {r[0], r[1], r[2], r[3], r[4]}
    {
      var i :| 0 <= i < |r| && r[i] == x;
      assert i == 0 || i == 1 || i == 2 || i == 3 || i == 4;
    }
    forall x | x in {r[0], r[1], r[2], r[3], r[4]}
      ensures x in listed
    {
      if x == r[0] {
        assert 0 <= 0 < |r|;
      } else if x == r[1] {
        assert 0 <= 1 < |r|;
      } else if x == r[2] {
        assert 0 <= 2 < |r|;
      } else if x == r[3] {
        assert 0 <= 3 < |r|;
      } else {
        assert 0 <= 4 < |r|;
      }
    }
  }

  /**
   * The screen reaches periodic nudges with no allowed weekday: switch them
   * on, then tap each default weekday. On those settings, which the screen
   * considers valid, the scheduler as written throws.
   */
  lemma ScreenReachesNoDays(first: DayOfWeek, now: int, offset: int)
    ensures ScreenValid(ApplyAll(Default(first), [PeriodicEdit(true)] + DayEdits(DefaultDayList(first)), now))
    ensures ApplyAll(Default(first), [PeriodicEdit(true)] + DayEdits(DefaultDayList(first)), now).periodic
    ensures ApplyAll(Default(first), [PeriodicEdit(true)] + DayEdits(DefaultDayList(first)), now).days == {}
    ensures NextPeriodicTriggerAsWritten(ApplyAll(Default(first), [PeriodicEdit(true)] + DayEdits(DefaultDayList(first)), now), now, offset) == Throws
  {
    var d := Default(first);
    var ds := DefaultDayList(first);
    assert !IsEnabled(d.oneOff, now);
    SwitchOnThenUntickAll(d, ds, now);
    DefaultScreenValid(first);
    ValidIsSchedulable(d.(periodic := true, days := {}));
  }

  /** Switching periodic nudges on and then tapping every allowed day once leaves them on with no day. */
  lemma SwitchOnThenUntickAll(s: Settings, ds: seq<DayOfWeek>, now: int)
    requires !IsEnabled(s.oneOff, now)
    requires forall i, j :: 0 <= i < j < |ds| ==> ds[i] != ds[j]
    requires s.days == set i | 0 <= i < |ds| :: ds[i]
    ensures ApplyAll(s, [PeriodicEdit(true)] + DayEdits(ds), now) == s.(periodic := true, days := {})
  {
    var es := [PeriodicEdit(true)] + DayEdits(ds);
    var s0 := s.(periodic := true);
    assert Apply(s, es[0], now) == Some(s0);
    assert es[1..] == DayEdits(ds);
    TappingEveryDayClears(s0, ds, now);
  }
}
