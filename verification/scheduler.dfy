/**
 * `Scheduler` (logic/Scheduler.kt): which instant the next nudge alarm is set
 * for. A one-off timer takes priority; otherwise a periodic nudge is aligned
 * to the frequency and moved into the allowed hours and weekdays. The zone is
 * fixed: a local timestamp is the instant plus `offset` milliseconds.
 */
module Scheduler {
  import opened Wrappers
  import opened Time
  import opened Utils
  import opened OneOffTimer
  import opened NudgeSettings

  // ---- Adjusters on local timestamps ----

  /** `at(value: LocalTime)`: the same day at `value`, or the next day's when that is already past. */
  function AtTime(t: int, value: int): (r: int)
    requires 0 <= value < DayMs
    ensures TimeOfDay(r) == value
    ensures t <= r < t + DayMs
  {
    var day := EpochDay(t);
    var with := day * DayMs + value;
    DayAndTime(day, value);
    ShiftDays(with, 1);
    if with >= t then with else with + DayMs
  }

  /** `at(value)` is the earliest timestamp from `t` on whose time of day is `value`. */
  lemma AtTimeEarliest(t: int, value: int, u: int)
    requires 0 <= value < DayMs
    requires t <= u < AtTime(t, value)
    ensures TimeOfDay(u) != value
  {
    var day := EpochDay(t);
    var with := day * DayMs + value;
    assert t == day * DayMs + TimeOfDay(t);
    if with >= t {
      OnDay(u, day);
    } else if u < (day + 1) * DayMs {
      OnDay(u, day);
    } else {
      OnDay(u, day + 1);
    }
  }

  /** Days from weekday `w` to weekday `d`: the least k >= 0 with `w.Plus(k) == d`. */
  function DaysUntil(w: DayOfWeek, d: DayOfWeek): (k: int)
    ensures 0 <= k < 7 && w.Plus(k) == d
    ensures forall j :: 0 <= j < k ==> w.Plus(j) != d
  {
    var k := if d.Value() >= w.Value() then d.Value() - w.Value() else d.Value() - w.Value() + 7;
    PlusValue(w, k);
    ValueInjective(w.Plus(k), d);
    forall j | 0 <= j < k
      ensures w.Plus(j) != d
    {
      PlusDistinct(w, j, k);
    }
    k
  }

  /**
   * `at(day: DayOfWeek)`: `with(day)` moves within the ISO week (Monday to
   * Sunday) keeping the time of day; a result before `t` moves a week on.
   */
  function AtDay(t: int, d: DayOfWeek): (r: int)
    ensures r == t + DaysUntil(DayOfWeekAt(t), d) * DayMs
    ensures DayOfWeekAt(r) == d && TimeOfDay(r) == TimeOfDay(t)
    ensures t <= r < t + WeekMs
  {
    var w := DayOfWeekAt(t);
    var diff := d.Value() - w.Value();
    var with := t + diff * DayMs;
    var k := DaysUntil(w, d);
    DaysScale(0, diff);
    DaysScale(diff, 0);
    DaysScale(diff, 7);
    var r := if with >= t then with else with + WeekMs;
    assert r == t + k * DayMs;
    DaysScale(k, 7);
    DaysScale(0, k);
    ShiftDays(t, k);
    r
  }

  /**
   * The least offset k from `from` on that lands on an allowed weekday, where
   * `allowed[j]` says whether the weekday j days on is allowed and `target`
   * is one allowed offset not before `from`.
   */
  function FirstAllowed(allowed: seq<bool>, from: int, target: int): (k: int)
    requires 0 <= from <= target < |allowed| && allowed[target]
    ensures from <= k <= target && allowed[k]
    ensures forall j :: from <= j < k ==> !allowed[j]
    decreases |allowed| - from
  {
    if allowed[from] then from else FirstAllowed(allowed, from + 1, target)
  }

  /**
   * `at(days)`: `t` itself on an allowed weekday, otherwise `days.minOf { at(it) }`,
   * which here is found by walking forward to the first allowed weekday. The
   * result is the least of `AtDay(t, d)` over the allowed days.
   */
  function AtDays(t: int, days: set<DayOfWeek>): (r: int)
    requires days != {}
    ensures exists d :: d in days && r == AtDay(t, d)
    ensures forall d :: d in days ==> r <= AtDay(t, d)
    ensures DayOfWeekAt(r) in days && TimeOfDay(r) == TimeOfDay(t)
    ensures t <= r < t + WeekMs
  {
    var w := DayOfWeekAt(t);
    var allowed := Allowed(w, days);
    var some :| some in days;
    var k := FirstAllowed(allowed, 0, DaysUntil(w, some));
    AtDaysLeast(t, days, k);
    var best := w.Plus(k);
    var r := t + k * DayMs;
    assert r == AtDay(t, best);
    r
  }

  /** Which weekdays, counted 0..6 days on from `w`, are allowed. */
  function Allowed(w: DayOfWeek, days: set<DayOfWeek>): (a: seq<bool>)
    ensures |a| == 7
    ensures forall j :: 0 <= j < 7 ==> (a[j] <==> w.Plus(j) in days)
  {
    seq(7, j => w.Plus(j) in days)
  }

  /** Walking to the first allowed weekday gives the least of `AtDay` over the allowed days. */
  lemma AtDaysLeast(t: int, days: set<DayOfWeek>, k: int)
    requires 0 <= k < 7 && DayOfWeekAt(t).Plus(k) in days
    requires forall j :: 0 <= j < k ==> DayOfWeekAt(t).Plus(j) !in days
    ensures t + k * DayMs == AtDay(t, DayOfWeekAt(t).Plus(k))
    ensures forall d :: d in days ==> t + k * DayMs <= AtDay(t, d)
  {
    var w := DayOfWeekAt(t);
    var best := w.Plus(k);
    var m := DaysUntil(w, best);
    assert m == k by {
      if m < k {
        assert w.Plus(m) in days;
      }
    }
    forall d | d in days
      ensures t + k * DayMs <= AtDay(t, d)
    {
      var n := DaysUntil(w, d);
      assert k <= n;
      DaysScale(k, n);
    }
  }

  /** Every timestamp from `t` on that falls at `start` lies a whole number of days after `AtTime(t, start)`. */
  lemma LaterAtTime(t: int, start: int, u: int) returns (j: int)
    requires 0 <= start < DayMs
    requires t <= u && TimeOfDay(u) == start
    ensures j >= 0 && u == AtTime(t, start) + j * DayMs
  {
    var a := AtTime(t, start);
    if u < a {
      AtTimeEarliest(t, start, u);
    }
    j := EpochDay(u) - EpochDay(a);
    assert u == EpochDay(u) * DayMs + start;
    assert a == EpochDay(a) * DayMs + start;
    DaysScale(j, EpochDay(a));
    DaysScale(j, 0);
  }

  /**
   * `at(hours, days)`: `t` itself when its time is inside the window on an
   * allowed weekday; otherwise the window's start on the first allowed day
   * from `t` on. The result is never before `t` and less than a week after it.
   */
  function AtHoursDays(t: int, hours: Hours, days: set<DayOfWeek>): (r: int)
    requires 0 <= hours.start < DayMs && days != {}
    ensures Contains(hours, TimeOfDay(t)) && DayOfWeekAt(t) in days ==> r == t
    ensures !(Contains(hours, TimeOfDay(t)) && DayOfWeekAt(t) in days) ==>
      TimeOfDay(r) == hours.start && DayOfWeekAt(r) in days
    ensures hours.start < hours.end ==> Contains(hours, TimeOfDay(r)) && DayOfWeekAt(r) in days
    ensures t <= r < t + DayMs + WeekMs
  {
    if Contains(hours, TimeOfDay(t)) && DayOfWeekAt(t) in days then t
    else AtDays(AtTime(t, hours.start), days)
  }

  /**
   * Outside the allowed time, `at(hours, days)` picks the earliest timestamp
   * from `t` on that is at the window's start on an allowed weekday: no such
   * timestamp comes before it.
   */
  lemma AtHoursDaysEarliestStart(t: int, hours: Hours, days: set<DayOfWeek>, u: int)
    requires 0 <= hours.start < DayMs && days != {}
    requires !(Contains(hours, TimeOfDay(t)) && DayOfWeekAt(t) in days)
    requires t <= u && TimeOfDay(u) == hours.start && DayOfWeekAt(u) in days
    ensures AtHoursDays(t, hours, days) <= u
  {
    var a := AtTime(t, hours.start);
    var w := DayOfWeekAt(a);
    var j := LaterAtTime(t, hours.start, u);
    ShiftDays(a, j);
    var d := w.Plus(j);
    assert DayOfWeekAt(u) == d;
    var k := DaysUntil(w, d);
    assert k <= j;
    DaysScale(k, j);
    assert AtDay(a, d) <= u;
    assert AtDays(a, days) <= AtDay(a, d);
    assert AtHoursDays(t, hours, days) == AtDays(a, days);
  }

  /**
   * With a non-empty window that ends by midnight, `at(hours, days)` gives the
   * earliest allowed timestamp from `t` on: it is inside the window on an
   * allowed weekday, and every allowed timestamp from `t` on is at or after it.
   */
  lemma AtHoursDaysEarliestAllowed(t: int, hours: Hours, days: set<DayOfWeek>, u: int)
    requires 0 <= hours.start < hours.end <= DayMs && days != {}
    requires t <= u && Contains(hours, TimeOfDay(u)) && DayOfWeekAt(u) in days
    ensures Contains(hours, TimeOfDay(AtHoursDays(t, hours, days)))
    ensures DayOfWeekAt(AtHoursDays(t, hours, days)) in days
    ensures AtHoursDays(t, hours, days) <= u
  {
    var day := EpochDay(u);
    var u0 := day * DayMs + hours.start;
    DayAndTime(day, hours.start);
    assert u == day * DayMs + TimeOfDay(u);
    if u0 >= t {
      assert DayOfWeekAt(u0) == DayOfWeekAt(u);
      if !(Contains(hours, TimeOfDay(t)) && DayOfWeekAt(t) in days) {
        AtHoursDaysEarliestStart(t, hours, days, u0);
      }
    } else {
      OnDay(t, day);
      assert DayOfWeekAt(t) == DayOfWeekAt(u);
    }
  }

  // ---- Triggers, as instants ----

  /**
   * `plusRounded(frequency)`: `now + frequency` minus Kotlin's truncating
   * `now % frequency`, i.e. the next multiple of the frequency since the epoch.
   */
  function PlusRounded(now: int, frequency: int): (r: int)
    requires frequency > 0
    ensures r % frequency == 0
    ensures now >= 0 ==> now < r <= now + frequency
    ensures now < 0 ==> now + frequency <= r < now + 2 * frequency
  {
    var r := now + frequency - KotlinRem(now, frequency);
    var q := KotlinDiv(now, frequency);
    assert r == frequency * q + frequency;
    assert frequency * q + frequency == frequency * (q + 1);
    MultipleHasNoRemainder(frequency, q + 1);
    r
  }

  /** What `nextPeriodicTrigger` needs of the settings: `% 0` throws, and a time of day lies within a day. */
  predicate Schedulable(s: Settings) {
    s.periodic ==> s.frequency > 0 && 0 <= s.hours.start < DayMs
  }

  /** The outcome of a call that may throw. */
  datatype Outcome = Throws | Returns(trigger: Option<int>)

  /**
   * `nextPeriodicTrigger(now)` as written: with no allowed day, `at(days)` is
   * reached and `days.minOf` throws NoSuchElementException.
   */
  function NextPeriodicTriggerAsWritten(s: Settings, now: int, offset: int): (r: Outcome)
    requires Schedulable(s)
    ensures r.Throws? <==> s.periodic && s.days == {}
    ensures r.Returns? ==> r.trigger == NextPeriodicTrigger(s, now, offset)
  {
    if s.periodic && s.days == {} then Throws
    else Returns(NextPeriodicTrigger(s, now, offset))
  }

  /**
   * `nextPeriodicTrigger(now)`, corrected so that no allowed day means no
   * periodic nudge: null when periodic nudges are off or no weekday is allowed.
   */
  function NextPeriodicTrigger(s: Settings, now: int, offset: int): (r: Option<int>)
    requires Schedulable(s)
    ensures r.None? <==> !s.periodic || s.days == {}
    ensures r.Some? ==> PlusRounded(now, s.frequency) <= r.value
    ensures r.Some? ==> r.value < PlusRounded(now, s.frequency) + DayMs + WeekMs
    ensures r.Some? ==> DayOfWeekAt(r.value + offset) in s.days
    ensures r.Some? && s.hours.start < s.hours.end ==> Contains(s.hours, TimeOfDay(r.value + offset))
  {
    if !s.periodic || s.days == {} then None
    else
      var rounded := PlusRounded(now, s.frequency);
      LocalBounds(rounded, offset, s.hours, s.days);
      LocalDay(rounded, offset, s.hours, s.days);
      LocalWindow(rounded, offset, s.hours, s.days);
      Some(LocalAtHoursDays(rounded, offset, s.hours, s.days))
  }

  /** `at(hours, days)` evaluated in local time (`offset` ms ahead of UTC) and converted back to an instant. */
  function LocalAtHoursDays(t: int, offset: int, hours: Hours, days: set<DayOfWeek>): (trigger: int)
    requires 0 <= hours.start < DayMs && days != {}
    ensures trigger + offset == AtHoursDays(t + offset, hours, days)
  {
    AtHoursDays(t + offset, hours, days) - offset
  }

  /** The converted instant lies within a day plus a week from `t` on. */
  lemma LocalBounds(t: int, offset: int, hours: Hours, days: set<DayOfWeek>)
    requires 0 <= hours.start < DayMs && days != {}
    ensures t <= LocalAtHoursDays(t, offset, hours, days) < t + DayMs + WeekMs
  {
  }

  /** The converted instant falls on an allowed local weekday. */
  lemma LocalDay(t: int, offset: int, hours: Hours, days: set<DayOfWeek>)
    requires 0 <= hours.start < DayMs && days != {}
    ensures DayOfWeekAt(LocalAtHoursDays(t, offset, hours, days) + offset) in days
  {
    var local := AtHoursDays(t + offset, hours, days);
    assert LocalAtHoursDays(t, offset, hours, days) + offset == local;
    assert DayOfWeekAt(local) in days;
  }

  /** The converted instant falls inside a non-empty window, in local time. */
  lemma LocalWindow(t: int, offset: int, hours: Hours, days: set<DayOfWeek>)
    requires 0 <= hours.start < DayMs && days != {}
    ensures hours.start < hours.end ==> Contains(hours, TimeOfDay(LocalAtHoursDays(t, offset, hours, days) + offset))
  {
    var local := AtHoursDays(t + offset, hours, days);
    assert LocalAtHoursDays(t, offset, hours, days) + offset == local;
    if hours.start < hours.end {
      assert Contains(hours, TimeOfDay(local));
    }
  }

  /** With every weekday switched off, the source throws where the corrected scheduler sets no periodic alarm. */
  lemma EmptyDaysThrow(s: Settings, now: int, offset: int)
    requires Schedulable(s) && s.periodic && s.days == {}
    ensures NextPeriodicTriggerAsWritten(s, now, offset) == Throws
    ensures NextPeriodicTrigger(s, now, offset) == None
  {
  }

  /**
   * `nextOneOffTrigger(now)`: `Instant.MAX` while paused (whatever else is
   * stored), null when no phase is in progress, otherwise the end of the
   * phase in progress.
   */
  function NextOneOffTrigger(o: OneOff, now: int): (r: Option<int>)
    ensures o.pausedAt.Some? ==> r == Some(InstantMaxMs)
    ensures o.pausedAt.None? ==> (r.Some? <==> NextElapsedIndex(o, now).Some?)
    ensures o.pausedAt.None? && r.Some? ==>
      r.value == o.startedAt.value + PhaseEnd(o.durations, NextElapsedIndex(o, now).value)
  {
    if o.pausedAt.Some? then Some(InstantMaxMs)
    else
      match NextElapsedIndex(o, now)
      case None => None
      case Some(i) => Some(o.startedAt.value + Sum(o.durations[..i + 1]))
  }

  /**
   * `nextTrigger()`, on the corrected periodic trigger: the one-off trigger,
   * else the periodic one, dropped when it is `Instant.MAX` or later.
   */
  function NextTrigger(s: Settings, now: int, offset: int): (r: Option<int>)
    requires Schedulable(s)
    ensures r.Some? ==> r.value < InstantMaxMs
    ensures r.Some? ==> r == NextOneOffTrigger(s.oneOff, now) || r == NextPeriodicTrigger(s, now, offset)
    ensures NextOneOffTrigger(s.oneOff, now).Some? && r.Some? ==> r == NextOneOffTrigger(s.oneOff, now)
    ensures (NextOneOffTrigger(s.oneOff, now).Some? && NextOneOffTrigger(s.oneOff, now).value < InstantMaxMs) ==>
              r == NextOneOffTrigger(s.oneOff, now)
    ensures (NextOneOffTrigger(s.oneOff, now).None? && NextPeriodicTrigger(s, now, offset).Some? &&
             NextPeriodicTrigger(s, now, offset).value < InstantMaxMs) ==> r == NextPeriodicTrigger(s, now, offset)
    ensures NextOneOffTrigger(s.oneOff, now).None? && NextPeriodicTrigger(s, now, offset).None? ==> r.None?
  {
    BeforeMax(if NextOneOffTrigger(s.oneOff, now).Some? then NextOneOffTrigger(s.oneOff, now)
      else NextPeriodicTrigger(s, now, offset))
  }

  /** The `if (it < Instant.MAX) it else null` filter of `nextTrigger`. */
  function BeforeMax(t: Option<int>): (r: Option<int>)
    ensures r.Some? ==> r.value < InstantMaxMs
    ensures r.Some? ==> r == t
    ensures t.Some? && t.value < InstantMaxMs ==> r == t
  {
    if t.Some? && t.value < InstantMaxMs then t else None
  }

  /**
   * `nextTrigger()` as written: with no one-off phase in progress it falls
   * through to `nextPeriodicTrigger`, which throws when periodic nudges are on
   * and no weekday is allowed.
   */
  function NextTriggerAsWritten(s: Settings, now: int, offset: int): (r: Outcome)
    requires Schedulable(s)
    ensures r.Throws? <==> NextOneOffTrigger(s.oneOff, now).None? && s.periodic && s.days == {}
    ensures r.Returns? ==> r.trigger == NextTrigger(s, now, offset)
  {
    var t := NextOneOffTrigger(s.oneOff, now);
    if t.Some? then Returns(BeforeMax(t))
    else
      match NextPeriodicTriggerAsWritten(s, now, offset)
      case Throws => Throws
      case Returns(p) => Returns(BeforeMax(p))
  }

  /** The empty one-off: never started, so no phase is ever in progress. */
  const NoOneOff: OneOff := OneOff(None, None, [])

  /**
   * The one-off takes priority: while one of its phases is in progress (or it
   * is paused) the periodic settings do not matter, and a one-off with nothing
   * in progress schedules exactly as if there were none.
   */
  lemma OneOffPriority(s: Settings, s2: Settings, now: int, offset: int)
    requires Schedulable(s) && Schedulable(s2)
    ensures NextOneOffTrigger(s.oneOff, now).Some? && s2.oneOff == s.oneOff ==>
      NextTrigger(s2, now, offset) == NextTrigger(s, now, offset)
    ensures NextOneOffTrigger(s.oneOff, now).None? ==>
      NextTrigger(s, now, offset) == NextTrigger(s.(oneOff := NoOneOff), now, offset)
  {
    var one := NextOneOffTrigger(s.oneOff, now);
    if one.Some? && s2.oneOff == s.oneOff {
      assert NextOneOffTrigger(s2.oneOff, now) == one;
      assert NextTrigger(s2, now, offset) == BeforeMax(one);
    }
    if one.None? {
      var s0 := s.(oneOff := NoOneOff);
      assert NextOneOffTrigger(s0.oneOff, now) == None;
      PeriodicReadsPeriodicFields(s0, s, now, offset);
    }
  }

  /** The periodic trigger reads only the periodic settings. */
  lemma PeriodicReadsPeriodicFields(a: Settings, b: Settings, now: int, offset: int)
    requires Schedulable(a) && Schedulable(b)
    requires a.periodic == b.periodic && a.frequency == b.frequency && a.hours == b.hours && a.days == b.days
    ensures NextPeriodicTrigger(a, now, offset) == NextPeriodicTrigger(b, now, offset)
  {
    if a.periodic && a.days != {} {
      var rounded := PlusRounded(now, a.frequency);
      assert NextPeriodicTrigger(a, now, offset) == Some(LocalAtHoursDays(rounded, offset, a.hours, a.days));
    }
  }

  /** A paused one-off suppresses every alarm, the periodic one included. */
  lemma PausedSuppressesAll(s: Settings, now: int, offset: int)
    requires Schedulable(s) && s.oneOff.pausedAt.Some?
    ensures NextTrigger(s, now, offset) == None
  {
  }

  /** A running one-off with phases rings at the end of the phase in progress, which is after `now`. */
  lemma RunningOneOffRingsAfterNow(s: Settings, now: int, offset: int)
    requires Schedulable(s) && IsRunning(s.oneOff, now) && |s.oneOff.durations| > 0
    requires s.oneOff.startedAt.value + Total(s.oneOff) < InstantMaxMs
    requires forall k :: 0 <= k < |s.oneOff.durations| ==> s.oneOff.durations[k] >= 0
    ensures NextTrigger(s, now, offset).Some?
    ensures now < NextTrigger(s, now, offset).value
    ensures NextTrigger(s, now, offset) == NextOneOffTrigger(s.oneOff, now)
  {
    var o := s.oneOff;
    RunningHasNextIndex(o, now);
    var i := NextElapsedIndex(o, now).value;
    var ds := o.durations;
    SumPrefixMonotone(ds, i + 1, |ds|);
    assert ds[..|ds|] == ds;
  }

  /** A one-off that ran through all its phases without being stopped does not hold back the periodic nudge. */
  lemma FinishedOneOffDoesNotBlock(s: Settings, now: int, offset: int)
    requires Schedulable(s) && s.oneOff.pausedAt.None? && !IsEnabled(s.oneOff, now)
    ensures NextOneOffTrigger(s.oneOff, now) == None
    ensures s.periodic && s.days != {} ==> NextTrigger(s, now, offset).Some? || NextPeriodicTrigger(s, now, offset).value >= InstantMaxMs
  {
  }

  /** With periodic nudges off and no one-off phase in progress there is no alarm. */
  lemma NothingScheduled(s: Settings, now: int, offset: int)
    requires Schedulable(s) && !s.periodic && NextOneOffTrigger(s.oneOff, now).None?
    ensures NextTrigger(s, now, offset) == None
  {
  }

  /** From a non-negative `now`, a periodic alarm is strictly in the future. */
  lemma PeriodicAfterNow(s: Settings, now: int, offset: int)
    requires Schedulable(s) && s.periodic && s.days != {} && now >= 0
    ensures now < NextPeriodicTrigger(s, now, offset).value
  {
  }
}
