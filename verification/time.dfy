/**
 * The java.time arithmetic the core relies on, in one fixed zone and in integer
 * milliseconds: units, ISO weekdays, the local day / time-of-day split of an
 * instant, Kotlin's truncating remainder, and the `Instant.MAX` sentinel.
 */
module Time {

  const SecondMs: int := 1000
  const MinuteMs: int := 60_000
  const HourMs: int := 3_600_000
  const DayMs: int := 86_400_000
  const WeekMs: int := 604_800_000

  /** `Instant.MAX` (+1000000000-12-31T23:59:59.999999999Z) at millisecond precision. */
  const InstantMaxMs: int := 31556889864403199999

  /** java.time.DayOfWeek, numbered as ISO-8601 does: Monday is 1, Sunday is 7. */
  datatype DayOfWeek = Monday | Tuesday | Wednesday | Thursday | Friday | Saturday | Sunday {

    function Value(): (v: int)
      ensures 1 <= v <= 7
    {
      match this
      case Monday => 1
      case Tuesday => 2
      case Wednesday => 3
      case Thursday => 4
      case Friday => 5
      case Saturday => 6
      case Sunday => 7
    }

    /** `DayOfWeek.plus(days)`: the weekday `days` days later, wrapping around the week. */
    function Plus(days: int): (r: DayOfWeek)
      ensures (r.Value() - Value() - days) % 7 == 0
    {
      OfValue((Value() - 1 + days) % 7 + 1)
    }
  }

  /** The weekdays in ISO order, Monday first. */
  const IsoWeek: seq<DayOfWeek> := [Monday, Tuesday, Wednesday, Thursday, Friday, Saturday, Sunday]

  /** `DayOfWeek.of(v)`, which throws outside 1..7. */
  function OfValue(v: int): (d: DayOfWeek)
    requires 1 <= v <= 7
    ensures d.Value() == v
  {
    assert forall k :: 0 <= k < 7 ==> IsoWeek[k].Value() == k + 1;
    IsoWeek[v - 1]
  }

  lemma ValueInjective(a: DayOfWeek, b: DayOfWeek)
    requires a.Value() == b.Value()
    ensures a == b
  {
  }

  /** Two weekdays whose ISO numbers agree modulo 7 are the same weekday. */
  lemma SameWeekday(a: DayOfWeek, b: DayOfWeek, k: int)
    requires a.Value() - b.Value() == 7 * k
    ensures a == b
  {
    assert -6 <= 7 * k <= 6;
    assert k == 0;
  }

  lemma PlusZero(d: DayOfWeek)
    ensures d.Plus(0) == d
  {
    ValueInjective(d.Plus(0), d);
  }

  /** Adding a multiple of a week does not change the weekday. */
  lemma PlusWeeks(d: DayOfWeek, days: int, weeks: int)
    ensures d.Plus(days + 7 * weeks) == d.Plus(days)
  {
    var a := d.Plus(days + 7 * weeks);
    var b := d.Plus(days);
    assert (a.Value() - b.Value()) % 7 == 0;
    SameWeekday(a, b, (a.Value() - b.Value()) / 7);
  }

  lemma PlusPlus(d: DayOfWeek, x: int, y: int)
    ensures d.Plus(x).Plus(y) == d.Plus(x + y)
  {
    var a := d.Plus(x).Plus(y);
    var b := d.Plus(x + y);
    assert (a.Value() - b.Value()) % 7 == 0;
    SameWeekday(a, b, (a.Value() - b.Value()) / 7);
  }

  /** Kotlin's `a / b` on Long for a positive divisor: truncates toward zero. */
  function KotlinDiv(a: int, b: int): (q: int)
    requires b > 0
    ensures a >= 0 ==> b * q <= a < b * q + b
    ensures a < 0 ==> b * q - b < a <= b * q
  {
    if a >= 0 then a / b else -((-a) / b)
  }

  /** Kotlin's `a % b` on Long for a positive divisor: the remainder of the truncating division, so it takes the sign of `a`. */
  function KotlinRem(a: int, b: int): (r: int)
    requires b > 0
    ensures a == b * KotlinDiv(a, b) + r
    ensures -b < r < b
    ensures a >= 0 ==> 0 <= r
    ensures a <= 0 ==> r <= 0
  {
    a - b * KotlinDiv(a, b)
  }

  /** A multiple of a positive number leaves no remainder. */
  lemma MultipleHasNoRemainder(f: int, m: int)
    requires f > 0
    ensures (f * m) % f == 0
  {
    var x := f * m;
    var q := x / f;
    assert x == f * q + x % f;
    assert f * (m - q) == x % f;
    assert m - q == 0 by {
      if m - q >= 1 {
        MulAtLeast(f, m - q);
      } else if m - q <= -1 {
        MulAtLeast(f, q - m);
      }
    }
  }

  lemma MulAtLeast(f: int, k: int)
    requires f > 0 && k >= 1
    ensures f * k >= f
  {
  }

  /** The local date of a local timestamp, as a count of days since 1970-01-01 (floor division). */
  function EpochDay(local: int): int {
    local / DayMs
  }

  /** `toLocalTime()`: milliseconds since local midnight. */
  function TimeOfDay(local: int): (r: int)
    ensures 0 <= r < DayMs
    ensures local == EpochDay(local) * DayMs + r
  {
    local % DayMs
  }

  /** `dayOfWeek` of a local timestamp; 1970-01-01 was a Thursday. */
  function DayOfWeekAt(local: int): (d: DayOfWeek)
    ensures (d.Value() - 4 - EpochDay(local)) % 7 == 0
  {
    OfValue((EpochDay(local) + 3) % 7 + 1)
  }

  /** A timestamp at `day` days since the epoch plus `time` ms into that day splits back into the two. */
  lemma DayAndTime(day: int, time: int)
    requires 0 <= time < DayMs
    ensures EpochDay(day * DayMs + time) == day
    ensures TimeOfDay(day * DayMs + time) == time
  {
    var t := day * DayMs + time;
    var q := EpochDay(t);
    var r := TimeOfDay(t);
    assert (q - day) * DayMs == time - r;
  }

  /** Whole days scale linearly: sums and order of day counts carry over to milliseconds. */
  lemma DaysScale(a: int, b: int)
    ensures a * DayMs + b * DayMs == (a + b) * DayMs
    ensures a <= b ==> a * DayMs <= b * DayMs
    ensures a < b ==> a * DayMs < b * DayMs
    ensures 7 * DayMs == WeekMs
  {
  }

  /** A timestamp within the `day`-th day since the epoch has that epoch day. */
  lemma OnDay(local: int, day: int)
    requires day * DayMs <= local < day * DayMs + DayMs
    ensures EpochDay(local) == day && TimeOfDay(local) == local - day * DayMs
  {
    DayAndTime(day, local - day * DayMs);
  }

  /** Moving a timestamp by whole days keeps its time of day and advances its weekday. */
  lemma ShiftDays(local: int, k: int)
    ensures TimeOfDay(local + k * DayMs) == TimeOfDay(local)
    ensures EpochDay(local + k * DayMs) == EpochDay(local) + k
    ensures DayOfWeekAt(local + k * DayMs) == DayOfWeekAt(local).Plus(k)
  {
    var day := EpochDay(local);
    var time := TimeOfDay(local);
    assert local + k * DayMs == (day + k) * DayMs + time;
    DayAndTime(day + k, time);
    var a := DayOfWeekAt(local + k * DayMs);
    var b := DayOfWeekAt(local).Plus(k);
    assert (a.Value() - b.Value()) % 7 == 0;
    SameWeekday(a, b, (a.Value() - b.Value()) / 7);
  }
}
