/** The helpers of logic/Utils.kt: duration sums and formatting, the zero sentinel, weekday conversions and set toggling. */
module Utils {
  import opened Wrappers
  import opened Time
  import opened Text

  /** `Iterable<Duration>.sum()`: a left fold of `plus` starting from zero. */
  function Sum(xs: seq<int>): (r: int)
    ensures |xs| == 0 ==> r == 0
    ensures |xs| == 1 ==> r == xs[0]
    decreases |xs|
  {
    if |xs| == 0 then 0 else Sum(xs[..|xs| - 1]) + xs[|xs| - 1]
  }

  /** Adding one element to the end adds its value: the fold's step. */
  lemma SumSnoc(xs: seq<int>, x: int)
    ensures Sum(xs + [x]) == Sum(xs) + x
  {
    assert (xs + [x])[..|xs|] == xs;
  }

  /** The sum of a prefix one longer adds the next element. */
  lemma SumPrefixStep(xs: seq<int>, i: int)
    requires 0 <= i < |xs|
    ensures Sum(xs[..i + 1]) == Sum(xs[..i]) + xs[i]
  {
    assert xs[..i + 1] == xs[..i] + [xs[i]];
    SumSnoc(xs[..i], xs[i]);
  }

  lemma {:induction false} SumConcat(a: seq<int>, b: seq<int>)
    ensures Sum(a + b) == Sum(a) + Sum(b)
    decreases |b|
  {
    if |b| == 0 {
      assert a + b == a;
    } else {
      var init := b[..|b| - 1];
      var last := b[|b| - 1];
      assert b == init + [last];
      assert a + b == (a + init) + [last];
      SumSnoc(a + init, last);
      SumConcat(a, init);
      SumSnoc(init, last);
    }
  }

  lemma {:induction false} SumNonNegative(xs: seq<int>)
    ensures (forall k :: 0 <= k < |xs| ==> xs[k] >= 0) ==> Sum(xs) >= 0
    decreases |xs|
  {
    if |xs| > 0 {
      SumNonNegative(xs[..|xs| - 1]);
    }
  }

  /** Of non-negative durations, the total is no shorter than any one of them. */
  lemma {:induction false} SumAtLeastEach(xs: seq<int>, k: int)
    requires 0 <= k < |xs|
    requires forall j :: 0 <= j < |xs| ==> xs[j] >= 0
    ensures xs[k] <= Sum(xs)
    decreases |xs|
  {
    var init := xs[..|xs| - 1];
    assert forall j :: 0 <= j < |init| ==> init[j] == xs[j];
    SumNonNegative(init);
    if k < |xs| - 1 {
      SumAtLeastEach(init, k);
    }
  }

  /** With non-negative elements, a longer prefix never sums to less. */
  lemma {:induction false} SumPrefixMonotone(xs: seq<int>, i: int, j: int)
    requires 0 <= i <= j <= |xs|
    requires forall k :: 0 <= k < |xs| ==> xs[k] >= 0
    ensures Sum(xs[..i]) <= Sum(xs[..j])
    decreases j - i
  {
    if i < j {
      SumPrefixMonotone(xs, i, j - 1);
      SumPrefixStep(xs, j - 1);
    }
  }

  /** `Duration.toHours()` for a non-negative duration in milliseconds. */
  function HoursOf(d: nat): nat {
    d / HourMs
  }

  /** `Duration.minutesPart`: the minutes within the hour. */
  function MinutesPart(d: nat): (m: int)
    ensures 0 <= m < 60
  {
    (d / MinuteMs) % 60
  }

  /** `Duration.secondsPart`: the seconds within the minute. */
  function SecondsPart(d: nat): (s: int)
    ensures 0 <= s < 60
  {
    (d / SecondMs) % 60
  }

  /** Hours, minutes and seconds parts recompose the whole seconds of the duration. */
  lemma PartsRecompose(d: nat)
    ensures HoursOf(d) * 3600 + MinutesPart(d) * 60 + SecondsPart(d) == d / SecondMs
  {
    var s := d / SecondMs;
    var m := d / MinuteMs;
    assert m == s / 60 by {
      assert d == 1000 * s + d % 1000;
      assert d == 60000 * (s / 60) + 1000 * (s % 60) + d % 1000;
      assert 0 <= 1000 * (s % 60) + d % 1000 < 60000;
    }
    assert HoursOf(d) == m / 60 by {
      assert d == 60000 * m + d % 60000;
      assert d == 3600000 * (m / 60) + 60000 * (m % 60) + d % 60000;
      assert 0 <= 60000 * (m % 60) + d % 60000 < 3600000;
    }
    assert s == 60 * m + s % 60;
    assert m == 60 * (m / 60) + m % 60;
  }

  /** Two-digit zero-padded rendering of a minute or second field. */
  function TwoDigits(n: int): (r: string)
    requires 0 <= n < 60
    ensures |r| == 2 && AllDigits(r) && DigitsValue(r) == n
  {
    var s := NatToString(n);
    var r := PadStart(s, 2, '0');
    if |s| == 1 then
      assert r == ['0'] + s;
      assert r[..1] == ['0'];
      r
    else r
  }

  /** `Duration.format()`: `H:MM:SS` for a non-negative duration. */
  function Format(d: nat): (r: string)
    ensures |r| >= 7 && r[|r| - 6] == ':' && r[|r| - 3] == ':'
  {
    var h := NatToString(HoursOf(d));
    var m := TwoDigits(MinutesPart(d));
    var s := TwoDigits(SecondsPart(d));
    h + [':'] + m + [':'] + s
  }

  /** Reading the three fields of Format back gives the hours, the minutes part and the seconds part. */
  lemma FormatReadsBack(d: nat, r: string)
    requires r == Format(d)
    ensures AllDigits(r[..|r| - 6]) && DigitsValue(r[..|r| - 6]) == HoursOf(d)
    ensures AllDigits(r[|r| - 5..|r| - 3]) && DigitsValue(r[|r| - 5..|r| - 3]) == MinutesPart(d)
    ensures AllDigits(r[|r| - 2..]) && DigitsValue(r[|r| - 2..]) == SecondsPart(d)
  {
    var h := NatToString(HoursOf(d));
    var m := TwoDigits(MinutesPart(d));
    var s := TwoDigits(SecondsPart(d));
    Fields(h, m, s, r);
  }

  lemma Fields(h: string, m: string, s: string, r: string)
    requires |m| == 2 && |s| == 2 && r == h + [':'] + m + [':'] + s
    ensures r[..|r| - 6] == h && r[|r| - 5..|r| - 3] == m && r[|r| - 2..] == s
  {
    assert r[..|h|] == h;
    assert r[|h| + 1..|h| + 3] == m;
    assert r[|h| + 4..] == s;
  }

  /**
   * `Instant.orNull()` and `Duration.orNull()`: null when the whole-second
   * part (a floor division) is zero, otherwise the value unchanged.
   */
  function OrNull(ms: int): (r: Option<int>)
    ensures r == None <==> 0 <= ms < SecondMs
    ensures r.Some? ==> r.value == ms
  {
    if ms / SecondMs == 0 then None else Some(ms)
  }

  /**
   * `Int.calendarToJavaDayOfWeek()`: Calendar numbers Sunday 1 .. Saturday 7;
   * `DayOfWeek.of` throws outside 1..7, which is None here.
   */
  function CalendarToJavaDayOfWeek(k: int): (r: Option<DayOfWeek>)
    ensures r.Some? <==> 1 <= k <= 8
  {
    if k == 1 then Some(Sunday)
    else if 1 <= k - 1 <= 7 then Some(OfValue(k - 1))
    else None
  }

  /** The Calendar number of a weekday: the inverse of CalendarToJavaDayOfWeek on 1..7. */
  function JavaToCalendarDayOfWeek(d: DayOfWeek): (k: int)
    ensures 1 <= k <= 7
  {
    if d == Sunday then 1 else d.Value() + 1
  }

  /** CalendarToJavaDayOfWeek is a bijection from 1..7 onto the weekdays: both compositions are identities. */
  lemma CalendarBijection(k: int, d: DayOfWeek)
    ensures 1 <= k <= 7 ==> JavaToCalendarDayOfWeek(CalendarToJavaDayOfWeek(k).value) == k
    ensures CalendarToJavaDayOfWeek(JavaToCalendarDayOfWeek(d)) == Some(d)
  {
    if d != Sunday {
      ValueInjective(CalendarToJavaDayOfWeek(JavaToCalendarDayOfWeek(d)).value, d);
    }
  }

  /** `Set<T>.xor(element)`: removes the element when present, adds it when absent. */
  function Xor<T>(s: set<T>, e: T): (r: set<T>)
    ensures e in r <==> e !in s
    ensures r - {e} == s - {e}
  {
    if e in s then s - {e} else s + {e}
  }

  /** Toggling the same element twice restores the set. */
  lemma XorInvolution<T>(s: set<T>, e: T)
    ensures Xor(Xor(s, e), e) == s
  {
    var r := Xor(Xor(s, e), e);
    assert r - {e} == s - {e};
    assert e in r <==> e in s;
  }

  lemma SmallMod(x: int)
    requires 0 <= x < 14
    ensures x % 7 == if x < 7 then x else x - 7
  {
  }

  /** The ISO number of the weekday k days after `first`, for 0 <= k < 7. */
  lemma PlusValue(first: DayOfWeek, k: int)
    requires 0 <= k < 7
    ensures first.Plus(k).Value() == if first.Value() + k <= 7 then first.Value() + k else first.Value() + k - 7
  {
    SmallMod(first.Value() - 1 + k);
  }

  /** Weekdays i and j days after the same day differ when 0 <= i, j < 7 differ. */
  lemma PlusDistinct(first: DayOfWeek, i: int, j: int)
    requires 0 <= i < 7 && 0 <= j < 7 && i != j
    ensures first.Plus(i) != first.Plus(j)
  {
    PlusValue(first, i);
    PlusValue(first, j);
  }

  /**
   * `allDays()` with the locale's first day of the week passed in: seven
   * consecutive weekdays starting at `first`, all distinct, covering the week.
   */
  function AllDays(first: DayOfWeek): (r: seq<DayOfWeek>)
    ensures |r| == 7 && r[0] == first
    ensures forall i :: 0 <= i < 6 ==> r[i + 1] == r[i].Plus(1)
    ensures forall i, j :: 0 <= i < j < 7 ==> r[i] != r[j]
    ensures forall d: DayOfWeek :: d in r
  {
    var r := seq(7, i => first.Plus(i));
    PlusZero(first);
    forall i | 0 <= i < 6
      ensures r[i + 1] == r[i].Plus(1)
    {
      PlusPlus(first, i, 1);
    }
    forall i, j | 0 <= i < j < 7
      ensures r[i] != r[j]
    {
      PlusDistinct(first, i, j);
    }
    forall d: DayOfWeek
      ensures d in r
    {
      var k := if d.Value() >= first.Value() then d.Value() - first.Value() else d.Value() - first.Value() + 7;
      PlusValue(first, k);
      ValueInjective(first.Plus(k), d);
      assert r[k] == d;
    }
    r
  }
}
