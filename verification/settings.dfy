/**
 * `Settings` (logic/Settings.kt, identical in the current and the older watch app apart
 * from the vibration and the duration list decoding): the persisted record,
 * its defaults, the `Hours` window, and the encodings `write` and `read` use
 * for each preference. Times are milliseconds; preferences hold whole seconds.
 */
module NudgeSettings {
  import opened Wrappers
  import opened Time
  import opened Text
  import opened Utils
  import opened OneOffTimer
  import WearVibration

  /** A daily window of local times of day, `start` inclusive and `end` exclusive. */
  datatype Hours = Hours(start: int, end: int)

  /** `Hours.contains`. */
  predicate Contains(h: Hours, value: int) {
    h.start <= value && value < h.end
  }

  /**
   * The window is half-open: it holds its start exactly when it is non-empty,
   * never its end, and nothing at all when the start is not before the end.
   */
  lemma HalfOpenWindow(h: Hours, value: int)
    ensures Contains(h, h.start) <==> h.start < h.end
    ensures !Contains(h, h.end)
    ensures h.end <= h.start ==> !Contains(h, value)
    ensures Contains(h, value) ==> h.start <= value < h.end
  {
  }

  datatype Settings = Settings(
    oneOff: OneOff,
    periodic: bool,
    runningNotification: bool,
    frequency: int,
    hours: Hours,
    days: set<DayOfWeek>,
    vibration: WearVibration.Vibration)

  /** `MINIMUM_FREQUENCY` (DEBUG is false): ten minutes. */
  const MinimumFrequencyMs: int := 10 * MinuteMs

  const DefaultOneOff: OneOff := OneOff(None, None, [])
  /** `DEFAULT_FREQUENCY` (DEBUG is false): one hour, also its stored whole seconds. */
  const DefaultFrequencySeconds: int := 3600
  const DefaultFrequencyMs: int := DefaultFrequencySeconds * SecondMs
  /** `DEFAULT_HOURS` (DEBUG is false): 10:00 to 20:00. */
  const DefaultHours: Hours := Hours(10 * HourMs, 20 * HourMs)

  /** `DEFAULT_DAYS`: the five days from the locale's first day of the week, without the last two. */
  function DefaultDays(first: DayOfWeek): (r: set<DayOfWeek>)
    ensures |r| == 5
    ensures forall k :: 0 <= k < 5 ==> first.Plus(k) in r
    ensures first.Plus(5) !in r && first.Plus(6) !in r
  {
    var r := {first.Plus(0), first.Plus(1), first.Plus(2), first.Plus(3), first.Plus(4)};
    forall i, j | 0 <= i < 7 && 0 <= j < 7 && i != j
      ensures first.Plus(i) != first.Plus(j)
    {
      PlusDistinct(first, i, j);
    }
    r
  }

  /** `DEFAULT`, for the locale's first day of the week. */
  function Default(first: DayOfWeek): (r: Settings)
    ensures forall now :: !IsEnabled(r.oneOff, now)
    ensures !r.periodic && !r.runningNotification
    ensures r.frequency == 3_600_000
    ensures r.hours == Hours(36_000_000, 72_000_000)
    ensures r.days == DefaultDays(first)
    ensures r.vibration == WearVibration.Vibration([1, 2, 3], 50)
  {
    Settings(DefaultOneOff, false, false, DefaultFrequencyMs, DefaultHours, DefaultDays(first), WearVibration.Default)
  }

  /** The defaults keep the invariants the settings screen maintains. */
  lemma DefaultValid(first: DayOfWeek)
    ensures Default(first).hours.start < Default(first).hours.end
    ensures Default(first).frequency >= MinimumFrequencyMs
    ensures Default(first).days != {} && first in Default(first).days
    ensures !IsEnabled(Default(first).oneOff, 0)
  {
    PlusZero(first);
    assert first.Plus(0) in DefaultDays(first);
  }

  // ---- One value per preference key ----

  /** `epochSecond` / `seconds` of an optional instant or duration, 0 for null. */
  function EncodeSeconds(x: Option<int>): (r: int)
    ensures x.None? ==> r == 0
    ensures x.Some? ==> r * SecondMs <= x.value < r * SecondMs + SecondMs
  {
    match x
    case None => 0
    case Some(ms) => ms / SecondMs
  }

  /** `ofEpochSecond(...).orNull()` / `ofSeconds(...).orNull()`. */
  function DecodeSeconds(seconds: int): (r: Option<int>)
    ensures r.None? <==> seconds == 0
    ensures r.Some? ==> r.value == seconds * SecondMs && EncodeSeconds(r) == seconds
  {
    OrNull(seconds * SecondMs)
  }

  /**
   * A stored instant or duration reads back truncated to whole seconds, and
   * as null when it lies in the first second: a pause or start within one
   * second of the epoch is lost.
   */
  lemma SecondsRoundTrip(x: Option<int>)
    ensures x.None? ==> DecodeSeconds(EncodeSeconds(x)) == None
    ensures x.Some? && 0 <= x.value < SecondMs ==> DecodeSeconds(EncodeSeconds(x)) == None
    ensures x.Some? && !(0 <= x.value < SecondMs) ==> DecodeSeconds(EncodeSeconds(x)) == Some(x.value - x.value % SecondMs)
    ensures x.Some? && x.value % SecondMs == 0 && x.value != 0 ==> DecodeSeconds(EncodeSeconds(x)) == x
  {
    if x.Some? {
      var ms := x.value;
      assert ms == ms / SecondMs * SecondMs + ms % SecondMs;
    }
  }

  /** A sub-second pause is stored as 0 and reads back as no pause at all. */
  lemma ShortPauseLost(o: OneOff)
    requires o.pausedAt.Some? && 0 <= o.pausedAt.value < SecondMs
    ensures DecodeSeconds(EncodeSeconds(o.pausedAt)) == None
  {
    SecondsRoundTrip(o.pausedAt);
  }

  /** Whole seconds of every duration. */
  function ToSeconds(ds: seq<int>): (r: seq<int>)
    ensures |r| == |ds|
    ensures forall k :: 0 <= k < |r| ==> r[k] == ds[k] / SecondMs
  {
    seq(|ds|, k requires 0 <= k < |ds| => ds[k] / SecondMs)
  }

  /** `Duration.ofSeconds` of every stored value. */
  function ToMs(secs: seq<int>): (r: seq<int>)
    ensures |r| == |secs|
    ensures forall k :: 0 <= k < |r| ==> r[k] == secs[k] * SecondMs
  {
    seq(|secs|, k requires 0 <= k < |secs| => secs[k] * SecondMs)
  }

  /** `durations.map { it.seconds }.joinToString(",")`. */
  function EncodeDurations(ds: seq<int>): (r: string)
    ensures |ds| == 0 ==> r == ""
    ensures |ds| >= 1 ==> Split(r, ',') == PrintAll(ToSeconds(ds))
  {
    var tokens := PrintAll(ToSeconds(ds));
    if |ds| >= 1 then
      assert CommaFree(tokens) by {
        forall k | 0 <= k < |tokens|
          ensures ',' !in tokens[k]
        {
          assert tokens[k] == IntToString(ToSeconds(ds)[k]);
        }
      }
      SplitJoin(tokens, ',');
      Join(tokens, ',')
    else Join(tokens, ',')
  }

  /**
   * The current watch app's durations decoding: a missing or empty string is the empty
   * list, otherwise every comma-separated piece must be a Long (an empty
   * piece throws, which is None).
   */
  function DecodeDurationsWear(stored: Option<string>): (r: Option<seq<int>>)
    ensures stored.None? || stored.value == "" ==> r == Some([])
    ensures stored.Some? && stored.value != "" ==>
      (r.Some? <==> ParseAll(Split(stored.value, ','), LongMin, LongMax).Some?)
    ensures stored.Some? && stored.value != "" && r.Some? ==>
      |r.value| == |Split(stored.value, ',')| &&
      forall k :: 0 <= k < |r.value| ==> r.value[k] == ParseAll(Split(stored.value, ','), LongMin, LongMax).value[k] * SecondMs
  {
    if stored.None? || stored.value == "" then Some([])
    else
      match ParseAll(Split(stored.value, ','), LongMin, LongMax)
      case None => None
      case Some(secs) => Some(ToMs(secs))
  }

  /** `mapNotNull { if (it.isNotEmpty()) ... else null }` on the pieces alone: drop the empty ones, keep the order. */
  function Filter(pieces: seq<string>): seq<string>
    decreases |pieces|
  {
    if |pieces| == 0 then []
    else if pieces[0] == "" then Filter(pieces[1..])
    else [pieces[0]] + Filter(pieces[1..])
  }

  lemma {:induction false} FilterKeeps(pieces: seq<string>)
    ensures forall k :: 0 <= k < |Filter(pieces)| ==> Filter(pieces)[k] != "" && Filter(pieces)[k] in pieces
    ensures (forall k :: 0 <= k < |pieces| ==> pieces[k] != "") ==> Filter(pieces) == pieces
    decreases |pieces|
  {
    if |pieces| > 0 {
      var t := pieces[1..];
      FilterKeeps(t);
      assert forall k :: 0 <= k < |t| ==> t[k] == pieces[k + 1];
      if pieces[0] != "" {
        var r := [pieces[0]] + Filter(t);
        assert forall k :: 1 <= k < |r| ==> r[k] == Filter(t)[k - 1];
        assert pieces == [pieces[0]] + t;
      }
    }
  }

  lemma {:induction false} FilterCounts(pieces: seq<string>)
    ensures forall x :: x != "" ==> multiset(Filter(pieces))[x] == multiset(pieces)[x]
    decreases |pieces|
  {
    if |pieces| > 0 {
      var t := pieces[1..];
      FilterCounts(t);
      assert pieces == [pieces[0]] + t;
      assert multiset(pieces) == multiset{pieces[0]} + multiset(t);
      if pieces[0] != "" {
        assert multiset(Filter(pieces)) == multiset{pieces[0]} + multiset(Filter(t));
      }
    }
  }

  lemma {:induction false} FilterConcat(a: seq<string>, b: seq<string>)
    ensures Filter(a + b) == Filter(a) + Filter(b)
    decreases |a|
  {
    if |a| == 0 {
      assert a + b == b;
    } else {
      assert (a + b)[0] == a[0] && (a + b)[1..] == a[1..] + b;
      FilterConcat(a[1..], b);
      if a[0] != "" {
        assert [a[0]] + (Filter(a[1..]) + Filter(b)) == ([a[0]] + Filter(a[1..])) + Filter(b);
      }
    }
  }

  /**
   * The pieces of a split that are not empty, in order: every kept piece is a
   * non-empty piece of the input, every non-empty piece is kept as often as it
   * occurs, a lone empty piece gives nothing, and the filter distributes over
   * concatenation (NonEmptyPiecesConcat), which fixes the order.
   */
  function NonEmptyPieces(pieces: seq<string>): (r: seq<string>)
    ensures forall k :: 0 <= k < |r| ==> r[k] != ""
    ensures forall k :: 0 <= k < |r| ==> r[k] in pieces
    ensures forall x :: x != "" ==> multiset(r)[x] == multiset(pieces)[x]
    ensures (forall k :: 0 <= k < |pieces| ==> pieces[k] != "") ==> r == pieces
    ensures |pieces| == 0 ==> r == []
    ensures |pieces| == 1 && pieces[0] == "" ==> r == []
  {
    FilterKeeps(pieces);
    FilterCounts(pieces);
    if |pieces| == 1 then
      assert pieces[1..] == [] && Filter(pieces[1..]) == [];
      Filter(pieces)
    else Filter(pieces)
  }

  /** Filtering a concatenation filters each part. */
  lemma NonEmptyPiecesConcat(a: seq<string>, b: seq<string>)
    ensures NonEmptyPieces(a + b) == NonEmptyPieces(a) + NonEmptyPieces(b)
  {
    FilterConcat(a, b);
  }

  /** Every piece that is not empty is a Long. */
  predicate EveryNonEmptyPieceParses(pieces: seq<string>) {
    forall k :: 0 <= k < |pieces| && pieces[k] != "" ==> ParseInteger(pieces[k], LongMin, LongMax).Some?
  }

  /** The filtered pieces all parse exactly when every non-empty piece does. */
  lemma NonEmptyPiecesParse(pieces: seq<string>)
    ensures ParseAll(NonEmptyPieces(pieces), LongMin, LongMax).Some? <==> EveryNonEmptyPieceParses(pieces)
  {
    var r := NonEmptyPieces(pieces);
    if EveryNonEmptyPieceParses(pieces) {
      forall k | 0 <= k < |r|
        ensures ParseInteger(r[k], LongMin, LongMax).Some?
      {
        var j :| 0 <= j < |pieces| && pieces[j] == r[k];
      }
    }
    if ParseAll(r, LongMin, LongMax).Some? {
      forall j | 0 <= j < |pieces| && pieces[j] != ""
        ensures ParseInteger(pieces[j], LongMin, LongMax).Some?
      {
        assert pieces[j] in multiset(pieces);
        assert pieces[j] in multiset(r);
        var k :| 0 <= k < |r| && r[k] == pieces[j];
      }
    }
  }

  /**
   * The older watch app's durations decoding: a missing key is the empty string, and
   * empty pieces are skipped rather than rejected, so it succeeds exactly
   * when every non-empty piece is a Long, one phase per non-empty piece.
   */
  function DecodeDurationsApp(stored: Option<string>): (r: Option<seq<int>>)
    ensures r.Some? <==> EveryNonEmptyPieceParses(Split(stored.GetOr(""), ','))
    ensures r.Some? ==> |r.value| == |NonEmptyPieces(Split(stored.GetOr(""), ','))| <= |Split(stored.GetOr(""), ',')|
    ensures r.Some? ==> forall k :: 0 <= k < |r.value| ==>
      r.value[k] == ParseInteger(NonEmptyPieces(Split(stored.GetOr(""), ','))[k], LongMin, LongMax).value * SecondMs
  {
    var pieces := NonEmptyPieces(Split(stored.GetOr(""), ','));
    NonEmptyPiecesShorter(Split(stored.GetOr(""), ','));
    NonEmptyPiecesParse(Split(stored.GetOr(""), ','));
    match ParseAll(pieces, LongMin, LongMax)
    case None => None
    case Some(secs) => Some(ToMs(secs))
  }

  lemma NonEmptyPiecesShorter(pieces: seq<string>)
    ensures |NonEmptyPieces(pieces)| <= |pieces|
  {
    FilterShorter(pieces);
  }

  lemma {:induction false} FilterShorter(pieces: seq<string>)
    ensures |Filter(pieces)| <= |pieces|
    decreases |pieces|
  {
    if |pieces| > 0 {
      FilterShorter(pieces[1..]);
    }
  }

  /**
   * The older watch app decodes as the current one would decode the text with
   * its empty pieces removed.
   */
  lemma AppIsWearWithoutEmptyPieces(stored: Option<string>)
    ensures DecodeDurationsApp(stored) ==
      DecodeDurationsWear(Some(Join(NonEmptyPieces(Split(stored.GetOr(""), ',')), ',')))
  {
    var pieces := NonEmptyPieces(Split(stored.GetOr(""), ','));
    if |pieces| > 0 {
      assert forall k :: 0 <= k < |pieces| ==> pieces[k] in Split(stored.GetOr(""), ',');
      assert forall k :: 0 <= k < |pieces| ==> ',' !in pieces[k];
      JoinNonEmpty(pieces, ',');
      SplitJoin(pieces, ',');
    }
  }

  /** Where no piece is empty the two watch apps decode alike. */
  lemma NoEmptyPieceAgrees(stored: Option<string>)
    requires forall k :: 0 <= k < |Split(stored.GetOr(""), ',')| ==> Split(stored.GetOr(""), ',')[k] != ""
    ensures DecodeDurationsApp(stored) == DecodeDurationsWear(stored)
  {
    AppIsWearWithoutEmptyPieces(stored);
    JoinSplit(stored.GetOr(""), ',');
  }

  /** No piece holds a comma. */
  predicate CommaFree(pieces: seq<string>) {
    forall k :: 0 <= k < |pieces| ==> ',' !in pieces[k]
  }

  /** Splitting joined comma-free pieces gives them back up to empty pieces, the empty list included. */
  lemma FilteredSplitJoin(pieces: seq<string>)
    requires CommaFree(pieces)
    ensures NonEmptyPieces(Split(Join(pieces, ','), ',')) == NonEmptyPieces(pieces)
  {
    if |pieces| == 0 {
      assert Split("", ',') == [""];
    } else {
      SplitJoin(pieces, ',');
    }
  }

  lemma CommaFreeConcat(a: seq<string>, b: seq<string>)
    requires CommaFree(a) && CommaFree(b)
    ensures CommaFree(a + b)
  {
    assert forall k :: 0 <= k < |a| ==> (a + b)[k] == a[k];
    assert forall k :: |a| <= k < |a + b| ==> (a + b)[k] == b[k - |a|];
  }

  /** An empty piece anywhere in the stored text changes nothing for the older watch app. */
  lemma EmptyPieceIgnored(a: seq<string>, b: seq<string>)
    requires CommaFree(a) && CommaFree(b)
    ensures DecodeDurationsApp(Some(Join(a + [""] + b, ','))) == DecodeDurationsApp(Some(Join(a + b, ',')))
  {
    assert CommaFree([""]);
    CommaFreeConcat(a, [""]);
    CommaFreeConcat(a + [""], b);
    CommaFreeConcat(a, b);
    FilteredSplitJoin(a + [""] + b);
    FilteredSplitJoin(a + b);
    NonEmptyPiecesConcat(a + [""], b);
    NonEmptyPiecesConcat(a, [""]);
    NonEmptyPiecesConcat(a, b);
    assert NonEmptyPieces(a) + NonEmptyPieces([""]) == NonEmptyPieces(a);
    assert NonEmptyPieces(Split(Join(a + [""] + b, ','), ',')) == NonEmptyPieces(Split(Join(a + b, ','), ','));
  }

  /** Durations in whole seconds whose second counts fit a Long. */
  predicate StorableDurations(ds: seq<int>) {
    forall k :: 0 <= k < |ds| ==> ds[k] % SecondMs == 0 && LongMin <= ds[k] / SecondMs <= LongMax
  }

  lemma PrintedDurations(ds: seq<int>)
    requires StorableDurations(ds)
    ensures ParseAll(PrintAll(ToSeconds(ds)), LongMin, LongMax) == Some(ToSeconds(ds))
    ensures ToMs(ToSeconds(ds)) == ds
    ensures forall k :: 0 <= k < |ds| ==> ',' !in PrintAll(ToSeconds(ds))[k] && PrintAll(ToSeconds(ds))[k] != ""
  {
    ParseAllPrinted(ToSeconds(ds), LongMin, LongMax);
    var tokens := PrintAll(ToSeconds(ds));
    forall k | 0 <= k < |ds|
      ensures ToMs(ToSeconds(ds))[k] == ds[k]
    {
      assert ds[k] == ds[k] / SecondMs * SecondMs + ds[k] % SecondMs;
    }
  }

  /** Whole-second durations survive the current watch app's write and read, the empty list included. */
  lemma DurationsRoundTripWear(ds: seq<int>)
    requires StorableDurations(ds)
    ensures DecodeDurationsWear(Some(EncodeDurations(ds))) == Some(ds)
  {
    var tokens := PrintAll(ToSeconds(ds));
    PrintedDurations(ds);
    if |ds| > 0 {
      JoinNonEmpty(tokens, ',');
      SplitJoin(tokens, ',');
    }
  }

  /** Whole-second durations survive the older watch app's write and read, the empty list included. */
  lemma DurationsRoundTripApp(ds: seq<int>)
    requires StorableDurations(ds)
    ensures DecodeDurationsApp(Some(EncodeDurations(ds))) == Some(ds)
  {
    var tokens := PrintAll(ToSeconds(ds));
    PrintedDurations(ds);
    if |ds| > 0 {
      SplitJoin(tokens, ',');
    } else {
      assert Split("", ',') == [""];
      assert NonEmptyPieces([""]) == [];
    }
  }

  lemma SplitWithEmptyPiece()
    ensures Split("5,,6", ',') == ["5", "", "6"]
  {
    assert Split("", ',') == [""];
    assert "6"[1..] == "";
    assert ['6'] + "" == "6";
    assert [""][1..] == [];
    assert Split("6", ',') == ["6"];
    assert ",6"[1..] == "6";
    assert Split(",6", ',') == ["", "6"];
    assert ",,6"[1..] == ",6";
    assert Split(",,6", ',') == ["", "", "6"];
    assert "5,,6"[1..] == ",,6";
    assert ['5'] + "" == "5";
    assert ["", "", "6"][1..] == ["", "6"];
  }

  lemma ParseFiveSix()
    ensures ParseAll(["5", "6"], LongMin, LongMax) == Some([5, 6])
  {
    assert DigitsValue("5") == 5 && DigitsValue("6") == 6;
    assert ParseInteger("5", LongMin, LongMax) == Some(5);
    assert ParseInteger("6", LongMin, LongMax) == Some(6);
    assert ["5", "6"][1..] == ["6"];
    assert ["6"][1..] == [];
    assert ParseAll(["6"][1..], LongMin, LongMax) == Some([]);
    assert [6] + [] == [6];
    assert ParseAll(["6"], LongMin, LongMax) == Some([6]);
    assert ParseAll(["5", "6"][1..], LongMin, LongMax) == Some([6]);
    assert [5] + [6] == [5, 6];
  }

  /** The two decodings differ on an empty piece: the current watch app rejects it, the older one skips it. */
  lemma EmptyPieceDecodings()
    ensures DecodeDurationsWear(Some("5,,6")) == None
    ensures DecodeDurationsApp(Some("5,,6")) == Some([5000, 6000])
  {
    var stored := Some("5,,6");
    SplitWithEmptyPiece();
    WearRejectsEmptyPiece(["5", "", "6"]);
    AppSkipsEmptyPiece(["5", "", "6"]);
    assert stored.GetOr("") == "5,,6";
    assert NonEmptyPieces(Split(stored.GetOr(""), ',')) == ["5", "6"];
  }

  lemma WearRejectsEmptyPiece(pieces: seq<string>)
    requires pieces == ["5", "", "6"]
    ensures ParseAll(pieces, LongMin, LongMax) == None
  {
    assert ParseInteger(pieces[1], LongMin, LongMax) == None;
  }

  lemma AppSkipsEmptyPiece(pieces: seq<string>)
    requires pieces == ["5", "", "6"]
    ensures NonEmptyPieces(pieces) == ["5", "6"]
    ensures ParseAll(NonEmptyPieces(pieces), LongMin, LongMax) == Some([5, 6])
    ensures ToMs([5, 6]) == [5000, 6000]
  {
    assert pieces[1..] == ["", "6"];
    assert pieces[1..][1..] == ["6"];
    assert pieces[1..][1..][1..] == [];
    assert Filter(pieces[1..][1..]) == ["6"];
    assert Filter(pieces[1..]) == ["6"];
    assert Filter(pieces) == ["5"] + ["6"] == ["5", "6"];
    ParseFiveSix();
    assert ToMs([5, 6]) == [5000, 6000];
  }

  /** `LocalTime.toSecondOfDay()`: whole seconds since midnight. */
  function EncodeTimeOfDay(t: int): (r: int)
    ensures 0 <= t < DayMs ==> 0 <= r < DayMs / SecondMs
    ensures r * SecondMs <= t < r * SecondMs + SecondMs
  {
    t / SecondMs
  }

  /** `LocalTime.ofSecondOfDay`, which throws outside 0..86399. */
  function DecodeTimeOfDay(seconds: int): (r: Option<int>)
    ensures r.Some? <==> 0 <= seconds < DayMs / SecondMs
    ensures r.Some? ==> 0 <= r.value < DayMs && r.value % SecondMs == 0
  {
    if 0 <= seconds < DayMs / SecondMs then Some(seconds * SecondMs) else None
  }

  /** A whole-second time of day survives the round trip through its second of day. */
  lemma TimeOfDayRoundTrip(t: int)
    requires 0 <= t < DayMs && t % SecondMs == 0
    ensures DecodeTimeOfDay(EncodeTimeOfDay(t)) == Some(t)
  {
  }

  /** `DayOfWeek.name`. */
  function DayName(d: DayOfWeek): string {
    match d
    case Monday => "MONDAY"
    case Tuesday => "TUESDAY"
    case Wednesday => "WEDNESDAY"
    case Thursday => "THURSDAY"
    case Friday => "FRIDAY"
    case Saturday => "SATURDAY"
    case Sunday => "SUNDAY"
  }

  /** `DayOfWeek.valueOf`, None where it throws. */
  function ValueOf(name: string): (r: Option<DayOfWeek>)
    ensures r.Some? ==> DayName(r.value) == name
  {
    if name == "MONDAY" then Some(Monday)
    else if name == "TUESDAY" then Some(Tuesday)
    else if name == "WEDNESDAY" then Some(Wednesday)
    else if name == "THURSDAY" then Some(Thursday)
    else if name == "FRIDAY" then Some(Friday)
    else if name == "SATURDAY" then Some(Saturday)
    else if name == "SUNDAY" then Some(Sunday)
    else None
  }

  /** Every name reads back as its day. */
  lemma NameRoundTrip(d: DayOfWeek)
    ensures ValueOf(DayName(d)) == Some(d)
  {
  }

  /** `days.map { it.name }.toSet()`. */
  function EncodeDays(days: set<DayOfWeek>): (r: set<string>)
    ensures forall d :: DayName(d) in r <==> d in days
    ensures forall n :: n in r ==> ValueOf(n).Some? && ValueOf(n).value in days
  {
    var r := set d | d in days :: DayName(d);
    forall d | DayName(d) in r
      ensures d in days
    {
      var e :| e in days && DayName(e) == DayName(d);
      NameRoundTrip(e);
      NameRoundTrip(d);
    }
    forall n | n in r
      ensures ValueOf(n).Some? && ValueOf(n).value in days
    {
      var e :| e in days && DayName(e) == n;
      NameRoundTrip(e);
    }
    r
  }

  /** `map { DayOfWeek.valueOf(it) }.toSet()`: None when any name is not a day. */
  function DecodeDays(names: set<string>): (r: Option<set<DayOfWeek>>)
    ensures r.Some? <==> forall n :: n in names ==> ValueOf(n).Some?
    ensures r.Some? ==> forall d :: d in r.value <==> DayName(d) in names
  {
    if forall n :: n in names ==> ValueOf(n).Some? then
      var r := set n | n in names :: ValueOf(n).value;
      assert forall d :: d in r ==> DayName(d) in names;
      assert forall d :: DayName(d) in names ==> d in r by {
        forall d | DayName(d) in names
          ensures d in r
        {
          NameRoundTrip(d);
        }
      }
      Some(r)
    else None
  }

  /** A set of days survives being stored by name. */
  lemma DaysRoundTrip(days: set<DayOfWeek>)
    ensures DecodeDays(EncodeDays(days)) == Some(days)
  {
    var names := EncodeDays(days);
    forall n | n in names
      ensures ValueOf(n).Some?
    {
      var d :| d in days && DayName(d) == n;
      NameRoundTrip(d);
    }
    assert DecodeDays(names).Some?;
    var r := DecodeDays(names).value;
    forall d
      ensures d in r <==> d in days
    {
      if DayName(d) in names {
        var e :| e in days && DayName(e) == DayName(d);
        NameRoundTrip(d);
        NameRoundTrip(e);
      }
    }
    assert r == days;
  }

  /**
   * The current watch app's pattern decoding: a missing or empty string is the default
   * pattern; anything else must parse.
   */
  function DecodePattern(stored: Option<string>): (r: Option<seq<int>>)
    ensures r.Some? ==> |r.value| >= 1
    ensures stored.None? || stored.value == "" ==> r == Some([1, 2, 3])
    ensures stored.Some? && stored.value != "" ==>
      (r.Some? <==> WearVibration.EveryPieceParses(stored.value))
    ensures stored.Some? && stored.value != "" && r.Some? ==>
      |r.value| == |Split(stored.value, '-')| &&
      forall k :: 0 <= k < |r.value| ==> r.value[k] == ParseInteger(Split(stored.value, '-')[k], IntMin, IntMax).value
  {
    if stored.None? || stored.value == "" then Some(WearVibration.Default.pattern)
    else WearVibration.AsVibrationPattern(stored.value)
  }

  /** An empty pattern is written as the empty string and comes back as the default pattern. */
  lemma EmptyPatternReadsAsDefault()
    ensures DecodePattern(Some(WearVibration.AsString([]))) == Some([1, 2, 3])
  {
    WearVibration.EmptyPatternDoesNotRoundTrip();
  }

  // ---- The whole record ----

  /** The preference file: one optional entry per key, None when the key is absent. */
  datatype Prefs = Prefs(
    startedAt: Option<int>,
    pausedAt: Option<int>,
    durations: Option<string>,
    periodic: Option<bool>,
    runningNotification: Option<bool>,
    frequencySeconds: Option<int>,
    hoursStartSeconds: Option<int>,
    hoursEndSeconds: Option<int>,
    days: Option<set<string>>,
    vibrationPattern: Option<string>,
    vibrationMultiplier: Option<int>)

  /** A preference file with no keys, as on first launch. */
  const NoPrefs: Prefs := Prefs(None, None, None, None, None, None, None, None, None, None, None)

  /** `write()`: every key is written. */
  function Write(s: Settings): (p: Prefs)
    ensures p.startedAt == Some(EncodeSeconds(s.oneOff.startedAt))
    ensures p.pausedAt == Some(EncodeSeconds(s.oneOff.pausedAt))
    ensures p.durations == Some(EncodeDurations(s.oneOff.durations))
    ensures p.periodic == Some(s.periodic) && p.runningNotification == Some(s.runningNotification)
    ensures p.frequencySeconds.Some? &&
      p.frequencySeconds.value * SecondMs <= s.frequency < p.frequencySeconds.value * SecondMs + SecondMs
    ensures p.hoursStartSeconds == Some(EncodeTimeOfDay(s.hours.start))
    ensures p.hoursEndSeconds == Some(EncodeTimeOfDay(s.hours.end))
    ensures p.days == Some(EncodeDays(s.days))
    ensures p.vibrationPattern == Some(WearVibration.AsString(s.vibration.pattern))
    ensures p.vibrationMultiplier == Some(s.vibration.multiplierPercent)
  {
    Prefs(
      Some(EncodeSeconds(s.oneOff.startedAt)),
      Some(EncodeSeconds(s.oneOff.pausedAt)),
      Some(EncodeDurations(s.oneOff.durations)),
      Some(s.periodic),
      Some(s.runningNotification),
      Some(s.frequency / SecondMs),
      Some(EncodeTimeOfDay(s.hours.start)),
      Some(EncodeTimeOfDay(s.hours.end)),
      Some(EncodeDays(s.days)),
      Some(WearVibration.AsString(s.vibration.pattern)),
      Some(s.vibration.multiplierPercent))
  }

  /**
   * `read()` of the current watch app: absent keys take their defaults; None where
   * the source throws (a bad number, a second of day out of range, an
   * unknown day name, a bad pattern).
   */
  function Read(p: Prefs, first: DayOfWeek): (r: Option<Settings>)
    ensures r.Some? <==>
      DecodeDurationsWear(p.durations).Some? &&
      DecodeTimeOfDay(p.hoursStartSeconds.GetOr(EncodeTimeOfDay(DefaultHours.start))).Some? &&
      DecodeTimeOfDay(p.hoursEndSeconds.GetOr(EncodeTimeOfDay(DefaultHours.end))).Some? &&
      DecodeDays(p.days.GetOr(EncodeDays(DefaultDays(first)))).Some? &&
      DecodePattern(p.vibrationPattern).Some?
    ensures r.Some? ==> r.value.oneOff.startedAt == DecodeSeconds(p.startedAt.GetOr(0))
    ensures r.Some? ==> r.value.oneOff.pausedAt == DecodeSeconds(p.pausedAt.GetOr(0))
    // An absent key takes the value `DEFAULT` has.
    ensures r.Some? && p.startedAt.None? ==> r.value.oneOff.startedAt == Default(first).oneOff.startedAt
    ensures r.Some? && p.pausedAt.None? ==> r.value.oneOff.pausedAt == Default(first).oneOff.pausedAt
    ensures r.Some? && p.durations.None? ==> r.value.oneOff.durations == Default(first).oneOff.durations
    ensures r.Some? && p.periodic.None? ==> r.value.periodic == Default(first).periodic
    ensures r.Some? && p.runningNotification.None? ==> r.value.runningNotification == Default(first).runningNotification
    ensures r.Some? && p.frequencySeconds.None? ==> r.value.frequency == Default(first).frequency
    ensures r.Some? && p.hoursStartSeconds.None? ==> r.value.hours.start == Default(first).hours.start
    ensures r.Some? && p.hoursEndSeconds.None? ==> r.value.hours.end == Default(first).hours.end
    ensures r.Some? && p.days.None? ==> r.value.days == Default(first).days
    ensures r.Some? && p.vibrationPattern.None? ==> r.value.vibration.pattern == Default(first).vibration.pattern
    ensures r.Some? && p.vibrationMultiplier.None? ==>
      r.value.vibration.multiplierPercent == Default(first).vibration.multiplierPercent
    // A present key is decoded.
    ensures r.Some? && p.durations.Some? ==> r.value.oneOff.durations == DecodeDurationsWear(p.durations).value
    ensures r.Some? && p.periodic.Some? ==> r.value.periodic == p.periodic.value
    ensures r.Some? && p.runningNotification.Some? ==> r.value.runningNotification == p.runningNotification.value
    ensures r.Some? && p.frequencySeconds.Some? ==> r.value.frequency == p.frequencySeconds.value * SecondMs
    ensures r.Some? && p.hoursStartSeconds.Some? ==>
      r.value.hours.start == DecodeTimeOfDay(p.hoursStartSeconds.value).value
    ensures r.Some? && p.hoursEndSeconds.Some? ==>
      r.value.hours.end == DecodeTimeOfDay(p.hoursEndSeconds.value).value
    ensures r.Some? && p.days.Some? ==> r.value.days == DecodeDays(p.days.value).value
    ensures r.Some? && p.vibrationPattern.Some? ==> r.value.vibration.pattern == DecodePattern(p.vibrationPattern).value
    ensures r.Some? && p.vibrationMultiplier.Some? ==> r.value.vibration.multiplierPercent == p.vibrationMultiplier.value
  {
    TimeOfDayRoundTrip(DefaultHours.start);
    TimeOfDayRoundTrip(DefaultHours.end);
    DaysRoundTrip(DefaultDays(first));
    var durations := DecodeDurationsWear(p.durations);
    var start := DecodeTimeOfDay(p.hoursStartSeconds.GetOr(EncodeTimeOfDay(DefaultHours.start)));
    var end := DecodeTimeOfDay(p.hoursEndSeconds.GetOr(EncodeTimeOfDay(DefaultHours.end)));
    var days := DecodeDays(p.days.GetOr(EncodeDays(DefaultDays(first))));
    var pattern := DecodePattern(p.vibrationPattern);
    if durations.None? || start.None? || end.None? || days.None? || pattern.None? then None
    else
      Some(Settings(
        OneOff(DecodeSeconds(p.startedAt.GetOr(0)), DecodeSeconds(p.pausedAt.GetOr(0)), durations.value),
        p.periodic.GetOr(false),
        p.runningNotification.GetOr(false),
        p.frequencySeconds.GetOr(DefaultFrequencySeconds) * SecondMs,
        Hours(start.value, end.value),
        days.value,
        WearVibration.Vibration(pattern.value, p.vibrationMultiplier.GetOr(WearVibration.Default.multiplierPercent))))
  }

  /** A whole-second instant or duration other than zero, or null. */
  predicate StorableInstant(x: Option<int>) {
    x.None? || (x.value % SecondMs == 0 && x.value != 0)
  }

  /** Settings that `write` then `read` reproduce exactly. */
  predicate Storable(s: Settings) {
    && StorableInstant(s.oneOff.startedAt)
    && StorableInstant(s.oneOff.pausedAt)
    && StorableDurations(s.oneOff.durations)
    && s.frequency % SecondMs == 0
    && 0 <= s.hours.start < DayMs && s.hours.start % SecondMs == 0
    && 0 <= s.hours.end < DayMs && s.hours.end % SecondMs == 0
    && |s.vibration.pattern| >= 1
    && forall k :: 0 <= k < |s.vibration.pattern| ==> 0 <= s.vibration.pattern[k] <= IntMax
  }

  /** Each key `write` stores decodes back to its own field. */
  lemma WriteDecodes(s: Settings)
    requires Storable(s)
    ensures DecodeSeconds(Write(s).startedAt.value) == s.oneOff.startedAt
    ensures DecodeSeconds(Write(s).pausedAt.value) == s.oneOff.pausedAt
    ensures DecodeDurationsWear(Write(s).durations) == Some(s.oneOff.durations)
    ensures Write(s).frequencySeconds.value * SecondMs == s.frequency
    ensures DecodeTimeOfDay(Write(s).hoursStartSeconds.value) == Some(s.hours.start)
    ensures DecodeTimeOfDay(Write(s).hoursEndSeconds.value) == Some(s.hours.end)
    ensures DecodeDays(Write(s).days.value) == Some(s.days)
    ensures DecodePattern(Write(s).vibrationPattern) == Some(s.vibration.pattern)
  {
    SecondsRoundTrip(s.oneOff.startedAt);
    SecondsRoundTrip(s.oneOff.pausedAt);
    DurationsRoundTripWear(s.oneOff.durations);
    TimeOfDayRoundTrip(s.hours.start);
    TimeOfDayRoundTrip(s.hours.end);
    DaysRoundTrip(s.days);
    WearVibration.PatternRoundTrip(s.vibration.pattern);
    assert s.vibration.pattern != [];
    assert WearVibration.AsString(s.vibration.pattern) != "" by {
      var tokens := PrintAll(s.vibration.pattern);
      JoinNonEmpty(tokens, '-');
    }
    assert s.frequency / SecondMs * SecondMs == s.frequency;
  }

  /** Reading back what was written gives the same settings, whatever the locale. */
  lemma ReadWrite(s: Settings, first: DayOfWeek)
    requires Storable(s)
    ensures Read(Write(s), first) == Some(s)
  {
    WriteDecodes(s);
    var p := Write(s);
    var r := Read(p, first);
    assert r.Some?;
    assert r.value.oneOff == s.oneOff;
    assert r.value.hours == s.hours;
    assert r.value.vibration == s.vibration;
  }

  lemma AbsentKeysDecode()
    ensures DecodeDurationsWear(NoPrefs.durations) == Some([])
    ensures DecodeTimeOfDay(NoPrefs.hoursStartSeconds.GetOr(EncodeTimeOfDay(DefaultHours.start))) == Some(DefaultHours.start)
    ensures DecodeTimeOfDay(NoPrefs.hoursEndSeconds.GetOr(EncodeTimeOfDay(DefaultHours.end))) == Some(DefaultHours.end)
    ensures DecodePattern(NoPrefs.vibrationPattern) == Some(WearVibration.Default.pattern)
  {
  }

  /** On first launch every key is absent and `read` gives `DEFAULT`. */
  lemma ReadNothingIsDefault(first: DayOfWeek)
    ensures Read(NoPrefs, first) == Some(Default(first))
  {
    DefaultDaysDecode(first);
    AbsentKeysDecode();
    assert Read(NoPrefs, first).Some?;
    var s := Read(NoPrefs, first).value;
    var d := Default(first);
    assert s.oneOff == d.oneOff;
    assert s.frequency == d.frequency;
    assert s.hours == d.hours;
    assert s.days == d.days;
    assert s.vibration == d.vibration;
    assert s.periodic == d.periodic && s.runningNotification == d.runningNotification;
  }

  lemma DefaultDaysDecode(first: DayOfWeek)
    ensures DecodeDays(NoPrefs.days.GetOr(EncodeDays(DefaultDays(first)))) == Some(DefaultDays(first))
  {
    DaysRoundTrip(DefaultDays(first));
  }
}
