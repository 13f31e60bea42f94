/**
 * The current `Vibration`: a pattern of small integers (1..3 in the UI) and an
 * intensity multiplier, turned into a waveform of alternating off/on segment
 * durations in milliseconds. The Float multiplier is an integer percentage.
 */
module WearVibration {
  import opened Wrappers
  import opened Text
  import opened Utils
  import opened Waveform

  const SpacingMs: int := 200
  const BaselineMs: int := 100
  const PatternValueMs: int := 200

  datatype Vibration = Vibration(pattern: seq<int>, multiplierPercent: int)

  /** `DEFAULT`: pattern 1-2-3 at half intensity. */
  const Default: Vibration := Vibration([1, 2, 3], 50)

  /**
   * `BASELINE + PATTERN_VALUE * value * multiplier`. PATTERN_VALUE is a
   * multiple of 100 ms, so the percentage scales it without rounding.
   */
  function ActiveMs(value: int, percent: int): (r: int)
    ensures r == BaselineMs + 2 * value * percent
    ensures value >= 0 && percent >= 0 ==> r >= BaselineMs
  {
    assert PatternValueMs * value * percent == 100 * (2 * value * percent);
    assert value >= 0 && percent >= 0 ==> value * percent >= 0;
    BaselineMs + PatternValueMs * value * percent / 100
  }

  /** The on segment of every pattern value, in order. */
  function Actives(v: Vibration): (a: seq<int>)
    ensures |a| == |v.pattern|
    ensures forall i :: 0 <= i < |a| ==> a[i] == ActiveMs(v.pattern[i], v.multiplierPercent)
  {
    seq(|v.pattern|, i requires 0 <= i < |v.pattern| => ActiveMs(v.pattern[i], v.multiplierPercent))
  }

  /**
   * `timings`: a zero lead-in, then each pattern value's on segment, with the
   * spacing between consecutive ones and none after the last. A pattern of n
   * values gives 2n timings (one, the lead-in, for an empty pattern).
   */
  function Timings(v: Vibration): (r: seq<int>)
    ensures |r| >= 1 && r[0] == 0
    ensures |v.pattern| == 0 ==> r == [0]
    ensures |v.pattern| > 0 ==> |r| == 2 * |v.pattern|
    ensures forall i :: 0 <= i < |v.pattern| ==> On(r, i) == ActiveMs(v.pattern[i], v.multiplierPercent)
    ensures forall i :: 0 <= i < |v.pattern| - 1 ==> Gap(r, i) == SpacingMs
  {
    Interleave(Actives(v), SpacingMs)
  }

  /** `totalDuration`: the sum of the timings. */
  function TotalDuration(v: Vibration): (r: int)
    ensures |v.pattern| == 0 ==> r == 0
    ensures |v.pattern| > 0 ==> r == Sum(Actives(v)) + SpacingMs * (|v.pattern| - 1)
  {
    if |v.pattern| > 0 then
      InterleaveSum(Actives(v), SpacingMs);
      Sum(Timings(v))
    else Sum(Timings(v))
  }

  /** The total duration is the on segments plus one spacing between each pair of consecutive values. */
  lemma TotalDurationFormula(v: Vibration)
    requires |v.pattern| > 0
    ensures TotalDuration(v) == Sum(Actives(v)) + SpacingMs * (|v.pattern| - 1)
  {
    InterleaveSum(Actives(v), SpacingMs);
  }

  /** With a positive multiplier, a strictly increasing pattern gives strictly increasing on segments. */
  lemma IncreasingPatternIncreasingSegments(v: Vibration, i: int, j: int)
    requires v.multiplierPercent > 0
    requires forall a, b :: 0 <= a < b < |v.pattern| ==> v.pattern[a] < v.pattern[b]
    requires 0 <= i < j < |v.pattern|
    ensures On(Timings(v), i) < On(Timings(v), j)
  {
    var p := v.pattern;
    var pct := v.multiplierPercent;
    var d := p[j] - p[i];
    assert d >= 1;
    assert PatternValueMs * p[j] * pct == PatternValueMs * p[i] * pct + 200 * d * pct;
    assert 200 * d * pct >= 200 * pct;
  }

  /** `asString()`: the pattern values joined with `-`. */
  function AsString(pattern: seq<int>): (r: string)
    ensures |pattern| == 0 ==> r == ""
    ensures |pattern| >= 1 && (forall k :: 0 <= k < |pattern| ==> pattern[k] >= 0) ==>
              Split(r, '-') == PrintAll(pattern)
  {
    var tokens := PrintAll(pattern);
    if |pattern| >= 1 && (forall k :: 0 <= k < |pattern| ==> pattern[k] >= 0) then
      assert forall k :: 0 <= k < |tokens| ==> '-' !in tokens[k] by {
        forall k | 0 <= k < |tokens|
          ensures '-' !in tokens[k]
        {
          assert tokens[k] == NatToString(pattern[k]);
        }
      }
      SplitJoin(tokens, '-');
      Join(tokens, '-')
    else Join(tokens, '-')
  }

  /** Every `-`-separated piece of `s` is an Int. */
  predicate EveryPieceParses(s: string) {
    forall k :: 0 <= k < |Split(s, '-')| ==> ParseInteger(Split(s, '-')[k], IntMin, IntMax).Some?
  }

  /** `asVibrationPattern()`: split on `-` and `toInt()` each piece; None where the source throws. */
  function AsVibrationPattern(s: string): (r: Option<seq<int>>)
    ensures r.Some? ==> |r.value| == |Split(s, '-')| >= 1
    ensures r.Some? <==> EveryPieceParses(s)
    ensures r.Some? ==> forall k :: 0 <= k < |r.value| ==> r.value[k] == ParseInteger(Split(s, '-')[k], IntMin, IntMax).value
  {
    ParseAll(Split(s, '-'), IntMin, IntMax)
  }

  /** A non-empty pattern of non-negative Ints survives `asString` then `asVibrationPattern`. */
  lemma PatternRoundTrip(pattern: seq<int>)
    requires |pattern| >= 1
    requires forall k :: 0 <= k < |pattern| ==> 0 <= pattern[k] <= IntMax
    ensures AsVibrationPattern(AsString(pattern)) == Some(pattern)
  {
    var tokens := PrintAll(pattern);
    forall k | 0 <= k < |tokens|
      ensures '-' !in tokens[k]
    {
      assert tokens[k] == NatToString(pattern[k]);
    }
    SplitJoin(tokens, '-');
    ParseAllPrinted(pattern, IntMin, IntMax);
  }

  /** The round trip needs non-negative values: a negative value's sign reads as a separator. */
  lemma NegativeValueBreaksRoundTrip()
    ensures AsString([-1]) == "-1"
    ensures AsVibrationPattern(AsString([-1])) == None
  {
    assert NatToString(1) == "1";
    assert IntToString(-1) == "-1";
    assert PrintAll([-1]) == ["-1"];
    assert Split("", '-') == [""];
    assert "1"[1..] == "";
    assert ['1'] + "" == "1";
    assert [""][1..] == [];
    assert Split("1", '-') == ["1"];
    assert "-1"[1..] == "1";
    assert Split("-1", '-') == ["", "1"];
    assert ParseInteger("", IntMin, IntMax) == None;
  }

  /** An empty pattern prints as the empty string, which does not parse. */
  lemma EmptyPatternDoesNotRoundTrip()
    ensures AsString([]) == ""
    ensures AsVibrationPattern("") == None
  {
    assert Split("", '-') == [""];
  }
}
