/**
 * The `Vibration` of the older watch app (app/): a named style (a waveform
 * description in seconds) scaled by a duration multiplier. Descriptions are
 * kept in whole milliseconds (0.33 s is 330 ms), so `toPattern`'s `* 1000`
 * truncation is folded into the scaling; the multiplier is a percentage.
 */
module AppVibration {
  import opened Wrappers
  import opened Utils
  import opened Waveform

  /** The spacing `vibrationEffectDescription` puts between on segments (0.2 s). */
  const SpacingMs: int := 200

  datatype Vibration = Vibration(styleName: string, multiplierPercent: int)

  /** `vibrationEffectDescription(vararg active)`: `[0, a1, 0.2, a2, ..., 0.2, an]`. */
  function Description(actives: seq<int>): (r: seq<int>)
    ensures |actives| == 0 ==> r == [0]
    ensures |actives| > 0 ==> |r| == 2 * |actives|
    ensures r[0] == 0
    ensures forall i :: 0 <= i < |actives| ==> On(r, i) == actives[i]
    ensures forall k :: 2 <= k < |r| && k % 2 == 0 ==> r[k] == SpacingMs
  {
    var r := Interleave(actives, SpacingMs);
    forall k | 2 <= k < |r| && k % 2 == 0
      ensures r[k] == SpacingMs
    {
      var i := (k - 2) / 2;
      assert k == 2 * i + 2;
      assert r[k] == Gap(r, i);
    }
    r
  }

  /** `STYLES`, in declaration order; the first entry is the default style. */
  const Styles: seq<(string, seq<int>)> := [
    ("solid", [1000]),
    ("111", [330, 330, 340]),
    ("212", [400, 200, 400]),
    ("123", [200, 330, 470]),
    ("321", [470, 330, 200])
  ]

  /** `DEFAULT`: the first style at half the duration. */
  const Default: Vibration := Vibration(Styles[0].0, 50)

  /** The position of `name` among `styles`, None when absent. */
  function IndexOf(styles: seq<(string, seq<int>)>, name: string): (r: Option<nat>)
    ensures r.Some? ==> r.value < |styles| && styles[r.value].0 == name
    ensures r.Some? ==> forall k :: 0 <= k < r.value ==> styles[k].0 != name
    ensures r.None? ==> forall k :: 0 <= k < |styles| ==> styles[k].0 != name
    decreases |styles|
  {
    if |styles| == 0 then None
    else if styles[0].0 == name then Some(0)
    else
      match IndexOf(styles[1..], name)
      case None => None
      case Some(i) => Some(i + 1)
  }

  /**
   * The style a vibration plays and the resource it is labelled with:
   * `STYLES[styleName] ?: DEFAULT.style` and `STYLE_NAMES_TO_RESOURCES[styleName]
   * ?: DEFAULT.styleResourceId` share the key set and order, so both are this index.
   */
  function StyleIndex(v: Vibration): (i: nat)
    ensures i < |Styles|
    ensures Styles[i].0 == v.styleName || (i == 0 && forall k :: 0 <= k < |Styles| ==> Styles[k].0 != v.styleName)
  {
    match IndexOf(Styles, v.styleName)
    case Some(i) => i
    case None => 0
  }

  /** `style`: the description of the vibration's style. */
  function Style(v: Vibration): seq<int> {
    Description(Styles[StyleIndex(v)].1)
  }

  /** An unknown style name plays, and is labelled as, the default style. */
  lemma StyleFallback(v: Vibration)
    requires forall k :: 0 <= k < |Styles| ==> Styles[k].0 != v.styleName
    ensures StyleIndex(v) == StyleIndex(Default) == 0
    ensures Style(v) == Style(Default)
  {
  }

  /** A known style name plays its own description. */
  lemma KnownStyle(v: Vibration, k: int)
    requires 0 <= k < |Styles| && Styles[k].0 == v.styleName
    ensures Style(v) == Description(Styles[k].1)
  {
    var i := StyleIndex(v);
    if i != k {
      StyleNamesDistinct(i, k);
    }
  }

  /** The style names are pairwise different. */
  lemma StyleNamesDistinct(i: int, j: int)
    requires 0 <= i < |Styles| && 0 <= j < |Styles| && i != j
    ensures Styles[i].0 != Styles[j].0
  {
    var a := Styles[i].0;
    var b := Styles[j].0;
    if i == 0 || j == 0 {
      assert |a| != |b|;
    } else {
      assert a[0] != b[0] || a[1] != b[1];
    }
  }

  /** `{ it * durationMultiplier }` followed by the truncating `* 1000` of `toPattern`. */
  function Scale(percent: int): int -> int {
    x => x * percent / 100
  }

  /** Scaling by 100 % changes nothing, and by at most 100 % never lengthens a non-negative segment. */
  lemma ScaleShortens(percent: int)
    ensures percent == 100 ==> forall x :: Scale(percent)(x) == x
    ensures 0 <= percent <= 100 ==> forall x :: 0 <= x ==> 0 <= Scale(percent)(x) <= x
  {
    if 0 <= percent <= 100 {
      forall x | 0 <= x
        ensures 0 <= Scale(percent)(x) <= x
      {
        assert 0 <= x * percent <= x * 100;
      }
    }
  }

  /**
   * `pattern`: the style with every on segment scaled by the multiplier, so
   * the waveform of the scaled on segments with the style's spacing.
   */
  function Pattern(v: Vibration): (r: seq<int>)
    ensures r == Description(ScaledActives(Styles[StyleIndex(v)].1, v.multiplierPercent))
  {
    MapActiveInterleave(Styles[StyleIndex(v)].1, SpacingMs, Scale(v.multiplierPercent));
    MapActive(Style(v), Scale(v.multiplierPercent))
  }

  /** `activeDuration`: the sum of the on segments of the pattern, that is of the scaled style. */
  function ActiveDuration(v: Vibration): (r: int)
    ensures r == Sum(ScaledActives(Styles[StyleIndex(v)].1, v.multiplierPercent))
    ensures v.multiplierPercent >= 0 ==> r >= 0
  {
    var actives := Styles[StyleIndex(v)].1;
    PatternShape(v);
    if v.multiplierPercent >= 0 then
      StyleActivesPositive(StyleIndex(v));
      ScaledWithinTotal(actives, v.multiplierPercent);
      Sum(OddEntries(Pattern(v)))
    else Sum(OddEntries(Pattern(v)))
  }

  /** `totalDuration`: the sum of the whole pattern, the scaled on segments plus the spacings. */
  function TotalDuration(v: Vibration): (r: int)
    ensures v.multiplierPercent >= 0 ==>
              r == Sum(ScaledActives(Styles[StyleIndex(v)].1, v.multiplierPercent)) + SpacingMs * (|Styles[StyleIndex(v)].1| - 1)
  {
    StyleActivesPositive(StyleIndex(v));
    if v.multiplierPercent >= 0 then
      ScaledWithinTotal(Styles[StyleIndex(v)].1, v.multiplierPercent);
      Sum(Pattern(v))
    else Sum(Pattern(v))
  }

  /** The scaled on segments of a style. */
  function ScaledActives(actives: seq<int>, percent: int): (r: seq<int>)
    ensures |r| == |actives|
    ensures forall i :: 0 <= i < |r| ==> r[i] == actives[i] * percent / 100
  {
    MapAll(actives, Scale(percent))
  }

  /** The pattern is the description of the scaled on segments. */
  lemma PatternShape(v: Vibration)
    ensures Pattern(v) == Description(ScaledActives(Styles[StyleIndex(v)].1, v.multiplierPercent))
    ensures OddEntries(Pattern(v)) == ScaledActives(Styles[StyleIndex(v)].1, v.multiplierPercent)
  {
    var actives := Styles[StyleIndex(v)].1;
    MapActiveInterleave(actives, SpacingMs, Scale(v.multiplierPercent));
    OddEntriesOfInterleave(ScaledActives(actives, v.multiplierPercent), SpacingMs);
  }

  lemma StyleActivesPositive(k: int)
    requires 0 <= k < |Styles|
    ensures |Styles[k].1| > 0
    ensures forall i :: 0 <= i < |Styles[k].1| ==> Styles[k].1[i] > 0
  {
    var actives := Styles[k].1;
    assert actives == [1000] || actives == [330, 330, 340] || actives == [400, 200, 400]
      || actives == [200, 330, 470] || actives == [470, 330, 200];
  }

  /**
   * With a non-negative multiplier, the on time is non-negative and the whole
   * pattern lasts the on time plus one spacing between consecutive segments,
   * so `activeDuration <= totalDuration`.
   */
  lemma ActiveWithinTotal(v: Vibration)
    requires v.multiplierPercent >= 0
    ensures 0 <= ActiveDuration(v) <= TotalDuration(v)
    ensures TotalDuration(v) == ActiveDuration(v) + SpacingMs * (|Styles[StyleIndex(v)].1| - 1)
  {
    var actives := Styles[StyleIndex(v)].1;
    PatternShape(v);
    StyleActivesPositive(StyleIndex(v));
    ScaledWithinTotal(actives, v.multiplierPercent);
  }

  lemma ScaleNonNegative(x: int, percent: int)
    requires x >= 0 && percent >= 0
    ensures x * percent / 100 >= 0
  {
    assert x * percent >= 0;
  }

  lemma ScaledWithinTotal(actives: seq<int>, percent: int)
    requires percent >= 0 && |actives| > 0
    requires forall i :: 0 <= i < |actives| ==> actives[i] > 0
    ensures var scaled := ScaledActives(actives, percent);
      0 <= Sum(scaled) &&
      Sum(Description(scaled)) == Sum(scaled) + SpacingMs * (|actives| - 1)
  {
    var scaled := ScaledActives(actives, percent);
    InterleaveSum(scaled, SpacingMs);
    forall i | 0 <= i < |scaled|
      ensures scaled[i] >= 0
    {
      ScaleNonNegative(actives[i], percent);
    }
    SumNonNegative(scaled);
  }

  /** `ceil(seconds)`, in milliseconds, for a non-negative duration. */
  function CeilSecondsMs(ms: int): (r: int)
    requires ms >= 0
    ensures ms <= r < ms + 1000 && r % 1000 == 0
  {
    (ms + 999) / 1000 * 1000
  }

  /** `maxOf { ceil(it) }` over the non-empty list of style lengths. */
  function MaxCeilTotal(totals: seq<int>): (m: int)
    requires |totals| > 0
    requires forall k :: 0 <= k < |totals| ==> totals[k] >= 0
    ensures forall k :: 0 <= k < |totals| ==> totals[k] <= m
    ensures exists k :: 0 <= k < |totals| && m == CeilSecondsMs(totals[k])
    decreases |totals|
  {
    var here := CeilSecondsMs(totals[0]);
    if |totals| == 1 then here
    else
      var rest := MaxCeilTotal(totals[1..]);
      assert forall k :: 1 <= k < |totals| ==> totals[k] == totals[1..][k - 1];
      if here >= rest then here else rest
  }

  /** The length of every style's description, in `STYLES` order. */
  function StyleLengths(): (r: seq<int>)
    ensures |r| == |Styles|
    ensures forall k :: 0 <= k < |Styles| ==> r[k] == Sum(Description(Styles[k].1))
  {
    seq(|Styles|, k requires 0 <= k < |Styles| => Sum(Description(Styles[k].1)))
  }

  /** The length of each style before scaling: its on segments plus the spacings. */
  lemma StyleTotals()
    ensures Sum(Description(Styles[0].1)) == 1000
    ensures forall k :: 1 <= k < |Styles| ==> Sum(Description(Styles[k].1)) == 1400
  {
    forall k | 0 <= k < |Styles|
      ensures Sum(Description(Styles[k].1)) == if k == 0 then 1000 else 1400
    {
      StyleTotal(k);
    }
  }

  lemma StyleTotal(k: int)
    requires 0 <= k < |Styles|
    ensures Sum(Description(Styles[k].1)) == if k == 0 then 1000 else 1400
  {
    var a := Styles[k].1;
    InterleaveSum(a, SpacingMs);
    if k == 0 {
      assert a == [] + [1000];
      SumSnoc([], 1000);
    } else if k == 1 {
      Sum3(330, 330, 340);
    } else if k == 2 {
      Sum3(400, 200, 400);
    } else if k == 3 {
      Sum3(200, 330, 470);
    } else {
      Sum3(470, 330, 200);
    }
  }

  lemma Sum3(a: int, b: int, c: int)
    ensures Sum([a, b, c]) == a + b + c
  {
    assert [a, b, c] == [a, b] + [c];
    SumSnoc([a, b], c);
    SumPair(a, b);
  }

  /** `MAXIMUM_DURATION`: the longest style, rounded up to whole seconds. */
  function MaximumDurationMs(): (r: int)
    ensures forall k :: 0 <= k < |Styles| ==> Sum(Description(Styles[k].1)) <= r
    ensures r == 2000
  {
    MaximumOfStyles();
    MaxCeilTotal(StyleLengths())
  }

  lemma MaximumOfStyles()
    ensures forall k :: 0 <= k < |StyleLengths()| ==> StyleLengths()[k] >= 0
    ensures MaxCeilTotal(StyleLengths()) == 2000
    ensures forall k :: 0 <= k < |Styles| ==> Sum(Description(Styles[k].1)) <= 2000
  {
    var lengths := StyleLengths();
    forall k | 0 <= k < |lengths|
      ensures lengths[k] == 1000 || lengths[k] == 1400
    {
      StyleTotal(k);
    }
    StyleTotal(1);
    MaxOfLengths(lengths);
  }

  /** The rounded maximum of lengths that are all 1000 or 1400, with some 1400, is 2000. */
  lemma MaxOfLengths(lengths: seq<int>)
    requires |lengths| > 0 && exists k :: 0 <= k < |lengths| && lengths[k] == 1400
    requires forall k :: 0 <= k < |lengths| ==> lengths[k] == 1000 || lengths[k] == 1400
    ensures MaxCeilTotal(lengths) == 2000
  {
    var m := MaxCeilTotal(lengths);
    var k :| 0 <= k < |lengths| && m == CeilSecondsMs(lengths[k]);
    assert CeilSecondsMs(1000) == 1000 && CeilSecondsMs(1400) == 2000;
  }

  lemma {:induction false} SumScaledAtMost(actives: seq<int>, percent: int)
    requires 0 <= percent <= 100
    requires forall i :: 0 <= i < |actives| ==> actives[i] >= 0
    ensures Sum(ScaledActives(actives, percent)) <= Sum(actives)
    decreases |actives|
  {
    if |actives| > 0 {
      var init := actives[..|actives| - 1];
      var s := ScaledActives(actives, percent);
      assert s[..|s| - 1] == ScaledActives(init, percent);
      SumScaledAtMost(init, percent);
      var x := actives[|actives| - 1];
      assert s[|s| - 1] == x * percent / 100;
      assert x * percent <= x * 100;
    }
  }

  /** At a multiplier of at most 1, no vibration outlasts `MAXIMUM_DURATION`. */
  lemma WithinMaximumDuration(v: Vibration)
    requires 0 <= v.multiplierPercent <= 100
    ensures TotalDuration(v) <= MaximumDurationMs()
  {
    var actives := Styles[StyleIndex(v)].1;
    var scaled := ScaledActives(actives, v.multiplierPercent);
    PatternShape(v);
    StyleActivesPositive(StyleIndex(v));
    InterleaveSum(scaled, SpacingMs);
    InterleaveSum(actives, SpacingMs);
    SumScaledAtMost(actives, v.multiplierPercent);
  }
}
