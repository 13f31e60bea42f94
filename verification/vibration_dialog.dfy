/**
 * The vibration dialog (ui/VibrationDialog.kt in the phone settings,
 * presentation/VibrationDialog.kt in the older watch app; the two behave alike): a row
 * of multiplier buttons, one row of value buttons per pattern slot, a remove
 * button for the last slot and an add button that repeats the last value.
 * A button that is not shown, or a value no button offers, is None.
 */
module VibrationDialog {
  import opened Wrappers
  import opened Text
  import opened WearVibration

  /** The multiplier buttons: 50%, 75% and 100%. */
  const MultiplierOptions: set<int> := {50, 75, 100}
  /** The value buttons of each slot: 1, 2 and 3. */
  const PatternOptions: set<int> := {1, 2, 3}

  /** What the dialog's buttons can produce: a non-empty pattern of offered values and an offered multiplier. */
  predicate Offered(v: Vibration) {
    && |v.pattern| >= 1
    && (forall k :: 0 <= k < |v.pattern| ==> v.pattern[k] in PatternOptions)
    && v.multiplierPercent in MultiplierOptions
  }

  /** A multiplier button: replaces the multiplier, keeps the pattern. */
  function SetMultiplier(v: Vibration, percent: int): (r: Option<Vibration>)
    ensures r.Some? <==> percent in MultiplierOptions
    ensures r.Some? ==> r.value.pattern == v.pattern && r.value.multiplierPercent == percent
  {
    if percent in MultiplierOptions then Some(v.(multiplierPercent := percent)) else None
  }

  /** A value button of slot `index` (`mapIndexed`): that slot takes the value, every other slot keeps its own. */
  function SetSlot(v: Vibration, index: int, value: int): (r: Option<Vibration>)
    ensures r.Some? <==> 0 <= index < |v.pattern| && value in PatternOptions
    ensures r.Some? ==> |r.value.pattern| == |v.pattern| && r.value.pattern[index] == value
    ensures r.Some? ==> forall k :: 0 <= k < |v.pattern| && k != index ==> r.value.pattern[k] == v.pattern[k]
    ensures r.Some? ==> r.value.multiplierPercent == v.multiplierPercent
  {
    if 0 <= index < |v.pattern| && value in PatternOptions then
      Some(v.(pattern := seq(|v.pattern|, k requires 0 <= k < |v.pattern| => if k == index then value else v.pattern[k])))
    else None
  }

  /** The remove button, shown only with more than one slot: `dropLast(1)`. */
  function RemoveLast(v: Vibration): (r: Option<Vibration>)
    ensures r.Some? <==> |v.pattern| > 1
    ensures r.Some? ==> r.value.pattern + [v.pattern[|v.pattern| - 1]] == v.pattern
    ensures r.Some? ==> r.value.multiplierPercent == v.multiplierPercent
  {
    if |v.pattern| > 1 then Some(v.(pattern := v.pattern[..|v.pattern| - 1])) else None
  }

  /** The add button: appends a copy of the last value; `last()` throws on an empty pattern. */
  function AddCopy(v: Vibration): (r: Option<Vibration>)
    ensures r.Some? <==> |v.pattern| >= 1
    ensures r.Some? ==> |r.value.pattern| == |v.pattern| + 1 && r.value.pattern[..|v.pattern|] == v.pattern
    ensures r.Some? ==> r.value.pattern[|v.pattern|] == v.pattern[|v.pattern| - 1]
    ensures r.Some? ==> r.value.multiplierPercent == v.multiplierPercent
  {
    if |v.pattern| >= 1 then Some(v.(pattern := v.pattern + [v.pattern[|v.pattern| - 1]])) else None
  }

  /** Removing the slot just added restores the vibration. */
  lemma AddThenRemove(v: Vibration)
    requires |v.pattern| >= 1
    ensures RemoveLast(AddCopy(v).value) == Some(v)
  {
    var a := AddCopy(v).value;
    assert a.pattern[..|a.pattern| - 1] == v.pattern;
  }

  /** Removing the last slot and adding one back restores the vibration when the last two values agree. */
  lemma RemoveThenAdd(v: Vibration)
    requires |v.pattern| > 1 && v.pattern[|v.pattern| - 1] == v.pattern[|v.pattern| - 2]
    ensures AddCopy(RemoveLast(v).value) == Some(v)
  {
    var r := RemoveLast(v).value;
    assert r.pattern + [r.pattern[|r.pattern| - 1]] == v.pattern;
  }

  /** Every button keeps the vibration within what the dialog offers; in particular the pattern never empties. */
  lemma ButtonsKeepOffered(v: Vibration, percent: int, index: int, value: int)
    requires Offered(v)
    ensures SetMultiplier(v, percent).Some? ==> Offered(SetMultiplier(v, percent).value)
    ensures SetSlot(v, index, value).Some? ==> Offered(SetSlot(v, index, value).value)
    ensures RemoveLast(v).Some? ==> Offered(RemoveLast(v).value)
    ensures AddCopy(v).Some? && Offered(AddCopy(v).value)
  {
  }

  /** The default vibration is one the dialog offers. */
  lemma DefaultOffered()
    ensures Offered(Default)
  {
  }

  /** Whatever the dialog produces is stored and read back unchanged. */
  lemma OfferedSurvivesStorage(v: Vibration)
    requires Offered(v)
    ensures AsVibrationPattern(AsString(v.pattern)) == Some(v.pattern)
  {
    PatternRoundTrip(v.pattern);
  }

  /** A press of each kind, as the dialog reports it. */
  datatype Press = Multiplier(percent: int) | Slot(index: int, value: int) | Remove | Add

  /** The vibration after a press; a press of a button that is not there changes nothing. */
  function Apply(v: Vibration, p: Press): Vibration {
    match p
    case Multiplier(percent) => SetMultiplier(v, percent).GetOr(v)
    case Slot(index, value) => SetSlot(v, index, value).GetOr(v)
    case Remove => RemoveLast(v).GetOr(v)
    case Add => AddCopy(v).GetOr(v)
  }

  /** Any sequence of presses, starting from an offered vibration. */
  function ApplyAll(v: Vibration, presses: seq<Press>): Vibration
    decreases |presses|
  {
    if |presses| == 0 then v else ApplyAll(Apply(v, presses[0]), presses[1..])
  }

  /** However the dialog is used from the default, the result is offered, and so storable. */
  lemma {:induction false} PressesKeepOffered(v: Vibration, presses: seq<Press>)
    requires Offered(v)
    ensures Offered(ApplyAll(v, presses))
    ensures AsVibrationPattern(AsString(ApplyAll(v, presses).pattern)) == Some(ApplyAll(v, presses).pattern)
    decreases |presses|
  {
    if |presses| == 0 {
      OfferedSurvivesStorage(v);
    } else {
      var p := presses[0];
      ButtonsKeepOffered(v, if p.Multiplier? then p.percent else 0, if p.Slot? then p.index else 0, if p.Slot? then p.value else 0);
      PressesKeepOffered(Apply(v, p), presses[1..]);
    }
  }
}
