/**
 * The time picker of ui/TimeInput.kt (a copy of the Compose TimeInput with a
 * seconds field) as used by the phone's time and duration dialogs: the
 * picker state, its hour encoding, the state saver, the displayed hour, and
 * the handler that turns an edit of a text field into a state change.
 */
module TimeInput {
  import opened Wrappers
  import opened Time
  import opened Text
  import opened Utils

  datatype Selection = HourField | MinuteField | SecondField

  /**
   * `TimePickerStateImpl`: the hour is kept as `hourState` (the hour modulo
   * 12) and the `isAfternoon` flag; `selection` is the focused field.
   */
  datatype PickerState = PickerState(
    hourState: int,
    minute: int,
    second: int,
    showSeconds: bool,
    is24hour: bool,
    isAfternoon: bool,
    selection: Selection)

  /** A text field's content and the start of its selection (the cursor). */
  datatype TextField = TextField(text: string, cursor: int)

  /** What the state's constructor accepts, in terms of its fields: a time of day, and seconds only in 24-hour mode. */
  predicate Valid(st: PickerState) {
    && 0 <= st.hourState < 12
    && 0 <= st.minute <= 59
    && 0 <= st.second <= 59
    && (!st.showSeconds || st.is24hour)
  }

  /** The `hour` getter: `hourState`, plus 12 in the afternoon. */
  function Hour(st: PickerState): (h: int)
    ensures Valid(st) ==> 0 <= h <= 23 && (h >= 12 <==> st.isAfternoon)
  {
    st.hourState + if st.isAfternoon then 12 else 0
  }

  /** The `hour` setter: the afternoon flag from `value >= 12`, and Kotlin's truncating `value % 12`. */
  function SetHour(st: PickerState, value: int): (r: PickerState)
    ensures r.minute == st.minute && r.second == st.second && r.selection == st.selection
    ensures r.is24hour == st.is24hour && r.showSeconds == st.showSeconds
    ensures 0 <= value <= 23 ==> Valid(st) ==> Valid(r)
  {
    st.(isAfternoon := value >= 12, hourState := KotlinRem(value, 12))
  }

  /** The getter reads back what the setter stored for every value from -11 to 23, negative ones included. */
  lemma SetThenGetHour(st: PickerState, value: int)
    requires -12 < value < 24
    ensures Hour(SetHour(st, value)) == value
  {
  }

  /** The constructor: None where one of its `require`s throws. The focus starts on the hour. */
  function Init(hour: int, minute: int, second: int, showSeconds: bool, is24Hour: bool): (r: Option<PickerState>)
    ensures r.Some? <==> 0 <= hour <= 23 && 0 <= minute <= 59 && 0 <= second <= 59 && (!showSeconds || is24Hour)
    ensures r.Some? ==> Valid(r.value) && r.value.selection == HourField
    ensures r.Some? ==> Hour(r.value) == hour && r.value.minute == minute && r.value.second == second
    ensures r.Some? ==> r.value.showSeconds == showSeconds && r.value.is24hour == is24Hour
  {
    if 0 <= hour <= 23 && 0 <= minute <= 59 && 0 <= second <= 59 && (!showSeconds || is24Hour) then
      Some(PickerState(hour % 12, minute, second, showSeconds, is24Hour, hour >= 12, HourField))
    else None
  }

  /** What the `Saver` keeps: hour, minute, second and the two flags. */
  datatype Saved = Saved(hour: int, minute: int, second: int, showSeconds: bool, is24hour: bool)

  function Save(st: PickerState): (r: Saved)
    ensures r.hour == Hour(st) && r.minute == st.minute && r.second == st.second
  {
    Saved(Hour(st), st.minute, st.second, st.showSeconds, st.is24hour)
  }

  /** The `Saver`'s restore: the constructor on the saved values, so it fails exactly where a `require` would throw. */
  function Restore(saved: Saved): (r: Option<PickerState>)
    ensures r.Some? <==>
      0 <= saved.hour <= 23 && 0 <= saved.minute <= 59 && 0 <= saved.second <= 59 && (!saved.showSeconds || saved.is24hour)
    ensures r.Some? ==> Save(r.value) == saved && r.value.selection == HourField
  {
    Init(saved.hour, saved.minute, saved.second, saved.showSeconds, saved.is24hour)
  }

  /** Saving and restoring a valid state gives it back, with the focus reset to the hour. */
  lemma SaveRestore(st: PickerState)
    requires Valid(st)
    ensures Restore(Save(st)) == Some(st.(selection := HourField))
  {
  }

  /** A state restores only when it is valid as far as the saved values show. */
  lemma RestoreNeedsValid(st: PickerState)
    requires Restore(Save(st)).Some?
    ensures 0 <= Hour(st) <= 23 && 0 <= st.minute <= 59 && 0 <= st.second <= 59
  {
  }

  /** `hourForDisplay`: the hour modulo 24 in 24-hour mode, else 12 for noon and midnight and the hour of the half-day otherwise. */
  function HourForDisplay(st: PickerState): (r: int)
    ensures Valid(st) && st.is24hour ==> r == Hour(st)
    ensures Valid(st) && !st.is24hour ==> 1 <= r <= 12 && r % 12 == st.hourState
  {
    var hour := Hour(st);
    if st.is24hour then KotlinRem(hour, 24)
    else if KotlinRem(hour, 12) == 0 then 12
    else if st.isAfternoon then hour - 12
    else hour
  }

  /** `LocalTime.of(hour, minute, second)` on confirming the time dialog, in milliseconds since midnight; None where it throws. */
  function ToLocalTime(st: PickerState): (r: Option<int>)
    ensures r.Some? <==> 0 <= Hour(st) <= 23 && 0 <= st.minute <= 59 && 0 <= st.second <= 59
    ensures r.Some? ==> 0 <= r.value < DayMs
    ensures r.Some? ==> r.value == Hour(st) * HourMs + st.minute * MinuteMs + st.second * SecondMs
  {
    if 0 <= Hour(st) <= 23 && 0 <= st.minute <= 59 && 0 <= st.second <= 59 then
      Some(Hour(st) * HourMs + st.minute * MinuteMs + st.second * SecondMs)
    else None
  }

  /** Every valid state confirms to a time of day. */
  lemma ValidConfirms(st: PickerState)
    requires Valid(st)
    ensures ToLocalTime(st).Some?
  {
  }

  /** The value a field shows the state holding. */
  function FieldValue(st: PickerState, selection: Selection): int {
    match selection
    case HourField => Hour(st)
    case MinuteField => st.minute
    case SecondField => st.second
  }

  /** The largest value each field accepts: 23 (12 in 12-hour mode) for the hour, 59 for the others. */
  function MaxFor(st: PickerState, selection: Selection): (r: int)
    ensures selection == HourField ==> r == if st.is24hour then 23 else 12
    ensures selection != HourField ==> r == 59
  {
    match selection
    case HourField => if st.is24hour then 23 else 12
    case MinuteField => 59
    case SecondField => 59
  }

  /** The assignment of the handler's `when (selection)`; an hour above 1 in 12-hour mode also moves the focus to the minute. */
  function Assign(st: PickerState, selection: Selection, value: int): (r: PickerState)
    ensures r.showSeconds == st.showSeconds && r.is24hour == st.is24hour
    ensures selection != HourField || -12 < value < 24 ==> FieldValue(r, selection) == value
    ensures selection != HourField ==> Hour(r) == Hour(st)
    ensures selection != MinuteField ==> r.minute == st.minute
    ensures selection != SecondField ==> r.second == st.second
  {
    match selection
    case HourField =>
      var h := SetHour(st, value);
      if value > 1 && !st.is24hour then h.(selection := MinuteField) else h
    case MinuteField => st.(minute := value)
    case SecondField => st.(second := value)
  }

  /**
   * The number the handler reads from the edited text: the first character
   * alone when a third character was typed after it, else the whole text.
   * `digitToInt` and `toInt` throw on anything else (None here).
   */
  function ReadNumber(value: TextField): (r: Option<int>)
    ensures r.Some? && |value.text| == 3 && value.cursor == 1 ==> 0 <= r.value <= 9
    ensures r.Some? && !(|value.text| == 3 && value.cursor == 1) ==> r == ParseInteger(value.text, IntMin, IntMax)
  {
    if |value.text| == 3 && value.cursor == 1 then
      if IsDigit(value.text[0]) then Some(DigitValue(value.text[0])) else None
    else ParseInteger(value.text, IntMin, IntMax)
  }

  /**
   * `value.copy(text = t)`: a `TextFieldValue`'s constructor coerces the
   * selection into the bounds of its text.
   */
  function WithText(value: TextField, t: string): (r: TextField)
    ensures r.text == t && 0 <= r.cursor <= |t|
    ensures 0 <= value.cursor <= |t| ==> r.cursor == value.cursor
    ensures value.cursor > |t| ==> r.cursor == |t|
  {
    TextField(t, if value.cursor < 0 then 0 else if value.cursor > |t| then |t| else value.cursor)
  }

  /**
   * The text the field keeps after an accepted edit: the whole text up to two
   * characters, else a copy holding the first character, whose cursor is
   * coerced to at most 1.
   */
  function KeptText(value: TextField): (r: TextField)
    ensures |value.text| <= 2 ==> r == value
    ensures |value.text| > 2 ==> r.text == value.text[..1] && 0 <= r.cursor <= 1
    ensures |value.text| > 2 && 0 <= value.cursor <= 1 ==> r.cursor == value.cursor
    ensures |value.text| > 2 && value.cursor > 1 ==> r.cursor == 1
  {
    if |value.text| <= 2 then value else WithText(value, [value.text[0]])
  }

  /** The result of the handler: the new state, and the text handed to `onNewValue` (None when it is not called). */
  datatype Change = Change(state: PickerState, shown: Option<TextField>)

  /**
   * `timeInputOnChange` as written: a selection-only change passes through, an
   * emptied field sets the value to 0, and a number no larger than `max` is
   * assigned. Nothing bounds the number from below.
   */
  function OnChangeAsWritten(selection: Selection, st: PickerState, value: TextField, prevText: string, max: int): (r: Change)
    ensures value.text == prevText ==> r == Change(st, Some(value))
    ensures value.text != prevText && value.text == "" ==> r.shown == Some(TextField("", 0)) && FieldValue(r.state, selection) == 0
    ensures value.text != prevText && value.text != "" ==>
      (r.shown.Some? <==> ReadNumber(value).Some? && ReadNumber(value).value <= max)
    ensures value.text != prevText && r.shown.None? ==> r.state == st
  {
    if value.text == prevText then Change(st, Some(value))
    else if value.text == "" then Change(Assign(st, selection, 0), Some(WithText(value, "")))
    else
      match ReadNumber(value)
      case None => Change(st, None)
      case Some(n) => if n <= max then Change(Assign(st, selection, n), Some(KeptText(value))) else Change(st, None)
  }

  /** The handler with the number also required to be non-negative, so that every field stays within its range. */
  function OnChange(selection: Selection, st: PickerState, value: TextField, prevText: string, max: int): (r: Change)
    ensures value.text == prevText ==> r == Change(st, Some(value))
    ensures value.text != prevText && value.text == "" ==> r.shown == Some(TextField("", 0)) && FieldValue(r.state, selection) == 0
    ensures value.text != prevText && value.text != "" ==>
      (r.shown.Some? <==> ReadNumber(value).Some? && 0 <= ReadNumber(value).value <= max)
    ensures value.text != prevText && r.shown.None? ==> r.state == st
    ensures value.text != prevText && value.text != "" && r.shown.Some? && (selection != HourField || max < 24) ==>
      FieldValue(r.state, selection) == ReadNumber(value).value
  {
    if value.text == prevText then Change(st, Some(value))
    else if value.text == "" then Change(Assign(st, selection, 0), Some(WithText(value, "")))
    else
      match ReadNumber(value)
      case None => Change(st, None)
      case Some(n) => if 0 <= n <= max then Change(Assign(st, selection, n), Some(KeptText(value))) else Change(st, None)
  }

  /** The two handlers differ only on negative numbers: on every other edit they agree. */
  lemma HandlersAgreeOnNonNegative(selection: Selection, st: PickerState, value: TextField, prevText: string, max: int)
    requires ReadNumber(value).Some? ==> ReadNumber(value).value >= 0
    ensures OnChange(selection, st, value, prevText, max) == OnChangeAsWritten(selection, st, value, prevText, max)
  {
  }

  /**
   * As written, pasting "-1" into the hour field of a valid 24-hour picker is
   * accepted: the hour becomes -1, the state no longer restores after a
   * configuration change, and confirming the dialog throws.
   */
  lemma NegativeHourAccepted(st: PickerState)
    requires Valid(st) && st.is24hour
    ensures OnChangeAsWritten(HourField, st, TextField("-1", 2), "", MaxFor(st, HourField)).shown.Some?
    ensures Hour(OnChangeAsWritten(HourField, st, TextField("-1", 2), "", MaxFor(st, HourField)).state) == -1
    ensures Restore(Save(OnChangeAsWritten(HourField, st, TextField("-1", 2), "", MaxFor(st, HourField)).state)).None?
    ensures ToLocalTime(OnChangeAsWritten(HourField, st, TextField("-1", 2), "", MaxFor(st, HourField)).state).None?
  {
    assert "-1"[1..] == "1";
    assert "-1"[0] == '-';
    assert DigitsValue("1") == 1 by {
      assert "1"[..0] == "";
    }
    assert ReadNumber(TextField("-1", 2)) == Some(-1);
  }

  /** With its field's own maximum, the corrected handler keeps every state valid. */
  lemma OnChangeKeepsValid(selection: Selection, st: PickerState, value: TextField, prevText: string)
    requires Valid(st)
    ensures Valid(OnChange(selection, st, value, prevText, MaxFor(st, selection)).state)
  {
  }

  /** Hence, however the fields are edited, the state restores and the dialog confirms to a time of day. */
  lemma EditedStateConfirms(selection: Selection, st: PickerState, value: TextField, prevText: string)
    requires Valid(st)
    ensures Restore(Save(OnChange(selection, st, value, prevText, MaxFor(st, selection)).state)).Some?
    ensures ToLocalTime(OnChange(selection, st, value, prevText, MaxFor(st, selection)).state).Some?
  {
    var r := OnChange(selection, st, value, prevText, MaxFor(st, selection)).state;
    OnChangeKeepsValid(selection, st, value, prevText);
    SaveRestore(r);
    ValidConfirms(r);
  }

  /** Typing a value as the field displays it (two digits) sets the field to that value. */
  lemma TypingTwoDigits(selection: Selection, st: PickerState, v: int, prevText: string)
    requires 0 <= v <= MaxFor(st, selection) && v < 60
    requires prevText != TwoDigits(v)
    ensures OnChange(selection, st, TextField(TwoDigits(v), 2), prevText, MaxFor(st, selection)).shown == Some(TextField(TwoDigits(v), 2))
    ensures FieldValue(OnChange(selection, st, TextField(TwoDigits(v), 2), prevText, MaxFor(st, selection)).state, selection) == v
  {
    var value := TextField(TwoDigits(v), 2);
    TwoDigitsRead(v);
    assert ReadNumber(value) == Some(v);
    OnChangeAccepts(selection, st, value, prevText, MaxFor(st, selection), v);
  }

  /** An edit whose number is within the field's range is assigned, and the kept text is handed on. */
  lemma OnChangeAccepts(selection: Selection, st: PickerState, value: TextField, prevText: string, max: int, n: int)
    requires value.text != prevText && value.text != ""
    requires ReadNumber(value) == Some(n) && 0 <= n <= max
    ensures OnChange(selection, st, value, prevText, max) == Change(Assign(st, selection, n), Some(KeptText(value)))
  {
  }

  /** The two digits a field displays read back as its value. */
  lemma TwoDigitsRead(v: int)
    requires 0 <= v < 60
    ensures |TwoDigits(v)| == 2 && TwoDigits(v) != ""
    ensures ParseInteger(TwoDigits(v), IntMin, IntMax) == Some(v)
  {
    var t := TwoDigits(v);
    assert IsDigit(t[0]);
    assert t[0] != '-' && t[0] != '+';
    assert DigitsValue(t) == v;
  }
}
