# nudge, modelled in Dafny

nudge is a small Android and Wear OS app that nudges its user with a short
vibration. The repository holds three apps: the current watch app (`wear/`),
the older watch app it replaces (`app/`), and the phone app (`mobile/`).
A nudge can come in two ways:

- a **one-off timer**, a list of phases that can be started, paused, resumed
  and stopped; a nudge comes at the end of each phase;
- a **periodic nudge**, every `frequency`, inside a daily window of hours and
  only on some weekdays.

This project models the logic behind that: the persisted `Settings` record,
the scheduler that computes the next alarm, the two vibration waveforms, and
the settings screens' dialogs that edit the record. Each is a set of pure
Dafny functions with contracts, plus lemmas that relate them.

Conventions:

- Instants and durations are integer milliseconds. Preferences store whole
  seconds.
- The zone is one fixed offset: a local timestamp is the instant plus
  `offset`. Kotlin's truncating `%` and `/` are written out as
  `Time.KotlinRem` and `Time.KotlinDiv`.
- Where the source throws (`require`, `DayOfWeek.valueOf`,
  `LocalTime.ofSecondOfDay`, `toLong()`, `last()`), the model returns `None`,
  or `Throws` in `Scheduler.Outcome`.
- A button that is not shown, or an input a dialog rejects with a toast, is
  also `None`.

Modules, one per source component:

| module | file | models |
|---|---|---|
| `Time` | time.dfy | java.time units, ISO weekdays, local day and time of day, Kotlin division |
| `Text` | text.dfy | `toString`, `toInt`/`toLong`, `split`, `joinToString`, `padStart` |
| `Utils` | utils.dfy | logic/Utils.kt |
| `Waveform` | waveform.dfy | the on/off waveform shape shared by both vibrations |
| `WearVibration` | wear_vibration.dfy | the pattern-and-multiplier `Vibration` |
| `AppVibration` | app_vibration.dfy | the older watch app's style-based `Vibration` |
| `OneOffTimer` | oneoff.dfy | `Settings.OneOff` |
| `NudgeSettings` | settings.dfy | `Settings`, `Hours`, defaults, `write` and `read` |
| `Scheduler` | scheduler.dfy | logic/Scheduler.kt |
| `OneOffDialog` | oneoff_dialog.dfy | the one-off dialog's buttons (current and older watch app) |
| `SettingsView` | settings_view.dfy | the phone's settings screen |
| `VibrationDialog` | vibration_dialog.dfy | the vibration dialog (phone app and older watch app) |
| `ToggleReceiver` | toggle_receiver.dfy | services/ToggleReceiver.kt |
| `TimeInput` | time_input.dfy | the time picker state and its text-field handler |

The scheduler has no cut-off on how far ahead it searches. Its weekday search
ends within a week by construction, so the model has no cut-off either and
proves the week bound (`Scheduler.AtDays`, `Scheduler.AtHoursDays`). A zero
frequency is not treated as "disabled": `plusRounded` takes the remainder by
it, which throws. A negative frequency would give a defined result, but the
settings screen never stores one (its minimum is 10 minutes), so
`Scheduler.Schedulable` requires a positive frequency.

## Model

| member | source | states |
|---|---|---|
| `Time.KotlinDiv` | app/src/main/java/me/odedniv/nudge/logic/Scheduler.kt:84 | the quotient truncates toward zero: it brackets `a` from below for `a >= 0` and from above for `a < 0` |
| `Time.KotlinRem` | app/src/main/java/me/odedniv/nudge/logic/Scheduler.kt:84 | `toEpochMilli() % duration`: `a = b*q + r` with `|r| < b` and `r` taking the sign of `a` |
| `Time.MultipleHasNoRemainder` | app/src/main/java/me/odedniv/nudge/logic/Scheduler.kt:83-84 | a multiple of a positive number leaves remainder zero |
| `Time.PlusWeeks` | app/src/main/java/me/odedniv/nudge/logic/Scheduler.kt:96 | adding whole weeks of days does not change the weekday |
| `Time.PlusPlus` | app/src/main/java/me/odedniv/nudge/logic/Utils.kt:43 | `DayOfWeek.plus` composes additively |
| `Time.DayOfWeek.Plus` | app/src/main/java/me/odedniv/nudge/logic/Utils.kt:43 | `DayOfWeek.plus(days)` lands on the weekday whose ISO number differs from this one by `days` modulo 7 |
| `Time.ShiftDays` | app/src/main/java/me/odedniv/nudge/logic/Scheduler.kt:90 | adding k days keeps the time of day, adds k to the date and advances the weekday by k |
| `Time.TimeOfDay` | app/src/main/java/me/odedniv/nudge/logic/Scheduler.kt:87 | `toLocalTime()` is within one day and recomposes the timestamp with the date |
| `Time.OnDay` | app/src/main/java/me/odedniv/nudge/logic/Scheduler.kt:87 | the local date of a timestamp is the one day whose 24 hours contain it, before 1970 too (floor division) |
| `Time.DayAndTime` | app/src/main/java/me/odedniv/nudge/logic/Scheduler.kt:90 | a date and a time of day compose into a timestamp that splits back into that date and that time |
| `Time.DayOfWeekAt` | app/src/main/java/me/odedniv/nudge/logic/Scheduler.kt:87 | `dayOfWeek`: the ISO number is Thursday's (1970-01-01) advanced by the epoch day, modulo 7 |
| `Text.NatToString` | app/src/main/java/me/odedniv/nudge/logic/Utils.kt:11 | decimal digits without a leading zero that denote the number |
| `Text.IntToString` | wear/src/main/java/me/odedniv/nudge/logic/Vibration.kt:20 | digits with a leading minus exactly for negative numbers |
| `Text.ParseInteger` | wear/src/main/java/me/odedniv/nudge/logic/Settings.kt:144 | `toLong()` succeeds only on an optional sign then digits, with the value in range |
| `Text.ParsePrinted` | wear/src/main/java/me/odedniv/nudge/logic/Settings.kt:144 | printing an in-range integer and parsing it gives it back |
| `Text.ParseRejectsNonDigit` | mobile/src/main/java/me/odedniv/nudge/ui/TimeInput.kt:665 | text with a non-digit past the sign never parses |
| `Text.PadStart` | app/src/main/java/me/odedniv/nudge/logic/Utils.kt:13 | `padStart` keeps the text as a suffix and fills the front with the pad character up to the length |
| `Text.Split` | wear/src/main/java/me/odedniv/nudge/logic/Settings.kt:144 | `split` yields at least one piece, none containing the delimiter |
| `Text.JoinSplit` | wear/src/main/java/me/odedniv/nudge/logic/Settings.kt:144 | joining the pieces of a split restores the text |
| `Text.Join` | wear/src/main/java/me/odedniv/nudge/logic/Settings.kt:67 | `joinToString`: starts with the first piece; of delimiter-free pieces, contains the delimiter exactly when there are at least two |
| `Text.SplitJoin` | wear/src/main/java/me/odedniv/nudge/logic/Settings.kt:67 | splitting joined delimiter-free pieces gives the pieces back |
| `Text.PrintAll` | wear/src/main/java/me/odedniv/nudge/logic/Settings.kt:67 | every element printed, in order |
| `Text.ParseAll` | wear/src/main/java/me/odedniv/nudge/logic/Settings.kt:144 | succeeds exactly when every piece parses, giving each piece's value |
| `Text.ParseAllPrinted` | wear/src/main/java/me/odedniv/nudge/logic/Settings.kt:144 | in-range integers printed then parsed come back |
| `Utils.SumSnoc` | app/src/main/java/me/odedniv/nudge/logic/Utils.kt:8 | the fold's step: one more element adds its value |
| `Utils.Sum` | app/src/main/java/me/odedniv/nudge/logic/Utils.kt:8 | nothing sums to zero and a single duration to itself (its fold laws are the lemmas below) |
| `Utils.SumConcat` | app/src/main/java/me/odedniv/nudge/logic/Utils.kt:8 | the sum of a concatenation is the sum of the sums |
| `Utils.SumNonNegative` | app/src/main/java/me/odedniv/nudge/logic/Utils.kt:8 | whenever every duration is non-negative, so is the total |
| `Utils.SumAtLeastEach` | app/src/main/java/me/odedniv/nudge/logic/Utils.kt:8 | of non-negative durations, the total is at least each one of them |
| `Utils.SumPrefixMonotone` | app/src/main/java/me/odedniv/nudge/logic/Utils.kt:8 | with non-negative durations a longer prefix never sums to less |
| `Utils.MinutesPart` | app/src/main/java/me/odedniv/nudge/logic/Utils.kt:21-22 | the minutes part lies in 0..59 |
| `Utils.SecondsPart` | app/src/main/java/me/odedniv/nudge/logic/Utils.kt:24-25 | the seconds part lies in 0..59 |
| `Utils.PartsRecompose` | app/src/main/java/me/odedniv/nudge/logic/Utils.kt:10-25 | hours, minutes part and seconds part recompose the whole seconds of the duration |
| `Utils.TwoDigits` | app/src/main/java/me/odedniv/nudge/logic/Utils.kt:13-15 | a zero-padded field is two digits denoting the value |
| `Utils.Format` | app/src/main/java/me/odedniv/nudge/logic/Utils.kt:10-15 | `H:MM:SS` shape: colons at the fixed places from the end |
| `Utils.FormatReadsBack` | app/src/main/java/me/odedniv/nudge/logic/Utils.kt:10-15 | the three fields of the formatted text read back as hours, minutes part and seconds part |
| `Utils.OrNull` | app/src/main/java/me/odedniv/nudge/logic/Utils.kt:17-19 | null exactly when the whole-second part is zero, otherwise the value unchanged |
| `Utils.CalendarToJavaDayOfWeek` | app/src/main/java/me/odedniv/nudge/logic/Utils.kt:31-36 | defined exactly on 1..8, where `DayOfWeek.of` does not throw |
| `Utils.CalendarBijection` | app/src/main/java/me/odedniv/nudge/logic/Utils.kt:31-36 | the conversion is a bijection from 1..7 onto the weekdays: both compositions are identities |
| `Utils.Xor` | app/src/main/java/me/odedniv/nudge/logic/Utils.kt:38-39 | the element's membership flips and nothing else changes |
| `Utils.XorInvolution` | app/src/main/java/me/odedniv/nudge/logic/Utils.kt:38-39 | toggling twice restores the set |
| `Utils.PlusDistinct` | app/src/main/java/me/odedniv/nudge/logic/Utils.kt:43 | weekdays 0..6 days after one day are pairwise different |
| `Utils.AllDays` | app/src/main/java/me/odedniv/nudge/logic/Utils.kt:41-44 | seven consecutive, pairwise distinct weekdays from the first day, covering the whole week |
| `Waveform.Pairs` | wear/src/main/java/me/odedniv/nudge/logic/Vibration.kt:53 | `flatMap { listOf(it, spacing) }`: each value followed by the spacing |
| `Waveform.DropLast` | wear/src/main/java/me/odedniv/nudge/logic/Vibration.kt:53 | all but the last entry, nothing for an empty list |
| `Waveform.Interleave` | wear/src/main/java/me/odedniv/nudge/logic/Vibration.kt:51-54 | a zero lead-in, then the on segments in order with the spacing between consecutive ones and none after the last |
| `Waveform.InterleaveSnoc` | wear/src/main/java/me/odedniv/nudge/logic/Vibration.kt:51-54 | one more on segment appends a spacing and the segment |
| `Waveform.InterleaveSum` | wear/src/main/java/me/odedniv/nudge/logic/Vibration.kt:37 | a waveform lasts its on segments plus one spacing per consecutive pair |
| `Waveform.OddEntries` | app/src/main/java/me/odedniv/nudge/logic/Vibration.kt:91-92 | `active`: the odd-indexed entries, i.e. the on segments |
| `Waveform.OddEntriesOfInterleave` | app/src/main/java/me/odedniv/nudge/logic/Vibration.kt:91-92 | the on segments of a built waveform are exactly the values it was built from |
| `Waveform.MapActive` | app/src/main/java/me/odedniv/nudge/logic/Vibration.kt:96-98 | `block` applied at the odd indices, the even ones kept |
| `Waveform.MapActiveInterleave` | app/src/main/java/me/odedniv/nudge/logic/Vibration.kt:96-98 | mapping the on segments of a waveform equals building the waveform from the mapped values |
| `WearVibration.Actives` | wear/src/main/java/me/odedniv/nudge/logic/Vibration.kt:53 | each pattern value's on segment, `BASELINE + PATTERN_VALUE * value * multiplier` |
| `WearVibration.Timings` | wear/src/main/java/me/odedniv/nudge/logic/Vibration.kt:51-54 | zero lead-in, the on segments of the pattern, 200 ms spacing between them; 2n entries for n values |
| `WearVibration.ActiveMs` | wear/src/main/java/me/odedniv/nudge/logic/Vibration.kt:53 | `BASELINE + PATTERN_VALUE * value * multiplier` is exact in ms: 100 ms plus 2 ms per pattern unit per percent; at least the 100 ms baseline for non-negative input |
| `WearVibration.TotalDuration` | wear/src/main/java/me/odedniv/nudge/logic/Vibration.kt:37 | 0 for the empty pattern; otherwise the on segments plus 200 ms per gap between consecutive values |
| `WearVibration.TotalDurationFormula` | wear/src/main/java/me/odedniv/nudge/logic/Vibration.kt:37 | `totalDuration` is the on segments plus 200 ms per gap |
| `WearVibration.IncreasingPatternIncreasingSegments` | wear/src/main/java/me/odedniv/nudge/logic/Vibration.kt:18 | a larger pattern value vibrates strictly longer |
| `WearVibration.AsVibrationPattern` | wear/src/main/java/me/odedniv/nudge/logic/Vibration.kt:22 | one value per `-`-separated piece, or None when a piece does not parse |
| `WearVibration.AsString` | wear/src/main/java/me/odedniv/nudge/logic/Vibration.kt:20 | the empty pattern is the empty text; a non-empty pattern of non-negative values splits at `-` into the printed values, in order |
| `WearVibration.PatternRoundTrip` | wear/src/main/java/me/odedniv/nudge/logic/Vibration.kt:20-22 | a non-empty pattern of non-negative values survives `asString` then `asVibrationPattern` |
| `WearVibration.NegativeValueBreaksRoundTrip` | wear/src/main/java/me/odedniv/nudge/logic/Vibration.kt:20-22 | the round trip needs non-negative values: `[-1]` prints as `-1` and does not parse back |
| `WearVibration.EmptyPatternDoesNotRoundTrip` | wear/src/main/java/me/odedniv/nudge/logic/Vibration.kt:20-22 | the empty pattern prints as the empty string, which does not parse |
| `AppVibration.Description` | app/src/main/java/me/odedniv/nudge/logic/Vibration.kt:103-104 | `[0, a1, 0.2, a2, …, an]`: the actives at odd indices and the 0.2 s spacing at every later even index |
| `AppVibration.IndexOf` | app/src/main/java/me/odedniv/nudge/logic/Vibration.kt:51 | the first style with the name, or None when no style has it |
| `AppVibration.StyleIndex` | app/src/main/java/me/odedniv/nudge/logic/Vibration.kt:45-46 | the vibration's own style when the name is known, otherwise the default (first) style |
| `AppVibration.StyleFallback` | app/src/main/java/me/odedniv/nudge/logic/Vibration.kt:51 | an unknown style name plays, and is labelled as, the default style |
| `AppVibration.KnownStyle` | app/src/main/java/me/odedniv/nudge/logic/Vibration.kt:51 | a known style name plays its own description |
| `AppVibration.ScaledActives` | app/src/main/java/me/odedniv/nudge/logic/Vibration.kt:42 | every on segment times the multiplier, truncated to whole milliseconds |
| `AppVibration.ScaleShortens` | app/src/main/java/me/odedniv/nudge/logic/Vibration.kt:42 | scaling by 100 % keeps a segment; by at most 100 % it never lengthens a non-negative segment nor makes it negative |
| `AppVibration.Pattern` | app/src/main/java/me/odedniv/nudge/logic/Vibration.kt:41-43 | `pattern` is the description rebuilt from the scaled on segments, with the 0.2 s spacing between them |
| `AppVibration.ActiveDuration` | app/src/main/java/me/odedniv/nudge/logic/Vibration.kt:48 | `activeDuration` is the sum of the scaled on segments, non-negative for a non-negative multiplier |
| `AppVibration.TotalDuration` | app/src/main/java/me/odedniv/nudge/logic/Vibration.kt:49 | `totalDuration` is the scaled on segments plus 200 ms per gap, for a non-negative multiplier |
| `AppVibration.PatternShape` | app/src/main/java/me/odedniv/nudge/logic/Vibration.kt:41-43 | `pattern` is the style's description rebuilt from the scaled on segments, and `active` returns exactly those |
| `AppVibration.StyleActivesPositive` | app/src/main/java/me/odedniv/nudge/logic/Vibration.kt:59-66 | every style has at least one on segment and all of them are positive |
| `AppVibration.ActiveWithinTotal` | app/src/main/java/me/odedniv/nudge/logic/Vibration.kt:48-49 | with a non-negative multiplier `0 <= activeDuration <= totalDuration`, and the difference is 200 ms per gap |
| `AppVibration.ScaledWithinTotal` | app/src/main/java/me/odedniv/nudge/logic/Vibration.kt:48-49 | scaled on segments are non-negative and the waveform lasts them plus the spacings |
| `AppVibration.CeilSecondsMs` | app/src/main/java/me/odedniv/nudge/logic/Vibration.kt:77 | `ceil` to whole seconds: the least multiple of 1000 ms at or above the value |
| `AppVibration.MaxCeilTotal` | app/src/main/java/me/odedniv/nudge/logic/Vibration.kt:77 | `maxOf { ceil(it) }` over the style lengths: at least every length, and equal to one of them rounded up to whole seconds |
| `AppVibration.StyleTotals` | app/src/main/java/me/odedniv/nudge/logic/Vibration.kt:59-66 | unscaled, `solid` lasts 1 s and the four three-beat styles 1.4 s |
| `AppVibration.MaximumDurationMs` | app/src/main/java/me/odedniv/nudge/logic/Vibration.kt:77 | `MAXIMUM_DURATION` is 2 s and no unscaled style is longer |
| `AppVibration.SumScaledAtMost` | app/src/main/java/me/odedniv/nudge/logic/Vibration.kt:42 | a multiplier of at most 1 never lengthens the on time |
| `AppVibration.WithinMaximumDuration` | app/src/main/java/me/odedniv/nudge/logic/Vibration.kt:77 | at a multiplier in 0..1 no vibration outlasts `MAXIMUM_DURATION` |
| `OneOffTimer.Total` | wear/src/main/java/me/odedniv/nudge/logic/Settings.kt:43 | zero without phases, non-negative with non-negative phases |
| `OneOffTimer.IsEnabled` | wear/src/main/java/me/odedniv/nudge/logic/Settings.kt:31 | enabled exactly when started and either paused or still before the end of the last phase |
| `OneOffTimer.IsRunning` | wear/src/main/java/me/odedniv/nudge/logic/Settings.kt:33 | running exactly when started, not paused and before the end of the last phase; running implies enabled |
| `OneOffTimer.PhaseEnd` | wear/src/main/java/me/odedniv/nudge/logic/Settings.kt:49-52 | the running total at phase i is the phases before it plus phase i; with non-negative phases it is at least phase i and at least the earlier total |
| `OneOffTimer.Elapsed` | wear/src/main/java/me/odedniv/nudge/logic/Settings.kt:36-41 | null when not started, the frozen pause while paused, else the time since start only while below the total |
| `OneOffTimer.StateCharacterization` | wear/src/main/java/me/odedniv/nudge/logic/Settings.kt:31-33 | enabled and running in terms of the stored fields; running implies enabled |
| `OneOffTimer.Scan` | wear/src/main/java/me/odedniv/nudge/logic/Settings.kt:49-54 | the loop finds the first index whose phase ends after the elapsed time, and no earlier one |
| `OneOffTimer.NextElapsedIndex` | wear/src/main/java/me/odedniv/nudge/logic/Settings.kt:46-55 | the phase in progress: the first phase ending after the elapsed time; null exactly when none does or the timer is not enabled |
| `OneOffTimer.RunningHasNextIndex` | wear/src/main/java/me/odedniv/nudge/logic/Settings.kt:46-55 | a running timer with phases always has a phase in progress |
| `OneOffTimer.NextIndexMonotone` | wear/src/main/java/me/odedniv/nudge/logic/Settings.kt:46-55 | the phase index never moves backwards while the timer stays enabled |
| `NudgeSettings.HalfOpenWindow` | wear/src/main/java/me/odedniv/nudge/logic/Settings.kt:183-185 | `Hours` contains its start exactly when non-empty, never its end, nothing when start >= end |
| `NudgeSettings.DefaultDays` | wear/src/main/java/me/odedniv/nudge/logic/Settings.kt:112-113 | five weekdays, the first day of the week and the four after it, not the last two |
| `NudgeSettings.DefaultValid` | wear/src/main/java/me/odedniv/nudge/logic/Settings.kt:103-131 | the defaults have a non-empty window, a frequency at the minimum or above, the first weekday, and no running one-off |
| `NudgeSettings.Default` | wear/src/main/java/me/odedniv/nudge/logic/Settings.kt:103-129 | no one-off enabled at any time, periodic and running notification off, one hour between nudges, 10:00 to 20:00, the five default days, pattern 1-2-3 at 50 % |
| `NudgeSettings.SecondsRoundTrip` | wear/src/main/java/me/odedniv/nudge/logic/Settings.kt:139-140 | a stored instant or pause reads back truncated to seconds, and as null within the first second |
| `NudgeSettings.ShortPauseLost` | wear/src/main/java/me/odedniv/nudge/logic/Settings.kt:66 | a pause shorter than one second reads back as no pause |
| `NudgeSettings.EncodeSeconds` | wear/src/main/java/me/odedniv/nudge/logic/Settings.kt:65-66 | 0 for null, otherwise the whole seconds rounded down |
| `NudgeSettings.DecodeSeconds` | wear/src/main/java/me/odedniv/nudge/logic/Settings.kt:139-140 | null exactly for 0, otherwise that many seconds, which encode back to the same count |
| `NudgeSettings.ToSeconds` | wear/src/main/java/me/odedniv/nudge/logic/Settings.kt:67 | `it.seconds` of every duration |
| `NudgeSettings.ToMs` | wear/src/main/java/me/odedniv/nudge/logic/Settings.kt:144 | `Duration.ofSeconds` of every stored value |
| `NudgeSettings.EncodeDurations` | wear/src/main/java/me/odedniv/nudge/logic/Settings.kt:67 | the empty list is the empty text; otherwise the text splits at commas into each phase's whole seconds, printed, in order |
| `NudgeSettings.DecodeDurationsWear` | wear/src/main/java/me/odedniv/nudge/logic/Settings.kt:141-145 | missing or empty is no phases; otherwise every comma piece must parse, or the read fails |
| `NudgeSettings.NonEmptyPieces` | app/src/main/java/me/odedniv/nudge/logic/Settings.kt:138-140 | a filter: only non-empty pieces of the input, each non-empty piece kept exactly as often as it occurs, all of it when none is empty, nothing for a lone empty piece (order fixed by `NonEmptyPiecesConcat`) |
| `NudgeSettings.NonEmptyPiecesConcat` | app/src/main/java/me/odedniv/nudge/logic/Settings.kt:138-140 | filtering a concatenation filters each part: `mapNotNull` works piece by piece |
| `NudgeSettings.NonEmptyPiecesParse` | app/src/main/java/me/odedniv/nudge/logic/Settings.kt:138-140 | the kept pieces all parse exactly when every non-empty piece of the input does |
| `NudgeSettings.DecodeDurationsApp` | app/src/main/java/me/odedniv/nudge/logic/Settings.kt:137-141 | succeeds exactly when every non-empty piece is a Long; one phase per non-empty piece, in order, of that many seconds |
| `NudgeSettings.AppIsWearWithoutEmptyPieces` | app/src/main/java/me/odedniv/nudge/logic/Settings.kt:137-141 | the older watch app decodes any stored value as the current one decodes it with the empty pieces removed |
| `NudgeSettings.NoEmptyPieceAgrees` | app/src/main/java/me/odedniv/nudge/logic/Settings.kt:137-141 | where no piece is empty the two watch apps decode alike |
| `NudgeSettings.FilteredSplitJoin` | app/src/main/java/me/odedniv/nudge/logic/Settings.kt:138 | splitting joined comma-free pieces gives them back up to empty pieces, the empty list included |
| `NudgeSettings.EmptyPieceIgnored` | app/src/main/java/me/odedniv/nudge/logic/Settings.kt:139 | inserting an empty piece anywhere leaves the older watch app's decoding unchanged |
| `NudgeSettings.PrintedDurations` | wear/src/main/java/me/odedniv/nudge/logic/Settings.kt:67 | printed whole-second durations parse back, contain no comma and are not empty |
| `NudgeSettings.DurationsRoundTripWear` | wear/src/main/java/me/odedniv/nudge/logic/Settings.kt:141-145 | whole-second phases survive the current watch app's write and read, no phases included |
| `NudgeSettings.DurationsRoundTripApp` | app/src/main/java/me/odedniv/nudge/logic/Settings.kt:137-141 | whole-second phases survive the older watch app's write and read, no phases included |
| `NudgeSettings.EmptyPieceDecodings` | app/src/main/java/me/odedniv/nudge/logic/Settings.kt:137-141 | the two decoders differ on `5,,6`: the current watch app fails, the older one reads 5 s and 6 s |
| `NudgeSettings.DecodeTimeOfDay` | wear/src/main/java/me/odedniv/nudge/logic/Settings.kt:150-160 | `LocalTime.ofSecondOfDay` accepts exactly 0..86399 and gives a whole-second time within the day |
| `NudgeSettings.EncodeTimeOfDay` | wear/src/main/java/me/odedniv/nudge/logic/Settings.kt:71-72 | `toSecondOfDay`: the whole seconds rounded down, within 0..86399 for a time of day |
| `NudgeSettings.TimeOfDayRoundTrip` | wear/src/main/java/me/odedniv/nudge/logic/Settings.kt:150-160 | a whole-second time of day survives `toSecondOfDay` then `ofSecondOfDay` |
| `NudgeSettings.ValueOf` | wear/src/main/java/me/odedniv/nudge/logic/Settings.kt:162 | `DayOfWeek.valueOf` accepts only a day's name, giving that day |
| `NudgeSettings.NameRoundTrip` | wear/src/main/java/me/odedniv/nudge/logic/Settings.kt:162 | every day's name reads back as the day |
| `NudgeSettings.DecodeDays` | wear/src/main/java/me/odedniv/nudge/logic/Settings.kt:161-163 | fails when any name is unknown; otherwise a day is in the result exactly when its name was stored |
| `NudgeSettings.EncodeDays` | wear/src/main/java/me/odedniv/nudge/logic/Settings.kt:73 | holds a day's name exactly when the day is in the set, and every stored name reads back as a day of the set |
| `NudgeSettings.DaysRoundTrip` | wear/src/main/java/me/odedniv/nudge/logic/Settings.kt:161-163 | every set of weekdays survives being stored by name |
| `NudgeSettings.DecodePattern` | wear/src/main/java/me/odedniv/nudge/logic/Settings.kt:167-170 | a decoded pattern is never empty; missing or empty text reads as the default 1-2-3; other text decodes exactly when every `-`-separated piece is an Int, to one value per piece |
| `NudgeSettings.EmptyPatternReadsAsDefault` | wear/src/main/java/me/odedniv/nudge/logic/Settings.kt:167-170 | an empty pattern is written as "" and reads back as 1-2-3 |
| `NudgeSettings.Write` | wear/src/main/java/me/odedniv/nudge/logic/Settings.kt:62-78 | all eleven keys are written: instants and phases in seconds, the two flags as they are, the frequency floored to whole seconds, the hours as seconds of day, the day names, the pattern joined by `-` and the multiplier |
| `NudgeSettings.Read` | wear/src/main/java/me/odedniv/nudge/logic/Settings.kt:133-174 | succeeds exactly when every present key decodes; for each of the eleven keys, an absent key gives `DEFAULT`'s field and a present key gives its decoded value (seconds times 1000, the parsed phases, the second of day, the named days, the parsed pattern, or the stored flag or percent) |
| `NudgeSettings.WriteDecodes` | wear/src/main/java/me/odedniv/nudge/logic/Settings.kt:62-174 | for settings in whole seconds with a non-empty pattern, each key `write` stores decodes back to the field it came from |
| `NudgeSettings.ReadWrite` | wear/src/main/java/me/odedniv/nudge/logic/Settings.kt:62-174 | settings in whole seconds with a non-empty pattern are read back exactly as written, in any locale |
| `NudgeSettings.ReadNothingIsDefault` | wear/src/main/java/me/odedniv/nudge/logic/Settings.kt:133-174 | with no keys stored, `read` gives `DEFAULT` |
| `Scheduler.AtTime` | app/src/main/java/me/odedniv/nudge/logic/Scheduler.kt:89-90 | a timestamp at the given time of day, from `t` on and less than a day later |
| `Scheduler.AtTimeEarliest` | app/src/main/java/me/odedniv/nudge/logic/Scheduler.kt:89-90 | no earlier timestamp from `t` on has that time of day |
| `Scheduler.LaterAtTime` | app/src/main/java/me/odedniv/nudge/logic/Scheduler.kt:89-90 | every later timestamp at that time of day lies a whole number of days after `at(value)` |
| `Scheduler.DaysUntil` | app/src/main/java/me/odedniv/nudge/logic/Scheduler.kt:95-96 | the least number of days, 0..6, from one weekday to another |
| `Scheduler.AtDay` | app/src/main/java/me/odedniv/nudge/logic/Scheduler.kt:95-96 | the first timestamp from `t` on with that weekday and the same time of day, within a week |
| `Scheduler.FirstAllowed` | app/src/main/java/me/odedniv/nudge/logic/Scheduler.kt:92-93 | the least offset from `from` on that lands on an allowed weekday |
| `Scheduler.Allowed` | app/src/main/java/me/odedniv/nudge/logic/Scheduler.kt:93 | seven flags; flag j says whether the weekday j days on is allowed |
| `Scheduler.AtDays` | app/src/main/java/me/odedniv/nudge/logic/Scheduler.kt:92-93 | `days.minOf { at(it) }`: one of the candidates and no later than any of them, on an allowed weekday at the same time, within a week |
| `Scheduler.AtDaysLeast` | app/src/main/java/me/odedniv/nudge/logic/Scheduler.kt:92-93 | walking forward to the first allowed weekday reaches the least of `at(day)` over all allowed days, so it equals `minOf` |
| `Scheduler.AtHoursDays` | app/src/main/java/me/odedniv/nudge/logic/Scheduler.kt:86-87 | unchanged when already allowed; otherwise the window's start on an allowed day; inside the window when it is non-empty; within a day plus a week |
| `Scheduler.AtHoursDaysEarliestStart` | app/src/main/java/me/odedniv/nudge/logic/Scheduler.kt:86-87 | no window start on an allowed day lies between `t` and the result |
| `Scheduler.AtHoursDaysEarliestAllowed` | app/src/main/java/me/odedniv/nudge/logic/Scheduler.kt:86-87 | for a window ending by midnight the result is the earliest allowed timestamp from `t` on |
| `Scheduler.PlusRounded` | app/src/main/java/me/odedniv/nudge/logic/Scheduler.kt:83-84 | a multiple of the frequency, after `now` and at most one frequency later (for `now >= 0`) |
| `Scheduler.LocalAtHoursDays` | app/src/main/java/me/odedniv/nudge/logic/Scheduler.kt:81 | `atZone(...).at(hours, days).toInstant()`: the instant whose local time is `at(hours, days)` of the local time |
| `Scheduler.NextPeriodicTriggerAsWritten` | app/src/main/java/me/odedniv/nudge/logic/Scheduler.kt:79-81 | throws exactly when periodic nudges are on with no weekday allowed; otherwise agrees with `NextPeriodicTrigger` |
| `Scheduler.LocalBounds` | app/src/main/java/me/odedniv/nudge/logic/Scheduler.kt:81 | `atZone(...).at(hours, days).toInstant()` is from the instant on and less than a day plus a week later |
| `Scheduler.LocalDay` | app/src/main/java/me/odedniv/nudge/logic/Scheduler.kt:81 | the converted instant, read in local time, falls on an allowed weekday |
| `Scheduler.LocalWindow` | app/src/main/java/me/odedniv/nudge/logic/Scheduler.kt:81 | the converted instant, read in local time, lies inside a non-empty window |
| `Scheduler.NextPeriodicTrigger` | app/src/main/java/me/odedniv/nudge/logic/Scheduler.kt:79-81 | null exactly when periodic nudges are off or no day is allowed; otherwise within a day plus a week of the rounded instant, on an allowed day, inside a non-empty window |
| `Scheduler.EmptyDaysThrow` | app/src/main/java/me/odedniv/nudge/logic/Scheduler.kt:92-93 | with no day allowed the code throws where the corrected scheduler sets no periodic alarm |
| `Scheduler.NextOneOffTrigger` | app/src/main/java/me/odedniv/nudge/logic/Scheduler.kt:73-77 | `Instant.MAX` while paused; null exactly when no phase is in progress; else the end of the phase in progress |
| `Scheduler.NextTrigger` | app/src/main/java/me/odedniv/nudge/logic/Scheduler.kt:66-71 | on the corrected periodic trigger: never `Instant.MAX` or later; the one-off trigger whenever that is before `Instant.MAX`; with no one-off trigger, the periodic one when that is before `Instant.MAX`, and none when there is neither |
| `Scheduler.BeforeMax` | app/src/main/java/me/odedniv/nudge/logic/Scheduler.kt:68-70 | only a value before `Instant.MAX` passes, and it passes unchanged |
| `Scheduler.NextTriggerAsWritten` | app/src/main/java/me/odedniv/nudge/logic/Scheduler.kt:66-93 | throws exactly when no one-off phase is in progress, periodic nudges are on and no weekday is allowed; otherwise returns what `NextTrigger` does |
| `Scheduler.OneOffPriority` | app/src/main/java/me/odedniv/nudge/logic/Scheduler.kt:66-71 | while the one-off has a trigger the periodic settings do not matter; a one-off with no trigger schedules as if there were no one-off |
| `Scheduler.PeriodicReadsPeriodicFields` | app/src/main/java/me/odedniv/nudge/logic/Scheduler.kt:79-81 | the periodic trigger depends only on `periodic`, `frequency`, `hours` and `days` |
| `Scheduler.PausedSuppressesAll` | app/src/main/java/me/odedniv/nudge/logic/Scheduler.kt:73-74 | a paused one-off leaves no alarm at all, periodic included |
| `Scheduler.RunningOneOffRingsAfterNow` | app/src/main/java/me/odedniv/nudge/logic/Scheduler.kt:73-77 | a running one-off with phases rings after `now`, at its own trigger |
| `Scheduler.FinishedOneOffDoesNotBlock` | app/src/main/java/me/odedniv/nudge/logic/Scheduler.kt:66-77 | a one-off that ran out but was not stopped gives way to the periodic nudge |
| `Scheduler.NothingScheduled` | app/src/main/java/me/odedniv/nudge/logic/Scheduler.kt:66-81 | periodic off and no phase in progress means no alarm |
| `Scheduler.PeriodicAfterNow` | app/src/main/java/me/odedniv/nudge/logic/Scheduler.kt:79-84 | from a non-negative `now` a periodic alarm is strictly in the future |
| `OneOffDialog.AppMinimumPhaseMs` | app/src/main/java/me/odedniv/nudge/presentation/OneOffDialog.kt:178 | the older watch app's shortest phase is `Vibration.MAXIMUM_DURATION`, 2 s |
| `OneOffDialog.Pause` | wear/src/main/java/me/odedniv/nudge/ui/OneOffDialog.kt:79-84 | offered exactly while running; freezes the elapsed time into `pausedAt` and keeps the rest |
| `OneOffDialog.Resume` | wear/src/main/java/me/odedniv/nudge/ui/OneOffDialog.kt:86-91 | offered exactly while paused; restarts at `now - pausedAt` and clears the pause |
| `OneOffDialog.Stop` | wear/src/main/java/me/odedniv/nudge/ui/OneOffDialog.kt:95 | offered exactly while enabled; clears both instants and keeps the phases |
| `OneOffDialog.Start` | wear/src/main/java/me/odedniv/nudge/ui/OneOffDialog.kt:98-100 | offered exactly when not enabled and there is a phase; sets only the start |
| `OneOffDialog.AddPhase` | wear/src/main/java/me/odedniv/nudge/ui/OneOffDialog.kt:142-149 | offered when not enabled; a phase shorter than the minimum is rejected; else appended with the start cleared |
| `OneOffDialog.RemoveAt` | wear/src/main/java/me/odedniv/nudge/ui/OneOffDialog.kt:126 | every phase but one, in order |
| `OneOffDialog.DeletePhase` | wear/src/main/java/me/odedniv/nudge/ui/OneOffDialog.kt:121-127 | allowed exactly when not enabled; removes that phase only |
| `OneOffDialog.PauseKeepsElapsed` | wear/src/main/java/me/odedniv/nudge/ui/OneOffDialog.kt:81-84 | pausing keeps the elapsed time and the timer enabled, and stops it running |
| `OneOffDialog.PausedIsFrozen` | wear/src/main/java/me/odedniv/nudge/logic/Settings.kt:38 | a paused timer reads the same elapsed time at every instant |
| `OneOffDialog.ResumeRestoresElapsed` | wear/src/main/java/me/odedniv/nudge/ui/OneOffDialog.kt:88-91 | resuming reads the frozen time back and runs again exactly when that time is below the total |
| `OneOffDialog.PauseThenResume` | wear/src/main/java/me/odedniv/nudge/ui/OneOffDialog.kt:79-91 | pause at t1 then resume at t2 is the same timer started t2 - t1 later: elapsed time and phase agree shifted by that amount |
| `OneOffDialog.StopDisables` | wear/src/main/java/me/odedniv/nudge/ui/OneOffDialog.kt:95 | after stop the timer is not enabled at any instant and has no phase in progress |
| `OneOffDialog.StartRuns` | wear/src/main/java/me/odedniv/nudge/ui/OneOffDialog.kt:98-100 | starting a well-formed timer with positive phases runs it from phase 0 |
| `OneOffDialog.AddKeepsPhasesAtLeast` | wear/src/main/java/me/odedniv/nudge/ui/OneOffDialog.kt:142-149 | adding keeps every phase at least the minimum, grows the list by one, and leaves the timer not enabled |
| `OneOffDialog.DeleteKeepsPhasesAtLeast` | wear/src/main/java/me/odedniv/nudge/ui/OneOffDialog.kt:121-127 | deleting keeps every remaining phase at least the minimum |
| `OneOffDialog.TransitionsKeepWellFormed` | wear/src/main/java/me/odedniv/nudge/ui/OneOffDialog.kt:72-149 | no button produces a pause without a start |
| `OneOffDialog.ButtonsExclusive` | wear/src/main/java/me/odedniv/nudge/ui/OneOffDialog.kt:72-100 | pause and resume never show together; stop shows exactly with one of them, and then start and add do not |
| `OneOffDialog.AppPhaseOutlastsVibration` | app/src/main/java/me/odedniv/nudge/presentation/OneOffDialog.kt:177-183 | a phase the older watch app accepts is at least as long as any vibration at multiplier 1 or less |
| `SettingsView.ConfirmFrequency` | mobile/src/main/java/me/odedniv/nudge/ui/SettingsView.kt:117-124 | rejected exactly below `MINIMUM_FREQUENCY`; else only the frequency changes |
| `SettingsView.ConfirmHoursStart` | mobile/src/main/java/me/odedniv/nudge/ui/SettingsView.kt:133-140 | rejected exactly when not before the end; else only the start changes |
| `SettingsView.ConfirmHoursEnd` | mobile/src/main/java/me/odedniv/nudge/ui/SettingsView.kt:149-156 | rejected exactly when not after the start; else only the end changes |
| `SettingsView.SwitchPeriodic` | mobile/src/main/java/me/odedniv/nudge/ui/SettingsView.kt:204-213 | the switch is disabled exactly while a one-off is enabled; else only `periodic` changes |
| `SettingsView.Apply` | mobile/src/main/java/me/odedniv/nudge/ui/SettingsView.kt:67-175 | each control sets its own field to the chosen value (a day tap toggles that day) and leaves the other six fields unchanged; the frequency, hours and periodic controls refuse exactly what their dialogs or switch refuse |
| `SettingsView.ApplyKeepsValid` | mobile/src/main/java/me/odedniv/nudge/ui/SettingsView.kt:117-156 | every accepted edit keeps the frequency at the minimum or above and the window non-empty |
| `SettingsView.ValidIsSchedulable` | app/src/main/java/me/odedniv/nudge/logic/Scheduler.kt:83-84 | what the screen maintains keeps the scheduler from dividing by zero |
| `SettingsView.DefaultScreenValid` | wear/src/main/java/me/odedniv/nudge/logic/Settings.kt:119-129 | the defaults satisfy what the screen maintains |
| `SettingsView.EditsKeepValid` | mobile/src/main/java/me/odedniv/nudge/ui/SettingsView.kt:67-175 | any sequence of edits from valid settings stays valid and schedulable |
| `SettingsView.DayEdits` | mobile/src/main/java/me/odedniv/nudge/ui/DaysDialog.kt:50 | one day toggle per given weekday, in order |
| `SettingsView.TappingEveryDayClears` | mobile/src/main/java/me/odedniv/nudge/ui/DaysDialog.kt:47-50 | tapping each allowed day once leaves no day allowed and nothing else changed |
| `SettingsView.SwitchOnThenUntickAll` | mobile/src/main/java/me/odedniv/nudge/ui/SettingsView.kt:160-165 | with no one-off enabled, switching periodic nudges on and tapping every allowed day once leaves them on with no day and nothing else changed |
| `SettingsView.DefaultDayList` | wear/src/main/java/me/odedniv/nudge/logic/Settings.kt:112-113 | the default days as a list of distinct weekdays |
| `SettingsView.ScreenReachesNoDays` | mobile/src/main/java/me/odedniv/nudge/ui/SettingsView.kt:160-165 | six taps from the defaults give valid settings with periodic nudges on and no day, on which the scheduler as written throws |
| `VibrationDialog.SetMultiplier` | mobile/src/main/java/me/odedniv/nudge/ui/VibrationDialog.kt:57-60 | accepted exactly for 50, 75 or 100 percent; the pattern is kept |
| `VibrationDialog.SetSlot` | mobile/src/main/java/me/odedniv/nudge/ui/VibrationDialog.kt:64-76 | an existing slot takes a value in 1..3; every other slot and the multiplier are kept |
| `VibrationDialog.RemoveLast` | mobile/src/main/java/me/odedniv/nudge/ui/VibrationDialog.kt:82-83 | shown exactly with more than one slot; drops the last one only |
| `VibrationDialog.AddCopy` | mobile/src/main/java/me/odedniv/nudge/ui/VibrationDialog.kt:85-87 | appends a copy of the last value; fails on an empty pattern where `last()` throws |
| `VibrationDialog.AddThenRemove` | mobile/src/main/java/me/odedniv/nudge/ui/VibrationDialog.kt:82-87 | removing the slot just added restores the vibration |
| `VibrationDialog.RemoveThenAdd` | mobile/src/main/java/me/odedniv/nudge/ui/VibrationDialog.kt:82-87 | removing then adding restores the vibration when the last two values agree |
| `VibrationDialog.ButtonsKeepOffered` | mobile/src/main/java/me/odedniv/nudge/ui/VibrationDialog.kt:52-109 | every button keeps a non-empty pattern of values 1..3 and a multiplier from the options |
| `VibrationDialog.DefaultOffered` | wear/src/main/java/me/odedniv/nudge/logic/Vibration.kt:69 | the default vibration is one the dialog offers |
| `VibrationDialog.OfferedSurvivesStorage` | wear/src/main/java/me/odedniv/nudge/logic/Settings.kt:74 | whatever the dialog offers is stored and read back unchanged |
| `VibrationDialog.PressesKeepOffered` | app/src/main/java/me/odedniv/nudge/presentation/VibrationDialog.kt:42-82 | any sequence of presses keeps the vibration offered and storable |
| `ToggleReceiver.OnReceive` | app/src/main/java/me/odedniv/nudge/services/ToggleReceiver.kt:10-19 | fails without the extra; "stop" on a running one-off clears its start only; anything else sets `periodic` and keeps the one-off |
| `ToggleReceiver.StopRunningOneOff` | app/src/main/java/me/odedniv/nudge/services/ToggleReceiver.kt:14-15 | stopping a running one-off disables it at every instant, and the next alarm is the one the same settings give with no one-off at all |
| `ToggleReceiver.StopTwiceSilences` | app/src/main/java/me/odedniv/nudge/services/ToggleReceiver.kt:14-17 | two "stop" broadcasts always leave no alarm |
| `ToggleReceiver.StartSwitchesPeriodicOn` | app/src/main/java/me/odedniv/nudge/services/ToggleReceiver.kt:16-17 | "start" turns periodic nudges on and changes nothing else |
| `TimeInput.Hour` | mobile/src/main/java/me/odedniv/nudge/ui/TimeInput.kt:253-254 | a valid state's hour is in 0..23 and is 12 or more exactly in the afternoon |
| `TimeInput.SetHour` | mobile/src/main/java/me/odedniv/nudge/ui/TimeInput.kt:255-258 | only the hour changes, and an hour in 0..23 keeps the state valid |
| `TimeInput.SetThenGetHour` | mobile/src/main/java/me/odedniv/nudge/ui/TimeInput.kt:253-258 | the getter reads back what the setter stored for every value from -11 to 23 |
| `TimeInput.Init` | mobile/src/main/java/me/odedniv/nudge/ui/TimeInput.kt:222-235 | succeeds exactly when the `require`s hold; the state holds the given time with the focus on the hour |
| `TimeInput.Save` | mobile/src/main/java/me/odedniv/nudge/ui/TimeInput.kt:264 | the saver keeps the hour, minute and second |
| `TimeInput.Restore` | mobile/src/main/java/me/odedniv/nudge/ui/TimeInput.kt:265-273 | restoring succeeds exactly when the saved values pass the constructor's `require`s (lines 222-227); the restored state saves back to the same values, with the focus on the hour |
| `TimeInput.SaveRestore` | mobile/src/main/java/me/odedniv/nudge/ui/TimeInput.kt:262-274 | a valid state restores to itself with the focus on the hour |
| `TimeInput.RestoreNeedsValid` | mobile/src/main/java/me/odedniv/nudge/ui/TimeInput.kt:222-227 | a state restores only when its hour, minute and second are in range |
| `TimeInput.HourForDisplay` | mobile/src/main/java/me/odedniv/nudge/ui/TimeInput.kt:278-285 | the hour itself in 24-hour mode; 1..12 matching the half-day hour otherwise |
| `TimeInput.ToLocalTime` | mobile/src/main/java/me/odedniv/nudge/ui/LocalTimeDialog.kt:37 | `LocalTime.of` succeeds exactly on an in-range time, giving that time of day |
| `TimeInput.ValidConfirms` | mobile/src/main/java/me/odedniv/nudge/ui/LocalTimeDialog.kt:37 | a valid state always confirms to a time of day |
| `TimeInput.MaxFor` | mobile/src/main/java/me/odedniv/nudge/ui/TimeInput.kt:339 | the hour field's maximum is 23, or 12 in 12-hour mode; minutes and seconds (lines 383 and 428) take 59 |
| `TimeInput.Assign` | mobile/src/main/java/me/odedniv/nudge/ui/TimeInput.kt:669-678 | the chosen field takes the value and the others are kept |
| `TimeInput.ReadNumber` | mobile/src/main/java/me/odedniv/nudge/ui/TimeInput.kt:661-666 | the first digit when a third character was typed after it, else `toInt()` of the whole text |
| `TimeInput.WithText` | mobile/src/main/java/me/odedniv/nudge/ui/TimeInput.kt:656 | `copy(text = t)` holds `t`, and its cursor is coerced into `0..|t|`: kept when already there, else moved to the end |
| `TimeInput.KeptText` | mobile/src/main/java/me/odedniv/nudge/ui/TimeInput.kt:680-686 | text of up to two characters is kept as it is; longer text is cut to its first character, with the cursor coerced to at most 1 |
| `TimeInput.OnChangeAsWritten` | mobile/src/main/java/me/odedniv/nudge/ui/TimeInput.kt:636-691 | a selection-only change passes through; emptied sets 0; otherwise accepted exactly when the number reads and is at most `max`; rejected leaves the state unchanged |
| `TimeInput.OnChange` | mobile/src/main/java/me/odedniv/nudge/ui/TimeInput.kt:668 | as above, but accepted exactly when the number is in 0..max, and then the field holds it |
| `TimeInput.OnChangeAccepts` | mobile/src/main/java/me/odedniv/nudge/ui/TimeInput.kt:660-686 | an edit whose number is in 0..max is assigned to the field and the kept text is handed on |
| `TimeInput.HandlersAgreeOnNonNegative` | mobile/src/main/java/me/odedniv/nudge/ui/TimeInput.kt:668 | the two handlers differ only on negative numbers |
| `TimeInput.NegativeHourAccepted` | mobile/src/main/java/me/odedniv/nudge/ui/TimeInput.kt:668 | as written, "-1" in the hour field is accepted: the hour becomes -1, restoring fails and confirming throws |
| `TimeInput.OnChangeKeepsValid` | mobile/src/main/java/me/odedniv/nudge/ui/TimeInput.kt:636-691 | with each field's maximum the corrected handler keeps the state valid |
| `TimeInput.EditedStateConfirms` | mobile/src/main/java/me/odedniv/nudge/ui/TimeInput.kt:262-274 | after any corrected edit the state restores and confirms to a time of day |
| `TimeInput.TypingTwoDigits` | mobile/src/main/java/me/odedniv/nudge/ui/TimeInput.kt:660-686 | typing a value as the field displays it sets the field to that value and keeps the text |

## Left out

- I/O is not modelled: shared preferences, `Context`, notifications, `AlarmManager` (`Scheduler.commit`), `Settings.commit`, toasts and the `id` description strings. The model works on the values these read and write.
- Playing vibrations (`Vibration.execute`, the vibrator, coroutine delays and cancellation) is left out; only the waveforms are modelled.
- Compose layout, focus handling, key events, the AM/PM selector, number localisation (`toLocalString`) and accessibility text of TimeInput.kt are left out. Only ASCII digits are modelled.
- Time zones are reduced to one fixed offset. Daylight-saving transitions, where `with(LocalTime)` can shift or skip a time, are not modelled.
- Floating point is left out. Multipliers are integer percentages (0.5f is 50). The older watch app's style descriptions are integer milliseconds (0.33 s is 330 ms); Double rounding could differ by 1 ms.
- `AppVibration.MaximumDurationMs` applies `ceil` to the millisecond totals, not to Double seconds.
- A dialog's buttons act at the instant of the press, but the model uses the one `now` the dialog was drawn at. `OneOffDialog.Pause` and `OneOffDialog.Resume` take that `now` for `Instant.now()`.
- `NudgeSettings.Read`: `read` never fails in the source; it throws on a malformed value. The model returns None there instead.
- The `Settings` record holds the current watch app's pattern vibration, which the phone settings screen also edits. The older watch app's style vibration (`styleName`, `durationMultiplier`, app Settings.kt lines 70-71 and 159-165) is modelled on its own in `AppVibration`; its two preference keys are not in `Write`/`Read`.
- `DEBUG` is fixed at false, so `MINIMUM_FREQUENCY`, `DEFAULT_FREQUENCY` and `DEFAULT_HOURS` take their release values.
- Durations are unbounded integers. `Duration` overflow and `Instant` range limits, apart from `Instant.MAX`, are not modelled.
- `Scheduler.NextPeriodicTrigger`: a stored frequency of zero makes `plusRounded` take a remainder by zero, which throws. A negative frequency would give a defined trigger, but it is excluded too, because the settings screen never stores one. Both are kept out by the precondition `Scheduler.Schedulable`, which the settings screen maintains (`SettingsView.ValidIsSchedulable`). The model does not turn a zero frequency into "no alarm".
- `Utils.Format`: the domain is non-negative durations. `Duration.format()` also accepts negative ones, where `toHours`, `minutesPart` and `secondsPart` turn negative and print with minus signs; that case is not modelled.
- `NudgeSettings.ReadWrite` covers only settings in whole seconds with a non-empty pattern. Others change on the way through storage, as `NudgeSettings.SecondsRoundTrip` and `WearVibration.EmptyPatternDoesNotRoundTrip` state.
- The one-off dialog's `past` chip flag, the duration dialog's initial value (`lastOrNull() ?: DEFAULT.frequency`) and `DurationDialog`'s Duration-to-LocalTime conversion only affect display. They are left out.
- `onVibrationUpdate`, which plays the new vibration after an edit, is I/O.

## Findings

| source | as written | input that shows it | evidently intended | confidence | as-written member | corrected member |
|---|---|---|---|---|---|---|
| app/src/main/java/me/odedniv/nudge/logic/Scheduler.kt:92-93 | with periodic nudges on and no weekday allowed, `at(days)` calls `days.minOf` on the empty set, which throws NoSuchElementException; the days dialog lets the user untick every day | `periodic = true`, `days = {}`, reached from the defaults by switching periodic on and tapping the five default days | no allowed weekday means no periodic alarm | medium, not executed | `Scheduler.NextPeriodicTriggerAsWritten` and `Scheduler.NextTriggerAsWritten` (with `SettingsView.ScreenReachesNoDays`) | `Scheduler.NextPeriodicTrigger` and `Scheduler.NextTrigger` |
| mobile/src/main/java/me/odedniv/nudge/ui/TimeInput.kt:668 | the handler checks only `newValue <= max`; `toInt()` accepts a leading minus, and a number keyboard does not filter the text | typing or pasting `-1` into the hour field of the 24-hour time dialog: the hour becomes -1, the saver's restore fails `require(initialHour in 0..23)`, and confirming calls `LocalTime.of(-1, …)`, which throws | accept only `0 <= newValue <= max` | medium, not executed | `TimeInput.OnChangeAsWritten` (with `TimeInput.NegativeHourAccepted`) | `TimeInput.OnChange` (with `TimeInput.OnChangeKeepsValid`) |
