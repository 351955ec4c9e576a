# TimeIn screen, modelled in Dafny

TimeIn is a one-screen Compose Multiplatform app. The user picks one of five
countries from a dropdown. Once a second the screen shows
"The time in {country} is HH:MM:SS" for that country's time zone. All of
its logic is in `composeApp/src/commonMain/kotlin/App.kt`. This project models
that logic in two parts.

- **Time formatting** (`time_format.dfy`, module `TimeFormat`).
  - Kotlin's `Int.toString()` becomes `IntToString` over a 32-bit `Int32`.
  - `String.padStart(length, padChar)` becomes `PadStart`.
  - `Int.zeroPadStart()` becomes `ZeroPadStart`.
  - `currentTimeAt` becomes `CurrentTimeAt`. The caller passes the local wall-clock time in the zone as a `LocalTime(hour, minute, second)`.
  - `ClockText` builds the "HH:MM:SS" part of the sentence.
  - Four readers invert the writers: `ParseInt` inverts `IntToString`, `ParseNat` inverts `ZeroPadStart` for 0 to 99, `ReadClock` inverts `ClockText`, and `ReadTimeText` inverts `CurrentTimeAt`. The round-trip lemmas prove that each text reads back as the value it was built from.
- **The registry** (`registry.dfy`, module `Registry`). It holds `Country(name, zone)` and the five entries of `countries`, in their source order. Each flag emoji is written as its two regional-indicator code points.
- **The screen's controller** (`screen.dfy`, module `Screen`).
  - `App()` keeps three state cells: `showCountries`, `selectedCountry` and `timeAtLocation`.
  - The specification has three parts. `Ui` is the value of the cells. `Event` lists the four handlers: button, item click, dismiss, and one refresh tick. `Apply` gives the effect of one event, and `Run` the effect of a sequence of events.
  - `Consistent` is the screen invariant, and every admissible event keeps it. A selection is always a registry country. With nothing selected, the label is the placeholder. Otherwise the label is still the placeholder (before the first tick) or the time sentence for some registry country at an in-range time.
  - The class `Screen.Controller` holds the three cells as fields. It has one method per handler, and each method is proved to change the state as `Apply` says. `RefreshLoop` runs a finite number of iterations of the `while (true)` loop.

`wrappers.dfy` defines the `Option` type. It stands for Kotlin's nullable `Country?` and for readers that can fail.

## Model

| member | source | states |
|---|---|---|
| TimeFormat.NatToString | composeApp/src/commonMain/kotlin/App.kt:43 | the decimal text of a natural number is non-empty and all digits; it is one character exactly for 0-9; it starts with '0' only for 0 |
| TimeFormat.NatToStringRoundTrip | composeApp/src/commonMain/kotlin/App.kt:43 | reading the decimal text of n gives back n |
| TimeFormat.IntToStringRoundTrip | composeApp/src/commonMain/kotlin/App.kt:43 | `Int.toString()` reads back as the same Int; the text starts with '-' exactly for negative values |
| TimeFormat.IntToStringShort | composeApp/src/commonMain/kotlin/App.kt:43 | an Int's text is shorter than two characters exactly when the value is 0 to 9 |
| TimeFormat.Repeat | composeApp/src/commonMain/kotlin/App.kt:43 | k copies of the pad character: length k, every character the pad |
| TimeFormat.PadStart | composeApp/src/commonMain/kotlin/App.kt:43 | `padStart`: the result is as long as the larger of `length` and the length of s, ends with s unchanged, and everything before s is the pad character |
| TimeFormat.ZeroPadOneDigit | composeApp/src/commonMain/kotlin/App.kt:40-43 | for 0 ≤ n ≤ 9, `zeroPadStart` is "0" followed by the digit |
| TimeFormat.ZeroPadTwoDigits | composeApp/src/commonMain/kotlin/App.kt:40-43 | for 10 ≤ n ≤ 99, `zeroPadStart` is the plain decimal text, tens digit then units digit |
| TimeFormat.ZeroPadUnchanged | composeApp/src/commonMain/kotlin/App.kt:43 | `zeroPadStart` returns `toString()` unchanged exactly when n < 0 or n ≥ 10, so it never truncates |
| TimeFormat.ZeroPadNegativeFive | composeApp/src/commonMain/kotlin/App.kt:43 | -5 pads to "-5" |
| TimeFormat.ParseTwoDigits | composeApp/src/commonMain/kotlin/App.kt:43 | two digit characters read as ten times the first plus the second |
| TimeFormat.ZeroPadRoundTrip | composeApp/src/commonMain/kotlin/App.kt:43 | for 0 ≤ n ≤ 99 the padded text is exactly two digits and reads back as n |
| TimeFormat.ClockSlices | composeApp/src/commonMain/kotlin/App.kt:54-56 | in "aa:bb:cc" the three two-character fields sit at offsets 0, 3 and 6, with ':' at 2 and 5 |
| TimeFormat.ReadClockOfFields | composeApp/src/commonMain/kotlin/App.kt:54-56 | three two-digit fields joined by ':' have the clock shape and read back as the time they spell |
| TimeFormat.ClockTextRoundTrip | composeApp/src/commonMain/kotlin/App.kt:54-56 | for an in-range time, HH:MM:SS has ':' at offsets 2 and 5 and digits elsewhere, and reads back as that time |
| TimeFormat.SentenceSlices | composeApp/src/commonMain/kotlin/App.kt:54 | the template places "The time in ", then the location, then " is ", then the clock, at fixed offsets |
| TimeFormat.CurrentTimeAtLayout | composeApp/src/commonMain/kotlin/App.kt:51-56 | the sentence is 24 characters longer than the location; it has the fixed prefix, the location verbatim, " is ", and a HH:MM:SS clock |
| TimeFormat.CurrentTimeAtRoundTrip | composeApp/src/commonMain/kotlin/App.kt:51-56 | the sentence reads back as exactly the location and time it was built from |
| TimeFormat.CurrentTimeAtInjective | composeApp/src/commonMain/kotlin/App.kt:51-56 | different locations or different in-range times never give the same sentence |
| TimeFormat.MidnightText | composeApp/src/commonMain/kotlin/App.kt:54-56 | midnight is written "00:00:00" |
| TimeFormat.LeadingZerosKept | composeApp/src/commonMain/kotlin/App.kt:54-56 | 03:07:09 is written with its leading zeros, not as 3:7:9 |
| Registry.Countries | composeApp/src/commonMain/kotlin/App.kt:32-38 | the registry has exactly five entries, each with a non-empty name |
| Registry.CountriesDistinct | composeApp/src/commonMain/kotlin/App.kt:32-38 | no two entries share a name or a zone id |
| Registry.CountryZoneIds | composeApp/src/commonMain/kotlin/App.kt:33-37 | every zone id has the tz-database "Area/Location" shape |
| Screen.Initial | composeApp/src/commonMain/kotlin/App.kt:63-65 | the starting state (dropdown closed, nothing selected, "No location selected") satisfies the screen invariant, and its label is not a time sentence |
| Screen.TicksOfSnoc | composeApp/src/commonMain/kotlin/App.kt:69-72 | one more reading adds one tick at the end |
| Screen.ApplyConsistent | composeApp/src/commonMain/kotlin/App.kt:63-106 | every handler and every in-range tick keep the screen invariant |
| Screen.ConsistentLabelReadable | composeApp/src/commonMain/kotlin/App.kt:64-70 | on a consistent screen the label is the placeholder, or a sentence that reads back as a registry country's name and an in-range time |
| Screen.RunConsistent | composeApp/src/commonMain/kotlin/App.kt:63-106 | any sequence of admissible events keeps the screen invariant |
| Screen.RunAppend | composeApp/src/commonMain/kotlin/App.kt:63-106 | running two event sequences one after the other is the same as running their concatenation |
| Screen.TickShowsSelection | composeApp/src/commonMain/kotlin/App.kt:67-72 | a tick with country c selected writes a label that reads back as c's name and the tick's time; it leaves the selection and the dropdown alone |
| Screen.TickWithoutSelection | composeApp/src/commonMain/kotlin/App.kt:68 | with nothing selected, a tick changes nothing |
| Screen.LabelOnlyChangesOnTick | composeApp/src/commonMain/kotlin/App.kt:67-106 | clicks and dismissals never change the label; it stays stale until the next tick |
| Screen.SelectionKeptWithoutClick | composeApp/src/commonMain/kotlin/App.kt:94-96 | only an item click changes the selection |
| Screen.SelectionNeverCleared | composeApp/src/commonMain/kotlin/App.kt:65-96 | once selected, the screen never goes back to "nothing selected" |
| Screen.SwitchShowsNewCountry | composeApp/src/commonMain/kotlin/App.kt:67-96 | after switching to c, the first tick shows c's time, whatever non-click events come in between |
| Screen.ReselectIdempotent | composeApp/src/commonMain/kotlin/App.kt:94-96 | picking the already selected country again changes nothing further |
| Screen.ButtonTwiceRestores | composeApp/src/commonMain/kotlin/App.kt:105-106 | pressing the button twice restores the state |
| Screen.TicksShowLast | composeApp/src/commonMain/kotlin/App.kt:68-72 | with c selected, a run of ticks leaves the sentence for the last reading and changes nothing else |
| Screen.TicksWithoutSelection | composeApp/src/commonMain/kotlin/App.kt:68-73 | with nothing selected, no run of ticks changes anything |
| Screen.Controller.constructor | composeApp/src/commonMain/kotlin/App.kt:63-65 | the three cells start closed, unselected and with the placeholder label |
| Screen.Controller.OnButtonClick | composeApp/src/commonMain/kotlin/App.kt:105-106 | negates `showCountries`; the selection and label are unchanged; the invariant is kept |
| Screen.Controller.OnItemClick | composeApp/src/commonMain/kotlin/App.kt:94-96 | selects the country and closes the dropdown; the label is unchanged until the next tick |
| Screen.Controller.OnDismissRequest | composeApp/src/commonMain/kotlin/App.kt:88-90 | closes the dropdown and changes nothing else |
| Screen.Controller.OnTick | composeApp/src/commonMain/kotlin/App.kt:67-72 | one loop iteration. With a selection, the label reads back as the selected name and the given time; without one, nothing changes. The selection and dropdown are unchanged either way |
| Screen.Controller.RefreshLoop | composeApp/src/commonMain/kotlin/App.kt:67-74 | n iterations of the refresh loop give the state of n ticks. With no selection the loop never starts. The invariant is kept |

`Apply`, `Run`, `TicksOf`, `ZeroPadStart`, `IntToString`, `ClockText`,
`CurrentTimeAt`, `ReadClock` and `ReadTimeText` are definitions whose meaning
the lemmas above state. `TicksOf` only turns clock readings into tick events,
and its `ensures` restate that.

One behaviour of App.kt that the model keeps as written: a new selection does
not clear the label. The old text, or the placeholder, stays until the first
tick for the new country (`LabelOnlyChangesOnTick`).

One difference from App.kt: `TimeZone.of(...)` rejects an unknown zone id with
an exception when the registry is built. The model keeps zone ids as opaque
strings and checks only their "Area/Location" shape (see "## Left out").

## Left out

- The clock read `Clock.System.now()` and the conversion `toLocalDateTime(zone)` come from kotlinx-datetime and a wall clock. The zone's local time therefore enters every tick as a `LocalTime` parameter. Its fields lie in 0-23 / 0-59 / 0-59, as that library's `LocalTime` guarantees, so a tick requires `InRange`.
- `TimeZone.of(...)` and the tz database are outside the repository. Zone ids are opaque strings, and whether they name real zones is left out.
- `LaunchedEffect` restart and cancellation, and `delay(1000L)`, are coroutine scheduling. One tick is one atomic event that reads the current selection, so a tick for a replaced selection cannot occur. The one-second cadence is not modelled.
- Screen.Controller.RefreshLoop: models the first n iterations of the `while (true)` loop, for n clock readings given up front. The loop's non-termination is not modelled.
- Compose layout and rendering are left out: `Row`, `Column`, `Text` styling, `Modifier`s, `MaterialTheme` and `@Preview`.
- Country names are opaque strings of code points. Emoji rendering and Unicode normalisation are not modelled.
- `padStart` throws `IllegalArgumentException` for a negative length. `PadStart` takes a `nat`, so that error path is not modelled. The only caller passes 2.
- Screen.Controller.OnItemClick: requires a registry country, because the dropdown only offers registry entries. Whether the dropdown is open is not checked: the model lets any event arrive in any state.
- Registry.CountryZoneIds: checks only the shape of the ids (a capital first letter, and a '/' before the last character), not the full tz-database grammar.
