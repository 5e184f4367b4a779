# SkyMusicHelper auto-tapper, modelled in Dafny

SkyMusicHelper is an Android app that taps the screen repeatedly at
user-defined points. It injects the taps through a privilege bridge
(Shizuku). This project models its logic in Dafny 4.11:

- **Tap-point list controller** (`auto_clicker.dfy`, properties in
  `clicker_properties.dfy`). `AutoClickerApp` becomes one immutable state
  with one step function per event. The events are: add a point, remove a
  point, clear the list, start/stop, one firing of the fixed-rate tap task,
  a change in bridge availability, configuration import, and the two
  floating-window buttons. Firings of the task and UI events are interleaved
  as discrete steps.
- **Persistence** (`points.dfy`). `saveClickPoints`, `loadClickPoints` and
  `parseConfig` convert between a point list and a JSON array of
  `{x, y, interval}` objects stored under the key `click_points`.
- **JSON at the value level** (`json.dfy`). A JSON value datatype and the
  `org.json` accessors the app calls. A stored or imported text is either
  a document the reader accepts, standing for the value it denotes, or text
  the reader rejects.
- **Config store** (`config_database.dfy`). `ConfigDatabaseHelper` as a
  finite map, plus the row table underneath. Lemmas show that a table with a
  UNIQUE key, written with REPLACE, behaves as that map.
- **Floating window manager** (`overlay_window.dfy`).
  `FloatingWindowManager` as a two-state machine. Whether `addView` or
  `removeView` succeeds is an input.
- **Kotlin text conversions** (`kotlin_text.dfy`). `toIntOrNull` and
  `toLongOrNull` are modelled as a decimal parser with 32-bit and 64-bit
  range checks. `toString` is modelled as its inverse.

`performClick` is a platform call. The model keeps only whether it returned
or threw, which is an input to each firing. Bridge availability and overlay
permission are inputs too.

Three behaviours of the code are made explicit as lemmas, and the model
follows the code in each case:

- A firing reads `clickPoints[currentIndex]` outside the try block. If the
  list shrinks while the task runs, the index can point past the end. The
  read then throws, and the executor never runs the task again, although the
  screen still shows the tapper as running (`RemoveWhileRunningSuppresses`).
  The in-range property is proved only for runs in which nothing is removed
  while the task is scheduled (`RunKeepsInBounds`).
- `parseConfig` writes the store but does not reload the list on screen,
  although the comment at `MainActivity.kt:167` says it updates both. The
  next accepted add then saves over the imported list
  (`ImportThenAddDropsImport`).
- The screen's `showFloatingWindow` flips on every press of the button. The
  manager's `isWindowShowing` changes only when the platform call succeeds,
  so one failed call makes the two disagree (`FailedShowSplitsFlags`).

Two more facts about intervals:

- Every point carries an interval, but the code reads only the first point's
  interval, once, when the task starts, and uses it as a fixed rate for all
  points (`PeriodFromFirstPointOnly`, `PeriodFixedUntilToggle`).
- The add dialog rejects zero as well as negative intervals. Import checks no
  interval (`ImportAcceptsZeroInterval`).

## Model

| member | source | states |
|---|---|---|
| `KotlinText.ToIntOrNull` | app/src/main/java/com/ghosa/skymusichelper/MainActivity.kt:644-645 | a non-null result is exactly the number the text spells as a signed decimal numeral |
| `KotlinText.ToLongOrNull` | app/src/main/java/com/ghosa/skymusichelper/MainActivity.kt:646 | a non-null result is exactly the number the text spells as a signed decimal numeral |
| `KotlinText.NullMeansNotAFittingNumeral` | app/src/main/java/com/ghosa/skymusichelper/MainActivity.kt:644-647 | null comes back exactly when the text is not a numeral or its value does not fit 32 bits (for `Int`) or 64 bits (for `Long`) |
| `KotlinText.Decimal` | app/src/main/java/com/ghosa/skymusichelper/MainActivity.kt:571 | the decimal rendering of any integer reads back as that integer |
| `KotlinText.IntRoundTrip` | app/src/main/java/com/ghosa/skymusichelper/MainActivity.kt:644-645 | every `Int` written in decimal parses back to itself |
| `KotlinText.LongRoundTrip` | app/src/main/java/com/ghosa/skymusichelper/MainActivity.kt:646 | every `Long` written in decimal parses back to itself |
| `KotlinText.RejectedNumerals` | app/src/main/java/com/ghosa/skymusichelper/MainActivity.kt:644-647 | empty text, a bare sign, a blank and a misplaced sign are not numerals |
| `KotlinText.IntRangeEdges` | app/src/main/java/com/ghosa/skymusichelper/MainActivity.kt:644-645 | 2^31 is refused as an `Int`; -2^31 is accepted |
| `ConfigDatabase.Get` | app/src/main/java/com/ghosa/skymusichelper/ConfigDatabaseHelper.kt:33-52 | `getConfigValue(k)` is non-null exactly when k is stored, and then it is the stored value |
| `ConfigDatabase.Set` | app/src/main/java/com/ghosa/skymusichelper/ConfigDatabaseHelper.kt:55-61 | after `setConfigValue(k, v)`, `getConfigValue(k)` returns v and every other key reads as before |
| `ConfigDatabase.Fresh` | app/src/main/java/com/ghosa/skymusichelper/ConfigDatabaseHelper.kt:20-26 | on a new database, every key reads null |
| `ConfigDatabase.Upgrade` | app/src/main/java/com/ghosa/skymusichelper/ConfigDatabaseHelper.kt:28-31 | after an upgrade, every key reads null, whatever was stored before |
| `ConfigDatabase.SetTwiceKeepsLatest` | app/src/main/java/com/ghosa/skymusichelper/ConfigDatabaseHelper.kt:55-61 | writing a key twice leaves only the second value |
| `ConfigDatabase.CreateTable` | app/src/main/java/com/ghosa/skymusichelper/ConfigDatabaseHelper.kt:20-26 | a created table satisfies the UNIQUE constraint and holds no key |
| `ConfigDatabase.UpgradeTable` | app/src/main/java/com/ghosa/skymusichelper/ConfigDatabaseHelper.kt:28-31 | dropping and re-creating the table leaves no key |
| `ConfigDatabase.Query` | app/src/main/java/com/ghosa/skymusichelper/ConfigDatabaseHelper.kt:33-52 | the keyed query finds nothing exactly when no row has the key; otherwise it returns the value of a row that has it |
| `ConfigDatabase.Without` | app/src/main/java/com/ghosa/skymusichelper/ConfigDatabaseHelper.kt:61 | the conflict deletion of REPLACE removes every row with the key and keeps every other row |
| `ConfigDatabase.Replace` | app/src/main/java/com/ghosa/skymusichelper/ConfigDatabaseHelper.kt:55-61 | after REPLACE, the keyed query returns the value just written |
| `ConfigDatabase.QueryMatchesView` | app/src/main/java/com/ghosa/skymusichelper/ConfigDatabaseHelper.kt:33-52 | on any table, the keyed query reads exactly what the table's map view holds for the key |
| `ConfigDatabase.ReplaceRefinesSet` | app/src/main/java/com/ghosa/skymusichelper/ConfigDatabaseHelper.kt:55-61 | REPLACE on the rows is map update on the view |
| `ConfigDatabase.ReplaceKeepsKeysUnique` | app/src/main/java/com/ghosa/skymusichelper/ConfigDatabaseHelper.kt:55-61 | REPLACE never creates a second row for a key |
| `ConfigDatabase.OneRowPerKey` | app/src/main/java/com/ghosa/skymusichelper/ConfigDatabaseHelper.kt:21-24 | under the UNIQUE key, rows and map entries correspond one to one: at most one entry per key |
| `ConfigDatabase.NewTableIsFresh` | app/src/main/java/com/ghosa/skymusichelper/ConfigDatabaseHelper.kt:20-31 | a created or upgraded table reads as the empty store |
| `Json.ReadArray` | app/src/main/java/com/ghosa/skymusichelper/MainActivity.kt:525 | `JSONArray(text)` succeeds exactly on a JSON array and yields its elements |
| `Json.ReadObject` | app/src/main/java/com/ghosa/skymusichelper/MainActivity.kt:156 | `JSONObject(text)` succeeds exactly on a JSON object and yields its members |
| `Json.AsObject` | app/src/main/java/com/ghosa/skymusichelper/MainActivity.kt:528 | `getJSONObject(i)` succeeds exactly on an object element, and yields that element's members |
| `Json.GetArray` | app/src/main/java/com/ghosa/skymusichelper/MainActivity.kt:157 | `getJSONArray(name)` succeeds exactly when the member exists and is an array |
| `Json.GetInt` | app/src/main/java/com/ghosa/skymusichelper/MainActivity.kt:529-530 | `getInt(name)` returns the member's number, and succeeds whenever the member is a number that fits an `Int` |
| `Json.GetLong` | app/src/main/java/com/ghosa/skymusichelper/MainActivity.kt:531 | `getLong(name)` returns the member's number, and succeeds whenever the member is a number that fits a `Long` |
| `Points.Decode` | app/src/main/java/com/ghosa/skymusichelper/MainActivity.kt:528-532 | an element decodes only if it is an object whose `x`, `y` and `interval` members are exactly the point's numbers; any object with an `Int` `x` and `y` and a `Long` `interval` decodes |
| `Points.DecodeAll` | app/src/main/java/com/ghosa/skymusichelper/MainActivity.kt:526-534 | the list decodes exactly when every element does, and then holds the decoded elements one for one, in order |
| `Points.Save` | app/src/main/java/com/ghosa/skymusichelper/MainActivity.kt:540-550 | saving writes `click_points` and leaves every other key as it was |
| `Points.Load` | app/src/main/java/com/ghosa/skymusichelper/MainActivity.kt:522-538 | all or nothing: with nothing stored the list is empty, and a non-empty result is a stored array whose elements decode one for one, in order, to the loaded points |
| `Points.ParseConfig` | app/src/main/java/com/ghosa/skymusichelper/MainActivity.kt:154-173 | import is all or nothing: a fully readable configuration replaces the stored list (which then loads as the imported points) and touches no other key; any failure leaves the store unchanged |
| `Points.DecodeEncode` | app/src/main/java/com/ghosa/skymusichelper/MainActivity.kt:528-547 | a point written as `{x, y, interval}` reads back as the same point |
| `Points.LoadSave` | app/src/main/java/com/ghosa/skymusichelper/MainActivity.kt:522-550 | loading a list just saved gives it back unchanged |
| `Points.LoadMissingKey` | app/src/main/java/com/ghosa/skymusichelper/MainActivity.kt:523 | with nothing stored, the list loads empty |
| `Points.LoadNotAnArray` | app/src/main/java/com/ghosa/skymusichelper/MainActivity.kt:524-537 | stored text that is not a JSON array loads as the empty list |
| `Points.LoadDiscardsWholeList` | app/src/main/java/com/ghosa/skymusichelper/MainActivity.kt:527-537 | one malformed element empties the whole loaded list, not just that element |
| `Points.LoadWellFormed` | app/src/main/java/com/ghosa/skymusichelper/MainActivity.kt:525-534 | a stored array whose elements all decode loads as exactly those points, in order |
| `Points.ImportExported` | app/src/main/java/com/ghosa/skymusichelper/MainActivity.kt:154-168 | a configuration holding a saved list imports back as that list |
| `Points.ImportAllOrNothing` | app/src/main/java/com/ghosa/skymusichelper/MainActivity.kt:158-172 | one malformed element rejects the whole import and the store is untouched |
| `Points.ImportAcceptsZeroInterval` | app/src/main/java/com/ghosa/skymusichelper/MainActivity.kt:159-165 | import stores a point with a zero interval, which the add dialog would refuse |
| `OverlayWindow.New` | app/src/main/java/com/ghosa/skymusichelper/FloatingWindowManager.kt:23 | a new manager is not showing |
| `OverlayWindow.Show` | app/src/main/java/com/ghosa/skymusichelper/FloatingWindowManager.kt:28-69 | show while showing changes nothing; otherwise the window is showing afterwards exactly when `addView` succeeded |
| `OverlayWindow.Hide` | app/src/main/java/com/ghosa/skymusichelper/FloatingWindowManager.kt:71-80 | hide while not showing changes nothing; otherwise the window is hidden afterwards exactly when `removeView` succeeded |
| `OverlayWindow.AlwaysConsistent` | app/src/main/java/com/ghosa/skymusichelper/FloatingWindowManager.kt:71-80 | over any sequence of calls, a showing window has its view, so the `isInitialized` checks in hide never decide anything |
| `OverlayWindow.ShowHideRoundTrip` | app/src/main/java/com/ghosa/skymusichelper/FloatingWindowManager.kt:63-79 | a successful show then a successful hide is back to not showing |
| `OverlayWindow.FailedCallsKeepState` | app/src/main/java/com/ghosa/skymusichelper/FloatingWindowManager.kt:63-79 | a failed add leaves the window hidden; a failed remove leaves it showing |
| `AutoClicker.Launch` | app/src/main/java/com/ghosa/skymusichelper/MainActivity.kt:193-204 | the screen starts with the stored list, not running, no task, no floating window |
| `AutoClicker.Validate` | app/src/main/java/com/ghosa/skymusichelper/MainActivity.kt:644-647 | an accepted point has a positive interval, and its fields are the numbers the three texts spell |
| `ClickerProperties.DisabledAddRejectsNothingValid` | app/src/main/java/com/ghosa/skymusichelper/MainActivity.kt:643-655 | while any field is blank (Kotlin's `isBlank`, with the whole `Char.isWhitespace` set) and the add button is disabled, the check behind the button would reject the input anyway |
| `ClickerProperties.BlankIsNoNumeral` | app/src/main/java/com/ghosa/skymusichelper/MainActivity.kt:644-655 | a blank text never reads as a number |
| `AutoClicker.Add` | app/src/main/java/com/ghosa/skymusichelper/MainActivity.kt:643-655 | disabled while a field is blank; a rejected input reports the error and changes nothing; an accepted one appends exactly one point, keeps the earlier points, and saves the new list (lines 443-444), so that the store loads as the list on screen |
| `AutoClicker.Remove` | app/src/main/java/com/ghosa/skymusichelper/MainActivity.kt:430 | exactly element i is deleted, the others keep their order, and nothing else changes, including the store |
| `AutoClicker.Clear` | app/src/main/java/com/ghosa/skymusichelper/MainActivity.kt:403 | the list becomes empty and nothing else changes, including the store |
| `AutoClicker.Period` | app/src/main/java/com/ghosa/skymusichelper/MainActivity.kt:508 | the period is the first point's interval, or 500 ms when the list is empty |
| `AutoClicker.Start` | app/src/main/java/com/ghosa/skymusichelper/MainActivity.kt:494-508 | a positive period schedules the task at index 0 with exactly that period; a zero or negative period is refused |
| `AutoClicker.Toggle` | app/src/main/java/com/ghosa/skymusichelper/MainActivity.kt:374-388 | without the bridge, or with no points, nothing changes; otherwise `isRunning` flips, `runningFlag` equals it, and the task is started or cancelled to match |
| `AutoClicker.Fire` | app/src/main/java/com/ghosa/skymusichelper/MainActivity.kt:496-507 | a firing changes only the task; without flag, bridge and points it does nothing; any tap is at a point of the list; the period never changes |
| `AutoClicker.Step` | app/src/main/java/com/ghosa/skymusichelper/MainActivity.kt:154-444 | each piece of state has its own writers: only an add or an import writes the store; only add, remove and clear change the list; only the start/stop button changes `isRunning` and `runningFlag`; only that button and a firing touch the task; only the floating-window controls touch the window flags |
| `AutoClicker.Import` | app/src/main/java/com/ghosa/skymusichelper/MainActivity.kt:154-172 | import changes only the store, never the list on screen; on success the store loads as the imported points; on failure nothing changes |
| `AutoClicker.OverlayToggle` | app/src/main/java/com/ghosa/skymusichelper/MainActivity.kt:268-308 | without permission nothing changes; otherwise the manager is asked to hide or show, and the screen's flag flips whatever the outcome |
| `AutoClicker.OverlayDismiss` | app/src/main/java/com/ghosa/skymusichelper/MainActivity.kt:284-287 | closing the panel clears the screen's flag and asks the manager to hide |
| `ClickerProperties.ValidateAcceptsExactly` | app/src/main/java/com/ghosa/skymusichelper/MainActivity.kt:643-653 | a point is accepted exactly when x and y parse as `Int` and the interval parses as a `Long` greater than 0 |
| `ClickerProperties.ValidateAcceptsDecimal` | app/src/main/java/com/ghosa/skymusichelper/MainActivity.kt:643-653 | any point with a positive interval, typed in decimal, is accepted as exactly that point |
| `ClickerProperties.ValidateRejectsNonPositive` | app/src/main/java/com/ghosa/skymusichelper/MainActivity.kt:647-651 | an interval that spells zero or a negative number is rejected |
| `ClickerProperties.StepKeepsInvariant` | app/src/main/java/com/ghosa/skymusichelper/MainActivity.kt:387-388 | every event keeps `runningFlag` equal to `isRunning` and keeps a task exactly while running |
| `ClickerProperties.RunKeepsInvariant` | app/src/main/java/com/ghosa/skymusichelper/MainActivity.kt:374-388 | the same holds after any sequence of events |
| `ClickerProperties.LaunchInvariant` | app/src/main/java/com/ghosa/skymusichelper/MainActivity.kt:196-204 | the invariant holds at launch and in every state reachable from it |
| `ClickerProperties.ListEditsNotPersisted` | app/src/main/java/com/ghosa/skymusichelper/MainActivity.kt:403 | after a clear or a remove, the next launch shows the old stored list again |
| `ClickerProperties.StopRefused` | app/src/main/java/com/ghosa/skymusichelper/MainActivity.kt:374-388 | while running, clearing the list or losing the bridge makes the toggle refuse to stop, so `isRunning` stays set |
| `ClickerProperties.TickAdvancesEvenOnFailure` | app/src/main/java/com/ghosa/skymusichelper/MainActivity.kt:497-506 | a tap that throws advances the index exactly as one that returns |
| `AutoClicker.Fires` | app/src/main/java/com/ghosa/skymusichelper/MainActivity.kt:497 | the guard of a firing: a task exists, `runningFlag` is set, the bridge is available and the list is not empty (its effect is stated by `AutoClicker.Fire`) |
| `ClickerProperties.TicksVisitCyclically` | app/src/main/java/com/ghosa/skymusichelper/MainActivity.kt:496-507 | uninterrupted firings tap the points cyclically in list order from the current index, and leave the index at that index plus the number of firings, modulo the length |
| `ClickerProperties.NoticesFollowRun` | app/src/main/java/com/ghosa/skymusichelper/MainActivity.kt:154-444 | the k-th message a run shows is what its k-th event reports in the state the earlier events left |
| `ClickerProperties.StartThenTicks` | app/src/main/java/com/ghosa/skymusichelper/MainActivity.kt:494-508 | after a start, the k-th firing taps point k modulo the list length, at the first point's interval |
| `ClickerProperties.PeriodFromFirstPointOnly` | app/src/main/java/com/ghosa/skymusichelper/MainActivity.kt:508 | only the first point's interval sets the period |
| `ClickerProperties.PeriodFixedUntilToggle` | app/src/main/java/com/ghosa/skymusichelper/MainActivity.kt:492-508 | until the next toggle, no event changes the task's period |
| `ClickerProperties.StepKeepsInBounds` | app/src/main/java/com/ghosa/skymusichelper/MainActivity.kt:497-506 | unless it removes or clears points while a task is scheduled, an event keeps the task's index inside the list and never faults the task |
| `ClickerProperties.RunKeepsInBounds` | app/src/main/java/com/ghosa/skymusichelper/MainActivity.kt:494-508 | if the list does not shrink while the task runs, `currentIndex` stays below the list length and the task never faults |
| `ClickerProperties.NeverSuppressedFromLaunch` | app/src/main/java/com/ghosa/skymusichelper/MainActivity.kt:494-508 | from launch, with no shrinking while ticking, the tap task never faults |
| `ClickerProperties.StaleIndexSuppresses` | app/src/main/java/com/ghosa/skymusichelper/MainActivity.kt:497-498 | a firing whose index is past the end of the list kills the task, while `isRunning` stays set |
| `ClickerProperties.RemoveWhileRunningSuppresses` | app/src/main/java/com/ghosa/skymusichelper/MainActivity.kt:430 | start with two points, tap once, remove the second point: the next firing kills the task while the screen still shows it running |
| `ClickerProperties.ImportThenAddDropsImport` | app/src/main/java/com/ghosa/skymusichelper/MainActivity.kt:166-168 | import leaves the list on screen stale, so the next accepted add stores that list plus the new point, losing the imported one |
| `ClickerProperties.ImportedZeroIntervalRejectedAtStart` | app/src/main/java/com/ghosa/skymusichelper/MainActivity.kt:508 | an imported zero interval survives to the next launch, and starting then asks for a zero period, which is refused |
| `ClickerProperties.StepKeepsFlagsAgreed` | app/src/main/java/com/ghosa/skymusichelper/MainActivity.kt:280-307 | when platform calls succeed, every event keeps the screen's flag equal to the manager's |
| `ClickerProperties.FlagsAgreeWhilePlatformSucceeds` | app/src/main/java/com/ghosa/skymusichelper/MainActivity.kt:280-307 | while every `addView` and `removeView` succeeds, `showFloatingWindow` equals `isWindowShowing` after any sequence of events |
| `ClickerProperties.FailedShowSplitsFlags` | app/src/main/java/com/ghosa/skymusichelper/MainActivity.kt:307 | a failed `addView` leaves the screen believing the window is shown while the manager does not; the next press clears the flag and hides nothing |
| `ClickerProperties.FailedHideSplitsFlags` | app/src/main/java/com/ghosa/skymusichelper/MainActivity.kt:307 | a failed `removeView` leaves the window shown while the screen's flag says hidden |

## Left out

- `performClick` (MainActivity.kt:727-760): reflection on `IInputManager`, binder wrapping and `MotionEvent` construction are platform calls. Each firing only takes whether the tap returned or threw.
- Threads and time: the single-thread scheduled executor, the fixed-rate timing and the 100 ms polling loop. Firings and UI events are interleaved discrete steps. The relaunch of `LaunchedEffect(isRunning)` is folded into the toggle step that changes `isRunning`, because the old task is cancelled and the new one started before any later firing.
- AutoClicker.Start: a refused period is recorded as `Rejected`. The crash that follows the uncaught exception in the composition is not modelled.
- AutoClicker.Fire: the task that reads past the end of the list is recorded as `Suppressed`, because the executor suppresses later runs of a task that threw. The exception's other effects are not modelled.
- AutoClicker.Step: a remove for a row that is not on screen, and a close on a panel that is not shown, do nothing, because no such control exists. The source would throw from `removeAt` if such a call could happen.
- KotlinText.ToIntOrNull: only ASCII digits are modelled. Kotlin also accepts other Unicode decimal digits.
- KotlinText.ToLongOrNull: only ASCII digits are modelled, as for `ToIntOrNull`.
- AutoClicker.AddEnabled: `isBlank` uses the whitespace set of current Unicode versions. U+180E, a space separator only before Unicode 6.3, is not treated as blank.
- Json.GetInt: strict. Only an integral JSON number that fits an `Int` is accepted. `org.json` also coerces numeric strings and fractional numbers, and wraps wider numbers. That library is not part of this model.
- Json.GetLong: strict in the same way as `GetInt`.
- JSON text: `org.json` parsing and printing are not modelled. The model assumes that the text `saveClickPoints` writes reads back as the array it printed. Fractional numbers are not part of the value type.
- File reading for import (MainActivity.kt:79-95): reading the chosen file is I/O. A file that cannot be read ends the same way as malformed text, with a toast and no change.
- SQLite internals, cursors, schema SQL and null keys or values. Only the table's rows, its UNIQUE key and the REPLACE semantics are modelled.
- Compose UI: `PointItem`, the dialog layout, the `FloatingControlWindow` composable that adds an empty view (MainActivity.kt:665-722), `FloatingControlWindowContent`, the empty top-level `hideFloatingWindow` (MainActivity.kt:763-765), snackbar and toast texts, and the running label passed to the floating panel.
- Permission and intent flows: overlay permission is an input to the floating-window button. The storage/media permission prompts and settings intents are not modelled.
- `FloatingWindowSettingsActivity.kt`: a settings screen whose save button does nothing, so it has no lasting effect.
- The Shizuku binder listener (MainActivity.kt:207-217): its outcome enters as a bridge-availability event.
- AutoClicker.Step: `BridgeChanged(false)` over-approximates. The only write of `shizukuAvailable` (MainActivity.kt:210) runs just after a binder arrives, so in practice the flag does not return to false. The properties that let the bridge go away (such as `StopRefused` without the bridge) therefore cover more runs than the app can produce.
