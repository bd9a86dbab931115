# Ground-station display: a Dafny model of its logic

The application shows telemetry from amateur-rocketry flight computers as
heard by one or more ground stations. Beneath its user interface sits a
small amount of real logic, which this project models and proves things
about:

- **Elapsed-time formatting** (`Duration.humanReadableString`, module
  `Utils`). The formatter picks one of five formats by threshold: `<n> ms`,
  `<s>.<mmm> s`, `<s> s`, `<m>:<ss>` or `<h>:<mm>:<ss>`. A duration is a
  non-negative number of milliseconds. `Layout` chooses the format and its
  numbers, `Render` prints them, and `Parse` reads the text back. The
  proofs cover which branch applies, the bounds and zero padding of every
  field, and that the printed fields recombine to the duration.
  `ParseRender` shows that no two layouts print the same text.
- **The older formatter** in MainActivity.kt (module `MainActivity`). It
  has four formats and no `s.mmm` format. It is proved to print the same
  text as the newer one outside [1 s, 10 s) and different text inside
  that range.
- **Telemetry values** (module `Types`). This covers the pyro-channel
  configurations with their delay and summary, the channel states with
  their labels, the computer status, the no-argument constructor and
  `replaceChannelConfig`. `replaceChannelConfig` is a method that copies
  the channel list into an array, overwrites one entry and builds the new
  status. Its contract states the whole result.
- **The repository** (class `Repository.ComputerRepository`). It holds the
  list of ground stations. `UpdateComputer` rebuilds that list with nested
  loops, as the source does. It is proved equal to a specification
  function, and lemmas prove that function keeps the shape and replaces
  exactly the matching computers.
- **The station/computer picker** (module `PageContainer`). This covers
  the two menus, what each entry reports to the selection callback, and
  the two button labels. The lemmas prove that a choice made through the
  picker refers to entries that exist.

Floating-point fields are kept as IEEE-754 bit patterns (`Float32`,
`Float64`) and are only copied. A `TimeMark` is an opaque clock reading.
The clock (`TimeSource.Monotonic.markNow()`) and the formatting of a
`Float` become parameters.

The picker has no fallback for the selected station. If no station has
the selected id, the `!!` dereferences at PageContainer.kt:142 and 147
throw, so the computer menu and the computer label require the selected
station to exist. The only fallback in the code is at PageContainer.kt:130:
choosing a station reports that station's first computer, or none.

A behaviour the proofs show: the picker shows the first station whose id
is the selected one. If two stations share an id, the picker can report a
computer that the station on screen does not hold. The witness is the
list `[GroundStation(7, []), GroundStation(7, [c])]`: choosing its second
entry reports `c`, while the station shown for id 7 is the first one,
which has no computers (`PageContainer.SharedStationIdShadowsChoice`). So
the picker's guarantees are stated for stations whose id is not shared
with an earlier station.

## Model

| member | source | states |
|---|---|---|
| `Utils.Layout` | app/src/main/java/com/github/osuasdt/groundstation/utils.kt:8-14 | the thresholds are compared in increasing order, so exactly one format applies to every duration, with an if-and-only-if for each branch's range; `s.mmm` has 1..9 seconds and millis below 1000 recombining to the milliseconds; `s` has 10..59 whole seconds; `m:ss` has minutes 1..59 and seconds below 60; `h:mm:ss` has hours of at least 1 and unbounded, minutes and seconds below 60; minutes and seconds recombine to the whole seconds |
| `Utils.Render` | app/src/main/java/com/github/osuasdt/groundstation/utils.kt:9-13 | the unit suffix tells the formats apart: the text ends in " ms" exactly for the milliseconds format and in " s" exactly for the two seconds formats, so the clock formats end in neither |
| `Utils.HumanReadableString` | app/src/main/java/com/github/osuasdt/groundstation/utils.kt:8-14 | the text ends in " ms" exactly for durations under a second and in " s" exactly for durations of at least a second and under a minute; from a minute on it is a clock reading |
| `Utils.ParseRender` | app/src/main/java/com/github/osuasdt/groundstation/utils.kt:9-13 | every layout printed with the five format strings reads back as itself, so distinct layouts give distinct text |
| `Utils.DisplayedFieldsRecombine` | app/src/main/java/com/github/osuasdt/groundstation/utils.kt:9-13 | the displayed text reads back as exactly the layout chosen for the duration, and the numbers read back from the displayed text recombine to the input: ms = milliseconds, secs*1000+millis = milliseconds, and s, m*60+s and h*3600+m*60+s = whole seconds |
| `Utils.PaddedFieldWidths` | app/src/main/java/com/github/osuasdt/groundstation/utils.kt:10-13 | `%03d` prints the milliseconds as exactly three digits between "." and " s"; `%02d` prints the seconds of `m:ss`, and the minutes and seconds of `h:mm:ss`, as exactly two digits after a colon, and those digits denote the field |
| `Utils.UnpaddedBranches` | app/src/main/java/com/github/osuasdt/groundstation/utils.kt:9-11 | under 1 s the text is the millisecond count followed by " ms"; in [10 s, 1 min) it is the whole seconds followed by " s" |
| `Decimal.NatToDecimalRoundTrip` | app/src/main/java/com/github/osuasdt/groundstation/utils.kt:9-13 | the decimal text of a number (`"$n"`, `%d`) reads back as that number |
| `Decimal.ZeroPaddedValue` | app/src/main/java/com/github/osuasdt/groundstation/utils.kt:10-13 | zero padding (`%03d`, `%02d`) keeps the value |
| `Decimal.ZeroPaddedWidth` | app/src/main/java/com/github/osuasdt/groundstation/utils.kt:10-13 | a field below 10^N is printed by `%0Nd` as exactly N characters |
| `Decimal.NatToDecimalLength` | app/src/main/java/com/github/osuasdt/groundstation/utils.kt:10-13 | a number below 10^N has at most N digits |
| `Decimal.LeadingZerosValue` | app/src/main/java/com/github/osuasdt/groundstation/utils.kt:10-13 | leading zeros do not change the value of a string of digits |
| `Decimal.IntToDecimal` | app/src/main/java/com/github/osuasdt/groundstation/PageContainer.kt:122 | the text of a `Long` is digits denoting the number, with a leading minus sign before the digits of the magnitude for a negative number |
| `Types.ChannelConfig.Delay` | app/src/main/java/com/github/osuasdt/groundstation/Types.kt:10-25 | a disabled channel has delay 0.0f; apogee and descent deployments carry the delay they were built with |
| `Types.ChannelConfig.Summary` | app/src/main/java/com/github/osuasdt/groundstation/Types.kt:15-28 | a disabled channel reads "Disabled", an apogee deployment "Drogue", and a descent deployment "At ", then the printed altitude, then " m" |
| `Types.SummaryIdentifiesKind` | app/src/main/java/com/github/osuasdt/groundstation/Types.kt:15-28 | the summary is "Disabled" exactly for a disabled channel, "Drogue" exactly for an apogee deployment whatever its delay, and starts "At " exactly for a descent deployment |
| `Types.ChannelState.Text` | app/src/main/java/com/github/osuasdt/groundstation/Types.kt:44-49 | OK→"Ready", NO_CONTINUITY→"Fault", DISABLED→"Disabled" and FIRED→"Fired": every label is one of the four, and it reads back as the state that shows it |
| `Types.StateOfText` | app/src/main/java/com/github/osuasdt/groundstation/Types.kt:44-49 | exactly the four labels Ready, Fault, Disabled and Fired stand for a state |
| `Types.TextInjective` | app/src/main/java/com/github/osuasdt/groundstation/Types.kt:44-49 | distinct states show distinct labels |
| `Types.EmptyStatus` | app/src/main/java/com/github/osuasdt/groundstation/Types.kt:69 | the no-argument constructor gives uuid 0, an empty name, no channels, state PAD, zero numbers and the current clock reading |
| `Types.ReplaceChannelConfig` | app/src/main/java/com/github/osuasdt/groundstation/Types.kt:71-79 | the channel list keeps its length; the channel at `idx` keeps its number and state and gets the new configuration; every other channel is unchanged; every non-channel field is copied unchanged; `idx` must be a valid index |
| `Repository.ComputerRepository.constructor` | app/src/main/java/com/github/osuasdt/groundstation/ComputerRepository.kt:16-17 | the initial data is one ground station with id 0 and no computers |
| `Repository.ComputerRepository.Last` | app/src/main/java/com/github/osuasdt/groundstation/ComputerRepository.kt:20-22 | returns the stored list and changes nothing |
| `Repository.ComputerRepository.UpdateComputer` | app/src/main/java/com/github/osuasdt/groundstation/ComputerRepository.kt:59-74 | the nested loops store exactly `UpdatedStations` of the previous data |
| `Repository.UpdatedComputersAt` | app/src/main/java/com/github/osuasdt/groundstation/ComputerRepository.kt:63-70 | within a station, the number and order of computers are kept; each computer whose uuid matches becomes `block(c)`, and every other computer is kept as it was |
| `Repository.UpdatedStationsAt` | app/src/main/java/com/github/osuasdt/groundstation/ComputerRepository.kt:61-73 | the number, order and ids of the stations are kept, and every station's computers are updated, so all matches in all stations are replaced |
| `Repository.NoMatchLeavesDataUnchanged` | app/src/main/java/com/github/osuasdt/groundstation/ComputerRepository.kt:59-74 | if no computer has the uuid, the data after the update equals the data before it |
| `Repository.UuidPreservingUpdateKeepsUuids` | app/src/main/java/com/github/osuasdt/groundstation/ComputerRepository.kt:64-68 | when `block` keeps uuids, every computer keeps its uuid at its position, so later updates and selections still find it |
| `PageContainer.FirstIndex` | app/src/main/java/com/github/osuasdt/groundstation/PageContainer.kt:122 | `find`/`firstOrNull` returns the first element that satisfies the predicate, or nothing if none does |
| `PageContainer.FindStation` | app/src/main/java/com/github/osuasdt/groundstation/PageContainer.kt:122 | a station is found exactly when some station has the id; the one found has that id and is the first station in the list with it |
| `PageContainer.StationItem` | app/src/main/java/com/github/osuasdt/groundstation/PageContainer.kt:129-130 | choosing a station shows "Groundstation <id>" and reports its id with its first computer's uuid, or none if it has no computers |
| `PageContainer.StationMenu` | app/src/main/java/com/github/osuasdt/groundstation/PageContainer.kt:127-133 | the station menu offers exactly the available stations, in order |
| `PageContainer.ComputerItems` | app/src/main/java/com/github/osuasdt/groundstation/PageContainer.kt:147-151 | one entry per computer, in order, showing its name and reporting the given station with its uuid |
| `PageContainer.ComputerMenu` | app/src/main/java/com/github/osuasdt/groundstation/PageContainer.kt:147-151 | the computer menu offers exactly the computers of the selected station, in order; choosing one keeps the selected station and reports that computer's uuid; the selected station must exist |
| `PageContainer.StationLabel` | app/src/main/java/com/github/osuasdt/groundstation/PageContainer.kt:122 | the label shows the selected id when some station has it, and "null" otherwise |
| `PageContainer.ComputerLabel` | app/src/main/java/com/github/osuasdt/groundstation/PageContainer.kt:142 | the label is the name of the first computer of the selected station whose uuid is the selected one, or "None" if there is none; the selected station must exist |
| `PageContainer.FindFirstStation` | app/src/main/java/com/github/osuasdt/groundstation/PageContainer.kt:122 | a station that no earlier station shares an id with is the one `find` returns for its id |
| `PageContainer.StationChoiceReferencesExisting` | app/src/main/java/com/github/osuasdt/groundstation/PageContainer.kt:127-130 | choosing a station whose id no earlier station has gives a selection whose station exists and whose computer is none or one of the computers shown for it |
| `PageContainer.StationMenuReferencesExisting` | app/src/main/java/com/github/osuasdt/groundstation/PageContainer.kt:127-130 | with unique station ids, every entry of the station menu refers to existing entries |
| `PageContainer.SharedStationIdShadowsChoice` | app/src/main/java/com/github/osuasdt/groundstation/PageContainer.kt:122-130 | with two stations sharing an id the picker can report a computer that the station shown for that id does not hold; the witness is `[GroundStation(7, []), GroundStation(7, [c])]`, whose second entry reports `c` |
| `PageContainer.ComputerChoiceReferencesExisting` | app/src/main/java/com/github/osuasdt/groundstation/PageContainer.kt:147-149 | choosing a computer keeps the selected station and refers to existing entries |
| `PageContainer.StationLabelAfterChoice` | app/src/main/java/com/github/osuasdt/groundstation/PageContainer.kt:122-130 | after a station is chosen, the station label shows that station's id |
| `PageContainer.ComputerLabelAfterChoice` | app/src/main/java/com/github/osuasdt/groundstation/PageContainer.kt:142-149 | after a computer whose uuid is unique in its station is chosen, the computer label shows that computer's name |
| `MainActivity.LegacyLayout` | app/src/main/java/com/github/osuasdt/groundstation/MainActivity.kt:185-190 | exactly one of four formats applies: " ms" under 1 s, whole seconds in [1 s, 1 min), `m:ss` and `h:mm:ss` above that, with no `s.mmm` format; the fields have the same bounds and recombination as in utils.kt |
| `MainActivity.LegacyHumanReadableString` | app/src/main/java/com/github/osuasdt/groundstation/MainActivity.kt:185-190 | the older formatter's text ends in " ms" exactly under a second and in " s" exactly from a second to under a minute; from a minute on it is a clock reading |
| `MainActivity.AgreeOutsideOneToTenSeconds` | app/src/main/java/com/github/osuasdt/groundstation/MainActivity.kt:185-190 | outside [1 s, 10 s) the older formatter prints the same text as the utils.kt one |
| `MainActivity.DifferInsideOneToTenSeconds` | app/src/main/java/com/github/osuasdt/groundstation/MainActivity.kt:186-187 | inside [1 s, 10 s) the older formatter prints "<whole seconds> s", which always differs from the utils.kt text |
| `MainActivity.LegacyDisplayedFieldsRecombine` | app/src/main/java/com/github/osuasdt/groundstation/MainActivity.kt:188-189 | the older formatter's text reads back to its fields, and in `h:mm:ss` they recombine to the whole seconds |
| `MainActivity.FixtureComputer` | app/src/main/java/com/github/osuasdt/groundstation/MainActivity.kt:75-88 | the fixture status "procket" has four channels numbered 1–4 with states OK, NO_CONTINUITY, DISABLED and FIRED in that order, and is in state PAD with 8 satellites |
| `MainActivity.FixtureStateTexts` | app/src/main/java/com/github/osuasdt/groundstation/MainActivity.kt:79-82 | the fixture's channels show the labels Ready, Fault, Disabled and Fired |

## Left out

- The composable layout and theming are left out because they have no statable behaviour. This covers `MainView`, `StatusInfo`, `DeploymentInfo`, `SingleChannelInfo`, the `PageContainer` scaffold and drawer, and the `leftExpanded`/`rightExpanded` menu flags.
- The `init` coroutine of ComputerRepository.kt (lines 24-56) is left out. It is an endless timer loop that republishes canned data every 10 s, so it is concurrency and timing.
- The `MutableStateFlow`/`asStateFlow` observation mechanism is left out. The stored list is a plain field.
- `LastSeenIndicator` is left out. It is animation fractions of a `Float` and a polling loop.
- Float and Double formatting is left out: `%.5f`, `%.1f` and the `toInt()` of Doubles. The altitude text in `DescentDeploy.summary()` is the `formatFloat` parameter of `Types.ChannelConfig.Summary`.
- `ChannelState.color()` and `ChannelConfig.color()` are left out because they are theme colour lookups.
- `String.format` uses the default locale; the model prints ASCII digits. In a locale with other digits `%d`, `%02d` and `%03d` print different characters.
- The clock is left out: `TimeMark` and `TimeSource.Monotonic.markNow()` become an opaque value and a parameter.
- Dependency-injection wiring and the application classes are left out. This covers GroundstationApplication.kt and MainActivity.kt lines 58-67 and 91-102.
- Durations are non-negative whole milliseconds. Negative durations, `Duration.INFINITE` and sub-millisecond precision are not modelled; the app only formats the absolute value of an elapsed time.
- `uuid` and station ids are Kotlin `Long`s and are modelled as unbounded integers. They are compared, copied, and printed as decimal text (PageContainer.kt:122 and 129). No arithmetic is done on them, so their width does not change any result.
- `Repository.ComputerRepository.UpdateComputer`: `block` is a pure total function. Side effects or exceptions of the Kotlin lambda are not modelled.
- `Types.ReplaceChannelConfig`: an index outside the channel list is a precondition, because the source throws on it rather than returning an error.
- `PageContainer.ComputerMenu`, `PageContainer.ComputerLabel`: a selected station that no station has is a precondition, because the source's `!!` throws on it.
- `MainActivity.FixtureComputer`: the fixture calls a status constructor without a uuid, which the current `ComputerStatus` does not have; the model gives it uuid 0, the value of the no-argument constructor.
