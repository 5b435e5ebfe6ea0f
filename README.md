# Sensor fallback events: a Dafny model

The sensor simulator has two scripts.

- `simulate_data.py` generates 72 hours of greenhouse readings at 5-minute
  intervals: temperature, soil moisture, CO2 and light. It injects a heat-stress
  window and a dry-out window, switches the lights off for the first 60 samples
  of every 288-sample day, and adds a `fallback_active` column. The column is set
  where the row is both hot (> 35 °C) and dry (< 40 %).
- `log_to_sqlite.py` reads those rows back and classifies each one into an
  ordered list of fallback reasons: `high_temp`, `low_moisture`,
  `moisture_dropout`, `co2_noise`. For every row with at least one reason it
  appends an event to the `fallback_events` table, holding:
  - the time formatted as `%Y-%m-%d %H:%M:%S`;
  - the reasons joined by `", "`;
  - the flag 1;
  - a CRC-32 of the text `"{ts}:{reasons}:1"`, written as eight lower-case hex digits.

The model has one module per concern:

- `Readings`: a reading is a number or missing. Python's comparisons against NaN are false.
- `Classifier`: the four rules, their fixed order and the appending method.
- `Calendar`: date-times and the `%Y-%m-%d %H:%M:%S` format, with its parser.
- `Numerals`: zero-padded digit strings and their parsing.
- `Utf8`: `str.encode()`.
- `Crc32`: bitwise CRC-32 as defined in section 8 of RFC 1952.
- `ReasonsText`: the `", "` join and its split.
- `EventLog`:
  - the event a row produces;
  - the outcome of the whole loop, as a function;
  - the table as a class whose methods append;
  - the insert loop, proved against that function.
- `Simulation`:
  - the sample count, the timestamps, the anomaly windows and the light phase;
  - the signal formulas, with the sine and the normal draws as parameters;
  - the dataset loop and the `fallback_active` column.
- `Pipeline`: how the simulator's flag relates to the logger's reasons.

The model follows the code wherever the code and the system's written design disagree:

- The logger commits once, after the loop (`log_to_sqlite.py:52`). A row that
  aborts the run therefore leaves no new events at all, although the design says
  each insert is atomic and earlier inserts remain. `EventLog.RunLogger` states
  the code's behaviour.
- A flagged row whose timestamp is missing (NaT) makes `strftime` raise, so it
  aborts the run. The design says such rows are skipped and reported.
- The anomaly windows are fixed index ranges (`500 < i < 600`, `1000 < i < 1100`).
  They do not scale with the sample count, as the design says they should.
  With the default 864 samples the dry-out window is never reached.
- The sample-count formula (`simulate_data.py:10`) fails only on a zero interval
  (division by zero). Negative or non-dividing values still produce a count.
  A count of zero or less gives an empty data set.
- The design's worked example is a heat-window sample at 46.2 °C. The code's
  formula gives that only on an extreme draw. The heat window sits at the trough
  of the sine, so the temperature there is at most 30.5 °C plus half a standard
  normal draw. 46.2 °C needs a draw of at least 31.4, and even 35 °C needs more
  than 9. `Simulation.HeatWindowBelowThreshold` states this.

## Model

| member | source | states |
|---|---|---|
| Readings.MissingComparesFalse | sensor_simulations/log_to_sqlite.py:13-16 | a missing reading is neither above nor below any limit, and `pd.isna` holds for it |
| Classifier.GetFallbackReason | sensor_simulations/log_to_sqlite.py:11-17 | the four conditional appends produce exactly `Reasons` of the sample: the rule order filtered to the rules that fire |
| Classifier.FiredMembers | sensor_simulations/log_to_sqlite.py:12-17 | a reason is in the filtered list iff it is one of the rules and it fires |
| Classifier.FiredOrdered | sensor_simulations/log_to_sqlite.py:12-17 | filtering a strictly rank-ordered rule list keeps it strictly ordered |
| Classifier.ReasonsUnfold | sensor_simulations/log_to_sqlite.py:13-16 | the reason list is the four rule contributions concatenated in source order |
| Classifier.ReasonsShape | sensor_simulations/log_to_sqlite.py:12-17 | at most 4 reasons, in rule order, no duplicates, and a reason is present iff its rule fires |
| Classifier.HighTempExactly | sensor_simulations/log_to_sqlite.py:13 | `high_temp` is present iff temp is a number > 35; 35 itself is excluded |
| Classifier.Co2NoiseExactly | sensor_simulations/log_to_sqlite.py:16 | `co2_noise` is present iff co2 is a number > 800; 800 itself is excluded |
| Classifier.MoistureRules | sensor_simulations/log_to_sqlite.py:14-15 | missing moisture gives `moisture_dropout` and never `low_moisture`; present moisture never gives `moisture_dropout`, and gives `low_moisture` iff < 40 |
| Classifier.FiredAgrees | sensor_simulations/log_to_sqlite.py:12-17 | two samples on which every rule agrees get the same list |
| Classifier.LightIgnored | sensor_simulations/log_to_sqlite.py:11-17 | changing `light` never changes the result |
| Classifier.HotAndDry | sensor_simulations/log_to_sqlite.py:13-16 | a hot, dry sample with missing light gives `[high_temp, low_moisture]` |
| Classifier.DropoutOnly | sensor_simulations/log_to_sqlite.py:13-16 | missing temp and moisture with co2 exactly 800 give only `moisture_dropout` |
| Classifier.CodesDistinct | sensor_simulations/log_to_sqlite.py:13-16 | the four reason codes are pairwise distinct |
| Numerals.DigitRoundTrip | sensor_simulations/log_to_sqlite.py:44 | every digit below 16 prints as one character that reads back as that digit |
| Numerals.DigitValueRoundTrip | sensor_simulations/log_to_sqlite.py:44 | a character that reads as a digit is the one that digit prints as |
| Numerals.DigitsAreDigits | sensor_simulations/log_to_sqlite.py:38-44 | a zero-padded numeral consists only of digits of its base |
| Numerals.ParseDigitsAccepts | sensor_simulations/log_to_sqlite.py:38-44 | a string parses as a numeral iff every character is a digit of the base |
| Numerals.ParseSnoc | sensor_simulations/log_to_sqlite.py:44 | appending one digit multiplies the value by the base and adds the digit |
| Numerals.ParseDigitsRoundTrip | sensor_simulations/log_to_sqlite.py:38-44 | a width-`w` numeral of `v` reads back as `v mod base^w` |
| Numerals.DigitsInjective | sensor_simulations/log_to_sqlite.py:38-44 | a value that fits in the width reads back exactly |
| Numerals.NatText | sensor_simulations/log_to_sqlite.py:43 | the decimal text of a natural number has no leading zero and reads back as that number |
| Numerals.IntText | sensor_simulations/log_to_sqlite.py:43 | the decimal text of an integer starts with `-` iff it is negative, and reads back when it is not |
| Utf8.EncodeChar | sensor_simulations/log_to_sqlite.py:44 | one to four bytes, with the length fixed by the code point's range; ASCII is one byte equal to its code, and every other sequence is a lead byte followed by continuation bytes |
| Utf8.EncodeCharDecodes | sensor_simulations/log_to_sqlite.py:44 | decoding the bytes of a character gives its code point back |
| Utf8.EncodeAppend | sensor_simulations/log_to_sqlite.py:44 | encoding a concatenation concatenates the encodings |
| Utf8.EncodeAscii | sensor_simulations/log_to_sqlite.py:44 | an ASCII string encodes as one byte per character, equal to its code |
| Crc32.BitStepBranches | sensor_simulations/log_to_sqlite.py:44 | the branch-free shift equals the branching step of RFC 1952's table construction |
| Crc32.UpdateAppend | sensor_simulations/log_to_sqlite.py:44 | the register over `a + b` is the register over `a` continued over `b` |
| Crc32.CrcContinues | sensor_simulations/log_to_sqlite.py:44 | `crc32(b, crc32(a)) == crc32(a + b)` |
| Crc32.CrcEmpty | sensor_simulations/log_to_sqlite.py:44 | the CRC of no bytes is 0 |
| Crc32.CheckValue | sensor_simulations/log_to_sqlite.py:44 | the CRC of the ASCII text "123456789" is 0xCBF43926 |
| Calendar.DaysInMonth | sensor_simulations/log_to_sqlite.py:8 | every month has 28 to 31 days |
| Calendar.Format | sensor_simulations/log_to_sqlite.py:38 | `%Y-%m-%d %H:%M:%S` is 19 characters with `-` at 4 and 7, a space at 10 and `:` at 13 and 16 |
| Calendar.FormatLayout | sensor_simulations/log_to_sqlite.py:38 | every other position of the formatted time is a decimal digit, and every character is ASCII |
| Calendar.Parse | sensor_simulations/log_to_sqlite.py:38 | a string that parses has the layout of the format, and the parsed time has no sub-second part |
| Calendar.ParseFormat | sensor_simulations/log_to_sqlite.py:38 | parsing the formatted time gives the time truncated to the second |
| Calendar.FormatDropsOnlySubseconds | sensor_simulations/log_to_sqlite.py:38 | two times format alike iff they agree to the second |
| ReasonsText.SplitFromPlain | sensor_simulations/log_to_sqlite.py:39 | a comma-free stretch is copied into the current part by the splitter |
| ReasonsText.SplitFromJoin | sensor_simulations/log_to_sqlite.py:39 | splitting a join of comma-free parts yields those parts |
| ReasonsText.SplitJoin | sensor_simulations/log_to_sqlite.py:39 | splitting the `", "`-join of a non-empty list of comma-free parts gives the list back |
| ReasonsText.SplitJoinEmpty | sensor_simulations/log_to_sqlite.py:39 | the join of no parts splits into one empty part, not into no parts |
| ReasonsText.Codes | sensor_simulations/log_to_sqlite.py:39 | one code per reason: code `k` is the code of reason `k` |
| ReasonsText.DecodeReason | sensor_simulations/log_to_sqlite.py:13-16 | a string decodes only to the reason whose code it is |
| ReasonsText.CodeDecodes | sensor_simulations/log_to_sqlite.py:13-16 | every reason's code decodes to that reason |
| ReasonsText.DecodeCodes | sensor_simulations/log_to_sqlite.py:13-16 | the codes of a list decode to the list |
| ReasonsText.ReasonsRoundTrip | sensor_simulations/log_to_sqlite.py:39 | the stored reasons text of a non-empty list splits and decodes back to the list |
| ReasonsText.ReasonsAscii | sensor_simulations/log_to_sqlite.py:39 | the stored reasons text is ASCII |
| EventLog.Checksum | sensor_simulations/log_to_sqlite.py:44 | the CRC-32 of the UTF-8 bytes of a string, a value below 2^32 |
| EventLog.Hex8ReadsBack | sensor_simulations/log_to_sqlite.py:44 | `format(v, '08x')` is eight hex digits that read back as `v` |
| EventLog.EventIntact | sensor_simulations/log_to_sqlite.py:38-44 | a built event has flag 1, and its checksum recomputes from its own fields |
| EventLog.EventFieldsReadBack | sensor_simulations/log_to_sqlite.py:38-39 | a built event's reasons decode to its list, and its timestamp parses to its time truncated to the second |
| EventLog.CanonicalText | sensor_simulations/log_to_sqlite.py:40-43 | the canonical text is `ts + ":" + reasons + ":1"` |
| EventLog.EventCrcReadsBack | sensor_simulations/log_to_sqlite.py:43-44 | the stored crc is eight hex digits whose value is the CRC-32 of the event's canonical text |
| EventLog.CanonicalAscii | sensor_simulations/log_to_sqlite.py:43 | the canonical text of ASCII fields is ASCII |
| EventLog.CanonicalBytes | sensor_simulations/log_to_sqlite.py:43-44 | the checksummed bytes are one byte per character of the canonical text, equal to its code |
| EventLog.MapAt | sensor_simulations/log_to_sqlite.py:44 | element `k` of a mapped sequence is the function applied to element `k`; the checksum reads `s.encode()` byte by byte through it |
| EventLog.MapAppend | sensor_simulations/log_to_sqlite.py:44 | mapping over `xs + ys` maps `xs`, then `ys` |
| EventLog.EventsAppend | sensor_simulations/log_to_sqlite.py:35-49 | the events of `xs + ys` are the events of `xs` followed by those of `ys` |
| EventLog.LogOutcomePrefix | sensor_simulations/log_to_sqlite.py:35-49 | the loop over one more row is one more step of the loop |
| EventLog.FlaggedRows | sensor_simulations/log_to_sqlite.py:37 | only rows with a non-empty reason list are kept |
| EventLog.LogOutcomeOk | sensor_simulations/log_to_sqlite.py:35-49 | the loop completes iff every flagged row has a time |
| EventLog.LogOutcomeEntries | sensor_simulations/log_to_sqlite.py:35-49 | on completion, exactly one entry per flagged row, in row order, and none for the other rows |
| EventLog.LogOutcomeError | sensor_simulations/log_to_sqlite.py:37-38 | on failure, the index is that of the first flagged row without a time |
| EventLog.AllEventsIntact | sensor_simulations/log_to_sqlite.py:38-49 | every event the loop produces has flag 1 and an intact checksum, and its reasons split and decode back to its own entry's list |
| EventLog.LogOutcomeAppend | sensor_simulations/log_to_sqlite.py:35-49 | the loop over `a + b` is the loop over `a` followed by the loop over `b`, with the error index shifted |
| EventLog.ErrorStops | sensor_simulations/log_to_sqlite.py:38 | once a row has aborted the loop, later rows change nothing |
| EventLog.EventStore.Connect | sensor_simulations/log_to_sqlite.py:20-32 | connecting keeps every row already in the table and starts with nothing pending |
| EventLog.EventStore.Insert | sensor_simulations/log_to_sqlite.py:46-49 | an insert appends exactly one event and leaves earlier events untouched |
| EventLog.EventStore.Commit | sensor_simulations/log_to_sqlite.py:52 | a commit makes the pending events permanent, in order |
| EventLog.EventStore.Close | sensor_simulations/log_to_sqlite.py:53 | closing discards whatever was not committed |
| EventLog.InsertEntry | sensor_simulations/log_to_sqlite.py:38-49 | inserting an entry appends its event to the pending rows |
| EventLog.InsertFallbackEvents | sensor_simulations/log_to_sqlite.py:35-49 | the loop appends exactly the events of the loop's outcome, in row order, and touches no committed row; on an abort it reports the failing row, and the pending rows are the old ones plus the events of every row before it |
| EventLog.RunLogger | sensor_simulations/log_to_sqlite.py:35-53 | a completed run commits the old rows followed by the new events; an aborted run leaves the table as it was |
| Simulation.TruncDiv | sensor_simulations/simulate_data.py:10 | for a non-negative `a` and a positive `b`, `int(a / b)` is the largest `q` with `q*b <= a` |
| Simulation.TruncDivTowardZero | sensor_simulations/simulate_data.py:10 | `int(a / b)` rounds toward zero: the remainder has the sign of `a` and is smaller than `b` in magnitude |
| Simulation.TruncDivNegative | sensor_simulations/simulate_data.py:10 | `int(-7 / 2)` and `int(7 / -2)` are -3, not the floor -4 |
| Simulation.NumSamples | sensor_simulations/simulate_data.py:5-10 | there is no count exactly when the interval is zero |
| Simulation.DefaultSampleCount | sensor_simulations/simulate_data.py:5-10 | 72 hours at 5 minutes give 864 samples |
| Simulation.SampleCountBounds | sensor_simulations/simulate_data.py:10 | the count is the floor of the minutes divided by the interval |
| Simulation.Timestamps | sensor_simulations/simulate_data.py:16-17 | one timestamp per sample |
| Simulation.TimestampsStart | sensor_simulations/simulate_data.py:16-17 | a run with at least one sample starts at the start time |
| Simulation.TimestampsSpacing | sensor_simulations/simulate_data.py:16-17 | the first timestamp is the start, and consecutive ones are one interval apart |
| Simulation.TimestampsIncrease | sensor_simulations/simulate_data.py:16-17 | with a positive interval the timestamps strictly increase |
| Simulation.CyclePosition | sensor_simulations/simulate_data.py:59 | the position in the day lies in `0..287` |
| Simulation.HeatStressIndices | sensor_simulations/simulate_data.py:32 | the heat-stress branch is taken exactly for indices 501..599 |
| Simulation.DryOutUnreached | sensor_simulations/simulate_data.py:49-64 | with the default 864 samples no index reaches the dry-out branch |
| Simulation.LightPeriodic | sensor_simulations/simulate_data.py:59-61 | the light phase repeats every 288 samples |
| Simulation.DarkHours | sensor_simulations/simulate_data.py:59-60 | lights are off exactly when `i % 288 < 60` |
| Simulation.HotOnlyInWindow | sensor_simulations/simulate_data.py:29-36 | outside the heat window, a temperature above 35 needs a normal draw above 35 |
| Simulation.HeatWindowBelowThreshold | sensor_simulations/simulate_data.py:29-33 | given a sine at most -0.5 on [10, 12], inside the heat window the temperature is at most 30.5 plus half the draw, so above 35 needs a draw above 9 and 46.2 a draw of at least 31.4 |
| Simulation.DryOnlyInWindow | sensor_simulations/simulate_data.py:47-51 | outside the dry-out window, moisture below 40 needs a draw below -20 |
| Simulation.Co2NoiseNeedsOutlier | sensor_simulations/simulate_data.py:54-55 | CO2 above 800 needs a draw above 76 |
| Simulation.LightZeroExactlyWhenOff | sensor_simulations/simulate_data.py:58-62 | light is 0 exactly in the off phase |
| Simulation.BuildDataset | sensor_simulations/simulate_data.py:76-85 | one row per index, in order, each the row at its index and carrying `timestamps[i]` |
| Simulation.CheckFallbackStrict | sensor_simulations/simulate_data.py:95-96 | temperature exactly 35 or moisture exactly 40 never sets the flag |
| Simulation.Frame.AddFallbackColumn | sensor_simulations/simulate_data.py:99-102 | adds one flag per row, equal to `check_fallback` of that row, and leaves the rows unchanged |
| Simulation.Simulate | sensor_simulations/simulate_data.py:10-102 | no frame exactly when the interval is zero; otherwise a new frame with one row per index, each the row at that index, and one `check_fallback` flag per row |
| Pipeline.SampleOfRow | sensor_simulations/log_to_sqlite.py:36 | a simulated row reaches the classifier with every value present |
| Pipeline.FlagExactlyHotAndDry | sensor_simulations/simulate_data.py:95-96 | the simulator's flag is set iff the logger reports both `high_temp` and `low_moisture` for the row |
| Pipeline.LoggedWithoutFlag | sensor_simulations/log_to_sqlite.py:36-37 | a hot but moist row is logged although its flag is false, because the logger never reads the flag |
| Pipeline.NoDropoutFromSimulator | sensor_simulations/log_to_sqlite.py:15 | simulated rows never give `moisture_dropout` |
| Pipeline.ScenarioReasons | sensor_simulations/log_to_sqlite.py:13-16 | a 46.2 °C, 35 % row gives `[high_temp, low_moisture]` and sets the flag |
| Pipeline.ScenarioReasonsText | sensor_simulations/log_to_sqlite.py:39 | that list is stored as `"high_temp, low_moisture"` |
| Pipeline.ScenarioCanonical | sensor_simulations/log_to_sqlite.py:43 | its canonical text is the time followed by `":high_temp, low_moisture:1"` |
| Pipeline.HotDryScenario | sensor_simulations/log_to_sqlite.py:38-44 | the event for that list at any time stores the formatted time, the joined text, flag 1 and the hex CRC of the canonical text |
| Readings.Above | sensor_simulations/log_to_sqlite.py:13-16 | `>` on a reading: false on a missing value (`MissingComparesFalse`) |
| Readings.Below | sensor_simulations/log_to_sqlite.py:14 | `<` on a reading: false on a missing value (`MissingComparesFalse`) |
| Readings.IsNa | sensor_simulations/log_to_sqlite.py:15 | `pd.isna` holds exactly for a missing value (`MissingComparesFalse`) |
| Classifier.Fires | sensor_simulations/log_to_sqlite.py:13-16 | the condition of each of the four rules; `HighTempExactly`, `MoistureRules` and `Co2NoiseExactly` state each one |
| Classifier.Reasons | sensor_simulations/log_to_sqlite.py:11-17 | the rule order filtered to the rules that fire; `ReasonsShape` states its length, order, uniqueness and membership |
| Utf8.Encode | sensor_simulations/log_to_sqlite.py:44 | `str.encode()` gives at least one byte per character; `EncodeAppend` and `EncodeAscii` state the rest |
| Crc32.Crc | sensor_simulations/log_to_sqlite.py:44 | `zlib.crc32`; `CheckValue`, `CrcContinues` and `CrcEmpty` state its promises |
| ReasonsText.Join | sensor_simulations/log_to_sqlite.py:39 | `", ".join`; `SplitJoin` states its inverse |
| ReasonsText.ReasonsString | sensor_simulations/log_to_sqlite.py:39 | the stored reasons text; `ReasonsRoundTrip` and `ReasonsAscii` state its promises |
| EventLog.Canonical | sensor_simulations/log_to_sqlite.py:43 | the checksummed text; `CanonicalText` and `CanonicalAscii` state its form |
| EventLog.Hex8 | sensor_simulations/log_to_sqlite.py:44 | `format(v, '08x')`, eight characters; `Hex8ReadsBack` states its inverse |
| EventLog.MakeEvent | sensor_simulations/log_to_sqlite.py:38-44 | the row inserted for a flagged row; `EventIntact`, `EventFieldsReadBack` and `EventCrcReadsBack` state its promises |
| EventLog.Step | sensor_simulations/log_to_sqlite.py:36-49 | one pass of the loop body: skip an unflagged row, abort on a missing time, else add the entry; `LogOutcomePrefix` ties it to the loop |
| EventLog.LogOutcome | sensor_simulations/log_to_sqlite.py:35-49 | the result of the whole loop; `LogOutcomeOk`, `LogOutcomeEntries`, `LogOutcomeError` and `LogOutcomeAppend` state it |
| Simulation.InHeatStress | sensor_simulations/simulate_data.py:32 | the heat-stress test; `HeatStressIndices` states its indices |
| Simulation.InDryOut | sensor_simulations/simulate_data.py:49 | the dry-out test; `DryOutUnreached` states that the default run never reaches it |
| Simulation.LightsOff | sensor_simulations/simulate_data.py:59-60 | the off phase; `DarkHours` and `LightPeriodic` state it |
| Simulation.Temperature | sensor_simulations/simulate_data.py:27-36 | the temperature formula; `HotOnlyInWindow` and `HeatWindowBelowThreshold` bound it |
| Simulation.Moisture | sensor_simulations/simulate_data.py:47-51 | the moisture formula; `DryOnlyInWindow` bounds it |
| Simulation.Co2 | sensor_simulations/simulate_data.py:54-55 | the CO2 formula; `Co2NoiseNeedsOutlier` bounds it |
| Simulation.Light | sensor_simulations/simulate_data.py:58-62 | the light formula; `LightZeroExactlyWhenOff` states its zeros |
| Simulation.RowAt | sensor_simulations/simulate_data.py:78-84 | the record for index `i`; `BuildDataset` states that the loop yields it |
| Simulation.CheckFallback | sensor_simulations/simulate_data.py:95-96 | `check_fallback`; `CheckFallbackStrict` and `Pipeline.FlagExactlyHotAndDry` state it |

## Left out

- `np.sin`, the normal draws and `round(x, n)` are left out. The sine is a
  parameter, assumed to lie in [-1, 1]. Each `np.random.normal(0, s)` is `s`
  times a standard draw taken from one stream (all temperatures, then all
  moistures, then all CO2 values). Rounding to 2, 1 and 0 decimals is not
  modelled, and real arithmetic stands in for floating point.
- Simulation.HeatWindowBelowThreshold: assumes the sine is at most -0.5 on
  [10, 12], the arguments `i / 50` that the heat window covers. This holds of the
  real sine, which has its minimum at 3.5π ≈ 11.0, but it is not derived from a
  definition of the sine.
- `datetime.now()` is a parameter. Instants are integer microseconds. Turning an
  instant into calendar fields (the CSV write and `pd.to_datetime` read) is
  outside the model, and the logger receives calendar fields directly.
- The CSV file, the pandas DataFrame and `df.apply` are represented by sequences of rows.
- SQLite is represented by committed and pending sequences. The storage engine is not modelled.
- The `id` column and its AUTOINCREMENT numbering are not modelled.
- Failures of connect, execute or commit are not modelled.
- `CREATE TABLE IF NOT EXISTS` is modelled only as keeping the existing rows.
- The `print` diagnostics have no counterpart.
- Simulation.Frame.AddFallbackColumn: on a frame with no rows the model gives an
  empty column. pandas' `apply(..., axis=1)` on an empty frame returns a frame
  rather than a series, and the assignment at `simulate_data.py:99` may then fail.
  That behaviour of pandas is not part of this model.
- Simulation.NumSamples: computes `int((hours * 60) / interval_minutes)` as exact
  integer division truncating toward zero. The floating-point division agrees
  whenever the operands are below 2^53 in magnitude. Larger operands are not modelled.
- Calendar.Format: years are restricted to 1000..9999, so `%Y` is always four digits.
  pandas timestamps lie within 1677..2262.
- Crc32.Crc: is the bitwise definition. zlib's table-driven and word-at-a-time
  implementations are not modelled; they compute the same function.
- Only the CRC as an accidental-corruption check is modelled. It makes no
  claim against deliberate tampering.
