# Haptic awareness alert pipeline, modelled in Dafny

The haptic awareness system warns about objects in a vehicle's blind spot.
Each observation is a distance and an object size, in metres. This project
models its logic:

- **Dataset generation** (`generate_data`). Each (distance, size) pair gets the
  label `ALERT`, `beep` or `none` from a strict threshold rule:
  - `ALERT` when d < 2 and s > 1.5;
  - otherwise `beep` when d < 5 and s > 0.5;
  - otherwise `none`.
- **Batch replay** (`run_awareness_system`). A labelled table is replayed row
  by row through the trained classifier. The run prints a warning for every
  row predicted `ALERT` or `beep`. It returns early when the model file or
  the data file is missing.
- **Live loop** (`predict_from_sensor`). The loop:
  1. reads a distance in centimetres from the serial link;
  2. asks the operator for the object size;
  3. predicts an alert level;
  4. appends one record to the results log. The log's header row is written
     only when the log file does not exist yet.

  Blank lines are skipped. Lines that are not numbers produce a diagnostic,
  and the loop then goes on.
- **Serial reader** (`read_sensor`). It strips each line and splits it on
  commas. A line with exactly two fields is read as (distance, speed). A
  field that is not a number prints an error, and the loop goes on.

The two copies of the program are modelled by the same members. One copy is
under `python/`, the other under `haptic_awareness_system/`. Their
`data_simulator.py` and `main.py` files differ only in file paths and in the
wording of their messages.

The trained classifier is an opaque function `Predictor = (real, real) -> string`.
The following are inputs:
- the serial lines;
- the operator's answers;
- the timestamps;
- whether the model file, the data file and the serial port could be opened.

Console messages and log lines are structured values rather than text.
Python's `str.strip`, `str.split` and `float` are modelled in module `Text`,
each with its own properties.

Files:
- `wrappers.dfy`: `Option`.
- `text.dfy`: strip, split/join, and number parsing.
- `data_simulator.dfy`: the labelling rule and `generate_data`.
- `awareness_system.dfy`: `run_awareness_system`.
- `result_log.dfy`: the results log and `log_results`.
- `sensor_monitor.dfy`: the live loop.
- `read_sensor.dfy`: the serial reader.

## Model

| member | source | states |
|---|---|---|
| DataSimulator.LabelIsOneOf | python/data_simulator.py:16-21 | every label is exactly one of `ALERT`, `beep`, `none` |
| DataSimulator.LabelAlertIff | python/data_simulator.py:16-17 | the label is `ALERT` if and only if d < 2 and s > 1.5 |
| DataSimulator.LabelBeepIff | haptic_awareness_system/data_simulator.py:16-19 | the label is `beep` if and only if the ALERT condition fails and d < 5 and s > 0.5 |
| DataSimulator.LabelNoneIff | python/data_simulator.py:18-21 | the label is `none` if and only if d < 5 and s > 0.5 does not hold |
| DataSimulator.LabelStrictBoundaries | python/data_simulator.py:16-19 | comparisons are strict: d = 2 or s = 1.5 is never `ALERT`, d = 5 or s = 0.5 is `none`, and (2.0, 1.6) is `beep` |
| DataSimulator.LabelSeverityMonotone | python/data_simulator.py:16-21 | moving closer or growing larger never lowers the severity in the order none < beep < ALERT |
| DataSimulator.LabelExamples | python/data_simulator.py:16-21 | (1.0, 2.0) is `ALERT`, (3.0, 1.0) is `beep`, (8.0, 0.2) is `none` |
| DataSimulator.GenerateData | python/data_simulator.py:14-28 | one row per input pair, in order; the distance and size columns are the inputs unchanged; row i carries the rule's label for (distance[i], size[i]) |
| DataSimulator.GeneratedLabelsValid | haptic_awareness_system/data_simulator.py:14-28 | every row of a generated table carries one of the three labels |
| AwarenessSystem.AlertMessage | python/main.py:47-51 | `ALERT` maps to the ALERT warning and `beep` to the beep warning, each if and only if; every other prediction maps to "No alert" |
| AwarenessSystem.AlertMessageCaseSensitive | python/main.py:48-50 | `alert`, `BEEP` and `none` all map to "No alert" |
| AwarenessSystem.MessagesDiffer | python/main.py:47-51 | the ALERT warning, the beep warning and "No alert" are three different texts |
| AwarenessSystem.RowOutputIff | python/main.py:53-54 | a row prints a line if and only if its message is not "No alert", which holds if and only if its prediction is `ALERT` or `beep`; never more than one line |
| AwarenessSystem.ReportRow | python/main.py:38-54 | one pass of the row loop prints exactly the row's output: the warning for the model's prediction on the row's (distance, size), unless the message is "No alert"; `query` is a trace the body keeps of the pair it passes to the model |
| AwarenessSystem.DetectionsAppend | python/main.py:37-54 | detections of consecutive parts of the table are printed in table order |
| AwarenessSystem.DetectionsBound | haptic_awareness_system/main.py:28-45 | never more printed detections than rows |
| AwarenessSystem.DetectionsSound | python/main.py:37-54 | every printed detection is a warning, holds the features of some row and the model's prediction on exactly those features, and the message that prediction maps to |
| AwarenessSystem.DetectionsEmptyIff | python/main.py:37-54 | a replay prints no detection if and only if no row prints one |
| AwarenessSystem.RuleModelRowReported | haptic_awareness_system/main.py:36-45 | when the model reproduces the labelling rule, a row is reported if and only if its rule label is not `none` |
| AwarenessSystem.DetectionsOfRuleModel | python/main.py:37-54 | when the model reproduces the labelling rule, a replay prints no detection if and only if every row of the table is labelled `none` |
| AwarenessSystem.FinishedOnlyAtEnd | python/main.py:37-60 | "Simulation finished." is printed only when both files were found, and then exactly once, as the last message |
| AwarenessSystem.FeaturesAt | python/main.py:37-45 | the feature pairs of a table are one per row, each that row's (distance, size) |
| AwarenessSystem.RunAwarenessSystem | python/main.py:20-60 | prints the transcript: a missing model or missing data returns early with only the error; otherwise Started, the detections of the rows in order (each carrying the prediction on its own row's features, by `DetectionsSound`), then Finished. The `queries` output is a trace the body keeps of the pairs it passes to the model, one per row in order |
| ResultLogging.Rows | python/predict_from_sensor.py:51-54 | the record rows of a list of records, one per record, in order |
| ResultLogging.AppendRecordSpec | python/predict_from_sensor.py:45-54 | one append keeps every earlier line, ends with the new record, and adds a header naming the five record fields if and only if the file did not exist |
| ResultLogging.AppendAllFromMissing | python/predict_from_sensor.py:48-54 | appends into a missing file give exactly one header, at the front, naming the record fields in column order, then the records in order |
| ResultLogging.AppendAllExisting | python/predict_from_sensor.py:48-54 | appends to an existing file add only record rows, in order |
| ResultLogging.ResultLog.Missing | python/predict_from_sensor.py:48 | a log file that does not exist has no lines |
| ResultLogging.ResultLog.Existing | python/predict_from_sensor.py:48 | a log file that exists keeps its content |
| ResultLogging.ResultLog.LogResults | python/predict_from_sensor.py:45-54 | after the call the file exists, and its lines are the old lines, then a header if it did not exist, then the record |
| SensorMonitor.Outcomes | python/predict_from_sensor.py:72-120 | one outcome per tick |
| SensorMonitor.OutcomesAt | python/predict_from_sensor.py:72-120 | outcome i depends on tick i alone |
| SensorMonitor.TickIdleIff | python/predict_from_sensor.py:74-76 | a tick does nothing if and only if its line is empty or whitespace only |
| SensorMonitor.TickLoggedIff | python/predict_from_sensor.py:79-85 | a tick logs a record if and only if the stripped line and the size answer are both numbers |
| SensorMonitor.TickRecordFields | python/predict_from_sensor.py:88-110 | a logged record holds the timestamp, the distance divided by 100, the size, the prediction on those two values, and its message, whatever the alert level |
| SensorMonitor.TickCentimetres | python/predict_from_sensor.py:79-80 | the line "150" with a numeric size is logged with distance 1.5 m |
| SensorMonitor.TickSkipsUnicodeSpace | python/predict_from_sensor.py:74-76 | a line of only separator (U+001C, U+001F) and no-break whitespace with a line break strips to nothing and is skipped |
| SensorMonitor.TickRejectsText | python/predict_from_sensor.py:79-114 | the line "abc" gives the invalid-data diagnostic and no record |
| SensorMonitor.RecordsAppend | python/predict_from_sensor.py:72-120 | records of consecutive runs of ticks are logged in order |
| SensorMonitor.SkippedTickTransparent | python/predict_from_sensor.py:112-120 | a tick that logs nothing does not change what the following ticks log |
| SensorMonitor.RecordsBound | python/predict_from_sensor.py:72-110 | at most one record per tick |
| SensorMonitor.PredictFromSensor | python/predict_from_sensor.py:56-120 | if the port or the model failed, nothing happens and the log is untouched; otherwise every tick is processed in order and the log becomes the old log with one append per logged record, header only if the file was missing |
| ReadSensor.TwoFieldsIffOneComma | python/read_sensor.py:25-33 | a non-empty line is looked at if and only if its stripped text contains exactly one comma |
| ReadSensor.ReadingFields | python/read_sensor.py:27-35 | a reading is field 0 as distance and field 1 as speed, and the stripped line is exactly those fields joined by the comma |
| ReadSensor.ReadingFromFields | python/read_sensor.py:27-35 | conversely, two comma-free numbers around one comma are read as distance, then speed |
| ReadSensor.BadFieldIsError | python/read_sensor.py:33-35 | a two-field line whose fields are not both numbers is an error, not a reading |
| ReadSensor.SeparatorFieldIsError | python/read_sensor.py:30-45 | "12,\x1f5" is an error: its second field starts with a separator `float()` does not skip |
| ReadSensor.TrailingCommaIsError | python/read_sensor.py:30-35 | "12," has an empty second field and is an error |
| ReadSensor.ConsoleSound | python/read_sensor.py:19-45 | only readings and errors are printed, at most one per line |
| ReadSensor.ConsoleAppend | python/read_sensor.py:19-45 | what consecutive runs of lines print is what each run prints, in order |
| ReadSensor.ConsoleOfLine | python/read_sensor.py:22-37 | a single line prints its reading or its error, and nothing if it is empty or not two fields |
| ReadSensor.ErrorThenContinue | python/read_sensor.py:34-45 | a line with a non-numeric field prints its error, and the lines after it print exactly what they would print without it |
| ReadSensor.ErrorThenReading | python/read_sensor.py:34-45 | an error line followed by a good two-field line prints the error, then the reading |
| ReadSensor.ReadSensorLoop | python/read_sensor.py:19-45 | prints exactly the console of the lines read: each line's reading or error, in line order |
| Text.StripSpec | python/read_sensor.py:27 | the stripped line is a middle part of the line with only whitespace cut from either end; it is empty if and only if the line is all whitespace, and otherwise starts and ends with a non-space character |
| Text.StripIdempotent | python/predict_from_sensor.py:74 | stripping twice is stripping once |
| Text.Split | python/read_sensor.py:30 | one more field than there are separators, and no field contains the separator |
| Text.JoinSplit | python/read_sensor.py:30 | joining the fields with the separator gives back the line |
| Text.SplitJoin | python/read_sensor.py:30 | splitting separator-free fields joined by the separator gives back the fields |
| Text.FloatStripSpec | python/predict_from_sensor.py:79 | what `float()` reads is a middle part of the string with only the whitespace it skips (not the separators U+001C to U+001F) cut from either end; it is empty if and only if the string is all such whitespace, and otherwise starts and ends with a character `float()` does not skip |
| Text.ParseFloatSpec | python/predict_from_sensor.py:79 | a string of only the whitespace `float()` skips is not a number; otherwise an accepted string, without that whitespace, has at least one digit, at most one point, and nothing but digits, the point and a leading sign |
| Text.ParseFloatKeepsSeparators | python/predict_from_sensor.py:85 | "\x1c5" is not a number although its `strip()`ped form "5" is |
| Text.ParseFloatShowNat | python/predict_from_sensor.py:79 | the decimal text of a natural number reads back as that number |
| Text.ParseFloat150 | python/predict_from_sensor.py:79 | "150" reads as 150 |
| Text.ParseFloatRejects | python/predict_from_sensor.py:85 | "abc" and the empty string are not numbers |

## Left out

- The numpy generator (`np.random.seed(42)`, the `uniform` draws). `GenerateData` takes the distances and sizes as inputs.
- DataSimulator.GenerateData: requires both inputs to have `numSamples` values, as the two draws always do. The truncation `zip` would apply to unequal inputs is not modelled.
- `train_model.py`, both copies. It is made only of scikit-learn and joblib calls. The trained model is the opaque `Predictor`.
- `joblib.load`, `pd.read_csv` and `to_csv`. The CSV text format is not modelled: the table is a sequence of `Sample`, and the log is a sequence of header and record lines. Loading a model or a data file becomes an `Option` that is `None` when the file is missing.
- The `:.2f` formatting of distance and size in the log. Log records hold the exact values.
- `print` and `input` text. Console output is a sequence of structured values. The operator's size answer is part of each tick: it is the answer the operator would type if prompted, and it is ignored when no prompt happens. `prediction.upper()` in the console line is not modelled.
- Serial I/O: opening the port, baud rates, timeouts, `readline`, UTF-8 decoding and `close`. Lines arrive already decoded. A decoding failure is not modelled. In `read_sensor.py` it would print an error and the loop would go on. In `predict_from_sensor.py` the `decode` call at line 74 is outside the inner `try`, so a bad byte would end the live loop, with only the `finally` block closing the port.
- `read_sensor.py` failing to open its port and exiting. The loop starts from an open port.
- `time.sleep` and `time.strftime`. The timestamp is an opaque string on each tick.
- `KeyboardInterrupt` and the `finally` block that closes the port. The loops run over the finite sequence of lines read before the interrupt.
- `os.path` resolution of the model, data and log paths, and the `__main__` wiring.
- Text.ParseFloat: accepts only an optional sign, decimal digits and at most one point, after skipping the surrounding whitespace `float()` skips (`Text.IsFloatSpace`). Python's `float` also accepts exponents, `inf`/`nan`, digit-group underscores and non-ASCII digits. Values are exact reals, with no IEEE rounding.
- Prediction failures. `Predictor` is a total function, so the model never fails. The scikit-learn classifier raises `ValueError` on features it cannot convert, such as a distance beyond the float32 range (a line of "1" followed by 41 zeros). In python/predict_from_sensor.py:91 that error is caught at lines 112-114 and the tick prints the invalid-data diagnostic without logging; the model logs a record instead. In python/main.py:45 it is not caught and ends the run before "Simulation finished."; the model prints the rest of the transcript.
