/**
 * `predict_from_sensor`: the live loop. Each tick reads one line from the
 * serial link (a distance in centimetres), asks the operator for the object
 * size, predicts, and logs one record. Serial reads, the operator prompt and
 * the clock are inputs: each tick carries the decoded line, the answer the
 * operator would type if prompted, and the timestamp of that moment.
 */
module SensorMonitor {
  import opened Wrappers
  import opened Text
  import opened AwarenessSystem
  import opened ResultLogging

  datatype SensorTick = SensorTick(raw: string, sizeAnswer: string, timestamp: string)

  /** What one tick does: nothing (blank line), a diagnostic (bad number), or one logged record. */
  datatype TickOutcome = Idle | InvalidData(line: string) | Logged(record: LogRecord)

  /** The sensor reports centimetres; the model expects metres. */
  function CentimetresToMetres(cm: real): real {
    cm / 100.0
  }

  /** One pass of the loop body. */
  function Tick(tick: SensorTick, predict: Predictor): TickOutcome {
    var line := Strip(tick.raw);
    if line == [] then Idle
    else
      match ParseFloat(line)
      case None => InvalidData(line)
      case Some(distanceCm) =>
        match ParseFloat(tick.sizeAnswer)
        case None => InvalidData(line)
        case Some(sizeM) =>
          var prediction := predict(CentimetresToMetres(distanceCm), sizeM);
          Logged(LogRecord(tick.timestamp, CentimetresToMetres(distanceCm), sizeM, prediction, AlertMessage(prediction)))
  }

  /** The outcomes of a run of ticks, one per tick, in order. */
  function Outcomes(ticks: seq<SensorTick>, predict: Predictor): (outcomes: seq<TickOutcome>)
    ensures |outcomes| == |ticks|
  {
    if ticks == [] then []
    else Outcomes(ticks[..|ticks| - 1], predict) + [Tick(ticks[|ticks| - 1], predict)]
  }

  lemma OutcomesSnoc(ticks: seq<SensorTick>, predict: Predictor, i: nat)
    requires i < |ticks|
    ensures Outcomes(ticks[..i + 1], predict) == Outcomes(ticks[..i], predict) + [Tick(ticks[i], predict)]
  {
    assert ticks[..i + 1][..i] == ticks[..i];
    assert ticks[..i + 1][i] == ticks[i];
  }

  /** Each tick is processed on its own: outcome i depends on tick i alone. */
  lemma {:induction false} OutcomesAt(ticks: seq<SensorTick>, predict: Predictor, i: nat)
    requires i < |ticks|
    ensures Outcomes(ticks, predict)[i] == Tick(ticks[i], predict)
    decreases |ticks|
  {
    if i < |ticks| - 1 {
      OutcomesAt(ticks[..|ticks| - 1], predict, i);
    }
  }

  /** The records a run of tick outcomes logs, in order. */
  function Records(outcomes: seq<TickOutcome>): seq<LogRecord> {
    if outcomes == [] then []
    else
      var earlier := Records(outcomes[..|outcomes| - 1]);
      match outcomes[|outcomes| - 1]
      case Logged(record) => earlier + [record]
      case _ => earlier
  }

  /** One more outcome adds its record, if it has one, at the end. */
  lemma RecordsSnoc(outcomes: seq<TickOutcome>, outcome: TickOutcome)
    ensures Records(outcomes + [outcome]) ==
            if outcome.Logged? then Records(outcomes) + [outcome.record] else Records(outcomes)
  {
    assert (outcomes + [outcome])[..|outcomes|] == outcomes;
  }

  /** A blank or whitespace-only line is skipped, and only such a line is. */
  lemma TickIdleIff(tick: SensorTick, predict: Predictor)
    ensures Tick(tick, predict) == Idle <==> forall k | 0 <= k < |tick.raw| :: IsSpace(tick.raw[k])
  {
    StripSpec(tick.raw);
  }

  /** A tick logs a record exactly when its line and the size answer are both numbers. */
  lemma TickLoggedIff(tick: SensorTick, predict: Predictor)
    ensures Tick(tick, predict).Logged? <==>
              ParseFloat(Strip(tick.raw)).Some? && ParseFloat(tick.sizeAnswer).Some?
  {
    if Strip(tick.raw) == [] {
      assert ParseFloat([]) == None;
    }
  }

  /**
   * A logged record holds the tick's timestamp, the distance converted to metres,
   * the size, the model's prediction on exactly those two values, and the matching
   * message, whatever the alert level.
   */
  lemma TickRecordFields(tick: SensorTick, predict: Predictor)
    ensures Tick(tick, predict).Logged? ==>
              var r := Tick(tick, predict).record;
              r.timestamp == tick.timestamp &&
              r.distanceM == CentimetresToMetres(ParseFloat(Strip(tick.raw)).value) &&
              r.sizeM == ParseFloat(tick.sizeAnswer).value &&
              r.prediction == predict(r.distanceM, r.sizeM) &&
              r.alertMessage == AlertMessage(r.prediction)
  {
  }

  /** "150" from the sensor is 1.5 metres. */
  lemma TickCentimetres(tick: SensorTick, predict: Predictor)
    requires tick.raw == "150" && ParseFloat(tick.sizeAnswer).Some?
    ensures Tick(tick, predict).Logged? && Tick(tick, predict).record.distanceM == 1.5
  {
    ParseFloat150();
    TickLoggedIff(tick, predict);
    TickRecordFields(tick, predict);
  }

  /** A line of only separator and no-break whitespace strips to nothing and is skipped. */
  lemma TickSkipsUnicodeSpace(tick: SensorTick, predict: Predictor)
    requires tick.raw == "\U{1C}\U{1F}\U{A0}\r\n"
    ensures Tick(tick, predict) == Idle
  {
    TickIdleIff(tick, predict);
  }

  /** "abc" from the sensor is a diagnostic, not a record. */
  lemma TickRejectsText(tick: SensorTick, predict: Predictor)
    requires tick.raw == "abc"
    ensures Tick(tick, predict) == InvalidData("abc")
  {
    ParseFloatRejects();
  }

  /** The records of a concatenation of runs are the records of each run, in order. */
  lemma {:induction false} RecordsAppend(a: seq<TickOutcome>, b: seq<TickOutcome>)
    ensures Records(a + b) == Records(a) + Records(b)
    decreases |b|
  {
    if b == [] {
      assert a + b == a;
    } else {
      var b' := b[..|b| - 1];
      assert (a + b)[..|a + b| - 1] == a + b';
      RecordsAppend(a, b');
    }
  }

  /**
   * A tick that does not log (a blank line or a bad number) does not stop the
   * loop: the ticks after it are processed exactly as if it had not happened.
   */
  lemma SkippedTickTransparent(before: seq<TickOutcome>, skipped: TickOutcome, after: seq<TickOutcome>)
    requires !skipped.Logged?
    ensures Records(before + [skipped] + after) == Records(before) + Records(after)
  {
    RecordsAppend(before + [skipped], after);
    assert (before + [skipped])[..|before|] == before;
  }

  /** At most one record per tick. */
  lemma {:induction false} RecordsBound(outcomes: seq<TickOutcome>)
    ensures |Records(outcomes)| <= |outcomes|
    decreases |outcomes|
  {
    if outcomes != [] {
      RecordsBound(outcomes[..|outcomes| - 1]);
    }
  }

  /**
   * `predict_from_sensor`. `portOpened` and `modelLoaded` say whether the serial
   * port and the model initialised; if either failed the loop is never entered.
   * The loop runs over `ticks`, the ticks before the user interrupts it.
   */
  method PredictFromSensor(portOpened: bool, modelLoaded: bool, predict: Predictor,
                           ticks: seq<SensorTick>, log: ResultLog)
      returns (outcomes: seq<TickOutcome>)
    requires log.Valid()
    modifies log
    ensures log.Valid()
    ensures !(portOpened && modelLoaded) ==>
              outcomes == [] && log.lines == old(log.lines) && log.fileExists == old(log.fileExists)
    ensures portOpened && modelLoaded ==>
              outcomes == Outcomes(ticks, predict) &&
              log.lines == AppendAll(old(log.fileExists), old(log.lines), Records(outcomes)) &&
              log.fileExists == (old(log.fileExists) || Records(outcomes) != [])
  {
    outcomes := [];
    if !portOpened || !modelLoaded {
      return;
    }
    ghost var existed, initial := log.fileExists, log.lines;
    for i := 0 to |ticks|
      invariant log.Valid()
      invariant outcomes == Outcomes(ticks[..i], predict)
      invariant log.lines == AppendAll(existed, initial, Records(outcomes))
      invariant log.fileExists == (existed || Records(outcomes) != [])
    {
      var outcome := Tick(ticks[i], predict);
      RecordsSnoc(outcomes, outcome);
      if outcome.Logged? {
        AppendAllSnoc(existed, initial, Records(outcomes), outcome.record);
        log.LogResults(outcome.record);
      }
      OutcomesSnoc(ticks, predict, i);
      outcomes := outcomes + [outcome];
    }
    assert ticks[..|ticks|] == ticks;
  }
}
