/**
 * `run_awareness_system`: replay a labelled table row by row through the
 * trained model and print a warning for every row whose prediction is an
 * alert. The model is an opaque prediction function; console lines are
 * modelled as structured outputs.
 */
module AwarenessSystem {
  import opened Wrappers
  import opened DataSimulator

  const NoAlert: string := "No alert"
  const AlertWarning: string := "!!! ALERT: Large object detected very close!"
  const BeepWarning: string := "Beep! Object detected in blind spot."

  /** The trained classifier: features (distance, size) to a predicted label. */
  type Predictor = (real, real) -> string

  /** What the batch replay prints, one value per printed message. */
  datatype Output =
    | ModelNotFound
    | DataNotFound
    | Started
    | Detection(distance: real, size: real, alert: string, prediction: string)
    | Finished

  /** Warning text for a predicted label; string comparison is exact, so case matters. */
  function AlertMessage(prediction: string): (message: string)
    ensures message == AlertWarning <==> prediction == AlertLabel
    ensures message == BeepWarning <==> prediction == BeepLabel
    ensures message == NoAlert <==> prediction != AlertLabel && prediction != BeepLabel
  {
    if prediction == AlertLabel then AlertWarning
    else if prediction == BeepLabel then BeepWarning
    else NoAlert
  }

  /** The three messages are pairwise different, so the message determines the case. */
  lemma MessagesDiffer()
    ensures AlertWarning != NoAlert && BeepWarning != NoAlert && AlertWarning != BeepWarning
  {
    assert AlertWarning[0] != NoAlert[0];
    assert BeepWarning[0] != NoAlert[0];
    assert AlertWarning[0] != BeepWarning[0];
  }

  lemma AlertMessageCaseSensitive()
    ensures AlertMessage("alert") == NoAlert
    ensures AlertMessage("BEEP") == NoAlert
    ensures AlertMessage("none") == NoAlert
  {
  }

  /** The lines one row prints: a detection when its message is not "No alert", else nothing. */
  function RowOutput(row: Sample, predict: Predictor): seq<Output> {
    var prediction := predict(row.distance, row.size);
    if prediction == AlertLabel || prediction == BeepLabel
    then [Detection(row.distance, row.size, AlertMessage(prediction), prediction)]
    else []
  }

  /** Detections printed for a table, in row order. */
  function Detections(rows: seq<Sample>, predict: Predictor): seq<Output> {
    if rows == [] then []
    else Detections(rows[..|rows| - 1], predict) + RowOutput(rows[|rows| - 1], predict)
  }

  /** Everything the command prints, from the artifacts it finds. */
  function Transcript(predict: Option<Predictor>, data: Option<seq<Sample>>): seq<Output> {
    match predict
    case None => [ModelNotFound]
    case Some(p) =>
      match data
      case None => [DataNotFound]
      case Some(rows) => [Started] + Detections(rows, p) + [Finished]
  }

  /**
   * A row prints exactly when its message is not "No alert", which is exactly
   * when its prediction is one of the two alert labels; never more than one line.
   */
  lemma RowOutputIff(row: Sample, predict: Predictor)
    ensures RowOutput(row, predict) != [] <==> AlertMessage(predict(row.distance, row.size)) != NoAlert
    ensures RowOutput(row, predict) != [] <==>
              predict(row.distance, row.size) in {AlertLabel, BeepLabel}
    ensures |RowOutput(row, predict)| <= 1
  {
  }

  /** The (distance, size) pairs of a table, in row order: what the model is asked about. */
  function Features(rows: seq<Sample>): seq<(real, real)> {
    if rows == [] then []
    else Features(rows[..|rows| - 1]) + [(rows[|rows| - 1].distance, rows[|rows| - 1].size)]
  }

  lemma FeaturesSnoc(rows: seq<Sample>, i: nat)
    requires i < |rows|
    ensures Features(rows[..i + 1]) == Features(rows[..i]) + [(rows[i].distance, rows[i].size)]
  {
    assert rows[..i + 1][..i] == rows[..i];
  }

  /** One pair per row, each the features of that row. */
  lemma {:induction false} FeaturesAt(rows: seq<Sample>)
    ensures |Features(rows)| == |rows|
    ensures forall k | 0 <= k < |rows| :: Features(rows)[k] == (rows[k].distance, rows[k].size)
    decreases |rows|
  {
    if rows != [] {
      var init := rows[..|rows| - 1];
      FeaturesAt(init);
      assert forall k | 0 <= k < |init| :: rows[k] == init[k];
    }
  }

  /** The detections of the first i + 1 rows extend those of the first i by row i's output. */
  lemma DetectionsSnoc(rows: seq<Sample>, i: nat, predict: Predictor)
    requires i < |rows|
    ensures Detections(rows[..i + 1], predict) == Detections(rows[..i], predict) + RowOutput(rows[i], predict)
  {
    assert rows[..i + 1][..i] == rows[..i];
    assert rows[..i + 1][i] == rows[i];
  }

  /** The detections of a concatenation are the detections of each part, in order. */
  lemma {:induction false} DetectionsAppend(a: seq<Sample>, b: seq<Sample>, predict: Predictor)
    ensures Detections(a + b, predict) == Detections(a, predict) + Detections(b, predict)
    decreases |b|
  {
    if b == [] {
      assert a + b == a;
    } else {
      var b' := b[..|b| - 1];
      var last := b[|b| - 1];
      assert (a + b)[..|a + b| - 1] == a + b';
      assert (a + b)[|a + b| - 1] == last;
      assert Detections(a + b, predict) == Detections(a + b', predict) + RowOutput(last, predict);
      DetectionsAppend(a, b', predict);
    }
  }

  /** Never more printed detections than rows. */
  lemma {:induction false} DetectionsBound(rows: seq<Sample>, predict: Predictor)
    ensures |Detections(rows, predict)| <= |rows|
    decreases |rows|
  {
    if rows != [] {
      DetectionsBound(rows[..|rows| - 1], predict);
      RowOutputIff(rows[|rows| - 1], predict);
    }
  }

  /**
   * Every printed detection comes from some row, carries that row's features
   * and the model's prediction on them, and is a warning rather than "No alert".
   */
  lemma {:induction false} DetectionsSound(rows: seq<Sample>, predict: Predictor)
    ensures forall o | o in Detections(rows, predict) ::
              o.Detection? && o.alert != NoAlert &&
              o.prediction == predict(o.distance, o.size) &&
              o.alert == AlertMessage(o.prediction) &&
              exists i | 0 <= i < |rows| :: rows[i].distance == o.distance && rows[i].size == o.size
    decreases |rows|
  {
    if rows != [] {
      var init := rows[..|rows| - 1];
      DetectionsSound(init, predict);
      forall o | o in Detections(rows, predict)
        ensures exists i | 0 <= i < |rows| :: rows[i].distance == o.distance && rows[i].size == o.size
      {
        if o in Detections(init, predict) {
          var i :| 0 <= i < |init| && init[i].distance == o.distance && init[i].size == o.size;
          assert rows[i] == init[i];
        } else {
          assert rows[|rows| - 1].distance == o.distance;
        }
      }
    }
  }

  /** With a model that reproduces the rule, a row is reported exactly when its rule label is not 'none'. */
  lemma RuleModelRowReported(row: Sample)
    ensures RowOutput(row, Label) != [] <==> Label(row.distance, row.size) != NoneLabel
  {
    LabelIsOneOf(row.distance, row.size);
  }

  /** A replay prints no detection exactly when no row prints one. */
  lemma {:induction false} DetectionsEmptyIff(rows: seq<Sample>, predict: Predictor)
    ensures Detections(rows, predict) == [] <==>
              forall i | 0 <= i < |rows| :: RowOutput(rows[i], predict) == []
    decreases |rows|
  {
    if rows != [] {
      var init, last := rows[..|rows| - 1], rows[|rows| - 1];
      DetectionsEmptyIff(init, predict);
      assert forall i | 0 <= i < |init| :: init[i] == rows[i];
    }
  }

  /**
   * With a model that reproduces the rule, a replay prints no detection at all
   * exactly when every row of the table is labelled 'none'.
   */
  lemma DetectionsOfRuleModel(rows: seq<Sample>)
    ensures Detections(rows, Label) == [] <==>
              forall i | 0 <= i < |rows| :: Label(rows[i].distance, rows[i].size) == NoneLabel
  {
    DetectionsEmptyIff(rows, Label);
    forall i | 0 <= i < |rows|
      ensures RowOutput(rows[i], Label) == [] <==> Label(rows[i].distance, rows[i].size) == NoneLabel
    {
      RuleModelRowReported(rows[i]);
    }
  }

  /** "Simulation finished." is printed once, last, and only when both artifacts were found. */
  lemma FinishedOnlyAtEnd(predict: Option<Predictor>, data: Option<seq<Sample>>)
    ensures var t := Transcript(predict, data);
      (Finished in t <==> predict.Some? && data.Some?) &&
      (Finished in t ==> t[|t| - 1] == Finished && forall k | 0 <= k < |t| - 1 :: t[k] != Finished)
  {
    if predict.Some? && data.Some? {
      var d := Detections(data.value, predict.value);
      var t := [Started] + d + [Finished];
      assert t == Transcript(predict, data);
      DetectionsSound(data.value, predict.value);
      forall k | 0 <= k < |t| - 1
        ensures t[k] != Finished
      {
        if k > 0 {
          assert t[k] == d[k - 1] && d[k - 1] in d;
        }
      }
    }
  }

  /**
   * One pass of the row loop: ask the model about the row's features, pick the
   * message for its prediction, and print it unless it is "No alert". `query`
   * records the features the body passes to the model; that the model's answer
   * is the one on exactly these features is what `printed` pins down.
   */
  method ReportRow(row: Sample, model: Predictor) returns (printed: seq<Output>, query: (real, real))
    ensures printed == RowOutput(row, model)
    ensures query == (row.distance, row.size)
  {
    var distance, size := row.distance, row.size;
    var prediction := model(distance, size);
    query := (distance, size);
    var alert := NoAlert;
    if prediction == AlertLabel {
      alert := AlertWarning;
    } else if prediction == BeepLabel {
      alert := BeepWarning;
    }
    MessagesDiffer();
    printed := [];
    if alert != NoAlert {
      printed := [Detection(distance, size, alert, prediction)];
    }
  }

  /**
   * `run_awareness_system`. `predict` is None when the model file is missing and
   * `data` is None when the data file is missing; the data is consulted only after
   * the model loaded. `queries` is a trace the body keeps of the feature pairs it
   * passes to the model; `DetectionsSound` is what ties each printed prediction
   * to the features of its row.
   */
  method RunAwarenessSystem(predict: Option<Predictor>, data: Option<seq<Sample>>)
      returns (out: seq<Output>, queries: seq<(real, real)>)
    ensures out == Transcript(predict, data)
    ensures predict.None? || data.None? ==> queries == []
    ensures predict.Some? && data.Some? ==>
              |queries| == |data.value| &&
              forall i | 0 <= i < |queries| :: queries[i] == (data.value[i].distance, data.value[i].size)
  {
    queries := [];
    if predict.None? {
      out := [ModelNotFound];
      return;
    }
    var model := predict.value;
    if data.None? {
      out := [DataNotFound];
      return;
    }
    var rows := data.value;
    out := [Started];
    for i := 0 to |rows|
      invariant out == [Started] + Detections(rows[..i], model)
      invariant queries == Features(rows[..i])
    {
      var printed, query := ReportRow(rows[i], model);
      queries := queries + [query];
      FeaturesSnoc(rows, i);
      DetectionsSnoc(rows, i, model);
      assert [Started] + Detections(rows[..i], model) + printed == [Started] + Detections(rows[..i + 1], model);
      out := out + printed;
    }
    assert rows[..|rows|] == rows;
    FeaturesAt(rows);
    out := out + [Finished];
  }
}
