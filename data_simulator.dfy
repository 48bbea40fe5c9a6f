/**
 * The labelling rule and the labelled synthetic dataset (`generate_data`).
 * Distances and sizes come from numpy's seeded uniform generator in the
 * Python program; here they are the method's inputs.
 */
module DataSimulator {

  const AlertLabel: string := "ALERT"
  const BeepLabel: string := "beep"
  const NoneLabel: string := "none"

  /**
   * One row of the dataset: the two features and the label the rule gave them,
   * in the table's column order distance, size, alert_level.
   */
  datatype Sample = Sample(distance: real, size: real, alertLevel: string)

  /** The threshold rule, with strict comparisons (distances and sizes in metres). */
  function Label(d: real, s: real): string {
    if d < 2.0 && s > 1.5 then AlertLabel
    else if d < 5.0 && s > 0.5 then BeepLabel
    else NoneLabel
  }

  /** Severity order none < beep < ALERT; any other string ranks with none. */
  function Severity(level: string): nat {
    if level == AlertLabel then 2 else if level == BeepLabel then 1 else 0
  }

  lemma LabelIsOneOf(d: real, s: real)
    ensures Label(d, s) in {AlertLabel, BeepLabel, NoneLabel}
  {
  }

  lemma LabelAlertIff(d: real, s: real)
    ensures Label(d, s) == AlertLabel <==> d < 2.0 && s > 1.5
  {
  }

  lemma LabelBeepIff(d: real, s: real)
    ensures Label(d, s) == BeepLabel <==> !(d < 2.0 && s > 1.5) && d < 5.0 && s > 0.5
  {
  }

  lemma LabelNoneIff(d: real, s: real)
    ensures Label(d, s) == NoneLabel <==> !(d < 5.0 && s > 0.5)
  {
  }

  /** Boundary values fall through to the next weaker rule. */
  lemma LabelStrictBoundaries(s: real, d: real)
    ensures Label(2.0, s) != AlertLabel && Label(d, 1.5) != AlertLabel
    ensures Label(5.0, s) == NoneLabel && Label(d, 0.5) == NoneLabel
    ensures Label(2.0, 1.6) == BeepLabel
  {
  }

  /** Moving closer or growing larger never lowers the severity. */
  lemma LabelSeverityMonotone(d1: real, s1: real, d2: real, s2: real)
    requires d2 <= d1 && s2 >= s1
    ensures Severity(Label(d2, s2)) >= Severity(Label(d1, s1))
  {
  }

  lemma LabelExamples()
    ensures Label(1.0, 2.0) == AlertLabel
    ensures Label(3.0, 1.0) == BeepLabel
    ensures Label(8.0, 0.2) == NoneLabel
  {
  }

  /**
   * `generate_data`: label each (distance, size) pair in order, then put the
   * three columns side by side. Both inputs hold `numSamples` values, as the
   * two uniform draws do.
   */
  method GenerateData(numSamples: nat, distance: seq<real>, size: seq<real>) returns (data: seq<Sample>)
    requires |distance| == numSamples && |size| == numSamples
    ensures |data| == numSamples
    ensures forall i | 0 <= i < numSamples ::
              data[i].distance == distance[i] && data[i].size == size[i]
    ensures forall i | 0 <= i < numSamples ::
              data[i].alertLevel == Label(distance[i], size[i])
  {
    var alertLevel: seq<string> := [];
    for i := 0 to numSamples
      invariant |alertLevel| == i
      invariant forall k | 0 <= k < i :: alertLevel[k] == Label(distance[k], size[k])
    {
      var d, s := distance[i], size[i];
      if d < 2.0 && s > 1.5 {
        alertLevel := alertLevel + [AlertLabel];
      } else if d < 5.0 && s > 0.5 {
        alertLevel := alertLevel + [BeepLabel];
      } else {
        alertLevel := alertLevel + [NoneLabel];
      }
    }
    data := seq(numSamples, i requires 0 <= i < numSamples => Sample(distance[i], size[i], alertLevel[i]));
  }

  /** Every row of a generated table carries exactly one of the three labels. */
  lemma {:induction false} GeneratedLabelsValid(data: seq<Sample>)
    requires forall i | 0 <= i < |data| :: data[i].alertLevel == Label(data[i].distance, data[i].size)
    ensures forall i | 0 <= i < |data| :: data[i].alertLevel in {AlertLabel, BeepLabel, NoneLabel}
  {
    forall i | 0 <= i < |data|
      ensures data[i].alertLevel in {AlertLabel, BeepLabel, NoneLabel}
    {
      LabelIsOneOf(data[i].distance, data[i].size);
    }
  }
}
