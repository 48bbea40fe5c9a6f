/**
 * `read_sensor.py`: the main loop reads a line, strips it, splits it on ','
 * and, when there are exactly two fields, reads them as distance and speed.
 * A field that is not a number prints an error and the loop goes on.
 * Lines are given as the text each `readline()` returned ("" on a timeout).
 */
module ReadSensor {
  import opened Wrappers
  import opened Text

  /** What one pass of the loop does with the line it read. */
  datatype LineOutcome =
    | NoData                              // the read timed out: nothing happens
    | Ignored                             // not exactly two fields: silently skipped
    | Reading(distance: real, speed: real) // printed as a reading
    | ParseError(field: string)           // the first field float() refused; printed as an error

  /** The body of the loop for one line. */
  function ParseSensorLine(raw: string): LineOutcome {
    if raw == [] then NoData
    else
      var parts := Split(Strip(raw), ',');
      if |parts| != 2 then Ignored
      else
        match ParseFloat(parts[0])
        case None => ParseError(parts[0])
        case Some(distance) =>
          match ParseFloat(parts[1])
          case None => ParseError(parts[1])
          case Some(speed) => Reading(distance, speed)
  }

  /** A line is looked at only if its stripped text has exactly one comma. */
  lemma TwoFieldsIffOneComma(raw: string)
    requires raw != []
    ensures ParseSensorLine(raw) != Ignored <==> Occurrences(Strip(raw), ',') == 1
  {
  }

  /**
   * A reading is the number before the comma and the number after it, in that
   * order; the stripped line is exactly those two fields joined by the comma.
   */
  lemma ReadingFields(raw: string)
    requires ParseSensorLine(raw).Reading?
    ensures var parts := Split(Strip(raw), ',');
      |parts| == 2 && Strip(raw) == parts[0] + [','] + parts[1] &&
      ParseFloat(parts[0]) == Some(ParseSensorLine(raw).distance) &&
      ParseFloat(parts[1]) == Some(ParseSensorLine(raw).speed)
  {
    var parts := Split(Strip(raw), ',');
    JoinSplit(Strip(raw), ',');
    assert Join(parts, ',') == parts[0] + [','] + Join(parts[1..], ',');
  }

  /** Conversely, two comma-free numbers joined by a comma are read as distance then speed. */
  lemma ReadingFromFields(raw: string, first: string, second: string, distance: real, speed: real)
    requires raw != [] && Strip(raw) == first + [','] + second
    requires ',' !in first && ',' !in second
    requires ParseFloat(first) == Some(distance) && ParseFloat(second) == Some(speed)
    ensures ParseSensorLine(raw) == Reading(distance, speed)
  {
    SplitJoin([first, second], ',');
    assert Join([first, second], ',') == first + [','] + second;
  }

  /** Two fields, but the first that is not a number is reported and nothing is read. */
  lemma BadFieldIsError(raw: string)
    requires raw != [] && |Split(Strip(raw), ',')| == 2
    requires ParseFloat(Split(Strip(raw), ',')[0]).None? || ParseFloat(Split(Strip(raw), ',')[1]).None?
    ensures ParseSensorLine(raw).ParseError?
  {
  }

  /** "12," has an empty second field, which is an error. */
  lemma TrailingCommaIsError(raw: string)
    requires raw == "12,"
    ensures ParseSensorLine(raw) == ParseError("")
  {
    assert TrimStart(raw, false) == raw;
    assert Strip(raw) == raw;
    assert Split(raw, ',') == ["12", ""] by {
      SplitJoin(["12", ""], ',');
      assert Join(["12", ""], ',') == raw;
    }
    ParseFloatRejects();
  }

  /** A field that starts with the separator U+001F is not a number, so the line is an error. */
  lemma SeparatorFieldIsError(raw: string)
    requires raw == "12,\U{1F}5"
    ensures ParseSensorLine(raw) == ParseError("\U{1F}5")
  {
    assert TrimStart(raw, false) == raw;
    assert Strip(raw) == raw;
    assert Split(raw, ',') == ["12", "\U{1F}5"] by {
      SplitJoin(["12", "\U{1F}5"], ',');
      assert Join(["12", "\U{1F}5"], ',') == raw;
    }
    ParseFloatShowNat(12);
    assert ShowNat(12) == "12";
    var field := "\U{1F}5";
    assert TrimStart(field, true) == field;
    assert TrimEnd(field, true) == field;
    assert ParseUnsigned(field) == None;
  }

  /** Whether the loop prints something for this outcome. */
  predicate Printed(outcome: LineOutcome) {
    outcome.Reading? || outcome.ParseError?
  }

  /** What the loop prints for a run of lines, in order. */
  function Console(lines: seq<string>): seq<LineOutcome> {
    if lines == [] then []
    else
      var last := ParseSensorLine(lines[|lines| - 1]);
      Console(lines[..|lines| - 1]) + (if Printed(last) then [last] else [])
  }

  /** Only readings and errors reach the console, never more of them than there are lines. */
  lemma {:induction false} ConsoleSound(lines: seq<string>)
    ensures |Console(lines)| <= |lines|
    ensures forall k | 0 <= k < |Console(lines)| :: Printed(Console(lines)[k])
    decreases |lines|
  {
    if lines != [] {
      ConsoleSound(lines[..|lines| - 1]);
    }
  }

  /** The console of consecutive runs of lines is the console of each run, in order. */
  lemma {:induction false} ConsoleAppend(a: seq<string>, b: seq<string>)
    ensures Console(a + b) == Console(a) + Console(b)
    decreases |b|
  {
    if b == [] {
      assert a + b == a;
    } else {
      var b' := b[..|b| - 1];
      assert (a + b)[..|a + b| - 1] == a + b';
      ConsoleAppend(a, b');
    }
  }

  /** Each line on its own prints its reading or its error, and nothing otherwise. */
  lemma ConsoleOfLine(line: string)
    ensures Console([line]) == (if Printed(ParseSensorLine(line)) then [ParseSensorLine(line)] else [])
  {
    assert [line][..0] == [];
  }

  /**
   * A line whose field is not a number prints its error and the loop goes on:
   * the lines after it print exactly what they would have printed anyway.
   */
  lemma ErrorThenContinue(before: seq<string>, bad: string, after: seq<string>)
    requires ParseSensorLine(bad).ParseError?
    ensures Console(before + [bad] + after) == Console(before) + [ParseSensorLine(bad)] + Console(after)
  {
    ConsoleAppend(before + [bad], after);
    ConsoleAppend(before, [bad]);
    ConsoleOfLine(bad);
  }

  /** An error followed by a good two-field line prints both, in order. */
  lemma ErrorThenReading(bad: string, good: string)
    requires ParseSensorLine(bad).ParseError? && ParseSensorLine(good).Reading?
    ensures Console([bad, good]) == [ParseSensorLine(bad), ParseSensorLine(good)]
  {
    ErrorThenContinue([], bad, [good]);
    ConsoleOfLine(good);
    assert [] + [bad] + [good] == [bad, good];
  }

  /** The main loop over the lines read before the user interrupts it. */
  method ReadSensorLoop(lines: seq<string>) returns (console: seq<LineOutcome>)
    ensures console == Console(lines)
  {
    console := [];
    for i := 0 to |lines|
      invariant console == Console(lines[..i])
    {
      assert lines[..i + 1][..i] == lines[..i];
      var outcome := ParseSensorLine(lines[i]);
      if Printed(outcome) {
        console := console + [outcome];
      }
    }
    assert lines[..|lines|] == lines;
  }
}
