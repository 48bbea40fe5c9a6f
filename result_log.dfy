/**
 * `log_results`: append one prediction record to the results log, writing the
 * header row first only when the log file does not exist yet.
 */
module ResultLogging {

  /** Header of the results log: the record's fields, in column order. */
  const LogColumns: seq<string> := ["timestamp", "distance_m", "size_m", "prediction", "alert_message"]

  datatype LogRecord = LogRecord(
    timestamp: string,
    distanceM: real,
    sizeM: real,
    prediction: string,
    alertMessage: string)

  /** A line of the log file: a header row naming the columns, or one record. */
  datatype LogLine = Header(columns: seq<string>) | Row(record: LogRecord)

  function HeaderCount(lines: seq<LogLine>): nat {
    if lines == [] then 0 else (if lines[0].Header? then 1 else 0) + HeaderCount(lines[1..])
  }

  /** Record rows for a list of records, in order. */
  function Rows(records: seq<LogRecord>): (lines: seq<LogLine>)
    ensures |lines| == |records|
    ensures forall i | 0 <= i < |records| :: lines[i] == Row(records[i])
  {
    if records == [] then [] else Rows(records[..|records| - 1]) + [Row(records[|records| - 1])]
  }

  /** The file after one append: a header when it did not exist, then the record. */
  function AppendRecord(existed: bool, lines: seq<LogLine>, record: LogRecord): seq<LogLine> {
    lines + (if existed then [] else [Header(LogColumns)]) + [Row(record)]
  }

  /** The file after appending `records` one call at a time. */
  function AppendAll(existed: bool, lines: seq<LogLine>, records: seq<LogRecord>): seq<LogLine>
    decreases |records|
  {
    if records == [] then lines
    else
      var earlier := records[..|records| - 1];
      AppendRecord(existed || earlier != [], AppendAll(existed, lines, earlier), records[|records| - 1])
  }

  /** Appending one more record to a run of appends. */
  lemma AppendAllSnoc(existed: bool, lines: seq<LogLine>, records: seq<LogRecord>, record: LogRecord)
    ensures AppendAll(existed, lines, records + [record]) ==
            AppendRecord(existed || records != [], AppendAll(existed, lines, records), record)
  {
    assert (records + [record])[..|records|] == records;
  }

  lemma {:induction false} HeaderCountAppend(a: seq<LogLine>, b: seq<LogLine>)
    ensures HeaderCount(a + b) == HeaderCount(a) + HeaderCount(b)
    decreases |a|
  {
    if a != [] {
      assert (a + b)[1..] == a[1..] + b;
      HeaderCountAppend(a[1..], b);
    } else {
      assert a + b == b;
    }
  }

  /**
   * One append keeps every earlier line, adds exactly one record, and adds a
   * header if and only if the file did not exist.
   */
  lemma AppendRecordSpec(existed: bool, lines: seq<LogLine>, record: LogRecord)
    ensures var after := AppendRecord(existed, lines, record);
      after[..|lines|] == lines &&
      after[|after| - 1] == Row(record) &&
      (!existed ==> after[|lines|] == Header(LogColumns)) &&
      |after| == |lines| + (if existed then 1 else 2) &&
      HeaderCount(after) == HeaderCount(lines) + (if existed then 0 else 1)
  {
    var extra := (if existed then [] else [Header(LogColumns)]) + [Row(record)];
    assert AppendRecord(existed, lines, record) == lines + extra;
    HeaderCountAppend(lines, extra);
    if existed {
      assert [Row(record)][1..] == [];
      assert HeaderCount(extra) == 0;
    } else {
      assert extra == [Header(LogColumns), Row(record)];
      assert extra[1..] == [Row(record)];
      assert [Row(record)][1..] == [];
      assert HeaderCount([Row(record)]) == 0;
      assert HeaderCount(extra) == 1;
    }
  }

  /**
   * Appending to a missing file writes exactly one header, at the front,
   * followed by the records in order; later appends never add another header.
   */
  lemma {:induction false} AppendAllFromMissing(records: seq<LogRecord>)
    ensures records != [] ==> AppendAll(false, [], records) == [Header(LogColumns)] + Rows(records)
    ensures records == [] ==> AppendAll(false, [], records) == []
    ensures HeaderCount(AppendAll(false, [], records)) == (if records == [] then 0 else 1)
    decreases |records|
  {
    if records != [] {
      var earlier := records[..|records| - 1];
      AppendAllFromMissing(earlier);
      HeaderCountAppend([Header(LogColumns)], Rows(records));
      RowsHaveNoHeader(records);
    }
  }

  lemma {:induction false} RowsHaveNoHeader(records: seq<LogRecord>)
    ensures HeaderCount(Rows(records)) == 0
    decreases |records|
  {
    if records != [] {
      RowsHaveNoHeader(records[..|records| - 1]);
      HeaderCountAppend(Rows(records[..|records| - 1]), [Row(records[|records| - 1])]);
    }
  }

  /** Appending to an existing file only adds record rows. */
  lemma {:induction false} AppendAllExisting(lines: seq<LogLine>, records: seq<LogRecord>)
    ensures AppendAll(true, lines, records) == lines + Rows(records)
    decreases |records|
  {
    if records != [] {
      AppendAllExisting(lines, records[..|records| - 1]);
    }
  }

  /** The results log file: whether it exists, and its lines. */
  class ResultLog {
    var fileExists: bool
    var lines: seq<LogLine>

    /** A file that does not exist has no lines. */
    ghost predicate Valid()
      reads this
    {
      !fileExists ==> lines == []
    }

    /** No log file yet. */
    constructor Missing()
      ensures Valid() && !fileExists && lines == []
    {
      fileExists, lines := false, [];
    }

    /** A log file left by an earlier run, with whatever it holds. */
    constructor Existing(content: seq<LogLine>)
      ensures Valid() && fileExists && lines == content
    {
      fileExists, lines := true, content;
    }

    /** `log_results(log_path, data)`. */
    method LogResults(record: LogRecord)
      requires Valid()
      modifies this
      ensures Valid() && fileExists
      ensures lines == AppendRecord(old(fileExists), old(lines), record)
    {
      var writeHeader := !fileExists;
      if writeHeader {
        lines := lines + [Header(LogColumns)];
      }
      lines := lines + [Row(record)];
      fileExists := true;
    }
  }
}
