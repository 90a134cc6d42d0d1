/**
 * Reshaping a raw `;`-separated two-column sensor file into the canonical
 * `Sensor ID, Timestamp, Value` table (`process_csv` in tansform_raw_data.py).
 */
module Normalize {
  import opened Wrappers
  import opened Strings
  import opened Tables
  import opened Lookup

  /** The canonical columns, in order. */
  const SensorColumns: seq<string> := ["Sensor ID", "Timestamp", "Value"]

  /** The raw lines with every trailing `;` removed. */
  function CleanedLines(lines: seq<string>): seq<string>
  {
    seq(|lines|, i requires 0 <= i < |lines| => RStrip(lines[i], ';'))
  }

  /** The line-by-line rebuild of the file content: each line loses its trailing `;`s. */
  method CleanLines(lines: seq<string>) returns (cleaned: seq<string>)
    ensures |cleaned| == |lines|
    ensures forall i :: 0 <= i < |lines| ==> cleaned[i] == RStrip(lines[i], ';')
  {
    cleaned := [];
    var i := 0;
    while i < |lines|
      invariant 0 <= i <= |lines|
      invariant |cleaned| == i
      invariant forall k :: 0 <= k < i ==> cleaned[k] == RStrip(lines[k], ';')
    {
      cleaned := cleaned + [RStrip(lines[i], ';')];
      i := i + 1;
    }
  }

  /**
   * Cleaning keeps the number of lines, leaves no line ending in `;`, keeps each line a
   * prefix of the raw one, and cleaning again changes nothing.
   */
  lemma {:induction false} CleaningProperties(lines: seq<string>)
    ensures |CleanedLines(lines)| == |lines|
    ensures forall i :: 0 <= i < |lines| ==>
      var line := CleanedLines(lines)[i];
      line <= lines[i] && (|line| == 0 || line[|line| - 1] != ';')
    ensures CleanedLines(CleanedLines(lines)) == CleanedLines(lines)
  {
    var once := CleanedLines(lines);
    forall i | 0 <= i < |lines| ensures CleanedLines(once)[i] == once[i] {
      RStripIdempotent(lines[i], ';');
    }
  }

  /** The content rebuilt from its clean lines, joined with line breaks. */
  function CleanedText(content: string): string
  {
    JoinLines(CleanedLines(SplitLines(content)))
  }

  /** Each row with the sensor id put in front of its cells. */
  function WithSensorId(sensorId: string, rows: seq<seq<string>>): seq<seq<string>>
  {
    seq(|rows|, i requires 0 <= i < |rows| => [sensorId] + rows[i])
  }

  /** The normalised table, or the error `process_csv` raises. */
  function Normalized(content: string, sensorId: string): Result<Table, CsvError>
  {
    match ReadCsv(CleanedText(content), ';')
    case Failure(e) => Failure(e)
    case Success(t) =>
      if |t.columns| != 2 then Failure(WrongColumnCount(2, |t.columns|))
      else Success(Table(SensorColumns, WithSensorId(sensorId, t.rows)))
  }

  /** Reading the re-joined clean text is reading the clean lines. */
  lemma {:induction false} ReadCleanedText(content: string)
    ensures ReadCsv(CleanedText(content), ';') == ReadRecords(CleanedLines(SplitLines(content)), ';')
  {
    var lines := SplitLines(content);
    var cleaned := CleanedLines(lines);
    forall i | 0 <= i < |cleaned| ensures '\n' !in cleaned[i] {
      assert cleaned[i] <= lines[i];
    }
    RereadJoinedLines(cleaned);
  }

  /**
   * `process_csv` in terms of the file's non-blank clean lines: it succeeds exactly when
   * there is a header of two fields and no data line has more than two, and then it
   * gives the canonical columns and, for each data line in order, the sensor id followed
   * by the line's two fields (a missing second field read as empty).
   */
  lemma {:induction false} NormalizedRows(content: string, sensorId: string)
    ensures var records := NonBlank(CleanedLines(SplitLines(content)));
      var r := Normalized(content, sensorId);
      && (r.Success? <==>
            && |records| >= 1
            && |Split(records[0], ';')| == 2
            && forall i :: 1 <= i < |records| ==> |Split(records[i], ';')| <= 2)
      && (r.Success? ==>
            && r.value.columns == SensorColumns
            && |r.value.rows| == |records| - 1
            && forall i :: 0 <= i < |r.value.rows| ==>
                 r.value.rows[i] == [sensorId] + Pad(Split(records[i + 1], ';'), 2))
  {
    ReadCleanedText(content);
    ReadRecordsRows(CleanedLines(SplitLines(content)), ';');
  }

  /** A header of any width but two is refused: with the header's width when the rows parse. */
  lemma {:induction false} NormalizedRejectsWidth(content: string, sensorId: string)
    ensures var parsed := ReadCsv(CleanedText(content), ';');
      parsed.Success? && |parsed.value.columns| != 2 ==>
        Normalized(content, sensorId) == Failure(WrongColumnCount(2, |parsed.value.columns|))
    ensures var records := NonBlank(CleanedLines(SplitLines(content)));
      |records| >= 1 && |Split(records[0], ';')| != 2 ==> Normalized(content, sensorId).Failure?
  {
    ReadCleanedText(content);
  }

  /** A comma or line break absent from the raw content is absent from every clean line. */
  lemma {:induction false} CleanedLinesFree(content: string, c: char)
    requires c == '\n' || c !in content
    ensures var cleaned := CleanedLines(SplitLines(content));
      forall i :: 0 <= i < |cleaned| ==> c !in cleaned[i]
  {
    var lines := SplitLines(content);
    if c != '\n' {
      SplitLinesFree(content, c);
    }
    var cleaned := CleanedLines(lines);
    forall i | 0 <= i < |cleaned| ensures c !in cleaned[i] {
      assert cleaned[i] <= lines[i];
    }
  }

  /** A character absent from the sensor id and from every cell is absent from every row it prefixes. */
  lemma {:induction false} WithSensorIdFree(sensorId: string, rows: seq<seq<string>>, c: char)
    requires c !in sensorId
    requires forall i, j :: 0 <= i < |rows| && 0 <= j < |rows[i]| ==> c !in rows[i][j]
    ensures var prefixed := WithSensorId(sensorId, rows);
      forall i, j :: 0 <= i < |prefixed| && 0 <= j < |prefixed[i]| ==> c !in prefixed[i][j]
  {
    var prefixed := WithSensorId(sensorId, rows);
    forall i, j | 0 <= i < |prefixed| && 0 <= j < |prefixed[i]| ensures c !in prefixed[i][j] {
      if j > 0 {
        assert prefixed[i][j] == rows[i][j - 1];
      }
    }
  }

  /**
   * A comma or line break absent from the sensor id (and, for the comma, from the raw
   * content) appears nowhere in the normalised table.
   */
  lemma {:induction false} NormalizedCellsFree(content: string, sensorId: string, c: char)
    requires c == ',' || c == '\n'
    requires c !in sensorId
    requires c == '\n' || c !in content
    requires Normalized(content, sensorId).Success?
    ensures CellsFree(Normalized(content, sensorId).value, c)
  {
    ReadCleanedText(content);
    var cleaned := CleanedLines(SplitLines(content));
    CleanedLinesFree(content, c);
    ReadRecordsFree(cleaned, ';', c);
    var t := ReadRecords(cleaned, ';').value;
    WithSensorIdFree(sensorId, t.rows, c);
    SensorColumnsFree(c);
  }

  /** The canonical column names hold no comma and no line break. */
  lemma SensorColumnsFree(c: char)
    requires c == ',' || c == '\n'
    ensures forall j :: 0 <= j < |SensorColumns| ==> c !in SensorColumns[j]
  {
    assert forall j :: 0 <= j < |SensorColumns| ==> forall k :: 0 <= k < |SensorColumns[j]| ==>
      ' ' <= SensorColumns[j][k] <= 'z';
  }

  /** Rows that received the sensor id as a new first cell are the rows `WithSensorId` gives. */
  lemma {:induction false} InsertedFirst(sensorId: string, before: seq<seq<string>>, after: seq<seq<string>>)
    requires |after| == |before|
    requires forall i :: 0 <= i < |after| ==> after[i] == before[i][..0] + [sensorId] + before[i][0..]
    ensures after == WithSensorId(sensorId, before)
  {
    forall i | 0 <= i < |after| ensures after[i] == [sensorId] + before[i] {
      assert before[i][..0] == [] && before[i][0..] == before[i];
    }
  }

  /**
   * `process_csv`: clean the lines, read them as `;`-separated, refuse any width but two,
   * rename the two columns and insert the sensor id as a first column, in place.
   */
  method ProcessCsv(content: string, sensor: SensorRecord) returns (r: Result<Frame, CsvError>)
    ensures r.Failure? ==> Normalized(content, sensor.sensorId) == Failure(r.error)
    ensures r.Success? ==> fresh(r.value) && r.value.Valid()
    ensures r.Success? ==> Normalized(content, sensor.sensorId) == Success(r.value.Value())
  {
    var lines := SplitLines(content);
    var cleaned := CleanLines(lines);
    assert cleaned == CleanedLines(lines);
    var text := JoinLines(cleaned);
    assert text == CleanedText(content);
    var parsed := ReadCsv(text, ';');
    if parsed.Failure? {
      return Failure(parsed.error);
    }
    ReadCsvRectangular(text, ';');
    var data := new Frame(parsed.value);
    if data.Width() != 2 {
      return Failure(WrongColumnCount(2, data.Width()));
    }
    var renamed := data.SetColumns(["Timestamp", "Value"]);
    var inserted := data.Insert(0, "Sensor ID", sensor.sensorId);
    InsertedFirst(sensor.sensorId, parsed.value.rows, data.rows);
    assert data.columns == SensorColumns;
    r := Success(data);
  }
}
