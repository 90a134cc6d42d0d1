/**
 * One run of `process_and_copy_file` (tansform_raw_data.py): resolve the lookup row
 * from the object key, normalise the content, and write the table as CSV under its
 * canonical destination. The download is the `content` parameter and the storage
 * write is the returned `Upload` value.
 */
module Transform {
  import opened Wrappers
  import opened Strings
  import opened Tables
  import opened Lookup
  import opened Normalize
  import opened Naming

  /** An object the run writes to the sensor-data bucket: its path and its CSV text. */
  datatype Upload = Upload(path: string, body: string)

  /** The `ValueError`s the run catches, after which nothing is written. */
  datatype TransformError = Unmatched(lookup: LookupError) | Unreadable(csv: CsvError)

  /** What one run writes for an object key, its content and the lookup table, or why it stops. */
  function CopyPlan(key: string, content: string, table: seq<SensorRecord>): Result<Upload, TransformError>
  {
    match FindSensorId(key, table)
    case Failure(e) => Failure(Unmatched(e))
    case Success(row) =>
      match Normalized(content, row.sensorId)
      case Failure(e) => Failure(Unreadable(e))
      case Success(t) => Success(Upload(DestinationPath(row, key), ToCsv(t)))
  }

  /** A key whose base name is in no row of the table is refused, with the key in the error, whatever the content. */
  lemma CopyPlanUnmatched(key: string, content: string, table: seq<SensorRecord>)
    ensures (forall i :: 0 <= i < |table| ==> table[i].fileName != BaseFileName(key)) <==>
      CopyPlan(key, content, table) == Failure(Unmatched(SensorNotFound(key)))
  {
    if exists i :: 0 <= i < |table| && table[i].fileName == BaseFileName(key) {
      CopyPlanFirstRow(key, content, table);
    } else {
      assert FindSensorId(key, table) == Failure(SensorNotFound(key));
    }
  }

  /**
   * For a key that some row names, the first such row decides, through `process_csv`: a
   * content it normalises is written to that row's destination as `to_csv` writes the
   * table, and a content it refuses is reported with `process_csv`'s error.
   */
  lemma CopyPlanFirstRow(key: string, content: string, table: seq<SensorRecord>)
    requires exists i :: 0 <= i < |table| && table[i].fileName == BaseFileName(key)
    ensures var row := table[FirstIndex(table, BaseFileName(key))];
      match Normalized(content, row.sensorId)
      case Success(t) => CopyPlan(key, content, table) == Success(Upload(DestinationPath(row, key), ToCsv(t)))
      case Failure(e) => CopyPlan(key, content, table) == Failure(Unreadable(e))
  {
    FirstMatchChosen(key, table, FirstIndex(table, BaseFileName(key)));
  }

  /**
   * Everything a run does with a key: one whose base name is in no row of the table is
   * refused, with the key in the error, whatever the content; otherwise the first row
   * with that name and `process_csv` decide. A content it normalises is written to that
   * row's destination as `to_csv` writes the table, and a content it refuses is reported
   * with `process_csv`'s error.
   */
  lemma CopyPlanMeaning(key: string, content: string, table: seq<SensorRecord>)
    ensures var r := CopyPlan(key, content, table);
      && ((forall i :: 0 <= i < |table| ==> table[i].fileName != BaseFileName(key)) <==>
            r == Failure(Unmatched(SensorNotFound(key))))
      && ((exists i :: 0 <= i < |table| && table[i].fileName == BaseFileName(key)) ==>
            var row := table[FirstIndex(table, BaseFileName(key))];
            match Normalized(content, row.sensorId)
            case Success(t) => r == Success(Upload(DestinationPath(row, key), ToCsv(t)))
            case Failure(e) => r == Failure(Unreadable(e)))
  {
    CopyPlanUnmatched(key, content, table);
    if exists i :: 0 <= i < |table| && table[i].fileName == BaseFileName(key) {
      CopyPlanFirstRow(key, content, table);
    }
  }

  /** The position of the first row named `name`, for a table that has one. */
  function FirstIndex(table: seq<SensorRecord>, name: string): (i: nat)
    requires exists i :: 0 <= i < |table| && table[i].fileName == name
    ensures i < |table| && table[i].fileName == name
    ensures forall j :: 0 <= j < i ==> table[j].fileName != name
    decreases |table|
  {
    if table[0].fileName == name then 0
    else
      assert exists i :: 0 <= i < |table[1..]| && table[1..][i].fileName == name by {
        var i :| 0 <= i < |table| && table[i].fileName == name;
        assert table[1..][i - 1] == table[i];
      }
      1 + FirstIndex(table[1..], name)
  }

  /**
   * `process_and_copy_file`: the lookup, then `process_csv`, then the timestamps, the new
   * file name and the folder, and the CSV written to their concatenation.
   */
  method ProcessAndCopyFile(key: string, content: string, table: seq<SensorRecord>)
    returns (r: Result<Upload, TransformError>)
    ensures r == CopyPlan(key, content, table)
  {
    var sensor := FindSensorId(key, table);
    if sensor.Failure? {
      return Failure(Unmatched(sensor.error));
    }
    var row := sensor.value;
    var processed := ProcessCsv(content, row);
    if processed.Failure? {
      return Failure(Unreadable(processed.error));
    }
    var (start, end) := Timestamps(key);
    var newFileName := NewFileName(row, start, end);
    var folderStructure := FolderStructure(row);
    var newFilePath := folderStructure + newFileName;
    r := Success(Upload(newFilePath, ToCsv(processed.value.Value())));
  }
}
