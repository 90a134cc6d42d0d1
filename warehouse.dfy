/**
 * The warehouse loader (move_to_bq.py): the destination table is chosen from the
 * variable folder of the object key, the file is read as comma-separated, it must
 * have exactly three columns, and the columns are renamed before the load.
 */
module WarehouseLoad {
  import opened Wrappers
  import opened Strings
  import opened Tables

  /** The project and dataset every table id starts with. */
  const Dataset: string := "smart-digital-water.sensor_measurement."

  /** The column names the loader assigns. */
  const LoadColumns: seq<string> := ["Sensor ID", "Timestamp", "Value"]

  /** A load job the loader would submit: the table id and the frame's contents. */
  datatype LoadRequest = LoadRequest(tableId: string, table: Table)

  /** Why nothing is loaded: the exceptions `process_and_upload_to_bq` catches. */
  datatype LoadError =
    | NoVariableFolder            // the key has no `/`, so there is no second-to-last segment
    | Unreadable(error: CsvError) // `read_csv` failed
    | NotThreeColumns(found: nat) // the shape check failed

  /** The lower-cased second-to-last `/`-segment of the key: the variable folder. */
  function VariableOf(key: string): (r: Result<string, LoadError>)
    ensures r.Failure? ==> r.error == NoVariableFolder
  {
    var parts := Split(key, '/');
    if |parts| < 2 then Failure(NoVariableFolder) else Success(Lower(parts[|parts| - 2]))
  }

  /**
   * There is a variable exactly when the key holds a `/`; it is then free of `/` and
   * already lower case.
   */
  lemma VariableOfMeaning(key: string)
    ensures VariableOf(key).Success? <==> '/' in key
    ensures VariableOf(key).Success? ==>
      '/' !in VariableOf(key).value && Lower(VariableOf(key).value) == VariableOf(key).value
  {
    var parts := Split(key, '/');
    SplitSingle(key, '/');
    if |parts| >= 2 {
      LowerKeeps(parts[|parts| - 2], '/');
      LowerIdempotent(parts[|parts| - 2]);
    }
  }

  /**
   * A key `variable/file`, or `folders/variable/file`, names the lower-cased `variable`:
   * `prefix` is empty or ends with `/`.
   */
  lemma VariableOfFolder(prefix: string, variable: string, fileName: string)
    requires '/' !in variable && '/' !in fileName
    requires prefix == "" || prefix[|prefix| - 1] == '/'
    ensures VariableOf(prefix + variable + "/" + fileName) == Success(Lower(variable))
  {
    if prefix == "" {
      assert prefix + variable + "/" + fileName == variable + "/" + fileName;
      SplitNoSep(variable, '/');
      SplitSnoc(variable, fileName, '/');
    } else {
      var folders := prefix[..|prefix| - 1];
      assert prefix == folders + "/";
      assert prefix + variable + "/" + fileName == folders + "/" + variable + "/" + fileName;
      SplitLastTwo(folders, variable, fileName, '/');
    }
  }

  /** The table id: the dataset followed by the variable. */
  function TableId(variable: string): (id: string)
    ensures |id| == |Dataset| + |variable|
    ensures id[..|Dataset|] == Dataset && id[|Dataset|..] == variable
  {
    Dataset + variable
  }

  /**
   * `upload_to_bigquery`: the columns are renamed to the three load columns and a load of
   * the frame into `tableId` is requested. A frame of any other width makes the rename
   * fail; the error is caught and nothing is loaded, the frame unchanged.
   */
  method UploadToBigquery(data: Frame, tableId: string) returns (req: Option<LoadRequest>)
    requires data.Valid()
    modifies data
    ensures data.Valid()
    ensures req.Some? <==> |old(data.columns)| == |LoadColumns|
    ensures data.rows == old(data.rows)
    ensures data.columns == (if req.Some? then LoadColumns else old(data.columns))
    ensures req.Some? ==> req.value == LoadRequest(tableId, Table(LoadColumns, old(data.rows)))
  {
    var renamed := data.SetColumns(LoadColumns);
    if !renamed {
      return None;
    }
    req := Some(LoadRequest(tableId, data.Value()));
  }

  /** What `process_and_upload_to_bq` loads for an object key and its content, or why it stops. */
  function LoadPlan(key: string, content: string): Result<LoadRequest, LoadError>
  {
    match VariableOf(key)
    case Failure(e) => Failure(e)
    case Success(variable) =>
      match ReadCsv(content, ',')
      case Failure(e) => Failure(Unreadable(e))
      case Success(t) =>
        if |t.columns| != 3 then Failure(NotThreeColumns(|t.columns|))
        else Success(LoadRequest(TableId(variable), Table(LoadColumns, t.rows)))
  }

  /**
   * The loader loads exactly when the key has a `/` and the content reads as a table of
   * three columns. It then loads every data row of the file, unchanged and in order, under
   * the load columns, into the table named by the dataset and the key's lower-cased
   * variable folder. A key without `/` is refused before the content is looked at.
   */
  lemma {:induction false} LoadPlanMeaning(key: string, content: string)
    ensures var r := LoadPlan(key, content);
      var parsed := ReadCsv(content, ',');
      && (r.Success? <==> '/' in key && parsed.Success? && |parsed.value.columns| == 3)
      && ('/' !in key ==> r == Failure(NoVariableFolder))
      && (r.Success? ==>
            && r.value.table.columns == LoadColumns
            && r.value.table.rows == parsed.value.rows
            && Rectangular(r.value.table)
            && r.value.tableId == Dataset + VariableOf(key).value)
  {
    VariableOfMeaning(key);
    if ReadCsv(content, ',').Success? {
      ReadCsvRectangular(content, ',');
    }
  }

  /**
   * `process_and_upload_to_bq`: the variable, then the read, then the shape check, and
   * finally the upload of the frame. The content is what the download returned.
   */
  method ProcessAndUploadToBq(key: string, content: string) returns (r: Result<LoadRequest, LoadError>)
    ensures r == LoadPlan(key, content)
  {
    var variable := VariableOf(key);
    if variable.Failure? {
      return Failure(variable.error);
    }
    var tableId := TableId(variable.value);
    var parsed := ReadCsv(content, ',');
    if parsed.Failure? {
      return Failure(Unreadable(parsed.error));
    }
    ReadCsvRectangular(content, ',');
    var data := new Frame(parsed.value);
    if data.Width() != 3 {
      return Failure(NotThreeColumns(data.Width()));
    }
    var req := UploadToBigquery(data, tableId);
    assert req.Some?;
    r := Success(req.value);
  }
}
