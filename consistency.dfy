/**
 * How the three functions fit together: the destination the transformer writes
 * is decoded by the event handler into the row's folders, location and dates, and
 * the file it writes there is loaded by the warehouse loader into the table of
 * the row's variable with every normalised row.
 */
module Consistency {
  import opened Wrappers
  import opened Strings
  import opened Tables
  import opened Lookup
  import opened Normalize
  import opened Naming
  import opened EventPath
  import opened WarehouseLoad
  import opened Transform

  /**
   * The event handler reads a canonical destination back: its three folders are the
   * lower-cased city, district and variable, the file name is the new file name, the
   * dates are the key's timestamps, and the location is everything before them. This
   * needs folders and timestamps free of `/` and an end timestamp free of `.`.
   */
  lemma CanonicalPathDecodes(row: SensorRecord, key: string)
    requires '/' !in row.city && '/' !in row.district && '/' !in row.variable
    requires '/' !in Timestamps(key).0 && '/' !in Timestamps(key).1 && '.' !in Timestamps(key).1
    ensures var (start, end) := Timestamps(key);
      var r := ParseEventName(DestinationPath(row, key));
      && r.Success?
      && r.value.city == Lower(row.city)
      && r.value.district == Lower(row.district)
      && r.value.sensorType == Lower(row.variable)
      && r.value.uniqueId == Lower(row.city) + "/" + Lower(row.district) + "/" + Lower(row.variable)
      && r.value.fileName == NewFileName(row, start, end)
      && r.value.startDate == start
      && r.value.endDate == end
      && r.value.location + "_" + start + "_" + end + ".csv" == r.value.fileName
  {
    var (start, end) := Timestamps(key);
    var c, d, v := Lower(row.city), Lower(row.district), Lower(row.variable);
    LowerKeeps(row.city, '/');
    LowerKeeps(row.district, '/');
    LowerKeeps(row.variable, '/');
    var location;
    match TankType(row.tank) {
      case Some(tankType) =>
        assert '/' !in tankType;
        location := row.city + "_" + row.district + "_" + tankType + "_" + row.variable;
      case None =>
        location := row.city + "_" + row.district + "_" + row.variable;
    }
    assert NewFileName(row, start, end) == location + "_" + start + "_" + end + ".csv";
    assert DestinationPath(row, key) == c + "/" + d + "/" + v + "/" + NewFileName(row, start, end);
    ParseBuiltName(c, d, v, location, start, end, ".csv");
  }

  /**
   * The loader's variable extraction recovers the row's lower-cased variable from a
   * canonical destination, provided the variable and the new file name hold no `/`.
   */
  lemma DestinationVariable(row: SensorRecord, key: string)
    requires '/' !in row.variable
    requires '/' !in NewFileName(row, Timestamps(key).0, Timestamps(key).1)
    ensures VariableOf(DestinationPath(row, key)) == Success(Lower(row.variable))
  {
    var name := NewFileName(row, Timestamps(key).0, Timestamps(key).1);
    var c, d, v := Lower(row.city), Lower(row.district), Lower(row.variable);
    LowerKeeps(row.variable, '/');
    assert DestinationPath(row, key) == c + "/" + d + "/" + v + "/" + name;
    assert c + "/" + d + "/" + v + "/" + name == (c + "/" + d + "/") + v + "/" + name;
    VariableOfFolder(c + "/" + d + "/", v, name);
    LowerIdempotent(row.variable);
  }

  /**
   * The normalised table written with `to_csv` reads back as itself with `read_csv` and
   * a comma separator, provided the raw content and the sensor id hold no comma and the
   * sensor id no line break. It has the three load columns.
   */
  lemma NormalizedReadsBack(content: string, sensorId: string)
    requires Normalized(content, sensorId).Success?
    requires ',' !in content && ',' !in sensorId && '\n' !in sensorId
    ensures var t := Normalized(content, sensorId).value;
      t.columns == LoadColumns && ReadCsv(ToCsv(t), ',') == Success(t)
  {
    var t := Normalized(content, sensorId).value;
    NormalizedRows(content, sensorId);
    assert Rectangular(t) by {
      forall i | 0 <= i < |t.rows| ensures |t.rows[i]| == |t.columns| {
        var records := NonBlank(CleanedLines(SplitLines(content)));
        assert t.rows[i] == [sensorId] + Pad(Split(records[i + 1], ';'), 2);
      }
    }
    NormalizedCellsFree(content, sensorId, ',');
    NormalizedCellsFree(content, sensorId, '\n');
    ReadCsvToCsv(t);
  }

  /**
   * The loader accepts what the transformer writes: the destination's variable folder is
   * the row's lower-cased variable, and reading the written CSV gives back the normalised
   * table, of three columns, so every normalised row is loaded under the load columns.
   * This needs the raw content and the sensor id free of commas, the sensor id free of
   * line breaks, and the variable and new file name free of `/`.
   */
  lemma CanonicalFileLoads(key: string, content: string, table: seq<SensorRecord>)
    requires CopyPlan(key, content, table).Success?
    requires ',' !in content
    requires var row := FindSensorId(key, table).value;
      && ',' !in row.sensorId && '\n' !in row.sensorId
      && '/' !in row.variable
      && '/' !in NewFileName(row, Timestamps(key).0, Timestamps(key).1)
    ensures var row := FindSensorId(key, table).value;
      var u := CopyPlan(key, content, table).value;
      LoadPlan(u.path, u.body) ==
        Success(LoadRequest(TableId(Lower(row.variable)), Normalized(content, row.sensorId).value))
  {
    var row := FindSensorId(key, table).value;
    var u := CopyPlan(key, content, table).value;
    var t := Normalized(content, row.sensorId).value;
    assert u == Upload(DestinationPath(row, key), ToCsv(t));
    NormalizedReadsBack(content, row.sensorId);
    DestinationVariable(row, key);
  }
}
