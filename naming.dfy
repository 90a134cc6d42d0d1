/**
 * The canonical destination of a processed file (tansform_raw_data.py, inside
 * `process_and_copy_file`): the two timestamps taken from the object key, the
 * optional tank qualifier, the new file name in the table's casing and the
 * lower-cased `city/district/variable/` folder.
 */
module Naming {
  import opened Wrappers
  import opened Strings
  import opened Lookup

  /** `suffix` is how `s` ends. */
  predicate EndsWith(s: string, suffix: string)
  {
    |suffix| <= |s| && s[|s| - |suffix|..] == suffix
  }

  /** The key with every `.csv` removed, wherever it occurs and not only at the end. */
  function WithoutCsv(key: string): string
  {
    RemoveAll(key, ".csv")
  }

  /** The start and end timestamps: the last two `_`-tokens, or the only token twice. */
  function Timestamps(key: string): (r: (string, string))
    ensures '_' !in r.0 && '_' !in r.1
  {
    var tokens := LastTwo(Split(WithoutCsv(key), '_'));
    if |tokens| == 2 then (tokens[0], tokens[1]) else (tokens[0], tokens[0])
  }

  /**
   * The timestamps are the key's last two `_`-tokens once `.csv` is removed: the key ends
   * with `start_end`, preceded by nothing or by `_`. A key without `_` gives itself twice.
   */
  lemma {:induction false} TimestampsAreLastTokens(key: string)
    ensures var s := WithoutCsv(key);
      var (start, end) := Timestamps(key);
      && ('_' !in s ==> start == s && end == s)
      && ('_' in s ==>
            && EndsWith(s, start + "_" + end)
            && (|s| == |start| + 1 + |end| || s[|s| - |start| - |end| - 2] == '_'))
  {
    var s := WithoutCsv(key);
    var tokens := Split(s, '_');
    SplitSingle(s, '_');
    JoinSplit(s, '_');
    if '_' in s {
      var n := |tokens|;
      var a, b := tokens[n - 2], tokens[n - 1];
      assert Join([b], '_') == b;
      if n == 2 {
        assert tokens == [a, b];
        assert s == a + "_" + b;
      } else {
        var init := tokens[..n - 2];
        assert tokens == init + [a, b];
        JoinAppend(init, [a, b], '_');
        assert s == Join(init, '_') + "_" + (a + "_" + b);
      }
    }
  }

  /** A key `prefix_start_end.csv` with no other `.csv` gives `start` and `end`. */
  lemma StampedKeyTimestamps(prefix: string, start: string, end: string)
    requires '_' !in start && '_' !in end
    requires !Contains(prefix + "_" + start + "_" + end, ".csv")
    ensures Timestamps(prefix + "_" + start + "_" + end + ".csv") == (start, end)
  {
    var t := prefix + "_" + start + "_" + end;
    RemoveAllSuffix(t, ".csv");
    SplitLastTwo(prefix, start, end, '_');
    assert LastTwo(Split(prefix, '_') + [start, end]) == [start, end];
  }

  /**
   * A key with a `.csv` inside its stem as well as at its end, such as
   * `site.csv_20230101_20230102.csv`, loses both before the timestamps are taken.
   */
  lemma InnerCsvTimestamps(stem: string, start: string, end: string)
    requires '.' !in stem && '.' !in start && '.' !in end
    requires '_' !in start && '_' !in end
    ensures WithoutCsv(stem + ".csv" + "_" + start + "_" + end + ".csv") == stem + "_" + start + "_" + end
    ensures Timestamps(stem + ".csv" + "_" + start + "_" + end + ".csv") == (start, end)
  {
    var rest := "_" + start + "_" + end;
    assert '.' !in rest;
    assert stem + ".csv" + "_" + start + "_" + end + ".csv" == stem + ".csv" + rest + ".csv";
    RemoveAllBothCopies(stem, ".csv", rest);
    assert stem + rest == stem + "_" + start + "_" + end;
    SplitLastTwo(stem, start, end, '_');
    assert LastTwo(Split(stem, '_') + [start, end]) == [start, end];
  }

  /**
   * A key of two `_`-tokens, such as `STATION_20230101.csv`, gives its first token as
   * start and its second as end: the one-timestamp branch is not taken.
   */
  lemma TwoTokenKeyTimestamps(first: string, second: string)
    requires '_' !in first && '_' !in second
    requires !Contains(first + "_" + second, ".csv")
    ensures Timestamps(first + "_" + second + ".csv") == (first, second)
  {
    RemoveAllSuffix(first + "_" + second, ".csv");
    SplitConcat(first, second, '_');
    SplitNoSep(first, '_');
    SplitNoSep(second, '_');
  }

  /** A key with no `_` at all, such as `20230101.csv`, uses its one token as start and end. */
  lemma OneTokenKeyTimestamps(stamp: string)
    requires '_' !in stamp && !Contains(stamp, ".csv")
    ensures Timestamps(stamp + ".csv") == (stamp, stamp)
  {
    RemoveAllSuffix(stamp, ".csv");
    SplitNoSep(stamp, '_');
  }

  /** The tank qualifier: `tank_in` or `tank_out` when `Tank` mentions `Yes`, else none. */
  function TankType(tank: string): Option<string>
  {
    if Contains(tank, "Yes") then Some(if Contains(tank, "in") then "tank_in" else "tank_out") else None
  }

  /** `City_District_[tank_type_]Variable_start_end.csv`, in the table's casing. */
  function NewFileName(row: SensorRecord, start: string, end: string): string
  {
    match TankType(row.tank)
    case Some(tankType) =>
      row.city + "_" + row.district + "_" + tankType + "_" + row.variable + "_" + start + "_" + end + ".csv"
    case None =>
      row.city + "_" + row.district + "_" + row.variable + "_" + start + "_" + end + ".csv"
  }

  /** The `_`-tokens the qualifier contributes to the file name. */
  function QualifierTokens(tank: string): seq<string>
  {
    if !Contains(tank, "Yes") then []
    else if Contains(tank, "in") then ["tank", "in"]
    else ["tank", "out"]
  }

  /**
   * The new file name splits back on `_` into city, district, the qualifier's tokens
   * (`tank in` when `Tank` mentions both `Yes` and `in`, `tank out` when it mentions `Yes`
   * alone, nothing otherwise), variable, start and end with `.csv`, provided the table's
   * cells and the timestamps hold no `_`.
   */
  lemma NewFileNameFields(row: SensorRecord, start: string, end: string)
    requires '_' !in row.city && '_' !in row.district && '_' !in row.variable
    requires '_' !in start && '_' !in end
    ensures Split(NewFileName(row, start, end), '_') ==
      [row.city, row.district] + QualifierTokens(row.tank) + [row.variable, start, end + ".csv"]
  {
    var c, d, v := row.city, row.district, row.variable;
    SplitNoSep(c, '_');
    var p1 := c + "_" + d;
    SplitSnoc(c, d, '_');
    match TankType(row.tank) {
      case Some(tankType) =>
        QualifierSplit(p1, row.tank);
        FileNameTail(p1 + "_" + tankType, v, start, end);
      case None =>
        assert QualifierTokens(row.tank) == [];
        FileNameTail(p1, v, start, end);
    }
  }

  /** The qualifier after a prefix adds its two tokens to the prefix's pieces. */
  lemma QualifierSplit(prefix: string, tank: string)
    requires TankType(tank).Some?
    ensures Split(prefix + "_" + TankType(tank).value, '_') == Split(prefix, '_') + QualifierTokens(tank)
  {
    var word := if Contains(tank, "in") then "in" else "out";
    assert TankType(tank).value == "tank" + "_" + word;
    SplitNoSep("tank", '_');
    SplitSnoc("tank", word, '_');
    SplitConcat(prefix, TankType(tank).value, '_');
  }

  /** The variable and the two timestamps after a prefix add three last pieces. */
  lemma FileNameTail(prefix: string, v: string, start: string, end: string)
    requires '_' !in v && '_' !in start && '_' !in end
    ensures Split(prefix + "_" + v + "_" + start + "_" + end + ".csv", '_') ==
      Split(prefix, '_') + [v, start, end + ".csv"]
  {
    var last := end + ".csv";
    assert '_' !in last;
    var p3 := prefix + "_" + v;
    SplitSnoc(prefix, v, '_');
    var p4 := p3 + "_" + start;
    SplitSnoc(p3, start, '_');
    assert prefix + "_" + v + "_" + start + "_" + end + ".csv" == p4 + "_" + last;
    SplitSnoc(p4, last, '_');
  }

  /** The folder: lower-cased city, district and variable, each followed by `/`. */
  function FolderStructure(row: SensorRecord): string
  {
    Lower(row.city) + "/" + Lower(row.district) + "/" + Lower(row.variable) + "/"
  }

  /** Where the processed file is written: the folder followed by the new file name. */
  function DestinationPath(row: SensorRecord, key: string): string
  {
    var (start, end) := Timestamps(key);
    FolderStructure(row) + NewFileName(row, start, end)
  }

  /**
   * The destination splits on `/` into the lower-cased city, district and variable and
   * the new file name, provided none of them holds a `/`.
   */
  lemma DestinationSegments(row: SensorRecord, key: string)
    requires '/' !in row.city && '/' !in row.district && '/' !in row.variable
    requires '/' !in NewFileName(row, Timestamps(key).0, Timestamps(key).1)
    ensures Split(DestinationPath(row, key), '/') ==
      [Lower(row.city), Lower(row.district), Lower(row.variable),
       NewFileName(row, Timestamps(key).0, Timestamps(key).1)]
  {
    var name := NewFileName(row, Timestamps(key).0, Timestamps(key).1);
    LowerKeeps(row.city, '/');
    LowerKeeps(row.district, '/');
    LowerKeeps(row.variable, '/');
    var c, d, v := Lower(row.city), Lower(row.district), Lower(row.variable);
    assert DestinationPath(row, key) == c + "/" + d + "/" + v + "/" + name;
    SplitFour(c, d, v, name, '/');
  }
}
