/**
 * Resolving an uploaded object key to its row of the lookup table
 * (`find_sensor_id` in tansform_raw_data.py).
 */
module Lookup {
  import opened Wrappers
  import opened Strings

  /** One row of the lookup table: its `File Name`, `City`, `District`, `Variable`, `Tank` and `Sensor ID` cells. */
  datatype SensorRecord = SensorRecord(
    fileName: string, city: string, district: string, variable: string, tank: string, sensorId: string)

  /** The `ValueError` raised when no row matches; it carries the key as given. */
  datatype LookupError = SensorNotFound(key: string)

  /** The key without its last two `_`-tokens, stripped of white space; folders are kept. */
  function BaseFileName(key: string): string
  {
    Strip(Join(AllButLastTwo(Split(key, '_')), '_'))
  }

  /** The rows whose `File Name` equals `name`, in table order. */
  function Matching(table: seq<SensorRecord>, name: string): (r: seq<SensorRecord>)
    ensures forall i :: 0 <= i < |r| ==> r[i].fileName == name && r[i] in table
    ensures forall i :: 0 <= i < |table| && table[i].fileName == name ==> table[i] in r
    ensures |r| == 0 <==> forall i :: 0 <= i < |table| ==> table[i].fileName != name
    decreases |table|
  {
    if |table| == 0 then []
    else (if table[0].fileName == name then [table[0]] else []) + Matching(table[1..], name)
  }

  /** One row is kept exactly when it is named `name`. */
  lemma MatchingOne(row: SensorRecord, name: string)
    ensures Matching([row], name) == if row.fileName == name then [row] else []
  {
    assert [row][1..] == [];
  }

  /** Filtering keeps table order: the rows kept from a concatenation are those of each part, in turn. */
  lemma {:induction false} MatchingAppend(a: seq<SensorRecord>, b: seq<SensorRecord>, name: string)
    ensures Matching(a + b, name) == Matching(a, name) + Matching(b, name)
    decreases |a|
  {
    if |a| > 0 {
      assert (a + b)[1..] == a[1..] + b;
      MatchingAppend(a[1..], b, name);
    } else {
      assert a + b == b;
    }
  }

  /** The first matching row, or the error raised when there is none. */
  function FindSensorId(key: string, table: seq<SensorRecord>): (r: Result<SensorRecord, LookupError>)
    ensures r.Success? ==> r.value.fileName == BaseFileName(key) && r.value in table
    ensures r.Failure? <==> forall i :: 0 <= i < |table| ==> table[i].fileName != BaseFileName(key)
    ensures r.Failure? ==> r.error == SensorNotFound(key)
  {
    var found := Matching(table, BaseFileName(key));
    if |found| == 0 then Failure(SensorNotFound(key)) else Success(found[0])
  }

  /** The first matching row heads the list of matching rows. */
  lemma {:induction false} MatchingStartsWithFirst(table: seq<SensorRecord>, name: string, i: nat)
    requires i < |table| && table[i].fileName == name
    requires forall j :: 0 <= j < i ==> table[j].fileName != name
    ensures |Matching(table, name)| > 0 && Matching(table, name)[0] == table[i]
    decreases i
  {
    if i > 0 {
      MatchingStartsWithFirst(table[1..], name, i - 1);
    }
  }

  /** Of several rows with the key's base name, the one earliest in the table is chosen. */
  lemma FirstMatchChosen(key: string, table: seq<SensorRecord>, i: nat)
    requires i < |table| && table[i].fileName == BaseFileName(key)
    requires forall j :: 0 <= j < i ==> table[j].fileName != BaseFileName(key)
    ensures FindSensorId(key, table) == Success(table[i])
  {
    MatchingStartsWithFirst(table, BaseFileName(key), i);
  }

  /** The base name of `prefix_start_end` is the stripped prefix, folders included. */
  lemma BaseOfStampedKey(prefix: string, start: string, end: string)
    requires '_' !in start && '_' !in end
    ensures BaseFileName(prefix + "_" + start + "_" + end) == Strip(prefix)
  {
    SplitLastTwo(prefix, start, end, '_');
    var pieces := Split(prefix, '_');
    assert AllButLastTwo(pieces + [start, end]) == pieces;
    JoinSplit(prefix, '_');
  }

  /** The base name of a key whose stem and dates hold no `_` and whose ends hold no white space. */
  lemma BaseOfPlainKey(key: string, stem: string, start: string, end: string)
    requires key == stem + "_" + start + "_" + end
    requires '_' !in start && '_' !in end
    requires |stem| > 0 && !IsSpace(stem[0]) && !IsSpace(stem[|stem| - 1])
    ensures BaseFileName(key) == stem
  {
    BaseOfStampedKey(stem, start, end);
    StripUnchanged(stem);
  }

  /**
   * Matching is on the whole object key: a raw file stored under folders is not resolved
   * by a row whose `File Name` is only the file's stem.
   */
  lemma FolderKeyNotResolvedByStem(folders: string, stem: string, start: string, end: string, row: SensorRecord)
    requires |folders| > 0 && !IsSpace(folders[0])
    requires |stem| > 0 && !IsSpace(stem[|stem| - 1])
    requires '_' !in start && '_' !in end
    requires row.fileName == stem
    ensures var key := folders + "/" + stem + "_" + start + "_" + end;
      FindSensorId(key, [row]) == Failure(SensorNotFound(key))
  {
    var path := folders + "/" + stem;
    assert folders + "/" + stem + "_" + start + "_" + end == path + "_" + start + "_" + end;
    BaseOfPlainKey(path + "_" + start + "_" + end, path, start, end);
    assert |path| > |stem|;
  }

  /** A key at the top of the bucket is resolved by the row naming its stem. */
  lemma TopLevelKeyResolvedByStem(stem: string, start: string, end: string, row: SensorRecord)
    requires |stem| > 0 && !IsSpace(stem[0]) && !IsSpace(stem[|stem| - 1])
    requires '_' !in start && '_' !in end
    requires row.fileName == stem
    ensures FindSensorId(stem + "_" + start + "_" + end, [row]) == Success(row)
  {
    var key := stem + "_" + start + "_" + end;
    BaseOfPlainKey(key, stem, start, end);
    FirstMatchChosen(key, [row], 0);
  }
}
