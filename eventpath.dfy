/**
 * The storage-event handler's decomposition of an object name (main.py,
 * `hello_gcs`): three folders, the unique id they form, the file name and the
 * location, start date and end date read from the file name.
 */
module EventPath {
  import opened Wrappers
  import opened Strings

  /** What the handler extracts from `city/district/sensor_type/.../file_name`. */
  datatype EventPath = EventPath(
    city: string,
    district: string,
    sensorType: string,
    uniqueId: string,
    fileName: string,
    location: string,
    startDate: string,
    endDate: string)

  /** The `IndexError`s the handler raises: too few `/`-segments or too few `_`-tokens. */
  datatype PathError = MissingFolders(segments: nat) | MissingDate(tokens: nat)

  /** What the handler reads from a file name `location_start_end.ext`. */
  datatype FileFields = FileFields(location: string, startDate: string, endDate: string)

  /**
   * The handler's reading of a file name: the location is the `_`-join of all tokens but
   * the last two, the start date the second-to-last token and the end date the last
   * token up to its first `.`. The dates hold no `_`, and the end date no `.`.
   */
  function ParseFileName(fileName: string): (r: Result<FileFields, PathError>)
    ensures r.Failure? ==> r.error.MissingDate?
    ensures r.Success? ==> '_' !in r.value.startDate && '_' !in r.value.endDate && '.' !in r.value.endDate
  {
    var tokens := Split(fileName, '_');
    if |tokens| < 2 then Failure(MissingDate(|tokens|))
    else
      var last := tokens[|tokens| - 1];
      SplitFirstIsPrefix(last, '.');
      Success(FileFields(Join(AllButLastTwo(tokens), '_'), tokens[|tokens| - 2], Split(last, '.')[0]))
  }

  /**
   * The handler's reading of an object name. The folder segments and the file name
   * hold no `/`, and the fields read from the file name are those of `ParseFileName`.
   */
  function ParseEventName(name: string): (r: Result<EventPath, PathError>)
    ensures r.Success? ==>
      && '/' !in r.value.city && '/' !in r.value.district && '/' !in r.value.sensorType
      && '/' !in r.value.fileName
    ensures r.Success? ==>
      ParseFileName(r.value.fileName) ==
        Success(FileFields(r.value.location, r.value.startDate, r.value.endDate))
  {
    var parts := Split(name, '/');
    if |parts| < 3 then Failure(MissingFolders(|parts|))
    else
      var fileName := parts[|parts| - 1];
      match ParseFileName(fileName)
      case Failure(e) => Failure(e)
      case Success(f) =>
        Success(EventPath(
          parts[0], parts[1], parts[2], parts[0] + "/" + parts[1] + "/" + parts[2],
          fileName, f.location, f.startDate, f.endDate))
  }

  /**
   * The name is refused for its folders exactly when it has fewer than two `/`, and for
   * its date exactly when it has them but its last segment has no `_`.
   */
  lemma ParseEventNameErrors(name: string)
    ensures var r := ParseEventName(name);
      && (r.Failure? && r.error.MissingFolders? <==> |Split(name, '/')| < 3)
      && (r.Failure? && r.error.MissingDate? <==>
            |Split(name, '/')| >= 3 && '_' !in Split(name, '/')[|Split(name, '/')| - 1])
  {
    var parts := Split(name, '/');
    SplitSingle(parts[|parts| - 1], '_');
  }

  /**
   * On success the name begins with the unique id `city/district/sensor_type`, followed
   * by `/` unless the file name is the third segment itself.
   */
  lemma {:induction false} EventFolders(name: string)
    requires ParseEventName(name).Success?
    ensures var p := ParseEventName(name).value;
      && p.uniqueId == p.city + "/" + p.district + "/" + p.sensorType
      && p.uniqueId <= name
      && (|p.uniqueId| == |name| || name[|p.uniqueId|] == '/')
  {
    var parts := Split(name, '/');
    var p := ParseEventName(name).value;
    JoinSplit(name, '/');
    var n := |parts|;
    var folders := [parts[0], parts[1], parts[2]];
    JoinThree(parts[0], parts[1], parts[2], '/');
    if n > 3 {
      assert parts == folders + parts[3..];
      JoinAppend(folders, parts[3..], '/');
      assert name == p.uniqueId + "/" + Join(parts[3..], '/');
    } else {
      assert parts == folders;
    }
  }

  /** On success the name ends with `/` and the file name. */
  lemma {:induction false} EventFileName(name: string)
    requires ParseEventName(name).Success?
    ensures var p := ParseEventName(name).value;
      |p.fileName| + 1 <= |name| && name[|name| - |p.fileName| - 1..] == "/" + p.fileName
  {
    var parts := Split(name, '/');
    var p := ParseEventName(name).value;
    JoinSplit(name, '/');
    var n := |parts|;
    var init := parts[..n - 1];
    assert parts == init + [parts[n - 1]];
    JoinAppend(init, [parts[n - 1]], '/');
    assert name == Join(init, '/') + "/" + p.fileName;
  }

  /**
   * On success the start date is the file name's second-to-last `_`-token, the location
   * splits back into the tokens before it (and is empty when there are none), and the end
   * date is the last token up to its first `.`.
   */
  lemma {:induction false} FileNameParts(fileName: string)
    requires ParseFileName(fileName).Success?
    ensures var f := ParseFileName(fileName).value;
      var tokens := Split(fileName, '_');
      var last := tokens[|tokens| - 1];
      && |tokens| >= 2
      && f.startDate == tokens[|tokens| - 2]
      && (|tokens| == 2 ==> f.location == "")
      && (|tokens| > 2 ==> Split(f.location, '_') == tokens[..|tokens| - 2])
      && f.endDate <= last && (f.endDate == last || last[|f.endDate|] == '.')
  {
    var tokens := Split(fileName, '_');
    var n := |tokens|;
    SplitFirstIsPrefix(tokens[n - 1], '.');
    if n > 2 {
      SplitJoin(tokens[..n - 2], '_');
    }
  }

  /**
   * On success the file name is the location followed by `_` (both absent when the file
   * name has only two `_`-tokens), the start date, `_` and the last token.
   */
  lemma {:induction false} FileNameRebuilds(fileName: string)
    requires ParseFileName(fileName).Success?
    ensures var f := ParseFileName(fileName).value;
      var tokens := Split(fileName, '_');
      fileName == (if |tokens| == 2 then "" else f.location + "_") + f.startDate + "_" + tokens[|tokens| - 1]
  {
    JoinSplit(fileName, '_');
    JoinLastTwo(Split(fileName, '_'), '_');
  }

  /**
   * The canonical object name `city/district/sensor_type/location_start_end[.ext]` is
   * read back field by field: the three folders, their unique id, the file name, the
   * location, the start date and the end date without the extension.
   */
  lemma ParseBuiltName(
    city: string, district: string, sensorType: string,
    location: string, start: string, end: string, ext: string)
    requires '/' !in city && '/' !in district && '/' !in sensorType
    requires '/' !in location && '/' !in start && '/' !in end && '/' !in ext
    requires '_' !in start && '_' !in end && '_' !in ext
    requires '.' !in end && (ext == "" || ext[0] == '.')
    ensures var fileName := location + "_" + start + "_" + end + ext;
      ParseEventName(city + "/" + district + "/" + sensorType + "/" + fileName) ==
        Success(EventPath(city, district, sensorType, city + "/" + district + "/" + sensorType,
                          fileName, location, start, end))
  {
    var fileName := location + "_" + start + "_" + end + ext;
    var folders := city + "/" + district + "/" + sensorType;
    assert '/' !in fileName;
    SplitFour(city, district, sensorType, fileName, '/');
    assert Split(folders + "/" + fileName, '/') == [city, district, sensorType, fileName];
    var lastToken := end + ext;
    assert '_' !in lastToken;
    assert fileName == location + "_" + start + "_" + lastToken;
    SplitLastTwo(location, start, lastToken, '_');
    var tokens := Split(fileName, '_');
    assert tokens == Split(location, '_') + [start, lastToken];
    assert AllButLastTwo(tokens) == Split(location, '_');
    JoinSplit(location, '_');
    if ext == "" {
      assert lastToken == end;
      SplitNoSep(end, '.');
    } else {
      assert lastToken == end + ['.'] + ext[1..];
      SplitConcat(end, ext[1..], '.');
      SplitNoSep(end, '.');
    }
  }
}
