/**
 * CSV text as the pipeline reads and writes it through pandas: `read_csv` with a
 * one-character separator (first non-blank line is the header), `to_csv` without
 * the index, and the two in-place DataFrame updates the pipeline performs,
 * `data.columns = [...]` and `data.insert(loc, name, value)`.
 */
module Tables {
  import opened Wrappers
  import opened Strings

  /** A parsed CSV file: the header's column names and the data rows below it. */
  datatype Table = Table(columns: seq<string>, rows: seq<seq<string>>)

  /** Every row has one cell per column. */
  predicate Rectangular(t: Table)
  {
    forall i :: 0 <= i < |t.rows| ==> |t.rows[i]| == |t.columns|
  }

  /** No column name and no cell contains the character `c`. */
  predicate CellsFree(t: Table, c: char)
  {
    && (forall j :: 0 <= j < |t.columns| ==> c !in t.columns[j])
    && (forall i, j :: 0 <= i < |t.rows| && 0 <= j < |t.rows[i]| ==> c !in t.rows[i][j])
  }

  datatype CsvError =
    | EmptyData                                  // no line to take the header from
    | TooManyFields(expected: nat, saw: nat)     // a data row wider than the header
    | WrongColumnCount(expected: nat, found: nat) // a shape check of the pipeline failed

  /** A line `read_csv` skips: empty, or made only of spaces and tabs. */
  predicate Blank(line: string)
  {
    forall k :: 0 <= k < |line| ==> line[k] == ' ' || line[k] == '\t'
  }

  /** The lines `read_csv` reads: blank lines are skipped. */
  function NonBlank(lines: seq<string>): (r: seq<string>)
    ensures |r| <= |lines|
    ensures forall i :: 0 <= i < |r| ==> !Blank(r[i]) && r[i] in lines
    decreases |lines|
  {
    if |lines| == 0 then []
    else (if Blank(lines[0]) then [] else [lines[0]]) + NonBlank(lines[1..])
  }

  /** One line is read exactly when it is not blank. */
  lemma NonBlankOne(line: string)
    ensures NonBlank([line]) == if Blank(line) then [] else [line]
  {
    assert [line][1..] == [];
  }

  /** A line of spaces and tabs between the header and a data line is skipped like an empty one. */
  lemma WhitespaceLineSkipped()
    ensures NonBlank(["T;V", " \t", "1;2"]) == ["T;V", "1;2"]
  {
    assert !Blank("T;V") by { assert "T;V"[0] == 'T'; }
    assert !Blank("1;2") by { assert "1;2"[0] == '1'; }
    assert ["T;V", " \t", "1;2"][1..] == [" \t", "1;2"];
    assert [" \t", "1;2"][1..] == ["1;2"];
    NonBlankOne("1;2");
  }

  /** The lines read from a concatenation are those read from each part, in order. */
  lemma {:induction false} NonBlankAppend(a: seq<string>, b: seq<string>)
    ensures NonBlank(a + b) == NonBlank(a) + NonBlank(b)
    decreases |a|
  {
    if |a| > 0 {
      assert (a + b)[1..] == a[1..] + b;
      NonBlankAppend(a[1..], b);
    } else {
      assert a + b == b;
    }
  }

  /** Lines that are all non-blank are read as they are. */
  lemma {:induction false} NonBlankFilled(lines: seq<string>)
    requires forall i :: 0 <= i < |lines| ==> !Blank(lines[i])
    ensures NonBlank(lines) == lines
    decreases |lines|
  {
    if |lines| > 0 {
      NonBlankFilled(lines[1..]);
      assert lines == [lines[0]] + lines[1..];
    }
  }

  /**
   * Writing lines with `'\n'.join` and reading the text back loses only blank lines,
   * which `read_csv` skips anyway.
   */
  lemma {:induction false} RereadJoinedLines(lines: seq<string>)
    requires forall i :: 0 <= i < |lines| ==> '\n' !in lines[i]
    ensures NonBlank(SplitLines(JoinLines(lines))) == NonBlank(lines)
  {
    if |lines| > 0 {
      var text := JoinLines(lines);
      SplitJoin(lines, '\n');
      assert Split(text, '\n') == lines;
      assert NonBlank([""]) == [];
      if |text| == 0 {
        assert Split(text, '\n') == [""];
        assert SplitLines(text) == [];
      } else if lines[|lines| - 1] == "" {
        var init := lines[..|lines| - 1];
        assert SplitLines(text) == init;
        assert lines == init + [""];
        NonBlankAppend(init, [""]);
      } else {
        assert SplitLines(text) == lines;
      }
    }
  }

  /** Missing trailing cells of a short row, which pandas fills with NaN and writes back empty. */
  function Pad(fields: seq<string>, width: nat): seq<string>
    requires |fields| <= width
  {
    fields + seq(width - |fields|, _ => "")
  }

  /** The data rows of `read_csv`: each line split on `sep` and padded to the header's width. */
  function ParseRows(lines: seq<string>, sep: char, width: nat): (r: Result<seq<seq<string>>, CsvError>)
    ensures r.Success? <==> forall i :: 0 <= i < |lines| ==> |Split(lines[i], sep)| <= width
    ensures r.Success? ==> |r.value| == |lines|
    ensures r.Success? ==> forall i :: 0 <= i < |lines| ==>
      |Split(lines[i], sep)| <= width && r.value[i] == Pad(Split(lines[i], sep), width)
    ensures r.Failure? ==> r.error.TooManyFields? && r.error.expected == width < r.error.saw
    decreases |lines|
  {
    if |lines| == 0 then Success([])
    else
      var fields := Split(lines[0], sep);
      if |fields| > width then Failure(TooManyFields(width, |fields|))
      else
        match ParseRows(lines[1..], sep, width)
        case Failure(e) => Failure(e)
        case Success(rest) => Success([Pad(fields, width)] + rest)
  }

  /** `read_csv` on text already broken into lines. */
  function ReadRecords(lines: seq<string>, sep: char): Result<Table, CsvError>
  {
    var records := NonBlank(lines);
    if |records| == 0 then Failure(EmptyData)
    else
      var header := Split(records[0], sep);
      match ParseRows(records[1..], sep, |header|)
      case Failure(e) => Failure(e)
      case Success(rows) => Success(Table(header, rows))
  }

  /** pandas `read_csv` on in-memory text with a one-character separator. */
  function ReadCsv(text: string, sep: char): Result<Table, CsvError>
  {
    ReadRecords(SplitLines(text), sep)
  }

  /**
   * What a successful read gives: a rectangular table with at least one column, whose
   * header is the first non-blank line and which has a row for every later non-blank line.
   */
  lemma {:induction false} ReadCsvShape(text: string, sep: char)
    ensures var records := NonBlank(SplitLines(text));
      && (ReadCsv(text, sep) == Failure(EmptyData) <==> |records| == 0)
      && (ReadCsv(text, sep).Success? ==>
            && Rectangular(ReadCsv(text, sep).value)
            && ReadCsv(text, sep).value.columns == Split(records[0], sep)
            && |ReadCsv(text, sep).value.rows| == |records| - 1)
  {
    var records := NonBlank(SplitLines(text));
    if |records| > 0 {
      var header := Split(records[0], sep);
      var parsed := ParseRows(records[1..], sep, |header|);
      if parsed.Success? {
        forall i | 0 <= i < |parsed.value| ensures |parsed.value[i]| == |header| {
          assert parsed.value[i] == Pad(Split(records[1..][i], sep), |header|);
        }
      }
    }
  }

  /**
   * `read_csv` line by line: it succeeds exactly when there is a non-blank line and no
   * later one has more fields than it, and then the header is that line's fields and
   * row `i` is the fields of the non-blank line after it, padded to the header's width.
   */
  lemma {:induction false} ReadRecordsRows(lines: seq<string>, sep: char)
    ensures var records := NonBlank(lines);
      var r := ReadRecords(lines, sep);
      && (r.Success? <==>
            && |records| >= 1
            && forall i :: 1 <= i < |records| ==> |Split(records[i], sep)| <= |Split(records[0], sep)|)
      && (r.Success? ==>
            && r.value.columns == Split(records[0], sep)
            && |r.value.rows| == |records| - 1
            && forall i :: 0 <= i < |r.value.rows| ==>
                 && |Split(records[i + 1], sep)| <= |r.value.columns|
                 && r.value.rows[i] == Pad(Split(records[i + 1], sep), |r.value.columns|))
  {
    var records := NonBlank(lines);
    if |records| >= 1 {
      var width := |Split(records[0], sep)|;
      var parsed := ParseRows(records[1..], sep, width);
      if parsed.Success? {
        forall i | 1 <= i < |records| ensures |Split(records[i], sep)| <= width {
          assert records[1..][i - 1] == records[i];
        }
      } else {
        var k :| 0 <= k < |records[1..]| && |Split(records[1..][k], sep)| > width;
        assert records[1..][k] == records[k + 1];
      }
    }
  }

  /** What `read_csv` returns is rectangular. */
  lemma ReadCsvRectangular(text: string, sep: char)
    requires ReadCsv(text, sep).Success?
    ensures Rectangular(ReadCsv(text, sep).value)
  {
    ReadCsvShape(text, sep);
  }

  /** Every line of a text without `c` lacks `c`. */
  lemma {:induction false} SplitLinesFree(text: string, c: char)
    requires c !in text
    ensures forall i :: 0 <= i < |SplitLines(text)| ==> c !in SplitLines(text)[i]
  {
    SplitFree(text, '\n', c);
  }

  /** A character no line holds appears in no column name and no cell that `read_csv` returns. */
  lemma {:induction false} ReadRecordsFree(lines: seq<string>, sep: char, c: char)
    requires forall i :: 0 <= i < |lines| ==> c !in lines[i]
    requires ReadRecords(lines, sep).Success?
    ensures CellsFree(ReadRecords(lines, sep).value, c)
  {
    var records := NonBlank(lines);
    assert forall i :: 0 <= i < |records| ==> c !in records[i];
    var header := Split(records[0], sep);
    SplitFree(records[0], sep, c);
    var rows := ParseRows(records[1..], sep, |header|).value;
    forall i, j | 0 <= i < |rows| && 0 <= j < |rows[i]| ensures c !in rows[i][j] {
      var fields := Split(records[1..][i], sep);
      SplitFree(records[1..][i], sep, c);
      assert rows[i] == Pad(fields, |header|);
      if j >= |fields| {
        assert rows[i][j] == "";
      } else {
        assert rows[i][j] == fields[j];
      }
    }
  }

  /** The lines `to_csv` writes: the header, then each row, cells joined with commas. */
  function CsvLines(t: Table): seq<string>
  {
    [Join(t.columns, ',')] + seq(|t.rows|, i requires 0 <= i < |t.rows| => Join(t.rows[i], ','))
  }

  /** pandas `to_csv` without the index: every line ends with a line break. */
  function ToCsv(t: Table): string
  {
    JoinLines(CsvLines(t)) + "\n"
  }

  /** A comma-join of two or more pieces holds a comma, so it is not blank. */
  lemma JoinNotBlank(parts: seq<string>)
    requires |parts| >= 2
    ensures !Blank(Join(parts, ','))
  {
    var line := Join(parts, ',');
    assert line == parts[0] + [','] + Join(parts[1..], ',');
    assert line[|parts[0]|] == ',';
  }

  /** The data lines `to_csv` writes split back into the table's rows. */
  lemma {:induction false} ParseWrittenRows(t: Table)
    requires Rectangular(t) && |t.columns| >= 1 && CellsFree(t, ',')
    ensures ParseRows(CsvLines(t)[1..], ',', |t.columns|) == Success(t.rows)
  {
    var data := CsvLines(t)[1..];
    var width := |t.columns|;
    assert |data| == |t.rows|;
    forall i | 0 <= i < |data| ensures Split(data[i], ',') == t.rows[i] {
      assert data[i] == Join(t.rows[i], ',');
      SplitJoin(t.rows[i], ',');
    }
    var parsed := ParseRows(data, ',', width);
    assert parsed.Success?;
    forall i | 0 <= i < |t.rows| ensures parsed.value[i] == t.rows[i] {
      assert Pad(t.rows[i], width) == t.rows[i];
    }
    assert parsed.value == t.rows;
  }

  /** The lines `to_csv` writes are all read again, none of them blank. */
  lemma {:induction false} WrittenLinesRead(t: Table)
    requires Rectangular(t) && |t.columns| >= 2
    requires CellsFree(t, '\n')
    ensures NonBlank(SplitLines(ToCsv(t))) == CsvLines(t)
  {
    var lines := CsvLines(t);
    JoinFree(t.columns, ',', '\n');
    JoinNotBlank(t.columns);
    forall i | 0 <= i < |lines| ensures '\n' !in lines[i] && !Blank(lines[i]) {
      if i > 0 {
        assert lines[i] == Join(t.rows[i - 1], ',');
        JoinFree(t.rows[i - 1], ',', '\n');
        JoinNotBlank(t.rows[i - 1]);
      }
    }
    SplitLinesTerminated(lines);
    NonBlankFilled(lines);
  }

  /**
   * Reading back what `to_csv` wrote gives the same table, for a rectangular table of two
   * or more columns whose cells hold no comma and no line break.
   */
  lemma {:induction false} ReadCsvToCsv(t: Table)
    requires Rectangular(t) && |t.columns| >= 2
    requires CellsFree(t, ',') && CellsFree(t, '\n')
    ensures ReadCsv(ToCsv(t), ',') == Success(t)
  {
    WrittenLinesRead(t);
    SplitJoin(t.columns, ',');
    ParseWrittenRows(t);
  }

  /** A pandas DataFrame that the pipeline updates in place. */
  class Frame {
    var columns: seq<string>
    var rows: seq<seq<string>>

    ghost predicate Valid()
      reads this
    {
      Rectangular(Table(columns, rows))
    }

    /** The frame's contents as a table value. */
    function Value(): Table
      reads this
    {
      Table(columns, rows)
    }

    /** The number of columns, pandas `shape[1]`. */
    function Width(): nat
      reads this
    {
      |columns|
    }

    constructor (t: Table)
      requires Rectangular(t)
      ensures Valid() && Value() == t
    {
      columns := t.columns;
      rows := t.rows;
    }

    /** Assigning new column names: pandas refuses a list of the wrong length and changes nothing. */
    method SetColumns(names: seq<string>) returns (ok: bool)
      requires Valid()
      modifies this
      ensures Valid()
      ensures ok <==> |names| == |old(columns)|
      ensures columns == (if ok then names else old(columns))
      ensures rows == old(rows)
    {
      ok := |names| == |columns|;
      if ok {
        columns := names;
      }
    }

    /**
     * `data.insert(loc, name, value)`: a new column `name` at position `loc`, holding
     * `value` in every row. pandas refuses a position past the end or a name already
     * present, and changes nothing.
     */
    method Insert(loc: nat, name: string, value: string) returns (ok: bool)
      requires Valid()
      modifies this
      ensures Valid()
      ensures ok <==> loc <= |old(columns)| && name !in old(columns)
      ensures !ok ==> columns == old(columns) && rows == old(rows)
      ensures ok ==> columns == old(columns)[..loc] + [name] + old(columns)[loc..]
      ensures ok ==> |rows| == |old(rows)|
      ensures ok ==> forall i :: 0 <= i < |rows| ==>
        rows[i] == old(rows)[i][..loc] + [value] + old(rows)[i][loc..]
    {
      ok := loc <= |columns| && name !in columns;
      if !ok {
        return;
      }
      var updated: seq<seq<string>> := [];
      var i := 0;
      while i < |rows|
        invariant 0 <= i <= |rows|
        invariant |updated| == i
        invariant forall k :: 0 <= k < i ==> updated[k] == rows[k][..loc] + [value] + rows[k][loc..]
      {
        updated := updated + [rows[i][..loc] + [value] + rows[i][loc..]];
        i := i + 1;
      }
      columns := columns[..loc] + [name] + columns[loc..];
      rows := updated;
    }
  }
}
