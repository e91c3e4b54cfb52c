/**
 The gNB log of the relay server: a CSV file that grows by one row per call and, when a call
 brings a measurement it has no column for, is read back, truncated and rewritten with the
 new column added.
 */
module CsvLog {
  import opened Wrappers

  /** One line of the file, as the list of its cells; the first line is the header. */
  type Line = seq<string>

  /** A row in memory, by column name. */
  type Row = map<string, string>

  /** `name`, `id` and `value` are absent when the message lacks them. */
  datatype Measurement = Measurement(name: Option<string>, id: Option<string>, value: Option<string>)

  const BASE_COLUMNS: seq<string> := ["timestamp", "meid", "cell_id", "format"]

  /** A dot or a space in a measurement name becomes an underscore. */
  function Label(name: string): string {
    seq(|name|, i requires 0 <= i < |name| => if name[i] == '.' || name[i] == ' ' then '_' else name[i])
  }

  function ColumnOf(m: Measurement): string {
    Label(match m.name
          case Some(name) => name
          case None => "id_" + match m.id case Some(id) => id case None => "unknown")
  }

  function ValueOf(m: Measurement): string {
    match m.value case Some(v) => v case None => ""
  }

  function BaseRow(timestamp: string, meid: string, cellId: string, format: string): Row {
    map["timestamp" := timestamp, "meid" := meid, "cell_id" := cellId, "format" := format]
  }

  // ----- Reading and writing lines -----

  /** A cell by column name: the last column of that name, and empty beyond the end of the line. */
  function Cell(header: Line, line: Line, column: string): string {
    if header == [] then ""
    else
      var i := |header| - 1;
      if header[i] == column then (if i < |line| then line[i] else "")
      else Cell(header[..i], line, column)
  }

  /** A line as a reader keyed by the header sees it; cells beyond the header are dropped. */
  function ReadRow(header: Line, line: Line): Row {
    map column | column in header :: Cell(header, line, column)
  }

  /** A row as it is written: a column that the row lacks is left empty, other keys are ignored. */
  function WriteRow(fieldnames: Line, row: Row): Line {
    seq(|fieldnames|, i requires 0 <= i < |fieldnames| => if fieldnames[i] in row then row[fieldnames[i]] else "")
  }

  /** What a row says: its columns that are not empty. */
  function Filled(row: Row): Row {
    map column | column in row && row[column] != "" :: row[column]
  }

  function Restricted(row: Row, fieldnames: Line): Row {
    map column | column in row && column in fieldnames :: row[column]
  }

  /** What the lines of a file say, row by row. */
  function Rows(lines: seq<Line>): seq<Row> {
    if lines == [] then []
    else seq(|lines| - 1, i requires 0 <= i < |lines| - 1 => Filled(ReadRow(lines[0], lines[i + 1])))
  }

  function ReadAll(lines: seq<Line>): seq<Row> {
    if lines == [] then []
    else seq(|lines| - 1, i requires 0 <= i < |lines| - 1 => ReadRow(lines[0], lines[i + 1]))
  }

  function WriteAll(fieldnames: Line, rows: seq<Row>): seq<Line> {
    [fieldnames] + seq(|rows|, i requires 0 <= i < |rows| => WriteRow(fieldnames, rows[i]))
  }

  lemma WriteAllStep(fieldnames: Line, rows: seq<Row>)
    ensures WriteAll(fieldnames, []) == [fieldnames]
    ensures forall k :: 0 <= k < |rows| ==>
              WriteAll(fieldnames, rows[..k + 1]) == WriteAll(fieldnames, rows[..k]) + [WriteRow(fieldnames, rows[k])]
  {
  }

  // ----- One call, on values -----

  /** The columns known to the server, and the lines of the file. */
  datatype Log = Log(fieldnames: Line, lines: seq<Line>) {
    ghost predicate HeaderOk() {
      lines != [] && lines[0] == fieldnames
    }
  }

  function Grown(log: Log, column: string): Log {
    var fieldnames := log.fieldnames + [column];
    Log(fieldnames, WriteAll(fieldnames, ReadAll(log.lines)))
  }

  function WithColumn(log: Log, column: string): Log {
    if column in log.fieldnames then log else Grown(log, column)
  }

  /** The log after a call that has `row` so far and the measurements `todo` still to go. */
  function Written(log: Log, row: Row, todo: seq<Measurement>): Log
    decreases |todo|
  {
    if todo == [] then log.(lines := log.lines + [WriteRow(log.fieldnames, row)])
    else
      var column := ColumnOf(todo[0]);
      Written(WithColumn(log, column), row[column := ValueOf(todo[0])], todo[1..])
  }

  /** The row of a call: later measurements of the same column win. */
  function FullRow(row: Row, todo: seq<Measurement>): Row
    decreases |todo|
  {
    if todo == [] then row else FullRow(row[ColumnOf(todo[0]) := ValueOf(todo[0])], todo[1..])
  }

  // ----- The server -----

  class GnbLog {
    var fieldnames: Line
    var file: Option<seq<Line>>
    var hasWriter: bool

    constructor (file: Option<seq<Line>>)
      ensures this.file == file && !hasWriter
    {
      this.file, fieldnames, hasWriter := file, [], false;
    }

    function Lines(): seq<Line>
      reads this
    {
      match file case Some(lines) => lines case None => []
    }

    function Contents(): Log
      reads this
    {
      Log(fieldnames, Lines())
    }

    /** Takes the columns from the header of the file; starts a file that is absent with one. */
    method InitCsvFiles()
      modifies this
      ensures hasWriter && file.Some?
      ensures Lines() == if old(file).None? then [fieldnames] else old(Lines())
      ensures old(Lines()) != [] && old(Lines())[0] != [] ==> fieldnames == old(Lines())[0]
      ensures old(Lines()) == [] ==> fieldnames == BASE_COLUMNS
      ensures Contents().HeaderOk() <==> old(file).None? || (old(Lines()) != [] && old(Lines())[0] != [])
    {
      var fileExists := file.Some?;
      fieldnames := BASE_COLUMNS;
      if fileExists && file.value != [] && file.value[0] != [] {
        fieldnames := file.value[0];
      }
      hasWriter := true;
      if !fileExists {
        file := Some([fieldnames]);
      }
    }

    method ReadExisting() returns (rows: seq<Row>)
      ensures rows == ReadAll(Lines())
    {
      rows := [];
      if file.Some? && file.value != [] {
        var header := file.value[0];
        for i := 1 to |file.value|
          invariant rows == ReadAll(file.value[..i])
        {
          rows := rows + [ReadRow(header, file.value[i])];
        }
        assert file.value[..|file.value|] == file.value;
      }
    }

    /** Reads the file back, truncates it, and writes it again with one more column. */
    method AddColumn(column: string)
      requires file.Some?
      modifies this`fieldnames, this`file
      ensures file.Some? && Contents() == Grown(old(Contents()), column)
    {
      hide WriteAll, WriteRow, ReadRow;
      ghost var before := Contents();
      fieldnames := fieldnames + [column];
      var existing := ReadExisting();
      file := Some([]);
      file := Some(file.value + [fieldnames]);
      WriteAllStep(fieldnames, existing);
      assert file.value == [fieldnames] && existing[..0] == [];
      for k := 0 to |existing|
        invariant file == Some(WriteAll(fieldnames, existing[..k]))
        invariant fieldnames == before.fieldnames + [column]
      {
        file := Some(file.value + [WriteRow(fieldnames, existing[k])]);
      }
      assert existing[..|existing|] == existing;
    }

    method WriteGnbCsv(timestamp: string, meid: string, cellId: string, format: string,
                       measurements: seq<Measurement>)
      requires hasWriter ==> file.Some?
      modifies this
      ensures hasWriter == old(hasWriter) && (hasWriter ==> file.Some?)
      ensures !hasWriter ==> Contents() == old(Contents())
      ensures hasWriter ==>
                Contents() == Written(old(Contents()), BaseRow(timestamp, meid, cellId, format), measurements)
    {
      if !hasWriter {
        return;
      }
      var row := BaseRow(timestamp, meid, cellId, format);
      for n := 0 to |measurements|
        invariant hasWriter && file.Some?
        invariant Written(Contents(), row, measurements[n..]) ==
                  Written(old(Contents()), BaseRow(timestamp, meid, cellId, format), measurements)
      {
        var column := ColumnOf(measurements[n]);
        row := row[column := ValueOf(measurements[n])];
        assert measurements[n..][1..] == measurements[n + 1..];
        if column !in fieldnames {
          AddColumn(column);
        }
      }
      file := Some(file.value + [WriteRow(fieldnames, row)]);
    }
  }

  // ----- Growing keeps what the log says -----

  lemma {:induction false} CellWritten(fieldnames: Line, n: nat, row: Row, column: string)
    requires n <= |fieldnames| && column in fieldnames[..n]
    ensures Cell(fieldnames[..n], WriteRow(fieldnames, row), column) == if column in row then row[column] else ""
  {
    if fieldnames[n - 1] != column {
      assert fieldnames[..n][..n - 1] == fieldnames[..n - 1];
      CellWritten(fieldnames, n - 1, row, column);
    }
  }

  /** A row that was written reads back as what it says in the columns of the file. */
  lemma {:induction false} WriteThenRead(fieldnames: Line, row: Row)
    ensures Filled(ReadRow(fieldnames, WriteRow(fieldnames, row))) == Filled(Restricted(row, fieldnames))
  {
    var back := ReadRow(fieldnames, WriteRow(fieldnames, row));
    assert fieldnames[..|fieldnames|] == fieldnames;
    forall column | column in fieldnames
      ensures column in back && back[column] == if column in row then row[column] else ""
    {
      CellWritten(fieldnames, |fieldnames|, row, column);
    }
  }

  lemma RowFillsTheHeader(lines: seq<Line>, i: nat, c: string)
    requires i < |Rows(lines)| && c in Rows(lines)[i]
    ensures lines != [] && c in lines[0]
  {
    hide Cell;
    assert c in ReadRow(lines[0], lines[i + 1]);
  }

  /** Adding a column changes nothing that the log says. */
  lemma {:induction false} GrowthKeepsRows(log: Log, column: string)
    requires log.HeaderOk()
    ensures Grown(log, column).HeaderOk()
    ensures Rows(Grown(log, column).lines) == Rows(log.lines)
  {
    hide Rows, Grown;
    forall i, c | 0 <= i < |Rows(log.lines)| && c in Rows(log.lines)[i] ensures c in log.fieldnames + [column] {
      RowFillsTheHeader(log.lines, i, c);
    }
    GrowthRestrictsRows(log, column);
    GrowthKeepsRowsWhen(log, column);
  }

  lemma {:induction false} RewrittenRowSaysTheSame(header: Line, line: Line, column: string)
    ensures var fieldnames := header + [column];
            Filled(ReadRow(fieldnames, WriteRow(fieldnames, ReadRow(header, line)))) == Filled(ReadRow(header, line))
  {
    var row := ReadRow(header, line);
    WriteThenRead(header + [column], row);
    assert Restricted(row, header + [column]) == row;
  }

  lemma AppendRow(log: Log, row: Row)
    requires log.HeaderOk()
    ensures Rows(log.lines + [WriteRow(log.fieldnames, row)]) ==
            Rows(log.lines) + [Filled(Restricted(row, log.fieldnames))]
  {
    WriteThenRead(log.fieldnames, row);
  }

  /** The columns that a call adds, in the order in which it first mentions them. */
  function AllColumns(fieldnames: Line, todo: seq<Measurement>): Line
    decreases |todo|
  {
    if todo == [] then fieldnames
    else
      var column := ColumnOf(todo[0]);
      AllColumns(if column in fieldnames then fieldnames else fieldnames + [column], todo[1..])
  }

  ghost predicate Measured(todo: seq<Measurement>, column: string) {
    exists i :: 0 <= i < |todo| && ColumnOf(todo[i]) == column
  }

  lemma MeasuredStep(todo: seq<Measurement>, column: string)
    requires todo != []
    ensures Measured(todo, column) <==> ColumnOf(todo[0]) == column || Measured(todo[1..], column)
  {
    if i :| 0 <= i < |todo| && ColumnOf(todo[i]) == column && i > 0 {
      assert ColumnOf(todo[1..][i - 1]) == column;
    }
    if i :| 0 <= i < |todo| - 1 && ColumnOf(todo[1..][i]) == column {
      assert ColumnOf(todo[i + 1]) == column;
    }
  }

  lemma {:induction false} ColumnsOnlyGrow(fieldnames: Line, todo: seq<Measurement>)
    ensures fieldnames <= AllColumns(fieldnames, todo)
    ensures NoDuplicates(fieldnames) ==> NoDuplicates(AllColumns(fieldnames, todo))
    ensures forall c :: c in AllColumns(fieldnames, todo) <==> c in fieldnames || Measured(todo, c)
    decreases |todo|
  {
    if todo != [] {
      var column := ColumnOf(todo[0]);
      var next := if column in fieldnames then fieldnames else fieldnames + [column];
      ColumnsOnlyGrow(next, todo[1..]);
      forall c ensures c in AllColumns(fieldnames, todo) <==> c in fieldnames || Measured(todo, c) {
        MeasuredStep(todo, c);
      }
    }
  }

  /**
   Schema growth preserves meaning. However many columns a call introduces, the header on disk
   is the server's column list, with the old columns first and none twice; every earlier row
   says what it said before, so it is empty in the new columns; and exactly one row is added,
   which says what the call said in the columns of the file.
   */
  lemma {:induction false} CallAddsOneRow(log: Log, row: Row, todo: seq<Measurement>)
    requires log.HeaderOk()
    ensures Written(log, row, todo).HeaderOk()
    ensures Written(log, row, todo).fieldnames == AllColumns(log.fieldnames, todo)
    ensures log.fieldnames <= Written(log, row, todo).fieldnames
    ensures NoDuplicates(log.fieldnames) ==> NoDuplicates(Written(log, row, todo).fieldnames)
    ensures Rows(Written(log, row, todo).lines) ==
            Rows(log.lines) + [Filled(Restricted(FullRow(row, todo), AllColumns(log.fieldnames, todo)))]
    decreases |todo|
  {
    ColumnsOnlyGrow(log.fieldnames, todo);
    if todo == [] {
      AppendRow(log, row);
    } else {
      var column := ColumnOf(todo[0]);
      if column !in log.fieldnames {
        GrowthKeepsRows(log, column);
      }
      CallAddsOneRow(WithColumn(log, column), row[column := ValueOf(todo[0])], todo[1..]);
    }
  }

  lemma {:induction false} FullRowKeys(row: Row, todo: seq<Measurement>)
    ensures forall c :: c in FullRow(row, todo) <==> c in row || Measured(todo, c)
    decreases |todo|
  {
    if todo != [] {
      FullRowKeys(row[ColumnOf(todo[0]) := ValueOf(todo[0])], todo[1..]);
      forall c ensures c in FullRow(row, todo) <==> c in row || Measured(todo, c) {
        MeasuredStep(todo, c);
      }
    }
  }

  /**
   What the new row keeps, column by column. A column is kept exactly when the file has it or
   the call measures it, so every measurement is; nothing is lost exactly when all base columns are kept.
   */
  lemma {:induction false} NothingIsLost(log: Log, row: Row, todo: seq<Measurement>)
    ensures var full, kept := FullRow(row, todo), Restricted(FullRow(row, todo), AllColumns(log.fieldnames, todo));
            && (forall c :: c in full ==> (c in kept <==> c in log.fieldnames || Measured(todo, c)))
            && (forall c :: c in kept ==> c in full && kept[c] == full[c])
            && (forall c :: Measured(todo, c) ==> c in kept)
            && (kept == full <==> forall c :: c in row ==> c in log.fieldnames || Measured(todo, c))
  {
    ColumnsOnlyGrow(log.fieldnames, todo);
    FullRowKeys(row, todo);
    var full := FullRow(row, todo);
    var kept := Restricted(full, AllColumns(log.fieldnames, todo));
    if kept == full {
      forall c | c in row ensures c in log.fieldnames || Measured(todo, c) {
        assert c in kept;
      }
    }
  }

  /** The row of a call holds, for each column, the last value measured, or else what it held before. */
  lemma {:induction false} LastValueWins(row: Row, todo: seq<Measurement>)
    ensures forall i :: 0 <= i < |todo| && !Measured(todo[i + 1..], ColumnOf(todo[i])) ==>
              ColumnOf(todo[i]) in FullRow(row, todo) && FullRow(row, todo)[ColumnOf(todo[i])] == ValueOf(todo[i])
    ensures forall c :: c in row && !Measured(todo, c) ==> c in FullRow(row, todo) && FullRow(row, todo)[c] == row[c]
    decreases |todo|
  {
    if todo != [] {
      var column := ColumnOf(todo[0]);
      var row' := row[column := ValueOf(todo[0])];
      LastValueWins(row', todo[1..]);
      forall c ensures Measured(todo, c) <==> c == column || Measured(todo[1..], c) {
        MeasuredStep(todo, c);
      }
      forall i | 0 <= i < |todo| && !Measured(todo[i + 1..], ColumnOf(todo[i]))
        ensures ColumnOf(todo[i]) in FullRow(row, todo) && FullRow(row, todo)[ColumnOf(todo[i])] == ValueOf(todo[i])
      {
        if i > 0 {
          assert todo[1..][i - 1] == todo[i] && todo[1..][i..] == todo[i + 1..];
        }
      }
    }
  }

  // ----- Files without a header -----

  /**
   The header on disk after a call, whatever the file was before: it is the server's column list
   exactly when the call brings a column the server does not know, so that the file is rewritten,
   or the first line already is that list; in an empty file the first line is the call's own row.
   */
  lemma {:induction false} HeaderAfterCall(log: Log, row: Row, todo: seq<Measurement>)
    ensures Written(log, row, todo).HeaderOk() <==>
            || (exists i :: 0 <= i < |todo| && ColumnOf(todo[i]) !in log.fieldnames)
            || (if log.lines == [] then WriteRow(log.fieldnames, FullRow(row, todo)) == log.fieldnames
                else log.lines[0] == log.fieldnames)
    decreases |todo|
  {
    hide WriteRow, ReadRow, ColumnOf, ValueOf;
    if todo != [] {
      var column := ColumnOf(todo[0]);
      assert todo == [todo[0]] + todo[1..];
      if column in log.fieldnames {
        HeaderAfterCall(log, row[column := ValueOf(todo[0])], todo[1..]);
      } else {
        var grown := Grown(log, column);
        assert grown.HeaderOk();
        HeaderAfterCall(grown, row[column := ValueOf(todo[0])], todo[1..]);
      }
    }
  }

  /**
   What a rewrite keeps, whatever the first line is: of each row, the cells in columns that the
   server knows. The first line itself is taken for the header and is replaced.
   */
  lemma {:induction false} GrowthRestrictsRows(log: Log, column: string)
    ensures Grown(log, column).HeaderOk()
    ensures |Rows(Grown(log, column).lines)| == |Rows(log.lines)|
    ensures forall i :: 0 <= i < |Rows(log.lines)| ==>
              Rows(Grown(log, column).lines)[i] == Restricted(Rows(log.lines)[i], log.fieldnames + [column])
  {
    hide ReadRow, WriteRow;
    var fieldnames := log.fieldnames + [column];
    forall i | 0 <= i < |Rows(log.lines)|
      ensures Rows(Grown(log, column).lines)[i] == Restricted(Rows(log.lines)[i], fieldnames)
    {
      var row := ReadRow(log.lines[0], log.lines[i + 1]);
      WriteThenRead(fieldnames, row);
      assert Filled(Restricted(row, fieldnames)) == Restricted(Filled(row), fieldnames);
    }
  }

  /** So a rewrite keeps all rows exactly when the server knows every column that they fill. */
  lemma {:induction false} GrowthKeepsRowsWhen(log: Log, column: string)
    ensures Rows(Grown(log, column).lines) == Rows(log.lines) <==>
            forall i, c :: 0 <= i < |Rows(log.lines)| && c in Rows(log.lines)[i] ==> c in log.fieldnames + [column]
  {
    hide Rows, Grown;
    GrowthRestrictsRows(log, column);
    var rows, fieldnames := Rows(log.lines), log.fieldnames + [column];
    if forall i, c :: 0 <= i < |rows| && c in rows[i] ==> c in fieldnames {
      assert forall i :: 0 <= i < |rows| ==> Restricted(rows[i], fieldnames) == rows[i];
    } else {
      var i, c :| 0 <= i < |rows| && c in rows[i] && c !in fieldnames;
      assert c !in Restricted(rows[i], fieldnames);
    }
  }

  lemma BaseLine(timestamp: string, meid: string, cellId: string, format: string)
    ensures WriteRow(BASE_COLUMNS, BaseRow(timestamp, meid, cellId, format)) == [timestamp, meid, cellId, format]
  {
    assert BASE_COLUMNS[0] == "timestamp" && BASE_COLUMNS[1] == "meid";
    assert BASE_COLUMNS[2] == "cell_id" && BASE_COLUMNS[3] == "format";
  }

  const FIRST: Line := ["1", "m", "c", "F1"]
  const SECOND: Line := ["2", "m", "c", "F1"]

  /** A measurement that bears the name of a base column. */
  const OF_FORMAT: Measurement := Measurement(Some("format"), None, Some("F1"))

  /** A file that exists but is empty: the row of the first call stands where the header should. */
  lemma ADataRowBecomesTheHeader()
    ensures var one := Written(Log(BASE_COLUMNS, []), BaseRow("1", "m", "c", "F1"), [OF_FORMAT]);
            var two := Written(one, BaseRow("2", "m", "c", "F1"), [OF_FORMAT]);
            && !one.HeaderOk() && Rows(one.lines) == []
            && two == Log(BASE_COLUMNS, [FIRST, SECOND]) && |Rows(two.lines)| == 1
  {
    BaseLine("1", "m", "c", "F1");
    BaseLine("2", "m", "c", "F1");
    CallOfFormat([], "1");
    CallOfFormat([FIRST], "2");
    hide WriteRow, BaseRow, Written;
    assert Written(Log(BASE_COLUMNS, []), BaseRow("1", "m", "c", "F1"), [OF_FORMAT]) == Log(BASE_COLUMNS, [FIRST]);
    assert FIRST[0] == "1" && BASE_COLUMNS[0] == "timestamp";
    assert |FIRST[0]| != |BASE_COLUMNS[0]|;
  }

  lemma CallOfFormat(lines: seq<Line>, timestamp: string)
    ensures Written(Log(BASE_COLUMNS, lines), BaseRow(timestamp, "m", "c", "F1"), [OF_FORMAT]) ==
            Log(BASE_COLUMNS, lines + [WriteRow(BASE_COLUMNS, BaseRow(timestamp, "m", "c", "F1"))])
  {
    hide WriteRow;
    var row := BaseRow(timestamp, "m", "c", "F1");
    assert Label("format") == "format" && BASE_COLUMNS[3] == "format";
    assert row["format" := "F1"] == row;
    assert [OF_FORMAT][1..] == [];
    assert Written(Log(BASE_COLUMNS, lines), row, []) == Log(BASE_COLUMNS, lines + [WriteRow(BASE_COLUMNS, row)]);
  }

  /** The next new column then leaves nothing of either of the two rows. */
  lemma TheNextColumnLosesIt()
    ensures var grown := Grown(Log(BASE_COLUMNS, [FIRST, SECOND]), "x");
            grown.HeaderOk() && Rows(grown.lines) == [map[]]
  {
    var log := Log(BASE_COLUMNS, [FIRST, SECOND]);
    GrowthRestrictsRows(log, "x");
    var row := Rows(log.lines)[0];
    forall c | c in row ensures c !in BASE_COLUMNS + ["x"] {
      assert c in FIRST;
      NotAColumn(c);
    }
    hide Grown;
    assert Restricted(row, BASE_COLUMNS + ["x"]) == map[];
  }

  lemma NotAColumn(c: string)
    requires c in FIRST
    ensures c !in BASE_COLUMNS + ["x"]
  {
    assert |c| <= 2 && c != "x";
    assert forall i :: 0 <= i < 4 ==> |BASE_COLUMNS[i]| > 2;
  }
}
