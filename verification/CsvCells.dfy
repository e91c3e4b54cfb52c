/** What the cells of the log mean: columns by name, and rows by their cells. */
module CsvCells {
  import opened Wrappers
  import opened CsvLog

  // ----- Names of columns -----

  predicate IsSeparator(c: char) {
    c == '.' || c == ' ' || c == '_'
  }

  /** A label has no dot or space, and differs from the name only where it has an underscore for one. */
  lemma LabelKeepsTheRest(name: string)
    ensures |Label(name)| == |name| && '.' !in Label(name) && ' ' !in Label(name)
    ensures forall i :: 0 <= i < |name| && Label(name)[i] != name[i] ==>
              Label(name)[i] == '_' && (name[i] == '.' || name[i] == ' ')
  {
  }

  /** Two measurements share a column exactly when their names differ only in dots, spaces and underscores. */
  lemma SameColumnWhen(a: string, b: string)
    ensures Label(a) == Label(b) <==>
            && |a| == |b|
            && forall i :: 0 <= i < |a| ==> a[i] == b[i] || (IsSeparator(a[i]) && IsSeparator(b[i]))
  {
    if Label(a) == Label(b) {
      assert |Label(a)| == |a| && |Label(b)| == |b|;
      forall i | 0 <= i < |a| ensures a[i] == b[i] || (IsSeparator(a[i]) && IsSeparator(b[i])) {
        assert Label(a)[i] == Label(b)[i];
      }
    } else if |a| == |b| {
      var i :| 0 <= i < |a| && Label(a)[i] != Label(b)[i];
      assert a[i] != b[i];
    }
  }

  /** A measurement without a name is named by its id, and one without an id is unknown; a missing value is empty. */
  lemma MissingParts(value: Option<string>)
    ensures ColumnOf(Measurement(None, Some("7"), value)) == "id_7"
    ensures ColumnOf(Measurement(None, None, value)) == "id_unknown"
    ensures ColumnOf(Measurement(Some("a.b c"), Some("7"), value)) == "a_b_c"
    ensures ValueOf(Measurement(None, None, None)) == "" && ValueOf(Measurement(None, None, Some("1"))) == "1"
  {
    assert "id_" + "7" == "id_7" && "id_" + "unknown" == "id_unknown";
    Same("id_7");
    Same("id_unknown");
    assert Label("a.b c") == "a_b_c";
  }

  lemma Same(name: string)
    requires '.' !in name && ' ' !in name
    ensures Label(name) == name
  {
  }

  // ----- Rows by their cells -----

  /** A column is read at the last place where the header has its name. */
  lemma {:induction false} CellAt(header: Line, line: Line, k: nat)
    requires k < |header| && forall j :: k < j < |header| ==> header[j] != header[k]
    ensures Cell(header, line, header[k]) == if k < |line| then line[k] else ""
  {
    var n := |header| - 1;
    if k < n {
      CellAt(header[..n], line, k);
    }
  }

  /** A row says exactly the cells that are not empty, each under the column it stands in. */
  lemma RowsSayTheirCells(lines: seq<Line>, i: nat)
    requires lines != [] && NoDuplicates(lines[0]) && i + 1 < |lines|
    ensures |Rows(lines)| == |lines| - 1
    ensures forall c :: c in Rows(lines)[i] ==> c in lines[0]
    ensures forall k :: 0 <= k < |lines[0]| ==>
              var cell := if k < |lines[i + 1]| then lines[i + 1][k] else "";
              && (lines[0][k] in Rows(lines)[i] <==> cell != "")
              && (cell != "" ==> Rows(lines)[i][lines[0][k]] == cell)
  {
    hide Rows, ReadRow, Cell, Filled;
    RowIs(lines, i);
    var header, line := lines[0], lines[i + 1];
    var row := ReadRow(header, line);
    forall k | 0 <= k < |header|
      ensures header[k] in row && row[header[k]] == if k < |line| then line[k] else ""
    {
      CellAt(header, line, k);
    }
  }

  lemma RowIs(lines: seq<Line>, i: nat)
    requires lines != [] && i + 1 < |lines|
    ensures |Rows(lines)| == |lines| - 1
    ensures var row := ReadRow(lines[0], lines[i + 1]);
            && Rows(lines)[i] == Filled(row)
            && (forall c :: c in row <==> c in lines[0])
            && (forall c :: c in row ==> row[c] == Cell(lines[0], lines[i + 1], c))
            && (forall c :: c in Filled(row) <==> c in row && row[c] != "")
            && (forall c :: c in Filled(row) ==> Filled(row)[c] == row[c])
  {
    hide Cell;
  }

  /** A row is written with the value of each column in its place, and nothing where it has none. */
  lemma WrittenCells(fieldnames: Line, row: Row, k: nat)
    requires k < |fieldnames|
    ensures |WriteRow(fieldnames, row)| == |fieldnames|
    ensures fieldnames[k] in row ==> WriteRow(fieldnames, row)[k] == row[fieldnames[k]]
    ensures fieldnames[k] !in row ==> WriteRow(fieldnames, row)[k] == ""
  {
  }
}
