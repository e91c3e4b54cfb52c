/**
 The exporter beside the relay server: it reads the log at arbitrary moments, also in the
 middle of a rewrite, remembers only how many rows it has exported, and sends the rest to the
 database. The server writes line by line through a buffer, so the exporter sees only some
 first part of what has been written.
 */
module CsvExport {
  import opened CsvLog

  datatype Phase =
    | Ready
    | Scanning(row: Row, todo: seq<Measurement>)
    | Truncating(row: Row, todo: seq<Measurement>, existing: seq<Row>)
    | Rewriting(row: Row, todo: seq<Measurement>, pending: seq<Line>)
    | Flushing

  /**
   `visible` is the number of lines of the file that have left the buffer. `log` and `target`
   are history: the rows appended so far, and the contents that the current call is to arrive at.
   */
  datatype System = System(
    fieldnames: Line,
    lines: seq<Line>,
    visible: nat,
    phase: Phase,
    watermark: nat,
    exported: seq<Row>,
    log: seq<Row>,
    target: Log)

  datatype Step =
    | Call(row: Row, measurements: seq<Measurement>)
    | KnownColumn
    | NewColumn
    | Truncate
    | WriteLine
    | Reopen
    | WriteLastRow
    | Flush
    | Drain(upTo: nat)
    | Poll(databaseOk: bool)

  /** A file with a header and with no row that is longer; any other raises an error in the reader. */
  predicate Readable(lines: seq<Line>) {
    lines != [] && lines[0] != [] && forall i :: 0 <= i < |lines| ==> |lines[i]| <= |lines[0]|
  }

  /** Starting to log to a file with this header; one that was just created is still in the buffer. */
  function Start(lines: seq<Line>, created: bool): System
    requires Readable(lines)
  {
    System(lines[0], lines, if created then 0 else |lines|, Ready, 0, [], Rows(lines), Log(lines[0], lines))
  }

  predicate Enabled(s: System, step: Step) {
    match step
    case Call(_, _) => s.phase.Ready?
    case KnownColumn => s.phase.Scanning? && s.phase.todo != [] && ColumnOf(s.phase.todo[0]) in s.fieldnames
    case NewColumn => s.phase.Scanning? && s.phase.todo != [] && ColumnOf(s.phase.todo[0]) !in s.fieldnames
    case Truncate => s.phase.Truncating?
    case WriteLine => s.phase.Rewriting? && s.phase.pending != []
    case Reopen => s.phase.Rewriting? && s.phase.pending == []
    case WriteLastRow => s.phase.Scanning? && s.phase.todo == []
    case Flush => s.phase.Flushing?
    case Drain(upTo) => s.visible <= upTo <= |s.lines|
    case Poll(_) => s.visible <= |s.lines|
  }

  function Do(s: System, step: Step): System
    requires Enabled(s, step)
  {
    match step
    case Call(row, measurements) =>
      s.(phase := Scanning(row, measurements),
         target := Written(Log(s.fieldnames, s.lines), row, measurements))
    case KnownColumn =>
      var m := s.phase.todo[0];
      s.(phase := Scanning(s.phase.row[ColumnOf(m) := ValueOf(m)], s.phase.todo[1..]))
    case NewColumn =>
      // Closing the file empties the buffer; then the file is read back.
      var m := s.phase.todo[0];
      s.(fieldnames := s.fieldnames + [ColumnOf(m)],
         visible := |s.lines|,
         phase := Truncating(s.phase.row[ColumnOf(m) := ValueOf(m)], s.phase.todo[1..], ReadAll(s.lines)))
    case Truncate =>
      s.(lines := [], visible := 0,
         phase := Rewriting(s.phase.row, s.phase.todo, WriteAll(s.fieldnames, s.phase.existing)))
    case WriteLine =>
      s.(lines := s.lines + [s.phase.pending[0]], phase := s.phase.(pending := s.phase.pending[1..]))
    case Reopen =>
      s.(visible := |s.lines|, phase := Scanning(s.phase.row, s.phase.todo))
    case WriteLastRow =>
      s.(lines := s.lines + [WriteRow(s.fieldnames, s.phase.row)],
         log := s.log + [Filled(Restricted(s.phase.row, s.fieldnames))],
         phase := Flushing)
    case Flush =>
      s.(visible := |s.lines|, phase := Ready)
    case Drain(upTo) =>
      s.(visible := upTo)
    case Poll(databaseOk) =>
      Polled(s, databaseOk)
  }

  /** The rows of a file beyond the first `watermark`. */
  function NewRows(lines: seq<Line>, watermark: nat): seq<Row> {
    if |Rows(lines)| > watermark then Rows(lines)[watermark..] else []
  }

  /** What one visit makes of the watermark and the exported rows, when it reads `lines`. */
  function Visit(lines: seq<Line>, watermark: nat, exported: seq<Row>, databaseOk: bool): (nat, seq<Row>) {
    var rows := Rows(lines);
    if !Readable(lines) || |rows| <= watermark || !databaseOk then (watermark, exported)
    else (|rows|, exported + rows[watermark..])
  }

  function Polled(s: System, databaseOk: bool): System
    requires s.visible <= |s.lines|
  {
    var (watermark, exported) := Visit(s.lines[..s.visible], s.watermark, s.exported, databaseOk);
    s.(watermark := watermark, exported := exported)
  }

  /** One point for each new row, in order. */
  method PointsFrom<T>(rows: seq<T>, first: nat) returns (points: seq<T>)
    requires first <= |rows|
    ensures points == rows[first..]
  {
    points := [];
    for i := first to |rows|
      invariant points == rows[first..i]
    {
      points := points + [rows[i]];
    }
  }

  class CsvHandler {
    var lastGnbRow: nat
    var written: seq<Row>

    constructor ()
      ensures lastGnbRow == 0 && written == []
    {
      lastGnbRow, written := 0, [];
    }

    /** A file that is not readable raises an error, and a failed write raises one too; both are caught. */
    method ProcessGnbCsv(lines: seq<Line>, databaseOk: bool)
      modifies this
      ensures lastGnbRow == Visit(lines, old(lastGnbRow), old(written), databaseOk).0
      ensures written == Visit(lines, old(lastGnbRow), old(written), databaseOk).1
      ensures !databaseOk || !Readable(lines) ==> lastGnbRow == old(lastGnbRow) && written == old(written)
      ensures databaseOk && Readable(lines) ==> written == old(written) + NewRows(lines, old(lastGnbRow))
      ensures databaseOk && Readable(lines) && |Rows(lines)| > old(lastGnbRow) ==> lastGnbRow == |Rows(lines)|
      ensures |Rows(lines)| <= old(lastGnbRow) ==> lastGnbRow == old(lastGnbRow)
    {
      hide Rows;
      if !Readable(lines) {
        return;
      }
      var df := Rows(lines);
      if |df| <= lastGnbRow {
        return;
      }
      var points := PointsFrom(df, lastGnbRow);
      if databaseOk {
        written := written + points;
        lastGnbRow := |df|;
      }
    }
  }

  // ----- The invariant -----

  /** The file as it will be when the server has written what is still pending. */
  function Intended(s: System): seq<Line> {
    match s.phase
    case Truncating(_, _, existing) => WriteAll(s.fieldnames, existing)
    case Rewriting(_, _, pending) => s.lines + pending
    case _ => s.lines
  }

  ghost predicate OnTarget(s: System) {
    match s.phase
    case Ready => Log(s.fieldnames, s.lines) == s.target
    case Flushing => Log(s.fieldnames, s.lines) == s.target
    case _ => Written(Log(s.fieldnames, Intended(s)), s.phase.row, s.phase.todo) == s.target
  }

  ghost predicate ProducerOk(s: System) {
    && s.visible <= |s.lines|
    && Log(s.fieldnames, Intended(s)).HeaderOk()
    && Rows(Intended(s)) == s.log
    && (s.phase.Truncating? ==> Rows(s.lines) == s.log && Readable(s.lines))
    && Readable(Intended(s))
    && OnTarget(s)
  }

  ghost predicate ConsumerOk(s: System) {
    s.watermark <= |s.log| && s.exported == s.log[..s.watermark]
  }

  ghost predicate Inv(s: System) {
    ProducerOk(s) && ConsumerOk(s)
  }

  lemma StartInv(lines: seq<Line>, created: bool)
    requires Readable(lines)
    ensures Inv(Start(lines, created))
  {
  }

  /** The first lines of a file say what its first rows say. */
  lemma RowsOfPrefix(lines: seq<Line>, n: nat)
    requires n <= |lines|
    ensures Rows(lines[..n]) <= Rows(lines)
    ensures n == |lines| ==> Rows(lines[..n]) == Rows(lines)
  {
  }

  /** Whatever the exporter sees is a first part of the log, and it can read it. */
  lemma SeesAPrefix(s: System)
    requires ProducerOk(s)
    ensures Rows(s.lines[..s.visible]) <= s.log
    ensures s.visible > 0 ==> Readable(s.lines[..s.visible])
  {
    RowsOfPrefix(s.lines, s.visible);
    assert s.visible > 0 ==> s.lines[0] == Intended(s)[0] || s.phase.Truncating?;
    if s.phase.Rewriting? {
      assert Intended(s)[..|s.lines|] == s.lines;
      RowsOfPrefix(Intended(s), |s.lines|);
    }
  }

  /** Rows are written with one cell for each column. */
  lemma RowsFit(fieldnames: Line, rows: seq<Row>)
    requires fieldnames != []
    ensures Readable(WriteAll(fieldnames, rows))
  {
  }

  lemma NewColumnOk(s: System)
    requires Inv(s) && Enabled(s, NewColumn)
    ensures Inv(Do(s, NewColumn))
  {
    var before := Log(s.fieldnames, s.lines);
    var column := ColumnOf(s.phase.todo[0]);
    GrowthKeepsRows(before, column);
    assert Log(Do(s, NewColumn).fieldnames, Intended(Do(s, NewColumn))) == Grown(before, column);
    RowsFit(s.fieldnames + [column], ReadAll(s.lines));
  }

  lemma WrittenRow(log: Log, row: Row)
    ensures |WriteRow(log.fieldnames, row)| == |log.fieldnames|
    ensures Written(log, row, []) == Log(log.fieldnames, log.lines + [WriteRow(log.fieldnames, row)])
  {
    var line := WriteRow(log.fieldnames, row);
    assert |line| == |log.fieldnames|;
    hide WriteRow;
  }

  lemma WriteLastRowOk(s: System)
    requires Inv(s) && Enabled(s, WriteLastRow)
    ensures Inv(Do(s, WriteLastRow))
  {
    hide Rows, WriteRow, ReadRow, Filled, Restricted, Written;
    WrittenRow(Log(s.fieldnames, s.lines), s.phase.row);
    AppendRow(Log(s.fieldnames, s.lines), s.phase.row);
  }

  lemma RewriteOk(s: System, step: Step)
    requires Inv(s) && Enabled(s, step) && (step.Truncate? || step.WriteLine? || step.Reopen?)
    ensures Inv(Do(s, step))
  {
    assert Intended(Do(s, step)) == Intended(s);
  }

  /** A visit that sees a first part of the log keeps the exports a first part of it. */
  lemma VisitOk(lines: seq<Line>, watermark: nat, exported: seq<Row>, databaseOk: bool, log: seq<Row>)
    requires Rows(lines) <= log && watermark <= |log| && exported == log[..watermark]
    ensures var (watermark', exported') := Visit(lines, watermark, exported, databaseOk);
            watermark <= watermark' <= |log| && exported' == log[..watermark']
  {
    hide Rows, Readable;
    var rows := Rows(lines);
    if |rows| > watermark {
      assert log[..watermark] + rows[watermark..] == log[..|rows|];
    }
  }

  lemma PollOk(s: System, databaseOk: bool)
    requires Inv(s)
    ensures Inv(Polled(s, databaseOk)) && s.watermark <= Polled(s, databaseOk).watermark
  {
    hide Visit, Rows, Readable, Log.HeaderOk, Written;
    SeesAPrefix(s);
    VisitOk(s.lines[..s.visible], s.watermark, s.exported, databaseOk, s.log);
  }

  /** Every step of either process keeps the invariant, and neither log nor watermark goes back. */
  lemma StepOk(s: System, step: Step)
    requires Inv(s) && Enabled(s, step)
    ensures Inv(Do(s, step))
    ensures s.watermark <= Do(s, step).watermark && s.log <= Do(s, step).log
  {
    match step
    case NewColumn => NewColumnOk(s);
    case WriteLastRow => WriteLastRowOk(s);
    case Truncate => RewriteOk(s, step);
    case WriteLine => RewriteOk(s, step);
    case Reopen => RewriteOk(s, step);
    case Poll(databaseOk) => PollOk(s, databaseOk);
    case _ =>
  }

  // ----- Runs -----

  ghost predicate IsRun(s: System, steps: seq<Step>)
    decreases |steps|
  {
    steps == [] || (Enabled(s, steps[0]) && IsRun(Do(s, steps[0]), steps[1..]))
  }

  ghost function After(s: System, steps: seq<Step>): System
    requires IsRun(s, steps)
    decreases |steps|
  {
    if steps == [] then s else After(Do(s, steps[0]), steps[1..])
  }

  lemma {:induction false} RunOk(s: System, steps: seq<Step>)
    requires Inv(s) && IsRun(s, steps)
    ensures Inv(After(s, steps))
    ensures s.watermark <= After(s, steps).watermark && s.log <= After(s, steps).log
    decreases |steps|
  {
    hide Inv;
    if steps != [] {
      StepOk(s, steps[0]);
      RunOk(Do(s, steps[0]), steps[1..]);
    }
  }

  /**
   Exactly-once export. For every interleaving of calls, buffer flushes, rewrites and visits,
   and for every outcome of the database writes, what has been exported is the first
   `watermark` rows of the log, in order.
   */
  lemma ExactlyOnce(lines: seq<Line>, created: bool, steps: seq<Step>)
    requires Readable(lines) && IsRun(Start(lines, created), steps)
    ensures var s := After(Start(lines, created), steps);
            s.watermark <= |s.log| && s.exported == s.log[..s.watermark] && Rows(lines) <= s.log
  {
    StartInv(lines, created);
    RunOk(Start(lines, created), steps);
  }

  /** Nothing is exported twice or taken back: later exports only add to earlier ones. */
  lemma ExportsOnlyGrow(lines: seq<Line>, created: bool, steps: seq<Step>, more: seq<Step>)
    requires Readable(lines) && IsRun(Start(lines, created), steps)
    requires IsRun(After(Start(lines, created), steps), more)
    ensures var s := After(Start(lines, created), steps);
            s.exported <= After(s, more).exported && s.watermark <= After(s, more).watermark
  {
    StartInv(lines, created);
    RunOk(Start(lines, created), steps);
    var s := After(Start(lines, created), steps);
    RunOk(s, more);
    assert s.exported == After(s, more).log[..s.watermark];
  }

  /** Once a call has returned, one visit with a working database exports everything. */
  lemma CatchesUp(s: System)
    requires Inv(s) && s.phase.Ready? && s.visible == |s.lines|
    ensures Polled(s, true).exported == s.log
  {
    SeesAPrefix(s);
    RowsOfPrefix(s.lines, |s.lines|);
    PollOk(s, true);
  }

  /** Between calls, the file is what the last call was to make of it. */
  lemma CallsArrive(lines: seq<Line>, created: bool, steps: seq<Step>)
    requires Readable(lines) && IsRun(Start(lines, created), steps)
    ensures var s := After(Start(lines, created), steps);
            s.phase.Ready? ==> Log(s.fieldnames, s.lines) == s.target
  {
    StartInv(lines, created);
    RunOk(Start(lines, created), steps);
  }

  /** Over every run, the exporter never meets a file that it cannot read, other than one without a line. */
  lemma NeverRefused(lines: seq<Line>, created: bool, steps: seq<Step>)
    requires Readable(lines) && IsRun(Start(lines, created), steps)
    ensures var s := After(Start(lines, created), steps);
            s.visible <= |s.lines| && (s.visible > 0 ==> Readable(s.lines[..s.visible]))
  {
    StartInv(lines, created);
    RunOk(Start(lines, created), steps);
    SeesAPrefix(After(Start(lines, created), steps));
  }
}
