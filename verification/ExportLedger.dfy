/** What the exporter sends over a run, what a failed write does, and that every call can be completed and exported. */
module ExportLedger {
  import opened Wrappers
  import opened CsvLog
  import opened CsvExport

  // ----- What was sent -----

  /** A visit whose database write fails leaves everything as it was. */
  lemma FailedWriteChangesNothing(s: System)
    requires s.visible <= |s.lines|
    ensures Polled(s, false) == s && Do(s, Poll(false)) == s
  {
  }

  /** The rows that the successful writes of a run sent: each time, what was seen beyond the watermark. */
  ghost function SentRows(s: System, steps: seq<Step>): seq<Row>
    requires IsRun(s, steps)
    decreases |steps|
  {
    if steps == [] then []
    else
      (if steps[0] == Poll(true) then NewRows(s.lines[..s.visible], s.watermark) else []) +
      SentRows(Do(s, steps[0]), steps[1..])
  }

  lemma SentStep(s: System, step: Step)
    requires Inv(s) && Enabled(s, step)
    ensures Do(s, step).exported ==
            s.exported + if step == Poll(true) then NewRows(s.lines[..s.visible], s.watermark) else []
  {
    hide Rows, Written, WriteAll, WriteRow, ReadAll, NewRows, Filled, Restricted, Polled, ProducerOk;
    if step.Poll? {
      PollSends(s, step.databaseOk);
    } else {
      assert s.exported + [] == s.exported;
    }
  }

  lemma PollSends(s: System, databaseOk: bool)
    requires ProducerOk(s)
    ensures Polled(s, databaseOk).exported ==
            s.exported + if databaseOk then NewRows(s.lines[..s.visible], s.watermark) else []
  {
    hide Rows, Readable, Log.HeaderOk, Written;
    SeesAPrefix(s);
    NoLinesNoRows(s);
  }

  lemma NoLinesNoRows(s: System)
    ensures s.visible <= |s.lines| && s.visible == 0 ==> |Rows(s.lines[..s.visible])| == 0
  {
  }

  /** Over every run, what counts as exported is what the successful writes sent, one after the other. */
  lemma {:induction false} ExportedIsSent(s: System, steps: seq<Step>)
    requires Inv(s) && IsRun(s, steps)
    ensures After(s, steps).exported == s.exported + SentRows(s, steps)
    decreases |steps|
  {
    hide Inv, Do, NewRows;
    if steps == [] {
      assert s.exported + [] == s.exported;
    } else {
      SentStep(s, steps[0]);
      StepOk(s, steps[0]);
      var s' := Do(s, steps[0]);
      var first := if steps[0] == Poll(true) then NewRows(s.lines[..s.visible], s.watermark) else [];
      ExportedIsSent(s', steps[1..]);
      assert SentRows(s, steps) == first + SentRows(s', steps[1..]);
      assert s.exported + first + SentRows(s', steps[1..]) == s.exported + (first + SentRows(s', steps[1..]));
    }
  }

  /** Exactly once: the rows sent by the writes that succeeded are the log up to the watermark. */
  lemma SentExactlyOnce(lines: seq<Line>, created: bool, steps: seq<Step>)
    requires Readable(lines) && IsRun(Start(lines, created), steps)
    ensures var s := After(Start(lines, created), steps);
            s.watermark <= |s.log| && SentRows(Start(lines, created), steps) == s.log[..s.watermark]
  {
    StartInv(lines, created);
    ExportedIsSent(Start(lines, created), steps);
    ExactlyOnce(lines, created, steps);
    hide Inv, IsRun, After, SentRows, Rows;
    assert Start(lines, created).exported == [];
  }

  // ----- Every call can be completed -----

  lemma {:induction false} RunConcat(s: System, a: seq<Step>, b: seq<Step>)
    requires IsRun(s, a) && IsRun(After(s, a), b)
    ensures IsRun(s, a + b) && After(s, a + b) == After(After(s, a), b)
    decreases |a|
  {
    hide Enabled, Do;
    if a == [] {
      assert a + b == b;
    } else {
      assert (a + b)[1..] == a[1..] + b && (a + b)[0] == a[0];
      RunConcat(Do(s, a[0]), a[1..], b);
    }
  }

  lemma OneStep(s: System, step: Step)
    requires Enabled(s, step)
    ensures IsRun(s, [step]) && After(s, [step]) == Do(s, step)
  {
    assert [step][1..] == [];
    assert IsRun(Do(s, step), []);
  }

  /** A rewrite ends with all pending lines in the file, and the scan goes on. */
  lemma {:induction false} RewriteCompletes(s: System) returns (steps: seq<Step>)
    requires s.phase.Rewriting?
    ensures IsRun(s, steps)
    ensures var lines := s.lines + s.phase.pending;
            After(s, steps) == s.(lines := lines, visible := |lines|, phase := Scanning(s.phase.row, s.phase.todo))
    decreases |s.phase.pending|
  {
    if s.phase.pending == [] {
      OneStep(s, Reopen);
      steps := [Reopen];
      assert s.lines + s.phase.pending == s.lines;
    } else {
      OneStep(s, WriteLine);
      var rest := RewriteCompletes(Do(s, WriteLine));
      RunConcat(s, [WriteLine], rest);
      steps := [WriteLine] + rest;
      assert s.lines + [s.phase.pending[0]] + s.phase.pending[1..] == s.lines + s.phase.pending;
    }
  }

  /** What a run leaves alone while the exporter does not visit. */
  predicate SameExports(s: System, s': System) {
    s'.watermark == s.watermark && s'.exported == s.exported
  }

  /** A new column: truncate, write everything again, and go on. */
  lemma NewColumnCompletes(s: System) returns (steps: seq<Step>)
    requires Enabled(s, NewColumn)
    ensures IsRun(s, steps)
    ensures var s' := After(s, steps);
            var m := s.phase.todo[0];
            && s'.phase == Scanning(s.phase.row[ColumnOf(m) := ValueOf(m)], s.phase.todo[1..])
            && Log(s'.fieldnames, s'.lines) == Grown(Log(s.fieldnames, s.lines), ColumnOf(m)) && SameExports(s, s')
  {
    hide WriteAll, ReadAll, ColumnOf, ValueOf;
    OneStep(s, NewColumn);
    var t := Do(s, NewColumn);
    OneStep(t, Truncate);
    RunConcat(s, [NewColumn], [Truncate]);
    var u := Do(t, Truncate);
    var rest := RewriteCompletes(u);
    RunConcat(s, [NewColumn] + [Truncate], rest);
    steps := [NewColumn] + [Truncate] + rest;
    assert u.lines + u.phase.pending == u.phase.pending;
  }

  lemma LastRowCompletes(s: System) returns (steps: seq<Step>)
    requires Enabled(s, WriteLastRow)
    ensures IsRun(s, steps)
    ensures var s' := After(s, steps);
            && s'.phase.Ready? && s'.visible == |s'.lines| && SameExports(s, s')
            && Log(s'.fieldnames, s'.lines) == Log(s.fieldnames, s.lines + [WriteRow(s.fieldnames, s.phase.row)])
  {
    OneStep(s, WriteLastRow);
    var t := Do(s, WriteLastRow);
    OneStep(t, Flush);
    RunConcat(s, [WriteLastRow], [Flush]);
    steps := [WriteLastRow] + [Flush];
  }

  lemma {:induction false} ScanCompletes(s: System) returns (steps: seq<Step>)
    requires s.phase.Scanning?
    ensures IsRun(s, steps)
    ensures var s' := After(s, steps);
            && s'.phase.Ready? && s'.visible == |s'.lines| && SameExports(s, s')
            && Log(s'.fieldnames, s'.lines) == Written(Log(s.fieldnames, s.lines), s.phase.row, s.phase.todo)
    decreases |s.phase.todo|
  {
    hide IsRun, After, Grown, ColumnOf, ValueOf, WriteRow;
    if s.phase.todo == [] {
      steps := LastRowCompletes(s);
    } else if ColumnOf(s.phase.todo[0]) in s.fieldnames {
      OneStep(s, KnownColumn);
      var rest := ScanCompletes(Do(s, KnownColumn));
      RunConcat(s, [KnownColumn], rest);
      steps := [KnownColumn] + rest;
    } else {
      var first := NewColumnCompletes(s);
      var rest := ScanCompletes(After(s, first));
      RunConcat(s, first, rest);
      steps := first + rest;
    }
  }

  /**
   Every call can be completed, by the server's steps alone: the file is then what the call is
   specified to make of it, all of it is visible, the log has the row of the call, and one visit
   with a working database exports everything.
   */
  lemma CallCompletes(s: System, row: Row, measurements: seq<Measurement>) returns (steps: seq<Step>)
    requires Inv(s) && s.phase.Ready?
    ensures IsRun(s, steps)
    ensures var s' := After(s, steps);
            && s'.phase.Ready? && s'.visible == |s'.lines| && SameExports(s, s')
            && Log(s'.fieldnames, s'.lines) == Written(Log(s.fieldnames, s.lines), row, measurements)
            && s'.log == s.log +
                         [Filled(Restricted(FullRow(row, measurements), AllColumns(s.fieldnames, measurements)))]
            && Polled(s', true).exported == s'.log
  {
    OneStep(s, Call(row, measurements));
    var t := Do(s, Call(row, measurements));
    var rest := ScanCompletes(t);
    RunConcat(s, [Call(row, measurements)], rest);
    steps := [Call(row, measurements)] + rest;
    RunOk(s, steps);
    CallAddsOneRow(Log(s.fieldnames, s.lines), row, measurements);
    CatchesUp(After(s, steps));
  }

  // ----- The moments are arbitrary -----

  /** The exporter may visit at any moment, and before that any more lines may have left the buffer. */
  lemma VisitsAnytime(s: System, n: nat, databaseOk: bool)
    requires Inv(s) && s.visible <= n <= |s.lines|
    ensures Enabled(s, Poll(databaseOk)) && Enabled(s, Drain(n)) && Do(s, Drain(n)) == s.(visible := n)
  {
  }
}
