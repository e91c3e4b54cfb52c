/** What the counters and the exit status say of a run, in terms of the steps it took. */
module DispatcherLedger {
  import opened Dispatcher
  import opened DispatcherInvariant
  import opened DispatcherTheorems
  import opened DispatcherHonesty

  /** The steps that hand in a job, by what happened to it. */
  predicate Causes(a: Action, o: Outcome) {
    match o
    case Interrupted => a.HandBack?
    case Skipped => a.PutSkipped?
    case Passed => a.Complete? && a.returncode == 0
    case Failed => a.Complete? && a.returncode == 1
    case ValgrindError => a.Complete? && a.returncode == 2
    case Crashed => a.Complete? && a.returncode !in {0, 1, 2}
  }

  predicate Reporting(a: Action) {
    a.HandBack? || a.PutSkipped? || a.Complete?
  }

  function StepsThatCause(steps: seq<Action>, o: Outcome): nat {
    if steps == [] then 0 else (if Causes(steps[0], o) then 1 else 0) + StepsThatCause(steps[1..], o)
  }

  /** The results with this outcome, collected or not. */
  function Results(s: State, o: Outcome): nat
    requires InTable(s.table, s.output) && InTable(s.table, s.collected)
  {
    CountOf(s.table, s.output, o) + CountOf(s.table, s.collected, o)
  }

  predicate InTable(table: seq<Job>, ids: seq<nat>) {
    forall i :: 0 <= i < |ids| ==> ids[i] < |table|
  }

  // ----- Counting -----

  lemma {:induction false} CountFrame(table: seq<Job>, table': seq<Job>, ids: seq<nat>, o: Outcome)
    requires InTable(table, ids) && InTable(table', ids)
    requires forall i :: 0 <= i < |ids| ==> table[ids[i]] == table'[ids[i]]
    ensures CountOf(table, ids, o) == CountOf(table', ids, o)
  {
    if ids != [] {
      CountFrame(table, table', ids[..|ids| - 1], o);
    }
  }

  lemma {:induction false} CountHead(table: seq<Job>, ids: seq<nat>, o: Outcome)
    requires ids != [] && InTable(table, ids)
    ensures CountOf(table, ids, o) ==
            (if OutcomeOf(table[ids[0]]) == o then 1 else 0) + CountOf(table, ids[1..], o)
  {
    if |ids| > 1 {
      CountHead(table, ids[..|ids| - 1], o);
      assert ids[1..][..|ids[1..]| - 1] == ids[..|ids| - 1][1..];
    }
  }

  lemma CountSnoc(table: seq<Job>, ids: seq<nat>, j: nat, o: Outcome)
    requires InTable(table, ids) && j < |table|
    ensures CountOf(table, ids + [j], o) ==
            CountOf(table, ids, o) + if OutcomeOf(table[j]) == o then 1 else 0
  {
    assert (ids + [j])[..|ids|] == ids;
  }

  // ----- One step -----

  lemma InvInTable(c: Config, s: State)
    requires Inv(c, s)
    ensures InTable(s.table, s.output) && InTable(s.table, s.collected)
    ensures s.tally == TallyOf(s.table, s.collected)
  {
    hide Conserved, Counted, WorkersOk, TableOk;
  }

  /** A report adds one result, with the outcome of the job as it was handed in. */
  lemma ReportResults(s: State, w: nat, job: Job, o: Outcome)
    requires Conserved(s) && w < |s.workers| && !s.workers[w].Idle? && s.workers[w].job < |s.table|
    requires InTable(s.table, s.output) && InTable(s.table, s.collected)
    ensures var s' := Report(s, w, job);
            && InTable(s'.table, s'.output) && InTable(s'.table, s'.collected)
            && Results(s', o) == Results(s, o) + if OutcomeOf(job) == o then 1 else 0
  {
    hide Conserved;
    var s' := Report(s, w, job);
    HeldExclusively(s, w);
    CountFrame(s.table, s'.table, s.output, o);
    CountFrame(s.table, s'.table, s.collected, o);
    CountSnoc(s'.table, s.output, s.workers[w].job, o);
  }

  /** What the step that hands in a job writes to it is what happened. */
  lemma ReportedOutcome(c: Config, s: State, a: Action)
    requires Inv(c, s) && NotRunYet(s) && Enabled(c, s, a) && Reporting(a)
    ensures var job := s.table[s.workers[a.w].job];
            var job' := match a case HandBack(_) => job.(isBreak := true)
                                case Complete(_, rc) => job.(returncode := rc)
                                case _ => job;
            forall o :: OutcomeOf(job') == o <==> Causes(a, o)
  {
    HeldJobIsOk(c, s, a.w);
    assert WorkerOk(c, s, s.workers[a.w]);
  }

  lemma ReportingStep(c: Config, s: State, a: Action, o: Outcome)
    requires Inv(c, s) && NotRunYet(s) && Enabled(c, s, a) && Reporting(a)
    requires InTable(s.table, s.output) && InTable(s.table, s.collected)
    ensures var s' := Do(c, s, a);
            && InTable(s'.table, s'.output) && InTable(s'.table, s'.collected)
            && Results(s', o) == Results(s, o) + if Causes(a, o) then 1 else 0
  {
    ReportedOutcome(c, s, a);
    HeldJobIsOk(c, s, a.w);
    hide Fifo, TableOk, WorkersOk, ResultsOk, Counted, JoinOk, Conserved;
    hide OutcomeOf, Causes, InTable, NotRunYet, Results;
    var job := s.table[s.workers[a.w].job];
    match a
    case HandBack(w) => ReportResults(s, w, job.(isBreak := true), o);
    case PutSkipped(w) => ReportResults(s, w, job, o);
    case Complete(w, rc) =>
      RanInv(c, s, w, rc);
      ReportResults(Ran(s, w, rc), w, job.(returncode := rc), o);
      RanResults(s, w, rc, o);
  }

  lemma RanResults(s: State, w: nat, rc: int, o: Outcome)
    requires w < |s.workers| && s.workers[w].Running?
    requires InTable(s.table, s.output) && InTable(s.table, s.collected)
    ensures Results(Ran(s, w, rc), o) == Results(s, o)
  {
  }

  lemma OtherStep(c: Config, s: State, a: Action, o: Outcome)
    requires Enabled(c, s, a) && !Reporting(a)
    requires InTable(s.table, s.output) && InTable(s.table, s.collected)
    ensures var s' := Do(c, s, a);
            && InTable(s'.table, s'.output) && InTable(s'.table, s'.collected)
            && Results(s', o) == Results(s, o)
  {
    hide OutcomeOf;
    var s' := Do(c, s, a);
    if a.Collect? {
      CountHead(s.table, s.output, o);
      CountSnoc(s.table, s.collected, s.output[0], o);
    } else {
      CountFrame(s.table, s'.table, s.output, o);
      CountFrame(s.table, s'.table, s.collected, o);
    }
  }

  lemma StepResults(c: Config, s: State, a: Action, o: Outcome)
    requires Inv(c, s) && NotRunYet(s) && Enabled(c, s, a)
    requires InTable(s.table, s.output) && InTable(s.table, s.collected)
    ensures var s' := Do(c, s, a);
            && InTable(s'.table, s'.output) && InTable(s'.table, s'.collected)
            && Results(s', o) == Results(s, o) + if Causes(a, o) then 1 else 0
  {
    hide Inv, NotRunYet, Enabled, Do, InTable, Results;
    if Reporting(a) {
      ReportingStep(c, s, a, o);
    } else {
      OtherStep(c, s, a, o);
    }
  }

  // ----- Every run -----

  lemma {:induction false} RunResults(c: Config, s: State, steps: seq<Action>, o: Outcome)
    requires Inv(c, s) && HonestInv(c, s) && IsRun(c, s, steps)
    requires InTable(s.table, s.output) && InTable(s.table, s.collected)
    ensures var s' := After(c, s, steps);
            && InTable(s'.table, s'.output) && InTable(s'.table, s'.collected)
            && Results(s', o) == Results(s, o) + StepsThatCause(steps, o)
    decreases |steps|
  {
    if steps != [] {
      StepResults(c, s, steps[0], o);
      StepHonest(c, s, steps[0]);
      StepInv(c, s, steps[0]);
      hide Inv, HonestInv, Enabled, Do, Results, InTable;
      RunResults(c, Do(c, s, steps[0]), steps[1..], o);
    }
  }

  /**
   At the end of every run, each counter is the number of steps of its kind: tests put as
   skipped, and commands that returned 0, 1, 2 or anything else. A test that was handed back is
   in none of them, whatever its mark.
   */
  lemma CountersCountSteps(c: Config, steps: seq<Action>)
    requires IsRun(c, Init(c), steps) && Finished(c, After(c, Init(c), steps))
    ensures After(c, Init(c), steps).tally ==
            Tally(StepsThatCause(steps, Passed), StepsThatCause(steps, Failed), StepsThatCause(steps, ValgrindError),
                  StepsThatCause(steps, Crashed), StepsThatCause(steps, Skipped))
    ensures StepsThatCause(steps, Passed) + StepsThatCause(steps, Failed) + StepsThatCause(steps, ValgrindError) +
            StepsThatCause(steps, Crashed) + StepsThatCause(steps, Skipped) +
            StepsThatCause(steps, Interrupted) == c.Jobs()
  {
    StartIsHonest(c);
    hide Inv, HonestInv, OutcomeOf, StepsThatCause, IsRun, After;
    InitInv(c);
    RunInv(c, Init(c), steps);
    var s := After(c, Init(c), steps);
    FinishedState(c, s);
    InvInTable(c, s);
    forall o ensures InTable(s.table, s.collected) && CountOf(s.table, s.collected, o) == StepsThatCause(steps, o) {
      RunResults(c, Init(c), steps, o);
    }
    TallyCounts(s.table, s.collected);
  }

  lemma StartIsHonest(c: Config)
    ensures HonestInv(c, Init(c))
  {
  }

  lemma {:induction false} CausedWhen(steps: seq<Action>, o: Outcome)
    ensures StepsThatCause(steps, o) > 0 <==> exists i :: 0 <= i < |steps| && Causes(steps[i], o)
  {
    hide Causes;
    if steps != [] {
      CausedWhen(steps[1..], o);
      if i :| 0 <= i < |steps| && Causes(steps[i], o) && i > 0 {
        assert Causes(steps[1..][i - 1], o);
      }
      if i :| 0 <= i < |steps| - 1 && Causes(steps[1..][i], o) {
        assert Causes(steps[i + 1], o);
      }
    }
  }

  /** The exit status is 0 if and only if no test was handed back and every command returned 0. */
  lemma ExitStatusSays(c: Config, steps: seq<Action>)
    requires IsRun(c, Init(c), steps) && Finished(c, After(c, Init(c), steps))
    ensures ExitStatus(c, After(c, Init(c), steps)) == 0 <==>
            forall i :: 0 <= i < |steps| ==> !steps[i].HandBack? && (steps[i].Complete? ==> steps[i].returncode == 0)
  {
    CountersCountSteps(c, steps);
    forall o ensures StepsThatCause(steps, o) > 0 <==> exists i :: 0 <= i < |steps| && Causes(steps[i], o) {
      CausedWhen(steps, o);
    }
    hide IsRun, Finished, After, StepsThatCause;
    forall i | 0 <= i < |steps|
      ensures !steps[i].HandBack? && (steps[i].Complete? ==> steps[i].returncode == 0) <==>
              !Causes(steps[i], Interrupted) && !Causes(steps[i], Failed) &&
              !Causes(steps[i], ValgrindError) && !Causes(steps[i], Crashed)
    {
    }
  }

  // ----- Order, and the interrupt -----

  /** From an interrupt on, no test is started and none is skipped. */
  lemma {:induction false} NothingStartsAfterAnInterrupt(c: Config, s: State, steps: seq<Action>, i: nat)
    requires IsRun(c, s, steps) && i < |steps| && (s.interrupt || exists k :: 0 <= k < i && steps[k].Interrupt?)
    ensures !steps[i].Launch? && !steps[i].Skip?
    decreases |steps|
  {
    if i > 0 {
      assert steps[i] == steps[1..][i - 1];
      if k :| 0 <= k < i && steps[k].Interrupt? && k > 0 {
        assert steps[1..][k - 1].Interrupt?;
      }
      NothingStartsAfterAnInterrupt(c, Do(c, s, steps[0]), steps[1..], i - 1);
    }
  }

  /** The jobs in the order in which workers took them. */
  ghost function TakenJobs(c: Config, s: State, steps: seq<Action>): seq<nat>
    requires IsRun(c, s, steps)
    decreases |steps|
  {
    if steps == [] then []
    else (if steps[0].Get? then [s.input[0]] else []) + TakenJobs(c, Do(c, s, steps[0]), steps[1..])
  }

  /** The jobs in the order in which workers handed them in. */
  ghost function ReportedJobs(c: Config, s: State, steps: seq<Action>): seq<nat>
    requires IsRun(c, s, steps)
    decreases |steps|
  {
    if steps == [] then []
    else
      (if Reporting(steps[0]) then [s.workers[steps[0].w].job] else []) +
      ReportedJobs(c, Do(c, s, steps[0]), steps[1..])
  }

  /** Jobs are taken in the order in which they were put. */
  lemma {:induction false} TakenInOrder(c: Config, s: State, steps: seq<Action>)
    requires Inv(c, s) && IsRun(c, s, steps)
    ensures forall i :: 0 <= i < |TakenJobs(c, s, steps)| ==> TakenJobs(c, s, steps)[i] == Taken(s) + i
    decreases |steps|
  {
    if steps != [] {
      StepInv(c, s, steps[0]);
      TakenStep(c, s, steps[0]);
      hide Inv, Enabled, Do, Taken;
      TakenInOrder(c, Do(c, s, steps[0]), steps[1..]);
    }
  }

  lemma TakenStep(c: Config, s: State, a: Action)
    requires Inv(c, s) && Enabled(c, s, a)
    ensures a.Get? ==> s.input[0] == Taken(s) && Taken(Do(c, s, a)) == Taken(s) + 1
    ensures !a.Get? ==> Taken(Do(c, s, a)) == Taken(s)
  {
    hide Conserved, TableOk, WorkersOk, ResultsOk, Counted, JoinOk;
  }

  lemma CollectedStep(c: Config, s: State, a: Action)
    requires Enabled(c, s, a)
    ensures Do(c, s, a).collected + Do(c, s, a).output ==
            s.collected + s.output + if Reporting(a) then [s.workers[a.w].job] else []
  {
    if a.Collect? {
      assert s.output == [s.output[0]] + s.output[1..];
    }
  }

  /** Results are collected in the order in which they were handed in. */
  lemma {:induction false} CollectedInOrder(c: Config, s: State, steps: seq<Action>)
    requires IsRun(c, s, steps)
    ensures After(c, s, steps).collected + After(c, s, steps).output ==
            s.collected + s.output + ReportedJobs(c, s, steps)
    decreases |steps|
  {
    hide Do;
    if steps == [] {
      assert s.collected + s.output + [] == s.collected + s.output;
    } else {
      CollectedStep(c, s, steps[0]);
      var s' := Do(c, s, steps[0]);
      var first := if Reporting(steps[0]) then [s.workers[steps[0].w].job] else [];
      CollectedInOrder(c, s', steps[1..]);
      assert ReportedJobs(c, s, steps) == first + ReportedJobs(c, s', steps[1..]);
      assert s.collected + s.output + first + ReportedJobs(c, s', steps[1..]) ==
             s.collected + s.output + (first + ReportedJobs(c, s', steps[1..]));
    }
  }

  /** An interrupt may come at any moment before one has, and a command may return anything. */
  lemma EnvironmentIsFree(c: Config, s: State, w: nat, rc: int)
    requires Inv(c, s)
    ensures !s.interrupt ==> Enabled(c, s, Interrupt) && Do(c, s, Interrupt) == s.(interrupt := true)
    ensures w < |s.workers| && s.workers[w].Running? ==> Enabled(c, s, Complete(w, rc))
  {
    if w < |s.workers| && s.workers[w].Running? {
      HeldJobIsOk(c, s, w);
    }
  }
}
