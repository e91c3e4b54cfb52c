/** Safe shutdown, absence of deadlock, termination and final accounting, over every run. */
module DispatcherTheorems {
  import opened Dispatcher
  import opened DispatcherInvariant

  // ----- Runs -----

  ghost predicate IsRun(c: Config, s: State, steps: seq<Action>)
    decreases |steps|
  {
    steps == [] || (Enabled(c, s, steps[0]) && IsRun(c, Do(c, s, steps[0]), steps[1..]))
  }

  ghost function After(c: Config, s: State, steps: seq<Action>): State
    requires IsRun(c, s, steps)
    decreases |steps|
  {
    if steps == [] then s else After(c, Do(c, s, steps[0]), steps[1..])
  }

  /** The invariant holds throughout every run. */
  lemma {:induction false} RunInv(c: Config, s: State, steps: seq<Action>)
    requires Inv(c, s) && IsRun(c, s, steps)
    ensures Inv(c, After(c, s, steps))
    decreases |steps|
  {
    hide Inv;
    if steps != [] {
      StepInv(c, s, steps[0]);
      RunInv(c, Do(c, s, steps[0]), steps[1..]);
    }
  }

  /**
   Every job put is in one place; once a worker has returned, only break jobs are queued; and
   without an interrupt no test is handed back.
   */
  ghost predicate ShutsDownSafely(c: Config, s: State) {
    && (forall j: nat :: Places(s, j) == if j < |s.table| then 1 else 0)
    && (forall i :: 0 <= i < |s.input| ==> s.input[i] < |s.table|)
    && ((exists w :: 0 <= w < |s.workers| && s.workers[w].Exited?) ==>
         forall i :: 0 <= i < |s.input| ==> c.Jobs() <= s.input[i] && s.table[s.input[i]].isBreak)
    && (!s.interrupt ==> forall j :: 0 <= j < |s.table| && j < c.Jobs() ==> !s.table[j].isBreak)
  }

  /** Conservation and safe shutdown in every reachable state, whenever the interrupt comes. */
  lemma {:induction false} SafeShutdown(c: Config, steps: seq<Action>)
    requires IsRun(c, Init(c), steps)
    ensures ShutsDownSafely(c, After(c, Init(c), steps))
  {
    InitInv(c);
    RunInv(c, Init(c), steps);
    var s := After(c, Init(c), steps);
    if w :| 0 <= w < |s.workers| && s.workers[w].Exited? {
      assert WorkerOk(c, s, s.workers[w]);
      forall i | 0 <= i < |s.input| ensures c.Jobs() <= s.input[i] && s.table[s.input[i]].isBreak {
        assert JobOk(c, s, s.input[i]);
      }
    }
    forall j | 0 <= j < |s.table| && j < c.Jobs() && !s.interrupt ensures !s.table[j].isBreak {
      assert JobOk(c, s, j);
    }
  }

  // ----- Termination -----

  function Weight(): Worker -> nat {
    (w: Worker) =>
      match w case Idle => 0 case Holding(_) => 3 case Skipping(_) => 2 case Running(_) => 2 case Exited(_) => 0
  }

  function Measure(c: Config, s: State): int {
    5 * (c.Puts() - |s.table|) + 4 * |s.input| + Sum(s.workers, Weight()) + |s.output| +
    (|s.workers| - s.joined) + (if s.interrupt then 0 else 1)
  }

  lemma StepDecreases(c: Config, s: State, a: Action)
    requires s.joined <= |s.workers| && |s.table| <= c.Puts() && Enabled(c, s, a)
    ensures 0 <= Measure(c, Do(c, s, a)) < Measure(c, s)
  {
    if a.Get? || a.Exit? || a.HandBack? || a.Skip? || a.PutSkipped? || a.Launch? || a.Complete? {
      SumUpdate(s.workers, a.w, Do(c, s, a).workers[a.w], Weight());
    }
  }

  lemma {:induction false} RunLength(c: Config, s: State, steps: seq<Action>)
    requires Inv(c, s) && IsRun(c, s, steps)
    ensures |steps| <= Measure(c, s)
    decreases |steps|
  {
    if steps != [] {
      StepDecreases(c, s, steps[0]);
      StepInv(c, s, steps[0]);
      RunLength(c, Do(c, s, steps[0]), steps[1..]);
    }
  }

  /** Every run ends: no schedule, outcome or interrupt makes one longer than this. */
  lemma {:induction false} EveryRunEnds(c: Config, steps: seq<Action>)
    requires IsRun(c, Init(c), steps)
    ensures |steps| <= 5 * |c.skips| + 6 * c.processors + 1
  {
    InitInv(c);
    RunLength(c, Init(c), steps);
    SumIsZero(Init(c).workers, Weight());
  }

  // ----- No deadlock -----

  ghost predicate Stuck(c: Config, s: State) {
    forall a :: Enabled(c, s, a) ==> a.Interrupt?
  }

  lemma {:induction false} SumPositive(ws: seq<Worker>, f: Worker -> nat) returns (i: nat)
    requires Sum(ws, f) > 0
    ensures i < |ws| && f(ws[i]) > 0
  {
    var n := |ws| - 1;
    if f(ws[n]) > 0 {
      i := n;
    } else {
      i := SumPositive(ws[..n], f);
    }
  }

  lemma {:induction false} AllExitedCount(c: Config, ws: seq<Worker>)
    requires forall w :: 0 <= w < |ws| ==> ws[w].Exited? && c.Jobs() <= ws[w].job
    ensures Sum(ws, Poisoned(c)) == |ws| && Sum(ws, Busy(c)) == 0
  {
    if ws != [] {
      AllExitedCount(c, ws[..|ws| - 1]);
    }
  }

  lemma {:induction false} RestingWorkersAreNotBusy(c: Config, ws: seq<Worker>)
    requires forall w :: 0 <= w < |ws| ==> ws[w].Idle? || ws[w].Exited?
    ensures Sum(ws, Busy(c)) == 0
  {
    SumIsZero(ws, Busy(c));
  }

  /** Whoever still holds a job can go on. */
  lemma StuckWorkersRest(c: Config, s: State)
    requires Inv(c, s) && Stuck(c, s)
    ensures forall w :: 0 <= w < |s.workers| ==>
              s.workers[w].Exited? || (s.workers[w].Idle? && s.input == [])
  {
    forall w: nat | w < |s.workers|
      ensures s.workers[w].Exited? || (s.workers[w].Idle? && s.input == [])
    {
      assert WorkerOk(c, s, s.workers[w]);
      assert !Enabled(c, s, Get(w)) && !Enabled(c, s, Exit(w)) && !Enabled(c, s, HandBack(w));
      assert !Enabled(c, s, Skip(w)) && !Enabled(c, s, PutSkipped(w));
      assert !Enabled(c, s, Launch(w)) && !Enabled(c, s, Complete(w, 0));
    }
  }

  /** With a worker, or with nothing to do, only a finished run cannot go on. */
  lemma StuckMeansFinished(c: Config, s: State)
    requires Inv(c, s) && Stuck(c, s) && (c.processors > 0 || c.Jobs() == 0)
    ensures Finished(c, s)
  {
    StuckWorkersRest(c, s);
    RestingWorkersAreNotBusy(c, s.workers);
    assert !Enabled(c, s, Put) && !Enabled(c, s, Collect) && !Enabled(c, s, Join);
    if w :| 0 <= w < |s.workers| && s.workers[w].Idle? {
      assert Poisoned(c)(s.workers[w]) == 0;
      SumAtMost(s.workers, Poisoned(c), w);
    } else {
      forall w | 0 <= w < |s.workers| ensures s.workers[w].Exited? && c.Jobs() <= s.workers[w].job {
        assert WorkerOk(c, s, s.workers[w]);
      }
      AllExitedCount(c, s.workers);
    }
  }

  /** The dispatcher is free of deadlock exactly when it has a worker or nothing to do. */
  lemma {:induction false} NoDeadlock(c: Config)
    ensures (c.processors > 0 || c.Jobs() == 0) <==>
            forall steps :: IsRun(c, Init(c), steps) && Stuck(c, After(c, Init(c), steps)) ==>
              Finished(c, After(c, Init(c), steps))
  {
    InitInv(c);
    if c.processors > 0 || c.Jobs() == 0 {
      forall steps | IsRun(c, Init(c), steps) && Stuck(c, After(c, Init(c), steps))
        ensures Finished(c, After(c, Init(c), steps))
      {
        RunInv(c, Init(c), steps);
        StuckMeansFinished(c, After(c, Init(c), steps));
      }
    } else {
      var steps := PutEverything(c, Init(c));
      var s := After(c, Init(c), steps);
      RunInv(c, Init(c), steps);
      assert Stuck(c, s) && !Finished(c, s);
    }
  }

  /** Without a worker, the main thread puts all jobs and then waits for ever. */
  lemma PutEverything(c: Config, s: State) returns (steps: seq<Action>)
    requires Inv(c, s) && c.processors == 0 && c.Jobs() > 0 && s.output == [] && s.collected == []
    ensures IsRun(c, s, steps)
    ensures Stuck(c, After(c, s, steps)) && !Finished(c, After(c, s, steps))
    decreases c.Puts() - |s.table|
  {
    if |s.table| < c.Puts() {
      StepInv(c, s, Put);
      var rest := PutEverything(c, Do(c, s, Put));
      steps := [Put] + rest;
      assert steps[1..] == rest;
    } else {
      steps := [];
    }
  }

  // ----- Final accounting -----

  function CountOf(table: seq<Job>, ids: seq<nat>, o: Outcome): nat
    requires forall i :: 0 <= i < |ids| ==> ids[i] < |table|
  {
    if ids == [] then 0
    else CountOf(table, ids[..|ids| - 1], o) + if OutcomeOf(table[ids[|ids| - 1]]) == o then 1 else 0
  }

  /** Each counter counts its outcome, and with the interrupted jobs they add up to the whole. */
  lemma {:induction false} TallyCounts(table: seq<Job>, ids: seq<nat>)
    requires forall i :: 0 <= i < |ids| ==> ids[i] < |table|
    ensures TallyOf(table, ids) ==
            Tally(CountOf(table, ids, Passed), CountOf(table, ids, Failed), CountOf(table, ids, ValgrindError),
                  CountOf(table, ids, Crashed), CountOf(table, ids, Skipped))
    ensures var t := TallyOf(table, ids);
            t.passed + t.failed + t.valgrind + t.crashed + t.skipped + CountOf(table, ids, Interrupted) == |ids|
    ensures TallyOf(table, ids).passed + TallyOf(table, ids).skipped == |ids| <==>
            forall i :: 0 <= i < |ids| ==> OutcomeOf(table[ids[i]]) in {Passed, Skipped}
  {
    if ids != [] {
      TallyCounts(table, ids[..|ids| - 1]);
    }
  }

  /** The end of a run. */
  lemma FinishedState(c: Config, s: State)
    requires Inv(c, s) && Finished(c, s)
    ensures s.input == [] && s.output == []
    ensures forall w :: 0 <= w < |s.workers| ==> s.workers[w].Exited? && c.Jobs() <= s.workers[w].job
  {
    forall w | 0 <= w < |s.workers| ensures s.workers[w].Exited? && c.Jobs() <= s.workers[w].job {
      assert WorkerOk(c, s, s.workers[w]);
    }
    AllExitedCount(c, s.workers);
  }

  /** Every test was collected exactly once. */
  ghost predicate EachCollectedOnce(c: Config, s: State) {
    && |s.collected| == c.Jobs()
    && (forall i :: 0 <= i < |s.collected| ==> s.collected[i] < c.Jobs())
    && (forall j :: 0 <= j < c.Jobs() ==> multiset(s.collected)[j] == 1)
  }

  /** Every worker returned upon a break job, no two upon the same one. */
  ghost predicate EachStoppedOnce(c: Config, s: State) {
    && |s.workers| == c.processors
    && (forall w :: 0 <= w < |s.workers| ==>
          && s.workers[w].Exited? && c.Jobs() <= s.workers[w].job < |s.table|
          && s.table[s.workers[w].job].isBreak)
    && (forall v, w :: 0 <= v < w < |s.workers| ==> s.workers[v].job != s.workers[w].job)
  }

  /** The outcomes add up, and the exit status is 0 exactly when every test passed or was skipped. */
  ghost predicate AddsUp(c: Config, s: State) {
    && c.Jobs() <= |s.table|
    && (forall i :: 0 <= i < |s.collected| ==> s.collected[i] < |s.table|)
    && s.tally.passed + s.tally.failed + s.tally.valgrind + s.tally.crashed + s.tally.skipped +
       CountOf(s.table, s.collected, Interrupted) == c.Jobs()
    && (ExitStatus(c, s) == 0 <==> forall j :: 0 <= j < c.Jobs() ==> OutcomeOf(s.table[j]) in {Passed, Skipped})
  }

  lemma CollectedOnce(c: Config, s: State)
    requires Inv(c, s) && Finished(c, s)
    ensures EachCollectedOnce(c, s)
  {
    FinishedState(c, s);
    forall j: nat | j < c.Jobs() ensures multiset(s.collected)[j] == 1 {
      assert Places(s, j) == 1;
      SumIsZero(s.workers, Has(j));
    }
  }

  lemma StoppedOnce(c: Config, s: State)
    requires Inv(c, s) && Finished(c, s)
    ensures EachStoppedOnce(c, s)
  {
    FinishedState(c, s);
    forall w | 0 <= w < |s.workers|
      ensures s.workers[w].job < |s.table| && s.table[s.workers[w].job].isBreak
    {
      assert WorkerOk(c, s, s.workers[w]) && JobOk(c, s, s.workers[w].job);
    }
    forall v, w | 0 <= v < w < |s.workers| ensures s.workers[v].job != s.workers[w].job {
      HeldExclusively(s, w);
    }
  }

  lemma OutcomesAddUp(c: Config, s: State)
    requires |s.table| == c.Puts() && EachCollectedOnce(c, s) && s.tally == TallyOf(s.table, s.collected)
    ensures AddsUp(c, s)
  {
    TallyCounts(s.table, s.collected);
    if ExitStatus(c, s) == 0 {
      forall j | 0 <= j < c.Jobs() ensures OutcomeOf(s.table[j]) in {Passed, Skipped} {
        assert j in multiset(s.collected);
        var i :| 0 <= i < |s.collected| && s.collected[i] == j;
        assert OutcomeOf(s.table[s.collected[i]]) in {Passed, Skipped};
      }
    }
  }

  /** At the end of every run, all tests, all workers and all outcomes are accounted for. */
  lemma FinalAccounting(c: Config, steps: seq<Action>)
    requires IsRun(c, Init(c), steps) && Finished(c, After(c, Init(c), steps))
    ensures EachCollectedOnce(c, After(c, Init(c), steps))
    ensures EachStoppedOnce(c, After(c, Init(c), steps))
    ensures AddsUp(c, After(c, Init(c), steps))
  {
    InitInv(c);
    RunInv(c, Init(c), steps);
    var s := After(c, Init(c), steps);
    hide EachCollectedOnce, EachStoppedOnce, AddsUp;
    CollectedOnce(c, s);
    StoppedOnce(c, s);
    OutcomesAddUp(c, s);
  }
}
