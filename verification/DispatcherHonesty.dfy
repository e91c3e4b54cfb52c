/** Every outcome that is counted is what really happened to its job, and no job is run twice. */
module DispatcherHonesty {
  import opened Dispatcher
  import opened DispatcherInvariant
  import opened DispatcherTheorems

  /** The fields of a job that was handed in agree with what happened to it. */
  ghost predicate Honest(c: Config, s: State, j: nat)
    requires j < |s.table|
  {
    match OutcomeOf(s.table[j])
    case Interrupted => s.interrupt && j !in s.runs
    case Skipped => j < c.Jobs() && c.skips[j] && j !in s.runs
    case Passed => j in s.runs && s.runs[j] == 0
    case Failed => j in s.runs && s.runs[j] == 1
    case ValgrindError => j in s.runs && s.runs[j] == 2
    case Crashed => j in s.runs && s.runs[j] !in {0, 1, 2}
  }

  /** Jobs that are queued or in a worker's hands have not been run. */
  ghost predicate NotRunYet(s: State) {
    && (forall i :: 0 <= i < |s.input| ==> s.input[i] !in s.runs)
    && (forall w :: 0 <= w < |s.workers| && !s.workers[w].Idle? ==> s.workers[w].job !in s.runs)
    && (forall j :: j in s.runs ==> j < |s.table|)
    && (forall w :: 0 <= w < |s.workers| && s.workers[w].Running? ==>
          s.workers[w].job < |s.table| && !s.table[s.workers[w].job].isSkip)
  }

  ghost predicate AllHonest(c: Config, s: State) {
    && (forall i :: 0 <= i < |s.output| ==> s.output[i] < |s.table| && Honest(c, s, s.output[i]))
    && (forall i :: 0 <= i < |s.collected| ==> s.collected[i] < |s.table| && Honest(c, s, s.collected[i]))
  }

  ghost predicate HonestInv(c: Config, s: State) {
    NotRunYet(s) && AllHonest(c, s)
  }

  lemma {:induction false} InQueueIsNowhereElse(s: State, i: nat)
    requires Conserved(s) && i < |s.input|
    ensures forall w :: 0 <= w < |s.workers| && !s.workers[w].Idle? ==> s.workers[w].job != s.input[i]
  {
    var j := s.input[i];
    assert Places(s, j) <= 1;
    assert j in multiset(s.input);
    forall w | 0 <= w < |s.workers| && !s.workers[w].Idle? ensures s.workers[w].job != j {
      SumContains(s.workers, w, Has(j));
    }
  }

  /** A worker's report: what it writes goes to its own job, which was not run or reported before. */
  lemma ReportHonest(c: Config, s: State, w: nat, job: Job, runs: map<nat, int>)
    requires Inv(c, s) && HonestInv(c, s) && w < |s.workers|
    requires s.workers[w].Holding? || s.workers[w].Skipping? || s.workers[w].Running?
    requires s.workers[w].job < |s.table|
    requires runs.Keys <= s.runs.Keys + {s.workers[w].job}
    requires forall i :: i in s.runs && i != s.workers[w].job ==> i in runs && runs[i] == s.runs[i]
    requires Honest(c, Report(s.(runs := runs), w, job), s.workers[w].job)
    ensures HonestInv(c, Report(s.(runs := runs), w, job))
  {
    var s' := Report(s.(runs := runs), w, job);
    var j := s.workers[w].job;
    HeldExclusively(s, w);
    forall i | 0 <= i < |s.input| ensures s.input[i] !in runs {
      InQueueIsNowhereElse(s, i);
    }
    forall i | 0 <= i < |s'.output| ensures s'.output[i] < |s'.table| && Honest(c, s', s'.output[i]) {
      if i < |s.output| {
        assert s.output[i] != j && Honest(c, s, s.output[i]);
      }
    }
    forall i | 0 <= i < |s'.collected| ensures s'.collected[i] < |s'.table| && Honest(c, s', s'.collected[i]) {
      assert s.collected[i] != j && Honest(c, s, s.collected[i]);
    }
  }

  lemma HonestFrame(c: Config, s: State, s': State)
    requires AllHonest(c, s) && s'.runs == s.runs && s'.output == s.output && s'.collected == s.collected
    requires |s.table| <= |s'.table| && s'.table[..|s.table|] == s.table && (s.interrupt ==> s'.interrupt)
    ensures AllHonest(c, s')
  {
    forall i | 0 <= i < |s.output| ensures Honest(c, s', s.output[i]) {
      assert s'.table[..|s.table|][s.output[i]] == s.table[s.output[i]];
    }
    forall i | 0 <= i < |s.collected| ensures Honest(c, s', s.collected[i]) {
      assert s'.table[..|s.table|][s.collected[i]] == s.table[s.collected[i]];
    }
  }

  lemma MoveHonest(c: Config, s: State, a: Action)
    requires Inv(c, s) && HonestInv(c, s) && Enabled(c, s, a)
    requires a.Put? || a.Get? || a.Exit? || a.Skip? || a.Launch? || a.Interrupt? || a.Join?
    ensures HonestInv(c, Do(c, s, a))
  {
    hide Conserved, Counted, ResultsOk, Honest, AllHonest;
    HonestFrame(c, s, Do(c, s, a));
  }

  lemma GatherHonest(c: Config, s: State)
    requires HonestInv(c, s) && Enabled(c, s, Collect)
    ensures HonestInv(c, Do(c, s, Collect))
  {
    hide Honest;
    var s' := Do(c, s, Collect);
    forall i | 0 <= i < |s'.collected| ensures Honest(c, s, s'.collected[i]) {
      if i < |s.collected| {
        assert Honest(c, s, s.collected[i]);
      } else {
        assert Honest(c, s, s.output[0]);
      }
    }
    forall i | 0 <= i < |s'.output| ensures Honest(c, s, s'.output[i]) {
      assert s'.output[i] == s.output[i + 1];
    }
    SameJobsSameHonesty(c, s, s');
  }

  lemma SameJobsSameHonesty(c: Config, s: State, s': State)
    requires s'.table == s.table && s'.runs == s.runs && s'.interrupt == s.interrupt
    ensures forall j :: 0 <= j < |s.table| ==> (Honest(c, s', j) <==> Honest(c, s, j))
  {
  }

  lemma StepHonest(c: Config, s: State, a: Action)
    requires Inv(c, s) && HonestInv(c, s) && Enabled(c, s, a)
    ensures HonestInv(c, Do(c, s, a))
    ensures a.Complete? ==> s.workers[a.w].job !in s.runs
  {
    if a.HandBack? || a.PutSkipped? || a.Complete? {
      HeldJobIsOk(c, s, a.w);
      assert JobOk(c, s, s.workers[a.w].job);
      hide Conserved, Counted, ResultsOk, Fifo, TableOk, WorkersOk, JoinOk, AllHonest;
      var job := s.table[s.workers[a.w].job];
      match a
      case HandBack(w) => ReportHonest(c, s, w, job.(isBreak := true), s.runs);
      case PutSkipped(w) => ReportHonest(c, s, w, job, s.runs);
      case Complete(w, rc) =>
        ReportHonest(c, s, w, job.(returncode := rc), s.runs[s.workers[w].job := rc]);
    } else if a.Collect? {
      GatherHonest(c, s);
    } else {
      MoveHonest(c, s, a);
    }
  }

  lemma {:induction false} RunHonest(c: Config, s: State, steps: seq<Action>)
    requires Inv(c, s) && HonestInv(c, s) && IsRun(c, s, steps)
    ensures HonestInv(c, After(c, s, steps))
    decreases |steps|
  {
    hide Inv, HonestInv, Enabled, Do;
    if steps != [] {
      StepHonest(c, s, steps[0]);
      StepInv(c, s, steps[0]);
      RunHonest(c, Do(c, s, steps[0]), steps[1..]);
    }
  }

  /**
   At the end of every run, the outcome of every test is what happened to it: a test counted as
   passed, failed, or crashed was run and returned so; one counted as skipped was to be skipped;
   and one counted as neither was handed back unrun after an interrupt.
   */
  lemma OutcomesAreHonest(c: Config, steps: seq<Action>)
    requires IsRun(c, Init(c), steps) && Finished(c, After(c, Init(c), steps))
    ensures var s := After(c, Init(c), steps);
            forall j :: 0 <= j < c.Jobs() ==> j < |s.table| && Honest(c, s, j)
  {
    InitInv(c);
    RunInv(c, Init(c), steps);
    RunHonest(c, Init(c), steps);
    var s := After(c, Init(c), steps);
    CollectedOnce(c, s);
    forall j | 0 <= j < c.Jobs() ensures Honest(c, s, j) {
      assert j in multiset(s.collected);
      var i :| 0 <= i < |s.collected| && s.collected[i] == j;
    }
  }

  /** No job is ever run a second time. */
  lemma NoJobRunsTwice(c: Config, steps: seq<Action>, w: nat, rc: int)
    requires IsRun(c, Init(c), steps) && Enabled(c, After(c, Init(c), steps), Complete(w, rc))
    ensures After(c, Init(c), steps).workers[w].job !in After(c, Init(c), steps).runs
  {
    InitInv(c);
    RunHonest(c, Init(c), steps);
  }
}
