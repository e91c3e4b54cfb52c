/** What holds in every state of the dispatcher, and that each step keeps it. */
module DispatcherInvariant {
  import opened Dispatcher

  /** Whether a worker holds, runs or has returned upon job `j`. */
  function Has(j: nat): Worker -> nat {
    (w: Worker) => if !w.Idle? && w.job == j then 1 else 0
  }

  /** The number of places in which job `j` is found. */
  function Places(s: State, j: nat): nat {
    multiset(s.input)[j] + Sum(s.workers, Has(j)) + multiset(s.output)[j] + multiset(s.collected)[j]
  }

  /** Each job that was put is in exactly one place. */
  ghost predicate Conserved(s: State) {
    forall j: nat :: Places(s, j) == if j < |s.table| then 1 else 0
  }

  /** The number of jobs taken off the input queue so far. */
  function Taken(s: State): int {
    |s.table| - |s.input|
  }

  /** The input queue is first in, first out: it holds the most recently put jobs, in order. */
  ghost predicate Fifo(s: State) {
    |s.input| <= |s.table| && forall i :: 0 <= i < |s.input| ==> s.input[i] == Taken(s) + i
  }

  ghost predicate WorkerOk(c: Config, s: State, w: Worker) {
    match w
    case Idle => true
    case Holding(j) => j < Taken(s) && j < |s.table| && (j < c.Jobs() ==> !s.table[j].isBreak)
    case Skipping(j) => j < Taken(s) && j < |s.table| && j < c.Jobs() && s.table[j].isSkip && !s.table[j].isBreak
    case Running(j) => j < Taken(s) && j < |s.table| && j < c.Jobs() && !s.table[j].isBreak
    case Exited(j) => j < Taken(s) && c.Jobs() <= j
  }

  ghost predicate WorkersOk(c: Config, s: State) {
    && |s.workers| == c.processors
    && forall w :: 0 <= w < |s.workers| ==> WorkerOk(c, s, s.workers[w])
  }

  ghost predicate JobOk(c: Config, s: State, j: nat)
    requires j < |s.table| <= c.Puts()
  {
    if j < c.Jobs()
    then s.table[j].isSkip == c.skips[j] && (!s.interrupt || Taken(s) <= j ==> !s.table[j].isBreak)
    else s.table[j].isBreak
  }

  ghost predicate TableOk(c: Config, s: State) {
    |s.table| <= c.Puts() && forall j :: 0 <= j < |s.table| ==> JobOk(c, s, j)
  }

  ghost predicate AreTests(c: Config, s: State, ids: seq<nat>) {
    forall i :: 0 <= i < |ids| ==> ids[i] < c.Jobs() && ids[i] < |s.table|
  }

  ghost predicate ResultsOk(c: Config, s: State) {
    && AreTests(c, s, s.output) && AreTests(c, s, s.collected)
    && s.tally == TallyOf(s.table, s.collected)
  }

  function TallyOf(table: seq<Job>, ids: seq<nat>): Tally
    requires forall i :: 0 <= i < |ids| ==> ids[i] < |table|
  {
    if ids == [] then NO_RESULTS
    else TallyOf(table, ids[..|ids| - 1]).Add(OutcomeOf(table[ids[|ids| - 1]]))
  }

  function Poisoned(c: Config): Worker -> nat {
    (w: Worker) => if (w.Holding? || w.Exited?) && w.job >= c.Jobs() then 1 else 0
  }

  function Busy(c: Config): Worker -> nat {
    (w: Worker) => if (w.Holding? || w.Skipping? || w.Running?) && w.job < c.Jobs() then 1 else 0
  }

  /** Of the jobs taken, the tests are with workers or are results, and the break jobs are with workers. */
  ghost predicate Counted(c: Config, s: State) {
    && Sum(s.workers, Poisoned(c)) == (if Taken(s) <= c.Jobs() then 0 else Taken(s) - c.Jobs())
    && Sum(s.workers, Busy(c)) + |s.output| + |s.collected| == (if Taken(s) <= c.Jobs() then Taken(s) else c.Jobs())
  }

  ghost predicate JoinOk(s: State) {
    && s.joined <= |s.workers|
    && forall w :: 0 <= w < s.joined ==> s.workers[w].Exited?
  }

  ghost predicate Inv(c: Config, s: State) {
    && Fifo(s) && Conserved(s) && TableOk(c, s) && WorkersOk(c, s)
    && ResultsOk(c, s) && Counted(c, s) && JoinOk(s)
  }

  // ----- The initial state -----

  lemma {:induction false} InitInv(c: Config)
    ensures Inv(c, Init(c))
  {
    var ws := Init(c).workers;
    SumIsZero(ws, Poisoned(c));
    SumIsZero(ws, Busy(c));
    forall j: nat ensures Places(Init(c), j) == 0 {
      SumIsZero(ws, Has(j));
    }
  }

  // ----- Jobs are in one place only -----

  /** What a worker writes to its own job, nobody else reads. */
  lemma HeldExclusively(s: State, w: nat)
    requires Conserved(s) && w < |s.workers| && !s.workers[w].Idle?
    ensures forall v :: 0 <= v < |s.workers| && v != w && !s.workers[v].Idle? ==> s.workers[v].job != s.workers[w].job
    ensures s.workers[w].job !in s.output && s.workers[w].job !in s.collected
  {
    var j := s.workers[w].job;
    assert Places(s, j) <= 1;
    SumContains(s.workers, w, Has(j));
    forall v | 0 <= v < |s.workers| && v != w && !s.workers[v].Idle? ensures s.workers[v].job != j {
      SumUpdate(s.workers, w, Idle, Has(j));
      SumContains(s.workers[w := Idle], v, Has(j));
    }
  }

  // ----- Each way of moving jobs conserves them -----

  lemma HeadCount(ids: seq<nat>, j: nat)
    requires ids != []
    ensures multiset(ids)[j] == multiset(ids[1..])[j] + if ids[0] == j then 1 else 0
  {
    assert ids == [ids[0]] + ids[1..];
  }

  lemma AppendConserves(s: State, job: Job)
    requires Conserved(s)
    ensures Conserved(Append(s, job))
  {
    forall j: nat ensures Places(Append(s, job), j) == if j < |s.table| + 1 then 1 else 0 {
      assert Places(s, j) == if j < |s.table| then 1 else 0;
    }
  }

  lemma TakeConserves(s: State, w: nat)
    requires Conserved(s) && w < |s.workers| && s.workers[w].Idle? && s.input != []
    ensures Conserved(Take(s, w))
  {
    forall j: nat ensures Places(Take(s, w), j) == if j < |s.table| then 1 else 0 {
      assert Places(s, j) == if j < |s.table| then 1 else 0;
      SumUpdate(s.workers, w, Holding(s.input[0]), Has(j));
      HeadCount(s.input, j);
    }
  }

  lemma BecomeConserves(s: State, w: nat, v: Worker)
    requires Conserved(s) && w < |s.workers|
    requires !s.workers[w].Idle? && !v.Idle? && s.workers[w].job == v.job
    ensures Conserved(Become(s, w, v))
  {
    forall j: nat ensures Places(Become(s, w, v), j) == if j < |s.table| then 1 else 0 {
      assert Places(s, j) == if j < |s.table| then 1 else 0;
      SumUpdate(s.workers, w, v, Has(j));
    }
  }

  lemma ReportConserves(s: State, w: nat, job: Job)
    requires Conserved(s) && w < |s.workers| && !s.workers[w].Idle? && s.workers[w].job < |s.table|
    ensures Conserved(Report(s, w, job))
  {
    forall j: nat ensures Places(Report(s, w, job), j) == if j < |s.table| then 1 else 0 {
      assert Places(s, j) == if j < |s.table| then 1 else 0;
      SumUpdate(s.workers, w, Idle, Has(j));
    }
  }

  lemma GatherConserves(s: State)
    requires Conserved(s) && s.output != [] && s.output[0] < |s.table|
    ensures Conserved(Gather(s))
  {
    forall j: nat ensures Places(Gather(s), j) == if j < |s.table| then 1 else 0 {
      assert Places(s, j) == if j < |s.table| then 1 else 0;
      HeadCount(s.output, j);
    }
  }

  // ----- Appending a job -----

  lemma {:induction false} TallyFrame(table: seq<Job>, table': seq<Job>, ids: seq<nat>)
    requires forall i :: 0 <= i < |ids| ==> ids[i] < |table| && ids[i] < |table'| && table[ids[i]] == table'[ids[i]]
    ensures TallyOf(table, ids) == TallyOf(table', ids)
  {
    if ids != [] {
      TallyFrame(table, table', ids[..|ids| - 1]);
    }
  }

  lemma AppendInv(c: Config, s: State, job: Job)
    requires Inv(c, s) && |s.table| < c.Puts()
    requires job.isBreak == (c.Jobs() <= |s.table|) && (|s.table| < c.Jobs() ==> job.isSkip == c.skips[|s.table|])
    ensures Inv(c, Append(s, job))
  {
    hide Conserved, Sum;
    var s' := Append(s, job);
    AppendConserves(s, job);
    TallyFrame(s.table, s'.table, s.collected);
    forall j | 0 <= j < |s'.table| ensures JobOk(c, s', j) {
      assert j < |s.table| ==> JobOk(c, s, j);
    }
    forall w | 0 <= w < |s'.workers| ensures WorkerOk(c, s', s'.workers[w]) {
      assert WorkerOk(c, s, s.workers[w]);
    }
  }

  // ----- Taking a job -----

  lemma TakeInv(c: Config, s: State, w: nat)
    requires Inv(c, s) && w < |s.workers| && s.workers[w].Idle? && s.input != []
    ensures Inv(c, Take(s, w))
  {
    hide Conserved, Sum;
    var s' := Take(s, w);
    TakeConserves(s, w);
    Recount(c, s, w, Holding(s.input[0]));
    forall j | 0 <= j < |s'.table| ensures JobOk(c, s', j) {
      assert JobOk(c, s, j);
    }
    forall v | 0 <= v < |s'.workers| ensures WorkerOk(c, s', s'.workers[v]) {
      assert WorkerOk(c, s, s.workers[v]) && JobOk(c, s, s.input[0]);
    }
  }

  lemma Recount(c: Config, s: State, w: nat, v: Worker)
    requires w < |s.workers|
    ensures Sum(s.workers[w := v], Poisoned(c)) + Poisoned(c)(s.workers[w])
         == Sum(s.workers, Poisoned(c)) + Poisoned(c)(v)
    ensures Sum(s.workers[w := v], Busy(c)) + Busy(c)(s.workers[w]) == Sum(s.workers, Busy(c)) + Busy(c)(v)
  {
    SumUpdate(s.workers, w, v, Poisoned(c));
    SumUpdate(s.workers, w, v, Busy(c));
  }

  // ----- Moving on with a job -----

  /** A job in a worker's hands is marked "break" exactly when it was put as one. */
  lemma HeldJobIsOk(c: Config, s: State, w: nat)
    requires TableOk(c, s) && WorkersOk(c, s) && w < |s.workers|
    requires s.workers[w].Holding? || s.workers[w].Skipping? || s.workers[w].Running?
    ensures s.workers[w].job < |s.table| && s.workers[w].job < Taken(s)
    ensures s.table[s.workers[w].job].isBreak <==> c.Jobs() <= s.workers[w].job
    ensures s.workers[w].Skipping? || s.workers[w].Running? ==> s.workers[w].job < c.Jobs()
  {
    assert WorkerOk(c, s, s.workers[w]) && JobOk(c, s, s.workers[w].job);
  }

  lemma BecomeInv(c: Config, s: State, w: nat, v: Worker)
    requires Inv(c, s) && WorkerHolds(s, w) && !v.Idle? && v.job == s.workers[w].job
    requires if s.table[v.job].isBreak then v.Exited? else v.Running? || (v.Skipping? && s.table[v.job].isSkip)
    ensures Inv(c, Become(s, w, v))
  {
    hide Conserved, Sum;
    var s' := Become(s, w, v);
    BecomeConserves(s, w, v);
    HeldJobIsOk(c, s, w);
    Recount(c, s, w, v);
    forall j | 0 <= j < |s'.table| ensures JobOk(c, s', j) {
      assert JobOk(c, s, j);
    }
    forall u | 0 <= u < |s'.workers| ensures WorkerOk(c, s', s'.workers[u]) {
      assert WorkerOk(c, s, s.workers[u]);
    }
  }

  // ----- Reporting a result -----

  lemma ReportInv(c: Config, s: State, w: nat, job: Job)
    requires Inv(c, s) && w < |s.workers|
    requires s.workers[w].Holding? || s.workers[w].Skipping? || s.workers[w].Running?
    requires s.workers[w].job < |s.table| && !s.table[s.workers[w].job].isBreak
    requires job.isSkip == s.table[s.workers[w].job].isSkip && (job.isBreak ==> s.interrupt)
    ensures Inv(c, Report(s, w, job))
  {
    hide Conserved, Sum;
    var s' := Report(s, w, job);
    ReportConserves(s, w, job);
    HeldJobIsOk(c, s, w);
    Recount(c, s, w, Idle);
    HeldExclusively(s, w);
    TallyFrame(s.table, s'.table, s.collected);
    forall j | 0 <= j < |s'.table| ensures JobOk(c, s', j) {
      assert JobOk(c, s, j);
    }
    forall v | 0 <= v < |s'.workers| ensures WorkerOk(c, s', s'.workers[v]) {
      assert WorkerOk(c, s, s.workers[v]);
    }
  }

  // ----- Collecting a result -----

  lemma GatherInv(c: Config, s: State)
    requires Inv(c, s) && s.output != [] && s.output[0] < |s.table|
    ensures Inv(c, Gather(s))
  {
    hide Conserved, Sum;
    var s' := Gather(s);
    GatherConserves(s);
    assert s'.collected[..|s.collected|] == s.collected;
    forall j | 0 <= j < |s'.table| ensures JobOk(c, s', j) {
      assert JobOk(c, s, j);
    }
    forall w | 0 <= w < |s'.workers| ensures WorkerOk(c, s', s'.workers[w]) {
      assert WorkerOk(c, s, s.workers[w]);
    }
  }

  lemma InterruptInv(c: Config, s: State)
    requires Inv(c, s)
    ensures Inv(c, s.(interrupt := true))
  {
    var s' := s.(interrupt := true);
    forall j: nat ensures Places(s', j) == if j < |s.table| then 1 else 0 {
      assert Places(s, j) == if j < |s.table| then 1 else 0;
    }
    forall j | 0 <= j < |s'.table| ensures JobOk(c, s', j) {
      assert JobOk(c, s, j);
    }
    forall w | 0 <= w < |s'.workers| ensures WorkerOk(c, s', s'.workers[w]) {
      assert WorkerOk(c, s, s.workers[w]);
    }
  }

  lemma JoinInv(c: Config, s: State)
    requires Inv(c, s) && s.joined < |s.workers| && s.workers[s.joined].Exited?
    ensures Inv(c, s.(joined := s.joined + 1))
  {
    var s' := s.(joined := s.joined + 1);
    forall j: nat ensures Places(s', j) == if j < |s.table| then 1 else 0 {
      assert Places(s, j) == if j < |s.table| then 1 else 0;
    }
    forall j | 0 <= j < |s'.table| ensures JobOk(c, s', j) {
      assert JobOk(c, s, j);
    }
    forall w | 0 <= w < |s'.workers| ensures WorkerOk(c, s', s'.workers[w]) {
      assert WorkerOk(c, s, s.workers[w]);
    }
  }

  /** Every step keeps the invariant. */
  lemma StepInv(c: Config, s: State, a: Action)
    requires Inv(c, s) && Enabled(c, s, a)
    ensures Inv(c, Do(c, s, a))
  {
    hide Fifo, Conserved, TableOk, WorkersOk, ResultsOk, Counted, JoinOk;
    match a
    case Put => AppendInv(c, s, Do(c, s, a).table[|s.table|]);
    case Get(w) => TakeInv(c, s, w);
    case Exit(w) => BecomeInv(c, s, w, Exited(s.workers[w].job));
    case HandBack(w) => ReportInv(c, s, w, s.table[s.workers[w].job].(isBreak := true));
    case Skip(w) => BecomeInv(c, s, w, Skipping(s.workers[w].job));
    case PutSkipped(w) =>
      HeldJobIsOk(c, s, w);
      ReportInv(c, s, w, s.table[s.workers[w].job]);
    case Launch(w) => BecomeInv(c, s, w, Running(s.workers[w].job));
    case Complete(w, rc) => CompleteInv(c, s, w, rc);
    case Interrupt => InterruptInv(c, s);
    case Collect => GatherInv(c, s);
    case Join => JoinInv(c, s);
  }

  lemma RanInv(c: Config, s: State, w: nat, rc: int)
    requires Inv(c, s) && w < |s.workers| && s.workers[w].Running?
    ensures Inv(c, Ran(s, w, rc))
  {
    var s' := Ran(s, w, rc);
    forall j: nat ensures Places(s', j) == if j < |s.table| then 1 else 0 {
      assert Places(s, j) == if j < |s.table| then 1 else 0;
    }
    forall j | 0 <= j < |s'.table| ensures JobOk(c, s', j) {
      assert JobOk(c, s, j);
    }
    forall v | 0 <= v < |s'.workers| ensures WorkerOk(c, s', s'.workers[v]) {
      assert WorkerOk(c, s, s.workers[v]);
    }
  }

  lemma CompleteInv(c: Config, s: State, w: nat, rc: int)
    requires Inv(c, s) && Enabled(c, s, Complete(w, rc))
    ensures Inv(c, Do(c, s, Complete(w, rc)))
  {
    HeldJobIsOk(c, s, w);
    RanInv(c, s, w, rc);
    ReportInv(c, Ran(s, w, rc), w, s.table[s.workers[w].job].(returncode := rc));
  }
}
