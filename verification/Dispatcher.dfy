/**
 The parallel test dispatcher as a protocol: the main thread puts the jobs and then one
 "break" job for each worker on a FIFO queue, the workers take jobs off it and put results on
 a second queue, and the main thread collects one result for each job and joins the workers.
 An interrupt may arrive at any moment; from then on workers hand jobs back unrun.
 */
module Dispatcher {

  datatype Job = Job(isBreak: bool, isSkip: bool, returncode: int)

  /** A worker waits for a job, has just taken one, has decided to skip it, runs it, or has returned. */
  datatype Worker = Idle | Holding(job: nat) | Skipping(job: nat) | Running(job: nat) | Exited(job: nat)

  /** `skips` says, for each test to be dispatched, whether it is marked to be skipped. */
  datatype Config = Config(skips: seq<bool>, processors: nat) {
    function Jobs(): nat { |skips| }
    function Puts(): nat { |skips| + processors }
  }

  datatype Outcome = Passed | Failed | ValgrindError | Crashed | Skipped | Interrupted

  function OutcomeOf(job: Job): Outcome {
    if job.isBreak then Interrupted
    else if job.isSkip then Skipped
    else if job.returncode == 0 then Passed
    else if job.returncode == 1 then Failed
    else if job.returncode == 2 then ValgrindError
    else Crashed
  }

  datatype Tally = Tally(passed: nat, failed: nat, valgrind: nat, crashed: nat, skipped: nat) {
    function Add(o: Outcome): Tally {
      match o
      case Passed => this.(passed := passed + 1)
      case Failed => this.(failed := failed + 1)
      case ValgrindError => this.(valgrind := valgrind + 1)
      case Crashed => this.(crashed := crashed + 1)
      case Skipped => this.(skipped := skipped + 1)
      case Interrupted => this
    }
  }

  const NO_RESULTS := Tally(0, 0, 0, 0, 0)

  /**
   Jobs are objects: `table` holds their fields, and a job is named by its index there. `runs` is
   history: the jobs that were run to the end, with what their commands returned.
   */
  datatype State = State(
    table: seq<Job>,
    input: seq<nat>,
    output: seq<nat>,
    workers: seq<Worker>,
    interrupt: bool,
    collected: seq<nat>,
    tally: Tally,
    joined: nat,
    runs: map<nat, int>)

  datatype Action =
    | Put
    | Get(w: nat)
    | Exit(w: nat)
    | HandBack(w: nat)
    | Skip(w: nat)
    | PutSkipped(w: nat)
    | Launch(w: nat)
    | Complete(w: nat, returncode: int)
    | Interrupt
    | Collect
    | Join

  function Init(c: Config): State {
    State([], [], [], seq(c.processors, _ => Idle), false, [], NO_RESULTS, 0, map[])
  }

  ghost predicate Finished(c: Config, s: State) {
    |s.table| == c.Puts() && |s.collected| == c.Jobs() && s.joined == |s.workers|
  }

  predicate WorkerHolds(s: State, w: nat) {
    w < |s.workers| && s.workers[w].Holding? && s.workers[w].job < |s.table|
  }

  predicate HasWork(s: State, w: nat) {
    WorkerHolds(s, w) && !s.table[s.workers[w].job].isBreak
  }

  predicate Enabled(c: Config, s: State, a: Action) {
    match a
    case Put => |s.table| < c.Puts()
    case Get(w) => w < |s.workers| && s.workers[w].Idle? && s.input != []
    case Exit(w) => WorkerHolds(s, w) && s.table[s.workers[w].job].isBreak
    case HandBack(w) => HasWork(s, w) && s.interrupt
    case Skip(w) => HasWork(s, w) && !s.interrupt && s.table[s.workers[w].job].isSkip
    case PutSkipped(w) => w < |s.workers| && s.workers[w].Skipping? && s.workers[w].job < |s.table|
    case Launch(w) => HasWork(s, w) && !s.interrupt && !s.table[s.workers[w].job].isSkip
    case Complete(w, _) => w < |s.workers| && s.workers[w].Running? && s.workers[w].job < |s.table|
    case Interrupt => !s.interrupt
    case Collect => |s.table| == c.Puts() && |s.collected| < c.Jobs() && s.output != [] && s.output[0] < |s.table|
    case Join =>
      && |s.table| == c.Puts() && |s.collected| == c.Jobs()
      && s.joined < |s.workers| && s.workers[s.joined].Exited?
  }

  // ----- The ways in which a step moves jobs -----

  /** The state after worker `w` has moved on with its job. */
  function Become(s: State, w: nat, v: Worker): State
    requires w < |s.workers|
  {
    s.(workers := s.workers[w := v])
  }

  /** The state after worker `w` has put its job, now `job`, on the output queue. */
  function Report(s: State, w: nat, job: Job): State
    requires w < |s.workers| && !s.workers[w].Idle? && s.workers[w].job < |s.table|
  {
    var j := s.workers[w].job;
    s.(table := s.table[j := job], output := s.output + [j], workers := s.workers[w := Idle])
  }

  function Ran(s: State, w: nat, returncode: int): State
    requires w < |s.workers| && s.workers[w].Running?
  {
    s.(runs := s.runs[s.workers[w].job := returncode])
  }

  function Append(s: State, job: Job): State {
    s.(table := s.table + [job], input := s.input + [|s.table|])
  }

  function Take(s: State, w: nat): State
    requires w < |s.workers| && s.input != []
  {
    s.(input := s.input[1..], workers := s.workers[w := Holding(s.input[0])])
  }

  function Gather(s: State): State
    requires s.output != [] && s.output[0] < |s.table|
  {
    s.(output := s.output[1..], collected := s.collected + [s.output[0]],
       tally := s.tally.Add(OutcomeOf(s.table[s.output[0]])))
  }

  // ----- The steps -----

  function Do(c: Config, s: State, a: Action): State
    requires Enabled(c, s, a)
  {
    match a
    case Put =>
      Append(s, if |s.table| < c.Jobs() then Job(false, c.skips[|s.table|], 0) else Job(true, false, 0))
    case Get(w) => Take(s, w)
    case Exit(w) => Become(s, w, Exited(s.workers[w].job))
    case HandBack(w) => Report(s, w, s.table[s.workers[w].job].(isBreak := true))
    case Skip(w) => Become(s, w, Skipping(s.workers[w].job))
    case PutSkipped(w) => Report(s, w, s.table[s.workers[w].job])
    case Launch(w) => Become(s, w, Running(s.workers[w].job))
    case Complete(w, returncode) =>
      Report(Ran(s, w, returncode), w, s.table[s.workers[w].job].(returncode := returncode))
    case Interrupt => s.(interrupt := true)
    case Collect => Gather(s)
    case Join => s.(joined := s.joined + 1)
  }

  /** The exit status of the whole run. */
  function ExitStatus(c: Config, s: State): int {
    if s.tally.passed + s.tally.skipped == c.Jobs() then 0 else 1
  }

  // ----- Sums over the workers -----

  function Sum(ws: seq<Worker>, f: Worker -> nat): nat {
    if ws == [] then 0 else Sum(ws[..|ws| - 1], f) + f(ws[|ws| - 1])
  }

  lemma {:induction false} SumUpdate(ws: seq<Worker>, i: nat, v: Worker, f: Worker -> nat)
    requires i < |ws|
    ensures Sum(ws[i := v], f) + f(ws[i]) == Sum(ws, f) + f(v)
  {
    var n := |ws| - 1;
    if i == n {
      assert ws[i := v][..n] == ws[..n];
    } else {
      assert ws[i := v][..n] == ws[..n][i := v];
      SumUpdate(ws[..n], i, v, f);
    }
  }

  lemma {:induction false} SumAtMost(ws: seq<Worker>, f: Worker -> nat, i: nat)
    requires i < |ws| && f(ws[i]) == 0 && forall w :: f(w) <= 1
    ensures Sum(ws, f) < |ws|
  {
    var n := |ws| - 1;
    if i < n {
      SumAtMost(ws[..n], f, i);
    } else {
      SumBelow(ws[..n], f);
    }
  }

  lemma {:induction false} SumBelow(ws: seq<Worker>, f: Worker -> nat)
    requires forall w :: f(w) <= 1
    ensures Sum(ws, f) <= |ws|
  {
    if ws != [] {
      SumBelow(ws[..|ws| - 1], f);
    }
  }

  lemma {:induction false} SumContains(ws: seq<Worker>, i: nat, f: Worker -> nat)
    requires i < |ws|
    ensures Sum(ws, f) >= f(ws[i])
  {
    if i < |ws| - 1 {
      SumContains(ws[..|ws| - 1], i, f);
    }
  }

  lemma {:induction false} SumIsZero(ws: seq<Worker>, f: Worker -> nat)
    requires forall i :: 0 <= i < |ws| ==> f(ws[i]) == 0
    ensures Sum(ws, f) == 0
  {
    if ws != [] {
      SumIsZero(ws[..|ws| - 1], f);
    }
  }
}
