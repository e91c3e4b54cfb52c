/** The dispatcher as the program states it: objects with queues and counters that its threads update. */
module TestRun {
  import opened Dispatcher

  /** What a worker that has just taken a job does next. */
  function NextAction(s: State, w: nat): Action
    requires WorkerHolds(s, w)
  {
    var job := s.table[s.workers[w].job];
    if job.isBreak then Exit(w)
    else if s.interrupt then HandBack(w)
    else if job.isSkip then Skip(w)
    else Launch(w)
  }

  class TestRun {
    const config: Config
    var table: seq<Job>
    var inputQueue: seq<nat>
    var outputQueue: seq<nat>
    var workers: seq<Worker>
    var threadExit: bool
    var results: seq<nat>
    var passedTests: nat
    var failedTests: nat
    var valgrindErrors: nat
    var crashedTests: nat
    var skippedTests: nat
    var joined: nat
    ghost var runs: map<nat, int>

    constructor (config: Config)
      ensures this.config == config && View() == Init(config)
    {
      this.config := config;
      table, inputQueue, outputQueue, results, joined := [], [], [], [], 0;
      workers, threadExit := seq(config.processors, _ => Idle), false;
      passedTests, failedTests, valgrindErrors, crashedTests, skippedTests := 0, 0, 0, 0, 0;
      runs := map[];
    }

    ghost function View(): State
      reads this
    {
      State(table, inputQueue, outputQueue, workers, threadExit, results,
            Tally(passedTests, failedTests, valgrindErrors, crashedTests, skippedTests), joined, runs)
    }

    method PutJob()
      requires Enabled(config, View(), Put)
      modifies this
      ensures View() == Do(config, old(View()), Put)
    {
      var job := Job(false, false, 0);
      if |table| < config.Jobs() {
        job := job.(isSkip := config.skips[|table|]);
      } else {
        job := job.(isBreak := true);
      }
      inputQueue := inputQueue + [|table|];
      table := table + [job];
    }

    method TakeJob(w: nat)
      requires Enabled(config, View(), Get(w))
      modifies this
      ensures View() == Do(config, old(View()), Get(w))
    {
      var j := inputQueue[0];
      inputQueue := inputQueue[1..];
      workers := workers[w := Holding(j)];
    }

    /** The checks of the worker's loop, in their order. */
    method WorkOn(w: nat)
      requires WorkerHolds(View(), w)
      modifies this
      ensures Enabled(config, old(View()), NextAction(old(View()), w))
      ensures View() == Do(config, old(View()), NextAction(old(View()), w))
    {
      var j := workers[w].job;
      if table[j].isBreak {
        workers := workers[w := Exited(j)];
        return;
      }
      if threadExit {
        table := table[j := table[j].(isBreak := true)];
        outputQueue := outputQueue + [j];
        workers := workers[w := Idle];
        return;
      }
      if table[j].isSkip {
        workers := workers[w := Skipping(j)];
      } else {
        workers := workers[w := Running(j)];
      }
    }

    /** By now an interrupt may have come; the job is put as it is all the same. */
    method PutSkippedJob(w: nat)
      requires Enabled(config, View(), PutSkipped(w))
      modifies this
      ensures View() == Do(config, old(View()), PutSkipped(w))
    {
      var j := workers[w].job;
      assert table[j := table[j]] == table;
      outputQueue := outputQueue + [j];
      workers := workers[w := Idle];
    }

    method FinishJob(w: nat, returncode: int)
      requires Enabled(config, View(), Complete(w, returncode))
      modifies this
      ensures View() == Do(config, old(View()), Complete(w, returncode))
    {
      var j := workers[w].job;
      table := table[j := table[j].(returncode := returncode)];
      outputQueue := outputQueue + [j];
      workers := workers[w := Idle];
      runs := runs[j := returncode];
    }

    method SigintHook()
      modifies this
      ensures View() == old(View()).(interrupt := true)
    {
      threadExit := true;
    }

    method CollectResult()
      requires Enabled(config, View(), Collect)
      modifies this
      ensures View() == Do(config, old(View()), Collect)
    {
      var j := outputQueue[0];
      outputQueue := outputQueue[1..];
      results := results + [j];
      var job := table[j];
      if job.isBreak {
        return;
      }
      if job.isSkip {
        skippedTests := skippedTests + 1;
      } else {
        if job.returncode == 0 {
          passedTests := passedTests + 1;
        } else if job.returncode == 1 {
          failedTests := failedTests + 1;
        } else if job.returncode == 2 {
          valgrindErrors := valgrindErrors + 1;
        } else {
          crashedTests := crashedTests + 1;
        }
      }
    }

    method JoinThread()
      requires Enabled(config, View(), Join)
      modifies this
      ensures View() == Do(config, old(View()), Join)
    {
      joined := joined + 1;
    }

    method Summary() returns (status: int)
      ensures status == ExitStatus(config, View())
    {
      status := if passedTests + skippedTests == config.Jobs() then 0 else 1;
    }
  }
}
