/**
 The scheduler benchmark: a population of events, each of which schedules its own successor
 after a delay drawn from a stream, until a given number of them has been executed.
 */
module Benchmark {

  lemma {:induction false} EarliestExists(queue: multiset<nat>) returns (t: nat)
    requires queue != multiset{}
    ensures t in queue && forall u :: u in queue ==> t <= u
    decreases |queue|
  {
    var first :| first in queue;
    var rest := queue - multiset{first};
    t := first;
    if rest != multiset{} {
      var r := EarliestExists(rest);
      t := if r < first then r else first;
    }
    forall u | u in queue ensures t <= u {
      assert u == first || u in rest;
    }
  }

  ghost predicate NeverBackwards(times: seq<nat>) {
    forall i, j :: 0 <= i < j < |times| ==> times[i] <= times[j]
  }

  class Bench {
    const population: nat
    const total: nat
    const delays: nat -> nat
    var count: nat

    // The simulator: the times of the pending events, the clock, and whether it was stopped.
    var queue: multiset<nat>
    var now: nat
    var stopped: bool
    var drawn: nat

    constructor (population: nat, total: nat, delays: nat -> nat)
      ensures this.population == population && this.total == total && this.delays == delays
    {
      this.population, this.total, this.delays := population, total, delays;
      count, queue, now, stopped, drawn := 0, multiset{}, 0, false, 0;
    }

    method Schedule()
      modifies this`queue, this`drawn
      ensures queue == old(queue) + multiset{now + delays(old(drawn))} && drawn == old(drawn) + 1
    {
      queue := queue + multiset{now + delays(drawn)};
      drawn := drawn + 1;
    }

    /** An event either stops the simulator or schedules its successor and is counted. */
    method Cb()
      modifies this`queue, this`drawn, this`count, this`stopped
      ensures old(count) >= total ==> stopped && count == old(count) && queue == old(queue) && drawn == old(drawn)
      ensures old(count) < total ==>
                && stopped == old(stopped) && count == old(count) + 1 && drawn == old(drawn) + 1
                && queue == old(queue) + multiset{now + delays(old(drawn))}
    {
      if count >= total {
        stopped := true;
        return;
      }
      Schedule();
      count := count + 1;
    }

    /** The simulator takes an event with the earliest time, advances the clock, and executes it. */
    method ExecuteNext()
      requires queue != multiset{} && forall u :: u in queue ==> now <= u
      modifies this`queue, this`drawn, this`count, this`stopped, this`now
      ensures old(now) <= now && forall u :: u in queue ==> now <= u
      ensures old(count) >= total ==> stopped && count == old(count) && |queue| == |old(queue)| - 1
      ensures old(count) < total ==>
                stopped == old(stopped) && count == old(count) + 1 && |queue| == |old(queue)|
    {
      ghost var earliest := EarliestExists(queue);
      var t :| t in queue && forall u :: u in queue ==> t <= u;
      queue := queue - multiset{t};
      now := t;
      Cb();
    }

    /**
     Whatever the delays, the population is kept up, exactly `total` events are counted, one more
     is executed to stop the simulator, and the clock never goes back. Without a population
     nothing happens.
     */
    method Run() returns (pop: nat, events: nat, ghost times: seq<nat>)
      modifies this
      ensures pop == population && events == count
      ensures events == if population == 0 then 0 else total
      ensures population > 0 ==> |times| == total + 1 && stopped && |queue| == population - 1
      ensures population == 0 ==> times == []
      ensures NeverBackwards(times)
    {
      count, queue, now, stopped := 0, multiset{}, 0, false;
      times := [];
      for i := 0 to population
        invariant |queue| == i && now == 0 && !stopped && count == 0
      {
        Schedule();
      }
      while queue != multiset{} && !stopped
        invariant |times| == count + (if stopped then 1 else 0)
        invariant count <= total && (stopped ==> count == total && population > 0)
        invariant |queue| == if stopped then population - 1 else population
        invariant population == 0 ==> count == 0
        invariant forall t :: t in queue ==> now <= t
        invariant NeverBackwards(times) && forall i :: 0 <= i < |times| ==> times[i] <= now
        decreases total - count, !stopped
      {
        ExecuteNext();
        times := times + [now];
      }
      return population, count, times;
    }
  }
}
