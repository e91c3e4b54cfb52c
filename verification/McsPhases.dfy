/**
 The alternating MCS phases of scenario v5: a low phase, then a random one, and so on. At the
 end of a phase the scenario looks whether a controller has changed the MCS in between; if so
 it waits 5 seconds more before it starts the next phase.
 */
module McsPhases {
  import opened Wrappers

  /** The scheduler of the base station, as far as its downlink MCS goes. */
  datatype Scheduler = Scheduler(fixedMcs: bool, mcsDefault: nat)

  datatype Event =
    | Start(at: nat, nextIsLow: bool)
    | Check(at: nat, wasLow: bool, target: nat)

  datatype Label = NoEvent | Low | Random

  datatype Phase = Phase(low: bool, target: nat, start: nat)

  /**
   `scheduler` is None when the base station lacks one of the parts on the way to it. `phases`,
   `readings` and `touched` are history: the phases begun, the value read at the end of each, and
   whether a controller has written since the last phase began.
   */
  datatype World = World(
    now: nat,
    scheduler: Option<Scheduler>,
    active: Label,
    pending: seq<Event>,
    phases: seq<Phase>,
    readings: seq<int>,
    touched: bool)

  function CurrentMcs(s: Option<Scheduler>): int {
    match s
    case None => -1
    case Some(Scheduler(fixedMcs, mcs)) => if fixedMcs then mcs else 255
  }

  function ChangedMcs(s: Option<Scheduler>, mcs: int): Option<Scheduler> {
    match s
    case None => None
    case Some(sched) => if mcs >= 0 then Some(Scheduler(true, mcs)) else Some(sched.(fixedMcs := false))
  }

  function Target(low: bool, r: nat): nat {
    if low then 4 + r % 6 else 1 + r % 28
  }

  /** Starting a phase, with one random draw. */
  function Begun(w: World, low: bool, r: nat): World {
    var target := Target(low, r);
    w.(scheduler := ChangedMcs(w.scheduler, target),
       active := if low then Low else Random,
       pending := w.pending + [Check(w.now + 10, low, target)],
       phases := w.phases + [Phase(low, target, w.now)],
       touched := false)
  }

  /** The end of a phase. */
  function Checked(w: World, wasLow: bool, target: nat, r: nat): World {
    var current := CurrentMcs(w.scheduler);
    var w' := w.(readings := w.readings + [current]);
    if current != -1 && current != target
    then w'.(pending := w'.pending + [Start(w.now + 5, !wasLow)])
    else Begun(w', !wasLow, r)
  }

  // ----- The scenario -----

  class Scenario {
    var now: nat
    var scheduler: Option<Scheduler>
    var activeMcsEvent: Label
    var pending: seq<Event>
    ghost var phases: seq<Phase>
    ghost var readings: seq<int>
    ghost var touched: bool

    constructor (scheduler: Option<Scheduler>)
      ensures View() == Initial(scheduler)
    {
      now, this.scheduler, activeMcsEvent, pending := 0, scheduler, NoEvent, [Start(5, true)];
      phases, readings, touched := [], [], false;
    }

    ghost function View(): World
      reads this
    {
      World(now, scheduler, activeMcsEvent, pending, phases, readings, touched)
    }

    method GetCurrentMcs() returns (mcs: int)
      ensures mcs == CurrentMcs(scheduler)
    {
      if scheduler.None? {
        return -1;
      }
      return if scheduler.value.fixedMcs then scheduler.value.mcsDefault else 255;
    }

    method ChangeMcs(mcs: int)
      modifies this`scheduler
      ensures scheduler == ChangedMcs(old(scheduler), mcs)
    {
      if scheduler.None? {
        return;
      }
      if mcs >= 0 {
        scheduler := Some(Scheduler(true, mcs));
      } else {
        scheduler := Some(scheduler.value.(fixedMcs := false));
      }
    }

    method ScheduleNextMcsEvent(nextIsLow: bool, r: nat)
      modifies this
      ensures View() == Begun(old(View()), nextIsLow, r)
    {
      var targetMcs;
      if nextIsLow {
        targetMcs := 4 + r % 6;
        ChangeMcs(targetMcs);
        activeMcsEvent := Low;
      } else {
        targetMcs := 1 + r % 28;
        ChangeMcs(targetMcs);
        activeMcsEvent := Random;
      }
      pending := pending + [Check(now + 10, nextIsLow, targetMcs)];
      phases := phases + [Phase(nextIsLow, targetMcs, now)];
      touched := false;
    }

    method EndOfPhase(wasLow: bool, targetMcs: nat, r: nat)
      modifies this
      ensures View() == Checked(old(View()), wasLow, targetMcs, r)
    {
      var currentMcs := GetCurrentMcs();
      readings := readings + [currentMcs];
      if currentMcs != -1 && currentMcs != targetMcs {
        pending := pending + [Start(now + 5, !wasLow)];
      } else {
        ScheduleNextMcsEvent(!wasLow, r);
      }
    }
  }

  // ----- Runs -----

  function Initial(scheduler: Option<Scheduler>): World {
    World(0, scheduler, NoEvent, [Start(5, true)], [], [], false)
  }

  /** The simulator executes a pending event, or a controller writes to the scheduler. */
  datatype Step = Execute(i: nat, r: nat) | Control(scheduler: Scheduler)

  ghost predicate Enabled(w: World, s: Step) {
    match s
    case Execute(i, _) => i < |w.pending| && forall j :: 0 <= j < |w.pending| ==> w.pending[i].at <= w.pending[j].at
    case Control(_) => w.scheduler.Some?
  }

  function Do(w: World, s: Step): World
    requires Enabled(w, s)
  {
    match s
    case Control(scheduler) => w.(scheduler := Some(scheduler), touched := true)
    case Execute(i, r) =>
      var e := w.pending[i];
      var w' := w.(now := e.at, pending := w.pending[..i] + w.pending[i + 1..]);
      match e
      case Start(_, nextIsLow) => Begun(w', nextIsLow, r)
      case Check(_, wasLow, target) => Checked(w', wasLow, target, r)
  }

  ghost predicate IsRun(w: World, steps: seq<Step>)
    decreases |steps|
  {
    steps == [] || (Enabled(w, steps[0]) && IsRun(Do(w, steps[0]), steps[1..]))
  }

  ghost function After(w: World, steps: seq<Step>): World
    requires IsRun(w, steps)
    decreases |steps|
  {
    if steps == [] then w else After(Do(w, steps[0]), steps[1..])
  }

  // ----- The invariant -----

  /** How long a phase lasts, given what was read at its end. */
  function Length(p: Phase, reading: int): nat {
    if reading != -1 && reading != p.target then 15 else 10
  }

  /** Low and random phases alternate, with targets in their ranges, and start in time. */
  ghost predicate PhaseOk(k: nat, p: Phase) {
    && (p.low <==> k % 2 == 0)
    && (if p.low then 4 <= p.target <= 9 else 1 <= p.target <= 28)
    && 5 + 10 * k <= p.start <= 5 + 15 * k
  }

  ghost predicate PhasesOk(w: World) {
    && (forall k :: 0 <= k < |w.phases| ==> PhaseOk(k, w.phases[k]))
    && |w.readings| <= |w.phases| <= |w.readings| + 1
    && (forall k :: 0 <= k < |w.phases| - 1 ==>
          w.phases[k + 1].start == w.phases[k].start + Length(w.phases[k], w.readings[k]))
    && (w.phases != [] ==> w.phases[0].start == 5)
  }

  /** The one pending event, by where the scenario is. */
  ghost predicate PendingOk(w: World) {
    var n := |w.phases|;
    if n == 0 then w.pending == [Start(5, true)] && w.active == NoEvent
    else
      var p := w.phases[n - 1];
      && w.active == (if p.low then Low else Random)
      && (if |w.readings| == n
          then w.pending == [Start(p.start + 15, !p.low)] && Length(p, w.readings[n - 1]) == 15
          else w.pending == [Check(p.start + 10, p.low, p.target)])
  }

  /** What no controller has touched is still as the phase set it. */
  ghost predicate UntouchedOk(w: World) {
    w.phases != [] && !w.touched ==> CurrentMcs(w.scheduler) in {-1, w.phases[|w.phases| - 1].target as int}
  }

  ghost predicate Inv(w: World) {
    PhasesOk(w) && PendingOk(w) && UntouchedOk(w)
  }

  lemma BegunInv(w: World, low: bool, r: nat)
    requires PhasesOk(w) && w.pending == [] && |w.readings| == |w.phases|
    requires if w.phases == [] then w.now == 5 && low
             else var n := |w.phases|;
                  && w.now == w.phases[n - 1].start + Length(w.phases[n - 1], w.readings[n - 1])
                  && low == !w.phases[n - 1].low
    ensures Inv(Begun(w, low, r))
  {
    NextPhaseOk(w, low, r);
    hide PhaseOk, Target;
  }

  lemma NextPhaseOk(w: World, low: bool, r: nat)
    requires PhasesOk(w) && |w.readings| == |w.phases|
    requires if w.phases == [] then w.now == 5 && low
             else var n := |w.phases|;
                  && w.now == w.phases[n - 1].start + Length(w.phases[n - 1], w.readings[n - 1])
                  && low == !w.phases[n - 1].low
    ensures PhaseOk(|w.phases|, Phase(low, Target(low, r), w.now))
  {
    var n := |w.phases|;
    if n > 0 {
      assert PhaseOk(n - 1, w.phases[n - 1]);
    }
  }

  lemma StartInv(w: World, r: nat)
    requires Inv(w) && |w.pending| == 1 && w.pending[0].Start?
    ensures Inv(Begun(w.(now := w.pending[0].at, pending := []), w.pending[0].nextIsLow, r))
  {
    hide PhaseOk, UntouchedOk, Begun, Target;
    BegunInv(w.(now := w.pending[0].at, pending := []), w.pending[0].nextIsLow, r);
  }

  lemma CheckInv(w: World, r: nat)
    requires Inv(w) && |w.pending| == 1 && w.pending[0].Check?
    ensures Inv(Checked(w.(now := w.pending[0].at, pending := []), w.pending[0].wasLow, w.pending[0].target, r))
  {
    hide PhaseOk, Begun, Target;
    var e := w.pending[0];
    var current := CurrentMcs(w.scheduler);
    var w' := w.(now := e.at, pending := [], readings := w.readings + [current]);
    if current != -1 && current != e.target {
      assert w'.pending + [Start(e.at + 5, !e.wasLow)] == [Start(e.at + 5, !e.wasLow)];
    } else {
      BegunInv(w', !e.wasLow, r);
    }
  }

  /** Whatever the simulator draws and the controller writes, the invariant is kept. */
  lemma StepInv(w: World, s: Step)
    requires Inv(w) && Enabled(w, s)
    ensures Inv(Do(w, s))
  {
    hide PhaseOk, Begun, Checked;
    match s
    case Control(_) =>
    case Execute(i, r) =>
      assert i == 0 && w.pending[..i] + w.pending[i + 1..] == [];
      if w.pending[0].Start? {
        StartInv(w, r);
      } else {
        CheckInv(w, r);
      }
  }

  lemma {:induction false} RunInv(w: World, steps: seq<Step>)
    requires Inv(w) && IsRun(w, steps)
    ensures Inv(After(w, steps))
    decreases |steps|
  {
    hide Inv, Enabled, Do;
    if steps != [] {
      StepInv(w, steps[0]);
      RunInv(Do(w, steps[0]), steps[1..]);
    }
  }

  /**
   Over every run, whatever a controller writes: exactly one phase event is pending; low phases
   (4 to 9) and random ones (1 to 28) alternate, the first one low; a phase lasts 15 seconds if a
   valid value other than its target is read at its end and 10 otherwise; so phase k starts
   between 5 + 10k and 5 + 15k.
   */
  lemma PhasesAlternateInTime(scheduler: Option<Scheduler>, steps: seq<Step>)
    requires IsRun(Initial(scheduler), steps)
    ensures var w := After(Initial(scheduler), steps);
            && |w.pending| == 1
            && |w.readings| <= |w.phases| <= |w.readings| + 1
            && (forall k :: 0 <= k < |w.phases| ==> PhaseOk(k, w.phases[k]))
            && (forall k :: 0 <= k < |w.phases| - 1 ==>
                  w.phases[k + 1].start == w.phases[k].start + Length(w.phases[k], w.readings[k]))
  {
    RunInv(Initial(scheduler), steps);
  }

  /** A phase that no controller touches lasts 10 seconds. */
  lemma UntouchedPhaseIsShort(scheduler: Option<Scheduler>, steps: seq<Step>, i: nat, r: nat)
    requires IsRun(Initial(scheduler), steps)
    requires Enabled(After(Initial(scheduler), steps), Execute(i, r))
    requires After(Initial(scheduler), steps).pending[i].Check? && !After(Initial(scheduler), steps).touched
    ensures var w := After(Initial(scheduler), steps);
            var n := |w.phases|;
            && n > 0 && |Do(w, Execute(i, r)).phases| == n + 1
            && Do(w, Execute(i, r)).phases[n].start == w.phases[n - 1].start + 10
  {
    RunInv(Initial(scheduler), steps);
  }

  /**
   At the end of every phase of every run: the phase is extended to 15 seconds if and only if the
   scheduler can be reached and is not fixed to the target of the phase; otherwise the next phase
   starts at once, after 10 seconds.
   */
  lemma InterventionDecides(scheduler: Option<Scheduler>, steps: seq<Step>, i: nat, r: nat)
    requires IsRun(Initial(scheduler), steps)
    requires Enabled(After(Initial(scheduler), steps), Execute(i, r))
    requires After(Initial(scheduler), steps).pending[i].Check?
    ensures var w := After(Initial(scheduler), steps);
            var w', n := Do(w, Execute(i, r)), |w.phases|;
            && n > 0
            && var p := w.phases[n - 1];
            if w.scheduler.Some? && !(w.scheduler.value.fixedMcs && w.scheduler.value.mcsDefault == p.target)
            then w'.phases == w.phases && w'.scheduler == w.scheduler && w'.pending == [Start(p.start + 15, !p.low)]
            else |w'.phases| == n + 1 && w'.phases[..n] == w.phases && w'.phases[n].start == p.start + 10
  {
    InitialInv(scheduler);
    hide Inv, IsRun, After, Do, Enabled, Initial;
    RunInv(Initial(scheduler), steps);
    CheckDecides(After(Initial(scheduler), steps), i, r);
  }

  lemma InitialInv(scheduler: Option<Scheduler>)
    ensures Inv(Initial(scheduler))
  {
  }

  lemma CheckDecides(w: World, i: nat, r: nat)
    requires Inv(w) && Enabled(w, Execute(i, r)) && w.pending[i].Check?
    ensures var w', n := Do(w, Execute(i, r)), |w.phases|;
            && n > 0
            && var p := w.phases[n - 1];
            if w.scheduler.Some? && !(w.scheduler.value.fixedMcs && w.scheduler.value.mcsDefault == p.target)
            then w'.phases == w.phases && w'.scheduler == w.scheduler && w'.pending == [Start(p.start + 15, !p.low)]
            else |w'.phases| == n + 1 && w'.phases[..n] == w.phases && w'.phases[n].start == p.start + 10
  {
    assert w.pending[..i] + w.pending[i + 1..] == [];
    assert PhaseOk(|w.phases| - 1, w.phases[|w.phases| - 1]);
    hide PhasesOk, UntouchedOk;
  }

  /** A phase that begins fixes the MCS to its target, if the scheduler can be reached, and is announced. */
  lemma PhaseSetsMcs(w: World, s: Step)
    requires Enabled(w, s) && |Do(w, s).phases| > |w.phases|
    ensures var w' := Do(w, s);
            && |w'.phases| == |w.phases| + 1
            && var p := w'.phases[|w.phases|];
            && w'.scheduler == (if w.scheduler.None? then None else Some(Scheduler(true, p.target)))
            && w'.active == (if p.low then Low else Random) && p.start == w'.now
            && Check(w'.now + 10, p.low, p.target) in w'.pending
  {
    assert forall e: Event, es: seq<Event> :: e in es + [e];
  }

  /** Every target of a range can be drawn. */
  lemma EveryTargetIsDrawn(low: bool, target: nat)
    ensures (exists r: nat :: Target(low, r) == target) <==> if low then 4 <= target <= 9 else 1 <= target <= 28
  {
    if if low then 4 <= target <= 9 else 1 <= target <= 28 {
      var r := if low then target - 4 else target - 1;
      assert Target(low, r) == target;
    }
  }

  /** A controller may write anything at any moment, if the scheduler can be reached; nothing else changes. */
  lemma ControllerIsFree(w: World, sched: Scheduler)
    requires w.scheduler.Some?
    ensures Enabled(w, Control(sched))
    ensures Do(w, Control(sched)).scheduler == Some(sched)
    ensures Do(w, Control(sched)).(scheduler := w.scheduler, touched := w.touched) == w
  {
  }

  /** What was set is what is read: a value that is not negative, or else that the MCS is adaptive. */
  lemma ChangeThenRead(s: Scheduler, mcs: int)
    ensures CurrentMcs(ChangedMcs(Some(s), mcs)) == (if mcs >= 0 then mcs else 255)
    ensures ChangedMcs(None, mcs) == None && CurrentMcs(None) == -1
  {
  }
}
