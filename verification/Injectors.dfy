/**
 The three fault injectors of the multi-event scenario. Each raises one quantity of a random
 device, restores it after 5 seconds, and schedules its own next firing.
 */
module Injectors {

  datatype Kind = Blockage | Spike | Interference

  /** Times are in seconds. A restore carries the value that its injector read when it fired. */
  datatype Event =
    | Fire(at: nat, kind: Kind)
    | Restore(at: nat, kind: Kind, device: nat, original: real)

  /** The noise figure of each UE, the rate of each application, and the power of each gNB. */
  datatype World = World(now: nat, noise: seq<real>, rate: seq<real>, power: seq<real>, queue: multiset<Event>)

  function Levels(w: World, k: Kind): seq<real> {
    match k case Blockage => w.noise case Spike => w.rate case Interference => w.power
  }

  function WithLevels(w: World, k: Kind, levels: seq<real>): World {
    match k
    case Blockage => w.(noise := levels)
    case Spike => w.(rate := levels)
    case Interference => w.(power := levels)
  }

  function FirstFiring(k: Kind): nat {
    match k case Blockage => 10 case Spike => 15 case Interference => 20
  }

  /** The shortest time between two firings, and also the number of possible longer ones. */
  function Gap(k: Kind): nat {
    match k case Blockage => 15 case Spike => 20 case Interference => 25
  }

  function Raised(k: Kind, level: real): real {
    match k case Blockage => level + 30.0 case Spike => 500.0 case Interference => level + 10.0
  }

  /** The value to restore: a spike always goes back to 50 Mbps. */
  function ToRestore(k: Kind, level: real): real {
    if k.Spike? then 50.0 else level
  }

  /** The levels after a firing; `works` says which devices have the part that is acted upon. */
  function LevelsFired(k: Kind, levels: seq<real>, works: seq<bool>, r1: nat): seq<real>
    requires |works| == |levels|
  {
    if works == [] then levels
    else
      var d := r1 % |works|;
      if works[d] then levels[d := Raised(k, levels[d])] else levels
  }

  /** The events that a firing schedules; without any device the injector ends for good. */
  function Scheduled(now: nat, k: Kind, levels: seq<real>, works: seq<bool>, r1: nat, r2: nat): multiset<Event>
    requires |works| == |levels|
  {
    if works == [] then multiset{}
    else
      var d := r1 % |works|;
      var next := Fire(now + Gap(k) + r2 % Gap(k), k);
      if works[d] then multiset{Restore(now + 5, k, d, ToRestore(k, levels[d]))} + multiset{next} else multiset{next}
  }

  /** An injector fires, with two random draws. */
  function Fired(w: World, k: Kind, works: seq<bool>, r1: nat, r2: nat): World
    requires |works| == |Levels(w, k)|
  {
    WithLevels(w, k, LevelsFired(k, Levels(w, k), works, r1)).(
    queue := w.queue + Scheduled(w.now, k, Levels(w, k), works, r1, r2))
  }

  function Restored(w: World, e: Event): World
    requires e.Restore? && e.device < |Levels(w, e.kind)|
  {
    WithLevels(w, e.kind, Levels(w, e.kind)[e.device := e.original])
  }

  /** The equipment: which UEs, applications and gNBs an injector can act upon. */
  datatype Equipment = Equipment(ues: seq<bool>, apps: seq<bool>, gnbs: seq<bool>)

  function Works(q: Equipment, k: Kind): seq<bool> {
    match k case Blockage => q.ues case Spike => q.apps case Interference => q.gnbs
  }

  lemma PlusNothing(m: multiset<Event>)
    ensures m + multiset{} == m
  {
  }

  lemma PlusTwo(m: multiset<Event>, a: multiset<Event>, b: multiset<Event>)
    ensures m + a + b == m + (a + b)
  {
  }

  class Scenario {
    const equipment: Equipment
    var now: nat
    var noise: seq<real>
    var rate: seq<real>
    var power: seq<real>
    var queue: multiset<Event>

    constructor (equipment: Equipment, noise: seq<real>, rate: seq<real>, power: seq<real>)
      ensures this.equipment == equipment && View() == Started(noise, rate, power)
    {
      this.equipment, now := equipment, 0;
      this.noise, this.rate, this.power := noise, rate, power;
      queue := multiset{Fire(FirstFiring(Blockage), Blockage), Fire(FirstFiring(Spike), Spike),
                        Fire(FirstFiring(Interference), Interference)};
    }

    function View(): World
      reads this
    {
      World(now, noise, rate, power, queue)
    }

    method RandomBlockageEvent(r1: nat, r2: nat)
      requires |equipment.ues| == |noise|
      modifies this`noise, this`queue
      ensures noise == LevelsFired(Blockage, old(noise), equipment.ues, r1)
      ensures queue == old(queue) + Scheduled(now, Blockage, old(noise), equipment.ues, r1, r2)
    {
      PlusNothing(queue);
      if |noise| == 0 {
        return;
      }
      var next := Fire(now + 15 + r2 % 15, Blockage);
      var ue := r1 % |noise|;
      if equipment.ues[ue] {
        var originalNf := noise[ue];
        noise := noise[ue := originalNf + 30.0];
        PlusTwo(queue, multiset{Restore(now + 5, Blockage, ue, originalNf)}, multiset{next});
        queue := queue + multiset{Restore(now + 5, Blockage, ue, originalNf)};
      }
      queue := queue + multiset{next};
    }

    method TrafficSpikeEvent(r1: nat, r2: nat)
      requires |equipment.apps| == |rate|
      modifies this`rate, this`queue
      ensures rate == LevelsFired(Spike, old(rate), equipment.apps, r1)
      ensures queue == old(queue) + Scheduled(now, Spike, old(rate), equipment.apps, r1, r2)
    {
      PlusNothing(queue);
      if |rate| == 0 {
        return;
      }
      var next := Fire(now + 20 + r2 % 20, Spike);
      var app := r1 % |rate|;
      if equipment.apps[app] {
        var originalRate, spikeRate := 50.0, 500.0;
        rate := rate[app := spikeRate];
        PlusTwo(queue, multiset{Restore(now + 5, Spike, app, originalRate)}, multiset{next});
        queue := queue + multiset{Restore(now + 5, Spike, app, originalRate)};
      }
      queue := queue + multiset{next};
    }

    method NeighborInterferenceEvent(r1: nat, r2: nat)
      requires |equipment.gnbs| == |power|
      modifies this`power, this`queue
      ensures power == LevelsFired(Interference, old(power), equipment.gnbs, r1)
      ensures queue == old(queue) + Scheduled(now, Interference, old(power), equipment.gnbs, r1, r2)
    {
      PlusNothing(queue);
      if |power| == 0 {
        return;
      }
      var next := Fire(now + 25 + r2 % 25, Interference);
      var gnb := r1 % |power|;
      if equipment.gnbs[gnb] {
        var originalPower := power[gnb];
        power := power[gnb := originalPower + 10.0];
        PlusTwo(queue, multiset{Restore(now + 5, Interference, gnb, originalPower)}, multiset{next});
        queue := queue + multiset{Restore(now + 5, Interference, gnb, originalPower)};
      }
      queue := queue + multiset{next};
    }
  }

  /** The delayed restores of the three events. */
  method RestoreDevice(s: Scenario, e: Event)
    requires e.Restore? && e.device < |Levels(s.View(), e.kind)|
    modifies s`noise, s`rate, s`power
    ensures s.View() == Restored(old(s.View()), e)
  {
    match e.kind {
      case Blockage => s.noise := s.noise[e.device := e.original];
      case Spike => s.rate := s.rate[e.device := e.original];
      case Interference => s.power := s.power[e.device := e.original];
    }
  }

  function Started(noise: seq<real>, rate: seq<real>, power: seq<real>): World {
    World(0, noise, rate, power,
          multiset{Fire(FirstFiring(Blockage), Blockage), Fire(FirstFiring(Spike), Spike),
                   Fire(FirstFiring(Interference), Interference)})
  }

  // ----- The event loop -----

  /** What the simulator may execute next: any event with the earliest time. */
  ghost predicate IsNext(w: World, e: Event) {
    e in w.queue && forall f :: f in w.queue ==> e.at <= f.at
  }

  predicate Fits(w: World, q: Equipment) {
    |w.noise| == |q.ues| && |w.rate| == |q.apps| && |w.power| == |q.gnbs|
  }

  /** Executing `e`; a restore of a device that is not there cannot happen, and does nothing here. */
  function Execute(w: World, q: Equipment, e: Event, r1: nat, r2: nat): World
    requires Fits(w, q)
  {
    var w' := w.(now := e.at, queue := w.queue - multiset{e});
    if e.Fire? then Fired(w', e.kind, Works(q, e.kind), r1, r2)
    else if e.device < |Levels(w, e.kind)| then Restored(w', e)
    else w'
  }

  // ----- What an injector is doing -----

  datatype Status = Ended | Calm(next: nat) | Active(device: nat, until: nat, next: nat)

  datatype Statuses = Statuses(blockage: Status, spike: Status, interference: Status)

  function Of(st: Statuses, k: Kind): Status {
    match k case Blockage => st.blockage case Spike => st.spike case Interference => st.interference
  }

  function With(st: Statuses, k: Kind, s: Status): Statuses {
    match k
    case Blockage => st.(blockage := s)
    case Spike => st.(spike := s)
    case Interference => st.(interference := s)
  }

  /** The events that an injector has pending. */
  function Pending(k: Kind, base: seq<real>, s: Status): multiset<Event> {
    match s
    case Ended => multiset{}
    case Calm(next) => multiset{Fire(next, k)}
    case Active(device, until, next) =>
      multiset{Fire(next, k), Restore(until, k, device, if device < |base| then base[device] else 0.0)}
  }

  /** The levels that an injector's status goes with. */
  ghost predicate LevelsOk(k: Kind, base: seq<real>, levels: seq<real>, s: Status) {
    match s
    case Active(device, until, next) =>
      device < |base| && until + 10 <= next && levels == base[device := Raised(k, base[device])]
    case _ => levels == base
  }

  function AllPending(base: World, st: Statuses): multiset<Event> {
    Pending(Blockage, base.noise, st.blockage) + Pending(Spike, base.rate, st.spike) +
    Pending(Interference, base.power, st.interference)
  }

  ghost predicate Inv(base: World, w: World, st: Statuses) {
    && w.queue == AllPending(base, st)
    && (forall k :: LevelsOk(k, Levels(base, k), Levels(w, k), Of(st, k)))
    && (forall e :: e in w.queue ==> w.now <= e.at)
  }

  /** Every application starts at 50 Mbps; noise figures and powers are arbitrary. */
  ghost predicate IsBase(base: World) {
    forall i :: 0 <= i < |base.rate| ==> base.rate[i] == 50.0
  }

  // ----- One injector at a time -----

  /** What the other two injectors have pending. */
  function OthersPending(base: World, st: Statuses, k: Kind): multiset<Event> {
    match k
    case Blockage => Pending(Spike, base.rate, st.spike) + Pending(Interference, base.power, st.interference)
    case Spike => Pending(Blockage, base.noise, st.blockage) + Pending(Interference, base.power, st.interference)
    case Interference => Pending(Blockage, base.noise, st.blockage) + Pending(Spike, base.rate, st.spike)
  }

  lemma PendingSplits(base: World, st: Statuses, k: Kind)
    ensures AllPending(base, st) == Pending(k, Levels(base, k), Of(st, k)) + OthersPending(base, st, k)
  {
  }

  lemma OthersAreOthers(base: World, st: Statuses, k: Kind, e: Event)
    requires e.kind == k
    ensures e !in OthersPending(base, st, k)
  {
  }

  /** The status of its injector after an event. */
  function NextStatus(q: Equipment, k: Kind, s: Status, e: Event, r1: nat, r2: nat): Status {
    if e.Restore? then (if s.Active? then Calm(s.next) else s)
    else if Works(q, k) == [] then Ended
    else
      var d, next := r1 % |Works(q, k)|, e.at + Gap(k) + r2 % Gap(k);
      if Works(q, k)[d] then Active(d, e.at + 5, next) else Calm(next)
  }

  lemma Rearranged(own: multiset<Event>, others: multiset<Event>, e: Event, added: multiset<Event>)
    requires e in own
    ensures (own + others) - multiset{e} + added == (own - multiset{e} + added) + others
  {
  }

  /** The next event belongs to one injector, and it is the one that its status says. */
  lemma NextEventKnown(base: World, w: World, st: Statuses, e: Event)
    requires Inv(base, w, st) && IsNext(w, e)
    ensures e in Pending(e.kind, Levels(base, e.kind), Of(st, e.kind))
    ensures e.Fire? ==> Of(st, e.kind) == Calm(e.at)
    ensures e.Restore? ==> Of(st, e.kind).Active? && Of(st, e.kind).device == e.device && Of(st, e.kind).until == e.at
  {
    var k := e.kind;
    PendingSplits(base, st, k);
    OthersAreOthers(base, st, k, e);
    assert LevelsOk(k, Levels(base, k), Levels(w, k), Of(st, k));
    var s := Of(st, k);
    if s.Active? {
      assert Restore(s.until, k, s.device, Levels(base, k)[s.device]) in Pending(k, Levels(base, k), s);
    }
  }

  /** What an event adds to the queue. */
  function Added(w: World, q: Equipment, e: Event, r1: nat, r2: nat): multiset<Event>
    requires Fits(w, q)
  {
    if e.Restore? then multiset{} else Scheduled(e.at, e.kind, Levels(w, e.kind), Works(q, e.kind), r1, r2)
  }

  /** An event touches the levels of its own injector only. */
  lemma ExecuteFrame(w: World, q: Equipment, e: Event, r1: nat, r2: nat)
    requires Fits(w, q)
    ensures var w' := Execute(w, q, e, r1, r2);
            && w'.now == e.at && Fits(w', q)
            && w'.queue == w.queue - multiset{e} + Added(w, q, e, r1, r2)
            && (forall k :: k != e.kind ==> Levels(w', k) == Levels(w, k))
            && (e.Fire? ==> Levels(w', e.kind) == LevelsFired(e.kind, Levels(w, e.kind), Works(q, e.kind), r1))
            && (e.Restore? && e.device < |Levels(w, e.kind)| ==>
                Levels(w', e.kind) == Levels(w, e.kind)[e.device := e.original])
  {
    PlusNothing(w.queue - multiset{e});
    LevelsFiredLength(e.kind, Levels(w, e.kind), Works(q, e.kind), r1);
    hide Scheduled, LevelsFired;
  }

  lemma LevelsFiredLength(k: Kind, levels: seq<real>, works: seq<bool>, r1: nat)
    ensures |works| == |levels| ==> |LevelsFired(k, levels, works, r1)| == |levels|
  {
  }

  /** A restore puts its device back to base level. */
  lemma OwnRestore(k: Kind, base: seq<real>, levels: seq<real>, s: Status, e: Event)
    requires LevelsOk(k, base, levels, s) && s.Active? && e == Restore(s.until, k, s.device, base[s.device])
    ensures levels[s.device := e.original] == base
    ensures Pending(k, base, s) - multiset{e} + multiset{} == Pending(k, base, Calm(s.next))
  {
  }

  /** Whoever fires finds its devices at their base levels, and restores what it found. */
  lemma OwnFire(q: Equipment, base: seq<real>, e: Event, r1: nat, r2: nat)
    requires e.Fire? && |Works(q, e.kind)| == |base|
    requires e.kind.Spike? ==> forall i :: 0 <= i < |base| ==> base[i] == 50.0
    ensures var s' := NextStatus(q, e.kind, Calm(e.at), e, r1, r2);
            && LevelsOk(e.kind, base, LevelsFired(e.kind, base, Works(q, e.kind), r1), s')
            && Pending(e.kind, base, Calm(e.at)) - multiset{e} +
               Scheduled(e.at, e.kind, base, Works(q, e.kind), r1, r2) == Pending(e.kind, base, s')
  {
    assert Pending(e.kind, base, Calm(e.at)) == multiset{e};
    if Works(q, e.kind) != [] {
      var d := r1 % |Works(q, e.kind)|;
      assert ToRestore(e.kind, base[d]) == base[d];
    }
  }

  lemma OwnStep(base: World, w: World, q: Equipment, st: Statuses, e: Event, r1: nat, r2: nat)
    requires IsBase(base) && Fits(base, q) && Fits(w, q) && Inv(base, w, st) && IsNext(w, e)
    ensures var s' := NextStatus(q, e.kind, Of(st, e.kind), e, r1, r2);
            && LevelsOk(e.kind, Levels(base, e.kind), Levels(Execute(w, q, e, r1, r2), e.kind), s')
            && Pending(e.kind, Levels(base, e.kind), Of(st, e.kind)) - multiset{e} + Added(w, q, e, r1, r2) ==
               Pending(e.kind, Levels(base, e.kind), s')
  {
    var k := e.kind;
    var s := Of(st, k);
    NextEventKnown(base, w, st, e);
    ExecuteFrame(w, q, e, r1, r2);
    assert LevelsOk(k, Levels(base, k), Levels(w, k), s);
    if e.Restore? {
      assert e.original == Levels(base, k)[e.device];
      hide Execute, Inv, IsNext, Pending;
      OwnRestore(k, Levels(base, k), Levels(w, k), s, e);
    } else {
      hide Execute, Inv, IsNext, Pending, Scheduled, LevelsFired, NextStatus;
      OwnFire(q, Levels(base, k), e, r1, r2);
    }
  }

  /** Every event keeps the invariant. */
  lemma StepInv(base: World, w: World, q: Equipment, st: Statuses, e: Event, r1: nat, r2: nat)
    requires IsBase(base) && Fits(base, q) && Fits(w, q) && Inv(base, w, st) && IsNext(w, e)
    ensures Inv(base, Execute(w, q, e, r1, r2), With(st, e.kind, NextStatus(q, e.kind, Of(st, e.kind), e, r1, r2)))
  {
    hide Pending, LevelsOk, Execute, NextStatus, Added;
    var k := e.kind;
    var s' := NextStatus(q, k, Of(st, k), e, r1, r2);
    var st' := With(st, k, s');
    var w' := Execute(w, q, e, r1, r2);
    NextEventKnown(base, w, st, e);
    ExecuteFrame(w, q, e, r1, r2);
    OwnStep(base, w, q, st, e, r1, r2);
    PendingSplits(base, st, k);
    PendingSplits(base, st', k);
    Rearranged(Pending(k, Levels(base, k), Of(st, k)), OthersPending(base, st, k), e, Added(w, q, e, r1, r2));
    assert OthersPending(base, st', k) == OthersPending(base, st, k);
    forall f | f in w'.queue ensures w'.now <= f.at {
      AddedLater(w, q, e, r1, r2);
      assert f in w.queue || f in Added(w, q, e, r1, r2);
    }
    forall j ensures LevelsOk(j, Levels(base, j), Levels(w', j), Of(st', j)) {
      assert LevelsOk(j, Levels(base, j), Levels(w, j), Of(st, j));
    }
  }

  lemma AddedLater(w: World, q: Equipment, e: Event, r1: nat, r2: nat)
    requires Fits(w, q)
    ensures forall f :: f in Added(w, q, e, r1, r2) ==> e.at <= f.at
  {
  }

  // ----- Every run -----

  datatype Choice = Choice(event: Event, r1: nat, r2: nat)

  ghost predicate IsRun(w: World, q: Equipment, choices: seq<Choice>)
    decreases |choices|
  {
    choices == [] ||
    (Fits(w, q) && IsNext(w, choices[0].event) &&
     IsRun(Execute(w, q, choices[0].event, choices[0].r1, choices[0].r2), q, choices[1..]))
  }

  ghost function After(w: World, q: Equipment, choices: seq<Choice>): World
    requires IsRun(w, q, choices)
    decreases |choices|
  {
    if choices == [] then w
    else After(Execute(w, q, choices[0].event, choices[0].r1, choices[0].r2), q, choices[1..])
  }

  /** At most one device differs from its base level, by exactly what its injector adds. */
  ghost predicate AtMostOneRaised(k: Kind, base: seq<real>, levels: seq<real>) {
    levels == base || exists d :: 0 <= d < |base| && levels == base[d := Raised(k, base[d])]
  }

  /** No injector compounds, and each one that is about to fire finds its devices at base level. */
  ghost predicate NeverCompounds(base: World, w: World) {
    && (forall k :: AtMostOneRaised(k, Levels(base, k), Levels(w, k)))
    && (forall e: Event :: e.Fire? && IsNext(w, e) ==> Levels(w, e.kind) == Levels(base, e.kind))
  }

  /** Exactly one firing of the injector is pending. */
  ghost predicate FiresAgain(w: World, k: Kind) {
    exists next: nat :: w.queue[Fire(next, k)] == 1
      && forall e: Event :: e in w.queue && e.Fire? && e.kind == k ==> e.at == next
  }

  /** A raised device has its restore pending, ahead of the next firing, and that puts all back to base level. */
  ghost predicate WillRestore(base: seq<real>, w: World, k: Kind) {
    Levels(w, k) == base ||
    exists d: nat, at: nat :: && 0 <= d < |base| == |Levels(w, k)| && Levels(w, k)[d := base[d]] == base
                    && Restore(at, k, d, base[d]) in w.queue
                    && forall e: Event :: e in w.queue && e.Fire? && e.kind == k ==> at + 10 <= e.at
  }

  lemma InvMeansNoCompounding(base: World, w: World, st: Statuses)
    requires Inv(base, w, st)
    ensures NeverCompounds(base, w)
  {
    forall k ensures AtMostOneRaised(k, Levels(base, k), Levels(w, k)) {
      assert LevelsOk(k, Levels(base, k), Levels(w, k), Of(st, k));
    }
    forall e: Event | e.Fire? && IsNext(w, e) ensures Levels(w, e.kind) == Levels(base, e.kind) {
      NextEventKnown(base, w, st, e);
      assert LevelsOk(e.kind, Levels(base, e.kind), Levels(w, e.kind), Of(st, e.kind));
    }
  }

  /** The pending events of an injector are those of its status. */
  lemma OwnEvents(base: World, w: World, st: Statuses, k: Kind, e: Event)
    requires Inv(base, w, st) && e.kind == k
    ensures w.queue[e] == Pending(k, Levels(base, k), Of(st, k))[e]
  {
    PendingSplits(base, st, k);
    OthersAreOthers(base, st, k, e);
  }

  lemma OneFiring(base: World, w: World, st: Statuses, k: Kind)
    requires Inv(base, w, st) && Of(st, k) != Ended
    ensures w.queue[Fire(Of(st, k).next, k)] == 1
    ensures forall e: Event :: e in w.queue && e.Fire? && e.kind == k ==> e.at == Of(st, k).next
  {
    hide Inv;
    OwnEvents(base, w, st, k, Fire(Of(st, k).next, k));
    forall e: Event | e in w.queue && e.Fire? && e.kind == k ensures e.at == Of(st, k).next {
      OwnEvents(base, w, st, k, e);
    }
  }

  lemma OneRestore(base: World, w: World, st: Statuses, k: Kind)
    requires Inv(base, w, st) && Of(st, k).Active?
    ensures var s := Of(st, k);
            && s.device < |Levels(base, k)| == |Levels(w, k)| && s.until + 10 <= s.next
            && Levels(w, k)[s.device := Levels(base, k)[s.device]] == Levels(base, k)
            && Restore(s.until, k, s.device, Levels(base, k)[s.device]) in w.queue
  {
    var s := Of(st, k);
    assert LevelsOk(k, Levels(base, k), Levels(w, k), s);
    hide Inv;
    OwnEvents(base, w, st, k, Restore(s.until, k, s.device, Levels(base, k)[s.device]));
  }

  lemma InvMeansLively(base: World, w: World, st: Statuses, k: Kind)
    requires Inv(base, w, st)
    ensures Of(st, k) != Ended ==> FiresAgain(w, k)
    ensures WillRestore(Levels(base, k), w, k)
  {
    var s := Of(st, k);
    assert LevelsOk(k, Levels(base, k), Levels(w, k), s);
    hide Inv, IsNext;
    if s != Ended {
      OneFiring(base, w, st, k);
    }
    if s.Active? {
      OneRestore(base, w, st, k);
    }
  }

  /** An injector that has a device never ends. */
  ghost predicate Alive(q: Equipment, st: Statuses) {
    forall k :: Works(q, k) != [] ==> Of(st, k) != Ended
  }

  lemma {:induction false} RunInv(base: World, w: World, q: Equipment, st: Statuses, choices: seq<Choice>)
      returns (st': Statuses)
    requires IsBase(base) && Fits(base, q) && Fits(w, q) && Inv(base, w, st) && Alive(q, st) && IsRun(w, q, choices)
    ensures Inv(base, After(w, q, choices), st') && Alive(q, st')
    decreases |choices|
  {
    hide Inv, Execute, IsNext;
    st' := st;
    if choices != [] {
      var c := choices[0];
      StepInv(base, w, q, st, c.event, c.r1, c.r2);
      ExecuteFrame(w, q, c.event, c.r1, c.r2);
      var k := c.event.kind;
      var next := With(st, k, NextStatus(q, k, Of(st, k), c.event, c.r1, c.r2));
      assert Alive(q, next);
      st' := RunInv(base, Execute(w, q, c.event, c.r1, c.r2), q, next, choices[1..]);
    }
  }

  /**
   The injectors never compound: over every run and every random draw, at most one UE has a
   raised noise figure, one application the spike rate, and one gNB raised power; whoever fires
   finds its devices at base level; each injector that has a device keeps exactly one firing
   pending; and whatever is raised has its restore pending well before the next firing.
   */
  lemma InjectorsNeverCompound(q: Equipment, noise: seq<real>, rate: seq<real>, power: seq<real>, choices: seq<Choice>)
    requires Fits(Started(noise, rate, power), q) && IsBase(Started(noise, rate, power))
    requires IsRun(Started(noise, rate, power), q, choices)
    ensures var base := Started(noise, rate, power);
            var w := After(base, q, choices);
            && NeverCompounds(base, w)
            && forall k :: WillRestore(Levels(base, k), w, k) && (Works(q, k) != [] ==> FiresAgain(w, k))
  {
    var base := Started(noise, rate, power);
    var st := Statuses(Calm(FirstFiring(Blockage)), Calm(FirstFiring(Spike)), Calm(FirstFiring(Interference)));
    StartInv(noise, rate, power);
    hide Inv, WillRestore, FiresAgain, NeverCompounds;
    var st' := RunInv(base, base, q, st, choices);
    InvMeansNoCompounding(base, After(base, q, choices), st');
    forall k ensures WillRestore(Levels(base, k), After(base, q, choices), k)
             ensures Works(q, k) != [] ==> FiresAgain(After(base, q, choices), k)
    {
      InvMeansLively(base, After(base, q, choices), st', k);
    }
  }

  lemma StartInv(noise: seq<real>, rate: seq<real>, power: seq<real>)
    ensures var base := Started(noise, rate, power);
            Inv(base, base, Statuses(Calm(FirstFiring(Blockage)),
                                     Calm(FirstFiring(Spike)), Calm(FirstFiring(Interference))))
  {
  }

  // ----- In numbers -----

  ghost predicate RaisedBy(base: seq<real>, levels: seq<real>, d: nat, amount: real) {
    d < |base| && levels == base[d := base[d] + amount]
  }

  ghost predicate SetTo(base: seq<real>, levels: seq<real>, d: nat, value: real) {
    d < |base| && levels == base[d := value]
  }

  lemma OneInNumbers(base: World, w: World)
    requires NeverCompounds(base, w)
    ensures w.noise == base.noise || exists d :: RaisedBy(base.noise, w.noise, d, 30.0)
    ensures w.rate == base.rate || exists d :: SetTo(base.rate, w.rate, d, 500.0)
    ensures w.power == base.power || exists d :: RaisedBy(base.power, w.power, d, 10.0)
  {
    assert AtMostOneRaised(Blockage, Levels(base, Blockage), Levels(w, Blockage));
    assert AtMostOneRaised(Spike, Levels(base, Spike), Levels(w, Spike));
    assert AtMostOneRaised(Interference, Levels(base, Interference), Levels(w, Interference));
    hide NeverCompounds;
    if d :| 0 <= d < |base.noise| && w.noise == base.noise[d := Raised(Blockage, base.noise[d])] {
      assert RaisedBy(base.noise, w.noise, d, 30.0);
    }
    if d :| 0 <= d < |base.rate| && w.rate == base.rate[d := Raised(Spike, base.rate[d])] {
      assert SetTo(base.rate, w.rate, d, 500.0);
    }
    if d :| 0 <= d < |base.power| && w.power == base.power[d := Raised(Interference, base.power[d])] {
      assert RaisedBy(base.power, w.power, d, 10.0);
    }
  }

  /**
   Over every run and every random draw: at most one noise figure is raised, by 30; at most one
   application is at 500 Mbps, where all start at 50; at most one power is raised, by 10.
   */
  lemma RaisedInNumbers(q: Equipment, noise: seq<real>, rate: seq<real>, power: seq<real>, choices: seq<Choice>)
    requires Fits(Started(noise, rate, power), q) && forall i :: 0 <= i < |rate| ==> rate[i] == 50.0
    requires IsRun(Started(noise, rate, power), q, choices)
    ensures var w := After(Started(noise, rate, power), q, choices);
            && (w.noise == noise || exists d :: RaisedBy(noise, w.noise, d, 30.0))
            && (w.rate == rate || exists d :: SetTo(rate, w.rate, d, 500.0))
            && (w.power == power || exists d :: RaisedBy(power, w.power, d, 10.0))
  {
    hide IsRun, After, NeverCompounds, RaisedBy, SetTo;
    InjectorsNeverCompound(q, noise, rate, power, choices);
    OneInNumbers(Started(noise, rate, power), After(Started(noise, rate, power), q, choices));
  }

  /** The first firings are after 10, 15 and 20 seconds. */
  lemma FirstFirings(noise: seq<real>, rate: seq<real>, power: seq<real>)
    ensures Started(noise, rate, power).now == 0
    ensures Started(noise, rate, power).queue ==
            multiset{Fire(10, Blockage), Fire(15, Spike), Fire(20, Interference)}
  {
  }

  function Earliest(k: Kind): nat {
    match k case Blockage => 15 case Spike => 20 case Interference => 25
  }

  function Latest(k: Kind): nat {
    match k case Blockage => 29 case Spike => 39 case Interference => 49
  }

  /**
   One firing of an injector, from any state of the invariant: its next firing is 15 to 29, 20 to
   39 or 25 to 49 seconds later; and if the device drawn can be acted upon, it is restored to its base level
   after 5 seconds.
   */
  lemma FiringInNumbers(base: World, w: World, q: Equipment, st: Statuses, e: Event, r1: nat, r2: nat)
    requires IsBase(base) && Fits(base, q) && Fits(w, q) && Inv(base, w, st) && IsNext(w, e)
    requires e.Fire? && Works(q, e.kind) != []
    ensures var w', d := Execute(w, q, e, r1, r2), r1 % |Works(q, e.kind)|;
            && w'.now == e.at
            && (forall f: Event :: f in w'.queue && f.Fire? && f.kind == e.kind ==>
                  e.at + Earliest(e.kind) <= f.at <= e.at + Latest(e.kind))
            && (Works(q, e.kind)[d] ==>
                  && d < |Levels(base, e.kind)|
                  && Restore(e.at + 5, e.kind, d, Levels(base, e.kind)[d]) in w'.queue
                  && Levels(w', e.kind) == Levels(base, e.kind)[d := Raised(e.kind, Levels(base, e.kind)[d])])
            && (!Works(q, e.kind)[d] ==> Levels(w', e.kind) == Levels(base, e.kind))
  {
    hide Inv, Execute, IsNext, IsBase, Added, Scheduled, LevelsFired, Pending;
    var k := e.kind;
    NextEventKnown(base, w, st, e);
    var s' := NextStatus(q, k, Of(st, k), e, r1, r2);
    var st' := With(st, k, s');
    var w' := Execute(w, q, e, r1, r2);
    StepInv(base, w, q, st, e, r1, r2);
    ExecuteFrame(w, q, e, r1, r2);
    assert s'.next == e.at + Gap(k) + r2 % Gap(k);
    LevelsOfInv(base, w', st', k);
    OneFiring(base, w', st', k);
    if s'.Active? {
      OneRestore(base, w', st', k);
    }
  }

  lemma LevelsOfInv(base: World, w: World, st: Statuses, k: Kind)
    requires Inv(base, w, st)
    ensures LevelsOk(k, Levels(base, k), Levels(w, k), Of(st, k))
  {
  }

  /** An injector without any device fires once and never again. */
  lemma NoDeviceNoFiring(base: World, w: World, q: Equipment, st: Statuses, e: Event, r1: nat, r2: nat)
    requires IsBase(base) && Fits(base, q) && Fits(w, q) && Inv(base, w, st) && IsNext(w, e)
    requires e.Fire? && Works(q, e.kind) == []
    ensures forall f: Event :: f in Execute(w, q, e, r1, r2).queue ==> f.kind != e.kind
  {
    hide Inv, Execute, IsNext, IsBase, Added, Scheduled, LevelsFired;
    var k := e.kind;
    NextEventKnown(base, w, st, e);
    var st' := With(st, k, Ended);
    var w' := Execute(w, q, e, r1, r2);
    StepInv(base, w, q, st, e, r1, r2);
    forall f: Event | f.kind == k ensures w'.queue[f] == 0 {
      OwnEvents(base, w', st', k, f);
    }
  }

  /** The same for every firing of every run. */
  lemma FiringsOfARun(q: Equipment, noise: seq<real>, rate: seq<real>, power: seq<real>, choices: seq<Choice>,
                      e: Event, r1: nat, r2: nat)
    requires Fits(Started(noise, rate, power), q) && IsBase(Started(noise, rate, power))
    requires IsRun(Started(noise, rate, power), q, choices) && Fits(After(Started(noise, rate, power), q, choices), q)
    requires IsNext(After(Started(noise, rate, power), q, choices), e) && e.Fire? && Works(q, e.kind) != []
    ensures var base := Started(noise, rate, power);
            var w' := Execute(After(base, q, choices), q, e, r1, r2);
            var d := r1 % |Works(q, e.kind)|;
            && (forall f: Event :: f in w'.queue && f.Fire? && f.kind == e.kind ==>
                  e.at + Earliest(e.kind) <= f.at <= e.at + Latest(e.kind))
            && (Works(q, e.kind)[d] ==>
                  && d < |Levels(base, e.kind)|
                  && Restore(e.at + 5, e.kind, d, Levels(base, e.kind)[d]) in w'.queue)
  {
    var base := Started(noise, rate, power);
    var st := Statuses(Calm(FirstFiring(Blockage)), Calm(FirstFiring(Spike)), Calm(FirstFiring(Interference)));
    StartInv(noise, rate, power);
    hide Inv, IsRun, After, IsNext, Execute, IsBase;
    var st' := RunInv(base, base, q, st, choices);
    FiringInNumbers(base, After(base, q, choices), q, st', e, r1, r2);
  }

  /** Every one of these delays can be drawn. */
  lemma EveryDelayIsDrawn(k: Kind, delay: nat)
    requires Earliest(k) <= delay <= Latest(k)
    ensures exists r: nat :: Gap(k) + r % Gap(k) == delay
  {
    assert Gap(k) + (delay - Gap(k)) % Gap(k) == delay;
  }
}
