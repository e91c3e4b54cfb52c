/** What registering and removing an xApp does to the registrations, and that a removed one gets no more commands. */
module BroadcastEffects {
  import opened Wrappers
  import opened Framing
  import opened Broadcast

  ghost predicate AddressesDistinct(r: seq<(Addr, nat)>) {
    forall i, j :: 0 <= i < j < |r| ==> r[i].0 != r[j].0
  }

  /** The registrations of all other addresses, in order. */
  function Without(r: seq<(Addr, nat)>, addr: Addr): seq<(Addr, nat)> {
    if r == [] then [] else (if r[0].0 == addr then [] else [r[0]]) + Without(r[1..], addr)
  }

  lemma {:induction false} WithoutAbsent(r: seq<(Addr, nat)>, addr: Addr)
    requires forall i :: 0 <= i < |r| ==> r[i].0 != addr
    ensures Without(r, addr) == r
  {
    if r != [] {
      WithoutAbsent(r[1..], addr);
      assert r == [r[0]] + r[1..];
    }
  }

  lemma {:induction false} WithoutConcat(a: seq<(Addr, nat)>, b: seq<(Addr, nat)>, addr: Addr)
    ensures Without(a + b, addr) == Without(a, addr) + Without(b, addr)
  {
    if a == [] {
      assert a + b == b;
    } else {
      assert (a + b)[1..] == a[1..] + b;
      WithoutConcat(a[1..], b, addr);
    }
  }

  lemma WithoutSingle(entry: (Addr, nat), addr: Addr)
    ensures Without([entry], addr) == if entry.0 == addr then [] else [entry]
  {
    assert [entry][1..] == [];
  }

  /** The list around the one registration of an address. */
  lemma WithoutOne(r: seq<(Addr, nat)>, addr: Addr, i: nat, entry: (Addr, nat))
    requires AddressesDistinct(r) && i < |r| && r[i].0 == addr && entry.0 == addr
    ensures Without(r, addr) == r[..i] + r[i + 1..] == Without(r[i := entry], addr)
  {
    Split(r, addr, i, r[i]);
    Split(r, addr, i, entry);
    hide Without;
    assert r == r[..i] + ([r[i]] + r[i + 1..]);
    assert r[i := entry] == r[..i] + ([entry] + r[i + 1..]);
  }

  lemma Split(r: seq<(Addr, nat)>, addr: Addr, i: nat, entry: (Addr, nat))
    requires AddressesDistinct(r) && i < |r| && r[i].0 == addr && entry.0 == addr
    ensures Without(r[..i] + ([entry] + r[i + 1..]), addr) == r[..i] + r[i + 1..]
  {
    hide Without;
    WithoutAbsent(r[..i], addr);
    WithoutAbsent(r[i + 1..], addr);
    WithoutConcat(r[..i], [entry] + r[i + 1..], addr);
    WithoutConcat([entry], r[i + 1..], addr);
    WithoutSingle(entry, addr);
  }

  // ----- Registration and removal -----

  /** Afterwards the address has this connection and no other; all other addresses are as before, in order. */
  ghost predicate IsRegistered(before: seq<(Addr, nat)>, after: seq<(Addr, nat)>, addr: Addr, conn: nat) {
    && (addr, conn) in after
    && (forall i :: 0 <= i < |after| && after[i].0 == addr ==> after[i].1 == conn)
    && Without(after, addr) == Without(before, addr)
    && AddressesDistinct(after)
  }

  /** Afterwards the address has no connection; all other addresses are as before, in order. */
  ghost predicate IsRemoved(before: seq<(Addr, nat)>, after: seq<(Addr, nat)>, addr: Addr) {
    && (forall i :: 0 <= i < |after| ==> after[i].0 != addr)
    && after == Without(before, addr)
    && AddressesDistinct(after)
  }

  /** Setting the entry of an address, in its place or at the end. */
  lemma SetEntry(r: seq<(Addr, nat)>, addr: Addr, conn: nat)
    requires AddressesDistinct(r)
    ensures var i := Find(r, addr);
            IsRegistered(r, if i < |r| then r[i := (addr, conn)] else r + [(addr, conn)], addr, conn)
  {
    hide Without, Find;
    var i := Find(r, addr);
    if i < |r| {
      WithoutOne(r, addr, i, (addr, conn));
      assert r[i := (addr, conn)][i] == (addr, conn);
    } else {
      WithoutConcat(r, [(addr, conn)], addr);
      WithoutSingle((addr, conn), addr);
      assert (r + [(addr, conn)])[|r|] == (addr, conn);
    }
  }

  lemma RemoveEntry(r: seq<(Addr, nat)>, addr: Addr)
    requires AddressesDistinct(r)
    ensures var i := Find(r, addr); IsRemoved(r, if i < |r| then r[..i] + r[i + 1..] else r, addr)
  {
    hide Without, Find;
    var i := Find(r, addr);
    if i < |r| {
      WithoutOne(r, addr, i, r[i]);
    } else {
      WithoutAbsent(r, addr);
    }
  }

  lemma FoundWhen(r: seq<(Addr, nat)>, addr: Addr, c: nat)
    requires AddressesDistinct(r)
    ensures (addr, c) in r <==> Find(r, addr) < |r| && r[Find(r, addr)].1 == c
  {
    hide Find;
    var i := Find(r, addr);
    if j :| 0 <= j < |r| && r[j] == (addr, c) {
      assert i == j;
    }
    if i < |r| && r[i].1 == c {
      assert r[i] == (addr, c);
    }
  }

  lemma RegisterEffect(s: State, addr: Addr, conn: nat)
    requires AddressesDistinct(s.registered) && Enabled(s, Register(addr, conn))
    ensures var s' := Do(s, Register(addr, conn));
            && IsRegistered(s.registered, s'.registered, addr, conn)
            && |s'.conns| == |s.conns| && s'.conns[conn].joined == Some(|s.log|)
            && s'.log == s.log && s'.holder == s.holder
            && (forall c :: 0 <= c < |s.conns| && c != conn && (addr, c) !in s.registered ==> s'.conns[c] == s.conns[c])
  {
    hide IsRegistered, Find;
    SetEntry(s.registered, addr, conn);
    var s' := Do(s, Register(addr, conn));
    forall c | 0 <= c < |s.conns| && c != conn && (addr, c) !in s.registered ensures s'.conns[c] == s.conns[c] {
      FoundWhen(s.registered, addr, c);
    }
  }

  lemma UnregisterEffect(s: State, addr: Addr)
    requires AddressesDistinct(s.registered) && Enabled(s, Unregister(addr))
    ensures var s' := Do(s, Unregister(addr));
            && IsRemoved(s.registered, s'.registered, addr)
            && |s'.conns| == |s.conns| && s'.log == s.log && s'.holder == s.holder
            && (forall c :: 0 <= c < |s.conns| ==>
                  s'.conns[c] == if (addr, c) in s.registered then s.conns[c].(left := Some(|s.log|)) else s.conns[c])
  {
    hide IsRemoved, Find;
    RemoveEntry(s.registered, addr);
    var s' := Do(s, Unregister(addr));
    forall c | 0 <= c < |s.conns|
      ensures s'.conns[c] == if (addr, c) in s.registered then s.conns[c].(left := Some(|s.log|)) else s.conns[c]
    {
      FoundWhen(s.registered, addr, c);
    }
  }

  /** No address is ever registered twice. */
  lemma DistinctStep(s: State, step: Step)
    requires AddressesDistinct(s.registered) && Enabled(s, step)
    ensures AddressesDistinct(Do(s, step).registered)
  {
    match step
    case Register(addr, conn) => RegisterEffect(s, addr, conn);
    case Unregister(addr) => UnregisterEffect(s, addr);
    case _ =>
  }

  lemma {:induction false} DistinctRun(s: State, steps: seq<Step>)
    requires AddressesDistinct(s.registered) && IsRun(s, steps)
    ensures AddressesDistinct(Result(s, steps).registered)
    decreases |steps|
  {
    if steps != [] {
      DistinctStep(s, steps[0]);
      hide Do, Enabled;
      DistinctRun(Do(s, steps[0]), steps[1..]);
    }
  }

  // ----- After removal -----

  /** The connection has left, and no command is on its way to it. */
  ghost predicate IsGone(s: State, c: nat) {
    && c < |s.conns| && s.conns[c].joined.Some? && s.conns[c].left.Some?
    && c !in Targets(s.registered) && !Owed(s.holder, c)
  }

  /** What a step does to the connection itself. */
  lemma GoneConn(s: State, step: Step, c: nat)
    requires Enabled(s, step) && IsGone(s, c)
    ensures var s' := Do(s, step);
            && c < |s'.conns| && s'.conns[c].joined.Some? && s'.conns[c].left.Some? && !Owed(s'.holder, c)
            && Controls(s'.conns[c].items) == Controls(s.conns[c].items)
  {
    hide Frame, Controls, Packable;
    var s' := Do(s, step);
    match step
    case FinishSend =>
      ControlsSnoc(s.conns[c].items, Item(s.holder.control, s.holder.m));
      assert s.holder.todo == [s.holder.todo[0]] + s'.holder.todo;
    case FailSend =>
      assert s.holder.todo == [s.holder.todo[0]] + s'.holder.todo;
    case Register(addr, conn) => NotTheirs(s, addr, c);
    case Unregister(addr) => NotTheirs(s, addr, c);
    case _ =>
  }

  lemma NotTheirs(s: State, addr: Addr, c: nat)
    requires c !in Targets(s.registered)
    ensures Find(s.registered, addr) < |s.registered| ==> s.registered[Find(s.registered, addr)].1 != c
  {
    hide Find;
    var i := Find(s.registered, addr);
    assert i < |s.registered| ==> Targets(s.registered)[i] == s.registered[i].1;
  }

  lemma LeftIsNotRegistered(s: State, c: nat)
    requires Inv(s) && c < |s.conns| && s.conns[c].left.Some?
    ensures c !in Targets(s.registered)
  {
    hide HolderOk, ConnOk, Targets;
  }

  lemma GoneStep(s: State, step: Step, c: nat)
    requires Inv(s) && Enabled(s, step) && IsGone(s, c)
    ensures IsGone(Do(s, step), c)
    ensures Controls(Do(s, step).conns[c].items) == Controls(s.conns[c].items)
  {
    GoneConn(s, step, c);
    hide Inv, Do, Controls;
    StepOk(s, step);
    LeftIsNotRegistered(Do(s, step), c);
  }

  lemma {:induction false} GoneForGood(s: State, steps: seq<Step>, c: nat)
    requires Inv(s) && IsRun(s, steps) && IsGone(s, c)
    ensures IsGone(Result(s, steps), c)
    ensures Controls(Result(s, steps).conns[c].items) == Controls(s.conns[c].items)
    decreases |steps|
  {
    hide Inv, Enabled, Do, Controls;
    if steps != [] {
      GoneStep(s, steps[0], c);
      StepOk(s, steps[0]);
      GoneForGood(Do(s, steps[0]), steps[1..], c);
    }
  }

  /**
   From its removal on, whatever happens, an xApp is sent no further command: none that was begun
   later is on its way to it or was delivered to it.
   */
  lemma NothingAfterRemoval(s: State, addr: Addr, c: nat, more: seq<Step>)
    requires Inv(s) && AddressesDistinct(s.registered) && Enabled(s, Unregister(addr))
    requires (addr, c) in s.registered && IsRun(Do(s, Unregister(addr)), more)
    ensures var t := Result(Do(s, Unregister(addr)), more);
            && c < |t.conns| && Controls(t.conns[c].items) == Controls(s.conns[c].items)
            && c !in Targets(t.registered) && !Owed(t.holder, c)
  {
    NowGone(s, addr, c);
    UnregisterOk(s, addr);
    hide Do, Inv, IsGone, Controls, Targets;
    var s' := Do(s, Unregister(addr));
    GoneForGood(s', more, c);
    GoneMeans(Result(s', more), c);
  }

  lemma NowGone(s: State, addr: Addr, c: nat)
    requires Inv(s) && AddressesDistinct(s.registered) && Enabled(s, Unregister(addr)) && (addr, c) in s.registered
    ensures IsGone(Do(s, Unregister(addr)), c)
    ensures Do(s, Unregister(addr)).conns[c].items == s.conns[c].items
  {
    var s' := Do(s, Unregister(addr));
    UnregisterEffect(s, addr);
    UnregisterOk(s, addr);
    hide Do, HolderOk, ConnOk, IsRemoved;
    var i :| 0 <= i < |s.registered| && s.registered[i] == (addr, c);
    assert Targets(s.registered)[i] == c;
    LeftIsNotRegistered(s', c);
  }

  lemma GoneMeans(s: State, c: nat)
    requires IsGone(s, c)
    ensures c < |s.conns| && c !in Targets(s.registered) && !Owed(s.holder, c)
  {
  }

  /** The same over every run from the start, in which no address is ever registered twice. */
  lemma RemovedForGood(steps: seq<Step>, addr: Addr, c: nat, more: seq<Step>)
    requires IsRun(START, steps) && Enabled(Result(START, steps), Unregister(addr))
    requires (addr, c) in Result(START, steps).registered
    requires IsRun(Do(Result(START, steps), Unregister(addr)), more)
    ensures var s := Result(START, steps);
            var t := Result(Do(s, Unregister(addr)), more);
            && IsRemoved(s.registered, Do(s, Unregister(addr)).registered, addr)
            && c < |t.conns| && Controls(t.conns[c].items) == Controls(s.conns[c].items)
            && c !in Targets(t.registered) && !Owed(t.holder, c)
  {
    assert Inv(START);
    hide Inv, Do, Enabled, IsRemoved;
    RunOk(START, steps);
    DistinctRun(START, steps);
    UnregisterEffect(Result(START, steps), addr);
    NothingAfterRemoval(Result(START, steps), addr, c, more);
  }

  /** Any thread may take a free lock for any message, and any send may go on by any amount or fail. */
  lemma ThreadsAreFree(s: State, m: Message, c: nat, n: nat)
    requires Inv(s)
    ensures s.holder.Free? ==> Enabled(s, BeginBroadcast(m)) && (c < |s.conns| ==> Enabled(s, BeginReply(m, c)))
    ensures s.holder.Sending? && s.holder.todo != [] ==> Enabled(s, FailSend)
    ensures HasTarget(s) && Packable(s.holder.m) && 1 <= n && s.holder.sent + n <= |Frame(s.holder.m)| ==>
              Enabled(s, SendSome(n))
  {
    hide RegistryOk, ConnOk, Frame;
  }

  /** A command that finds registered xApps is the newest in the order, and is owed to each of them in turn. */
  lemma BroadcastEffect(s: State, m: Message)
    requires Enabled(s, BeginBroadcast(m)) && s.registered != []
    ensures var s' := Do(s, BeginBroadcast(m));
            && s'.log == s.log + [m] && s'.conns == s.conns && s'.registered == s.registered
            && s'.holder.Sending? && s'.holder.control && s'.holder.m == m && s'.holder.sent == 0
            && |s'.holder.todo| == |s.registered|
            && forall i :: 0 <= i < |s.registered| ==> s'.holder.todo[i] == s.registered[i].1
  {
  }
}
