/** Forwarding as the relay states it: a loop over the registered connections, under the lock. */
module Relay {
  import opened Wrappers
  import opened Framing
  import opened Broadcast
  import opened BroadcastEffects

  lemma {:induction false} RunOneMore(s: State, steps: seq<Step>, step: Step)
    requires IsRun(s, steps) && Enabled(Result(s, steps), step)
    ensures IsRun(s, steps + [step]) && Result(s, steps + [step]) == Do(Result(s, steps), step)
    decreases |steps|
  {
    hide Enabled, Do;
    if steps == [] {
      assert [] + [step] == [step] && [step][1..] == [];
      assert IsRun(Do(s, step), []);
    } else {
      assert (steps + [step])[1..] == steps[1..] + [step] && (steps + [step])[0] == steps[0];
      RunOneMore(Do(s, steps[0]), steps[1..], step);
    }
  }

  /** How a send goes: it delivers the whole frame, or fails after a part of it. */
  datatype Outcome = Delivered | FailedAfter(bytes: nat)

  /** The bytes that a send puts on its connection: the whole frame, or less of it. */
  function BytesSent(m: Message, outcome: Outcome): (bytes: seq<Byte>)
    ensures Packable(m) ==> bytes <= Frame(m) && (bytes == Frame(m) <==> outcome.Delivered?)
    ensures !Packable(m) ==> bytes == []
  {
    if !Packable(m) then []
    else
      var frame := Frame(m);
      match outcome
      case Delivered => frame
      case FailedAfter(k) => frame[..if k < |frame| then k else |frame| - 1]
  }

  class RelayServer {
    var conns: seq<Conn>
    var xappConnections: seq<(Addr, nat)>
    var holder: Holder
    var log: seq<Message>

    constructor ()
      ensures View() == START
    {
      conns, xappConnections, holder, log := [], [], Free, [];
    }

    ghost function View(): State
      reads this
    {
      State(conns, xappConnections, holder, log)
    }

    /** A new xApp; whoever held its address before is replaced. */
    method Connect(addr: Addr) returns (conn: nat)
      requires Inv(View()) && holder.Free? && AddressesDistinct(xappConnections)
      modifies this`conns, this`xappConnections
      ensures conn == |old(conns)| && View() == Do(Do(old(View()), Accept), Register(addr, conn))
      ensures Inv(View()) && IsRegistered(old(xappConnections), xappConnections, addr, conn)
    {
      hide Inv, ConnOk, IsRegistered, AddressesDistinct;
      StepOk(View(), Accept);
      conn := |conns|;
      conns := conns + [Conn([], [], None, None, None)];
      ghost var accepted := View();
      assert Enabled(accepted, Register(addr, conn));
      StepOk(accepted, Register(addr, conn));
      RegisterEffect(accepted, addr, conn);
      var i := Find(xappConnections, addr);
      if i < |xappConnections| {
        var other := xappConnections[i].1;
        if other < |conns| {
          conns := conns[other := conns[other].(left := Some(|log|))];
        }
        xappConnections := xappConnections[i := (addr, conn)];
      } else {
        xappConnections := xappConnections + [(addr, conn)];
      }
      conns := conns[conn := conns[conn].(joined := Some(|log|))];
    }

    /** An xApp is gone; if its address is not registered, nothing happens. */
    method Disconnect(addr: Addr)
      requires Inv(View()) && holder.Free? && AddressesDistinct(xappConnections)
      modifies this`conns, this`xappConnections
      ensures View() == Do(old(View()), Unregister(addr))
      ensures Inv(View()) && IsRemoved(old(xappConnections), xappConnections, addr)
    {
      RegisteredExist(View());
      hide Inv, ConnOk, IsRemoved, AddressesDistinct;
      StepOk(View(), Unregister(addr));
      UnregisterEffect(View(), addr);
      var i := Find(xappConnections, addr);
      if i < |xappConnections| {
        var other := xappConnections[i].1;
        conns := conns[other := conns[other].(left := Some(|log|))];
        xappConnections := xappConnections[..i] + xappConnections[i + 1..];
      }
    }

    /** A reply to one xApp: the same send, under the same lock, outside of the order of commands. */
    method Reply(m: Message, c: nat, outcome: Outcome) returns (ok: bool, ghost steps: seq<Step>)
      requires Inv(View()) && holder.Free? && c < |conns|
      modifies this`conns, this`holder
      ensures Inv(View()) && holder.Free? && |conns| == |old(conns)|
      ensures IsRun(old(View()), steps) && Result(old(View()), steps) == View()
      ensures ok <==> Packable(m) && outcome.Delivered?
      ensures conns[c].stream == old(conns)[c].stream + BytesSent(m, outcome)
      ensures forall d :: 0 <= d < |conns| && d != c ==> conns[d] == old(conns)[d]
    {
      ghost var start := View();
      EmptyRun(start);
      assert Enabled(start, BeginReply(m, c));
      holder := Sending(false, m, [c], 0);
      assert View() == Do(start, BeginReply(m, c));
      hide IsRun, Result, Inv, Frame, Do, Enabled;
      RunOneMore(start, [], BeginReply(m, c));
      steps := [] + [BeginReply(m, c)];
      ok, steps := SendFramed(c, outcome, start, steps);
      LockReleased(View());
      RunOneMore(start, steps, Release);
      holder := Free;
      steps := steps + [Release];
      RunOk(start, steps);
    }

    /** One send of one frame, as three steps of the holder of the lock. */
    method SendFramed(c: nat, outcome: Outcome, ghost start: State, ghost before: seq<Step>)
        returns (ok: bool, ghost steps: seq<Step>)
      requires HasTarget(View()) && holder.todo[0] == c && holder.sent == 0
      requires IsRun(start, before) && Result(start, before) == View()
      modifies this`conns, this`holder
      ensures IsRun(start, steps) && Result(start, steps) == View()
      ensures |conns| == |old(conns)|
      ensures holder == old(holder).(todo := old(holder).todo[1..])
      ensures ok <==> Packable(holder.m) && outcome.Delivered?
      ensures conns[c].stream == old(conns)[c].stream + BytesSent(holder.m, outcome)
      ensures forall d :: 0 <= d < |conns| && d != c ==> conns[d] == old(conns)[d]
    {
      hide IsRun, Result, Partial, Do, Enabled, Frame;
      var n := |BytesSent(holder.m, outcome)|;
      steps := before;
      var conn := conns[c];
      if |holder.m| >= 0x1_0000_0000 {
        FailIs(View());
        conns := conns[c := conn.Failed(holder.m, [])];
        holder := holder.(todo := holder.todo[1..], sent := 0);
        RunOneMore(start, steps, FailSend);
        return false, steps + [FailSend];
      }
      var frame := Frame(holder.m);
      assert frame != [] by { FrameLength(holder.m); }
      if n > 0 {
        SendIs(View(), n);
        conn := conn.Sent(frame[..n]);
        conns := conns[c := conn];
        holder := holder.(sent := n);
        assert frame[..n] == frame[0..n];
        RunOneMore(start, steps, SendSome(n));
        steps := steps + [SendSome(n)];
      }
      if outcome.Delivered? {
        assert frame[..n] == frame;
        FinishIs(View());
        conns := conns[c := conn.Finished(Item(holder.control, holder.m))];
        holder := holder.(todo := holder.todo[1..], sent := 0);
        RunOneMore(start, steps, FinishSend);
        return true, steps + [FinishSend];
      } else {
        FailIs(View());
        conns := conns[c := conn.Failed(holder.m, frame[..n])];
        holder := holder.(todo := holder.todo[1..], sent := 0);
        RunOneMore(start, steps, FailSend);
        return false, steps + [FailSend];
      }
    }

    /** The loop over the connections to send to; it succeeds if one of the sends does. */
    method SendToAll(outcomes: seq<Outcome>, ghost start: State, ghost before: seq<Step>)
        returns (success: bool, ghost steps: seq<Step>)
      requires holder.Sending? && holder.sent == 0 && |outcomes| == |holder.todo|
      requires forall i :: 0 <= i < |holder.todo| ==> holder.todo[i] < |conns|
      requires forall i, j :: 0 <= i < j < |holder.todo| ==> holder.todo[i] != holder.todo[j]
      requires IsRun(start, before) && Result(start, before) == View()
      modifies this`conns, this`holder
      ensures IsRun(start, steps) && Result(start, steps) == View()
      ensures holder == old(holder).(todo := [])
      ensures success <==> Packable(holder.m) && Delivered in outcomes
      ensures |conns| == |old(conns)|
      ensures forall i :: 0 <= i < |outcomes| ==>
                conns[old(holder).todo[i]].stream ==
                old(conns)[old(holder).todo[i]].stream + BytesSent(holder.m, outcomes[i])
      ensures forall d :: 0 <= d < |conns| && d !in old(holder).todo ==> conns[d] == old(conns)[d]
    {
      hide IsRun, Result, Frame;
      var todo := holder.todo;
      success, steps := false, before;
      assert todo[0..] == todo;
      for i := 0 to |todo|
        invariant holder == old(holder).(todo := todo[i..]) && |conns| == |old(conns)|
        invariant IsRun(start, steps) && Result(start, steps) == View()
        invariant success <==> Packable(holder.m) && Delivered in outcomes[..i]
        invariant forall k :: 0 <= k < i ==>
                    conns[todo[k]].stream == old(conns)[todo[k]].stream + BytesSent(holder.m, outcomes[k])
        invariant forall k :: i <= k < |todo| ==> conns[todo[k]] == old(conns)[todo[k]]
        invariant forall d :: 0 <= d < |conns| && d !in todo ==> conns[d] == old(conns)[d]
      {
        assert todo[i..][1..] == todo[i + 1..] && todo[i..][0] == todo[i];
        assert outcomes[..i + 1] == outcomes[..i] + [outcomes[i]];
        var ok;
        ok, steps := SendFramed(todo[i], outcomes[i], start, steps);
        success := success || ok;
      }
      assert outcomes[..|outcomes|] == outcomes;
    }

    /**
     The broadcast of one command, with whatever outcomes of its sends: it is a run of the
     protocol that ends with the lock free, so it has gone through every registered connection.
     */
    method ForwardToAll(m: Message, outcomes: seq<Outcome>) returns (success: bool, ghost steps: seq<Step>)
      requires Inv(View()) && holder.Free? && |outcomes| == |xappConnections|
      modifies this`conns, this`holder, this`log
      ensures Inv(View()) && holder.Free?
      ensures IsRun(old(View()), steps) && Result(old(View()), steps) == View()
      ensures log == if xappConnections == [] then old(log) else old(log) + [m]
      ensures success <==> Packable(m) && Delivered in outcomes
      ensures xappConnections == old(xappConnections) && |conns| == |old(conns)|
      ensures forall i :: 0 <= i < |outcomes| ==>
                var c := xappConnections[i].1;
                c < |conns| && conns[c].stream == old(conns)[c].stream + BytesSent(m, outcomes[i])
      ensures forall d :: 0 <= d < |conns| && d !in Targets(xappConnections) ==> conns[d] == old(conns)[d]
    {
      ghost var start := View();
      RegisteredExist(start);
      EmptyRun(start);
      BroadcastBegun(start, m);
      hide IsRun, Result, Inv, Frame, Do, Enabled;
      RunOneMore(start, [], BeginBroadcast(m));
      steps := [] + [BeginBroadcast(m)];
      success := false;
      if xappConnections != [] {
        log := log + [m];
        holder := Sending(true, m, Targets(xappConnections), 0);
        success, steps := SendToAll(outcomes, start, steps);
        LockReleased(View());
        RunOneMore(start, steps, Release);
        holder := Free;
        steps := steps + [Release];
      }
      RunOk(start, steps);
    }
  }

  lemma FrameLength(m: Message)
    requires Packable(m)
    ensures |Frame(m)| == 4 + |m|
  {
  }

  // ----- The steps of a send -----

  lemma SendIs(s: State, n: nat)
    requires HasTarget(s) && Packable(s.holder.m) && s.holder.sent == 0 && 1 <= n <= |Frame(s.holder.m)|
    ensures Enabled(s, SendSome(n))
    ensures var c := s.holder.todo[0];
            Do(s, SendSome(n)) ==
            s.(conns := s.conns[c := s.conns[c].Sent(Frame(s.holder.m)[..n])], holder := s.holder.(sent := n))
  {
    hide Frame;
    assert Frame(s.holder.m)[..n] == Frame(s.holder.m)[0..n];
  }

  lemma FinishIs(s: State)
    requires HasTarget(s) && Packable(s.holder.m) && s.holder.sent == |Frame(s.holder.m)|
    ensures Enabled(s, FinishSend)
    ensures var h, c := s.holder, s.holder.todo[0];
            Do(s, FinishSend) == s.(conns := s.conns[c := s.conns[c].Finished(Item(h.control, h.m))],
                                    holder := h.(todo := h.todo[1..], sent := 0))
  {
  }

  lemma FailIs(s: State)
    requires HasTarget(s) && (Packable(s.holder.m) ==> s.holder.sent <= |Frame(s.holder.m)|)
    ensures Enabled(s, FailSend)
    ensures var h, c := s.holder, s.holder.todo[0];
            var part := if Packable(h.m) then Frame(h.m)[..h.sent] else [];
            Do(s, FailSend) == s.(conns := s.conns[c := s.conns[c].Failed(h.m, part)],
                                  holder := h.(todo := h.todo[1..], sent := 0))
  {
    hide Frame;
  }

  lemma BroadcastBegun(s: State, m: Message)
    requires s.holder.Free?
    ensures Enabled(s, BeginBroadcast(m))
    ensures Do(s, BeginBroadcast(m)) ==
            if s.registered == [] then s
            else s.(log := s.log + [m], holder := Sending(true, m, Targets(s.registered), 0))
  {
  }

  lemma LockReleased(s: State)
    requires s.holder.Sending? && s.holder.todo == []
    ensures Enabled(s, Release) && Do(s, Release) == s.(holder := Free)
  {
  }

  lemma EmptyRun(s: State)
    ensures IsRun(s, []) && Result(s, []) == s
  {
  }

  lemma RegisteredExist(s: State)
    requires Inv(s)
    ensures forall i :: 0 <= i < |s.registered| ==> s.registered[i].1 < |s.conns|
    ensures forall i, j :: 0 <= i < j < |s.registered| ==> s.registered[i].1 != s.registered[j].1
  {
  }
}
