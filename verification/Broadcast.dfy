/**
 The relay's control channel: commands are broadcast to every registered xApp while one lock
 is held, and the same lock guards registration, removal, and replies to a single xApp.
 */
module Broadcast {
  import opened Wrappers
  import opened Framing

  type Addr = nat

  /** What a connection was sent as one whole frame. */
  datatype Item = Item(control: bool, m: Message)

  /**
   The first send that failed: of the frame of `m` only `part` was sent. The connection stays
   registered, and `rest` is what was sent on it afterwards.
   */
  datatype Cut = Cut(m: Message, part: seq<Byte>, rest: seq<Byte>)

  /**
   `stream` is every byte sent on the connection. The rest is history: the whole frames sent
   before the first failure, the places in the global order of commands at which it was
   registered and removed, and the first failure.
   */
  datatype Conn = Conn(
    stream: seq<Byte>,
    items: seq<Item>,
    joined: Option<nat>,
    left: Option<nat>,
    cut: Option<Cut>)
  {
    function Sent(bytes: seq<Byte>): Conn {
      this.(stream := stream + bytes,
            cut := match cut case None => None case Some(c) => Some(c.(rest := c.rest + bytes)))
    }

    function Finished(item: Item): Conn {
      if cut.None? then this.(items := items + [item]) else this
    }

    function Failed(m: Message, part: seq<Byte>): Conn {
      if cut.None? then this.(cut := Some(Cut(m, part, []))) else this
    }
  }

  /** Whoever holds the lock sends one frame to each connection in `todo`; `sent` bytes are on their way. */
  datatype Holder = Free | Sending(control: bool, m: Message, todo: seq<nat>, sent: nat)

  /** `registered` lists addresses with their connections; `log` is the global order of commands. */
  datatype State = State(conns: seq<Conn>, registered: seq<(Addr, nat)>, holder: Holder, log: seq<Message>)

  datatype Step =
    | Accept
    | Register(addr: Addr, conn: nat)
    | Unregister(addr: Addr)
    | BeginBroadcast(m: Message)
    | BeginReply(m: Message, conn: nat)
    | SendSome(n: nat)
    | FinishSend
    | FailSend
    | Release

  const START: State := State([], [], Free, [])

  /** The position of an address in the list of registrations, or its length. */
  function Find(r: seq<(Addr, nat)>, addr: Addr): (i: nat)
    ensures i <= |r| && (i < |r| ==> r[i].0 == addr)
    ensures forall j :: 0 <= j < i ==> r[j].0 != addr
  {
    if r == [] || r[0].0 == addr then 0 else 1 + Find(r[1..], addr)
  }

  function Targets(r: seq<(Addr, nat)>): seq<nat> {
    seq(|r|, i requires 0 <= i < |r| => r[i].1)
  }

  predicate HasTarget(s: State) {
    s.holder.Sending? && s.holder.todo != [] && s.holder.todo[0] < |s.conns|
  }

  predicate Enabled(s: State, step: Step) {
    match step
    case Accept => true
    case Register(_, conn) => s.holder.Free? && conn < |s.conns| && s.conns[conn].joined.None?
    case Unregister(_) => s.holder.Free? && forall i :: 0 <= i < |s.registered| ==> s.registered[i].1 < |s.conns|
    case BeginBroadcast(_) => s.holder.Free?
    case BeginReply(_, conn) => s.holder.Free? && conn < |s.conns|
    case SendSome(n) =>
      HasTarget(s) && Packable(s.holder.m) && 1 <= n && s.holder.sent + n <= |Frame(s.holder.m)|
    case FinishSend => HasTarget(s) && Packable(s.holder.m) && s.holder.sent == |Frame(s.holder.m)|
    case FailSend => HasTarget(s)
    case Release => s.holder.Sending? && s.holder.todo == []
  }

  /** The connection that loses its registration for `addr`, if any, is marked as having left. */
  function Leave(s: State, addr: Addr): seq<Conn> {
    var i := Find(s.registered, addr);
    if i < |s.registered| && s.registered[i].1 < |s.conns|
    then s.conns[s.registered[i].1 := s.conns[s.registered[i].1].(left := Some(|s.log|))]
    else s.conns
  }

  function Do(s: State, step: Step): State
    requires Enabled(s, step)
  {
    match step
    case Accept => s.(conns := s.conns + [Conn([], [], None, None, None)])
    case Register(addr, conn) =>
      var i := Find(s.registered, addr);
      var conns := Leave(s, addr);
      s.(conns := conns[conn := conns[conn].(joined := Some(|s.log|))],
         registered := if i < |s.registered| then s.registered[i := (addr, conn)] else s.registered + [(addr, conn)])
    case Unregister(addr) =>
      var i := Find(s.registered, addr);
      s.(conns := Leave(s, addr),
         registered := if i < |s.registered| then s.registered[..i] + s.registered[i + 1..] else s.registered)
    case BeginBroadcast(m) =>
      if s.registered == [] then s
      else s.(log := s.log + [m], holder := Sending(true, m, Targets(s.registered), 0))
    case BeginReply(m, conn) => s.(holder := Sending(false, m, [conn], 0))
    case SendSome(n) =>
      var h, c := s.holder, s.holder.todo[0];
      s.(conns := s.conns[c := s.conns[c].Sent(Frame(h.m)[h.sent..h.sent + n])],
         holder := h.(sent := h.sent + n))
    case FinishSend =>
      var h, c := s.holder, s.holder.todo[0];
      s.(conns := s.conns[c := s.conns[c].Finished(Item(h.control, h.m))],
         holder := h.(todo := h.todo[1..], sent := 0))
    case FailSend =>
      var h, c := s.holder, s.holder.todo[0];
      s.(conns := s.conns[c := s.conns[c].Failed(h.m, Partial(h, c))],
         holder := h.(todo := h.todo[1..], sent := 0))
    case Release => s.(holder := Free)
  }

  // ----- The invariant -----

  function Messages(items: seq<Item>): seq<Message> {
    seq(|items|, i requires 0 <= i < |items| => items[i].m)
  }

  function Controls(items: seq<Item>): seq<Message> {
    if items == [] then []
    else
      var last := items[|items| - 1];
      Controls(items[..|items| - 1]) + if last.control then [last.m] else []
  }

  ghost predicate AllPackable(items: seq<Item>) {
    forall i :: 0 <= i < |items| ==> Packable(items[i].m)
  }

  /** The part of the current frame that connection `c` has been sent. */
  function Partial(h: Holder, c: nat): seq<Byte> {
    if h.Sending? && h.todo != [] && h.todo[0] == c && Packable(h.m) && h.sent <= |Frame(h.m)|
    then Frame(h.m)[..h.sent] else []
  }

  /** Whether connection `c` is still to be sent the newest command. */
  predicate Owed(h: Holder, c: nat) {
    h.Sending? && h.control && c in h.todo
  }

  /** The commands that a connection should have been sent by now. */
  ghost predicate Segment(conn: Conn, log: seq<Message>, owed: bool) {
    match conn.joined
    case None => conn.left.None? && !owed && Controls(conn.items) == []
    case Some(a) =>
      match conn.left
      case Some(b) => a <= b <= |log| && !owed && Controls(conn.items) == log[a..b]
      case None =>
        var b := if owed then |log| - 1 else |log|;
        a <= b && Controls(conn.items) == log[a..b]
  }

  /** Before the first failure, the commands sent are the first ones of that segment. */
  ghost predicate CommandsOk(conn: Conn, log: seq<Message>, owed: bool) {
    if conn.cut.None? then Segment(conn, log, owed)
    else match conn.joined
         case None => Controls(conn.items) == [] && conn.left.None?
         case Some(a) =>
           var b := match conn.left case None => |log| case Some(b) => b;
           a <= b <= |log| && Controls(conn.items) <= log[a..b]
  }

  /** Whole frames, and then a part of one; after a failure, whatever followed. */
  ghost predicate StreamOk(conn: Conn, partial: seq<Byte>) {
    && AllPackable(conn.items)
    && conn.stream == EncodeAll(Messages(conn.items)) + Tail(conn, partial)
    && (conn.cut.Some? ==> IsPart(conn.cut.value.part, conn.cut.value.m))
  }

  function Tail(conn: Conn, partial: seq<Byte>): seq<Byte> {
    match conn.cut case None => partial case Some(c) => c.part + c.rest
  }

  predicate IsPart(part: seq<Byte>, m: Message) {
    if Packable(m) then part <= Frame(m) else part == []
  }

  ghost predicate ConnOk(conn: Conn, log: seq<Message>, owed: bool, partial: seq<Byte>) {
    StreamOk(conn, partial) && CommandsOk(conn, log, owed)
  }

  /** Exactly the connections that have joined and not left are registered, each once. */
  ghost predicate RegistryOk(s: State) {
    && (forall i :: 0 <= i < |s.registered| ==> s.registered[i].1 < |s.conns|)
    && (forall i, j :: 0 <= i < j < |s.registered| ==> s.registered[i].1 != s.registered[j].1)
    && (forall c :: 0 <= c < |s.conns| ==>
          (c in Targets(s.registered) <==> s.conns[c].joined.Some? && s.conns[c].left.None?))
    && (forall c :: 0 <= c < |s.conns| && s.conns[c].joined.None? ==> s.conns[c].left.None?)
  }

  ghost predicate HolderOk(s: State) {
    s.holder.Sending? ==>
      && (forall i :: 0 <= i < |s.holder.todo| ==> s.holder.todo[i] < |s.conns|)
      && (forall i, j :: 0 <= i < j < |s.holder.todo| ==> s.holder.todo[i] != s.holder.todo[j])
      && (s.holder.sent > 0 ==>
            s.holder.todo != [] && Packable(s.holder.m) && s.holder.sent <= |Frame(s.holder.m)|)
      && (s.holder.control ==> s.log != [] && s.log[|s.log| - 1] == s.holder.m)
  }

  ghost predicate Inv(s: State) {
    && RegistryOk(s) && HolderOk(s)
    && forall c :: 0 <= c < |s.conns| ==> ConnOk(s.conns[c], s.log, Owed(s.holder, c), Partial(s.holder, c))
  }

  // ----- Each step keeps it -----

  lemma {:induction false} EncodeSnoc(ms: seq<Message>, m: Message)
    requires (forall i :: 0 <= i < |ms| ==> Packable(ms[i])) && Packable(m)
    ensures EncodeAll(ms + [m]) == EncodeAll(ms) + Frame(m)
  {
    hide Frame;
    if ms == [] {
      assert ms + [m] == [m] && EncodeAll([m]) == Frame(m) + EncodeAll([]);
    } else {
      assert (ms + [m])[1..] == ms[1..] + [m];
      EncodeSnoc(ms[1..], m);
    }
  }

  lemma AcceptOk(s: State)
    requires Inv(s)
    ensures Inv(Do(s, Accept))
  {
    hide CommandsOk;
    var s' := Do(s, Accept);
    var c := |s.conns|;
    assert c !in Targets(s.registered);
    assert !Owed(s.holder, c) && Partial(s.holder, c) == [];
    assert EncodeAll(Messages([])) == [];
    NewConn(s.log);
    forall d | 0 <= d < |s'.conns|
      ensures ConnOk(s'.conns[d], s'.log, Owed(s'.holder, d), Partial(s'.holder, d))
    {
      assert d < c ==> ConnOk(s.conns[d], s.log, Owed(s.holder, d), Partial(s.holder, d));
    }
  }

  lemma NewConn(log: seq<Message>)
    ensures CommandsOk(Conn([], [], None, None, None), log, false)
  {
  }

  /** Leaving ends the segment of one connection at the current end of the log. */
  lemma LeaveOk(s: State, addr: Addr)
    requires Inv(s) && s.holder.Free?
    ensures var conns := Leave(s, addr);
            var i := Find(s.registered, addr);
            && |conns| == |s.conns|
            && (forall c :: 0 <= c < |conns| ==> ConnOk(conns[c], s.log, false, []))
            && (forall c :: 0 <= c < |conns| ==> conns[c].joined == s.conns[c].joined)
            && (forall c :: 0 <= c < |conns| && !(i < |s.registered| && c == s.registered[i].1) ==>
                  conns[c] == s.conns[c])
            && (i < |s.registered| ==> conns[s.registered[i].1].left.Some?)
  {
    var conns := Leave(s, addr);
    var i := Find(s.registered, addr);
    forall c | 0 <= c < |conns| ensures ConnOk(conns[c], s.log, false, []) {
      assert ConnOk(s.conns[c], s.log, Owed(s.holder, c), Partial(s.holder, c));
      if i < |s.registered| && c == s.registered[i].1 {
        assert c in Targets(s.registered) by { assert Targets(s.registered)[i] == c; }
      }
    }
  }

  lemma UnregisterOk(s: State, addr: Addr)
    requires Inv(s) && Enabled(s, Unregister(addr))
    ensures Inv(Do(s, Unregister(addr)))
  {
    hide ConnOk, Leave, Find;
    LeaveOk(s, addr);
    var s' := Do(s, Unregister(addr));
    var i := Find(s.registered, addr);
    if i < |s.registered| {
      RemovedTargets(s.registered, i);
      assert Targets(s.registered)[i] == s.registered[i].1;
      assert s.registered[i].1 in Targets(s.registered);
    }
  }

  lemma RemovedTargets(r: seq<(Addr, nat)>, i: nat)
    requires i < |r| && forall j, k :: 0 <= j < k < |r| ==> r[j].1 != r[k].1
    ensures var r' := r[..i] + r[i + 1..];
            && (forall c :: c in Targets(r') <==> c in Targets(r) && c != r[i].1)
            && (forall j, k :: 0 <= j < k < |r'| ==> r'[j].1 != r'[k].1)
  {
    var r' := r[..i] + r[i + 1..];
    forall c ensures c in Targets(r') <==> c in Targets(r) && c != r[i].1 {
      if c in Targets(r') {
        var j :| 0 <= j < |r'| && Targets(r')[j] == c;
        assert Targets(r)[if j < i then j else j + 1] == c;
      }
      if c in Targets(r) && c != r[i].1 {
        var j :| 0 <= j < |r| && Targets(r)[j] == c;
        assert Targets(r')[if j < i then j else j - 1] == c;
      }
    }
  }

  lemma ReplacedTargets(r: seq<(Addr, nat)>, i: nat, entry: (Addr, nat))
    requires i <= |r| && forall j, k :: 0 <= j < k < |r| ==> r[j].1 != r[k].1
    requires entry.1 !in Targets(r)
    ensures var r' := if i < |r| then r[i := entry] else r + [entry];
            && (forall c :: c in Targets(r') <==> c == entry.1 || (c in Targets(r) && !(i < |r| && c == r[i].1)))
            && (forall j, k :: 0 <= j < k < |r'| ==> r'[j].1 != r'[k].1)
  {
    var r' := if i < |r| then r[i := entry] else r + [entry];
    forall j | 0 <= j < |r| ensures r[j].1 != entry.1 {
      assert Targets(r)[j] == r[j].1;
    }
    forall c ensures c in Targets(r') <==> c == entry.1 || (c in Targets(r) && !(i < |r| && c == r[i].1)) {
      if c in Targets(r') {
        var j :| 0 <= j < |r'| && Targets(r')[j] == c;
        assert j < |r| && j != i ==> Targets(r)[j] == c;
      }
      if c == entry.1 {
        assert Targets(r')[i] == c;
      }
      if c in Targets(r) && !(i < |r| && c == r[i].1) {
        var j :| 0 <= j < |r| && Targets(r)[j] == c;
        assert Targets(r')[j] == c;
      }
    }
  }

  lemma JoinedConn(conn: Conn, log: seq<Message>)
    requires ConnOk(conn, log, false, []) && conn.joined.None?
    ensures ConnOk(conn.(joined := Some(|log|)), log, false, [])
  {
  }

  /** Who has joined and not left, after `conn` has taken over an address from whoever held it. */
  lemma JoinedAndNotLeft(s: State, r': seq<(Addr, nat)>, conn: nat, conns: seq<Conn>, gone: Option<nat>)
    requires RegistryOk(s) && conn < |s.conns| == |conns| && s.conns[conn].joined.None?
    requires forall c :: 0 <= c < |conns| ==> conns[c].joined == s.conns[c].joined
    requires forall c :: 0 <= c < |conns| && gone != Some(c) ==> conns[c] == s.conns[c]
    requires gone.Some? ==> gone.value in Targets(s.registered) && gone.value < |conns| && conns[gone.value].left.Some?
    requires forall c :: c in Targets(r') <==> c == conn || (c in Targets(s.registered) && gone != Some(c))
    ensures var conns' := conns[conn := conns[conn].(joined := Some(|s.log|))];
            && (forall c :: 0 <= c < |conns'| ==>
                  (c in Targets(r') <==> conns'[c].joined.Some? && conns'[c].left.None?))
            && (forall c :: 0 <= c < |conns'| && conns'[c].joined.None? ==> conns'[c].left.None?)
  {
    hide Targets;
    assert conn !in Targets(s.registered);
    var conns' := conns[conn := conns[conn].(joined := Some(|s.log|))];
    forall c | 0 <= c < |conns'| ensures c in Targets(r') <==> conns'[c].joined.Some? && conns'[c].left.None? {
      assert c in Targets(s.registered) <==> s.conns[c].joined.Some? && s.conns[c].left.None?;
    }
  }

  /** `conns` are the connections after whoever held the address has left. */
  lemma RegisterRegistryOk(s: State, addr: Addr, conn: nat, conns: seq<Conn>)
    requires RegistryOk(s) && conn < |s.conns| == |conns| && s.conns[conn].joined.None?
    requires forall c :: 0 <= c < |conns| ==> conns[c].joined == s.conns[c].joined
    requires var i := Find(s.registered, addr);
             && (forall c :: 0 <= c < |conns| && !(i < |s.registered| && c == s.registered[i].1) ==>
                   conns[c] == s.conns[c])
             && (i < |s.registered| ==> conns[s.registered[i].1].left.Some?)
    ensures var i := Find(s.registered, addr);
            RegistryOk(s.(conns := conns[conn := conns[conn].(joined := Some(|s.log|))],
                          registered := if i < |s.registered| then s.registered[i := (addr, conn)]
                                        else s.registered + [(addr, conn)]))
  {
    hide Find;
    var i := Find(s.registered, addr);
    var gone := if i < |s.registered| then Some(s.registered[i].1) else None;
    var r' := if i < |s.registered| then s.registered[i := (addr, conn)] else s.registered + [(addr, conn)];
    assert conn !in Targets(s.registered);
    if i < |s.registered| {
      assert Targets(s.registered)[i] == s.registered[i].1;
    }
    hide Targets;
    ReplacedTargets(s.registered, i, (addr, conn));
    JoinedAndNotLeft(s, r', conn, conns, gone);
  }

  lemma RegisterOk(s: State, addr: Addr, conn: nat)
    requires Inv(s) && Enabled(s, Register(addr, conn))
    ensures Inv(Do(s, Register(addr, conn)))
  {
    hide Leave, RegistryOk, ConnOk, Find;
    LeaveOk(s, addr);
    var conns := Leave(s, addr);
    RegisterRegistryOk(s, addr, conn, conns);
    assert ConnOk(conns[conn], s.log, false, []);
    JoinedConn(conns[conn], s.log);
  }

  /** With one more command in the log, a registered connection is owed it. */
  lemma OwedMore(conn: Conn, log: seq<Message>, m: Message)
    requires ConnOk(conn, log, false, [])
    ensures ConnOk(conn, log + [m], conn.joined.Some? && conn.left.None?, [])
  {
    hide StreamOk, Controls;
    if conn.joined.Some? {
      var a := conn.joined.value;
      var b := match conn.left case None => |log| case Some(b) => b;
      assert (log + [m])[a..b] == log[a..b];
    }
  }

  lemma BeginBroadcastOk(s: State, m: Message)
    requires Inv(s) && Enabled(s, BeginBroadcast(m))
    ensures Inv(Do(s, BeginBroadcast(m)))
  {
    hide ConnOk;
    var s' := Do(s, BeginBroadcast(m));
    if s.registered != [] {
      forall c | 0 <= c < |s'.conns|
        ensures ConnOk(s'.conns[c], s'.log, Owed(s'.holder, c), Partial(s'.holder, c))
      {
        assert ConnOk(s.conns[c], s.log, Owed(s.holder, c), Partial(s.holder, c));
        assert Partial(s'.holder, c) == [];
        assert Owed(s'.holder, c) <==> s.conns[c].joined.Some? && s.conns[c].left.None?;
        OwedMore(s.conns[c], s.log, m);
      }
    }
  }

  lemma BeginReplyOk(s: State, m: Message, conn: nat)
    requires Inv(s) && Enabled(s, BeginReply(m, conn))
    ensures Inv(Do(s, BeginReply(m, conn)))
  {
    hide Segment;
    var s' := Do(s, BeginReply(m, conn));
    forall c | 0 <= c < |s'.conns|
      ensures ConnOk(s'.conns[c], s'.log, Owed(s'.holder, c), Partial(s'.holder, c))
    {
      assert ConnOk(s.conns[c], s.log, false, []);
      assert Partial(s'.holder, c) == [];
    }
  }

  lemma SentStream(conn: Conn, a: seq<Byte>, b: seq<Byte>)
    requires StreamOk(conn, a)
    ensures StreamOk(conn.Sent(b), a + b)
  {
    hide EncodeAll, IsPart;
    var whole := EncodeAll(Messages(conn.items));
    assert whole + Tail(conn, a) + b == whole + (Tail(conn, a) + b);
    if conn.cut.Some? {
      var c := conn.cut.value;
      assert c.part + c.rest + b == c.part + (c.rest + b);
    }
  }

  lemma SentMore(conn: Conn, log: seq<Message>, owed: bool, m: Message, sent: nat, n: nat)
    requires Packable(m) && sent + n <= |Frame(m)| && ConnOk(conn, log, owed, Frame(m)[..sent])
    ensures ConnOk(conn.Sent(Frame(m)[sent..sent + n]), log, owed, Frame(m)[..sent + n])
  {
    hide Frame, StreamOk, Controls;
    SentStream(conn, Frame(m)[..sent], Frame(m)[sent..sent + n]);
    assert Frame(m)[..sent] + Frame(m)[sent..sent + n] == Frame(m)[..sent + n];
  }

  lemma SendSomeOk(s: State, n: nat)
    requires Inv(s) && Enabled(s, SendSome(n))
    ensures Inv(Do(s, SendSome(n)))
  {
    hide ConnOk, RegistryOk, Frame;
    var s' := Do(s, SendSome(n));
    var h, c := s.holder, s.holder.todo[0];
    SameRegistry(s, s');
    forall d | 0 <= d < |s'.conns|
      ensures ConnOk(s'.conns[d], s'.log, Owed(s'.holder, d), Partial(s'.holder, d))
    {
      assert ConnOk(s.conns[d], s.log, Owed(h, d), Partial(h, d));
      if d == c {
        SentMore(s.conns[c], s.log, Owed(h, c), h.m, h.sent, n);
      } else {
        assert Partial(h, d) == [] == Partial(s'.holder, d);
      }
    }
  }

  /** A whole frame is one more message on the stream. */
  lemma FinishedStream(conn: Conn, item: Item)
    requires Packable(item.m) && StreamOk(conn, Frame(item.m))
    ensures StreamOk(conn.Finished(item), [])
  {
    hide Frame, EncodeAll, Packable, IsPart;
    if conn.cut.None? {
      var items := conn.items + [item];
      assert Messages(items) == Messages(conn.items) + [item.m];
      EncodeSnoc(Messages(conn.items), item.m);
      assert conn.stream == EncodeAll(Messages(items)) + [];
    }
  }

  lemma ControlsSnoc(items: seq<Item>, item: Item)
    ensures Controls(items + [item]) == Controls(items) + if item.control then [item.m] else []
  {
    assert (items + [item])[..|items|] == items;
  }

  /** A command that was owed has been sent. */
  lemma FinishedCommands(conn: Conn, log: seq<Message>, item: Item)
    requires CommandsOk(conn, log, item.control)
    requires item.control ==> log != [] && log[|log| - 1] == item.m
    ensures CommandsOk(conn.Finished(item), log, false)
  {
    hide Controls;
    ControlsSnoc(conn.items, item);
    if conn.cut.None? && item.control && conn.joined.Some? {
      var a := conn.joined.value;
      assert log[a..|log| - 1] + [item.m] == log[a..];
    }
  }

  /** What finishing a frame does to the connection it went to. */
  lemma FinishedConn(conn: Conn, log: seq<Message>, item: Item)
    requires Packable(item.m) && ConnOk(conn, log, item.control, Frame(item.m))
    requires item.control ==> log != [] && log[|log| - 1] == item.m
    ensures ConnOk(conn.Finished(item), log, false, [])
  {
    hide StreamOk, CommandsOk, Frame;
    FinishedStream(conn, item);
    FinishedCommands(conn, log, item);
  }

  /** A failed send leaves a part of the frame, and the connection is owed no more. */
  lemma FailedConn(conn: Conn, log: seq<Message>, owed: bool, m: Message, part: seq<Byte>)
    requires ConnOk(conn, log, owed, part) && IsPart(part, m)
    ensures ConnOk(conn.Failed(m, part), log, false, [])
  {
    hide Frame, EncodeAll, Packable, Controls;
    assert part + [] == part;
  }

  lemma SameRegistry(s: State, s': State)
    requires RegistryOk(s) && s'.registered == s.registered && |s'.conns| == |s.conns|
    requires forall c :: 0 <= c < |s.conns| ==>
               s'.conns[c].joined == s.conns[c].joined && s'.conns[c].left == s.conns[c].left
    ensures RegistryOk(s')
  {
    hide Targets;
  }

  /** The holder is done with its current connection, which is now `conn`, and goes on to the next. */
  lemma MovedOn(s: State, conn: Conn)
    requires Inv(s) && HasTarget(s) && ConnOk(conn, s.log, false, [])
    requires conn.joined == s.conns[s.holder.todo[0]].joined && conn.left == s.conns[s.holder.todo[0]].left
    ensures Inv(s.(conns := s.conns[s.holder.todo[0] := conn],
                   holder := s.holder.(todo := s.holder.todo[1..], sent := 0)))
  {
    hide ConnOk, RegistryOk, Frame;
    var h, c := s.holder, s.holder.todo[0];
    var s' := s.(conns := s.conns[c := conn], holder := h.(todo := h.todo[1..], sent := 0));
    SameRegistry(s, s');
    NotInTail(h.todo);
    assert h.todo == [c] + s'.holder.todo;
    forall d | 0 <= d < |s'.conns|
      ensures ConnOk(s'.conns[d], s'.log, Owed(s'.holder, d), Partial(s'.holder, d))
    {
      assert Partial(s'.holder, d) == [];
      if d != c {
        assert ConnOk(s.conns[d], s.log, Owed(h, d), Partial(h, d));
      }
    }
  }

  lemma FinishSendOk(s: State)
    requires Inv(s) && Enabled(s, FinishSend)
    ensures Inv(Do(s, FinishSend))
  {
    hide ConnOk, RegistryOk, Frame;
    var h, c := s.holder, s.holder.todo[0];
    assert ConnOk(s.conns[c], s.log, Owed(h, c), Partial(h, c));
    assert Frame(h.m)[..h.sent] == Frame(h.m);
    FinishedConn(s.conns[c], s.log, Item(h.control, h.m));
    MovedOn(s, s.conns[c].Finished(Item(h.control, h.m)));
  }

  lemma NotInTail(todo: seq<nat>)
    requires todo != [] && forall i, j :: 0 <= i < j < |todo| ==> todo[i] != todo[j]
    ensures todo[0] !in todo[1..]
  {
  }

  lemma FailSendOk(s: State)
    requires Inv(s) && Enabled(s, FailSend)
    ensures Inv(Do(s, FailSend))
  {
    hide ConnOk, RegistryOk, Frame;
    var h, c := s.holder, s.holder.todo[0];
    assert ConnOk(s.conns[c], s.log, Owed(h, c), Partial(h, c));
    FailedConn(s.conns[c], s.log, Owed(h, c), h.m, Partial(h, c));
    MovedOn(s, s.conns[c].Failed(h.m, Partial(h, c)));
  }

  /** Every step of any thread keeps the invariant. */
  lemma StepOk(s: State, step: Step)
    requires Inv(s) && Enabled(s, step)
    ensures Inv(Do(s, step))
  {
    hide Inv;
    match step
    case Accept => AcceptOk(s);
    case Register(addr, conn) => RegisterOk(s, addr, conn);
    case Unregister(addr) => UnregisterOk(s, addr);
    case BeginBroadcast(m) => BeginBroadcastOk(s, m);
    case BeginReply(m, conn) => BeginReplyOk(s, m, conn);
    case SendSome(n) => SendSomeOk(s, n);
    case FinishSend => FinishSendOk(s);
    case FailSend => FailSendOk(s);
    case Release => ReleaseOk(s);
  }

  lemma ReleaseOk(s: State)
    requires Inv(s) && Enabled(s, Release)
    ensures Inv(Do(s, Release))
  {
    hide ConnOk;
    forall c | 0 <= c < |s.conns| ensures ConnOk(s.conns[c], s.log, Owed(Free, c), Partial(Free, c)) {
      assert ConnOk(s.conns[c], s.log, Owed(s.holder, c), Partial(s.holder, c));
    }
  }

  // ----- Runs -----

  ghost predicate IsRun(s: State, steps: seq<Step>)
    decreases |steps|
  {
    steps == [] || (Enabled(s, steps[0]) && IsRun(Do(s, steps[0]), steps[1..]))
  }

  ghost function Result(s: State, steps: seq<Step>): State
    requires IsRun(s, steps)
    decreases |steps|
  {
    if steps == [] then s else Result(Do(s, steps[0]), steps[1..])
  }

  lemma {:induction false} RunOk(s: State, steps: seq<Step>)
    requires Inv(s) && IsRun(s, steps)
    ensures Inv(Result(s, steps))
    decreases |steps|
  {
    hide Inv, Enabled, Do;
    if steps != [] {
      StepOk(s, steps[0]);
      RunOk(Do(s, steps[0]), steps[1..]);
    }
  }

  /**
   Total order. Under any interleaving of the threads, and whenever the lock is free: the
   commands delivered to a connection are a contiguous segment of one global order, from its
   registration to its removal; or, once a send on it has failed, the beginning of that segment.
   */
  lemma DeliversASegment(steps: seq<Step>, c: nat)
    requires IsRun(START, steps) && Result(START, steps).holder.Free?
    requires c < |Result(START, steps).conns|
    ensures var s := Result(START, steps);
            var conn := s.conns[c];
            match conn.joined
            case None => Controls(conn.items) == []
            case Some(a) =>
              var b := match conn.left case None => |s.log| case Some(b) => b;
              && a <= b <= |s.log| && Controls(conn.items) <= s.log[a..b]
              && (conn.cut.None? ==> Controls(conn.items) == s.log[a..b])
  {
    assert Inv(START);
    RunOk(START, steps);
    var s := Result(START, steps);
    assert ConnOk(s.conns[c], s.log, false, []);
  }

  /** Whole frames. The bytes sent on a connection without failures decode to exactly the messages sent on it. */
  lemma StreamDecodes(steps: seq<Step>, c: nat)
    requires IsRun(START, steps) && Result(START, steps).holder.Free?
    requires c < |Result(START, steps).conns| && Result(START, steps).conns[c].cut.None?
    ensures var conn := Result(START, steps).conns[c];
            && AllPackable(conn.items) && conn.stream == EncodeAll(Messages(conn.items))
            && (Decode(conn.stream) == (Messages(conn.items), ClientClosed) <==>
                forall i :: 0 <= i < |conn.items| ==> Deliverable(conn.items[i].m))
  {
    assert Inv(START);
    RunOk(START, steps);
    var s := Result(START, steps);
    var conn := s.conns[c];
    assert ConnOk(conn, s.log, false, []);
    hide Decode, EncodeAll, ConnOk, Inv;
    var ms := Messages(conn.items);
    FramingRoundTrip(ms);
    assert forall i :: 0 <= i < |ms| ==> ms[i] == conn.items[i].m;
    if forall i :: 0 <= i < |conn.items| ==> Deliverable(conn.items[i].m) {
      assert forall i :: 0 <= i < |ms| ==> Deliverable(ms[i]);
    } else {
      var i :| 0 <= i < |conn.items| && !Deliverable(conn.items[i].m);
      assert !Deliverable(ms[i]);
    }
  }

  /**
   After a failure. The connection stays registered, so later frames follow the part of the one
   that failed. The messages before it are received. Then, if that part holds its header, one
   message is made up of the part and of bytes of later frames, and reading goes on behind it;
   if it holds some bytes of the header, the length is made up of these and of later bytes; and
   if it is empty, nothing is lost but the message.
   */
  lemma StreamAfterFailure(steps: seq<Step>, c: nat)
    requires IsRun(START, steps)
    requires c < |Result(START, steps).conns| && Result(START, steps).conns[c].cut.Some?
    requires forall i :: 0 <= i < |Result(START, steps).conns[c].items| ==>
               Deliverable(Result(START, steps).conns[c].items[i].m)
    ensures var conn := Result(START, steps).conns[c];
            var cut := conn.cut.value;
            && Decode(conn.stream).0 == Messages(conn.items) + Decode(cut.part + cut.rest).0
            && Decode(conn.stream).1 == Decode(cut.part + cut.rest).1
            && IsPart(cut.part, cut.m)
            && (4 <= |cut.part| ==>
                  if Deliverable(cut.m) then RunsOn(cut.m, cut.part, cut.rest)
                  else Decode(cut.part + cut.rest) == ([], InvalidLength))
            && (0 < |cut.part| < 4 ==> ReadsAcross(cut.part, cut.rest))
            && (cut.part == [] ==> Decode(cut.part + cut.rest) == Decode(cut.rest))
  {
    assert Inv(START);
    RunOk(START, steps);
    var s := Result(START, steps);
    var conn := s.conns[c];
    var cut := conn.cut.value;
    assert ConnOk(conn, s.log, Owed(s.holder, c), Partial(s.holder, c));
    hide Decode, EncodeAll, ConnOk, Inv, Frame, Partial;
    DecodeAhead(Messages(conn.items), cut.part + cut.rest);
    AllDeliverable(Messages(conn.items));
    if 0 < |cut.part| < 4 {
      CutHeader(cut.part, cut.rest);
    } else if cut.part != [] && Deliverable(cut.m) {
      CutFrame(cut.m, cut.part, cut.rest);
    } else if cut.part != [] {
      CutUndeliverable(cut.m, cut.part, cut.rest);
    }
    assert cut.part == [] ==> cut.part + cut.rest == cut.rest;
  }

  /** At every moment, also in mid-frame, a connection without failures was sent whole frames and a part of one more. */
  lemma NeverInterleaved(steps: seq<Step>, c: nat)
    requires IsRun(START, steps)
    requires c < |Result(START, steps).conns| && Result(START, steps).conns[c].cut.None?
    ensures var s := Result(START, steps);
            && AllPackable(s.conns[c].items)
            && s.conns[c].stream == EncodeAll(Messages(s.conns[c].items)) + Partial(s.holder, c)
  {
    assert Inv(START);
    RunOk(START, steps);
    var s := Result(START, steps);
    assert ConnOk(s.conns[c], s.log, Owed(s.holder, c), Partial(s.holder, c));
  }
}
