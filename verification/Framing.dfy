/** Length-prefixed frames over a byte stream that may arrive in any chunks. */
module Framing {
  import opened Wrappers

  type Byte = n: int | 0 <= n < 256

  type Message = seq<Byte>

  const MAX_FRAME: nat := 1024 * 1024

  /** Four bytes, the most significant one first. */
  function Header(n: nat): (h: seq<Byte>)
    requires n < 0x1_0000_0000
    ensures |h| == 4
  {
    [n / 0x100_0000, n / 0x1_0000 % 0x100, n / 0x100 % 0x100, n % 0x100]
  }

  function LengthOf(h: seq<Byte>): nat
    requires |h| == 4
  {
    var a: int, b: int, c: int, d: int := h[0], h[1], h[2], h[3];
    a * 0x100_0000 + b * 0x1_0000 + c * 0x100 + d
  }

  lemma HeaderGivesLength(n: nat)
    requires n < 0x1_0000_0000
    ensures LengthOf(Header(n)) == n
  {
    var a, b, c := n / 0x100, n / 0x1_0000, n / 0x100_0000;
    assert n == a * 0x100 + n % 0x100;
    assert b == a / 0x100 && a == b * 0x100 + a % 0x100;
    assert c == b / 0x100 && b == c * 0x100 + b % 0x100;
  }

  predicate Packable(m: Message) {
    |m| < 0x1_0000_0000
  }

  function Frame(m: Message): seq<Byte>
    requires Packable(m)
  {
    Header(|m|) + m
  }

  function EncodeAll(ms: seq<Message>): seq<Byte>
    requires forall i :: 0 <= i < |ms| ==> Packable(ms[i])
  {
    if ms == [] then [] else Frame(ms[0]) + EncodeAll(ms[1..])
  }

  // ----- Receiving -----

  /** Why the receiver stopped. A stream that ends inside a header counts as closed by the client. */
  datatype End = ClientClosed | InvalidLength | IncompleteBody

  function Decode(stream: seq<Byte>): (seq<Message>, End)
    decreases |stream|
  {
    if |stream| < 4 then ([], ClientClosed)
    else
      var n := LengthOf(stream[..4]);
      if n == 0 || n > MAX_FRAME then ([], InvalidLength)
      else if |stream| < 4 + n then ([], IncompleteBody)
      else
        var (rest, end) := Decode(stream[4 + n..]);
        ([stream[4..4 + n]] + rest, end)
  }

  /** The receiver's cases, one frame at a time. */
  lemma DecodeStep(stream: seq<Byte>)
    ensures |stream| < 4 ==> Decode(stream) == ([], ClientClosed)
    ensures |stream| >= 4 ==>
              var n := LengthOf(stream[..4]);
              && (n == 0 || n > MAX_FRAME ==> Decode(stream) == ([], InvalidLength))
              && (0 < n <= MAX_FRAME && |stream| < 4 + n ==> Decode(stream) == ([], IncompleteBody))
              && (0 < n <= MAX_FRAME && 4 + n <= |stream| ==>
                  && Decode(stream).0 == [stream[4..4 + n]] + Decode(stream[4 + n..]).0
                  && Decode(stream).1 == Decode(stream[4 + n..]).1)
  {
  }

  function Flatten(chunks: seq<seq<Byte>>): seq<Byte> {
    if chunks == [] then [] else chunks[0] + Flatten(chunks[1..])
  }

  /** A connection whose bytes arrive in given chunks; a receive gets at most one chunk. */
  class Connection {
    var chunks: seq<seq<Byte>>

    constructor (chunks: seq<seq<Byte>>)
      ensures this.chunks == chunks
    {
      this.chunks := chunks;
    }

    predicate Valid()
      reads this
    {
      forall i :: 0 <= i < |chunks| ==> chunks[i] != []
    }

    function Stream(): seq<Byte>
      reads this
    {
      Flatten(chunks)
    }

    /** Nothing is received only when the stream has ended. */
    method Recv(n: nat) returns (data: seq<Byte>)
      requires Valid() && n > 0
      modifies this
      ensures Valid() && |data| <= n
      ensures data + Stream() == old(Stream())
      ensures data == [] <==> old(Stream()) == []
    {
      if chunks == [] {
        return [];
      }
      var first := chunks[0];
      assert old(Stream()) == first + Flatten(chunks[1..]);
      if |first| <= n {
        data := first;
        chunks := chunks[1..];
      } else {
        data := first[..n];
        assert first == data + first[n..];
        chunks := [first[n..]] + chunks[1..];
      }
    }

    method RecvAll(n: nat) returns (data: Option<seq<Byte>>)
      requires Valid()
      modifies this
      ensures Valid()
      ensures |old(Stream())| >= n ==> data == Some(old(Stream())[..n]) && Stream() == old(Stream())[n..]
      ensures |old(Stream())| < n ==> data == None
    {
      var got: seq<Byte> := [];
      while |got| < n
        invariant Valid() && |got| <= n
        invariant got + Stream() == old(Stream())
        decreases n - |got|
      {
        ghost var before := Stream();
        var chunk := Recv(n - |got|);
        if chunk == [] {
          return None;
        }
        assert got + before == (got + chunk) + Stream();
        got := got + chunk;
      }
      assert got == old(Stream())[..n] && Stream() == old(Stream())[n..];
      return Some(got);
    }

    /** The frame loop. */
    method HandleConn() returns (messages: seq<Message>, end: End)
      requires Valid()
      modifies this
      ensures messages == Decode(old(Stream())).0 && end == Decode(old(Stream())).1
    {
      hide Decode, LengthOf, Flatten;
      messages := [];
      while true
        invariant Valid()
        invariant Decode(old(Stream())).0 == messages + Decode(Stream()).0
        invariant Decode(old(Stream())).1 == Decode(Stream()).1
        decreases |Stream()|
      {
        ghost var stream := Stream();
        DecodeStep(stream);
        var hdr := RecvAll(4);
        if hdr.None? {
          return messages, ClientClosed;
        }
        var length := LengthOf(hdr.value);
        if length == 0 || length > MAX_FRAME {
          return messages, InvalidLength;
        }
        var body := RecvAll(length);
        if body.None? {
          return messages, IncompleteBody;
        }
        assert stream[4..][..length] == stream[4..4 + length] && stream[4..][length..] == stream[4 + length..];
        messages := messages + [body.value];
      }
    }
  }

  // ----- Round trip -----

  predicate Deliverable(m: Message) {
    1 <= |m| <= MAX_FRAME
  }

  lemma {:induction false} DecodeFrame(m: Message, rest: seq<Byte>)
    requires Packable(m)
    ensures Deliverable(m) ==>
              Decode(Frame(m) + rest).0 == [m] + Decode(rest).0 && Decode(Frame(m) + rest).1 == Decode(rest).1
    ensures !Deliverable(m) ==> Decode(Frame(m) + rest) == ([], InvalidLength)
  {
    var stream := Frame(m) + rest;
    var n := |m|;
    assert stream[..4] == Header(n);
    HeaderGivesLength(n);
    assert stream[4..4 + n] == m && stream[4 + n..] == rest;
  }

  /** How many messages there are before the first one that is empty or too long. */
  function DeliverablePrefix(ms: seq<Message>): (n: nat)
    ensures n <= |ms|
  {
    if ms == [] || !Deliverable(ms[0]) then 0 else 1 + DeliverablePrefix(ms[1..])
  }

  lemma EncodeHead(ms: seq<Message>, rest: seq<Byte>)
    requires forall i :: 0 <= i < |ms| ==> Packable(ms[i])
    ensures ms == [] ==> EncodeAll(ms) + rest == rest
    ensures ms != [] ==> EncodeAll(ms) + rest == Frame(ms[0]) + (EncodeAll(ms[1..]) + rest)
  {
    hide Frame, Packable;
  }

  /** What the receiver gets from messages in front of bytes that it reads as `tail`. */
  function Ahead(ms: seq<Message>, tail: (seq<Message>, End)): (seq<Message>, End) {
    if DeliverablePrefix(ms) == |ms| then (ms + tail.0, tail.1) else (ms[..DeliverablePrefix(ms)], InvalidLength)
  }

  lemma AheadStep(ms: seq<Message>, tail: (seq<Message>, End))
    ensures ms == [] ==> Ahead(ms, tail) == tail
    ensures ms != [] && !Deliverable(ms[0]) ==> Ahead(ms, tail) == ([], InvalidLength)
    ensures ms != [] && Deliverable(ms[0]) ==>
              && Ahead(ms, tail).0 == [ms[0]] + Ahead(ms[1..], tail).0
              && Ahead(ms, tail).1 == Ahead(ms[1..], tail).1
  {
    hide Deliverable;
    if ms != [] && Deliverable(ms[0]) {
      var k := DeliverablePrefix(ms[1..]);
      assert ms[..k + 1] == [ms[0]] + ms[1..][..k];
      assert ms + tail.0 == [ms[0]] + (ms[1..] + tail.0);
    } else if ms == [] {
      assert ms + tail.0 == tail.0;
    }
  }

  /**
   Messages in front of any bytes are received up to the first one that is empty or too long;
   if there is none, the rest is read as if it stood alone.
   */
  lemma {:induction false} DecodeAhead(ms: seq<Message>, rest: seq<Byte>)
    requires forall i :: 0 <= i < |ms| ==> Packable(ms[i])
    ensures Decode(EncodeAll(ms) + rest) == Ahead(ms, Decode(rest))
  {
    hide Decode, Frame, EncodeAll, Ahead, Deliverable;
    EncodeHead(ms, rest);
    AheadStep(ms, Decode(rest));
    if ms != [] {
      DecodeAhead(ms[1..], rest);
      DecodeFrame(ms[0], EncodeAll(ms[1..]) + rest);
    }
  }

  /** The receiver gets the messages up to the first one that is empty or too long. */
  lemma {:induction false} DecodeEncoded(ms: seq<Message>)
    requires forall i :: 0 <= i < |ms| ==> Packable(ms[i])
    ensures var n := DeliverablePrefix(ms);
            && Decode(EncodeAll(ms)).0 == ms[..n]
            && Decode(EncodeAll(ms)).1 == if n == |ms| then ClientClosed else InvalidLength
  {
    DecodeAhead(ms, []);
    DecodeStep([]);
    assert EncodeAll(ms) + [] == EncodeAll(ms) && ms + [] == ms[..|ms|];
  }

  /** A frame that was cut behind its header is filled up with whatever follows it. */
  ghost predicate RunsOn(m: Message, part: seq<Byte>, rest: seq<Byte>)
    requires Packable(m) && 4 <= |part| <= |Frame(m)|
  {
    var missing := |Frame(m)| - |part|;
    if |rest| < missing then Decode(part + rest) == ([], IncompleteBody)
    else
      && Decode(part + rest).0 == [part[4..] + rest[..missing]] + Decode(rest[missing..]).0
      && Decode(part + rest).1 == Decode(rest[missing..]).1
  }

  lemma SliceAcross(part: seq<Byte>, rest: seq<Byte>, n: nat)
    requires 4 <= |part| && n <= |rest|
    ensures (part + rest)[4..|part| + n] == part[4..] + rest[..n]
    ensures (part + rest)[|part| + n..] == rest[n..]
  {
  }

  lemma CutFrame(m: Message, part: seq<Byte>, rest: seq<Byte>)
    requires Deliverable(m) && part <= Frame(m) && 4 <= |part|
    ensures RunsOn(m, part, rest)
  {
    hide Decode, LengthOf;
    var stream := part + rest;
    assert stream[..4] == Frame(m)[..4] == Header(|m|);
    HeaderGivesLength(|m|);
    DecodeStep(stream);
    var missing := |Frame(m)| - |part|;
    assert |Frame(m)| == 4 + |m|;
    if missing <= |rest| {
      SliceAcross(part, rest, missing);
    }
  }

  /** A frame that was cut inside its header: the length is read across the cut, and what follows is read by it. */
  ghost predicate ReadsAcross(part: seq<Byte>, rest: seq<Byte>)
    requires 0 < |part| < 4
  {
    var k := 4 - |part|;
    if |rest| < k then Decode(part + rest) == ([], ClientClosed)
    else
      var n, more := LengthOf(part + rest[..k]), rest[k..];
      if n == 0 || n > MAX_FRAME then Decode(part + rest) == ([], InvalidLength)
      else if |more| < n then Decode(part + rest) == ([], IncompleteBody)
      else
        && Decode(part + rest).0 == [more[..n]] + Decode(more[n..]).0
        && Decode(part + rest).1 == Decode(more[n..]).1
  }

  lemma CutHeader(part: seq<Byte>, rest: seq<Byte>)
    requires 0 < |part| < 4
    ensures ReadsAcross(part, rest)
  {
    hide Decode, LengthOf;
    var stream := part + rest;
    DecodeStep(stream);
    var k := 4 - |part|;
    if k <= |rest| {
      assert stream[..4] == part + rest[..k];
      var n, more := LengthOf(stream[..4]), rest[k..];
      if n <= |more| {
        assert stream[4..4 + n] == more[..n] && stream[4 + n..] == more[n..];
      }
    }
  }

  function Power(k: nat): (p: nat)
    ensures p > 0
  {
    if k == 0 then 1 else 0x100 * Power(k - 1)
  }

  /**
   If the header of another frame follows the cut, the length that is read is that of the cut
   message with its lower bytes replaced by the upper bytes of the length of the other.
   */
  lemma LengthAcross(m: Message, other: Message, k: nat)
    requires Deliverable(m) && Deliverable(other) && 0 < k < 4
    ensures LengthOf(Header(|m|)[..k] + Header(|other|)[..4 - k]) ==
            |m| / Power(4 - k) * Power(4 - k) + |other| / Power(k)
  {
    hide Header;
    assert Power(1) == 0x100 && Power(2) == 0x1_0000 && Power(3) == 0x100_0000;
    hide Power;
    LowHeader(|m|);
    LowHeader(|other|);
    var h, g := Header(|m|), Header(|other|);
    if k == 1 {
      assert h[..1] + g[..3] == [0, 0, g[1], g[2]];
    } else if k == 2 {
      assert h[..2] + g[..2] == [0, h[1], 0, g[1]];
    } else {
      assert h[..3] + g[..1] == [0, h[1], h[2], 0];
    }
  }

  lemma LowHeader(n: nat)
    requires n <= MAX_FRAME
    ensures n / 0x100_0000 == 0 && n / 0x1_0000 < 0x100
    ensures Header(n) == [0, n / 0x1_0000, n / 0x100 % 0x100, n % 0x100]
    ensures n / 0x100 == n / 0x1_0000 * 0x100 + n / 0x100 % 0x100
  {
  }

  /** The header of a message that is empty or too long ends the connection, cut or not. */
  lemma CutUndeliverable(m: Message, part: seq<Byte>, rest: seq<Byte>)
    requires Packable(m) && !Deliverable(m) && part <= Frame(m) && 4 <= |part|
    ensures Decode(part + rest) == ([], InvalidLength)
  {
    hide LengthOf;
    assert (part + rest)[..4] == Frame(m)[..4] == Header(|m|);
    HeaderGivesLength(|m|);
  }

  /** Whatever the chunks, exactly the messages sent are received if and only if all are deliverable. */
  lemma {:induction false} FramingRoundTrip(ms: seq<Message>)
    requires forall i :: 0 <= i < |ms| ==> Packable(ms[i])
    ensures Decode(EncodeAll(ms)) == (ms, ClientClosed) <==> forall i :: 0 <= i < |ms| ==> Deliverable(ms[i])
    ensures forall m: Message :: Deliverable(m) <==> 1 <= |m| <= 0x10_0000
  {
    DecodeEncoded(ms);
    AllDeliverable(ms);
    var n := DeliverablePrefix(ms);
    assert n == |ms| ==> ms[..n] == ms;
  }

  lemma {:induction false} AllDeliverable(ms: seq<Message>)
    ensures DeliverablePrefix(ms) == |ms| <==> forall i :: 0 <= i < |ms| ==> Deliverable(ms[i])
  {
    if ms != [] {
      AllDeliverable(ms[1..]);
      assert forall i :: 0 < i < |ms| ==> ms[i] == ms[1..][i - 1];
      if forall i :: 0 <= i < |ms| ==> Deliverable(ms[i]) {
        assert forall i :: 0 <= i < |ms| - 1 ==> ms[1..][i] == ms[i + 1];
      }
    }
  }

  /** The most significant byte comes first. */
  lemma HeaderIsBigEndian()
    ensures Header(0x0102_0304) == [1, 2, 3, 4] && LengthOf([1, 2, 3, 4]) == 0x0102_0304
  {
  }

  lemma EncodeFirst(ms: seq<Message>, j: nat)
    requires 0 < j <= |ms| && forall i :: 0 <= i < |ms| ==> Packable(ms[i])
    ensures |EncodeAll(ms[..j])| == |Frame(ms[0])| + |EncodeAll(ms[1..][..j - 1])|
  {
    assert ms[..j][0] == ms[0] && ms[..j][1..] == ms[1..][..j - 1];
  }

  /**
   A connection that is cut at any point delivers exactly the messages that are there in full,
   and then says whether it was cut inside a body, or before that.
   */
  lemma {:induction false} CutStream(ms: seq<Message>, k: nat) returns (j: nat)
    requires forall i :: 0 <= i < |ms| ==> Packable(ms[i]) && Deliverable(ms[i])
    requires k <= |EncodeAll(ms)|
    ensures j <= |ms| && |EncodeAll(ms[..j])| <= k
    ensures j < |ms| ==> k < |EncodeAll(ms[..j])| + |Frame(ms[j])|
    ensures Decode(EncodeAll(ms)[..k]).0 == ms[..j]
    ensures Decode(EncodeAll(ms)[..k]).1 == if k - |EncodeAll(ms[..j])| < 4 then ClientClosed else IncompleteBody
    decreases |ms|
  {
    hide Decode, Header;
    var cut := EncodeAll(ms)[..k];
    DecodeStep(cut);
    j := 0;
    if ms != [] {
      var m, rest := ms[0], EncodeAll(ms[1..]);
      var whole := |Frame(m)|;
      assert EncodeAll(ms) == Frame(m) + rest;
      assert EncodeAll(ms[..0]) == [];
      hide EncodeAll;
      if k >= whole {
        var l := CutStream(ms[1..], k - whole);
        j := l + 1;
        EncodeFirst(ms, j);
        assert cut == Frame(m) + rest[..k - whole];
        DecodeFrame(m, rest[..k - whole]);
        assert ms[..j] == [m] + ms[1..][..l];
      } else if k >= 4 {
        assert cut[..4] == Header(|m|);
        HeaderGivesLength(|m|);
      }
    }
  }
}
