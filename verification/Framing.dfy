/** Length-prefixed frames over a byte stream that arrives in arbitrary chunks. */
module Framing {
  import opened Common

  /** The bridge server, the bridge client, and the ISO 8583 listener. */
  datatype Format = Bridge | Client | IsoTcp

  function HeaderSize(f: Format): nat { if f.IsoTcp? then 2 else 4 }

  function LittleEndian(x: int, y: int, z: int, w: int): int { x + 256 * y + 65536 * z + 16777216 * w }

  function BodyLength(f: Format, b: seq<byte>): nat
    requires |b| >= HeaderSize(f)
  {
    if f.IsoTcp? then BigEndian([b[0], b[1]]) else LittleEndian(b[0], b[1], b[2], b[3])
  }

  /** The lengths at which a receiver gives up the connection. */
  predicate Refused(f: Format, n: nat) {
    match f
    case Bridge => n > 1_000_000
    case Client => n == 0 || n > 1_000_000
    case IsoTcp => false
  }

  // ----- Receiving -----

  /** What a receiver has handed on, what it still holds, and whether it has closed the connection. */
  datatype Received = Received(bodies: seq<seq<byte>>, rest: seq<byte>, closed: bool)

  function Extract(f: Format, b: seq<byte>): Received
    decreases |b|
  {
    var h := HeaderSize(f);
    if |b| < h then Received([], b, false)
    else
      var n := BodyLength(f, b);
      if Refused(f, n) then Received([], b, true)
      else if |b| < h + n then Received([], b, false)
      else
        Push(b[h..h + n], Extract(f, b[h + n..]))
  }

  function Push(body: seq<byte>, r: Received): Received { r.(bodies := [body] + r.bodies) }

  /** One `data` event. A destroyed socket has none. */
  function Feed(f: Format, r: Received, chunk: seq<byte>): Received {
    if r.closed then r
    else
      var more := Extract(f, r.rest + chunk);
      Received(r.bodies + more.bodies, more.rest, more.closed)
  }

  function Receive(f: Format, chunks: seq<seq<byte>>): Received {
    if chunks == [] then Received([], [], false) else Feed(f, Receive(f, chunks[..|chunks| - 1]), chunks[|chunks| - 1])
  }

  function Join(chunks: seq<seq<byte>>): seq<byte> {
    if chunks == [] then [] else Join(chunks[..|chunks| - 1]) + chunks[|chunks| - 1]
  }

  // ----- Sending -----

  function Header(f: Format, n: nat): seq<byte> {
    if f.IsoTcp? then [n / 256 % 256, n % 256] else [n % 256, n / 256 % 256, n / 65536 % 256, n / 16777216 % 256]
  }

  /** The lengths that a header can carry; a server's sender throws on any other. */
  predicate Carried(f: Format, n: nat) { n < if f.IsoTcp? then 0x1_0000 else 0x1_0000_0000 }

  /** A body that the receiver takes. */
  predicate Taken(f: Format, body: seq<byte>) { Carried(f, |body|) && !Refused(f, |body|) }

  function Frame(f: Format, body: seq<byte>): seq<byte> { Header(f, |body|) + body }

  function Wire(f: Format, bodies: seq<seq<byte>>): seq<byte> {
    if bodies == [] then [] else Frame(f, bodies[0]) + Wire(f, bodies[1..])
  }

  lemma HeaderReads(f: Format, n: nat, b: seq<byte>)
    requires Carried(f, n) && |b| >= HeaderSize(f) && b[..HeaderSize(f)] == Header(f, n)
    ensures BodyLength(f, b) == n
  {
    var head := b[..HeaderSize(f)];
    assert head[0] == b[0] && head[1] == b[1];
    if f.IsoTcp? {
      Digits2(n);
    } else {
      assert head[2] == b[2] && head[3] == b[3];
      Digits4(n);
    }
  }

  lemma Digits2(n: nat)
    requires n < 0x1_0000
    ensures BigEndian([n / 256 % 256, n % 256]) == n
  {
    BigEndianPair(n / 256 % 256, n % 256);
  }

  lemma Digits4(n: nat)
    requires n < 0x1_0000_0000
    ensures LittleEndian(n % 256, n / 256 % 256, n / 65536 % 256, n / 16777216 % 256) == n
  {
    var a := n / 256;
    var b := a / 256;
    assert n / 65536 == b && n / 16777216 == b / 256;
  }

  lemma HeaderOfLength(f: Format, b: seq<byte>)
    requires |b| >= HeaderSize(f)
    ensures b[..HeaderSize(f)] == Header(f, BodyLength(f, b)) && Carried(f, BodyLength(f, b))
  {
    if f.IsoTcp? {
      TwoBytes(b[0], b[1]);
    } else {
      FourBytes(b[0], b[1], b[2], b[3]);
    }
  }

  lemma TwoBytes(x: byte, y: byte)
    ensures var n := BigEndian([x, y]); n < 0x1_0000 && n / 256 % 256 == x && n % 256 == y
  {
    BigEndianPair(x, y);
  }

  lemma FourBytes(x: byte, y: byte, z: byte, w: byte)
    ensures var n := LittleEndian(x, y, z, w);
            n % 256 == x && n / 256 % 256 == y && n / 65536 % 256 == z && n / 16777216 % 256 == w
  {
    var n := LittleEndian(x, y, z, w);
    assert n / 256 == y + 256 * z + 65536 * w;
    assert n / 65536 == z + 256 * w;
  }

  // ----- Chunking does not matter -----

  /** After the first frame, extraction goes on with what follows it. */
  lemma ExtractFrame(f: Format, body: seq<byte>, after: seq<byte>, b: seq<byte>)
    requires Taken(f, body) && b == Frame(f, body) + after
    ensures Extract(f, b) == Push(body, Extract(f, after))
  {
    var h := HeaderSize(f);
    assert b[..h] == Header(f, |body|);
    HeaderReads(f, |body|, b);
    assert b[h..h + |body|] == body && b[h + |body|..] == after;
  }

  /** A stream either starts with a whole frame that the receiver takes, or waits, or is refused. */
  lemma FirstFrame(f: Format, b: seq<byte>) returns (body: seq<byte>, after: seq<byte>)
    requires Extract(f, b).bodies != []
    ensures Taken(f, body) && b == Frame(f, body) + after && |after| < |b|
  {
    var h, n := HeaderSize(f), BodyLength(f, b);
    HeaderOfLength(f, b);
    body, after := b[h..h + n], b[h + n..];
    CutInThree(b, h, h + n);
  }

  lemma CutInThree(b: seq<byte>, i: nat, j: nat)
    requires i <= j <= |b|
    ensures b == b[..i] + b[i..j] + b[j..]
  {
  }

  lemma RefusedStays(f: Format, b: seq<byte>, c: seq<byte>)
    requires Extract(f, b).bodies == [] && Extract(f, b).closed
    ensures Extract(f, b + c) == Received([], b + c, true)
  {
    assert BodyLength(f, b + c) == BodyLength(f, b);
  }

  /** More bytes: a receiver that is still open goes on from what it holds; a closed one has said its last. */
  lemma {:induction false} ExtractExtends(f: Format, b: seq<byte>, c: seq<byte>)
    ensures Extends(f, Extract(f, b), c, Extract(f, b + c))
    decreases |b|
  {
    if Extract(f, b).bodies == [] {
      NothingYet(f, b, c);
    } else {
      var body, after := FirstFrame(f, b);
      ExtractExtends(f, after, c);
      FrameExtends(f, body, after, b, c);
    }
  }

  lemma NothingYet(f: Format, b: seq<byte>, c: seq<byte>)
    requires Extract(f, b).bodies == []
    ensures Extends(f, Extract(f, b), c, Extract(f, b + c))
  {
    if Extract(f, b).closed {
      RefusedStays(f, b, c);
    } else {
      assert Extract(f, b).rest == b;
      assert [] + Extract(f, b + c).bodies == Extract(f, b + c).bodies;
    }
  }

  lemma FrameExtends(f: Format, body: seq<byte>, after: seq<byte>, b: seq<byte>, c: seq<byte>)
    requires Taken(f, body) && b == Frame(f, body) + after && Extends(f, Extract(f, after), c, Extract(f, after + c))
    ensures Extends(f, Extract(f, b), c, Extract(f, b + c))
  {
    LongerFrame(f, body, after, b, c);
    ExtractFrame(f, body, after, b);
    ExtendsMore(f, body, Extract(f, after), c, Extract(f, after + c));
  }

  lemma LongerFrame(f: Format, body: seq<byte>, after: seq<byte>, b: seq<byte>, c: seq<byte>)
    requires Taken(f, body) && b == Frame(f, body) + after
    ensures Extract(f, b + c) == Push(body, Extract(f, after + c))
  {
    Regroup(Frame(f, body), after, b, c);
    ExtractFrame(f, body, after + c, b + c);
  }

  lemma Regroup(x: seq<byte>, y: seq<byte>, b: seq<byte>, c: seq<byte>)
    requires b == x + y
    ensures b + c == x + (y + c)
  {
  }

  predicate Extends(f: Format, r: Received, c: seq<byte>, whole: Received) {
    && (r.closed ==> whole.closed && whole.bodies == r.bodies)
    && (!r.closed ==> whole == Feed(f, r, c))
  }

  lemma ExtendsMore(f: Format, body: seq<byte>, r: Received, c: seq<byte>, whole: Received)
    requires Extends(f, r, c, whole)
    ensures Extends(f, Push(body, r), c, Push(body, whole))
  {
    FeedAfter(f, body, r, c);
  }

  lemma FeedAfter(f: Format, body: seq<byte>, r: Received, c: seq<byte>)
    ensures Feed(f, Push(body, r), c) == Push(body, Feed(f, r, c))
  {
    var more := Extract(f, r.rest + c).bodies;
    assert [body] + r.bodies + more == [body] + (r.bodies + more);
  }

  /** Whatever the chunks, the receiver hands on what a single read of the whole stream would. */
  lemma {:induction false} ReceiveIsExtract(f: Format, chunks: seq<seq<byte>>)
    ensures var r, whole := Receive(f, chunks), Extract(f, Join(chunks));
            r.bodies == whole.bodies && r.closed == whole.closed && (!r.closed ==> r == whole)
  {
    if chunks != [] {
      var init, last := chunks[..|chunks| - 1], chunks[|chunks| - 1];
      ReceiveIsExtract(f, init);
      ExtractExtends(f, Join(init), last);
    }
  }

  /** Two ways of cutting one stream deliver the same bodies in the same order, and keep the same bytes while open. */
  lemma ChunkingIrrelevant(f: Format, a: seq<seq<byte>>, b: seq<seq<byte>>)
    requires Join(a) == Join(b)
    ensures Receive(f, a).bodies == Receive(f, b).bodies && Receive(f, a).closed == Receive(f, b).closed
    ensures !Receive(f, a).closed ==> Receive(f, a) == Receive(f, b)
  {
    ReceiveIsExtract(f, a);
    ReceiveIsExtract(f, b);
  }

  // ----- Nothing is lost or made up -----

  predicate AllTaken(f: Format, bodies: seq<seq<byte>>) { forall i :: 0 <= i < |bodies| ==> Taken(f, bodies[i]) }

  /** Too short for a header, or for the body that its header announces. */
  predicate Incomplete(f: Format, b: seq<byte>) {
    |b| < HeaderSize(f) || (!Refused(f, BodyLength(f, b)) && |b| < HeaderSize(f) + BodyLength(f, b))
  }

  predicate Oversized(f: Format, b: seq<byte>) { |b| >= HeaderSize(f) && Refused(f, BodyLength(f, b)) }

  /** `b` is these bodies, each in its frame, and then a rest that holds no further frame. */
  predicate Splits(f: Format, b: seq<byte>, r: Received) {
    && b == Wire(f, r.bodies) + r.rest && AllTaken(f, r.bodies)
    && if r.closed then Oversized(f, r.rest) else Incomplete(f, r.rest)
  }

  lemma {:induction false} ExtractSplits(f: Format, b: seq<byte>)
    ensures Splits(f, b, Extract(f, b))
    decreases |b|
  {
    var r := Extract(f, b);
    if r.bodies == [] {
      assert Wire(f, r.bodies) + r.rest == r.rest;
    } else {
      var body, after := FirstFrame(f, b);
      ExtractFrame(f, body, after, b);
      ExtractSplits(f, after);
      SplitsAfterFrame(f, body, after, Extract(f, after));
    }
  }

  lemma SplitsAfterFrame(f: Format, body: seq<byte>, after: seq<byte>, later: Received)
    requires Taken(f, body) && Splits(f, after, later)
    ensures Splits(f, Frame(f, body) + after, Push(body, later))
  {
    WireMore(f, body, later.bodies, later.rest);
  }

  lemma WireMore(f: Format, body: seq<byte>, bodies: seq<seq<byte>>, rest: seq<byte>)
    ensures Wire(f, [body] + bodies) + rest == Frame(f, body) + (Wire(f, bodies) + rest)
  {
    assert ([body] + bodies)[1..] == bodies;
  }

  function PushAll(bodies: seq<seq<byte>>, r: Received): Received {
    if bodies == [] then r else Push(bodies[0], PushAll(bodies[1..], r))
  }

  lemma {:induction false} PushAllBodies(bodies: seq<seq<byte>>, r: Received)
    ensures PushAll(bodies, r) == Received(bodies + r.bodies, r.rest, r.closed)
  {
    if bodies != [] {
      PushAllBodies(bodies[1..], r);
      assert [bodies[0]] + (bodies[1..] + r.bodies) == bodies + r.bodies;
    }
  }

  lemma {:induction false} WireExtracts(f: Format, bodies: seq<seq<byte>>, rest: seq<byte>)
    requires AllTaken(f, bodies)
    ensures Extract(f, Wire(f, bodies) + rest) == PushAll(bodies, Extract(f, rest))
  {
    if bodies == [] {
      assert Wire(f, bodies) + rest == rest;
    } else {
      WireExtracts(f, bodies[1..], rest);
      assert bodies == [bodies[0]] + bodies[1..];
      WireMore(f, bodies[0], bodies[1..], rest);
      ExtractFrame(f, bodies[0], Wire(f, bodies[1..]) + rest, Wire(f, bodies) + rest);
    }
  }

  /** The splitting of a stream is unique, and extraction finds it. */
  lemma ExtractExact(f: Format, b: seq<byte>, r: Received)
    ensures Extract(f, b) == r <==> Splits(f, b, r)
  {
    ExtractSplits(f, b);
    if Splits(f, b, r) {
      WireExtracts(f, r.bodies, r.rest);
      PushAllBodies(r.bodies, Extract(f, r.rest));
      assert Extract(f, r.rest) == Received([], r.rest, r.closed);
      assert r.bodies + [] == r.bodies;
    }
  }

  /** What an open receiver has handed on and what it holds account for every byte that came. */
  lemma BytesAccounted(f: Format, chunks: seq<seq<byte>>)
    requires !Receive(f, chunks).closed
    ensures Splits(f, Join(chunks), Receive(f, chunks))
  {
    ReceiveIsExtract(f, chunks);
    ExtractSplits(f, Join(chunks));
  }

  // ----- Delivery -----

  /** The bodies before the first one that the receiver refuses. */
  function Accepted(f: Format, bodies: seq<seq<byte>>): seq<seq<byte>> {
    if bodies == [] || Refused(f, |bodies[0]|) then [] else [bodies[0]] + Accepted(f, bodies[1..])
  }

  lemma RefusedFrame(f: Format, body: seq<byte>, after: seq<byte>)
    requires Carried(f, |body|) && Refused(f, |body|)
    ensures Extract(f, Frame(f, body) + after) == Received([], Frame(f, body) + after, true)
  {
    var b := Frame(f, body) + after;
    assert b[..HeaderSize(f)] == Header(f, |body|);
    HeaderReads(f, |body|, b);
  }

  lemma {:induction false} WireAccepted(f: Format, bodies: seq<seq<byte>>)
    requires forall i :: 0 <= i < |bodies| ==> Carried(f, |bodies[i]|)
    ensures var r := Extract(f, Wire(f, bodies));
            r.bodies == Accepted(f, bodies) && (r.closed <==> r.bodies != bodies) && (!r.closed ==> r.rest == [])
  {
    if bodies != [] {
      if Refused(f, |bodies[0]|) {
        RefusedFrame(f, bodies[0], Wire(f, bodies[1..]));
      } else {
        WireAccepted(f, bodies[1..]);
        ExtractFrame(f, bodies[0], Wire(f, bodies[1..]), Wire(f, bodies));
        var later := Extract(f, Wire(f, bodies[1..]));
        assert ([bodies[0]] + later.bodies)[1..] == later.bodies;
        assert bodies == [bodies[0]] + bodies[1..];
      }
    }
  }

  /**
   * From sender to receiver: however the network cuts the stream, exactly the bodies sent before the first
   * refused one arrive, in order, and the connection is closed exactly when there is a refused one.
   */
  lemma Delivery(f: Format, bodies: seq<seq<byte>>, chunks: seq<seq<byte>>)
    requires (forall i :: 0 <= i < |bodies| ==> Carried(f, |bodies[i]|)) && Join(chunks) == Wire(f, bodies)
    ensures Receive(f, chunks).bodies == Accepted(f, bodies)
    ensures Receive(f, chunks).closed <==> Accepted(f, bodies) != bodies
    ensures !Receive(f, chunks).closed ==> Receive(f, chunks).rest == []
  {
    ReceiveIsExtract(f, chunks);
    WireAccepted(f, bodies);
  }

  /** While the stream is still coming, what has been handed on is a beginning of what was sent. */
  lemma DeliveredSoFar(f: Format, bodies: seq<seq<byte>>, chunks: seq<seq<byte>>)
    requires (forall i :: 0 <= i < |bodies| ==> Carried(f, |bodies[i]|)) && IsPrefix(Join(chunks), Wire(f, bodies))
    ensures IsPrefix(Receive(f, chunks).bodies, Accepted(f, bodies))
  {
    var came := Join(chunks);
    var missing := Wire(f, bodies)[|came|..];
    assert came + missing == Wire(f, bodies);
    ReceiveIsExtract(f, chunks);
    ExtractExtends(f, came, missing);
    WireAccepted(f, bodies);
  }

  /** The client's sender stores the length in 32 bits; the frame is right exactly when it fits. */
  lemma FrameHeaderExact(f: Format, body: seq<byte>)
    ensures BodyLength(f, Frame(f, body)) == |body| <==> Carried(f, |body|)
  {
    var b := Frame(f, body);
    assert b[..HeaderSize(f)] == Header(f, |body|);
    HeaderOfLength(f, b);
    if Carried(f, |body|) {
      HeaderReads(f, |body|, b);
    }
  }

  // ----- The socket handlers -----

  /** A socket's buffer, with the frames handed to its message handler in order. */
  class FrameSocket {
    const format: Format
    var buffer: seq<byte>
    var handled: seq<seq<byte>>
    var destroyed: bool

    function Contents(): Received
      reads this
    {
      Received(handled, buffer, destroyed)
    }

    constructor (format: Format)
      ensures this.format == format && Contents() == Receive(format, [])
    {
      this.format := format;
      buffer, handled, destroyed := [], [], false;
    }

    method OnData(chunk: seq<byte>)
      modifies this
      ensures Contents() == Feed(format, old(Contents()), chunk)
    {
      if destroyed {
        return;
      }
      ghost var before := handled;
      buffer := buffer + chunk;
      ghost var whole := Extract(format, buffer);
      assert handled + whole.bodies == before + whole.bodies;
      while |buffer| >= HeaderSize(format)
        invariant !destroyed
        invariant var now := Extract(format, buffer);
          now.rest == whole.rest && now.closed == whole.closed && handled + now.bodies == before + whole.bodies
        decreases |buffer|
      {
        var length := BodyLength(format, buffer);
        if Refused(format, length) {
          destroyed := true;
          assert handled + [] == handled;
          return;
        }
        var end := HeaderSize(format) + length;
        if |buffer| < end {
          break;
        }
        var body := buffer[HeaderSize(format)..end];
        var later := Extract(format, buffer[end..]).bodies;
        assert handled + ([body] + later) == handled + [body] + later;
        buffer := buffer[end..];
        handled := handled + [body];
      }
      assert handled + [] == handled;
    }
  }

  /** A connection from its first byte: the handlers see the bodies that the whole stream holds. */
  method Serve(format: Format, chunks: seq<seq<byte>>) returns (handled: seq<seq<byte>>, destroyed: bool)
    ensures handled == Extract(format, Join(chunks)).bodies && destroyed == Extract(format, Join(chunks)).closed
  {
    var socket := new FrameSocket(format);
    for n := 0 to |chunks|
      invariant fresh(socket) && socket.format == format && socket.Contents() == Receive(format, chunks[..n])
    {
      socket.OnData(chunks[n]);
      assert chunks[..n + 1][..n] == chunks[..n];
    }
    assert chunks[..|chunks|] == chunks;
    ReceiveIsExtract(format, chunks);
    handled, destroyed := socket.handled, socket.destroyed;
  }
}
