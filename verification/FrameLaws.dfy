/** Frames byte by byte: the order of the length bytes, and the lengths at which a connection is given up. */
module FrameLaws {
  import opened Common
  import opened Framing

  /** Four length bytes, the lowest first, on both ends of the bridge. */
  function BridgeBytes(body: seq<byte>): seq<byte> {
    var n := |body|;
    [n % 256, n / 256 % 256, n / 65_536 % 256, n / 16_777_216 % 256] + body
  }

  /** Two, the highest first, at the ISO 8583 listener. */
  function IsoBytes(body: seq<byte>): seq<byte> { [|body| / 256 % 256, |body| % 256] + body }

  lemma FrameBytes(f: Format, body: seq<byte>)
    ensures Frame(f, body) == if f.IsoTcp? then IsoBytes(body) else BridgeBytes(body)
  {
  }

  lemma FrameParts(f: Format, body: seq<byte>)
    requires Carried(f, |body|)
    ensures var b, h := Frame(f, body), HeaderSize(f);
            |b| == h + |body| && BodyLength(f, b) == |body| && b[h..h + |body|] == body && b[h + |body|..] == []
  {
    var b := Frame(f, body);
    assert b[..HeaderSize(f)] == Header(f, |body|);
    HeaderReads(f, |body|, b);
  }

  lemma ReceiveOne(f: Format, b: seq<byte>)
    ensures Receive(f, [b]) == Extract(f, b)
  {
    assert [b][..0] == [] && [] + b == b;
    assert Extract(f, b) == Received([] + Extract(f, b).bodies, Extract(f, b).rest, Extract(f, b).closed);
  }

  /**
   * The bridge server takes a frame of up to a million bytes and closes on a longer one; the client closes on an empty
   * one too; the ISO 8583 listener takes every length that its two bytes can carry.
   */
  lemma FrameTaken(body: seq<byte>)
    requires |body| < 0x1_0000_0000
    ensures Receive(Bridge, [BridgeBytes(body)]) ==
            if |body| <= 1_000_000 then Received([body], [], false) else Received([], BridgeBytes(body), true)
    ensures Receive(Client, [BridgeBytes(body)]) ==
            if 1 <= |body| <= 1_000_000 then Received([body], [], false) else Received([], BridgeBytes(body), true)
    ensures |body| < 0x1_0000 ==> Receive(IsoTcp, [IsoBytes(body)]) == Received([body], [], false)
  {
    TakenOn(Bridge, body);
    TakenOn(Client, body);
    if |body| < 0x1_0000 {
      TakenOn(IsoTcp, body);
    }
  }

  lemma TakenOn(f: Format, body: seq<byte>)
    requires Carried(f, |body|)
    ensures var b := if f.IsoTcp? then IsoBytes(body) else BridgeBytes(body);
            Receive(f, [b]) == if Refused(f, |body|) then Received([], b, true) else Received([body], [], false)
  {
    FrameBytes(f, body);
    FrameParts(f, body);
    var b := Frame(f, body);
    ReceiveOne(f, b);
    assert Extract(f, []) == Received([], [], false);
    assert [body] + [] == [body];
  }
}
