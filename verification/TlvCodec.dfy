/** The TLV routines as they run: an offset loop with recursion, and buffers filled piece by piece. */
module TlvCodec {
  import opened Common
  import opened Tlv
  import opened PassLoop
  import opened TlvLoop

  /** The tag loop: first byte, then bytes up to and including the first without bit 8. */
  method ReadTag(bytes: seq<byte>, offset: nat) returns (te: nat)
    requires offset < |bytes|
    ensures te == TagEnd(bytes, offset)
  {
    te := offset + 1;
    if bytes[offset] % 32 == 31 {
      while te < |bytes| && bytes[te] >= 0x80
        invariant offset + 1 <= te <= |bytes| && SkipTag(bytes, offset + 1) == SkipTag(bytes, te)
      {
        te := te + 1;
      }
      te := te + 1;
    }
  }

  /** The length loop, in signed 32-bit arithmetic. */
  method ReadLengthField(bytes: seq<byte>, te: nat) returns (f: LengthField)
    ensures f == ReadLength(bytes, te)
  {
    if te >= |bytes| {
      return BadLength;
    }
    if bytes[te] < 0x80 {
      return Len(bytes[te], te + 1);
    }
    var count := bytes[te] - 0x80;
    if count == 0 || count > 4 {
      return BadLength;
    }
    var length, at := 0, te + 1;
    for i := 0 to count
      invariant at + i <= |bytes| && length == FoldLength(bytes[at..at + i])
    {
      if at + i >= |bytes| {
        return BadLength;
      }
      assert bytes[at..at + i + 1][..i] == bytes[at..at + i];
      length := ToInt32(length * 256 + bytes[at + i]);
    }
    f := Len(length, at + count);
  }

  // ----- The decoding loop -----

  /** What the nodes so far and the rest of the loop come to. */
  function Joined(done: seq<Node>, r: Outcome): Outcome { if r.Returns? then Returns(done + r.nodes) else r }

  lemma JoinedBefore(done: seq<Node>, x: Node, r: Outcome)
    ensures Joined(done, Before(x, r)) == Joined(done + [x], r)
  {
    if r.Returns? {
      assert done + ([x] + r.nodes) == done + [x] + r.nodes;
    }
  }

  /** The loop of `decodeTlv` from an offset, with the passes and the budget of a whole input. */
  function Rest(bytes: seq<byte>, offset: int, passes: nat): Outcome {
    PassesShrink();
    Loop(PassOf, bytes, offset, passes, |bytes|)
  }

  /** The header of an element and its value's bytes, or `Refused` for a thrown error. */
  method ReadPass(bytes: seq<byte>, offset: nat) returns (p: Pass)
    requires offset < |bytes|
    ensures p == PassAt(bytes, offset)
  {
    var te := ReadTag(bytes, offset);
    var f := ReadLengthField(bytes, te);
    if f.BadLength? || f.next + f.n > |bytes| {
      return Refused;
    }
    var value := JsSlice(bytes, f.next, f.next + f.n);
    p := Pass(BytesToHex(bytes[offset..te]), f.n, value, ConstructedBit(bytes[offset]), f.next + f.n);
  }

  /** The nested decoding of an element ends whenever the loop around it does, with the result that loop sees. */
  lemma InnerEnds(bytes: seq<byte>, offset: nat, passes: nat, p: Pass)
    requires offset < |bytes| && passes > 0 && Rest(bytes, offset, passes) != Runs
    requires p == PassAt(bytes, offset) && p.Pass?
    ensures Shrinking(PassOf)
    ensures p.constructed ==> Decoding(p.value) != Runs && Decoding(p.value) == Inner(PassOf, p, |bytes|)
    ensures var inner := Inner(PassOf, p, |bytes|);
            Rest(bytes, offset, passes) ==
              if !inner.Returns? then inner
              else Before(Node(p.tag, p.length, p.value, p.constructed, inner.nodes), Rest(bytes, p.next, passes - 1))
  {
    PassesShrink();
    LoopStep(PassOf, bytes, offset, passes, |bytes|);
    if p.constructed {
      EndsTight(PassOf, p.value, 0, |bytes|, |bytes|);
    }
  }

  lemma RefusedThrows(bytes: seq<byte>, offset: nat, passes: nat)
    requires offset < |bytes| && passes > 0 && PassAt(bytes, offset).Refused?
    ensures Rest(bytes, offset, passes) == Throws
  {
    PassesShrink();
    LoopStep(PassOf, bytes, offset, passes, |bytes|);
  }

  lemma RestEnds(bytes: seq<byte>, offset: int, passes: nat)
    ensures offset >= |bytes| ==> Rest(bytes, offset, passes) == Returns([])
    ensures offset < 0 ==> Rest(bytes, offset, passes) == Throws
    ensures 0 <= offset < |bytes| && Rest(bytes, offset, passes) != Runs ==> passes > 0
  {
  }

  /** Where the loop stands: given so many passes more or above, its nodes so far and the rest come to the goal. */
  ghost predicate Underway(bytes: seq<byte>, offset: int, passes: nat, out: seq<Node>, goal: Outcome) {
    goal != Runs && forall q: nat :: q >= passes ==> Joined(out, Rest(bytes, offset, q)) == goal
  }

  lemma UnderwayAt(bytes: seq<byte>, offset: int, passes: nat, out: seq<Node>, goal: Outcome)
    requires Underway(bytes, offset, passes, out, goal)
    ensures offset >= |bytes| ==> goal == Returns(out)
    ensures offset < 0 ==> goal == Throws
    ensures 0 <= offset < |bytes| ==> passes > 0 && Rest(bytes, offset, passes) != Runs
    ensures 0 <= offset < |bytes| && Rest(bytes, offset, passes) == Throws ==> goal == Throws
  {
    RestEnds(bytes, offset, passes);
    assert Joined(out, Rest(bytes, offset, passes)) == goal;
    assert out + [] == out;
  }

  lemma PassDone(
    bytes: seq<byte>, offset: nat, passes: nat, out: seq<Node>, goal: Outcome, p: Pass, children: seq<Node>, x: Node)
    requires offset < |bytes| && passes > 0 && Underway(bytes, offset, passes, out, goal)
    requires p == PassAt(bytes, offset) && p.Pass? && Shrinking(PassOf)
    requires Inner(PassOf, p, |bytes|) == Returns(children)
    requires x == Node(p.tag, p.length, p.value, p.constructed, children)
    ensures Underway(bytes, p.next, passes - 1, out + [x], goal)
  {
    forall q: nat | q >= passes - 1 ensures Joined(out + [x], Rest(bytes, p.next, q)) == goal {
      LoopStep(PassOf, bytes, offset, q + 1, |bytes|);
      assert Joined(out, Rest(bytes, offset, q + 1)) == goal;
      JoinedBefore(out, x, Rest(bytes, p.next, q));
    }
  }

  /** One pass: the nodes with one more, and the offset after it, unless it throws. */
  method DecodeElement(bytes: seq<byte>, offset: nat, out: seq<Node>, ghost passes: nat, ghost goal: Outcome)
    returns (ok: bool, more: seq<Node>, next: int)
    requires offset < |bytes| && Underway(bytes, offset, passes, out, goal)
    ensures passes > 0
    ensures if ok then Underway(bytes, next, passes - 1, more, goal) else goal == Throws
    decreases |bytes|, 0
  {
    UnderwayAt(bytes, offset, passes, out, goal);
    var p := ReadPass(bytes, offset);
    if p.Refused? {
      RefusedThrows(bytes, offset, passes);
      return false, out, offset;
    }
    InnerEnds(bytes, offset, passes, p);
    var children: seq<Node> := [];
    if p.constructed {
      var inner := DecodeTlv(p.value);
      if inner.None? {
        return false, out, offset;
      }
      children := inner.value;
    }
    var x := Node(p.tag, p.length, p.value, p.constructed, children);
    PassDone(bytes, offset, passes, out, goal, p, children, x);
    ok, more, next := true, out + [x], p.next;
  }

  /**
   * `decodeTlv` on every input on which it ends: the nodes it returns, or `None` for a thrown error. The loop may
   * move backwards, and ends for all that.
   */
  method DecodeTlv(bytes: seq<byte>) returns (r: Option<seq<Node>>)
    requires Decoding(bytes) != Runs
    ensures Decoding(bytes) == if r.Some? then Returns(r.value) else Throws
    decreases |bytes|, 2
  {
    StartsWhole(bytes);
    r := DecodeElements(bytes, Decoding(bytes));
  }

  /** Its loop, from the start of the input to the goal that is its end. */
  method DecodeElements(bytes: seq<byte>, ghost goal: Outcome) returns (r: Option<seq<Node>>)
    requires Underway(bytes, 0, |bytes|, [], goal)
    ensures goal == if r.Some? then Returns(r.value) else Throws
    decreases |bytes|, 1
  {
    var out: seq<Node> := [];
    var offset: int := 0;
    ghost var passes: nat := |bytes|;
    while offset < |bytes|
      invariant Underway(bytes, offset, passes, out, goal)
      decreases passes
    {
      if offset < 0 {
        UnderwayAt(bytes, offset, passes, out, goal);
        return None;
      }
      var ok, more, next := DecodeElement(bytes, offset, out, passes, goal);
      if !ok {
        return None;
      }
      out, offset, passes := more, next, passes - 1;
    }
    UnderwayAt(bytes, offset, passes, out, goal);
    r := Some(out);
  }

  lemma StartsWhole(bytes: seq<byte>)
    requires Decoding(bytes) != Runs
    ensures Underway(bytes, 0, |bytes|, [], Decoding(bytes))
  {
    PassesShrink();
    forall q: nat | q >= |bytes| ensures Joined([], Rest(bytes, 0, q)) == Decoding(bytes) {
      MorePasses(PassOf, bytes, 0, |bytes|, q, |bytes|, |bytes|);
      var r := Rest(bytes, 0, q);
      assert r.Returns? ==> [] + r.nodes == r.nodes;
    }
  }

  /** In particular on every input whose length fields stay below 2^31, with the result of the grammar's decoder. */
  method DecodeBelow31Bits(bytes: seq<byte>) returns (r: Option<seq<Node>>)
    requires Decode(bytes) != NegativeLength
    ensures r.Some? ==> Decode(bytes) == Nodes(r.value)
    ensures r.None? ==> Decode(bytes) == Malformed
  {
    EndsBelow31Bits(bytes);
    r := DecodeTlv(bytes);
  }

  /** `encodeTlv`: one buffer of the right size, and three pieces copied into it. */
  method EncodeTlvBuffer(tagHex: string, value: seq<byte>) returns (r: Result<seq<byte>, EncodeError>)
    ensures r == EncodeTlv(tagHex, value)
  {
    var tag := HexToBytes(tagHex);
    if tag.Err? {
      return Err(tag.error);
    }
    var length := EncodeLength(|value|);
    if length.Err? {
      return Err(length.error);
    }
    var t, l := tag.value, length.value;
    var out := new byte[|t| + |l| + |value|];
    CopyInto(out, t, 0);
    assert out[..|t|] == t;
    CopyInto(out, l, |t|);
    assert out[..|t| + |l|] == out[..|t|] + out[|t|..|t| + |l|] == t + l;
    CopyInto(out, value, |t| + |l|);
    assert out[..] == out[..|t| + |l|] + out[|t| + |l|..|t| + |l| + |value|];
    r := Ok(out[..]);
  }

  method CopyInto(out: array<byte>, part: seq<byte>, at: nat)
    requires at + |part| <= out.Length
    modifies out
    ensures out[at..at + |part|] == part
    ensures out[..at] == old(out[..at]) && out[at + |part|..] == old(out[at + |part|..])
  {
    for i := 0 to |part|
      invariant out[at..at + i] == part[..i]
      invariant out[..at] == old(out[..at]) && out[at + |part|..] == old(out[at + |part|..])
    {
      out[at + i] := part[i];
    }
  }

  /** `encodeTemplate`: the children copied one after another, then wrapped. */
  method EncodeTemplateBuffer(tagHex: string, children: seq<seq<byte>>) returns (r: Result<seq<byte>, EncodeError>)
    ensures r == EncodeTemplate(tagHex, children)
  {
    var total := Flatten(children);
    var buf := new byte[|total|];
    var off := 0;
    assert children[0..] == children;
    for i := 0 to |children|
      invariant 0 <= off <= buf.Length && off + |Flatten(children[i..])| == buf.Length
      invariant buf[..off] + Flatten(children[i..]) == total
    {
      ghost var before := buf[..off];
      FlattenAt(children, i);
      CopyInto(buf, children[i], off);
      assert buf[..off + |children[i]|] == buf[..off] + buf[off..off + |children[i]|] == before + children[i];
      off := off + |children[i]|;
      assert before + (children[i] + Flatten(children[i + 1..])) == buf[..off] + Flatten(children[i + 1..]);
    }
    assert buf[..off] == buf[..] == total;
    r := EncodeTlvBuffer(tagHex, buf[..]);
  }

  lemma FlattenAt(parts: seq<seq<byte>>, i: nat)
    requires i < |parts|
    ensures Flatten(parts[i..]) == parts[i] + Flatten(parts[i + 1..])
  {
    assert parts[i..][1..] == parts[i + 1..];
  }
}
