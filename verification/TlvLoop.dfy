/**
 * The TLV decoding loop on every input, also on length fields that signed 32-bit arithmetic reads as negative: when
 * it ends, and what it then returns.
 */
module TlvLoop {
  import opened Common
  import opened Tlv
  import opened PassLoop

  // ----- One pass -----

  /** `bytes.slice(i, j)` of a typed array: a negative end counts from the back. */
  function JsSlice(b: seq<byte>, i: nat, j: int): (s: seq<byte>)
    requires i <= |b|
    ensures |s| <= |b| - i
  {
    var end := if j >= |b| then |b| else if j >= 0 then j else if |b| + j >= 0 then |b| + j else 0;
    if end <= i then [] else b[i..end]
  }

  /** The pass of the loop from an offset inside the input: an element, and the offset it leads to. */
  function PassAt(b: seq<byte>, at: nat): (p: Pass)
    requires at < |b|
    ensures p.Pass? ==> |p.value| < |b|
  {
    var te := TagEnd(b, at);
    match ReadLength(b, te)
    case BadLength => Refused
    case Len(n, next) =>
      if next + n > |b| then Refused
      else Pass(BytesToHex(b[at..te]), n, JsSlice(b, next, next + n), ConstructedBit(b[at]), next + n)
  }

  function PassOf(b: seq<byte>, at: int): Pass { if 0 <= at < |b| then PassAt(b, at) else Refused }

  lemma PassesShrink()
    ensures Shrinking(PassOf)
  {
  }

  /** `decodeTlv`, given so many passes for each of its loops. */
  function Within(b: seq<byte>, passes: nat): Outcome {
    PassesShrink();
    Loop(PassOf, b, 0, passes, passes)
  }

  /** `decodeTlv`, if no loop makes more passes than its input has bytes. */
  function Decoding(b: seq<byte>): Outcome { Within(b, |b|) }

  // ----- When it ends -----

  /** The decoder ends at all if and only if no loop needs more passes than its input has bytes. */
  lemma EndsExactly(b: seq<byte>)
    ensures (exists p: nat :: Within(b, p) != Runs) <==> Decoding(b) != Runs
    ensures forall p: nat :: Within(b, p) != Runs ==> Within(b, p) == Decoding(b)
  {
    PassesShrink();
    forall p: nat | Within(b, p) != Runs ensures Within(b, p) == Decoding(b) {
      EndsTight(PassOf, b, 0, p, p);
    }
    if Decoding(b) != Runs {
      assert Within(b, |b|) != Runs;
    }
  }

  // ----- Lengths below 2^31 -----

  /** Reading at an offset is reading the rest of the input. */
  lemma TagEndShift(b: seq<byte>, at: nat)
    requires at < |b|
    ensures TagEnd(b, at) == at + TagEnd(b[at..], 0)
  {
    if b[at] % 32 == 31 {
      SkipTagShift(b, at, 1);
    }
  }

  lemma {:induction false} SkipTagShift(b: seq<byte>, at: nat, i: nat)
    requires at <= |b| && i <= |b| - at
    ensures SkipTag(b, at + i) == at + SkipTag(b[at..], i)
    decreases |b| - at - i
  {
    if at + i < |b| && b[at + i] >= 0x80 {
      SkipTagShift(b, at, i + 1);
    }
  }

  lemma ReadLengthShift(b: seq<byte>, at: nat, i: nat)
    requires at <= |b|
    ensures ReadLength(b, at + i) == match ReadLength(b[at..], i)
                                     case BadLength => BadLength
                                     case Len(n, next) => Len(n, at + next)
  {
    if at + i < |b| && b[at + i] >= 0x80 {
      var k := b[at + i] - 0x80;
      if at + i + 1 + k <= |b| {
        assert b[at + i + 1..at + i + 1 + k] == b[at..][i + 1..i + 1 + k];
      }
    }
  }

  lemma HeaderAhead(b: seq<byte>, offset: nat)
    requires offset < |b|
    ensures var rest := b[offset..];
            && TagEnd(b, offset) == offset + TagEnd(rest, 0)
            && ReadLength(b, TagEnd(b, offset)) == match ReadLength(rest, TagEnd(rest, 0))
                                                   case BadLength => BadLength
                                                   case Len(n, next) => Len(n, offset + next)
  {
    TagEndShift(b, offset);
    ReadLengthShift(b, offset, TagEnd(b[offset..], 0));
  }

  lemma SliceAhead(b: seq<byte>, offset: nat, i: nat, j: nat)
    requires offset <= i <= j <= |b|
    ensures b[offset..][i - offset..j - offset] == b[i..j]
  {
  }

  /** The element at an offset, told by the offsets of its parts. */
  lemma FirstAhead(b: seq<byte>, offset: nat)
    requires offset < |b|
    ensures FirstElement(b[offset..]) ==
            match ReadLength(b, TagEnd(b, offset))
            case BadLength => Fails(Malformed)
            case Len(n, next) =>
              if n < 0 then Fails(NegativeLength)
              else if next + n > |b| then Fails(Malformed)
              else Element(BytesToHex(b[offset..TagEnd(b, offset)]), b[next..next + n],
                           ConstructedBit(b[offset]), b[next + n..])
  {
    HeaderAhead(b, offset);
    var te := TagEnd(b, offset);
    var f := ReadLength(b, te);
    if f.Len? && f.n >= 0 && f.next + f.n <= |b| {
      SliceAhead(b, offset, offset, te);
      SliceAhead(b, offset, f.next, f.next + f.n);
      assert b[offset..][f.next + f.n - offset..] == b[f.next + f.n..];
    }
  }

  function FirstOf(b: seq<byte>): Head { if b == [] then Fails(Malformed) else FirstElement(b) }

  lemma FirstCuts()
    ensures Cutting(FirstOf)
  {
  }

  lemma {:induction false} DecodeCuts(b: seq<byte>)
    requires Cutting(FirstOf)
    ensures Decode(b) == Cut(FirstOf, b)
    decreases |b|
  {
    if b != [] {
      var h := FirstElement(b);
      if h.Element? {
        DecodeCuts(h.value);
        DecodeCuts(h.tail);
      }
    }
  }

  lemma FirstMatches(b: seq<byte>, at: nat)
    requires at < |b|
    ensures Matches(FirstOf, PassOf, b, at)
  {
    FirstAhead(b, at);
  }

  /**
   * On every input whose length fields stay below 2^31 the loop ends, and returns or throws what the grammar's
   * decoder says.
   */
  lemma EndsBelow31Bits(b: seq<byte>)
    requires Decode(b) != NegativeLength
    ensures Decoding(b) == match Decode(b) case Nodes(ns) => Returns(ns) case _ => Throws
  {
    PassesShrink();
    FirstCuts();
    forall c: seq<byte>, at: nat | at < |c| ensures Matches(FirstOf, PassOf, c, at) {
      FirstMatches(c, at);
    }
    DecodeCuts(b);
    CutIsLoop(FirstOf, PassOf, b, 0, |b|, |b|);
    assert b[0..] == b;
  }

  // ----- An input on which the decoder never ends -----

  const SIX: seq<byte> := [0x04, 0x84, 0xFF, 0xFF, 0xFF, 0xFA]

  lemma SixLength()
    ensures ReadLength(SIX, 1) == Len(-6, 6)
  {
    var l := SIX[2..6];
    assert l == [0xFF, 0xFF, 0xFF, 0xFA];
    assert l[..3] == [0xFF, 0xFF, 0xFF] && l[..3][..2] == [0xFF, 0xFF] && l[..3][..2][..1] == [0xFF];
    assert BigEndian(l[..3][..2][..1]) == 0xFF by {
      assert l[..3][..2][..1][..0] == [];
    }
    assert BigEndian(l[..3][..2]) == 0xFFFF;
    assert BigEndian(l[..3]) == 0xFFFFFF;
    assert BigEndian(l) == 0xFFFFFFFA;
    FoldLengthExact(l);
  }

  /** A length of -6 after a header of six bytes leads back to the start: no number of passes is enough. */
  lemma NegativeLengthLoops()
    ensures Decode(SIX) == NegativeLength && forall p: nat :: Within(SIX, p) == Runs
  {
    SixLength();
    PassesShrink();
    assert PassOf(SIX, 0) == Pass(BytesToHex(SIX[..1]), -6, [], false, 0);
    forall p: nat ensures Within(SIX, p) == Runs {
      assert After(PassOf, SIX, 0, 0, p) == Some(0);
      RecursForever(PassOf, SIX, 0, 1, p, p);
    }
  }
}
