/** BER-TLV trees: the hexadecimal helpers, the encoder, the decoder, and the grammar they share. */
module Tlv {
  import opened Common
  import opened Text

  datatype Node = Node(tag: string, length: int, value: seq<byte>, isConstructed: bool, children: seq<Node>)

  /** NegativeLength: a length field above 31 bits, which signed 32-bit arithmetic reads as negative. */
  datatype Decoded = Nodes(nodes: seq<Node>) | Malformed | NegativeLength

  datatype EncodeError = BadHex | TooLong

  // ----- Hexadecimal text -----

  function BytesToHex(bs: seq<byte>): string {
    if bs == [] then "" else [HexDigit(bs[0] / 16), HexDigit(bs[0] % 16)] + BytesToHex(bs[1..])
  }

  function StripBlanks(s: string): string {
    if s == "" then "" else if IsBlank(s[0]) then StripBlanks(s[1..]) else [s[0]] + StripBlanks(s[1..])
  }

  /** `parseInt(c0 + c1, 16)` stored in a byte: it takes a sign, and stops at the first character it cannot read. */
  function ParsePair(c0: char, c1: char): Option<byte> {
    match (HexValue(c0), HexValue(c1))
    case (Some(h), Some(l)) => Some(16 * h + l)
    case (Some(h), None) => if c0 == '0' && (c1 == 'x' || c1 == 'X') then None else Some(h)
    case (None, Some(l)) => if c0 == '+' then Some(l) else if c0 == '-' then Some((256 - l) % 256) else None
    case _ => None
  }

  function ParsePairs(s: string): Result<seq<byte>, EncodeError> {
    if |s| < 2 then Ok([])
    else
      match ParsePair(s[0], s[1])
      case None => Err(BadHex)
      case Some(b) =>
        match ParsePairs(s[2..])
        case Err(e) => Err(e)
        case Ok(bs) => Ok([b] + bs)
  }

  function HexToBytes(hex: string): Result<seq<byte>, EncodeError> {
    var cleaned := StripBlanks(hex);
    if |cleaned| % 2 != 0 then Err(BadHex) else ParsePairs(cleaned)
  }

  // ----- Encoding -----

  function EncodeLength(n: nat): Result<seq<byte>, EncodeError> {
    if n < 0x80 then Ok([n])
    else if n < 0x100 then Ok([0x81, n])
    else if n < 0x10000 then Ok([0x82, n / 256, n % 256])
    else Err(TooLong)
  }

  function EncodeTlv(tagHex: string, value: seq<byte>): Result<seq<byte>, EncodeError> {
    match HexToBytes(tagHex)
    case Err(e) => Err(e)
    case Ok(tag) =>
      match EncodeLength(|value|)
      case Err(e) => Err(e)
      case Ok(length) => Ok(tag + length + value)
  }

  function Flatten(parts: seq<seq<byte>>): seq<byte> {
    if parts == [] then [] else parts[0] + Flatten(parts[1..])
  }

  function EncodeTemplate(tagHex: string, children: seq<seq<byte>>): Result<seq<byte>, EncodeError> {
    EncodeTlv(tagHex, Flatten(children))
  }

  // ----- Decoding -----

  function SkipTag(b: seq<byte>, i: nat): (e: nat)
    ensures e >= i
    decreases |b| - i
  {
    if i < |b| && b[i] >= 0x80 then SkipTag(b, i + 1) else i
  }

  /** The offset after the tag at `at`; past the end if the tag is cut short. */
  function TagEnd(b: seq<byte>, at: nat): (e: nat)
    requires at < |b|
    ensures e > at
  {
    if b[at] % 32 == 31 then SkipTag(b, at + 1) + 1 else at + 1
  }

  const TWO31: int := 0x8000_0000
  const TWO32: int := 0x1_0000_0000

  function ToInt32(x: int): int { (x + TWO31) % TWO32 - TWO31 }

  /** `(length << 8) | b` over the length bytes, in signed 32-bit arithmetic. */
  function FoldLength(bs: seq<byte>): int {
    if bs == [] then 0 else ToInt32(FoldLength(bs[..|bs| - 1]) * 256 + bs[|bs| - 1])
  }

  datatype LengthField = Len(n: int, next: nat) | BadLength

  function ReadLength(b: seq<byte>, at: nat): (r: LengthField)
    ensures r.Len? ==> at < r.next <= |b|
  {
    if at >= |b| then BadLength
    else if b[at] < 0x80 then Len(b[at], at + 1)
    else
      var k := b[at] - 0x80;
      if k == 0 || k > 4 || at + 1 + k > |b| then BadLength
      else Len(FoldLength(b[at + 1..at + 1 + k]), at + 1 + k)
  }

  predicate ConstructedBit(first: byte) { (first / 32) % 2 == 1 }

  /** The first element of the input and what follows it, or how reading it fails. */
  datatype Head = Element(tag: string, value: seq<byte>, constructed: bool, tail: seq<byte>) | Fails(failure: Decoded)

  function FirstElement(b: seq<byte>): (h: Head)
    requires b != []
    ensures h.Element? ==> |h.value| < |b| && |h.tail| < |b|
    ensures h.Fails? ==> !h.failure.Nodes?
  {
    var te := TagEnd(b, 0);
    match ReadLength(b, te)
    case BadLength => Fails(Malformed)
    case Len(n, next) =>
      if n < 0 then Fails(NegativeLength)
      else if next + n > |b| then Fails(Malformed)
      else Element(BytesToHex(b[..te]), b[next..next + n], ConstructedBit(b[0]), b[next + n..])
  }

  function Decode(b: seq<byte>): Decoded
    decreases |b|
  {
    if b == [] then Nodes([])
    else
      match FirstElement(b)
      case Fails(failure) => failure
      case Element(tag, value, constructed, tail) =>
        var inner := if constructed then Decode(value) else Nodes([]);
        if !inner.Nodes? then inner
        else Prepend([Node(tag, |value|, value, constructed, inner.nodes)], Decode(tail))
  }

  function Prepend(ns: seq<Node>, r: Decoded): Decoded { if r.Nodes? then Nodes(ns + r.nodes) else r }

  // ----- The grammar -----

  /** X.690, 8.1.2: one byte, or a byte with its low five bits set, then bytes with bit 8 set, then one without. */
  predicate IsTag(t: seq<byte>) {
    && |t| > 0
    && if t[0] % 32 != 31 then |t| == 1
       else |t| >= 2 && t[|t| - 1] < 0x80 && forall i :: 1 <= i < |t| - 1 ==> t[i] >= 0x80
  }

  /** X.690, 8.1.3: the short form, or the long form with one to four bytes. */
  predicate IsLength(l: seq<byte>, n: int) {
    || (|l| == 1 && l[0] < 0x80 && n == l[0])
    || (2 <= |l| <= 5 && l[0] == 0x80 + |l| - 1 && n == BigEndian(l[1..]) && n < 0x8000_0000)
  }

  /** The bytes start with the element of this node: its tag up to `te`, its length field up to `next`, its value. */
  ghost predicate StartsWith(b: seq<byte>, x: Node, te: nat, next: nat) {
    && 0 < te < next && 0 <= x.length && next + x.length <= |b|
    && IsTag(b[..te]) && IsLength(b[te..next], x.length)
    && x.tag == BytesToHex(b[..te]) && x.value == b[next..next + x.length]
    && x.isConstructed == (b[0] / 0x20 % 2 == 1)
  }

  /** The bytes are exactly the elements of the nodes, one after another, and so for each constructed value. */
  ghost predicate Covers(ns: seq<Node>, b: seq<byte>)
    decreases |b|, |ns|, 1
  {
    if ns == [] then b == [] else exists te: nat, next: nat :: CoversFrom(ns, b, te, next)
  }

  ghost predicate CoversFrom(ns: seq<Node>, b: seq<byte>, te: nat, next: nat)
    requires ns != []
    decreases |b|, |ns|, 0
  {
    var x := ns[0];
    && StartsWith(b, x, te, next)
    && (if x.isConstructed then Covers(x.children, x.value) else x.children == [])
    && Covers(ns[1..], b[next + x.length..])
  }

  // ----- The decoder's steps against the grammar -----

  lemma {:induction false} SkipTagRun(b: seq<byte>, i: nat)
    requires i <= |b|
    ensures SkipTag(b, i) <= |b| && forall j :: i <= j < SkipTag(b, i) ==> b[j] >= 0x80
    ensures SkipTag(b, i) < |b| ==> b[SkipTag(b, i)] < 0x80
    decreases |b| - i
  {
    if i < |b| && b[i] >= 0x80 {
      SkipTagRun(b, i + 1);
    }
  }

  lemma {:induction false} SkipTagStops(b: seq<byte>, i: nat, e: nat)
    requires i <= e < |b| && b[e] < 0x80 && forall j :: i <= j < e ==> b[j] >= 0x80
    ensures SkipTag(b, i) == e
    decreases e - i
  {
    if i < e {
      SkipTagStops(b, i + 1, e);
    }
  }

  /** The tag the decoder reads is the one tag the bytes start with. */
  lemma TagEndExact(b: seq<byte>, e: nat)
    requires b != [] && 0 < e <= |b|
    ensures IsTag(b[..e]) <==> TagEnd(b, 0) == e
  {
    SkipTagRun(b, 1);
    var t := b[..e];
    if IsTag(t) && t[0] % 32 == 31 {
      assert forall j :: 1 <= j < e - 1 ==> b[j] == t[j];
      SkipTagStops(b, 1, e - 1);
    }
  }

  lemma {:induction false} BigEndianSmall(bs: seq<byte>)
    requires |bs| <= 3
    ensures BigEndian(bs) <
            if |bs| == 0 then 1 else if |bs| == 1 then 0x100 else if |bs| == 2 then 0x10000 else 0x1000000
    ensures FoldLength(bs) == BigEndian(bs)
  {
    if bs != [] {
      BigEndianSmall(bs[..|bs| - 1]);
    }
  }

  /** In 32-bit arithmetic a length field of up to four bytes reads as itself or, from 2^31 on, as negative. */
  lemma FoldLengthExact(bs: seq<byte>)
    requires |bs| <= 4
    ensures BigEndian(bs) < TWO32
    ensures FoldLength(bs) == if BigEndian(bs) < TWO31 then BigEndian(bs) else BigEndian(bs) - TWO32
  {
    if |bs| <= 3 {
      BigEndianSmall(bs);
    } else {
      BigEndianSmall(bs[..3]);
    }
  }

  /** The length the decoder reads is the one length field at that offset. */
  lemma ReadLengthExact(b: seq<byte>, at: nat, next: nat, n: nat)
    requires at < next <= |b|
    ensures IsLength(b[at..next], n) <==> ReadLength(b, at) == Len(n, next)
  {
    var l := b[at..next];
    assert l[0] == b[at];
    if b[at] >= 0x80 {
      var k := b[at] - 0x80;
      if next == at + 1 + k && k <= 4 {
        assert l[1..] == b[at + 1..at + 1 + k];
        FoldLengthExact(l[1..]);
        if k > 0 {
          FoldLengthExact(b[at + 1..at + 1 + k]);
        }
      }
    }
  }

  /** The element read first is the one that the bytes start with. */
  lemma ElementStarts(b: seq<byte>, x: Node) returns (te: nat, next: nat)
    requires b != [] && FirstElement(b).Element?
    requires x.tag == FirstElement(b).tag && x.value == FirstElement(b).value && x.length == |x.value|
    requires x.isConstructed == FirstElement(b).constructed
    ensures StartsWith(b, x, te, next) && FirstElement(b).tail == b[next + x.length..]
  {
    te := TagEnd(b, 0);
    var f := ReadLength(b, te);
    next := f.next;
    TagEndExact(b, te);
    ReadLengthExact(b, te, next, f.n);
  }

  lemma DecodedFirst(b: seq<byte>) returns (x: Node, rest: seq<Node>)
    requires Decode(b).Nodes? && b != []
    ensures Decode(b) == Nodes([x] + rest) && FirstElement(b).Element?
    ensures x.tag == FirstElement(b).tag && x.value == FirstElement(b).value && x.length == |x.value|
    ensures x.isConstructed == FirstElement(b).constructed
    ensures if x.isConstructed then Decode(x.value) == Nodes(x.children) else x.children == []
    ensures Decode(FirstElement(b).tail) == Nodes(rest)
  {
    var h := FirstElement(b);
    rest := Decode(h.tail).nodes;
    x := Node(h.tag, |h.value|, h.value, h.constructed, if h.constructed then Decode(h.value).nodes else []);
  }

  lemma CoversCons(x: Node, ns: seq<Node>, b: seq<byte>, te: nat, next: nat)
    requires StartsWith(b, x, te, next)
    requires if x.isConstructed then Covers(x.children, x.value) else x.children == []
    requires Covers(ns, b[next + x.length..])
    ensures Covers([x] + ns, b)
  {
    assert ([x] + ns)[1..] == ns;
    assert CoversFrom([x] + ns, b, te, next);
  }

  /**
   * What the decoder returns partitions its input: tag, length and value bytes of the nodes, in order
   * and nothing else, and so inside every constructed value.
   */
  lemma {:induction false} DecodeCovers(b: seq<byte>)
    requires Decode(b).Nodes?
    ensures Covers(Decode(b).nodes, b)
    decreases |b|
  {
    if b != [] {
      var x, rest := DecodedFirst(b);
      if x.isConstructed {
        DecodeCovers(x.value);
      }
      DecodeCovers(FirstElement(b).tail);
      var te, next := ElementStarts(b, x);
      CoversCons(x, rest, b, te, next);
    }
  }

  /** The decoder reads the element that the bytes start with. */
  lemma StartIsElement(b: seq<byte>, x: Node, te: nat, next: nat)
    requires StartsWith(b, x, te, next)
    ensures x.length == |x.value|
    ensures FirstElement(b) == Element(x.tag, x.value, x.isConstructed, b[next + x.length..])
  {
    TagEndExact(b, te);
    ReadLengthExact(b, te, next, x.length);
  }

  /** One element off the front of the input. */
  lemma DecodeStep(b: seq<byte>, x: Node, tail: seq<byte>)
    requires b != [] && FirstElement(b) == Element(x.tag, x.value, x.isConstructed, tail) && x.length == |x.value|
    requires if x.isConstructed then Decode(x.value) == Nodes(x.children) else x.children == []
    ensures Decode(b) == Prepend([x], Decode(tail))
  {
  }

  lemma FirstCovered(ns: seq<Node>, b: seq<byte>) returns (tail: seq<byte>)
    requires Covers(ns, b) && ns != []
    ensures var x := ns[0];
            && b != [] && |x.value| < |b| && |tail| < |b| && x.length == |x.value|
            && FirstElement(b) == Element(x.tag, x.value, x.isConstructed, tail)
            && (if x.isConstructed then Covers(x.children, x.value) else x.children == [])
            && Covers(ns[1..], tail)
  {
    var te: nat, next: nat :| CoversFrom(ns, b, te, next);
    StartIsElement(b, ns[0], te, next);
    tail := b[next + ns[0].length..];
  }

  /** And any nodes whose elements are exactly the input are what the decoder returns. */
  lemma {:induction false} CoversDecode(ns: seq<Node>, b: seq<byte>)
    requires Covers(ns, b)
    ensures Decode(b) == Nodes(ns)
    decreases |b|, |ns|
  {
    if ns != [] {
      var x := ns[0];
      var tail := FirstCovered(ns, b);
      if x.isConstructed {
        CoversDecode(x.children, x.value);
      }
      CoversDecode(ns[1..], tail);
      DecodeStep(b, x, tail);
      assert [x] + ns[1..] == ns;
    }
  }

  /** The decoder accepts exactly the grammar, and each input has at most one reading. */
  lemma DecodeExact(ns: seq<Node>, b: seq<byte>)
    ensures Decode(b) == Nodes(ns) <==> Covers(ns, b)
  {
    if Decode(b) == Nodes(ns) {
      DecodeCovers(b);
    }
    if Covers(ns, b) {
      CoversDecode(ns, b);
    }
  }

  // ----- Hexadecimal round trip -----

  predicate NoBlanks(s: string) { forall i :: 0 <= i < |s| ==> !IsBlank(s[i]) }

  lemma {:induction false} StripKeeps(s: string)
    requires NoBlanks(s)
    ensures StripBlanks(s) == s
  {
    if s != "" {
      StripKeeps(s[1..]);
    }
  }

  lemma {:induction false} HexHasNoBlanks(bs: seq<byte>)
    ensures NoBlanks(BytesToHex(bs)) && |BytesToHex(bs)| % 2 == 0
  {
    if bs != [] {
      HexHasNoBlanks(bs[1..]);
      NoBlanksCons(HexDigit(bs[0] / 16), HexDigit(bs[0] % 16), BytesToHex(bs[1..]));
    }
  }

  lemma NoBlanksCons(a: char, b: char, rest: string)
    requires !IsBlank(a) && !IsBlank(b) && NoBlanks(rest)
    ensures NoBlanks([a, b] + rest)
  {
  }

  lemma {:induction false} ParsePairsHex(bs: seq<byte>)
    ensures ParsePairs(BytesToHex(bs)) == Ok(bs)
  {
    if bs != [] {
      ParsePairsHex(bs[1..]);
      var s := BytesToHex(bs);
      assert s[2..] == BytesToHex(bs[1..]);
      assert ParsePair(s[0], s[1]) == Some(bs[0]);
      assert [bs[0]] + bs[1..] == bs;
    }
  }

  /** Bytes printed as hexadecimal text parse back to themselves. */
  lemma HexRoundTrip(bs: seq<byte>)
    ensures HexToBytes(BytesToHex(bs)) == Ok(bs)
  {
    HexHasNoBlanks(bs);
    StripKeeps(BytesToHex(bs));
    ParsePairsHex(bs);
  }

  // ----- Encoding a forest and decoding it -----

  datatype Tree = Leaf(tag: seq<byte>, data: seq<byte>) | Branch(tag: seq<byte>, children: seq<Tree>)

  /** The encoder applied from the leaves up, as its callers do. */
  function EncodeTree(t: Tree): Result<seq<byte>, EncodeError>
    decreases t, 1
  {
    match t
    case Leaf(tag, data) => EncodeTlv(BytesToHex(tag), data)
    case Branch(tag, children) =>
      match EncodeForest(children)
      case Err(e) => Err(e)
      case Ok(parts) => EncodeTemplate(BytesToHex(tag), parts)
  }

  function EncodeForest(ts: seq<Tree>): Result<seq<seq<byte>>, EncodeError>
    decreases ts, 0
  {
    if ts == [] then Ok([])
    else
      match EncodeTree(ts[0])
      case Err(e) => Err(e)
      case Ok(first) =>
        match EncodeForest(ts[1..])
        case Err(e) => Err(e)
        case Ok(rest) => Ok([first] + rest)
  }

  /** Well-formed tags whose constructed bit says what the tree is. */
  predicate WellTagged(t: Tree)
    decreases t, 1
  {
    IsTag(t.tag) && (t.tag[0] / 0x20 % 2 == 1) == t.Branch? && (t.Branch? ==> WellTaggedForest(t.children))
  }

  predicate WellTaggedForest(ts: seq<Tree>)
    decreases ts, 0
  {
    ts == [] || (WellTagged(ts[0]) && WellTaggedForest(ts[1..]))
  }

  /** How many bytes a tree's value takes. */
  function ValueSize(t: Tree): nat
    decreases t, 1
  {
    match t
    case Leaf(_, data) => |data|
    case Branch(_, children) => ForestSize(children)
  }

  function ForestSize(ts: seq<Tree>): nat
    decreases ts, 0
  {
    if ts == [] then 0
    else
      var n := ValueSize(ts[0]);
      |ts[0].tag| + (if n < 0x80 then 1 else if n < 0x100 then 2 else 3) + n + ForestSize(ts[1..])
  }

  /** Every value, at every depth, is under 65,536 bytes. */
  predicate Fits(ts: seq<Tree>)
    decreases ts
  {
    ts == [] || (ValueSize(ts[0]) < 0x10000 && (ts[0].Branch? ==> Fits(ts[0].children)) && Fits(ts[1..]))
  }

  /** The encoder succeeds exactly on forests whose values fit, and its output has the size computed. */
  lemma {:induction false} EncodeForestFits(ts: seq<Tree>)
    ensures EncodeForest(ts).Ok? <==> Fits(ts)
    ensures EncodeForest(ts).Ok? ==> |Flatten(EncodeForest(ts).value)| == ForestSize(ts)
    decreases ts
  {
    if ts != [] {
      var t := ts[0];
      HexRoundTrip(t.tag);
      if t.Branch? {
        EncodeForestFits(t.children);
      }
      EncodeForestFits(ts[1..]);
      if EncodeForest(ts).Ok? {
        var parts := EncodeForest(ts).value;
        assert parts[1..] == EncodeForest(ts[1..]).value;
      }
    }
  }

  /** The node that a tree decodes to. */
  function NodeOf(t: Tree): Node
    requires EncodeTree(t).Ok?
    decreases t, 1
  {
    match t
    case Leaf(tag, data) => Node(BytesToHex(tag), |data|, data, false, [])
    case Branch(tag, children) =>
      var value := Flatten(EncodeForest(children).value);
      Node(BytesToHex(tag), |value|, value, true, NodesOf(children))
  }

  function NodesOf(ts: seq<Tree>): seq<Node>
    requires EncodeForest(ts).Ok?
    decreases ts, 0
  {
    if ts == [] then [] else [NodeOf(ts[0])] + NodesOf(ts[1..])
  }

  lemma EncodeLengthIsLength(n: nat)
    requires EncodeLength(n).Ok?
    ensures IsLength(EncodeLength(n).value, n)
  {
    var l := EncodeLength(n).value;
    if n >= 0x100 {
      BigEndianPair(n / 256, n % 256);
      assert l[1..] == [n / 256, n % 256];
    } else if n >= 0x80 {
      BigEndianPair(0, n);
      assert l[1..] == [n];
    }
  }

  lemma Slices(t: seq<byte>, l: seq<byte>, v: seq<byte>, rest: seq<byte>)
    ensures var b, te, next := t + l + v + rest, |t|, |t| + |l|;
            && |b| == next + |v| + |rest|
            && b[..te] == t && b[te..next] == l && b[next..next + |v|] == v && b[next + |v|..] == rest
  {
  }

  /** The encoding of one element, in front of any other bytes, starts with that element. */
  lemma EncodedStarts(tag: seq<byte>, l: seq<byte>, rest: seq<byte>, x: Node)
    requires IsTag(tag) && IsLength(l, x.length) && |l| > 0
    requires x.tag == BytesToHex(tag) && x.length == |x.value| && x.isConstructed == (tag[0] / 0x20 % 2 == 1)
    ensures StartsWith(tag + l + x.value + rest, x, |tag|, |tag| + |l|)
    ensures (tag + l + x.value + rest)[|tag| + |l| + x.length..] == rest
  {
    Slices(tag, l, x.value, rest);
    assert (tag + l + x.value + rest)[0] == tag[0];
  }

  /** A tree's encoding is its tag, its length field and its node's value. */
  lemma EncodeTreeParts(t: Tree)
    requires EncodeTree(t).Ok?
    ensures var x := NodeOf(t);
            && EncodeLength(|x.value|).Ok?
            && EncodeTree(t).value == t.tag + EncodeLength(|x.value|).value + x.value
            && x.length == |x.value| && x.tag == BytesToHex(t.tag) && x.isConstructed == t.Branch?
  {
    HexRoundTrip(t.tag);
  }

  lemma FlattenCons(ts: seq<Tree>)
    requires ts != [] && EncodeForest(ts).Ok?
    ensures Flatten(EncodeForest(ts).value) == EncodeTree(ts[0]).value + Flatten(EncodeForest(ts[1..]).value)
  {
    assert EncodeForest(ts).value[1..] == EncodeForest(ts[1..]).value;
  }

  lemma EncodedFirst(t: Tree, rest: seq<byte>) returns (te: nat, next: nat)
    requires WellTagged(t) && EncodeTree(t).Ok?
    ensures StartsWith(EncodeTree(t).value + rest, NodeOf(t), te, next)
    ensures (EncodeTree(t).value + rest)[next + NodeOf(t).length..] == rest
  {
    var x := NodeOf(t);
    EncodeTreeParts(t);
    var l := EncodeLength(|x.value|).value;
    EncodeLengthIsLength(|x.value|);
    EncodedStarts(t.tag, l, rest, x);
    te, next := |t.tag|, |t.tag| + |l|;
  }

  lemma {:induction false} EncodedForestCovered(ts: seq<Tree>)
    requires WellTaggedForest(ts) && EncodeForest(ts).Ok?
    ensures Covers(NodesOf(ts), Flatten(EncodeForest(ts).value))
    decreases ts
  {
    if ts != [] {
      var t := ts[0];
      var rest := Flatten(EncodeForest(ts[1..]).value);
      FlattenCons(ts);
      var te, next := EncodedFirst(t, rest);
      if t.Branch? {
        EncodedForestCovered(t.children);
      }
      EncodedForestCovered(ts[1..]);
      CoversCons(NodeOf(t), NodesOf(ts[1..]), EncodeTree(t).value + rest, te, next);
    }
  }

  /**
   * Round trip: every forest of well-formed tags with values under 65,536 bytes encodes, and decoding
   * the concatenated encodings returns the same tags, lengths, values and nested children.
   */
  lemma RoundTrip(ts: seq<Tree>)
    requires WellTaggedForest(ts) && Fits(ts)
    ensures EncodeForest(ts).Ok?
    ensures Decode(Flatten(EncodeForest(ts).value)) == Nodes(NodesOf(ts))
  {
    EncodeForestFits(ts);
    EncodedForestCovered(ts);
    CoversDecode(NodesOf(ts), Flatten(EncodeForest(ts).value));
  }

  // ----- Looking a tag up -----

  function Upper(c: char): char { if 'a' <= c <= 'z' then (c as int - 32) as char else c }

  function ToUpper(s: string): string { seq(|s|, i requires 0 <= i < |s| => Upper(s[i])) }

  function FindTag(ns: seq<Node>, tag: string): Option<Node> {
    if ns == [] then None
    else if ns[0].tag == ToUpper(tag) then Some(ns[0])
    else
      var child := if ns[0].isConstructed then FindTag(ns[0].children, tag) else None;
      if child.Some? then child else FindTag(ns[1..], tag)
  }

  /** All nodes of a forest, parents before children, left to right. */
  function Preorder(ns: seq<Node>): seq<Node> {
    if ns == [] then []
    else [ns[0]] + (if ns[0].isConstructed then Preorder(ns[0].children) else []) + Preorder(ns[1..])
  }

  function FirstWith(ns: seq<Node>, tag: string): Option<Node> {
    if ns == [] then None else if ns[0].tag == tag then Some(ns[0]) else FirstWith(ns[1..], tag)
  }

  lemma {:induction false} FirstWithConcat(a: seq<Node>, b: seq<Node>, tag: string)
    ensures FirstWith(a + b, tag) == if FirstWith(a, tag).Some? then FirstWith(a, tag) else FirstWith(b, tag)
  {
    if a == [] {
      assert a + b == b;
    } else {
      FirstWithConcat(a[1..], b, tag);
      assert (a + b)[1..] == a[1..] + b;
    }
  }

  /** The recursive search returns the first node with the tag in document order, and none only if there is none. */
  lemma {:induction false} FindTagIsFirst(ns: seq<Node>, tag: string)
    ensures FindTag(ns, tag) == FirstWith(Preorder(ns), ToUpper(tag))
    decreases ns
  {
    if ns != [] {
      var inner := if ns[0].isConstructed then Preorder(ns[0].children) else [];
      if ns[0].isConstructed {
        FindTagIsFirst(ns[0].children, tag);
      }
      FindTagIsFirst(ns[1..], tag);
      FirstWithConcat([ns[0]] + inner, Preorder(ns[1..]), ToUpper(tag));
      FirstWithConcat([ns[0]], inner, ToUpper(tag));
    }
  }
}
