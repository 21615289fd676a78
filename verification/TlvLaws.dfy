/** Lengths in their shortest form, and one file control information template, byte for byte. */
module TlvLaws {
  import opened Common
  import opened Text
  import opened Tlv

  // ----- Lengths -----

  lemma OneByteLength(l: seq<byte>, n: nat)
    requires IsLength(l, n) && |l| == 2
    ensures l == [0x81, n] && n < 0x100
  {
    BigEndianPair(0, l[1]);
    assert l[1..] == [l[1]];
  }

  lemma TwoByteLength(l: seq<byte>, n: nat)
    requires IsLength(l, n) && |l| == 3
    ensures l == [0x82, n / 256, n % 256]
  {
    BigEndianPair(l[1], l[2]);
    assert l[1..] == [l[1], l[2]];
  }

  /**
   * A length that is written at all is below 65,536, and its length field is the one shortest that X.690, 8.1.3
   * allows for it: one byte below 0x80, and as few bytes of the long form as hold it from there on.
   */
  lemma ShortestLength(n: nat)
    ensures EncodeLength(n).Ok? <==> n < 0x1_0000
    ensures EncodeLength(n).Ok? ==>
              var v := EncodeLength(n).value;
              IsLength(v, n) && forall l: seq<byte> :: IsLength(l, n) ==> l == v || |l| > |v|
  {
    if n < 0x1_0000 {
      var v := EncodeLength(n).value;
      EncodeLengthIsLength(n);
      forall l: seq<byte> | IsLength(l, n) ensures l == v || |l| > |v| {
        if |l| == 2 {
          OneByteLength(l, n);
        } else if |l| == 3 {
          TwoByteLength(l, n);
        }
      }
    }
  }

  // ----- A sample -----

  /** 6F 07, and in it 84 05 and the first five bytes of an application identifier. */
  const FCI: seq<byte> := [0x6F, 0x07, 0x84, 0x05, 0xA0, 0x00, 0x00, 0x00, 0x03]

  const AID: seq<byte> := [0xA0, 0x00, 0x00, 0x00, 0x03]

  const NAME := Node("84", 5, AID, false, [])

  const TEMPLATE := Node("6F", 7, [0x84, 0x05] + AID, true, [NAME])

  lemma TagText()
    ensures BytesToHex([0x84]) == "84" && BytesToHex([0x6F]) == "6F" && BytesToHex([0x9F, 0x02]) == "9F02"
  {
    assert [0x84][1..] == [] && [0x6F][1..] == [] && [0x9F, 0x02][1..] == [0x02] && [0x02][1..] == [];
    assert HEX[8] == '8' && HEX[4] == '4' && HEX[6] == '6' && HEX[15] == 'F' && HEX[9] == '9' && HEX[0] == '0';
    assert HEX[2] == '2';
    assert BytesToHex([0x02]) == "02";
  }

  /** A tag may be written in either case, and with blanks. */
  lemma EitherCase()
    ensures ParsePair('9', 'F') == Some(0x9F) && ParsePair('9', 'f') == Some(0x9F) && StripBlanks("6 F") == "6F"
  {
    assert "6 F"[1..] == " F" && " F"[1..] == "F" && "F"[1..] == "";
    assert StripBlanks("F") == "F" && StripBlanks(" F") == "F";
  }

  /** What `parseInt` makes of pairs that are not two digits: a sign counts, and reading stops at what is no digit. */
  lemma OddPairs()
    ensures ParsePair('+', '5') == Some(0x05) && ParsePair('-', '1') == Some(0xFF) && ParsePair('-', '0') == Some(0)
    ensures ParsePair('5', 'g') == Some(0x05) && ParsePair('g', '5') == None && ParsePair('0', 'x') == None
  {
  }

  lemma NameStarts()
    ensures StartsWith([0x84, 0x05] + AID, NAME, 1, 2) && ([0x84, 0x05] + AID)[7..] == []
  {
    TagText();
    var b := [0x84, 0x05] + AID;
    assert b[..1] == [0x84] && b[1..2] == [0x05] && b[2..2 + 5] == AID;
  }

  lemma NameCovered()
    ensures Covers([NAME], [0x84, 0x05] + AID)
  {
    NameStarts();
    CoversCons(NAME, [], [0x84, 0x05] + AID, 1, 2);
    assert [NAME] + [] == [NAME];
  }

  lemma TemplateStarts()
    ensures StartsWith(FCI, TEMPLATE, 1, 2) && FCI[9..] == []
  {
    TagText();
    assert FCI[..1] == [0x6F] && FCI[1..2] == [0x07] && FCI[2..2 + 7] == [0x84, 0x05] + AID;
  }

  lemma TemplateCovered()
    ensures Covers([TEMPLATE], FCI)
  {
    TemplateStarts();
    NameCovered();
    CoversCons(TEMPLATE, [], FCI, 1, 2);
    assert [TEMPLATE] + [] == [TEMPLATE];
  }

  /** The template decodes to one constructed node with one primitive child, found by its tag in either case. */
  lemma Sample()
    ensures Decode(FCI) == Nodes([TEMPLATE])
    ensures FindTag([TEMPLATE], "84") == Some(NAME) && FindTag([TEMPLATE], "6f") == Some(TEMPLATE)
  {
    TemplateCovered();
    DecodeExact([TEMPLATE], FCI);
    assert [NAME][1..] == [] && [TEMPLATE][1..] == [];
    UpperTags();
    assert FindTag([NAME], "84") == Some(NAME);
  }

  lemma UpperTags()
    ensures ToUpper("84") == "84" && ToUpper("6f") == "6F"
  {
  }
}
