/** The wire of a message character by character: padding, length prefixes, bits, and the order of the fields. */
module IsoLaws {
  import opened Common
  import opened Text
  import opened Iso8583
  import opened Iso8583Codec
  import Decimal

  // ----- The table -----

  /** Which fields there are, by kind and length. */
  lemma FieldTable(f: nat)
    ensures DefOf(f) == Some(Def(Numeric, 3)) <==> f in {22, 49, 70}
    ensures DefOf(f) == Some(Def(Numeric, 4)) <==> f in {13, 14}
    ensures DefOf(f) == Some(Def(Numeric, 6)) <==> f in {3, 11, 12}
    ensures DefOf(f) == Some(Def(Numeric, 10)) <==> f == 7
    ensures DefOf(f) == Some(Def(Numeric, 12)) <==> f == 4
    ensures DefOf(f) == Some(Def(Fixed, 2)) <==> f == 39
    ensures DefOf(f) == Some(Def(Fixed, 6)) <==> f == 38
    ensures DefOf(f) == Some(Def(Fixed, 8)) <==> f == 41
    ensures DefOf(f) == Some(Def(Fixed, 12)) <==> f == 37
    ensures DefOf(f) == Some(Def(Fixed, 15)) <==> f == 42
    ensures DefOf(f) == Some(Def(Fixed, 16)) <==> f == 52
    ensures DefOf(f) == Some(Def(LLVar, 19)) <==> f == 2
    ensures DefOf(f) == Some(Def(LLLVar, 120)) <==> f == 54
    ensures DefOf(f).Some? <==> f in {2, 3, 4, 7, 11, 12, 13, 14, 22, 37, 38, 39, 41, 42, 49, 52, 54, 70}
  {
  }

  // ----- One field -----

  /** A fixed field: the value cut or filled with spaces at its end. */
  lemma FixedText(raw: string, n: nat, i: nat)
    requires i < n
    ensures EncodeField(Def(Fixed, n), raw).Some?
    ensures var text := EncodeField(Def(Fixed, n), raw).value;
            |text| == n && text[i] == if i < |raw| then raw[i] else ' '
  {
    if |raw| < n {
      Decimal.Repeated(' ', n - |raw|);
    }
  }

  /** A numeric field: the digits of the value, their last `n` or with zeros in front. */
  lemma NumericText(raw: string, n: nat, i: nat)
    requires i < n
    ensures EncodeField(Def(Numeric, n), raw).Some?
    ensures var text, d := EncodeField(Def(Numeric, n), raw).value, Decimal.OnlyDigits(raw);
            |text| == n && text[i] == if i + |d| >= n then d[i + |d| - n] else '0'
  {
    var d := Decimal.OnlyDigits(raw);
    if |d| < n {
      Decimal.Repeated('0', n - |d|);
    }
  }

  /** Where the value has only digits, those are its digits; any other character makes no difference. */
  lemma DigitsOf(raw: string, a: string, c: char, b: string)
    ensures Decimal.AllDigits(raw) ==> Decimal.OnlyDigits(raw) == raw
    ensures !('0' <= c <= '9') ==> Decimal.OnlyDigits(a + [c] + b) == Decimal.OnlyDigits(a + b)
  {
    if Decimal.AllDigits(raw) {
      Decimal.DigitsStay(raw);
    }
    if !('0' <= c <= '9') {
      Decimal.OthersGo(a, c, b);
    }
  }

  function DigitOf(n: nat): char
    requires n < 10
  {
    "0123456789"[n]
  }

  /** A variable field of up to 99 characters: two digits of its length, and the value; or too long. */
  lemma TwoDigitText(raw: string, n: nat)
    requires n < 100
    ensures EncodeField(Def(LLVar, n), raw) ==
            if |raw| > n then None else Some([DigitOf(|raw| / 10), DigitOf(|raw| % 10)] + raw)
  {
    if |raw| <= n {
      ShowTwo(|raw|);
    }
  }

  /** Three digits, up to 999. */
  lemma ThreeDigitText(raw: string, n: nat)
    requires n < 1000
    ensures EncodeField(Def(LLLVar, n), raw) ==
            if |raw| > n then None
            else Some([DigitOf(|raw| / 100), DigitOf(|raw| / 10 % 10), DigitOf(|raw| % 10)] + raw)
  {
    if |raw| <= n {
      ShowThree(|raw|);
    }
  }

  lemma ShowTwo(n: nat)
    requires n < 100
    ensures Decimal.PadStart(Decimal.Show(n), 2, '0') == [DigitOf(n / 10), DigitOf(n % 10)]
  {
    Decimal.Repeated('0', 1);
    if n >= 10 {
      assert Decimal.Show(n / 10) == [DigitOf(n / 10)];
    }
  }

  lemma ThreeOf(n: nat, s: string)
    requires 100 <= n < 1000 && s == Decimal.Show(n / 10)
    ensures Decimal.Show(n) == s + [DigitOf(n % 10)]
  {
  }

  lemma ShowLong(n: nat)
    requires 100 <= n < 1000
    ensures Decimal.Show(n) == [DigitOf(n / 100), DigitOf(n / 10 % 10), DigitOf(n % 10)]
  {
    var s := Decimal.Show(n / 10);
    Tens(n);
    ShowShort(n / 10);
    ThreeOf(n, s);
  }

  lemma ShowThree(n: nat)
    requires n < 1000
    ensures Decimal.PadStart(Decimal.Show(n), 3, '0') == [DigitOf(n / 100), DigitOf(n / 10 % 10), DigitOf(n % 10)]
  {
    var s := Decimal.Show(n);
    if n < 100 {
      ShowShort(n);
      ZerosInFront(s);
    } else {
      ShowLong(n);
      NoneInFront(s);
    }
  }

  lemma NoneInFront(s: string)
    requires |s| == 3
    ensures Decimal.PadStart(s, 3, '0') == s
  {
  }

  lemma ZerosInFront(s: string)
    requires 1 <= |s| <= 2
    ensures Decimal.PadStart(s, 3, '0') == if |s| == 1 then ['0', '0', s[0]] else ['0', s[0], s[1]]
  {
    Decimal.Repeated('0', 3 - |s|);
  }

  lemma Tens(n: nat)
    requires n < 1000
    ensures n / 10 / 10 == n / 100
  {
  }

  lemma ShowShort(n: nat)
    requires n < 100
    ensures Decimal.Show(n) == if n < 10 then [DigitOf(n)] else [DigitOf(n / 10), DigitOf(n % 10)]
  {
  }

  /** What a fixed field is read back without: white space at its end, which is any of these characters. */
  lemma TrimmedExactly(s: string)
    ensures var t := TrimEnd(s);
            && IsPrefix(t, s) && (forall i :: |t| <= i < |s| ==> White(s[i])) && (t != "" ==> !White(t[|t| - 1]))
  {
    if s != "" && IsBlank(s[|s| - 1]) {
      TrimmedExactly(s[..|s| - 1]);
    }
  }

  predicate White(c: char) {
    || c in {'\t', '\n', '\U{000B}', '\U{000C}', '\r', ' ', '\U{00A0}', '\U{1680}', '\U{2028}', '\U{2029}'}
    || c in {'\U{202F}', '\U{205F}', '\U{3000}', '\U{FEFF}'}
    || 0x2000 <= c as int <= 0x200A
  }

  // ----- The bitmap -----

  /** Each digit of the bitmap stands for four fields, with weights 8, 4, 2 and 1 in ascending order. */
  lemma BitmapWeights(keys: set<nat>, i: nat)
    requires i < 16
    ensures |Bitmap(keys)| == 16
    ensures Bitmap(keys)[i] ==
            "0123456789ABCDEF"[(if 4 * i + 1 in keys then 8 else 0) + (if 4 * i + 2 in keys then 4 else 0) +
                               (if 4 * i + 3 in keys then 2 else 0) + (if 4 * i + 4 in keys then 1 else 0)]
  {
  }

  // ----- The order -----

  function Concat(texts: seq<string>): string { if texts == [] then "" else texts[0] + Concat(texts[1..]) }

  /** The texts of fields, in the order of a list. */
  predicate TextsOf(fields: map<nat, string>, fs: seq<nat>, texts: seq<string>) {
    && |texts| == |fs|
    && forall i :: 0 <= i < |fs| ==>
         fs[i] in fields && DefOf(fs[i]).Some? && EncodeField(DefOf(fs[i]).value, fields[fs[i]]) == Some(texts[i])
  }

  lemma {:induction false} FieldsInOrder(fields: map<nat, string>, fs: seq<nat>, texts: seq<string>)
    requires TextsOf(fields, fs, texts)
    ensures EncodeFields(fields, fs) == Ok(Concat(texts))
  {
    if fs != [] {
      assert texts[0] == EncodeField(DefOf(fs[0]).value, fields[fs[0]]).value;
      assert forall i :: 0 <= i < |fs| - 1 ==> fs[1..][i] == fs[i + 1] && texts[1..][i] == texts[i + 1];
      FieldsInOrder(fields, fs[1..], texts[1..]);
    }
  }

  /** A message is its type, its bitmap, and its fields' texts in ascending order of their numbers. */
  lemma Layout(m: Msg, fs: seq<nat>, texts: seq<string>)
    requires (forall i, j :: 0 <= i < j < |fs| ==> fs[i] < fs[j]) && forall f :: f in fs <==> f in m.fields
    requires (forall i :: 0 <= i < |fs| ==> 1 <= fs[i] <= 64) && TextsOf(m.fields, fs, texts)
    ensures Encode(m) == Ok(m.mti + Bitmap(m.fields.Keys) + Concat(texts))
  {
    EncodeInside(m, fs, Bitmap(SetOf(fs)));
    FieldsInOrder(m.fields, fs, texts);
  }

  // ----- What is refused -----

  lemma LongerParts(wire: string, mti: string, bitmap: string, text: string, extra: string)
    requires |mti| == 4 && |bitmap| == 16 && wire == mti + bitmap + text + extra
    ensures |wire| == 20 + |text| + |extra| && wire[4..20] == bitmap && At(wire, 20, text)
  {
  }

  /** A message with anything after it is refused for that. */
  lemma TrailingRefused(m: Msg, extra: string)
    requires |m.mti| == 4 && Encode(m).Ok? && extra != ""
    ensures Decode(Encode(m).value + extra) == Err(TrailingBytes)
  {
    var fs := KeysUpTo(m.fields.Keys, 64);
    var text := EncodeFields(m.fields, fs).value;
    var wire := Encode(m).value + extra;
    KeysAreFields(m.fields);
    BitmapRoundTrip(m.fields.Keys);
    LongerParts(wire, m.mti, Bitmap(m.fields.Keys), text, extra);
    FieldsRead(m.fields, fs, text, wire, 20);
  }

  /** Fewer than twenty characters are too short; a first field that is not defined is refused by its number. */
  lemma BrokenRefused(wire: string)
    ensures Decode(wire) == Err(TooShort) <==> |wire| < 20
    ensures |wire| >= 20 && BitsUpTo(wire[4..20], 64) != [] ==>
              var f := BitsUpTo(wire[4..20], 64)[0]; DefOf(f).None? ==> Decode(wire) == Err(UnknownField(f))
  {
    if |wire| >= 20 {
      NeverTooShort(BitsUpTo(wire[4..20], 64), wire, 20);
    }
  }

  lemma {:induction false} NeverTooShort(fs: seq<nat>, wire: string, cursor: nat)
    ensures DecodeFields(fs, wire, cursor) != Err(TooShort)
    decreases |fs|
  {
    if fs != [] && DecodeOne(fs[0], wire, cursor).Ok? {
      NeverTooShort(fs[1..], wire, DecodeOne(fs[0], wire, cursor).value.1);
    }
  }
}
