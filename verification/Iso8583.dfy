/** ISO 8583 messages as text: four characters of type, a 16-digit primary bitmap, and the fields. */
module Iso8583 {
  import opened Common
  import opened Text
  import Decimal

  datatype Kind = Fixed | Numeric | LLVar | LLLVar

  datatype Def = Def(kind: Kind, length: nat)

  datatype Msg = Msg(mti: string, fields: map<nat, string>)

  datatype Error =
    | OutsideBitmap
    | UnknownField(f: nat)
    | ValueTooLong(f: nat)
    | TooShort
    | TrailingBytes
    | BadLengthPrefix

  /** The fields of the ATM host subset. Field 70 is listed, but no primary bitmap can carry it. */
  function DefOf(f: nat): Option<Def> {
    match f
    case 2 => Some(Def(LLVar, 19))
    case 3 => Some(Def(Numeric, 6))
    case 4 => Some(Def(Numeric, 12))
    case 7 => Some(Def(Numeric, 10))
    case 11 => Some(Def(Numeric, 6))
    case 12 => Some(Def(Numeric, 6))
    case 13 => Some(Def(Numeric, 4))
    case 14 => Some(Def(Numeric, 4))
    case 22 => Some(Def(Numeric, 3))
    case 37 => Some(Def(Fixed, 12))
    case 38 => Some(Def(Fixed, 6))
    case 39 => Some(Def(Fixed, 2))
    case 41 => Some(Def(Fixed, 8))
    case 42 => Some(Def(Fixed, 15))
    case 49 => Some(Def(Numeric, 3))
    case 52 => Some(Def(Fixed, 16))
    case 54 => Some(Def(LLLVar, 120))
    case 70 => Some(Def(Numeric, 3))
    case _ => None
  }

  // ----- Bitmap -----

  predicate InBitmap(f: nat) { 1 <= f <= 64 }

  function Bit(keys: set<nat>, f: nat): nat { if f in keys then 1 else 0 }

  function Nibble(keys: set<nat>, i: nat): (n: nat)
    ensures n < 16
  {
    8 * Bit(keys, 4 * i + 1) + 4 * Bit(keys, 4 * i + 2) + 2 * Bit(keys, 4 * i + 3) + Bit(keys, 4 * i + 4)
  }

  /** One hexadecimal digit for each four fields, the first field in the highest bit. */
  function Bitmap(keys: set<nat>): (s: string)
    ensures |s| == 16
  {
    seq(16, i requires 0 <= i < 16 => HexDigit(Nibble(keys, i)))
  }

  /** Bit `b` of a nibble, the highest first. */
  predicate NibbleBit(n: nat, b: nat) {
    (if b == 0 then n / 8 else if b == 1 then n / 4 else if b == 2 then n / 2 else n) % 2 == 1
  }

  predicate BitAt(hex: string, f: nat)
    requires |hex| == 16 && InBitmap(f)
  {
    NibbleBit(NibbleOf(hex[(f - 1) / 4]), (f - 1) % 4)
  }

  /** The fields up to `p` whose bits are set, in ascending order. */
  function BitsUpTo(hex: string, p: nat): seq<nat>
    requires |hex| == 16 && p <= 64
  {
    if p == 0 then [] else BitsUpTo(hex, p - 1) + if BitAt(hex, p) then [p] else []
  }

  /** The keys up to `p`, in ascending order. */
  function KeysUpTo(keys: set<nat>, p: nat): (ks: seq<nat>)
    ensures forall i :: 0 <= i < |ks| ==> 1 <= ks[i] <= p && ks[i] in keys
    ensures forall f :: 1 <= f <= p && f in keys ==> f in ks
    ensures forall i, j :: 0 <= i < j < |ks| ==> ks[i] < ks[j]
  {
    if p == 0 then [] else KeysUpTo(keys, p - 1) + if p in keys then [p] else []
  }

  // ----- Fields -----

  function PadEnd(s: string, n: nat): string {
    if |s| >= n then s else s + Decimal.Repeat(' ', n - |s|)
  }

  function TrimEnd(s: string): string {
    if s != "" && IsBlank(s[|s| - 1]) then TrimEnd(s[..|s| - 1]) else s
  }

  function LastChars(s: string, n: nat): string { if |s| <= n then s else s[|s| - n..] }

  function FitFixed(raw: string, n: nat): string {
    var p := PadEnd(raw, n);
    if |p| <= n then p else p[..n]
  }

  function FitNumeric(raw: string, n: nat): string { LastChars(Decimal.PadStart(Decimal.OnlyDigits(raw), n, '0'), n) }

  function Prefixed(raw: string, width: nat): string { Decimal.PadStart(Decimal.Show(|raw|), width, '0') + raw }

  function EncodeField(d: Def, raw: string): Option<string> {
    match d.kind
    case Fixed => Some(FitFixed(raw, d.length))
    case Numeric => Some(FitNumeric(raw, d.length))
    case LLVar => if |raw| > d.length then None else Some(Prefixed(raw, 2))
    case LLLVar => if |raw| > d.length then None else Some(Prefixed(raw, 3))
  }

  /** JavaScript's `s.slice(a, b)`, which stops at the end of the string. */
  function Slice(s: string, a: nat, b: nat): string {
    if a >= |s| || b <= a then "" else if b >= |s| then s[a..] else s[a..b]
  }

  function ReadPrefixed(wire: string, start: nat, width: nat): Option<(string, nat)> {
    var digits := Slice(wire, start, start + width);
    if digits == "" || !Decimal.AllDigits(digits) then None
    else
      var at, n := start + width, Decimal.Read(digits);
      Some((Slice(wire, at, at + n), at + n))
  }

  /** The value at an offset and the offset after it. A length prefix must be digits. */
  function DecodeField(d: Def, wire: string, start: nat): Option<(string, nat)> {
    match d.kind
    case Fixed => Some((TrimEnd(Slice(wire, start, start + d.length)), start + d.length))
    case Numeric => Some((Slice(wire, start, start + d.length), start + d.length))
    case LLVar => ReadPrefixed(wire, start, 2)
    case LLLVar => ReadPrefixed(wire, start, 3)
  }

  // ----- Messages -----

  function ValueOf(fields: map<nat, string>, f: nat): string { if f in fields then fields[f] else "" }

  /** A table of field definitions. */
  type Table = nat -> Option<Def>

  function EncodeBy(table: Table, f: nat, raw: string): Result<string, Error> {
    match table(f)
    case None => Err(UnknownField(f))
    case Some(d) =>
      match EncodeField(d, raw)
      case None => Err(ValueTooLong(f))
      case Some(text) => Ok(text)
  }

  function EncodeOne(f: nat, raw: string): Result<string, Error> { EncodeBy(DefOf, f, raw) }

  /** How one field is written, and how one is read at an offset. */
  type Encoder = nat -> Result<string, Error>

  type Decoder = (nat, nat) -> Result<(string, nat), Error>

  function EncodeAll(encode: Encoder, fs: seq<nat>): Result<string, Error> {
    if fs == [] then Ok("")
    else
      match encode(fs[0])
      case Err(e) => Err(e)
      case Ok(text) =>
        match EncodeAll(encode, fs[1..])
        case Err(e) => Err(e)
        case Ok(rest) => Ok(text + rest)
  }

  function EncoderBy(table: Table, fields: map<nat, string>): Encoder {
    (f: nat) => EncodeBy(table, f, ValueOf(fields, f))
  }

  function FieldEncoder(fields: map<nat, string>): Encoder { EncoderBy(DefOf, fields) }

  function EncodeFields(fields: map<nat, string>, fs: seq<nat>): Result<string, Error> {
    EncodeAll(FieldEncoder(fields), fs)
  }

  predicate AllInBitmap(fields: map<nat, string>) { forall f :: f in fields ==> InBitmap(f) }

  function Encode(m: Msg): Result<string, Error> {
    if !AllInBitmap(m.fields) then Err(OutsideBitmap)
    else Assemble(m, EncodeFields(m.fields, KeysUpTo(m.fields.Keys, 64)))
  }

  function Assemble(m: Msg, fields: Result<string, Error>): Result<string, Error> {
    match fields
    case Err(e) => Err(e)
    case Ok(text) => Ok(m.mti + Bitmap(m.fields.Keys) + text)
  }

  function DecodeBy(table: Table, f: nat, wire: string, cursor: nat): Result<(string, nat), Error> {
    match table(f)
    case None => Err(UnknownField(f))
    case Some(d) =>
      match DecodeField(d, wire, cursor)
      case None => Err(BadLengthPrefix)
      case Some(r) => Ok(r)
  }

  function DecodeOne(f: nat, wire: string, cursor: nat): Result<(string, nat), Error> {
    DecodeBy(DefOf, f, wire, cursor)
  }

  function DecodeAll(decode: Decoder, fs: seq<nat>, cursor: nat): Result<(map<nat, string>, nat), Error> {
    if fs == [] then Ok((map[], cursor))
    else
      match decode(fs[0], cursor)
      case Err(e) => Err(e)
      case Ok(r) =>
        match DecodeAll(decode, fs[1..], r.1)
        case Err(e) => Err(e)
        case Ok(rest) => Ok((rest.0[fs[0] := r.0], rest.1))
  }

  function DecoderBy(table: Table, wire: string): Decoder { (f: nat, at: nat) => DecodeBy(table, f, wire, at) }

  function FieldDecoder(wire: string): Decoder { DecoderBy(DefOf, wire) }

  function DecodeFields(fs: seq<nat>, wire: string, cursor: nat): Result<(map<nat, string>, nat), Error> {
    DecodeAll(FieldDecoder(wire), fs, cursor)
  }

  function Decode(wire: string): Result<Msg, Error> {
    if |wire| < 20 then Err(TooShort)
    else
      match DecodeFields(BitsUpTo(wire[4..20], 64), wire, 20)
      case Err(e) => Err(e)
      case Ok(r) => if r.1 != |wire| then Err(TrailingBytes) else Ok(Msg(wire[..4], r.0))
  }

  // ----- The bitmap loses nothing -----

  lemma NibbleBits(keys: set<nat>, i: nat, b: nat)
    requires b < 4
    ensures NibbleBit(Nibble(keys, i), b) <==> 4 * i + b + 1 in keys
  {
    var b0, b1 := Bit(keys, 4 * i + 1), Bit(keys, 4 * i + 2);
    var b2, b3 := Bit(keys, 4 * i + 3), Bit(keys, 4 * i + 4);
    var n := 8 * b0 + 4 * b1 + 2 * b2 + b3;
    assert n == Nibble(keys, i);
    assert n / 8 == b0 && (n / 4) % 2 == b1 && (n / 2) % 2 == b2 && n % 2 == b3;
  }

  lemma BitmapNibble(keys: set<nat>, i: nat)
    requires i < 16
    ensures NibbleOf(Bitmap(keys)[i]) == Nibble(keys, i)
  {
  }

  lemma BitAtBitmap(keys: set<nat>, f: nat)
    requires InBitmap(f)
    ensures BitAt(Bitmap(keys), f) <==> f in keys
  {
    var i, b := (f - 1) / 4, (f - 1) % 4;
    BitmapNibble(keys, i);
    NibbleBits(keys, i, b);
  }

  lemma {:induction false} BitsAreKeys(hex: string, keys: set<nat>, p: nat)
    requires |hex| == 16 && p <= 64
    requires forall f :: 1 <= f <= p ==> (BitAt(hex, f) <==> f in keys)
    ensures BitsUpTo(hex, p) == KeysUpTo(keys, p)
  {
    if p > 0 {
      BitsAreKeys(hex, keys, p - 1);
    }
  }

  /** Reading a bitmap gives back exactly the fields it was made from, in ascending order. */
  lemma BitmapRoundTrip(keys: set<nat>)
    ensures BitsUpTo(Bitmap(keys), 64) == KeysUpTo(keys, 64)
  {
    var hex := Bitmap(keys);
    forall f | 1 <= f <= 64 ensures BitAt(hex, f) <==> f in keys {
      BitAtBitmap(keys, f);
    }
    BitsAreKeys(hex, keys, 64);
  }

  lemma {:induction false} BitsMembers(hex: string, p: nat)
    requires |hex| == 16 && p <= 64
    ensures forall f :: f in BitsUpTo(hex, p) <==> 1 <= f <= p && BitAt(hex, f)
  {
    if p > 0 {
      BitsMembers(hex, p - 1);
    }
  }

  lemma NibbleFromBits(n: nat, b0: nat, b1: nat, b2: nat, b3: nat)
    requires n < 16 && b0 < 2 && b1 < 2 && b2 < 2 && b3 < 2
    requires b0 == 1 <==> NibbleBit(n, 0)
    requires b1 == 1 <==> NibbleBit(n, 1)
    requires b2 == 1 <==> NibbleBit(n, 2)
    requires b3 == 1 <==> NibbleBit(n, 3)
    ensures 8 * b0 + 4 * b1 + 2 * b2 + b3 == n
  {
    assert b0 == n / 8 && b1 == (n / 4) % 2 && b2 == (n / 2) % 2 && b3 == n % 2;
  }

  lemma BitOfNibble(hex: string, keys: set<nat>, i: nat, b: nat)
    requires |hex| == 16 && i < 16 && b < 4
    requires keys == set f | f in BitsUpTo(hex, 64)
    ensures Bit(keys, 4 * i + b + 1) == 1 <==> NibbleBit(NibbleOf(hex[i]), b)
  {
    var f := 4 * i + b + 1;
    assert (f - 1) / 4 == i && (f - 1) % 4 == b;
    BitsMembers(hex, 64);
    assert BitAt(hex, f) <==> NibbleBit(NibbleOf(hex[i]), b);
    assert f in keys <==> f in BitsUpTo(hex, 64);
  }

  lemma NibbleInverse(hex: string, keys: set<nat>, i: nat)
    requires |hex| == 16 && i < 16
    requires keys == set f | f in BitsUpTo(hex, 64)
    ensures Nibble(keys, i) == NibbleOf(hex[i])
  {
    BitOfNibble(hex, keys, i, 0);
    BitOfNibble(hex, keys, i, 1);
    BitOfNibble(hex, keys, i, 2);
    BitOfNibble(hex, keys, i, 3);
    var b0, b1, b2, b3 := Bit(keys, 4 * i + 1), Bit(keys, 4 * i + 2), Bit(keys, 4 * i + 3), Bit(keys, 4 * i + 4);
    NibbleFromBits(NibbleOf(hex[i]), b0, b1, b2, b3);
  }

  lemma BitmapFromNibbles(hex: string, keys: set<nat>)
    requires |hex| == 16 && forall i :: 0 <= i < 16 ==> hex[i] == HexDigit(Nibble(keys, i))
    ensures Bitmap(keys) == hex
  {
  }

  /** And a bitmap of upper-case digits is the bitmap of the fields read from it. */
  lemma BitmapInverse(hex: string, keys: set<nat>)
    requires |hex| == 16 && (forall i :: 0 <= i < 16 ==> hex[i] in HEX)
    requires keys == set f | f in BitsUpTo(hex, 64)
    ensures Bitmap(keys) == hex
  {
    forall i | 0 <= i < 16 ensures hex[i] == HexDigit(Nibble(keys, i)) {
      NibbleInverse(hex, keys, i);
      HexDigitOf(hex[i]);
    }
    BitmapFromNibbles(hex, keys);
  }

  // ----- One field -----

  /** What a field reads back as. */
  function Shown(d: Def, raw: string): string {
    match d.kind
    case Fixed => TrimEnd(FitFixed(raw, d.length))
    case Numeric => FitNumeric(raw, d.length)
    case _ => raw
  }

  /** Fixed: short enough, no trailing white space. Numeric: exactly so many digits. Variable: within its limit. */
  predicate CanonicalValue(d: Def, raw: string) {
    match d.kind
    case Fixed => |raw| <= d.length && (raw == "" || !IsBlank(raw[|raw| - 1]))
    case Numeric => |raw| == d.length && Decimal.AllDigits(raw)
    case _ => |raw| <= d.length
  }

  lemma SliceAt(wire: string, start: nat, text: string)
    requires At(wire, start, text)
    ensures Slice(wire, start, start + |text|) == text
  {
    assert wire[start..start + |text|] == text;
  }

  lemma PrefixedParts(raw: string, width: nat)
    requires width > 0 && |raw| < Decimal.Pow10(width)
    ensures var p := Decimal.PadStart(Decimal.Show(|raw|), width, '0');
            |p| == width && Decimal.AllDigits(p) && Decimal.Read(p) == |raw|
  {
    Decimal.ShowWidth(|raw|, width);
    Decimal.ReadPadded(|raw|, width);
  }

  lemma PrefixSlices(wire: string, start: nat, p: string, raw: string)
    requires At(wire, start, p + raw)
    ensures Slice(wire, start, start + |p|) == p
    ensures Slice(wire, start + |p|, start + |p| + |raw|) == raw
  {
    AtParts(wire, start, p, raw);
    SliceAt(wire, start, p);
    SliceAt(wire, start + |p|, raw);
  }

  lemma PrefixReads(wire: string, start: nat, p: string, raw: string, width: nat)
    requires width > 0 && |p| == width && Decimal.AllDigits(p) && Decimal.Read(p) == |raw|
    requires Slice(wire, start, start + width) == p
    requires Slice(wire, start + width, start + width + |raw|) == raw
    ensures ReadPrefixed(wire, start, width) == Some((raw, start + width + |raw|))
  {
  }

  lemma PrefixTextReads(wire: string, start: nat, p: string, raw: string, width: nat)
    requires width > 0 && |p| == width && Decimal.AllDigits(p) && Decimal.Read(p) == |raw| && At(wire, start, p + raw)
    ensures ReadPrefixed(wire, start, width) == Some((raw, start + |p + raw|))
  {
    PrefixSlices(wire, start, p, raw);
    PrefixReads(wire, start, p, raw, width);
  }

  lemma PrefixedReads(wire: string, start: nat, raw: string, width: nat)
    requires width > 0 && |raw| < Decimal.Pow10(width) && At(wire, start, Prefixed(raw, width))
    ensures ReadPrefixed(wire, start, width) == Some((raw, start + |Prefixed(raw, width)|))
  {
    PrefixedParts(raw, width);
    PrefixTextReads(wire, start, Decimal.PadStart(Decimal.Show(|raw|), width, '0'), raw, width);
  }

  predicate Sized(d: Def) {
    d.length > 0 && (d.kind == LLVar ==> d.length < 100) && (d.kind == LLLVar ==> d.length < 1000)
  }

  lemma DefsSized(f: nat)
    requires DefOf(f).Some?
    ensures Sized(DefOf(f).value)
  {
  }

  lemma FixedReads(n: nat, raw: string, wire: string, start: nat)
    requires n > 0 && At(wire, start, FitFixed(raw, n))
    ensures |FitFixed(raw, n)| == n && Slice(wire, start, start + n) == FitFixed(raw, n)
  {
    SliceAt(wire, start, FitFixed(raw, n));
  }

  lemma NumericReads(n: nat, raw: string, wire: string, start: nat)
    requires n > 0 && At(wire, start, FitNumeric(raw, n))
    ensures |FitNumeric(raw, n)| == n && Slice(wire, start, start + n) == FitNumeric(raw, n)
  {
    NumericShape(raw, n);
    SliceAt(wire, start, FitNumeric(raw, n));
  }

  lemma VariableReads(n: nat, width: nat, raw: string, wire: string, start: nat)
    requires (width == 2 && n < 100) || (width == 3 && n < 1000)
    requires |raw| <= n && At(wire, start, Prefixed(raw, width))
    ensures ReadPrefixed(wire, start, width) == Some((raw, start + |Prefixed(raw, width)|))
  {
    Pow10Small();
    PrefixedReads(wire, start, raw, width);
  }

  lemma FieldReads(d: Def, raw: string, text: string, wire: string, start: nat)
    requires Sized(d) && EncodeField(d, raw) == Some(text) && At(wire, start, text)
    ensures DecodeField(d, wire, start) == Some((Shown(d, raw), start + |text|))
  {
    if d.kind == Fixed {
      FixedReads(d.length, raw, wire, start);
    } else if d.kind == Numeric {
      NumericReads(d.length, raw, wire, start);
    } else {
      VariableReads(d.length, if d.kind == LLVar then 2 else 3, raw, wire, start);
    }
  }

  lemma Pow10Small()
    ensures Decimal.Pow10(2) == 100 && Decimal.Pow10(3) == 1000
  {
    assert Decimal.Pow10(1) == 10;
  }

  lemma {:induction false} TrimEndShorter(s: string)
    ensures |TrimEnd(s)| <= |s|
    ensures TrimEnd(s) == s <==> s == "" || !IsBlank(s[|s| - 1])
  {
    if s != "" && IsBlank(s[|s| - 1]) {
      TrimEndShorter(s[..|s| - 1]);
    }
  }

  lemma {:induction false} TrimEndSpaces(s: string, k: nat)
    ensures TrimEnd(s + Decimal.Repeat(' ', k)) == TrimEnd(s)
  {
    var t := s + Decimal.Repeat(' ', k);
    if k > 0 {
      assert t[..|t| - 1] == s + Decimal.Repeat(' ', k - 1);
      TrimEndSpaces(s, k - 1);
    } else {
      assert t == s;
    }
  }

  /** A value reads back as itself exactly when it is canonical. */
  lemma ShownExact(d: Def, raw: string)
    requires Sized(d) && EncodeField(d, raw).Some?
    ensures Shown(d, raw) == raw <==> CanonicalValue(d, raw)
  {
    match d.kind
    case Fixed =>
      if |raw| <= d.length {
        TrimEndSpaces(raw, d.length - |raw|);
        assert |raw| == d.length ==> raw + Decimal.Repeat(' ', 0) == raw;
        TrimEndShorter(raw);
      } else {
        TrimEndShorter(FitFixed(raw, d.length));
      }
    case Numeric =>
      Decimal.OnlyDigitsShorter(raw);
      assert |FitNumeric(raw, d.length)| == d.length && Decimal.AllDigits(FitNumeric(raw, d.length)) by {
        NumericShape(raw, d.length);
      }
    case _ =>
  }

  lemma NumericShape(raw: string, n: nat)
    ensures |FitNumeric(raw, n)| == n && Decimal.AllDigits(FitNumeric(raw, n))
  {
  }

  // ----- Whole messages -----

  /** What a field reads back as; a field that has no definition has no encoding either. */
  function ShownBy(table: Table, f: nat, raw: string): string {
    match table(f)
    case None => raw
    case Some(d) => Shown(d, raw)
  }

  function ShownOne(f: nat, raw: string): string { ShownBy(DefOf, f, raw) }

  /** The encoding of a field reads back, wherever it stands. */
  lemma OneReads(table: Table, f: nat, raw: string, text: string, wire: string, start: nat)
    requires forall f: nat :: table(f).Some? ==> Sized(table(f).value)
    requires EncodeBy(table, f, raw) == Ok(text) && At(wire, start, text)
    ensures DecodeBy(table, f, wire, start) == Ok((ShownBy(table, f, raw), start + |text|))
  {
    FieldReads(table(f).value, raw, text, wire, start);
  }

  /** A decoder reads back what an encoder writes, wherever it stands, as `shown` says. */
  ghost predicate ReadsBack(encode: Encoder, decode: Decoder, shown: nat -> string, wire: string) {
    forall f: nat, at: nat :: encode(f).Ok? && At(wire, at, encode(f).value) ==>
      decode(f, at) == Ok((shown(f), at + |encode(f).value|))
  }

  lemma {:induction false} AllRead(
    encode: Encoder, decode: Decoder, shown: nat -> string, fs: seq<nat>, text: string, wire: string, start: nat)
    requires ReadsBack(encode, decode, shown, wire) && EncodeAll(encode, fs) == Ok(text) && At(wire, start, text)
    ensures DecodeAll(decode, fs, start) == Ok((map f | f in fs :: shown(f), start + |text|))
    decreases |fs|
  {
    if fs == [] {
      assert (map f | f in fs :: shown(f)) == map[];
    } else {
      var head, rest := encode(fs[0]).value, EncodeAll(encode, fs[1..]).value;
      AtParts(wire, start, head, rest);
      AllRead(encode, decode, shown, fs[1..], rest, wire, start + |head|);
      assert fs == [fs[0]] + fs[1..];
      assert (map f | f in fs[1..] :: shown(f))[fs[0] := shown(fs[0])] == map f | f in fs :: shown(f);
    }
  }

  /** A list of fields encodes exactly when each of them does. */
  lemma {:induction false} EncodeAllOk(encode: Encoder, fs: seq<nat>)
    ensures EncodeAll(encode, fs).Ok? <==> forall i :: 0 <= i < |fs| ==> encode(fs[i]).Ok?
  {
    if fs != [] {
      EncodeAllOk(encode, fs[1..]);
      assert forall i :: 0 < i < |fs| ==> fs[i] == fs[1..][i - 1];
      assert forall i :: 0 <= i < |fs| - 1 ==> fs[1..][i] == fs[i + 1];
    }
  }

  function AllShownBy(table: Table, fields: map<nat, string>): nat -> string {
    (f: nat) => ShownBy(table, f, ValueOf(fields, f))
  }

  function FieldShown(fields: map<nat, string>): nat -> string { AllShownBy(DefOf, fields) }

  lemma OneReadsBack(
    encode: Encoder, decode: Decoder, shown: nat -> string, table: Table, f: nat, raw: string, wire: string, at: nat)
    requires forall f: nat :: table(f).Some? ==> Sized(table(f).value)
    requires encode(f) == EncodeBy(table, f, raw) && decode(f, at) == DecodeBy(table, f, wire, at)
    requires shown(f) == ShownBy(table, f, raw) && encode(f).Ok? && At(wire, at, encode(f).value)
    ensures decode(f, at) == Ok((shown(f), at + |encode(f).value|))
  {
    OneReads(table, f, raw, encode(f).value, wire, at);
  }

  lemma TableReadsBack(
    encode: Encoder, decode: Decoder, shown: nat -> string, table: Table, fields: map<nat, string>, wire: string)
    requires forall f: nat :: table(f).Some? ==> Sized(table(f).value)
    requires forall f: nat :: encode(f) == EncodeBy(table, f, ValueOf(fields, f))
    requires forall f: nat, at: nat :: decode(f, at) == DecodeBy(table, f, wire, at)
    requires forall f: nat :: shown(f) == ShownBy(table, f, ValueOf(fields, f))
    ensures ReadsBack(encode, decode, shown, wire)
  {
    forall f: nat, at: nat | encode(f).Ok? && At(wire, at, encode(f).value)
      ensures decode(f, at) == Ok((shown(f), at + |encode(f).value|))
    {
      OneReadsBack(encode, decode, shown, table, f, ValueOf(fields, f), wire, at);
    }
  }

  lemma FieldsReadBack(fields: map<nat, string>, wire: string)
    ensures ReadsBack(FieldEncoder(fields), FieldDecoder(wire), FieldShown(fields), wire)
  {
    forall f: nat | DefOf(f).Some? ensures Sized(DefOf(f).value) {
      DefsSized(f);
    }
    TableReadsBack(FieldEncoder(fields), FieldDecoder(wire), FieldShown(fields), DefOf, fields, wire);
  }

  /** Fields that encode to a text read back, wherever the text stands. */
  lemma FieldsRead(fields: map<nat, string>, fs: seq<nat>, text: string, wire: string, start: nat)
    requires EncodeFields(fields, fs) == Ok(text) && At(wire, start, text) && forall f :: f in fs <==> f in fields
    ensures DecodeFields(fs, wire, start) == Ok((AllShown(fields), start + |text|))
  {
    FieldsReadBack(fields, wire);
    AllRead(FieldEncoder(fields), FieldDecoder(wire), FieldShown(fields), fs, text, wire, start);
    AllShownIs(fields, fs);
  }

  predicate EachEncodes(fields: map<nat, string>) { forall f :: f in fields ==> EncodeOne(f, fields[f]).Ok? }

  lemma KeysAreFields(fields: map<nat, string>)
    requires AllInBitmap(fields)
    ensures var fs := KeysUpTo(fields.Keys, 64);
            && (forall f :: f in fs <==> f in fields)
            && forall i :: 0 <= i < |fs| ==> fs[i] in fields && ValueOf(fields, fs[i]) == fields[fs[i]]
  {
    var fs := KeysUpTo(fields.Keys, 64);
    forall f ensures f in fs <==> f in fields {
      assert f in fields <==> f in fields.Keys;
    }
  }

  /** A message encodes exactly when every field lies in the bitmap, has a definition, and fits it. */
  lemma EncodesExactly(m: Msg)
    ensures Encode(m).Ok? <==> AllInBitmap(m.fields) && EachEncodes(m.fields)
  {
    if AllInBitmap(m.fields) {
      var fs := KeysUpTo(m.fields.Keys, 64);
      KeysAreFields(m.fields);
      EncodeAllOk(FieldEncoder(m.fields), fs);
      forall f | f in m.fields ensures exists i :: 0 <= i < |fs| && fs[i] == f {
        assert f in fs;
      }
    }
  }

  lemma WireParts(wire: string, mti: string, bitmap: string, text: string)
    requires |mti| == 4 && |bitmap| == 16 && wire == mti + bitmap + text
    ensures |wire| == 20 + |text| && wire[..4] == mti && wire[4..20] == bitmap && At(wire, 20, text)
  {
  }

  /** What every field of a message reads back as. */
  function AllShown(fields: map<nat, string>): map<nat, string> { map f | f in fields :: ShownOne(f, fields[f]) }

  lemma AllShownIs(fields: map<nat, string>, fs: seq<nat>)
    requires forall f :: f in fs <==> f in fields
    ensures (map f | f in fs :: FieldShown(fields)(f)) == AllShown(fields)
  {
    var a, b := (map f | f in fs :: FieldShown(fields)(f)), AllShown(fields);
    assert a.Keys == b.Keys;
    forall f | f in a ensures a[f] == b[f] {
    }
  }

  lemma WireDecodes(mti: string, bitmap: string, fields: map<nat, string>, fs: seq<nat>, text: string, wire: string)
    requires |mti| == 4 && |bitmap| == 16 && wire == mti + bitmap + text && BitsUpTo(bitmap, 64) == fs
    requires EncodeFields(fields, fs) == Ok(text) && forall f :: f in fs <==> f in fields
    ensures Decode(wire) == Ok(Msg(mti, AllShown(fields)))
  {
    WireParts(wire, mti, bitmap, text);
    FieldsRead(fields, fs, text, wire, 20);
  }

  /** Decoding what was encoded gives every field as it is shown, for every message with a four-character type. */
  lemma DecodeEncode(m: Msg)
    requires |m.mti| == 4 && Encode(m).Ok?
    ensures Decode(Encode(m).value) == Ok(Msg(m.mti, AllShown(m.fields)))
  {
    var fs := KeysUpTo(m.fields.Keys, 64);
    KeysAreFields(m.fields);
    BitmapRoundTrip(m.fields.Keys);
    WireDecodes(m.mti, Bitmap(m.fields.Keys), m.fields, fs, EncodeFields(m.fields, fs).value, Encode(m).value);
  }

  // ----- Canonical messages -----

  predicate CanonicalOne(f: nat, raw: string) {
    match DefOf(f)
    case None => false
    case Some(d) => CanonicalValue(d, raw)
  }

  predicate Canonical(m: Msg) {
    |m.mti| == 4 && forall f :: f in m.fields ==> InBitmap(f) && CanonicalOne(f, m.fields[f])
  }

  lemma OneExact(f: nat, raw: string)
    ensures EncodeOne(f, raw).Ok? && ShownOne(f, raw) == raw <==> CanonicalOne(f, raw)
  {
    if DefOf(f).Some? {
      DefsSized(f);
      if EncodeOne(f, raw).Ok? {
        ShownExact(DefOf(f).value, raw);
      }
    }
  }

  lemma AllShownExact(fields: map<nat, string>)
    requires EachEncodes(fields)
    ensures AllShown(fields) == fields <==> forall f :: f in fields ==> CanonicalOne(f, fields[f])
  {
    forall f | f in fields ensures AllShown(fields)[f] == fields[f] <==> CanonicalOne(f, fields[f]) {
      OneExact(f, fields[f]);
    }
    assert AllShown(fields).Keys == fields.Keys;
  }

  lemma CanonicalEncodes(m: Msg)
    requires Canonical(m)
    ensures Encode(m).Ok?
  {
    forall f | f in m.fields ensures EncodeOne(f, m.fields[f]).Ok? {
      OneExact(f, m.fields[f]);
    }
    EncodesExactly(m);
  }

  lemma DecodedType(wire: string, m: Msg)
    requires Decode(wire) == Ok(m)
    ensures |m.mti| == 4
  {
  }

  /** A message survives encoding and decoding if and only if it is canonical. */
  lemma RoundTripExact(m: Msg)
    ensures Encode(m).Ok? && Decode(Encode(m).value) == Ok(m) <==> Canonical(m)
  {
    if Canonical(m) {
      CanonicalEncodes(m);
    }
    if Encode(m).Ok? {
      EncodesExactly(m);
      AllShownExact(m.fields);
      if |m.mti| == 4 {
        DecodeEncode(m);
      } else if Decode(Encode(m).value) == Ok(m) {
        DecodedType(Encode(m).value, m);
      }
    }
  }

  /** So no two canonical messages share an encoding. */
  lemma EncodeInjective(m: Msg, n: Msg)
    requires Canonical(m) && Canonical(n) && Encode(m) == Encode(n)
    ensures m == n
  {
    RoundTripExact(m);
    RoundTripExact(n);
  }
}
