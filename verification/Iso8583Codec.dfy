/** The loops of the ISO 8583 codec, proved to compute the message format of module `Iso8583`. */
module Iso8583Codec {
  import opened Common
  import opened Text
  import opened Iso8583

  predicate Ascending(ks: seq<nat>) { forall i, j :: 0 <= i < j < |ks| ==> ks[i] < ks[j] }

  // ----- Writing the bitmap -----

  function SetOf(fields: seq<nat>): set<nat> { set f | f in fields }

  /** Bits `0..64` of the array hold the membership of fields `1..64`. */
  predicate Marked(bits: seq<nat>, keys: set<nat>) {
    |bits| == 64 && forall k :: 0 <= k < 64 ==> bits[k] == Bit(keys, k + 1)
  }

  lemma MarkOne(bits: seq<nat>, keys: set<nat>, f: nat)
    requires Marked(bits, keys) && InBitmap(f)
    ensures Marked(bits[f - 1 := 1], keys + {f})
  {
  }

  lemma NibbleOfBits(bits: seq<nat>, keys: set<nat>, i: nat)
    requires Marked(bits, keys) && i < 16
    ensures 2 * (2 * (2 * bits[4 * i] + bits[4 * i + 1]) + bits[4 * i + 2]) + bits[4 * i + 3] == Nibble(keys, i)
  {
  }

  /** The value of the first `b` bits of group `i`. */
  function Prefix(bits: seq<nat>, i: nat, b: nat): nat
    requires |bits| == 64 && i < 16 && b <= 4
  {
    if b == 0 then 0 else 2 * Prefix(bits, i, b - 1) + bits[i * 4 + b - 1]
  }

  lemma PrefixIsNibble(bits: seq<nat>, keys: set<nat>, i: nat)
    requires Marked(bits, keys) && i < 16
    ensures Prefix(bits, i, 4) == Nibble(keys, i)
  {
    NibbleOfBits(bits, keys, i);
    assert Prefix(bits, i, 1) == bits[4 * i];
    assert Prefix(bits, i, 2) == 2 * Prefix(bits, i, 1) + bits[4 * i + 1];
    assert Prefix(bits, i, 3) == 2 * Prefix(bits, i, 2) + bits[4 * i + 2];
  }

  method MarkBits(fields: seq<nat>) returns (bits: array<nat>, ok: bool)
    ensures fresh(bits)
    ensures ok <==> forall i :: 0 <= i < |fields| ==> InBitmap(fields[i])
    ensures ok ==> Marked(bits[..], SetOf(fields))
  {
    bits := new nat[64](_ => 0);
    ok := true;
    ghost var keys := {};
    for n := 0 to |fields|
      invariant fresh(bits) && bits.Length == 64 && ok
      invariant forall i :: 0 <= i < n ==> InBitmap(fields[i])
      invariant Marked(bits[..], keys) && keys == SetOf(fields[..n])
    {
      var f := fields[n];
      if f < 1 || f > 64 {
        ok := false;
        return;
      }
      MarkOne(bits[..], keys, f);
      bits[f - 1] := 1;
      keys := keys + {f};
      assert fields[..n + 1] == fields[..n] + [f];
    }
    assert fields[..|fields|] == fields;
  }

  /** The bitmap of a list of fields, or an error when one of them lies outside 1..64. */
  method FieldsToBitmap(fields: seq<nat>) returns (r: Result<string, Error>)
    ensures (forall i :: 0 <= i < |fields| ==> InBitmap(fields[i])) ==> r == Ok(Bitmap(SetOf(fields)))
    ensures r.Err? ==> r.error == OutsideBitmap && exists i :: 0 <= i < |fields| && !InBitmap(fields[i])
    ensures r.Ok? ==> forall i :: 0 <= i < |fields| ==> InBitmap(fields[i])
  {
    ghost var keys := SetOf(fields);
    var bits, ok := MarkBits(fields);
    if !ok {
      return Err(OutsideBitmap);
    }
    var hex := "";
    for i := 0 to 16
      invariant bits.Length == 64 && Marked(bits[..], keys)
      invariant |hex| == i && forall k :: 0 <= k < i ==> hex[k] == HexDigit(Nibble(keys, k))
    {
      var nibble := 0;
      for b := 0 to 4
        invariant bits.Length == 64 && Marked(bits[..], keys)
        invariant nibble == Prefix(bits[..], i, b)
      {
        nibble := 2 * nibble + bits[i * 4 + b];
      }
      PrefixIsNibble(bits[..], keys, i);
      hex := hex + [HexDigit(nibble)];
    }
    BitmapFromNibbles(hex, keys);
    return Ok(hex);
  }

  // ----- Reading the bitmap -----

  lemma Place(i: nat, b: nat)
    requires b < 4
    ensures (i * 4 + b) / 4 == i && (i * 4 + b) % 4 == b
  {
  }

  lemma BitAtPlace(hex: string, i: nat, b: nat)
    requires |hex| == 16 && i < 16 && b < 4
    ensures BitAt(hex, i * 4 + b + 1) <==> NibbleBit(NibbleOf(hex[i]), b)
  {
    Place(i, b);
    assert (i * 4 + b + 1 - 1) / 4 == i;
  }

  lemma BitsOneMore(hex: string, p: nat)
    requires |hex| == 16 && p < 64
    ensures BitsUpTo(hex, p + 1) == BitsUpTo(hex, p) + if BitAt(hex, p + 1) then [p + 1] else []
  {
  }

  lemma BitsStep(hex: string, i: nat, b: nat)
    requires |hex| == 16 && i < 16 && b < 4
    ensures BitsUpTo(hex, i * 4 + b + 1)
         == BitsUpTo(hex, i * 4 + b) + if NibbleBit(NibbleOf(hex[i]), b) then [i * 4 + b + 1] else []
  {
    BitAtPlace(hex, i, b);
    BitsOneMore(hex, i * 4 + b);
  }

  /** The fields of a bitmap, in ascending order. */
  method BitmapToFields(hex: string) returns (out: seq<nat>)
    requires |hex| == 16
    ensures out == BitsUpTo(hex, 64)
  {
    out := [];
    for i := 0 to 16
      invariant out == BitsUpTo(hex, i * 4)
    {
      var nibble := NibbleOf(hex[i]);
      for b := 0 to 4
        invariant out == BitsUpTo(hex, i * 4 + b)
      {
        BitsStep(hex, i, b);
        if NibbleBit(nibble, b) {
          out := out + [i * 4 + b + 1];
        }
      }
    }
  }

  // ----- Whole messages -----

  lemma LastIsGreatest(ks: seq<nat>, f: nat)
    requires Ascending(ks) && f in ks
    ensures f <= ks[|ks| - 1]
    ensures f in ks[..|ks| - 1] <==> f < ks[|ks| - 1]
  {
    var i :| 0 <= i < |ks| && ks[i] == f;
    assert i < |ks| - 1 ==> ks[..|ks| - 1][i] == f;
  }

  /** A set has one ascending list. */
  lemma {:induction false} AscendingUnique(a: seq<nat>, b: seq<nat>)
    requires Ascending(a) && Ascending(b) && forall f :: f in a <==> f in b
    ensures a == b
  {
    if b != [] {
      assert b[0] in a;
    }
    if a != [] {
      assert a[0] in b;
      var x, y := a[|a| - 1], b[|b| - 1];
      assert x in a && y in b;
      LastIsGreatest(a, y);
      LastIsGreatest(b, x);
      var c, d := a[..|a| - 1], b[..|b| - 1];
      forall f ensures f in c <==> f in d {
        if f in a {
          LastIsGreatest(a, f);
          LastIsGreatest(b, f);
        }
      }
      AscendingUnique(c, d);
      assert a == c + [x] && b == d + [x];
    }
  }

  lemma NumbersAreKeys(fields: map<nat, string>, numbers: seq<nat>)
    requires Ascending(numbers) && forall f :: f in numbers <==> f in fields
    requires forall i :: 0 <= i < |numbers| ==> InBitmap(numbers[i])
    ensures numbers == KeysUpTo(fields.Keys, 64) && AllInBitmap(fields)
  {
    var ks := KeysUpTo(fields.Keys, 64);
    forall f ensures f in ks <==> f in numbers {
      if f in numbers {
        assert f in fields.Keys;
      }
    }
    AscendingUnique(numbers, ks);
  }

  /** What is still to be written, after what has been. */
  predicate Tail(encode: Encoder, fs: seq<nat>, text: string, whole: Result<string, Error>) {
    match EncodeAll(encode, fs)
    case Err(e) => whole == Err(e)
    case Ok(rest) => whole == Ok(text + rest)
  }

  lemma TailStep(encode: Encoder, fs: seq<nat>, text: string, whole: Result<string, Error>)
    requires fs != [] && Tail(encode, fs, text, whole)
    ensures match encode(fs[0])
            case Err(e) => whole == Err(e)
            case Ok(part) => Tail(encode, fs[1..], text + part, whole)
  {
    var one, more := encode(fs[0]), EncodeAll(encode, fs[1..]);
    if one.Ok? && more.Ok? {
      assert text + (one.value + more.value) == text + one.value + more.value;
    }
  }

  method EncodeNumbers(fields: map<nat, string>, numbers: seq<nat>) returns (r: Result<string, Error>)
    ensures r == EncodeFields(fields, numbers)
  {
    ghost var whole := EncodeFields(fields, numbers);
    var text := "";
    assert numbers[0..] == numbers;
    assert whole.Ok? ==> text + whole.value == whole.value;
    for n := 0 to |numbers|
      invariant Tail(FieldEncoder(fields), numbers[n..], text, whole)
    {
      var f := numbers[n];
      assert numbers[n..][0] == f && numbers[n..][1..] == numbers[n + 1..];
      TailStep(FieldEncoder(fields), numbers[n..], text, whole);
      var part := EncodeOne(f, ValueOf(fields, f));
      if part.Err? {
        return Err(part.error);
      }
      text := text + part.value;
    }
    assert text + "" == text;
    return Ok(text);
  }

  lemma EncodeOutside(m: Msg, numbers: seq<nat>, i: nat)
    requires forall f :: f in numbers <==> f in m.fields
    requires i < |numbers| && !InBitmap(numbers[i])
    ensures Encode(m) == Err(OutsideBitmap)
  {
    assert numbers[i] in m.fields.Keys;
  }

  lemma KeySet(fields: map<nat, string>, numbers: seq<nat>)
    requires forall f :: f in numbers <==> f in fields
    ensures SetOf(numbers) == fields.Keys
  {
  }

  lemma EncodeListed(m: Msg, numbers: seq<nat>)
    requires AllInBitmap(m.fields) && numbers == KeysUpTo(m.fields.Keys, 64)
    ensures Encode(m) == Assemble(m, EncodeFields(m.fields, numbers))
  {
  }

  lemma EncodeInside(m: Msg, numbers: seq<nat>, bitmap: string)
    requires Ascending(numbers) && forall f :: f in numbers <==> f in m.fields
    requires (forall i :: 0 <= i < |numbers| ==> InBitmap(numbers[i])) && bitmap == Bitmap(SetOf(numbers))
    ensures bitmap == Bitmap(m.fields.Keys) && Encode(m) == Assemble(m, EncodeFields(m.fields, numbers))
  {
    KeySet(m.fields, numbers);
    NumbersAreKeys(m.fields, numbers);
    EncodeListed(m, numbers);
  }

  lemma Assembled(m: Msg, text: string, bitmap: string)
    requires bitmap == Bitmap(m.fields.Keys)
    ensures Assemble(m, Ok(text)) == Ok(m.mti + bitmap + text)
  {
  }

  lemma InsertKeepsOrder(ks: seq<nat>, i: nat, f: nat)
    requires Ascending(ks) && i <= |ks|
    requires (forall j :: 0 <= j < i ==> ks[j] < f) && forall j :: i <= j < |ks| ==> f < ks[j]
    ensures Ascending(ks[..i] + [f] + ks[i..])
    ensures forall x :: x in ks[..i] + [f] + ks[i..] <==> x == f || x in ks
  {
    assert ks == ks[..i] + ks[i..];
  }

  /** The field numbers of a message, sorted. */
  method SortedNumbers(keys: set<nat>) returns (numbers: seq<nat>)
    ensures Ascending(numbers) && forall f :: f in numbers <==> f in keys
  {
    numbers := [];
    var rest := keys;
    while rest != {}
      invariant rest <= keys && Ascending(numbers) && forall f :: f in numbers <==> f in keys - rest
      decreases |rest|
    {
      var f :| f in rest;
      var i := 0;
      while i < |numbers| && numbers[i] < f
        invariant 0 <= i <= |numbers| && forall j :: 0 <= j < i ==> numbers[j] < f
      {
        i := i + 1;
      }
      assert f !in numbers;
      InsertKeepsOrder(numbers, i, f);
      numbers := numbers[..i] + [f] + numbers[i..];
      rest := rest - {f};
    }
  }

  method EncodeMessage(m: Msg) returns (r: Result<string, Error>)
    ensures r == Encode(m)
  {
    var numbers := SortedNumbers(m.fields.Keys);
    var bitmap := FieldsToBitmap(numbers);
    if bitmap.Err? {
      ghost var i :| 0 <= i < |numbers| && !InBitmap(numbers[i]);
      EncodeOutside(m, numbers, i);
      return Err(bitmap.error);
    }
    EncodeInside(m, numbers, bitmap.value);
    var text := EncodeNumbers(m.fields, numbers);
    if text.Err? {
      return Err(text.error);
    }
    Assembled(m, text.value, bitmap.value);
    r := Ok(m.mti + bitmap.value + text.value);
  }

  /** What is still to be read, on top of what has been. */
  predicate Pending(
    decode: Decoder, fs: seq<nat>, cursor: nat, out: map<nat, string>, whole: Result<(map<nat, string>, nat), Error>)
  {
    match DecodeAll(decode, fs, cursor)
    case Err(e) => whole == Err(e)
    case Ok(r) => whole == Ok((out + r.0, r.1))
  }

  lemma PendingStep(
    decode: Decoder, fs: seq<nat>, cursor: nat, out: map<nat, string>, whole: Result<(map<nat, string>, nat), Error>)
    requires fs != [] && fs[0] !in fs[1..] && Pending(decode, fs, cursor, out, whole)
    ensures match decode(fs[0], cursor)
            case Err(e) => whole == Err(e)
            case Ok(v) => Pending(decode, fs[1..], v.1, out[fs[0] := v.0], whole)
  {
    var one := decode(fs[0], cursor);
    if one.Ok? {
      var v, rest := one.value, DecodeAll(decode, fs[1..], one.value.1);
      if rest.Ok? {
        DecodedKeys(decode, fs[1..], v.1);
        assert out + rest.value.0[fs[0] := v.0] == out[fs[0] := v.0] + rest.value.0;
      }
    }
  }

  lemma {:induction false} DecodedKeys(decode: Decoder, fs: seq<nat>, cursor: nat)
    requires DecodeAll(decode, fs, cursor).Ok?
    ensures forall f :: f in DecodeAll(decode, fs, cursor).value.0 ==> f in fs
  {
    if fs != [] {
      DecodedKeys(decode, fs[1..], decode(fs[0], cursor).value.1);
    }
  }

  lemma {:induction false} BitsAscend(hex: string, p: nat)
    requires |hex| == 16 && p <= 64
    ensures Ascending(BitsUpTo(hex, p)) && forall i :: 0 <= i < |BitsUpTo(hex, p)| ==> BitsUpTo(hex, p)[i] <= p
  {
    if p > 0 {
      BitsAscend(hex, p - 1);
    }
  }

  method DecodeMessage(wire: string) returns (r: Result<Msg, Error>)
    ensures r == Decode(wire)
  {
    if |wire| < 20 {
      return Err(TooShort);
    }
    var fields := BitmapToFields(wire[4..20]);
    BitsAscend(wire[4..20], 64);
    ghost var whole := DecodeFields(fields, wire, 20);
    var cursor: nat, out: map<nat, string> := 20, map[];
    assert fields[0..] == fields;
    assert whole.Ok? ==> map[] + whole.value.0 == whole.value.0;
    for n := 0 to |fields|
      invariant Pending(FieldDecoder(wire), fields[n..], cursor, out, whole)
    {
      var f := fields[n];
      assert fields[n..][0] == f && fields[n..][1..] == fields[n + 1..];
      PendingStep(FieldDecoder(wire), fields[n..], cursor, out, whole);
      var v := DecodeOne(f, wire, cursor);
      if v.Err? {
        return Err(v.error);
      }
      out := out[f := v.value.0];
      cursor := v.value.1;
    }
    assert out + map[] == out;
    if cursor != |wire| {
      return Err(TrailingBytes);
    }
    return Ok(Msg(wire[..4], out));
  }
}
