/** The encrypting PIN pad: key handling, and the ISO 9564-1 format 0 PIN block. */
module PinPad {
  import opened Common
  import opened Text
  import Decimal

  // ----- Key entry -----

  datatype Spec = Spec(minLen: nat, maxLen: nat, terminateKeys: seq<string>, autoEnd: bool)

  datatype Mode = PinMode | DataMode

  datatype Entry = Entry(spec: Spec, mode: Mode)

  datatype Pad = Pad(buffer: string, active: Option<Entry>)

  /** What a key does to the waiting entry: nothing yet, an answer with a length or with data, or a rejection. */
  datatype Answer = Waiting | PinReady(length: nat) | DataReady(data: string) | Cancelled

  predicate IsDigitKey(key: string) { |key| == 1 && Decimal.IsDigit(key[0]) }

  predicate Terminates(spec: Spec, key: string) { key == "ENTER" || key in spec.terminateKeys }

  /** A digit that goes to the buffer: terminate keys come first. */
  predicate Typed(spec: Spec, key: string) { IsDigitKey(key) && !Terminates(spec, key) }

  function Terminate(pad: Pad): (Pad, Answer) {
    if pad.active.None? then (pad, Waiting)
    else if pad.active.value.mode.PinMode? then (pad.(active := None), PinReady(|pad.buffer|))
    else (Pad("", None), DataReady(pad.buffer))
  }

  function CancelEntry(pad: Pad): (Pad, Answer) {
    if pad.active.None? then (pad, Waiting) else (Pad("", None), Cancelled)
  }

  function Begin(spec: Spec, mode: Mode): Pad { Pad("", Some(Entry(spec, mode))) }

  function Press(pad: Pad, key: string): (Pad, Answer) {
    if pad.active.None? then (pad, Waiting)
    else
      var spec := pad.active.value.spec;
      if key == "CANCEL" then CancelEntry(pad)
      else if key == "CLEAR" then (pad.(buffer := ""), Waiting)
      else if Terminates(spec, key) then
        if |pad.buffer| < spec.minLen then (pad, Waiting) else Terminate(pad)
      else if IsDigitKey(key) && |pad.buffer| < spec.maxLen then
        var more := pad.(buffer := pad.buffer + key);
        if spec.autoEnd && |more.buffer| == spec.maxLen then Terminate(more) else (more, Waiting)
      else (pad, Waiting)
  }

  /** The pad after a sequence of keys, with the answer of the last one. */
  function Keys(pad: Pad, keys: seq<string>): (Pad, Answer) {
    if keys == [] then (pad, Waiting)
    else
      Press(Keys(pad, keys[..|keys| - 1]).0, keys[|keys| - 1])
  }

  /** The digits typed since the last CLEAR. */
  function SinceClear(spec: Spec, keys: seq<string>): (s: string)
    ensures Decimal.AllDigits(s)
  {
    if keys == [] then ""
    else
      var before, key := SinceClear(spec, keys[..|keys| - 1]), keys[|keys| - 1];
      if key == "CLEAR" then ""
      else if |key| == 1 && '0' <= key[0] <= '9' && key != "ENTER" && key !in spec.terminateKeys then before + key
      else before
  }

  function First(s: string, n: nat): string { if |s| <= n then s else s[..n] }

  lemma FirstMore(s: string, key: string, n: nat)
    requires |key| == 1
    ensures First(s + key, n) == if |First(s, n)| < n then First(s, n) + key else First(s, n)
  {
    if |s| < n {
      assert First(s, n) == s;
    } else {
      assert (s + key)[..n] == s[..n];
    }
  }

  /** While the entry waits, the buffer is the first digits typed since the last CLEAR, up to the limit. */
  lemma {:induction false} BufferIsTyped(spec: Spec, mode: Mode, keys: seq<string>)
    requires Keys(Begin(spec, mode), keys).0.active.Some?
    ensures Keys(Begin(spec, mode), keys).0 == Pad(First(SinceClear(spec, keys), spec.maxLen), Some(Entry(spec, mode)))
  {
    if keys != [] {
      var init, key := keys[..|keys| - 1], keys[|keys| - 1];
      BufferIsTyped(spec, mode, init);
      if key != "CLEAR" && Typed(spec, key) {
        FirstMore(SinceClear(spec, init), key, spec.maxLen);
      }
    }
  }

  /** The keys that end an entry with an answer, told from the digits typed alone. */
  predicate Ends(spec: Spec, before: seq<string>, key: string) {
    && key != "CANCEL" && key != "CLEAR"
    && var typed := |SinceClear(spec, before)|;
       if key == "ENTER" || key in spec.terminateKeys then typed >= spec.minLen && spec.maxLen >= spec.minLen
       else |key| == 1 && '0' <= key[0] <= '9' && spec.autoEnd && typed + 1 == spec.maxLen
  }

  /** A PIN entry is answered by exactly those keys, with the first digits typed since the last CLEAR. */
  lemma PinEntryExact(spec: Spec, before: seq<string>, key: string)
    requires Keys(Begin(spec, PinMode), before).0.active.Some?
    ensures var (pad, answer) := Keys(Begin(spec, PinMode), before + [key]);
            && (answer.PinReady? <==> Ends(spec, before, key))
            && (answer.PinReady? ==>
                 && pad == Pad(First(SinceClear(spec, before + [key]), spec.maxLen), None)
                 && answer.length == |pad.buffer|)
  {
    var keys := before + [key];
    assert keys[..|keys| - 1] == before;
    BufferIsTyped(spec, PinMode, before);
    if key != "CLEAR" && Typed(spec, key) {
      FirstMore(SinceClear(spec, before), key, spec.maxLen);
    }
  }

  /** A data entry is answered by the same keys, hands the digits out and keeps none. */
  lemma DataEntryExact(spec: Spec, before: seq<string>, key: string)
    requires Keys(Begin(spec, DataMode), before).0.active.Some?
    ensures var (pad, answer) := Keys(Begin(spec, DataMode), before + [key]);
            && (answer.DataReady? <==> Ends(spec, before, key))
            && (answer.DataReady? ==>
                 answer.data == First(SinceClear(spec, before + [key]), spec.maxLen) && pad == Pad("", None))
  {
    var keys := before + [key];
    assert keys[..|keys| - 1] == before;
    BufferIsTyped(spec, DataMode, before);
    if key != "CLEAR" && Typed(spec, key) {
      FirstMore(SinceClear(spec, before), key, spec.maxLen);
    }
  }

  /** CANCEL, and no other key, rejects the entry, and nothing of it stays. */
  lemma CancelExact(spec: Spec, mode: Mode, before: seq<string>, key: string)
    requires Keys(Begin(spec, mode), before).0.active.Some?
    ensures var (pad, answer) := Keys(Begin(spec, mode), before + [key]);
            (answer.Cancelled? <==> key == "CANCEL") && (answer.Cancelled? ==> pad == Pad("", None))
  {
    var keys := before + [key];
    assert keys[..|keys| - 1] == before;
    BufferIsTyped(spec, mode, before);
  }

  /** The digits kept are digits, and as many as the answer says: never too few to terminate, never above the limit. */
  lemma PinEntryBounds(spec: Spec, before: seq<string>, key: string)
    requires Keys(Begin(spec, PinMode), before).0.active.Some? && Ends(spec, before, key) && spec.minLen <= spec.maxLen
    ensures var pin := Keys(Begin(spec, PinMode), before + [key]).0.buffer;
            Decimal.AllDigits(pin) && spec.minLen <= |pin| <= spec.maxLen
  {
    PinEntryExact(spec, before, key);
    var keys := before + [key];
    assert keys[..|keys| - 1] == before;
  }

  // ----- The PIN block -----

  function XorBit(a: nat, b: nat): nat { if a % 2 == b % 2 then 0 else 1 }

  /** Exclusive or of the lowest `k` bits. */
  function Xor(a: nat, b: nat, k: nat): nat {
    if k == 0 then 0 else 2 * Xor(a / 2, b / 2, k - 1) + XorBit(a, b)
  }

  function Pow2(k: nat): nat { if k == 0 then 1 else 2 * Pow2(k - 1) }

  lemma {:induction false} XorBound(a: nat, b: nat, k: nat)
    ensures Xor(a, b, k) < Pow2(k)
  {
    if k > 0 {
      XorBound(a / 2, b / 2, k - 1);
    }
  }

  lemma {:induction false} XorTwice(a: nat, b: nat, k: nat)
    requires a < Pow2(k)
    ensures Xor(Xor(a, b, k), b, k) == a
  {
    if k > 0 {
      XorTwice(a / 2, b / 2, k - 1);
      assert Xor(a, b, k) / 2 == Xor(a / 2, b / 2, k - 1);
    }
  }

  function XorChar(a: char, b: char): char {
    XorBound(NibbleOf(a), NibbleOf(b), 4);
    assert Pow2(4) == 16 by { assert Pow2(2) == 4; }
    HexDigit(Xor(NibbleOf(a), NibbleOf(b), 4))
  }

  function XorHex(a: string, b: string): string
    requires |a| == |b|
  {
    seq(|a|, i requires 0 <= i < |a| => XorChar(a[i], b[i]))
  }

  datatype BlockError = NoPin | NoKey | BadLength

  function PinField(pin: string): string
    requires 4 <= |pin| <= 12
  {
    "0" + [HexDigit(|pin|)] + pin + Decimal.Repeat('F', 14 - |pin|)
  }

  /** `strip.slice(-13, -1).padStart(12, '0')`: the twelve digits before the check digit. */
  function PanDigits(pan: string): (s: string)
    ensures |s| == 12
  {
    var strip := Decimal.OnlyDigits(pan);
    var start, end := if |strip| <= 13 then 0 else |strip| - 13, if |strip| == 0 then 0 else |strip| - 1;
    Decimal.PadStart(strip[start..end], 12, '0')
  }

  function PanField(pan: string): string { "0000" + PanDigits(pan) }

  function PinBlock(pin: string, pan: string): Result<string, BlockError> {
    if 4 <= |pin| <= 12 then Ok(XorHex(PinField(pin), PanField(pan))) else Err(BadLength)
  }

  /** The PIN of a clear format 0 block, for one who knows the account number. */
  function RecoverPin(block: string, pan: string): string
    requires |block| == 16
  {
    var field := XorHex(block, PanField(pan));
    var n := NibbleOf(field[1]);
    if n <= 14 then field[2..2 + n] else ""
  }

  predicate AllHex(s: string) { forall i :: 0 <= i < |s| ==> s[i] in HEX }

  lemma XorCharTwice(a: char, b: char)
    requires a in HEX
    ensures XorChar(XorChar(a, b), b) == a && XorChar(a, b) in HEX
  {
    assert Pow2(4) == 16 by { assert Pow2(2) == 4; }
    XorTwice(NibbleOf(a), NibbleOf(b), 4);
    HexDigitOf(a);
  }

  lemma XorHexTwice(a: string, b: string)
    requires |a| == |b| && AllHex(a)
    ensures XorHex(XorHex(a, b), b) == a
  {
    forall i | 0 <= i < |a| ensures XorHex(XorHex(a, b), b)[i] == a[i] {
      XorCharTwice(a[i], b[i]);
    }
  }

  lemma PinFieldParts(pin: string)
    requires 4 <= |pin| <= 12 && Decimal.AllDigits(pin)
    ensures |PinField(pin)| == 16 && AllHex(PinField(pin))
    ensures NibbleOf(PinField(pin)[1]) == |pin| && PinField(pin)[2..2 + |pin|] == pin
  {
    assert forall i :: 0 <= i < |pin| ==> pin[i] in HEX by {
      forall i | 0 <= i < |pin| ensures pin[i] in HEX {
        DigitInHex(pin[i]);
      }
    }
    assert HEX[15] == 'F' && HEX[0] == '0';
  }

  lemma DigitInHex(c: char)
    requires Decimal.IsDigit(c)
    ensures c in HEX
  {
    assert HEX[Decimal.DigitValue(c)] == c;
  }

  /** Taking the account number out of a block again leaves the PIN field, whatever the account number is. */
  lemma BlockXorPan(pin: string, pan: string)
    requires 4 <= |pin| <= 12 && Decimal.AllDigits(pin)
    ensures |PinBlock(pin, pan).value| == 16 && XorHex(PinBlock(pin, pan).value, PanField(pan)) == PinField(pin)
  {
    PinFieldParts(pin);
    XorHexTwice(PinField(pin), PanField(pan));
  }

  lemma RecoverExact(pin: string, pan: string)
    requires 4 <= |pin| <= 12 && Decimal.AllDigits(pin)
    ensures |PinBlock(pin, pan).value| == 16 && RecoverPin(PinBlock(pin, pan).value, pan) == pin
  {
    BlockXorPan(pin, pan);
    PinFieldParts(pin);
  }

  /** Under one account number, blocks are equal exactly when the PINs are. */
  lemma BlockInjective(p: string, q: string, pan: string)
    requires 4 <= |p| <= 12 && Decimal.AllDigits(p) && 4 <= |q| <= 12 && Decimal.AllDigits(q)
    ensures PinBlock(p, pan) == PinBlock(q, pan) <==> p == q
  {
    RecoverExact(p, pan);
    RecoverExact(q, pan);
  }

  /**
   * From keys to block: every entry of four to twelve digits that is answered yields a block from which the
   * account number recovers exactly the first digits typed since the last CLEAR.
   */
  lemma EntryToBlock(spec: Spec, before: seq<string>, key: string, pan: string)
    requires 4 <= spec.minLen <= spec.maxLen <= 12
    requires Keys(Begin(spec, PinMode), before).0.active.Some? && Ends(spec, before, key)
    ensures var pin := Keys(Begin(spec, PinMode), before + [key]).0.buffer;
            && PinBlock(pin, pan).Ok? && |PinBlock(pin, pan).value| == 16
            && RecoverPin(PinBlock(pin, pan).value, pan) == First(SinceClear(spec, before + [key]), spec.maxLen)
  {
    PinEntryExact(spec, before, key);
    PinEntryBounds(spec, before, key);
    RecoverExact(Keys(Begin(spec, PinMode), before + [key]).0.buffer, pan);
  }

  // ----- The device -----

  /** The double-length keys in the device. */
  const KEYS: map<string, string> := map[
    "TPK" := "0123456789ABCDEF0123456789ABCDEF",
    "TMK" := "FEDCBA9876543210FEDCBA9876543210"]

  /** A block cipher on hexadecimal text: the clear text and the key. */
  type Cipher = (string, string) -> string

  class PinDevice {
    var pinBuffer: string
    var active: Option<Entry>
    const encrypt: Cipher

    function State(): Pad
      reads this
    {
      Pad(pinBuffer, active)
    }

    constructor (encrypt: Cipher)
      ensures State() == Pad("", None) && this.encrypt == encrypt
    {
      pinBuffer, active := "", None;
      this.encrypt := encrypt;
    }

    method BeginEntry(spec: Spec, mode: Mode) returns (superseded: Answer)
      modifies this
      ensures State() == Begin(spec, mode) && superseded == CancelEntry(old(State())).1
    {
      superseded := Cancel();
      pinBuffer := "";
      active := Some(Entry(spec, mode));
    }

    method PressKey(key: string) returns (answer: Answer)
      modifies this
      ensures (State(), answer) == Press(old(State()), key)
    {
      if active.None? {
        return Waiting;
      }
      var spec := active.value.spec;
      if key == "CANCEL" {
        answer := Cancel();
      } else if key == "CLEAR" {
        pinBuffer := "";
        answer := Waiting;
      } else if key == "ENTER" || key in spec.terminateKeys {
        if |pinBuffer| < spec.minLen {
          return Waiting;
        }
        answer := TerminateEntry();
      } else {
        answer := Waiting;
        if IsDigitKey(key) && |pinBuffer| < spec.maxLen {
          pinBuffer := pinBuffer + key;
          if spec.autoEnd && |pinBuffer| == spec.maxLen {
            answer := TerminateEntry();
          }
        }
      }
    }

    method TerminateEntry() returns (answer: Answer)
      modifies this
      ensures (State(), answer) == Terminate(old(State()))
    {
      if active.None? {
        return Waiting;
      }
      var mode := active.value.mode;
      active := None;
      if mode.PinMode? {
        answer := PinReady(|pinBuffer|);
      } else {
        answer := DataReady(pinBuffer);
        pinBuffer := "";
      }
    }

    method Cancel() returns (answer: Answer)
      modifies this
      ensures (State(), answer) == CancelEntry(old(State()))
    {
      if active.None? {
        return Waiting;
      }
      active := None;
      pinBuffer := "";
      answer := Cancelled;
    }

    method ExtractEnteredPin() returns (pin: string)
      modifies this
      ensures pin == old(pinBuffer) && State() == old(State()).(buffer := "")
    {
      pin := pinBuffer;
      pinBuffer := "";
    }

    /** The encrypted block; the buffer is wiped only when one is made. */
    method GetPinBlock(keyName: string, pan: string) returns (r: Result<string, BlockError>)
      modifies this
      ensures r == Encrypted(encrypt, old(pinBuffer), keyName, pan)
      ensures State() == if r.Ok? then old(State()).(buffer := "") else old(State())
    {
      if pinBuffer == "" {
        return Err(NoPin);
      }
      if keyName !in KEYS {
        return Err(NoKey);
      }
      if |pinBuffer| < 4 || |pinBuffer| > 12 {
        return Err(BadLength);
      }
      var block := XorStrings(PinField(pinBuffer), PanField(pan));
      pinBuffer := "";
      r := Ok(encrypt(block, KEYS[keyName]));
    }
  }

  method XorStrings(a: string, b: string) returns (out: string)
    requires |a| == |b|
    ensures out == XorHex(a, b)
  {
    out := "";
    for i := 0 to |a|
      invariant |out| == i && forall k :: 0 <= k < i ==> out[k] == XorChar(a[k], b[k])
    {
      out := out + [XorChar(a[i], b[i])];
    }
  }

  /** What the device gives out for a buffered PIN, under one of its keys. */
  function Encrypted(encrypt: Cipher, pin: string, keyName: string, pan: string): Result<string, BlockError> {
    if pin == "" then Err(NoPin)
    else if keyName !in KEYS then Err(NoKey)
    else
      match PinBlock(pin, pan)
      case Err(e) => Err(e)
      case Ok(block) => Ok(encrypt(block, KEYS[keyName]))
  }

  /** For any cipher that its key undoes, who holds key and account number recovers the PIN from what is given out. */
  lemma EncryptedRecovers(encrypt: Cipher, decrypt: Cipher, pin: string, keyName: string, pan: string)
    requires forall block: string, key: string :: decrypt(encrypt(block, key), key) == block
    requires 4 <= |pin| <= 12 && Decimal.AllDigits(pin) && keyName in KEYS
    ensures Encrypted(encrypt, pin, keyName, pan).Ok?
    ensures var clear := decrypt(Encrypted(encrypt, pin, keyName, pan).value, KEYS[keyName]);
            |clear| == 16 && RecoverPin(clear, pan) == pin
  {
    RecoverExact(pin, pan);
  }

  /** One whole entry at the device: the answer and the buffer are those of the key sequence. */
  method EnterKeys(spec: Spec, mode: Mode, keys: seq<string>) returns (pad: Pad, answer: Answer)
    ensures (pad, answer) == Keys(Begin(spec, mode), keys)
  {
    var device := new PinDevice((block: string, key: string) => block);
    var superseded := device.BeginEntry(spec, mode);
    answer := Waiting;
    for n := 0 to |keys|
      invariant fresh(device) && (device.State(), answer) == Keys(Begin(spec, mode), keys[..n])
    {
      answer := device.PressKey(keys[n]);
      assert keys[..n + 1][..n] == keys[..n];
    }
    assert keys[..|keys|] == keys;
    pad := device.State();
  }
}
