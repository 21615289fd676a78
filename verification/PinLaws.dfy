/** The account number in a PIN block, digit by digit, and a block of ISO 9564-1 in full. */
module PinLaws {
  import opened Common
  import opened Text
  import opened PinPad
  import Decimal

  /**
   * The account number field is 0000 and the twelve digits that precede the check digit, with zeros in front when
   * there are fewer.
   */
  lemma PanFieldExact(pan: string)
    requires Decimal.AllDigits(pan) && pan != ""
    ensures |PanField(pan)| == 16 && PanField(pan)[..4] == "0000"
    ensures |pan| >= 13 ==> PanField(pan)[4..] == pan[|pan| - 13..|pan| - 1]
    ensures |pan| < 13 ==>
              && PanField(pan)[17 - |pan|..] == pan[..|pan| - 1]
              && forall i :: 4 <= i < 17 - |pan| ==> PanField(pan)[i] == '0'
  {
    Decimal.DigitsStay(pan);
    if |pan| < 13 {
      var zeros := Decimal.Repeat('0', 13 - |pan|);
      Decimal.Repeated('0', 13 - |pan|);
      assert PanField(pan) == "0000" + (zeros + pan[..|pan| - 1]);
    }
  }

  /** Blanks, dashes and whatever else is no digit do not matter. */
  lemma SeparatorsIgnored(a: string, c: char, b: string)
    requires !('0' <= c <= '9')
    ensures PanField(a + [c] + b) == PanField(a + b)
  {
    Decimal.OthersGo(a, c, b);
  }

  /** The PIN field is 0, the length, the PIN, and F up to sixteen digits. */
  lemma PinFieldExact(pin: string)
    requires 4 <= |pin| <= 12
    ensures var field := PinField(pin);
            && |field| == 16 && field[0] == '0' && field[1] == "0123456789ABCDEF"[|pin|]
            && field[2..2 + |pin|] == pin && forall i :: 2 + |pin| <= i < 16 ==> field[i] == 'F'
  {
    Decimal.Repeated('F', 14 - |pin|);
  }

  // ----- One block in full -----

  lemma XorStep(a: nat, b: nat, k: nat)
    requires k > 0
    ensures Xor(a, b, k) == 2 * Xor(a / 2, b / 2, k - 1) + if a % 2 == b % 2 then 0 else 1
  {
  }

  lemma XorNibble(a: nat, b: nat)
    requires a < 16 && b < 16
    ensures Xor(a, b, 4) ==
            8 * (if a / 8 == b / 8 then 0 else 1) + 4 * (if a / 4 % 2 == b / 4 % 2 then 0 else 1) +
            2 * (if a / 2 % 2 == b / 2 % 2 then 0 else 1) + (if a % 2 == b % 2 then 0 else 1)
  {
    XorStep(a, b, 4);
    XorStep(a / 2, b / 2, 3);
    XorStep(a / 2 / 2, b / 2 / 2, 2);
    XorStep(a / 2 / 2 / 2, b / 2 / 2 / 2, 1);
    Halves(a);
    Halves(b);
  }

  lemma Halves(a: nat)
    requires a < 16
    ensures a / 2 / 2 == a / 4 && a / 2 / 2 / 2 == a / 8 && a / 8 % 2 == a / 8
  {
  }

  lemma Bits(a: nat)
    requires a < 16
    ensures 8 * (a / 8) + 4 * (a / 4 % 2) + 2 * (a / 2 % 2) + a % 2 == a
    ensures a / 8 == 0 || a / 8 == 1
  {
  }

  lemma Fifteen()
    ensures 15 / 8 == 1 && 15 / 4 % 2 == 1 && 15 / 2 % 2 == 1 && 15 % 2 == 1
  {
  }

  lemma Flipped(p: nat, q: nat, r: nat, s: nat)
    requires p < 2 && q < 2 && r < 2 && s < 2
    ensures 8 * (if 1 == p then 0 else 1) + 4 * (if 1 == q then 0 else 1) + 2 * (if 1 == r then 0 else 1) +
            (if 1 == s then 0 else 1) == 15 - (8 * p + 4 * q + 2 * r + s)
  {
  }

  /** With F, a digit gives its complement to fifteen. */
  lemma XorF(b: nat)
    requires b < 16
    ensures Xor(15, b, 4) == 15 - b
  {
    XorNibble(15, b);
    Fifteen();
    Bits(b);
    Flipped(b / 8, b / 4 % 2, b / 2 % 2, b % 2);
  }

  lemma XorZero(a: nat)
    requires a < 16
    ensures Xor(a, 0, 4) == a
  {
    XorNibble(a, 0);
    Bits(a);
  }

  /** The exclusive or of two digits of known values. */
  lemma XorDigits(a: char, b: char, x: nat, y: nat, z: nat)
    requires NibbleOf(a) == x && NibbleOf(b) == y && Xor(x, y, 4) == z && z < 16
    ensures XorChar(a, b) == HEX[z]
  {
  }

  const PIN_FIELD := "041234FFFFFFFFFF"
  const PAN_FIELD := "0000987654321098"
  const BLOCK := "0412AC89ABCDEF67"

  lemma SampleFirst(i: nat)
    requires i < 4
    ensures XorChar(PIN_FIELD[i], PAN_FIELD[i]) == BLOCK[i]
  {
    var n := NibbleOf(PIN_FIELD[i]);
    XorZero(n);
    XorDigits(PIN_FIELD[i], '0', n, 0, n);
    assert HEX[0] == '0' && HEX[4] == '4' && HEX[1] == '1' && HEX[2] == '2';
  }

  lemma SampleMiddle(x: nat, y: nat)
    requires (x == 3 && y == 9) || (x == 4 && y == 8)
    ensures Xor(x, y, 4) == if x == 3 then 10 else 12
  {
    XorNibble(x, y);
  }

  lemma SampleFifth(i: nat)
    requires i == 4 || i == 5
    ensures XorChar(PIN_FIELD[i], PAN_FIELD[i]) == BLOCK[i]
  {
    var x, y := NibbleOf(PIN_FIELD[i]), NibbleOf(PAN_FIELD[i]);
    SampleMiddle(x, y);
    XorDigits(PIN_FIELD[i], PAN_FIELD[i], x, y, if x == 3 then 10 else 12);
    assert HEX[10] == 'A' && HEX[12] == 'C';
  }

  lemma SampleLast(i: nat)
    requires 6 <= i < 16
    ensures XorChar(PIN_FIELD[i], PAN_FIELD[i]) == BLOCK[i]
  {
    var n := NibbleOf(PAN_FIELD[i]);
    XorF(n);
    XorDigits('F', PAN_FIELD[i], 15, n, 15 - n);
    Complements(PAN_FIELD[i], BLOCK[i], i);
  }

  lemma SamplePin(pin: string)
    requires pin == "1234"
    ensures PinField(pin) == PIN_FIELD
  {
    PinFieldExact(pin);
    var f := PinField(pin);
    assert f[2] == f[2..6][0] && f[3] == f[2..6][1] && f[4] == f[2..6][2] && f[5] == f[2..6][3];
    assert "0123456789ABCDEF"[4] == '4';
    forall i | 0 <= i < 16 ensures f[i] == PIN_FIELD[i] {
      if i >= 6 {
        assert f[i] == 'F';
      }
    }
  }

  lemma SamplePan(pan: string)
    requires pan == "43219876543210987"
    ensures PanField(pan) == PAN_FIELD
  {
    PanFieldExact(pan);
    var p := PanField(pan);
    assert |pan| == 17 && p[4..] == pan[4..16] && p[..4] == "0000";
    forall i | 0 <= i < 16 ensures p[i] == PAN_FIELD[i] {
      if i < 4 {
        assert p[i] == p[..4][i];
      } else {
        assert p[i] == p[4..][i - 4] == pan[i];
      }
    }
  }

  lemma SampleXor(pin: string, pan: string)
    requires pin == PIN_FIELD && pan == PAN_FIELD
    ensures XorHex(pin, pan) == BLOCK
  {
    forall i | 0 <= i < 16 ensures XorChar(pin[i], pan[i]) == BLOCK[i] {
      if i < 4 {
        SampleFirst(i);
      } else if i >= 6 {
        SampleLast(i);
      } else {
        SampleFifth(i);
      }
    }
  }

  /** PIN 1234 under account number 43219876543210987 gives the block 0412AC89ABCDEF67. */
  lemma SampleBlock(pin: string, pan: string)
    requires pin == "1234" && pan == "43219876543210987"
    ensures PinBlock(pin, pan) == Ok("0412AC89ABCDEF67")
  {
    SamplePin(pin);
    SamplePan(pan);
    SampleXor(PinField(pin), PanField(pan));
  }

  lemma Complements(c: char, d: char, i: nat)
    requires 6 <= i < 16 && c == PAN_FIELD[i] && d == BLOCK[i]
    ensures HEX[15 - NibbleOf(c)] == d
  {
    assert HEX[6] == '6' && HEX[7] == '7' && HEX[8] == '8' && HEX[9] == '9' && HEX[10] == 'A' && HEX[11] == 'B';
    assert HEX[12] == 'C' && HEX[13] == 'D' && HEX[14] == 'E' && HEX[15] == 'F';
  }

  // ----- The device -----

  /** No PIN, an unknown key, a wrong length, in this order; else the block under the key of that name. */
  lemma EncryptedExactly(encrypt: Cipher, pin: string, keyName: string, pan: string)
    ensures var r := Encrypted(encrypt, pin, keyName, pan);
            var known := keyName == "TPK" || keyName == "TMK";
            && (r == Err(NoPin) <==> pin == "")
            && (r == Err(NoKey) <==> pin != "" && !known)
            && (r == Err(BadLength) <==> pin != "" && known && !(4 <= |pin| <= 12))
            && (4 <= |pin| <= 12 && keyName == "TPK" ==>
                  r == Ok(encrypt(PinBlock(pin, pan).value, "0123456789ABCDEF0123456789ABCDEF")))
            && (4 <= |pin| <= 12 && keyName == "TMK" ==>
                  r == Ok(encrypt(PinBlock(pin, pan).value, "FEDCBA9876543210FEDCBA9876543210")))
  {
  }
}
