/** Values shared by every component: optional values, results, and bytes. */
module Common {
  datatype Option<+T> = None | Some(value: T) {
    function GetOr(default: T): T { if Some? then value else default }
  }

  datatype Result<+T, +E> = Ok(value: T) | Err(error: E)

  type byte = b: int | 0 <= b < 256

  predicate IsPrefix<T(==)>(a: seq<T>, b: seq<T>) { |a| <= |b| && a == b[..|a|] }

  lemma PrefixTrans<T>(a: seq<T>, b: seq<T>, c: seq<T>)
    requires IsPrefix(a, b) && IsPrefix(b, c)
    ensures IsPrefix(a, c)
  {
  }

  function BigEndian(bs: seq<byte>): nat {
    if bs == [] then 0 else BigEndian(bs[..|bs| - 1]) * 256 + bs[|bs| - 1]
  }

  lemma BigEndianPair(h: byte, l: byte)
    ensures BigEndian([l]) == l && BigEndian([h, l]) == h * 256 + l
  {
    assert [l][..0] == [] && [h][..0] == [] && [h, l][..1] == [h];
    assert BigEndian([h]) == h;
  }
}

/** Decimal text: the `String(n)` / `parseInt` pair used for lengths, trace numbers and ids. */
module Decimal {
  const DIGITS := "0123456789"

  predicate IsDigit(c: char) { '0' <= c <= '9' }

  predicate AllDigits(s: string) { forall i :: 0 <= i < |s| ==> IsDigit(s[i]) }

  function DigitChar(d: nat): (c: char)
    requires d < 10
    ensures IsDigit(c) && DigitValue(c) == d
  {
    DIGITS[d]
  }

  function DigitValue(c: char): (d: nat)
    requires IsDigit(c)
    ensures d < 10
  {
    c as int - '0' as int
  }

  function Show(n: nat): (s: string)
    ensures AllDigits(s) && |s| > 0
  {
    if n < 10 then [DigitChar(n)] else Show(n / 10) + [DigitChar(n % 10)]
  }

  function Read(s: string): nat
    requires AllDigits(s)
  {
    if s == [] then 0 else 10 * Read(s[..|s| - 1]) + DigitValue(s[|s| - 1])
  }

  function Repeat(c: char, n: nat): (s: string)
    ensures |s| == n && forall i :: 0 <= i < n ==> s[i] == c
  {
    seq(n, _ => c)
  }

  /** JavaScript's `s.padStart(n, c)`. */
  function PadStart(s: string, n: nat, c: char): string {
    if |s| >= n then s else Repeat(c, n - |s|) + s
  }

  /** JavaScript's `s.replace(/\D/g, '')`. */
  function OnlyDigits(s: string): (d: string)
    ensures AllDigits(d)
  {
    if s == "" then "" else (if IsDigit(s[0]) then [s[0]] else "") + OnlyDigits(s[1..])
  }

  /** Parsing undoes printing. */
  lemma {:induction false} ReadShow(n: nat)
    ensures Read(Show(n)) == n
  {
    if n >= 10 {
      ReadShow(n / 10);
      assert Show(n)[..|Show(n)| - 1] == Show(n / 10);
    }
  }

  lemma {:induction false} ShowInjective(m: nat, n: nat)
    requires Show(m) == Show(n)
    ensures m == n
  {
    ReadShow(m);
    ReadShow(n);
  }

  /** Leading zeros do not change the number read. */
  lemma {:induction false} ReadZeros(k: nat, s: string)
    requires AllDigits(s)
    ensures AllDigits(Repeat('0', k) + s) && Read(Repeat('0', k) + s) == Read(s)
    decreases |s|, k
  {
    var t := Repeat('0', k) + s;
    if s == [] {
      if k > 0 {
        assert t[..|t| - 1] == Repeat('0', k - 1) + s;
        ReadZeros(k - 1, s);
      }
    } else {
      assert t[..|t| - 1] == Repeat('0', k) + s[..|s| - 1];
      ReadZeros(k, s[..|s| - 1]);
    }
  }

  lemma {:induction false} ReadPadded(n: nat, width: nat)
    ensures AllDigits(PadStart(Show(n), width, '0'))
    ensures Read(PadStart(Show(n), width, '0')) == n
  {
    ReadShow(n);
    if |Show(n)| < width {
      ReadZeros(width - |Show(n)|, Show(n));
    }
  }

  /** The printed width is bounded by any power-of-ten bound on the number. */
  lemma {:induction false} ShowWidth(n: nat, width: nat)
    requires width > 0 && n < Pow10(width)
    ensures |Show(n)| <= width
  {
    if n >= 10 {
      ShowWidth(n / 10, width - 1);
    }
  }

  lemma {:induction false} Repeated(c: char, n: nat)
    ensures |Repeat(c, n)| == n && forall i :: 0 <= i < n ==> Repeat(c, n)[i] == c
  {
    if n > 0 {
      Repeated(c, n - 1);
    }
  }

  lemma {:induction false} DigitsStay(s: string)
    requires AllDigits(s)
    ensures OnlyDigits(s) == s
  {
    if s != "" {
      DigitsStay(s[1..]);
    }
  }

  lemma {:induction false} OthersGo(a: string, c: char, b: string)
    requires !('0' <= c <= '9')
    ensures OnlyDigits(a + [c] + b) == OnlyDigits(a + b)
    decreases |a|
  {
    if a == "" {
      assert ([c] + b)[1..] == b && a + [c] + b == [c] + b && a + b == b;
    } else {
      OthersGo(a[1..], c, b);
      assert (a + [c] + b)[1..] == a[1..] + [c] + b && (a + b)[1..] == a[1..] + b;
    }
  }

  lemma {:induction false} OnlyDigitsShorter(s: string)
    ensures |OnlyDigits(s)| <= |s|
    ensures OnlyDigits(s) == s <==> AllDigits(s)
  {
    if s != "" {
      OnlyDigitsShorter(s[1..]);
      assert AllDigits(s) <==> IsDigit(s[0]) && AllDigits(s[1..]) by {
        if IsDigit(s[0]) && AllDigits(s[1..]) {
          assert forall i :: 0 < i < |s| ==> s[i] == s[1..][i - 1];
        }
      }
      assert s == [s[0]] + s[1..];
      if !IsDigit(s[0]) {
        assert |OnlyDigits(s)| < |s|;
      } else {
        assert OnlyDigits(s)[1..] == OnlyDigits(s[1..]);
      }
    }
  }

  function Pow10(k: nat): nat { if k == 0 then 1 else 10 * Pow10(k - 1) }
}

/** Text as JavaScript sees it: white space and hexadecimal digits. */
module Text {
  import opened Common

  /** `text` stands at offset `p` of the body. */
  predicate At(body: string, p: nat, text: string) {
    p + |text| <= |body| && forall i :: 0 <= i < |text| ==> body[p + i] == text[i]
  }

  lemma AtParts(body: string, p: nat, a: string, b: string)
    requires At(body, p, a + b)
    ensures At(body, p, a) && At(body, p + |a|, b)
  {
    assert forall i :: 0 <= i < |a| ==> body[p + i] == (a + b)[i] == a[i];
    assert forall i :: 0 <= i < |b| ==> body[p + (|a| + i)] == (a + b)[|a| + i] == b[i];
  }

  /** The characters that `\s`, `trim` and `parseInt` take as white space. */
  predicate IsBlank(c: char) {
    || c == ' ' || '\t' <= c <= '\r' || c == '\U{A0}' || c == '\U{1680}' || '\U{2000}' <= c <= '\U{200A}'
    || c == '\U{2028}' || c == '\U{2029}' || c == '\U{202F}' || c == '\U{205F}' || c == '\U{3000}' || c == '\U{FEFF}'
  }

  const HEX := "0123456789ABCDEF"

  function HexDigit(d: nat): (c: char)
    requires d < 16
    ensures HexValue(c) == Some(d) && !IsBlank(c)
  {
    HEX[d]
  }

  function HexValue(c: char): (v: Option<nat>)
    ensures v.Some? ==> v.value < 16
  {
    if '0' <= c <= '9' then Some(c as int - '0' as int)
    else if 'A' <= c <= 'F' then Some(c as int - 'A' as int + 10)
    else if 'a' <= c <= 'f' then Some(c as int - 'a' as int + 10)
    else None
  }

  /** `parseInt(c, 16)` as an operand of `>>` or `^`: what is no hexadecimal digit counts as zero. */
  function NibbleOf(c: char): (n: nat)
    ensures n < 16
  {
    HexValue(c).GetOr(0)
  }

  lemma HexDigitOf(c: char)
    requires c in HEX
    ensures HexDigit(NibbleOf(c)) == c
  {
  }
}
