/** RFC 8259 as a grammar of its own, and what of it the writer produces and the reader understands. */
module JsonGrammar {
  import opened Common
  import opened Text
  import opened MiniJson
  import Decimal

  // ----- Strings (section 7) -----

  /** What a backslash and one more character denote. */
  function Escaped(c: char): Option<char> {
    match c
    case '"' => Some('"')
    case '\\' => Some('\\')
    case '/' => Some('/')
    case 'b' => Some('\U{0008}')
    case 'f' => Some('\U{000C}')
    case 'n' => Some('\U{000A}')
    case 'r' => Some('\U{000D}')
    case 't' => Some('\U{0009}')
    case _ => None
  }

  /** Four hexadecimal digits and the number they write. */
  predicate FourHex(text: string, n: int) {
    && |text| == 4 && (forall i :: 0 <= i < 4 ==> HexValue(text[i]).Some?)
    && n == 4096 * NibbleOf(text[0]) + 256 * NibbleOf(text[1]) + 16 * NibbleOf(text[2]) + NibbleOf(text[3])
  }

  /** The text between the quotes of a string denotes `s`: no bare quote, and no character below U+0020. */
  predicate Body(text: string, s: string)
    decreases |text|
  {
    if text == "" then s == ""
    else if s == "" then false
    else if text[0] == '\\' then
      || (|text| >= 2 && Escaped(text[1]) == Some(s[0]) && Body(text[2..], s[1..]))
      || (|text| >= 6 && text[1] == 'u' && FourHex(text[2..6], s[0] as int) && Body(text[6..], s[1..]))
    else text[0] != '"' && text[0] >= '\U{0020}' && text[0] == s[0] && Body(text[1..], s[1..])
  }

  /** The only control characters are newline, return and tab. */
  predicate Printable(s: string) {
    forall i :: 0 <= i < |s| && s[i] < '\U{0020}' ==> s[i] in {'\U{000A}', '\U{000D}', '\U{0009}'}
  }

  /** No character below U+0020. */
  predicate Clean(text: string) { forall i :: 0 <= i < |text| ==> text[i] >= '\U{0020}' }

  lemma EscapedHead(x: char, c: char, rest: string, t: string)
    requires Escaped(x) == Some(c)
    ensures Body(['\\', x] + rest, [c] + t) <==> Body(rest, t)
  {
    var text := ['\\', x] + rest;
    assert text[0] == '\\' && text[1] == x && text[2..] == rest && ([c] + t)[1..] == t;
  }

  lemma PlainHead(c: char, rest: string, t: string)
    requires c != '"' && c != '\\'
    ensures Body([c] + rest, [c] + t) <==> c >= '\U{0020}' && Body(rest, t)
  {
    assert ([c] + rest)[1..] == rest && ([c] + t)[1..] == t;
  }

  lemma EscapeHead(c: char, rest: string, t: string)
    ensures Body(EscapeChar(c) + rest, [c] + t) <==> Printable([c]) && Body(rest, t)
  {
    assert [c][0] == c;
    match c
    case '"' => EscapedHead('"', c, rest, t);
    case '\\' => EscapedHead('\\', c, rest, t);
    case '\n' => EscapedHead('n', c, rest, t);
    case '\r' => EscapedHead('r', c, rest, t);
    case '\t' => EscapedHead('t', c, rest, t);
    case _ => PlainHead(c, rest, t);
  }

  lemma PrintableCons(s: string)
    requires s != ""
    ensures Printable(s) <==> Printable([s[0]]) && Printable(s[1..])
  {
    assert s == [s[0]] + s[1..];
  }

  /** What the writer puts between quotes denotes the string, for exactly those without other control characters. */
  lemma {:induction false} EscapeExact(s: string)
    ensures Body(Escape(s), s) <==> Printable(s)
  {
    if s != "" {
      EscapeHead(s[0], Escape(s[1..]), s[1..]);
      assert [s[0]] + s[1..] == s;
      EscapeExact(s[1..]);
      PrintableCons(s);
    }
  }

  /** A text denotes at most one string. */
  lemma {:induction false} BodyUnique(text: string, s: string, t: string)
    requires Body(text, s) && Body(text, t)
    ensures s == t
    decreases |text|
  {
    if text != "" {
      if text[0] != '\\' {
        BodyUnique(text[1..], s[1..], t[1..]);
      } else if text[1] == 'u' {
        BodyUnique(text[6..], s[1..], t[1..]);
      } else {
        BodyUnique(text[2..], s[1..], t[1..]);
      }
      assert s == [s[0]] + s[1..] && t == [t[0]] + t[1..];
    }
  }

  // ----- What the reader makes of a string -----

  /** Every escape is one of those that the reader knows: no \b, \f or \u. */
  predicate Known(text: string)
    decreases |text|
  {
    if text == "" then true
    else if text[0] == '\\' then
      |text| >= 2 && text[1] in {'"', '\\', '/', 'n', 'r', 't'} && Known(text[2..])
    else Known(text[1..])
  }

  /** Unescaping drops one character for each escape; a \u denotes one for six. */
  lemma {:induction false} NeverShorter(text: string, s: string)
    requires Body(text, s)
    ensures |Unescape(text)| >= |s|
    decreases |text|
  {
    if text != "" {
      if text[0] != '\\' {
        NeverShorter(text[1..], s[1..]);
      } else if text[1] != 'u' {
        NeverShorter(text[2..], s[1..]);
      } else {
        NeverShorter(text[6..], s[1..]);
        UnescapeSkips(text[2..], 4);
        assert text[2..][4..] == text[6..];
      }
    }
  }

  lemma {:induction false} UnescapeSkips(text: string, k: nat)
    requires k <= |text| && forall i :: 0 <= i < k ==> text[i] != '\\'
    ensures |Unescape(text)| == k + |Unescape(text[k..])|
  {
    if k > 0 {
      UnescapeSkips(text[1..], k - 1);
      assert text[1..][k - 1..] == text[k..];
    }
  }

  lemma HexNoBackslash(text: string, n: int)
    requires |text| >= 6 && FourHex(text[2..6], n)
    ensures forall i :: 0 <= i < 4 ==> text[2..][i] != '\\'
  {
    forall i | 0 <= i < 4 ensures text[2..][i] != '\\' {
      assert text[2..6][i] == text[2..][i];
    }
  }

  /** The reader unescapes a JSON string to what it denotes if and only if it has only escapes that it knows. */
  lemma {:induction false} UnescapeExact(text: string, s: string)
    requires Body(text, s)
    ensures Unescape(text) == s <==> Known(text)
    decreases |text|
  {
    if text != "" {
      assert s == [s[0]] + s[1..];
      if text[0] != '\\' {
        UnescapeExact(text[1..], s[1..]);
        HeadsAndTails(text[0], Unescape(text[1..]), s);
      } else if text[1] != 'u' {
        UnescapeExact(text[2..], s[1..]);
        HeadsAndTails(UnescapeChar(text[1]), Unescape(text[2..]), s);
      } else {
        NeverShorter(text[6..], s[1..]);
        HexNoBackslash(text, s[0] as int);
        UnescapeSkips(text[2..], 4);
        assert text[2..][4..] == text[6..];
      }
    }
  }

  lemma HeadsAndTails(c: char, rest: string, s: string)
    requires s != ""
    ensures [c] + rest == s <==> c == s[0] && rest == s[1..]
  {
    assert s == [s[0]] + s[1..];
    if [c] + rest == s {
      assert ([c] + rest)[1..] == rest;
    }
  }

  // ----- Numbers and literals (sections 6 and 3) -----

  function DigitsValue(text: string): int {
    if text == "" then 0 else 10 * DigitsValue(text[..|text| - 1]) + (text[|text| - 1] as int - '0' as int)
  }

  /** Digits without a leading zero. */
  predicate Unsigned(text: string, n: int) {
    && text != "" && (forall i :: 0 <= i < |text| ==> '0' <= text[i] <= '9')
    && (|text| > 1 ==> text[0] != '0') && DigitsValue(text) == n
  }

  predicate Denotes(text: string, v: Value) {
    match v
    case Str(s) => |text| >= 2 && text[0] == '"' && text[|text| - 1] == '"' && Body(text[1..|text| - 1], s)
    case Int(n) => if text != "" && text[0] == '-' then Unsigned(text[1..], -n) else Unsigned(text, n)
    case Bool(b) => text == if b then "true" else "false"
    case Null => text == "null"
  }

  lemma {:induction false} ShowUnsigned(n: nat)
    ensures Unsigned(Decimal.Show(n), n) && (n > 0 ==> Decimal.Show(n)[0] != '0')
  {
    var s := Decimal.Show(n);
    if n >= 10 {
      ShowUnsigned(n / 10);
      var head, d := Decimal.Show(n / 10), Decimal.DigitChar(n % 10);
      assert s == head + [d] && s[..|s| - 1] == head && s[0] == head[0];
    } else {
      assert s[..0] == [];
    }
  }

  lemma QuotedBody(s: string)
    ensures var text := "\"" + Escape(s) + "\"";
            |text| >= 2 && text[0] == '"' && text[|text| - 1] == '"' && text[1..|text| - 1] == Escape(s)
  {
  }

  lemma IntDenotes(n: int)
    ensures Denotes(ShowInt(n), Int(n))
  {
    if n < 0 {
      ShowUnsigned(-n);
      assert ("-" + Decimal.Show(-n))[1..] == Decimal.Show(-n);
    } else {
      ShowUnsigned(n);
    }
  }

  lemma StrDenotes(s: string)
    requires Printable(s)
    ensures Denotes("\"" + Escape(s) + "\"", Str(s))
  {
    QuotedBody(s);
    EscapeExact(s);
  }

  lemma ValueDenotes(v: Value)
    requires v.Str? ==> Printable(v.s)
    ensures Denotes(ValueText(v), v)
  {
    match v
    case Str(s) => StrDenotes(s);
    case Int(n) => IntDenotes(n);
    case _ =>
  }

  // ----- Objects (section 4) -----

  ghost predicate IsMember(text: string, f: Field) {
    exists k: string, v: string :: MemberOf(text, f, k, v)
  }

  predicate MemberOf(text: string, f: Field, k: string, v: string) {
    text == k + ":" + v && Denotes(k, Str(f.key)) && Denotes(v, f.value)
  }

  /** Members, one or more, with commas between them; or none. */
  ghost predicate AreMembers(text: string, fs: seq<Field>)
    decreases |fs|
  {
    if fs == [] then text == ""
    else if |fs| == 1 then IsMember(text, fs[0])
    else exists a: string, b: string :: CommaAt(text, a, b) && IsMember(a, fs[0]) && AreMembers(b, fs[1..])
  }

  predicate CommaAt(text: string, a: string, b: string) { text == a + "," + b }

  ghost predicate IsObject(text: string, fs: seq<Field>) {
    |text| >= 2 && text[0] == '{' && text[|text| - 1] == '}' && AreMembers(text[1..|text| - 1], fs)
  }

  predicate FieldPrintable(f: Field) { Printable(f.key) && (f.value.Str? ==> Printable(f.value.s)) }

  predicate AllPrintable(fs: seq<Field>) { forall i :: 0 <= i < |fs| ==> FieldPrintable(fs[i]) }

  lemma MemberIsMember(f: Field)
    requires FieldPrintable(f)
    ensures IsMember(Member(f), f)
  {
    ValueDenotes(Str(f.key));
    ValueDenotes(f.value);
    var k, v := ValueText(Str(f.key)), ValueText(f.value);
    assert Member(f) == k + ":" + v;
    assert MemberOf(Member(f), f, k, v);
  }

  lemma {:induction false} MembersAreMembers(fs: seq<Field>)
    requires AllPrintable(fs)
    ensures AreMembers(Members(fs), fs)
  {
    if fs != [] {
      assert FieldPrintable(fs[0]);
      MemberIsMember(fs[0]);
      if |fs| > 1 {
        MembersAreMembers(fs[1..]);
        assert CommaAt(Members(fs), Member(fs[0]), Members(fs[1..]));
      }
    }
  }

  // ----- Nothing below U+0020 -----

  lemma CleanConcat(a: string, b: string)
    ensures Clean(a + b) <==> Clean(a) && Clean(b)
  {
    if Clean(a + b) {
      assert forall i :: 0 <= i < |a| ==> a[i] == (a + b)[i];
      assert forall i :: 0 <= i < |b| ==> b[i] == (a + b)[|a| + i];
    }
  }

  lemma {:induction false} EscapeClean(s: string)
    ensures Clean(Escape(s)) <==> Printable(s)
  {
    if s != "" {
      EscapeClean(s[1..]);
      CleanConcat(EscapeChar(s[0]), Escape(s[1..]));
      CharClean(s[0]);
      PrintableCons(s);
    }
  }

  lemma CharClean(c: char)
    ensures Clean(EscapeChar(c)) <==> Printable([c])
  {
    assert [c][0] == c;
    if EscapeChar(c) == [c] {
      assert EscapeChar(c)[0] == c;
    }
  }

  lemma {:induction false} ShowClean(n: nat)
    ensures Clean(Decimal.Show(n))
  {
    ShowUnsigned(n);
  }

  lemma ValueClean(v: Value)
    ensures Clean(ValueText(v)) <==> (v.Str? ==> Printable(v.s))
  {
    match v
    case Str(s) =>
      EscapeClean(s);
      CleanConcat("\"", Escape(s));
      CleanConcat("\"" + Escape(s), "\"");
    case Int(n) =>
      if n < 0 {
        ShowClean(-n);
        CleanConcat("-", Decimal.Show(-n));
      } else {
        ShowClean(n);
      }
    case _ =>
  }

  lemma MemberClean(f: Field)
    ensures Clean(Member(f)) <==> FieldPrintable(f)
  {
    ValueClean(Str(f.key));
    ValueClean(f.value);
    var k, v := ValueText(Str(f.key)), ValueText(f.value);
    assert Member(f) == k + ":" + v;
    CleanConcat(k, ":");
    CleanConcat(k + ":", v);
  }

  lemma AllPrintableCons(fs: seq<Field>)
    requires fs != []
    ensures AllPrintable(fs) <==> FieldPrintable(fs[0]) && AllPrintable(fs[1..])
  {
    assert fs == [fs[0]] + fs[1..];
  }

  lemma {:induction false} MembersClean(fs: seq<Field>)
    ensures Clean(Members(fs)) <==> AllPrintable(fs)
  {
    if |fs| == 1 {
      MemberClean(fs[0]);
    } else if fs != [] {
      MemberClean(fs[0]);
      AllPrintableCons(fs);
      MembersClean(fs[1..]);
      CommaClean(Member(fs[0]), Members(fs[1..]));
    }
  }

  lemma CommaClean(a: string, b: string)
    ensures Clean(a + "," + b) <==> Clean(a) && Clean(b)
  {
    CleanConcat(a, ",");
    CleanConcat(a + ",", b);
  }

  /**
   * A document is a JSON object with exactly the members that were written, in their order, whenever the control
   * characters of its keys and strings are newline, return and tab only; and exactly then it has no character that
   * JSON forbids in a string.
   */
  lemma DocIsJson(fs: seq<Field>)
    ensures Clean(Doc(fs)) <==> AllPrintable(fs)
    ensures AllPrintable(fs) ==> IsObject(Doc(fs), fs)
  {
    MembersClean(fs);
    CleanConcat("{", Members(fs));
    CleanConcat("{" + Members(fs), "}");
    if AllPrintable(fs) {
      MembersAreMembers(fs);
      assert Doc(fs)[1..|Doc(fs)| - 1] == Members(fs);
    }
  }

  /** A string with any other control character is written as it is, which is no JSON string of anything. */
  lemma {:induction false} RawControl(s: string)
    requires !Printable(s)
    ensures forall t :: !Body(Escape(s), t)
  {
    EscapeClean(s);
    forall t ensures !Body(Escape(s), t) {
      if Body(Escape(s), t) {
        BodyClean(Escape(s), t);
      }
    }
  }

  lemma {:induction false} BodyClean(text: string, s: string)
    requires Body(text, s)
    ensures Clean(text)
    decreases |text|
  {
    if text != "" {
      if text[0] != '\\' {
        BodyClean(text[1..], s[1..]);
        assert text == text[..1] + text[1..];
      } else if text[1] != 'u' {
        BodyClean(text[2..], s[1..]);
        assert text == text[..2] + text[2..];
        assert text[..2][0] == text[0] && text[..2][1] == text[1];
      } else {
        BodyClean(text[6..], s[1..]);
        assert text == text[..6] + text[6..];
        assert forall i :: 2 <= i < 6 ==> text[i] == text[2..6][i - 2];
      }
    }
  }
}
