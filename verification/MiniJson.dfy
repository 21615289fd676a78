/** The DLL's hand-written JSON: a builder of flat objects, and a reader that searches the text. */
module MiniJson {
  import opened Common
  import opened Text
  import Decimal

  datatype Value = Str(s: string) | Int(n: int) | Bool(b: bool) | Null

  datatype Field = Field(key: string, value: Value)

  // ----- Text of a value -----

  function EscapeChar(c: char): (r: string)
    ensures |r| > 0
  {
    match c
    case '"' => "\\\""
    case '\\' => "\\\\"
    case '\n' => "\\n"
    case '\r' => "\\r"
    case '\t' => "\\t"
    case _ => [c]
  }

  function Escape(s: string): string {
    if s == "" then "" else EscapeChar(s[0]) + Escape(s[1..])
  }

  function UnescapeChar(c: char): char {
    match c
    case 'n' => '\n'
    case 'r' => '\r'
    case 't' => '\t'
    case _ => c
  }

  function Unescape(s: string): string {
    if s == "" then ""
    else if s[0] == '\\' && |s| > 1 then [UnescapeChar(s[1])] + Unescape(s[2..])
    else [s[0]] + Unescape(s[1..])
  }

  function ShowInt(n: int): string { if n < 0 then "-" + Decimal.Show(-n) else Decimal.Show(n) }

  function ValueText(v: Value): string {
    match v
    case Str(s) => "\"" + Escape(s) + "\""
    case Int(n) => ShowInt(n)
    case Bool(b) => if b then "true" else "false"
    case Null => "null"
  }

  // ----- Text of an object -----

  function KeyText(key: string): string { "\"" + Escape(key) + "\":" }

  function Member(f: Field): string { KeyText(f.key) + ValueText(f.value) }

  function Members(fs: seq<Field>): string {
    if fs == [] then ""
    else if |fs| == 1 then Member(fs[0])
    else Member(fs[0]) + "," + Members(fs[1..])
  }

  function Doc(fs: seq<Field>): string { "{" + Members(fs) + "}" }

  lemma JoinRight(a: string, b: string, c: string, d: string)
    ensures a + "," + (b + c + d) == a + "," + b + c + d
  {
  }

  lemma {:induction false} MembersSnoc(fs: seq<Field>, f: Field)
    ensures Members(fs + [f]) == Members(fs) + Sep(fs) + Member(f)
  {
    if fs == [] {
      assert fs + [f] == [f];
    } else {
      assert (fs + [f])[1..] == fs[1..] + [f];
      MembersSnoc(fs[1..], f);
      JoinRight(Member(fs[0]), Members(fs[1..]), Sep(fs[1..]), Member(f));
      if |fs| == 1 {
        assert fs[1..] == [];
      }
    }
  }

  /** Keys that JSON writes as they are and that the dotted-path search takes as one segment. */
  predicate PlainChar(c: char) {
    c != '"' && c != '\\' && c != '\n' && c != '\r' && c != '\t' && c != '.' && c != ',' && c != ':' && c != '}'
  }

  predicate PlainKey(k: string) { forall i :: 0 <= i < |k| ==> PlainChar(k[i]) }

  lemma {:induction false} EscapePlain(k: string)
    requires PlainKey(k)
    ensures Escape(k) == k
  {
    if k != "" {
      EscapePlain(k[1..]);
    }
  }

  // ----- The writer -----

  function Sep(fs: seq<Field>): string { if fs == [] then "" else "," }

  /** The text written so far: the members, and perhaps a key that waits for its value. */
  function TextSoFar(fs: seq<Field>, openKey: Option<string>): string {
    var text := "{" + Members(fs);
    match openKey
    case None => text
    case Some(k) => text + Sep(fs) + KeyText(k)
  }

  lemma ValueCompletesMember(fs: seq<Field>, k: string, v: Value)
    ensures TextSoFar(fs, Some(k)) + ValueText(v) == TextSoFar(fs + [Field(k, v)], None)
  {
    MembersSnoc(fs, Field(k, v));
    Assoc("{", Members(fs), Sep(fs), KeyText(k), ValueText(v));
    assert (fs + [Field(k, v)]) != [];
  }

  lemma Assoc(a: string, b: string, c: string, d: string, e: string)
    ensures a + b + c + d + e == a + (b + c + (d + e))
  {
  }

  class Writer {
    var out: string
    var first: bool
    ghost var fields: seq<Field>
    ghost var openKey: Option<string>

    ghost predicate Valid()
      reads this
    {
      first == (fields == [] && openKey.None?) && out == TextSoFar(fields, openKey)
    }

    constructor ()
      ensures Valid() && fields == [] && openKey.None?
    {
      out, first := "{", true;
      fields, openKey := [], None;
    }

    method Key(k: string)
      requires Valid() && openKey.None?
      modifies this
      ensures Valid() && openKey == Some(k) && fields == old(fields)
    {
      if !first {
        out := out + ",";
      }
      first := false;
      var text := EscapeText(k);
      out := out + ("\"" + text + "\":");
      openKey := Some(k);
      assert out == TextSoFar(fields, openKey) by {
        assert fields == [] ==> "{" + Members(fields) + "" == "{" + Members(fields);
      }
    }

    /** The overloads of `value` and `null_`: the text of the value completes the open member. */
    method PutValue(v: Value)
      requires Valid() && openKey.Some?
      modifies this
      ensures Valid() && openKey.None? && fields == old(fields) + [Field(old(openKey).value, v)]
    {
      var text := TextOf(v);
      ValueCompletesMember(fields, openKey.value, v);
      out := out + text;
      fields, openKey := fields + [Field(openKey.value, v)], None;
    }

    static method TextOf(v: Value) returns (text: string)
      ensures text == ValueText(v)
    {
      match v {
        case Str(s) =>
          var escaped := EscapeText(s);
          text := "\"" + escaped + "\"";
        case Int(n) => text := ShowInt(n);
        case Bool(b) => text := if b then "true" else "false";
        case Null => text := "null";
      }
    }

    method Finish() returns (text: string)
      requires Valid() && openKey.None?
      modifies this`out
      ensures text == Doc(fields)
    {
      out := out + "}";
      text := out;
    }

    static method EscapeText(s: string) returns (r: string)
      ensures r == Escape(s)
    {
      r := "";
      for i := 0 to |s|
        invariant r + Escape(s[i..]) == Escape(s)
      {
        assert s[i..][1..] == s[i + 1..];
        r := r + EscapeChar(s[i]);
      }
    }
  }

  // ----- The reader -----

  /** `std::string::find`: the first match at or after a position. */
  function Find(body: string, needle: string, from: nat): Option<nat>
    decreases |body| + 1 - from
  {
    if from + |needle| > |body| then None
    else if At(body, from, needle) then Some(from)
    else Find(body, needle, from + 1)
  }

  lemma {:induction false} FindBounds(body: string, needle: string, from: nat)
    ensures Find(body, needle, from).Some? ==>
              from <= Find(body, needle, from).value && Find(body, needle, from).value + |needle| <= |body|
    decreases |body| + 1 - from
  {
    if from + |needle| <= |body| && !At(body, from, needle) {
      FindBounds(body, needle, from + 1);
    }
  }

  function SkipBlanks(body: string, at: nat): (r: nat)
    ensures r >= at
    decreases |body| - at
  {
    if at < |body| && (body[at] == ' ' || body[at] == '\t' || body[at] == '\n') then SkipBlanks(body, at + 1) else at
  }

  function DotFrom(path: string, i: nat): (d: nat)
    ensures i <= |path| ==> d <= |path|
    decreases |path| - i
  {
    if i < |path| && path[i] != '.' then DotFrom(path, i + 1) else i
  }

  /** The first dot of a path, or its length. */
  function DotAt(path: string): (d: nat)
    ensures d <= |path|
  {
    DotFrom(path, 0)
  }

  function Needle(segment: string): string { "\"" + segment + "\":" }

  /** Where the value of a dotted path starts. */
  function FieldStart(body: string, path: string, cursor: nat): Option<nat>
    decreases |path|
  {
    var d := DotAt(path);
    var needle := Needle(path[..d]);
    match Find(body, needle, cursor)
    case None => None
    case Some(at) =>
      var c := SkipBlanks(body, at + |needle|);
      if d == |path| then Some(c) else FieldStart(body, path[d + 1..], Enter(body, c))
  }

  /** Past the opening brace of a nested object, if there is one. */
  function Enter(body: string, c: nat): nat { if c < |body| && body[c] == '{' then c + 1 else c }

  lemma FieldStartLast(body: string, path: string, cursor: nat, needle: string, at: nat, c: nat)
    requires DotAt(path) == |path| && needle == Needle(path[..|path|]) && Find(body, needle, cursor) == Some(at)
    requires c == SkipBlanks(body, at + |needle|)
    ensures FieldStart(body, path, cursor) == Some(c)
  {
  }

  lemma FieldStartNested(body: string, path: string, cursor: nat, d: nat, needle: string, at: nat, c: nat, rest: string)
    requires d == DotAt(path) < |path| && needle == Needle(path[..d]) && Find(body, needle, cursor) == Some(at)
    requires c == SkipBlanks(body, at + |needle|) && rest == path[d + 1..]
    ensures FieldStart(body, path, cursor) == FieldStart(body, rest, Enter(body, c))
  {
  }

  /** The end of a string literal's content: the next quote that no backslash escapes. */
  function ScanEnd(body: string, at: nat): (e: nat)
    requires at <= |body|
    ensures at <= e <= |body|
    decreases |body| - at
  {
    if at == |body| then at
    else if body[at] == '\\' && at + 1 < |body| then ScanEnd(body, at + 2)
    else if body[at] == '"' then at
    else ScanEnd(body, at + 1)
  }

  predicate HasField(body: string, path: string) { FieldStart(body, path, 0).Some? }

  function GetString(body: string, path: string): string {
    match FieldStart(body, path, 0)
    case None => ""
    case Some(p) => if p >= |body| || body[p] != '"' then "" else Unescape(body[p + 1..ScanEnd(body, p + 1)])
  }

  function DigitRun(s: string): (n: nat)
    ensures n <= |s| && Decimal.AllDigits(s[..n]) && (n < |s| ==> !Decimal.IsDigit(s[n]))
  {
    if s == "" || !Decimal.IsDigit(s[0]) then 0
    else
      var n := 1 + DigitRun(s[1..]);
      assert forall i :: 0 < i < n ==> s[..n][i] == s[1..][..n - 1][i - 1];
      n
  }

  predicate IsSpace(c: char) { c == ' ' || '\t' <= c <= '\r' }

  /** C's `atoll`: blanks, a sign, and the digits that follow. */
  function Atoll(s: string): int {
    if s != "" && IsSpace(s[0]) then Atoll(s[1..])
    else if s != "" && s[0] == '-' then 0 - Decimal.Read(s[1..][..DigitRun(s[1..])])
    else if s != "" && s[0] == '+' then Decimal.Read(s[1..][..DigitRun(s[1..])])
    else Decimal.Read(s[..DigitRun(s)])
  }

  function GetInt(body: string, path: string, fallback: int): int {
    match FieldStart(body, path, 0)
    case None => fallback
    case Some(p) => if p <= |body| then Atoll(body[p..]) else fallback
  }

  function GetBool(body: string, path: string, fallback: bool): bool {
    match FieldStart(body, path, 0)
    case None => fallback
    case Some(p) => p + 4 <= |body| && body[p..p + 4] == "true"
  }

  class Reader {
    const body: string

    constructor (body: string)
      ensures this.body == body
    {
      this.body := body;
    }

    method PastBlanks(start: nat) returns (cursor: nat)
      ensures cursor == SkipBlanks(body, start)
    {
      cursor := start;
      while cursor < |body| && (body[cursor] == ' ' || body[cursor] == '\t' || body[cursor] == '\n')
        invariant SkipBlanks(body, start) == SkipBlanks(body, cursor)
      {
        cursor := cursor + 1;
      }
    }

    method FindFieldStart(path: string) returns (p: Option<nat>)
      ensures p == FieldStart(body, path, 0)
    {
      var cursor: nat := 0;
      var rest := path;
      while true
        invariant FieldStart(body, path, 0) == FieldStart(body, rest, cursor)
        decreases |rest|
      {
        var d := DotAt(rest);
        var needle := "\"" + rest[..d] + "\":";
        var at := Find(body, needle, cursor);
        if at.None? {
          return None;
        }
        var c := PastBlanks(at.value + |needle|);
        if d == |rest| {
          FieldStartLast(body, rest, cursor, needle, at.value, c);
          return Some(c);
        }
        FieldStartNested(body, rest, cursor, d, needle, at.value, c, rest[d + 1..]);
        cursor := c;
        if cursor < |body| && body[cursor] == '{' {
          cursor := cursor + 1;
        }
        rest := rest[d + 1..];
      }
    }

    method ReadString(path: string) returns (s: string)
      ensures s == GetString(body, path)
    {
      var p := FindFieldStart(path);
      if p.None? || p.value >= |body| || body[p.value] != '"' {
        return "";
      }
      var end := p.value + 1;
      while end < |body|
        invariant p.value + 1 <= end <= |body|
        invariant ScanEnd(body, p.value + 1) == ScanEnd(body, end)
      {
        if body[end] == '\\' && end + 1 < |body| {
          end := end + 2;
          continue;
        }
        if body[end] == '"' {
          break;
        }
        end := end + 1;
      }
      s := UnescapeText(body[p.value + 1..end]);
    }

    static method UnescapeText(s: string) returns (r: string)
      ensures r == Unescape(s)
    {
      r := "";
      var i := 0;
      while i < |s|
        invariant 0 <= i <= |s| && r + Unescape(s[i..]) == Unescape(s)
      {
        if s[i] == '\\' && i + 1 < |s| {
          assert s[i..][2..] == s[i + 2..];
          r := r + [UnescapeChar(s[i + 1])];
          i := i + 2;
        } else {
          assert s[i..][1..] == s[i + 1..];
          r := r + [s[i]];
          i := i + 1;
        }
      }
    }
  }

  // ----- Escapes -----

  /** Escaping loses nothing. */
  lemma {:induction false} UnescapeEscape(s: string)
    ensures Unescape(Escape(s)) == s
  {
    if s != "" {
      UnescapeEscape(s[1..]);
      var e := EscapeChar(s[0]);
      assert Escape(s)[|e|..] == Escape(s[1..]);
    }
  }

  /** Every quote inside escaped text comes right after a backslash. */
  lemma {:induction false} QuotesEscaped(s: string, i: nat)
    requires i < |Escape(s)| && Escape(s)[i] == '"'
    ensures i > 0 && Escape(s)[i - 1] == '\\'
  {
    var n := |EscapeChar(s[0])|;
    if i >= n {
      assert Escape(s)[i] == Escape(s[1..])[i - n];
      QuotesEscaped(s[1..], i - n);
      assert Escape(s)[i - 1] == Escape(s[1..])[i - n - 1];
    }
  }

  /** The scan steps over one escaped character as a whole. */
  lemma ScanChar(body: string, p: nat, c: char)
    requires At(body, p, EscapeChar(c)) && p + |EscapeChar(c)| < |body|
    ensures ScanEnd(body, p) == ScanEnd(body, p + |EscapeChar(c)|)
  {
    var e := EscapeChar(c);
    assert body[p + 0] == e[0];
    assert |e| > 1 ==> |e| == 2 && e[0] == '\\';
    assert |e| == 1 ==> e[0] != '\\' && e[0] != '"';
  }

  /** The scan of a literal stops at its closing quote, whatever follows. */
  lemma {:induction false} ScanLiteral(body: string, p: nat, s: string)
    requires At(body, p, Escape(s)) && p + |Escape(s)| < |body| && body[p + |Escape(s)|] == '"'
    ensures ScanEnd(body, p) == p + |Escape(s)|
    decreases |s|
  {
    if s != "" {
      var e, rest := EscapeChar(s[0]), Escape(s[1..]);
      AtParts(body, p, e, rest);
      var next := p + |e|;
      assert next + |rest| == p + |Escape(s)|;
      ScanChar(body, p, s[0]);
      ScanLiteral(body, next, s[1..]);
    }
  }

  // ----- Searching -----

  lemma {:induction false} FindSkips(body: string, needle: string, from: nat, to: nat)
    requires from <= to <= |body| && forall q: nat :: from <= q < to ==> !At(body, q, needle)
    ensures Find(body, needle, from) == Find(body, needle, to)
    decreases |body| - from
  {
    if from < to {
      assert !At(body, from, needle);
      if from + |needle| <= |body| {
        FindSkips(body, needle, from + 1, to);
      }
    }
  }

  lemma Mismatch(body: string, needle: string, q: nat, i: nat)
    requires i < |needle| && (q + i < |body| ==> body[q + i] != needle[i])
    ensures !At(body, q, needle)
  {
    if q + i < |body| {
      assert body[q + i] != needle[i];
    }
  }

  lemma NeedleChars(k: string)
    ensures |Needle(k)| == |k| + 3
    ensures Needle(k)[0] == '"' && Needle(k)[|k| + 1] == '"' && Needle(k)[|k| + 2] == ':'
    ensures forall i :: 0 <= i < |k| ==> Needle(k)[1 + i] == k[i]
  {
  }

  /** A match whose second quote would lie inside the literal: that quote is escaped, or is none. */
  lemma NoMatchInside(body: string, p: nat, s: string, k: string, q: nat)
    requires PlainKey(k) && At(body, p + 1, Escape(s)) && p <= q && q + |k| < p + |Escape(s)|
    ensures !At(body, q, Needle(k))
  {
    var esc, i := Escape(s), q + |k| - p;
    NeedleChars(k);
    assert body[p + 1 + i] == esc[i];
    if esc[i] == '"' {
      QuotesEscaped(s, i);
      assert body[p + 1 + (i - 1)] == esc[i - 1] == '\\';
      assert |k| > 0 ==> Needle(k)[|k|] == k[|k| - 1];
      Mismatch(body, Needle(k), q, |k|);
    } else {
      Mismatch(body, Needle(k), q, |k| + 1);
    }
  }

  /** A match that would reach over the closing quote: no plain key has a quote, and no colon follows. */
  lemma NoMatchAcross(body: string, close: nat, k: string, q: nat)
    requires PlainKey(k) && close + 1 < |body|
    requires body[close] == '"' && (body[close + 1] == ',' || body[close + 1] == '}')
    requires q <= close + 1 <= q + |k| + 2
    ensures !At(body, q, Needle(k))
  {
    NeedleChars(k);
    if q + |k| + 1 == close {
      Mismatch(body, Needle(k), q, |k| + 2);
    } else if q < close {
      assert Needle(k)[close - q] == k[close - q - 1];
      Mismatch(body, Needle(k), q, close - q);
    } else if q == close {
      assert |k| > 0 ==> Needle(k)[1] == k[0];
      Mismatch(body, Needle(k), q, 1);
    } else {
      Mismatch(body, Needle(k), q, 0);
    }
  }

  /** A string literal with the separator after it holds no match: its inner quotes are escaped. */
  lemma NoMatchInString(body: string, p: nat, s: string, k: string, q: nat)
    requires PlainKey(k) && p + |Escape(s)| + 2 < |body|
    requires body[p] == '"' && At(body, p + 1, Escape(s)) && body[p + 1 + |Escape(s)|] == '"'
    requires body[p + 2 + |Escape(s)|] == ',' || body[p + 2 + |Escape(s)|] == '}'
    requires p <= q <= p + |Escape(s)| + 2
    ensures !At(body, q, Needle(k))
  {
    if q + |k| < p + |Escape(s)| {
      NoMatchInside(body, p, s, k, q);
    } else {
      NoMatchAcross(body, p + 1 + |Escape(s)|, k, q);
    }
  }

  lemma FirstDifference(a: string, b: string) returns (i: nat)
    requires |a| == |b| && a != b
    ensures i < |a| && a[i] != b[i]
  {
    i :| 0 <= i < |a| && a[i] != b[i];
  }

  lemma NoMatchAtKey(body: string, p: nat, key: string, k: string)
    requires PlainKey(k) && PlainKey(key) && key != k && At(body, p, Needle(key))
    ensures !At(body, p, Needle(k))
  {
    NeedleChars(k);
    NeedleChars(key);
    if |k| < |key| {
      assert body[p + (|k| + 1)] == Needle(key)[1 + |k|] == key[|k|];
      Mismatch(body, Needle(k), p, |k| + 1);
    } else if |k| > |key| {
      assert body[p + (|key| + 1)] == Needle(key)[|key| + 1];
      assert Needle(k)[1 + |key|] == k[|key|];
      Mismatch(body, Needle(k), p, |key| + 1);
    } else {
      var i := FirstDifference(k, key);
      assert body[p + (1 + i)] == Needle(key)[1 + i];
      Mismatch(body, Needle(k), p, 1 + i);
    }
  }

  /** The key of a member matches only its own needle. */
  lemma NoMatchInKey(body: string, p: nat, key: string, k: string, q: nat)
    requires PlainKey(k) && PlainKey(key) && key != k
    requires At(body, p, Needle(key)) && p <= q < p + |key| + 3
    ensures !At(body, q, Needle(k))
  {
    NeedleChars(k);
    NeedleChars(key);
    if q == p {
      NoMatchAtKey(body, p, key, k);
    } else if q < p + |key| + 1 {
      assert body[p + (q - p)] == Needle(key)[1 + (q - p - 1)] == key[q - p - 1];
      Mismatch(body, Needle(k), q, 0);
    } else {
      assert body[p + (|key| + 2)] == ':';
      assert |k| > 0 ==> Needle(k)[1] == k[0];
      Mismatch(body, Needle(k), q, if q == p + |key| + 1 then 1 else 0);
    }
  }

  lemma QuotedParts(body: string, p: nat, e: string)
    requires At(body, p, "\"" + e + "\"")
    ensures body[p] == '"' && At(body, p + 1, e) && body[p + 1 + |e|] == '"'
  {
    var text := "\"" + e + "\"";
    assert forall i :: 0 <= i < |e| ==> body[p + (1 + i)] == text[1 + i] == e[i];
    assert body[p + 0] == text[0] && body[p + (1 + |e|)] == text[1 + |e|];
  }

  lemma LiteralParts(body: string, p: nat, s: string)
    requires At(body, p, ValueText(Str(s)))
    ensures body[p] == '"' && At(body, p + 1, Escape(s)) && body[p + 1 + |Escape(s)|] == '"'
  {
    QuotedParts(body, p, Escape(s));
  }

  lemma NoMatchInValue(body: string, p: nat, v: Value, k: string, q: nat)
    requires PlainKey(k) && At(body, p, ValueText(v)) && p + |ValueText(v)| < |body|
    requires body[p + |ValueText(v)|] == ',' || body[p + |ValueText(v)|] == '}'
    requires p <= q <= p + |ValueText(v)|
    ensures !At(body, q, Needle(k))
  {
    if v.Str? {
      LiteralParts(body, p, v.s);
      NoMatchInString(body, p, v.s, k, q);
    } else {
      QuietText(v);
      assert q < p + |ValueText(v)| ==> body[p + (q - p)] == ValueText(v)[q - p];
      Mismatch(body, Needle(k), q, 0);
    }
  }

  lemma QuietText(v: Value)
    requires !v.Str?
    ensures forall i :: 0 <= i < |ValueText(v)| ==> ValueText(v)[i] != '"'
  {
  }

  lemma MemberParts(body: string, p: nat, f: Field)
    requires PlainKey(f.key) && At(body, p, Member(f))
    ensures |Member(f)| == |f.key| + 3 + |ValueText(f.value)|
    ensures At(body, p, Needle(f.key)) && At(body, p + |f.key| + 3, ValueText(f.value))
  {
    EscapePlain(f.key);
    var n, v := Needle(f.key), ValueText(f.value);
    assert Member(f) == n + v;
    AtParts(body, p, n, v);
  }

  /** No other member, with the separator after it, holds a match. */
  lemma NoMatchInMember(body: string, p: nat, f: Field, k: string, q: nat)
    requires PlainKey(k) && PlainKey(f.key) && f.key != k
    requires At(body, p, Member(f)) && p + |Member(f)| < |body|
    requires body[p + |Member(f)|] == ',' || body[p + |Member(f)|] == '}'
    requires p <= q <= p + |Member(f)|
    ensures !At(body, q, Needle(k))
  {
    MemberParts(body, p, f);
    if q < p + |f.key| + 3 {
      NoMatchInKey(body, p, f.key, k, q);
    } else {
      NoMatchInValue(body, p + |f.key| + 3, f.value, k, q);
    }
  }

  predicate PlainKeys(fs: seq<Field>) { forall i :: 0 <= i < |fs| ==> PlainKey(fs[i].key) }

  predicate HasKey(fs: seq<Field>, k: string) { exists i :: 0 <= i < |fs| && fs[i].key == k }

  /** The first member with a key, if there is one. */
  function Lookup(fs: seq<Field>, k: string): Option<Value> {
    if fs == [] then None else if fs[0].key == k then Some(fs[0].value) else Lookup(fs[1..], k)
  }

  /** From `p` on, the text is the members and the closing brace. */
  predicate Holds(body: string, p: nat, fs: seq<Field>) { p <= |body| && body[p..] == Members(fs) + "}" }

  lemma TailParts(body: string, p: nat, m: string, c: char, more: string)
    requires p <= |body| && body[p..] == m + ([c] + more)
    ensures At(body, p, m) && p + |m| < |body| && body[p + |m|] == c && body[p + |m| + 1..] == more
  {
    var tail := body[p..];
    assert tail[..|m|] == m && tail[|m|] == c && tail[|m| + 1..] == more;
    assert body[p..p + |m|] == tail[..|m|] && body[p + |m| + 1..] == tail[|m| + 1..];
  }

  lemma TailOf(m: string, ms: string)
    ensures m + "," + ms + "}" == m + ([','] + (ms + "}")) && m + "}" == m + (['}'] + "")
  {
  }

  lemma HoldsFirst(body: string, p: nat, fs: seq<Field>)
    requires Holds(body, p, fs) && fs != []
    ensures At(body, p, Member(fs[0]))
    ensures var e := p + |Member(fs[0])|;
            && e < |body|
            && (|fs| == 1 ==> body[e] == '}' && e + 1 == |body|)
            && (|fs| > 1 ==> body[e] == ',' && Holds(body, e + 1, fs[1..]))
  {
    TailOf(Member(fs[0]), Members(fs[1..]));
    if |fs| == 1 {
      TailParts(body, p, Member(fs[0]), '}', "");
    } else {
      TailParts(body, p, Member(fs[0]), ',', Members(fs[1..]) + "}");
    }
  }

  /** Where a search landed: at the member of the key, with a separator after it. */
  predicate Landed(body: string, at: nat, k: string, v: Value) {
    && At(body, at, Member(Field(k, v)))
    && at + |Member(Field(k, v))| < |body|
    && (body[at + |Member(Field(k, v))|] == ',' || body[at + |Member(Field(k, v))|] == '}')
  }

  lemma MatchesItself(body: string, p: nat, f: Field)
    requires PlainKey(f.key) && At(body, p, Member(f))
    ensures Find(body, Needle(f.key), p) == Some(p)
  {
    MemberParts(body, p, f);
  }

  /** The search from the start of a list of members finds the first member of the key, or nothing. */
  lemma {:induction false} SearchMembers(body: string, p: nat, fs: seq<Field>, k: string)
    requires PlainKeys(fs) && PlainKey(k) && Holds(body, p, fs)
    ensures match Lookup(fs, k)
            case None => Find(body, Needle(k), p) == None
            case Some(v) => Find(body, Needle(k), p).Some? && Landed(body, Find(body, Needle(k), p).value, k, v)
    decreases |fs|
  {
    if fs != [] {
      var f := fs[0];
      HoldsFirst(body, p, fs);
      if f.key == k {
        MatchesItself(body, p, f);
      } else {
        var next := p + |Member(f)| + 1;
        forall q: nat | p <= q < next ensures !At(body, q, Needle(k)) {
          NoMatchInMember(body, p, f, k, q);
        }
        FindSkips(body, Needle(k), p, next);
        if |fs| > 1 {
          SearchMembers(body, next, fs[1..], k);
        } else {
          assert fs[1..] == [];
        }
      }
    } else {
      assert |body[p..]| == 1;
    }
  }

  // ----- Round trips -----

  lemma {:induction false} DotFreeFrom(k: string, i: nat)
    requires PlainKey(k) && i <= |k|
    ensures DotFrom(k, i) == |k|
    decreases |k| - i
  {
    if i < |k| {
      DotFreeFrom(k, i + 1);
    }
  }

  lemma DotFree(k: string)
    requires PlainKey(k)
    ensures DotAt(k) == |k| && k[..DotAt(k)] == k
  {
    DotFreeFrom(k, 0);
  }

  predicate Blank(c: char) { c == ' ' || c == '\t' || c == '\n' }

  lemma ValueStarts(v: Value)
    ensures ValueText(v) != "" && !Blank(ValueText(v)[0]) && !IsSpace(ValueText(v)[0])
    ensures v.Str? <==> ValueText(v)[0] == '"'
  {
    if v.Int? {
      assert Decimal.IsDigit(Decimal.Show(if v.n < 0 then -v.n else v.n)[0]);
    }
  }

  lemma StartOf(body: string, k: string, at: nat, p: nat)
    requires PlainKey(k) && Find(body, Needle(k), 0) == Some(at) && p == at + |k| + 3
    requires p < |body| && !Blank(body[p])
    ensures FieldStart(body, k, 0) == Some(p)
  {
    DotFree(k);
    NeedleChars(k);
    assert SkipBlanks(body, p) == p;
  }

  lemma NoStart(body: string, k: string)
    requires PlainKey(k) && Find(body, Needle(k), 0) == None
    ensures FieldStart(body, k, 0) == None
  {
    DotFree(k);
  }

  lemma DocSearch(fs: seq<Field>, k: string)
    requires PlainKeys(fs) && PlainKey(k)
    ensures Find(Doc(fs), Needle(k), 0) == Find(Doc(fs), Needle(k), 1) && Holds(Doc(fs), 1, fs)
  {
    var body := Doc(fs);
    assert body[1..] == Members(fs) + "}";
    NeedleChars(k);
    Mismatch(body, Needle(k), 0, 0);
    FindSkips(body, Needle(k), 0, 1);
  }

  /** The outcome of looking for a key: nothing, or the offset of its value's text, a separator after it. */
  predicate FoundAt(body: string, k: string, found: Option<Value>, p: nat) {
    match found
    case None => FieldStart(body, k, 0) == None
    case Some(v) =>
      && FieldStart(body, k, 0) == Some(p)
      && At(body, p, ValueText(v)) && p + |ValueText(v)| < |body|
      && (body[p + |ValueText(v)|] == ',' || body[p + |ValueText(v)|] == '}')
  }

  lemma LandedFound(body: string, at: nat, k: string, v: Value, p: nat)
    requires PlainKey(k) && Find(body, Needle(k), 0) == Some(at) && Landed(body, at, k, v) && p == at + |k| + 3
    ensures FoundAt(body, k, Some(v), p)
  {
    MemberParts(body, at, Field(k, v));
    ValueStarts(v);
    assert body[p + 0] == ValueText(v)[0];
    StartOf(body, k, at, p);
  }

  /** In a written object a plain key leads to the text of its first member's value, and an absent key nowhere. */
  lemma FieldFound(fs: seq<Field>, k: string) returns (p: nat)
    requires PlainKeys(fs) && PlainKey(k)
    ensures FoundAt(Doc(fs), k, Lookup(fs, k), p)
  {
    p := 0;
    DocSearch(fs, k);
    SearchMembers(Doc(fs), 1, fs, k);
    if Lookup(fs, k).Some? {
      var at := Find(Doc(fs), Needle(k), 1).value;
      p := at + |k| + 3;
      LandedFound(Doc(fs), at, k, Lookup(fs, k).value, p);
    } else {
      NoStart(Doc(fs), k);
    }
  }

  lemma StringRead(body: string, k: string, found: Option<Value>, p: nat)
    requires FoundAt(body, k, found, p)
    ensures GetString(body, k) == match found
                                  case Some(Str(s)) => s
                                  case _ => ""
  {
    if found.Some? {
      ValueStarts(found.value);
      assert body[p + 0] == ValueText(found.value)[0];
      if found.value.Str? {
        LiteralRead(body, p, found.value.s);
      }
    }
  }

  /**
   * Reading a string back: for every object of plain keys, `get_string` returns exactly the string
   * written for the key, whatever its characters, and the empty string for any other value or key.
   */
  lemma StringRoundTrip(fs: seq<Field>, k: string)
    requires PlainKeys(fs) && PlainKey(k)
    ensures GetString(Doc(fs), k) == match Lookup(fs, k)
                                     case Some(Str(s)) => s
                                     case _ => ""
  {
    var p := FieldFound(fs, k);
    StringRead(Doc(fs), k, Lookup(fs, k), p);
  }

  lemma LiteralRead(body: string, p: nat, s: string)
    requires At(body, p, ValueText(Str(s)))
    ensures Unescape(body[p + 1..ScanEnd(body, p + 1)]) == s
  {
    LiteralParts(body, p, s);
    ScanLiteral(body, p + 1, s);
    var e := Escape(s);
    assert body[p + 1..p + 1 + |e|] == e;
    UnescapeEscape(s);
  }

  /** The textual search never matches inside a value: a field is found exactly when its key was written. */
  lemma FieldPresence(fs: seq<Field>, k: string)
    requires PlainKeys(fs) && PlainKey(k)
    ensures HasField(Doc(fs), k) <==> HasKey(fs, k)
  {
    var p := FieldFound(fs, k);
    LookupHasKey(fs, k);
  }

  lemma {:induction false} LookupHasKey(fs: seq<Field>, k: string)
    ensures Lookup(fs, k).Some? <==> HasKey(fs, k)
  {
    if fs != [] {
      LookupHasKey(fs[1..], k);
      if HasKey(fs[1..], k) {
        var i :| 0 <= i < |fs[1..]| && fs[1..][i].key == k;
        assert fs[i + 1].key == k;
      }
      if HasKey(fs, k) && fs[0].key != k {
        var i :| 0 <= i < |fs| && fs[i].key == k;
        assert fs[1..][i - 1].key == k;
      }
    }
  }

  lemma {:induction false} DigitRunStops(d: string, rest: string)
    requires Decimal.AllDigits(d) && (rest == "" || !Decimal.IsDigit(rest[0]))
    ensures DigitRun(d + rest) == |d|
  {
    if d != "" {
      DigitRunStops(d[1..], rest);
      assert (d + rest)[1..] == d[1..] + rest;
    } else {
      assert d + rest == rest;
    }
  }

  lemma DigitsRead(n: nat, rest: string)
    requires rest == "" || !Decimal.IsDigit(rest[0])
    ensures var t := Decimal.Show(n) + rest; Decimal.IsDigit(t[0]) && Decimal.Read(t[..DigitRun(t)]) == n
  {
    DigitRunStops(Decimal.Show(n), rest);
    Decimal.ReadShow(n);
    assert (Decimal.Show(n) + rest)[..|Decimal.Show(n)|] == Decimal.Show(n);
  }

  lemma AtollSigned(t: string)
    requires t != "" && (t[0] == '-' || Decimal.IsDigit(t[0]))
    ensures t[0] == '-' ==> Atoll(t) == 0 - Decimal.Read(t[1..][..DigitRun(t[1..])])
    ensures t[0] != '-' ==> Atoll(t) == Decimal.Read(t[..DigitRun(t)])
  {
  }

  lemma AtollNegative(n: nat, digits: string, t: string)
    requires t == "-" + digits && Decimal.Read(digits[..DigitRun(digits)]) == n
    ensures Atoll(t) == 0 - n
  {
    assert t[1..] == digits;
    AtollSigned(t);
  }

  lemma AtollNat(n: nat, digits: string)
    requires digits != "" && Decimal.IsDigit(digits[0]) && Decimal.Read(digits[..DigitRun(digits)]) == n
    ensures Atoll(digits) == n
  {
    AtollSigned(digits);
  }

  lemma ShowIntParts(n: int, rest: string)
    ensures n < 0 ==> ShowInt(n) + rest == "-" + (Decimal.Show(-n) + rest)
    ensures n >= 0 ==> ShowInt(n) + rest == Decimal.Show(n) + rest
  {
  }

  lemma AtollShowNegative(n: nat, rest: string, t: string)
    requires t == "-" + (Decimal.Show(n) + rest) && (rest == "" || !Decimal.IsDigit(rest[0]))
    ensures Atoll(t) == 0 - n
  {
    DigitsRead(n, rest);
    AtollNegative(n, Decimal.Show(n) + rest, t);
  }

  lemma AtollShowNat(n: nat, rest: string, t: string)
    requires t == Decimal.Show(n) + rest && (rest == "" || !Decimal.IsDigit(rest[0]))
    ensures Atoll(t) == n
  {
    DigitsRead(n, rest);
    AtollNat(n, t);
  }

  /** `atoll` reads a printed integer back, whatever follows it that is not a digit. */
  lemma AtollShow(n: int, t: string, rest: string)
    requires t == ShowInt(n) + rest && (rest == "" || !Decimal.IsDigit(rest[0]))
    ensures Atoll(t) == n
  {
    ShowIntParts(n, rest);
    if n < 0 {
      AtollShowNegative(-n, rest, t);
    } else {
      AtollShowNat(n, rest, t);
    }
  }

  lemma NumberRead(body: string, k: string, v: Value, p: nat, fallback: int)
    requires v.Int? && FoundAt(body, k, Some(v), p)
    ensures GetInt(body, k, fallback) == v.n
  {
    var text := ValueText(v);
    var rest := body[p + |text|..];
    assert body[p..] == text + rest;
    AtollShow(v.n, body[p..], rest);
  }

  /** Integers and booleans come back too, and the fallback for a key that was not written. */
  lemma NumberRoundTrip(fs: seq<Field>, k: string, fallback: int)
    requires PlainKeys(fs) && PlainKey(k)
    ensures Lookup(fs, k).None? ==> GetInt(Doc(fs), k, fallback) == fallback
    ensures Lookup(fs, k).Some? && Lookup(fs, k).value.Int? ==> GetInt(Doc(fs), k, fallback) == Lookup(fs, k).value.n
  {
    var p := FieldFound(fs, k);
    if Lookup(fs, k).Some? && Lookup(fs, k).value.Int? {
      NumberRead(Doc(fs), k, Lookup(fs, k).value, p, fallback);
    }
  }

  lemma BoolRead(body: string, k: string, v: Value, p: nat, fallback: bool)
    requires v.Bool? && FoundAt(body, k, Some(v), p)
    ensures GetBool(body, k, fallback) == v.b
  {
    if v.b {
      assert body[p..p + 4] == "true";
    } else {
      assert body[p + 0] == "false"[0];
      assert p + 4 <= |body| ==> body[p..p + 4][0] == 'f';
    }
  }

  lemma BoolRoundTrip(fs: seq<Field>, k: string, fallback: bool)
    requires PlainKeys(fs) && PlainKey(k)
    ensures Lookup(fs, k).None? ==> GetBool(Doc(fs), k, fallback) == fallback
    ensures Lookup(fs, k).Some? && Lookup(fs, k).value.Bool? ==> GetBool(Doc(fs), k, fallback) == Lookup(fs, k).value.b
  {
    var p := FieldFound(fs, k);
    if Lookup(fs, k).Some? && Lookup(fs, k).value.Bool? {
      BoolRead(Doc(fs), k, Lookup(fs, k).value, p, fallback);
    }
  }
}
