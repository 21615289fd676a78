/** Reading from an object inside an object, as `payload` in a response, and what else the reader skips. */
module JsonNested {
  import opened Common
  import opened Text
  import opened MiniJson
  import Decimal

  // ----- An object with something after it -----

  predicate HoldsMore(body: string, p: nat, fs: seq<Field>, rest: string) {
    p <= |body| && body[p..] == Members(fs) + "}" + rest
  }

  lemma MoreParts(m: string, ms: string, rest: string)
    ensures m + "," + ms + "}" + rest == m + ([','] + (ms + "}" + rest)) && m + "}" + rest == m + (['}'] + rest)
  {
  }

  lemma FirstOfOne(body: string, p: nat, fs: seq<Field>, rest: string)
    requires HoldsMore(body, p, fs, rest) && |fs| == 1
    ensures At(body, p, Member(fs[0])) && p + |Member(fs[0])| < |body| && body[p + |Member(fs[0])|] == '}'
  {
    MoreParts(Member(fs[0]), "", rest);
    TailParts(body, p, Member(fs[0]), '}', rest);
  }

  lemma FirstOfMany(body: string, p: nat, fs: seq<Field>, rest: string)
    requires HoldsMore(body, p, fs, rest) && |fs| > 1
    ensures var e := p + |Member(fs[0])|;
            At(body, p, Member(fs[0])) && e < |body| && body[e] == ',' && HoldsMore(body, e + 1, fs[1..], rest)
  {
    MoreParts(Member(fs[0]), Members(fs[1..]), rest);
    TailParts(body, p, Member(fs[0]), ',', Members(fs[1..]) + "}" + rest);
  }

  /** The search from the start of the members finds the first one of a key that is among them. */
  lemma {:induction false} SearchPresent(body: string, p: nat, fs: seq<Field>, rest: string, k: string)
    requires PlainKeys(fs) && PlainKey(k) && HoldsMore(body, p, fs, rest) && Lookup(fs, k).Some?
    ensures Find(body, Needle(k), p).Some?
    ensures Landed(body, Find(body, Needle(k), p).value, k, Lookup(fs, k).value)
    decreases |fs|
  {
    var f := fs[0];
    if |fs| == 1 {
      FirstOfOne(body, p, fs, rest);
    } else {
      FirstOfMany(body, p, fs, rest);
    }
    if f.key == k {
      MatchesItself(body, p, f);
    } else {
      var next := p + |Member(f)| + 1;
      forall q: nat | p <= q < next ensures !At(body, q, Needle(k)) {
        NoMatchInMember(body, p, f, k, q);
      }
      FindSkips(body, Needle(k), p, next);
      SearchPresent(body, next, fs[1..], rest, k);
    }
  }

  // ----- A path of two keys -----

  lemma StartInside(body: string, k: string, cursor: nat, at: nat, v: Value)
    requires PlainKey(k) && Find(body, Needle(k), cursor) == Some(at) && Landed(body, at, k, v)
    ensures FieldStart(body, k, cursor) == Some(at + |k| + 3) && At(body, at + |k| + 3, ValueText(v))
  {
    var p := at + |k| + 3;
    MemberParts(body, at, Field(k, v));
    ValueStarts(v);
    assert body[p + 0] == ValueText(v)[0];
    DotFree(k);
    NeedleChars(k);
    assert SkipBlanks(body, p) == p;
    assert k[..|k|] == k;
    FieldStartLast(body, k, cursor, Needle(k), at, p);
  }

  lemma {:induction false} DotFound(a: string, k: string, i: nat)
    requires PlainKey(a) && i <= |a|
    ensures DotFrom(a + "." + k, i) == |a|
    decreases |a| - i
  {
    var path := a + "." + k;
    if i < |a| {
      assert path[i] == a[i];
      DotFound(a, k, i + 1);
    } else {
      assert path[|a|] == '.';
    }
  }

  lemma ObjectAt(body: string, c: nat, fs: seq<Field>, rest: string)
    requires c <= |body| && body[c..] == Doc(fs) + rest
    ensures c < |body| && body[c] == '{' && HoldsMore(body, c + 1, fs, rest)
    ensures SkipBlanks(body, c) == c
  {
    var tail := body[c..];
    assert Doc(fs) + rest == "{" + (Members(fs) + "}" + rest);
    assert tail[0] == '{' && tail[1..] == Members(fs) + "}" + rest && body[c + 1..] == tail[1..];
  }

  /** The first key of a path leads to the object in which the second is looked for. */
  lemma OuterKey(body: string, a: string, k: string, path: string, at: nat, c: nat)
    requires PlainKey(a) && path == a + "." + k && Find(body, Needle(a), 0) == Some(at) && c == at + |a| + 3
    requires c < |body| && body[c] == '{' && SkipBlanks(body, c) == c
    ensures FieldStart(body, path, 0) == FieldStart(body, k, c + 1)
  {
    DotFound(a, k, 0);
    assert path[..|a|] == a && path[|a| + 1..] == k;
    NeedleChars(a);
    FieldStartNested(body, path, 0, |a|, Needle(a), at, c, k);
  }

  lemma LandsInside(body: string, p: nat, fs: seq<Field>, rest: string, k: string, v: Value) returns (at: nat)
    requires PlainKey(k) && PlainKeys(fs) && Lookup(fs, k) == Some(v) && HoldsMore(body, p, fs, rest)
    ensures Find(body, Needle(k), p) == Some(at) && Landed(body, at, k, v)
  {
    SearchPresent(body, p, fs, rest, k);
    at := Find(body, Needle(k), p).value;
  }

  lemma InnerKey(body: string, p: nat, fs: seq<Field>, rest: string, k: string, v: Value) returns (q: nat)
    requires PlainKey(k) && PlainKeys(fs) && Lookup(fs, k) == Some(v) && HoldsMore(body, p, fs, rest)
    ensures FieldStart(body, k, p) == Some(q) && At(body, q, ValueText(v))
  {
    var at := LandsInside(body, p, fs, rest, k, v);
    q := at + |k| + 3;
    StartInside(body, k, p, at, v);
  }

  /** Where the value of `a.k` starts, when the value of `a` is an object that has the key. */
  lemma NestedStart(body: string, a: string, at: nat, fs: seq<Field>, rest: string, k: string, path: string)
    returns (q: nat)
    requires PlainKey(a) && PlainKey(k) && PlainKeys(fs) && Lookup(fs, k).Some? && path == a + "." + k
    requires Find(body, Needle(a), 0) == Some(at) && at + |a| + 3 <= |body| && body[at + |a| + 3..] == Doc(fs) + rest
    ensures FieldStart(body, path, 0) == Some(q) && At(body, q, ValueText(Lookup(fs, k).value))
  {
    var c := at + |a| + 3;
    ObjectAt(body, c, fs, rest);
    OuterKey(body, a, k, path, at, c);
    q := InnerKey(body, c + 1, fs, rest, k, Lookup(fs, k).value);
  }

  /** What the reader makes of a string literal at an offset. */
  lemma StringFrom(body: string, q: nat, s: string)
    requires At(body, q, ValueText(Str(s)))
    ensures q < |body| && body[q] == '"' && Unescape(body[q + 1..ScanEnd(body, q + 1)]) == s
  {
    ValueStarts(Str(s));
    assert body[q + 0] == ValueText(Str(s))[0];
    LiteralRead(body, q, s);
  }

  lemma StringOf(body: string, path: string, q: nat)
    requires FieldStart(body, path, 0) == Some(q) && q < |body| && body[q] == '"'
    ensures GetString(body, path) == Unescape(body[q + 1..ScanEnd(body, q + 1)])
  {
  }

  /** A string inside is read back as it was written. */
  lemma NestedString(body: string, a: string, at: nat, fs: seq<Field>, rest: string, k: string, s: string, path: string)
    requires PlainKey(a) && PlainKey(k) && PlainKeys(fs) && Lookup(fs, k) == Some(Str(s)) && path == a + "." + k
    requires Find(body, Needle(a), 0) == Some(at) && at + |a| + 3 <= |body| && body[at + |a| + 3..] == Doc(fs) + rest
    ensures GetString(body, path) == s
  {
    var q := NestedStart(body, a, at, fs, rest, k, path);
    StringFrom(body, q, s);
    StringOf(body, path, q);
  }

  // ----- What is skipped -----

  /** Between the colon and the value the reader skips blanks, tabs and newlines, and nothing else. */
  lemma {:induction false} SkipsExactly(body: string, at: nat)
    requires at <= |body|
    ensures var r := SkipBlanks(body, at);
            && at <= r <= |body| && (forall i :: at <= i < r ==> body[i] in {' ', '\t', '\n'})
            && (r < |body| ==> body[r] !in {' ', '\t', '\n'})
    decreases |body| - at
  {
    if at < |body| && body[at] in {' ', '\t', '\n'} {
      SkipsExactly(body, at + 1);
    }
  }

  /** In front of a number it also skips returns and the other white space of C, and a plus sign. */
  lemma AtollSkips(c: char, s: string, digits: string)
    requires c in {' ', '\t', '\n', '\r', '\U{000B}', '\U{000C}'} && digits != "" && Decimal.AllDigits(digits)
    ensures Atoll([c] + s) == Atoll(s)
    ensures Atoll("+" + digits) == Decimal.Read(digits)
  {
    assert ([c] + s)[1..] == s && ("+" + digits)[1..] == digits;
    WholeRun(digits);
    assert digits[..|digits|] == digits;
  }

  lemma {:induction false} WholeRun(digits: string)
    requires Decimal.AllDigits(digits)
    ensures DigitRun(digits) == |digits|
  {
    if digits != "" {
      WholeRun(digits[1..]);
    }
  }
}
