/** Responses as the bridge server writes them reach the request that they answer. */
module BridgeFrames {
  import opened Common
  import opened MiniJson
  import opened Text
  import opened BridgeProtocol
  import Decimal

  predicate Unquoted(s: string) { forall i :: 0 <= i < |s| ==> s[i] != '"' }

  /** A frame starts with its type and its id; the rest is arbitrary. */
  function FrameText(kind: string, id: string, rest: string): string {
    "{\"type\":\"" + kind + "\",\"id\":\"" + id + "\"," + rest
  }

  const TYPE := "\"type\":\""
  const ID := "\"id\":\""

  lemma Pieces(kind: string, id: string, rest: string)
    ensures var text := FrameText(kind, id, rest);
            && At(text, 0, "{" + TYPE) && At(text, 9, kind + "\",") && At(text, 11 + |kind|, ID)
            && At(text, 17 + |kind|, id + "\"")
  {
  }

  lemma FirstQuote(text: string, start: nat, value: string)
    requires At(text, start, value + "\"") && Unquoted(value)
    ensures Find(text, "\"", start) == Some(start + |value|) && text[start..start + |value|] == value
  {
    var quoted := value + "\"";
    forall q: nat | start <= q < start + |value| ensures !At(text, q, "\"") {
      assert text[start + (q - start)] == quoted[q - start] == value[q - start];
      Mismatch(text, "\"", q, 0);
    }
    assert text[start + |value|] == quoted[|value|] == '"';
    FindSkips(text, "\"", start, start + |value|);
    assert forall i :: 0 <= i < |value| ==> text[start + i] == quoted[i] == value[i];
  }

  lemma FieldRead(text: string, key: string, p: nat, value: string)
    requires Find(text, "\"" + key + "\":\"", 0) == Some(p) && Unquoted(value)
    requires At(text, p + |key| + 4, value + "\"")
    ensures FindField(text, key) == value
  {
    FirstQuote(text, p + |key| + 4, value);
  }

  lemma TypeFound(text: string)
    requires At(text, 0, "{" + TYPE)
    ensures Find(text, TYPE, 0) == Some(1)
  {
    var head := "{" + TYPE;
    assert text[0 + 0] == head[0];
    Mismatch(text, TYPE, 0, 0);
    FindSkips(text, TYPE, 0, 1);
    assert forall i :: 0 <= i < |TYPE| ==> text[1 + i] == text[0 + (1 + i)] == head[1 + i] == TYPE[i];
  }

  /** No match of the id's needle starts before the id: not in the type's name, nor in an unquoted value. */
  lemma IdNotBefore(text: string, kind: string, q: nat)
    requires At(text, 0, "{" + TYPE) && At(text, 9, kind + "\",") && Unquoted(kind) && q < 11 + |kind|
    ensures !At(text, q, ID)
  {
    var head, value := "{" + TYPE, kind + "\",";
    if q < 8 {
      assert text[0 + q] == head[q] && text[0 + (q + 1)] == head[q + 1];
      Mismatch(text, ID, q, if q == 1 || q == 6 then 1 else 0);
    } else if q == 8 {
      IdNotAtValue(text, kind);
    } else {
      assert text[9 + (q - 9)] == value[q - 9];
      if q == 9 + |kind| {
        assert text[9 + (|kind| + 1)] == value[|kind| + 1] == ',';
        Mismatch(text, ID, q, 1);
      } else {
        Mismatch(text, ID, q, 0);
      }
    }
  }

  lemma IdNotAtValue(text: string, kind: string)
    requires At(text, 9, kind + "\",") && Unquoted(kind)
    ensures !At(text, 8, ID)
  {
    var value := kind + "\",";
    if |kind| < 2 {
      assert text[9 + |kind|] == value[|kind|] == '"';
      Mismatch(text, ID, 8, 1 + |kind|);
    } else if |kind| == 2 {
      assert text[9 + 3] == value[3] == ',';
      Mismatch(text, ID, 8, 4);
    } else {
      assert text[9 + 2] == value[2] == kind[2];
      Mismatch(text, ID, 8, 3);
    }
  }

  lemma IdFound(text: string, kind: string)
    requires At(text, 0, "{" + TYPE) && At(text, 9, kind + "\",") && Unquoted(kind) && At(text, 11 + |kind|, ID)
    ensures Find(text, ID, 0) == Some(11 + |kind|)
  {
    forall q: nat | 0 <= q < 11 + |kind| ensures !At(text, q, ID) {
      IdNotBefore(text, kind, q);
    }
    FindSkips(text, ID, 0, 11 + |kind|);
  }

  /** The reader's textual search finds the type and the id that were written, whatever follows them. */
  lemma FrameRouted(kind: string, id: string, rest: string)
    requires Unquoted(kind) && Unquoted(id)
    ensures FindField(FrameText(kind, id, rest), "type") == kind && FindField(FrameText(kind, id, rest), "id") == id
  {
    var text := FrameText(kind, id, rest);
    Pieces(kind, id, rest);
    TypeFound(text);
    IdFound(text, kind);
    assert "\"" + "type" + "\":\"" == TYPE && "\"" + "id" + "\":\"" == ID;
    TypeValue(text, kind);
    FieldRead(text, "type", 1, kind);
    FieldRead(text, "id", 11 + |kind|, id);
  }

  lemma TypeValue(text: string, kind: string)
    requires At(text, 9, kind + "\",")
    ensures At(text, 9, kind + "\"")
  {
    var value, quoted := kind + "\",", kind + "\"";
    assert forall i :: 0 <= i < |quoted| ==> text[9 + i] == value[i] == quoted[i];
  }

  lemma IdUnquoted(n: nat)
    ensures Unquoted(IdOf(n))
  {
    var digits := Decimal.Show(n + 1);
    assert forall i :: 0 <= i < |digits| ==> Decimal.IsDigit(digits[i]);
  }

  /**
   * In every reachable state, a response frame for a request that still has its entry is handed to that request and
   * to no other, and one for a request that has none changes nothing.
   */
  lemma ResponseReaches(run: seq<Sys>, steps: seq<Step>, k: nat, n: nat, rest: string)
    requires IsRun(run, steps) && run[0] == INIT && k < |run| && run[k].reader.Reading?
    ensures var frame := FrameText("response", IdOf(n), rest);
            Do(run[k], Receive(frame)) ==
              if IdOf(n) in run[k].pending then
                run[k].(reader := Delivering(n, frame), pending := run[k].pending - {IdOf(n)})
              else run[k]
  {
    IdUnquoted(n);
    FrameRouted("response", IdOf(n), rest);
    RunKeepsInv(run, steps, k);
    Routed(run[k], FrameText("response", IdOf(n), rest), n);
  }

  lemma Routed(s: Sys, body: string, n: nat)
    requires Inv(s) && s.reader.Reading? && IsResponse(body) && FindField(body, "id") == IdOf(n)
    ensures Do(s, Receive(body)) ==
              if IdOf(n) in s.pending then s.(reader := Delivering(n, body), pending := s.pending - {IdOf(n)}) else s
  {
    if IdOf(n) in s.pending {
      assert EntryOk(s, IdOf(n), s.pending[IdOf(n)]);
      IdsDiffer(n, s.pending[IdOf(n)]);
    }
  }
}
