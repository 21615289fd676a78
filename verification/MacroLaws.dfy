/** What the recorder writes for a run of digits, and what the runner makes of it again. */
module MacroLaws {
  import opened Common
  import opened Macro
  import Decimal

  /** The events of typing some digits. */
  function Typing(digits: string): seq<Event> {
    seq(|digits|, i requires 0 <= i < |digits| => User(KeyPress([digits[i]])))
  }

  lemma {:induction false} Buffered(s: seq<Event>, digits: string, n: nat)
    requires Decimal.AllDigits(digits) && n <= |digits| <= |s| && forall i :: 0 <= i < n ==> s[i] == Typing(digits)[i]
    ensures RecordUpTo(s, n) == Recorder([], 1, digits[..n], false)
  {
    if n > 0 {
      Buffered(s, digits, n - 1);
      assert digits[..n - 1] + [digits[n - 1]] == digits[..n];
    }
  }

  /**
   * Four to twelve digits are recorded as one step that enters the card's PIN, whatever they were, and fewer or more as
   * one step of just those keys.
   */
  lemma RunRecorded(digits: string)
    requires Decimal.AllDigits(digits) && digits != ""
    ensures Record(Typing(digits)) ==
            [Step(1, if 4 <= |digits| <= 12 then EnterPin("Card.pin") else KeyPressed(digits))]
  {
    Buffered(Typing(digits), digits, |digits|);
    assert digits[..|digits|] == digits;
  }

  /** An ENTER that follows is recorded only after a run that was not taken for a PIN. */
  lemma EnterRecorded(digits: string)
    requires Decimal.AllDigits(digits) && digits != ""
    ensures Record(Typing(digits) + [User(KeyPress("ENTER"))]) ==
            if 4 <= |digits| <= 12 then [Step(1, EnterPin("Card.pin"))]
            else [Step(1, KeyPressed(digits)), Step(2, KeyPressed("ENTER"))]
  {
    var s := Typing(digits) + [User(KeyPress("ENTER"))];
    Buffered(s, digits, |digits|);
    assert digits[..|digits|] == digits;
    assert RecordUpTo(s, |s|) == OnEvent(RecordUpTo(s, |digits|), User(KeyPress("ENTER")));
  }

  /** The PIN step types six ones and ENTER, and passes if the PIN is accepted; a pad that is not ready gets no key. */
  lemma PinStepPlays(ctx: Context, w: World, reply: Reply)
    ensures var out := Execute(EnterPin("Card.pin"), ctx, w, reply);
            && out.calls ==
               (if reply.NotReady? then []
                else
                  [KeyPress("1"), KeyPress("1"), KeyPress("1"), KeyPress("1"), KeyPress("1"), KeyPress("1"),
                   KeyPress("ENTER")])
            && (out.next == if reply.Agrees? then Some(ctx) else None)
  {
  }

  /** A checkpoint performs nothing, and passes if the runner has a rule for it and the machine agrees. */
  lemma CheckpointPlays(c: Checkpoint, ctx: Context, w: World, reply: Reply)
    ensures var out := Execute(Check(c), ctx, w, reply);
            && out.calls == []
            && (out.next.Some? <==> reply.Agrees? && c in {CardInserted, CardEjected, NotesPresented, Printed})
  {
  }
}
