/** The macro recorder as a mutable service, and the runner's loop. */
module MacroStudio {
  import opened Common
  import opened Macro
  import opened MacroExact
  import Decimal
  import PinPad

  class MacroRecorder {
    var recording: bool
    var steps: seq<Step>
    var counter: nat
    var digitBuffer: string
    var absorbNextEnter: bool

    function State(): Recorder
      reads this
    {
      Recorder(steps, counter, digitBuffer, absorbNextEnter)
    }

    constructor ()
      ensures !recording
    {
      recording := false;
      steps, counter, digitBuffer, absorbNextEnter := [], 1, "", false;
    }

    /** False when a recording is already under way. */
    method StartRecording() returns (started: bool)
      modifies this
      ensures started == !old(recording) && recording
      ensures State() == if started then Start() else old(State())
    {
      started := !recording;
      if started {
        recording := true;
        steps, counter, digitBuffer, absorbNextEnter := [], 1, "", false;
      }
    }

    method StopRecording() returns (r: Option<seq<Step>>)
      modifies this
      ensures !recording
      ensures r == if old(recording) then Some(Flush(old(State())).steps) else None
    {
      if !recording {
        return None;
      }
      FlushDigitBuffer();
      recording := false;
      r := Some(steps);
    }

    method OnUserAction(action: Action)
      modifies this
      ensures recording == old(recording)
      ensures State() == if recording then OnAction(old(State()), action) else old(State())
    {
      if !recording {
        return;
      }
      match action
      case CardInsert(pan) =>
        FlushDigitBuffer();
        PushStep(SelectCard(pan));
        PushStep(InsertCard);
      case KeyPress(key) =>
        if PinPad.IsDigitKey(key) {
          digitBuffer := digitBuffer + key;
        } else {
          FlushDigitBuffer();
          if key == "ENTER" && absorbNextEnter {
            absorbNextEnter := false;
            return;
          }
          absorbNextEnter := false;
          PushStep(KeyPressed(key));
        }
      case SelectTransaction(txnType) =>
        FlushDigitBuffer();
        PushStep(Choose(txnType));
      case SubmitAmount(amount) =>
        FlushDigitBuffer();
        PushStep(Amount(amount));
      case Confirm =>
        FlushDigitBuffer();
        PushStep(ConfirmStep);
      case Cancel(reason) =>
        FlushDigitBuffer();
        PushStep(CancelStep(if reason == Some("") then None else reason));
    }

    /** `None` is an event code without a checkpoint. */
    method OnXfsEvent(checkpoint: Option<Checkpoint>)
      modifies this
      ensures recording == old(recording)
      ensures State() ==
              if recording && checkpoint.Some? then OnEvent(old(State()), Xfs(checkpoint.value)) else old(State())
    {
      if !recording || checkpoint.None? {
        return;
      }
      FlushDigitBuffer();
      PushStep(Check(checkpoint.value));
    }

    method FlushDigitBuffer()
      modifies this
      ensures State() == Flush(old(State())) && recording == old(recording)
    {
      if |digitBuffer| == 0 {
        return;
      }
      var digits := digitBuffer;
      digitBuffer := "";
      if 4 <= |digits| <= 12 {
        PushStep(EnterPin(CARD_PIN));
        absorbNextEnter := true;
        return;
      }
      PushStep(KeyPressed(digits));
    }

    method PushStep(op: Op)
      modifies this
      ensures State() == Push(old(State()), op) && recording == old(recording)
    {
      steps := steps + [Step(counter, op)];
      counter := counter + 1;
    }
  }

  /** One recording from start to stop. */
  method RecordStream(events: seq<Event>) returns (steps: seq<Step>)
    ensures steps == Record(events)
    ensures forall k :: 0 <= k < |steps| ==> steps[k].order == k + 1
  {
    var recorder := new MacroRecorder();
    var started := recorder.StartRecording();
    for n := 0 to |events|
      invariant fresh(recorder) && recorder.recording && recorder.State() == RecordUpTo(events, n)
    {
      match events[n]
      case User(action) => recorder.OnUserAction(action);
      case Xfs(checkpoint) => recorder.OnXfsEvent(Some(checkpoint));
    }
    var saved := recorder.StopRecording();
    OrdersAreOneToN(events);
    steps := saved.value;
  }

  lemma PressesFirst(keys: string, n: nat)
    requires n < |keys|
    ensures Presses(keys[..n]) + [KeyPress([keys[n]])] == Presses(keys[..n + 1])
  {
  }

  method PressAll(keys: string) returns (calls: seq<Action>)
    ensures calls == Presses(keys)
  {
    calls := [];
    for n := 0 to |keys|
      invariant calls == Presses(keys[..n])
    {
      PressesFirst(keys, n);
      calls := calls + [KeyPress([keys[n]])];
    }
    assert keys[..|keys|] == keys;
  }

  method ExecuteStep(op: Op, ctx: Context, w: World, reply: Reply) returns (out: Outcome)
    ensures out == Execute(op, ctx, w, reply)
  {
    match op
    case EnterPin(raw) =>
      var pin := Resolve(raw, ctx);
      if pin.None? || reply.NotReady? {
        return Outcome([], None);
      }
      var keys := PressAll(pin.value);
      out := Outcome(keys + [ENTER], Unless(reply, ctx));
    case KeyPressed(raw) =>
      var keys := Resolve(raw, ctx);
      if keys.None? {
        return Outcome([], None);
      }
      var calls := [KeyPress(keys.value)];
      if |keys.value| >= 2 && Decimal.AllDigits(keys.value) {
        calls := PressAll(keys.value);
      }
      out := Outcome(calls, Some(ctx));
    case _ => out := Execute(op, ctx, w, reply);
  }

  /** The runner's loop, on steps already in order: it stops at the first step that fails. */
  method RunMacro(steps: seq<Step>, w: World) returns (calls: seq<Action>, passed: bool)
    ensures calls == Replay(steps, w).calls && passed == Replay(steps, w).ctx.Some?
  {
    calls := [];
    var ctx := Context(None, w.variables);
    for n := 0 to |steps|
      invariant Replay(steps[..n], w) == RunState(calls, Some(ctx))
    {
      assert steps[..n + 1][..n] == steps[..n];
      var out := ExecuteStep(steps[n].op, ctx, w, ReplyTo(w, steps[n].order));
      calls := calls + out.calls;
      if out.next.None? {
        FailedStaysFailed(steps, n + 1, w);
        return calls, false;
      }
      ctx := out.next.value;
    }
    assert steps[..|steps|] == steps;
    passed := true;
  }

  /**
   * Record, then run, as one piece of code: it passes with the user's actions exactly for streams that the recorder
   * and the runner can carry, and on those no machine makes it do anything else.
   */
  method RecordAndRun(events: seq<Event>, w: World) returns (calls: seq<Action>, passed: bool)
    ensures Cooperative(w) && PinsWhole(events) ==> (passed && calls == Users(events) <==> Faithful(events, w))
    ensures Faithful(events, w) ==> IsPrefix(calls, Users(events))
    ensures Faithful(events, w) && (passed || Cooperative(w)) ==> passed && calls == Users(events)
  {
    var steps := RecordStream(events);
    calls, passed := RunMacro(steps, w);
    if Faithful(events, w) {
      ReplayNeverInvents(events, w);
      if Cooperative(w) {
        ReplayIsFaithful(events, w);
      }
    } else if Cooperative(w) && PinsWhole(events) {
      SucceedsExactly(events, w);
    }
  }
}
