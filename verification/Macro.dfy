/** Macros: the recorder compresses a stream of user actions into steps, and the runner expands them again. */
module Macro {
  import opened Common
  import Decimal
  import PinPad

  // ----- The stream -----

  datatype Action =
    | CardInsert(pan: string)
    | KeyPress(key: string)
    | SelectTransaction(txnType: string)
    | SubmitAmount(amount: int)
    | Confirm
    | Cancel(reason: Option<string>)

  /** The device events that the recorder turns into checkpoints. */
  datatype Checkpoint = CardInserted | CardEjected | CardRetained | NotesPresented | CashTaken | Printed

  datatype Event = User(action: Action) | Xfs(checkpoint: Checkpoint)

  datatype Op =
    | SelectCard(pan: string)
    | InsertCard
    | EnterPin(raw: string)
    | KeyPressed(raw: string)
    | Choose(txnType: string)
    | Amount(amount: int)
    | ConfirmStep
    | CancelStep(reason: Option<string>)
    | Check(checkpoint: Checkpoint)

  datatype Step = Step(order: nat, op: Op)

  const ENTER := KeyPress("ENTER")
  const CARD_PIN := "Card.pin"
  const DEMO_PIN := "111111"

  // ----- Recording -----

  datatype Recorder = Recorder(steps: seq<Step>, counter: nat, digits: string, absorb: bool)

  function Start(): Recorder { Recorder([], 1, "", false) }

  function Push(r: Recorder, op: Op): Recorder {
    r.(steps := r.steps + [Step(r.counter, op)], counter := r.counter + 1)
  }

  predicate PinShaped(n: nat) { 4 <= n <= 12 }

  function Flush(r: Recorder): Recorder {
    if r.digits == "" then r
    else if PinShaped(|r.digits|) then Push(r.(digits := ""), EnterPin(CARD_PIN)).(absorb := true)
    else Push(r.(digits := ""), KeyPressed(r.digits))
  }

  function OnKey(r: Recorder, key: string): Recorder {
    if PinPad.IsDigitKey(key) then r.(digits := r.digits + key)
    else
      var f := Flush(r);
      if key == "ENTER" && f.absorb then f.(absorb := false) else Push(f.(absorb := false), KeyPressed(key))
  }

  function OnAction(r: Recorder, a: Action): Recorder {
    match a
    case CardInsert(pan) => Push(Push(Flush(r), SelectCard(pan)), InsertCard)
    case KeyPress(key) => OnKey(r, key)
    case SelectTransaction(t) => Push(Flush(r), Choose(t))
    case SubmitAmount(n) => Push(Flush(r), Amount(n))
    case Confirm => Push(Flush(r), ConfirmStep)
    case Cancel(reason) => Push(Flush(r), CancelStep(if reason == Some("") then None else reason))
  }

  function OnEvent(r: Recorder, e: Event): Recorder {
    match e
    case User(a) => OnAction(r, a)
    case Xfs(c) => Push(Flush(r), Check(c))
  }

  function RecordUpTo(s: seq<Event>, n: nat): Recorder
    requires n <= |s|
  {
    if n == 0 then Start() else OnEvent(RecordUpTo(s, n - 1), s[n - 1])
  }

  function Record(s: seq<Event>): seq<Step> { Flush(RecordUpTo(s, |s|)).steps }

  // ----- Running -----

  /** How the machine answers a step: as wanted, with a refusal, or not at all. */
  datatype Reply = Agrees | Refuses | NotReady

  datatype World = World(cards: map<string, string>, variables: map<string, string>, replies: map<nat, Reply>)

  function ReplyTo(w: World, order: nat): Reply { if order in w.replies then w.replies[order] else Agrees }

  predicate Cooperative(w: World) { w.replies == map[] }

  datatype Context = Context(selected: Option<string>, variables: map<string, string>)

  /** The calls a step makes, and the context after it unless it throws. */
  datatype Outcome = Outcome(calls: seq<Action>, next: Option<Context>)

  function Resolve(raw: string, ctx: Context): Option<string> {
    if raw == CARD_PIN then Some(DEMO_PIN)
    else if raw != "" && raw[0] == '$' then
      if raw[1..] in ctx.variables then Some(ctx.variables[raw[1..]]) else None
    else Some(raw)
  }

  function Presses(s: string): seq<Action> { seq(|s|, i requires 0 <= i < |s| => KeyPress([s[i]])) }

  /** What the runner can check: it has no rule for a retained card or for cash taken. */
  predicate Checkable(c: Checkpoint) { c != CardRetained && c != CashTaken }

  function Unless(reply: Reply, ctx: Context): Option<Context> { if reply.Agrees? then Some(ctx) else None }

  function Execute(op: Op, ctx: Context, w: World, reply: Reply): Outcome {
    match op
    case SelectCard(pan) =>
      if pan == "" || pan !in w.cards then Outcome([], None)
      else
        var variables := ctx.variables["Card.pan" := pan]["Card.cardholderName" := w.cards[pan]];
        Outcome([], Some(Context(Some(pan), variables)))
    case InsertCard =>
      if ctx.selected.None? || ctx.selected.value !in w.cards then Outcome([], None)
      else Outcome([CardInsert(ctx.selected.value)], Unless(reply, ctx))
    case EnterPin(raw) =>
      (match Resolve(raw, ctx)
       case None => Outcome([], None)
       case Some(pin) =>
         if reply.NotReady? then Outcome([], None) else Outcome(Presses(pin) + [ENTER], Unless(reply, ctx)))
    case KeyPressed(raw) =>
      (match Resolve(raw, ctx)
       case None => Outcome([], None)
       case Some(keys) =>
         Outcome(if |keys| >= 2 && Decimal.AllDigits(keys) then Presses(keys) else [KeyPress(keys)], Some(ctx)))
    case Choose(t) => Outcome([SelectTransaction(t)], Unless(reply, ctx))
    case Amount(n) => Outcome([SubmitAmount(n)], Unless(reply, ctx))
    case ConfirmStep => Outcome([Confirm], Unless(reply, ctx))
    case CancelStep(reason) =>
      Outcome([Cancel(if reason.Some? then reason else Some("macro cancel"))], Unless(reply, ctx))
    case Check(c) => Outcome([], if Checkable(c) then Unless(reply, ctx) else None)
  }

  /** The calls made so far, and the context unless a step has failed. */
  datatype RunState = RunState(calls: seq<Action>, ctx: Option<Context>)

  function Perform(st: RunState, step: Step, w: World): RunState {
    if st.ctx.None? then st
    else
      var out := Execute(step.op, st.ctx.value, w, ReplyTo(w, step.order));
      RunState(st.calls + out.calls, out.next)
  }

  /** A macro passes when no step fails. */
  function Replay(steps: seq<Step>, w: World): RunState {
    if steps == [] then RunState([], Some(Context(None, w.variables)))
    else Perform(Replay(steps[..|steps| - 1], w), steps[|steps| - 1], w)
  }

  lemma ReplayPush(r: Recorder, op: Op, w: World)
    ensures Replay(Push(r, op).steps, w) == Perform(Replay(r.steps, w), Step(r.counter, op), w)
  {
    var steps := Push(r, op).steps;
    assert steps[..|steps| - 1] == r.steps;
  }

  // ----- Orders -----

  predicate Numbered(r: Recorder) {
    r.counter == |r.steps| + 1 && forall k :: 0 <= k < |r.steps| ==> r.steps[k].order == k + 1
  }

  lemma FlushNumbered(r: Recorder)
    requires Numbered(r)
    ensures Numbered(Flush(r))
  {
  }

  lemma PushNumbered(r: Recorder, op: Op)
    requires Numbered(r)
    ensures Numbered(Push(r, op))
  {
  }

  lemma KeyNumbered(r: Recorder, key: string)
    requires Numbered(r)
    ensures Numbered(OnKey(r, key))
  {
    FlushNumbered(r);
    PushNumbered(Flush(r).(absorb := false), KeyPressed(key));
  }

  lemma InsertNumbered(r: Recorder, pan: string)
    requires Numbered(r)
    ensures Numbered(OnAction(r, CardInsert(pan)))
  {
    FlushNumbered(r);
    PushNumbered(Flush(r), SelectCard(pan));
    PushNumbered(Push(Flush(r), SelectCard(pan)), InsertCard);
  }

  lemma EventNumbered(r: Recorder, e: Event)
    requires Numbered(r)
    ensures Numbered(OnEvent(r, e))
  {
    if e.User? && e.action.CardInsert? {
      InsertNumbered(r, e.action.pan);
    } else if e.User? && e.action.KeyPress? {
      KeyNumbered(r, e.action.key);
    } else {
      FlushNumbered(r);
      forall op ensures Numbered(Push(Flush(r), op)) {
        PushNumbered(Flush(r), op);
      }
    }
  }

  lemma {:induction false} UpToNumbered(s: seq<Event>, n: nat)
    requires n <= |s|
    ensures Numbered(RecordUpTo(s, n))
  {
    if n > 0 {
      UpToNumbered(s, n - 1);
      EventNumbered(RecordUpTo(s, n - 1), s[n - 1]);
    }
  }

  /** Recorded steps are numbered 1 to n, so that sorting them by order changes nothing. */
  lemma OrdersAreOneToN(s: seq<Event>)
    ensures forall k :: 0 <= k < |Record(s)| ==> Record(s)[k].order == k + 1
  {
    UpToNumbered(s, |s|);
    FlushNumbered(RecordUpTo(s, |s|));
  }

  // ----- What a stream says -----

  predicate IsDigitEvent(e: Event) {
    e.User? && e.action.KeyPress? && |e.action.key| == 1 && '0' <= e.action.key[0] <= '9'
  }

  /** The user actions among the first `n` events. */
  function UsersUpTo(s: seq<Event>, n: nat): seq<Action>
    requires n <= |s|
  {
    if n == 0 then [] else UsersUpTo(s, n - 1) + if s[n - 1].User? then [s[n - 1].action] else []
  }

  function Users(s: seq<Event>): seq<Action> { UsersUpTo(s, |s|) }

  function NextUser(s: seq<Event>, n: nat): Option<Action>
    decreases |s| - n
  {
    if n >= |s| then None else if s[n].User? then Some(s[n].action) else NextUser(s, n + 1)
  }

  predicate Digits(s: seq<Event>, i: nat, j: nat) { i <= j <= |s| && forall k :: i <= k < j ==> IsDigitEvent(s[k]) }

  /** A longest unbroken run of digit keys: events `i` to `j`. */
  predicate DigitRun(s: seq<Event>, i: nat, j: nat) {
    && i < j && Digits(s, i, j)
    && (i > 0 ==> !IsDigitEvent(s[i - 1])) && (j < |s| ==> !IsDigitEvent(s[j]))
  }

  function TextOf(s: seq<Event>, i: nat, j: nat): (t: string)
    requires Digits(s, i, j)
    ensures |t| == j - i && Decimal.AllDigits(t)
  {
    if i == j then "" else TextOf(s, i, j - 1) + s[j - 1].action.key
  }

  /** A run that is taken for a PIN is the PIN the runner types, and the next thing the user does is ENTER. */
  predicate RunOk(s: seq<Event>, i: nat, j: nat)
    requires DigitRun(s, i, j)
  {
    4 <= j - i <= 12 ==> TextOf(s, i, j) == "111111" && NextUser(s, j) == Some(KeyPress("ENTER"))
  }

  ghost predicate RunsOkBefore(s: seq<Event>, n: nat) {
    forall i: nat, j: nat :: DigitRun(s, i, j) && j < n ==> RunOk(s, i, j)
  }

  ghost predicate PinsEntered(s: seq<Event>) { forall i: nat, j: nat :: DigitRun(s, i, j) ==> RunOk(s, i, j) }

  /** What a card's insertion binds. */
  function Bound(variables: map<string, string>, a: Action, w: World): map<string, string> {
    if a.CardInsert? && a.pan in w.cards then
      variables["Card.pan" := a.pan]["Card.cardholderName" := w.cards[a.pan]]
    else variables
  }

  /** The runner's variables by the time it comes to event `n`. */
  function Variables(s: seq<Event>, n: nat, w: World): map<string, string>
    requires n <= |s|
  {
    if n == 0 then w.variables
    else if s[n - 1].User? then Bound(Variables(s, n - 1, w), s[n - 1].action, w)
    else Variables(s, n - 1, w)
  }

  /** A key text that means itself: it is not resolved to another text, and not split into digits. */
  predicate LiteralKey(key: string, variables: map<string, string>) {
    && key != "Card.pin" && (|key| >= 2 ==> !forall i :: 0 <= i < |key| ==> '0' <= key[i] <= '9')
    && (key != "" && key[0] == '$' ==> key[1..] in variables && variables[key[1..]] == key)
  }

  /** An action that a step can carry as it is: such a key, a known card, a stated reason. */
  predicate Literal(a: Action, w: World, variables: map<string, string>) {
    match a
    case CardInsert(pan) => pan != "" && pan in w.cards
    case KeyPress(key) => LiteralKey(key, variables)
    case Cancel(reason) => reason.Some? && reason.value != ""
    case _ => true
  }

  predicate LiteralUpTo(s: seq<Event>, n: nat, w: World)
    requires n <= |s|
  {
    forall k :: 0 <= k < n && s[k].User? ==> Literal(s[k].action, w, Variables(s, k, w))
  }

  predicate AllLiteral(s: seq<Event>, w: World) { LiteralUpTo(s, |s|, w) }

  /** The runner has a rule for every checkpoint of the stream. */
  predicate AllCheckable(s: seq<Event>) {
    forall k :: 0 <= k < |s| && s[k].Xfs? ==>
      s[k].checkpoint in {CardInserted, CardEjected, NotesPresented, Printed}
  }

  // ----- One event -----

  lemma {:induction false} NextUserSkips(s: seq<Event>, n: nat)
    requires n < |s|
    ensures NextUser(s, n) == if s[n].User? then Some(s[n].action) else NextUser(s, n + 1)
  {
  }

  lemma PressesMore(a: string, key: string)
    requires PinPad.IsDigitKey(key)
    ensures Presses(a + key) == Presses(a) + [KeyPress(key)]
  {
    assert key == [key[0]];
  }

  lemma PinFlushReplays(r: Recorder, w: World, st: RunState)
    requires Cooperative(w) && PinShaped(|r.digits|) && st == Replay(r.steps, w) && st.ctx.Some?
    ensures Replay(Flush(r).steps, w) == RunState(st.calls + (Presses(DEMO_PIN) + [ENTER]), st.ctx)
  {
    ReplayPush(r.(digits := ""), EnterPin(CARD_PIN), w);
  }

  lemma KeysPlay(digits: string, ctx: Context, w: World)
    requires digits != "" && Decimal.AllDigits(digits)
    ensures Execute(KeyPressed(digits), ctx, w, Agrees) == Outcome(Presses(digits), Some(ctx))
  {
    DigitsResolve(digits, ctx);
    if |digits| == 1 {
      PressesMore("", digits);
      assert "" + digits == digits && Presses("") == [];
    }
  }

  lemma KeysFlushReplays(r: Recorder, w: World, st: RunState)
    requires Cooperative(w) && r.digits != "" && !PinShaped(|r.digits|) && Decimal.AllDigits(r.digits)
    requires st == Replay(r.steps, w) && st.ctx.Some?
    ensures Replay(Flush(r).steps, w) == RunState(st.calls + Presses(r.digits), st.ctx)
  {
    ReplayPush(r.(digits := ""), KeyPressed(r.digits), w);
    KeysPlay(r.digits, st.ctx.value, w);
  }

  /** A flushed run plays as the keys themselves, unless it is taken for a PIN. */
  lemma FlushReplays(r: Recorder, w: World, st: RunState)
    requires Cooperative(w) && Decimal.AllDigits(r.digits) && st == Replay(r.steps, w) && st.ctx.Some?
    ensures Replay(Flush(r).steps, w) ==
      RunState(st.calls + (if PinShaped(|r.digits|) then Presses(DEMO_PIN) + [ENTER] else Presses(r.digits)), st.ctx)
  {
    if r.digits == "" {
      assert st.calls + [] == st.calls;
    } else if PinShaped(|r.digits|) {
      PinFlushReplays(r, w, st);
    } else {
      KeysFlushReplays(r, w, st);
    }
  }

  lemma DigitsResolve(s: string, ctx: Context)
    requires s != "" && Decimal.AllDigits(s)
    ensures Resolve(s, ctx) == Some(s)
  {
    assert CARD_PIN[0] == 'C';
  }

  /** One more step that succeeds. */
  lemma PushPlays(r: Recorder, op: Op, w: World, st: RunState, out: Outcome)
    requires Cooperative(w) && st == Replay(r.steps, w) && st.ctx.Some?
    requires out == Execute(op, st.ctx.value, w, Agrees)
    ensures Replay(Push(r, op).steps, w) == RunState(st.calls + out.calls, out.next)
  {
    ReplayPush(r, op, w);
  }

  predicate Played(st: RunState, a: Action, w: World, after: RunState) {
    && st.ctx.Some? && after.ctx.Some? && after.calls == st.calls + [a]
    && after.ctx.value.variables == Bound(st.ctx.value.variables, a, w)
  }

  lemma InsertReplays(r: Recorder, pan: string, w: World, st: RunState)
    requires Cooperative(w) && st == Replay(r.steps, w) && st.ctx.Some?
    requires Literal(CardInsert(pan), w, st.ctx.value.variables)
    ensures Played(st, CardInsert(pan), w, Replay(Push(Push(r, SelectCard(pan)), InsertCard).steps, w))
  {
    var out := Execute(SelectCard(pan), st.ctx.value, w, Agrees);
    PushPlays(r, SelectCard(pan), w, st, out);
    assert st.calls + [] == st.calls;
    var selected := RunState(st.calls, out.next);
    PushPlays(Push(r, SelectCard(pan)), InsertCard, w, selected, Outcome([CardInsert(pan)], out.next));
  }

  lemma KeyReplays(r: Recorder, key: string, w: World, st: RunState)
    requires Cooperative(w) && st == Replay(r.steps, w) && st.ctx.Some?
    requires Literal(KeyPress(key), w, st.ctx.value.variables)
    ensures Played(st, KeyPress(key), w, Replay(Push(r, KeyPressed(key)).steps, w))
  {
    PushPlays(r, KeyPressed(key), w, st, Outcome([KeyPress(key)], st.ctx));
  }

  lemma CancelReplays(r: Recorder, reason: Option<string>, w: World, st: RunState)
    requires Cooperative(w) && st == Replay(r.steps, w) && st.ctx.Some?
    requires Literal(Cancel(reason), w, st.ctx.value.variables)
    ensures Played(st, Cancel(reason), w, Replay(Push(r, CancelStep(reason)).steps, w))
  {
    PushPlays(r, CancelStep(reason), w, st, Outcome([Cancel(reason)], st.ctx));
  }

  /** The step of a literal action that is no digit and no absorbed ENTER plays as that action. */
  lemma ActionReplays(r: Recorder, a: Action, w: World, st: RunState)
    requires !IsDigitEvent(User(a)) && !(a == ENTER && r.absorb) && r.digits == ""
    requires Cooperative(w) && st == Replay(r.steps, w) && st.ctx.Some? && Literal(a, w, st.ctx.value.variables)
    ensures Played(st, a, w, Replay(OnAction(r, a).steps, w))
  {
    if a.CardInsert? {
      InsertReplays(r, a.pan, w, st);
    } else if a.KeyPress? {
      KeyReplays(r.(absorb := false), a.key, w, st);
    } else if a.SelectTransaction? {
      PushPlays(r, Choose(a.txnType), w, st, Outcome([a], st.ctx));
    } else if a.SubmitAmount? {
      PushPlays(r, Amount(a.amount), w, st, Outcome([a], st.ctx));
    } else if a.Confirm? {
      PushPlays(r, ConfirmStep, w, st, Outcome([a], st.ctx));
    } else {
      CancelReplays(r, a.reason, w, st);
    }
  }

  lemma ActionBuffer(r: Recorder, a: Action)
    requires !IsDigitEvent(User(a)) && !(a == ENTER && r.absorb) && r.digits == ""
    ensures OnAction(r, a).digits == "" && OnAction(r, a).absorb == (r.absorb && !a.KeyPress?)
  {
  }

  lemma FlushFirst(r: Recorder, e: Event)
    requires !IsDigitEvent(e)
    ensures OnEvent(r, e) == OnEvent(Flush(r), e)
  {
    assert Flush(Flush(r)) == Flush(r);
  }

  // ----- The recorder catches up with the stream -----

  /**
   * After `n` events: what the steps play is what the user did, less the digits still in the buffer; and while an
   * ENTER is to be absorbed, the steps have already played it.
   */
  predicate Caught(s: seq<Event>, n: nat, r: Recorder, w: World, st: RunState)
    requires n <= |s|
  {
    && |r.digits| <= n && Digits(s, n - |r.digits|, n) && TextOf(s, n - |r.digits|, n) == r.digits
    && (r.digits != "" && n > |r.digits| ==> !IsDigitEvent(s[n - |r.digits| - 1]))
    && st.ctx.Some? && st.ctx.value.variables == Variables(s, n, w)
    && if r.absorb then r.digits == "" && NextUser(s, n) == Some(ENTER) && st.calls == UsersUpTo(s, n) + [ENTER]
       else st.calls + Presses(r.digits) == UsersUpTo(s, n)
  }

  lemma DigitCaught(s: seq<Event>, n: nat, r: Recorder, w: World, st: RunState)
    requires n < |s| && IsDigitEvent(s[n]) && Caught(s, n, r, w, st)
    requires n > 0 && IsDigitEvent(s[n - 1]) ==> r.digits != ""
    ensures Caught(s, n + 1, OnEvent(r, s[n]), w, st)
  {
    var key := s[n].action.key;
    NextUserSkips(s, n);
    PressesMore(r.digits, key);
    var i := n - |r.digits|;
    assert TextOf(s, i, n + 1) == TextOf(s, i, n) + key;
    assert st.calls + (Presses(r.digits) + [KeyPress(key)]) == st.calls + Presses(r.digits) + [KeyPress(key)];
  }

  lemma FlushBuffer(r: Recorder)
    ensures Flush(r).digits == "" && Flush(r).absorb == (r.absorb || PinShaped(|r.digits|))
  {
  }

  /** A run that is fit to end here may be flushed. */
  lemma FlushCaught(s: seq<Event>, n: nat, r: Recorder, w: World, st: RunState)
    requires n <= |s| && (n < |s| ==> !IsDigitEvent(s[n])) && Caught(s, n, r, w, st)
    requires Cooperative(w) && st == Replay(r.steps, w)
    requires r.digits != "" ==> DigitRun(s, n - |r.digits|, n) && RunOk(s, n - |r.digits|, n)
    ensures Caught(s, n, Flush(r), w, Replay(Flush(r).steps, w)) && Flush(r).digits == ""
  {
    FlushReplays(r, w, st);
    FlushBuffer(r);
    FlushedCaught(s, n, r, Flush(r), w, st, Replay(Flush(r).steps, w));
  }

  lemma FlushedCaught(s: seq<Event>, n: nat, r: Recorder, f: Recorder, w: World, st: RunState, after: RunState)
    requires n <= |s| && Caught(s, n, r, w, st)
    requires r.digits != "" ==> DigitRun(s, n - |r.digits|, n) && RunOk(s, n - |r.digits|, n)
    requires f.digits == "" && f.absorb == (r.absorb || PinShaped(|r.digits|)) && after.ctx == st.ctx
    requires after.calls == st.calls + if PinShaped(|r.digits|) then Presses(DEMO_PIN) + [ENTER] else Presses(r.digits)
    ensures Caught(s, n, f, w, after)
  {
    assert Presses("") == [];
    if PinShaped(|r.digits|) {
      assert st.calls + (Presses(DEMO_PIN) + [ENTER]) == st.calls + Presses(DEMO_PIN) + [ENTER];
    } else {
      assert r.absorb ==> st.calls + [] == st.calls;
      assert after.calls + [] == after.calls;
    }
  }

  lemma CheckCaught(s: seq<Event>, n: nat, r: Recorder, w: World, st: RunState)
    requires n < |s| && s[n].Xfs? && Checkable(s[n].checkpoint) && Caught(s, n, r, w, st) && r.digits == ""
    requires Cooperative(w) && st == Replay(r.steps, w)
    ensures var after := Push(r, Check(s[n].checkpoint)); Caught(s, n + 1, after, w, Replay(after.steps, w))
  {
    NextUserSkips(s, n);
    PushPlays(r, Check(s[n].checkpoint), w, st, Outcome([], st.ctx));
    assert st.calls + [] == st.calls;
  }

  lemma AbsorbCaught(s: seq<Event>, n: nat, r: Recorder, w: World, st: RunState)
    requires n < |s| && s[n].User? && Caught(s, n, r, w, st) && r.absorb
    ensures s[n].action == ENTER && Caught(s, n + 1, r.(absorb := false), w, st)
  {
    NextUserSkips(s, n);
    assert Presses("") == [];
    assert st.calls + [] == st.calls;
  }

  lemma ActionCaught(s: seq<Event>, n: nat, r: Recorder, after: Recorder, w: World, st: RunState, end: RunState)
    requires n < |s| && s[n].User? && Caught(s, n, r, w, st) && !r.absorb && r.digits == ""
    requires Played(st, s[n].action, w, end) && after.digits == "" && !after.absorb
    ensures Caught(s, n + 1, after, w, end)
  {
    assert Presses("") == [];
    assert st.calls + [] == st.calls && end.calls + [] == end.calls;
  }

  lemma OtherCaught(s: seq<Event>, n: nat, r: Recorder, w: World, st: RunState)
    requires n < |s| && !IsDigitEvent(s[n]) && Caught(s, n, r, w, st) && r.digits == ""
    requires Cooperative(w) && st == Replay(r.steps, w)
    requires s[n].User? ==> Literal(s[n].action, w, Variables(s, n, w))
    requires s[n].Xfs? ==> Checkable(s[n].checkpoint)
    ensures var after := OnEvent(r, s[n]); Caught(s, n + 1, after, w, Replay(after.steps, w))
  {
    if s[n].Xfs? {
      CheckCaught(s, n, r, w, st);
    } else if r.absorb {
      AbsorbCaught(s, n, r, w, st);
    } else {
      var after := OnAction(r, s[n].action);
      ActionReplays(r, s[n].action, w, st);
      ActionBuffer(r, s[n].action);
      ActionCaught(s, n, r, after, w, st, Replay(after.steps, w));
    }
  }

  lemma EventCaught(s: seq<Event>, n: nat, r: Recorder, w: World)
    requires n < |s| && Cooperative(w) && Caught(s, n, r, w, Replay(r.steps, w))
    requires s[n].User? ==> Literal(s[n].action, w, Variables(s, n, w))
    requires s[n].Xfs? ==> Checkable(s[n].checkpoint)
    requires n > 0 && IsDigitEvent(s[n - 1]) ==> r.digits != ""
    requires RunsOkBefore(s, n + 1)
    ensures var after := OnEvent(r, s[n]); Caught(s, n + 1, after, w, Replay(after.steps, w))
  {
    var st := Replay(r.steps, w);
    if IsDigitEvent(s[n]) {
      DigitCaught(s, n, r, w, st);
    } else {
      assert r.digits != "" ==> DigitRun(s, n - |r.digits|, n);
      FlushCaught(s, n, r, w, st);
      OtherCaught(s, n, Flush(r), w, Replay(Flush(r).steps, w));
      FlushFirst(r, s[n]);
    }
  }

  lemma DigitBuffered(s: seq<Event>, n: nat)
    requires 0 < n <= |s| && IsDigitEvent(s[n - 1])
    ensures RecordUpTo(s, n).digits != ""
  {
  }

  lemma {:induction false} CatchesUp(s: seq<Event>, n: nat, w: World)
    requires n <= |s| && Cooperative(w) && LiteralUpTo(s, n, w) && AllCheckable(s) && RunsOkBefore(s, n)
    ensures Caught(s, n, RecordUpTo(s, n), w, Replay(RecordUpTo(s, n).steps, w))
  {
    if n == 0 {
      assert [] + Presses("") == [];
    } else {
      CatchesUp(s, n - 1, w);
      if n > 1 && IsDigitEvent(s[n - 2]) {
        DigitBuffered(s, n - 1);
      }
      EventCaught(s, n - 1, RecordUpTo(s, n - 1), w);
    }
  }

  /**
   * Record, then run: if every run of digits that is taken for a PIN is the PIN and the user's next action is ENTER,
   * the run passes and performs exactly the user's actions.
   */
  lemma ReplayIsFaithful(s: seq<Event>, w: World)
    requires Cooperative(w) && AllLiteral(s, w) && AllCheckable(s) && PinsEntered(s)
    ensures Replay(Record(s), w).calls == Users(s) && Replay(Record(s), w).ctx.Some?
  {
    CatchesUp(s, |s|, w);
    var r := RecordUpTo(s, |s|);
    FlushCaught(s, |s|, r, w, Replay(r.steps, w));
    assert Presses("") == [];
    var calls := Replay(Record(s), w).calls;
    assert calls + [] == calls;
  }

  // ----- What is recorded stays recorded -----

  lemma {:induction false} RunExtends(steps: seq<Step>, k: nat, w: World)
    requires k <= |steps|
    ensures IsPrefix(Replay(steps[..k], w).calls, Replay(steps, w).calls)
    decreases |steps|
  {
    if k == |steps| {
      assert steps[..k] == steps;
    } else {
      var init := steps[..|steps| - 1];
      assert init[..k] == steps[..k];
      RunExtends(init, k, w);
    }
  }

  lemma PushExtends(r: Recorder, op: Op)
    ensures IsPrefix(r.steps, Push(r, op).steps)
  {
  }

  lemma FlushExtends(r: Recorder)
    ensures IsPrefix(r.steps, Flush(r).steps)
  {
  }

  lemma OtherExtends(r: Recorder, e: Event)
    requires !IsDigitEvent(e)
    ensures IsPrefix(Flush(r).steps, OnEvent(r, e).steps)
  {
    var f := Flush(r);
    if e.User? && e.action.CardInsert? {
      PushExtends(f, SelectCard(e.action.pan));
      PushExtends(Push(f, SelectCard(e.action.pan)), InsertCard);
      PrefixTrans(f.steps, Push(f, SelectCard(e.action.pan)).steps, OnEvent(r, e).steps);
    }
  }

  lemma EventExtends(r: Recorder, e: Event)
    ensures IsPrefix(r.steps, OnEvent(r, e).steps)
  {
    if !IsDigitEvent(e) {
      FlushExtends(r);
      OtherExtends(r, e);
      PrefixTrans(r.steps, Flush(r).steps, OnEvent(r, e).steps);
    }
  }

  lemma {:induction false} UpToExtends(s: seq<Event>, j: nat, n: nat)
    requires j <= n <= |s|
    ensures IsPrefix(RecordUpTo(s, j).steps, RecordUpTo(s, n).steps)
    decreases n
  {
    if j < n {
      UpToExtends(s, j, n - 1);
      EventExtends(RecordUpTo(s, n - 1), s[n - 1]);
      PrefixTrans(RecordUpTo(s, j).steps, RecordUpTo(s, n - 1).steps, RecordUpTo(s, n).steps);
    }
  }

  lemma UpToInRecord(s: seq<Event>, n: nat)
    requires n <= |s|
    ensures IsPrefix(RecordUpTo(s, n).steps, Record(s))
  {
    UpToExtends(s, n, |s|);
    FlushExtends(RecordUpTo(s, |s|));
    PrefixTrans(RecordUpTo(s, n).steps, RecordUpTo(s, |s|).steps, Record(s));
  }

  lemma FlushedKept(r: Recorder, e: Event, next: Recorder, all: seq<Step>)
    requires !IsDigitEvent(e) && next == OnEvent(r, e) && IsPrefix(next.steps, all)
    ensures IsPrefix(Flush(r).steps, all)
  {
    OtherExtends(r, e);
    PrefixTrans(Flush(r).steps, next.steps, all);
  }

  /** What is flushed where a run ends stays in the recording. */
  lemma FlushStays(s: seq<Event>, j: nat)
    requires j <= |s| && (j < |s| ==> !IsDigitEvent(s[j]))
    ensures IsPrefix(Flush(RecordUpTo(s, j)).steps, Record(s))
  {
    if j < |s| {
      FlushStaysInside(s, j);
    } else {
      PrefixSelf(Record(s));
    }
  }

  lemma PrefixSelf<T>(a: seq<T>)
    ensures IsPrefix(a, a)
  {
  }

  lemma FlushStaysInside(s: seq<Event>, j: nat)
    requires j < |s| && !IsDigitEvent(s[j])
    ensures IsPrefix(Flush(RecordUpTo(s, j)).steps, Record(s))
  {
    UpToInRecord(s, j + 1);
    FlushedKept(RecordUpTo(s, j), s[j], RecordUpTo(s, j + 1), Record(s));
  }

  lemma {:induction false} UsersExtend(s: seq<Event>, j: nat, n: nat)
    requires j <= n <= |s|
    ensures IsPrefix(UsersUpTo(s, j), UsersUpTo(s, n))
    ensures var k := |UsersUpTo(s, j)|;
            NextUser(s, j) == if |UsersUpTo(s, n)| > k then Some(UsersUpTo(s, n)[k]) else NextUser(s, n)
    decreases n
  {
    if j < n {
      UsersExtend(s, j, n - 1);
      NextUserSkips(s, n - 1);
    }
  }

  // ----- A machine that does not play along -----

  function Willing(w: World): World { w.(replies := map[]) }

  /** Up to its first failed step a run does what a run on a willing machine does. */
  predicate Follows(st: RunState, willing: RunState) {
    if st.ctx.Some? then st == willing else IsPrefix(st.calls, willing.calls)
  }

  lemma StepFollows(op: Op, ctx: Context, w: World, reply: Reply)
    ensures var out, willing := Execute(op, ctx, w, reply), Execute(op, ctx, Willing(w), Agrees);
            if out.next.Some? then out == willing else IsPrefix(out.calls, willing.calls)
  {
  }

  lemma PerformFollows(st: RunState, willing: RunState, step: Step, w: World)
    requires Follows(st, willing)
    ensures Follows(Perform(st, step, w), Perform(willing, step, Willing(w)))
  {
    if st.ctx.Some? {
      StepFollows(step.op, st.ctx.value, w, ReplyTo(w, step.order));
    } else {
      assert IsPrefix(willing.calls, Perform(willing, step, Willing(w)).calls);
      PrefixTrans(st.calls, willing.calls, Perform(willing, step, Willing(w)).calls);
    }
  }

  lemma {:induction false} ReplayFollows(steps: seq<Step>, w: World)
    ensures Follows(Replay(steps, w), Replay(steps, Willing(w)))
  {
    if steps != [] {
      ReplayFollows(steps[..|steps| - 1], w);
      PerformFollows(Replay(steps[..|steps| - 1], w), Replay(steps[..|steps| - 1], Willing(w)), steps[|steps| - 1], w);
    }
  }

  lemma {:induction false} VariablesWilling(s: seq<Event>, n: nat, w: World)
    requires n <= |s|
    ensures Variables(s, n, Willing(w)) == Variables(s, n, w)
  {
    if n > 0 {
      VariablesWilling(s, n - 1, w);
    }
  }

  lemma WillingLiteral(s: seq<Event>, w: World)
    requires AllLiteral(s, w)
    ensures AllLiteral(s, Willing(w))
  {
    forall k | 0 <= k < |s| && s[k].User? ensures Literal(s[k].action, Willing(w), Variables(s, k, Willing(w))) {
      VariablesWilling(s, k, w);
    }
  }

  /** However the machine answers, a replay does nothing that the user did not do, in the user's order. */
  lemma ReplayNeverInvents(s: seq<Event>, w: World)
    requires AllLiteral(s, w) && AllCheckable(s) && PinsEntered(s)
    ensures IsPrefix(Replay(Record(s), w).calls, Users(s))
    ensures Replay(Record(s), w).ctx.Some? ==> Replay(Record(s), w).calls == Users(s)
  {
    WillingLiteral(s, w);
    ReplayIsFaithful(s, Willing(w));
    ReplayFollows(Record(s), w);
  }

  lemma {:induction false} FailedStaysFailed(steps: seq<Step>, k: nat, w: World)
    requires k <= |steps| && Replay(steps[..k], w).ctx.None?
    ensures Replay(steps, w) == Replay(steps[..k], w)
    decreases |steps|
  {
    if k == |steps| {
      assert steps[..k] == steps;
    } else {
      assert steps[..|steps| - 1][..k] == steps[..k];
      FailedStaysFailed(steps[..|steps| - 1], k, w);
    }
  }

  lemma CheckFails(r: Recorder, c: Checkpoint, w: World)
    requires !Checkable(c)
    ensures Replay(Push(r, Check(c)).steps, w).ctx.None?
  {
    ReplayPush(r, Check(c), w);
  }

  /** A stream in which a card was retained, or cash taken, records a macro that no machine can pass. */
  lemma UncheckableFails(s: seq<Event>, n: nat, w: World)
    requires n < |s| && s[n].Xfs? && s[n].checkpoint !in {CardInserted, CardEjected, NotesPresented, Printed}
    ensures Replay(Record(s), w).ctx.None?
  {
    CheckFails(Flush(RecordUpTo(s, n)), s[n].checkpoint, w);
    UpToInRecord(s, n + 1);
    FailedStaysFailed(Record(s), |RecordUpTo(s, n + 1).steps|, w);
  }

  /** On a willing machine a faithful recording passes if and only if every checkpoint in it has a rule. */
  lemma PassesExactly(s: seq<Event>, w: World)
    requires Cooperative(w) && AllLiteral(s, w) && PinsEntered(s)
    ensures Replay(Record(s), w).ctx.Some? <==> AllCheckable(s)
  {
    if AllCheckable(s) {
      ReplayIsFaithful(s, w);
    } else {
      var n :| 0 <= n < |s| && s[n].Xfs? && s[n].checkpoint !in {CardInserted, CardEjected, NotesPresented, Printed};
      UncheckableFails(s, n, w);
    }
  }
}
