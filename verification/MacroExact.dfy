/**
 * When a replay performs exactly what the user did. The recorder and the runner change three things: a run of digits
 * that is taken for a PIN, a key text that the runner resolves or splits, and a cancellation without a reason.
 */
module MacroExact {
  import opened Common
  import opened Macro
  import Decimal

  // ----- A PIN that was none -----

  /** From event `i` on the user types the PIN and ENTER. */
  predicate PinTyped(s: seq<Event>, i: nat)
    requires i <= |s|
  {
    IsPrefix(UsersUpTo(s, i) + (Presses("111111") + [KeyPress("ENTER")]), Users(s))
  }

  /** The user's PIN and ENTER are never interrupted by a checkpoint just after the fourth or the fifth digit. */
  ghost predicate PinsWhole(s: seq<Event>) {
    forall i: nat, j: nat :: DigitRun(s, i, j) && 4 <= j - i < 6 ==> !PinTyped(s, i)
  }

  /** The first run, if any, that is taken for a PIN and is not one. */
  lemma {:induction false} FirstBadRun(s: seq<Event>, n: nat) returns (i: nat, j: nat)
    requires !RunsOkBefore(s, n)
    ensures DigitRun(s, i, j) && !RunOk(s, i, j) && RunsOkBefore(s, j) && j < n
  {
    if n > 0 && !RunsOkBefore(s, n - 1) {
      i, j := FirstBadRun(s, n - 1);
    } else {
      i, j :| DigitRun(s, i, j) && j < n && !RunOk(s, i, j);
      assert j == n - 1;
    }
  }

  /** Six digits or more that begin with the PIN and ENTER are the PIN. */
  lemma PinWhole(c: seq<Action>, digits: string, users: seq<Action>)
    requires |digits| >= 6 && Decimal.AllDigits(digits)
    requires IsPrefix(c + Presses(digits), users) && IsPrefix(c + (Presses(DEMO_PIN) + [ENTER]), users)
    ensures digits == DEMO_PIN && |users| > |c| + 6 && users[|c| + 6] == ENTER
  {
    var k := |c|;
    var typed, pin := c + Presses(digits), c + (Presses(DEMO_PIN) + [ENTER]);
    assert forall i :: 0 <= i < |digits| ==> users[k + i] == typed[k + i] == KeyPress([digits[i]]);
    assert forall i :: 0 <= i < 6 ==> users[k + i] == pin[k + i] == KeyPress([DEMO_PIN[i]]);
    assert users[k + 6] == pin[k + 6] == ENTER;
    assert |digits| == 6;
    forall i | 0 <= i < 6 ensures digits[i] == DEMO_PIN[i] {
      assert [digits[i]][0] == [DEMO_PIN[i]][0];
    }
  }

  lemma DigitAt(s: seq<Event>, i: nat, j: nat, k: nat)
    requires Digits(s, i, j)
    ensures i <= k < j ==> IsDigitEvent(s[k])
  {
  }

  lemma BufferIsRun(s: seq<Event>, i: nat, j: nat, r: Recorder, w: World, st: RunState)
    requires DigitRun(s, i, j) && Caught(s, j, r, w, st) && r.digits != ""
    ensures |r.digits| == j - i && r.digits == TextOf(s, i, j) && !r.absorb
    ensures st.calls + Presses(r.digits) == UsersUpTo(s, j)
  {
    var start := j - |r.digits|;
    if i > 0 {
      DigitAt(s, start, j, i - 1);
    }
    if start > 0 {
      DigitAt(s, i, j, start - 1);
    }
    assert start == i;
  }

  lemma {:induction false} UsersOfRun(s: seq<Event>, i: nat, j: nat)
    requires Digits(s, i, j)
    ensures UsersUpTo(s, j) == UsersUpTo(s, i) + Presses(TextOf(s, i, j))
    decreases j
  {
    if i < j {
      UsersOfRun(s, i, j - 1);
      PressesMore(TextOf(s, i, j - 1), s[j - 1].action.key);
    } else {
      assert Presses("") == [];
    }
  }

  lemma SameStart<T>(a: seq<T>, b: seq<T>, c: seq<T>)
    requires a + c == b + c
    ensures a == b
  {
    assert a == (a + c)[..|a|] && b == (b + c)[..|b|];
  }

  lemma BadRunPlayed(s: seq<Event>, j: nat, w: World, c: seq<Action>, r: Recorder)
    requires Cooperative(w) && j <= |s| && (j < |s| ==> !IsDigitEvent(s[j]))
    requires r == RecordUpTo(s, j) && c == Replay(r.steps, w).calls && Replay(r.steps, w).ctx.Some?
    requires Decimal.AllDigits(r.digits) && PinShaped(|r.digits|)
    ensures IsPrefix(c + (Presses(DEMO_PIN) + [ENTER]), Replay(Record(s), w).calls)
  {
    FlushReplays(r, w, Replay(r.steps, w));
    FlushStays(s, j);
    RunExtends(Record(s), |Flush(r).steps|, w);
  }

  /** A run taken for a PIN, after which the user has typed what is played, is the PIN. */
  lemma TypedRunOk(s: seq<Event>, i: nat, j: nat)
    requires PinsWhole(s) && DigitRun(s, i, j) && PinShaped(j - i) && PinTyped(s, i)
    ensures RunOk(s, i, j)
  {
    UsersOfRun(s, i, j);
    UsersExtend(s, j, |s|);
    PinWhole(UsersUpTo(s, i), TextOf(s, i, j), Users(s));
  }

  lemma BadRunShows(s: seq<Event>, i: nat, j: nat, w: World)
    requires Cooperative(w) && AllCheckable(s) && PinsWhole(s)
    requires DigitRun(s, i, j) && !RunOk(s, i, j) && RunsOkBefore(s, j) && LiteralUpTo(s, j, w)
    ensures Replay(Record(s), w).calls != Users(s)
  {
    CatchesUp(s, j, w);
    DigitBuffered(s, j);
    var r := RecordUpTo(s, j);
    var st := Replay(r.steps, w);
    BufferIsRun(s, i, j, r, w, st);
    UsersOfRun(s, i, j);
    SameStart(st.calls, UsersUpTo(s, i), Presses(r.digits));
    BadRunPlayed(s, j, w, st.calls, r);
    if PinTyped(s, i) {
      TypedRunOk(s, i, j);
    }
  }

  // ----- An action that its step does not carry -----

  /** The replay stops short of the action, or performs another in its place. */
  predicate Diverts(st: RunState, a: Action, after: RunState) {
    if after.ctx.None? then after.calls == st.calls
    else |after.calls| > |st.calls| && IsPrefix(st.calls, after.calls) && after.calls[|st.calls|] != a
  }

  lemma KeyDiverts(r: Recorder, key: string, w: World, st: RunState)
    requires Cooperative(w) && st == Replay(r.steps, w) && st.ctx.Some?
    requires !LiteralKey(key, st.ctx.value.variables)
    ensures Diverts(st, KeyPress(key), Replay(Push(r, KeyPressed(key)).steps, w))
  {
    var ctx := st.ctx.value;
    var out := Execute(KeyPressed(key), ctx, w, Agrees);
    PushPlays(r, KeyPressed(key), w, st, out);
    match Resolve(key, ctx)
    case None => assert st.calls + [] == st.calls;
    case Some(text) =>
      if |text| >= 2 && Decimal.AllDigits(text) {
        assert out.calls[0] == KeyPress([text[0]]) && Decimal.IsDigit(text[0]);
        assert [text[0]] != key;
      }
  }

  lemma InsertDiverts(r: Recorder, pan: string, w: World, st: RunState)
    requires Cooperative(w) && st == Replay(r.steps, w) && st.ctx.Some?
    requires pan == "" || pan !in w.cards
    ensures Diverts(st, CardInsert(pan), Replay(Push(Push(r, SelectCard(pan)), InsertCard).steps, w))
  {
    PushPlays(r, SelectCard(pan), w, st, Outcome([], None));
    ReplayPush(Push(r, SelectCard(pan)), InsertCard, w);
    assert st.calls + [] == st.calls;
  }

  lemma CancelDiverts(r: Recorder, reason: Option<string>, w: World, st: RunState)
    requires Cooperative(w) && st == Replay(r.steps, w) && st.ctx.Some?
    requires reason == None || reason == Some("")
    ensures Diverts(st, Cancel(reason), Replay(Push(r, CancelStep(None)).steps, w))
  {
    PushPlays(r, CancelStep(None), w, st, Outcome([Cancel(Some("macro cancel"))], st.ctx));
  }

  lemma ActionDiverts(r: Recorder, a: Action, w: World, st: RunState)
    requires !IsDigitEvent(User(a)) && a != ENTER && r.digits == ""
    requires Cooperative(w) && st == Replay(r.steps, w) && st.ctx.Some? && !Literal(a, w, st.ctx.value.variables)
    ensures Diverts(st, a, Replay(OnAction(r, a).steps, w))
  {
    if a.CardInsert? {
      InsertDiverts(r, a.pan, w, st);
    } else if a.KeyPress? {
      KeyDiverts(r.(absorb := false), a.key, w, st);
    } else {
      CancelDiverts(r, a.reason, w, st);
    }
  }

  lemma PlainLiteral(a: Action, w: World, variables: map<string, string>)
    requires IsDigitEvent(User(a)) || a == ENTER
    ensures Literal(a, w, variables)
  {
    assert ENTER.key == "ENTER" && ENTER.key[0] == 'E' && CARD_PIN[0] == 'C' && !Decimal.IsDigit('E');
  }

  lemma DiversionDiffers(c: seq<Action>, a: Action, users: seq<Action>, after: RunState, end: RunState)
    requires IsPrefix(c + [a], users) && Diverts(RunState(c, None), a, after)
    requires IsPrefix(after.calls, end.calls) && (after.ctx.None? ==> end == after)
    ensures end.calls != users
  {
    assert users[|c|] == (c + [a])[|c|] == a;
    assert after.ctx.Some? ==> end.calls[|c|] == after.calls[|c|];
  }

  lemma RestOfReplay(steps: seq<Step>, all: seq<Step>, w: World)
    requires IsPrefix(steps, all)
    ensures IsPrefix(Replay(steps, w).calls, Replay(all, w).calls)
    ensures Replay(steps, w).ctx.None? ==> Replay(all, w) == Replay(steps, w)
  {
    RunExtends(all, |steps|, w);
    if Replay(steps, w).ctx.None? {
      FailedStaysFailed(all, |steps|, w);
    }
  }

  /** Whatever follows, the replay then differs from what the user did. */
  lemma DiversionShows(steps: seq<Step>, all: seq<Step>, w: World, c: seq<Action>, a: Action, users: seq<Action>)
    requires IsPrefix(steps, all) && IsPrefix(c + [a], users) && Diverts(RunState(c, None), a, Replay(steps, w))
    ensures Replay(all, w).calls != users
  {
    RestOfReplay(steps, all, w);
    DiversionDiffers(c, a, users, Replay(steps, w), Replay(all, w));
  }

  lemma UserNext(s: seq<Event>, n: nat)
    requires n < |s| && s[n].User?
    ensures IsPrefix(UsersUpTo(s, n) + [s[n].action], Users(s))
  {
    UsersExtend(s, n + 1, |s|);
  }

  lemma FlushedBefore(s: seq<Event>, n: nat, r: Recorder, w: World)
    requires Cooperative(w) && n < |s| && !IsDigitEvent(s[n]) && r == RecordUpTo(s, n) && RunsOkBefore(s, n + 1)
    requires Caught(s, n, r, w, Replay(r.steps, w))
    ensures Caught(s, n, Flush(r), w, Replay(Flush(r).steps, w)) && Flush(r).digits == ""
  {
    if n > 0 && IsDigitEvent(s[n - 1]) {
      DigitBuffered(s, n);
    }
    assert r.digits != "" ==> DigitRun(s, n - |r.digits|, n);
    FlushCaught(s, n, r, w, Replay(r.steps, w));
  }

  lemma NothingPending(s: seq<Event>, n: nat, f: Recorder, w: World, st: RunState)
    requires n < |s| && s[n].User? && s[n].action != ENTER && Caught(s, n, f, w, st) && f.digits == ""
    ensures st.calls == UsersUpTo(s, n) && st.ctx.Some? && st.ctx.value.variables == Variables(s, n, w)
  {
    NextUserSkips(s, n);
    assert Presses("") == [] && st.calls + [] == st.calls;
  }

  lemma UnliteralDiverts(s: seq<Event>, n: nat, r: Recorder, w: World)
    requires Cooperative(w) && n < |s| && s[n].User? && r == RecordUpTo(s, n) && RunsOkBefore(s, n + 1)
    requires Caught(s, n, r, w, Replay(r.steps, w)) && !Literal(s[n].action, w, Variables(s, n, w))
    ensures Diverts(RunState(UsersUpTo(s, n), None), s[n].action, Replay(OnEvent(r, s[n]).steps, w))
  {
    var a := s[n].action;
    if IsDigitEvent(s[n]) || a == ENTER {
      PlainLiteral(a, w, Variables(s, n, w));
    }
    FlushedBefore(s, n, r, w);
    FlushFirst(r, s[n]);
    var f := Flush(r);
    var st := Replay(f.steps, w);
    NothingPending(s, n, f, w, st);
    ActionDiverts(f, a, w, st);
  }

  lemma DivertedAt(s: seq<Event>, n: nat, w: World)
    requires Cooperative(w) && AllCheckable(s) && n < |s| && s[n].User?
    requires LiteralUpTo(s, n, w) && !Literal(s[n].action, w, Variables(s, n, w)) && RunsOkBefore(s, n + 1)
    ensures Diverts(RunState(UsersUpTo(s, n), None), s[n].action, Replay(RecordUpTo(s, n + 1).steps, w))
  {
    CatchesUp(s, n, w);
    UnliteralDiverts(s, n, RecordUpTo(s, n), w);
  }

  lemma UnliteralShows(s: seq<Event>, n: nat, w: World)
    requires Cooperative(w) && AllCheckable(s) && n < |s| && s[n].User?
    requires LiteralUpTo(s, n, w) && !Literal(s[n].action, w, Variables(s, n, w)) && RunsOkBefore(s, n + 1)
    ensures Replay(Record(s), w).calls != Users(s)
  {
    DivertedAt(s, n, w);
    UpToInRecord(s, n + 1);
    UserNext(s, n);
    DiversionShows(RecordUpTo(s, n + 1).steps, Record(s), w, UsersUpTo(s, n), s[n].action, Users(s));
  }

  lemma {:induction false} FirstUnliteral(s: seq<Event>, n: nat, w: World) returns (k: nat)
    requires n <= |s| && !LiteralUpTo(s, n, w)
    ensures k < n && s[k].User? && LiteralUpTo(s, k, w) && !Literal(s[k].action, w, Variables(s, k, w))
  {
    if !LiteralUpTo(s, n - 1, w) {
      k := FirstUnliteral(s, n - 1, w);
    } else {
      k := n - 1;
    }
  }

  // ----- Exactly when -----

  /**
   * On a willing machine, the replay performs exactly the user's actions if and only if every run of four to twelve
   * digits is the PIN and is followed by ENTER, every key text means itself, every card inserted is known, and every
   * cancellation states its reason.
   */
  lemma ReplayExact(s: seq<Event>, w: World)
    requires Cooperative(w) && AllCheckable(s) && PinsWhole(s)
    ensures Replay(Record(s), w).calls == Users(s) <==> PinsEntered(s) && AllLiteral(s, w)
  {
    if !PinsEntered(s) {
      var i, j := FirstBadRun(s, |s| + 1);
      if LiteralUpTo(s, j, w) {
        BadRunShows(s, i, j, w);
      } else {
        var n := FirstUnliteral(s, j, w);
        UnliteralShows(s, n, w);
      }
    } else if !AllLiteral(s, w) {
      var n := FirstUnliteral(s, |s|, w);
      UnliteralShows(s, n, w);
    } else {
      ReplayIsFaithful(s, w);
    }
  }

  /** What the recorder and the runner can carry. */
  ghost predicate Faithful(s: seq<Event>, w: World) { PinsEntered(s) && AllLiteral(s, w) && AllCheckable(s) }

  /** It also passes if and only if, besides, the runner has a rule for every checkpoint. */
  lemma SucceedsExactly(s: seq<Event>, w: World)
    requires Cooperative(w) && PinsWhole(s)
    ensures Replay(Record(s), w).ctx.Some? && Replay(Record(s), w).calls == Users(s) <==> Faithful(s, w)
  {
    if AllCheckable(s) {
      ReplayExact(s, w);
      if PinsEntered(s) && AllLiteral(s, w) {
        ReplayIsFaithful(s, w);
      }
    } else {
      var n :| 0 <= n < |s| && s[n].Xfs? && s[n].checkpoint !in {CardInserted, CardEjected, NotesPresented, Printed};
      UncheckableFails(s, n, w);
    }
  }

  // ----- What the recorder or the runner changes -----

  lemma ReplayOne(a: Action, op: Op, w: World)
    requires Cooperative(w) && OnAction(Start(), a) == Push(Start(), op)
    ensures Users([User(a)]) == [a]
    ensures var out := Execute(op, Context(None, w.variables), w, Agrees);
            Replay(Record([User(a)]), w) == RunState(out.calls, out.next)
  {
    var s := [User(a)];
    assert UsersUpTo(s, 0) == [] && UsersUpTo(s, 1) == [a];
    assert RecordUpTo(s, 0) == Start() && RecordUpTo(s, 1) == Push(Start(), op);
    var out := Execute(op, Context(None, w.variables), w, Agrees);
    assert Replay(Start().steps, w) == RunState([], Some(Context(None, w.variables)));
    PushPlays(Start(), op, w, Replay(Start().steps, w), out);
    assert [] + out.calls == out.calls;
  }

  /** A cancellation with an empty reason, or with none, comes back with a reason that nobody gave; the run passes. */
  lemma CancelGainsReason(reason: Option<string>, w: World)
    requires Cooperative(w) && (reason == None || reason == Some(""))
    ensures Users([User(Cancel(reason))]) == [Cancel(reason)]
    ensures var end := Replay(Record([User(Cancel(reason))]), w);
            end.ctx.Some? && end.calls == [Cancel(Some("macro cancel"))]
  {
    ReplayOne(Cancel(reason), CancelStep(None), w);
  }

  /** One key with the text of several digits comes back as several keys; the run passes. */
  lemma DigitsSplit(key: string, w: World)
    requires Cooperative(w) && |key| >= 2 && Decimal.AllDigits(key)
    ensures Users([User(KeyPress(key))]) == [KeyPress(key)]
    ensures var end := Replay(Record([User(KeyPress(key))]), w); end.ctx.Some? && end.calls == Presses(key)
  {
    ReplayOne(KeyPress(key), KeyPressed(key), w);
    KeysPlay(key, Context(None, w.variables), w);
  }

  /** So does one whose text is the name by which the recorder writes a PIN. */
  lemma PinNameSplits(w: World)
    requires Cooperative(w)
    ensures Users([User(KeyPress(CARD_PIN))]) == [KeyPress(CARD_PIN)]
    ensures var end := Replay(Record([User(KeyPress(CARD_PIN))]), w); end.ctx.Some? && end.calls == Presses(DEMO_PIN)
  {
    ReplayOne(KeyPress(CARD_PIN), KeyPressed(CARD_PIN), w);
  }
}
