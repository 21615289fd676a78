/** What every run of ATM sessions keeps: rest states, money, PIN counting, and who may dispense. */
module AtmRuns {
  import opened Common
  import opened Ledger
  import opened HostEmulator
  import opened AtmSession
  import Cash = CashDispenser

  // ----- Runs -----

  ghost predicate Ready(a: Atm) { Cash.ValidCdm(a.cdm) }

  predicate AllAllowed(acts: seq<Action>) {
    forall i :: 0 <= i < |acts| ==> Allowed(acts[i])
  }

  /** Handlers other than PIN entry and CONFIRM, and device faults. */
  predicate Quiet(act: Action) { !act.DoFinishPin? && !act.DoConfirm? && !act.Operator? }

  /** Host, cash and journal are as they were. */
  predicate Untouched(a: Atm, b: Atm) {
    b.host == a.host && b.cdm == a.cdm && b.journal == a.journal && b.nextId >= a.nextId
  }

  lemma EndingsUntouched(a: Atm)
    requires a.session.Some?
    ensures Untouched(a, MarkError(a)) && Untouched(a, Finish(a)) && Untouched(a, ProcessBalance(a))
  {
    assert forall s :: Untouched(a, Transition(a, s));
  }

  lemma InsertUntouched(a: Atm, pan: string, now: Month)
    ensures Untouched(a, InsertCard(a, pan, now).0)
  {
  }

  lemma SelectUntouched(a: Atm, txn: Txn)
    ensures Untouched(a, Select(a, txn).0)
  {
    if a.session.Some? {
      EndingsUntouched(a.(session := Some(a.session.value.(txn := Some(txn)))));
    }
  }

  /** Quiet actions leave host, cash and journal alone. */
  lemma QuietActs(a: Atm, act: Action)
    requires Ready(a) && Quiet(act)
    ensures Untouched(a, Act(a, act))
  {
    if act.DoInsert? {
      InsertUntouched(a, act.pan, act.now);
    } else if act.DoSelect? {
      SelectUntouched(a, act.txn);
    } else if (act.DoCancel? || act.DoIdle?) && a.session.Some? {
      EndingsUntouched(a);
    }
  }

  lemma FinishPinCash(a: Atm, entered: string)
    ensures FinishPin(a, entered).cdm == a.cdm
  {
  }

  /** A PIN check changes one card, in its counter and, once, its status; and it is journalled. */
  lemma FinishPinEffect(a: Atm, entered: string, s: Session, right: bool)
    requires a.session == Some(s) && entered != "" && s.pan in a.host.db.cards
    requires right == (entered == a.host.db.cards[s.pan].pin)
    ensures var b, card := FinishPin(a, entered), a.host.db.cards[s.pan];
            var n := if right then 0 else card.failedPinCount + 1;
            var gone := !right && (n >= 3 || s.failedPinAttempts + 1 >= 3);
            && b.journal == a.journal + [PinChecked(s.id, s.pan, right)]
            && b.host.db.cards == a.host.db.cards[s.pan :=
                 card.(failedPinCount := n, status := if gone then Retained else card.status)]
            && b.host.db.accounts == a.host.db.accounts && b.host.db.rows == a.host.db.rows
            && b.host.nextStan == a.host.nextStan
  {
  }

  lemma ConfirmReady(a: Atm, t: Instants)
    requires Ready(a)
    ensures Ready(ConfirmTxn(a, t).0)
  {
    if a.session.Some? && a.session.value.amount.Some? {
      Cash.StepValid(a.cdm, Cash.Dispense(a.session.value.amount.value, None, true));
    }
  }

  lemma ActReady(a: Atm, act: Action)
    requires Ready(a) && Allowed(act)
    ensures Ready(Act(a, act))
  {
    if act.Operator? {
      Cash.StepValid(a.cdm, act.cmd);
    } else if act.DoConfirm? {
      ConfirmReady(a, act.t);
    } else if act.DoFinishPin? {
      FinishPinCash(a, act.entered);
    } else {
      QuietActs(a, act);
    }
  }

  ghost function RunAtm(a: Atm, acts: seq<Action>): (r: Atm)
    requires Ready(a) && AllAllowed(acts)
    ensures Ready(r)
  {
    if acts == [] then a
    else
      var before := RunAtm(a, acts[..|acts| - 1]);
      ActReady(before, acts[|acts| - 1]);
      Act(before, acts[|acts| - 1])
  }

  // ----- At rest -----

  predicate RestState(s: State) { s in {PinEntry, MainMenu, AmountEntry, Confirm} }

  /** No session and no watchdog, or a session awaiting its customer with its own watchdog armed. */
  predicate AtRest(a: Atm) {
    match a.session
    case None => a.idle.None?
    case Some(s) => RestState(s.state) && a.idle == Some(s.id)
  }

  /** What a session at rest knows: its card's account, and in CONFIRM the amount of a withdrawal. */
  predicate Linked(a: Atm) {
    a.session.Some? ==>
      var s := a.session.value;
      && s.id < a.nextId
      && HasAccount(a.host.db, s.pan)
      && s.accountId == Some(a.host.db.cards[s.pan].accountId)
      && a.host.db.cards[s.pan].status == Active
      && (s.state == AmountEntry || s.state == Confirm ==> s.txn == Some(Withdrawal))
      && (s.state == Confirm ==> s.amount.Some? && s.amount.value > 0)
  }

  /** A withdrawal has one of three outcomes: declined, paid, or approved and taken back. */
  lemma WithdrawalOutcomes(a: Atm, t: Instants)
    requires Ready(a) && a.session.Some? && a.session.value.amount.Some?
    ensures var s := a.session.value;
            var q := RequestOf(s.pan, s.amount.value, t.cap, SessionName(s.id), a.host.nextStan);
            var (db, reply) := Authorize(a.host.db, q, t.check, t.stamp);
            var (cdm, r) := Cash.Step(a.cdm, Cash.Dispense(s.amount.value, None, true));
            var b := ProcessWithdrawal(a, t);
            && b.session.None? && b.idle.None? && b.nextId == a.nextId
            && b.host.nextStan == a.host.nextStan + 1
            && (!reply.Approved? ==>
                  b.host.db == a.host.db && b.cdm == a.cdm && b.journal == a.journal)
            && (reply.Approved? && r.Dispensed? ==>
                  && b.host.db == db && b.cdm == cdm
                  && b.journal ==
                     a.journal + [AuthApproved(s.id, q.stan, q.amount), DispenseIssued(s.id, q.amount, true)])
            && (reply.Approved? && !r.Dispensed? ==>
                  && b.host.db == Reverse(db, ReversalOf(s, q.stan), t.undo).0 && b.cdm == cdm
                  && b.journal == a.journal + [AuthApproved(s.id, q.stan, q.amount),
                                               DispenseIssued(s.id, q.amount, false),
                                               ReversalIssued(s.id, q.stan, q.amount)])
  {
    var s := a.session.value;
    var q := RequestOf(s.pan, s.amount.value, t.cap, SessionName(s.id), a.host.nextStan);
    var (db, reply) := Authorize(a.host.db, q, t.check, t.stamp);
    assert !reply.Approved? ==> db == a.host.db;
    var paid := Cash.Step(a.cdm, Cash.Dispense(s.amount.value, None, true)).1.Dispensed?;
    JournalThree(a.journal, AuthApproved(s.id, q.stan, q.amount), DispenseIssued(s.id, q.amount, paid),
      ReversalIssued(s.id, q.stan, q.amount));
  }

  lemma JournalThree(j: seq<Event>, e: Event, f: Event, g: Event)
    ensures j + [e] + [f] == j + [e, f] && j + [e] + [f] + [g] == j + [e, f, g]
  {
  }

  /** A withdrawal changes no card, no set of accounts. */
  lemma WithdrawalKeepsCards(a: Atm, t: Instants)
    requires Ready(a) && a.session.Some? && a.session.value.amount.Some?
    ensures ProcessWithdrawal(a, t).host.db.cards == a.host.db.cards
    ensures ProcessWithdrawal(a, t).host.db.accounts.Keys == a.host.db.accounts.Keys
  {
    WithdrawalOutcomes(a, t);
  }

  /** The session that CONFIRM hands to the withdrawal. */
  function Confirming(a: Atm): Atm
    requires a.session.Some?
  {
    Transition(a, Processing)
  }

  lemma ConfirmIsWithdrawal(a: Atm, t: Instants)
    requires Ready(a) && AtRest(a) && Linked(a)
    ensures a.session.Some? && a.session.value.state == Confirm ==>
              ConfirmTxn(a, t) == (ProcessWithdrawal(Confirming(a), t), Returned)
    ensures !(a.session.Some? && a.session.value.state == Confirm) ==> ConfirmTxn(a, t) == (a, Threw)
  {
  }

  lemma FinishPinKeepsLink(a: Atm, entered: string)
    requires AtRest(a) && Linked(a)
    ensures AtRest(FinishPin(a, entered)) && Linked(FinishPin(a, entered))
  {
  }

  lemma QuietKeepsRest(a: Atm, act: Action)
    requires Ready(a) && Quiet(act) && AtRest(a) && Linked(a)
    ensures AtRest(Act(a, act)) && Linked(Act(a, act))
  {
  }

  /** Every action, from rest, ends at rest: no session is left in the middle of its processing. */
  lemma ActKeepsRest(a: Atm, act: Action)
    requires Ready(a) && Allowed(act) && AtRest(a) && Linked(a)
    ensures AtRest(Act(a, act)) && Linked(Act(a, act))
  {
    match act
    case DoFinishPin(entered) => FinishPinKeepsLink(a, entered);
    case DoConfirm(t) =>
      ConfirmIsWithdrawal(a, t);
      if a.session.Some? && a.session.value.state == Confirm {
        WithdrawalOutcomes(Confirming(a), t);
      }
    case Operator(_) =>
    case _ => QuietKeepsRest(a, act);
  }

  lemma {:induction false} RunKeepsRest(a: Atm, acts: seq<Action>)
    requires Ready(a) && AllAllowed(acts) && AtRest(a) && Linked(a)
    ensures AtRest(RunAtm(a, acts)) && Linked(RunAtm(a, acts))
  {
    if acts != [] {
      var n := |acts| - 1;
      RunKeepsRest(a, acts[..n]);
      ActKeepsRest(RunAtm(a, acts[..n]), acts[n]);
    }
  }

  // ----- Who may dispense -----

  ghost predicate VerifiedBefore(j: seq<Event>, i: int, sid: nat) {
    exists k :: 0 <= k < i && k < |j| && j[k].PinChecked? && j[k].sid == sid && j[k].right
  }

  /** A dispense follows at once on the approval of its own amount, after a right PIN in its session. */
  ghost predicate DispenseOk(j: seq<Event>, i: nat)
    requires i < |j|
  {
    j[i].DispenseIssued? ==>
      && i > 0 && j[i - 1].AuthApproved? && j[i - 1].sid == j[i].sid && j[i - 1].amount == j[i].amount
      && VerifiedBefore(j, i, j[i].sid)
  }

  /** An approval is followed at once by the dispense of its amount, and by its reversal if that fails. */
  ghost predicate ApprovalOk(j: seq<Event>, i: nat)
    requires i < |j|
  {
    j[i].AuthApproved? ==>
      && i + 1 < |j| && j[i + 1].DispenseIssued? && j[i + 1].sid == j[i].sid && j[i + 1].amount == j[i].amount
      && (!j[i + 1].paid ==> i + 2 < |j| && j[i + 2] == ReversalIssued(j[i].sid, j[i].stan, j[i].amount))
  }

  /** A reversal undoes the approval two events earlier, whose dispense failed. */
  ghost predicate ReversalOk(j: seq<Event>, i: nat)
    requires i < |j|
  {
    j[i].ReversalIssued? ==>
      && i >= 2 && j[i - 1] == DispenseIssued(j[i].sid, j[i].amount, false)
      && j[i - 2] == AuthApproved(j[i].sid, j[i].stan, j[i].amount)
  }

  ghost predicate Disciplined(j: seq<Event>) {
    forall i | 0 <= i < |j| :: DispenseOk(j, i) && ApprovalOk(j, i) && ReversalOk(j, i)
  }

  /** Past PIN entry the session has had its PIN checked; old journal entries are of old sessions. */
  ghost predicate Trusted(a: Atm) {
    && Disciplined(a.journal)
    && (forall i | 0 <= i < |a.journal| :: a.journal[i].sid < a.nextId)
    && (a.session.Some? && a.session.value.state != PinEntry ==>
          VerifiedBefore(a.journal, |a.journal|, a.session.value.id))
  }

  lemma VerifiedExtends(j: seq<Event>, k: seq<Event>, i: int, sid: nat)
    requires VerifiedBefore(j, i, sid)
    ensures VerifiedBefore(j + k, i, sid)
  {
    var m :| 0 <= m < i && m < |j| && j[m].PinChecked? && j[m].sid == sid && j[m].right;
    assert (j + k)[m] == j[m];
  }

  lemma DisciplineExtends(j: seq<Event>, k: seq<Event>, i: nat)
    requires Disciplined(j) && i < |j|
    ensures DispenseOk(j + k, i) && ApprovalOk(j + k, i) && ReversalOk(j + k, i)
  {
    var l := j + k;
    assert DispenseOk(j, i) && ApprovalOk(j, i) && ReversalOk(j, i);
    assert l[i] == j[i];
    if j[i].DispenseIssued? {
      assert l[i - 1] == j[i - 1];
      VerifiedExtends(j, k, i, j[i].sid);
    }
  }

  lemma PinEntryDisciplined(j: seq<Event>, e: Event)
    requires Disciplined(j) && e.PinChecked?
    ensures Disciplined(j + [e])
  {
    forall i | 0 <= i < |j + [e]|
      ensures DispenseOk(j + [e], i) && ApprovalOk(j + [e], i) && ReversalOk(j + [e], i)
    {
      if i < |j| {
        DisciplineExtends(j, [e], i);
      }
    }
  }

  predicate WithdrawalEvents(k: seq<Event>, sid: nat, stan: string, amount: int) {
    || k == [AuthApproved(sid, stan, amount), DispenseIssued(sid, amount, true)]
    || k == [AuthApproved(sid, stan, amount), DispenseIssued(sid, amount, false), ReversalIssued(sid, stan, amount)]
  }

  lemma WithdrawalDisciplined(j: seq<Event>, sid: nat, stan: string, amount: int, k: seq<Event>)
    requires Disciplined(j) && VerifiedBefore(j, |j|, sid) && WithdrawalEvents(k, sid, stan, amount)
    ensures Disciplined(j + k)
  {
    VerifiedExtends(j, k, |j|, sid);
    forall i | 0 <= i < |j + k| ensures DispenseOk(j + k, i) && ApprovalOk(j + k, i) && ReversalOk(j + k, i) {
      if i < |j| {
        DisciplineExtends(j, k, i);
      }
    }
  }

  lemma ConfirmTrusted(a: Atm, t: Instants)
    requires Ready(a) && AtRest(a) && Linked(a) && Trusted(a)
    ensures Trusted(ConfirmTxn(a, t).0)
  {
    ConfirmIsWithdrawal(a, t);
    if a.session.Some? && a.session.value.state == Confirm {
      var s := a.session.value;
      var b := Confirming(a);
      WithdrawalOutcomes(b, t);
      var stan, amount := FormatStan(a.host.nextStan), s.amount.value;
      WithdrawalDisciplined(a.journal, s.id, stan, amount,
        [AuthApproved(s.id, stan, amount), DispenseIssued(s.id, amount, true)]);
      WithdrawalDisciplined(a.journal, s.id, stan, amount,
        [AuthApproved(s.id, stan, amount), DispenseIssued(s.id, amount, false), ReversalIssued(s.id, stan, amount)]);
    }
  }

  lemma FinishPinTrusted(a: Atm, entered: string)
    requires AtRest(a) && Linked(a) && Trusted(a)
    ensures Trusted(FinishPin(a, entered))
  {
    var b := FinishPin(a, entered);
    if a.session.Some? && entered != "" {
      var s := a.session.value;
      var right := VerifyPin(a.host.db, s.pan, entered).1 == Approved00;
      var e := PinChecked(s.id, s.pan, right);
      assert b.journal == a.journal + [e];
      PinEntryDisciplined(a.journal, e);
      if right {
        assert b.journal[|a.journal|] == e;
      } else if s.state != PinEntry {
        VerifiedExtends(a.journal, [e], |a.journal|, s.id);
        assert VerifiedBefore(b.journal, |b.journal|, s.id);
      }
    }
  }

  lemma QuietTrusted(a: Atm, act: Action)
    requires Ready(a) && Quiet(act) && AtRest(a) && Linked(a) && Trusted(a)
    ensures Trusted(Act(a, act))
  {
    QuietActs(a, act);
    var b := Act(a, act);
    assert b.session.Some? && b.session.value.state != PinEntry ==>
             a.session.Some? && a.session.value.state != PinEntry && b.session.value.id == a.session.value.id;
  }

  lemma ActTrusted(a: Atm, act: Action)
    requires Ready(a) && Allowed(act) && AtRest(a) && Linked(a) && Trusted(a)
    ensures Trusted(Act(a, act))
  {
    match act
    case DoFinishPin(entered) => FinishPinTrusted(a, entered);
    case DoConfirm(t) => ConfirmTrusted(a, t);
    case Operator(_) =>
    case _ => QuietTrusted(a, act);
  }

  predicate Fresh(a: Atm) { a.session.None? && a.idle.None? && a.journal == [] }

  /**
   * Over every run: each DISPENSE follows the approval of exactly its amount in a session whose PIN
   * was verified; each approval is dispensed, or its dispense fails and it is reversed; and each
   * reversal answers a failed dispense.
   */
  lemma {:induction false} RunDisciplined(a: Atm, acts: seq<Action>)
    requires Ready(a) && AllAllowed(acts) && Fresh(a)
    ensures Trusted(RunAtm(a, acts)) && Disciplined(RunAtm(a, acts).journal)
  {
    if acts != [] {
      var n := |acts| - 1;
      RunDisciplined(a, acts[..n]);
      RunKeepsRest(a, acts[..n]);
      ActTrusted(RunAtm(a, acts[..n]), acts[n]);
    }
  }

  // ----- PIN failures and card retention -----

  /** Wrong PINs for a card since its last right one, on top of what it started with. */
  function Streak(j: seq<Event>, pan: string, start: nat): nat {
    if j == [] then start
    else
      var before := Streak(j[..|j| - 1], pan, start);
      match j[|j| - 1]
      case PinChecked(_, p, right) => if p != pan then before else if right then 0 else before + 1
      case _ => before
  }

  lemma StreakSnoc(j: seq<Event>, e: Event, pan: string, start: nat)
    ensures Streak(j + [e], pan, start) ==
            if e.PinChecked? && e.pan == pan then (if e.right then 0 else Streak(j, pan, start) + 1)
            else Streak(j, pan, start)
  {
    assert (j + [e])[..|j|] == j;
  }

  /** The card's counter is its streak of wrong PINs, at most three, and three only if it is retained. */
  predicate CardOk(a: Atm, pan: string, start: nat) {
    && pan in a.host.db.cards
    && a.host.db.cards[pan].failedPinCount == Streak(a.journal, pan, start)
    && a.host.db.cards[pan].failedPinCount <= 3
    && (a.host.db.cards[pan].failedPinCount == 3 ==> a.host.db.cards[pan].status == Retained)
  }

  lemma FinishPinCardOk(a: Atm, entered: string, pan: string, start: nat)
    requires AtRest(a) && Linked(a) && CardOk(a, pan, start)
    ensures CardOk(FinishPin(a, entered), pan, start)
  {
    if a.session.Some? && entered != "" {
      var s := a.session.value;
      var right := entered == a.host.db.cards[s.pan].pin;
      FinishPinEffect(a, entered, s, right);
      StreakSnoc(a.journal, PinChecked(s.id, s.pan, right), pan, start);
    }
  }

  lemma ConfirmCardOk(a: Atm, t: Instants, pan: string, start: nat)
    requires Ready(a) && AtRest(a) && Linked(a) && CardOk(a, pan, start)
    ensures CardOk(ConfirmTxn(a, t).0, pan, start)
  {
    ConfirmIsWithdrawal(a, t);
    if a.session.Some? && a.session.value.state == Confirm {
      var b := Confirming(a);
      WithdrawalOutcomes(b, t);
      WithdrawalKeepsCards(b, t);
      var s := a.session.value;
      var stan := FormatStan(a.host.nextStan);
      var e1 := AuthApproved(s.id, stan, s.amount.value);
      var e2, e2' := DispenseIssued(s.id, s.amount.value, true), DispenseIssued(s.id, s.amount.value, false);
      var e3 := ReversalIssued(s.id, stan, s.amount.value);
      StreakSnoc(a.journal, e1, pan, start);
      StreakSnoc(a.journal + [e1], e2, pan, start);
      StreakSnoc(a.journal + [e1], e2', pan, start);
      StreakSnoc(a.journal + [e1] + [e2'], e3, pan, start);
      assert a.journal + [e1] + [e2] == a.journal + [e1, e2];
      assert a.journal + [e1] + [e2'] + [e3] == a.journal + [e1, e2', e3];
    }
  }

  lemma ActCardOk(a: Atm, act: Action, pan: string, start: nat)
    requires Ready(a) && Allowed(act) && AtRest(a) && Linked(a) && CardOk(a, pan, start)
    ensures CardOk(Act(a, act), pan, start)
  {
    match act
    case DoFinishPin(entered) => FinishPinCardOk(a, entered, pan, start);
    case DoConfirm(t) => ConfirmCardOk(a, t, pan, start);
    case Operator(_) =>
    case _ => QuietActs(a, act);
  }

  /**
   * Across any number of sessions and re-insertions, a card that starts below three failures gets at
   * most three consecutive wrong PIN checks, and the third retains it.
   */
  lemma {:induction false} RunCardOk(a: Atm, acts: seq<Action>, pan: string)
    requires Ready(a) && AllAllowed(acts) && Fresh(a)
    requires pan in a.host.db.cards && a.host.db.cards[pan].failedPinCount < 3
    ensures CardOk(RunAtm(a, acts), pan, a.host.db.cards[pan].failedPinCount)
  {
    if acts != [] {
      var n := |acts| - 1;
      RunCardOk(a, acts[..n], pan);
      RunKeepsRest(a, acts[..n]);
      ActCardOk(RunAtm(a, acts[..n]), acts[n], pan, a.host.db.cards[pan].failedPinCount);
    }
  }

  lemma ActKeepsRetained(a: Atm, act: Action, pan: string)
    requires Ready(a) && Allowed(act) && AtRest(a) && Linked(a)
    requires pan in a.host.db.cards && a.host.db.cards[pan].status == Retained
    ensures var db := Act(a, act).host.db; pan in db.cards && db.cards[pan].status == Retained
  {
    match act
    case DoFinishPin(_) =>
    case DoConfirm(t) =>
      ConfirmIsWithdrawal(a, t);
      if a.session.Some? && a.session.value.state == Confirm {
        WithdrawalKeepsCards(Confirming(a), t);
      }
    case Operator(_) =>
    case _ => QuietActs(a, act);
  }

  /** A retained card stays retained, and no session is ever its own again. */
  lemma {:induction false} RetainedForGood(a: Atm, acts: seq<Action>, pan: string)
    requires Ready(a) && AllAllowed(acts) && AtRest(a) && Linked(a)
    requires pan in a.host.db.cards && a.host.db.cards[pan].status == Retained
    ensures var b := RunAtm(a, acts);
            && pan in b.host.db.cards && b.host.db.cards[pan].status == Retained
            && (b.session.Some? ==> b.session.value.pan != pan)
  {
    RunKeepsRest(a, acts);
    if acts != [] {
      var n := |acts| - 1;
      RetainedForGood(a, acts[..n], pan);
      RunKeepsRest(a, acts[..n]);
      ActKeepsRetained(RunAtm(a, acts[..n]), acts[n], pan);
    }
  }
}
