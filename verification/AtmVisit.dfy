/** One customer's visit from the card going in to the card coming out. */
module AtmVisit {
  import opened Common
  import opened Ledger
  import opened HostEmulator
  import opened HostLaws
  import opened AtmSession
  import opened AtmRuns
  import opened AtmAmounts
  import Cash = CashDispenser
  import Decimal

  // ----- The card goes in -----

  /** The host serves this card: known, active, not past its month, on an active account. */
  predicate Served(db: Db, pan: string, now: Month) {
    && pan in db.cards && db.cards[pan].status == Active && Unexpired(db.cards[pan].expiry, now)
    && db.cards[pan].accountId in db.accounts && db.accounts[db.cards[pan].accountId].active
  }

  /**
   * A card that is put into an idle, empty and working reader opens a session of its own that asks for its PIN, if
   * and only if the host serves it. Otherwise it comes out again and there is no session.
   */
  lemma InsertExactly(a: Atm, pan: string, now: Month)
    requires Ready(a) && a.session.None? && a.idc == Idc(None, false)
    ensures var b := Act(a, DoInsert(pan, now));
            && b.host == a.host && b.cdm == a.cdm && b.journal == a.journal && b.nextId == a.nextId + 1
            && if Served(a.host.db, pan, now) then
                 && b.session ==
                    Some(Session(a.nextId, PinEntry, pan, Some(a.host.db.cards[pan].accountId), None, None, 0))
                 && b.idle == Some(a.nextId) && b.idc == Idc(Some(pan), false)
               else b.session.None? && b.idle.None? && b.idc == Idc(None, false)
  {
    AcceptedExactly(a.host.db, pan, now);
  }

  /** While a session is on, or the reader holds a card or fails, no second session begins. */
  lemma InsertRefused(a: Atm, pan: string, now: Month)
    requires Ready(a) && (a.session.Some? || a.idc.card.Some? || a.idc.injected)
    ensures var b := Act(a, DoInsert(pan, now));
            b.host == a.host && b.journal == a.journal && b.session == a.session
  {
  }

  // ----- The PIN and the menu -----

  /** The right PIN opens the menu; a wrong one before the third leaves the customer where he was. */
  lemma PinExactly(a: Atm, s: Session, entered: string)
    requires Ready(a) && a.session == Some(s) && s.state == PinEntry && s.pan in a.host.db.cards && entered != ""
    ensures var b, card := Act(a, DoFinishPin(entered)), a.host.db.cards[s.pan];
            && b.idc.card == (if entered != card.pin && (card.failedPinCount >= 2 || s.failedPinAttempts >= 2) &&
                                 !a.idc.injected then None else a.idc.card)
            && (entered == card.pin ==> b.session == Some(s.(state := MainMenu)) && b.idle == Some(s.id))
            && (entered != card.pin && card.failedPinCount < 2 && s.failedPinAttempts < 2 ==>
                  b.session == Some(s.(failedPinAttempts := s.failedPinAttempts + 1)) && b.idle == a.idle)
            && (entered != card.pin && (card.failedPinCount >= 2 || s.failedPinAttempts >= 2) ==>
                  b.session.None? && b.idle.None? && b.host.db.cards[s.pan].status == Retained)
  {
  }

  /** The visit is over: no money has moved, and the card is out if the reader works. */
  predicate Left(a: Atm, b: Atm) {
    && b.session.None? && b.idle.None? && (!a.idc.injected ==> b.idc.card.None?)
    && b.host == a.host && b.cdm == a.cdm && b.journal == a.journal
  }

  lemma EndsLeave(a: Atm)
    requires a.session.Some?
    ensures Left(a, MarkError(a)) && Left(a, Finish(a)) && Left(a, ProcessBalance(a))
  {
  }

  /** The menu leads to the amount entry for a withdrawal; a balance, or a service not offered, ends the visit. */
  lemma SelectExactly(a: Atm, s: Session, txn: Txn)
    requires Ready(a) && a.session == Some(s)
    ensures var b := Act(a, DoSelect(txn));
            if s.state != MainMenu then b == a
            else if txn == Withdrawal then
              b == a.(session := Some(s.(state := AmountEntry, txn := Some(Withdrawal))), idle := Some(s.id))
            else Left(a, b)
  {
    EndsLeave(a.(session := Some(s.(txn := Some(txn)))));
  }

  /** Cancelling, or not doing anything for too long, ends the visit and gives the card back, and moves no money. */
  lemma LeaveExactly(a: Atm, s: Session, act: Action)
    requires Ready(a) && a.session == Some(s) && (act.DoCancel? || (act.DoIdle? && a.idle == Some(s.id)))
    ensures Left(a, Act(a, act))
  {
    EndsLeave(a);
  }

  /** A watchdog that was armed for another session does nothing. */
  lemma StaleWatchdog(a: Atm)
    requires Ready(a) && (a.session.None? || a.idle != Some(a.session.value.id))
    ensures Act(a, DoIdle) == a
  {
  }

  // ----- A whole withdrawal -----

  lemma ThreeActs(a: Atm, x: Action, y: Action, z: Action)
    requires Ready(a) && Allowed(x) && Allowed(y) && Allowed(z)
    ensures Ready(Act(a, x)) && Ready(Act(Act(a, x), y)) && RunAtm(a, [x, y, z]) == Act(Act(Act(a, x), y), z)
  {
    TwoActs(a, x, y);
    ActReady(Act(a, x), y);
    assert [x, y, z][..2] == [x, y];
  }

  lemma RunSnoc(a: Atm, xs: seq<Action>, x: Action)
    requires Ready(a) && AllAllowed(xs) && Allowed(x)
    ensures AllAllowed(xs + [x]) && RunAtm(a, xs + [x]) == Act(RunAtm(a, xs), x)
  {
    assert (xs + [x])[..|xs|] == xs;
  }

  lemma RunTwoMore(a: Atm, xs: seq<Action>, x: Action, y: Action)
    requires Ready(a) && AllAllowed(xs) && Allowed(x) && Allowed(y)
    ensures AllAllowed(xs + [x, y]) && RunAtm(a, xs + [x, y]) == RunAtm(RunAtm(a, xs), [x, y])
  {
    RunSnoc(a, xs, x);
    RunSnoc(a, xs + [x], y);
    TwoActs(RunAtm(a, xs), x, y);
    assert xs + [x] + [y] == xs + [x, y];
  }

  function ToAmount(pan: string, now: Month, pin: string): seq<Action> {
    [DoInsert(pan, now), DoFinishPin(pin), DoSelect(Withdrawal)]
  }

  /** A session of the card that asks for an amount, its PIN checked and its failures cleared, and nothing else. */
  predicate AtAmount(a: Atm, c: Atm, pan: string)
    requires pan in a.host.db.cards
  {
    var card := a.host.db.cards[pan];
    && c.session == Some(Session(a.nextId, AmountEntry, pan, Some(card.accountId), Some(Withdrawal), None, 0))
    && c.idle == Some(a.nextId) && c.idc == Idc(Some(pan), false) && c.nextId == a.nextId + 1
    && c.journal == a.journal + [PinChecked(a.nextId, pan, true)]
    && c.cdm == a.cdm && c.host.nextStan == a.host.nextStan
    && c.host.db == a.host.db.(cards := a.host.db.cards[pan := card.(failedPinCount := 0)])
  }

  /** Card, right PIN and choice of a withdrawal lead to the amount entry. */
  lemma ReachesAmount(a: Atm, pan: string, now: Month)
    requires Ready(a) && a.session.None? && a.idle.None? && a.idc == Idc(None, false) && Served(a.host.db, pan, now)
    requires a.host.db.cards[pan].pin != ""
    ensures AtAmount(a, RunAtm(a, ToAmount(pan, now, a.host.db.cards[pan].pin)), pan)
  {
    var pin := a.host.db.cards[pan].pin;
    var x, y, z := DoInsert(pan, now), DoFinishPin(pin), DoSelect(Withdrawal);
    ThreeActs(a, x, y, z);
    InsertExactly(a, pan, now);
    var b := Act(a, x);
    PinExactly(b, b.session.value, pin);
    FinishPinEffect(b, pin, b.session.value, true);
    var c := Act(b, y);
    SelectExactly(c, c.session.value, Withdrawal);
  }

  lemma WithdrawalEjects(a: Atm, t: Instants)
    requires Ready(a) && a.session.Some? && a.session.value.amount.Some? && !a.idc.injected
    ensures ProcessWithdrawal(a, t).idc.card.None?
  {
  }

  lemma ConfirmEjects(a: Atm, n: int, t: Instants)
    requires Ready(a) && AtRest(a) && Linked(a) && a.session.Some? && a.session.value.state == AmountEntry
    requires !a.idc.injected && n > 0 && n % 20_000 == 0
    ensures RunAtm(a, [DoSubmit(n), DoConfirm(t)]).idc.card.None?
  {
    TwoActs(a, DoSubmit(n), DoConfirm(t));
    var b := Act(a, DoSubmit(n));
    ConfirmIsWithdrawal(b, t);
    WithdrawalEjects(Confirming(b), t);
  }

  /**
   * A whole visit of a customer whose card the host serves, who types its PIN, asks for a withdrawal of a positive
   * multiple of 20,000 and confirms: the PIN is checked, then the host is asked once, for that amount on that card,
   * with the outcomes of a withdrawal; and the session ends with the card out of the reader.
   */
  lemma Visit(a: Atm, pan: string, now: Month, n: int, t: Instants)
    requires Ready(a) && a.session.None? && a.idle.None? && a.idc == Idc(None, false) && Served(a.host.db, pan, now)
    requires a.host.db.cards[pan].pin != "" && n > 0 && n % 20_000 == 0
    ensures var pin := a.host.db.cards[pan].pin;
            var c := RunAtm(a, ToAmount(pan, now, pin));
            var b := RunAtm(a, ToAmount(pan, now, pin) + [DoSubmit(n), DoConfirm(t)]);
            AtAmount(a, c, pan) && Withdrew(c, b, c.session.value, n, t) && b.idc.card.None?
  {
    var pin := a.host.db.cards[pan].pin;
    ReachesAmount(a, pan, now);
    RunTwoMore(a, ToAmount(pan, now, pin), DoSubmit(n), DoConfirm(t));
    var c := RunAtm(a, ToAmount(pan, now, pin));
    EnterAndConfirm(c, c.session.value, n, t);
    ConfirmEjects(c, n, t);
  }
}
