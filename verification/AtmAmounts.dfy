/** The amount that the customer enters is the amount that is authorised, paid out and taken back. */
module AtmAmounts {
  import opened Common
  import opened Ledger
  import opened AtmSession
  import opened AtmRuns
  import Cash = CashDispenser
  import Decimal

  // ----- What was entered -----

  /** An amount that the ATM takes from the session: it is asked for one, and the amount is a multiple of 20,000. */
  predicate Takes(b: Atm, act: Action, sid: nat) {
    && b.session.Some? && b.session.value.id == sid && b.session.value.state == AmountEntry
    && act.DoSubmit? && act.amount > 0 && act.amount % 20_000 == 0
  }

  /** The last amount that the ATM has taken from a session in a run. */
  ghost function LastEntered(a: Atm, acts: seq<Action>, sid: nat): Option<int>
    requires Ready(a) && AllAllowed(acts)
  {
    if acts == [] then None
    else
      var n := |acts| - 1;
      if Takes(RunAtm(a, acts[..n]), acts[n], sid) then Some(acts[n].amount) else LastEntered(a, acts[..n], sid)
  }

  predicate OfMoney(e: Event) { e.AuthApproved? || e.DispenseIssued? || e.ReversalIssued? }

  function AmountOf(e: Event): int {
    match e
    case AuthApproved(_, _, amount) => amount
    case DispenseIssued(_, amount, _) => amount
    case ReversalIssued(_, _, amount) => amount
    case _ => 0
  }

  // ----- Every money event carries it -----

  /** Money events are of sessions that are over, and carry their last amounts; a session to confirm knows its own. */
  ghost predicate Entered(b: Atm, last: nat -> Option<int>) {
    && (forall i | 0 <= i < |b.journal| && OfMoney(b.journal[i]) ::
          && last(b.journal[i].sid) == Some(AmountOf(b.journal[i])) && b.journal[i].sid < b.nextId
          && (b.session.Some? ==> b.session.value.id != b.journal[i].sid))
    && (b.session.Some? && b.session.value.state == Confirm ==>
          b.session.value.amount == last(b.session.value.id))
  }

  ghost function Last(a: Atm, acts: seq<Action>): nat -> Option<int>
    requires Ready(a) && AllAllowed(acts)
  {
    (sid: nat) => LastEntered(a, acts, sid)
  }

  /** How an action moves the amounts on. */
  ghost predicate Moves(b: Atm, act: Action, last: nat -> Option<int>, last': nat -> Option<int>) {
    forall sid: nat :: last'(sid) == if Takes(b, act, sid) then Some(act.amount) else last(sid)
  }

  lemma EndedEntered(b: Atm, c: Atm, k: seq<Event>, sid: nat, amount: int, last: nat -> Option<int>)
    requires Entered(b, last) && c.journal == b.journal + k && c.session.None? && c.nextId == b.nextId
    requires last(sid) == Some(amount) && sid < b.nextId
    requires forall i | 0 <= i < |k| :: k[i].sid == sid && AmountOf(k[i]) == amount
    ensures Entered(c, last)
  {
  }

  lemma ConfirmEntered(b: Atm, t: Instants, last: nat -> Option<int>)
    requires Ready(b) && AtRest(b) && Linked(b) && Entered(b, last)
    ensures Entered(ConfirmTxn(b, t).0, last)
  {
    ConfirmIsWithdrawal(b, t);
    if b.session.Some? && b.session.value.state == Confirm {
      WithdrawalOutcomes(Confirming(b), t);
      var c := ConfirmTxn(b, t).0;
      var s, stan := b.session.value, FormatStan(b.host.nextStan);
      var n := s.amount.value;
      if c.journal == b.journal {
        assert c.journal == b.journal + [];
        EndedEntered(b, c, [], s.id, n, last);
      } else if c.journal == b.journal + [AuthApproved(s.id, stan, n), DispenseIssued(s.id, n, true)] {
        EndedEntered(b, c, [AuthApproved(s.id, stan, n), DispenseIssued(s.id, n, true)], s.id, n, last);
      } else {
        EndedEntered(b, c, [AuthApproved(s.id, stan, n), DispenseIssued(s.id, n, false), ReversalIssued(s.id, stan, n)],
          s.id, n, last);
      }
    }
  }

  lemma FinishPinEntered(b: Atm, entered: string, last: nat -> Option<int>)
    requires AtRest(b) && Linked(b) && Entered(b, last)
    ensures Entered(FinishPin(b, entered), last)
  {
  }

  lemma QuietEntered(b: Atm, act: Action, last: nat -> Option<int>, last': nat -> Option<int>)
    requires Ready(b) && Quiet(act) && AtRest(b) && Linked(b) && Entered(b, last) && Moves(b, act, last, last')
    ensures Entered(Act(b, act), last')
  {
    QuietActs(b, act);
  }

  lemma ActEntered(b: Atm, act: Action, last: nat -> Option<int>, last': nat -> Option<int>)
    requires Ready(b) && Allowed(act) && AtRest(b) && Linked(b) && Entered(b, last) && Moves(b, act, last, last')
    ensures Entered(Act(b, act), last')
  {
    match act
    case DoFinishPin(entered) => FinishPinEntered(b, entered, last);
    case DoConfirm(t) => ConfirmEntered(b, t, last);
    case Operator(_) =>
    case _ => QuietEntered(b, act, last, last');
  }

  lemma {:induction false} RunEntered(a: Atm, acts: seq<Action>)
    requires Ready(a) && AllAllowed(acts) && Fresh(a)
    ensures Entered(RunAtm(a, acts), Last(a, acts))
  {
    if acts != [] {
      var n := |acts| - 1;
      RunEntered(a, acts[..n]);
      RunKeepsRest(a, acts[..n]);
      ActEntered(RunAtm(a, acts[..n]), acts[n], Last(a, acts[..n]), Last(a, acts));
    }
  }

  /**
   * Over every run, whatever is approved, dispensed or reversed in a session is the last amount that the customer
   * entered in it and the ATM took.
   */
  lemma PaysWhatWasEntered(a: Atm, acts: seq<Action>, i: nat)
    requires Ready(a) && AllAllowed(acts) && Fresh(a)
    requires i < |RunAtm(a, acts).journal| && OfMoney(RunAtm(a, acts).journal[i])
    ensures var e := RunAtm(a, acts).journal[i]; LastEntered(a, acts, e.sid) == Some(AmountOf(e))
  {
    RunEntered(a, acts);
  }

  // ----- Entering and confirming -----

  lemma TwoActs(a: Atm, x: Action, y: Action)
    requires Ready(a) && Allowed(x) && Allowed(y)
    ensures Ready(Act(a, x)) && RunAtm(a, [x, y]) == Act(Act(a, x), y)
  {
    ActReady(a, x);
    assert [x, y][..1] == [x] && [x][..0] == [];
    assert RunAtm(a, []) == a && RunAtm(a, [x]) == Act(a, x);
  }

  /**
   * The session is over, and the host has been asked once, for exactly `n` on the session's card. If it declined,
   * nothing has moved; if it approved, exactly `n` has been paid, or else exactly that has been taken back.
   */
  ghost predicate Withdrew(a: Atm, b: Atm, s: Session, n: int, t: Instants)
    requires Ready(a) && s.pan in a.host.db.cards
  {
    var q := AuthRequest(s.pan, n, t.cap, Decimal.Show(s.id), FormatStan(a.host.nextStan));
    var (db, reply) := Authorize(a.host.db, q, t.check, t.stamp);
    var (cdm, r) := Cash.Step(a.cdm, Cash.Dispense(n, None, true));
    var undo := Reversal(q.stan, q.sessionId, s.pan, a.host.db.cards[s.pan].accountId, n);
    && b.session.None? && b.idle.None? && b.host.nextStan == a.host.nextStan + 1
    && (!reply.Approved? ==> b.host.db == a.host.db && b.cdm == a.cdm && b.journal == a.journal)
    && (reply.Approved? && r.Dispensed? ==>
          && b.host.db == db && b.cdm == cdm
          && b.journal == a.journal + [AuthApproved(s.id, q.stan, n), DispenseIssued(s.id, n, true)])
    && (reply.Approved? && !r.Dispensed? ==>
          && b.host.db == Reverse(db, undo, t.undo).0 && b.cdm == cdm
          && b.journal == a.journal + [AuthApproved(s.id, q.stan, n), DispenseIssued(s.id, n, false),
                                       ReversalIssued(s.id, q.stan, n)])
  }

  /**
   * From the amount entry, a positive multiple of 20,000 and its confirmation withdraw exactly that; any other
   * amount changes nothing at all.
   */
  lemma EnterAndConfirm(a: Atm, s: Session, n: int, t: Instants)
    requires Ready(a) && AtRest(a) && Linked(a) && a.session == Some(s) && s.state == AmountEntry
    ensures var b := RunAtm(a, [DoSubmit(n), DoConfirm(t)]);
            if n <= 0 || n % 20_000 != 0 then b == a else Withdrew(a, b, s, n, t)
  {
    TwoActs(a, DoSubmit(n), DoConfirm(t));
    if n > 0 && n % 20_000 == 0 {
      var b := Act(a, DoSubmit(n));
      ConfirmIsWithdrawal(b, t);
      WithdrawalOutcomes(Confirming(b), t);
    }
  }
}
