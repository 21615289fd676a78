/** The ATM application as it runs: one session field, one watchdog, and the devices it drives. */
module AtmApp {
  import opened Common
  import opened Ledger
  import opened AtmSession
  import opened AtmRuns
  import opened AtmMoney
  import Cdm = CdmDevice
  import Host = HostEmulator

  /** The motorised card reader. */
  class IdcDevice {
    var currentCard: Option<string>
    var cardHeld: bool
    var injectedError: bool

    predicate Valid()
      reads this
    {
      cardHeld <==> currentCard.Some?
    }

    function State(): Idc
      reads this
    {
      Idc(currentCard, injectedError)
    }

    constructor ()
      ensures Valid() && State() == Idc(None, false)
    {
      currentCard, cardHeld, injectedError := None, false, false;
    }

    method CheckInjectedError() returns (hit: bool)
      requires Valid()
      modifies this`injectedError
      ensures Valid() && hit == old(injectedError) && State() == old(State()).(injected := false)
    {
      hit := injectedError;
      injectedError := false;
    }

    method InsertCard(pan: string) returns (inserted: bool)
      requires Valid()
      modifies this
      ensures Valid() && inserted == old(State()).card.None?
      ensures State() == if inserted then old(State()).(card := Some(pan)) else old(State())
    {
      if cardHeld {
        return false;
      }
      currentCard, cardHeld := Some(pan), true;
      inserted := true;
    }

    method ReadTrack() returns (ok: bool)
      requires Valid()
      modifies this
      ensures Valid() && State() == old(State()).(injected := false)
      ensures ok == (!old(State()).injected && old(State()).card.Some?)
    {
      var failed := CheckInjectedError();
      ok := !failed && currentCard.Some?;
    }

    method EjectCard() returns (ok: bool)
      requires Valid()
      modifies this
      ensures Valid() && ok == (!old(State()).injected && old(State()).card.Some?)
      ensures State() == Idc(if ok then None else old(State()).card, false)
    {
      var failed := CheckInjectedError();
      if failed || !cardHeld {
        return false;
      }
      currentCard, cardHeld := None, false;
      ok := true;
    }

    method RetainCard() returns (ok: bool)
      requires Valid()
      modifies this
      ensures Valid() && State() == RetainInReader(old(State()))
    {
      var failed := CheckInjectedError();
      if failed || !cardHeld {
        return false;
      }
      currentCard, cardHeld := None, false;
      ok := true;
    }

    method SetInjectedError(on: bool)
      requires Valid()
      modifies this`injectedError
      ensures Valid() && State() == old(State()).(injected := on)
    {
      injectedError := on;
    }

    method Reset()
      requires Valid()
      modifies this
      ensures Valid() && State() == Idc(None, false)
    {
      currentCard, cardHeld, injectedError := None, false, false;
    }
  }

  class AtmApp {
    var session: Option<Session>
    var idleTimer: Option<nat>
    var nextSession: nat
    var ptrInjected: bool
    var journal: seq<Event>
    const host: Host.HostEmulator
    const cdm: Cdm.CdmDevice
    const idc: IdcDevice

    ghost predicate Valid()
      reads this, cdm, idc
    {
      cdm.Ok() && idc.Valid()
    }

    function State(): Atm
      reads this, host, cdm, idc
    {
      Atm(session, idleTimer, nextSession, host.State(), cdm.State(), idc.State(), ptrInjected, journal)
    }

    constructor (host: Host.HostEmulator, cdm: Cdm.CdmDevice, idc: IdcDevice)
      requires cdm.Ok() && idc.Valid()
      ensures Valid() && this.host == host && this.cdm == cdm && this.idc == idc
      ensures State() == Atm(None, None, 0, host.State(), cdm.State(), idc.State(), false, [])
    {
      session, idleTimer, nextSession, ptrInjected, journal := None, None, 0, false, [];
      this.host, this.cdm, this.idc := host, cdm, idc;
    }

    method TransitionTo(next: AtmSession.State)
      requires session.Some?
      modifies this`session, this`idleTimer
      ensures State() == Transition(old(State()), next)
    {
      session := Some(session.value.(state := next));
      ArmIdleTimer(next);
    }

    /** Armed only while the customer's input is awaited; any other state clears it. */
    method ArmIdleTimer(state: AtmSession.State)
      requires session.Some?
      modifies this`idleTimer
      ensures idleTimer == if AwaitsHuman(state) then Some(session.value.id) else None
    {
      idleTimer := None;
      if AwaitsHuman(state) {
        idleTimer := Some(session.value.id);
      }
    }

    method Eject()
      requires Valid()
      modifies idc
      ensures Valid() && State() == SafeEject(old(State()))
    {
      if !idc.cardHeld {
        return;
      }
      var _ := idc.EjectCard();
    }

    method End()
      modifies this`session, this`idleTimer
      ensures State() == EndSession(old(State()))
    {
      idleTimer := None;
      session := None;
    }

    method FailSession()
      requires Valid() && session.Some?
      modifies this`session, this`idleTimer, idc
      ensures Valid() && State() == MarkError(old(State()))
    {
      TransitionTo(Error);
      Eject();
      End();
    }

    method FinishSession()
      requires Valid() && session.Some?
      modifies this, idc
      ensures Valid() && State() == Finish(old(State()))
    {
      TransitionTo(Printing);
      ptrInjected := false;
      TransitionTo(Ejecting);
      Eject();
      End();
    }

    method OnCardInserted(pan: string, now: Host.Month) returns (r: Outcome)
      requires Valid()
      modifies this, idc
      ensures Valid() && (State(), r) == InsertCard(old(State()), pan, now)
    {
      if session.Some? {
        return Threw;
      }
      session := Some(Session(nextSession, CardInserted, pan, None, None, None, 0));
      nextSession := nextSession + 1;
      ArmIdleTimer(CardInserted);
      r := Returned;
      var inserted := idc.InsertCard(pan);
      if !inserted {
        FailSession();
        return;
      }
      var read := idc.ReadTrack();
      if !read {
        FailSession();
        return;
      }
      var auth := host.CheckCard(pan, now);
      match auth
      case Rejected(_) => FailSession();
      case Accepted(id) =>
        session := Some(session.value.(accountId := Some(id)));
        TransitionTo(PinEntry);
    }

    method RetainForSession()
      requires Valid() && session.Some?
      modifies this, idc, host`cards
      ensures Valid() && State() == Retain(old(State()))
    {
      var _ := idc.RetainCard();
      host.Retain(session.value.pan);
      TransitionTo(Error);
      End();
    }

    method VerifyPinBuffer(entered: string) returns (verified: bool)
      requires Valid()
      modifies this, idc, host`cards
      ensures Valid() && State() == FinishPin(old(State()), entered)
      ensures verified <==> old(session).Some? && entered != ""
                            && Host.VerifyPin(old(State()).host.db, old(session).value.pan, entered).1 == Approved00
    {
      verified := false;
      if session.None? || entered == "" {
        return;
      }
      var code := host.CheckPin(session.value.pan, entered);
      journal := journal + [PinChecked(session.value.id, session.value.pan, code == Approved00)];
      if code != Approved00 {
        session := Some(session.value.(failedPinAttempts := session.value.failedPinAttempts + 1));
        if session.value.failedPinAttempts >= MAX_PIN_ATTEMPTS || code == PinTriesExceeded {
          RetainForSession();
        }
        return;
      }
      TransitionTo(PinVerified);
      TransitionTo(MainMenu);
      verified := true;
    }

    method SelectTransaction(txn: Txn) returns (r: Outcome)
      requires Valid()
      modifies this, idc
      ensures Valid() && (State(), r) == Select(old(State()), txn)
    {
      if session.None? || session.value.state != MainMenu {
        return Threw;
      }
      session := Some(session.value.(txn := Some(txn)));
      if txn == Balance {
        TransitionTo(Processing);
        if HasAccount(Db(host.cards, host.accounts, host.rows), session.value.pan) {
          FinishSession();
        } else {
          FailSession();
        }
      } else if txn == Withdrawal {
        TransitionTo(AmountEntry);
      } else {
        FailSession();
      }
      r := Returned;
    }

    method SubmitAmount(amount: int) returns (r: Outcome)
      requires Valid()
      modifies this
      ensures Valid() && (State(), r) == Submit(old(State()), amount)
    {
      if session.None? || session.value.state != AmountEntry {
        return Threw;
      }
      if amount <= 0 || amount % 20_000 != 0 {
        return Threw;
      }
      session := Some(session.value.(amount := Some(amount)));
      TransitionTo(Confirm);
      r := Returned;
    }

    method ConfirmTransaction(t: Instants) returns (r: Outcome)
      requires Valid()
      modifies this, idc, host, cdm
      ensures Valid() && (State(), r) == ConfirmTxn(old(State()), t)
    {
      if session.None? || session.value.state != Confirm {
        return Threw;
      }
      TransitionTo(Processing);
      if session.value.txn == Some(Withdrawal) {
        Withdraw(t);
      } else {
        FailSession();
      }
      r := Returned;
    }

    method Withdraw(t: Instants)
      requires Valid() && session.Some?
      modifies this, idc, host, cdm
      ensures Valid() && State() == ProcessWithdrawal(old(State()), t)
    {
      if session.value.amount.None? {
        return;
      }
      var s := session.value;
      var amount := s.amount.value;
      var stan, reply := host.AuthorizeWithdrawal(s.pan, amount, t.cap, SessionName(s.id), t.check, t.stamp);
      if !reply.Approved? {
        FailSession();
        return;
      }
      journal := journal + [AuthApproved(s.id, stan, amount)];
      TransitionTo(Dispensing);
      var dispensed := cdm.ExecuteDispense(amount, None, true);
      journal := journal + [DispenseIssued(s.id, amount, dispensed.Dispensed?)];
      if !dispensed.Dispensed? {
        var _ := host.ReverseTransaction(ReversalOf(s, stan), t.undo);
        journal := journal + [ReversalIssued(s.id, stan, amount)];
        FailSession();
        return;
      }
      FinishSession();
    }

    method CancelTransaction()
      requires Valid()
      modifies this, idc
      ensures Valid() && State() == Cancel(old(State()))
    {
      if session.None? {
        return;
      }
      Eject();
      End();
    }

    method OnIdleTimer()
      requires Valid()
      modifies this, idc
      ensures Valid() && State() == IdleFires(old(State()))
    {
      if session.None? || idleTimer != Some(session.value.id) {
        return;
      }
      FailSession();
    }

    /** Any one action of a customer, an operator, a fault or the watchdog. */
    method Perform(act: Action)
      requires Valid() && Allowed(act)
      modifies this, idc, host, cdm
      ensures Valid() && State() == Act(old(State()), act)
    {
      match act
      case DoInsert(pan, now) => var _ := OnCardInserted(pan, now);
      case DoFinishPin(entered) => var _ := VerifyPinBuffer(entered);
      case DoSelect(txn) => var _ := SelectTransaction(txn);
      case DoSubmit(amount) => var _ := SubmitAmount(amount);
      case DoConfirm(t) => var _ := ConfirmTransaction(t);
      case DoCancel => CancelTransaction();
      case DoIdle => OnIdleTimer();
      case Operator(cmd) => var _ := cdm.Execute(cmd);
      case ReaderFault(on) => idc.SetInjectedError(on);
      case PrinterFault(on) => ptrInjected := on;
      case ReaderReset => idc.Reset();
    }

    /** A whole run, as code: everything proved of runs holds of this object. */
    method PerformAll(acts: seq<Action>)
      requires Valid() && AllAllowed(acts)
      modifies this, idc, host, cdm
      ensures Valid() && State() == RunAtm(old(State()), acts)
    {
      ghost var start := State();
      for n := 0 to |acts|
        invariant Valid() && Ready(start) && State() == RunAtm(start, acts[..n])
      {
        assert acts[..n + 1][..n] == acts[..n];
        Perform(acts[n]);
      }
      assert acts[..|acts|] == acts;
    }
  }

  /** An ATM from its first customer on: at rest at the end, with every withdrawal accounted for. */
  method Serve(db: Db, acts: seq<Action>) returns (app: AtmApp)
    requires AllAllowed(acts)
    ensures fresh(app) && app.Valid() && AtRest(app.State()) && Disciplined(app.journal)
    ensures Total(db.accounts) - Total(app.host.accounts) == PaidSum(app.journal)
  {
    var host := new Host.HostEmulator(db);
    var cdm := new Cdm.CdmDevice();
    var idc := new IdcDevice();
    app := new AtmApp(host, cdm, idc);
    ghost var start := app.State();
    app.PerformAll(acts);
    RunKeepsRest(start, acts);
    RunDisciplined(start, acts);
    RunMoney(start, acts);
  }
}
