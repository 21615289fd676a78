/**
 * The ATM session: what each handler does to the session, the idle watchdog, the host's tables and
 * the devices. A handler runs to completion, except that PIN entry is a begin and a finish.
 */
module AtmSession {
  import opened Common
  import opened Ledger
  import opened HostEmulator
  import Cash = CashDispenser
  import Decimal

  const MAX_PIN_ATTEMPTS := 3

  datatype State =
    | CardInserted | PinEntry | PinVerified | MainMenu | AmountEntry | Confirm
    | Processing | Dispensing | Printing | Ejecting | Error

  datatype Txn = Withdrawal | Balance | Transfer | Deposit

  datatype Session = Session(id: nat, state: State, pan: string, accountId: Option<string>, txn: Option<Txn>,
                             amount: Option<int>, failedPinAttempts: nat)

  /** The card reader: the card it holds, and a pending injected error. */
  datatype Idc = Idc(card: Option<string>, injected: bool)

  /** What the ATM asked of the host and the dispenser, and the answer. */
  datatype Event =
    | PinChecked(sid: nat, pan: string, right: bool)
    | AuthApproved(sid: nat, stan: string, amount: int)
    | DispenseIssued(sid: nat, amount: int, paid: bool)
    | ReversalIssued(sid: nat, stan: string, amount: int)

  datatype Atm = Atm(session: Option<Session>, idle: Option<nat>, nextId: nat, host: Host, cdm: Cash.Cdm,
                     idc: Idc, ptrInjected: bool, journal: seq<Event>)

  datatype Outcome = Threw | Returned

  predicate AwaitsHuman(s: State) {
    s in {CardInserted, PinEntry, PinVerified, MainMenu, AmountEntry, Confirm}
  }

  // ----- Moves shared by the handlers -----

  function Transition(a: Atm, next: State): Atm
    requires a.session.Some?
  {
    var s := a.session.value.(state := next);
    a.(session := Some(s), idle := if AwaitsHuman(next) then Some(s.id) else None)
  }

  function Journal(a: Atm, e: Event): Atm { a.(journal := a.journal + [e]) }

  /** Through the manager a device error is only an error reply: the card may stay in the reader. */
  function SafeEject(a: Atm): Atm {
    if a.idc.card.None? then a
    else if a.idc.injected then a.(idc := a.idc.(injected := false))
    else a.(idc := Idc(None, false))
  }

  function EndSession(a: Atm): Atm { a.(session := None, idle := None) }

  function MarkError(a: Atm): Atm
    requires a.session.Some?
  {
    EndSession(SafeEject(Transition(a, Error)))
  }

  function Print(a: Atm): Atm { a.(ptrInjected := false) }

  function RetainInReader(idc: Idc): Idc {
    if idc.injected then idc.(injected := false) else Idc(None, false)
  }

  // ----- Handlers -----

  function InsertCard(a: Atm, pan: string, now: Month): (Atm, Outcome) {
    if a.session.Some? then (a, Threw)
    else
      var s := Session(a.nextId, CardInserted, pan, None, None, None, 0);
      var b := a.(session := Some(s), idle := Some(s.id), nextId := a.nextId + 1);
      if b.idc.card.Some? then (MarkError(b), Returned)
      else
        var c := b.(idc := b.idc.(card := Some(pan)));
        if c.idc.injected then (MarkError(c.(idc := c.idc.(injected := false))), Returned)
        else
          match Authenticate(c.host.db, pan, now)
          case Rejected(_) => (MarkError(c), Returned)
          case Accepted(id) =>
            (Transition(c.(session := Some(s.(accountId := Some(id)))), PinEntry), Returned)
  }

  function BeginPin(a: Atm): Outcome {
    if a.session.Some? && a.session.value.state == PinEntry then Returned else Threw
  }

  function Retain(a: Atm): Atm
    requires a.session.Some?
  {
    var b := a.(idc := RetainInReader(a.idc),
                host := a.host.(db := RetainCard(a.host.db, a.session.value.pan)));
    EndSession(Transition(b, Error))
  }

  /** The end of a PIN entry: the buffered digits, or none if the entry was cancelled. */
  function FinishPin(a: Atm, entered: string): Atm {
    if a.session.None? || entered == "" then a
    else
      var s := a.session.value;
      var (db, code) := VerifyPin(a.host.db, s.pan, entered);
      var b := Journal(a.(host := a.host.(db := db)), PinChecked(s.id, s.pan, code == Approved00));
      if code == Approved00 then Transition(Transition(b, PinVerified), MainMenu)
      else
        var c := b.(session := Some(s.(failedPinAttempts := s.failedPinAttempts + 1)));
        if s.failedPinAttempts + 1 >= MAX_PIN_ATTEMPTS || code == PinTriesExceeded then Retain(c) else c
  }

  function Finish(a: Atm): Atm
    requires a.session.Some?
  {
    EndSession(SafeEject(Transition(Print(Transition(a, Printing)), Ejecting)))
  }

  function ProcessBalance(a: Atm): Atm
    requires a.session.Some?
  {
    var b := Transition(a, Processing);
    if HasAccount(b.host.db, b.session.value.pan) then Finish(b) else MarkError(b)
  }

  function Select(a: Atm, txn: Txn): (Atm, Outcome) {
    if a.session.None? || a.session.value.state != MainMenu then (a, Threw)
    else
      var b := a.(session := Some(a.session.value.(txn := Some(txn))));
      match txn
      case Balance => (ProcessBalance(b), Returned)
      case Withdrawal => (Transition(b, AmountEntry), Returned)
      case _ => (MarkError(b), Returned)
  }

  function Submit(a: Atm, amount: int): (Atm, Outcome) {
    if a.session.None? || a.session.value.state != AmountEntry || amount <= 0 || amount % 20_000 != 0 then (a, Threw)
    else (Transition(a.(session := Some(a.session.value.(amount := Some(amount)))), Confirm), Returned)
  }

  /** The cap of the card's switch, and the instants of the limit check, the insert and a reversal. */
  datatype Instants = Instants(cap: int, check: nat, stamp: nat, undo: nat)

  function SessionName(id: nat): string { Decimal.Show(id) }

  function ReversalOf(s: Session, stan: string): Reversal
    requires s.amount.Some?
  {
    Reversal(stan, SessionName(s.id), s.pan, s.accountId.GetOr(""), s.amount.value)
  }

  function Authorise(a: Atm, t: Instants): (Atm, Reply)
    requires a.session.Some? && a.session.value.amount.Some?
  {
    var s := a.session.value;
    var q := RequestOf(s.pan, s.amount.value, t.cap, SessionName(s.id), a.host.nextStan);
    var (db, reply) := Authorize(a.host.db, q, t.check, t.stamp);
    var b := a.(host := Host(db, a.host.nextStan + 1));
    (if reply.Approved? then Journal(b, AuthApproved(s.id, q.stan, q.amount)) else b, reply)
  }

  function DispenseNotes(a: Atm): (Atm, bool)
    requires a.session.Some? && a.session.value.amount.Some? && Cash.Valid(a.cdm.units)
  {
    var s := a.session.value;
    var (cdm, r) := Cash.Step(a.cdm, Cash.Dispense(s.amount.value, None, true));
    (Journal(a.(cdm := cdm), DispenseIssued(s.id, s.amount.value, r.Dispensed?)), r.Dispensed?)
  }

  function Undo(a: Atm, stan: string, at: nat): Atm
    requires a.session.Some? && a.session.value.amount.Some?
  {
    var s := a.session.value;
    Journal(a.(host := a.host.(db := Reverse(a.host.db, ReversalOf(s, stan), at).0)),
            ReversalIssued(s.id, stan, s.amount.value))
  }

  function ProcessWithdrawal(a: Atm, t: Instants): Atm
    requires a.session.Some? && Cash.Valid(a.cdm.units)
  {
    if a.session.value.amount.None? then a
    else
      var stan := FormatStan(a.host.nextStan);
      var (b, reply) := Authorise(a, t);
      if !reply.Approved? then MarkError(b)
      else
        var (c, paid) := DispenseNotes(Transition(b, Dispensing));
        if paid then Finish(c) else MarkError(Undo(c, stan, t.undo))
  }

  function ConfirmTxn(a: Atm, t: Instants): (Atm, Outcome)
    requires Cash.Valid(a.cdm.units)
  {
    if a.session.None? || a.session.value.state != Confirm then (a, Threw)
    else
      var b := Transition(a, Processing);
      (if b.session.value.txn == Some(Withdrawal) then ProcessWithdrawal(b, t) else MarkError(b), Returned)
  }

  function Cancel(a: Atm): Atm { if a.session.None? then a else EndSession(SafeEject(a)) }

  /** The watchdog acts only for the session it was armed for. */
  function IdleFires(a: Atm): Atm {
    if a.session.None? || a.idle != Some(a.session.value.id) then a else MarkError(a)
  }

  // ----- Runs -----

  datatype Action =
    | DoInsert(pan: string, now: Month)
    | DoFinishPin(entered: string)
    | DoSelect(txn: Txn)
    | DoSubmit(amount: int)
    | DoConfirm(t: Instants)
    | DoCancel
    | DoIdle
    | Operator(cmd: Cash.Command)
    | ReaderFault(on: bool)
    | PrinterFault(on: bool)
    | ReaderReset

  function Act(a: Atm, act: Action): Atm
    requires Cash.Valid(a.cdm.units)
  {
    match act
    case DoInsert(pan, now) => InsertCard(a, pan, now).0
    case DoFinishPin(entered) => FinishPin(a, entered)
    case DoSelect(txn) => Select(a, txn).0
    case DoSubmit(amount) => Submit(a, amount).0
    case DoConfirm(t) => ConfirmTxn(a, t).0
    case DoCancel => Cancel(a)
    case DoIdle => IdleFires(a)
    case Operator(cmd) => a.(cdm := Cash.Step(a.cdm, cmd).0)
    case ReaderFault(on) => a.(idc := a.idc.(injected := on))
    case PrinterFault(on) => a.(ptrInjected := on)
    case ReaderReset => a.(idc := Idc(None, false))
  }

  /** Between sessions an operator may do anything to the dispenser except pay out cash. */
  predicate Allowed(act: Action) { act.Operator? ==> !act.cmd.Dispense? }
}
