/** The host emulator: card checks, PIN checks, and the ledger operations behind a trace counter. */
module HostEmulator {
  import opened Common
  import opened Ledger
  import Decimal

  const MAX_PIN_FAILURES := 3

  datatype Host = Host(db: Db, nextStan: nat)

  /** Year and month of the wall clock. */
  datatype Month = Month(year: int, month: int)

  datatype CardCheck = Accepted(accountId: string) | Rejected(code: Code)

  /** YYMM before the current month, or not four digits at all. */
  predicate IsExpired(expiry: string, now: Month) {
    if |expiry| != 4 || !Decimal.AllDigits(expiry) then true
    else
      var year, month := 2000 + Decimal.Read(expiry[..2]), Decimal.Read(expiry[2..]);
      year < now.year || (year == now.year && month < now.month)
  }

  function Authenticate(db: Db, pan: string, now: Month): CardCheck {
    if pan !in db.cards then Rejected(InvalidCard)
    else
      var card := db.cards[pan];
      if card.status == Blocked then Rejected(CardBlocked)
      else if card.status == Retained then Rejected(RestrictedCard)
      else if IsExpired(card.expiry, now) then Rejected(ExpiredCard)
      else if card.accountId !in db.accounts || !db.accounts[card.accountId].active then Rejected(NoCardRecord)
      else Accepted(card.accountId)
  }

  function SetFailures(db: Db, pan: string, n: nat): Db
    requires pan in db.cards
  {
    db.(cards := db.cards[pan := db.cards[pan].(failedPinCount := n)])
  }

  /** A wrong PIN adds one to the card's failures; a right one clears them. */
  function VerifyPin(db: Db, pan: string, entered: string): (Db, Code) {
    if pan !in db.cards then (db, InvalidCard)
    else if entered == db.cards[pan].pin then (SetFailures(db, pan, 0), Approved00)
    else
      var n := db.cards[pan].failedPinCount + 1;
      (SetFailures(db, pan, n), if n >= MAX_PIN_FAILURES then PinTriesExceeded else IncorrectPin)
  }

  /** An update of a card that does not exist throws and changes nothing. */
  function RetainCard(db: Db, pan: string): Db {
    if pan in db.cards then db.(cards := db.cards[pan := db.cards[pan].(status := Retained)]) else db
  }

  /** What the caller of an authorisation supplies; the trace number comes from the counter. */
  function RequestOf(pan: string, amount: int, cap: int, sessionId: string, stanNo: nat): AuthRequest {
    AuthRequest(pan, amount, cap, sessionId, FormatStan(stanNo))
  }

  class HostEmulator {
    var cards: map<string, Card>
    var accounts: map<string, Account>
    var rows: seq<Row>
    var stanCounter: nat

    function State(): Host
      reads this
    {
      Host(Db(cards, accounts, rows), stanCounter)
    }

    constructor (db: Db)
      ensures State() == Host(db, 1)
    {
      cards, accounts, rows, stanCounter := db.cards, db.accounts, db.rows, 1;
    }

    method GenerateStan() returns (stan: string)
      modifies this`stanCounter
      ensures stan == FormatStan(old(stanCounter))
      ensures State() == old(State()).(nextStan := old(stanCounter) + 1)
    {
      stan := FormatStan(stanCounter);
      stanCounter := stanCounter + 1;
    }

    method AuthorizeWithdrawal(pan: string, amount: int, cap: int, sessionId: string, check: nat, stamp: nat)
      returns (stan: string, reply: Reply)
      modifies this
      ensures var q := RequestOf(pan, amount, cap, sessionId, old(stanCounter));
              && stan == q.stan
              && (State().db, reply) == Authorize(old(State()).db, q, check, stamp)
              && State().nextStan == old(State()).nextStan + 1
    {
      stan := GenerateStan();
      if pan !in cards || cards[pan].accountId !in accounts {
        return stan, Declined(InvalidCard);
      }
      if amount > cap {
        return stan, Declined(ExceedsLimit);
      }
      var id := cards[pan].accountId;
      if accounts[id].balance < amount {
        return stan, Declined(NotSufficientFunds);
      }
      var already := Sum(rows, Since(id, StartOfDay(check)));
      if already + amount > accounts[id].dailyLimit {
        return stan, Declined(ExceedsLimit);
      }
      var updated := accounts[id].(balance := accounts[id].balance - amount,
                                   dailyWithdrawn := accounts[id].dailyWithdrawn + amount);
      accounts := accounts[id := updated];
      rows := rows + [Row(sessionId, pan, id, amount, Completed, stan, stamp)];
      reply := Approved(updated.balance);
    }

    /** The transaction rolls back as a whole when the account does not exist. */
    method ReverseTransaction(v: Reversal, stamp: nat) returns (reply: Reply)
      modifies this
      ensures (State().db, reply) == Reverse(old(State()).db, v, stamp)
      ensures State().nextStan == old(State()).nextStan
    {
      if v.accountId !in accounts {
        return Aborted;
      }
      var a := accounts[v.accountId];
      accounts := accounts[v.accountId := a.(balance := a.balance + v.amount,
                                             dailyWithdrawn := a.dailyWithdrawn - v.amount)];
      var flipped: seq<Row> := [];
      for i := 0 to |rows|
        invariant |flipped| == i
        invariant forall k :: 0 <= k < i ==> flipped[k] == FlipRow(rows[k], v.stan)
        invariant rows == old(rows)
      {
        flipped := flipped + [if rows[i].stan == v.stan && rows[i].status == Completed
                              then rows[i].(status := Reversed) else rows[i]];
      }
      assert flipped == Flip(old(rows), v.stan);
      rows := flipped + [Row(v.sessionId, v.pan, v.accountId, v.amount, Reversed, v.stan, stamp)];
      reply := Undone;
    }

    method CheckCard(pan: string, now: Month) returns (r: CardCheck)
      ensures r == Authenticate(State().db, pan, now)
    {
      if pan !in cards {
        return Rejected(InvalidCard);
      }
      var card := cards[pan];
      if card.status == Blocked {
        return Rejected(CardBlocked);
      }
      if card.status == Retained {
        return Rejected(RestrictedCard);
      }
      if IsExpired(card.expiry, now) {
        return Rejected(ExpiredCard);
      }
      if card.accountId !in accounts || !accounts[card.accountId].active {
        return Rejected(NoCardRecord);
      }
      r := Accepted(card.accountId);
    }

    method CheckPin(pan: string, entered: string) returns (code: Code)
      modifies this`cards
      ensures (State().db, code) == VerifyPin(old(State()).db, pan, entered)
    {
      if pan !in cards {
        return InvalidCard;
      }
      if entered != cards[pan].pin {
        var failures := cards[pan].failedPinCount + 1;
        cards := cards[pan := cards[pan].(failedPinCount := failures)];
        return if failures >= 3 then PinTriesExceeded else IncorrectPin;
      }
      cards := cards[pan := cards[pan].(failedPinCount := 0)];
      code := Approved00;
    }

    method Retain(pan: string)
      modifies this`cards
      ensures State() == old(State()).(db := RetainCard(old(State()).db, pan))
    {
      if pan in cards {
        cards := cards[pan := cards[pan].(status := Retained)];
      }
    }
  }
}
