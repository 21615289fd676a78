/** What the host answers and writes, told from cards, accounts and rows alone, with days and digits spelt out. */
module LedgerLaws {
  import opened Common
  import opened Ledger
  import Decimal

  // ----- What an account has spent on a day -----

  /** The COMPLETED amounts of an account's rows from a UTC day on, days counted from the epoch. */
  function SpentFrom(rows: seq<Row>, id: string, day: nat): int {
    if rows == [] then 0
    else
      var r := rows[|rows| - 1];
      SpentFrom(rows[..|rows| - 1], id, day) +
      if r.status == Completed && r.accountId == id && r.createdAt / 86_400_000 >= day then r.amount else 0
  }

  /** The same of one day alone. */
  function SpentOn(rows: seq<Row>, id: string, day: nat): int {
    if rows == [] then 0
    else
      var r := rows[|rows| - 1];
      SpentOn(rows[..|rows| - 1], id, day) +
      if r.status == Completed && r.accountId == id && r.createdAt / 86_400_000 == day then r.amount else 0
  }

  /** No COMPLETED row of the account is stamped after the day. */
  predicate NoneAfter(rows: seq<Row>, id: string, day: nat) {
    forall i :: 0 <= i < |rows| && rows[i].status == Completed && rows[i].accountId == id ==>
      rows[i].createdAt / 86_400_000 <= day
  }

  /** Nor on it. */
  predicate NoneSince(rows: seq<Row>, id: string, day: nat) {
    forall i :: 0 <= i < |rows| && rows[i].status == Completed && rows[i].accountId == id ==>
      rows[i].createdAt / 86_400_000 < day
  }

  lemma {:induction false} FromThatDay(rows: seq<Row>, id: string, day: nat)
    requires NoneAfter(rows, id, day)
    ensures SpentFrom(rows, id, day) == SpentOn(rows, id, day)
  {
    if rows != [] {
      FromThatDay(rows[..|rows| - 1], id, day);
    }
  }

  lemma {:induction false} NothingSpent(rows: seq<Row>, id: string, day: nat)
    requires NoneSince(rows, id, day)
    ensures SpentFrom(rows, id, day) == 0
  {
    if rows != [] {
      NothingSpent(rows[..|rows| - 1], id, day);
    }
  }

  lemma FromMidnight(at: nat, t: nat)
    ensures at >= t - t % 86_400_000 <==> at / 86_400_000 >= t / 86_400_000
  {
  }

  /** What the host sums is what was spent from the day of the instant on. */
  lemma {:induction false} SumIsSpent(rows: seq<Row>, id: string, t: nat)
    ensures Sum(rows, Since(id, StartOfDay(t))) == SpentFrom(rows, id, t / 86_400_000)
  {
    if rows != [] {
      SumIsSpent(rows[..|rows| - 1], id, t);
      FromMidnight(rows[|rows| - 1].createdAt, t);
    }
  }

  /** And the sums that the limits speak of are those of single days. */
  lemma {:induction false} DaySumIsSpent(rows: seq<Row>, id: string, day: nat)
    ensures Sum(rows, OnDay(id, day)) == SpentOn(rows, id, day)
  {
    if rows != [] {
      DaySumIsSpent(rows[..|rows| - 1], id, day);
    }
  }

  // ----- Replies -----

  /** The reply to a request for a card with an account, when so much counts against its limit. */
  predicate AnswersWith(a: Account, q: AuthRequest, spent: int, reply: Reply) {
    && (reply.Approved? <==> q.amount <= q.cap && q.amount <= a.balance && spent + q.amount <= a.dailyLimit)
    && (reply.Approved? ==> reply.balanceAfter == a.balance - q.amount)
    && (reply == Declined(NotSufficientFunds) <==> q.amount <= q.cap && a.balance < q.amount)
    && (reply == Declined(ExceedsLimit) <==>
          q.amount > q.cap || (q.amount <= a.balance && spent + q.amount > a.dailyLimit))
  }

  /** An account's reply, if the card has an account, and otherwise that the card is invalid. */
  predicate Answers(db: Db, q: AuthRequest, check: nat, reply: Reply) {
    if q.pan in db.cards && db.cards[q.pan].accountId in db.accounts then
      var id := db.cards[q.pan].accountId;
      AnswersWith(db.accounts[id], q, SpentFrom(db.rows, id, check / 86_400_000), reply)
    else reply == Declined(InvalidCard)
  }

  lemma AuthorizeAnswers(db: Db, q: AuthRequest, check: nat, stamp: nat)
    ensures Answers(db, q, check, Authorize(db, q, check, stamp).1)
  {
    if HasAccount(db, q.pan) {
      SumIsSpent(db.rows, db.cards[q.pan].accountId, check);
    }
  }

  /**
   * A request is approved if and only if it is within the switch's cap, the balance, and what is left of the day's
   * limit: the limit is that of the check's own UTC day, whatever was spent on earlier ones.
   */
  lemma ApprovedExactly(db: Db, q: AuthRequest, check: nat, stamp: nat)
    requires q.pan in db.cards && db.cards[q.pan].accountId in db.accounts
    requires NoneAfter(db.rows, db.cards[q.pan].accountId, check / 86_400_000)
    ensures var id := db.cards[q.pan].accountId;
            AnswersWith(db.accounts[id], q, SpentOn(db.rows, id, check / 86_400_000), Authorize(db, q, check, stamp).1)
    ensures var id := db.cards[q.pan].accountId;
            Sum(db.rows, OnDay(id, check / 86_400_000)) == SpentOn(db.rows, id, check / 86_400_000)
  {
    var id := db.cards[q.pan].accountId;
    AuthorizeAnswers(db, q, check, stamp);
    FromThatDay(db.rows, id, check / 86_400_000);
    DaySumIsSpent(db.rows, id, check / 86_400_000);
  }

  /** On a day without withdrawals the whole limit is there again. */
  lemma NewDayNewLimit(db: Db, q: AuthRequest, check: nat, stamp: nat)
    requires q.pan in db.cards && db.cards[q.pan].accountId in db.accounts
    requires NoneSince(db.rows, db.cards[q.pan].accountId, check / 86_400_000)
    ensures var a := db.accounts[db.cards[q.pan].accountId];
            Authorize(db, q, check, stamp).1 == Approved(a.balance - q.amount) <==>
            q.amount <= q.cap && q.amount <= a.balance && q.amount <= a.dailyLimit
  {
    AuthorizeAnswers(db, q, check, stamp);
    NothingSpent(db.rows, db.cards[q.pan].accountId, check / 86_400_000);
  }

  // ----- What is written -----

  /** Only this account has changed: so much has left it, and counts against its cached day. */
  predicate Charged(db: Db, db': Db, id: string, amount: int) {
    && db'.cards == db.cards && id in db.accounts && db'.accounts.Keys == db.accounts.Keys
    && db'.accounts[id].balance == db.accounts[id].balance - amount
    && db'.accounts[id].dailyWithdrawn == db.accounts[id].dailyWithdrawn + amount
    && db'.accounts[id].dailyLimit == db.accounts[id].dailyLimit && db'.accounts[id].active == db.accounts[id].active
    && forall other :: other in db.accounts && other != id ==> db'.accounts[other] == db.accounts[other]
  }

  /** An approval charges the card's account and adds one COMPLETED row of the request; a refusal changes nothing. */
  lemma AuthorizeWrites(db: Db, q: AuthRequest, check: nat, stamp: nat)
    ensures var (db', reply) := Authorize(db, q, check, stamp);
            && (!reply.Approved? ==> db' == db)
            && (reply.Approved? ==>
                  && q.pan in db.cards && Charged(db, db', db.cards[q.pan].accountId, q.amount)
                  && |db'.rows| == |db.rows| + 1 && db'.rows[..|db.rows|] == db.rows
                  && var row := db'.rows[|db.rows|];
                     && row.sessionId == q.sessionId && row.pan == q.pan && row.accountId == db.cards[q.pan].accountId
                     && row.amount == q.amount && row.status == Completed && row.stan == q.stan
                     && row.createdAt == stamp)
  {
  }

  /**
   * A reversal gives the amount back, marks as REVERSED the rows that are COMPLETED under its trace number, which
   * otherwise stay as they are, and adds one REVERSED row; for an account that does not exist it changes nothing.
   */
  lemma ReverseWrites(db: Db, v: Reversal, stamp: nat)
    ensures var (db', reply) := Reverse(db, v, stamp);
            && (v.accountId !in db.accounts ==> db' == db && reply == Aborted)
            && (v.accountId in db.accounts ==>
                  && reply == Undone && Charged(db, db', v.accountId, -v.amount)
                  && |db'.rows| == |db.rows| + 1
                  && (forall i :: 0 <= i < |db.rows| ==>
                        && db'.rows[i].(status := db.rows[i].status) == db.rows[i]
                        && (db'.rows[i].status == Reversed <==>
                              db.rows[i].status == Reversed || db.rows[i].stan == v.stan))
                  && var row := db'.rows[|db.rows|];
                     && row.sessionId == v.sessionId && row.pan == v.pan && row.accountId == v.accountId
                     && row.amount == v.amount && row.status == Reversed && row.stan == v.stan
                     && row.createdAt == stamp)
  {
  }

  /** A trace number is the last six digits of its counter. */
  lemma StanText(n: nat)
    ensures var s := FormatStan(n);
            |s| == 6 && Decimal.AllDigits(s) && Decimal.Read(s) == n % 1_000_000
  {
    Decimal.ReadPadded(n % 1_000_000, 6);
    SixDigits(n % 1_000_000);
  }

  lemma SixDigits(n: nat)
    requires n < 1_000_000
    ensures |Decimal.PadStart(Decimal.Show(n), 6, '0')| == 6
  {
    assert Decimal.Pow10(6) == 1_000_000;
    Decimal.ShowWidth(n, 6);
  }
}
