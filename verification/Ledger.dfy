/**
 * The host's tables and the atomic meaning of its three money and card operations.
 * A day is a UTC day; instants are milliseconds since the epoch.
 */
module Ledger {
  import opened Common
  import Decimal

  datatype CardStatus = Active | Blocked | Retained

  datatype Card = Card(accountId: string, status: CardStatus, failedPinCount: nat, pin: string, expiry: string)

  datatype Account = Account(balance: int, dailyWithdrawn: int, dailyLimit: int, active: bool)

  datatype RowStatus = Completed | Reversed

  /** One WITHDRAWAL row of the transaction table. */
  datatype Row = Row(sessionId: string, pan: string, accountId: string, amount: int,
                     status: RowStatus, stan: string, createdAt: nat)

  datatype Db = Db(cards: map<string, Card>, accounts: map<string, Account>, rows: seq<Row>)

  /** ISO 8583 response codes (field 39) that the host returns. */
  datatype Code =
    | Approved00 | InvalidCard | CardBlocked | RestrictedCard | ExpiredCard | NoCardRecord
    | NotSufficientFunds | ExceedsLimit | IncorrectPin | PinTriesExceeded

  datatype AuthRequest = AuthRequest(pan: string, amount: int, cap: int, sessionId: string, stan: string)

  datatype Reversal = Reversal(stan: string, sessionId: string, pan: string, accountId: string, amount: int)

  datatype Reply = Approved(balanceAfter: int) | Declined(code: Code) | Undone | Aborted

  const DAY: nat := 86_400_000

  function StartOfDay(t: nat): nat { t - t % DAY }

  function DayOf(t: nat): nat { t / DAY }

  // ----- Sums over the transaction table -----

  /** A selection of rows: one account, in a time window. */
  datatype Window = Since(acct: string, start: nat) | OnDay(acct: string, day: nat) | Ever(acct: string)

  predicate Selects(w: Window, r: Row) {
    && r.status == Completed
    && r.accountId == w.acct
    && match w
       case Since(_, start) => r.createdAt >= start
       case OnDay(_, day) => DayOf(r.createdAt) == day
       case Ever(_) => true
  }

  function Share(w: Window, r: Row): int { if Selects(w, r) then r.amount else 0 }

  /** SUM(amount) over the COMPLETED rows that the window selects. */
  function Sum(rows: seq<Row>, w: Window): int {
    if rows == [] then 0 else Sum(rows[..|rows| - 1], w) + Share(w, rows[|rows| - 1])
  }

  lemma SumAppend(rows: seq<Row>, r: Row, w: Window)
    ensures Sum(rows + [r], w) == Sum(rows, w) + Share(w, r)
  {
    assert (rows + [r])[..|rows|] == rows;
  }

  /** Two tables that agree, row by row, on what the window counts have the same sum. */
  lemma {:induction false} SumAgree(a: seq<Row>, b: seq<Row>, w: Window)
    requires |a| == |b|
    requires forall i :: 0 <= i < |a| ==> Share(w, a[i]) == Share(w, b[i])
    ensures Sum(a, w) == Sum(b, w)
  {
    if a != [] {
      SumAgree(a[..|a| - 1], b[..|b| - 1], w);
    }
  }

  /** A window that counts no more of any row has no larger a sum. */
  lemma {:induction false} SumMonotone(rows: seq<Row>, w: Window, v: Window)
    requires forall i :: 0 <= i < |rows| ==> Share(w, rows[i]) <= Share(v, rows[i])
    ensures Sum(rows, w) <= Sum(rows, v)
  {
    if rows != [] {
      SumMonotone(rows[..|rows| - 1], w, v);
    }
  }

  // ----- Operations, as one atomic step each -----

  predicate HasAccount(db: Db, pan: string) {
    pan in db.cards && db.cards[pan].accountId in db.accounts
  }

  function Debit(a: Account, amount: int): Account {
    a.(balance := a.balance - amount, dailyWithdrawn := a.dailyWithdrawn + amount)
  }

  /** An authorisation: `check` is the instant of the limit check, `stamp` that of the insert. */
  function Authorize(db: Db, q: AuthRequest, check: nat, stamp: nat): (Db, Reply) {
    if !HasAccount(db, q.pan) then (db, Declined(InvalidCard))
    else if q.amount > q.cap then (db, Declined(ExceedsLimit))
    else
      var id := db.cards[q.pan].accountId;
      var a := db.accounts[id];
      if a.balance < q.amount then (db, Declined(NotSufficientFunds))
      else if Sum(db.rows, Since(id, StartOfDay(check))) + q.amount > a.dailyLimit then
        (db, Declined(ExceedsLimit))
      else
        (db.(accounts := db.accounts[id := Debit(a, q.amount)],
             rows := db.rows + [Row(q.sessionId, q.pan, id, q.amount, Completed, q.stan, stamp)]),
         Approved(a.balance - q.amount))
  }

  predicate Hit(r: Row, stan: string) { r.stan == stan && r.status == Completed }

  function FlipRow(r: Row, stan: string): Row { if Hit(r, stan) then r.(status := Reversed) else r }

  /** `updateMany where stanNo and COMPLETED set REVERSED`. */
  function Flip(rows: seq<Row>, stan: string): (f: seq<Row>)
    ensures |f| == |rows|
    ensures forall i :: 0 <= i < |rows| ==> f[i] == FlipRow(rows[i], stan)
  {
    seq(|rows|, i requires 0 <= i < |rows| => FlipRow(rows[i], stan))
  }

  function ReversalRow(v: Reversal, stamp: nat): Row {
    Row(v.sessionId, v.pan, v.accountId, v.amount, Reversed, v.stan, stamp)
  }

  /** A reversal; a missing account aborts the whole transaction. */
  function Reverse(db: Db, v: Reversal, stamp: nat): (Db, Reply) {
    if v.accountId !in db.accounts then (db, Aborted)
    else
      (db.(accounts := db.accounts[v.accountId := Debit(db.accounts[v.accountId], -v.amount)],
           rows := Flip(db.rows, v.stan) + [ReversalRow(v, stamp)]),
       Undone)
  }

  // ----- Serial histories -----

  datatype Op = AuthOp(q: AuthRequest, check: nat, stamp: nat) | RevOp(v: Reversal, at: nat)

  function Apply(db: Db, op: Op): (Db, Reply) {
    match op
    case AuthOp(q, check, stamp) => Authorize(db, q, check, stamp)
    case RevOp(v, at) => Reverse(db, v, at)
  }

  /** The tables after running the operations one at a time. */
  function Run(db: Db, ops: seq<Op>): Db {
    if ops == [] then db else Apply(Run(db, ops[..|ops| - 1]), ops[|ops| - 1]).0
  }

  lemma RunSnoc(db: Db, ops: seq<Op>, op: Op)
    ensures Run(db, ops + [op]) == Apply(Run(db, ops), op).0
  {
    assert (ops + [op])[..|ops|] == ops;
  }

  // ----- Limits: no negative balance, no day above the limit -----

  ghost predicate WithinLimits(db: Db) {
    && (forall id | id in db.accounts :: db.accounts[id].balance >= 0)
    && (forall id, day: nat | id in db.accounts :: Sum(db.rows, OnDay(id, day)) <= db.accounts[id].dailyLimit)
    && (forall i | 0 <= i < |db.rows| :: db.rows[i].amount > 0)
  }

  /** Amounts are positive, and a row is stamped no earlier than its limit check read the clock. */
  predicate Lawful(op: Op) {
    match op
    case AuthOp(q, check, stamp) => q.amount > 0 && check <= stamp
    case RevOp(v, _) => v.amount > 0
  }

  /**
   * Midnight between check and insert does no harm: whatever day the new row lands on, the rows
   * of that day were all counted by the check.
   */
  lemma AuthorizeWithinLimits(db: Db, q: AuthRequest, check: nat, stamp: nat)
    requires WithinLimits(db) && q.amount > 0 && check <= stamp
    ensures WithinLimits(Authorize(db, q, check, stamp).0)
  {
    var (db', reply) := Authorize(db, q, check, stamp);
    if reply.Approved? {
      var id := db.cards[q.pan].accountId;
      var row := db'.rows[|db.rows|];
      forall a, day: nat | a in db'.accounts
        ensures Sum(db'.rows, OnDay(a, day)) <= db'.accounts[a].dailyLimit
      {
        SumAppend(db.rows, row, OnDay(a, day));
        assert Sum(db.rows, OnDay(a, day)) <= db.accounts[a].dailyLimit;
        if a == id && day == DayOf(stamp) {
          forall i | 0 <= i < |db.rows|
            ensures Share(OnDay(a, day), db.rows[i]) <= Share(Since(id, StartOfDay(check)), db.rows[i])
          {
            assert db.rows[i].amount > 0;
          }
          SumMonotone(db.rows, OnDay(a, day), Since(id, StartOfDay(check)));
        }
      }
    }
  }

  lemma {:induction false} FlipLowers(rows: seq<Row>, stan: string, w: Window)
    requires forall i | 0 <= i < |rows| :: rows[i].amount > 0
    ensures Sum(Flip(rows, stan), w) <= Sum(rows, w)
  {
    if rows != [] {
      var n := |rows| - 1;
      assert Flip(rows, stan)[..n] == Flip(rows[..n], stan);
      FlipLowers(rows[..n], stan, w);
    }
  }

  lemma ReverseWithinLimits(db: Db, v: Reversal, stamp: nat)
    requires WithinLimits(db) && v.amount > 0
    ensures WithinLimits(Reverse(db, v, stamp).0)
  {
    var (db', reply) := Reverse(db, v, stamp);
    if reply.Undone? {
      forall a, day: nat | a in db'.accounts
        ensures Sum(db'.rows, OnDay(a, day)) <= db'.accounts[a].dailyLimit
      {
        SumAppend(Flip(db.rows, v.stan), ReversalRow(v, stamp), OnDay(a, day));
        FlipLowers(db.rows, v.stan, OnDay(a, day));
        assert Sum(db.rows, OnDay(a, day)) <= db.accounts[a].dailyLimit;
      }
    }
  }

  /** Every serial history keeps the limits. */
  lemma {:induction false} RunWithinLimits(db: Db, ops: seq<Op>)
    requires WithinLimits(db)
    requires forall i | 0 <= i < |ops| :: Lawful(ops[i])
    ensures WithinLimits(Run(db, ops))
  {
    if ops != [] {
      var n := |ops| - 1;
      RunWithinLimits(db, ops[..n]);
      assert Lawful(ops[n]);
      match ops[n]
      case AuthOp(q, check, stamp) => AuthorizeWithinLimits(Run(db, ops[..n]), q, check, stamp);
      case RevOp(v, at) => ReverseWithinLimits(Run(db, ops[..n]), v, at);
    }
  }

  // ----- Conservation: balances against COMPLETED rows -----

  /**
   * Each balance is its start less the COMPLETED sum, and the cached counter is its start plus it.
   * Every row belongs to an account.
   */
  ghost predicate Conserved(start: map<string, Account>, db: Db) {
    && db.accounts.Keys == start.Keys
    && (forall i | 0 <= i < |db.rows| :: db.rows[i].accountId in start)
    && forall id | id in start ::
         && db.accounts[id].balance == start[id].balance - Sum(db.rows, Ever(id))
         && db.accounts[id].dailyWithdrawn == start[id].dailyWithdrawn + Sum(db.rows, Ever(id))
  }

  /** Row `i` is the approved, not yet reversed authorisation that the reversal names. */
  predicate Names(db: Db, v: Reversal, i: nat) {
    && i < |db.rows|
    && Hit(db.rows[i], v.stan)
    && db.rows[i].accountId == v.accountId
    && db.rows[i].amount == v.amount
  }

  /** No other COMPLETED row carries the trace number of row `i`. */
  ghost predicate OnlyHit(rows: seq<Row>, stan: string, i: nat) {
    forall k | 0 <= k < |rows| && Hit(rows[k], stan) :: k == i
  }

  /** What a flip takes out of a window: the share of the rows it hits. */
  function FlipLoss(rows: seq<Row>, stan: string, w: Window): int {
    if rows == [] then 0
    else
      var r := rows[|rows| - 1];
      FlipLoss(rows[..|rows| - 1], stan, w) + (if Hit(r, stan) then Share(w, r) else 0)
  }

  lemma {:induction false} SumFlip(rows: seq<Row>, stan: string, w: Window)
    ensures Sum(Flip(rows, stan), w) == Sum(rows, w) - FlipLoss(rows, stan, w)
  {
    if rows != [] {
      var n := |rows| - 1;
      assert Flip(rows, stan)[..n] == Flip(rows[..n], stan);
      SumFlip(rows[..n], stan, w);
    }
  }

  lemma {:induction false} FlipLossNone(rows: seq<Row>, stan: string, w: Window)
    requires forall k | 0 <= k < |rows| :: !Hit(rows[k], stan)
    ensures FlipLoss(rows, stan, w) == 0
  {
    if rows != [] {
      FlipLossNone(rows[..|rows| - 1], stan, w);
    }
  }

  lemma {:induction false} FlipLossOne(rows: seq<Row>, stan: string, i: nat, w: Window)
    requires i < |rows| && Hit(rows[i], stan) && OnlyHit(rows, stan, i)
    ensures FlipLoss(rows, stan, w) == Share(w, rows[i])
  {
    var n := |rows| - 1;
    if i == n {
      FlipLossNone(rows[..n], stan, w);
    } else {
      assert !Hit(rows[n], stan);
      FlipLossOne(rows[..n], stan, i, w);
    }
  }

  lemma AuthorizeConserves(start: map<string, Account>, db: Db, q: AuthRequest, check: nat, stamp: nat)
    requires Conserved(start, db)
    ensures Conserved(start, Authorize(db, q, check, stamp).0)
  {
    var (db', reply) := Authorize(db, q, check, stamp);
    if reply.Approved? {
      forall id | id in start
        ensures Sum(db'.rows, Ever(id)) ==
                Sum(db.rows, Ever(id)) + (if id == db.cards[q.pan].accountId then q.amount else 0)
      {
        SumAppend(db.rows, db'.rows[|db.rows|], Ever(id));
      }
    }
  }

  lemma ReverseConserves(start: map<string, Account>, db: Db, v: Reversal, stamp: nat, i: nat)
    requires Conserved(start, db) && Names(db, v, i) && OnlyHit(db.rows, v.stan, i)
    ensures Conserved(start, Reverse(db, v, stamp).0)
  {
    var (db', reply) := Reverse(db, v, stamp);
    if reply.Undone? {
      forall id | id in start
        ensures Sum(db'.rows, Ever(id)) ==
                Sum(db.rows, Ever(id)) - (if id == v.accountId then v.amount else 0)
      {
        SumAppend(Flip(db.rows, v.stan), ReversalRow(v, stamp), Ever(id));
        SumFlip(db.rows, v.stan, Ever(id));
        FlipLossOne(db.rows, v.stan, i, Ever(id));
      }
    }
  }

  lemma {:induction false} FlipLossAtLeast(rows: seq<Row>, stan: string, i: nat, w: Window)
    requires i < |rows| && Hit(rows[i], stan)
    requires forall k | 0 <= k < |rows| :: rows[k].amount > 0
    ensures FlipLoss(rows, stan, w) >= Share(w, rows[i])
  {
    var n := |rows| - 1;
    if i < n {
      FlipLossAtLeast(rows[..n], stan, i, w);
    } else {
      FlipLossNonNegative(rows[..n], stan, w);
    }
  }

  lemma {:induction false} FlipLossNonNegative(rows: seq<Row>, stan: string, w: Window)
    requires forall k | 0 <= k < |rows| :: rows[k].amount > 0
    ensures FlipLoss(rows, stan, w) >= 0
  {
    if rows != [] {
      FlipLossNonNegative(rows[..|rows| - 1], stan, w);
    }
  }

  lemma {:induction false} FlipLossTwo(rows: seq<Row>, stan: string, i: nat, j: nat, w: Window)
    requires i < j < |rows| && Hit(rows[i], stan) && Hit(rows[j], stan)
    requires forall k | 0 <= k < |rows| :: rows[k].amount > 0
    ensures FlipLoss(rows, stan, w) >= Share(w, rows[i]) + Share(w, rows[j])
  {
    var n := |rows| - 1;
    if j < n {
      FlipLossTwo(rows[..n], stan, i, j, w);
    } else {
      FlipLossAtLeast(rows[..n], stan, i, w);
    }
  }

  /** A second row of the trace number: its account loses more rows than it is credited for. */
  lemma SecondRowLost(rows: seq<Row>, v: Reversal, stamp: nat, i: nat, k: nat)
    requires i < |rows| && k < |rows| && i != k && Hit(rows[i], v.stan) && Hit(rows[k], v.stan)
    requires rows[i].accountId == v.accountId && rows[i].amount == v.amount
    requires forall m | 0 <= m < |rows| :: rows[m].amount > 0
    ensures var id := rows[k].accountId;
            Sum(Flip(rows, v.stan) + [ReversalRow(v, stamp)], Ever(id)) <
            Sum(rows, Ever(id)) - (if id == v.accountId then v.amount else 0)
  {
    var w := Ever(rows[k].accountId);
    SumAppend(Flip(rows, v.stan), ReversalRow(v, stamp), w);
    SumFlip(rows, v.stan, w);
    FlipLossTwo(rows, v.stan, if i < k then i else k, if i < k then k else i, w);
  }

  lemma SecondRowBreaks(start: map<string, Account>, db: Db, v: Reversal, stamp: nat, i: nat, k: nat)
    requires Conserved(start, db) && Names(db, v, i) && k < |db.rows| && Hit(db.rows[k], v.stan) && k != i
    requires forall m | 0 <= m < |db.rows| :: db.rows[m].amount > 0
    ensures !Conserved(start, Reverse(db, v, stamp).0)
  {
    var db', id := Reverse(db, v, stamp).0, db.rows[k].accountId;
    SecondRowLost(db.rows, v, stamp, i, k);
    assert db'.accounts[id].balance <= db.accounts[id].balance + (if id == v.accountId then v.amount else 0);
    assert db.accounts[id].balance == start[id].balance - Sum(db.rows, Ever(id));
  }

  /**
   * Exactly when a reversal keeps the books: on a conserved table of positive amounts, reversing
   * row `i` keeps every balance equal to start less COMPLETED sum if and only if no other
   * COMPLETED row carries the same trace number.
   */
  lemma ReversalExact(start: map<string, Account>, db: Db, v: Reversal, stamp: nat, i: nat)
    requires Conserved(start, db) && Names(db, v, i)
    requires forall k | 0 <= k < |db.rows| :: db.rows[k].amount > 0
    ensures Conserved(start, Reverse(db, v, stamp).0) <==> OnlyHit(db.rows, v.stan, i)
  {
    if k :| 0 <= k < |db.rows| && Hit(db.rows[k], v.stan) && k != i {
      SecondRowBreaks(start, db, v, stamp, i, k);
    } else {
      ReverseConserves(start, db, v, stamp, i);
    }
  }

  // ----- Trace numbers -----

  function FormatStan(n: nat): string { Decimal.PadStart(Decimal.Show(n % 1_000_000), 6, '0') }

  /** Two counter values share a trace number exactly when they differ by a multiple of a million. */
  lemma FormatStanInjective(m: nat, n: nat)
    ensures FormatStan(m) == FormatStan(n) <==> m % 1_000_000 == n % 1_000_000
  {
    Decimal.ReadPadded(m % 1_000_000, 6);
    Decimal.ReadPadded(n % 1_000_000, 6);
  }

  /** The trace numbers of the authorisations in a history are pairwise different. */
  ghost predicate DistinctStans(ops: seq<Op>) {
    forall i, j | 0 <= i < j < |ops| && ops[i].AuthOp? && ops[j].AuthOp? :: ops[i].q.stan != ops[j].q.stan
  }

  /** Every reversal in the history names a row that is COMPLETED when it runs. */
  ghost predicate ReversalsName(db: Db, ops: seq<Op>) {
    forall k | 0 <= k < |ops| && ops[k].RevOp? :: exists i: nat :: Names(Run(db, ops[..k]), ops[k].v, i)
  }

  /** Every COMPLETED row carries the trace number of an authorisation of the history, one row each. */
  ghost predicate RowsFromOps(rows: seq<Row>, ops: seq<Op>) {
    && (forall i | 0 <= i < |rows| && rows[i].status == Completed ::
          exists k :: 0 <= k < |ops| && ops[k].AuthOp? && ops[k].q.stan == rows[i].stan)
    && (forall i, j | 0 <= i < j < |rows| && rows[i].status == Completed && rows[j].status == Completed ::
          rows[i].stan != rows[j].stan)
  }

  lemma RowsFromOpsSnoc(db: Db, ops: seq<Op>, op: Op)
    requires RowsFromOps(db.rows, ops) && DistinctStans(ops + [op])
    ensures RowsFromOps(Apply(db, op).0.rows, ops + [op])
  {
    var rows := Apply(db, op).0.rows;
    var all := ops + [op];
    forall i | 0 <= i < |rows| && rows[i].status == Completed
      ensures exists k :: 0 <= k < |all| && all[k].AuthOp? && all[k].q.stan == rows[i].stan
    {
      if i < |db.rows| {
        var k :| 0 <= k < |ops| && ops[k].AuthOp? && ops[k].q.stan == db.rows[i].stan;
        assert all[k] == ops[k];
      } else {
        assert all[|ops|] == op;
      }
    }
    forall i, j | 0 <= i < j < |rows| && rows[i].status == Completed && rows[j].status == Completed
      ensures rows[i].stan != rows[j].stan
    {
      if j >= |db.rows| {
        var k :| 0 <= k < |ops| && ops[k].AuthOp? && ops[k].q.stan == db.rows[i].stan;
        assert all[k] == ops[k] && all[|ops|] == op;
      }
    }
  }

  /**
   * Conservation over every history from an empty table: with distinct trace numbers and
   * reversals that name live approvals, every balance is its start less its COMPLETED sum.
   */
  lemma {:induction false} RunConserves(db: Db, ops: seq<Op>)
    requires db.rows == [] && DistinctStans(ops) && ReversalsName(db, ops)
    ensures Conserved(db.accounts, Run(db, ops)) && RowsFromOps(Run(db, ops).rows, ops)
  {
    if ops != [] {
      var n := |ops| - 1;
      var before := Run(db, ops[..n]);
      assert ReversalsName(db, ops[..n]) by {
        forall k | 0 <= k < n && ops[k].RevOp? ensures exists i: nat :: Names(Run(db, ops[..n][..k]), ops[k].v, i) {
          assert ops[..n][..k] == ops[..k];
        }
      }
      RunConserves(db, ops[..n]);
      assert ops[..n] + [ops[n]] == ops;
      RowsFromOpsSnoc(before, ops[..n], ops[n]);
      match ops[n]
      case AuthOp(q, check, stamp) => AuthorizeConserves(db.accounts, before, q, check, stamp);
      case RevOp(v, at) =>
        var i: nat :| Names(before, v, i);
        ReverseConserves(db.accounts, before, v, at, i);
    }
  }

  /** In such a history each reversal turns exactly one COMPLETED row, the one it names, to REVERSED. */
  lemma ReversalFlipsOneRow(db: Db, ops: seq<Op>, k: nat) returns (i: nat)
    requires db.rows == [] && DistinctStans(ops) && ReversalsName(db, ops)
    requires k < |ops| && ops[k].RevOp?
    ensures var before, after := Run(db, ops[..k]), Run(db, ops[..k + 1]);
            && Names(before, ops[k].v, i)
            && |after.rows| == |before.rows| + 1
            && after.rows[i] == before.rows[i].(status := Reversed)
            && (forall m | 0 <= m < |before.rows| && m != i :: after.rows[m] == before.rows[m])
            && after.rows[|before.rows|].status == Reversed
  {
    var before := Run(db, ops[..k]);
    i :| Names(before, ops[k].v, i);
    assert ReversalsName(db, ops[..k]) by {
      forall m | 0 <= m < k && ops[m].RevOp? ensures exists x: nat :: Names(Run(db, ops[..k][..m]), ops[m].v, x) {
        assert ops[..k][..m] == ops[..m];
      }
    }
    RunConserves(db, ops[..k]);
    assert ops[..k + 1] == ops[..k] + [ops[k]];
    RunSnoc(db, ops[..k], ops[k]);
    assert OnlyHit(before.rows, ops[k].v.stan, i);
  }
}
