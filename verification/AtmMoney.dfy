/** Money over every run of ATM sessions: what accounts lose is what leaves the cassettes. */
module AtmMoney {
  import opened Common
  import opened Ledger
  import opened HostEmulator
  import opened AtmSession
  import opened AtmRuns
  import Cash = CashDispenser

  // ----- The sum of all balances -----

  ghost function Total(m: map<string, Account>): int
    decreases |m|
  {
    if m == map[] then 0
    else
      var id :| id in m;
      m[id].balance + Total(m - {id})
  }

  lemma {:induction false} TotalWithout(m: map<string, Account>, id: string)
    requires id in m
    ensures Total(m) == m[id].balance + Total(m - {id})
    decreases |m|
  {
    var k :| k in m && Total(m) == m[k].balance + Total(m - {k});
    if k != id {
      TotalWithout(m - {k}, id);
      TotalWithout(m - {id}, k);
      assert m - {k} - {id} == m - {id} - {k};
    }
  }

  lemma TotalUpdate(m: map<string, Account>, id: string, a: Account)
    requires id in m
    ensures Total(m[id := a]) == Total(m) - m[id].balance + a.balance
  {
    TotalWithout(m, id);
    TotalWithout(m[id := a], id);
    assert m[id := a] - {id} == m - {id};
  }

  // ----- Trace numbers issued so far -----

  predicate IssuedBy(stan: string, k: nat) { k >= 1 && stan == FormatStan(k) }

  /** COMPLETED rows carry trace numbers from the counter, each its own. */
  ghost predicate StansOk(h: Host) {
    && (forall i | 0 <= i < |h.db.rows| && h.db.rows[i].status == Completed ::
          exists k: nat :: k < h.nextStan && IssuedBy(h.db.rows[i].stan, k))
    && (forall i, j | 0 <= i < j < |h.db.rows| && h.db.rows[i].status == h.db.rows[j].status == Completed ::
          h.db.rows[i].stan != h.db.rows[j].stan)
  }

  /** Every account's balance agrees with its rows, and trace numbers with the counter. */
  ghost predicate Balanced(start: map<string, Account>, h: Host) {
    Conserved(start, h.db) && StansOk(h) && h.nextStan >= 1
  }

  /** Within a million trace numbers the next one is new. */
  lemma NextStanIsNew(h: Host)
    requires StansOk(h) && 1 <= h.nextStan <= 1_000_000
    ensures forall i | 0 <= i < |h.db.rows| && h.db.rows[i].status == Completed ::
              h.db.rows[i].stan != FormatStan(h.nextStan)
  {
    forall i | 0 <= i < |h.db.rows| && h.db.rows[i].status == Completed
      ensures h.db.rows[i].stan != FormatStan(h.nextStan)
    {
      var k: nat :| k < h.nextStan && IssuedBy(h.db.rows[i].stan, k);
      LaterIsNew(h.db.rows[i].stan, k, h.nextStan);
    }
  }

  lemma LaterIsNew(stan: string, k: nat, n: nat)
    requires IssuedBy(stan, k) && k < n <= 1_000_000
    ensures stan != FormatStan(n)
  {
    ResiduesDiffer(k, n);
    FormatStanInjective(k, n);
  }

  lemma ResiduesDiffer(k: nat, n: nat)
    requires 1 <= k < n <= 1_000_000
    ensures k % 1_000_000 != n % 1_000_000
  {
  }

  lemma AuthorizeStans(h: Host, q: AuthRequest, check: nat, stamp: nat)
    requires StansOk(h) && 1 <= h.nextStan <= 1_000_000 && q.stan == FormatStan(h.nextStan)
    ensures StansOk(Host(Authorize(h.db, q, check, stamp).0, h.nextStan + 1))
  {
    NextStanIsNew(h);
    var (db, reply) := Authorize(h.db, q, check, stamp);
    forall i | 0 <= i < |db.rows| && db.rows[i].status == Completed
      ensures exists k: nat :: k < h.nextStan + 1 && IssuedBy(db.rows[i].stan, k)
    {
      if i < |h.db.rows| {
        var k: nat :| k < h.nextStan && IssuedBy(h.db.rows[i].stan, k);
        assert k < h.nextStan + 1 && IssuedBy(db.rows[i].stan, k);
      } else {
        assert IssuedBy(db.rows[i].stan, h.nextStan);
      }
    }
  }

  lemma ReverseStans(h: Host, v: Reversal, at: nat)
    requires StansOk(h)
    ensures StansOk(Host(Reverse(h.db, v, at).0, h.nextStan))
  {
    var db := Reverse(h.db, v, at).0;
    forall i | 0 <= i < |db.rows| && db.rows[i].status == Completed
      ensures i < |h.db.rows| && h.db.rows[i].status == Completed && h.db.rows[i].stan == db.rows[i].stan
    {
    }
  }

  // ----- One withdrawal -----

  /** An approval debits the card's account by the amount, and the bank's total with it. */
  lemma ApprovalDebits(db: Db, q: AuthRequest, check: nat, stamp: nat)
    requires Authorize(db, q, check, stamp).1.Approved?
    ensures Total(Authorize(db, q, check, stamp).0.accounts) == Total(db.accounts) - q.amount
  {
    var id := db.cards[q.pan].accountId;
    TotalUpdate(db.accounts, id, Debit(db.accounts[id], q.amount));
  }

  /** The reversal of a fresh approval names its row, and no other row carries its trace number. */
  lemma ReversalNamesApproval(h: Host, q: AuthRequest, v: Reversal, check: nat, stamp: nat)
    requires StansOk(h) && 1 <= h.nextStan <= 1_000_000 && q.stan == FormatStan(h.nextStan)
    requires Authorize(h.db, q, check, stamp).1.Approved?
    requires v.stan == q.stan && v.accountId == h.db.cards[q.pan].accountId && v.amount == q.amount
    ensures var db := Authorize(h.db, q, check, stamp).0;
            Names(db, v, |h.db.rows|) && OnlyHit(db.rows, v.stan, |h.db.rows|)
  {
    NextStanIsNew(h);
  }

  /** Reversing an approval puts every account back, whatever its trace number. */
  lemma ReversalRestores(db: Db, q: AuthRequest, v: Reversal, check: nat, stamp: nat, at: nat)
    requires Authorize(db, q, check, stamp).1.Approved?
    requires v.accountId == db.cards[q.pan].accountId && v.amount == q.amount
    ensures Reverse(Authorize(db, q, check, stamp).0, v, at).0.accounts == db.accounts
  {
  }

  /** With a trace number not used before, the books balance as well. */
  lemma ReversalBalances(
    start: map<string, Account>, h: Host, q: AuthRequest, v: Reversal, check: nat, stamp: nat, at: nat)
    requires Conserved(start, h.db) && StansOk(h) && 1 <= h.nextStan <= 1_000_000 && q.stan == FormatStan(h.nextStan)
    requires Authorize(h.db, q, check, stamp).1.Approved?
    requires v.stan == q.stan && v.accountId == h.db.cards[q.pan].accountId && v.amount == q.amount
    ensures var db := Reverse(Authorize(h.db, q, check, stamp).0, v, at).0;
            Balanced(start, Host(db, h.nextStan + 1))
  {
    var db := Authorize(h.db, q, check, stamp).0;
    assert StansOk(Host(Reverse(db, v, at).0, h.nextStan + 1)) by {
      AuthorizeStans(h, q, check, stamp);
      ReverseStans(Host(db, h.nextStan + 1), v, at);
    }
    assert Conserved(start, Reverse(db, v, at).0) by {
      AuthorizeConserves(start, h.db, q, check, stamp);
      ReversalNamesApproval(h, q, v, check, stamp);
      ReverseConserves(start, db, v, at, |h.db.rows|);
    }
  }

  function PaidIn(e: Event): int { if e.DispenseIssued? && e.paid then e.amount else 0 }

  /** The sum of all successful dispenses in the journal. */
  function PaidSum(j: seq<Event>): int {
    if j == [] then 0 else PaidSum(j[..|j| - 1]) + PaidIn(j[|j| - 1])
  }

  lemma PaidSumSnoc(j: seq<Event>, e: Event)
    ensures PaidSum(j + [e]) == PaidSum(j) + PaidIn(e)
  {
    assert (j + [e])[..|j|] == j;
  }

  /** How far account totals, cassettes and journal have moved together from one state to another. */
  ghost predicate MovedTogether(a: Atm, b: Atm) {
    var paid := PaidSum(b.journal) - PaidSum(a.journal);
    && Total(b.host.db.accounts) == Total(a.host.db.accounts) - paid
    && Cash.Value(b.cdm.units) == Cash.Value(a.cdm.units) - paid
  }

  lemma PaidSumWithdrawal(j: seq<Event>, sid: nat, stan: string, amount: int)
    ensures PaidSum(j + [AuthApproved(sid, stan, amount), DispenseIssued(sid, amount, true)]) == PaidSum(j) + amount
    ensures PaidSum(
              j + [AuthApproved(sid, stan, amount), DispenseIssued(sid, amount, false),
                   ReversalIssued(sid, stan, amount)])
            == PaidSum(j)
  {
    var e1, e2 := AuthApproved(sid, stan, amount), DispenseIssued(sid, amount, true);
    var e2', e3 := DispenseIssued(sid, amount, false), ReversalIssued(sid, stan, amount);
    PaidSumSnoc(j, e1);
    PaidSumSnoc(j + [e1], e2);
    PaidSumSnoc(j + [e1], e2');
    PaidSumSnoc(j + [e1] + [e2'], e3);
    assert j + [e1] + [e2] == j + [e1, e2];
    assert j + [e1] + [e2'] + [e3] == j + [e1, e2', e3];
  }

  lemma AuthorizeBalances(start: map<string, Account>, h: Host, h': Host, q: AuthRequest, t: Instants)
    requires Balanced(start, h) && h.nextStan <= 1_000_000 && q.stan == FormatStan(h.nextStan)
    requires h' == Host(Authorize(h.db, q, t.check, t.stamp).0, h.nextStan + 1)
    ensures Balanced(start, h')
  {
    AuthorizeConserves(start, h.db, q, t.check, t.stamp);
    AuthorizeStans(h, q, t.check, t.stamp);
  }

  lemma WithdrawalBooks(start: map<string, Account>, a: Atm, t: Instants)
    requires Ready(a) && Linked(a) && Balanced(start, a.host) && a.host.nextStan <= 1_000_000
    requires a.session.Some? && a.session.value.amount.Some?
    ensures Balanced(start, ProcessWithdrawal(a, t).host)
  {
    var s := a.session.value;
    var q := RequestOf(s.pan, s.amount.value, t.cap, SessionName(s.id), a.host.nextStan);
    var (db, reply) := Authorize(a.host.db, q, t.check, t.stamp);
    AuthorizeBalances(start, a.host, Host(db, a.host.nextStan + 1), q, t);
    if reply.Approved? {
      ReversalBalances(start, a.host, q, ReversalOf(s, q.stan), t.check, t.stamp, t.undo);
    }
    HostAfter(a, t, q, db, reply);
  }

  /** The host after a withdrawal: as the authorisation left it, or as the reversal did. */
  lemma HostAfter(a: Atm, t: Instants, q: AuthRequest, db: Db, reply: Reply)
    requires Ready(a) && a.session.Some? && a.session.value.amount.Some?
    requires var s := a.session.value;
             q == RequestOf(s.pan, s.amount.value, t.cap, SessionName(s.id), a.host.nextStan)
    requires (db, reply) == Authorize(a.host.db, q, t.check, t.stamp)
    ensures var h := ProcessWithdrawal(a, t).host;
            || h == Host(db, a.host.nextStan + 1)
            || (reply.Approved?
                && h == Host(Reverse(db, ReversalOf(a.session.value, q.stan), t.undo).0, a.host.nextStan + 1))
  {
    WithdrawalOutcomes(a, t);
  }

  lemma WithdrawalMoves(a: Atm, t: Instants)
    requires Ready(a) && Linked(a)
    requires a.session.Some? && a.session.value.amount.Some? && a.session.value.amount.value > 0
    ensures MovedTogether(a, ProcessWithdrawal(a, t))
  {
    var s := a.session.value;
    var q := RequestOf(s.pan, s.amount.value, t.cap, SessionName(s.id), a.host.nextStan);
    WithdrawalOutcomes(a, t);
    Cash.DispenseExact(a.cdm, s.amount.value, None, true);
    if Authorize(a.host.db, q, t.check, t.stamp).1.Approved? {
      PaidSumWithdrawal(a.journal, s.id, q.stan, q.amount);
      ApprovalDebits(a.host.db, q, t.check, t.stamp);
      ReversalRestores(a.host.db, q, ReversalOf(s, q.stan), t.check, t.stamp, t.undo);
    }
  }

  lemma ConfirmMoves(a: Atm, t: Instants)
    requires Ready(a) && AtRest(a) && Linked(a)
    ensures MovedTogether(a, ConfirmTxn(a, t).0)
  {
    ConfirmIsWithdrawal(a, t);
    if a.session.Some? && a.session.value.state == Confirm {
      WithdrawalMoves(Confirming(a), t);
    }
  }

  lemma ConfirmBooks(start: map<string, Account>, a: Atm, t: Instants)
    requires Ready(a) && AtRest(a) && Linked(a) && Balanced(start, a.host) && a.host.nextStan <= 1_000_000
    ensures Balanced(start, ConfirmTxn(a, t).0.host)
  {
    ConfirmIsWithdrawal(a, t);
    if a.session.Some? && a.session.value.state == Confirm {
      WithdrawalBooks(start, Confirming(a), t);
    }
  }

  /** A PIN check changes the card's counter and status, the journal, and no money. */
  lemma FinishPinMoney(a: Atm, entered: string)
    requires AtRest(a) && Linked(a)
    ensures MovedTogether(a, FinishPin(a, entered))
    ensures var b := FinishPin(a, entered);
            && b.host.nextStan == a.host.nextStan
            && b.host.db.accounts == a.host.db.accounts && b.host.db.rows == a.host.db.rows
  {
    FinishPinCash(a, entered);
    if a.session.Some? && entered != "" {
      var s := a.session.value;
      var right := entered == a.host.db.cards[s.pan].pin;
      FinishPinEffect(a, entered, s, right);
      PaidSumSnoc(a.journal, PinChecked(s.id, s.pan, right));
    }
  }

  // ----- Every run -----

  predicate IsReplenish(act: Action) { act.Operator? && act.cmd.Replenish? }

  /** Over any action but replenishing, account totals, cassettes and journal move together. */
  lemma ActMoves(a: Atm, act: Action)
    requires Ready(a) && Allowed(act) && AtRest(a) && Linked(a)
    ensures !IsReplenish(act) ==> MovedTogether(a, Act(a, act))
    ensures IsReplenish(act) ==> Act(a, act).host == a.host && Act(a, act).journal == a.journal
  {
    match act
    case DoFinishPin(entered) => FinishPinMoney(a, entered);
    case DoConfirm(t) => ConfirmMoves(a, t);
    case Operator(cmd) =>
      if !cmd.Replenish? {
        Cash.StepValue(a.cdm, cmd);
      }
    case _ => QuietActs(a, act);
  }

  lemma ActBooks(start: map<string, Account>, a: Atm, act: Action)
    requires Ready(a) && Allowed(act) && AtRest(a) && Linked(a) && Balanced(start, a.host)
    requires act.DoConfirm? ==> a.host.nextStan <= 1_000_000
    ensures Balanced(start, Act(a, act).host)
    ensures act.DoConfirm? || Act(a, act).host.nextStan == a.host.nextStan
  {
    match act
    case DoFinishPin(entered) => FinishPinMoney(a, entered);
    case DoConfirm(t) => ConfirmBooks(start, a, t);
    case Operator(_) =>
    case _ => QuietActs(a, act);
  }

  lemma ConfirmCounts(a: Atm, t: Instants)
    requires Ready(a) && AtRest(a) && Linked(a)
    ensures a.host.nextStan <= ConfirmTxn(a, t).0.host.nextStan <= a.host.nextStan + 1
  {
    ConfirmIsWithdrawal(a, t);
    if a.session.Some? && a.session.value.state == Confirm {
      WithdrawalOutcomes(Confirming(a), t);
    }
  }

  /** What replenishing added to the cassettes over a run. */
  ghost function Loaded(a: Atm, acts: seq<Action>): int
    requires Ready(a) && AllAllowed(acts)
  {
    if acts == [] then 0
    else
      var n := |acts| - 1;
      Loaded(a, acts[..n]) +
      if IsReplenish(acts[n]) then
        Cash.Value(RunAtm(a, acts).cdm.units) - Cash.Value(RunAtm(a, acts[..n]).cdm.units)
      else 0
  }

  /** How many withdrawals a run confirms. */
  function Confirms(acts: seq<Action>): nat {
    if acts == [] then 0 else Confirms(acts[..|acts| - 1]) + if acts[|acts| - 1].DoConfirm? then 1 else 0
  }

  /**
   * Money is conserved over every run, from any state at rest, whatever errors are injected and however often trace
   * numbers wrap: what the accounts lose in total is the sum of the successful dispenses, which is what leaves the
   * cassettes.
   */
  lemma {:induction false} RunMoney(a: Atm, acts: seq<Action>)
    requires Ready(a) && AllAllowed(acts) && AtRest(a) && Linked(a)
    ensures var b := RunAtm(a, acts);
            var paid := PaidSum(b.journal) - PaidSum(a.journal);
            && Total(a.host.db.accounts) - Total(b.host.db.accounts) == paid
            && Cash.Value(a.cdm.units) + Loaded(a, acts) - Cash.Value(b.cdm.units) == paid
  {
    if acts != [] {
      var n := |acts| - 1;
      RunMoney(a, acts[..n]);
      RunKeepsRest(a, acts[..n]);
      ActMoves(RunAtm(a, acts[..n]), acts[n]);
    }
  }

  /**
   * Each account's own balance goes on agreeing with its rows, up to the trace number after which they come round
   * again. An empty table and a new counter are such a beginning.
   */
  lemma {:induction false} RunBooks(start: map<string, Account>, a: Atm, acts: seq<Action>)
    requires Ready(a) && AllAllowed(acts) && AtRest(a) && Linked(a)
    requires Balanced(start, a.host) && a.host.nextStan + Confirms(acts) <= 1_000_001
    ensures var b := RunAtm(a, acts);
            Balanced(start, b.host) && b.host.nextStan <= a.host.nextStan + Confirms(acts)
  {
    if acts != [] {
      var n := |acts| - 1;
      var before := RunAtm(a, acts[..n]);
      RunBooks(start, a, acts[..n]);
      RunKeepsRest(a, acts[..n]);
      ActBooks(start, before, acts[n]);
      if acts[n].DoConfirm? {
        ConfirmCounts(before, acts[n].t);
      }
    }
  }
}
