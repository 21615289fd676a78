/** The limits in every interleaving, under any lock key and whatever trace numbers are used. */
module LockLimits {
  import opened Common
  import opened Ledger
  import opened LockProtocol

  function Amount(r: Request): int {
    match r
    case Auth(q) => q.amount
    case Rev(v) => v.amount
  }

  /** Past its limit check an authorisation still fits under its account's limit. */
  predicate FitsUnder(db: Db, q: AuthRequest, acct: string, check: nat) {
    acct in db.accounts ==> Sum(db.rows, Since(acct, StartOfDay(check))) + q.amount <= db.accounts[acct].dailyLimit
  }

  predicate StillFits(db: Db, p: Proc) {
    p.req.Auth? ==>
      match p.phase
      case UnderLimit(acct, check) => FitsUnder(db, p.req.q, acct, check)
      case Debited(acct, _, check) => FitsUnder(db, p.req.q, acct, check)
      case Inserted(acct, _, check, _) => FitsUnder(db, p.req.q, acct, check)
      case _ => true
  }

  ghost predicate ProcsFit(s: Sys) {
    forall i | 0 <= i < |s.procs| :: Amount(s.procs[i].req) > 0 && StillFits(s.db, s.procs[i])
  }

  ghost predicate Limited(key: Key, s: Sys) { Sound(key, s) && WithinLimits(s.db) && ProcsFit(s) }

  // ----- What a commit publishes -----

  lemma AuthKeepsLimits(db: Db, clock: nat, p: Proc, db': Db)
    requires WithinLimits(db) && p.req.Auth? && p.req.q.amount > 0 && p.phase.Inserted?
    requires ProcSound(db, clock, p) && StillFits(db, p)
    requires db' == Authorize(db, p.req.q, p.phase.check, p.phase.stamp).0
    ensures WithinLimits(db')
  {
    AuthorizeWithinLimits(db, p.req.q, p.phase.check, p.phase.stamp);
  }

  /** What the commit publishes is the atomic authorisation at the instants it read. */
  lemma AuthPublishes(key: Key, s: Sys, i: nat)
    requires i < |s.procs| && s.procs[i].req.Auth? && s.procs[i].phase.Inserted?
    requires ProcSound(s.db, s.clock, s.procs[i]) && StillFits(s.db, s.procs[i])
    ensures var p := s.procs[i].phase;
            AdvanceAuth(key, s, i).db == Authorize(s.db, s.procs[i].req.q, p.check, p.stamp).0
  {
  }

  lemma {:induction false} FlipAtLowers(rows: seq<Row>, hits: set<nat>, w: Window)
    requires forall i | 0 <= i < |rows| :: rows[i].amount > 0
    ensures Sum(FlipAt(rows, hits), w) <= Sum(rows, w)
  {
    if rows != [] {
      var n := |rows| - 1;
      assert FlipAt(rows, hits)[..n] == FlipAt(rows[..n], hits);
      FlipAtLowers(rows[..n], hits, w);
    }
  }

  /** A reversal lowers sums and credits one account, whichever rows it flips. */
  lemma RevKeepsLimits(db: Db, hits: set<nat>, v: Reversal, at: nat, db': Db)
    requires WithinLimits(db) && v.amount > 0 && v.accountId in db.accounts
    requires db' == Reversing(db, hits, v, at)
    ensures WithinLimits(db') && forall w :: Sum(db'.rows, w) <= Sum(db.rows, w)
  {
    forall w ensures Sum(db'.rows, w) <= Sum(db.rows, w) {
      SumAppend(FlipAt(db.rows, hits), ReversalRow(v, at), w);
      FlipAtLowers(db.rows, hits, w);
    }
    forall a, day: nat | a in db'.accounts ensures Sum(db'.rows, OnDay(a, day)) <= db'.accounts[a].dailyLimit {
      assert Sum(db.rows, OnDay(a, day)) <= db.accounts[a].dailyLimit;
    }
  }

  /** No sum of an account under another key has risen. */
  ghost predicate NoneRisen(key: Key, k: int, db: Db, db': Db) {
    forall b: string, t: nat | key(b) != k :: Sum(db'.rows, Since(b, t)) <= Sum(db.rows, Since(b, t))
  }

  lemma AuthCommitLimits(key: Key, s: Sys, i: nat)
    requires Limited(key, s) && i < |s.procs| && s.procs[i].req.Auth? && s.procs[i].phase.Inserted?
    ensures var db' := AdvanceAuth(key, s, i).db;
            WithinLimits(db') && NoneRisen(key, key(s.procs[i].phase.acct), s.db, db')
  {
    var p, db' := s.procs[i], AdvanceAuth(key, s, i).db;
    assert ProcSound(s.db, s.clock, p) && StillFits(s.db, p) && Amount(p.req) > 0;
    AuthPublishes(key, s, i);
    AuthKeepsLimits(s.db, s.clock, p, db');
    forall b: string, t: nat | key(b) != key(p.phase.acct)
      ensures Sum(db'.rows, Since(b, t)) <= Sum(s.db.rows, Since(b, t))
    {
      SumAppend(s.db.rows, db'.rows[|s.db.rows|], Since(b, t));
    }
  }

  lemma RevCommitLimits(key: Key, s: Sys, i: nat)
    requires Limited(key, s) && i < |s.procs| && s.procs[i].req.Rev? && s.procs[i].phase.RevInserted?
    ensures var db' := AdvanceRev(key, s, i).db;
            WithinLimits(db') && NoneRisen(key, key(s.procs[i].phase.acct), s.db, db')
  {
    var p, db' := s.procs[i], AdvanceRev(key, s, i).db;
    assert ProcSound(s.db, s.clock, p) && Amount(p.req) > 0;
    RevPublishes(key, s, i);
    RevKeepsLimits(s.db, p.phase.hits, p.req.v, p.phase.stamp, db');
  }

  lemma CommitLimits(key: Key, s: Sys, i: nat)
    requires Limited(key, s) && Enabled(key, s, Advance(i)) && LastPhase(s.procs[i].phase)
    ensures var s', held := Do(key, s, Advance(i)), Holds(s.procs[i].phase);
            WithinLimits(s'.db) && (if held.Some? then NoneRisen(key, key(held.value), s.db, s'.db) else s'.db == s.db)
  {
    assert ProcSound(s.db, s.clock, s.procs[i]);
    if s.procs[i].phase.Inserted? {
      AuthCommitLimits(key, s, i);
    } else if s.procs[i].phase.RevInserted? {
      RevCommitLimits(key, s, i);
    }
  }

  lemma StillFitsFrame(key: Key, k: int, db: Db, db': Db, p: Proc)
    requires StillFits(db, p) && SameShape(db, db') && NoneRisen(key, k, db, db')
    requires Holds(p.phase).Some? ==> key(Holds(p.phase).value) != k
    ensures StillFits(db', p)
  {
  }

  lemma CommitFits(key: Key, s: Sys, i: nat)
    requires Limited(key, s) && Enabled(key, s, Advance(i)) && LastPhase(s.procs[i].phase)
    ensures ProcsFit(Do(key, s, Advance(i)))
  {
    var s', held := Do(key, s, Advance(i)), Holds(s.procs[i].phase);
    CommitLimits(key, s, i);
    StepKeepsSound(key, s, Advance(i));
    assert ProcSound(s.db, s.clock, s.procs[i]);
    Advances(key, s, i);
    forall j | 0 <= j < |s'.procs| ensures Amount(s'.procs[j].req) > 0 && StillFits(s'.db, s'.procs[j]) {
      assert Amount(s.procs[j].req) > 0 && StillFits(s.db, s.procs[j]);
      if j != i && held.Some? {
        if Holds(s.procs[j].phase).Some? {
          OtherKey(key, s, i, j);
        }
        StillFitsFrame(key, key(held.value), s.db, s'.db, s.procs[j]);
      }
    }
  }

  // ----- What a statement learns -----

  lemma MoveFits(key: Key, s: Sys, i: nat)
    requires Enabled(key, s, Advance(i)) && !LastPhase(s.procs[i].phase)
    requires ProcSound(s.db, s.clock, s.procs[i]) && StillFits(s.db, s.procs[i])
    ensures var s' := Do(key, s, Advance(i)); i < |s'.procs| && StillFits(s.db, s'.procs[i])
  {
  }

  lemma MoveKeepsFit(key: Key, s: Sys, i: nat)
    requires Limited(key, s) && Enabled(key, s, Advance(i)) && !LastPhase(s.procs[i].phase)
    ensures ProcsFit(Do(key, s, Advance(i))) && Do(key, s, Advance(i)).db == s.db
  {
    var s' := Do(key, s, Advance(i));
    assert ProcSound(s.db, s.clock, s.procs[i]) && StillFits(s.db, s.procs[i]);
    Advances(key, s, i);
    MoveFits(key, s, i);
    forall j | 0 <= j < |s'.procs| ensures Amount(s'.procs[j].req) > 0 && StillFits(s'.db, s'.procs[j]) {
      assert Amount(s.procs[j].req) > 0 && StillFits(s.db, s.procs[j]);
    }
  }

  lemma OtherKeepsFit(key: Key, s: Sys, step: Step)
    requires Limited(key, s) && !step.Advance? && (step.Arrive? ==> Amount(step.req) > 0)
    ensures ProcsFit(Do(key, s, step)) && Do(key, s, step).db == s.db
  {
    var s' := Do(key, s, step);
    forall j | 0 <= j < |s'.procs| ensures Amount(s'.procs[j].req) > 0 && StillFits(s'.db, s'.procs[j]) {
      assert j < |s.procs| ==> Amount(s.procs[j].req) > 0 && StillFits(s.db, s.procs[j]);
    }
  }

  lemma StepKeepsLimited(key: Key, s: Sys, step: Step)
    requires Limited(key, s) && Enabled(key, s, step)
    requires step.Arrive? ==> Amount(step.req) > 0
    ensures Limited(key, Do(key, s, step))
  {
    StepKeepsSound(key, s, step);
    if !step.Advance? {
      OtherKeepsFit(key, s, step);
    } else if LastPhase(s.procs[step.i].phase) {
      CommitLimits(key, s, step.i);
      CommitFits(key, s, step.i);
    } else {
      MoveKeepsFit(key, s, step.i);
    }
  }

  /**
   * In every state of every interleaving of positive amounts, under any lock key and whatever trace numbers are
   * used, no balance is negative and no day's COMPLETED sum exceeds the limit.
   */
  lemma {:induction false} LimitsHold(key: Key, start: Db, clock: nat, run: seq<Sys>, steps: seq<Step>, k: nat)
    requires IsRun(key, run, steps) && run[0] == Init(start, clock) && k < |run|
    requires WithinLimits(start)
    requires forall n | 0 <= n < |steps| && steps[n].Arrive? :: Amount(steps[n].req) > 0
    ensures WithinLimits(run[k].db) && Limited(key, run[k])
  {
    if k > 0 {
      LimitsHold(key, start, clock, run, steps, k - 1);
      StepKeepsLimited(key, run[k - 1], steps[k - 1]);
    }
  }
}
