/**
 * When commit order explains every interleaving. A reversal flips rows by trace number alone, so everything
 * depends on which accounts may carry a trace number and on which account it may be reversed.
 */
module LockSerial {
  import opened Common
  import opened Ledger
  import opened LockProtocol

  /** Relates a trace number to an account. */
  type Relation = (string, string) -> bool

  // ----- Which trace numbers go with which accounts -----

  /** Requests conform: authorisations carry, and reversals reverse, trace numbers on accounts as related. */
  ghost predicate Conforms(carries: Relation, reverses: Relation, db: Db, r: Request) {
    match r
    case Auth(q) => HasAccount(db, q.pan) ==> carries(q.stan, AccountOf(db, q))
    case Rev(v) => v.accountId in db.accounts ==> reverses(v.stan, v.accountId)
  }

  ghost predicate RowsCarried(carries: Relation, rows: seq<Row>) {
    forall i | 0 <= i < |rows| && rows[i].status == Completed :: carries(rows[i].stan, rows[i].accountId)
  }

  ghost predicate ConformingRun(
    key: Key, carries: Relation, reverses: Relation, start: Db, clock: nat, run: seq<Sys>, steps: seq<Step>) {
    && IsRun(key, run, steps) && run[0] == Init(start, clock) && RowsCarried(carries, start.rows)
    && forall n | 0 <= n < |steps| && steps[n].Arrive? :: Conforms(carries, reverses, start, steps[n].req)
  }

  /** A trace number that is reversed on one account and carried on another finds both under one lock key. */
  ghost predicate Compatible(key: Key, carries: Relation, reverses: Relation) {
    forall stan: string, a: string, b: string | carries(stan, a) && reverses(stan, b) :: key(a) == key(b)
  }

  // ----- Explanation by commit order -----

  function Ops(log: seq<Entry>): (ops: seq<Op>)
    ensures |ops| == |log| && forall k :: 0 <= k < |log| ==> ops[k] == log[k].op
  {
    seq(|log|, k requires 0 <= k < |log| => log[k].op)
  }

  /** The tables and all replies are those of running the log one operation at a time. */
  ghost predicate Explains(start: Db, log: seq<Entry>, db: Db) {
    && db == Run(start, Ops(log))
    && forall k | 0 <= k < |log| :: log[k].reply == Apply(Run(start, Ops(log[..k])), log[k].op).1
  }

  lemma ExplainsSnoc(start: Db, log: seq<Entry>, db: Db, e: Entry, db': Db)
    requires Explains(start, log, db) && Apply(db, e.op) == (db', e.reply)
    ensures Explains(start, log + [e], db')
  {
    var log' := log + [e];
    assert Ops(log') == Ops(log) + [e.op];
    RunSnoc(start, Ops(log), e.op);
    forall k | 0 <= k < |log'| ensures log'[k].reply == Apply(Run(start, Ops(log'[..k])), log'[k].op).1 {
      if k < |log| {
        assert log'[..k] == log[..k];
      } else {
        assert log'[..k] == log;
      }
    }
  }

  // ----- The invariant -----

  /** What a process has read still decides as the atomic operation would on the committed tables. */
  ghost predicate ProcExact(db: Db, p: Proc) {
    match p.req
    case Auth(q) =>
      (match p.phase
       case UnderLimit(_, check) => Authorize(db, q, check, check).1.Approved?
       case Debited(_, _, check) => Authorize(db, q, check, check).1.Approved?
       case Inserted(_, _, check, _) => Authorize(db, q, check, check).1.Approved?
       case Refusing(_, code, check) => Authorize(db, q, check, check).1 == Declined(code)
       case _ => true)
    case Rev(v) =>
      (match p.phase
       case RevFlipped(_, _, hits) => hits == Hits(db.rows, v.stan)
       case RevInserted(_, _, hits, _) => hits == Hits(db.rows, v.stan)
       case _ => true)
  }

  ghost predicate ProcsExact(carries: Relation, reverses: Relation, s: Sys) {
    forall i | 0 <= i < |s.procs| :: Conforms(carries, reverses, s.db, s.procs[i].req) && ProcExact(s.db, s.procs[i])
  }

  ghost predicate Inv(key: Key, carries: Relation, reverses: Relation, start: Db, s: Sys) {
    && Sound(key, s) && SameShape(start, s.db) && Explains(start, s.log, s.db)
    && RowsCarried(carries, s.db.rows) && ProcsExact(carries, reverses, s)
  }

  /** Accounts and trace numbers under other lock keys look as they did. */
  ghost predicate Unseen(key: Key, reverses: Relation, k: int, db: Db, db': Db) {
    && Confined(key, k, db, db')
    && (forall b: string, t: nat | key(b) != k :: Sum(db'.rows, Since(b, t)) == Sum(db.rows, Since(b, t)))
    && (forall stan: string, b: string | reverses(stan, b) && key(b) != k ::
          Hits(db'.rows, stan) == Hits(db.rows, stan))
  }

  lemma AuthUnseen(key: Key, carries: Relation, reverses: Relation, db: Db, q: AuthRequest, check: nat, stamp: nat)
    requires Compatible(key, carries, reverses) && RowsCarried(carries, db.rows)
    requires HasAccount(db, q.pan) && carries(q.stan, AccountOf(db, q))
    ensures var db' := Authorize(db, q, check, stamp).0;
            Unseen(key, reverses, key(AccountOf(db, q)), db, db') && RowsCarried(carries, db'.rows)
  {
    var (db', reply) := Authorize(db, q, check, stamp);
    var a := AccountOf(db, q);
    if reply.Approved? {
      var row := db'.rows[|db.rows|];
      forall b: string, t: nat | key(b) != key(a) ensures Sum(db'.rows, Since(b, t)) == Sum(db.rows, Since(b, t)) {
        SumAppend(db.rows, row, Since(b, t));
      }
      forall stan: string, b: string | reverses(stan, b) && key(b) != key(a)
        ensures Hits(db'.rows, stan) == Hits(db.rows, stan)
      {
        assert stan != q.stan;
      }
    }
  }

  lemma RevSums(
    key: Key, carries: Relation, reverses: Relation, rows: seq<Row>, stan: string, a: string, b: string, t: nat)
    requires Compatible(key, carries, reverses) && RowsCarried(carries, rows) && reverses(stan, a) && key(b) != key(a)
    ensures Sum(Flip(rows, stan), Since(b, t)) == Sum(rows, Since(b, t))
  {
    SumAgree(Flip(rows, stan), rows, Since(b, t));
  }

  lemma RevHits(
    key: Key, carries: Relation, reverses: Relation, rows: seq<Row>, v: Reversal, at: nat, stan: string, b: string)
    requires Compatible(key, carries, reverses) && RowsCarried(carries, rows)
    requires reverses(v.stan, v.accountId) && reverses(stan, b) && key(b) != key(v.accountId)
    ensures Hits(Flip(rows, v.stan) + [ReversalRow(v, at)], stan) == Hits(rows, stan)
  {
    var rows' := Flip(rows, v.stan) + [ReversalRow(v, at)];
    forall k: nat | k < |rows| ensures Hit(rows'[k], stan) <==> Hit(rows[k], stan) {
      if rows[k].status == Completed {
        assert carries(rows[k].stan, rows[k].accountId);
      }
    }
  }

  lemma RevUnseen(key: Key, carries: Relation, reverses: Relation, db: Db, v: Reversal, at: nat)
    requires Compatible(key, carries, reverses) && RowsCarried(carries, db.rows)
    requires v.accountId in db.accounts && reverses(v.stan, v.accountId)
    ensures var db' := Reverse(db, v, at).0;
            Unseen(key, reverses, key(v.accountId), db, db') && RowsCarried(carries, db'.rows)
  {
    var db' := Reverse(db, v, at).0;
    forall b: string, t: nat | key(b) != key(v.accountId)
      ensures Sum(db'.rows, Since(b, t)) == Sum(db.rows, Since(b, t))
    {
      SumAppend(Flip(db.rows, v.stan), ReversalRow(v, at), Since(b, t));
      RevSums(key, carries, reverses, db.rows, v.stan, v.accountId, b, t);
    }
    forall stan: string, b: string | reverses(stan, b) && key(b) != key(v.accountId)
      ensures Hits(db'.rows, stan) == Hits(db.rows, stan)
    {
      RevHits(key, carries, reverses, db.rows, v, at, stan, b);
    }
  }

  // ----- Commits are atomic -----

  /** The commit is the atomic operation, applied to the tables as they are at that moment. */
  ghost predicate Atomic(key: Key, reverses: Relation, s: Sys, s': Sys, i: nat)
    requires i < |s.procs|
  {
    && Apply(s.db, LastOp(s, i)) == (s'.db, LastReply(s.procs[i].phase))
    && var held := Holds(s.procs[i].phase);
       if held.None? then s'.db == s.db else Unseen(key, reverses, key(held.value), s.db, s'.db)
  }

  lemma AuthCommitIsAtomic(key: Key, carries: Relation, reverses: Relation, s: Sys, i: nat)
    requires Compatible(key, carries, reverses) && RowsCarried(carries, s.db.rows)
    requires i < |s.procs| && s.procs[i].req.Auth? && s.procs[i].phase.Inserted?
    requires ProcSound(s.db, s.clock, s.procs[i]) && ProcExact(s.db, s.procs[i])
    requires Conforms(carries, reverses, s.db, s.procs[i].req)
    ensures var s' := AdvanceAuth(key, s, i);
            Atomic(key, reverses, s, s', i) && RowsCarried(carries, s'.db.rows)
  {
    var p, q := s.procs[i].phase, s.procs[i].req.q;
    AuthUnseen(key, carries, reverses, s.db, q, p.check, p.stamp);
  }

  /** A refusal publishes nothing, and the atomic operation would refuse too. */
  lemma RefusalIsAtomic(key: Key, reverses: Relation, s: Sys, i: nat)
    requires i < |s.procs| && s.procs[i].req.Auth? && s.procs[i].phase.Refusing?
    requires ProcSound(s.db, s.clock, s.procs[i]) && ProcExact(s.db, s.procs[i])
    ensures Atomic(key, reverses, s, AdvanceAuth(key, s, i), i) && AdvanceAuth(key, s, i).db == s.db
  {
  }

  lemma RevCommitIsAtomic(key: Key, carries: Relation, reverses: Relation, s: Sys, i: nat)
    requires Compatible(key, carries, reverses) && RowsCarried(carries, s.db.rows)
    requires i < |s.procs| && s.procs[i].req.Rev? && s.procs[i].phase.RevInserted?
    requires ProcSound(s.db, s.clock, s.procs[i]) && ProcExact(s.db, s.procs[i])
    requires Conforms(carries, reverses, s.db, s.procs[i].req)
    ensures var s' := AdvanceRev(key, s, i);
            Atomic(key, reverses, s, s', i) && RowsCarried(carries, s'.db.rows)
  {
    var p, v := s.procs[i].phase, s.procs[i].req.v;
    assert FlipAt(s.db.rows, p.hits) == Flip(s.db.rows, v.stan);
    RevPublishes(key, s, i);
    RevUnseen(key, carries, reverses, s.db, v, p.stamp);
  }

  lemma CommitIsAtomic(key: Key, carries: Relation, reverses: Relation, start: Db, s: Sys, i: nat)
    requires Compatible(key, carries, reverses) && Inv(key, carries, reverses, start, s)
    requires Enabled(key, s, Advance(i)) && LastPhase(s.procs[i].phase)
    ensures var s' := Do(key, s, Advance(i));
            && Commits(key, s, s', i, LastOp(s, i), LastReply(s.procs[i].phase))
            && Atomic(key, reverses, s, s', i) && RowsCarried(carries, s'.db.rows)
  {
    assert ProcSound(s.db, s.clock, s.procs[i]) && ProcExact(s.db, s.procs[i]);
    assert Conforms(carries, reverses, s.db, s.procs[i].req);
    Advances(key, s, i);
    if s.procs[i].phase.Inserted? {
      AuthCommitIsAtomic(key, carries, reverses, s, i);
    } else if s.procs[i].phase.Refusing? {
      RefusalIsAtomic(key, reverses, s, i);
    } else if s.procs[i].phase.RevInserted? {
      RevCommitIsAtomic(key, carries, reverses, s, i);
    }
  }

  // ----- Every step keeps the invariant -----

  lemma ProcExactFrame(key: Key, carries: Relation, reverses: Relation, k: int, db: Db, db': Db, clock: nat, p: Proc)
    requires ProcSound(db, clock, p) && ProcExact(db, p) && Conforms(carries, reverses, db, p.req)
    requires Unseen(key, reverses, k, db, db') && (Holds(p.phase).Some? ==> key(Holds(p.phase).value) != k)
    ensures ProcExact(db', p) && Conforms(carries, reverses, db', p.req)
  {
  }

  lemma CommitKeepsExact(key: Key, carries: Relation, reverses: Relation, start: Db, s: Sys, i: nat)
    requires Compatible(key, carries, reverses) && Inv(key, carries, reverses, start, s)
    requires Enabled(key, s, Advance(i)) && LastPhase(s.procs[i].phase)
    ensures ProcsExact(carries, reverses, Do(key, s, Advance(i)))
  {
    var s', held := Do(key, s, Advance(i)), Holds(s.procs[i].phase);
    CommitIsAtomic(key, carries, reverses, start, s, i);
    forall j | 0 <= j < |s'.procs|
      ensures Conforms(carries, reverses, s'.db, s'.procs[j].req) && ProcExact(s'.db, s'.procs[j])
    {
      assert ProcSound(s.db, s.clock, s.procs[j]) && ProcExact(s.db, s.procs[j]);
      assert Conforms(carries, reverses, s.db, s.procs[j].req);
      if j != i && held.Some? {
        if Holds(s.procs[j].phase).Some? {
          OtherKey(key, s, i, j);
        }
        ProcExactFrame(key, carries, reverses, key(held.value), s.db, s'.db, s.clock, s.procs[j]);
      }
    }
  }

  lemma CommitKeepsInv(key: Key, carries: Relation, reverses: Relation, start: Db, s: Sys, i: nat)
    requires Compatible(key, carries, reverses) && Inv(key, carries, reverses, start, s)
    requires Enabled(key, s, Advance(i)) && LastPhase(s.procs[i].phase)
    ensures Inv(key, carries, reverses, start, Do(key, s, Advance(i)))
  {
    var s' := Do(key, s, Advance(i));
    CommitIsAtomic(key, carries, reverses, start, s, i);
    CommitKeepsExact(key, carries, reverses, start, s, i);
    StepKeepsSound(key, s, Advance(i));
    ExplainsSnoc(start, s.log, s.db, Entry(i, LastOp(s, i), LastReply(s.procs[i].phase)), s'.db);
  }

  lemma MoveExact(key: Key, s: Sys, i: nat)
    requires Enabled(key, s, Advance(i)) && !LastPhase(s.procs[i].phase)
    requires ProcSound(s.db, s.clock, s.procs[i]) && ProcExact(s.db, s.procs[i])
    ensures var s' := Do(key, s, Advance(i)); i < |s'.procs| && ProcExact(s.db, s'.procs[i])
  {
  }

  lemma MoveKeepsExact(key: Key, carries: Relation, reverses: Relation, start: Db, s: Sys, i: nat)
    requires Inv(key, carries, reverses, start, s) && Enabled(key, s, Advance(i)) && !LastPhase(s.procs[i].phase)
    ensures ProcsExact(carries, reverses, Do(key, s, Advance(i)))
    ensures Do(key, s, Advance(i)).db == s.db && Do(key, s, Advance(i)).log == s.log
  {
    var s' := Do(key, s, Advance(i));
    assert ProcSound(s.db, s.clock, s.procs[i]) && ProcExact(s.db, s.procs[i]);
    Advances(key, s, i);
    MoveExact(key, s, i);
    forall j | 0 <= j < |s'.procs|
      ensures Conforms(carries, reverses, s'.db, s'.procs[j].req) && ProcExact(s'.db, s'.procs[j])
    {
      assert ProcExact(s.db, s.procs[j]) && Conforms(carries, reverses, s.db, s.procs[j].req);
    }
  }

  lemma MoveKeepsInv(key: Key, carries: Relation, reverses: Relation, start: Db, s: Sys, i: nat)
    requires Inv(key, carries, reverses, start, s) && Enabled(key, s, Advance(i)) && !LastPhase(s.procs[i].phase)
    ensures Inv(key, carries, reverses, start, Do(key, s, Advance(i)))
  {
    MoveKeepsExact(key, carries, reverses, start, s, i);
    StepKeepsSound(key, s, Advance(i));
  }

  lemma OtherKeepsInv(key: Key, carries: Relation, reverses: Relation, start: Db, s: Sys, step: Step)
    requires Inv(key, carries, reverses, start, s) && !step.Advance?
    requires step.Arrive? ==> Conforms(carries, reverses, start, step.req)
    ensures Inv(key, carries, reverses, start, Do(key, s, step))
  {
    var s' := Do(key, s, step);
    StepKeepsSound(key, s, step);
    forall j | 0 <= j < |s'.procs|
      ensures Conforms(carries, reverses, s'.db, s'.procs[j].req) && ProcExact(s'.db, s'.procs[j])
    {
      assert j < |s.procs| ==> ProcExact(s.db, s.procs[j]) && Conforms(carries, reverses, s.db, s.procs[j].req);
    }
  }

  lemma {:induction false} RunKeepsInv(
    key: Key, carries: Relation, reverses: Relation, start: Db, clock: nat, run: seq<Sys>, steps: seq<Step>, k: nat)
    requires Compatible(key, carries, reverses) && k < |run|
    requires ConformingRun(key, carries, reverses, start, clock, run, steps)
    ensures Inv(key, carries, reverses, start, run[k])
  {
    if k > 0 {
      RunKeepsInv(key, carries, reverses, start, clock, run, steps, k - 1);
      var s, step := run[k - 1], steps[k - 1];
      if !step.Advance? {
        OtherKeepsInv(key, carries, reverses, start, s, step);
      } else if LastPhase(s.procs[step.i].phase) {
        CommitKeepsInv(key, carries, reverses, start, s, step.i);
      } else {
        MoveKeepsInv(key, carries, reverses, start, s, step.i);
      }
    }
  }

  // ----- Rows come from authorisations that arrived, whatever the keys -----

  lemma CommitCarries(key: Key, carries: Relation, s: Sys, i: nat)
    requires Enabled(key, s, Advance(i)) && ProcSound(s.db, s.clock, s.procs[i]) && RowsCarried(carries, s.db.rows)
    requires s.procs[i].req.Auth? && HasAccount(s.db, s.procs[i].req.q.pan) ==>
      carries(s.procs[i].req.q.stan, AccountOf(s.db, s.procs[i].req.q))
    ensures RowsCarried(carries, Do(key, s, Advance(i)).db.rows)
  {
  }

  lemma ProcConforms(
    key: Key, carries: Relation, reverses: Relation, start: Db, clock: nat, run: seq<Sys>, steps: seq<Step>,
    k: nat, i: nat)
    requires ConformingRun(key, carries, reverses, start, clock, run, steps) && k < |run| && i < |run[k].procs|
    ensures Conforms(carries, reverses, start, run[k].procs[i].req)
    ensures ProcSound(run[k].db, run[k].clock, run[k].procs[i]) && SameShape(start, run[k].db)
  {
    var n := ProcsArrived(key, start, clock, run, steps, k, i);
    RunSound(key, start, clock, run, steps, k);
  }

  lemma StepCarries(key: Key, carries: Relation, reverses: Relation, start: Db, s: Sys, step: Step)
    requires Enabled(key, s, step) && RowsCarried(carries, s.db.rows) && SameShape(start, s.db)
    requires step.Advance? ==>
      Conforms(carries, reverses, start, s.procs[step.i].req) && ProcSound(s.db, s.clock, s.procs[step.i])
    ensures RowsCarried(carries, Do(key, s, step).db.rows)
  {
    if step.Advance? {
      CommitCarries(key, carries, s, step.i);
    }
  }

  lemma RowsCarriedNext(
    key: Key, carries: Relation, reverses: Relation, start: Db, clock: nat, run: seq<Sys>, steps: seq<Step>, k: nat)
    requires ConformingRun(key, carries, reverses, start, clock, run, steps) && k < |steps|
    requires RowsCarried(carries, run[k].db.rows)
    ensures RowsCarried(carries, run[k + 1].db.rows)
  {
    RunSound(key, start, clock, run, steps, k);
    if steps[k].Advance? {
      ProcConforms(key, carries, reverses, start, clock, run, steps, k, steps[k].i);
    }
    StepCarries(key, carries, reverses, start, run[k], steps[k]);
  }

  lemma {:induction false} RowsStayCarried(
    key: Key, carries: Relation, reverses: Relation, start: Db, clock: nat, run: seq<Sys>, steps: seq<Step>, k: nat)
    requires ConformingRun(key, carries, reverses, start, clock, run, steps) && k < |run|
    ensures RowsCarried(carries, run[k].db.rows)
  {
    if k > 0 {
      RowsStayCarried(key, carries, reverses, start, clock, run, steps, k - 1);
      RowsCarriedNext(key, carries, reverses, start, clock, run, steps, k - 1);
    }
  }

  /** When a reversal arrives, its account has a COMPLETED row of its trace number and amount. */
  ghost predicate ReversalsLive(run: seq<Sys>, steps: seq<Step>)
    requires |run| == |steps| + 1
  {
    forall n | 0 <= n < |steps| && steps[n].Arrive? && steps[n].req.Rev? ::
      exists i: nat :: Names(run[n].db, steps[n].req.v, i)
  }

  // ----- Main results -----

  /**
   * Serialisability. With compatible trace numbers, in every state of every interleaving the committed tables
   * and every reply given so far are those of running the finished requests one at a time in commit order.
   */
  lemma Serializable(
    key: Key, carries: Relation, reverses: Relation, start: Db, clock: nat, run: seq<Sys>, steps: seq<Step>, k: nat)
    requires Compatible(key, carries, reverses) && k < |run|
    requires ConformingRun(key, carries, reverses, start, clock, run, steps)
    ensures Explains(start, run[k].log, run[k].db) && LogOk(run[k])
  {
    RunKeepsInv(key, carries, reverses, start, clock, run, steps, k);
  }

  /** A step publishes nothing, or commits one process by its operation on the tables as they are. */
  ghost predicate AtomicStep(s: Sys, s': Sys) {
    || (s'.db == s.db && s'.log == s.log)
    || (exists e: Entry ::
          && s'.log == s.log + [e] && Committed(s, s', e) && Apply(s.db, e.op) == (s'.db, e.reply))
  }

  /** One process has finished, with its own operation, and no other has moved. */
  ghost predicate Committed(s: Sys, s': Sys, e: Entry) {
    && e.proc < |s.procs| && Realises(e.op, s.procs[e.proc].req) && !s.procs[e.proc].phase.Finished?
    && s'.procs == s.procs[e.proc := s.procs[e.proc].(phase := Finished(e.reply))]
  }

  /**
   * Every step of every such run is atomic: what a transaction publishes, and replies, is what its operation does
   * to the tables at that moment, although it decided on values read earlier.
   */
  lemma StepsAreAtomic(
    key: Key, carries: Relation, reverses: Relation, start: Db, clock: nat, run: seq<Sys>, steps: seq<Step>, k: nat)
    requires Compatible(key, carries, reverses) && k < |steps|
    requires ConformingRun(key, carries, reverses, start, clock, run, steps)
    ensures AtomicStep(run[k], run[k + 1])
  {
    RunKeepsInv(key, carries, reverses, start, clock, run, steps, k);
    var s, s' := run[k], run[k + 1];
    if steps[k].Advance? {
      var i := steps[k].i;
      assert ProcSound(s.db, s.clock, s.procs[i]);
      Advances(key, s, i);
      if LastPhase(s.procs[i].phase) {
        CommitIsAtomic(key, carries, reverses, start, s, i);
        var e := Entry(i, LastOp(s, i), LastReply(s.procs[i].phase));
        assert s'.log == s.log + [e] && Committed(s, s', e);
      }
    }
  }
}
