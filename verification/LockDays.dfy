/** Which requests are approved in an interleaving: the day's limit is that of the day on which it is checked. */
module LockDays {
  import opened Common
  import opened Ledger
  import opened LedgerLaws
  import opened LockProtocol
  import opened LockSerial

  // ----- No row is stamped after a check that has been made -----

  /** The account's COMPLETED rows are all stamped by then. */
  predicate StampedBy(rows: seq<Row>, acct: string, t: nat) {
    forall i :: 0 <= i < |rows| && rows[i].status == Completed && rows[i].accountId == acct ==> rows[i].createdAt <= t
  }

  predicate NoneAhead(rows: seq<Row>, t: nat) {
    forall i :: 0 <= i < |rows| && rows[i].status == Completed ==> rows[i].createdAt <= t
  }

  /** The account on which an authorisation holds the lock past its limit check, or its refusal. */
  function CheckedOn(p: Proc): Option<(string, nat)> {
    match p.phase
    case UnderLimit(acct, check) => Some((acct, check))
    case Debited(acct, _, check) => Some((acct, check))
    case Inserted(acct, _, check, _) => Some((acct, check))
    case Refusing(held, _, check) => if held.Some? then Some((held.value, check)) else None
    case _ => None
  }

  predicate ProcDated(db: Db, p: Proc) {
    CheckedOn(p).Some? ==> StampedBy(db.rows, CheckedOn(p).value.0, CheckedOn(p).value.1)
  }

  ghost predicate Dated(key: Key, s: Sys) {
    && Sound(key, s) && NoneAhead(s.db.rows, s.clock)
    && forall i | 0 <= i < |s.procs| :: ProcDated(s.db, s.procs[i])
  }

  /** COMPLETED rows of accounts under other lock keys were there before. */
  predicate NoneNew(key: Key, k: int, db: Db, db': Db) {
    forall i :: 0 <= i < |db'.rows| && db'.rows[i].status == Completed && key(db'.rows[i].accountId) != k ==>
      i < |db.rows| && db.rows[i] == db'.rows[i]
  }

  lemma CommitDates(key: Key, s: Sys, i: nat)
    requires Dated(key, s) && Enabled(key, s, Advance(i)) && LastPhase(s.procs[i].phase)
    ensures var s' := Do(key, s, Advance(i));
            && NoneAhead(s'.db.rows, s.clock)
            && match Holds(s.procs[i].phase)
               case Some(acct) => NoneNew(key, key(acct), s.db, s'.db)
               case None => s'.db == s.db
  {
    assert ProcSound(s.db, s.clock, s.procs[i]);
  }

  lemma KeepsDated(key: Key, k: int, db: Db, db': Db, p: Proc)
    requires ProcDated(db, p) && NoneNew(key, k, db, db')
    requires CheckedOn(p).Some? ==> key(CheckedOn(p).value.0) != k
    ensures ProcDated(db', p)
  {
  }

  lemma CommitKeepsDated(key: Key, s: Sys, i: nat)
    requires Dated(key, s) && Enabled(key, s, Advance(i)) && LastPhase(s.procs[i].phase)
    ensures Dated(key, Do(key, s, Advance(i)))
  {
    var s', held := Do(key, s, Advance(i)), Holds(s.procs[i].phase);
    StepKeepsSound(key, s, Advance(i));
    CommitDates(key, s, i);
    assert ProcSound(s.db, s.clock, s.procs[i]);
    Advances(key, s, i);
    forall j | 0 <= j < |s'.procs| ensures ProcDated(s'.db, s'.procs[j]) {
      if j != i {
        assert ProcDated(s.db, s.procs[j]) && s'.procs[j] == s.procs[j];
        if held.Some? {
          if Holds(s.procs[j].phase).Some? {
            OtherKey(key, s, i, j);
          }
          KeepsDated(key, key(held.value), s.db, s'.db, s.procs[j]);
        }
      }
    }
  }

  lemma MoveDated(key: Key, s: Sys, i: nat)
    requires Enabled(key, s, Advance(i)) && !LastPhase(s.procs[i].phase)
    requires ProcSound(s.db, s.clock, s.procs[i]) && ProcDated(s.db, s.procs[i]) && NoneAhead(s.db.rows, s.clock)
    ensures var s' := Do(key, s, Advance(i)); i < |s'.procs| && ProcDated(s.db, s'.procs[i])
  {
  }

  lemma MoveKeepsDated(key: Key, s: Sys, i: nat)
    requires Dated(key, s) && Enabled(key, s, Advance(i)) && !LastPhase(s.procs[i].phase)
    ensures Dated(key, Do(key, s, Advance(i)))
  {
    var s' := Do(key, s, Advance(i));
    StepKeepsSound(key, s, Advance(i));
    assert ProcSound(s.db, s.clock, s.procs[i]) && ProcDated(s.db, s.procs[i]);
    Advances(key, s, i);
    MoveDated(key, s, i);
    forall j | 0 <= j < |s'.procs| ensures ProcDated(s'.db, s'.procs[j]) {
      assert ProcDated(s.db, s.procs[j]);
    }
  }

  lemma OtherKeepsDated(key: Key, s: Sys, step: Step)
    requires Dated(key, s) && !step.Advance?
    ensures Dated(key, Do(key, s, step))
  {
    var s' := Do(key, s, step);
    StepKeepsSound(key, s, step);
    forall j | 0 <= j < |s'.procs| ensures ProcDated(s'.db, s'.procs[j]) {
      assert j < |s.procs| ==> ProcDated(s.db, s.procs[j]);
    }
  }

  lemma {:induction false} RunDated(key: Key, start: Db, clock: nat, run: seq<Sys>, steps: seq<Step>, k: nat)
    requires IsRun(key, run, steps) && run[0] == Init(start, clock) && k < |run| && NoneAhead(start.rows, clock)
    ensures Dated(key, run[k])
  {
    if k > 0 {
      RunDated(key, start, clock, run, steps, k - 1);
      var s, step := run[k - 1], steps[k - 1];
      if !step.Advance? {
        OtherKeepsDated(key, s, step);
      } else if LastPhase(s.procs[step.i].phase) {
        CommitKeepsDated(key, s, step.i);
      } else {
        MoveKeepsDated(key, s, step.i);
      }
    }
  }

  // ----- Replies -----

  /** The reply that the tables call for, with the limit of the check's own UTC day. */
  predicate AnswersOn(db: Db, q: AuthRequest, check: nat, reply: Reply) {
    if q.pan in db.cards && db.cards[q.pan].accountId in db.accounts then
      var id := db.cards[q.pan].accountId;
      AnswersWith(db.accounts[id], q, SpentOn(db.rows, id, check / 86_400_000), reply)
    else reply == Declined(InvalidCard)
  }

  ghost predicate EntryAnswers(start: Db, log: seq<Entry>, j: nat)
    requires j < |log|
  {
    log[j].op.AuthOp? ==> AnswersOn(Run(start, Ops(log[..j])), log[j].op.q, log[j].op.check, log[j].reply)
  }

  ghost predicate AllAnswer(start: Db, log: seq<Entry>) { forall j | 0 <= j < |log| :: EntryAnswers(start, log, j) }

  lemma StampedDay(rows: seq<Row>, acct: string, t: nat)
    requires StampedBy(rows, acct, t)
    ensures NoneAfter(rows, acct, t / 86_400_000)
  {
  }

  /** Over the cap, what was spent does not matter. */
  lemma OverCap(db: Db, q: AuthRequest, check: nat, stamp: nat)
    requires !(q.pan in db.cards && db.cards[q.pan].accountId in db.accounts && q.amount <= q.cap)
    ensures AnswersOn(db, q, check, Authorize(db, q, check, stamp).1)
  {
    AuthorizeAnswers(db, q, check, stamp);
  }

  lemma CommitAnswers(key: Key, s: Sys, i: nat, db': Db, reply: Reply)
    requires Dated(key, s) && Enabled(key, s, Advance(i)) && LastPhase(s.procs[i].phase)
    requires LastOp(s, i).AuthOp? && Apply(s.db, LastOp(s, i)) == (db', reply)
    ensures AnswersOn(s.db, LastOp(s, i).q, LastOp(s, i).check, reply)
  {
    var p, q, check := s.procs[i], LastOp(s, i).q, LastOp(s, i).check;
    assert ProcSound(s.db, s.clock, p) && ProcDated(s.db, p);
    if q.pan in s.db.cards && s.db.cards[q.pan].accountId in s.db.accounts && q.amount <= q.cap {
      StampedDay(s.db.rows, s.db.cards[q.pan].accountId, check);
      ApprovedExactly(s.db, q, check, LastOp(s, i).stamp);
    } else {
      OverCap(s.db, q, check, LastOp(s, i).stamp);
    }
  }

  lemma EntriesSnoc(start: Db, log: seq<Entry>, e: Entry, log': seq<Entry>)
    requires log' == log + [e]
    requires AllAnswer(start, log)
    requires e.op.AuthOp? ==> AnswersOn(Run(start, Ops(log)), e.op.q, e.op.check, e.reply)
    ensures AllAnswer(start, log')
  {
    forall j | 0 <= j < |log'| ensures EntryAnswers(start, log', j) {
      if j < |log| {
        assert EntryAnswers(start, log, j) && log'[..j] == log[..j];
      } else {
        assert log'[..j] == log;
      }
    }
  }

  lemma LastCommits(
    key: Key, carries: Relation, reverses: Relation, start: Db, clock: nat, run: seq<Sys>, steps: seq<Step>, k: nat)
    returns (e: Entry)
    requires Compatible(key, carries, reverses) && ConformingRun(key, carries, reverses, start, clock, run, steps)
    requires k < |steps| && steps[k].Advance? && LastPhase(run[k].procs[steps[k].i].phase)
    ensures run[k + 1].log == run[k].log + [e] && Apply(run[k].db, e.op) == (run[k + 1].db, e.reply)
    ensures e.op == LastOp(run[k], steps[k].i)
  {
    var s, i := run[k], steps[k].i;
    LockSerial.RunKeepsInv(key, carries, reverses, start, clock, run, steps, k);
    assert ProcSound(s.db, s.clock, s.procs[i]);
    Advances(key, s, i);
    CommitIsAtomic(key, carries, reverses, start, s, i);
    e := Entry(i, LastOp(s, i), LastReply(s.procs[i].phase));
  }

  /** Other steps leave the log alone. */
  lemma MovesLogNothing(key: Key, start: Db, clock: nat, run: seq<Sys>, steps: seq<Step>, k: nat)
    requires IsRun(key, run, steps) && run[0] == Init(start, clock) && k < |steps|
    requires steps[k].Advance? ==> !LastPhase(run[k].procs[steps[k].i].phase)
    ensures run[k + 1].log == run[k].log
  {
    if steps[k].Advance? {
      RunSound(key, start, clock, run, steps, k);
      assert ProcSound(run[k].db, run[k].clock, run[k].procs[steps[k].i]);
      Advances(key, run[k], steps[k].i);
    }
  }

  /**
   * In every state of every interleaving that commit order explains, from tables without rows of the future: each
   * authorisation was approved if and only if, on the tables of the serial history before it, its amount was within
   * the cap, the balance, and what its account had left of the limit of the UTC day on which it was checked.
   */
  lemma {:induction false} RepliesExact(
    key: Key, carries: Relation, reverses: Relation, start: Db, clock: nat, run: seq<Sys>, steps: seq<Step>, k: nat)
    requires Compatible(key, carries, reverses) && ConformingRun(key, carries, reverses, start, clock, run, steps)
    requires k < |run| && NoneAhead(start.rows, clock)
    ensures AllAnswer(start, run[k].log)
  {
    if k > 0 {
      RepliesExact(key, carries, reverses, start, clock, run, steps, k - 1);
      NextReply(key, carries, reverses, start, clock, run, steps, k - 1);
    }
  }

  lemma NextReply(
    key: Key, carries: Relation, reverses: Relation, start: Db, clock: nat, run: seq<Sys>, steps: seq<Step>, k: nat)
    requires Compatible(key, carries, reverses) && ConformingRun(key, carries, reverses, start, clock, run, steps)
    requires k < |steps| && NoneAhead(start.rows, clock)
    requires AllAnswer(start, run[k].log)
    ensures AllAnswer(start, run[k + 1].log)
  {
    if steps[k].Advance? && LastPhase(run[k].procs[steps[k].i].phase) {
      var e := LastCommits(key, carries, reverses, start, clock, run, steps, k);
      Serializable(key, carries, reverses, start, clock, run, steps, k);
      RunDated(key, start, clock, run, steps, k);
      if e.op.AuthOp? {
        CommitAnswers(key, run[k], steps[k].i, run[k + 1].db, e.reply);
      }
      EntriesSnoc(start, run[k].log, e, run[k + 1].log);
    } else {
      MovesLogNothing(key, start, clock, run, steps, k);
    }
  }
}
