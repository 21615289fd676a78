/** The books of every interleaving, from conditions on the requests as they arrive. */
module LockBooks {
  import opened Common
  import opened Ledger
  import opened LockProtocol
  import opened LockSerial

  // ----- What arrives -----

  predicate AuthorisesOn(start: Db, step: Step, stan: string, a: string) {
    && step.Arrive? && step.req.Auth? && step.req.q.stan == stan
    && HasAccount(start, step.req.q.pan) && AccountOf(start, step.req.q) == a
  }

  predicate ReversesOn(step: Step, stan: string, b: string) {
    step.Arrive? && step.req.Rev? && step.req.v.stan == stan && step.req.v.accountId == b
  }

  /** Trace numbers as the arriving authorisations carry them, and as the arriving reversals name them. */
  function CarriedBy(start: Db, steps: seq<Step>): Relation {
    (stan: string, a: string) => exists n :: 0 <= n < |steps| && AuthorisesOn(start, steps[n], stan, a)
  }

  function ReversedBy(steps: seq<Step>): Relation {
    (stan: string, b: string) => exists n :: 0 <= n < |steps| && ReversesOn(steps[n], stan, b)
  }

  predicate SameKind(r: Request, r': Request) { r.Auth? == r'.Auth? }

  function StanOf(r: Request): string {
    match r
    case Auth(q) => q.stan
    case Rev(v) => v.stan
  }

  /** No two authorisations arrive with one trace number, and no two reversals name the same one. */
  predicate DistinctArrivals(steps: seq<Step>) {
    forall m, n | 0 <= m < n < |steps| && steps[m].Arrive? && steps[n].Arrive? ::
      SameKind(steps[m].req, steps[n].req) ==> StanOf(steps[m].req) != StanOf(steps[n].req)
  }

  // ----- Rows come from authorisations that arrived -----

  lemma ArrivalsConform(start: Db, steps: seq<Step>, n: nat)
    requires n < |steps| && steps[n].Arrive?
    ensures Conforms(CarriedBy(start, steps), ReversedBy(steps), start, steps[n].req)
  {
    match steps[n].req
    case Auth(q) => assert HasAccount(start, q.pan) ==> AuthorisesOn(start, steps[n], q.stan, AccountOf(start, q));
    case Rev(v) => assert ReversesOn(steps[n], v.stan, v.accountId);
  }

  lemma ArrivalsConforming(key: Key, start: Db, clock: nat, run: seq<Sys>, steps: seq<Step>)
    requires IsRun(key, run, steps) && run[0] == Init(start, clock) && start.rows == []
    ensures ConformingRun(key, CarriedBy(start, steps), ReversedBy(steps), start, clock, run, steps)
  {
    forall n | 0 <= n < |steps| && steps[n].Arrive?
      ensures Conforms(CarriedBy(start, steps), ReversedBy(steps), start, steps[n].req)
    {
      ArrivalsConform(start, steps, n);
    }
  }

  /** A live reversal's trace number was carried on its own account. */
  lemma LiveCarried(key: Key, start: Db, clock: nat, run: seq<Sys>, steps: seq<Step>, n: nat) returns (l: nat)
    requires IsRun(key, run, steps) && run[0] == Init(start, clock) && start.rows == [] && ReversalsLive(run, steps)
    requires n < |steps| && steps[n].Arrive? && steps[n].req.Rev?
    ensures l < |steps| && AuthorisesOn(start, steps[l], steps[n].req.v.stan, steps[n].req.v.accountId)
  {
    var v := steps[n].req.v;
    var i: nat :| Names(run[n].db, v, i);
    ArrivalsConforming(key, start, clock, run, steps);
    RowsStayCarried(key, CarriedBy(start, steps), ReversedBy(steps), start, clock, run, steps, n);
    assert CarriedBy(start, steps)(run[n].db.rows[i].stan, run[n].db.rows[i].accountId);
    l :| 0 <= l < |steps| && AuthorisesOn(start, steps[l], v.stan, v.accountId);
  }

  lemma OneCarrier(start: Db, steps: seq<Step>, stan: string, a: string, b: string, m: nat, l: nat)
    requires DistinctArrivals(steps) && m < |steps| && l < |steps|
    requires AuthorisesOn(start, steps[m], stan, a) && AuthorisesOn(start, steps[l], stan, b)
    ensures a == b
  {
  }

  lemma OneAccount(
    key: Key, start: Db, clock: nat, run: seq<Sys>, steps: seq<Step>,
    stan: string, a: string, b: string, m: nat, n: nat)
    requires IsRun(key, run, steps) && run[0] == Init(start, clock) && start.rows == []
    requires DistinctArrivals(steps) && ReversalsLive(run, steps)
    requires m < |steps| && n < |steps| && AuthorisesOn(start, steps[m], stan, a) && ReversesOn(steps[n], stan, b)
    ensures a == b
  {
    var l := LiveCarried(key, start, clock, run, steps, n);
    OneCarrier(start, steps, stan, a, b, m, l);
  }

  /** Distinct trace numbers and live reversals are compatible under every lock key. */
  lemma ArrivalsCompatible(key: Key, start: Db, clock: nat, run: seq<Sys>, steps: seq<Step>)
    requires IsRun(key, run, steps) && run[0] == Init(start, clock) && start.rows == []
    requires DistinctArrivals(steps) && ReversalsLive(run, steps)
    ensures Compatible(key, CarriedBy(start, steps), ReversedBy(steps))
  {
    forall stan: string, a: string, b: string | CarriedBy(start, steps)(stan, a) && ReversedBy(steps)(stan, b)
      ensures a == b
    {
      var m :| 0 <= m < |steps| && AuthorisesOn(start, steps[m], stan, a);
      var n :| 0 <= n < |steps| && ReversesOn(steps[n], stan, b);
      OneAccount(key, start, clock, run, steps, stan, a, b, m, n);
    }
  }

  // ----- What the books keep -----

  /** COMPLETED rows have trace numbers of their own, each that of a finished authorisation. */
  ghost predicate RowsApart(s: Sys) {
    && (forall i, j | 0 <= i < j < |s.db.rows| && s.db.rows[i].status == s.db.rows[j].status == Completed ::
          s.db.rows[i].stan != s.db.rows[j].stan)
    && (forall i | 0 <= i < |s.db.rows| && s.db.rows[i].status == Completed :: FromFinished(s.procs, s.db.rows[i].stan))
  }

  ghost predicate FromFinished(procs: seq<Proc>, stan: string) {
    exists j :: 0 <= j < |procs| && procs[j].req.Auth? && procs[j].phase.Finished? && procs[j].req.q.stan == stan
  }

  lemma FinishedOf(s: Sys, i: nat) returns (j: nat)
    requires RowsApart(s) && i < |s.db.rows| && s.db.rows[i].status == Completed
    ensures j < |s.procs| && s.procs[j].req.Auth? && s.procs[j].phase.Finished?
    ensures s.procs[j].req.q.stan == s.db.rows[i].stan
  {
    j :| 0 <= j < |s.procs| && s.procs[j].req.Auth? && s.procs[j].phase.Finished?
      && s.procs[j].req.q.stan == s.db.rows[i].stan;
  }

  ghost predicate RequestsApart(procs: seq<Proc>) {
    forall i, j | 0 <= i < j < |procs| && SameKind(procs[i].req, procs[j].req) ::
      StanOf(procs[i].req) != StanOf(procs[j].req)
  }

  /** A reversal that has not finished still names a COMPLETED row. */
  ghost predicate Pending(db: Db, p: Proc) {
    p.req.Rev? && !p.phase.Finished? ==> exists i: nat :: Names(db, p.req.v, i)
  }

  ghost predicate AllPending(s: Sys) { forall j | 0 <= j < |s.procs| :: Pending(s.db, s.procs[j]) }

  ghost predicate Kept(start: Db, s: Sys) {
    Conserved(start.accounts, s.db) && RowsApart(s) && RequestsApart(s.procs) && AllPending(s)
  }

  // ----- Commits -----

  lemma AuthRowsApart(s: Sys, s': Sys, e: Entry)
    requires RowsApart(s) && RequestsApart(s.procs) && Committed(s, s', e) && e.op.AuthOp?
    requires Apply(s.db, e.op) == (s'.db, e.reply)
    ensures RowsApart(s')
  {
    forall i | 0 <= i < |s'.db.rows| && s'.db.rows[i].status == Completed
      ensures FromFinished(s'.procs, s'.db.rows[i].stan)
      ensures i < |s.db.rows| && |s'.db.rows| > |s.db.rows| ==> s'.db.rows[i].stan != e.op.q.stan
    {
      if i < |s.db.rows| {
        var j := FinishedOf(s, i);
        assert s'.procs[j] == s.procs[j];
        assert j != e.proc && StanOf(s.procs[j].req) != StanOf(s.procs[e.proc].req);
      } else {
        assert s'.procs[e.proc].phase.Finished?;
      }
    }
  }

  lemma AuthPending(s: Sys, s': Sys, e: Entry)
    requires AllPending(s) && Committed(s, s', e) && e.op.AuthOp? && Apply(s.db, e.op) == (s'.db, e.reply)
    ensures AllPending(s')
  {
    forall j | 0 <= j < |s'.procs| ensures Pending(s'.db, s'.procs[j]) {
      assert Pending(s.db, s.procs[j]);
      if s'.procs[j].req.Rev? && !s'.procs[j].phase.Finished? {
        var i: nat :| Names(s.db, s.procs[j].req.v, i);
        assert Names(s'.db, s'.procs[j].req.v, i);
      }
    }
  }

  lemma RevRowsApart(s: Sys, s': Sys, e: Entry)
    requires RowsApart(s) && Committed(s, s', e) && e.op.RevOp? && Apply(s.db, e.op) == (s'.db, e.reply)
    ensures RowsApart(s')
  {
    forall i | 0 <= i < |s'.db.rows| && s'.db.rows[i].status == Completed
      ensures i < |s.db.rows| && s'.db.rows[i] == s.db.rows[i] && FromFinished(s'.procs, s'.db.rows[i].stan)
    {
      var j := FinishedOf(s, i);
      assert s'.procs[j] == s.procs[j];
    }
  }

  lemma RevPending(s: Sys, s': Sys, e: Entry)
    requires AllPending(s) && RequestsApart(s.procs)
    requires Committed(s, s', e) && e.op.RevOp? && Apply(s.db, e.op) == (s'.db, e.reply)
    ensures AllPending(s')
  {
    forall j | 0 <= j < |s'.procs| ensures Pending(s'.db, s'.procs[j]) {
      assert Pending(s.db, s.procs[j]);
      if s'.procs[j].req.Rev? && !s'.procs[j].phase.Finished? {
        var i: nat :| Names(s.db, s.procs[j].req.v, i);
        assert j != e.proc && StanOf(s.procs[j].req) != StanOf(s.procs[e.proc].req);
        assert Names(s'.db, s'.procs[j].req.v, i);
      }
    }
  }

  lemma ApartOnlyHit(s: Sys, stan: string, i: nat)
    requires RowsApart(s) && i < |s.db.rows| && Hit(s.db.rows[i], stan)
    ensures OnlyHit(s.db.rows, stan, i)
  {
  }

  lemma RevConserves(start: Db, s: Sys, s': Sys, e: Entry)
    requires Conserved(start.accounts, s.db) && RowsApart(s) && AllPending(s)
    requires Committed(s, s', e) && e.op.RevOp? && Apply(s.db, e.op) == (s'.db, e.reply)
    ensures Conserved(start.accounts, s'.db)
  {
    assert Pending(s.db, s.procs[e.proc]);
    var i: nat :| Names(s.db, e.op.v, i);
    ApartOnlyHit(s, e.op.v.stan, i);
    ReverseConserves(start.accounts, s.db, e.op.v, e.op.at, i);
  }

  lemma CommitKeeps(start: Db, s: Sys, s': Sys, e: Entry)
    requires Kept(start, s) && Committed(s, s', e) && Apply(s.db, e.op) == (s'.db, e.reply)
    ensures Kept(start, s')
  {
    if e.op.AuthOp? {
      AuthorizeConserves(start.accounts, s.db, e.op.q, e.op.check, e.op.stamp);
      AuthRowsApart(s, s', e);
      AuthPending(s, s', e);
    } else {
      RevConserves(start, s, s', e);
      RevRowsApart(s, s', e);
      RevPending(s, s', e);
    }
  }

  // ----- Other steps -----

  lemma MoveKeeps(key: Key, start: Db, s: Sys, i: nat)
    requires Kept(start, s) && Enabled(key, s, Advance(i)) && ProcSound(s.db, s.clock, s.procs[i])
    requires Do(key, s, Advance(i)).log == s.log && Do(key, s, Advance(i)).db == s.db
    ensures Kept(start, Do(key, s, Advance(i)))
  {
    var s' := Do(key, s, Advance(i));
    Advances(key, s, i);
    forall j | 0 <= j < |s.db.rows| && s.db.rows[j].status == Completed
      ensures FromFinished(s'.procs, s.db.rows[j].stan)
    {
      var m := FinishedOf(s, j);
      assert s'.procs[m] == s.procs[m];
    }
    forall j | 0 <= j < |s'.procs| ensures Pending(s'.db, s'.procs[j]) {
      assert Pending(s.db, s.procs[j]);
    }
  }

  lemma ArriveKeeps(start: Db, s: Sys, s': Sys, r: Request)
    requires Kept(start, s) && s'.procs == s.procs + [Proc(r, Fresh)] && s'.db == s.db
    requires forall j | 0 <= j < |s.procs| && SameKind(s.procs[j].req, r) :: StanOf(s.procs[j].req) != StanOf(r)
    requires r.Rev? ==> exists i: nat :: Names(s.db, r.v, i)
    ensures Kept(start, s')
  {
    forall i | 0 <= i < |s.db.rows| && s.db.rows[i].status == Completed
      ensures FromFinished(s'.procs, s.db.rows[i].stan)
    {
      var m := FinishedOf(s, i);
      assert s'.procs[m] == s.procs[m];
    }
    forall j | 0 <= j < |s'.procs| ensures Pending(s'.db, s'.procs[j]) {
      assert j < |s.procs| ==> Pending(s.db, s.procs[j]);
    }
  }

  lemma TickKeeps(start: Db, s: Sys, s': Sys)
    requires Kept(start, s) && s'.procs == s.procs && s'.db == s.db
    ensures Kept(start, s')
  {
    forall i | 0 <= i < |s.db.rows| && s.db.rows[i].status == Completed
      ensures FromFinished(s'.procs, s.db.rows[i].stan)
    {
      assert FromFinished(s.procs, s.db.rows[i].stan);
    }
    forall j | 0 <= j < |s'.procs| ensures Pending(s'.db, s'.procs[j]) {
      assert Pending(s.db, s.procs[j]);
    }
  }

  lemma ArrivalApart(key: Key, start: Db, clock: nat, run: seq<Sys>, steps: seq<Step>, n: nat)
    requires IsRun(key, run, steps) && run[0] == Init(start, clock) && DistinctArrivals(steps)
    requires n < |steps| && steps[n].Arrive?
    ensures forall j | 0 <= j < |run[n].procs| && SameKind(run[n].procs[j].req, steps[n].req) ::
              StanOf(run[n].procs[j].req) != StanOf(steps[n].req)
  {
    forall j | 0 <= j < |run[n].procs| && SameKind(run[n].procs[j].req, steps[n].req)
      ensures StanOf(run[n].procs[j].req) != StanOf(steps[n].req)
    {
      var m := ProcsArrived(key, start, clock, run, steps, n, j);
    }
  }

  /**
   * The books of every interleaving from an empty table, under any lock key: if authorisations arrive with trace
   * numbers of their own, and reversals with live ones, none twice, every balance is its start less its COMPLETED sum.
   */
  lemma {:induction false} InterleavingConserves(
    key: Key, start: Db, clock: nat, run: seq<Sys>, steps: seq<Step>, k: nat)
    requires IsRun(key, run, steps) && run[0] == Init(start, clock) && k < |run| && start.rows == []
    requires DistinctArrivals(steps) && ReversalsLive(run, steps)
    ensures Conserved(start.accounts, run[k].db) && Kept(start, run[k])
  {
    if k > 0 {
      InterleavingConserves(key, start, clock, run, steps, k - 1);
      var s, s', step := run[k - 1], run[k], steps[k - 1];
      match step
      case Arrive(r) =>
        ArrivalApart(key, start, clock, run, steps, k - 1);
        ArriveKeeps(start, s, s', r);
      case Tick(_) => TickKeeps(start, s, s');
      case Advance(i) => AdvanceKeeps(key, start, clock, run, steps, k - 1, i);
    }
  }

  lemma AdvanceKeeps(key: Key, start: Db, clock: nat, run: seq<Sys>, steps: seq<Step>, n: nat, i: nat)
    requires IsRun(key, run, steps) && run[0] == Init(start, clock) && start.rows == []
    requires DistinctArrivals(steps) && ReversalsLive(run, steps)
    requires n < |steps| && steps[n] == Advance(i) && Kept(start, run[n])
    ensures Kept(start, run[n + 1])
  {
    var s, s' := run[n], run[n + 1];
    ArrivalsCompatible(key, start, clock, run, steps);
    ArrivalsConforming(key, start, clock, run, steps);
    StepsAreAtomic(key, CarriedBy(start, steps), ReversedBy(steps), start, clock, run, steps, n);
    if e: Entry :| s'.log == s.log + [e] && Committed(s, s', e) && Apply(s.db, e.op) == (s'.db, e.reply) {
      CommitKeeps(start, s, s', e);
    } else {
      RunSound(key, start, clock, run, steps, n);
      assert ProcSound(s.db, s.clock, s.procs[i]);
      MoveKeeps(key, start, s, i);
    }
  }
}
