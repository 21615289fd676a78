/**
 * The exact condition for commit order to explain every run, and why: the update of rows goes by trace number
 * alone, and the lock of one account does not keep it off the rows of an account under another key.
 */
module LockBoundary {
  import opened Common
  import opened Ledger
  import opened LockProtocol
  import opened LockSerial

  // ----- A run that commit order does not explain -----

  /** A trace number that two accounts share; `live` says whether the second has a COMPLETED row of it too. */
  datatype Crossing = Crossing(t: string, a: string, b: string, live: bool)

  function OldRow(c: Crossing, id: string): Row { Row("s0", "pan", id, 100, Completed, c.t, 0) }

  /** A row of 100 on account `a` with the trace number, and a second account `b`. */
  function Start(c: Crossing): Db {
    Db(map["pan" := Card(c.a, Active, 0, "1111", "9912")],
       map[c.b := Account(0, 100, 100, true)][c.a := Account(100, 100, 100, true)],
       [OldRow(c, c.a)] + if c.live then [OldRow(c, c.b)] else [])
  }

  /** An authorisation on `a`, and a reversal on `b` that names the trace number of the row of `a`. */
  function Ask(c: Crossing): AuthRequest { AuthRequest("pan", 50, 1000, "s1", c.t) }

  function Undo(c: Crossing): Reversal { Reversal(c.t, "s0", "pan", c.b, 100) }

  function Asking(c: Crossing, locks: map<int, nat>, phase: Phase): Sys {
    Sys(Start(c), 0, locks, [Proc(Auth(Ask(c)), phase), Proc(Rev(Undo(c)), Fresh)], [])
  }

  lemma OldSum(c: Crossing)
    requires c.a != c.b
    ensures Sum(Start(c).rows, Since(c.a, StartOfDay(0))) == 100
  {
    var rows := [OldRow(c, c.a)];
    assert rows[..0] == [];
    assert Sum(rows, Since(c.a, StartOfDay(0))) == 100;
    if c.live {
      SumAppend(rows, OldRow(c, c.b), Since(c.a, StartOfDay(0)));
    } else {
      assert Start(c).rows == rows;
    }
  }

  lemma AskingReads(key: Key, c: Crossing)
    ensures var s := Asking(c, map[], Fresh);
            Enabled(key, s, Advance(0)) && Do(key, s, Advance(0)) == Asking(c, map[], CardRead(c.a, 100))
  {
  }

  lemma AskingLocks(key: Key, c: Crossing)
    ensures var s := Asking(c, map[], CardRead(c.a, 100));
            Enabled(key, s, Advance(0)) && Do(key, s, Advance(0)) == Asking(c, map[key(c.a) := 0], Locked(c.a, 100))
  {
  }

  lemma AskingFunds(key: Key, c: Crossing)
    ensures var s := Asking(c, map[key(c.a) := 0], Locked(c.a, 100));
            Enabled(key, s, Advance(0)) && Do(key, s, Advance(0)) == Asking(c, map[key(c.a) := 0], Funded(c.a, 100))
  {
  }

  lemma AskingFails(key: Key, c: Crossing)
    requires c.a != c.b
    ensures var s := Asking(c, map[key(c.a) := 0], Funded(c.a, 100));
            && Enabled(key, s, Advance(0))
            && Do(key, s, Advance(0)) == Asking(c, map[key(c.a) := 0], Refusing(Some(c.a), ExceedsLimit, 0))
  {
    OldSum(c);
  }

  /** The authorisation runs up to its refusal, and holds the lock of `a`. */
  lemma Refused(key: Key, c: Crossing) returns (run: seq<Sys>, steps: seq<Step>)
    requires c.a != c.b
    ensures IsRun(key, run, steps) && |run| == 5 && run[0] == Asking(c, map[], Fresh)
    ensures run[4] == Asking(c, map[key(c.a) := 0], Refusing(Some(c.a), ExceedsLimit, 0))
    ensures forall n :: 0 <= n < |steps| ==> steps[n].Advance?
  {
    AskingReads(key, c);
    AskingLocks(key, c);
    AskingFunds(key, c);
    AskingFails(key, c);
    var locks := map[key(c.a) := 0];
    run := [Asking(c, map[], Fresh), Asking(c, map[], CardRead(c.a, 100)), Asking(c, locks, Locked(c.a, 100)),
            Asking(c, locks, Funded(c.a, 100)), Asking(c, locks, Refusing(Some(c.a), ExceedsLimit, 0))];
    steps := [Advance(0), Advance(0), Advance(0), Advance(0)];
  }

  function Undoing(key: Key, c: Crossing, phase: Phase): Sys {
    var locks := if phase == Fresh then map[key(c.a) := 0] else map[key(c.a) := 0, key(c.b) := 1];
    Sys(Start(c), 0, locks,
        [Proc(Auth(Ask(c)), Refusing(Some(c.a), ExceedsLimit, 0)), Proc(Rev(Undo(c)), phase)], [])
  }

  const PAID := Account(100, 0, 100, true)

  function OldHits(c: Crossing): set<nat> { if c.live then {0, 1} else {0} }

  lemma OldHit(c: Crossing)
    ensures Hits(Start(c).rows, c.t) == OldHits(c)
  {
  }

  lemma UndoingLocks(key: Key, c: Crossing)
    requires key(c.a) != key(c.b)
    ensures var s := Undoing(key, c, Fresh);
            Enabled(key, s, Advance(1)) && Do(key, s, Advance(1)) == Undoing(key, c, RevLocked(c.b))
  {
  }

  lemma UndoingCredits(key: Key, c: Crossing)
    requires c.a != c.b
    ensures var s := Undoing(key, c, RevLocked(c.b));
            Enabled(key, s, Advance(1)) && Do(key, s, Advance(1)) == Undoing(key, c, RevCredited(c.b, PAID))
  {
  }

  lemma UndoingFlips(key: Key, c: Crossing)
    ensures var s := Undoing(key, c, RevCredited(c.b, PAID));
            Enabled(key, s, Advance(1)) && Do(key, s, Advance(1)) == Undoing(key, c, RevFlipped(c.b, PAID, OldHits(c)))
  {
    OldHit(c);
  }

  lemma UndoingInserts(key: Key, c: Crossing)
    ensures var s := Undoing(key, c, RevFlipped(c.b, PAID, OldHits(c)));
            && Enabled(key, s, Advance(1))
            && Do(key, s, Advance(1)) == Undoing(key, c, RevInserted(c.b, PAID, OldHits(c), 0))
  {
  }

  lemma UndoingCommits(key: Key, c: Crossing)
    ensures var s := Undoing(key, c, RevInserted(c.b, PAID, OldHits(c), 0));
            && Enabled(key, s, Advance(1))
            && Do(key, s, Advance(1)).log == [Entry(1, RevOp(Undo(c), 0), Undone)]
            && |Do(key, s, Advance(1)).procs| == 2 && Do(key, s, Advance(1)).procs[0] == s.procs[0]
  {
  }

  /** Meanwhile the reversal runs under the lock of `b` and commits first. */
  lemma UndoneFirst(key: Key, c: Crossing) returns (run: seq<Sys>, steps: seq<Step>)
    requires key(c.a) != key(c.b)
    ensures IsRun(key, run, steps) && |run| == 6 && run[0] == Undoing(key, c, Fresh)
    ensures run[5].log == [Entry(1, RevOp(Undo(c), 0), Undone)]
    ensures |run[5].procs| == 2 && run[5].procs[0] == run[0].procs[0]
    ensures forall n :: 0 <= n < |steps| ==> steps[n].Advance?
  {
    UndoingLocks(key, c);
    UndoingCredits(key, c);
    UndoingFlips(key, c);
    UndoingInserts(key, c);
    UndoingCommits(key, c);
    var u0, u1, u2 := Undoing(key, c, Fresh), Undoing(key, c, RevLocked(c.b)), Undoing(key, c, RevCredited(c.b, PAID));
    var u3 := Undoing(key, c, RevFlipped(c.b, PAID, OldHits(c)));
    var u4 := Undoing(key, c, RevInserted(c.b, PAID, OldHits(c), 0));
    run, steps := FiveSteps(key, u0, u1, u2, u3, u4);
  }

  lemma FiveSteps(key: Key, u0: Sys, u1: Sys, u2: Sys, u3: Sys, u4: Sys) returns (run: seq<Sys>, steps: seq<Step>)
    requires Enabled(key, u0, Advance(1)) && Do(key, u0, Advance(1)) == u1
    requires Enabled(key, u1, Advance(1)) && Do(key, u1, Advance(1)) == u2
    requires Enabled(key, u2, Advance(1)) && Do(key, u2, Advance(1)) == u3
    requires Enabled(key, u3, Advance(1)) && Do(key, u3, Advance(1)) == u4
    requires Enabled(key, u4, Advance(1))
    ensures IsRun(key, run, steps) && |run| == 6 && run[0] == u0 && run[5] == Do(key, u4, Advance(1))
    ensures forall n :: 0 <= n < |steps| ==> steps[n].Advance?
  {
    run, steps := [u0], [];
    run, steps := Extended(key, run, steps, u1);
    run, steps := Extended(key, run, steps, u2);
    run, steps := Extended(key, run, steps, u3);
    run, steps := Extended(key, run, steps, u4);
    run, steps := Extended(key, run, steps, Do(key, u4, Advance(1)));
  }

  lemma Extended(key: Key, run: seq<Sys>, steps: seq<Step>, next: Sys) returns (run': seq<Sys>, steps': seq<Step>)
    requires IsRun(key, run, steps)
    requires Enabled(key, run[|steps|], Advance(1)) && next == Do(key, run[|steps|], Advance(1))
    requires forall n :: 0 <= n < |steps| ==> steps[n].Advance?
    ensures IsRun(key, run', steps') && run' == run + [next] && |steps'| == |steps| + 1
    ensures forall n :: 0 <= n < |steps'| ==> steps'[n].Advance?
  {
    run', steps' := run + [next], steps + [Advance(1)];
  }

  /** One at a time, in that order, the authorisation would have been approved. */
  lemma SerialApproves(c: Crossing)
    requires c.a != c.b
    ensures Apply(Run(Start(c), [RevOp(Undo(c), 0)]), AuthOp(Ask(c), 0, 0)).1.Approved?
  {
    assert [RevOp(Undo(c), 0)][..0] == [];
    var db := Reverse(Start(c), Undo(c), 0).0;
    assert Run(Start(c), [RevOp(Undo(c), 0)]) == db;
    NothingLeft(db.rows, Since(c.a, StartOfDay(0)));
  }

  lemma {:induction false} NothingLeft(rows: seq<Row>, w: Window)
    requires forall i | 0 <= i < |rows| :: rows[i].status == Reversed
    ensures Sum(rows, w) == 0
  {
    if rows != [] {
      NothingLeft(rows[..|rows| - 1], w);
    }
  }

  lemma Joined(key: Key, a: seq<Sys>, s: seq<Step>, b: seq<Sys>, t: seq<Step>)
    requires IsRun(key, a, s) && IsRun(key, b, t) && a[|s|] == b[0]
    ensures IsRun(key, a + b[1..], s + t) && (a + b[1..])[|s + t|] == b[|t|]
  {
    var run, steps := a + b[1..], s + t;
    forall k | 0 <= k < |steps| ensures Enabled(key, run[k], steps[k]) && run[k + 1] == Do(key, run[k], steps[k]) {
      if k < |s| {
        assert run[k] == a[k] && run[k + 1] == a[k + 1];
      } else {
        assert run[k] == b[k - |s|] && run[k + 1] == b[k - |s| + 1];
      }
    }
  }

  lemma Unexplained(c: Crossing, log: seq<Entry>, db: Db)
    requires c.a != c.b
    requires log == [Entry(1, RevOp(Undo(c), 0), Undone), Entry(0, AuthOp(Ask(c), 0, 0), Declined(ExceedsLimit))]
    ensures !Explains(Start(c), log, db)
  {
    SerialApproves(c);
    assert Ops(log[..1]) == [RevOp(Undo(c), 0)];
    assert log[1].reply != Apply(Run(Start(c), Ops(log[..1])), log[1].op).1;
  }

  lemma Arrivals(key: Key, c: Crossing) returns (run: seq<Sys>, steps: seq<Step>)
    ensures IsRun(key, run, steps) && |run| == 3 && run[0] == Init(Start(c), 0)
    ensures run[2] == Asking(c, map[], Fresh) && steps == [Arrive(Auth(Ask(c))), Arrive(Rev(Undo(c)))]
  {
    var s0 := Init(Start(c), 0);
    run := [s0, Do(key, s0, Arrive(Auth(Ask(c)))), Asking(c, map[], Fresh)];
    steps := [Arrive(Auth(Ask(c))), Arrive(Rev(Undo(c)))];
  }

  /** The refused authorisation commits last. */
  lemma Declining(key: Key, c: Crossing, s: Sys) returns (run: seq<Sys>, steps: seq<Step>)
    requires |s.procs| == 2 && s.procs[0] == Proc(Auth(Ask(c)), Refusing(Some(c.a), ExceedsLimit, 0))
    ensures IsRun(key, run, steps) && |run| == 2 && run[0] == s && steps == [Advance(0)]
    ensures run[1].log == s.log + [Entry(0, AuthOp(Ask(c), 0, 0), Declined(ExceedsLimit))]
  {
    run, steps := [s, Do(key, s, Advance(0))], [Advance(0)];
  }

  predicate OnlyAdvances(steps: seq<Step>, from: nat) { forall n :: from <= n < |steps| ==> steps[n].Advance? }

  /**
   * For any key that tells two accounts apart and any trace number, a run on which the two accounts share it that
   * commit order does not explain.
   */
  lemma CrossAccountReversal(key: Key, c: Crossing) returns (run: seq<Sys>, steps: seq<Step>)
    requires key(c.a) != key(c.b)
    ensures IsRun(key, run, steps) && run[0] == Init(Start(c), 0)
    ensures |steps| >= 2 && steps[0] == Arrive(Auth(Ask(c))) && steps[1] == Arrive(Rev(Undo(c)))
    ensures OnlyAdvances(steps, 2)
    ensures !Explains(Start(c), run[|steps|].log, run[|steps|].db)
  {
    var run0, steps0 := Arrivals(key, c);
    var run1, steps1 := Refused(key, c);
    var run2, steps2 := UndoneFirst(key, c);
    var run3, steps3 := Declining(key, c, run2[5]);
    Joined(key, run0, steps0, run1, steps1);
    Joined(key, run0 + run1[1..], steps0 + steps1, run2, steps2);
    Joined(key, run0 + run1[1..] + run2[1..], steps0 + steps1 + steps2, run3, steps3);
    run, steps := run0 + run1[1..] + run2[1..] + run3[1..], steps0 + steps1 + steps2 + steps3;
    Unexplained(c, run[|steps|].log, run[|steps|].db);
  }

  // ----- The exact condition -----

  /** Commit order explains every state of every run that conforms to the relations. */
  ghost predicate AllExplained(key: Key, carries: Relation, reverses: Relation) {
    forall start: Db, clock: nat, run: seq<Sys>, steps: seq<Step>, k: nat |
      ConformingRun(key, carries, reverses, start, clock, run, steps) && k < |run| ::
      Explains(start, run[k].log, run[k].db)
  }

  /** The like of runs on which each reversal names, when it arrives, a COMPLETED row of its own account. */
  ghost predicate LiveExplained(key: Key, carries: Relation, reverses: Relation) {
    forall start: Db, clock: nat, run: seq<Sys>, steps: seq<Step>, k: nat |
      ConformingRun(key, carries, reverses, start, clock, run, steps) && ReversalsLive(run, steps) && k < |run| ::
      Explains(start, run[k].log, run[k].db)
  }

  lemma CrossingConforms(key: Key, carries: Relation, reverses: Relation, c: Crossing)
    requires carries(c.t, c.a) && reverses(c.t, c.b) && key(c.a) != key(c.b) && (c.live ==> carries(c.t, c.b))
    ensures !AllExplained(key, carries, reverses) && (c.live ==> !LiveExplained(key, carries, reverses))
  {
    var run, steps := CrossAccountReversal(key, c);
    var start := Start(c);
    forall n | 0 <= n < |steps| && steps[n].Arrive? ensures Conforms(carries, reverses, start, steps[n].req) {
      assert n < 2;
    }
    assert ConformingRun(key, carries, reverses, start, 0, run, steps) && |steps| < |run|;
    if c.live {
      forall n | 0 <= n < |steps| && steps[n].Arrive? && steps[n].req.Rev?
        ensures exists i: nat :: Names(run[n].db, steps[n].req.v, i)
      {
        assert n == 1 && run[1].db == start && Names(run[1].db, Undo(c), 1);
      }
      assert ReversalsLive(run, steps);
    }
  }

  /**
   * For any lock key and any relation of trace numbers to accounts, commit order explains every conforming run if
   * and only if, whenever one number may be carried on one account and reversed on another, the two accounts share
   * their lock key.
   */
  lemma ExplainedExactly(key: Key, carries: Relation, reverses: Relation)
    ensures AllExplained(key, carries, reverses) <==> Compatible(key, carries, reverses)
  {
    if Compatible(key, carries, reverses) {
      forall start: Db, clock: nat, run: seq<Sys>, steps: seq<Step>, k: nat |
        ConformingRun(key, carries, reverses, start, clock, run, steps) && k < |run|
        ensures Explains(start, run[k].log, run[k].db)
      {
        Serializable(key, carries, reverses, start, clock, run, steps, k);
      }
    } else {
      var t: string, a: string, b: string :| carries(t, a) && reverses(t, b) && key(a) != key(b);
      CrossingConforms(key, carries, reverses, Crossing(t, a, b, false));
    }
  }

  /** Trace numbers that may be both carried and reversed on an account. */
  function Both(carries: Relation, reverses: Relation): Relation {
    (stan: string, b: string) => carries(stan, b) && reverses(stan, b)
  }

  lemma LiveConforms(
    key: Key, carries: Relation, reverses: Relation, start: Db, clock: nat, run: seq<Sys>, steps: seq<Step>)
    requires ConformingRun(key, carries, reverses, start, clock, run, steps) && ReversalsLive(run, steps)
    ensures ConformingRun(key, carries, Both(carries, reverses), start, clock, run, steps)
  {
    forall n | 0 <= n < |steps| && steps[n].Arrive?
      ensures Conforms(carries, Both(carries, reverses), start, steps[n].req)
    {
      assert Conforms(carries, reverses, start, steps[n].req);
      if steps[n].req.Rev? {
        var v := steps[n].req.v;
        var i: nat :| Names(run[n].db, v, i);
        RowsStayCarried(key, carries, reverses, start, clock, run, steps, n);
        assert carries(run[n].db.rows[i].stan, run[n].db.rows[i].accountId);
      }
    }
  }

  /**
   * Where reversals name live rows of their own accounts, commit order explains every run if and only if, whenever
   * one number may be carried on two accounts and reversed on one of them, the two share their lock key.
   */
  lemma LiveExplainedExactly(key: Key, carries: Relation, reverses: Relation)
    ensures LiveExplained(key, carries, reverses) <==> Compatible(key, carries, Both(carries, reverses))
  {
    if Compatible(key, carries, Both(carries, reverses)) {
      forall start: Db, clock: nat, run: seq<Sys>, steps: seq<Step>, k: nat |
        ConformingRun(key, carries, reverses, start, clock, run, steps) && ReversalsLive(run, steps) && k < |run|
        ensures Explains(start, run[k].log, run[k].db)
      {
        LiveConforms(key, carries, reverses, start, clock, run, steps);
        Serializable(key, carries, Both(carries, reverses), start, clock, run, steps, k);
      }
    } else {
      var t: string, a: string, b: string :| carries(t, a) && Both(carries, reverses)(t, b) && key(a) != key(b);
      CrossingConforms(key, carries, reverses, Crossing(t, a, b, true));
    }
  }
}
