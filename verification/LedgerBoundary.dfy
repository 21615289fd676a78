/** Why the books need trace numbers that are not used twice. */
module LedgerBoundary {
  import opened Common
  import opened Ledger

  const EMPTY := Db(map["pan" := Card("A", Active, 0, "1111", "9912")], map["A" := Account(100, 0, 100, true)], [])

  function First(stan: string): Op { AuthOp(AuthRequest("pan", 10, 100, "s1", stan), 0, 0) }

  function Second(stan: string): Op { AuthOp(AuthRequest("pan", 20, 100, "s2", stan), 0, 0) }

  /** The reversal of the first withdrawal. */
  function UndoFirst(stan: string): Reversal { Reversal(stan, "s1", "pan", "A", 10) }

  function Rows(stan: string): seq<Row> {
    [Row("s1", "pan", "A", 10, Completed, stan, 0), Row("s2", "pan", "A", 20, Completed, stan, 0)]
  }

  function Both(stan: string): Db { EMPTY.(accounts := map["A" := Account(70, 30, 100, true)], rows := Rows(stan)) }

  lemma FirstApproved(stan: string)
    ensures Apply(EMPTY, First(stan)) ==
            (EMPTY.(accounts := map["A" := Account(90, 10, 100, true)], rows := Rows(stan)[..1]), Approved(90))
  {
    assert Sum(EMPTY.rows, Since("A", StartOfDay(0))) == 0;
    assert EMPTY.rows + [Rows(stan)[0]] == Rows(stan)[..1];
    assert EMPTY.accounts["A" := Account(90, 10, 100, true)] == map["A" := Account(90, 10, 100, true)];
  }

  lemma SecondApproved(stan: string)
    ensures Apply(EMPTY.(accounts := map["A" := Account(90, 10, 100, true)], rows := Rows(stan)[..1]), Second(stan)) ==
            (Both(stan), Approved(70))
  {
    var rows := Rows(stan)[..1];
    assert rows[..0] == [];
    assert Sum(rows, Since("A", StartOfDay(0))) == 10;
    assert rows + [Rows(stan)[1]] == Rows(stan);
    var accounts := map["A" := Account(90, 10, 100, true)];
    assert accounts["A" := Account(70, 30, 100, true)] == map["A" := Account(70, 30, 100, true)];
  }

  lemma BothConserved(stan: string)
    ensures Conserved(EMPTY.accounts, Both(stan))
  {
    var rows := Rows(stan);
    assert rows[..1][..0] == [];
    assert Sum(rows[..1], Ever("A")) == 10;
    assert Sum(rows, Ever("A")) == 30;
  }

  /**
   * Two counters a multiple of a million apart, or one counter used again after a restart: two approved withdrawals
   * share their trace number, the books balance, and reversing the first by its own number, account and amount
   * breaks them.
   */
  lemma ReusedTraceNumber(m: nat, n: nat) returns (ops: seq<Op>)
    requires m % 1_000_000 == n % 1_000_000
    ensures |ops| == 3 && ops[0] == First(FormatStan(m)) && ops[1] == Second(FormatStan(n))
    ensures ops[2].RevOp? && Names(Run(EMPTY, ops[..2]), ops[2].v, 0) && Conserved(EMPTY.accounts, Run(EMPTY, ops[..2]))
    ensures !Conserved(EMPTY.accounts, Run(EMPTY, ops))
  {
    var stan := FormatStan(m);
    FormatStanInjective(m, n);
    ops := [First(stan), Second(stan), RevOp(UndoFirst(stan), 0)];
    FirstApproved(stan);
    SecondApproved(stan);
    TwoRun(ops[0], ops[1]);
    assert ops[..2] == [ops[0], ops[1]];
    RunSnoc(EMPTY, ops[..2], ops[2]);
    assert ops[..2] + [ops[2]] == ops;
    BothConserved(stan);
    ReversalExact(EMPTY.accounts, Both(stan), UndoFirst(stan), 0, 0);
    assert Hit(Rows(stan)[1], stan);
  }

  lemma TwoRun(a: Op, b: Op)
    ensures Run(EMPTY, [a, b]) == Apply(Apply(EMPTY, a).0, b).0
  {
    assert [a, b][..1] == [a] && [a][..0] == [];
    assert Run(EMPTY, [a]) == Apply(EMPTY, a).0;
  }

  /** The counters 1 and 1,000,001 are such a pair. */
  lemma WrappedCounter() returns (ops: seq<Op>)
    ensures |ops| == 3 && ops[0] == First(FormatStan(1)) && ops[1] == Second(FormatStan(1_000_001))
    ensures !Conserved(EMPTY.accounts, Run(EMPTY, ops))
  {
    ops := ReusedTraceNumber(1, 1_000_001);
  }
}
