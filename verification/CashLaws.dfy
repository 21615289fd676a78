/** What the dispenser pays, takes back and counts, told from the fields of its cassettes. */
module CashLaws {
  import opened Common
  import opened CashDispenser
  import opened CashMix

  // ----- The mix that was asked for -----

  /** A cassette can give so many notes of a denomination: it is not REJECT, not jammed, and holds as many. */
  predicate Gives(us: seq<CashUnit>, denom: int, count: int) {
    exists i :: 0 <= i < |us| && us[i].denomination == denom && us[i].unitId != "REJECT" && us[i].status != Jammed &&
                us[i].count >= count
  }

  lemma GivesExactly(us: seq<CashUnit>, n: Notes)
    requires Valid(us)
    ensures CanPay(us, n) <==> Gives(us, n.denom, n.count)
  {
    var f := FindUnit(us, n.denom);
    if i :| 0 <= i < |us| && us[i].denomination == n.denom && us[i].unitId != "REJECT" && us[i].status != Jammed &&
            us[i].count >= n.count {
      assert Matches(us[i], n.denom);
    }
  }

  /**
   * A DISPENSE with a mix of its own pays if and only if the amount is positive, the mix has positive denominations
   * and no negative counts and adds up to it, and a cassette can give each entry. Otherwise it fails and changes
   * nothing.
   */
  lemma CustomAnswered(c: Cdm, amount: int, mix: Mix, present: bool)
    requires Valid(c.units) && !c.injected && IsRecord(mix)
    ensures var (c', r) := Step(c, Dispense(amount, Some(mix), present));
            && (r == Dispensed(amount) <==>
                  && amount > 0 && MixValue(mix) == amount
                  && forall k :: 0 <= k < |mix| ==>
                       mix[k].denom > 0 && mix[k].count >= 0 && Gives(c.units, mix[k].denom, mix[k].count))
            && (r != Dispensed(amount) ==> r == Failed && c' == c)
            && (r == Dispensed(amount) ==> c'.presented == Some(Cash(amount, mix)))
  {
    forall k | 0 <= k < |mix| ensures CanPay(c.units, mix[k]) <==> Gives(c.units, mix[k].denom, mix[k].count) {
      GivesExactly(c.units, mix[k]);
    }
  }

  // ----- The mix that the dispenser chooses -----

  lemma DefaultStep(c: Cdm, amount: nat, present: bool)
    requires Valid(c.units) && !c.injected
    ensures var (c', r) := Step(c, Dispense(amount, None, present));
            if amount > 0 && MinNotesMix(c.units, amount).Some? then
              r == Dispensed(amount) && c'.presented == Some(Cash(amount, MinNotesMix(c.units, amount).value))
            else r == Failed && c' == c
  {
    if amount > 0 && MinNotesMix(c.units, amount).Some? {
      MinNotesMixFacts(c.units, amount);
    }
  }

  /**
   * Without a mix of its own it pays if and only if the amount is positive and nothing is left of it after as many
   * 100,000 notes as stock and amount allow, then as many 50,000 and as many 20,000 notes; and pays with those.
   */
  lemma DefaultAnswered(c: Cdm, amount: nat, present: bool) returns (x: nat, y: nat, z: nat)
    requires Valid(c.units) && ThreeNotes(c.units) && !c.injected
    ensures Greediest(Stock(c.units, 100_000), x, amount, amount - 100_000 * x, 100_000)
    ensures Greediest(Stock(c.units, 50_000), y, amount - 100_000 * x, amount - 100_000 * x - 50_000 * y, 50_000)
    ensures Greediest(Stock(c.units, 20_000), z, amount - 100_000 * x - 50_000 * y,
                      amount - 100_000 * x - 50_000 * y - 20_000 * z, 20_000)
    ensures var (c', r) := Step(c, Dispense(amount, None, present));
            && (r == Dispensed(amount) <==> amount > 0 && amount == 100_000 * x + 50_000 * y + 20_000 * z)
            && (r != Dispensed(amount) ==> r == Failed && c' == c)
            && (r == Dispensed(amount) ==> c'.presented == Some(Cash(amount, Pay(x, y, z))))
  {
    x, y, z := MixThree(c.units, amount);
    StocksNonNegative(c.units);
    DividesGreedily(Stock(c.units, 100_000), Stock(c.units, 50_000), Stock(c.units, 20_000), amount, x, y, z);
    DefaultStep(c, amount, present);
  }

  /**
   * Of the amounts that the ATM accepts, those are paid that can be paid at all from the cassettes in service and of
   * which it takes an even number of 50,000 notes.
   */
  lemma DispensedExactly(c: Cdm, amount: nat, present: bool) returns (x: nat, y: nat, z: nat)
    requires Valid(c.units) && ThreeNotes(c.units) && !c.injected && amount > 0 && amount % 20_000 == 0
    ensures Greediest(Stock(c.units, 100_000), x, amount, amount - 100_000 * x, 100_000)
    ensures Greediest(Stock(c.units, 50_000), y, amount - 100_000 * x, amount - 100_000 * x - 50_000 * y, 50_000)
    ensures Step(c, Dispense(amount, None, present)).1 == Dispensed(amount) <==>
            y % 2 == 0 && exists a: nat, b: nat, d: nat :: Payable(c.units, amount, a, b, d)
  {
    x, y, z := GreedyPaysExactly(c.units, amount);
    StocksNonNegative(c.units);
    DividesGreedily(Stock(c.units, 100_000), Stock(c.units, 50_000), Stock(c.units, 20_000), amount, x, y, z);
    DefaultStep(c, amount, present);
  }

  /** The last notes of a cassette that has run low are paid out: 50 of 100,000 in CASS1, with its minimum of 50. */
  lemma LowIsPaid(c: Cdm)
    requires c == Cdm([CashUnit("CASS1", 100_000, Low, 50, 500, 2500, 50)], None, false, false)
    ensures Step(c, Dispense(100_000, None, true)).1 == Dispensed(100_000)
  {
    assert Stock(c.units, 100_000) == 50;
    var x, y, z := DefaultAnswered(c, 100_000, true);
  }

  // ----- What leaves the cassettes -----

  /** The entry of a denomination in a mix. */
  function CountOf(mix: Mix, denom: int): Option<int> {
    if mix == [] then None else if mix[0].denom == denom then Some(mix[0].count) else CountOf(mix[1..], denom)
  }

  /** The cassette gives so many notes, and is EMPTY if none is left, else LOW if no more than its minimum are. */
  predicate Gave(u: CashUnit, v: CashUnit, count: int) {
    && v.(count := u.count, status := u.status) == u && v.count == u.count - count
    && v.status == if v.count == 0 then Empty else if v.count <= u.minimum then Low else u.status
  }

  predicate GaveMix(us: seq<CashUnit>, vs: seq<CashUnit>, mix: Mix) {
    && |us| == |vs|
    && forall i :: 0 <= i < |us| ==>
         match CountOf(mix, us[i].denomination)
         case Some(n) => if us[i].unitId == "REJECT" then vs[i] == us[i] else Gave(us[i], vs[i], n)
         case None => vs[i] == us[i]
  }

  lemma {:induction false} CountOfAbsent(mix: Mix, denom: int)
    requires forall k :: 0 <= k < |mix| ==> mix[k].denom != denom
    ensures CountOf(mix, denom).None?
  {
    if mix != [] {
      CountOfAbsent(mix[1..], denom);
    }
  }

  lemma DeductOneGives(us: seq<CashUnit>, n: Notes, i: nat)
    requires Valid(us) && CanPay(us, n) && n.count >= 0 && i < |us|
    ensures us[i].denomination == n.denom && us[i].unitId != "REJECT" ==> Gave(us[i], DeductOne(us, n)[i], n.count)
    ensures us[i].denomination != n.denom || us[i].unitId == "REJECT" ==> DeductOne(us, n)[i] == us[i]
  {
    var f := FindUnit(us, n.denom);
  }

  lemma {:induction false} DeductGives(us: seq<CashUnit>, mix: Mix)
    requires Valid(us) && Preflight(us, mix) && IsRecord(mix) && Counts(mix)
    ensures GaveMix(us, Deduct(us, mix), mix)
    decreases |mix|
  {
    if mix != [] {
      var n, rest := mix[0], mix[1..];
      var vs := DeductOne(us, n);
      DeductOneFacts(us, n);
      forall k | 0 <= k < |rest| ensures CanPay(vs, rest[k]) {
        assert CanPay(us, mix[k + 1]);
        CanPayAfter(us, n, rest[k]);
      }
      DeductGives(vs, rest);
      CountOfAbsent(rest, n.denom);
      forall i | 0 <= i < |us| ensures DeductOne(us, n)[i].denomination == us[i].denomination {
        DeductOneGives(us, n, i);
      }
      DeductCons(us, vs, Deduct(vs, rest), n, rest);
      assert mix == [n] + rest;
    }
  }

  lemma DeductCons(us: seq<CashUnit>, vs: seq<CashUnit>, ws: seq<CashUnit>, n: Notes, rest: Mix)
    requires Valid(us) && CanPay(us, n) && n.count >= 0 && vs == DeductOne(us, n) && GaveMix(vs, ws, rest)
    requires CountOf(rest, n.denom).None?
    ensures GaveMix(us, ws, [n] + rest)
  {
    assert ([n] + rest)[1..] == rest;
    forall i | 0 <= i < |us| ensures
      match CountOf([n] + rest, us[i].denomination)
      case Some(k) => if us[i].unitId == "REJECT" then ws[i] == us[i] else Gave(us[i], ws[i], k)
      case None => ws[i] == us[i]
    {
      DeductOneGives(us, n, i);
    }
  }

  /** What was dispensed has left exactly the cassettes of its mix, and is presented; the timer is armed if asked. */
  lemma DispenseEffect(c: Cdm, amount: int, custom: Option<Mix>, present: bool)
    requires Valid(c.units) && WellFormed(Dispense(amount, custom, present))
    ensures var (c', r) := Step(c, Dispense(amount, custom, present));
            r.Dispensed? ==>
              && c'.presented.Some? && c'.presented.value.amount == amount
              && MixValue(c'.presented.value.notes) == amount
              && (custom.Some? ==> c'.presented.value.notes == custom.value)
              && GaveMix(c.units, c'.units, c'.presented.value.notes)
              && c'.takeArmed == (present || c.takeArmed) && c'.injected == c.injected
  {
    var (c', r) := Step(c, Dispense(amount, custom, present));
    if r.Dispensed? {
      ChooseMixFacts(c.units, amount, custom);
      DeductGives(c.units, ChooseMix(c.units, amount, custom).value);
    }
  }

  // ----- The other commands -----

  /** The status that a count deserves. */
  predicate Deserves(u: CashUnit, count: int, status: UnitStatus) {
    status == if count == 0 then Empty else if count <= u.minimum then Low else OK
  }

  /** Only the cassette with this id has changed. */
  predicate OnlyChanged(us: seq<CashUnit>, vs: seq<CashUnit>, i: nat) {
    |us| == |vs| && i < |us| && forall k :: 0 <= k < |us| && k != i ==> vs[k] == us[k]
  }

  /** Presented notes go to REJECT, if there is one, and nothing else changes; with none presented RETRACT fails. */
  lemma RetractEffect(c: Cdm, i: nat)
    requires Valid(c.units) && !c.injected && i < |c.units| && c.units[i].unitId == "REJECT"
    ensures var (c', r) := Step(c, Retract);
            if c.presented.None? then r == Failed && c' == c
            else
              && r == Done && c'.presented.None? && !c'.takeArmed && OnlyChanged(c.units, c'.units, i)
              && c'.units[i] == c.units[i].(count := c.units[i].count + NoteCount(c.presented.value.notes))
  {
  }

  /** A count within the maximum is set, with the status that it deserves; any other is refused. */
  lemma ReplenishEffect(c: Cdm, i: nat, n: int)
    requires Valid(c.units) && i < |c.units|
    ensures var (c', r) := Step(c, Replenish(c.units[i].unitId, n));
            if 0 <= n <= c.units[i].maximum then
              && r == Done && c' == c.(units := c'.units) && OnlyChanged(c.units, c'.units, i)
              && Deserves(c.units[i], n, c'.units[i].status)
              && c'.units[i] == c.units[i].(count := n, status := c'.units[i].status)
            else r == Failed && c' == c
  {
  }

  /** A jam only marks the cassette; clearing it gives the status that the count deserves. */
  lemma JamEffect(c: Cdm, i: nat, jam: bool)
    requires Valid(c.units) && i < |c.units|
    ensures var id := c.units[i].unitId;
            var (c', r) := Step(c, if jam then SimulateJam(id) else ClearJam(id));
            && r == Done && c' == c.(units := c'.units) && OnlyChanged(c.units, c'.units, i)
            && c'.units[i] == c.units[i].(status := c'.units[i].status)
            && if jam then c'.units[i].status == Jammed else Deserves(c.units[i], c.units[i].count, c'.units[i].status)
  {
  }

  /** No cassette of that id: refused. */
  lemma UnknownUnit(c: Cdm, id: string, n: int)
    requires Valid(c.units) && forall i :: 0 <= i < |c.units| ==> c.units[i].unitId != id
    ensures Step(c, Replenish(id, n)) == (c, Failed)
    ensures Step(c, SimulateJam(id)) == (c, Failed) && Step(c, ClearJam(id)) == (c, Failed)
  {
  }

  /** PRESENT arms the take timer, and the notes are gone when it fires; RESET drops them and an injected error. */
  lemma PresentEffect(c: Cdm)
    requires Valid(c.units) && !c.injected
    ensures Step(c, Present) == if c.presented.None? then (c, Failed) else (c.(takeArmed := true), Done)
    ensures Step(c, NotesTaken).0 == if c.takeArmed then c.(presented := None, takeArmed := false) else c
    ensures Step(c, Reset).0 == c.(presented := None, takeArmed := false)
  {
  }

  /** An injected error fails the next device command, whatever it is, and that one only; RESET gets past it. */
  lemma InjectedFailsOnce(c: Cdm, cmd: Command)
    requires Valid(c.units)
    requires cmd.Dispense? || cmd.Present? || cmd.Retract? || cmd.CashUnitInfo? || cmd.Count? || cmd.Exchange?
    ensures Step(Step(c, InjectError).0, cmd) == (c.(injected := false), Failed)
    ensures Step(Step(c, InjectError).0, Reset).0 == Step(c.(injected := false), Reset).0
    ensures Step(Step(c, InjectError).0, ClearError).0 == c.(injected := false)
  {
  }

  lemma StockCons(us: seq<CashUnit>, denom: int)
    requires us != []
    ensures Stock(us, denom) ==
            if us[0].denomination == denom && InService(us[0]) then us[0].count else Stock(us[1..], denom)
  {
  }

  /** The cassettes as delivered: 500, 1000 and 500 notes of 100,000, 50,000 and 20,000, and an empty REJECT. */
  lemma DefaultStock()
    ensures Stock(DEFAULTS, 100_000) == 500 && Stock(DEFAULTS, 50_000) == 1000 && Stock(DEFAULTS, 20_000) == 500
  {
    var us, vs, ws := DEFAULTS, DEFAULTS[1..], DEFAULTS[2..];
    assert us[1..] == vs && vs[1..] == ws && vs[0] == us[1] && ws[0] == us[2];
    StockCons(us, 100_000);
    StockCons(us, 50_000);
    StockCons(vs, 50_000);
    StockCons(us, 20_000);
    StockCons(vs, 20_000);
    StockCons(ws, 20_000);
  }

  lemma DefaultCount()
    ensures Valid(DEFAULTS) && ThreeNotes(DEFAULTS)
    ensures Step(Cdm(DEFAULTS, None, false, false), Count).1 == Counted(110_000_000, 2000)
  {
    var us := DEFAULTS;
    assert us[..4] == us && us[..4][..3] == us[..3] && us[..3][..2] == us[..2] && us[..2][..1] == us[..1];
    assert us[..1][..0] == [];
    assert Value(us[..1]) == 50_000_000 && NotesIn(us[..1]) == 500;
    assert Value(us[..2]) == 100_000_000 && NotesIn(us[..2]) == 1500;
    assert Value(us[..3]) == 110_000_000 && NotesIn(us[..3]) == 2000;
  }

  // ----- What the totals count -----

  /** Value and number of the notes outside REJECT, and what is missing of the initial counts, cassette by cassette. */
  function Totals(us: seq<CashUnit>): (r: (int, int, int)) {
    if us == [] then (0, 0, 0)
    else
      var u, rest := us[0], Totals(us[1..]);
      var kept := u.unitId != "REJECT";
      (rest.0 + (if kept then u.count * u.denomination else 0), rest.1 + (if kept then u.count else 0),
       rest.2 + (if u.count < u.initialCount then (u.initialCount - u.count) * u.denomination else 0))
  }

  lemma {:induction false} TotalsSnoc(us: seq<CashUnit>, u: CashUnit)
    ensures var one := Totals([u]);
            Totals(us + [u]) == (Totals(us).0 + one.0, Totals(us).1 + one.1, Totals(us).2 + one.2)
  {
    if us == [] {
      assert us + [u] == [u];
    } else {
      assert (us + [u])[1..] == us[1..] + [u];
      TotalsSnoc(us[1..], u);
    }
  }

  lemma {:induction false} TotalsExact(us: seq<CashUnit>)
    ensures Totals(us) == (Value(us), NotesIn(us), InfoTotal(us))
  {
    if us != [] {
      var n := |us| - 1;
      TotalsExact(us[..n]);
      TotalsSnoc(us[..n], us[n]);
      assert us[..n] + [us[n]] == us && [us[n]][1..] == [];
    }
  }

  /** COUNT and CASH_UNIT_INFO report just these, and change nothing. */
  lemma ReportsExactly(c: Cdm)
    requires Valid(c.units) && !c.injected
    ensures Step(c, Count) == (c, Counted(Totals(c.units).0, Totals(c.units).1))
    ensures Step(c, CashUnitInfo) == (c, Info(Totals(c.units).2))
  {
    TotalsExact(c.units);
  }
}
