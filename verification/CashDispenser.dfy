/** The cash dispenser: cassettes, note selection, dispensing, and its operator commands. */
module CashDispenser {
  import opened Common

  datatype UnitStatus = OK | Low | Empty | Jammed | Inoperative

  datatype CashUnit = CashUnit(unitId: string, denomination: nat, status: UnitStatus, count: int,
                               initialCount: nat, maximum: nat, minimum: nat)

  /** So many notes of one denomination; a mix has at most one entry per denomination. */
  datatype Notes = Notes(denom: int, count: int)

  type Mix = seq<Notes>

  datatype Cash = Cash(amount: int, notes: Mix)

  datatype Cdm = Cdm(units: seq<CashUnit>, presented: Option<Cash>, takeArmed: bool, injected: bool)

  const REJECT := "REJECT"

  const DEFAULTS: seq<CashUnit> := [
    CashUnit("CASS1", 100_000, OK, 500, 500, 2500, 50),
    CashUnit("CASS2", 50_000, OK, 1000, 1000, 2500, 100),
    CashUnit("CASS3", 20_000, OK, 500, 500, 2500, 50),
    CashUnit(REJECT, 0, OK, 0, 0, 300, 0)
  ]

  predicate IsRecord(mix: Mix) { forall i, j :: 0 <= i < j < |mix| ==> mix[i].denom != mix[j].denom }

  predicate ValidUnit(u: CashUnit) {
    u.count >= 0 && if u.unitId == REJECT then u.denomination == 0 else u.denomination > 0 && u.count <= u.maximum
  }

  /** Cassettes have their own ids, and apart from REJECT their own positive denominations. */
  predicate Valid(us: seq<CashUnit>) {
    && (forall i :: 0 <= i < |us| ==> ValidUnit(us[i]))
    && (forall i, j :: 0 <= i < j < |us| ==> us[i].unitId != us[j].unitId && us[i].denomination != us[j].denomination)
  }

  // ----- Values -----

  function Worth(u: CashUnit): int { if u.unitId == REJECT then 0 else u.count * u.denomination }

  /** COUNT's totalAmount. */
  function Value(us: seq<CashUnit>): int {
    if us == [] then 0 else Value(us[..|us| - 1]) + Worth(us[|us| - 1])
  }

  function NotesIn(us: seq<CashUnit>): int {
    if us == [] then 0
    else NotesIn(us[..|us| - 1]) + if us[|us| - 1].unitId == REJECT then 0 else us[|us| - 1].count
  }

  function Max0(n: int): int { if n > 0 then n else 0 }

  /** CASH_UNIT_INFO's totalDispensed. */
  function InfoTotal(us: seq<CashUnit>): int {
    if us == [] then 0
    else InfoTotal(us[..|us| - 1]) + Max0(us[|us| - 1].initialCount - us[|us| - 1].count) * us[|us| - 1].denomination
  }

  function MixValue(mix: Mix): int {
    if mix == [] then 0 else mix[0].denom * mix[0].count + MixValue(mix[1..])
  }

  function NoteCount(mix: Mix): int {
    if mix == [] then 0 else mix[0].count + NoteCount(mix[1..])
  }

  // ----- Choosing notes -----

  predicate Usable(u: CashUnit) {
    u.unitId != REJECT && u.status != Jammed && u.status != Inoperative && u.count > 0
  }

  function UsableUnits(us: seq<CashUnit>): seq<CashUnit> {
    if us == [] then []
    else if Usable(us[0]) then [us[0]] + UsableUnits(us[1..]) else UsableUnits(us[1..])
  }

  function InsertDesc(u: CashUnit, us: seq<CashUnit>): seq<CashUnit> {
    if us == [] || u.denomination >= us[0].denomination then [u] + us
    else [us[0]] + InsertDesc(u, us[1..])
  }

  /** The array sorted from the largest denomination down. */
  function SortDesc(us: seq<CashUnit>): seq<CashUnit> {
    if us == [] then [] else InsertDesc(us[0], SortDesc(us[1..]))
  }

  function Min(a: int, b: int): int { if a < b then a else b }

  function Take(u: CashUnit, remaining: nat): int
    requires u.denomination > 0
  {
    Min(u.count, remaining / u.denomination)
  }

  function Entry(denom: int, take: int): Mix { if take > 0 then [Notes(denom, take)] else [] }

  predicate PositiveDenoms(us: seq<CashUnit>) {
    forall i :: 0 <= i < |us| ==> us[i].denomination > 0 && us[i].count > 0
  }

  lemma TakeFits(u: CashUnit, remaining: nat)
    requires u.denomination > 0 && u.count >= 0
    ensures 0 <= Take(u, remaining) <= u.count
    ensures 0 <= Take(u, remaining) * u.denomination <= remaining
  {
    var d, t := u.denomination, Take(u, remaining);
    assert remaining == d * (remaining / d) + remaining % d;
    assert t * d <= (remaining / d) * d by { Scale(t, remaining / d, d); }
    Scale(0, t, d);
  }

  lemma Scale(a: int, b: int, d: nat)
    requires a <= b
    ensures a * d <= b * d
  {
  }

  /** As many of each denomination as stock and amount allow, largest first; the mix and what is left over. */
  function Greedy(us: seq<CashUnit>, remaining: nat): (r: (Mix, nat))
    requires PositiveDenoms(us)
  {
    if us == [] then ([], remaining)
    else
      TakeFits(us[0], remaining);
      var take := Take(us[0], remaining);
      var rest := Greedy(us[1..], remaining - take * us[0].denomination);
      (Entry(us[0].denomination, take) + rest.0, rest.1)
  }

  lemma {:induction false} UsableUnitsMembers(us: seq<CashUnit>)
    ensures forall u :: u in UsableUnits(us) <==> u in us && Usable(u)
  {
    if us != [] {
      UsableUnitsMembers(us[1..]);
      assert us == [us[0]] + us[1..];
    }
  }

  lemma {:induction false} InsertDescMembers(u: CashUnit, us: seq<CashUnit>)
    ensures forall x :: x in InsertDesc(u, us) <==> x == u || x in us
  {
    if us != [] && u.denomination < us[0].denomination {
      InsertDescMembers(u, us[1..]);
      assert us == [us[0]] + us[1..];
    }
  }

  lemma {:induction false} SortDescMembers(us: seq<CashUnit>)
    ensures forall x :: x in SortDesc(us) <==> x in us
  {
    if us != [] {
      SortDescMembers(us[1..]);
      InsertDescMembers(us[0], SortDesc(us[1..]));
      assert us == [us[0]] + us[1..];
    }
  }

  /** The cassettes the greedy loop walks over. */
  function Candidates(us: seq<CashUnit>): (r: seq<CashUnit>)
    requires Valid(us)
    ensures PositiveDenoms(r)
  {
    UsableUnitsMembers(us);
    SortDescMembers(UsableUnits(us));
    var r := SortDesc(UsableUnits(us));
    assert forall i :: 0 <= i < |r| ==> r[i] in r && r[i] in us;
    r
  }

  function MinNotesMix(us: seq<CashUnit>, amount: nat): Option<Mix>
    requires Valid(us)
  {
    var (mix, left) := Greedy(Candidates(us), amount);
    if left > 0 then None else Some(mix)
  }

  predicate CustomMixOk(amount: int, mix: Mix) {
    && (forall i :: 0 <= i < |mix| ==> mix[i].denom > 0 && mix[i].count >= 0)
    && MixValue(mix) == amount
  }

  // ----- Taking notes out -----

  predicate Matches(u: CashUnit, denom: int) {
    u.denomination == denom && u.unitId != REJECT && u.status != Jammed
  }

  /** The first cassette of a denomination that is neither REJECT nor jammed, or the number of cassettes. */
  function FindUnit(us: seq<CashUnit>, denom: int): (i: nat)
    ensures i <= |us| && (i < |us| ==> Matches(us[i], denom))
    ensures forall k :: 0 <= k < i ==> !Matches(us[k], denom)
  {
    if us == [] then 0 else if Matches(us[0], denom) then 0 else 1 + FindUnit(us[1..], denom)
  }

  predicate CanPay(us: seq<CashUnit>, n: Notes) {
    var i := FindUnit(us, n.denom);
    i < |us| && us[i].count >= n.count
  }

  predicate Preflight(us: seq<CashUnit>, mix: Mix) { forall k :: 0 <= k < |mix| ==> CanPay(us, mix[k]) }

  function TakeOut(u: CashUnit, n: int): CashUnit {
    var left := u.count - n;
    u.(count := left, status := if left == 0 then Empty else if left <= u.minimum then Low else u.status)
  }

  function DeductOne(us: seq<CashUnit>, n: Notes): (r: seq<CashUnit>)
    ensures |r| == |us|
  {
    var i := FindUnit(us, n.denom);
    if i < |us| then us[i := TakeOut(us[i], n.count)] else us
  }

  function Deduct(us: seq<CashUnit>, mix: Mix): (r: seq<CashUnit>)
    ensures |r| == |us|
    decreases |mix|
  {
    if mix == [] then us else Deduct(DeductOne(us, mix[0]), mix[1..])
  }

  // ----- Commands -----

  datatype Command =
    | Dispense(amount: int, custom: Option<Mix>, present: bool)
    | Present
    | Retract
    | CashUnitInfo
    | Count
    | Exchange
    | Reset
    | NotesTaken
    | Replenish(unitId: string, newCount: int)
    | SimulateJam(unitId: string)
    | ClearJam(unitId: string)
    | InjectError
    | ClearError

  datatype Reply =
    | Failed
    | Done
    | Dispensed(amount: int)
    | Counted(totalAmount: int, totalNotes: int)
    | Info(total: int)

  function FindId(us: seq<CashUnit>, unitId: string): (i: nat)
    ensures i <= |us| && (i < |us| ==> us[i].unitId == unitId)
    ensures forall k :: 0 <= k < i ==> us[k].unitId != unitId
  {
    if us == [] then 0 else if us[0].unitId == unitId then 0 else 1 + FindId(us[1..], unitId)
  }

  function ChooseMix(us: seq<CashUnit>, amount: int, custom: Option<Mix>): Option<Mix>
    requires Valid(us) && amount > 0
  {
    match custom
    case Some(mix) => if CustomMixOk(amount, mix) then Some(mix) else None
    case None => MinNotesMix(us, amount)
  }

  function DoDispense(c: Cdm, amount: int, custom: Option<Mix>, present: bool): (Cdm, Reply)
    requires Valid(c.units)
  {
    if amount <= 0 then (c, Failed)
    else
      match ChooseMix(c.units, amount, custom)
      case None => (c, Failed)
      case Some(mix) =>
        if !Preflight(c.units, mix) then (c, Failed)
        else
          (c.(units := Deduct(c.units, mix), presented := Some(Cash(amount, mix)), takeArmed := present || c.takeArmed),
           Dispensed(amount))
  }

  function StockStatus(u: CashUnit, n: int): UnitStatus {
    if n == 0 then Empty else if n <= u.minimum then Low else OK
  }

  function DoRetract(c: Cdm): (Cdm, Reply) {
    if c.presented.None? then (c, Failed)
    else
      var i := FindId(c.units, REJECT);
      var units := if i < |c.units|
                   then c.units[i := c.units[i].(count := c.units[i].count + NoteCount(c.presented.value.notes))]
                   else c.units;
      (c.(units := units, presented := None, takeArmed := false), Done)
  }

  function DoReplenish(c: Cdm, unitId: string, n: int): (Cdm, Reply) {
    var i := FindId(c.units, unitId);
    if i == |c.units| || n < 0 || n > c.units[i].maximum then (c, Failed)
    else (c.(units := c.units[i := c.units[i].(count := n, status := StockStatus(c.units[i], n))]), Done)
  }

  function SetStatus(c: Cdm, unitId: string, jam: bool): (Cdm, Reply) {
    var i := FindId(c.units, unitId);
    if i == |c.units| then (c, Failed)
    else
      var u := c.units[i];
      (c.(units := c.units[i := u.(status := if jam then Jammed else StockStatus(u, u.count))]), Done)
  }

  /** A device command through `executeCommand`: an injected error fails it once, except RESET. */
  function Guarded(c: Cdm, r: (Cdm, Reply)): (Cdm, Reply) {
    if c.injected then (c.(injected := false), Failed) else r
  }

  function Step(c: Cdm, cmd: Command): (Cdm, Reply)
    requires Valid(c.units)
  {
    match cmd
    case Dispense(amount, custom, present) => Guarded(c, DoDispense(c, amount, custom, present))
    case Present => Guarded(c, if c.presented.None? then (c, Failed) else (c.(takeArmed := true), Done))
    case Retract => Guarded(c, DoRetract(c))
    case CashUnitInfo => Guarded(c, (c, Info(InfoTotal(c.units))))
    case Count => Guarded(c, (c, Counted(Value(c.units), NotesIn(c.units))))
    case Exchange => Guarded(c, (c, Done))
    case Reset => (c.(presented := None, takeArmed := false, injected := false), Done)
    case NotesTaken => (if c.takeArmed then c.(presented := None, takeArmed := false) else c, Done)
    case Replenish(unitId, n) => DoReplenish(c, unitId, n)
    case SimulateJam(unitId) => SetStatus(c, unitId, true)
    case ClearJam(unitId) => SetStatus(c, unitId, false)
    case InjectError => (c.(injected := true), Done)
    case ClearError => (c.(injected := false), Done)
  }

  /** A custom mix is an object: one count per denomination. Presented cash came from such a mix. */
  predicate WellFormed(cmd: Command) { cmd.Dispense? && cmd.custom.Some? ==> IsRecord(cmd.custom.value) }

  // ----- One dispense -----

  lemma {:induction false} ValueUpdate(us: seq<CashUnit>, i: nat, u: CashUnit)
    requires i < |us|
    ensures Value(us[i := u]) == Value(us) - Worth(us[i]) + Worth(u)
  {
    var n := |us| - 1;
    if i < n {
      ValueUpdate(us[..n], i, u);
      assert us[i := u][..n] == us[..n][i := u];
    } else {
      assert us[i := u][..n] == us[..n];
    }
  }

  /** Same cassettes: only counts and statuses may differ. */
  predicate SameCassettes(a: seq<CashUnit>, b: seq<CashUnit>) {
    && |a| == |b|
    && forall i :: 0 <= i < |a| ==>
         && a[i].unitId == b[i].unitId && a[i].denomination == b[i].denomination
         && a[i].initialCount == b[i].initialCount && a[i].maximum == b[i].maximum && a[i].minimum == b[i].minimum
  }

  lemma DeductOneFacts(us: seq<CashUnit>, n: Notes)
    requires Valid(us) && CanPay(us, n) && n.count >= 0
    ensures Valid(DeductOne(us, n)) && SameCassettes(us, DeductOne(us, n))
    ensures forall k :: 0 <= k < |us| && us[k].denomination != n.denom ==> DeductOne(us, n)[k] == us[k]
    ensures forall k :: 0 <= k < |us| && us[k].status == Jammed ==> DeductOne(us, n)[k] == us[k]
    ensures forall k :: 0 <= k < |us| ==> DeductOne(us, n)[k].count <= us[k].count || us[k].unitId == REJECT
  {
  }

  lemma DeductOneValue(us: seq<CashUnit>, n: Notes)
    requires CanPay(us, n)
    ensures Value(DeductOne(us, n)) == Value(us) - n.denom * n.count
  {
    var i := FindUnit(us, n.denom);
    ValueUpdate(us, i, TakeOut(us[i], n.count));
    MinusTimes(us[i].count, n.count, us[i].denomination);
  }

  lemma MinusTimes(a: int, b: int, d: int)
    ensures (a - b) * d == a * d - d * b
  {
  }

  lemma CanPayAfter(us: seq<CashUnit>, n: Notes, m: Notes)
    requires Valid(us) && CanPay(us, n) && CanPay(us, m) && n.denom != m.denom && n.count >= 0
    ensures CanPay(DeductOne(us, n), m)
  {
    var i, j := FindUnit(us, n.denom), FindUnit(us, m.denom);
    var vs := DeductOne(us, n);
    assert Matches(vs[j], m.denom);
    assert forall k :: 0 <= k < |us| && Matches(vs[k], m.denom) ==> k == j;
  }

  predicate Counts(mix: Mix) { forall k :: 0 <= k < |mix| ==> mix[k].count >= 0 }

  /** Deducting a mix that passed the pre-flight lowers the total by exactly its value. */
  lemma {:induction false} DeductFacts(us: seq<CashUnit>, mix: Mix)
    requires Valid(us) && Preflight(us, mix) && IsRecord(mix) && Counts(mix)
    ensures Valid(Deduct(us, mix)) && SameCassettes(us, Deduct(us, mix))
    ensures Value(Deduct(us, mix)) == Value(us) - MixValue(mix)
    ensures forall k :: 0 <= k < |us| && us[k].status == Jammed ==> Deduct(us, mix)[k] == us[k]
    ensures forall k :: 0 <= k < |us| ==> Deduct(us, mix)[k].count <= us[k].count || us[k].unitId == REJECT
    decreases |mix|
  {
    if mix != [] {
      var n, rest := mix[0], mix[1..];
      var vs := DeductOne(us, n);
      DeductOneFacts(us, n);
      DeductOneValue(us, n);
      forall k | 0 <= k < |rest| ensures CanPay(vs, rest[k]) {
        assert CanPay(us, mix[k + 1]);
        CanPayAfter(us, n, rest[k]);
      }
      DeductFacts(vs, rest);
    }
  }

  // ----- The greedy mix -----

  predicate Descending(us: seq<CashUnit>) {
    forall i, j :: 0 <= i < j < |us| ==> us[i].denomination > us[j].denomination
  }

  predicate DistinctDenoms(us: seq<CashUnit>) {
    forall i, j :: 0 <= i < j < |us| ==> us[i].denomination != us[j].denomination
  }

  lemma {:induction false} UsableUnitsDistinct(us: seq<CashUnit>)
    requires DistinctDenoms(us)
    ensures DistinctDenoms(UsableUnits(us))
  {
    if us != [] {
      UsableUnitsDistinct(us[1..]);
      UsableUnitsMembers(us[1..]);
      var r := UsableUnits(us[1..]);
      assert forall j :: 0 <= j < |r| ==> r[j] in r && r[j] in us[1..];
    }
  }

  lemma {:induction false} InsertDescSorted(u: CashUnit, us: seq<CashUnit>)
    requires Descending(us) && forall i :: 0 <= i < |us| ==> us[i].denomination != u.denomination
    ensures Descending(InsertDesc(u, us))
  {
    if us != [] && u.denomination < us[0].denomination {
      InsertDescSorted(u, us[1..]);
      InsertDescMembers(u, us[1..]);
      var r := InsertDesc(u, us[1..]);
      assert forall j :: 0 <= j < |r| ==> r[j] in r;
    }
  }

  lemma {:induction false} SortDescSorted(us: seq<CashUnit>)
    requires DistinctDenoms(us)
    ensures Descending(SortDesc(us))
  {
    if us != [] {
      SortDescSorted(us[1..]);
      SortDescMembers(us[1..]);
      var r := SortDesc(us[1..]);
      assert forall j :: 0 <= j < |r| ==> r[j] in r && r[j] in us[1..];
      InsertDescSorted(us[0], r);
    }
  }

  lemma CandidatesFacts(us: seq<CashUnit>)
    requires Valid(us)
    ensures Descending(Candidates(us))
    ensures forall u :: u in Candidates(us) <==>
              u in us && u.unitId != "REJECT" && u.status in {OK, Low, Empty} && u.count > 0
  {
    UsableUnitsDistinct(us);
    UsableUnitsMembers(us);
    SortDescMembers(UsableUnits(us));
    SortDescSorted(UsableUnits(us));
  }

  /** A greedy mix pays what it does not leave over. */
  lemma {:induction false} GreedyValue(us: seq<CashUnit>, remaining: nat)
    requires PositiveDenoms(us)
    ensures MixValue(Greedy(us, remaining).0) + Greedy(us, remaining).1 == remaining
  {
    if us != [] {
      TakeFits(us[0], remaining);
      var take := Take(us[0], remaining);
      GreedyValue(us[1..], remaining - take * us[0].denomination);
      MixValueCons(us[0].denomination, take, Greedy(us[1..], remaining - take * us[0].denomination).0);
    }
  }

  lemma MixValueCons(denom: int, take: nat, rest: Mix)
    ensures MixValue(Entry(denom, take) + rest) == take * denom + MixValue(rest)
  {
    if take > 0 {
      assert ([Notes(denom, take)] + rest)[1..] == rest;
    } else {
      assert Entry(denom, take) + rest == rest;
    }
  }

  predicate Stocked(us: seq<CashUnit>, n: Notes) {
    n.count > 0 && exists u :: u in us && u.denomination == n.denom && n.count <= u.count
  }

  /** One positive count per candidate, within its stock. */
  lemma {:induction false} GreedyFacts(us: seq<CashUnit>, remaining: nat)
    requires PositiveDenoms(us) && Descending(us)
    ensures IsRecord(Greedy(us, remaining).0)
    ensures forall k :: 0 <= k < |Greedy(us, remaining).0| ==> Stocked(us, Greedy(us, remaining).0[k])
  {
    if us != [] {
      var u := us[0];
      TakeFits(u, remaining);
      var left := remaining - Take(u, remaining) * u.denomination;
      GreedyFacts(us[1..], left);
      var rest := Greedy(us[1..], left).0;
      forall k | 0 <= k < |rest| ensures rest[k].denom < u.denomination && Stocked(us, rest[k]) {
        assert Stocked(us[1..], rest[k]);
        var x :| x in us[1..] && x.denomination == rest[k].denom && rest[k].count <= x.count;
        assert x in us;
      }
      assert u in us;
    }
  }

  lemma MinNotesMixFacts(us: seq<CashUnit>, amount: nat)
    requires Valid(us) && MinNotesMix(us, amount).Some?
    ensures var mix := MinNotesMix(us, amount).value;
            MixValue(mix) == amount && IsRecord(mix) && Counts(mix) && Preflight(us, mix)
  {
    var cs := Candidates(us);
    CandidatesFacts(us);
    GreedyFacts(cs, amount);
    GreedyValue(cs, amount);
    var mix := MinNotesMix(us, amount).value;
    forall k | 0 <= k < |mix| ensures mix[k].count > 0 && CanPay(us, mix[k]) {
      assert Stocked(cs, mix[k]);
      var u :| u in cs && u.denomination == mix[k].denom && mix[k].count <= u.count;
      var j :| 0 <= j < |us| && us[j] == u;
      assert Matches(us[j], mix[k].denom);
    }
  }

  /** A successful choice passes on exactly the amount. */
  lemma ChooseMixFacts(us: seq<CashUnit>, amount: int, custom: Option<Mix>)
    requires Valid(us) && amount > 0 && ChooseMix(us, amount, custom).Some?
    requires custom.Some? ==> IsRecord(custom.value)
    ensures var mix := ChooseMix(us, amount, custom).value; MixValue(mix) == amount && IsRecord(mix) && Counts(mix)
  {
    if custom.None? {
      MinNotesMixFacts(us, amount);
    }
  }

  /**
   * One DISPENSE: it fails with every cassette as it was, or lowers the total by exactly the amount;
   * no cassette is refilled, and none that is jammed is touched.
   */
  lemma DispenseExact(c: Cdm, amount: int, custom: Option<Mix>, present: bool)
    requires Valid(c.units) && WellFormed(Dispense(amount, custom, present))
    ensures var (c', r) := Step(c, Dispense(amount, custom, present));
            && Valid(c'.units) && SameCassettes(c.units, c'.units)
            && (r == Failed ==> c'.units == c.units)
            && (r != Failed ==> r == Dispensed(amount) && amount > 0 && Value(c'.units) == Value(c.units) - amount)
            && (forall k :: 0 <= k < |c.units| && c.units[k].status == Jammed ==> c'.units[k] == c.units[k])
            && (forall k :: 0 <= k < |c.units| ==>
                  c'.units[k].count <= c.units[k].count || c.units[k].unitId == REJECT)
  {
    var (c', r) := Step(c, Dispense(amount, custom, present));
    if r != Failed {
      ChooseMixFacts(c.units, amount, custom);
      DeductFacts(c.units, ChooseMix(c.units, amount, custom).value);
    }
  }

  /** With the default choice of notes, the greedy left-over is the only reason to refuse. */
  lemma MinNotesRefusal(c: Cdm, amount: nat, present: bool)
    requires Valid(c.units) && !c.injected && amount > 0
    ensures Step(c, Dispense(amount, None, present)).1 == Failed <==> Greedy(Candidates(c.units), amount).1 > 0
  {
    if MinNotesMix(c.units, amount).Some? {
      MinNotesMixFacts(c.units, amount);
    }
  }

  // ----- Every run -----

  predicate ValidCdm(c: Cdm) { Valid(c.units) && (c.presented.Some? ==> Counts(c.presented.value.notes)) }

  predicate AllWellFormed(cmds: seq<Command>) { forall i :: 0 <= i < |cmds| ==> WellFormed(cmds[i]) }

  lemma {:induction false} NoteCountNonNegative(mix: Mix)
    requires Counts(mix)
    ensures NoteCount(mix) >= 0
  {
    if mix != [] {
      NoteCountNonNegative(mix[1..]);
    }
  }

  lemma RetractValid(c: Cdm)
    requires ValidCdm(c)
    ensures ValidCdm(DoRetract(c).0) && SameCassettes(c.units, DoRetract(c).0.units)
  {
    if c.presented.Some? {
      NoteCountNonNegative(c.presented.value.notes);
    }
  }

  lemma UpdateValid(us: seq<CashUnit>, i: nat, u: CashUnit)
    requires Valid(us) && i < |us| && ValidUnit(u) && SameCassettes([us[i]], [u])
    ensures Valid(us[i := u]) && SameCassettes(us, us[i := u])
  {
    assert u.unitId == [u][0].unitId == [us[i]][0].unitId;
  }

  lemma OperatorValid(c: Cdm, unitId: string, n: int, jam: bool)
    requires ValidCdm(c)
    ensures ValidCdm(DoReplenish(c, unitId, n).0) && SameCassettes(c.units, DoReplenish(c, unitId, n).0.units)
    ensures ValidCdm(SetStatus(c, unitId, jam).0) && SameCassettes(c.units, SetStatus(c, unitId, jam).0.units)
  {
    var i := FindId(c.units, unitId);
    if i < |c.units| {
      UpdateValid(c.units, i, SetStatus(c, unitId, jam).0.units[i]);
      UpdateValid(c.units, i, DoReplenish(c, unitId, n).0.units[i]);
    }
  }

  /** Every command keeps the cassettes valid: counts other than REJECT's within 0..maximum. */
  lemma StepValid(c: Cdm, cmd: Command)
    requires ValidCdm(c) && WellFormed(cmd)
    ensures ValidCdm(Step(c, cmd).0) && SameCassettes(c.units, Step(c, cmd).0.units)
  {
    match cmd
    case Dispense(amount, custom, present) =>
      DispenseExact(c, amount, custom, present);
      if Step(c, cmd).1 != Failed {
        ChooseMixFacts(c.units, amount, custom);
      }
    case Retract => RetractValid(c);
    case Replenish(unitId, n) => OperatorValid(c, unitId, n, false);
    case SimulateJam(unitId) => OperatorValid(c, unitId, 0, true);
    case ClearJam(unitId) => OperatorValid(c, unitId, 0, false);
    case _ =>
  }

  function Run(c: Cdm, cmds: seq<Command>): (r: Cdm)
    requires ValidCdm(c) && AllWellFormed(cmds)
    ensures ValidCdm(r)
  {
    if cmds == [] then c
    else
      var before := Run(c, cmds[..|cmds| - 1]);
      StepValid(before, cmds[|cmds| - 1]);
      Step(before, cmds[|cmds| - 1]).0
  }

  /** The last reply of a nonempty run. */
  function LastReply(c: Cdm, cmds: seq<Command>): Reply
    requires ValidCdm(c) && AllWellFormed(cmds) && cmds != []
  {
    Step(Run(c, cmds[..|cmds| - 1]), cmds[|cmds| - 1]).1
  }

  /** The sum of all successful dispenses of a run. */
  function Paid(c: Cdm, cmds: seq<Command>): int
    requires ValidCdm(c) && AllWellFormed(cmds)
  {
    if cmds == [] then 0
    else Paid(c, cmds[..|cmds| - 1]) + match LastReply(c, cmds) case Dispensed(amount) => amount case _ => 0
  }

  /** What replenishing added to (or took out of) the cassettes over a run. */
  function Loaded(c: Cdm, cmds: seq<Command>): int
    requires ValidCdm(c) && AllWellFormed(cmds)
  {
    if cmds == [] then 0
    else
      Loaded(c, cmds[..|cmds| - 1]) +
      if cmds[|cmds| - 1].Replenish? then
        Value(Run(c, cmds).units) - Value(Run(c, cmds[..|cmds| - 1]).units)
      else 0
  }

  /** Apart from DISPENSE and replenishing no command changes what the cassettes are worth. */
  lemma StepValue(c: Cdm, cmd: Command)
    requires ValidCdm(c) && WellFormed(cmd) && !cmd.Replenish?
    ensures var (c', r) := Step(c, cmd);
            Value(c'.units) == Value(c.units) - match r case Dispensed(amount) => amount case _ => 0
  {
    var (c', r) := Step(c, cmd);
    if cmd.Dispense? {
      DispenseExact(c, cmd.amount, cmd.custom, cmd.present);
    } else if cmd.Retract? && r == Done && !c.injected {
      var i := FindId(c.units, REJECT);
      if i < |c.units| {
        ValueUpdate(c.units, i, c'.units[i]);
      }
    } else if cmd.SimulateJam? || cmd.ClearJam? {
      var i := FindId(c.units, cmd.unitId);
      if i < |c.units| {
        ValueUpdate(c.units, i, c'.units[i]);
      }
    }
  }

  /** Cash conservation over every run: COUNT moves only by what was paid and what was loaded. */
  lemma {:induction false} RunValue(c: Cdm, cmds: seq<Command>)
    requires ValidCdm(c) && AllWellFormed(cmds)
    ensures Value(Run(c, cmds).units) == Value(c.units) - Paid(c, cmds) + Loaded(c, cmds)
  {
    if cmds != [] {
      var n := |cmds| - 1;
      RunValue(c, cmds[..n]);
      if !cmds[n].Replenish? {
        StepValue(Run(c, cmds[..n]), cmds[n]);
      }
    }
  }

  predicate NoReplenish(cmds: seq<Command>) { forall i :: 0 <= i < |cmds| ==> !cmds[i].Replenish? }

  /** No cassette holds more than it started with. */
  predicate Drawn(us: seq<CashUnit>) {
    forall i :: 0 <= i < |us| && us[i].unitId != REJECT ==> us[i].count <= us[i].initialCount
  }

  predicate Full(us: seq<CashUnit>) {
    forall i :: 0 <= i < |us| && us[i].unitId != REJECT ==> us[i].count == us[i].initialCount
  }

  /** What the cassettes were worth when first counted. */
  function InitialValue(us: seq<CashUnit>): int {
    if us == [] then 0
    else InitialValue(us[..|us| - 1]) +
         if us[|us| - 1].unitId == REJECT then 0 else us[|us| - 1].initialCount * us[|us| - 1].denomination
  }

  lemma {:induction false} InfoTotalDrawn(us: seq<CashUnit>)
    requires Valid(us) && Drawn(us)
    ensures InfoTotal(us) == InitialValue(us) - Value(us)
  {
    if us != [] {
      var u := us[|us| - 1];
      InfoTotalDrawn(us[..|us| - 1]);
      assert ValidUnit(u);
      MinusTimes(u.initialCount, u.count, u.denomination);
    }
  }

  lemma {:induction false} InitialValueSame(a: seq<CashUnit>, b: seq<CashUnit>)
    requires SameCassettes(a, b)
    ensures InitialValue(a) == InitialValue(b)
  {
    if a != [] {
      InitialValueSame(a[..|a| - 1], b[..|b| - 1]);
    }
  }

  lemma {:induction false} FullValue(us: seq<CashUnit>)
    requires Full(us)
    ensures Value(us) == InitialValue(us)
  {
    if us != [] {
      FullValue(us[..|us| - 1]);
    }
  }

  lemma StepDrawn(c: Cdm, cmd: Command)
    requires ValidCdm(c) && WellFormed(cmd) && !cmd.Replenish? && Drawn(c.units)
    ensures Drawn(Step(c, cmd).0.units)
  {
    if cmd.Dispense? {
      DispenseExact(c, cmd.amount, cmd.custom, cmd.present);
    }
  }

  lemma {:induction false} RunDrawn(c: Cdm, cmds: seq<Command>)
    requires ValidCdm(c) && AllWellFormed(cmds) && NoReplenish(cmds) && Drawn(c.units)
    ensures Drawn(Run(c, cmds).units) && SameCassettes(c.units, Run(c, cmds).units) && Loaded(c, cmds) == 0
  {
    if cmds != [] {
      var n := |cmds| - 1;
      RunDrawn(c, cmds[..n]);
      StepDrawn(Run(c, cmds[..n]), cmds[n]);
      StepValid(Run(c, cmds[..n]), cmds[n]);
    }
  }

  /** Without replenishment CASH_UNIT_INFO's totalDispensed is the sum of all successful dispenses. */
  lemma TotalDispensedExact(c: Cdm, cmds: seq<Command>)
    requires ValidCdm(c) && AllWellFormed(cmds) && NoReplenish(cmds) && Full(c.units)
    ensures InfoTotal(Run(c, cmds).units) == Paid(c, cmds)
  {
    RunDrawn(c, cmds);
    RunValue(c, cmds);
    InfoTotalDrawn(Run(c, cmds).units);
    InitialValueSame(c.units, Run(c, cmds).units);
    FullValue(c.units);
  }
}
