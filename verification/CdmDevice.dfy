/** The dispenser as the device service runs it: fields changed in place, loops over the cassettes. */
module CdmDevice {
  import opened Common
  import opened CashDispenser

  class CdmDevice {
    var cashUnits: seq<CashUnit>
    var presentedCash: Option<Cash>
    var takeTimer: bool
    var injectedError: bool

    function State(): Cdm
      reads this
    {
      Cdm(cashUnits, presentedCash, takeTimer, injectedError)
    }

    ghost predicate Ok()
      reads this
    {
      ValidCdm(State())
    }

    constructor ()
      ensures State() == Cdm(DEFAULTS, None, false, false) && Ok() && Full(cashUnits)
    {
      cashUnits, presentedCash, takeTimer, injectedError := DEFAULTS, None, false, false;
    }

    /** One-shot: true once after an injection. */
    method CheckInjectedError() returns (hit: bool)
      modifies this`injectedError
      ensures hit == old(injectedError) && !injectedError
    {
      hit := injectedError;
      injectedError := false;
    }

    method CalculateMinNotesMix(amount: nat) returns (mix: Option<Mix>)
      requires Valid(cashUnits)
      ensures mix == MinNotesMix(cashUnits, amount)
    {
      var taken, remaining := TakeGreedily(Candidates(cashUnits), amount);
      mix := if remaining > 0 then None else Some(taken);
    }

    static method TakeGreedily(spendable: seq<CashUnit>, amount: nat) returns (taken: Mix, remaining: nat)
      requires PositiveDenoms(spendable)
      ensures (taken, remaining) == Greedy(spendable, amount)
    {
      taken, remaining := [], amount;
      assert spendable[0..] == spendable;
      for i := 0 to |spendable|
        invariant PositiveDenoms(spendable[i..])
        invariant Greedy(spendable, amount).1 == Greedy(spendable[i..], remaining).1
        invariant Greedy(spendable, amount).0 == taken + Greedy(spendable[i..], remaining).0
      {
        var u := spendable[i];
        var maxByAmount := remaining / u.denomination;
        var take := if u.count < maxByAmount then u.count else maxByAmount;
        ghost var left := GreedyStep(spendable, i, remaining, take, taken);
        if take > 0 {
          taken, remaining := taken + [Notes(u.denomination, take)], remaining - take * u.denomination;
        }
        assert remaining == left;
        if remaining == 0 {
          GreedyNothing(spendable[i + 1..]);
          assert taken + [] == taken;
          return;
        }
      }
      assert taken + [] == taken;
    }

    method ValidateCustomMix(amount: int, mix: Mix) returns (ok: bool)
      ensures ok == CustomMixOk(amount, mix)
    {
      var sum := 0;
      for i := 0 to |mix|
        invariant forall k :: 0 <= k < i ==> mix[k].denom > 0 && mix[k].count >= 0
        invariant sum + MixValue(mix[i..]) == MixValue(mix)
      {
        if mix[i].denom <= 0 || mix[i].count < 0 {
          return false;
        }
        assert mix[i..][1..] == mix[i + 1..];
        sum := sum + mix[i].denom * mix[i].count;
      }
      ok := sum == amount;
    }

    method ChooseNotes(amount: int, custom: Option<Mix>) returns (chosen: Option<Mix>)
      requires Valid(cashUnits) && amount > 0
      ensures chosen == ChooseMix(cashUnits, amount, custom)
    {
      if custom.None? {
        chosen := CalculateMinNotesMix(amount);
      } else {
        var ok := ValidateCustomMix(amount, custom.value);
        chosen := if ok then custom else None;
      }
    }

    /** The pre-flight loop: every cassette has enough of what the mix asks. */
    method CheckStock(mix: Mix) returns (ok: bool)
      ensures ok == Preflight(cashUnits, mix)
    {
      for i := 0 to |mix|
        invariant forall k :: 0 <= k < i ==> CanPay(cashUnits, mix[k])
      {
        var at := FindUnit(cashUnits, mix[i].denom);
        if at == |cashUnits| || cashUnits[at].count < mix[i].count {
          return false;
        }
      }
      ok := true;
    }

    method ExecuteDispense(amount: int, custom: Option<Mix>, present: bool) returns (r: Reply)
      requires Ok() && WellFormed(Dispense(amount, custom, present))
      modifies this
      ensures (State(), r) == Step(old(State()), Dispense(amount, custom, present)) && Ok()
    {
      StepValid(State(), Dispense(amount, custom, present));
      var failed := CheckInjectedError();
      if failed || amount <= 0 {
        return Failed;
      }
      var chosen := ChooseNotes(amount, custom);
      if chosen.None? {
        return Failed;
      }
      var enough := CheckStock(chosen.value);
      if !enough {
        return Failed;
      }
      ChooseMixFacts(cashUnits, amount, custom);
      DeductNotes(chosen.value);
      presentedCash := Some(Cash(amount, chosen.value));
      if present {
        takeTimer := true;
      }
      r := Dispensed(amount);
    }

    method DeductNotes(mix: Mix)
      requires Valid(cashUnits) && Preflight(cashUnits, mix) && IsRecord(mix) && Counts(mix)
      modifies this`cashUnits
      ensures cashUnits == Deduct(old(cashUnits), mix)
    {
      for i := 0 to |mix|
        invariant Valid(cashUnits) && Preflight(cashUnits, mix[i..])
        invariant Deduct(cashUnits, mix[i..]) == Deduct(old(cashUnits), mix)
      {
        var n := mix[i];
        var rest := mix[i..][1..];
        assert rest == mix[i + 1..] && CanPay(cashUnits, mix[i..][0]);
        DeductOneFacts(cashUnits, n);
        forall k | 0 <= k < |rest| ensures CanPay(DeductOne(cashUnits, n), rest[k]) {
          assert rest[k] == mix[i..][k + 1] == mix[i + 1 + k];
          CanPayAfter(cashUnits, n, rest[k]);
        }
        var at := FindUnit(cashUnits, n.denom);
        var left := cashUnits[at].count - n.count;
        var unit := cashUnits[at].(count := left);
        if left == 0 {
          unit := unit.(status := Empty);
        } else if left <= unit.minimum {
          unit := unit.(status := Low);
        }
        cashUnits := cashUnits[at := unit];
      }
    }

    method ExecutePresent() returns (r: Reply)
      requires Ok()
      modifies this
      ensures (State(), r) == Step(old(State()), Present) && Ok()
    {
      var failed := CheckInjectedError();
      if failed || presentedCash.None? {
        return Failed;
      }
      takeTimer := true;
      r := Done;
    }

    method ExecuteRetract() returns (r: Reply)
      requires Ok()
      modifies this
      ensures (State(), r) == Step(old(State()), Retract) && Ok()
    {
      RetractValid(State());
      var failed := CheckInjectedError();
      if failed || presentedCash.None? {
        return Failed;
      }
      takeTimer := false;
      var at := FindId(cashUnits, REJECT);
      if at < |cashUnits| {
        var totalNotes := 0;
        var notes := presentedCash.value.notes;
        for i := 0 to |notes|
          invariant totalNotes + NoteCount(notes[i..]) == NoteCount(notes)
        {
          assert notes[i..][1..] == notes[i + 1..];
          totalNotes := totalNotes + notes[i].count;
        }
        cashUnits := cashUnits[at := cashUnits[at].(count := cashUnits[at].count + totalNotes)];
      }
      presentedCash := None;
      r := Done;
    }

    method ExecuteCount() returns (r: Reply)
      requires Ok()
      modifies this`injectedError
      ensures (State(), r) == Step(old(State()), Count) && Ok()
    {
      var failed := CheckInjectedError();
      if failed {
        return Failed;
      }
      var totalAmount, totalNotes := 0, 0;
      for i := 0 to |cashUnits|
        invariant totalAmount == Value(cashUnits[..i]) && totalNotes == NotesIn(cashUnits[..i])
      {
        assert cashUnits[..i + 1][..i] == cashUnits[..i];
        if cashUnits[i].unitId != REJECT {
          totalAmount := totalAmount + cashUnits[i].count * cashUnits[i].denomination;
          totalNotes := totalNotes + cashUnits[i].count;
        }
      }
      assert cashUnits[..|cashUnits|] == cashUnits;
      r := Counted(totalAmount, totalNotes);
    }

    method ExecuteCashUnitInfo() returns (r: Reply)
      requires Ok()
      modifies this`injectedError
      ensures (State(), r) == Step(old(State()), CashUnitInfo) && Ok()
    {
      var failed := CheckInjectedError();
      if failed {
        return Failed;
      }
      var total := 0;
      for i := 0 to |cashUnits|
        invariant total == InfoTotal(cashUnits[..i])
      {
        assert cashUnits[..i + 1][..i] == cashUnits[..i];
        var out := cashUnits[i].initialCount - cashUnits[i].count;
        total := total + (if out > 0 then out else 0) * cashUnits[i].denomination;
      }
      assert cashUnits[..|cashUnits|] == cashUnits;
      r := Info(total);
    }

    method ReplenishCassette(unitId: string, newCount: int) returns (r: Reply)
      requires Ok()
      modifies this`cashUnits
      ensures (State(), r) == Step(old(State()), Replenish(unitId, newCount)) && Ok()
    {
      StepValid(State(), Replenish(unitId, newCount));
      var at := FindId(cashUnits, unitId);
      if at == |cashUnits| || newCount < 0 || newCount > cashUnits[at].maximum {
        return Failed;
      }
      var unit := cashUnits[at].(count := newCount);
      unit := unit.(status := if newCount == 0 then Empty else if newCount <= unit.minimum then Low else OK);
      cashUnits := cashUnits[at := unit];
      r := Done;
    }

    method ChangeJam(unitId: string, jam: bool) returns (r: Reply)
      requires Ok()
      modifies this`cashUnits
      ensures (State(), r) == Step(old(State()), if jam then SimulateJam(unitId) else ClearJam(unitId)) && Ok()
    {
      StepValid(State(), if jam then SimulateJam(unitId) else ClearJam(unitId));
      var at := FindId(cashUnits, unitId);
      if at == |cashUnits| {
        return Failed;
      }
      var unit := cashUnits[at];
      var status := if jam then Jammed
                    else if unit.count == 0 then Empty else if unit.count <= unit.minimum then Low else OK;
      cashUnits := cashUnits[at := unit.(status := status)];
      r := Done;
    }

    method SetInjectedError(on: bool)
      requires Ok()
      modifies this`injectedError
      ensures State() == Step(old(State()), if on then InjectError else ClearError).0 && Ok()
    {
      injectedError := on;
    }

    /** The take timer fires: whatever was presented is gone. */
    method FireTakeTimer()
      requires Ok()
      modifies this
      ensures State() == Step(old(State()), NotesTaken).0 && Ok()
    {
      if takeTimer {
        presentedCash, takeTimer := None, false;
      }
    }

    method ExecuteReset()
      requires Ok()
      modifies this
      ensures State() == Step(old(State()), Reset).0 && Ok()
    {
      takeTimer, presentedCash, injectedError := false, None, false;
    }

    /** START_EXCHANGE and END_EXCHANGE only acknowledge. */
    method ExecuteExchange() returns (r: Reply)
      requires Ok()
      modifies this`injectedError
      ensures (State(), r) == Step(old(State()), Exchange) && Ok()
    {
      var failed := CheckInjectedError();
      r := if failed then Failed else Done;
    }

    /** Any command, device or operator. */
    method Execute(cmd: Command) returns (r: Reply)
      requires Ok() && WellFormed(cmd)
      modifies this
      ensures (State(), r) == Step(old(State()), cmd) && Ok()
    {
      r := Done;
      match cmd
      case Dispense(amount, custom, present) => r := ExecuteDispense(amount, custom, present);
      case Present => r := ExecutePresent();
      case Retract => r := ExecuteRetract();
      case CashUnitInfo => r := ExecuteCashUnitInfo();
      case Count => r := ExecuteCount();
      case Exchange => r := ExecuteExchange();
      case Reset => ExecuteReset();
      case NotesTaken => FireTakeTimer();
      case Replenish(unitId, n) => r := ReplenishCassette(unitId, n);
      case SimulateJam(unitId) => r := ChangeJam(unitId, true);
      case ClearJam(unitId) => r := ChangeJam(unitId, false);
      case InjectError => SetInjectedError(true);
      case ClearError => SetInjectedError(false);
    }
  }

  lemma {:induction false} GreedyNothing(us: seq<CashUnit>)
    requires PositiveDenoms(us)
    ensures Greedy(us, 0).0 == [] && Greedy(us, 0).1 == 0
  {
    if us != [] {
      assert us[0].count > 0 && 0 / us[0].denomination == 0;
      var take := Take(us[0], 0);
      assert take == 0 && 0 - take * us[0].denomination == 0;
      assert Entry(us[0].denomination, take) == [];
      GreedyNothing(us[1..]);
      assert Greedy(us, 0).0 == Entry(us[0].denomination, take) + Greedy(us[1..], 0).0;
    }
  }

  lemma GreedyStep(us: seq<CashUnit>, i: nat, remaining: nat, take: int, taken: Mix) returns (left: nat)
    requires i < |us| && PositiveDenoms(us[i..]) && us[i].denomination > 0
    requires take == Take(us[i], remaining)
    ensures take >= 0 && PositiveDenoms(us[i + 1..])
    ensures left == if take > 0 then remaining - take * us[i].denomination else remaining
    ensures (if take > 0 then taken + [Notes(us[i].denomination, take)] else taken) + Greedy(us[i + 1..], left).0 ==
            taken + Greedy(us[i..], remaining).0
    ensures Greedy(us[i..], remaining).1 == Greedy(us[i + 1..], left).1
  {
    var d, rest := us[i].denomination, us[i + 1..];
    assert us[i..][0] == us[i] && us[i..][1..] == rest;
    assert us[i].count > 0;
    TakeFits(us[i], remaining);
    left := remaining - take * d;
    var mix := Greedy(rest, left).0;
    assert Greedy(us[i..], remaining).0 == Entry(d, take) + mix;
    assert taken + (Entry(d, take) + mix) == taken + Entry(d, take) + mix;
    if take == 0 {
      assert taken + Entry(d, take) == taken;
    }
  }
}
