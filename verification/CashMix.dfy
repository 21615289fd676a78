/** The greedy choice of notes with the three denominations that the machine holds. */
module CashMix {
  import opened Common
  import opened CashDispenser

  /** Every cassette but REJECT holds 100,000, 50,000 or 20,000 notes. */
  predicate ThreeNotes(us: seq<CashUnit>) {
    forall i :: 0 <= i < |us| && us[i].unitId != "REJECT" ==> us[i].denomination in {100_000, 50_000, 20_000}
  }

  /** A cassette to pay from: not REJECT, neither jammed nor out of order, and not without notes. */
  predicate InService(u: CashUnit) { u.unitId != "REJECT" && u.status in {OK, Low, Empty} && u.count > 0 }

  /** How many notes of a denomination there are to pay from. */
  function Stock(us: seq<CashUnit>, denom: int): int {
    if us == [] then 0
    else if us[0].denomination == denom && InService(us[0]) then us[0].count else Stock(us[1..], denom)
  }

  /** Those are the cassettes that the loop uses. */
  lemma UsableExactly(u: CashUnit)
    ensures Usable(u) <==> InService(u)
  {
  }

  function Pay(a: int, b: int, c: int): Mix { Entry(100_000, a) + Entry(50_000, b) + Entry(20_000, c) }

  /** How many notes the loop takes of a stock, and what is left to pay. */
  function Taken(stock: int, denom: int, remaining: int): int
    requires denom > 0
  {
    Min(stock, remaining / denom)
  }

  function Left(stock: int, denom: int, remaining: int): int
    requires denom > 0
  {
    remaining - Taken(stock, denom, remaining) * denom
  }

  // ----- The loop, one denomination at a time -----

  lemma {:induction false} StockFound(us: seq<CashUnit>, u: CashUnit)
    requires DistinctDenoms(us) && u in us && Usable(u)
    ensures Stock(us, u.denomination) == u.count
  {
    if us[0] != u {
      assert us == [us[0]] + us[1..];
      StockFound(us[1..], u);
    }
  }

  lemma {:induction false} StockAbsent(us: seq<CashUnit>, denom: int)
    requires forall u :: u in us && Usable(u) ==> u.denomination != denom
    ensures Stock(us, denom) == 0
  {
    if us != [] {
      assert us == [us[0]] + us[1..];
      StockAbsent(us[1..], denom);
    }
  }

  /** Sorting and filtering keep what is in stock. */
  lemma StockOfCandidates(us: seq<CashUnit>, denom: int)
    requires Valid(us)
    ensures Stock(Candidates(us), denom) == Stock(us, denom)
  {
    var cs := Candidates(us);
    CandidatesFacts(us);
    if u :| u in us && Usable(u) && u.denomination == denom {
      StockFound(us, u);
      StockFound(cs, u);
    } else {
      StockAbsent(us, denom);
      StockAbsent(cs, denom);
    }
  }

  predicate AllUsable(us: seq<CashUnit>) { forall i :: 0 <= i < |us| ==> Usable(us[i]) }

  /** Ready for the greedy loop, with no denomination above the bound. */
  predicate UpTo(us: seq<CashUnit>, denom: int) {
    && PositiveDenoms(us) && Descending(us) && AllUsable(us)
    && forall i :: 0 <= i < |us| ==> us[i].denomination <= denom
  }

  function After(us: seq<CashUnit>, denom: int): seq<CashUnit> {
    if us != [] && us[0].denomination == denom then us[1..] else us
  }

  lemma AfterFacts(us: seq<CashUnit>, denom: int, next: int)
    requires UpTo(us, denom)
    requires forall i :: 0 <= i < |us| ==> us[i].denomination == denom || us[i].denomination <= next
    ensures UpTo(After(us, denom), next) || next >= denom
    ensures forall d :: d != denom ==> Stock(After(us, denom), d) == Stock(us, d)
  {
  }

  /** One denomination of the greedy loop, whether or not a cassette holds it. */
  lemma GreedyHead(us: seq<CashUnit>, denom: nat, remaining: nat)
    requires UpTo(us, denom) && denom > 0
    ensures var s := Stock(us, denom);
            && Taken(s, denom, remaining) >= 0 && Left(s, denom, remaining) >= 0 && PositiveDenoms(After(us, denom))
            && Greedy(us, remaining).0 ==
                 Entry(denom, Taken(s, denom, remaining)) + Greedy(After(us, denom), Left(s, denom, remaining)).0
            && Greedy(us, remaining).1 == Greedy(After(us, denom), Left(s, denom, remaining)).1
  {
    if us != [] && us[0].denomination == denom {
      TakeFits(us[0], remaining);
    } else {
      assert forall u :: u in us ==> exists k :: 0 <= k < |us| && us[k] == u;
      StockAbsent(us, denom);
      NoneTaken(denom, remaining);
      assert Entry(denom, 0) + Greedy(us, remaining).0 == Greedy(us, remaining).0;
    }
  }

  lemma NoneTaken(denom: nat, remaining: nat)
    requires denom > 0
    ensures Taken(0, denom, remaining) == 0 && Left(0, denom, remaining) == remaining
  {
  }

  lemma GreedyOne(us: seq<CashUnit>, remaining: nat)
    requires UpTo(us, 20_000) && forall i :: 0 <= i < |us| ==> us[i].denomination == 20_000
    ensures var s := Stock(us, 20_000);
            Greedy(us, remaining) == (Entry(20_000, Taken(s, 20_000, remaining)), Left(s, 20_000, remaining))
  {
    AfterFacts(us, 20_000, 0);
    GreedyHead(us, 20_000, remaining);
    assert After(us, 20_000) == [];
    var e := Entry(20_000, Taken(Stock(us, 20_000), 20_000, remaining));
    assert e + [] == e;
  }

  lemma GreedyTwo(us: seq<CashUnit>, remaining: nat, left: int)
    requires UpTo(us, 50_000) && forall i :: 0 <= i < |us| ==> us[i].denomination in {50_000, 20_000}
    requires left == Left(Stock(us, 50_000), 50_000, remaining)
    ensures var s, t := Stock(us, 50_000), Stock(us, 20_000);
            Greedy(us, remaining) ==
              (Entry(50_000, Taken(s, 50_000, remaining)) + Entry(20_000, Taken(t, 20_000, left)),
               Left(t, 20_000, left))
  {
    AfterFacts(us, 50_000, 20_000);
    GreedyHead(us, 50_000, remaining);
    GreedyOne(After(us, 50_000), left);
  }

  lemma Regroup(x: Mix, y: Mix, z: Mix)
    ensures x + (y + z) == x + y + z
  {
  }

  /** With three denominations the greedy loop is three divisions. */
  lemma GreedyThree(us: seq<CashUnit>, amount: nat, l1: int, l2: int)
    requires UpTo(us, 100_000) && forall i :: 0 <= i < |us| ==> us[i].denomination in {100_000, 50_000, 20_000}
    requires l1 == Left(Stock(us, 100_000), 100_000, amount) && l2 == Left(Stock(us, 50_000), 50_000, l1)
    ensures var a, b := Taken(Stock(us, 100_000), 100_000, amount), Taken(Stock(us, 50_000), 50_000, l1);
            var c := Taken(Stock(us, 20_000), 20_000, l2);
            Greedy(us, amount) == (Pay(a, b, c), Left(Stock(us, 20_000), 20_000, l2))
  {
    AfterFacts(us, 100_000, 50_000);
    GreedyHead(us, 100_000, amount);
    GreedyTwo(After(us, 100_000), l1, l2);
    Regroup(Entry(100_000, Taken(Stock(us, 100_000), 100_000, amount)),
            Entry(50_000, Taken(Stock(us, 50_000), 50_000, l1)),
      Entry(20_000, Taken(Stock(us, 20_000), 20_000, l2)));
  }

  // ----- The mix in numbers -----

  /** The three divisions, on plain numbers. */
  predicate Divides(sa: int, sb: int, sc: int, amount: int, a: int, b: int, c: int) {
    && a == Min(sa, amount / 100_000)
    && b == Min(sb, (amount - 100_000 * a) / 50_000)
    && c == Min(sc, (amount - 100_000 * a - 50_000 * b) / 20_000)
  }

  lemma DivisionsFit(sa: nat, sb: nat, sc: nat, amount: nat) returns (a: nat, b: nat, c: nat)
    ensures Divides(sa, sb, sc, amount, a, b, c) && 100_000 * a + 50_000 * b + 20_000 * c <= amount
    ensures var l1 := Left(sa, 100_000, amount);
            var l2 := Left(sb, 50_000, l1);
            && a == Taken(sa, 100_000, amount) && l1 == amount - 100_000 * a && b == Taken(sb, 50_000, l1)
            && l2 == l1 - 50_000 * b && c == Taken(sc, 20_000, l2) && Left(sc, 20_000, l2) == l2 - 20_000 * c
  {
    a := Fits(sa, 100_000, amount);
    b := Fits(sb, 50_000, amount - 100_000 * a);
    c := Fits(sc, 20_000, amount - 100_000 * a - 50_000 * b);
  }

  lemma Fits(stock: nat, denom: nat, remaining: nat) returns (t: nat)
    requires denom > 0
    ensures t == Taken(stock, denom, remaining) && Left(stock, denom, remaining) == remaining - denom * t >= 0
  {
    t := Taken(stock, denom, remaining);
    assert remaining == denom * (remaining / denom) + remaining % denom;
    Scale(t, remaining / denom, denom);
  }

  lemma {:induction false} StockNonNegative(us: seq<CashUnit>, denom: int)
    requires forall i :: 0 <= i < |us| ==> us[i].count >= 0
    ensures Stock(us, denom) >= 0
  {
    if us != [] {
      StockNonNegative(us[1..], denom);
    }
  }

  lemma CandidatesInStock(us: seq<CashUnit>)
    requires Valid(us) && ThreeNotes(us)
    ensures var cs := Candidates(us);
            && UpTo(cs, 100_000) && (forall i :: 0 <= i < |cs| ==> cs[i].denomination in {100_000, 50_000, 20_000})
            && forall d :: Stock(cs, d) == Stock(us, d) >= 0
  {
    var cs := Candidates(us);
    CandidatesFacts(us);
    assert forall i :: 0 <= i < |cs| ==> cs[i] in cs;
    forall d ensures Stock(cs, d) == Stock(us, d) >= 0 {
      StockOfCandidates(us, d);
      StockNonNegative(cs, d);
    }
  }

  lemma StocksNonNegative(us: seq<CashUnit>)
    requires Valid(us)
    ensures Stock(us, 100_000) >= 0 && Stock(us, 50_000) >= 0 && Stock(us, 20_000) >= 0
  {
    forall i | 0 <= i < |us| ensures us[i].count >= 0 {
      assert ValidUnit(us[i]);
    }
    StockNonNegative(us, 100_000);
    StockNonNegative(us, 50_000);
    StockNonNegative(us, 20_000);
  }

  /** The greedy mix: three divisions, and a refusal when something is left over. */
  lemma MixThree(us: seq<CashUnit>, amount: nat) returns (a: nat, b: nat, c: nat)
    requires Valid(us) && ThreeNotes(us)
    ensures Divides(Stock(us, 100_000), Stock(us, 50_000), Stock(us, 20_000), amount, a, b, c)
    ensures MinNotesMix(us, amount) ==
            if 100_000 * a + 50_000 * b + 20_000 * c == amount then Some(Pay(a, b, c)) else None
  {
    CandidatesInStock(us);
    var sa, sb, sc := Stock(us, 100_000), Stock(us, 50_000), Stock(us, 20_000);
    a, b, c := DivisionsFit(sa, sb, sc, amount);
    var l1 := Left(sa, 100_000, amount);
    GreedyThree(Candidates(us), amount, l1, Left(sb, 50_000, l1));
  }

  lemma PayCount(a: nat, b: nat, c: nat)
    ensures NoteCount(Pay(a, b, c)) == a + b + c
  {
    var e := Entry(20_000, c);
    assert e + [] == e;
    NoteCountCons(20_000, c, []);
    NoteCountCons(50_000, b, e);
    NoteCountCons(100_000, a, Entry(50_000, b) + e);
    Regroup(Entry(100_000, a), Entry(50_000, b), e);
  }

  lemma NoteCountCons(denom: int, take: nat, rest: Mix)
    ensures NoteCount(Entry(denom, take) + rest) == take + NoteCount(rest)
  {
    if take > 0 {
      assert ([Notes(denom, take)] + rest)[1..] == rest;
    } else {
      assert Entry(denom, take) + rest == rest;
    }
  }

  /** The amount can be paid from the usable notes. */
  predicate Payable(us: seq<CashUnit>, amount: int, x: nat, y: nat, z: nat) {
    && x <= Stock(us, 100_000) && y <= Stock(us, 50_000) && z <= Stock(us, 20_000)
    && 100_000 * x + 50_000 * y + 20_000 * z == amount
  }

  /**
   * With any stock of the three notes, and any of the cassettes usable, a mix the greedy loop
   * returns is the one feasible way to pay the amount with the fewest notes.
   */
  lemma GreedyIsUniqueBest(us: seq<CashUnit>, amount: nat, x: nat, y: nat, z: nat)
    requires Valid(us) && ThreeNotes(us) && MinNotesMix(us, amount).Some? && Payable(us, amount, x, y, z)
    ensures NoteCount(MinNotesMix(us, amount).value) <= x + y + z
    ensures NoteCount(MinNotesMix(us, amount).value) == x + y + z ==> MinNotesMix(us, amount).value == Pay(x, y, z)
  {
    var a, b, c := MixThree(us, amount);
    PayCount(a, b, c);
    Fewest(Stock(us, 100_000), Stock(us, 50_000), Stock(us, 20_000), amount, a, b, c, x, y, z);
  }

  lemma Fewest(sa: int, sb: int, sc: int, amount: int, a: nat, b: nat, c: nat, x: nat, y: nat, z: nat)
    requires Divides(sa, sb, sc, amount, a, b, c) && 100_000 * a + 50_000 * b + 20_000 * c == amount
    requires 100_000 * x + 50_000 * y + 20_000 * z == amount && x <= sa && y <= sb && z <= sc
    ensures a + b + c <= x + y + z
    ensures a + b + c == x + y + z ==> a == x && b == y && c == z
  {
    FewestNotes(sa, sb, sc, a, b, c, x, y, z);
  }

  /** In units of 10,000: ten, five and two. */
  lemma FewestNotes(sa: int, sb: int, sc: int, a: nat, b: nat, c: nat, x: nat, y: nat, z: nat)
    requires 10 * a + 5 * b + 2 * c == 10 * x + 5 * y + 2 * z
    requires a == sa || 5 * b + 2 * c < 10
    requires b == sb || 2 * c < 5
    requires a <= sa && b <= sb && c <= sc && x <= sa && y <= sb && z <= sc
    ensures a + b + c <= x + y + z
    ensures a + b + c == x + y + z ==> a == x && b == y && c == z
  {
  }

  // ----- What the loop refuses although it could be paid -----

  /**
   * For every stock: of the amounts that the ATM accepts, the loop pays exactly those that can be paid at all and of
   * which it takes an even number of 50,000 notes. A payable amount is refused when that number is odd.
   */
  lemma GreedyPaysExactly(us: seq<CashUnit>, amount: nat) returns (a: nat, b: nat, c: nat)
    requires Valid(us) && ThreeNotes(us) && amount % 20_000 == 0
    ensures Divides(Stock(us, 100_000), Stock(us, 50_000), Stock(us, 20_000), amount, a, b, c)
    ensures MinNotesMix(us, amount).Some? <==>
              b % 2 == 0 && exists x: nat, y: nat, z: nat :: Payable(us, amount, x, y, z)
  {
    a, b, c := MixThree(us, amount);
    var sa, sb, sc := Stock(us, 100_000), Stock(us, 50_000), Stock(us, 20_000);
    var m := amount / 20_000;
    StocksNonNegative(us);
    if 100_000 * a + 50_000 * b + 20_000 * c == amount {
      DivisionsEven(m, a, b, c);
      assert Payable(us, amount, a, b, c);
    }
    if b % 2 == 0 {
      if x: nat, y: nat, z: nat :| Payable(us, amount, x, y, z) {
        EvenPays(sa, sb, sc, m, a, b, c, x, y, z);
      }
    }
  }

  /** What a division of the loop means, without the division. */
  predicate Greediest(stock: int, taken: int, share: int, rest: int, unit: int) {
    taken <= stock && 0 <= rest == share - unit * taken && (taken == stock || rest < unit)
  }

  lemma Divided(stock: nat, share: nat, unit: nat)
    requires unit > 0
    ensures var t := Min(stock, share / unit); Greediest(stock, t, share, share - unit * t, unit)
  {
    var t := Fits(stock, unit, share);
    assert share == unit * (share / unit) + share % unit;
  }

  lemma DividesGreedily(sa: nat, sb: nat, sc: nat, amount: nat, a: nat, b: nat, c: nat)
    requires Divides(sa, sb, sc, amount, a, b, c)
    ensures var r1 := amount - 100_000 * a;
            var r2 := r1 - 50_000 * b;
            && Greediest(sa, a, amount, r1, 100_000) && Greediest(sb, b, r1, r2, 50_000)
            && Greediest(sc, c, r2, r2 - 20_000 * c, 20_000)
  {
    Divided(sa, amount, 100_000);
    Divided(sb, amount - 100_000 * a, 50_000);
    Divided(sc, amount - 100_000 * a - 50_000 * b, 20_000);
  }

  lemma DivisionsEven(m: int, a: nat, b: nat, c: nat)
    requires 100_000 * a + 50_000 * b + 20_000 * c == 20_000 * m
    ensures b % 2 == 0
  {
    assert 2 * (m - 5 * a - c) == 5 * b;
  }

  /** In units of 10,000: an even number of fives leaves an even rest for the twos, and no other choice leaves less. */
  lemma EvenUnits(sa: int, sb: int, sc: int, m: int, a: nat, h: nat, c: nat, x: nat, w: nat, z: nat)
    requires Greediest(sa, a, 2 * m, 2 * m - 10 * a, 10)
    requires Greediest(sb, 2 * h, 2 * m - 10 * a, 2 * m - 10 * a - 10 * h, 5)
    requires Greediest(sc, c, 2 * m - 10 * a - 10 * h, 2 * m - 10 * a - 10 * h - 2 * c, 2)
    requires x <= sa && 2 * w <= sb && z <= sc && 10 * x + 10 * w + 2 * z == 2 * m
    ensures 10 * a + 10 * h + 2 * c == 2 * m
  {
    assert x + w <= a + h;
  }

  lemma EvenPays(sa: nat, sb: nat, sc: nat, m: nat, a: nat, b: nat, c: nat, x: nat, y: nat, z: nat)
    requires Divides(sa, sb, sc, 20_000 * m, a, b, c) && b % 2 == 0
    requires x <= sa && y <= sb && z <= sc && 100_000 * x + 50_000 * y + 20_000 * z == 20_000 * m
    ensures 100_000 * a + 50_000 * b + 20_000 * c == 20_000 * m
  {
    DividesGreedily(sa, sb, sc, 20_000 * m, a, b, c);
    DivisionsEven(m, x, y, z);
    EvenUnits(sa, sb, sc, m, a, b / 2, c, x, y / 2, z);
  }

  /**
   * With ample stock of all three notes these are exactly the amounts that are not 60,000 or 80,000 above a multiple
   * of 100,000.
   */
  lemma GreedyGap(us: seq<CashUnit>, amount: nat)
    requires Valid(us) && ThreeNotes(us) && amount % 20_000 == 0
    requires Stock(us, 100_000) >= amount / 100_000 && Stock(us, 50_000) >= 1 && Stock(us, 20_000) >= 2
    ensures MinNotesMix(us, amount).Some? <==> amount % 100_000 != 60_000 && amount % 100_000 != 80_000
  {
    var a, b, c := MixThree(us, amount);
    StocksNonNegative(us);
    var q, j := amount / 100_000, amount % 100_000 / 20_000;
    DividesGreedily(Stock(us, 100_000), Stock(us, 50_000), Stock(us, 20_000), amount, a, b, c);
    Residue(amount, q, j);
    AmpleUnits(Stock(us, 100_000), Stock(us, 50_000), Stock(us, 20_000), q, j, a, b, c);
  }

  lemma Residue(amount: nat, q: nat, j: nat)
    requires amount % 20_000 == 0 && q == amount / 100_000 && j == amount % 100_000 / 20_000
    ensures amount == 20_000 * (5 * q + j) && j < 5 && amount % 100_000 == 20_000 * j
  {
    var r := amount % 100_000;
    assert amount == 100_000 * q + r;
    assert r == 20_000 * (amount / 20_000 - 5 * q);
  }

  lemma AmpleUnits(sa: nat, sb: nat, sc: nat, q: nat, j: nat, a: nat, b: nat, c: nat)
    requires j < 5 && sa >= q && sb >= 1 && sc >= 2
    requires var r1 := 20_000 * (5 * q + j) - 100_000 * a;
             var r2 := r1 - 50_000 * b;
             && Greediest(sa, a, 20_000 * (5 * q + j), r1, 100_000) && Greediest(sb, b, r1, r2, 50_000)
             && Greediest(sc, c, r2, r2 - 20_000 * c, 20_000)
    ensures 100_000 * a + 50_000 * b + 20_000 * c == 20_000 * (5 * q + j) <==> j < 3
  {
    assert a == q;
    if j < 3 {
      assert b == 0 && c == j;
    } else {
      assert b == 1;
    }
  }
}
