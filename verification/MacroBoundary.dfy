/**
 * Why the exactness of replay asks that no checkpoint splits the PIN: the first part of a split PIN is mistaken for
 * all of it, and the mistake can be made good by a later one.
 */
module MacroBoundary {
  import opened Common
  import opened Macro
  import opened MacroExact
  import Decimal

  const ONE := User(KeyPress("1"))
  const SEEN := Xfs(CardInserted)

  /** 1111, a checkpoint, 11 ENTER, and 11111111 ENTER. */
  const SPLIT: seq<Event> :=
    [ONE, ONE, ONE, ONE, SEEN, ONE, ONE, User(ENTER), ONE, ONE, ONE, ONE, ONE, ONE, ONE, ONE, User(ENTER)]

  function Ones(n: nat): string { Decimal.Repeat('1', n) }

  predicate AllOnes(s: seq<Event>, i: nat, j: nat) { i <= j <= |s| && forall k :: i <= k < j ==> s[k] == ONE }

  lemma {:induction false} OnesBuffered(s: seq<Event>, i: nat, j: nat, r: Recorder)
    requires AllOnes(s, i, j) && r == RecordUpTo(s, i) && r.digits == ""
    ensures RecordUpTo(s, j) == r.(digits := Ones(j - i))
    decreases j
  {
    if i < j {
      OnesBuffered(s, i, j - 1, r);
      assert Ones(j - 1 - i) + "1" == Ones(j - i);
    } else {
      assert Ones(0) == "";
    }
  }

  lemma {:induction false} OnesUsed(s: seq<Event>, i: nat, j: nat)
    requires AllOnes(s, i, j)
    ensures UsersUpTo(s, j) == UsersUpTo(s, i) + Presses(Ones(j - i))
    decreases j
  {
    if i < j {
      OnesUsed(s, i, j - 1);
      assert Presses(Ones(j - 1 - i)) + [KeyPress("1")] == Presses(Ones(j - i));
    } else {
      assert Presses(Ones(0)) == [];
    }
  }

  const PIN := EnterPin(CARD_PIN)

  lemma Recorded()
    ensures Record(SPLIT) == [Step(1, PIN), Step(2, Check(CardInserted)), Step(3, KeyPressed(Ones(2))), Step(4, PIN)]
  {
    OnesBuffered(SPLIT, 0, 4, Start());
    var r5 := RecordUpTo(SPLIT, 5);
    assert r5 == Recorder([Step(1, PIN), Step(2, Check(CardInserted))], 3, "", true);
    OnesBuffered(SPLIT, 5, 7, r5);
    var r8 := RecordUpTo(SPLIT, 8);
    assert r8 == Recorder(r5.steps + [Step(3, KeyPressed(Ones(2)))], 4, "", false);
    OnesBuffered(SPLIT, 8, 16, r8);
    assert RecordUpTo(SPLIT, 17) == Recorder(r8.steps + [Step(4, PIN)], 5, "", false);
  }

  lemma Used()
    ensures Users(SPLIT) == Presses(Ones(4)) + Presses(Ones(2)) + [ENTER] + Presses(Ones(8)) + [ENTER]
  {
    OnesUsed(SPLIT, 0, 4);
    OnesUsed(SPLIT, 5, 7);
    OnesUsed(SPLIT, 8, 16);
    assert UsersUpTo(SPLIT, 5) == UsersUpTo(SPLIT, 4) && UsersUpTo(SPLIT, 8) == UsersUpTo(SPLIT, 7) + [ENTER];
  }

  const ALONE := World(map[], map[], map[])

  lemma Played()
    ensures Replay(Record(SPLIT), ALONE).calls ==
            Presses(DEMO_PIN) + [ENTER] + Presses(Ones(2)) + Presses(DEMO_PIN) + [ENTER]
  {
    Recorded();
    var r0 := Start();
    var r1, r2 := Push(r0, PIN), Push(Push(r0, PIN), Check(CardInserted));
    var r3 := Push(r2, KeyPressed(Ones(2)));
    ReplayPush(r0, PIN, ALONE);
    ReplayPush(r1, Check(CardInserted), ALONE);
    ReplayPush(r2, KeyPressed(Ones(2)), ALONE);
    ReplayPush(r3, PIN, ALONE);
    assert Record(SPLIT) == Push(r3, PIN).steps;
  }

  lemma SameKeys()
    ensures Presses(Ones(4)) + Presses(Ones(2)) + [ENTER] + Presses(Ones(8)) + [ENTER]
         == Presses(DEMO_PIN) + [ENTER] + Presses(Ones(2)) + Presses(DEMO_PIN) + [ENTER]
  {
    assert DEMO_PIN == Ones(6);
    assert Presses(Ones(4)) + Presses(Ones(2)) == Presses(Ones(6));
    assert Presses(Ones(8)) == Presses(Ones(2)) + Presses(Ones(6));
  }

  lemma SplitPlain()
    ensures AllLiteral(SPLIT, ALONE) && AllCheckable(SPLIT)
  {
    forall k | 0 <= k < |SPLIT| && SPLIT[k].User? ensures Literal(SPLIT[k].action, ALONE, Variables(SPLIT, k, ALONE)) {
      PlainLiteral(SPLIT[k].action, ALONE, Variables(SPLIT, k, ALONE));
    }
  }

  lemma SplitTyped()
    ensures PinTyped(SPLIT, 0)
  {
    Used();
    assert DEMO_PIN == Ones(6) && Presses(Ones(4)) + Presses(Ones(2)) == Presses(Ones(6));
    var pin, rest := Presses(DEMO_PIN) + [ENTER], Presses(Ones(8)) + [ENTER];
    assert Users(SPLIT) == pin + rest;
    assert UsersUpTo(SPLIT, 0) + pin == pin;
  }

  lemma SplitBroken()
    ensures !PinsEntered(SPLIT) && !PinsWhole(SPLIT)
  {
    assert DigitRun(SPLIT, 0, 4) && !RunOk(SPLIT, 0, 4);
    SplitTyped();
  }

  /** The first run is no PIN, and still the replay performs exactly the user's actions. */
  lemma SplitRunCoincidence()
    ensures AllLiteral(SPLIT, ALONE) && AllCheckable(SPLIT) && Cooperative(ALONE)
    ensures Replay(Record(SPLIT), ALONE).calls == Users(SPLIT) && !PinsEntered(SPLIT) && !PinsWhole(SPLIT)
  {
    Used();
    Played();
    SameKeys();
    SplitPlain();
    SplitBroken();
  }
}
