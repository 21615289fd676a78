/** The PIN from the key pad to the host: what the session makes of a sequence of keys. */
module PinPath {
  import opened Common
  import opened Ledger
  import opened HostEmulator
  import opened AtmSession
  import opened AtmRuns
  import PinPad

  /** The entry that the ATM asks of the key pad. */
  const SPEC := PinPad.Spec(4, 6, ["ENTER"], false)

  /** A PIN entry at the ATM, up to the key that answers or rejects it, if one does. */
  function EnterPin(a: Atm, keys: seq<string>): (Atm, Outcome) {
    if BeginPin(a) == Threw then (a, Threw)
    else
      var (pad, answer) := PinPad.Keys(PinPad.Begin(SPEC, PinPad.PinMode), keys);
      if answer.PinReady? || answer.Cancelled? then (FinishPin(a, pad.buffer), Returned) else (a, Returned)
  }

  /** The first six digits since the last CLEAR. */
  function TypedPin(keys: seq<string>): string { PinPad.First(PinPad.SinceClear(SPEC, keys), 6) }

  /**
   * The host checks exactly the first six digits typed since the last CLEAR, once the entry is ended with at
   * least four; no other key, and no cancellation, counts for or against the card.
   */
  lemma EnterPinExact(a: Atm, before: seq<string>, key: string, s: Session)
    requires a.session == Some(s) && s.state == PinEntry && s.pan in a.host.db.cards
    requires PinPad.Keys(PinPad.Begin(SPEC, PinPad.PinMode), before).0.active.Some?
    ensures var b, card := EnterPin(a, before + [key]).0, a.host.db.cards[s.pan];
            var right := TypedPin(before) == card.pin;
            if key == "ENTER" && |PinPad.SinceClear(SPEC, before)| >= 4 then
              && b.journal == a.journal + [PinChecked(s.id, s.pan, right)]
              && b.host.db.cards[s.pan].failedPinCount == (if right then 0 else card.failedPinCount + 1)
              && (right <==> b.session.Some? && b.session.value.state == MainMenu)
            else b == a
  {
    var keys := before + [key];
    PinPad.PinEntryExact(SPEC, before, key);
    assert keys[..|keys| - 1] == before && keys[|keys| - 1] == key;
    PinPad.BufferIsTyped(SPEC, PinPad.PinMode, before);
    if key == "ENTER" && |PinPad.SinceClear(SPEC, before)| >= 4 {
      PinPad.PinEntryBounds(SPEC, before, key);
      assert PinPad.SinceClear(SPEC, keys) == PinPad.SinceClear(SPEC, before);
      FinishPinEffect(a, TypedPin(before), s, TypedPin(before) == a.host.db.cards[s.pan].pin);
    }
  }

  /** Outside PIN_ENTRY, or without a session, no entry begins. */
  lemma OnlyAtPinEntry(a: Atm, keys: seq<string>)
    requires a.session.None? || a.session.value.state != PinEntry
    ensures EnterPin(a, keys) == (a, Threw)
  {
  }
}
