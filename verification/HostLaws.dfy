/** Which cards the host accepts, told from the card's own fields, with its expiry read digit by digit. */
module HostLaws {
  import opened Ledger
  import opened HostEmulator
  import Decimal

  predicate Digit(c: char) { '0' <= c <= '9' }

  function Value(c: char): int { c as int - '0' as int }

  /** The expiry is four digits YYMM, and the month it names is the present one or a later one. */
  predicate Unexpired(expiry: string, now: Month) {
    && |expiry| == 4 && (forall i :: 0 <= i < 4 ==> Digit(expiry[i]))
    && var year, month := 2000 + 10 * Value(expiry[0]) + Value(expiry[1]), 10 * Value(expiry[2]) + Value(expiry[3]);
       year > now.year || (year == now.year && month >= now.month)
  }

  lemma ReadTwo(s: string)
    requires |s| == 2 && Digit(s[0]) && Digit(s[1])
    ensures Decimal.AllDigits(s) && Decimal.Read(s) == 10 * Value(s[0]) + Value(s[1])
  {
    assert s[..1][..0] == [] && s[..1][0] == s[0];
    assert Decimal.Read(s[..1]) == Value(s[0]);
  }

  lemma ExpiredExactly(expiry: string, now: Month)
    ensures IsExpired(expiry, now) <==> !Unexpired(expiry, now)
  {
    if |expiry| == 4 && Decimal.AllDigits(expiry) {
      ReadTwo(expiry[..2]);
      ReadTwo(expiry[2..]);
    }
  }

  /**
   * A card is accepted, for its own account, if and only if it is known, active, not past the month of its expiry,
   * and its account exists and is active. Otherwise the first of these that fails gives the code.
   */
  lemma AcceptedExactly(db: Db, pan: string, now: Month)
    ensures var r := Authenticate(db, pan, now);
            && (r == Rejected(InvalidCard) <==> pan !in db.cards)
            && (pan in db.cards ==>
                  var card := db.cards[pan];
                  var served := card.accountId in db.accounts && db.accounts[card.accountId].active;
                  && (r == Rejected(CardBlocked) <==> card.status == Blocked)
                  && (r == Rejected(RestrictedCard) <==> card.status == Retained)
                  && (r == Rejected(ExpiredCard) <==> card.status == Active && !Unexpired(card.expiry, now))
                  && (r == Rejected(NoCardRecord) <==>
                        card.status == Active && Unexpired(card.expiry, now) && !served)
                  && (r == Accepted(card.accountId) <==>
                        card.status == Active && Unexpired(card.expiry, now) && served))
  {
    if pan in db.cards {
      ExpiredExactly(db.cards[pan].expiry, now);
    }
  }

  /** A card of December 2025 is good throughout that month, and not in January. */
  lemma LastMonth()
    ensures !IsExpired("2512", Month(2025, 12)) && IsExpired("2512", Month(2026, 1)) && IsExpired("", Month(2025, 1))
  {
    ExpiredExactly("2512", Month(2025, 12));
    ExpiredExactly("2512", Month(2026, 1));
  }

  /**
   * A PIN check changes nothing but the card's count of failures: the right PIN clears it, a wrong one adds one, and
   * from the third on the reply is that the tries are exceeded.
   */
  lemma PinCheckExactly(db: Db, pan: string, entered: string)
    ensures var (db', code) := VerifyPin(db, pan, entered);
            && db'.accounts == db.accounts && db'.rows == db.rows && db'.cards.Keys == db.cards.Keys
            && (pan !in db.cards ==> db' == db && code == InvalidCard)
            && (pan in db.cards ==>
                  var card, after := db.cards[pan], db'.cards[pan];
                  && (code == Approved00 <==> entered == card.pin)
                  && (code == IncorrectPin <==> entered != card.pin && card.failedPinCount < 2)
                  && (code == PinTriesExceeded <==> entered != card.pin && card.failedPinCount >= 2)
                  && after.failedPinCount == (if entered == card.pin then 0 else card.failedPinCount + 1)
                  && after.(failedPinCount := card.failedPinCount) == card
                  && forall other :: other in db.cards && other != pan ==> db'.cards[other] == db.cards[other])
  {
  }
}
