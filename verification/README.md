# Verified model of the ATM simulator core

A Dafny model of the parts of the ATM simulator in which money, PINs and wire formats are handled, with proofs that
hold for all inputs, all runs and, where there is concurrency, all interleavings. `dafny verify dfyconfig.toml`
checks everything.

Six cores are modelled:

- **Money path.** `Ledger` gives the host's tables and the atomic meaning of an authorisation and a reversal.
  `LockProtocol` is the same host at the grain of single database statements under advisory locks. `LockLimits`
  proves the account limits of every interleaving, `LockSerial` reduces interleavings to serial histories,
  `LockBoundary` says exactly when that can be done, and `LockBooks` balances the books of every interleaving.
  `LedgerBoundary` shows what a reused trace number does to them. `LedgerLaws`, `LockDays` and `HostLaws` say, from the
  fields of tables and cards alone, which requests and cards are accepted and what is written. `CashDispenser`,
  `CashMix` and `CdmDevice` are the dispenser as a step function, its greedy choice of notes, and the device with
  fields and loops; `CashLaws` tells its commands from the cassettes' fields. `AtmSession` is the session; `AtmRuns`
  and `AtmMoney` prove what all runs of it keep, `AtmAmounts` that it pays what was entered, and `AtmVisit` follows a
  whole visit; `HostEmulator` and `AtmApp` are the services that mutate their fields, proved equal to those functions,
  up to whole runs of the object.
- **PIN path.** `PinPad` (key entry and the ISO 9564-1 format 0 block), `PinLaws` (the block digit by digit), `PinPath`
  (what the session makes of the keys), and the failure counting in `AtmRuns`.
- **Codecs.** `Tlv`, `TlvLoop` over `PassLoop`, `TlvLaws` and `TlvCodec` (BER-TLV: the grammar, the decoding loop,
  shortest lengths, the code), `Iso8583`, `IsoLaws` and `Iso8583Codec` (bitmap messages, their wire character by
  character, the code), `MiniJson` (the DLL's JSON writer and text-searching reader), `JsonGrammar` (RFC 8259, and what
  of it they write and read) and `JsonNested` (paths).
- **Framing.** `Framing`: length-prefixed frames under arbitrary chunking; `FrameLaws`: their bytes and limits.
- **Request matching.** `BridgeProtocol`: the bridge client's senders, reader, timeouts and disconnects;
  `BridgeOutcomes`: what each request returns; `BridgeFrames`: the text by which a frame is routed; `BridgeSweep`: when
  a disconnect gets stuck.
- **Macros.** `Macro` and `MacroStudio`: the recorder, and the runner that expands its steps; `MacroExact`: when a
  replay is exactly what was recorded; `MacroLaws`: single runs and steps; `MacroBoundary`: a stream at the edge of that
  condition.

Each service or device of the source that updates fields is a class here, and every method of it is proved to have
the effect of a specification function; the theorems are about those functions. `Common` holds shared values,
decimal and hexadecimal text.

## What the proofs found

- **A dropped connection can deadlock the bridge client.** A sender whose wait has timed out keeps its slot's mutex
  while it takes the pending map's; the reader's disconnect sweep keeps the map's mutex while it takes each slot's. The
  cycle is reachable (`BridgeProtocol.StuckIsReachable`) and permanent (`BridgeProtocol.StuckForGood`). It can be
  reached from a disconnect if and only if some listed request is then in flight (`BridgeSweep.StuckExactly`).
- **A four-byte TLV length with its top bit set** is read as negative and can send the decoding loop back to where it
  began (`TlvLoop.NegativeLengthLoops`). The decoder ends if and only if no loop makes more passes than its input has
  bytes (`TlvLoop.EndsExactly`), and always when lengths stay below 2^31 (`TlvLoop.EndsBelow31Bits`).
- **The greedy note mix refuses payable amounts**: for any stock exactly those of which it takes an odd number of
  50,000 notes (`CashMix.GreedyPaysExactly`), which with ample stock are those 60,000 or 80,000 above a multiple of
  100,000 (`CashMix.GreedyGap`).
- **A reversal marks rows by trace number alone.** Commit order explains all interleavings if and only if, whenever a
  trace number may be carried on one account and reversed on another, the two share a lock key
  (`LockBoundary.ExplainedExactly`); where each reversal names a live row of its own account, if and only if that holds
  of numbers carried on both (`LockBoundary.LiveExplainedExactly`). A serial history that uses a trace number twice
  breaks the books (`LedgerBoundary.ReusedTraceNumber`; `Ledger.ReversalExact` gives the exact condition). Limits and
  progress need no such condition (`LockLimits.LimitsHold`, `LockProtocol.NoDeadlock`).
- **A string with a control character other than newline, return and tab is written as it is**, and then the request is
  no JSON of anything (`JsonGrammar.RawControl`); without one it is exactly the object that was written
  (`JsonGrammar.DocIsJson`). The reader understands a JSON string if and only if it has no \b, \f or \u escape
  (`JsonGrammar.UnescapeExact`).
- **Recordings with a retained card or taken cash cannot be replayed**: the recorder writes checkpoints for which the
  runner has no rule (`Macro.UncheckableFails`).
- **A recording does not carry every action.** A cancellation with an empty reason, or with none, is replayed with the
  reason "macro cancel" (`MacroExact.CancelGainsReason`). A key text of several digits is replayed as several keys
  (`MacroExact.DigitsSplit`), and so is one that reads "Card.pin" (`MacroExact.PinNameSplits`). These, keys that
  resolve to other variables, unknown cards, and digits taken for a PIN are all that goes wrong
  (`MacroExact.ReplayExact`, `MacroExact.SucceedsExactly`).

## Conventions

Handlers of the session are atomic, except that PIN entry has a beginning and an end. Clock readings, the month of an
expiry check, the switch's cap and the keys' timing are parameters. `decodeTlv` is modelled by a method on every
input on which it ends, and by a specification function that also covers the others. A thrown exception is a
`None`, an `Err` or a `Threw`. In `LockProtocol` each transaction sees what was committed before each of its
statements, keeps its writes to itself until it commits, and releases its lock then; the lock key is an arbitrary
function of the account. Advisory locks are the only ones there: row locks, such as those that two concurrent updates
of one trace number's rows take, are not in the model, and `LockProtocol.NoDeadlock` does not speak of them.

Where the source's descriptions and its code differ, the model follows the code:

- `tlv.ts` says that it supports tags of one or two bytes and lengths of one or two; the decoder takes tags of any
  length and lengths of up to four bytes.
- The runner's description resolves `Card.pin` to the selected card's PIN; its code types the fixed
  demonstration PIN.
- The greedy mix skips an INOPERATIVE cassette, the pre-flight of a CUSTOM mix does not.

## Model

| member | source | states |
|---|---|---|
| Ledger.AuthorizeWithinLimits | apps/xfs-server/src/host/host-emulator.service.ts:201-274 | an authorisation keeps balances non-negative and every UTC day's COMPLETED sum within the limit, even if midnight passes between its check and its insert |
| Ledger.ReverseWithinLimits | apps/xfs-server/src/host/host-emulator.service.ts:327-358 | so does a reversal |
| Ledger.RunWithinLimits | apps/xfs-server/src/host/host-emulator.service.ts:154-358 | and so every serial history of positive amounts |
| Ledger.RunConserves | apps/xfs-server/src/host/host-emulator.service.ts:251-274 | from an empty table, with distinct trace numbers and reversals that name a COMPLETED row, each balance is its start minus the account's COMPLETED sum, and the cached dailyWithdrawn its start plus that sum |
| Ledger.ReversalExact | apps/xfs-server/src/host/host-emulator.service.ts:334-357 | a reversal keeps these books if and only if the row it names is the only COMPLETED one with its trace number |
| Ledger.ReversalFlipsOneRow | apps/xfs-server/src/host/host-emulator.service.ts:341-357 | in such a history a reversal flips exactly one row, leaves every other as it was, and adds one REVERSED row |
| Ledger.FormatStanInjective | packages/shared/src/ids.ts:19-21 | two counters give one trace number exactly when they agree modulo 1,000,000 |
| LedgerLaws.StanText | packages/shared/src/ids.ts:19-21 | a trace number is six digits, those of its counter modulo 1,000,000 |
| LedgerLaws.ApprovedExactly | apps/xfs-server/src/host/host-emulator.service.ts:201-249 | for a card with an account and no COMPLETED row of it from a later day, the reply is an approval with the new balance if and only if the amount is within the cap, the balance, and the daily limit less what was COMPLETED on the UTC day of the check; not sufficient funds if and only if within the cap and above the balance; otherwise the limit is exceeded |
| LedgerLaws.AuthorizeAnswers | apps/xfs-server/src/host/host-emulator.service.ts:171-249 | the same for every table, rows of later days counted in, and an invalid card where there is no account |
| LedgerLaws.NewDayNewLimit | apps/xfs-server/src/host/host-emulator.service.ts:228-248 | on a UTC day on which nothing has been withdrawn the whole daily limit is there, whatever was withdrawn before |
| LedgerLaws.AuthorizeWrites | apps/xfs-server/src/host/host-emulator.service.ts:250-282 | an approval takes the amount from the card's account only, counts it, and adds one COMPLETED row with the request's session, card, account, amount, trace number and instant; a refusal writes nothing |
| LedgerLaws.ReverseWrites | apps/xfs-server/src/host/host-emulator.service.ts:327-358 | a reversal gives the amount back to its account only, marks as REVERSED exactly the COMPLETED rows of its trace number, and adds one REVERSED row of its own; without the account it writes nothing |
| LockDays.RepliesExact | apps/xfs-server/src/host/host-emulator.service.ts:171-282 | in every state of every interleaving that commit order explains, each authorisation was approved, or refused with its code, exactly as its account's balance and the limit of the UTC day of its check called for on the tables of the serial history before it |
| LedgerBoundary.ReusedTraceNumber | apps/xfs-server/src/host/host-emulator.service.ts:341-344 | for any two counters that agree modulo 1,000,000, a serial history from an empty table in which two withdrawals take their trace numbers, the books balance, and the reversal of the first by its own number, account and amount breaks them |
| LedgerBoundary.WrappedCounter | packages/shared/src/ids.ts:19-21 | the counters 1 and 1,000,001 are such a pair |
| LockSerial.Serializable | apps/xfs-server/src/host/host-emulator.service.ts:171-282 | in every state of every interleaving of authorisations and reversals, if accounts on which one trace number may be carried and reversed share a lock key, tables and replies are those of running the committed requests one at a time in commit order |
| LockLimits.LimitsHold | apps/xfs-server/src/host/host-emulator.service.ts:201-274 | in every state of every interleaving of requests of positive amounts, under any lock key and with any trace numbers, no balance is negative and no UTC day's COMPLETED sum exceeds the daily limit |
| LockBooks.InterleavingConserves | apps/xfs-server/src/host/host-emulator.service.ts:251-274 | if authorisations arrive with trace numbers of their own and each reversal with that of a COMPLETED row of its account, none twice, the books of every interleaving from an empty table balance as those of a serial history do |
| LockSerial.StepsAreAtomic | apps/xfs-server/src/host/host-emulator.service.ts:206-358 | on every such run each step commits nothing, or exactly one request, whose tables and reply are those of the atomic operation on the tables as they are then, although it decided on values read earlier |
| LockProtocol.NoDeadlock | apps/xfs-server/src/host/host-emulator.service.ts:197-204 | in every reachable state with an unfinished request, under any lock key and with any trace numbers, some transaction can run its next statement, which brings it nearer its commit |
| LockBoundary.ExplainedExactly | apps/xfs-server/src/host/host-emulator.service.ts:341-344 | for any lock key and any relation of trace numbers to accounts, commit order explains every conforming run if and only if, whenever one number may be carried on one account and reversed on another, the two have the same key |
| LockBoundary.LiveExplainedExactly | apps/xfs-server/src/host/host-emulator.service.ts:341-344 | the like for runs on which each reversal names, when it arrives, a COMPLETED row of its own account: if and only if, whenever one number may be carried on two accounts and reversed on one of them, the two have the same key |
| LockBoundary.CrossAccountReversal | apps/xfs-server/src/host/host-emulator.service.ts:341-344 | for every lock key, every two accounts it tells apart and every trace number, whether or not the second account has a row of it, a run of one authorisation and one reversal that commit order does not explain |
| HostEmulator.HostEmulator.AuthorizeWithdrawal | apps/xfs-server/src/host/host-emulator.service.ts:154-293 | takes the next trace number and has the effect and reply of the atomic authorisation |
| HostEmulator.HostEmulator.ReverseTransaction | apps/xfs-server/src/host/host-emulator.service.ts:318-359 | has the effect of the atomic reversal, all or nothing |
| HostEmulator.HostEmulator.CheckCard | apps/xfs-server/src/host/host-emulator.service.ts:72-119 | the response codes of authentication, in the order the checks are made |
| HostLaws.AcceptedExactly | apps/xfs-server/src/host/host-emulator.service.ts:72-119 | a card is accepted for its own account if and only if it is known, active, not past its month, and on an active account, and otherwise the first of these that fails gives the code |
| HostLaws.ExpiredExactly | apps/xfs-server/src/host/host-emulator.service.ts:370-382 | the expiry holds if and only if it is four digits YYMM and that month is the present one or a later one |
| HostEmulator.HostEmulator.CheckPin | apps/xfs-server/src/host/host-emulator.service.ts:121-152 | a wrong PIN adds one failure and, from the third on, reports tries exceeded; a right one clears the count |
| HostLaws.PinCheckExactly | apps/xfs-server/src/host/host-emulator.service.ts:121-152 | a PIN check changes the failure count of one card and nothing else, and each code is returned exactly for its case |
| HostEmulator.HostEmulator.Retain | apps/xfs-server/src/host/host-emulator.service.ts:362-368 | the card is marked retained and nothing else changes |
| HostEmulator.HostEmulator.GenerateStan | apps/xfs-server/src/host/host-emulator.service.ts:384-386 | trace numbers are those of consecutive counters |
| CashDispenser.DispenseExact | packages/xfs-devices/src/cdm/cdm.service.ts:180-226 | a DISPENSE fails with every cassette as it was, or lowers the total by exactly the amount; counts stay in range and a jammed cassette is never touched |
| CashDispenser.MinNotesRefusal | packages/xfs-devices/src/cdm/cdm.service.ts:278-308 | with the default mix, the greedy left-over is the only reason to refuse a positive amount |
| CashDispenser.RunValue | packages/xfs-devices/src/cdm/cdm.service.ts:55-118 | over every run of commands COUNT's total moves by exactly what was paid and what was loaded |
| CashDispenser.TotalDispensedExact | packages/xfs-devices/src/cdm/cdm.service.ts:258-265 | without replenishment, CASH_UNIT_INFO's totalDispensed is the sum of all successful dispenses |
| CashDispenser.StepValid | packages/xfs-devices/src/cdm/cdm.service.ts:55-118 | every command keeps counts within 0 and the maximum, unit identities and denominations distinct |
| CashMix.GreedyIsUniqueBest | packages/xfs-devices/src/cdm/cdm.service.ts:278-308 | with 100,000, 50,000 and 20,000 cassettes in any stock, a mix that the loop returns uses the fewest notes, and no other way does with as few |
| CashMix.GreedyPaysExactly | packages/xfs-devices/src/cdm/cdm.service.ts:289-305 | for any stock, a multiple of 20,000 is paid if and only if it can be paid at all and the loop takes an even number of 50,000 notes of it |
| CashMix.GreedyGap | packages/xfs-devices/src/cdm/cdm.service.ts:292-305 | with ample stock, a multiple of 20,000 is paid if and only if it is not 60,000 or 80,000 above a multiple of 100,000 |
| CashLaws.DefaultAnswered | packages/xfs-devices/src/cdm/cdm.service.ts:180-226 | without a mix of its own a DISPENSE pays if and only if nothing is left after as many 100,000 notes as the cassettes in service and the amount allow, then 50,000, then 20,000; it pays with those notes, and otherwise fails and changes nothing |
| CashLaws.DispensedExactly | packages/xfs-devices/src/cdm/cdm.service.ts:180-226 | an amount that the ATM accepts is paid if and only if it can be paid from the cassettes in service and an even number of 50,000 notes is taken for it |
| CashLaws.CustomAnswered | packages/xfs-devices/src/cdm/cdm.service.ts:185-203 | a DISPENSE with its own mix pays if and only if the mix is well formed, adds up to the positive amount, and for each entry a cassette of its denomination that is neither REJECT nor jammed has the notes |
| CashLaws.DispenseEffect | packages/xfs-devices/src/cdm/cdm.service.ts:204-226 | what was dispensed has left exactly the cassettes of its mix, whose status is EMPTY at none, LOW at no more than the minimum, and else unchanged; exactly that mix is presented |
| CashLaws.RetractEffect | packages/xfs-devices/src/cdm/cdm.service.ts:245-256 | presented notes are counted into REJECT and nothing else changes, or there are none and it fails |
| CashLaws.ReplenishEffect | packages/xfs-devices/src/cdm/cdm.service.ts:93-103 | a count from 0 to the maximum is set with the status it deserves, any other is refused |
| CashLaws.JamEffect | packages/xfs-devices/src/cdm/cdm.service.ts:105-118 | a jam marks one cassette only, and clearing it gives the status that its count deserves |
| CashLaws.InjectedFailsOnce | packages/xfs-devices/src/base/virtual-device.base.ts:95-103 | an injected error fails the next device command and no other, and RESET gets past it |
| CashLaws.DefaultCount | packages/xfs-devices/src/cdm/cdm.service.ts:130-178 | the cassettes as delivered hold 2,000 notes worth 110,000,000 |
| CashLaws.ReportsExactly | packages/xfs-devices/src/cdm/cdm.service.ts:258-276 | COUNT reports value and number of the notes outside REJECT, and CASH_UNIT_INFO what the cassettes lack of their initial counts, summed cassette by cassette; neither changes anything |
| CashDispenser.CandidatesFacts | packages/xfs-devices/src/cdm/cdm.service.ts:279-287 | what is filtered and sorted is strictly descending in denomination and holds exactly the cassettes other than REJECT that are OK, LOW or EMPTY by status and have notes |
| CdmDevice.CdmDevice.CalculateMinNotesMix | packages/xfs-devices/src/cdm/cdm.service.ts:278-308 | the greedy loop over those cassettes, in that order, returns the specified mix or refuses |
| CdmDevice.CdmDevice.TakeGreedily | packages/xfs-devices/src/cdm/cdm.service.ts:289-301 | the loop with its early exit is the recursive greedy choice |
| CdmDevice.CdmDevice.ValidateCustomMix | packages/xfs-devices/src/cdm/cdm.service.ts:310-322 | accepts exactly positive denominations with non-negative counts that add up to the amount |
| CdmDevice.CdmDevice.ExecuteDispense | packages/xfs-devices/src/cdm/cdm.service.ts:180-226 | mix, pre-flight, deduction and presentation in place are one all-or-nothing step |
| CdmDevice.CdmDevice.DeductNotes | packages/xfs-devices/src/cdm/cdm.service.ts:204-217 | the loop removes each entry of the mix from the cassette found for it and sets its status |
| CdmDevice.CdmDevice.ExecutePresent | packages/xfs-devices/src/cdm/cdm.service.ts:228-243 | presents the dispensed notes and arms the take timer, or fails without a change |
| CdmDevice.CdmDevice.ExecuteRetract | packages/xfs-devices/src/cdm/cdm.service.ts:245-256 | the notes presented go to the REJECT unit, every other cassette unchanged |
| CdmDevice.CdmDevice.ExecuteCount | packages/xfs-devices/src/cdm/cdm.service.ts:267-276 | the loop computes value and number of notes outside REJECT |
| CdmDevice.CdmDevice.ExecuteCashUnitInfo | packages/xfs-devices/src/cdm/cdm.service.ts:258-265 | the loop computes what the units lack against their initial counts |
| CdmDevice.CdmDevice.ReplenishCassette | packages/xfs-devices/src/cdm/cdm.service.ts:93-103 | sets count and status within range, or fails without a change |
| CdmDevice.CdmDevice.ChangeJam | packages/xfs-devices/src/cdm/cdm.service.ts:105-118 | marks a cassette jammed, or restores the status its count deserves |
| CdmDevice.CdmDevice.CheckInjectedError | packages/xfs-devices/src/base/virtual-device.base.ts:95-103 | an injected error is reported once |
| CdmDevice.CdmDevice.Execute | packages/xfs-devices/src/cdm/cdm.service.ts:55-118 | any command has on the object the effect and reply of the specified step, so what is proved of runs of steps holds of it |
| AtmRuns.WithdrawalOutcomes | apps/xfs-server/src/atm/atm-app.service.ts:297-376 | a withdrawal is declined, paid, or approved and taken back, and in each case ends the session with exactly those effects |
| AtmRuns.FinishPinEffect | apps/xfs-server/src/atm/atm-app.service.ts:201-222 | a PIN check changes one card's counter, and its status exactly when the third failure of card or session is reached |
| AtmRuns.RunKeepsRest | apps/xfs-server/src/atm/atm-app.service.ts:453-534 | after every call the ATM has no session, or one in PIN_ENTRY, MAIN_MENU, AMOUNT_ENTRY or CONFIRM with its own watchdog armed: never stuck in between |
| AtmRuns.RunDisciplined | apps/xfs-server/src/atm/atm-app.service.ts:224-343 | every DISPENSE follows the approval of its own amount in a session with a verified PIN; every approval is dispensed or reversed; every reversal answers a failed dispense |
| AtmRuns.RunCardOk | apps/xfs-server/src/atm/atm-app.service.ts:201-222 | over any sessions and re-insertions a card's counter is its streak of wrong PINs, at most three, and three only when it is retained |
| AtmRuns.RetainedForGood | apps/xfs-server/src/host/host-emulator.service.ts:90-96 | a retained card stays retained and never has a session again |
| AtmMoney.ReversalRestores | apps/xfs-server/src/atm/atm-app.service.ts:331-343 | whatever its trace number, the reversal of an approval restores every account exactly |
| AtmMoney.ReversalBalances | apps/xfs-server/src/atm/atm-app.service.ts:331-343 | with a trace number that was not used before, the books balance after it too |
| AtmMoney.WithdrawalMoves | apps/xfs-server/src/atm/atm-app.service.ts:297-376 | one withdrawal moves account totals and cassettes by the same amount, whatever fails on the way |
| AtmAmounts.PaysWhatWasEntered | apps/xfs-server/src/atm/atm-app.service.ts:244-376 | over every run, each approval, dispense and reversal of a session carries the last amount that was entered in it when it was asked for one, a positive multiple of 20,000 |
| AtmAmounts.EnterAndConfirm | apps/xfs-server/src/atm/atm-app.service.ts:244-376 | from the amount entry, such an amount and its confirmation ask the host once for exactly that on the session's card, with the three outcomes of a withdrawal of exactly that; any other amount changes nothing |
| AtmVisit.InsertExactly | apps/xfs-server/src/atm/atm-app.service.ts:88-146 | a card in an idle and working reader opens a session of its own that asks for its PIN if and only if the host serves the card, and otherwise comes out again |
| AtmVisit.PinExactly | apps/xfs-server/src/atm/atm-app.service.ts:201-222 | the right PIN opens the menu, a wrong one costs one try, and the third of card or session ends with the card retained |
| AtmVisit.SelectExactly | apps/xfs-server/src/atm/atm-app.service.ts:224-242 | from the menu a withdrawal asks for an amount and any other choice ends the visit without money moving; elsewhere a choice does nothing |
| AtmVisit.LeaveExactly | apps/xfs-server/src/atm/atm-app.service.ts:279-290 | a cancellation, or the session's own watchdog, ends the visit, gives the card back and moves no money |
| AtmVisit.Visit | apps/xfs-server/src/atm/atm-app.service.ts:88-376 | card, right PIN, withdrawal, amount and confirmation check the PIN, ask the host once for that amount on that card, pay it or take it back, and end with the card out of the reader |
| AtmMoney.RunMoney | apps/xfs-server/src/atm/atm-app.service.ts:297-376 | over every run of any length, from any table and trace counter, with any injected error, what the accounts lose is the sum of the successful dispenses, which is what leaves the cassettes |
| AtmMoney.RunBooks | apps/xfs-server/src/atm/atm-app.service.ts:297-376 | from balanced books, and as long as trace numbers have not come round, every run leaves each balance at its start minus the account's COMPLETED sum |
| AtmApp.AtmApp.OnCardInserted | apps/xfs-server/src/atm/atm-app.service.ts:88-146 | insertion, track reading and authentication, each failure of which ends the session |
| AtmApp.AtmApp.VerifyPinBuffer | apps/xfs-server/src/atm/atm-app.service.ts:201-222 | the end of a PIN entry: the menu, another try, or retention |
| AtmApp.AtmApp.RetainForSession | apps/xfs-server/src/atm/atm-app.service.ts:416-433 | retains in reader and host and ends the session, even if the reader reports an error |
| AtmApp.AtmApp.SelectTransaction | apps/xfs-server/src/atm/atm-app.service.ts:224-242 | from MAIN_MENU only: a balance, an amount entry, or an error |
| AtmApp.AtmApp.SubmitAmount | apps/xfs-server/src/atm/atm-app.service.ts:244-259 | accepts exactly positive multiples of 20,000 in AMOUNT_ENTRY |
| AtmApp.AtmApp.ConfirmTransaction | apps/xfs-server/src/atm/atm-app.service.ts:261-277 | from CONFIRM only: the withdrawal |
| AtmApp.AtmApp.Withdraw | apps/xfs-server/src/atm/atm-app.service.ts:297-376 | host, dispenser, printer and reader driven in order, with the reversal on a failed dispense |
| AtmApp.AtmApp.CancelTransaction | apps/xfs-server/src/atm/atm-app.service.ts:279-290 | ejects and ends the session, or does nothing without one |
| AtmApp.AtmApp.OnIdleTimer | apps/xfs-server/src/atm/atm-app.service.ts:506-534 | ends the session it was armed for and no other |
| AtmApp.AtmApp.TransitionTo | apps/xfs-server/src/atm/atm-app.service.ts:462-470 | the new state, with the watchdog armed exactly in states that await the customer |
| AtmApp.AtmApp.PerformAll | apps/xfs-server/src/atm/atm-app.service.ts:88-534 | any list of actions leaves the object in the state of the specified run, so what is proved of runs holds of it |
| AtmApp.Serve | apps/xfs-server/src/atm/atm-app.service.ts:88-534 | an ATM run from its first customer is at rest at the end, every approval dispensed or reversed, and its accounts have lost the sum of the successful dispenses |
| AtmApp.IdcDevice.InsertCard | packages/xfs-devices/src/idc/idc.service.ts:70-79 | a card is taken exactly when none is held |
| AtmApp.IdcDevice.EjectCard | packages/xfs-devices/src/idc/idc.service.ts:148-155 | the card leaves, unless an injected error or an empty reader prevents it |
| AtmApp.IdcDevice.RetainCard | packages/xfs-devices/src/idc/idc.service.ts:157-164 | the card is kept, unless an injected error or an empty reader prevents it |
| BridgeProtocol.AnswersMatch | packages/xfs-dll/src/bridge_client.cpp:133-190 | in every interleaving a request that returns a body returns one in whose text the reader found its own id, and no slot is completed twice |
| BridgeOutcomes.OutcomeExactly | packages/xfs-dll/src/bridge_client.cpp:246-291 | in every interleaving, told from the steps alone: a request returns a timeout if and only if it expired and gave up, a failed send if and only if its send failed, and otherwise exactly the body of the frame of its id that was received and delivered, or the lost connection if and only if the sweep came to it |
| BridgeOutcomes.DeliveredReturns | packages/xfs-dll/src/bridge_client.cpp:279-291 | a request that is delivered a body before it expires, and whose send does not fail, returns exactly that body, and can |
| BridgeOutcomes.AnswerTaken | packages/xfs-dll/src/bridge_client.cpp:148-172 | in every reachable state, a response with the id of a request that waits is taken from the stream for that request, and the reader's next step and the request's own make it return that body |
| BridgeOutcomes.OthersReturn | packages/xfs-dll/src/bridge_client.cpp:273-289 | an unanswered request can time out, and one that cannot be sent can fail, while no sweep is on |
| BridgeOutcomes.SweepReturns | packages/xfs-dll/src/bridge_client.cpp:181-191 | when the connection drops under a single waiting request, the sweep reaches it, empties the map, and it returns the lost connection |
| BridgeProtocol.StrayResponsesDropped | packages/xfs-dll/src/bridge_client.cpp:148-172 | a late or duplicate response changes nothing, and a delivery changes only the request of its id |
| BridgeProtocol.ReturnIsFinal | packages/xfs-dll/src/bridge_client.cpp:279-290 | what a request has returned stays what it returned |
| BridgeProtocol.IdsDiffer | packages/xfs-dll/src/bridge_client.cpp:79-83 | requests have different ids |
| BridgeOutcomes.IdText | packages/xfs-dll/src/bridge_client.cpp:77-83 | ids are REQ_ and the number of the request, from one |
| BridgeFrames.FrameRouted | packages/xfs-dll/src/bridge_client.cpp:136-146 | the textual search finds exactly the type and the id that a frame was written with, whatever follows them in it |
| BridgeFrames.ResponseReaches | packages/xfs-dll/src/bridge_client.cpp:147-171 | in every reachable state, a response frame written for a request is handed to it if it still has its entry, and otherwise changes nothing |
| BridgeProtocol.StuckIsReachable | packages/xfs-dll/src/bridge_client.cpp:182-190 | a run leads to the lock cycle of a timed-out sender and the disconnect sweep |
| BridgeProtocol.StuckForGood | packages/xfs-dll/src/bridge_client.cpp:280-289 | from there neither of the two ever moves again |
| BridgeSweep.StuckExactly | packages/xfs-dll/src/bridge_client.cpp:182-190 | from a reachable state in which the connection drops, the client can get stuck if and only if some listed request is still in flight: registered, waiting or timing out |
| MiniJson.StringRoundTrip | packages/xfs-dll/src/mini_json.h:86-98 | for every object with plain keys and any string values, get_string returns exactly the value first written for the key, and nothing for other values or keys |
| MiniJson.FieldPresence | packages/xfs-dll/src/mini_json.h:81-84 | a key is found if and only if it was written: the textual search never matches inside an escaped value |
| MiniJson.NumberRoundTrip | packages/xfs-dll/src/mini_json.h:100-104 | written integers read back, with the fallback for an absent key only |
| MiniJson.BoolRoundTrip | packages/xfs-dll/src/mini_json.h:106-110 | written booleans read back |
| MiniJson.UnescapeEscape | packages/xfs-dll/src/mini_json.h:49-63 | unescaping undoes escaping for every string |
| JsonGrammar.EscapeExact | packages/xfs-dll/src/mini_json.h:48-62 | against the grammar of RFC 8259, section 7: the escaped text is the body of a JSON string that denotes the string if and only if its control characters are newline, return and tab only |
| JsonGrammar.DocIsJson | packages/xfs-dll/src/mini_json.h:20-42 | a written object is a JSON object of exactly its members in order whenever that holds of its keys and strings, and has no character below U+0020 if and only if it does |
| JsonGrammar.RawControl | packages/xfs-dll/src/mini_json.h:53-60 | any other control character makes the written string the JSON of no string at all |
| JsonGrammar.UnescapeExact | packages/xfs-dll/src/mini_json.h:140-160 | a JSON string is unescaped to what it denotes if and only if it has no \b, \f or \u escape |
| JsonNested.NestedString | packages/xfs-dll/src/mini_json.h:117-138 | a path of two keys reads a string out of an object inside an object, whatever follows it |
| JsonNested.SkipsExactly | packages/xfs-dll/src/mini_json.h:126-132 | between colon and value blanks, tabs and newlines are skipped and nothing else |
| MiniJson.ScanLiteral | packages/xfs-dll/src/mini_json.h:91-96 | the scan of a string stops at its own closing quote |
| MiniJson.SearchMembers | packages/xfs-dll/src/mini_json.h:117-138 | the search lands on the first member with the key, or nowhere |
| MiniJson.Writer.Key | packages/xfs-dll/src/mini_json.h:24-29 | separates and opens a member of the object written so far |
| MiniJson.Writer.PutValue | packages/xfs-dll/src/mini_json.h:30-36 | completes the open member |
| MiniJson.Writer.Finish | packages/xfs-dll/src/mini_json.h:42-42 | the text is that of all the members written |
| MiniJson.Reader.FindFieldStart | packages/xfs-dll/src/mini_json.h:117-138 | the cursor loop over a dotted path finds the specified offset |
| MiniJson.Reader.ReadString | packages/xfs-dll/src/mini_json.h:86-98 | the loop over a literal is the specified scan and unescape |
| Tlv.DecodeExact | packages/emv/src/tlv.ts:46-106 | the decoder returns nodes if and only if their tag, length and value bytes are exactly the input, recursively, so each input has at most one reading |
| Tlv.DecodeCovers | packages/emv/src/tlv.ts:46-106 | what it returns partitions its input, and so inside every constructed value |
| Tlv.RoundTrip | packages/emv/src/tlv.ts:24-44 | every forest of well-formed tags with values under 65,536 bytes encodes, and decodes to the same tags, lengths, values and children |
| Tlv.EncodeForestFits | packages/emv/src/tlv.ts:120-125 | encoding succeeds if and only if every value at every depth is under 65,536 bytes |
| TlvLaws.ShortestLength | packages/emv/src/tlv.ts:120-125 | a length below 65,536 gets the one shortest length field that X.690 allows for it, and a longer one none |
| TlvLaws.OddPairs | packages/emv/src/apdu.ts:50-60 | what `parseInt` makes of pairs that are not two hexadecimal digits |
| TlvLaws.Sample | packages/emv/src/tlv.ts:46-118 | the file control information template of an application, byte for byte, decodes to its two nodes, which are found by tag |
| TlvLoop.EndsExactly | packages/emv/src/tlv.ts:46-106 | decoding ends, nested decodings included, if and only if no loop makes more passes than its input has bytes, and more passes change no result |
| TlvLoop.EndsBelow31Bits | packages/emv/src/tlv.ts:46-106 | whenever no length read is 2^31 or more it ends, with what the grammar's decoder says |
| PassLoop.RecursForever | packages/emv/src/tlv.ts:50-103 | once an offset recurs the loop never ends, however many passes it is given |
| TlvLoop.NegativeLengthLoops | packages/emv/src/tlv.ts:78-93 | an input of six bytes that sends the loop back to its start, on which no number of passes is enough |
| Tlv.FoldLengthExact | packages/emv/src/tlv.ts:78-85 | the signed 32-bit fold gives the unsigned length below 2^31 and that minus 2^32 from there on |
| Tlv.HexRoundTrip | packages/emv/src/apdu.ts:50-60 | bytes printed as hexadecimal text parse back |
| Tlv.FindTagIsFirst | packages/emv/src/tlv.ts:109-118 | the search returns the first node with the tag in document order, and nothing only if there is none |
| TlvCodec.DecodeTlv | packages/emv/src/tlv.ts:46-106 | on every input on which it ends, the offset loop with its recursion returns the decoding or throws, also when negative lengths move it backwards |
| TlvCodec.DecodeBelow31Bits | packages/emv/src/tlv.ts:46-106 | in particular on every input whose length fields stay below 2^31, with the nodes of the grammar's decoder, or a throw exactly where the grammar has none |
| TlvCodec.ReadTag | packages/emv/src/tlv.ts:53-63 | the tag loop ends after the first byte without the continuation bit |
| TlvCodec.ReadLengthField | packages/emv/src/tlv.ts:66-86 | the length loop reads short and long forms, and refuses truncated ones |
| TlvCodec.EncodeTlvBuffer | packages/emv/src/tlv.ts:24-33 | three copies into one buffer give tag, length and value in order |
| TlvCodec.EncodeTemplateBuffer | packages/emv/src/tlv.ts:35-44 | the copying loop concatenates the children |
| Iso8583.RoundTripExact | packages/iso8583/src/codec.ts:17-54 | a message survives encoding and decoding if and only if it is canonical: a four-character type, fields in the bitmap and the table, fixed values short enough without trailing white space, numeric values of exactly n digits, variable values within their limit |
| Iso8583.DecodeEncode | packages/iso8583/src/codec.ts:17-102 | for every message that encodes, decoding gives each field as it is shown after padding and trimming |
| Iso8583.EncodeInjective | packages/iso8583/src/codec.ts:17-32 | different canonical messages have different encodings |
| Iso8583.EncodesExactly | packages/iso8583/src/codec.ts:22-30 | a message encodes exactly when each field lies in the primary bitmap, has a definition and fits |
| IsoLaws.FieldTable | packages/iso8583/src/fields.ts:29-48 | which fields are defined, by kind and length |
| IsoLaws.FixedText | packages/iso8583/src/codec.ts:58-59 | a fixed field is the value cut or filled with spaces at its end, position by position |
| IsoLaws.NumericText | packages/iso8583/src/codec.ts:60-61 | a numeric field is the last digits of the value, with zeros in front |
| IsoLaws.TwoDigitText | packages/iso8583/src/codec.ts:62-65 | a variable field is two digits of its length and the value, or too long |
| IsoLaws.ThreeDigitText | packages/iso8583/src/codec.ts:66-69 | or three digits of it |
| IsoLaws.TrimmedExactly | packages/iso8583/src/codec.ts:83-86 | a fixed field is read without the white space at its end and nothing else |
| IsoLaws.BitmapWeights | packages/iso8583/src/bitmap.ts:6-21 | each digit stands for four fields with weights 8, 4, 2 and 1 |
| IsoLaws.Layout | packages/iso8583/src/codec.ts:17-32 | a message is its type, its bitmap, and its fields' texts in ascending order of their numbers |
| IsoLaws.TrailingRefused | packages/iso8583/src/codec.ts:34-54 | an encoded message with anything after it is refused for its trailing bytes |
| IsoLaws.BrokenRefused | packages/iso8583/src/codec.ts:34-46 | a wire of fewer than twenty characters, and no other, is too short, and a first field without a definition is refused by its number |
| Iso8583.BitmapRoundTrip | packages/iso8583/src/bitmap.ts:6-34 | reading a bitmap gives back exactly the fields it was made from, in ascending order |
| Iso8583.BitmapInverse | packages/iso8583/src/bitmap.ts:6-34 | a bitmap of upper-case digits is the bitmap of the fields read from it |
| Iso8583.ShownExact | packages/iso8583/src/codec.ts:56-102 | a value reads back as itself if and only if it is canonical for its field |
| Iso8583Codec.FieldsToBitmap | packages/iso8583/src/bitmap.ts:6-21 | marking bits in place and folding nibbles gives the bitmap of the fields, or an error for one outside 1 to 64 |
| Iso8583Codec.BitmapToFields | packages/iso8583/src/bitmap.ts:23-34 | the nested loops list the fields whose bits are set |
| Iso8583Codec.EncodeMessage | packages/iso8583/src/codec.ts:17-32 | numbers sorted, bitmap made and fields appended in a loop encode the message or report its first error |
| Iso8583Codec.SortedNumbers | packages/iso8583/src/codec.ts:18-20 | the field numbers, each once and ascending |
| Iso8583Codec.DecodeMessage | packages/iso8583/src/codec.ts:34-54 | the cursor loop decodes the message or reports its first error, and refuses trailing bytes |
| Framing.ChunkingIrrelevant | apps/xfs-server/src/bridge/zxfs-bridge.service.ts:73-89 | two ways of cutting one stream deliver the same bodies in the same order, close alike, and while open keep the same bytes |
| Framing.BytesAccounted | apps/xfs-server/src/bridge/zxfs-bridge.service.ts:73-89 | the delivered bodies in their frames, followed by what the receiver holds, are the bytes received, and what it holds is an incomplete frame |
| Framing.ExtractExact | apps/xfs-server/src/host-transport/iso8583-tcp.transport.ts:106-119 | such a splitting of a stream is unique, and extraction finds it |
| Framing.Delivery | apps/xfs-server/src/bridge/zxfs-bridge.service.ts:227-232 | from sender to receiver exactly the bodies before the first refused one arrive, and the connection closes exactly when there is one |
| Framing.DeliveredSoFar | apps/xfs-server/src/host-transport/iso8583-tcp.transport.ts:145-148 | while the stream is still coming, what was delivered is a beginning of what was sent |
| Framing.FrameHeaderExact | packages/xfs-dll/src/bridge_client.cpp:86-95 | a header reads as its body's length exactly when the length fits it |
| FrameLaws.FrameTaken | apps/xfs-server/src/bridge/zxfs-bridge.service.ts:73-89 | four length bytes, lowest first, and a body of up to a million bytes are taken by the bridge, by the client unless it is empty, and anything longer closes; two bytes, highest first, and their body are always taken by the ISO 8583 listener |
| FrameLaws.FrameBytes | apps/xfs-server/src/bridge/zxfs-bridge.service.ts:227-232 | those are the bytes that a sender puts in front |
| Framing.FrameSocket.OnData | apps/xfs-server/src/host-transport/iso8583-tcp.transport.ts:106-119 | the buffer loop delivers every complete frame and keeps the rest |
| Framing.Serve | apps/xfs-server/src/bridge/zxfs-bridge.service.ts:68-89 | over a connection's life the handler sees the bodies that the whole stream holds |
| MacroExact.ReplayExact | apps/xfs-server/src/macros/macro-recorder.service.ts:90-243 | on a willing machine, for every stream whose checkpoints all have a rule and of which none interrupts the PIN after its fourth or fifth digit, the replay performs exactly the user's actions if and only if every unbroken run of 4 to 12 digits is the PIN and is followed by ENTER, every other key text means itself, every card inserted is known, and every cancellation states a reason |
| MacroExact.SucceedsExactly | apps/xfs-server/src/macros/macro-runner.service.ts:39-95 | without asking for such checkpoints: it passes with exactly the user's actions if and only if all that holds and every checkpoint has a rule |
| MacroExact.CancelGainsReason | apps/xfs-server/src/macros/macro-runner.service.ts:244-247 | a cancellation recorded with an empty reason or none is replayed as "macro cancel", and the run passes |
| MacroExact.DigitsSplit | apps/xfs-server/src/macros/macro-runner.service.ts:173-183 | any one key whose text is several digits is replayed as that many keys, and the run passes |
| MacroExact.PinNameSplits | apps/xfs-server/src/macros/macro-runner.service.ts:315-332 | a key whose text is "Card.pin" is replayed as the six digits of the demonstration PIN |
| Macro.ReplayIsFaithful | apps/xfs-server/src/macros/macro-runner.service.ts:173-205 | on a willing machine, for every stream of actions that steps can carry and of checkpoints that have a rule, if each unbroken run of 4 to 12 digits is the PIN and the next user action is ENTER, the replay passes and performs exactly the user's actions |
| Macro.ReplayNeverInvents | apps/xfs-server/src/macros/macro-runner.service.ts:65-95 | of such a stream, however the machine answers, a replay performs a beginning of the user's actions, and all of them if it passes |
| Macro.PassesExactly | apps/xfs-server/src/macros/macro-runner.service.ts:208-227 | on a willing machine a recording of such actions and PINs passes if and only if the runner has a rule for each of its checkpoints |
| Macro.UncheckableFails | apps/xfs-server/src/macros/macro-recorder.service.ts:251-258 | a recording in which a card was retained or cash taken passes on no machine |
| Macro.OrdersAreOneToN | apps/xfs-server/src/macros/macro-recorder.service.ts:235-243 | steps are numbered 1 to n in the order of recording |
| MacroLaws.RunRecorded | apps/xfs-server/src/macros/macro-recorder.service.ts:203-233 | 4 to 12 digits are recorded as the one step that enters the card's PIN, fewer or more as one step of those keys |
| MacroLaws.EnterRecorded | apps/xfs-server/src/macros/macro-recorder.service.ts:101-112 | an ENTER after them is recorded only if they were not taken for a PIN |
| MacroLaws.PinStepPlays | apps/xfs-server/src/macros/macro-runner.service.ts:184-205 | the PIN step types six ones and ENTER, and passes if the PIN is verified |
| MacroLaws.CheckpointPlays | apps/xfs-server/src/macros/macro-runner.service.ts:154-227 | checkpoints perform nothing, and pass for an inserted or ejected card, presented notes and a receipt only |
| MacroBoundary.SplitRunCoincidence | apps/xfs-server/src/macros/macro-recorder.service.ts:203-225 | a stream whose first run is no PIN and whose replay is faithful all the same, because a checkpoint splits the PIN after its fourth digit |
| MacroStudio.MacroRecorder.OnUserAction | apps/xfs-server/src/macros/macro-recorder.service.ts:90-173 | digits are buffered; any other action flushes them and is recorded, but for an absorbed ENTER |
| MacroStudio.MacroRecorder.OnXfsEvent | apps/xfs-server/src/macros/macro-recorder.service.ts:176-187 | an event with a checkpoint flushes the digits and records it; any other is ignored |
| MacroStudio.MacroRecorder.FlushDigitBuffer | apps/xfs-server/src/macros/macro-recorder.service.ts:203-233 | a run of 4 to 12 digits becomes one PIN step, any other one key step |
| MacroStudio.RecordStream | apps/xfs-server/src/macros/macro-recorder.service.ts:47-78 | a recording from start to stop yields the specified steps, numbered 1 to n |
| MacroStudio.RunMacro | apps/xfs-server/src/macros/macro-runner.service.ts:39-95 | the loop performs the steps in order and stops at the first that fails |
| MacroStudio.RecordAndRun | apps/xfs-server/src/macros/macro-runner.service.ts:65-205 | as code, recording a stream and running it passes with exactly the user's actions if and only if recorder and runner can carry it, and on such a stream does nothing else on any machine |
| PinPad.PinEntryExact | packages/xfs-devices/src/pin/pin.service.ts:103-137 | a PIN entry is answered by exactly the keys that end it, and then holds the first maxLen digits typed since the last CLEAR |
| PinPad.DataEntryExact | packages/xfs-devices/src/pin/pin.service.ts:208-222 | a data entry is answered by the same keys, with the digits handed out and none kept |
| PinPad.CancelExact | packages/xfs-devices/src/pin/pin.service.ts:103-112 | CANCEL and no other key rejects an entry, and nothing of it stays |
| PinPad.BufferIsTyped | packages/xfs-devices/src/pin/pin.service.ts:117-136 | so does the buffer at every moment before |
| PinPad.PinEntryBounds | packages/xfs-devices/src/pin/pin.service.ts:122-136 | an answered entry has between minLen and maxLen digits |
| PinPad.EntryToBlock | packages/xfs-devices/src/pin/pin.service.ts:208-265 | from keys to block: for every account number, taking it out of the block recovers exactly the first maxLen digits typed since the last CLEAR |
| PinPad.BlockXorPan | packages/xfs-devices/src/pin/pin.service.ts:256-276 | exclusive or with the PAN field recovers the PIN field, for every account number text |
| PinLaws.PanFieldExact | packages/xfs-devices/src/pin/pin.service.ts:260-263 | the account number field is 0000 and the twelve digits before the check digit, zeros in front when there are fewer |
| PinLaws.SeparatorsIgnored | packages/xfs-devices/src/pin/pin.service.ts:261-261 | characters of the account number that are no digits do not matter |
| PinLaws.PinFieldExact | packages/xfs-devices/src/pin/pin.service.ts:257-259 | the PIN field is 0, the length in hexadecimal, the PIN, and F up to sixteen digits |
| PinLaws.SampleBlock | packages/xfs-devices/src/pin/pin.service.ts:256-276 | PIN 1234 under account number 43219876543210987 gives 0412AC89ABCDEF67 |
| PinPad.BlockInjective | packages/xfs-devices/src/pin/pin.service.ts:256-265 | under one account number, blocks are equal if and only if the PINs are |
| PinPad.EnterKeys | packages/xfs-devices/src/pin/pin.service.ts:160-182 | at the device, a whole entry ends with the answer and buffer of its key sequence |
| PinPath.EnterPinExact | apps/xfs-server/src/atm/atm-app.service.ts:152-222 | at the ATM the host checks exactly the first six digits typed since the last CLEAR, once ENTER follows at least four; a right PIN leads to the menu, a wrong one adds one failure, and no other key or cancellation changes anything |
| PinPath.OnlyAtPinEntry | apps/xfs-server/src/atm/atm-app.service.ts:152-160 | no PIN entry begins outside that state |
| PinPad.PinDevice.PressKey | packages/xfs-devices/src/pin/pin.service.ts:103-137 | one key, in the order CANCEL, CLEAR, terminate, digit |
| PinPad.PinDevice.TerminateEntry | packages/xfs-devices/src/pin/pin.service.ts:208-222 | a PIN entry keeps its buffer, a data entry hands it out and wipes it |
| PinPad.PinDevice.Cancel | packages/xfs-devices/src/pin/pin.service.ts:224-231 | rejects the entry and wipes the buffer, or does nothing without one |
| PinPad.PinDevice.ExtractEnteredPin | packages/xfs-devices/src/pin/pin.service.ts:154-158 | hands out the buffer and wipes it |
| PinPad.PinDevice.GetPinBlock | packages/xfs-devices/src/pin/pin.service.ts:233-254 | refuses an empty buffer, an unknown key and a wrong length in that order; otherwise the block of the buffered PIN encrypted under the named key, and only then the buffer is wiped |
| PinPad.EncryptedRecovers | packages/xfs-devices/src/pin/pin.service.ts:233-265 | for every cipher that its key undoes, who holds key and account number recovers the PIN from the encrypted block |
| PinLaws.EncryptedExactly | packages/xfs-devices/src/pin/pin.service.ts:233-254 | no PIN, an unknown key and a wrong length are refused in this order, and otherwise the block is encrypted under the key of that name |
| PinPad.XorStrings | packages/xfs-devices/src/pin/pin.service.ts:267-276 | the loop is the digit-wise exclusive or |

## Left out

- Next.js frontend, controllers, gateways, DTO validation, reports, receipts' text: user interface and plumbing.
- Prisma, Postgres and sockets as such: tables are maps and sequences, timers and clocks are steps or parameters. A database that fails is not modelled, except that a reversal of a missing account aborts.
- Await-level interleaving of a cancellation with a running confirmation, and dispenser commands sent past the session: `AtmRuns` runs handlers one at a time, with operator commands other than DISPENSE between them.
- AtmMoney.RunBooks: stated up to trace number 1,000,000, because they wrap there and `LedgerBoundary.WrappedCounter` then breaks the books; `AtmMoney.RunMoney` has no bound.
- MacroExact.ReplayExact: says nothing of streams in which a checkpoint interrupts the PIN and ENTER after the fourth or fifth digit; there a replay can be faithful by coincidence (`MacroBoundary.SplitRunCoincidence`).
- LockProtocol.NoDeadlock: advisory locks only; a deadlock of row locks between two reversals of one trace number is the database's to detect.
- Hashes and ciphers (SHA-1 lock keys, salted PIN hashes, 3DES): a lock key is an arbitrary function, the cipher of a PIN block an arbitrary function of block and key, and PINs are compared as text.
- Session ids, authorisation codes and request timestamps: session ids count up; the others do not influence what is proved.
- TlvCodec.DecodeTlv: not stated for inputs on which the loop never ends; `TlvLoop.EndsExactly` says which these are.
- Malformed ISO 8583 wires: `parseInt` accepts length prefixes such as "1x" and the model refuses any that is not all digits; the decoding results speak of encoder output only.
- Library calls: `sort` is an insertion sort, `filter` and `find` are the functions they stand for.
- The custom mix of a DISPENSE: keys are canonical decimals, one entry per denomination.
- `Writer` arrays and `raw`; dotted keys, which the reader takes as paths, and bytes outside the characters of a Dafny string. 64-bit overflow of `atoll`.
- The client's `recv_all` loop: it reads from the same stream that `Framing` splits, with zero lengths refused too.
- The text protocol inside the ISO 8583 listener's frames (`parseSimpleFields`, `dispatch`): simple splitting at `|` and `=`.
- Runner steps that no recording contains (BeginPin, WAIT, error injection, session and transaction checks) and the runner's polling for an armed PIN entry, which is the reply `NotReady`.
- SIU, switch profiles, configuration loading, code generators, the ISO 20022 transport and the EMV kernel beyond TLV.
