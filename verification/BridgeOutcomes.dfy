/** What each request returns, told from the steps of a run alone. */
module BridgeOutcomes {
  import opened Common
  import opened BridgeProtocol
  import Decimal

  // ----- What the steps say -----

  /** The step is among the first `k`. */
  predicate Happened(steps: seq<Step>, k: nat, step: Step)
    requires k <= |steps|
  {
    exists j :: 0 <= j < k && steps[j] == step
  }

  predicate OfReader(step: Step) {
    step.Receive? || step.Deliver? || step.Disconnect? || step.SweepOne? || step.SweepEnd? || step.Connect?
  }

  /** Between two steps the reader does nothing. */
  predicate Quiet(steps: seq<Step>, i: nat, j: nat)
    requires j <= |steps|
  {
    forall m :: i < m < j ==> !OfReader(steps[m])
  }

  /** A response frame with the id of the request is received at `i`, and its slot completed with it at `j`. */
  predicate Handed(steps: seq<Step>, i: nat, j: nat, n: nat, body: string) {
    && i < j < |steps| && steps[i] == Receive(body) && steps[j] == Deliver && Quiet(steps, i, j)
    && FindField(body, "type") == "response" && FindField(body, "id") == IdOf(n)
  }

  ghost predicate Delivered(steps: seq<Step>, k: nat, n: nat, body: string)
    requires k <= |steps|
  {
    exists i: nat, j: nat :: j < k && Handed(steps, i, j, n, body)
  }

  /** How many requests are swept from step `i` up to `j`. */
  function Sweeps(steps: seq<Step>, i: nat, j: nat): nat
    requires i <= j <= |steps|
    decreases j - i
  {
    if i == j then 0 else Sweeps(steps, i, j - 1) + if steps[j - 1].SweepOne? then 1 else 0
  }

  /** The connection drops at `d`, and up to `j` the reader only sweeps. */
  predicate SweepOn(steps: seq<Step>, d: nat, j: nat) {
    d < j <= |steps| && steps[d].Disconnect? && forall m :: d < m < j && OfReader(steps[m]) ==> steps[m].SweepOne?
  }

  /** The sweep of that disconnect comes to the request at `j`: it is the next one listed. */
  predicate SweptAt(steps: seq<Step>, d: nat, j: nat, n: nat) {
    && j < |steps| && SweepOn(steps, d, j) && steps[j].SweepOne?
    && Sweeps(steps, d + 1, j) < |steps[d].order| && steps[d].order[Sweeps(steps, d + 1, j)] == n
  }

  ghost predicate Swept(steps: seq<Step>, k: nat, n: nat)
    requires k <= |steps|
  {
    exists d: nat, j: nat :: j < k && SweptAt(steps, d, j, n)
  }

  // ----- The reader -----

  lemma {:induction false} StaysThrough(run: seq<Sys>, steps: seq<Step>, i: nat, j: nat)
    requires IsRun(run, steps) && i < j <= |steps| && Quiet(steps, i, j)
    ensures run[j].reader == run[i + 1].reader
    decreases j
  {
    if i + 1 < j {
      StaysThrough(run, steps, i, j - 1);
      assert !OfReader(steps[j - 1]);
    }
  }

  /** What is handed over is on its way to the request of its id. */
  lemma HandedIs(run: seq<Sys>, steps: seq<Step>, i: nat, j: nat, n: nat, body: string)
    requires IsRun(run, steps) && run[0] == INIT && Handed(steps, i, j, n, body)
    ensures run[j].reader == Delivering(n, body)
  {
    StaysThrough(run, steps, i, j);
    RunKeepsInv(run, steps, i);
    var s := run[i];
    assert Enabled(s, steps[i]) && Enabled(run[j], steps[j]);
    if IdOf(n) in s.pending {
      assert EntryOk(s, IdOf(n), s.pending[IdOf(n)]);
      IdsDiffer(n, s.pending[IdOf(n)]);
    }
  }

  lemma {:induction false} SweepIs(run: seq<Sys>, steps: seq<Step>, d: nat, j: nat)
    requires IsRun(run, steps) && SweepOn(steps, d, j)
    ensures Sweeps(steps, d + 1, j) <= |steps[d].order|
    ensures run[j].reader == Sweeping(steps[d].order[Sweeps(steps, d + 1, j)..])
    decreases j
  {
    assert Enabled(run[j - 1], steps[j - 1]);
    if d + 1 < j {
      assert SweepOn(steps, d, j - 1);
      SweepIs(run, steps, d, j - 1);
    }
  }

  /** The reader is about to deliver only what it has received, and sweeps only what was listed. */
  ghost predicate ReaderTold(steps: seq<Step>, k: nat, r: Reader)
    requires k <= |steps|
  {
    match r
    case Delivering(n, body) => exists i: nat :: ReceivedAt(steps, i, k, n, body)
    case Sweeping(_) => exists d: nat :: SweepOn(steps, d, k)
    case _ => true
  }

  predicate ReceivedAt(steps: seq<Step>, i: nat, k: nat, n: nat, body: string)
    requires k <= |steps|
  {
    && i < k && steps[i] == Receive(body) && Quiet(steps, i, k)
    && FindField(body, "type") == "response" && FindField(body, "id") == IdOf(n)
  }

  lemma ReceivedNext(steps: seq<Step>, k: nat, s: Sys, s': Sys)
    requires k < |steps| && Inv(s) && Enabled(s, steps[k]) && s' == Do(s, steps[k])
    requires steps[k].Receive? && s'.reader.Delivering?
    ensures ReceivedAt(steps, k, k + 1, s'.reader.n, s'.reader.body)
  {
    var id := FindField(steps[k].body, "id");
    assert EntryOk(s, id, s.pending[id]);
  }

  lemma DeliveringNext(steps: seq<Step>, k: nat, s: Sys, s': Sys)
    requires k < |steps| && Inv(s) && Enabled(s, steps[k]) && s' == Do(s, steps[k])
    requires ReaderTold(steps, k, s.reader) && s'.reader.Delivering?
    ensures ReaderTold(steps, k + 1, s'.reader)
  {
    if steps[k].Receive? {
      ReceivedNext(steps, k, s, s');
    } else {
      var i: nat :| ReceivedAt(steps, i, k, s.reader.n, s.reader.body);
      assert ReceivedAt(steps, i, k + 1, s.reader.n, s.reader.body);
    }
  }

  lemma SweepingNext(steps: seq<Step>, k: nat, s: Sys, s': Sys)
    requires k < |steps| && Enabled(s, steps[k]) && s' == Do(s, steps[k])
    requires ReaderTold(steps, k, s.reader) && s'.reader.Sweeping?
    ensures ReaderTold(steps, k + 1, s'.reader)
  {
    if steps[k].Disconnect? {
      assert SweepOn(steps, k, k + 1);
    } else {
      var d: nat :| SweepOn(steps, d, k);
      assert SweepOn(steps, d, k + 1);
    }
  }

  lemma ReaderNext(run: seq<Sys>, steps: seq<Step>, k: nat)
    requires IsRun(run, steps) && run[0] == INIT && k < |steps| && ReaderTold(steps, k, run[k].reader)
    ensures ReaderTold(steps, k + 1, run[k + 1].reader)
  {
    RunKeepsInv(run, steps, k);
    if run[k + 1].reader.Delivering? {
      DeliveringNext(steps, k, run[k], run[k + 1]);
    } else if run[k + 1].reader.Sweeping? {
      SweepingNext(steps, k, run[k], run[k + 1]);
    }
  }

  lemma {:induction false} RunReader(run: seq<Sys>, steps: seq<Step>, k: nat)
    requires IsRun(run, steps) && run[0] == INIT && k < |run|
    ensures ReaderTold(steps, k, run[k].reader)
  {
    if k > 0 {
      RunReader(run, steps, k - 1);
      ReaderNext(run, steps, k - 1);
    }
  }

  // ----- One more step -----

  lemma HappenedNext(steps: seq<Step>, k: nat, step: Step)
    requires k < |steps|
    ensures Happened(steps, k + 1, step) <==> Happened(steps, k, step) || steps[k] == step
  {
  }

  /** The slots that the step at `k` completes with a body. */
  lemma DeliveredNext(run: seq<Sys>, steps: seq<Step>, k: nat, n: nat, body: string)
    requires IsRun(run, steps) && run[0] == INIT && k < |steps|
    ensures Delivered(steps, k + 1, n, body) <==>
            Delivered(steps, k, n, body) || (steps[k].Deliver? && run[k].reader == Delivering(n, body))
  {
    if steps[k].Deliver? && run[k].reader == Delivering(n, body) {
      RunReader(run, steps, k);
      var i: nat :| ReceivedAt(steps, i, k, n, body);
      assert Handed(steps, i, k, n, body);
    }
    if Delivered(steps, k + 1, n, body) && !Delivered(steps, k, n, body) {
      var i: nat, j: nat :| j < k + 1 && Handed(steps, i, j, n, body);
      HandedIs(run, steps, i, j, n, body);
    }
  }

  lemma SweptNext(run: seq<Sys>, steps: seq<Step>, k: nat, n: nat)
    requires IsRun(run, steps) && run[0] == INIT && k < |steps|
    ensures Swept(steps, k + 1, n) <==>
            Swept(steps, k, n) || (steps[k].SweepOne? && run[k].reader.Sweeping? && run[k].reader.queue != [] &&
                                   run[k].reader.queue[0] == n)
  {
    if steps[k].SweepOne? && run[k].reader.Sweeping? && run[k].reader.queue != [] && run[k].reader.queue[0] == n {
      RunReader(run, steps, k);
      var d: nat :| SweepOn(steps, d, k);
      SweepIs(run, steps, d, k);
      assert SweptAt(steps, d, k, n);
    }
    if Swept(steps, k + 1, n) && !Swept(steps, k, n) {
      var d: nat, j: nat :| j < k + 1 && SweptAt(steps, d, j, n);
      SweepIs(run, steps, d, j);
    }
  }

  // ----- Requests -----

  predicate FailedPhase(p: Phase) { p.SendFailing? || p == Returned(SendFailed) }

  predicate ExpiredPhase(p: Phase) { p.TimingOut? || p == Returned(TimedOut) }

  /** A request's phase, slot and outcome are what the steps so far have made them. */
  ghost predicate Told(steps: seq<Step>, k: nat, n: nat, r: Request)
    requires k <= |steps|
  {
    && (FailedPhase(r.phase) <==> Happened(steps, k, SendFail(n)))
    && (ExpiredPhase(r.phase) <==> Happened(steps, k, Expire(n)))
    && (r.phase == Returned(SendFailed) <==> Happened(steps, k, DropFailed(n)))
    && (r.phase == Returned(TimedOut) <==> Happened(steps, k, GiveUp(n)))
    && SlotTold(steps, k, n, r.slot)
    && (r.phase.Returned? ==> r.phase.outcome in {SendFailed, TimedOut} || r.slot == Some(r.phase.outcome))
  }

  ghost predicate SlotTold(steps: seq<Step>, k: nat, n: nat, slot: Option<Outcome>)
    requires k <= |steps|
  {
    && (slot.Some? ==> slot.value.Answer? || slot.value.Disconnected?)
    && (forall body :: slot == Some(Answer(body)) <==> Delivered(steps, k, n, body))
    && (slot == Some(Disconnected) <==> Swept(steps, k, n))
  }

  /** What a step does to the slot of a request. */
  function SlotAfter(s: Sys, step: Step, n: nat, slot: Option<Outcome>): Option<Outcome> {
    if step.Deliver? && s.reader.Delivering? && s.reader.n == n then Some(Answer(s.reader.body))
    else if step.SweepOne? && s.reader.Sweeping? && s.reader.queue != [] && s.reader.queue[0] == n then
      Some(Disconnected)
    else slot
  }

  lemma SlotNext(run: seq<Sys>, steps: seq<Step>, k: nat, n: nat, slot: Option<Outcome>)
    requires IsRun(run, steps) && run[0] == INIT && k < |steps| && SlotTold(steps, k, n, slot)
    requires n < |run[k].reqs| ==> slot == run[k].reqs[n].slot
    requires n >= |run[k].reqs| ==> slot.None?
    ensures SlotTold(steps, k + 1, n, SlotAfter(run[k], steps[k], n, slot))
  {
    RunKeepsInv(run, steps, k);
    var s, step := run[k], steps[k];
    assert Enabled(s, step);
    if step.SweepOne? {
      assert s.reader.queue[0] in s.reader.queue;
      assert EntryOk(s, IdOf(s.reader.queue[0]), s.reader.queue[0]);
    }
    SweptNext(run, steps, k, n);
    forall body ensures SlotAfter(s, step, n, slot) == Some(Answer(body)) <==> Delivered(steps, k + 1, n, body) {
      DeliveredNext(run, steps, k, n, body);
    }
  }

  predicate Completion(slot: Option<Outcome>) { slot.Some? ==> slot.value.Answer? || slot.value.Disconnected? }

  /** The phase and the slot that a step leaves a request in. */
  lemma PhaseNext(s: Sys, step: Step, n: nat)
    requires Enabled(s, step) && n < |s.reqs| && Completion(s.reqs[n].slot)
    ensures n < |Do(s, step).reqs|
    ensures var p, p' := s.reqs[n].phase, Do(s, step).reqs[n].phase;
            && (FailedPhase(p') <==> FailedPhase(p) || step == SendFail(n))
            && (ExpiredPhase(p') <==> ExpiredPhase(p) || step == Expire(n))
            && (p' == Returned(SendFailed) <==> p == Returned(SendFailed) || step == DropFailed(n))
            && (p' == Returned(TimedOut) <==> p == Returned(TimedOut) || step == GiveUp(n))
    ensures Do(s, step).reqs[n].slot == SlotAfter(s, step, n, s.reqs[n].slot)
  {
  }

  predicate OutcomeInSlot(r: Request) {
    r.phase.Returned? ==> r.phase.outcome in {SendFailed, TimedOut} || r.slot == Some(r.phase.outcome)
  }

  lemma OutcomeNext(s: Sys, step: Step, n: nat)
    requires Inv(s) && Enabled(s, step) && n < |s.reqs| && OutcomeInSlot(s.reqs[n])
    ensures n < |Do(s, step).reqs| && OutcomeInSlot(Do(s, step).reqs[n])
  {
    assert RequestOk(n, s.reqs[n]);
    if step.SweepOne? {
      assert s.reader.queue[0] in s.reader.queue;
      assert EntryOk(s, IdOf(s.reader.queue[0]), s.reader.queue[0]);
    }
  }

  lemma ToldNext(run: seq<Sys>, steps: seq<Step>, k: nat, n: nat)
    requires IsRun(run, steps) && run[0] == INIT && k < |steps|
    requires n < |run[k].reqs| && Told(steps, k, n, run[k].reqs[n])
    ensures n < |run[k + 1].reqs| && Told(steps, k + 1, n, run[k + 1].reqs[n])
  {
    var s, step := run[k], steps[k];
    RunKeepsInv(run, steps, k);
    HappenedNext(steps, k, SendFail(n));
    HappenedNext(steps, k, Expire(n));
    HappenedNext(steps, k, DropFailed(n));
    HappenedNext(steps, k, GiveUp(n));
    SlotNext(run, steps, k, n, s.reqs[n].slot);
    PhaseNext(s, step, n);
    OutcomeNext(s, step, n);
  }

  /** Before it is called, nothing has happened to a request. */
  ghost predicate Untold(steps: seq<Step>, k: nat, n: nat)
    requires k <= |steps|
  {
    && !Happened(steps, k, SendFail(n)) && !Happened(steps, k, Expire(n))
    && !Happened(steps, k, DropFailed(n)) && !Happened(steps, k, GiveUp(n)) && SlotTold(steps, k, n, None)
  }

  lemma UntoldNext(run: seq<Sys>, steps: seq<Step>, k: nat, n: nat)
    requires IsRun(run, steps) && run[0] == INIT && k < |steps| && n >= |run[k].reqs| && Untold(steps, k, n)
    ensures Untold(steps, k + 1, n) && (n < |run[k + 1].reqs| ==> Told(steps, k + 1, n, run[k + 1].reqs[n]))
  {
    RunKeepsInv(run, steps, k);
    assert Enabled(run[k], steps[k]);
    if run[k].reader.Sweeping? && run[k].reader.queue != [] {
      assert run[k].reader.queue[0] in run[k].reader.queue;
      assert EntryOk(run[k], IdOf(run[k].reader.queue[0]), run[k].reader.queue[0]);
    }
    HappenedNext(steps, k, SendFail(n));
    HappenedNext(steps, k, Expire(n));
    HappenedNext(steps, k, DropFailed(n));
    HappenedNext(steps, k, GiveUp(n));
    SlotNext(run, steps, k, n, None);
  }

  lemma {:induction false} RunTold(run: seq<Sys>, steps: seq<Step>, k: nat, n: nat)
    requires IsRun(run, steps) && run[0] == INIT && k < |run|
    ensures if n < |run[k].reqs| then Told(steps, k, n, run[k].reqs[n]) else Untold(steps, k, n)
  {
    if k > 0 {
      RunTold(run, steps, k - 1, n);
      if n < |run[k - 1].reqs| {
        ToldNext(run, steps, k - 1, n);
      } else {
        UntoldNext(run, steps, k - 1, n);
      }
    }
  }

  // ----- What is returned -----

  /**
   * In every interleaving, a request that has returned has returned that it timed out if and only if it expired and
   * gave up, that its send failed if and only if it did, and otherwise exactly the body of the frame received with its
   * id and delivered to it, or, if and only if the sweep came to it, that the connection was lost.
   */
  lemma OutcomeExactly(run: seq<Sys>, steps: seq<Step>, k: nat, n: nat)
    requires IsRun(run, steps) && run[0] == INIT && k < |run| && n < |run[k].reqs| && run[k].reqs[n].phase.Returned?
    ensures var o := run[k].reqs[n].phase.outcome;
            var answered := !Happened(steps, k, Expire(n)) && !Happened(steps, k, SendFail(n));
            && (o == TimedOut <==> Happened(steps, k, Expire(n)))
            && (o == TimedOut <==> Happened(steps, k, GiveUp(n)))
            && (o == SendFailed <==> Happened(steps, k, SendFail(n)))
            && (forall body :: o == Answer(body) <==> answered && Delivered(steps, k, n, body))
            && (o == Disconnected <==> answered && Swept(steps, k, n))
  {
    RunTold(run, steps, k, n);
  }

  lemma NoExpiryNow(run: seq<Sys>, steps: seq<Step>, k: nat, n: nat, body: string)
    requires IsRun(run, steps) && run[0] == INIT && k < |steps| && n < |run[k].reqs| && Delivered(steps, k, n, body)
    ensures steps[k] != Expire(n) && n < |run[k + 1].reqs|
  {
    RunTold(run, steps, k, n);
    assert run[k].reqs[n].slot == Some(Answer(body));
    assert Enabled(run[k], steps[k]);
  }

  lemma StillDelivered(steps: seq<Step>, j: nat, k: nat, n: nat, body: string)
    requires j <= k <= |steps| && Delivered(steps, j, n, body)
    ensures Delivered(steps, k, n, body)
  {
  }

  /** So far not expired. */
  ghost predicate Unexpired(run: seq<Sys>, steps: seq<Step>, k: nat, n: nat)
    requires k < |run| && k <= |steps|
  {
    n < |run[k].reqs| && !Happened(steps, k, Expire(n))
  }

  lemma UnexpiredNext(run: seq<Sys>, steps: seq<Step>, j: nat, k: nat, n: nat, body: string)
    requires IsRun(run, steps) && run[0] == INIT && j <= k < |steps|
    requires Delivered(steps, j, n, body) && Unexpired(run, steps, k, n)
    ensures Unexpired(run, steps, k + 1, n)
  {
    StillDelivered(steps, j, k, n, body);
    NoExpiryNow(run, steps, k, n, body);
    HappenedNext(steps, k, Expire(n));
  }

  lemma {:induction false} NoLaterExpiry(run: seq<Sys>, steps: seq<Step>, j: nat, k: nat, n: nat, body: string)
    requires IsRun(run, steps) && run[0] == INIT && j <= k < |run|
    requires Delivered(steps, j, n, body) && Unexpired(run, steps, j, n)
    ensures Unexpired(run, steps, k, n)
    decreases k
  {
    if j < k {
      NoLaterExpiry(run, steps, j, k - 1, n, body);
      UnexpiredNext(run, steps, j, k - 1, n, body);
    }
  }

  /** A request whose answer is delivered before it expires, and whose send has not failed, returns that answer. */
  lemma DeliveredReturns(run: seq<Sys>, steps: seq<Step>, j: nat, k: nat, n: nat, body: string)
    requires IsRun(run, steps) && run[0] == INIT && j <= k < |run| && n < |run[j].reqs|
    requires Delivered(steps, j, n, body) && !Happened(steps, j, Expire(n)) && !Happened(steps, k, SendFail(n))
    ensures n < |run[k].reqs|
    ensures run[k].reqs[n].phase.Returned? ==> run[k].reqs[n].phase.outcome == Answer(body)
    ensures run[k].reqs[n].phase.Waiting? ==>
              Enabled(run[k], Wake(n)) && Do(run[k], Wake(n)).reqs[n].phase == Returned(Answer(body))
  {
    NoLaterExpiry(run, steps, j, k, n, body);
    StillDelivered(steps, j, k, n, body);
    RunTold(run, steps, k, n);
    if run[k].reqs[n].phase.Returned? {
      OutcomeExactly(run, steps, k, n);
    }
  }

  // ----- No answer is missed -----

  /** Called, not yet returned, with its slot still to be completed, and no body on its way to it. */
  predicate Open(s: Sys, n: nat) {
    && n < |s.reqs| && !s.reqs[n].phase.Created? && !s.reqs[n].phase.Returned? && s.reqs[n].slot.None?
    && !(s.reader.Delivering? && s.reader.n == n)
  }

  ghost predicate OpenListed(s: Sys) {
    forall n: nat | Open(s, n) :: IdOf(n) in s.pending && s.pending[IdOf(n)] == n
  }

  lemma OpenBefore(s: Sys, step: Step, n: nat)
    requires Inv(s) && Enabled(s, step) && Open(Do(s, step), n)
    ensures Open(s, n) || step == Register(n)
  {
  }

  lemma StaysListed(s: Sys, step: Step, n: nat)
    requires Inv(s) && Enabled(s, step) && Open(Do(s, step), n) && Open(s, n)
    requires IdOf(n) in s.pending && s.pending[IdOf(n)] == n
    ensures var s' := Do(s, step); IdOf(n) in s'.pending && s'.pending[IdOf(n)] == n
  {
    assert EntryOk(s, IdOf(n), n);
    match step
    case Register(m) => if IdOf(m) == IdOf(n) { IdsDiffer(m, n); }
    case DropFailed(m) => if IdOf(m) == IdOf(n) { IdsDiffer(m, n); }
    case GiveUp(m) => if IdOf(m) == IdOf(n) { IdsDiffer(m, n); }
    case _ =>
  }

  lemma NewlyListed(s: Sys, n: nat)
    requires Inv(s) && Enabled(s, Register(n))
    ensures var s' := Do(s, Register(n)); IdOf(n) in s'.pending && s'.pending[IdOf(n)] == n
  {
    if IdOf(n) in s.pending {
      assert EntryOk(s, IdOf(n), s.pending[IdOf(n)]);
      IdsDiffer(n, s.pending[IdOf(n)]);
    }
  }

  lemma StepKeepsListed(s: Sys, step: Step)
    requires Inv(s) && OpenListed(s) && Enabled(s, step)
    ensures OpenListed(Do(s, step))
  {
    forall n: nat | Open(Do(s, step), n)
      ensures IdOf(n) in Do(s, step).pending && Do(s, step).pending[IdOf(n)] == n
    {
      OpenBefore(s, step, n);
      if step == Register(n) {
        NewlyListed(s, n);
      } else {
        StaysListed(s, step, n);
      }
    }
  }

  lemma {:induction false} RunKeepsListed(run: seq<Sys>, steps: seq<Step>, k: nat)
    requires IsRun(run, steps) && run[0] == INIT && k < |run|
    ensures OpenListed(run[k])
  {
    if k > 0 {
      RunKeepsListed(run, steps, k - 1);
      RunKeepsInv(run, steps, k - 1);
      StepKeepsListed(run[k - 1], steps[k - 1]);
    }
  }

  /**
   * While a request waits, a response with its id that the reader receives is the body that it is handed: the next
   * step of the reader completes its slot with it, and the request can return it.
   */
  lemma AnswerTaken(run: seq<Sys>, steps: seq<Step>, k: nat, n: nat, body: string)
    requires IsRun(run, steps) && run[0] == INIT && k < |run| && run[k].reader.Reading?
    requires n < |run[k].reqs| && run[k].reqs[n].phase.Waiting? && run[k].reqs[n].slot.None?
    requires FindField(body, "type") == "response" && FindField(body, "id") == IdOf(n)
    ensures var s := Do(run[k], Receive(body));
            && s.reader == Delivering(n, body) && Enabled(s, Deliver)
            && Enabled(Do(s, Deliver), Wake(n))
            && Do(Do(s, Deliver), Wake(n)).reqs[n].phase == Returned(Answer(body))
  {
    RunKeepsListed(run, steps, k);
    assert Open(run[k], n);
  }

  /** A request that is not answered can time out, and one that cannot be sent can fail, unless a sweep is on. */
  lemma OthersReturn(s: Sys, n: nat)
    requires n < |s.reqs| && s.reqs[n].slot.None? && !s.reader.Sweeping?
    ensures s.reqs[n].phase.Waiting? ==>
              Enabled(s, Expire(n)) && Enabled(Do(s, Expire(n)), GiveUp(n)) &&
              Do(Do(s, Expire(n)), GiveUp(n)).reqs[n].phase == Returned(TimedOut)
    ensures s.reqs[n].phase.Registered? ==>
              Enabled(s, SendFail(n)) && Enabled(Do(s, SendFail(n)), DropFailed(n)) &&
              Do(Do(s, SendFail(n)), DropFailed(n)).reqs[n].phase == Returned(SendFailed)
  {
  }

  /** When the connection drops while one request waits, it can be swept and return that. */
  lemma SweepReturns(run: seq<Sys>, steps: seq<Step>, k: nat, n: nat)
    requires IsRun(run, steps) && run[0] == INIT && k < |run| && run[k].reader.Reading?
    requires n < |run[k].reqs| && run[k].reqs[n].phase.Waiting? && run[k].reqs[n].slot.None?
    requires forall m: nat | m < |run[k].reqs| && m != n :: run[k].reqs[m].phase.Returned? && IdOf(m) !in run[k].pending
    ensures Enabled(run[k], Disconnect([n]))
    ensures var s := Do(run[k], Disconnect([n]));
            && Enabled(s, SweepOne) && Enabled(Do(s, SweepOne), SweepEnd)
            && var e := Do(Do(s, SweepOne), SweepEnd);
               && e.reader.Stopped? && e.pending == map[] && Enabled(e, Wake(n))
               && Do(e, Wake(n)).reqs[n].phase == Returned(Disconnected)
  {
    RunKeepsListed(run, steps, k);
    RunKeepsInv(run, steps, k);
    var s := run[k];
    assert Open(s, n);
    forall id | id in s.pending ensures s.pending[id] == n {
      assert EntryOk(s, id, s.pending[id]);
    }
    assert n in s.pending.Values by {
      assert s.pending[IdOf(n)] == n;
    }
  }

  /** Ids are "REQ_1", "REQ_2" and so on. */
  lemma IdText(n: nat)
    ensures |IdOf(n)| > 4 && IdOf(n)[..4] == "REQ_" && Decimal.AllDigits(IdOf(n)[4..])
    ensures Decimal.Read(IdOf(n)[4..]) == n + 1
  {
    assert IdOf(n)[4..] == Decimal.Show(n + 1);
    Decimal.ReadShow(n + 1);
  }
}
