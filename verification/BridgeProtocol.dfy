/**
 * Request and response matching in the bridge client: any number of senders, one reader, timeouts
 * and disconnects, at the grain of its critical sections. The pending-map mutex is held across the
 * reader's disconnect sweep, and a slot's mutex by a sender between its timeout and its return.
 */
module BridgeProtocol {
  import opened Common
  import opened MiniJson
  import Decimal

  // ----- Routing a received body -----

  /** The text between `"key":"` and the next quote, or nothing: the reader does not parse. */
  function FindField(body: string, key: string): string {
    var needle := "\"" + key + "\":\"";
    match Find(body, needle, 0)
    case None => ""
    case Some(p) =>
      FindBounds(body, "\"", p + |needle|);
      match Find(body, "\"", p + |needle|)
      case None => ""
      case Some(e) => body[p + |needle|..e]
  }

  predicate IsResponse(body: string) { FindField(body, "type") == "response" }

  // ----- The protocol -----

  /** What `send_request` returns. */
  datatype Outcome = Answer(body: string) | Disconnected | SendFailed | TimedOut

  datatype Phase = Created | Registered | Waiting | SendFailing | TimingOut | Returned(outcome: Outcome)

  /** A call of `send_request`: where it stands, its slot, and how often the slot was completed. */
  datatype Request = Request(phase: Phase, slot: Option<Outcome>, fills: nat)

  datatype Reader = Stopped | Reading | Delivering(n: nat, body: string) | Sweeping(queue: seq<nat>)

  datatype Sys = Sys(reqs: seq<Request>, pending: map<string, nat>, reader: Reader)

  datatype Step =
    | Call
    | Register(n: nat)
    | SendOk(n: nat)
    | SendFail(n: nat)
    | DropFailed(n: nat)
    | Wake(n: nat)
    | Expire(n: nat)
    | GiveUp(n: nat)
    | Receive(body: string)
    | Deliver
    | Disconnect(order: seq<nat>)
    | SweepOne
    | SweepEnd
    | Connect

  const INIT := Sys([], map[], Stopped)

  /** The id of the n-th request; the counter starts at one. */
  function IdOf(n: nat): string { "REQ_" + Decimal.Show(n + 1) }

  lemma IdsDiffer(m: nat, n: nat)
    requires IdOf(m) == IdOf(n)
    ensures m == n
  {
    assert IdOf(m)[4..] == Decimal.Show(m + 1) && IdOf(n)[4..] == Decimal.Show(n + 1);
    Decimal.ShowInjective(m + 1, n + 1);
  }

  predicate InPhase(s: Sys, n: nat, p: Phase) { n < |s.reqs| && s.reqs[n].phase == p }

  predicate PendingFree(s: Sys) { !s.reader.Sweeping? }

  /** The slot's mutex is held by its own sender while that one is timing out. */
  predicate SlotFree(s: Sys, n: nat) { n < |s.reqs| && s.reqs[n].phase != TimingOut }

  predicate Lists(order: seq<nat>, pending: map<string, nat>) {
    && (forall i, j :: 0 <= i < j < |order| ==> order[i] != order[j])
    && (forall n :: n in order ==> n in pending.Values)
    && (forall id :: id in pending ==> pending[id] in order)
  }

  predicate Enabled(s: Sys, step: Step) {
    match step
    case Call => true
    case Register(n) => InPhase(s, n, Created) && PendingFree(s)
    case SendOk(n) => InPhase(s, n, Registered)
    case SendFail(n) => InPhase(s, n, Registered)
    case DropFailed(n) => InPhase(s, n, SendFailing) && PendingFree(s)
    case Wake(n) => InPhase(s, n, Waiting) && s.reqs[n].slot.Some?
    case Expire(n) => InPhase(s, n, Waiting) && s.reqs[n].slot.None?
    case GiveUp(n) => InPhase(s, n, TimingOut) && PendingFree(s)
    case Receive(_) => s.reader.Reading?
    case Deliver => s.reader.Delivering? && SlotFree(s, s.reader.n)
    case Disconnect(order) => s.reader.Reading? && Lists(order, s.pending)
    case SweepOne => s.reader.Sweeping? && s.reader.queue != [] && SlotFree(s, s.reader.queue[0])
    case SweepEnd => s.reader.Sweeping? && s.reader.queue == []
    case Connect => s.reader.Stopped?
  }

  function SetPhase(s: Sys, n: nat, p: Phase): Sys
    requires n < |s.reqs|
  {
    s.(reqs := s.reqs[n := s.reqs[n].(phase := p)])
  }

  function Fill(s: Sys, n: nat, o: Outcome): Sys
    requires n < |s.reqs|
  {
    var r := s.reqs[n];
    s.(reqs := s.reqs[n := r.(slot := Some(o), fills := r.fills + 1)])
  }

  function Do(s: Sys, step: Step): Sys
    requires Enabled(s, step)
  {
    match step
    case Call => s.(reqs := s.reqs + [Request(Created, None, 0)])
    case Register(n) =>
      var t := SetPhase(s, n, Registered);
      if IdOf(n) in s.pending then t else t.(pending := s.pending[IdOf(n) := n])
    case SendOk(n) => SetPhase(s, n, Waiting)
    case SendFail(n) => SetPhase(s, n, SendFailing)
    case DropFailed(n) => SetPhase(s, n, Returned(SendFailed)).(pending := s.pending - {IdOf(n)})
    case Wake(n) => SetPhase(s, n, Returned(s.reqs[n].slot.value))
    case Expire(n) => SetPhase(s, n, TimingOut)
    case GiveUp(n) => SetPhase(s, n, Returned(TimedOut)).(pending := s.pending - {IdOf(n)})
    case Receive(body) =>
      var id := FindField(body, "id");
      if IsResponse(body) && id in s.pending then
        s.(reader := Delivering(s.pending[id], body), pending := s.pending - {id})
      else s
    case Deliver => Fill(s, s.reader.n, Answer(s.reader.body)).(reader := Reading)
    case Disconnect(order) => s.(reader := Sweeping(order))
    case SweepOne => Fill(s, s.reader.queue[0], Disconnected).(reader := Sweeping(s.reader.queue[1..]))
    case SweepEnd => s.(pending := map[], reader := Stopped)
    case Connect => s.(reader := Reading)
  }

  ghost predicate IsRun(run: seq<Sys>, steps: seq<Step>) {
    && |run| == |steps| + 1
    && forall k | 0 <= k < |steps| :: Enabled(run[k], steps[k]) && run[k + 1] == Do(run[k], steps[k])
  }

  // ----- The invariant -----

  predicate OwnAnswer(n: nat, o: Outcome) { o.Answer? ==> IsResponse(o.body) && FindField(o.body, "id") == IdOf(n) }

  /** A request's slot is completed at most once, and only with an answer to its own id. */
  predicate RequestOk(n: nat, r: Request) {
    && (r.slot.None? ==> r.fills == 0)
    && (r.slot.Some? ==> r.fills == 1 && OwnAnswer(n, r.slot.value))
    && (r.phase.Returned? ==> OwnAnswer(n, r.phase.outcome))
    && (r.phase.Created? ==> r.slot.None?)
  }

  /**
   * An entry of the pending map leads to the request of that id. Its slot awaits completion, unless
   * a disconnect sweep has already been past it.
   */
  predicate EntryOk(s: Sys, id: string, n: nat) {
    && id == IdOf(n) && n < |s.reqs| && !s.reqs[n].phase.Created?
    && (s.reqs[n].slot.None? <==> s.reader.Sweeping? ==> n in s.reader.queue)
  }

  predicate ReaderOk(s: Sys) {
    match s.reader
    case Delivering(n, body) =>
      && n < |s.reqs| && !s.reqs[n].phase.Created? && s.reqs[n].slot.None?
      && OwnAnswer(n, Answer(body)) && IdOf(n) !in s.pending
    case Sweeping(queue) =>
      && (forall i, j :: 0 <= i < j < |queue| ==> queue[i] != queue[j])
      && (forall n :: n in queue ==> IdOf(n) in s.pending && s.pending[IdOf(n)] == n)
    case _ => true
  }

  ghost predicate Inv(s: Sys) {
    && (forall n: nat | n < |s.reqs| :: RequestOk(n, s.reqs[n]))
    && (forall id | id in s.pending :: EntryOk(s, id, s.pending[id]))
    && ReaderOk(s)
  }

  /** Steps that move one request along and leave slots, the map and the reader alone. */
  lemma SenderStepKeeps(s: Sys, n: nat, p: Phase)
    requires Inv(s) && n < |s.reqs| && RequestOk(n, s.reqs[n].(phase := p))
    requires s.reqs[n].phase.Created? ==> p.Created?
    requires !p.Created? || s.reqs[n].phase.Created?
    ensures Inv(SetPhase(s, n, p))
  {
    var t := SetPhase(s, n, p);
    forall id | id in t.pending ensures EntryOk(t, id, t.pending[id]) {
      assert EntryOk(s, id, s.pending[id]);
    }
  }

  lemma RegisterKeeps(s: Sys, n: nat)
    requires Inv(s) && Enabled(s, Register(n))
    ensures Inv(Do(s, Register(n)))
  {
    var t := Do(s, Register(n));
    if IdOf(n) in s.pending {
      assert EntryOk(s, IdOf(n), s.pending[IdOf(n)]);
      IdsDiffer(n, s.pending[IdOf(n)]);
    }
    if s.reader.Delivering? && IdOf(s.reader.n) == IdOf(n) {
      IdsDiffer(s.reader.n, n);
    }
    forall id | id in t.pending ensures EntryOk(t, id, t.pending[id]) {
      if id != IdOf(n) {
        assert EntryOk(s, id, s.pending[id]);
      }
    }
  }

  /** A request that gives up takes its own entry out of the map. */
  lemma LeaveKeeps(s: Sys, n: nat, o: Outcome)
    requires Inv(s) && n < |s.reqs| && PendingFree(s) && !o.Answer?
    requires !s.reqs[n].phase.Created?
    ensures Inv(SetPhase(s, n, Returned(o)).(pending := s.pending - {IdOf(n)}))
  {
    var t := SetPhase(s, n, Returned(o)).(pending := s.pending - {IdOf(n)});
    forall id | id in t.pending ensures EntryOk(t, id, t.pending[id]) {
      assert EntryOk(s, id, s.pending[id]);
    }
  }

  lemma WakeKeeps(s: Sys, n: nat)
    requires Inv(s) && Enabled(s, Wake(n))
    ensures Inv(Do(s, Wake(n)))
  {
    SenderStepKeeps(s, n, Returned(s.reqs[n].slot.value));
  }

  lemma ReceiveKeeps(s: Sys, body: string)
    requires Inv(s) && Enabled(s, Receive(body))
    ensures Inv(Do(s, Receive(body)))
  {
    var id := FindField(body, "id");
    if IsResponse(body) && id in s.pending {
      var t := Do(s, Receive(body));
      assert EntryOk(s, id, s.pending[id]);
      forall other | other in t.pending ensures EntryOk(t, other, t.pending[other]) {
        assert EntryOk(s, other, s.pending[other]);
      }
    }
  }

  lemma DeliverKeeps(s: Sys)
    requires Inv(s) && Enabled(s, Deliver)
    ensures Inv(Do(s, Deliver))
  {
    var t := Do(s, Deliver);
    forall id | id in t.pending ensures EntryOk(t, id, t.pending[id]) {
      assert EntryOk(s, id, s.pending[id]);
    }
  }

  lemma DisconnectKeeps(s: Sys, order: seq<nat>)
    requires Inv(s) && Enabled(s, Disconnect(order))
    ensures Inv(Do(s, Disconnect(order)))
  {
    var t := Do(s, Disconnect(order));
    forall id | id in t.pending ensures EntryOk(t, id, t.pending[id]) {
      assert EntryOk(s, id, s.pending[id]);
    }
    forall n | n in order ensures IdOf(n) in t.pending && t.pending[IdOf(n)] == n {
      var id :| id in s.pending && s.pending[id] == n;
      assert EntryOk(s, id, n);
    }
  }

  lemma SweepOneKeeps(s: Sys)
    requires Inv(s) && Enabled(s, SweepOne)
    ensures Inv(Do(s, SweepOne))
  {
    var t := Do(s, SweepOne);
    var n := s.reader.queue[0];
    assert n in s.reader.queue;
    assert EntryOk(s, IdOf(n), n);
    forall id | id in t.pending ensures EntryOk(t, id, t.pending[id]) {
      assert EntryOk(s, id, s.pending[id]);
      if t.pending[id] != n && s.pending[id] in s.reader.queue {
        assert s.reader.queue == [n] + s.reader.queue[1..];
      }
    }
  }

  lemma StepKeepsInv(s: Sys, step: Step)
    requires Inv(s) && Enabled(s, step)
    ensures Inv(Do(s, step))
  {
    match step
    case Call =>
      var t := Do(s, step);
      forall id | id in t.pending ensures EntryOk(t, id, t.pending[id]) {
        assert EntryOk(s, id, s.pending[id]);
      }
    case Register(n) => RegisterKeeps(s, n);
    case SendOk(n) => SenderStepKeeps(s, n, Waiting);
    case SendFail(n) => SenderStepKeeps(s, n, SendFailing);
    case DropFailed(n) => LeaveKeeps(s, n, SendFailed);
    case Wake(n) => WakeKeeps(s, n);
    case Expire(n) => SenderStepKeeps(s, n, TimingOut);
    case GiveUp(n) => LeaveKeeps(s, n, TimedOut);
    case Receive(body) => ReceiveKeeps(s, body);
    case Deliver => DeliverKeeps(s);
    case Disconnect(order) => DisconnectKeeps(s, order);
    case SweepOne => SweepOneKeeps(s);
    case SweepEnd =>
    case Connect =>
      forall id | id in s.pending ensures EntryOk(Do(s, step), id, s.pending[id]) {
        assert EntryOk(s, id, s.pending[id]);
      }
  }

  lemma {:induction false} RunKeepsInv(run: seq<Sys>, steps: seq<Step>, k: nat)
    requires IsRun(run, steps) && run[0] == INIT && k < |run|
    ensures Inv(run[k])
  {
    if k > 0 {
      RunKeepsInv(run, steps, k - 1);
      StepKeepsInv(run[k - 1], steps[k - 1]);
    }
  }

  // ----- Matching -----

  /**
   * In every state of every interleaving, a request that returns a body returns one that carries its
   * own id, and no slot is completed twice.
   */
  lemma AnswersMatch(run: seq<Sys>, steps: seq<Step>, k: nat, n: nat)
    requires IsRun(run, steps) && run[0] == INIT && k < |run| && n < |run[k].reqs|
    ensures var r := run[k].reqs[n];
            && r.fills <= 1
            && (r.slot.Some? && r.slot.value.Answer? ==> FindField(r.slot.value.body, "id") == IdOf(n))
            && (r.phase.Returned? && r.phase.outcome.Answer? ==> FindField(r.phase.outcome.body, "id") == IdOf(n))
  {
    RunKeepsInv(run, steps, k);
    assert RequestOk(n, run[k].reqs[n]);
  }

  /**
   * A response changes at most the slot of the request whose id it carries, and none at all once that
   * request's entry is gone: a late or duplicate response is dropped where it is received.
   */
  lemma StrayResponsesDropped(run: seq<Sys>, steps: seq<Step>, k: nat)
    requires IsRun(run, steps) && run[0] == INIT && k < |steps|
    ensures steps[k].Receive? && FindField(steps[k].body, "id") !in run[k].pending ==> run[k + 1] == run[k]
    ensures steps[k].Deliver? ==>
              var n := run[k].reader.n;
              && IdOf(n) == FindField(run[k].reader.body, "id") && run[k].reqs[n].slot.None?
              && forall m: nat | m < |run[k].reqs| && m != n :: run[k + 1].reqs[m] == run[k].reqs[m]
  {
    RunKeepsInv(run, steps, k);
  }

  lemma ReturnKept(s: Sys, step: Step, n: nat)
    requires Enabled(s, step) && n < |s.reqs| && s.reqs[n].phase.Returned?
    ensures n < |Do(s, step).reqs| && Do(s, step).reqs[n].phase == s.reqs[n].phase
  {
  }

  /** What a request has returned stays what it returned. */
  lemma {:induction false} ReturnIsFinal(run: seq<Sys>, steps: seq<Step>, j: nat, k: nat, n: nat)
    requires IsRun(run, steps) && j <= k < |run| && n < |run[j].reqs| && run[j].reqs[n].phase.Returned?
    ensures n < |run[k].reqs| && run[k].reqs[n].phase == run[j].reqs[n].phase
  {
    if j < k {
      ReturnIsFinal(run, steps, j, k - 1, n);
      ReturnKept(run[k - 1], steps[k - 1], n);
    }
  }

  // ----- Lock order -----

  /**
   * A sender past its timeout holds its slot and waits for the map, while the reader's sweep holds
   * the map and waits for that slot.
   */
  predicate Stuck(s: Sys) {
    s.reader.Sweeping? && s.reader.queue != [] && InPhase(s, s.reader.queue[0], TimingOut)
  }

  /** The cycle is reachable: one request times out just as the connection drops. */
  lemma StuckIsReachable() returns (run: seq<Sys>, steps: seq<Step>)
    ensures IsRun(run, steps) && run[0] == INIT && Stuck(run[|steps|])
  {
    var s2 := Do(Do(INIT, Connect), Call);
    var s3, s4, s5 := OneRequest(s2);
    var s6 := Do(s5, Disconnect([0]));
    run := [INIT, Do(INIT, Connect), s2, s3, s4, s5, s6];
    steps := [Connect, Call, Register(0), SendOk(0), Expire(0), Disconnect([0])];
    assert s6.reader.queue[0] == 0 && InPhase(s6, 0, TimingOut);
  }

  /** A first request that is sent and not answered. */
  lemma OneRequest(s2: Sys) returns (s3: Sys, s4: Sys, s5: Sys)
    requires s2 == Sys([Request(Created, None, 0)], map[], Reading)
    ensures Enabled(s2, Register(0)) && s3 == Do(s2, Register(0))
    ensures Enabled(s3, SendOk(0)) && s4 == Do(s3, SendOk(0))
    ensures Enabled(s4, Expire(0)) && s5 == Do(s4, Expire(0))
    ensures s5.reader == Reading && |s5.reqs| == 1 && s5.reqs[0].phase == TimingOut && Enabled(s5, Disconnect([0]))
  {
    s3 := Do(s2, Register(0));
    s4 := Do(s3, SendOk(0));
    s5 := Do(s4, Expire(0));
    assert s5.pending == map[IdOf(0) := 0];
    assert s5.pending[IdOf(0)] == 0;
  }

  /** Once there, it is there for good: neither the sweep nor the request at its head ever moves again. */
  lemma {:induction false} StuckForGood(run: seq<Sys>, steps: seq<Step>, j: nat, k: nat)
    requires IsRun(run, steps) && j <= k < |run| && Stuck(run[j])
    ensures Stuck(run[k]) && run[k].reader == run[j].reader
  {
    if j < k {
      StuckForGood(run, steps, j, k - 1);
      assert Enabled(run[k - 1], steps[k - 1]);
    }
  }
}
