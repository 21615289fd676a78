/** When a disconnect can leave the client stuck: the exact condition, told before the sweep begins. */
module BridgeSweep {
  import opened Common
  import opened BridgeProtocol

  /** Still in flight: its send has not failed, and it has not returned. */
  predicate InFlight(s: Sys, n: nat) {
    n < |s.reqs| && (s.reqs[n].phase.Registered? || s.reqs[n].phase.Waiting? || s.reqs[n].phase.TimingOut?)
  }

  predicate AllSweeping(run: seq<Sys>) { forall k :: 0 <= k < |run| ==> run[k].reader.Sweeping? }

  /** A run during one sweep, from one state to another. */
  ghost predicate SweepRun(run: seq<Sys>, steps: seq<Step>, s: Sys) {
    IsRun(run, steps) && run[0] == s && AllSweeping(run)
  }

  /** From this state the sweep can get stuck. */
  ghost predicate CanStick(s: Sys) {
    exists run: seq<Sys>, steps: seq<Step> :: SweepRun(run, steps, s) && Stuck(run[|steps|])
  }

  // ----- Building a run that gets stuck -----

  lemma StepThen(s: Sys, step: Step)
    requires s.reader.Sweeping? && Enabled(s, step) && CanStick(Do(s, step))
    ensures CanStick(s)
  {
    var run: seq<Sys>, steps: seq<Step> :| SweepRun(run, steps, Do(s, step)) && Stuck(run[|steps|]);
    var run', steps' := [s] + run, [step] + steps;
    forall k | 0 <= k < |steps'| ensures Enabled(run'[k], steps'[k]) && run'[k + 1] == Do(run'[k], steps'[k]) {
      if k > 0 {
        assert run'[k] == run[k - 1] && steps'[k] == steps[k - 1];
      }
    }
    assert SweepRun(run', steps', s) && run'[|steps'|] == run[|steps|];
  }

  lemma StuckNow(s: Sys)
    requires Stuck(s)
    ensures CanStick(s)
  {
    var steps: seq<Step> := [];
    assert SweepRun([s], steps, s) && Stuck([s][|steps|]);
  }

  /** The request at the head of the queue is still in flight: let it go on waiting until it times out. */
  lemma HeadSticks(s: Sys, n: nat)
    requires s.reader.Sweeping? && s.reader.queue != [] && s.reader.queue[0] == n
    requires InFlight(s, n) && s.reqs[n].slot.None?
    ensures CanStick(s)
    decreases if s.reqs[n].phase.Registered? then 2 else if s.reqs[n].phase.Waiting? then 1 else 0
  {
    if s.reqs[n].phase.TimingOut? {
      StuckNow(s);
    } else {
      var step := if s.reqs[n].phase.Registered? then SendOk(n) else Expire(n);
      HeadSticks(Do(s, step), n);
      StepThen(s, step);
    }
  }

  /** Requests ahead of it in the queue are swept first. */
  lemma {:induction false} QueueSticks(s: Sys, m: nat)
    requires Inv(s) && s.reader.Sweeping? && m < |s.reader.queue| && InFlight(s, s.reader.queue[m])
    requires forall i :: 0 <= i < m ==> !InFlight(s, s.reader.queue[i])
    ensures CanStick(s)
    decreases m
  {
    var queue := s.reader.queue;
    var n := queue[m];
    assert n in queue;
    assert EntryOk(s, IdOf(n), n);
    if m == 0 {
      HeadSticks(s, n);
    } else {
      assert queue[0] in queue;
      assert EntryOk(s, IdOf(queue[0]), queue[0]);
      var t := Do(s, SweepOne);
      SweepOneKeeps(s);
      forall i | 0 <= i < |queue| - 1 ensures InFlight(t, t.reader.queue[i]) <==> InFlight(s, queue[i + 1]) {
        assert queue[i + 1] in queue;
      }
      QueueSticks(t, m - 1);
      StepThen(s, SweepOne);
    }
  }

  lemma FirstInFlight(s: Sys, order: seq<nat>, j: nat) returns (m: nat)
    requires j < |order| && InFlight(s, order[j])
    ensures m < |order| && InFlight(s, order[m]) && forall i :: 0 <= i < m ==> !InFlight(s, order[i])
  {
    m := 0;
    while !InFlight(s, order[m])
      invariant m <= j && forall i :: 0 <= i < m ==> !InFlight(s, order[i])
      decreases j - m
    {
      m := m + 1;
    }
  }

  // ----- A sweep that nothing can stop -----

  /** Every request still to be swept has returned or failed to send. */
  predicate Settled(s: Sys) {
    s.reader.Sweeping? && forall n :: n in s.reader.queue ==>
      n < |s.reqs| && (s.reqs[n].phase.Returned? || s.reqs[n].phase.SendFailing?)
  }

  lemma StepKeepsSettled(s: Sys, step: Step)
    requires Settled(s) && Enabled(s, step) && Do(s, step).reader.Sweeping?
    ensures Settled(Do(s, step))
  {
    var t := Do(s, step);
    forall n | n in t.reader.queue ensures n < |t.reqs| && (t.reqs[n].phase.Returned? || t.reqs[n].phase.SendFailing?) {
      assert n in s.reader.queue;
    }
  }

  lemma {:induction false} SettledForGood(run: seq<Sys>, steps: seq<Step>, s: Sys, k: nat)
    requires SweepRun(run, steps, s) && Settled(s) && k < |run|
    ensures Settled(run[k]) && !Stuck(run[k])
  {
    if k > 0 {
      SettledForGood(run, steps, s, k - 1);
      StepKeepsSettled(run[k - 1], steps[k - 1]);
    }
    if run[k].reader.queue != [] {
      assert run[k].reader.queue[0] in run[k].reader.queue;
    }
  }

  // ----- The exact condition -----

  lemma ListedPhases(s: Sys, order: seq<nat>, n: nat)
    requires Inv(s) && Enabled(s, Disconnect(order)) && n in order
    ensures n < |s.reqs| && !s.reqs[n].phase.Created?
  {
    var id :| id in s.pending && s.pending[id] == n;
    assert EntryOk(s, id, n);
  }

  /**
   * When the connection drops in a reachable state, the client can get stuck in the sweep if and only if some
   * request that still has its entry is in flight: registered, waiting or timing out.
   * Otherwise it never is, whatever else happens.
   */
  lemma StuckExactly(run: seq<Sys>, steps: seq<Step>, k: nat, order: seq<nat>)
    requires IsRun(run, steps) && run[0] == INIT && k < |run| && Enabled(run[k], Disconnect(order))
    ensures CanStick(Do(run[k], Disconnect(order))) <==> exists j :: 0 <= j < |order| && InFlight(run[k], order[j])
  {
    RunKeepsInv(run, steps, k);
    var s, t := run[k], Do(run[k], Disconnect(order));
    DisconnectKeeps(s, order);
    if j :| 0 <= j < |order| && InFlight(s, order[j]) {
      var m := FirstInFlight(t, order, j);
      QueueSticks(t, m);
    } else {
      forall n | n in order ensures n < |t.reqs| && (t.reqs[n].phase.Returned? || t.reqs[n].phase.SendFailing?) {
        ListedPhases(s, order, n);
        var i :| 0 <= i < |order| && order[i] == n;
        assert !InFlight(s, order[i]);
      }
      NeverStuck(t);
    }
  }

  lemma NeverStuck(s: Sys)
    requires Settled(s)
    ensures !CanStick(s)
  {
    forall run: seq<Sys>, steps: seq<Step> | SweepRun(run, steps, s) ensures !Stuck(run[|steps|]) {
      SettledForGood(run, steps, s, |steps|);
    }
  }
}
