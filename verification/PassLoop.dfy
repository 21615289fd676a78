/**
 * A loop over an input that reads an element at an offset, decodes the element's value by the same loop when it is
 * constructed, and goes on at an offset that the element gives. When such a loop ends.
 */
module PassLoop {
  import opened Common
  import opened Tlv

  datatype Pass = Refused | Pass(tag: string, length: int, value: seq<byte>, constructed: bool, next: int)

  /** How an element is read at an offset of an input. */
  type Reader = (seq<byte>, int) -> Pass

  /** A value is shorter than the input it comes from. */
  ghost predicate Shrinking(read: Reader) {
    forall b: seq<byte>, at: int :: read(b, at).Pass? ==> |read(b, at).value| < |b|
  }

  // ----- The loop -----

  /** Runs: not at an end within so many passes of any one loop. */
  datatype Outcome = Returns(nodes: seq<Node>) | Throws | Runs

  /**
   * The loop from an offset, given a number of passes for it and a budget of passes for each loop inside it. An
   * offset that has become negative throws, since there is no byte there.
   */
  function Loop(read: Reader, b: seq<byte>, at: int, passes: nat, budget: nat): Outcome
    requires Shrinking(read)
    decreases |b|, passes
  {
    if at >= |b| then Returns([])
    else if at < 0 then Throws
    else if passes == 0 then Runs
    else
      var p := read(b, at);
      if p.Refused? then Throws
      else
        var inner := if p.constructed then Loop(read, p.value, 0, budget, budget) else Returns([]);
        if !inner.Returns? then inner
        else
          var node := Node(p.tag, p.length, p.value, p.constructed, inner.nodes);
          Before(node, Loop(read, b, p.next, passes - 1, budget))
  }

  function Before(x: Node, r: Outcome): Outcome { if r.Returns? then Returns([x] + r.nodes) else r }

  /** The nested decoding of a pass. */
  function Inner(read: Reader, p: Pass, budget: nat): Outcome
    requires Shrinking(read) && p.Pass?
  {
    if p.constructed then Loop(read, p.value, 0, budget, budget) else Returns([])
  }

  lemma LoopStep(read: Reader, b: seq<byte>, at: int, passes: nat, budget: nat)
    requires Shrinking(read) && 0 <= at < |b| && passes > 0
    ensures var p := read(b, at);
            Loop(read, b, at, passes, budget) ==
              if p.Refused? then Throws
              else if !Inner(read, p, budget).Returns? then Inner(read, p, budget)
              else
                var node := Node(p.tag, p.length, p.value, p.constructed, Inner(read, p, budget).nodes);
                Before(node, Loop(read, b, p.next, passes - 1, budget))
  {
  }

  // ----- More passes change nothing once the loop has ended -----

  lemma {:induction false} MorePasses(read: Reader, b: seq<byte>, at: int, p: nat, q: nat, u: nat, v: nat)
    requires Shrinking(read) && p <= q && u <= v && Loop(read, b, at, p, u) != Runs
    ensures Loop(read, b, at, q, v) == Loop(read, b, at, p, u)
    decreases |b|, p
  {
    if 0 <= at < |b| {
      LoopStep(read, b, at, p, u);
      LoopStep(read, b, at, q, v);
      var s := read(b, at);
      if s.Pass? {
        if s.constructed {
          MorePasses(read, s.value, 0, u, v, u, v);
        }
        if Inner(read, s, u).Returns? {
          MorePasses(read, b, s.next, p - 1, q - 1, u, v);
        }
      }
    }
  }

  // ----- An offset that recurs -----

  /** The offset after `k` passes, if each of them goes on. */
  function After(read: Reader, b: seq<byte>, at: int, k: nat, budget: nat): Option<int>
    requires Shrinking(read)
    decreases k
  {
    if k == 0 then Some(at)
    else if !(0 <= at < |b|) then None
    else
      var p := read(b, at);
      if p.Refused? || !Inner(read, p, budget).Returns? then None else After(read, b, p.next, k - 1, budget)
  }

  lemma {:induction false} AfterEnds(read: Reader, b: seq<byte>, at: int, k: nat, passes: nat, budget: nat)
    requires Shrinking(read) && After(read, b, at, k, budget).Some? && Loop(read, b, at, passes, budget) != Runs
    ensures k <= passes && Loop(read, b, After(read, b, at, k, budget).value, passes - k, budget) != Runs
    decreases k
  {
    if k > 0 {
      LoopStep(read, b, at, passes, budget);
      AfterEnds(read, b, read(b, at).next, k - 1, passes - 1, budget);
    }
  }

  /** Once an offset recurs the loop never ends, however many passes it is given. */
  lemma {:induction false} RecursForever(read: Reader, b: seq<byte>, at: int, k: nat, passes: nat, budget: nat)
    requires Shrinking(read) && k > 0 && After(read, b, at, k, budget) == Some(at)
    ensures Loop(read, b, at, passes, budget) == Runs
    decreases passes
  {
    if Loop(read, b, at, passes, budget) != Runs {
      AfterEnds(read, b, at, k, passes, budget);
      RecursForever(read, b, at, k, passes - k, budget);
    }
  }

  // ----- A loop that ends does so within as many passes as there are bytes -----

  /** The loop ends after exactly this many passes. */
  predicate EndsAfter(read: Reader, b: seq<byte>, at: int, k: nat, budget: nat)
    requires Shrinking(read)
  {
    Loop(read, b, at, k, budget) != Runs && (k > 0 ==> Loop(read, b, at, k - 1, budget) == Runs)
  }

  lemma {:induction false} LeastPasses(read: Reader, b: seq<byte>, at: int, p: nat, budget: nat) returns (k: nat)
    requires Shrinking(read) && Loop(read, b, at, p, budget) != Runs
    ensures k <= p && EndsAfter(read, b, at, k, budget)
  {
    if p == 0 || Loop(read, b, at, p - 1, budget) == Runs {
      k := p;
    } else {
      k := LeastPasses(read, b, at, p - 1, budget);
    }
  }

  lemma EndsAfterOne(read: Reader, b: seq<byte>, at: int, k: nat, m: nat, budget: nat)
    requires Shrinking(read) && EndsAfter(read, b, at, k, budget) && EndsAfter(read, b, at, m, budget)
    ensures k == m
  {
    if k < m {
      MorePasses(read, b, at, k, m - 1, budget, budget);
    } else if m < k {
      MorePasses(read, b, at, m, k - 1, budget, budget);
    }
  }

  lemma VisitNext(read: Reader, b: seq<byte>, at: int, k: nat, budget: nat)
    requires Shrinking(read) && EndsAfter(read, b, at, k, budget) && k > 0
    ensures 0 <= at < |b|
    ensures k > 1 ==> read(b, at).Pass? && EndsAfter(read, b, read(b, at).next, k - 1, budget)
  {
    LoopStep(read, b, at, k, budget);
    if k > 1 {
      LoopStep(read, b, at, k - 1, budget);
    }
  }

  /** The offsets that the loop visits: inside the input, each with fewer passes to go than the one before. */
  lemma {:induction false} Visited(read: Reader, b: seq<byte>, at: int, k: nat, budget: nat) returns (path: seq<int>)
    requires Shrinking(read) && EndsAfter(read, b, at, k, budget)
    ensures |path| == k
    ensures forall i :: 0 <= i < k ==> 0 <= path[i] < |b| && EndsAfter(read, b, path[i], k - i, budget)
    decreases k
  {
    if k == 0 {
      path := [];
    } else {
      VisitNext(read, b, at, k, budget);
      var rest: seq<int> := [];
      if k > 1 {
        rest := Visited(read, b, read(b, at).next, k - 1, budget);
      }
      path := [at] + rest;
    }
  }

  function Below(n: nat): (s: set<int>)
    ensures |s| == n && forall x :: x in s <==> 0 <= x < n
  {
    if n == 0 then {} else Below(n - 1) + {n - 1}
  }

  lemma {:induction false} DistinctCount(path: seq<int>, s: set<int>)
    requires (forall i :: 0 <= i < |path| ==> path[i] in s) && forall i, j :: 0 <= i < j < |path| ==> path[i] != path[j]
    ensures |path| <= |s|
  {
    if path != [] {
      var n := |path| - 1;
      DistinctCount(path[..n], s - {path[n]});
    }
  }

  lemma PassesBounded(read: Reader, b: seq<byte>, at: int, k: nat, budget: nat)
    requires Shrinking(read) && EndsAfter(read, b, at, k, budget)
    ensures k <= |b|
  {
    var path := Visited(read, b, at, k, budget);
    forall i, j | 0 <= i < j < k ensures path[i] != path[j] {
      if path[i] == path[j] {
        EndsAfterOne(read, b, path[i], k - i, k - j, budget);
      }
    }
    DistinctCount(path, Below(|b|));
  }

  lemma {:induction false} TightBudget(read: Reader, b: seq<byte>, at: int, p: nat, u: nat)
    requires Shrinking(read) && Loop(read, b, at, p, u) != Runs
    ensures Loop(read, b, at, p, |b|) == Loop(read, b, at, p, u)
    decreases |b|, 0, p
  {
    if 0 <= at < |b| {
      LoopStep(read, b, at, p, u);
      LoopStep(read, b, at, p, |b|);
      var s := read(b, at);
      if s.Pass? {
        if s.constructed {
          EndsTight(read, s.value, 0, u, u);
          MorePasses(read, s.value, 0, |s.value|, |b|, |s.value|, |b|);
        }
        if Inner(read, s, u).Returns? {
          TightBudget(read, b, s.next, p - 1, u);
        }
      }
    }
  }

  /** Whatever passes and budget let the loop end, as many passes as there are bytes do so too, with the same result. */
  lemma {:induction false} EndsTight(read: Reader, b: seq<byte>, at: int, p: nat, u: nat)
    requires Shrinking(read) && Loop(read, b, at, p, u) != Runs
    ensures Loop(read, b, at, |b|, |b|) == Loop(read, b, at, p, u)
    decreases |b|, 1, p
  {
    TightBudget(read, b, at, p, u);
    var k := LeastPasses(read, b, at, p, |b|);
    PassesBounded(read, b, at, k, |b|);
    MorePasses(read, b, at, k, |b|, |b|, |b|);
    MorePasses(read, b, at, k, p, |b|, |b|);
  }

  // ----- A loop that only moves forward -----

  /** How the first element of an input is read, as its value and what follows it. */
  type Cutter = seq<byte> -> Head

  ghost predicate Cutting(first: Cutter) {
    forall b: seq<byte> :: first(b).Element? ==> |first(b).value| < |b| && |first(b).tail| < |b|
  }

  /** The decoding that cuts off one element after the other. */
  function Cut(first: Cutter, b: seq<byte>): Decoded
    requires Cutting(first)
    decreases |b|
  {
    if b == [] then Nodes([])
    else
      var h := first(b);
      if h.Fails? then h.failure
      else
        var inner := if h.constructed then Cut(first, h.value) else Nodes([]);
        if !inner.Nodes? then inner
        else Prepend([Node(h.tag, |h.value|, h.value, h.constructed, inner.nodes)], Cut(first, h.tail))
  }

  /** Reading at an offset and cutting the rest of the input see the same element, or fail alike. */
  ghost predicate Matches(first: Cutter, read: Reader, b: seq<byte>, at: nat)
    requires at < |b|
  {
    var h, p := first(b[at..]), read(b, at);
    && (h.Fails? ==> h.failure == NegativeLength || (h.failure == Malformed && p.Refused?))
    && (h.Element? ==>
          && p == Pass(h.tag, |h.value|, h.value, h.constructed, |b| - |h.tail|)
          && at < |b| - |h.tail| && h.tail == b[|b| - |h.tail|..])
  }

  ghost predicate Matching(first: Cutter, read: Reader) {
    forall b: seq<byte>, at: nat | at < |b| :: Matches(first, read, b, at)
  }

  /** What cutting yields, as an outcome of the loop; nothing is said where a length is negative. */
  predicate Agrees(d: Decoded, r: Outcome) {
    match d
    case Nodes(ns) => r == Returns(ns)
    case Malformed => r == Throws
    case NegativeLength => true
  }

  lemma {:induction false} CutIsLoop(first: Cutter, read: Reader, b: seq<byte>, at: nat, passes: nat, budget: nat)
    requires Shrinking(read) && Cutting(first) && Matching(first, read)
    requires at <= |b| && passes >= |b| - at && budget >= |b|
    ensures Agrees(Cut(first, b[at..]), Loop(read, b, at, passes, budget))
    decreases |b|, |b| - at
  {
    var rest := b[at..];
    if at < |b| {
      assert Matches(first, read, b, at);
      LoopStep(read, b, at, passes, budget);
      var h := first(rest);
      if h.Element? {
        if h.constructed {
          CutIsLoop(first, read, h.value, 0, budget, budget);
          assert h.value[0..] == h.value;
        }
        CutIsLoop(first, read, b, |b| - |h.tail|, passes - 1, budget);
      }
    }
  }
}
