/**
 * The evaluation round trip shared by the second-generation search classes
 * (trainmc.cpp, playmc.cpp): positions waiting for the network sit in a flat
 * buffer, `kGameStateSize` entries per slot, and the network's answer comes
 * back as integer edge priors and a value backed up to the root
 * (`receive_evaluation`).
 */
module SearchBuffer {
  import opened Common
  import GR = GameRules
  import opened SearchTree
  import opened TreeOps
  import opened SearchWalks

  // ---------------------------------------------------------------------
  // The request buffer `to_eval`

  /** Slot i of a buffer of state vectors. */
  function Slot(buf: seq<real>, i: int): (v: seq<real>)
    requires 0 <= i && (i + 1) * GR.GameStateSize <= |buf|
    ensures |v| == GR.GameStateSize
    ensures forall k | 0 <= k < GR.GameStateSize :: v[k] == buf[i * GR.GameStateSize + k]
  {
    buf[i * GR.GameStateSize .. (i + 1) * GR.GameStateSize]
  }

  /** `writeGameState(to_eval + i * kGameStateSize)`: slot i replaced by v, the rest of the buffer kept. */
  function WriteSlot(buf: seq<real>, i: int, v: seq<real>): (b: seq<real>)
    requires 0 <= i && (i + 1) * GR.GameStateSize <= |buf| && |v| == GR.GameStateSize
    ensures |b| == |buf| && Slot(b, i) == v
    ensures forall k | 0 <= k < |buf| && !(i * GR.GameStateSize <= k < (i + 1) * GR.GameStateSize) :: b[k] == buf[k]
  {
    buf[.. i * GR.GameStateSize] + v + buf[(i + 1) * GR.GameStateSize ..]
  }

  /** Writing one slot leaves every other slot as it was. */
  lemma WriteSlotOther(buf: seq<real>, i: int, v: seq<real>, j: int)
    requires 0 <= i && (i + 1) * GR.GameStateSize <= |buf| && |v| == GR.GameStateSize
    requires 0 <= j && (j + 1) * GR.GameStateSize <= |buf| && j != i
    ensures Slot(WriteSlot(buf, i, v), j) == Slot(buf, j)
  {
    var b := WriteSlot(buf, i, v);
    forall k | 0 <= k < GR.GameStateSize ensures Slot(b, j)[k] == Slot(buf, j)[k] {
      assert b[j * GR.GameStateSize + k] == buf[j * GR.GameStateSize + k];
    }
  }

  /** `writeGameState` into slot i of a buffer: the position's state vector, entry by entry. */
  method WriteState(out: array<real>, i: int, g: GR.GameState)
    requires GR.Shaped(g) && 0 <= i && (i + 1) * GR.GameStateSize <= out.Length
    modifies out
    ensures out[..] == WriteSlot(old(out[..]), i, GR.StateVector(g))
  {
    var v := GR.StateVector(g);
    var base := i * GR.GameStateSize;
    var k := 0;
    while k < GR.GameStateSize
      invariant 0 <= k <= GR.GameStateSize
      invariant forall j | 0 <= j < out.Length :: out[j] == if base <= j < base + k then v[j - base] else old(out[j])
    {
      out[base + k] := v[k];
      k := k + 1;
    }
    var w := WriteSlot(old(out[..]), i, v);
    forall j | 0 <= j < out.Length ensures out[j] == w[j] {
      if base <= j < base + GR.GameStateSize {
        assert Slot(w, i)[j - base] == w[j];
      }
    }
  }

  /** Every node of `a` keeps its position in `b`, which may have grown. */
  predicate GamesKept(a: seq<Node>, b: seq<Node>)
  {
    |a| <= |b| && forall k | 0 <= k < |a| :: b[k].game == a[k].game
  }

  /**
   * The buffer invariant: every entry of `searched` is a node of the arena,
   * and the last `evalIndex` entries have their state vectors, in order, in
   * the first `evalIndex` slots.
   */
  ghost predicate Queued(nodes: seq<Node>, searched: seq<int>, evalIndex: int, buf: seq<real>)
  {
    0 <= evalIndex <= |searched| && evalIndex * GR.GameStateSize <= |buf| &&
    (forall j | 0 <= j < |searched| :: 0 <= searched[j] < |nodes| && GR.Shaped(nodes[searched[j]].game)) &&
    forall k | 0 <= k < evalIndex ::
      Slot(buf, k) == GR.StateVector(nodes[searched[|searched| - evalIndex + k]].game)
  }

  /** Queueing one more node: its state goes to slot `evalIndex`, and it joins `searched`. */
  lemma QueuePush(nodes: seq<Node>, searched: seq<int>, evalIndex: int, buf: seq<real>, leaf: int)
    requires Queued(nodes, searched, evalIndex, buf)
    requires 0 <= leaf < |nodes| && GR.Shaped(nodes[leaf].game) && (evalIndex + 1) * GR.GameStateSize <= |buf|
    ensures Queued(nodes, searched + [leaf], evalIndex + 1,
                   WriteSlot(buf, evalIndex, GR.StateVector(nodes[leaf].game)))
  {
    var v := GR.StateVector(nodes[leaf].game);
    var b := WriteSlot(buf, evalIndex, v);
    var s := searched + [leaf];
    forall k | 0 <= k < evalIndex + 1
      ensures Slot(b, k) == GR.StateVector(nodes[s[|s| - (evalIndex + 1) + k]].game)
    {
      if k < evalIndex {
        WriteSlotOther(buf, evalIndex, v, k);
        assert s[|s| - (evalIndex + 1) + k] == searched[|searched| - evalIndex + k];
      }
    }
  }

  /** An empty queue over nodes of the arena. */
  lemma QueueEmpty(nodes: seq<Node>, searched: seq<int>, buf: seq<real>)
    requires forall j | 0 <= j < |searched| :: 0 <= searched[j] < |nodes| && GR.Shaped(nodes[searched[j]].game)
    ensures Queued(nodes, searched, 0, buf)
  {
  }

  /** The queue survives any change to the arena that keeps every existing node's game. */
  lemma QueuedKept(a: seq<Node>, b: seq<Node>, searched: seq<int>, evalIndex: int, buf: seq<real>)
    requires Queued(a, searched, evalIndex, buf) && GamesKept(a, b)
    ensures Queued(b, searched, evalIndex, buf)
  {
  }

  // ---------------------------------------------------------------------
  // Integer priors

  /** `max(1, lround(...))`: each edge's prior is its rounded weight, raised to 1 when it falls below. */
  function Raised(es: seq<Edge>, rounded: seq<int>): (r: seq<Edge>)
    requires |rounded| == |es|
    ensures |r| == |es| && MoveIds(r) == MoveIds(es)
    ensures forall i | 0 <= i < |r| ::
      r[i].probability >= 1 && r[i].probability >= rounded[i] &&
      (r[i].probability == 1 || r[i].probability == rounded[i])
  {
    seq(|es|, i requires 0 <= i < |es| => es[i].(probability := if rounded[i] > 1 then rounded[i] else 1))
  }

  /** The sum of the priors (`final_sum`). */
  function PriorSum(es: seq<Edge>): int
  {
    if es == [] then 0 else PriorSum(es[..|es| - 1]) + es[|es| - 1].probability
  }

  /** `1.0 / final_sum`; 0 for an empty sum, where the source would divide by zero. */
  function Denominator(total: int): (d: real)
    ensures total > 0 ==> d * total as real == 1.0
    ensures total > 0 ==> d > 0.0
  {
    if total > 0 then 1.0 / total as real else 0.0
  }

  /** With every prior at least 1, the sum is at least the number of edges. */
  lemma {:induction false} PriorSumAtLeast(es: seq<Edge>)
    requires forall i | 0 <= i < |es| :: es[i].probability >= 1
    ensures PriorSum(es) >= |es|
    decreases |es|
  {
    if es != [] {
      PriorSumAtLeast(es[..|es| - 1]);
    }
  }

  /** The priors of one evaluated node: all at least 1, summing to at least the number of moves, normalised by the denominator. */
  lemma RaisedPriors(es: seq<Edge>, rounded: seq<int>)
    requires |rounded| == |es| && |es| > 0
    ensures PriorSum(Raised(es, rounded)) >= |es|
    ensures Denominator(PriorSum(Raised(es, rounded))) * PriorSum(Raised(es, rounded)) as real == 1.0
  {
    PriorSumAtLeast(Raised(es, rounded));
  }

  /**
   * The prior loop of `receive_evaluation` for one node: each edge gets its
   * raised prior while the sum is accumulated, and the node records the
   * reciprocal of the sum.
   */
  method SetPriors(n: Node, rounded: seq<int>) returns (m: Node)
    requires |rounded| == |n.edges|
    ensures m == n.(edges := Raised(n.edges, rounded), denominator := Denominator(PriorSum(Raised(n.edges, rounded))))
  {
    var es, finalSum := RaiseAll(n.edges, rounded);
    m := n.(edges := es, denominator := Denominator(finalSum));
  }

  /** The loop itself: raised priors edge by edge, with their running sum. */
  method RaiseAll(edges: seq<Edge>, rounded: seq<int>) returns (es: seq<Edge>, finalSum: int)
    requires |rounded| == |edges|
    ensures es == Raised(edges, rounded) && finalSum == PriorSum(es)
  {
    es := [];
    finalSum := 0;
    var i := 0;
    while i < |edges|
      invariant 0 <= i <= |edges| && es == Raised(edges, rounded)[..i]
      invariant finalSum == PriorSum(es)
    {
      var p := if rounded[i] > 1 then rounded[i] else 1;
      var e := edges[i].(probability := p);
      assert (es + [e])[..|es|] == es;
      es := es + [e];
      finalSum := finalSum + p;
      i := i + 1;
    }
  }

  // ---------------------------------------------------------------------
  // The answer for all queued nodes

  /** One queued node answered: priors set, then value `v` backed up from it with `offset`, clearing all_visited. */
  function ReceiveOne(nodes: seq<Node>, leaf: int, v: real, rounded: seq<int>, offset: real): (r: seq<Node>)
    requires Linked(nodes) && 0 <= leaf < |nodes| && |rounded| == |nodes[leaf].edges|
    ensures SameShapes(nodes, r) && Linked(r)
    ensures r[leaf].edges == Raised(nodes[leaf].edges, rounded)
    ensures forall k | 0 <= k < |nodes| && k != leaf :: r[k].edges == nodes[k].edges
  {
    var n := nodes[leaf];
    var p := nodes[leaf := n.(edges := Raised(n.edges, rounded), denominator := Denominator(PriorSum(Raised(n.edges, rounded))))];
    assert SameShapes(nodes, p);
    LinkedShapes(nodes, p);
    var r := BackedUp(p, leaf, v, offset, true);
    LinkedShapes(p, r);
    BackedUpKeepsEdges(p, leaf, v, offset, true);
    r
  }

  /** The body of the loop of `receive_evaluation` for one queued node: the prior loop, then the walk up. */
  method ReceiveNode(nodes: seq<Node>, leaf: int, v: real, rounded: seq<int>, offset: real) returns (r: seq<Node>)
    requires Linked(nodes) && 0 <= leaf < |nodes| && |rounded| == |nodes[leaf].edges|
    ensures r == ReceiveOne(nodes, leaf, v, rounded, offset)
  {
    var m := SetPriors(nodes[leaf], rounded);
    var p := nodes[leaf := m];
    assert SameShapes(nodes, p);
    LinkedShapes(nodes, p);
    r := Backup(p, leaf, v, offset, true);
  }

  /** The backup changes evaluations and flags only. */
  lemma BackedUpKeepsEdges(nodes: seq<Node>, from: int, v: real, offset: real, clear: bool)
    requires Linked(nodes) && 0 <= from < |nodes|
    ensures forall k | 0 <= k < |nodes| :: BackedUp(nodes, from, v, offset, clear)[k].edges == nodes[k].edges
  {
  }

  /** The answer fits the queue: one value and one row of rounded weights per entry of `searched`. */
  ghost predicate Answer(nodes: seq<Node>, searched: seq<int>, evals: seq<real>, rounded: seq<seq<int>>)
  {
    |evals| >= |searched| && |rounded| >= |searched| &&
    forall j | 0 <= j < |searched| :: 0 <= searched[j] < |nodes| && |rounded[j]| == |nodes[searched[j]].edges|
  }

  lemma AnswerKept(a: seq<Node>, b: seq<Node>, searched: seq<int>, evals: seq<real>, rounded: seq<seq<int>>)
    requires Answer(a, searched, evals, rounded) && SameShapes(a, b)
    ensures Answer(b, searched, evals, rounded)
  {
    forall j | 0 <= j < |searched| ensures |rounded[j]| == |b[searched[j]].edges| {
      assert MoveIds(a[searched[j]].edges) == MoveIds(b[searched[j]].edges);
    }
  }

  /** The arena after answering the first j entries of `searched`, in order. */
  function Received(nodes: seq<Node>, searched: seq<int>, evals: seq<real>, rounded: seq<seq<int>>, offset: real, j: int)
    : (r: seq<Node>)
    requires Linked(nodes) && Answer(nodes, searched, evals, rounded) && 0 <= j <= |searched|
    ensures SameShapes(nodes, r) && Linked(r)
    decreases j
  {
    if j == 0 then nodes
    else
      var prev := Received(nodes, searched, evals, rounded, offset, j - 1);
      AnswerKept(nodes, prev, searched, evals, rounded);
      ReceiveOne(prev, searched[j - 1], evals[j - 1], rounded[j - 1], offset)
  }

  /** The j-th entry answered: the fold takes one step of `ReceiveOne` from the first j - 1. */
  lemma ReceivedStep(nodes: seq<Node>, searched: seq<int>, evals: seq<real>, rounded: seq<seq<int>>, offset: real, j: int)
    requires Linked(nodes) && Answer(nodes, searched, evals, rounded) && 0 < j <= |searched|
    ensures var r := Received(nodes, searched, evals, rounded, offset, j - 1);
      Linked(r) && 0 <= searched[j - 1] < |r| && |rounded[j - 1]| == |r[searched[j - 1]].edges| &&
      Received(nodes, searched, evals, rounded, offset, j) == ReceiveOne(r, searched[j - 1], evals[j - 1], rounded[j - 1], offset)
  {
    var r := Received(nodes, searched, evals, rounded, offset, j - 1);
    AnswerKept(nodes, r, searched, evals, rounded);
  }

  /** The loop of `receive_evaluation`: each queued node answered in turn, with `offset` on the way up. */
  method ReceiveAll(nodes: seq<Node>, searched: seq<int>, evals: seq<real>, rounded: seq<seq<int>>, offset: real)
    returns (r: seq<Node>)
    requires Linked(nodes) && Answer(nodes, searched, evals, rounded)
    ensures r == Received(nodes, searched, evals, rounded, offset, |searched|)
  {
    var j := 0;
    r := nodes;
    while j < |searched|
      invariant 0 <= j <= |searched|
      invariant r == Received(nodes, searched, evals, rounded, offset, j)
    {
      j := j + 1;
      ReceivedStep(nodes, searched, evals, rounded, offset, j);
      r := ReceiveNode(r, searched[j - 1], evals[j - 1], rounded[j - 1], offset);
    }
    assert j == |searched|;
  }

  /**
   * After the answer, every answered node has an integer prior of at least
   * 1 on each of its edges, whatever the network returned.
   */
  lemma {:induction false} ReceivedPriors(nodes: seq<Node>, searched: seq<int>, evals: seq<real>, rounded: seq<seq<int>>,
                                          offset: real, j: int, i: int, e: int)
    requires Linked(nodes) && Answer(nodes, searched, evals, rounded) && 0 <= i < j <= |searched|
    requires 0 <= e < |Received(nodes, searched, evals, rounded, offset, j)[searched[i]].edges|
    ensures Received(nodes, searched, evals, rounded, offset, j)[searched[i]].edges[e].probability >= 1
    decreases j
  {
    var prev := Received(nodes, searched, evals, rounded, offset, j - 1);
    AnswerKept(nodes, prev, searched, evals, rounded);
    var leaf := searched[j - 1];
    var r := ReceiveOne(prev, leaf, evals[j - 1], rounded[j - 1], offset);
    assert Received(nodes, searched, evals, rounded, offset, j) == r;
    if searched[i] != leaf {
      assert r[searched[i]].edges == prev[searched[i]].edges;
      if i < j - 1 {
        ReceivedPriors(nodes, searched, evals, rounded, offset, j - 1, i, e);
      }
    }
  }

  /**
   * One answer over a descent that added 1 at every strict ancestor
   * (trainmc.cpp): with offset -1 every strict ancestor ends with the value
   * from its own side, and the answered node's evaluation is replaced.
   */
  lemma ReceiveOneCredits(base: seq<Node>, r: seq<Node>, leaf: int, v: real, rounded: seq<int>)
    requires Bumped(base, r, leaf, 1.0) && |rounded| == |r[leaf].edges|
    ensures Linked(r)
    ensures Credited(base, ReceiveOne(r, leaf, v, rounded, -1.0), leaf, v)
    ensures ReceiveOne(r, leaf, v, rounded, -1.0)[leaf].evaluation == r[leaf].evaluation - 1.0 + v
  {
    BumpedPaths(base, r, leaf, 1.0);
    var n := r[leaf];
    var m := n.(edges := Raised(n.edges, rounded), denominator := Denominator(PriorSum(Raised(n.edges, rounded))));
    LeafUpdate(r, leaf, m, v, -1.0, true);
    EvalBackupCredits(base, r, leaf, v, true);
  }

  // ---------------------------------------------------------------------
  // Nodes still open to the descent

  /** The number of nodes not marked all_visited. */
  function OpenCount(nodes: seq<Node>): (c: nat)
    ensures c <= |nodes|
  {
    if nodes == [] then 0 else OpenCount(nodes[..|nodes| - 1]) + (if nodes[|nodes| - 1].allVisited then 0 else 1)
  }

  /** Marking an open node all_visited closes exactly one node. */
  lemma {:induction false} OpenCountMark(nodes: seq<Node>, i: int)
    requires 0 <= i < |nodes| && !nodes[i].allVisited
    ensures OpenCount(nodes[i := nodes[i].(allVisited := true)]) == OpenCount(nodes) - 1
    decreases |nodes|
  {
    var m := nodes[i := nodes[i].(allVisited := true)];
    var n := |nodes| - 1;
    if i < n {
      assert m[..n] == nodes[..n][i := nodes[i].(allVisited := true)];
      OpenCountMark(nodes[..n], i);
    } else {
      assert m[..n] == nodes[..n];
    }
  }
}
