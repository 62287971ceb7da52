/**
 * The training-time search (`TrainMC`, trainmc.cpp): a search tree over the
 * arena of SearchTree, the list `searched` of nodes whose positions wait in
 * the request buffer `to_eval`, and the counters `eval_index` and
 * `iterations_done`.  A turn alternates `do_iteration` (take the network's
 * answer, then search until the buffer is full or the turn is over) with
 * the network; `choose_move` and `receiveOpponentMove` then re-root the
 * tree.
 *
 * The PUCT formulas, the network and the random generator are parameters:
 * `prior` and `explore` score an edge, `rounded` holds the integer weights
 * the float pipeline of `receive_evaluation` produces, and `draw` is the
 * generator's output.
 */
module TrainSearch {
  import opened Common
  import MC = MoveCodec
  import GR = GameRules
  import opened SearchTree
  import opened TreeOps
  import opened SearchWalks
  import opened SearchBuffer
  import opened MoveChoice

  /** How one pass of the search loop ended: nothing selectable at a node, a terminal leaf settled, or a leaf queued. */
  datatype Pass = Exhausted(at: int) | Settled(leaf: int) | Asked(leaf: int)

  // ---------------------------------------------------------------------
  // Facts about the tree the class relies on

  /** Result changes made before the terminal walk are carried through it unchanged. */
  lemma ResultsAside(r: seq<Node>, rp: seq<Node>, leaf: int)
    requires Linked(r) && 0 <= leaf < |r| && |rp| == |r|
    requires forall k | 0 <= k < |r| :: rp[k] == r[k].(result := rp[k].result)
    requires rp[leaf].result == r[leaf].result
    ensures Linked(rp)
    ensures forall k | 0 <= k < |r| :: TerminalCredit(rp, leaf)[k] == TerminalCredit(r, leaf)[k].(result := rp[k].result)
  {
    assert SameShapes(r, rp);
    LinkedShapes(r, rp);
    var p := r[leaf].parent;
    if p >= 0 {
      PathKept(Settle(r, leaf), Settle(rp, leaf), p);
    }
    forall k | 0 <= k < |r|
      ensures TerminalCredit(rp, leaf)[k] == TerminalCredit(r, leaf)[k].(result := rp[k].result)
    {
      ResultsAsidePoint(r, rp, leaf, k);
    }
  }

  lemma ResultsAsidePoint(r: seq<Node>, rp: seq<Node>, leaf: int, k: int)
    requires Linked(r) && Linked(rp) && 0 <= leaf < |r| && |rp| == |r| && 0 <= k < |r|
    requires forall j | 0 <= j < |r| :: rp[j] == r[j].(result := rp[j].result)
    requires rp[leaf].result == r[leaf].result
    requires r[leaf].parent >= 0 ==> Path(Settle(r, leaf), r[leaf].parent) == Path(Settle(rp, leaf), r[leaf].parent)
    ensures TerminalCredit(rp, leaf)[k] == TerminalCredit(r, leaf)[k].(result := rp[k].result)
  {
    var a := Settle(r, leaf);
    var b := Settle(rp, leaf);
    assert b[k] == a[k].(result := rp[k].result);
    var p := r[leaf].parent;
    if p >= 0 {
      var v := -LeafValue(r[leaf]);
      assert LeafValue(rp[leaf]) == LeafValue(r[leaf]);
      assert b[p].depth == a[p].depth && b[k].depth == a[k].depth;
      BackedUpAt(a, p, v, k);
      BackedUpAt(b, p, v, k);
    }
  }

  /** Node k after the terminal walk's backup from p. */
  lemma BackedUpAt(n: seq<Node>, p: int, v: real, k: int)
    requires Linked(n) && 0 <= p < |n| && 0 <= k < |n|
    ensures BackedUp(n, p, v, -1.0, false)[k] ==
      if k in Path(n, p) then Credit(n[k], Alt(v, n[p].depth - n[k].depth), -1.0, false) else n[k]
  {
  }

  /** A deduction depends on results and shapes only, not on counters or evaluations. */
  lemma DeducedCounters(a: seq<Node>, b: seq<Node>, x: int)
    requires Deduced(a, x) && SameShapes(a, b) && forall k | 0 <= k < |a| :: b[k].result == a[k].result
    ensures Deduced(b, x)
  {
    var p := a[x].parent;
    assert KidIds(Kids(b, p)) == KidIds(Kids(a, p));
    forall k | 0 <= k < |Kids(a, p)| ensures Kids(b, p)[k].result == Kids(a, p)[k].result {
    }
  }

  /** The children of a node of a well-formed tree carry move indices. */
  lemma KidsInRange(nodes: seq<Node>, i: int)
    requires TreeOk(nodes) && 0 <= i < |nodes|
    ensures ChildrenAfter(nodes, i) && IdsInRange(Kids(nodes, i))
  {
    assert NodeOk(nodes, i);
    var kids := Kids(nodes, i);
    forall k | 0 <= k < |kids| ensures 0 <= kids[k].childId < MC.NumMoves {
      assert KidIds(kids)[k] in MoveIds(nodes[i].edges);
    }
  }

  /**
   * The arena after `receive_evaluation`: every queued node answered in
   * order, each value backed up with `offset` added at every node, then the
   * root opened again.
   */
  function Answered(nodes: seq<Node>, searched: seq<int>, evals: seq<real>, rounded: seq<seq<int>>, offset: real,
                    root: int): (r: seq<Node>)
    requires Linked(nodes) && Answer(nodes, searched, evals, rounded) && 0 <= root < |nodes|
    ensures SameShapes(nodes, r) && Linked(r) && !r[root].allVisited
  {
    var t := Received(nodes, searched, evals, rounded, offset, |searched|);
    var r := t[root := t[root].(allVisited := false)];
    assert SameShapes(t, r);
    LinkedShapes(t, r);
    r
  }

  /**
   * The loop of `receive_evaluation` and the opening of the root, on the
   * arena: the result keeps the tree well formed and the root a root.
   */
  method AnswerQueue(nodes: seq<Node>, searched: seq<int>, evals: seq<real>, rounded: seq<seq<int>>, offset: real,
                     root: int, ghost buf: seq<real>)
    returns (r: seq<Node>)
    requires TreeOk(nodes) && Answer(nodes, searched, evals, rounded) && 0 <= root < |nodes|
    requires nodes[root].parent == -1 && ChildrenAfter(nodes, root)
    ensures Linked(nodes) && r == Answered(nodes, searched, evals, rounded, offset, root)
    ensures SearchOk(r, root, [], 0, buf)
  {
    TreeLinked(nodes);
    r := ReceiveAll(nodes, searched, evals, rounded, offset);
    r := r[root := r[root].(allVisited := false)];
    AnsweredOk(nodes, searched, evals, rounded, offset, root, buf);
  }

  /** The answered arena is a search state with the root a root and nothing queued. */
  lemma AnsweredOk(nodes: seq<Node>, searched: seq<int>, evals: seq<real>, rounded: seq<seq<int>>, offset: real,
                   root: int, buf: seq<real>)
    requires TreeOk(nodes) && Linked(nodes) && Answer(nodes, searched, evals, rounded) && 0 <= root < |nodes|
    requires nodes[root].parent == -1 && ChildrenAfter(nodes, root)
    ensures SearchOk(Answered(nodes, searched, evals, rounded, offset, root), root, [], 0, buf)
  {
    var r := Answered(nodes, searched, evals, rounded, offset, root);
    SameShapesKeepTree(nodes, r);
    assert SameShape(nodes[root], r[root]);
    QueueEmpty(r, [], buf);
  }

  /**
   * `receive_evaluation` gives every edge of every answered node an integer
   * prior of at least 1.
   */
  lemma AnsweredPriors(nodes: seq<Node>, searched: seq<int>, evals: seq<real>, rounded: seq<seq<int>>, offset: real,
                       root: int, k: int, e: int)
    requires Linked(nodes) && Answer(nodes, searched, evals, rounded) && 0 <= root < |nodes|
    requires 0 <= k < |searched| && 0 <= e < |nodes[searched[k]].edges|
    ensures |Answered(nodes, searched, evals, rounded, offset, root)[searched[k]].edges| == |nodes[searched[k]].edges|
    ensures Answered(nodes, searched, evals, rounded, offset, root)[searched[k]].edges[e].probability >= 1
  {
    var r := Answered(nodes, searched, evals, rounded, offset, root);
    var t := Received(nodes, searched, evals, rounded, offset, |searched|);
    assert MoveIds(r[searched[k]].edges) == MoveIds(nodes[searched[k]].edges);
    assert r[searched[k]].edges == t[searched[k]].edges;
    ReceivedPriors(nodes, searched, evals, rounded, offset, |searched|, k, e);
  }

  /**
   * The state of a search on the arena: a well-formed tree whose root, when
   * there is one, has no parent, and the queue of nodes waiting for the
   * network.
   */
  ghost predicate SearchOk(nodes: seq<Node>, root: int, searched: seq<int>, evalIndex: int, buf: seq<real>)
  {
    TreeOk(nodes) && Linked(nodes) && -1 <= root < |nodes| &&
    (root >= 0 ==> nodes[root].parent == -1 && ChildrenAfter(nodes, root)) &&
    Queued(nodes, searched, evalIndex, buf)
  }

  /**
   * A new root appended to the arena and queued in slot 0, as the first
   * iteration of a turn, keeps the search state.
   */
  lemma PlantOk(nodes: seq<Node>, root: int, searched: seq<int>, evalIndex: int, buf: seq<real>, n: Node)
    requires SearchOk(nodes, root, searched, evalIndex, buf) && GR.GameStateSize <= |buf|
    requires n.parent == -1 && n.children == [] && GR.Shaped(n.game) && EdgesOk(n)
    ensures SearchOk(nodes + [n], |nodes|, searched + [|nodes|], 1, WriteSlot(buf, 0, GR.StateVector(n.game)))
  {
    PlantKeepsTree(nodes, n);
    var grown := nodes + [n];
    TreeLinked(grown);
    QueueEmpty(nodes, searched, buf);
    QueuedKept(nodes, grown, searched, 0, buf);
    QueuePush(grown, searched, 0, buf, |nodes|);
    assert grown[|nodes|] == n;
  }

  // ---------------------------------------------------------------------
  // One pass of the search loop

  /**
   * The arena `t` after the walk from the terminal leaf of a descent that
   * left `r` behind: `propagate_result` changed results only on the leaf's
   * path strictly above it and up to some node `top` at or below the root,
   * every one of them deduced from the node below it; all counters and
   * evaluations are those of the terminal walk of `r`.
   */
  ghost predicate SettledBy(base: seq<Node>, r: seq<Node>, t: seq<Node>, root: int, leaf: int)
  {
    Bumped(base, r, leaf, 1.0) && Linked(r) && |t| == |r| &&
    (forall k | 0 <= k < |r| :: t[k] == TerminalCredit(r, leaf)[k].(result := t[k].result)) &&
    exists top | top in Path(base, leaf) ::
      root in Path(base, top) &&
      (forall k | 0 <= k < |r| && t[k].result != r[k].result :: k in Path(base, leaf) && top <= k < leaf) &&
      (forall k | k in Path(base, leaf) && top < k :: Deduced(t, k))
  }

  /**
   * `search` at a terminal leaf: `propagate_result` from the leaf, then the
   * leaf's visit is counted, its evaluation set to its value, and the walk
   * back up credits every ancestor with that value from its own side.
   */
  method SettleLeaf(r: seq<Node>, root: int, leaf: int, ghost base: seq<Node>) returns (t: seq<Node>)
    requires TreeOk(r) && Bumped(base, r, leaf, 1.0) && 0 <= root < |base| && root in Path(base, leaf)
    ensures SettledBy(base, r, t, root, leaf) && TreeOk(t) && Linked(t) && SameShapes(r, t)
  {
    BumpedPaths(base, r, leaf, 1.0);
    var rp;
    ghost var top;
    rp, top := Propagate(r, root, leaf);
    assert SameShapes(r, rp);
    LinkedShapes(r, rp);
    t := Settle(rp, leaf);
    if rp[leaf].parent >= 0 {
      t := Backup(t, rp[leaf].parent, -LeafValue(rp[leaf]), -1.0, false);
    }
    assert t == TerminalCredit(rp, leaf);
    SettledByOk(base, r, rp, t, root, leaf, top);
  }

  /** The facts `propagate_result` and the walk establish add up to `SettledBy`. */
  lemma SettledByOk(base: seq<Node>, r: seq<Node>, rp: seq<Node>, t: seq<Node>, root: int, leaf: int, top: int)
    requires TreeOk(r) && Bumped(base, r, leaf, 1.0) && 0 <= root < |base| && root in Path(base, leaf)
    requires Linked(r) && Path(r, leaf) == Path(base, leaf) && |rp| == |r| && TreeOk(rp) && Linked(rp)
    requires forall k | 0 <= k < |r| :: rp[k] == r[k].(result := rp[k].result)
    requires top in Path(r, leaf) && root in Path(r, top)
    requires forall k | 0 <= k < |r| && rp[k].result != r[k].result :: k in Path(r, leaf) && top <= k < leaf
    requires forall k | k in Path(r, leaf) && top < k :: Deduced(rp, k)
    requires t == TerminalCredit(rp, leaf)
    ensures SettledBy(base, r, t, root, leaf) && TreeOk(t) && Linked(t) && SameShapes(r, t)
  {
    assert rp[leaf] == r[leaf];
    ResultsAside(r, rp, leaf);
    SettledShapes(r, rp, t, leaf);
    PathKept(r, base, top);
    forall k | k in Path(base, leaf) && top < k ensures Deduced(t, k) {
      DeducedCounters(rp, t, k);
    }
    assert top in Path(base, leaf) && root in Path(base, top);
  }

  /** The walk keeps the shape of the tree and the results `propagate_result` left. */
  lemma SettledShapes(r: seq<Node>, rp: seq<Node>, t: seq<Node>, leaf: int)
    requires TreeOk(r) && Linked(r) && Linked(rp) && 0 <= leaf < |r| && |rp| == |r|
    requires forall k | 0 <= k < |r| :: rp[k] == r[k].(result := rp[k].result)
    requires t == TerminalCredit(rp, leaf)
    ensures SameShapes(r, t) && SameShapes(rp, t) && TreeOk(t) && Linked(t)
    ensures forall k | 0 <= k < |r| :: t[k].result == rp[k].result
  {
    var s := Settle(rp, leaf);
    if rp[leaf].parent >= 0 {
      forall k | 0 <= k < |r| ensures t[k].result == rp[k].result {
        assert t[k] == BackedNode(s, rp[leaf].parent, -LeafValue(rp[leaf]), -1.0, false, k);
      }
    }
    assert SameShapes(r, t);
    SameShapesKeepTree(r, t);
    LinkedShapes(r, t);
  }

  /**
   * What one pass of the loop of `search` leaves behind, from the arena
   * `nodes` and the queue (`searched`, `evalIndex`, `buf`) to `n2` and
   * (`searched2`, `evalIndex2`, `buf2`): the descent from the root (which
   * counts a visit and a provisional +1 at each node it passes) either
   * found nothing selectable, so only the all_visited mark remains; or
   * reached a terminal leaf of `base`, which was then settled; or created a
   * non-terminal leaf, which gets the provisional evaluation 1 and is queued
   * in the next slot.
   */
  ghost predicate Passed(nodes: seq<Node>, root: int, searched: seq<int>, evalIndex: int, buf: seq<real>,
                         breakers: seq<seq<bool>>, p: Pass, n2: seq<Node>, searched2: seq<int>, evalIndex2: int,
                         buf2: seq<real>, base: seq<Node>, r: seq<Node>, at: int)
  {
    match p
    case Exhausted(x) =>
      DescentOk(nodes, root, Current, breakers, 1.0, n2, Blocked(x), nodes, 0) &&
      searched2 == searched && evalIndex2 == evalIndex && buf2 == buf
    case Settled(leaf) =>
      0 <= leaf < |base| && DescentOk(nodes, root, Current, breakers, 1.0, r, Reached(leaf), base, at) &&
      Terminal(base[leaf]) && SettledBy(base, r, n2, root, leaf) &&
      searched2 == searched && evalIndex2 == evalIndex && buf2 == buf
    case Asked(leaf) =>
      leaf == |nodes| && |r| == |base| == |nodes| + 1 && GR.Shaped(r[leaf].game) &&
      0 <= evalIndex && (evalIndex + 1) * GR.GameStateSize <= |buf| &&
      DescentOk(nodes, root, Current, breakers, 1.0, r, Reached(leaf), base, at) && !Terminal(base[leaf]) &&
      n2 == r[leaf := r[leaf].(evaluation := 1.0)] &&
      searched2 == searched + [leaf] && evalIndex2 == evalIndex + 1 &&
      buf2 == WriteSlot(buf, evalIndex, GR.StateVector(r[leaf].game))
  }

  /** A descent that reached a leaf keeps every existing node's game and the root a root. */
  lemma ReachedKeeps(nodes: seq<Node>, root: int, rule: Rule, breakers: seq<seq<bool>>, de: real, r: seq<Node>,
                     leaf: int, base: seq<Node>, at: int)
    requires TreeOk(nodes) && 0 <= root < |nodes| && nodes[root].parent == -1
    requires DescentOk(nodes, root, rule, breakers, de, r, Reached(leaf), base, at)
    ensures GamesKept(nodes, r) && SameShapes(base, r) && Linked(r) && r[root].parent == -1
  {
    BumpedPaths(base, r, leaf, de);
    forall k | 0 <= k < |nodes| ensures base[k].game == nodes[k].game && base[k].parent == nodes[k].parent {
    }
  }

  /** Marking the blocked node keeps the search state, and closes one more node when it was open. */
  lemma StuckKeeps(nodes: seq<Node>, root: int, searched: seq<int>, evalIndex: int, buf: seq<real>, x: int)
    requires SearchOk(nodes, root, searched, evalIndex, buf) && 0 <= x < |nodes|
    requires TreeOk(nodes[x := nodes[x].(allVisited := true)])
    ensures SearchOk(nodes[x := nodes[x].(allVisited := true)], root, searched, evalIndex, buf)
    ensures !nodes[x].allVisited ==> OpenCount(nodes[x := nodes[x].(allVisited := true)]) < OpenCount(nodes)
  {
    var n2 := nodes[x := nodes[x].(allVisited := true)];
    assert SameShapes(nodes, n2);
    LinkedShapes(nodes, n2);
    QueuedKept(nodes, n2, searched, evalIndex, buf);
    assert NodeOk(n2, x);
    if root >= 0 {
      assert NodeOk(n2, root);
    }
    if !nodes[x].allVisited {
      OpenCountMark(nodes, x);
    }
  }

  /** The settled arena keeps the search state. */
  lemma SettledKeeps(nodes: seq<Node>, root: int, searched: seq<int>, evalIndex: int, buf: seq<real>, rule: Rule,
                     breakers: seq<seq<bool>>, de: real, r: seq<Node>, leaf: int, base: seq<Node>, at: int, t: seq<Node>)
    requires SearchOk(nodes, root, searched, evalIndex, buf) && 0 <= root
    requires DescentOk(nodes, root, rule, breakers, de, r, Reached(leaf), base, at)
    requires TreeOk(t) && Linked(t) && SameShapes(r, t)
    ensures SearchOk(t, root, searched, evalIndex, buf)
  {
    ReachedKeeps(nodes, root, rule, breakers, de, r, leaf, base, at);
    assert GamesKept(nodes, t);
    QueuedKept(nodes, t, searched, evalIndex, buf);
    assert NodeOk(t, root);
  }

  /** The queued leaf, its counters set to `m`, keeps the search state with one more slot filled. */
  lemma AskedKeeps(nodes: seq<Node>, root: int, searched: seq<int>, evalIndex: int, buf: seq<real>, rule: Rule,
                   breakers: seq<seq<bool>>, de: real, r: seq<Node>, leaf: int, base: seq<Node>, at: int, m: Node)
    requires SearchOk(nodes, root, searched, evalIndex, buf) && 0 <= root
    requires DescentOk(nodes, root, rule, breakers, de, r, Reached(leaf), base, at)
    requires (evalIndex + 1) * GR.GameStateSize <= |buf| && SameShape(r[leaf], m)
    ensures var n2 := r[leaf := m];
      GR.Shaped(n2[leaf].game) &&
      SearchOk(n2, root, searched + [leaf], evalIndex + 1, WriteSlot(buf, evalIndex, GR.StateVector(n2[leaf].game)))
  {
    ReachedKeeps(nodes, root, rule, breakers, de, r, leaf, base, at);
    var n2 := r[leaf := m];
    UpdateKeepsTree(r, leaf, n2[leaf]);
    assert SameShapes(r, n2);
    LinkedShapes(r, n2);
    assert GamesKept(nodes, n2);
    QueuedKept(nodes, n2, searched, evalIndex, buf);
    assert NodeOk(n2, leaf);
    QueuePush(n2, searched, evalIndex, buf, leaf);
    assert NodeOk(n2, root);
  }

  /**
   * One pass of the loop of `search` from the root, on the arena and the
   * request buffer: the descent, then the undo, the terminal walk or the
   * request for an evaluation.  It keeps the search state, and a pass
   * blocked below the root closes one more node.
   */
  method SearchPass(nodes: seq<Node>, root: int, searched: seq<int>, evalIndex: int, buf: array<real>,
                    breakers: seq<seq<bool>>, prior: (Node, int) -> real, explore: (Node, seq<Node>, int) -> real)
    returns (n2: seq<Node>, searched2: seq<int>, evalIndex2: int, p: Pass, ghost base: seq<Node>, ghost r: seq<Node>,
             ghost at: int)
    requires SearchOk(nodes, root, searched, evalIndex, buf[..]) && 0 <= root
    requires GR.BreakersShape(breakers) && (evalIndex + 1) * GR.GameStateSize <= buf.Length
    modifies buf
    ensures Passed(nodes, root, searched, evalIndex, old(buf[..]), breakers, p, n2, searched2, evalIndex2, buf[..],
                   base, r, at)
    ensures SearchOk(n2, root, searched2, evalIndex2, buf[..]) && evalIndex2 <= evalIndex + 1
    ensures |searched2| - |searched| == evalIndex2 - evalIndex
    ensures p.Exhausted? ==> 0 <= p.at < |n2| && n2[p.at].allVisited
    ensures p.Exhausted? ==> (p.at != root ==> OpenCount(n2) < OpenCount(nodes))
  {
    searched2, evalIndex2 := searched, evalIndex;
    var r0, d;
    r0, d, base, at := Descend(nodes, root, Current, breakers, prior, explore, 1.0);
    r := r0;
    match d
    case Blocked(x) =>
      StuckKeeps(nodes, root, searched, evalIndex, buf[..], x);
      n2 := r0;
      p := Exhausted(x);
    case Reached(leaf) =>
      n2, searched2, evalIndex2, p := LeafPass(nodes, root, searched, evalIndex, buf, breakers, r0, leaf, base, at);
  }

  /**
   * The rest of a pass whose descent reached `leaf`: settle a loss or draw
   * by the terminal walk, otherwise score it 1 and queue it.
   */
  method LeafPass(nodes: seq<Node>, root: int, searched: seq<int>, evalIndex: int, buf: array<real>,
                  breakers: seq<seq<bool>>, r0: seq<Node>, leaf: int, ghost base: seq<Node>, ghost at: int)
    returns (n2: seq<Node>, searched2: seq<int>, evalIndex2: int, p: Pass)
    requires SearchOk(nodes, root, searched, evalIndex, buf[..]) && 0 <= root
    requires GR.BreakersShape(breakers) && (evalIndex + 1) * GR.GameStateSize <= buf.Length
    requires DescentOk(nodes, root, Current, breakers, 1.0, r0, Reached(leaf), base, at)
    modifies buf
    ensures !p.Exhausted?
    ensures Passed(nodes, root, searched, evalIndex, old(buf[..]), breakers, p, n2, searched2, evalIndex2, buf[..],
                   base, r0, at)
    ensures SearchOk(n2, root, searched2, evalIndex2, buf[..]) && evalIndex2 <= evalIndex + 1
    ensures |searched2| - |searched| == evalIndex2 - evalIndex
  {
    searched2, evalIndex2 := searched, evalIndex;
    if r0[leaf].result == Loss || r0[leaf].result == Draw {
      n2 := SettleLeaf(r0, root, leaf, base);
      SettledKeeps(nodes, root, searched, evalIndex, buf[..], Current, breakers, 1.0, r0, leaf, base, at, n2);
      p := Settled(leaf);
    } else {
      n2 := r0[leaf := r0[leaf].(evaluation := 1.0)];
      AskedKeeps(nodes, root, searched, evalIndex, buf[..], Current, breakers, 1.0, r0, leaf, base, at, n2[leaf]);
      WriteState(buf, evalIndex, n2[leaf].game);
      searched2, evalIndex2 := searched + [leaf], evalIndex + 1;
      p := Asked(leaf);
    }
  }

  /** A terminal pass credits the leaf's value along its path: the counters of the corrected terminal walk. */
  lemma SettledCredits(base: seq<Node>, r: seq<Node>, t: seq<Node>, root: int, leaf: int)
    requires SettledBy(base, r, t, root, leaf)
    ensures forall k | 0 <= k < |base| && k !in Path(base, leaf) :: t[k] == base[k]
    ensures forall k | 0 <= k < |base| && k in Path(base, leaf) && k != leaf ::
      t[k].evaluation == base[k].evaluation + Alt(LeafValue(base[leaf]), base[leaf].depth - base[k].depth)
    ensures t[leaf] == base[leaf].(visits := base[leaf].visits + 1, evaluation := LeafValue(base[leaf]))
  {
    TerminalCreditCredits(base, r, leaf);
    var c := TerminalCredit(r, leaf);
    assert t[leaf] == c[leaf].(result := t[leaf].result);
    SettledLeaf(base, r, t, root, leaf);
    assert c[leaf].result == base[leaf].result;
    forall k | 0 <= k < |base| && k !in Path(base, leaf) ensures t[k] == base[k] {
      SettledOffPath(base, r, t, root, leaf, k);
    }
    forall k | 0 <= k < |base| && k in Path(base, leaf) && k != leaf
      ensures t[k].evaluation == c[k].evaluation
    {
      assert t[k] == c[k].(result := t[k].result);
    }
  }

  /** The leaf of a terminal pass keeps its result: only its ancestors are deduced. */
  lemma SettledLeaf(base: seq<Node>, r: seq<Node>, t: seq<Node>, root: int, leaf: int)
    requires SettledBy(base, r, t, root, leaf)
    ensures t[leaf].result == base[leaf].result
  {
    var top :| top in Path(base, leaf) && root in Path(base, top) &&
      (forall k | 0 <= k < |r| && t[k].result != r[k].result :: k in Path(base, leaf) && top <= k < leaf) &&
      (forall k | k in Path(base, leaf) && top < k :: Deduced(t, k));
    assert r[leaf] == base[leaf];
  }

  /** A node off the leaf's path is untouched by a terminal pass. */
  lemma SettledOffPath(base: seq<Node>, r: seq<Node>, t: seq<Node>, root: int, leaf: int, k: int)
    requires SettledBy(base, r, t, root, leaf) && 0 <= k < |base| && k !in Path(base, leaf)
    ensures t[k] == base[k]
  {
    SettledResultsOnPath(base, r, t, root, leaf);
    TerminalCreditCredits(base, r, leaf);
    assert t[k] == TerminalCredit(r, leaf)[k].(result := t[k].result);
    assert r[k] == base[k];
  }

  /** A terminal pass changes results only on the leaf's path. */
  lemma SettledResultsOnPath(base: seq<Node>, r: seq<Node>, t: seq<Node>, root: int, leaf: int)
    requires SettledBy(base, r, t, root, leaf)
    ensures forall k | 0 <= k < |r| && t[k].result != r[k].result :: k in Path(base, leaf)
  {
    var top :| top in Path(base, leaf) && root in Path(base, top) &&
      (forall k | 0 <= k < |r| && t[k].result != r[k].result :: k in Path(base, leaf) && top <= k < leaf) &&
      (forall k | k in Path(base, leaf) && top < k :: Deduced(t, k));
  }

  // ---------------------------------------------------------------------
  // The choice of a move

  /** The move of the chosen child; 0, the initial `move_choice`, when no child was chosen. */
  function MoveOf(kids: seq<Node>, pick: int): int
    requires -1 <= pick < |kids|
  {
    if pick >= 0 then kids[pick].childId else 0
  }

  /**
   * The branches of `choose_move` at a root `n` with children `kids`, the
   * sample going from `s0` to `s1`: at an undecided root in the opening the
   * draw decides, by visit counts, and the sample holds every eligible
   * child's share; otherwise the choice by the root's result, and the sample
   * gets 1 at the chosen move.
   */
  ghost predicate Chosen(n: Node, kids: seq<Node>, opening: bool, draw: nat, pick: int, s0: seq<real>, s1: seq<real>)
  {
    -1 <= pick < |kids| && |s0| == MC.NumMoves && IdsInRange(kids) &&
    if opening && !Decided(n) then OpeningChoice(kids, draw, pick) && s1 == OpeningSample(kids)
    else ResultChoice(n, kids, pick) && s1 == s0[MoveOf(kids, pick) := 1.0]
  }

  /** The branch of `choose_move` for the root `n`, on its children and the sample. */
  method ChoosePick(n: Node, kids: seq<Node>, opening: bool, draw: nat, sample: array<real>) returns (pick: int)
    requires IdsInRange(kids) && sample.Length == MC.NumMoves
    requires opening && !Decided(n) ==> OpenVisits(kids, |kids|) > 0 && sample[..] == Zeros()
    modifies sample
    ensures Chosen(n, kids, opening, draw, pick, old(sample[..]), sample[..])
  {
    if opening && !Decided(n) {
      pick := OpeningPick(kids, draw, sample);
      return;
    }
    pick := ResultPick(n, kids);
    sample[MoveOf(kids, pick)] := 1.0;
  }

  /** The `memset` of the sample: every probability 0. */
  method ClearSample(sample: array<real>)
    requires sample.Length == MC.NumMoves
    modifies sample
    ensures sample[..] == Zeros()
  {
    var j := 0;
    while j < sample.Length
      invariant 0 <= j <= sample.Length
      invariant forall i | 0 <= i < j :: sample[i] == 0.0
    {
      sample[j] := 0.0;
      j := j + 1;
    }
  }

  // ---------------------------------------------------------------------
  // The class

  class TrainMC {
    /** The arena of nodes; `root` indexes the current root, -1 before the first iteration. */
    var nodes: seq<Node>
    var root: int
    /** The nodes sent for evaluation, the last `evalIndex` of them in the buffer's first slots. */
    var searched: seq<int>
    var evalIndex: int
    var iterationsDone: int
    /** The request buffer, `searchesPerEval` slots of `kGameStateSize` entries. */
    const toEval: array<real>
    const maxIterations: int
    const searchesPerEval: int
    const testing: bool
    /** `NUM_OPENING_MOVES`: below this depth a training game draws its move by visit counts. */
    const openingMoves: int
    const breakers: seq<seq<bool>>
    const prior: (Node, int) -> real
    const explore: (Node, seq<Node>, int) -> real

    ghost predicate Valid()
      reads this, toEval
    {
      GR.BreakersShape(breakers) && 1 <= maxIterations && 1 <= searchesPerEval &&
      toEval.Length == searchesPerEval * GR.GameStateSize &&
      SearchOk(nodes, root, searched, evalIndex, toEval[..]) &&
      evalIndex <= searchesPerEval && 0 <= iterationsDone <= maxIterations
    }

    /** A valid search with a root. */
    ghost predicate Rooted()
      reads this, toEval
    {
      Valid() && root >= 0
    }

    /** The branch of `choose_move` that draws the move by visit counts. */
    predicate Opening(n: Node)
    {
      !Decided(n) && n.depth < openingMoves && !testing
    }

    /** The constructors: no root, nothing queued, no iteration done. */
    constructor (toEval: array<real>, maxIterations: int, searchesPerEval: int, testing: bool, openingMoves: int,
                 breakers: seq<seq<bool>>, prior: (Node, int) -> real, explore: (Node, seq<Node>, int) -> real)
      requires GR.BreakersShape(breakers) && 1 <= maxIterations && 1 <= searchesPerEval
      requires toEval.Length == searchesPerEval * GR.GameStateSize
      ensures Valid() && root == -1 && nodes == [] && searched == [] && evalIndex == 0 && iterationsDone == 0
      ensures this.toEval == toEval && this.maxIterations == maxIterations && this.searchesPerEval == searchesPerEval
      ensures this.testing == testing && this.openingMoves == openingMoves && this.breakers == breakers
    {
      this.toEval := toEval;
      this.maxIterations := maxIterations;
      this.searchesPerEval := searchesPerEval;
      this.testing := testing;
      this.openingMoves := openingMoves;
      this.breakers := breakers;
      this.prior := prior;
      this.explore := explore;
      nodes := [];
      root := -1;
      searched := [];
      evalIndex := 0;
      iterationsDone := 0;
    }

    /**
     * A new root for `game` at `depth`, queued for evaluation in slot 0 as
     * the first iteration of the turn.  The previous tree, if any, stays in
     * the arena unreachable.
     */
    method Plant(game: GR.GameState, depth: int)
      requires Valid() && GR.Shaped(game)
      modifies this, toEval
      ensures Rooted() && root == |old(nodes)| && nodes == old(nodes) + [Fresh(game, -1, 0, depth, breakers)]
      ensures iterationsDone == 1 && evalIndex == 1 && searched == old(searched) + [root]
      ensures toEval[..] == WriteSlot(old(toEval[..]), 0, GR.StateVector(game))
    {
      var n := Create(game, -1, 0, depth, breakers);
      assert n.parent == -1 && n.children == [] && GR.Shaped(n.game) && EdgesOk(n);
      PlantOk(nodes, root, searched, evalIndex, toEval[..], n);
      WriteState(toEval, 0, game);
      root := |nodes|;
      nodes := nodes + [n];
      iterationsDone := 1;
      searched := searched + [root];
      evalIndex := 1;
    }

    /** `do_first_iteration()`: the starting position as the root. */
    method DoFirstIteration()
      requires Valid()
      modifies this, toEval
      ensures Rooted() && root == |old(nodes)| && nodes == old(nodes) + [DefaultNode(breakers)]
      ensures iterationsDone == 1 && evalIndex == 1 && searched == old(searched) + [root]
      ensures toEval[..] == WriteSlot(old(toEval[..]), 0, GR.StateVector(GR.Start()))
    {
      Plant(GR.Start(), 0);
    }

    /** `do_first_iteration(game, depth)`: a given position as the root. */
    method DoFirstIterationAt(game: GR.GameState, depth: int)
      requires Valid() && GR.Shaped(game)
      modifies this, toEval
      ensures Rooted() && root == |old(nodes)| && nodes == old(nodes) + [Fresh(game, -1, 0, depth, breakers)]
      ensures iterationsDone == 1 && evalIndex == 1 && searched == old(searched) + [root]
      ensures toEval[..] == WriteSlot(old(toEval[..]), 0, GR.StateVector(game))
    {
      Plant(game, depth);
    }

    /**
     * `move_down`: the child at position `pos` of the root's list is
     * unlinked and becomes the root; the old root and the rest of its tree
     * are discarded, and the turn starts with no iteration done.
     */
    method MoveDown(pos: int)
      requires Rooted() && 0 <= pos < |nodes[root].children|
      modifies this
      ensures Rooted() && root == old(nodes[root].children[pos]) && nodes == Detach(old(nodes), old(root), pos)
      ensures iterationsDone == 0 && searched == old(searched) && evalIndex == old(evalIndex)
    {
      DetachKeepsTree(nodes, root, pos);
      var d := Detach(nodes, root, pos);
      TreeLinked(d);
      assert NodeOk(d, nodes[root].children[pos]);
      QueuedKept(nodes, d, searched, evalIndex, toEval[..]);
      root := nodes[root].children[pos];
      nodes := d;
      iterationsDone := 0;
    }

    /**
     * `receiveOpponentMove`: with a child for the opponent's move, re-root
     * there and ask for nothing; otherwise plant the given position at
     * `depth` as a new root queued for evaluation, and ask for it.
     */
    method ReceiveOpponentMove(moveChoice: int, game: GR.GameState, depth: int) returns (needEval: bool)
      requires Rooted() && GR.Shaped(game)
      modifies this, toEval
      ensures Rooted()
      ensures needEval <==> moveChoice !in KidIds(Kids(old(nodes), old(root)))
      ensures !needEval ==> exists pos | 0 <= pos < |old(nodes)[old(root)].children| ::
        KidIds(Kids(old(nodes), old(root)))[pos] == moveChoice && root == old(nodes)[old(root)].children[pos] &&
        nodes == Detach(old(nodes), old(root), pos) && iterationsDone == 0 &&
        searched == old(searched) && evalIndex == old(evalIndex) && toEval[..] == old(toEval[..])
      ensures needEval ==> (root == |old(nodes)| && nodes == old(nodes) + [Fresh(game, -1, 0, depth, breakers)] &&
        iterationsDone == 1 && evalIndex == 1 && searched == old(searched) + [root] &&
        toEval[..] == WriteSlot(old(toEval[..]), 0, GR.StateVector(game)))
    {
      KidsInRange(nodes, root);
      var kids := Kids(nodes, root);
      var pos := FindChild(kids, moveChoice);
      if pos >= 0 {
        assert KidIds(kids)[pos] == moveChoice;
        MoveDown(pos);
        return false;
      }
      Plant(game, depth);
      return true;
    }

    /**
     * One pass of the loop of `search`: `iterations_done` counts the pass
     * unless the descent found nothing selectable.
     */
    method Iterate() returns (p: Pass, ghost base: seq<Node>, ghost r: seq<Node>, ghost at: int)
      requires Rooted() && iterationsDone < maxIterations && evalIndex < searchesPerEval
      modifies this, toEval
      ensures Rooted() && root == old(root)
      ensures Passed(old(nodes), root, old(searched), old(evalIndex), old(toEval[..]), breakers, p,
                     nodes, searched, evalIndex, toEval[..], base, r, at)
      ensures iterationsDone == if p.Exhausted? then old(iterationsDone) else old(iterationsDone) + 1
      ensures p.Exhausted? ==> 0 <= p.at < |nodes| && nodes[p.at].allVisited
      ensures p.Exhausted? ==> (p.at != root ==> OpenCount(nodes) < OpenCount(old(nodes)))
    {
      var n2, s2, e2;
      n2, s2, e2, p, base, r, at := SearchPass(nodes, root, searched, evalIndex, toEval, breakers, prior, explore);
      Adopt(n2, s2, e2, if p.Exhausted? then iterationsDone else iterationsDone + 1);
    }

    /** Takes over the arena, queue and counters a pass left behind. */
    method Adopt(n2: seq<Node>, s2: seq<int>, e2: int, iter: int)
      requires GR.BreakersShape(breakers) && 1 <= maxIterations && 1 <= searchesPerEval
      requires toEval.Length == searchesPerEval * GR.GameStateSize && 0 <= root
      requires SearchOk(n2, root, s2, e2, toEval[..]) && e2 <= searchesPerEval && 0 <= iter <= maxIterations
      modifies this
      ensures Rooted() && nodes == n2 && searched == s2 && evalIndex == e2 && iterationsDone == iter
      ensures root == old(root)
    {
      nodes, searched, evalIndex, iterationsDone := n2, s2, e2, iter;
    }

    /**
     * `search`: passes until one queues a leaf, the iterations run out or
     * the root's result is known.  A pass that finds nothing selectable ends
     * it at once, with true exactly when that was the root; otherwise the
     * result says whether the iterations ran out or the root is known.  A
     * false result means progress: more iterations, or one more node closed.
     */
    method Search() returns (done: bool, ghost stuckAt: int)
      requires Rooted() && evalIndex < searchesPerEval
      modifies this, toEval
      ensures Rooted() && root == old(root) && old(iterationsDone) <= iterationsDone
      ensures evalIndex <= old(evalIndex) + 1
      ensures stuckAt >= 0 ==> stuckAt < |nodes| && nodes[stuckAt].allVisited && (done <==> stuckAt == root)
      ensures stuckAt < 0 ==> (done <==> iterationsDone == maxIterations || Known(nodes[root]))
      ensures !done ==> old(iterationsDone) < iterationsDone || OpenCount(nodes) < OpenCount(old(nodes))
    {
      var needEval := false;
      stuckAt := -1;
      while !needEval && iterationsDone < maxIterations && nodes[root].result == NoResult
        invariant Rooted() && root == old(root) && old(iterationsDone) <= iterationsDone
        invariant needEval ==> old(iterationsDone) < iterationsDone && evalIndex == old(evalIndex) + 1
        invariant !needEval ==> evalIndex == old(evalIndex)
        invariant iterationsDone == old(iterationsDone) ==> nodes == old(nodes)
        decreases maxIterations - iterationsDone
      {
        var p, base, r, at := Iterate();
        match p
        case Exhausted(x) =>
          return x == root, x;
        case Settled(_) =>
        case Asked(_) =>
          needEval := true;
      }
      return iterationsDone == maxIterations || Known(nodes[root]), -1;
    }

    /**
     * `do_iteration`: take the network's answer, then search while the
     * buffer has room and the root is unknown, until a search says it is
     * done.  The result is whether the turn is over: the iterations ran out
     * or the root's result is known.  A turn not over has a full buffer or
     * an exhausted root.
     */
    method DoIteration(evals: seq<real>, rounded: seq<seq<int>>) returns (done: bool)
      requires Rooted() && Answer(nodes, searched, evals, rounded)
      modifies this, toEval
      ensures Rooted() && root == old(root)
      ensures done <==> iterationsDone == maxIterations || Known(nodes[root])
      ensures !done ==> evalIndex == searchesPerEval || nodes[root].allVisited
    {
      ReceiveEvaluation(evals, rounded);
      while evalIndex < searchesPerEval && nodes[root].result == NoResult
        invariant Rooted() && root == old(root)
        decreases maxIterations - iterationsDone, OpenCount(nodes)
      {
        var searchDone, stuckAt := Search();
        if searchDone {
          break;
        }
      }
      return iterationsDone == maxIterations || Known(nodes[root]);
    }

    /**
     * `choose_move`: outside testing, the root's state goes to `gameState`
     * and the sample is cleared; the branch for the root picks a child (the
     * first one when none qualifies) and the tree moves down to it.  The
     * result is the chosen move, 0 when none was chosen.
     */
    method ChooseMove(draw: nat, gameState: array<real>, sample: array<real>) returns (move: int, ghost pick: int)
      requires Rooted() && |nodes[root].children| > 0
      requires gameState.Length == GR.GameStateSize && sample.Length == MC.NumMoves
      requires gameState != toEval && sample != toEval && gameState != sample
      requires Opening(nodes[root]) ==> OpenVisits(Kids(nodes, root), |nodes[root].children|) > 0
      modifies this, gameState, sample
      ensures Rooted()
      ensures !testing ==> GR.Shaped(old(nodes[root].game)) && gameState[..] == GR.StateVector(old(nodes[root].game))
      ensures testing ==> gameState[..] == old(gameState[..])
      ensures Chosen(old(nodes[root]), Kids(old(nodes), old(root)), Opening(old(nodes[root])), draw, pick,
                     if testing then old(sample[..]) else Zeros(), sample[..])
      ensures move == MoveOf(Kids(old(nodes), old(root)), pick)
      ensures var pos := if pick >= 0 then pick else 0;
        root == old(nodes[root].children[pos]) && nodes == Detach(old(nodes), old(root), pos)
      ensures iterationsDone == 0 && searched == old(searched) && evalIndex == old(evalIndex)
    {
      KidsInRange(nodes, root);
      var kids := Kids(nodes, root);
      if !testing {
        assert NodeOk(nodes, root);
        WriteState(gameState, 0, nodes[root].game);
        assert gameState[..] == GR.StateVector(nodes[root].game);
        ClearSample(sample);
      }
      var chosen := ChoosePick(nodes[root], kids, Opening(nodes[root]), draw, sample);
      pick := chosen;
      move := MoveOf(kids, chosen);
      MoveDown(if chosen >= 0 then chosen else 0);
    }

    /**
     * `receive_evaluation`: for each entry of `searched` in order, its
     * edges get their integer priors and its value is backed up to the root
     * with -1 taken off each node for the descent's provisional +1, clearing
     * all_visited below the root; then the root is opened too and the queue
     * emptied.
     */
    method ReceiveEvaluation(evals: seq<real>, rounded: seq<seq<int>>)
      requires Rooted() && Answer(nodes, searched, evals, rounded)
      modifies this
      ensures Rooted() && root == old(root) && iterationsDone == old(iterationsDone)
      ensures nodes == Answered(old(nodes), old(searched), evals, rounded, -1.0, root)
      ensures searched == [] && evalIndex == 0
    {
      var r := AnswerQueue(nodes, searched, evals, rounded, -1.0, root, toEval[..]);
      nodes := r;
      searched := [];
      evalIndex := 0;
    }
  }
}
