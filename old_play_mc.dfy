/**
 * The play-time search of the first generation (`PlayMC`, cpp/playmc.cpp).
 * Its tree is the same arena, but its descent works by the older rules:
 * it stops only at a plain loss, draw or win, skips any all_visited child,
 * takes 1 off every node it passes, and takes 1 off a leaf it creates;
 * its search runs on while the root's result is deduced; its move in the
 * first nine plies is drawn by visit counts; and its answer from the
 * network is backed up with +1 at every node to undo the descent's -1.
 */
module OldPlaySearch {
  import opened Common
  import MC = MoveCodec
  import GR = GameRules
  import opened SearchTree
  import opened TreeOps
  import opened SearchWalks
  import opened SearchBuffer
  import opened MoveChoice
  import opened TrainSearch
  import opened PlaySearch

  /** Below this depth `choose_move` draws its move by visit counts. */
  const RandomPlies := 9

  /**
   * The arena after the descent has taken 1 off the leaf it just created
   * (cpp/playmc.cpp charges a new child at once); an existing leaf is not
   * charged.
   */
  function Charged(r: seq<Node>, leaf: int, isNew: bool): (c: seq<Node>)
    requires Linked(r) && 0 <= leaf < |r|
    ensures SameShapes(r, c) && Linked(c)
    ensures forall k | 0 <= k < |r| && k != leaf :: c[k] == r[k]
    ensures c[leaf].visits == r[leaf].visits && c[leaf].result == r[leaf].result
  {
    var c := if isNew then r[leaf := r[leaf].(evaluation := r[leaf].evaluation - 1.0)] else r;
    assert SameShapes(r, c);
    LinkedShapes(r, c);
    c
  }

  /**
   * The terminal walk of cpp/playmc.cpp, on the arena: count the leaf's
   * visit, take 1 off it and reopen it, then back its value up with +1 at
   * every node, a draw included.
   */
  method SettleOld(r: seq<Node>, leaf: int) returns (t: seq<Node>)
    requires TreeOk(r) && Linked(r) && 0 <= leaf < |r|
    ensures t == OldTerminalCredit(r, leaf) && TreeOk(t) && Linked(t) && SameShapes(r, t)
  {
    var r1 := r[leaf := r[leaf].(visits := r[leaf].visits + 1, evaluation := r[leaf].evaluation - 1.0, allVisited := false)];
    assert SameShapes(r, r1);
    LinkedShapes(r, r1);
    t := Backup(r1, leaf, LeafValue(r[leaf]), 1.0, false);
    assert SameShapes(r, t) by {
      forall k | 0 <= k < |r| ensures SameShape(r[k], t[k]) {
        assert SameShape(r[k], r1[k]) && SameShape(r1[k], t[k]);
      }
    }
    SameShapesKeepTree(r, t);
    LinkedShapes(r, t);
  }

  /**
   * How one pass of the loop of the first-generation `search` takes the
   * arena `nodes` and the queue to `n2` and (`searched2`, `evalIndex2`,
   * `buf2`): the descent from the root (a visit and -1 at each node it
   * passes) found nothing selectable; or reached a leaf that is a plain
   * loss, draw or win, which was then settled by the terminal walk; or
   * created a leaf, charged -1 and queued in the next slot.
   */
  ghost predicate OldPassed(nodes: seq<Node>, root: int, searched: seq<int>, evalIndex: int, buf: seq<real>,
                            breakers: seq<seq<bool>>, p: Pass, n2: seq<Node>, searched2: seq<int>, evalIndex2: int,
                            buf2: seq<real>, base: seq<Node>, r: seq<Node>, at: int)
  {
    match p
    case Exhausted(x) =>
      DescentOk(nodes, root, First, breakers, -1.0, n2, Blocked(x), nodes, 0) &&
      searched2 == searched && evalIndex2 == evalIndex && buf2 == buf
    case Settled(leaf) =>
      0 <= leaf < |base| && |r| == |base| && Linked(r) &&
      DescentOk(nodes, root, First, breakers, -1.0, r, Reached(leaf), base, at) && OldTerminal(base[leaf]) &&
      n2 == OldTerminalCredit(Charged(r, leaf, leaf == |nodes|), leaf) &&
      searched2 == searched && evalIndex2 == evalIndex && buf2 == buf
    case Asked(leaf) =>
      leaf == |nodes| && |r| == |base| == |nodes| + 1 && GR.Shaped(r[leaf].game) && Linked(r) &&
      0 <= evalIndex && (evalIndex + 1) * GR.GameStateSize <= |buf| &&
      DescentOk(nodes, root, First, breakers, -1.0, r, Reached(leaf), base, at) && !OldTerminal(base[leaf]) &&
      n2 == Charged(r, leaf, true) &&
      searched2 == searched + [leaf] && evalIndex2 == evalIndex + 1 &&
      buf2 == WriteSlot(buf, evalIndex, GR.StateVector(r[leaf].game))
  }

  /**
   * One pass of the loop of the first-generation `search`, on the arena and
   * the request buffer.  It keeps the search state, and a pass blocked below
   * the root closes one more node.
   */
  method OldSearchPass(nodes: seq<Node>, root: int, searched: seq<int>, evalIndex: int, buf: array<real>,
                       breakers: seq<seq<bool>>, prior: (Node, int) -> real, explore: (Node, seq<Node>, int) -> real)
    returns (n2: seq<Node>, searched2: seq<int>, evalIndex2: int, p: Pass, ghost base: seq<Node>, ghost r: seq<Node>,
             ghost at: int)
    requires SearchOk(nodes, root, searched, evalIndex, buf[..]) && 0 <= root
    requires GR.BreakersShape(breakers) && (evalIndex + 1) * GR.GameStateSize <= buf.Length
    modifies buf
    ensures OldPassed(nodes, root, searched, evalIndex, old(buf[..]), breakers, p, n2, searched2, evalIndex2, buf[..],
                      base, r, at)
    ensures SearchOk(n2, root, searched2, evalIndex2, buf[..]) && evalIndex2 <= evalIndex + 1
    ensures |searched2| - |searched| == evalIndex2 - evalIndex
    ensures p.Exhausted? ==> 0 <= p.at < |n2| && n2[p.at].allVisited
    ensures p.Exhausted? ==> (p.at != root ==> OpenCount(n2) < OpenCount(nodes))
  {
    searched2, evalIndex2 := searched, evalIndex;
    var r0, d;
    r0, d, base, at := Descend(nodes, root, First, breakers, prior, explore, -1.0);
    r := r0;
    match d
    case Blocked(x) =>
      StuckKeeps(nodes, root, searched, evalIndex, buf[..], x);
      n2 := r0;
      p := Exhausted(x);
    case Reached(leaf) =>
      n2, searched2, evalIndex2, p := OldLeafPass(nodes, root, searched, evalIndex, buf, breakers, r0, leaf, base, at);
  }

  /**
   * The rest of a pass whose descent reached `leaf`: settle it by the
   * terminal walk when it is a plain loss, win or draw, otherwise queue it.
   */
  method OldLeafPass(nodes: seq<Node>, root: int, searched: seq<int>, evalIndex: int, buf: array<real>,
                     breakers: seq<seq<bool>>, r0: seq<Node>, leaf: int, ghost base: seq<Node>, ghost at: int)
    returns (n2: seq<Node>, searched2: seq<int>, evalIndex2: int, p: Pass)
    requires SearchOk(nodes, root, searched, evalIndex, buf[..]) && 0 <= root
    requires GR.BreakersShape(breakers) && (evalIndex + 1) * GR.GameStateSize <= buf.Length
    requires DescentOk(nodes, root, First, breakers, -1.0, r0, Reached(leaf), base, at)
    modifies buf
    ensures !p.Exhausted?
    ensures OldPassed(nodes, root, searched, evalIndex, old(buf[..]), breakers, p, n2, searched2, evalIndex2, buf[..],
                      base, r0, at)
    ensures SearchOk(n2, root, searched2, evalIndex2, buf[..]) && evalIndex2 <= evalIndex + 1
    ensures |searched2| - |searched| == evalIndex2 - evalIndex
  {
    searched2, evalIndex2 := searched, evalIndex;
    ReachedKeeps(nodes, root, First, breakers, -1.0, r0, leaf, base, at);
    var r1 := Charged(r0, leaf, leaf == |nodes|);
    SameShapesKeepTree(r0, r1);
    if r1[leaf].result == Loss || r1[leaf].result == Win || r1[leaf].result == Draw {
      n2 := SettleOld(r1, leaf);
      OldSettledPass(nodes, root, searched, evalIndex, buf[..], breakers, r0, leaf, base, at, n2);
      p := Settled(leaf);
    } else {
      OldAskedPass(nodes, root, searched, evalIndex, buf[..], breakers, r0, leaf, base, at);
      n2 := r1;
      WriteState(buf, evalIndex, n2[leaf].game);
      searched2, evalIndex2 := searched + [leaf], evalIndex + 1;
      p := Asked(leaf);
    }
  }

  /** A terminal leaf settled by the terminal walk: the pass is a settled one and keeps the search state. */
  lemma OldSettledPass(nodes: seq<Node>, root: int, searched: seq<int>, evalIndex: int, buf: seq<real>,
                       breakers: seq<seq<bool>>, r0: seq<Node>, leaf: int, base: seq<Node>, at: int, n2: seq<Node>)
    requires SearchOk(nodes, root, searched, evalIndex, buf) && 0 <= root
    requires DescentOk(nodes, root, First, breakers, -1.0, r0, Reached(leaf), base, at)
    requires Linked(r0) && 0 <= leaf < |r0| && OldTerminal(Charged(r0, leaf, leaf == |nodes|)[leaf])
    requires n2 == OldTerminalCredit(Charged(r0, leaf, leaf == |nodes|), leaf) && TreeOk(n2) && Linked(n2)
    requires SameShapes(Charged(r0, leaf, leaf == |nodes|), n2)
    ensures OldPassed(nodes, root, searched, evalIndex, buf, breakers, Settled(leaf), n2, searched, evalIndex, buf,
                      base, r0, at)
    ensures SearchOk(n2, root, searched, evalIndex, buf)
  {
    ReachedKeeps(nodes, root, First, breakers, -1.0, r0, leaf, base, at);
    var r1 := Charged(r0, leaf, leaf == |nodes|);
    SameShapesKeepTree(r0, r1);
    assert SameShapes(r0, n2) by {
      forall k | 0 <= k < |r0| ensures SameShape(r0[k], n2[k]) {
        assert SameShape(r0[k], r1[k]) && SameShape(r1[k], n2[k]);
      }
    }
    SettledKeeps(nodes, root, searched, evalIndex, buf, First, breakers, -1.0, r0, leaf, base, at, n2);
  }

  /** A leaf that is not terminal is queued: the pass asks for it and keeps the search state with its slot written. */
  lemma OldAskedPass(nodes: seq<Node>, root: int, searched: seq<int>, evalIndex: int, buf: seq<real>,
                     breakers: seq<seq<bool>>, r0: seq<Node>, leaf: int, base: seq<Node>, at: int)
    requires SearchOk(nodes, root, searched, evalIndex, buf) && 0 <= root
    requires (evalIndex + 1) * GR.GameStateSize <= |buf|
    requires DescentOk(nodes, root, First, breakers, -1.0, r0, Reached(leaf), base, at)
    requires Linked(r0) && 0 <= leaf < |r0| && !OldTerminal(Charged(r0, leaf, leaf == |nodes|)[leaf])
    ensures var r1 := Charged(r0, leaf, leaf == |nodes|);
      0 <= leaf < |r1| && GR.Shaped(r1[leaf].game) && 0 <= evalIndex &&
      OldPassed(nodes, root, searched, evalIndex, buf, breakers, Asked(leaf), r1, searched + [leaf], evalIndex + 1,
                WriteSlot(buf, evalIndex, GR.StateVector(r1[leaf].game)), base, r0, at) &&
      SearchOk(r1, root, searched + [leaf], evalIndex + 1, WriteSlot(buf, evalIndex, GR.StateVector(r1[leaf].game)))
  {
    ReachedKeeps(nodes, root, First, breakers, -1.0, r0, leaf, base, at);
    var r1 := Charged(r0, leaf, leaf == |nodes|);
    SameShapesKeepTree(r0, r1);
    assert r0[leaf] == base[leaf];
    AskedKeeps(nodes, root, searched, evalIndex, buf, First, breakers, -1.0, r0, leaf, base, at, r1[leaf]);
    assert r1 == r0[leaf := r1[leaf]];
  }

  /**
   * A terminal pass of the first generation credits the leaf's value along
   * its path from each ancestor's side, exactly undoing the descent's -1;
   * the leaf gets its visit, is reopened, and its evaluation moves by its
   * value, less the 1 charged when the descent had just created it.
   */
  lemma OldSettledCredits(base: seq<Node>, r: seq<Node>, leaf: int, isNew: bool)
    requires Bumped(base, r, leaf, -1.0)
    ensures Linked(r)
    ensures Credited(base, OldTerminalCredit(Charged(r, leaf, isNew), leaf), leaf, LeafValue(base[leaf]))
    ensures OldTerminalCredit(Charged(r, leaf, isNew), leaf)[leaf] ==
      base[leaf].(visits := base[leaf].visits + 1, allVisited := false,
                  evaluation := base[leaf].evaluation + LeafValue(base[leaf]) - (if isNew then 1.0 else 0.0))
  {
    BumpedPaths(base, r, leaf, -1.0);
    var cb := Charged(base, leaf, isNew);
    var cr := Charged(r, leaf, isNew);
    PathKept(base, cb, leaf);
    assert r[leaf] == base[leaf];
    assert Bumped(cb, cr, leaf, -1.0) by {
      forall k | 0 <= k < |cb|
        ensures cr[k] == if k in Path(cb, leaf) && k != leaf then Shift(cb[k], 1, -1.0) else cb[k]
      {
        if k != leaf {
          assert cr[k] == r[k] && cb[k] == base[k];
        }
      }
    }
    OldTerminalCreditCredits(cb, cr, leaf);
    var t := OldTerminalCredit(cr, leaf);
    forall k | 0 <= k < |base| && k !in Path(base, leaf) ensures t[k] == base[k] {
      assert t[k] == cb[k];
    }
    forall k | 0 <= k < |base| && k in Path(base, leaf) && k != leaf
      ensures t[k].evaluation == base[k].evaluation + Alt(LeafValue(base[leaf]), base[leaf].depth - base[k].depth)
    {
      assert cb[k] == base[k];
    }
    var v := LeafValue(cr[leaf]);
    var m := cr[leaf].(visits := cr[leaf].visits + 1, evaluation := cr[leaf].evaluation - 1.0, allVisited := false);
    LeafUpdate(cr, leaf, m, v, 1.0, false);
  }

  class OldPlayMC {
    /** The arena of nodes and the index of the current root. */
    var nodes: seq<Node>
    var root: int
    /** The nodes sent for evaluation, all of them in the buffer's first slots. */
    var searched: seq<int>
    var evalIndex: int
    var iterationsDone: int
    /** The request buffer, `searchesPerEval` slots of `GAME_STATE_SIZE` entries. */
    const toEval: array<real>
    const maxIterations: int
    const searchesPerEval: int
    const breakers: seq<seq<bool>>
    const prior: (Node, int) -> real
    const explore: (Node, seq<Node>, int) -> real

    ghost predicate Valid()
      reads this, toEval
    {
      GR.BreakersShape(breakers) && 0 <= maxIterations && 0 <= searchesPerEval &&
      toEval.Length == searchesPerEval * GR.GameStateSize &&
      SearchOk(nodes, root, searched, evalIndex, toEval[..]) && 0 <= root &&
      evalIndex == |searched| && evalIndex <= searchesPerEval && 0 <= iterationsDone <= maxIterations
    }

    /** The constructor: the starting position as an unvisited root, nothing queued. */
    constructor (toEval: array<real>, maxIterations: int, searchesPerEval: int, breakers: seq<seq<bool>>,
                 prior: (Node, int) -> real, explore: (Node, seq<Node>, int) -> real)
      requires GR.BreakersShape(breakers) && 0 <= maxIterations && 0 <= searchesPerEval
      requires toEval.Length == searchesPerEval * GR.GameStateSize
      ensures Valid() && nodes == [StartRoot(breakers)] && root == 0 && nodes[root].visits == 0
      ensures searched == [] && evalIndex == 0 && iterationsDone == 0
      ensures this.toEval == toEval && this.maxIterations == maxIterations && this.searchesPerEval == searchesPerEval
      ensures this.breakers == breakers
    {
      this.toEval := toEval;
      this.maxIterations := maxIterations;
      this.searchesPerEval := searchesPerEval;
      this.breakers := breakers;
      this.prior := prior;
      this.explore := explore;
      new;
      PlantRoot(StartRoot(breakers));
    }

    /** The arena holding only the lone root `n`, nothing queued and no iteration done. */
    method PlantRoot(n: Node)
      requires GR.BreakersShape(breakers) && 0 <= maxIterations && 0 <= searchesPerEval
      requires toEval.Length == searchesPerEval * GR.GameStateSize
      requires n.parent == -1 && n.children == [] && GR.Shaped(n.game) && EdgesOk(n)
      modifies this
      ensures Valid() && nodes == [n] && root == 0 && searched == [] && evalIndex == 0 && iterationsDone == 0
    {
      LoneRootOk(n, toEval[..]);
      nodes, root, searched, evalIndex, iterationsDone := [n], 0, [], 0, 0;
    }

    /**
     * `move_down`: the child at position `pos` of the root's list is
     * unlinked and becomes the root; the turn starts with no iteration done.
     */
    method MoveDown(pos: int)
      requires Valid() && 0 <= pos < |nodes[root].children|
      modifies this
      ensures Valid() && root == old(nodes[root].children[pos]) && nodes == Detach(old(nodes), old(root), pos)
      ensures iterationsDone == 0 && searched == old(searched) && evalIndex == old(evalIndex)
    {
      DetachKeepsTree(nodes, root, pos);
      var d := Detach(nodes, root, pos);
      TreeLinked(d);
      assert NodeOk(d, nodes[root].children[pos]);
      QueuedKept(nodes, d, searched, evalIndex, toEval[..]);
      root := nodes[root].children[pos];
      nodes := d;
      iterationsDone := 0;
    }

    /** One pass of the loop of `search`, counted unless the descent found nothing selectable. */
    method Iterate() returns (p: Pass, ghost base: seq<Node>, ghost r: seq<Node>, ghost at: int)
      requires Valid() && iterationsDone < maxIterations && evalIndex < searchesPerEval
      modifies this, toEval
      ensures Valid() && root == old(root)
      ensures OldPassed(old(nodes), root, old(searched), old(evalIndex), old(toEval[..]), breakers, p,
                        nodes, searched, evalIndex, toEval[..], base, r, at)
      ensures iterationsDone == if p.Exhausted? then old(iterationsDone) else old(iterationsDone) + 1
      ensures p.Exhausted? ==> 0 <= p.at < |nodes| && nodes[p.at].allVisited
      ensures p.Exhausted? ==> (p.at != root ==> OpenCount(nodes) < OpenCount(old(nodes)))
    {
      var n2, s2, e2;
      n2, s2, e2, p, base, r, at := OldSearchPass(nodes, root, searched, evalIndex, toEval, breakers, prior, explore);
      Adopt(n2, s2, e2, if p.Exhausted? then iterationsDone else iterationsDone + 1);
    }

    /** Takes over the arena, queue and counters a pass left behind. */
    method Adopt(n2: seq<Node>, s2: seq<int>, e2: int, iter: int)
      requires GR.BreakersShape(breakers) && 0 <= maxIterations && 0 <= searchesPerEval
      requires toEval.Length == searchesPerEval * GR.GameStateSize && 0 <= root
      requires SearchOk(n2, root, s2, e2, toEval[..]) && e2 == |s2| <= searchesPerEval && 0 <= iter <= maxIterations
      modifies this
      ensures Valid() && nodes == n2 && searched == s2 && evalIndex == e2 && iterationsDone == iter
      ensures root == old(root)
    {
      nodes, searched, evalIndex, iterationsDone := n2, s2, e2, iter;
    }

    /**
     * `search`.  At an unvisited root: count its visit, make it the only
     * queued node in slot 0, set the iterations to 1 and report done.
     * Otherwise passes until one queues a leaf or the iterations run out,
     * whatever the root's result; a pass that finds nothing selectable ends
     * it at once, with true exactly when that was the root, and otherwise
     * the result is whether the iterations ran out.  A false result means
     * progress: more iterations, or one more node closed.
     */
    method Search() returns (done: bool, ghost stuckAt: int)
      requires Valid() && evalIndex < searchesPerEval && iterationsDone < maxIterations
      modifies this, toEval
      ensures Valid() && root == old(root)
      ensures old(nodes[root].visits) == 0 ==> (GR.Shaped(old(nodes[root].game)) &&
        done && stuckAt < 0 && nodes == old(nodes)[root := old(nodes[root]).(visits := 1)] &&
        iterationsDone == 1 && searched == [root] && evalIndex == 1 &&
        toEval[..] == WriteSlot(old(toEval[..]), 0, GR.StateVector(old(nodes[root].game))))
      ensures old(nodes[root].visits) != 0 ==> old(iterationsDone) <= iterationsDone && evalIndex <= old(evalIndex) + 1
      ensures stuckAt >= 0 ==> stuckAt < |nodes| && nodes[stuckAt].allVisited && (done <==> stuckAt == root)
      ensures old(nodes[root].visits) != 0 && stuckAt < 0 ==> (done <==> iterationsDone == maxIterations)
      ensures !done ==> (old(iterationsDone) <= iterationsDone &&
        (old(iterationsDone) < iterationsDone || OpenCount(nodes) < OpenCount(old(nodes))))
    {
      stuckAt := -1;
      if nodes[root].visits == 0 {
        FirstSearchOk(nodes, root, searched, evalIndex, toEval[..]);
        WriteState(toEval, 0, nodes[root].game);
        nodes := nodes[root := nodes[root].(visits := 1)];
        iterationsDone := 1;
        searched := [root];
        evalIndex := 1;
        return true, -1;
      }
      var needEval := false;
      while !needEval && iterationsDone < maxIterations
        invariant Valid() && root == old(root) && old(iterationsDone) <= iterationsDone
        invariant needEval ==> old(iterationsDone) < iterationsDone && evalIndex == old(evalIndex) + 1
        invariant !needEval ==> evalIndex == old(evalIndex)
        invariant iterationsDone == old(iterationsDone) ==> nodes == old(nodes)
        decreases maxIterations - iterationsDone
      {
        var p, base, r, at := Iterate();
        match p
        case Exhausted(x) =>
          return x == root, x;
        case Settled(_) =>
        case Asked(_) =>
          needEval := true;
      }
      return iterationsDone == maxIterations, -1;
    }

    /**
     * `do_iteration`: take the network's answer, then search while the
     * buffer has room and iterations remain, until a search says it is
     * done.  The result is whether the iterations ran out.  A turn not over
     * has a full buffer, an exhausted root, or only the root queued by its
     * first search.
     */
    method DoIteration(evals: seq<real>, rounded: seq<seq<int>>) returns (done: bool)
      requires Valid() && Answer(nodes, searched, evals, rounded)
      modifies this, toEval
      ensures Valid() && root == old(root)
      ensures done <==> iterationsDone == maxIterations
      ensures !done ==> (evalIndex == searchesPerEval || nodes[root].allVisited ||
        (searched == [root] && iterationsDone == 1))
    {
      ReceiveEvaluation(evals, rounded);
      while evalIndex < searchesPerEval && iterationsDone < maxIterations
        invariant Valid() && root == old(root)
        decreases maxIterations - iterationsDone, OpenCount(nodes)
      {
        var searchDone, stuckAt := Search();
        if searchDone {
          break;
        }
      }
      return iterationsDone == maxIterations;
    }

    /**
     * `choose_move`: in the first nine plies the child is drawn by visit
     * counts, the first child whose running total of visits exceeds `draw`
     * modulo the root's visits less one; later, the most visited child,
     * ties broken by evaluation.  The tree moves down to it (to the first
     * child when none was chosen) and the queue is emptied.  The result is
     * the chosen move, 0 when none was chosen.
     */
    method ChooseMove(draw: nat) returns (move: int, ghost pick: int)
      requires Valid() && |nodes[root].children| > 0
      requires nodes[root].depth < RandomPlies ==> (nodes[root].visits > 1 &&
        exists k | 1 <= k <= |nodes[root].children| :: draw % (nodes[root].visits - 1) < KidVisits(Kids(nodes, root), k))
      modifies this
      ensures Valid()
      ensures old(nodes[root].depth) < RandomPlies ==>
        VisitsChoice(Kids(old(nodes), old(root)), draw % (old(nodes[root].visits) - 1), pick)
      ensures old(nodes[root].depth) >= RandomPlies ==> MostVisitedChoice(Kids(old(nodes), old(root)), false, ByEvaluation, pick)
      ensures -1 <= pick < |old(nodes[root].children)| && move == MoveOf(Kids(old(nodes), old(root)), pick)
      ensures var pos := if pick >= 0 then pick else 0;
        root == old(nodes[root].children[pos]) && nodes == Detach(old(nodes), old(root), pos)
      ensures iterationsDone == 0 && searched == [] && evalIndex == 0
    {
      var kids := Kids(nodes, root);
      var chosen;
      if nodes[root].depth < RandomPlies {
        chosen := VisitsScan(kids, draw % (nodes[root].visits - 1));
      } else {
        chosen := MostVisited(kids, false, ByEvaluation);
      }
      pick := chosen;
      move := MoveOf(kids, chosen);
      MoveDown(if chosen >= 0 then chosen else 0);
      QueueEmpty(nodes, [], toEval[..]);
      searched := [];
      evalIndex := 0;
    }

    /**
     * `receive_opp_move`: with a child for the opponent's move, re-root
     * there; otherwise the move is played on the root's position and a new
     * unvisited root one level deeper replaces the tree, keeping the
     * iteration count.
     */
    method ReceiveOppMove(move: int)
      requires Valid() && 0 <= move < MC.NumMoves
      modifies this
      ensures Valid()
      ensures move in KidIds(Kids(old(nodes), old(root))) ==> exists pos | 0 <= pos < |old(nodes)[old(root)].children| ::
        KidIds(Kids(old(nodes), old(root)))[pos] == move && root == old(nodes)[old(root)].children[pos] &&
        nodes == Detach(old(nodes), old(root), pos) && iterationsDone == 0
      ensures move !in KidIds(Kids(old(nodes), old(root))) ==>
        GR.Shaped(old(nodes[root].game)) && root == |old(nodes)| && nodes == Replanted(old(nodes), old(root), move, breakers) &&
        iterationsDone == old(iterationsDone)
      ensures searched == old(searched) && evalIndex == old(evalIndex)
    {
      var kids := Kids(nodes, root);
      var pos := FindChild(kids, move);
      if pos >= 0 {
        assert KidIds(kids)[pos] == move;
        assert move in KidIds(kids);
        MoveDown(pos);
        return;
      }
      Replant(move);
    }

    /** The new tree of `receive_opp_move`: the move played on the root's position, as an unvisited root one level deeper. */
    method Replant(move: int)
      requires Valid() && 0 <= move < MC.NumMoves
      modifies this
      ensures GR.Shaped(old(nodes[root].game))
      ensures Valid() && root == |old(nodes)| && nodes == Replanted(old(nodes), old(root), move, breakers)
      ensures iterationsDone == old(iterationsDone) && searched == old(searched) && evalIndex == old(evalIndex)
    {
      ReplantedOk(nodes, root, searched, evalIndex, toEval[..], move, breakers);
      nodes, root := Replanted(nodes, root, move, breakers), |nodes|;
    }

    /**
     * `receive_evaluation`: every queued node gets its priors and its value
     * backed up with +1 at each node, undoing the descent's -1 and clearing
     * all_visited below the root; then the root is opened too and the queue
     * emptied.
     */
    method ReceiveEvaluation(evals: seq<real>, rounded: seq<seq<int>>)
      requires Valid() && Answer(nodes, searched, evals, rounded)
      modifies this
      ensures Valid() && root == old(root) && iterationsDone == old(iterationsDone)
      ensures nodes == Answered(old(nodes), old(searched), evals, rounded, 1.0, root)
      ensures searched == [] && evalIndex == 0
    {
      var r := AnswerQueue(nodes, searched, evals, rounded, 1.0, root, toEval[..]);
      nodes := r;
      searched := [];
      evalIndex := 0;
    }

    /** `is_done`: the root's result is known, deduced or not. */
    function IsDone(): (b: bool)
      reads this
      requires 0 <= root < |nodes|
      ensures b <==> OldTerminal(nodes[root]) || Decided(nodes[root])
    {
      nodes[root].result != NoResult
    }

    /** `has_won`: the root is a plain win; the game is then over. */
    function HasWon(): (b: bool)
      reads this
      requires 0 <= root < |nodes|
      ensures b ==> IsDone() && !Lost(nodes[root]) && !Drawn(nodes[root])
    {
      nodes[root].result == Win
    }

    /** `has_drawn`: the root is a plain draw; the game is then over. */
    function HasDrawn(): (b: bool)
      reads this
      requires 0 <= root < |nodes|
      ensures b ==> IsDone() && Drawn(nodes[root]) && !HasWon()
    {
      nodes[root].result == Draw
    }

    /**
     * `write_requests`: the positions of the queued nodes, in queue order,
     * into `gameStates`; the rest of it is untouched.  The result is the
     * number of requests.
     */
    method WriteRequests(gameStates: array<real>) returns (count: int)
      requires Valid() && gameStates != toEval && |searched| * GR.GameStateSize <= gameStates.Length
      modifies gameStates
      ensures count == |searched|
      ensures forall k | 0 <= k < count :: Slot(gameStates[..], k) == GR.StateVector(nodes[searched[k]].game)
      ensures gameStates[count * GR.GameStateSize..] == old(gameStates[count * GR.GameStateSize..])
    {
      CopyRequests(toEval, |searched|, gameStates);
      RequestsAre(nodes, searched, toEval[..], gameStates[..]);
      count := |searched|;
    }
  }
}
