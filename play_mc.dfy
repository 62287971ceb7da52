/**
 * The play-time search of the second generation (`PlayMC`,
 * corintho_ai/cpp/src/playmc.cpp): the tree, the request buffer and the
 * search loop of the training search, with a root that starts unvisited so
 * that its first search only queues the root, a turn that ends when the
 * iterations run out or the root's result is known, and the move chosen by
 * the root's result alone.
 *
 * The PUCT formulas, the network and the Dirichlet noise are parameters, as
 * in TrainSearch: `prior` and `explore` score an edge and `rounded` holds the
 * integer priors the float pipeline of `receive_evaluation` produces.
 */
module PlaySearch {
  import opened Common
  import MC = MoveCodec
  import GR = GameRules
  import opened SearchTree
  import opened TreeOps
  import opened SearchWalks
  import opened SearchBuffer
  import opened MoveChoice
  import opened TrainSearch

  /** `max_unsigned_int`: the iteration budget of a search set up from a position. */
  const MaxUnsigned := 0xFFFF_FFFF

  /**
   * A root as the play search makes it: a fresh node with its visit taken
   * back, so that a position with legal moves starts unvisited and its first
   * search queues it.  A terminal position (no visit to take back) goes
   * below zero, where the unsigned counter of the source wraps.
   */
  function NewRoot(g: GR.GameState, depth: int, breakers: seq<seq<bool>>): (n: Node)
    requires GR.Shaped(g) && GR.BreakersShape(breakers)
    ensures SameShape(n, Fresh(g, -1, 0, depth, breakers)) && n.parent == -1 && n.children == []
    ensures n.edges == Fresh(g, -1, 0, depth, breakers).edges && EdgesOk(n)
    ensures !Terminal(n) ==> n.visits == 0 && n.result == NoResult
    ensures Terminal(n) ==> n.visits == -1
  {
    var f := Fresh(g, -1, 0, depth, breakers);
    f.(visits := f.visits - 1)
  }

  /**
   * The root of a new game: the starting position, which is not terminal,
   * so the root starts unvisited with the 48 placements as its moves.
   */
  function StartRoot(breakers: seq<seq<bool>>): (n: Node)
    requires GR.BreakersShape(breakers)
    ensures n.parent == -1 && n.children == [] && n.depth == 0 && GR.Shaped(n.game) && EdgesOk(n)
    ensures n.visits == 0 && n.result == NoResult && |n.edges| == 48
  {
    DefaultNodeNotTerminal(breakers);
    NewRoot(GR.Start(), 0, breakers)
  }

  /** The copy loop of `write_requests`: the first `count` slots of `src` into `dst`, the rest of `dst` kept. */
  method CopyRequests(src: array<real>, count: int, dst: array<real>)
    requires 0 <= count && count * GR.GameStateSize <= src.Length && count * GR.GameStateSize <= dst.Length
    requires src != dst
    modifies dst
    ensures dst[..count * GR.GameStateSize] == src[..count * GR.GameStateSize]
    ensures dst[count * GR.GameStateSize..] == old(dst[count * GR.GameStateSize..])
  {
    var n := count * GR.GameStateSize;
    var i := 0;
    while i < n
      invariant 0 <= i <= n
      invariant forall j | 0 <= j < i :: dst[j] == src[j]
      invariant forall j | n <= j < dst.Length :: dst[j] == old(dst[j])
    {
      dst[i] := src[i];
      i := i + 1;
    }
  }

  /**
   * With the whole queue in the buffer, a copy of its first slots holds the
   * positions of the queued nodes, in queue order.
   */
  lemma RequestsAre(nodes: seq<Node>, searched: seq<int>, buf: seq<real>, out: seq<real>)
    requires Queued(nodes, searched, |searched|, buf)
    requires |searched| * GR.GameStateSize <= |out|
    requires out[..|searched| * GR.GameStateSize] == buf[..|searched| * GR.GameStateSize]
    ensures forall k | 0 <= k < |searched| :: Slot(out, k) == GR.StateVector(nodes[searched[k]].game)
  {
    var n := |searched| * GR.GameStateSize;
    forall k | 0 <= k < |searched| ensures Slot(out, k) == GR.StateVector(nodes[searched[k]].game) {
      forall j | 0 <= j < GR.GameStateSize ensures Slot(out, k)[j] == Slot(buf, k)[j] {
        var x := k * GR.GameStateSize + j;
        assert x < n;
        assert out[x] == out[..n][x] == buf[..n][x] == buf[x];
      }
      assert Slot(out, k) == Slot(buf, k);
    }
  }

  /** `get_legal_moves`: 1 at the move of every edge of the root, 0 at every other move. */
  method MarkLegal(edges: seq<Edge>, legal: array<int>)
    requires MovesOk(MoveIds(edges)) && legal.Length == MC.NumMoves
    modifies legal
    ensures forall j | 0 <= j < MC.NumMoves :: legal[j] == if j in MoveIds(edges) then 1 else 0
  {
    var i := 0;
    while i < MC.NumMoves
      invariant 0 <= i <= MC.NumMoves
      invariant forall j | 0 <= j < i :: legal[j] == 0
    {
      legal[i] := 0;
      i := i + 1;
    }
    var e := 0;
    while e < |edges|
      invariant 0 <= e <= |edges|
      invariant forall j | 0 <= j < MC.NumMoves :: legal[j] == if j in MoveIds(edges[..e]) then 1 else 0
    {
      assert MoveIds(edges[..e + 1]) == MoveIds(edges[..e]) + [edges[e].moveId];
      assert MoveIds(edges)[e] == edges[e].moveId;
      legal[edges[e].moveId] := 1;
      e := e + 1;
    }
    assert edges[..e] == edges;
  }

  /**
   * The arena after `receive_opp_move` found no child for `move`: the move
   * played on the root's position, as a new root one level deeper appended
   * to the arena.
   */
  function Replanted(nodes: seq<Node>, root: int, move: int, breakers: seq<seq<bool>>): (r: seq<Node>)
    requires 0 <= root < |nodes| && GR.Shaped(nodes[root].game) && GR.BreakersShape(breakers) && 0 <= move < MC.NumMoves
    ensures |r| == |nodes| + 1 && r[..|nodes|] == nodes
    ensures r[|nodes|].parent == -1 && r[|nodes|].depth == nodes[root].depth + 1 && r[|nodes|].children == []
    ensures r[|nodes|].game == GR.Play(nodes[root].game, MC.Decode(move))
    ensures !Terminal(r[|nodes|]) ==> r[|nodes|].visits == 0
  {
    nodes + [NewRoot(GR.Play(nodes[root].game, MC.Decode(move)), nodes[root].depth + 1, breakers)]
  }

  /** The replanted arena keeps the search state, with the queue as it was and the new root a root. */
  lemma ReplantedOk(nodes: seq<Node>, root: int, searched: seq<int>, evalIndex: int, buf: seq<real>, move: int,
                    breakers: seq<seq<bool>>)
    requires SearchOk(nodes, root, searched, evalIndex, buf) && 0 <= root && GR.BreakersShape(breakers)
    requires 0 <= move < MC.NumMoves
    ensures GR.Shaped(nodes[root].game)
    ensures SearchOk(Replanted(nodes, root, move, breakers), |nodes|, searched, evalIndex, buf)
  {
    assert NodeOk(nodes, root);
    var n := NewRoot(GR.Play(nodes[root].game, MC.Decode(move)), nodes[root].depth + 1, breakers);
    AppendedRootOk(nodes, root, searched, evalIndex, buf, n);
    assert Replanted(nodes, root, move, breakers) == nodes + [n];
  }

  /** A lone new root is a search state with nothing queued. */
  lemma LoneRootOk(n: Node, buf: seq<real>)
    requires n.parent == -1 && n.children == [] && GR.Shaped(n.game) && EdgesOk(n)
    ensures SearchOk([n], 0, [], 0, buf)
  {
    PlantKeepsTree([], n);
    TreeLinked([n]);
    QueueEmpty([n], [], buf);
    assert NodeOk([n], 0);
  }

  /** A new root appended to the arena keeps the search state, with the queue as it was. */
  lemma AppendedRootOk(nodes: seq<Node>, root: int, searched: seq<int>, evalIndex: int, buf: seq<real>, n: Node)
    requires SearchOk(nodes, root, searched, evalIndex, buf)
    requires n.parent == -1 && n.children == [] && GR.Shaped(n.game) && EdgesOk(n)
    ensures SearchOk(nodes + [n], |nodes|, searched, evalIndex, buf)
  {
    PlantKeepsTree(nodes, n);
    var grown := nodes + [n];
    TreeLinked(grown);
    QueuedKept(nodes, grown, searched, evalIndex, buf);
    assert NodeOk(grown, |nodes|);
  }

  /** The first search of an unvisited root: its visit counted, it alone queued in slot 0. */
  lemma FirstSearchOk(nodes: seq<Node>, root: int, searched: seq<int>, evalIndex: int, buf: seq<real>)
    requires SearchOk(nodes, root, searched, evalIndex, buf) && 0 <= root && GR.GameStateSize <= |buf|
    ensures GR.Shaped(nodes[root].game)
    ensures SearchOk(nodes[root := nodes[root].(visits := 1)], root, [root], 1,
                     WriteSlot(buf, 0, GR.StateVector(nodes[root].game)))
  {
    var n2 := nodes[root := nodes[root].(visits := 1)];
    UpdateKeepsTree(nodes, root, n2[root]);
    assert SameShapes(nodes, n2);
    LinkedShapes(nodes, n2);
    assert NodeOk(n2, root);
    QueueEmpty(n2, [], buf);
    QueuePush(n2, [], 0, buf, root);
    assert [] + [root] == [root];
  }

  class PlayMC {
    /** The arena of nodes and the index of the current root. */
    var nodes: seq<Node>
    var root: int
    /** The nodes sent for evaluation, all of them in the buffer's first slots. */
    var searched: seq<int>
    var evalIndex: int
    var iterationsDone: int
    /** The request buffer, `searchesPerEval` slots of `kGameStateSize` entries. */
    const toEval: array<real>
    const maxIterations: int
    const searchesPerEval: int
    const breakers: seq<seq<bool>>
    const prior: (Node, int) -> real
    const explore: (Node, seq<Node>, int) -> real

    ghost predicate Valid()
      reads this, toEval
    {
      GR.BreakersShape(breakers) && 0 <= maxIterations && 0 <= searchesPerEval &&
      toEval.Length == searchesPerEval * GR.GameStateSize &&
      SearchOk(nodes, root, searched, evalIndex, toEval[..]) && 0 <= root &&
      evalIndex == |searched| && evalIndex <= searchesPerEval && 0 <= iterationsDone <= maxIterations
    }

    /** The first constructor: the starting position as an unvisited root, nothing queued. */
    constructor (toEval: array<real>, maxIterations: int, searchesPerEval: int, breakers: seq<seq<bool>>,
                 prior: (Node, int) -> real, explore: (Node, seq<Node>, int) -> real)
      requires GR.BreakersShape(breakers) && 0 <= maxIterations && 0 <= searchesPerEval
      requires toEval.Length == searchesPerEval * GR.GameStateSize
      ensures Valid() && nodes == [StartRoot(breakers)] && root == 0 && nodes[root].visits == 0
      ensures searched == [] && evalIndex == 0 && iterationsDone == 0
      ensures this.toEval == toEval && this.maxIterations == maxIterations && this.searchesPerEval == searchesPerEval
      ensures this.breakers == breakers
    {
      this.toEval := toEval;
      this.maxIterations := maxIterations;
      this.searchesPerEval := searchesPerEval;
      this.breakers := breakers;
      this.prior := prior;
      this.explore := explore;
      new;
      PlantRoot(StartRoot(breakers));
    }

    /** The arena holding only the lone root `n`, nothing queued and no iteration done. */
    method PlantRoot(n: Node)
      requires GR.BreakersShape(breakers) && 0 <= maxIterations && 0 <= searchesPerEval
      requires toEval.Length == searchesPerEval * GR.GameStateSize
      requires n.parent == -1 && n.children == [] && GR.Shaped(n.game) && EdgesOk(n)
      modifies this
      ensures Valid() && nodes == [n] && root == 0 && searched == [] && evalIndex == 0 && iterationsDone == 0
    {
      LoneRootOk(n, toEval[..]);
      nodes, root, searched, evalIndex, iterationsDone := [n], 0, [], 0, 0;
    }

    /** The second constructor: a given position as an unvisited root, with the largest unsigned budget. */
    constructor FromPosition(toEval: array<real>, game: GR.GameState, searchesPerEval: int, breakers: seq<seq<bool>>,
                             prior: (Node, int) -> real, explore: (Node, seq<Node>, int) -> real)
      requires GR.BreakersShape(breakers) && GR.Shaped(game) && 0 <= searchesPerEval
      requires toEval.Length == searchesPerEval * GR.GameStateSize
      ensures Valid() && nodes == [NewRoot(game, 0, breakers)] && root == 0
      ensures searched == [] && evalIndex == 0 && iterationsDone == 0
      ensures this.toEval == toEval && maxIterations == MaxUnsigned && this.searchesPerEval == searchesPerEval
      ensures this.breakers == breakers
    {
      this.toEval := toEval;
      this.maxIterations := MaxUnsigned;
      this.searchesPerEval := searchesPerEval;
      this.breakers := breakers;
      this.prior := prior;
      this.explore := explore;
      new;
      PlantRoot(NewRoot(game, 0, breakers));
    }

    /**
     * `move_down`: the child at position `pos` of the root's list is
     * unlinked and becomes the root; the turn starts with no iteration done.
     */
    method MoveDown(pos: int)
      requires Valid() && 0 <= pos < |nodes[root].children|
      modifies this
      ensures Valid() && root == old(nodes[root].children[pos]) && nodes == Detach(old(nodes), old(root), pos)
      ensures iterationsDone == 0 && searched == old(searched) && evalIndex == old(evalIndex)
    {
      DetachKeepsTree(nodes, root, pos);
      var d := Detach(nodes, root, pos);
      TreeLinked(d);
      assert NodeOk(d, nodes[root].children[pos]);
      QueuedKept(nodes, d, searched, evalIndex, toEval[..]);
      root := nodes[root].children[pos];
      nodes := d;
      iterationsDone := 0;
    }

    /**
     * One pass of the loop of `search`, the same pass as in training:
     * `iterations_done` counts it unless the descent found nothing
     * selectable.
     */
    method Iterate() returns (p: Pass, ghost base: seq<Node>, ghost r: seq<Node>, ghost at: int)
      requires Valid() && iterationsDone < maxIterations && evalIndex < searchesPerEval
      modifies this, toEval
      ensures Valid() && root == old(root)
      ensures Passed(old(nodes), root, old(searched), old(evalIndex), old(toEval[..]), breakers, p,
                     nodes, searched, evalIndex, toEval[..], base, r, at)
      ensures iterationsDone == if p.Exhausted? then old(iterationsDone) else old(iterationsDone) + 1
      ensures p.Exhausted? ==> 0 <= p.at < |nodes| && nodes[p.at].allVisited
      ensures p.Exhausted? ==> (p.at != root ==> OpenCount(nodes) < OpenCount(old(nodes)))
    {
      var n2, s2, e2;
      n2, s2, e2, p, base, r, at := SearchPass(nodes, root, searched, evalIndex, toEval, breakers, prior, explore);
      Adopt(n2, s2, e2, if p.Exhausted? then iterationsDone else iterationsDone + 1);
    }

    /** Takes over the arena, queue and counters a pass left behind. */
    method Adopt(n2: seq<Node>, s2: seq<int>, e2: int, iter: int)
      requires GR.BreakersShape(breakers) && 0 <= maxIterations && 0 <= searchesPerEval
      requires toEval.Length == searchesPerEval * GR.GameStateSize && 0 <= root
      requires SearchOk(n2, root, s2, e2, toEval[..]) && e2 == |s2| <= searchesPerEval && 0 <= iter <= maxIterations
      modifies this
      ensures Valid() && nodes == n2 && searched == s2 && evalIndex == e2 && iterationsDone == iter
      ensures root == old(root)
    {
      nodes, searched, evalIndex, iterationsDone := n2, s2, e2, iter;
    }

    /**
     * `search`.  At an unvisited root: count its visit, make it the only
     * queued node in slot 0, set the iterations to 1 and report done.
     * Otherwise passes until one queues a leaf, the iterations run out or
     * the root's result is known; a pass that finds nothing selectable ends
     * it at once, with true exactly when that was the root, and otherwise
     * the result says whether the iterations ran out or the root is known.
     * A false result means progress: more iterations, or one more node
     * closed.
     */
    method Search() returns (done: bool, ghost stuckAt: int)
      requires Valid() && evalIndex < searchesPerEval && iterationsDone < maxIterations
      modifies this, toEval
      ensures Valid() && root == old(root)
      ensures old(nodes[root].visits) == 0 ==> (GR.Shaped(old(nodes[root].game)) &&
        done && stuckAt < 0 && nodes == old(nodes)[root := old(nodes[root]).(visits := 1)] &&
        iterationsDone == 1 && searched == [root] && evalIndex == 1 &&
        toEval[..] == WriteSlot(old(toEval[..]), 0, GR.StateVector(old(nodes[root].game))))
      ensures old(nodes[root].visits) != 0 ==> old(iterationsDone) <= iterationsDone && evalIndex <= old(evalIndex) + 1
      ensures stuckAt >= 0 ==> stuckAt < |nodes| && nodes[stuckAt].allVisited && (done <==> stuckAt == root)
      ensures old(nodes[root].visits) != 0 && stuckAt < 0 ==>
        (done <==> iterationsDone == maxIterations || Known(nodes[root]))
      ensures !done ==> (old(iterationsDone) <= iterationsDone &&
        (old(iterationsDone) < iterationsDone || OpenCount(nodes) < OpenCount(old(nodes))))
    {
      stuckAt := -1;
      if nodes[root].visits == 0 {
        FirstSearchOk(nodes, root, searched, evalIndex, toEval[..]);
        WriteState(toEval, 0, nodes[root].game);
        nodes := nodes[root := nodes[root].(visits := 1)];
        iterationsDone := 1;
        searched := [root];
        evalIndex := 1;
        return true, -1;
      }
      var needEval := false;
      while !needEval && iterationsDone < maxIterations && nodes[root].result == NoResult
        invariant Valid() && root == old(root) && old(iterationsDone) <= iterationsDone
        invariant needEval ==> old(iterationsDone) < iterationsDone && evalIndex == old(evalIndex) + 1
        invariant !needEval ==> evalIndex == old(evalIndex)
        invariant iterationsDone == old(iterationsDone) ==> nodes == old(nodes)
        decreases maxIterations - iterationsDone
      {
        var p, base, r, at := Iterate();
        match p
        case Exhausted(x) =>
          return x == root, x;
        case Settled(_) =>
        case Asked(_) =>
          needEval := true;
      }
      return iterationsDone == maxIterations || Known(nodes[root]), -1;
    }

    /**
     * `do_iteration`: take the network's answer, then search while the
     * buffer has room and iterations remain, until a search says it is
     * done.  The result is whether the turn is over: the iterations ran out
     * or the root's result is known.  A turn not over has a full buffer, an
     * exhausted root, or only the root queued by its first search.
     */
    method DoIteration(evals: seq<real>, rounded: seq<seq<int>>) returns (done: bool)
      requires Valid() && Answer(nodes, searched, evals, rounded)
      modifies this, toEval
      ensures Valid() && root == old(root)
      ensures done <==> iterationsDone == maxIterations || Known(nodes[root])
      ensures !done ==> (evalIndex == searchesPerEval || nodes[root].allVisited ||
        (searched == [root] && iterationsDone == 1))
    {
      ReceiveEvaluation(evals, rounded);
      while evalIndex < searchesPerEval && iterationsDone < maxIterations
        invariant Valid() && root == old(root)
        decreases maxIterations - iterationsDone, OpenCount(nodes)
      {
        var searchDone, stuckAt := Search();
        if searchDone {
          break;
        }
      }
      return iterationsDone == maxIterations || Known(nodes[root]);
    }

    /**
     * `choose_move`: the branch for the root's result picks a child (the
     * first one when none qualifies) and the tree moves down to it.  The
     * result is the chosen move, 0 when none was chosen.
     */
    method ChooseMove() returns (move: int, ghost pick: int)
      requires Valid() && |nodes[root].children| > 0
      modifies this
      ensures Valid()
      ensures ResultChoice(old(nodes[root]), Kids(old(nodes), old(root)), pick)
      ensures -1 <= pick < |old(nodes[root].children)| && move == MoveOf(Kids(old(nodes), old(root)), pick)
      ensures var pos := if pick >= 0 then pick else 0;
        root == old(nodes[root].children[pos]) && nodes == Detach(old(nodes), old(root), pos)
      ensures iterationsDone == 0 && searched == old(searched) && evalIndex == old(evalIndex)
    {
      var kids := Kids(nodes, root);
      var chosen := ResultPick(nodes[root], kids);
      pick := chosen;
      move := MoveOf(kids, chosen);
      MoveDown(if chosen >= 0 then chosen else 0);
    }

    /**
     * `receive_opp_move`: with a child for the opponent's move, re-root
     * there; otherwise the move is played on the root's position and a new
     * unvisited root one level deeper replaces the tree, keeping the
     * iteration count.
     */
    method ReceiveOppMove(move: int)
      requires Valid() && 0 <= move < MC.NumMoves
      modifies this
      ensures Valid()
      ensures move in KidIds(Kids(old(nodes), old(root))) ==> exists pos | 0 <= pos < |old(nodes)[old(root)].children| ::
        KidIds(Kids(old(nodes), old(root)))[pos] == move && root == old(nodes)[old(root)].children[pos] &&
        nodes == Detach(old(nodes), old(root), pos) && iterationsDone == 0
      ensures move !in KidIds(Kids(old(nodes), old(root))) ==>
        GR.Shaped(old(nodes[root].game)) && root == |old(nodes)| && nodes == Replanted(old(nodes), old(root), move, breakers) &&
        iterationsDone == old(iterationsDone)
      ensures searched == old(searched) && evalIndex == old(evalIndex)
    {
      var kids := Kids(nodes, root);
      var pos := FindChild(kids, move);
      if pos >= 0 {
        assert KidIds(kids)[pos] == move;
        assert move in KidIds(kids);
        MoveDown(pos);
        return;
      }
      Replant(move);
    }

    /** The new tree of `receive_opp_move`: the move played on the root's position, as an unvisited root one level deeper. */
    method Replant(move: int)
      requires Valid() && 0 <= move < MC.NumMoves
      modifies this
      ensures GR.Shaped(old(nodes[root].game))
      ensures Valid() && root == |old(nodes)| && nodes == Replanted(old(nodes), old(root), move, breakers)
      ensures iterationsDone == old(iterationsDone) && searched == old(searched) && evalIndex == old(evalIndex)
    {
      ReplantedOk(nodes, root, searched, evalIndex, toEval[..], move, breakers);
      nodes, root := Replanted(nodes, root, move, breakers), |nodes|;
    }

    /**
     * `receive_evaluation` with the descent's +1 taken back: every queued
     * node gets its priors and its value backed up with -1 at each node,
     * clearing all_visited below the root; then the root is opened too and
     * the queue emptied.
     */
    method ReceiveEvaluation(evals: seq<real>, rounded: seq<seq<int>>)
      requires Valid() && Answer(nodes, searched, evals, rounded)
      modifies this
      ensures Valid() && root == old(root) && iterationsDone == old(iterationsDone)
      ensures nodes == Answered(old(nodes), old(searched), evals, rounded, -1.0, root)
      ensures searched == [] && evalIndex == 0
    {
      var r := AnswerQueue(nodes, searched, evals, rounded, -1.0, root, toEval[..]);
      nodes := r;
      searched := [];
      evalIndex := 0;
    }

    /** `get_legal_moves`: the root's moves as a 0/1 mask over the 96 move ids. */
    method GetLegalMoves(legal: array<int>)
      requires Valid() && legal.Length == MC.NumMoves
      modifies legal
      ensures forall j | 0 <= j < MC.NumMoves :: legal[j] == if j in MoveIds(nodes[root].edges) then 1 else 0
    {
      assert NodeOk(nodes, root);
      MarkLegal(nodes[root].edges, legal);
    }

    /** `is_done`: the game has ended at the root, by a plain loss, draw or win; a deduced result does not count. */
    function IsDone(): (b: bool)
      reads this
      requires 0 <= root < |nodes|
      ensures b <==> OldTerminal(nodes[root])
      ensures b ==> Known(nodes[root]) && !Decided(nodes[root])
    {
      nodes[root].result == Win || nodes[root].result == Draw || nodes[root].result == Loss
    }

    /** `has_won`: the root is a plain win; the game is then over. */
    function HasWon(): (b: bool)
      reads this
      requires 0 <= root < |nodes|
      ensures b ==> IsDone() && !Lost(nodes[root]) && !Drawn(nodes[root])
    {
      nodes[root].result == Win
    }

    /** `has_drawn`: the root is a plain draw; the game is then over. */
    function HasDrawn(): (b: bool)
      reads this
      requires 0 <= root < |nodes|
      ensures b ==> IsDone() && Drawn(nodes[root]) && !HasWon()
    {
      nodes[root].result == Draw
    }

    /**
     * `write_requests`: the positions of the queued nodes, in queue order,
     * into `gameStates`; the rest of it is untouched.  The result is the
     * number of requests.
     */
    method WriteRequests(gameStates: array<real>) returns (count: int)
      requires Valid() && gameStates != toEval && |searched| * GR.GameStateSize <= gameStates.Length
      modifies gameStates
      ensures count == |searched|
      ensures forall k | 0 <= k < count :: Slot(gameStates[..], k) == GR.StateVector(nodes[searched[k]].game)
      ensures gameStates[count * GR.GameStateSize..] == old(gameStates[count * GR.GameStateSize..])
    {
      CopyRequests(toEval, |searched|, gameStates);
      RequestsAre(nodes, searched, toEval[..], gameStates[..]);
      count := |searched|;
    }
  }
}
