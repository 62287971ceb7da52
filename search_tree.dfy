/**
 * The Monte Carlo search tree (`Node`, node.cpp in both generations).
 *
 * The C++ tree links nodes by `parent`, `first_child` and `next_sibling`
 * pointers.  Here the nodes live in one sequence (an arena) and refer to each
 * other by index, -1 standing for a null pointer; a node's sibling chain is its
 * `children` sequence, kept in the same order as the chain.
 */
module SearchTree {
  import opened Common
  import MC = MoveCodec
  import GR = GameRules

  /** A legal move of a node and its integer prior (0 until the node is evaluated). */
  datatype Edge = Edge(moveId: int, probability: int)

  datatype Node = Node(
    game: GR.GameState,
    parent: int,
    children: seq<int>,
    childId: int,
    depth: int,
    visits: int,
    result: Result,
    allVisited: bool,
    edges: seq<Edge>,
    evaluation: real,
    denominator: real)

  // ---------------------------------------------------------------------
  // Result predicates

  /** `terminal`: the game has ended at this node. */
  predicate Terminal(n: Node) { n.result == Loss || n.result == Draw }
  /** `is_terminal` of the first generation also counts a win. */
  predicate OldTerminal(n: Node) { n.result == Loss || n.result == Win || n.result == Draw }
  predicate Known(n: Node) { n.result != NoResult }
  predicate Won(n: Node) { n.result == DeducedWin }
  predicate Lost(n: Node) { n.result == Loss || n.result == DeducedLoss }
  predicate Drawn(n: Node) { n.result == Draw || n.result == DeducedDraw }

  /** How the result predicates relate: a known result is won, lost, drawn or a plain win. */
  lemma ResultPredicates(n: Node)
    ensures Terminal(n) ==> Known(n) && !Won(n) && (Lost(n) || Drawn(n))
    ensures Known(n) <==> Won(n) || Lost(n) || Drawn(n) || n.result == Win
    ensures !(Won(n) && Lost(n)) && !(Won(n) && Drawn(n)) && !(Lost(n) && Drawn(n))
    ensures OldTerminal(n) <==> Terminal(n) || n.result == Win
  {
  }

  // ---------------------------------------------------------------------
  // Edges and fresh nodes

  function MoveIds(es: seq<Edge>): (ids: seq<int>)
    ensures |ids| == |es|
  {
    seq(|es|, k requires 0 <= k < |es| => es[k].moveId)
  }

  /** Edges for the given move ids, each with prior 0. */
  function NewEdges(ids: seq<int>): (es: seq<Edge>)
    ensures MoveIds(es) == ids
    ensures forall k | 0 <= k < |es| :: es[k].probability == 0
  {
    seq(|ids|, k requires 0 <= k < |ids| => Edge(ids[k], 0))
  }

  /**
   * A node as the constructors and `initializeEdges` leave it: no children,
   * all_visited set, evaluation and denominator 0; edges for the legal moves
   * in ascending order with prior 0 and one visit; or, with no legal move, no
   * edges, no visit and a loss if a line stands, else a draw.
   */
  function Fresh(g: GR.GameState, parent: int, childId: int, depth: int, breakers: seq<seq<bool>>): (n: Node)
    requires GR.Shaped(g) && GR.BreakersShape(breakers)
    ensures n.game == g && n.parent == parent && n.children == [] && n.childId == childId && n.depth == depth
    ensures n.allVisited && n.evaluation == 0.0 && n.denominator == 0.0
    ensures Increasing(MoveIds(n.edges))
    ensures forall k | 0 <= k < |n.edges| ::
      0 <= n.edges[k].moveId < MC.NumMoves && GR.LegalMask(g, breakers)[n.edges[k].moveId] && n.edges[k].probability == 0
    ensures forall j | 0 <= j < MC.NumMoves && GR.LegalMask(g, breakers)[j] :: j in MoveIds(n.edges)
    ensures Terminal(n) <==> |n.edges| == 0
    ensures Terminal(n) ==> n.visits == 0 && (n.result == Loss <==> GR.AnyLine(g))
    ensures !Terminal(n) ==> n.visits == 1 && n.result == NoResult
  {
    var ids := TrueIndices(GR.LegalMask(g, breakers));
    if |ids| == 0 then
      Node(g, parent, [], childId, depth, 0, if GR.AnyLine(g) then Loss else Draw, true, [], 0.0, 0.0)
    else
      Node(g, parent, [], childId, depth, 1, NoResult, true, NewEdges(ids), 0.0, 0.0)
  }

  /** The child constructor: the parent's game with `moveId` applied, one level deeper. */
  function FreshChild(p: Node, parent: int, moveId: int, breakers: seq<seq<bool>>): (n: Node)
    requires GR.Shaped(p.game) && GR.BreakersShape(breakers) && 0 <= moveId < MC.NumMoves
    ensures n.parent == parent && n.childId == moveId && n.depth == p.depth + 1
    ensures n.game == GR.Play(p.game, MC.Decode(moveId)) && n.game.toPlay == 1 - p.game.toPlay
  {
    Fresh(GR.Play(p.game, MC.Decode(moveId)), parent, moveId, p.depth + 1, breakers)
  }

  /** A fresh node's moves are exactly the legal moves of its position. */
  lemma FreshEdgesAreLegal(g: GR.GameState, parent: int, childId: int, depth: int, breakers: seq<seq<bool>>, j: int)
    requires GR.Shaped(g) && GR.BreakersShape(breakers) && 0 <= j < MC.NumMoves
    ensures j in MoveIds(Fresh(g, parent, childId, depth, breakers).edges) <==> GR.LegalMask(g, breakers)[j]
    ensures j in MoveIds(Fresh(g, parent, childId, depth, breakers).edges) ==> GR.IsLegalMove(g, j)
  {
    var n := Fresh(g, parent, childId, depth, breakers);
    GR.LegalMaskLegal(g, breakers);
    if j in MoveIds(n.edges) {
      var k :| 0 <= k < |n.edges| && MoveIds(n.edges)[k] == j;
      assert n.edges[k].moveId == j;
    }
  }

  /**
   * The constructors with `initializeEdges`: count the legal moves; with none,
   * a terminal node; otherwise fill the edges in one pass over the 96 ids.
   */
  method Create(g: GR.GameState, parent: int, childId: int, depth: int, breakers: seq<seq<bool>>) returns (n: Node)
    requires GR.Shaped(g) && GR.BreakersShape(breakers)
    ensures n == Fresh(g, parent, childId, depth, breakers)
  {
    var legal := GR.LegalMask(g, breakers);
    var isLines := GR.AnyLine(g);
    var numLegalMoves := |TrueIndices(legal)|;
    if numLegalMoves == 0 {
      n := Node(g, parent, [], childId, depth, 0, if isLines then Loss else Draw, true, [], 0.0, 0.0);
      return;
    }
    var edges := FillEdges(legal);
    n := Node(g, parent, [], childId, depth, 1, NoResult, true, edges, 0.0, 0.0);
  }

  /** The filling loop of `initializeEdges`: one edge, prior 0, per set bit, in index order. */
  method FillEdges(legal: seq<bool>) returns (edges: seq<Edge>)
    requires |legal| == MC.NumMoves
    ensures edges == NewEdges(TrueIndices(legal))
  {
    edges := [];
    var i := 0;
    while i < MC.NumMoves
      invariant 0 <= i <= MC.NumMoves
      invariant edges == NewEdges(IndicesBelow(legal, i))
    {
      if legal[i] {
        edges := edges + [Edge(i, 0)];
      }
      i := i + 1;
    }
  }

  /** `Node()`: the starting position as a root. */
  function DefaultNode(breakers: seq<seq<bool>>): (n: Node)
    requires GR.BreakersShape(breakers)
    ensures n.parent == -1 && n.childId == 0 && n.depth == 0 && GR.IsStart(n.game)
  {
    Fresh(GR.Start(), -1, 0, 0, breakers)
  }

  /** The default node is not terminal: its 48 placements are its edges. */
  lemma DefaultNodeNotTerminal(breakers: seq<seq<bool>>)
    requires GR.BreakersShape(breakers)
    ensures !Terminal(DefaultNode(breakers)) && |DefaultNode(breakers).edges| == 48
    ensures forall k | 0 <= k < 48 :: DefaultNode(breakers).edges[k] == Edge(48 + k, 0)
  {
    GR.StartPosition(GR.Start(), breakers);
    PlacementEdges(DefaultNode(breakers).edges, GR.LegalMask(GR.Start(), breakers));
  }

  /** Edges that list exactly the set positions of a mask set from 48 on are the 48 placements. */
  lemma PlacementEdges(es: seq<Edge>, mask: seq<bool>)
    requires |mask| == MC.NumMoves && forall j | 0 <= j < MC.NumMoves :: mask[j] <==> j >= 48
    requires Increasing(MoveIds(es))
    requires forall k | 0 <= k < |es| :: 0 <= es[k].moveId < MC.NumMoves && mask[es[k].moveId] && es[k].probability == 0
    requires forall j | 0 <= j < MC.NumMoves && mask[j] :: j in MoveIds(es)
    ensures |es| == 48 && forall k | 0 <= k < 48 :: es[k] == Edge(48 + k, 0)
  {
    var ids := MoveIds(es);
    assert forall k | 0 <= k < |ids| :: 48 <= ids[k] < 96 by {
      forall k | 0 <= k < |ids| ensures 48 <= ids[k] < 96 {
        assert mask[es[k].moveId];
      }
    }
    var placements := seq(48, k => 48 + k);
    forall k | 0 <= k < 48 ensures placements[k] in ids {
      assert mask[48 + k];
    }
    PlacementsOnly(ids, placements);
    forall k | 0 <= k < 48 ensures es[k] == Edge(48 + k, 0) {
      assert ids[k] == es[k].moveId;
    }
  }

  /** An increasing sequence of ids in 48..95 that holds all 48 placements is the placements in order. */
  lemma PlacementsOnly(ids: seq<int>, placements: seq<int>)
    requires placements == seq(48, k => 48 + k)
    requires Increasing(ids) && forall k | 0 <= k < |ids| :: 48 <= ids[k] < 96
    requires forall k | 0 <= k < 48 :: placements[k] in ids
    ensures ids == placements
  {
    IncreasingBound(ids);
    PlacementsPrefix(ids, placements, 48);
  }

  /** The first k of those ids are 48, 49, ..., 48 + k - 1. */
  lemma {:induction false} PlacementsPrefix(ids: seq<int>, placements: seq<int>, k: int)
    requires placements == seq(48, k => 48 + k)
    requires Increasing(ids) && forall j | 0 <= j < |ids| :: 48 <= ids[j] < 96
    requires forall j | 0 <= j < 48 :: placements[j] in ids
    requires 0 <= k <= 48
    ensures |ids| >= k && forall i | 0 <= i < k :: ids[i] == 48 + i
  {
    if k > 0 {
      PlacementsPrefix(ids, placements, k - 1);
      assert placements[k - 1] in ids;
      var j :| 0 <= j < |ids| && ids[j] == 48 + (k - 1);
      if j > k - 1 {
        IncreasingFloor(ids, k - 1);
      }
    }
  }

  /** Strictly increasing values in 48..95: at most 48 of them. */
  lemma {:induction false} IncreasingBound(ids: seq<int>)
    requires Increasing(ids) && forall k | 0 <= k < |ids| :: 48 <= ids[k] < 96
    ensures |ids| <= 48
  {
    if |ids| > 0 {
      IncreasingFloor(ids, |ids| - 1);
    }
  }

  /** The k-th of strictly increasing values from 48 up is at least 48 + k. */
  lemma {:induction false} IncreasingFloor(ids: seq<int>, k: int)
    requires Increasing(ids) && forall j | 0 <= j < |ids| :: 48 <= ids[j] < 96
    requires 0 <= k < |ids|
    ensures ids[k] >= 48 + k
  {
    if k > 0 {
      IncreasingFloor(ids, k - 1);
    }
  }

  // ---------------------------------------------------------------------
  // The tree invariant

  /** Edges in strictly ascending move order, each a move index. */
  predicate EdgesOk(n: Node)
  {
    MovesOk(MoveIds(n.edges))
  }

  predicate MovesOk(ids: seq<int>)
  {
    Increasing(ids) && forall k | 0 <= k < |ids| :: 0 <= ids[k] < MC.NumMoves
  }

  /** The move ids of a list of child nodes. */
  function KidIds(kids: seq<Node>): (ids: seq<int>)
    ensures |ids| == |kids|
  {
    seq(|kids|, k requires 0 <= k < |kids| => kids[k].childId)
  }

  /**
   * A node and its children in list order agree: the children are in strictly
   * ascending move order and each one's move is an edge of the node.
   */
  predicate Ordered(n: Node, kids: seq<Node>)
  {
    OrderedIds(MoveIds(n.edges), KidIds(kids))
  }

  /** Child move ids `cids` against edge move ids `ids`: both ascending, the first among the second. */
  predicate OrderedIds(ids: seq<int>, cids: seq<int>)
  {
    MovesOk(ids) && Increasing(cids) && forall k | 0 <= k < |cids| :: cids[k] in ids
  }

  /** Child indices lie after their parent and inside the arena. */
  predicate ChildrenAfter(nodes: seq<Node>, i: int)
    requires 0 <= i < |nodes|
  {
    forall k | 0 <= k < |nodes[i].children| :: i < nodes[i].children[k] < |nodes|
  }

  /** The child nodes of node i, in list order. */
  function Kids(nodes: seq<Node>, i: int): (kids: seq<Node>)
    requires 0 <= i < |nodes| && ChildrenAfter(nodes, i)
    ensures |kids| == |nodes[i].children|
  {
    seq(|nodes[i].children|, k requires 0 <= k < |nodes[i].children| => nodes[nodes[i].children[k]])
  }

  /**
   * One node of a well-formed tree: its parent comes before it and lists it
   * as a child; as a child it holds its parent's game with its move applied,
   * one level deeper; its children point back to it and are ordered by move.
   */
  predicate NodeOk(nodes: seq<Node>, i: int)
    requires 0 <= i < |nodes|
  {
    var n := nodes[i];
    GR.Shaped(n.game) && -1 <= n.parent < i && ChildrenAfter(nodes, i) &&
    (n.parent >= 0 ==>
      i in nodes[n.parent].children && 0 <= n.childId < MC.NumMoves && GR.Shaped(nodes[n.parent].game) &&
      n.depth == nodes[n.parent].depth + 1 && n.game == GR.Play(nodes[n.parent].game, MC.Decode(n.childId))) &&
    (forall k | 0 <= k < |n.children| :: nodes[n.children[k]].parent == i) &&
    Ordered(n, Kids(nodes, i))
  }

  predicate TreeOk(nodes: seq<Node>)
  {
    forall i | 0 <= i < |nodes| :: NodeOk(nodes, i)
  }

  /** What an update of one node must keep for the tree to stay well formed. */
  predicate SameShape(a: Node, b: Node)
  {
    a.game == b.game && a.parent == b.parent && a.children == b.children &&
    a.childId == b.childId && a.depth == b.depth && MoveIds(a.edges) == MoveIds(b.edges)
  }

  /** Updating counters, results, evaluations or priors of one node keeps the tree well formed. */
  lemma UpdateKeepsTree(nodes: seq<Node>, i: int, x: Node)
    requires TreeOk(nodes) && 0 <= i < |nodes| && SameShape(nodes[i], x)
    ensures TreeOk(nodes[i := x])
  {
    var nodes' := nodes[i := x];
    forall j | 0 <= j < |nodes'| ensures NodeOk(nodes', j) {
      assert NodeOk(nodes, j);
      assert KidIds(Kids(nodes', j)) == KidIds(Kids(nodes, j));
    }
  }

  // ---------------------------------------------------------------------
  // Counting

  /** `countNodes`: this node and the counts of its children, through the sibling chain. */
  function Count(nodes: seq<Node>, i: int): (c: int)
    requires TreeOk(nodes) && 0 <= i < |nodes|
    ensures c >= 1 + |nodes[i].children|
    decreases |nodes| - i, 1, 0
  {
    1 + CountFrom(nodes, i, 0)
  }

  /** The counts of node i's children from position k of its list on. */
  function CountFrom(nodes: seq<Node>, i: int, k: int): (c: int)
    requires TreeOk(nodes) && 0 <= i < |nodes| && 0 <= k <= |nodes[i].children|
    ensures c >= |nodes[i].children| - k
    decreases |nodes| - i, 0, |nodes[i].children| - k
  {
    assert NodeOk(nodes, i);
    if k == |nodes[i].children| then 0
    else Count(nodes, nodes[i].children[k]) + CountFrom(nodes, i, k + 1)
  }

  /** A node as the constructors leave it, alone in an arena, is a tree of one node. */
  lemma CountFresh(g: GR.GameState, childId: int, depth: int, breakers: seq<seq<bool>>)
    requires GR.Shaped(g) && GR.BreakersShape(breakers)
    ensures TreeOk([Fresh(g, -1, childId, depth, breakers)])
    ensures Count([Fresh(g, -1, childId, depth, breakers)], 0) == 1
  {
    var nodes := [Fresh(g, -1, childId, depth, breakers)];
    assert NodeOk(nodes, 0);
  }

  /** Every parent link points to an earlier node, or is -1. */
  predicate ParentsBefore(nodes: seq<Node>)
  {
    forall j | 0 <= j < |nodes| :: -1 <= nodes[j].parent < j
  }

  /** Node j lies in the subtree of node i: following parent links from j reaches i. */
  predicate Below(nodes: seq<Node>, j: int, i: int)
    requires ParentsBefore(nodes) && 0 <= j < |nodes|
    decreases j
  {
    j == i || (nodes[j].parent >= 0 && Below(nodes, nodes[j].parent, i))
  }

  /** The indices of the subtree rooted at node i. */
  function Subtree(nodes: seq<Node>, i: int): (s: set<int>)
    requires ParentsBefore(nodes)
    ensures forall j :: j in s <==> 0 <= j < |nodes| && Below(nodes, j, i)
  {
    set j | 0 <= j < |nodes| && Below(nodes, j, i)
  }

  /** The subtrees of node i's children from position k of its list on. */
  function SubtreesFrom(nodes: seq<Node>, i: int, k: int): (s: set<int>)
    requires ParentsBefore(nodes) && 0 <= i < |nodes| && 0 <= k <= |nodes[i].children|
    ensures forall j :: j in s <==> exists m | k <= m < |nodes[i].children| :: j in Subtree(nodes, nodes[i].children[m])
    decreases |nodes[i].children| - k
  {
    if k == |nodes[i].children| then {} else Subtree(nodes, nodes[i].children[k]) + SubtreesFrom(nodes, i, k + 1)
  }

  lemma TreeParentsBefore(nodes: seq<Node>)
    requires TreeOk(nodes)
    ensures ParentsBefore(nodes)
  {
    forall j | 0 <= j < |nodes| ensures -1 <= nodes[j].parent < j {
      assert NodeOk(nodes, j);
    }
  }

  /** A node lies at or after the root of any subtree holding it. */
  lemma {:induction false} BelowAfter(nodes: seq<Node>, j: int, i: int)
    requires ParentsBefore(nodes) && 0 <= j < |nodes| && Below(nodes, j, i)
    ensures i <= j
    decreases j
  {
    if j != i {
      BelowAfter(nodes, nodes[j].parent, i);
    }
  }

  /** Subtrees nest: below c and c below i puts j below i. */
  lemma {:induction false} BelowTrans(nodes: seq<Node>, j: int, c: int, i: int)
    requires ParentsBefore(nodes) && 0 <= j < |nodes| && 0 <= c < |nodes|
    requires Below(nodes, j, c) && Below(nodes, c, i)
    ensures Below(nodes, j, i)
    decreases j
  {
    if j != c {
      BelowTrans(nodes, nodes[j].parent, c, i);
    }
  }

  /** The roots of two subtrees holding j are themselves nested. */
  lemma {:induction false} BelowLinear(nodes: seq<Node>, j: int, a: int, b: int)
    requires ParentsBefore(nodes) && 0 <= j < |nodes| && 0 <= b < |nodes| && a <= b
    requires Below(nodes, j, a) && Below(nodes, j, b)
    ensures Below(nodes, b, a)
    decreases j
  {
    if j == b {
    } else if j == a {
      BelowAfter(nodes, j, b);
    } else {
      BelowLinear(nodes, nodes[j].parent, a, b);
    }
  }

  /** A node strictly below i lies below the child of i on its way up. */
  lemma {:induction false} BelowChild(nodes: seq<Node>, j: int, i: int) returns (c: int)
    requires ParentsBefore(nodes) && 0 <= j < |nodes| && Below(nodes, j, i) && j != i
    ensures 0 <= c < |nodes| && nodes[c].parent == i && Below(nodes, j, c)
    decreases j
  {
    var p := nodes[j].parent;
    if p == i {
      c := j;
    } else {
      c := BelowChild(nodes, p, i);
      BelowTrans(nodes, j, p, c);
    }
  }

  /** The list positions of a node's children hold distinct nodes. */
  lemma ChildrenDistinct(nodes: seq<Node>, i: int, k: int, m: int)
    requires TreeOk(nodes) && 0 <= i < |nodes| && 0 <= k < m < |nodes[i].children|
    ensures nodes[i].children[k] != nodes[i].children[m]
  {
    assert NodeOk(nodes, i);
    var kids := Kids(nodes, i);
    assert KidIds(kids)[k] < KidIds(kids)[m];
  }

  /** The subtree of child k shares no node with the subtrees of the later children. */
  lemma SubtreesDisjoint(nodes: seq<Node>, i: int, k: int)
    requires TreeOk(nodes) && 0 <= i < |nodes| && 0 <= k < |nodes[i].children|
    ensures ParentsBefore(nodes)
    ensures Subtree(nodes, nodes[i].children[k]) !! SubtreesFrom(nodes, i, k + 1)
  {
    TreeParentsBefore(nodes);
    assert NodeOk(nodes, i);
    var ch := nodes[i].children;
    forall j | j in Subtree(nodes, ch[k]) && j in SubtreesFrom(nodes, i, k + 1)
      ensures false
    {
      var m :| k + 1 <= m < |ch| && j in Subtree(nodes, ch[m]);
      ChildrenDistinct(nodes, i, k, m);
      var a, b := if ch[k] < ch[m] then ch[k] else ch[m], if ch[k] < ch[m] then ch[m] else ch[k];
      BelowLinear(nodes, j, a, b);
      assert nodes[b].parent == i && a > i;
      BelowAfter(nodes, i, a);
    }
  }

  /** A subtree is its root and the subtrees of the root's children. */
  lemma SubtreeSplit(nodes: seq<Node>, i: int)
    requires TreeOk(nodes) && 0 <= i < |nodes|
    ensures ParentsBefore(nodes)
    ensures Subtree(nodes, i) == {i} + SubtreesFrom(nodes, i, 0)
    ensures i !in SubtreesFrom(nodes, i, 0)
  {
    TreeParentsBefore(nodes);
    assert NodeOk(nodes, i);
    var ch := nodes[i].children;
    forall j | j in SubtreesFrom(nodes, i, 0)
      ensures j in Subtree(nodes, i) && j != i
    {
      var m :| 0 <= m < |ch| && j in Subtree(nodes, ch[m]);
      assert NodeOk(nodes, ch[m]);
      BelowTrans(nodes, j, ch[m], i);
      BelowAfter(nodes, j, ch[m]);
    }
    forall j | j in Subtree(nodes, i) && j != i
      ensures j in SubtreesFrom(nodes, i, 0)
    {
      var c := BelowChild(nodes, j, i);
      assert NodeOk(nodes, c);
      var m :| 0 <= m < |ch| && ch[m] == c;
    }
  }

  /** `countNodes` counts exactly the nodes of the subtree. */
  lemma {:induction false} CountIsSize(nodes: seq<Node>, i: int)
    requires TreeOk(nodes) && 0 <= i < |nodes|
    ensures ParentsBefore(nodes)
    ensures Count(nodes, i) == |Subtree(nodes, i)|
    decreases |nodes| - i, 1, 0
  {
    SubtreeSplit(nodes, i);
    CountFromIsSize(nodes, i, 0);
  }

  lemma {:induction false} CountFromIsSize(nodes: seq<Node>, i: int, k: int)
    requires TreeOk(nodes) && 0 <= i < |nodes| && 0 <= k <= |nodes[i].children|
    ensures ParentsBefore(nodes)
    ensures CountFrom(nodes, i, k) == |SubtreesFrom(nodes, i, k)|
    decreases |nodes| - i, 0, |nodes[i].children| - k
  {
    TreeParentsBefore(nodes);
    assert NodeOk(nodes, i);
    if k < |nodes[i].children| {
      CountIsSize(nodes, nodes[i].children[k]);
      CountFromIsSize(nodes, i, k + 1);
      SubtreesDisjoint(nodes, i, k);
    }
  }

  // ---------------------------------------------------------------------
  // Choosing the next edge: the merge walk of `search`

  /**
   * Which children the walk may enter.  `Current` (the second-generation
   * search classes): a child that is not all_visited and has no result or a
   * drawn one, a drawn child scoring like an unvisited edge.  `First`
   * (first-generation PlayMC): any child that is not all_visited.
   */
  datatype Rule = Current | First

  /** The position of `x` in `s`, -1 if absent. */
  function Position(s: seq<int>, x: int): (r: int)
    ensures -1 <= r < |s|
    ensures r >= 0 ==> s[r] == x
    ensures r < 0 ==> x !in s
  {
    if |s| == 0 then -1
    else if s[|s| - 1] == x then |s| - 1
    else Position(s[..|s| - 1], x)
  }

  /** In a strictly ascending sequence a value sits at one position only. */
  lemma PositionUnique(s: seq<int>, k: int)
    requires Increasing(s) && 0 <= k < |s|
    ensures Position(s, s[k]) == k
  {
  }

  /**
   * The score of edge e of node n with children `kids`: -2 for a child the
   * walk may not enter.  `pri[e]` stands for the unvisited-edge formula
   * (prior times c_puct times the square root of the visits) and `exp[e]`
   * for the visited-child formula, both floating point in the source.
   */
  function EdgeScore(rule: Rule, n: Node, kids: seq<Node>, e: int, pri: seq<real>, exp: seq<real>): real
    requires 0 <= e < |n.edges| && |pri| == |exp| == |n.edges|
  {
    var pos := Position(KidIds(kids), n.edges[e].moveId);
    Score(rule, if pos < 0 then None else Some(kids[pos]), pri[e], exp[e])
  }

  /** The score of an edge given the child that holds its move, if any, and its two formula values. */
  function Score(rule: Rule, child: Option<Node>, p: real, x: real): real
  {
    match child
    case None => p
    case Some(c) =>
      match rule
      case First => if !c.allVisited then x else -2.0
      case Current =>
        if !c.allVisited && (c.result == NoResult || Drawn(c)) then
          (if c.result != NoResult then p else x)
        else -2.0
  }

  /** The score of an edge for the child `c` that holds its move. */
  method ChildScore(rule: Rule, c: Node, p: real, x: real) returns (u: real)
    ensures u == Score(rule, Some(c), p, x)
  {
    u := -2.0;
    match rule
    case First =>
      if !c.allVisited {
        u := x;
      }
    case Current =>
      if !c.allVisited && (c.result == NoResult || c.result == Draw || c.result == DeducedDraw) {
        if c.result != NoResult {
          u := p;
        } else {
          u := x;
        }
      }
  }

  /** The scores of all edges of n, in edge order. */
  function EdgeScores(rule: Rule, n: Node, kids: seq<Node>,
                      pri: seq<real>, exp: seq<real>): (s: seq<real>)
    requires |pri| == |exp| == |n.edges|
    ensures |s| == |n.edges|
  {
    seq(|n.edges|, e requires 0 <= e < |n.edges| => EdgeScore(rule, n, kids, e, pri, exp))
  }

  /** The score of an edge whose move the child at position ci holds. */
  lemma MatchedScore(rule: Rule, n: Node, kids: seq<Node>, e: int, ci: int,
                     pri: seq<real>, exp: seq<real>)
    requires Increasing(KidIds(kids)) && 0 <= e < |n.edges| && 0 <= ci < |kids| && |pri| == |exp| == |n.edges|
    requires kids[ci].childId == n.edges[e].moveId
    ensures EdgeScores(rule, n, kids, pri, exp)[e] == Score(rule, Some(kids[ci]), pri[e], exp[e])
  {
    PositionUnique(KidIds(kids), ci);
  }

  /** The score of an edge no child holds is its prior term. */
  lemma UnmatchedScore(rule: Rule, n: Node, kids: seq<Node>, e: int,
                       pri: seq<real>, exp: seq<real>)
    requires 0 <= e < |n.edges| && Position(KidIds(kids), n.edges[e].moveId) < 0 && |pri| == |exp| == |n.edges|
    ensures EdgeScores(rule, n, kids, pri, exp)[e] == pri[e]
  {
  }

  /** An edge index (-1 for none) and its score. */
  datatype Choice = Choice(edge: int, value: real)

  /**
   * The walk's choice among the first e scores: the first one of highest
   * value, provided that value is above -2; otherwise none, with value -2.
   */
  function BestOf(scores: seq<real>, e: int): (c: Choice)
    requires 0 <= e <= |scores|
    ensures -1 <= c.edge < e
  {
    if e == 0 then Choice(-1, -2.0)
    else
      var b := BestOf(scores, e - 1);
      if scores[e - 1] > b.value then Choice(e - 1, scores[e - 1]) else b
  }

  /**
   * The walk's choice is the first edge of highest score above -2: no edge
   * scores more, every earlier edge scores less, and none is chosen exactly
   * when every edge scores -2 or less.
   */
  lemma {:induction false} BestOfIsBest(scores: seq<real>, e: int)
    requires 0 <= e <= |scores|
    ensures var c := BestOf(scores, e);
      (c.edge < 0 <==> c.value == -2.0) &&
      (c.edge < 0 ==> forall f | 0 <= f < e :: scores[f] <= -2.0) &&
      (c.edge >= 0 ==> c.value == scores[c.edge] && c.value > -2.0) &&
      (forall f | 0 <= f < e :: scores[f] <= c.value) &&
      (c.edge >= 0 ==> forall f | 0 <= f < c.edge :: scores[f] < c.value)
  {
    if e > 0 {
      BestOfIsBest(scores, e - 1);
    }
  }

  /** A value of an ascending sequence that lies above its (e-1)-th entry sits at position e or later. */
  lemma InAfter(ids: seq<int>, x: int, e: int)
    requires Increasing(ids) && x in ids && 0 <= e <= |ids| && (e == 0 || ids[e - 1] < x)
    ensures e < |ids| && ids[e] <= x
  {
    var j :| 0 <= j < |ids| && ids[j] == x;
  }

  /** A value strictly between two neighbours of an ascending sequence (or beyond an end) is not in it. */
  lemma {:induction false} NotBetween(s: seq<int>, p: int, x: int)
    requires Increasing(s) && 0 <= p <= |s|
    requires p < |s| ==> x < s[p]
    requires p > 0 ==> s[p - 1] < x
    ensures Position(s, x) < 0
  {
    forall k | 0 <= k < |s| ensures s[k] != x {
      if k < p {
        assert s[k] <= s[p - 1];
      } else {
        assert s[p] <= s[k];
      }
    }
  }

  /** Where a value splits an ascending sequence: everything up to p at most x, everything after above it. */
  lemma {:induction false} SplitAt(s: seq<int>, p: int, x: int)
    requires Increasing(s) && -1 <= p < |s|
    requires p >= 0 ==> s[p] <= x
    requires p + 1 < |s| ==> s[p + 1] > x
    ensures forall k | 0 <= k <= p :: s[k] <= x
    ensures forall k | p < k < |s| :: s[k] > x
  {
    forall k | 0 <= k <= p ensures s[k] <= x {
      assert k == p || s[k] < s[p];
    }
    forall k | p < k < |s| ensures s[k] > x {
      assert k == p + 1 || s[p + 1] < s[k];
    }
  }

  /**
   * The state of the walk before edge e: ci children passed, the last of them
   * `prev`; the best edge so far with its score and move; and the position
   * of the last child whose move is at most the best move.
   */
  ghost predicate WalkInv(ids: seq<int>, cids: seq<int>, scores: seq<real>, ci: int, e: int, prev: int,
                          maxValue: real, moveChoice: int, bestPrev: int, bestEdge: int)
  {
    |scores| == |ids| && 0 <= ci <= |cids| && 0 <= e <= |ids| && prev == ci - 1 &&
    (ci > 0 ==> e > 0 && cids[ci - 1] <= ids[e - 1]) &&
    (ci < |cids| ==> e == 0 || ids[e - 1] < cids[ci]) &&
    Choice(bestEdge, maxValue) == BestOf(scores, e) &&
    (bestEdge >= 0 ==> moveChoice == ids[bestEdge] && -1 <= bestPrev < ci) &&
    (bestEdge >= 0 && bestPrev >= 0 ==> cids[bestPrev] <= moveChoice) &&
    (bestEdge >= 0 && bestPrev + 1 < ci ==> cids[bestPrev + 1] > moveChoice)
  }

  /** At edge e the next child holds e's move or a later one; an edge it does not hold, no child holds. */
  lemma WalkLookahead(ids: seq<int>, cids: seq<int>, scores: seq<real>, ci: int, e: int, prev: int,
                      maxValue: real, moveChoice: int, bestPrev: int, bestEdge: int)
    requires OrderedIds(ids, cids) && e < |ids|
    requires WalkInv(ids, cids, scores, ci, e, prev, maxValue, moveChoice, bestPrev, bestEdge)
    ensures ci < |cids| ==> ids[e] <= cids[ci]
    ensures !(ci < |cids| && cids[ci] == ids[e]) ==> Position(cids, ids[e]) < 0
  {
    if ci < |cids| {
      InAfter(ids, cids[ci], e);
    }
    assert e > 0 ==> ids[e - 1] < ids[e];
    if !(ci < |cids| && cids[ci] == ids[e]) {
      NotBetween(cids, ci, ids[e]);
    }
  }

  /** One step of the walk keeps its invariant. */
  lemma WalkStep(ids: seq<int>, cids: seq<int>, scores: seq<real>, ci: int, e: int, prev: int,
                 maxValue: real, moveChoice: int, bestPrev: int, bestEdge: int, u: real)
    requires OrderedIds(ids, cids) && e < |ids|
    requires WalkInv(ids, cids, scores, ci, e, prev, maxValue, moveChoice, bestPrev, bestEdge)
    requires u == scores[e]
    ensures var matched := ci < |cids| && cids[ci] == ids[e];
      var ci', prev' := if matched then ci + 1 else ci, if matched then ci else prev;
      var better := u > maxValue;
      WalkInv(ids, cids, scores, ci', e + 1, prev',
              if better then u else maxValue, if better then ids[e] else moveChoice,
              if better then prev' else bestPrev, if better then e else bestEdge)
  {
    WalkLookahead(ids, cids, scores, ci, e, prev, maxValue, moveChoice, bestPrev, bestEdge);
    assert bestEdge >= 0 ==> ids[bestEdge] < ids[e];
    assert ci + 1 < |cids| ==> cids[ci] < cids[ci + 1];
    assert e > 0 ==> ids[e - 1] < ids[e];
  }

  /** The step of the walk, stated for the walk's new values. */
  lemma WalkAdvance(ids: seq<int>, cids: seq<int>, scores: seq<real>, ci: int, e: int, prev: int,
                    maxValue: real, moveChoice: int, bestPrev: int, bestEdge: int,
                    ci': int, prev': int, maxValue': real, moveChoice': int, bestPrev': int, bestEdge': int)
    requires OrderedIds(ids, cids) && e < |ids|
    requires WalkInv(ids, cids, scores, ci, e, prev, maxValue, moveChoice, bestPrev, bestEdge)
    requires if ci < |cids| && cids[ci] == ids[e] then ci' == ci + 1 && prev' == ci else ci' == ci && prev' == prev
    requires if scores[e] > maxValue
             then maxValue' == scores[e] && moveChoice' == ids[e] && bestPrev' == prev' && bestEdge' == e
             else maxValue' == maxValue && moveChoice' == moveChoice && bestPrev' == bestPrev && bestEdge' == bestEdge
    ensures WalkInv(ids, cids, scores, ci', e + 1, prev', maxValue', moveChoice', bestPrev', bestEdge')
  {
    WalkStep(ids, cids, scores, ci, e, prev, maxValue, moveChoice, bestPrev, bestEdge, scores[e]);
  }

  /** When the walk has passed every edge it has passed every child, and the best move splits the children. */
  lemma WalkDone(ids: seq<int>, cids: seq<int>, scores: seq<real>, ci: int, prev: int,
                 maxValue: real, moveChoice: int, bestPrev: int, bestEdge: int)
    requires OrderedIds(ids, cids)
    requires WalkInv(ids, cids, scores, ci, |ids|, prev, maxValue, moveChoice, bestPrev, bestEdge)
    ensures ci == |cids|
    ensures bestEdge >= 0 ==> forall k | 0 <= k <= bestPrev :: cids[k] <= moveChoice
    ensures bestEdge >= 0 ==> forall k | bestPrev < k < |cids| :: cids[k] > moveChoice
  {
    if bestEdge >= 0 {
      SplitAt(cids, bestPrev, moveChoice);
    }
  }

  /**
   * The score of edge e, given that the walk stands at child ci: the child's
   * score when ci holds e's move, the prior term otherwise.
   */
  method EdgeValue(rule: Rule, n: Node, kids: seq<Node>, pri: seq<real>, exp: seq<real>, ci: int, e: int)
    returns (matched: bool, u: real)
    requires Ordered(n, kids) && |pri| == |exp| == |n.edges| && 0 <= e < |n.edges| && 0 <= ci <= |kids|
    requires !(ci < |kids| && KidIds(kids)[ci] == MoveIds(n.edges)[e]) ==> Position(KidIds(kids), MoveIds(n.edges)[e]) < 0
    ensures matched <==> ci < |kids| && KidIds(kids)[ci] == MoveIds(n.edges)[e]
    ensures u == EdgeScores(rule, n, kids, pri, exp)[e]
  {
    matched := ci < |kids| && kids[ci].childId == n.edges[e].moveId;
    if matched {
      MatchedScore(rule, n, kids, e, ci, pri, exp);
      u := ChildScore(rule, kids[ci], pri[e], exp[e]);
    } else {
      UnmatchedScore(rule, n, kids, e, pri, exp);
      u := pri[e];
    }
  }

  /**
   * The walk over the children and the edges of `search` (and its copy in
   * PlayMC): the edge chosen, with its score; the move chosen; and the
   * position after which it belongs in the child list (-1: at the head), a
   * child with that move sitting exactly at that position when it exists.
   */
  method Select(rule: Rule, n: Node, kids: seq<Node>, pri: seq<real>, exp: seq<real>)
    returns (maxValue: real, moveChoice: int, bestPrev: int, ghost bestEdge: int)
    requires Ordered(n, kids) && |pri| == |exp| == |n.edges|
    ensures Choice(bestEdge, maxValue) == BestOf(EdgeScores(rule, n, kids, pri, exp), |n.edges|)
    ensures bestEdge >= 0 ==> moveChoice == n.edges[bestEdge].moveId && -1 <= bestPrev < |kids|
    ensures bestEdge >= 0 ==> forall k | 0 <= k <= bestPrev :: KidIds(kids)[k] <= moveChoice
    ensures bestEdge >= 0 ==> forall k | bestPrev < k < |kids| :: KidIds(kids)[k] > moveChoice
  {
    ghost var ids := MoveIds(n.edges);
    ghost var cids := KidIds(kids);
    ghost var scores := EdgeScores(rule, n, kids, pri, exp);
    maxValue, moveChoice, bestPrev, bestEdge := -2.0, 0, -1, -1;
    var ci, prev, e := 0, -1, 0;
    assert OrderedIds(ids, cids);
    while e < |n.edges|
      invariant WalkInv(ids, cids, scores, ci, e, prev, maxValue, moveChoice, bestPrev, bestEdge)
    {
      WalkLookahead(ids, cids, scores, ci, e, prev, maxValue, moveChoice, bestPrev, bestEdge);
      ghost var ci0, prev0, max0, move0, bestPrev0, edge0 := ci, prev, maxValue, moveChoice, bestPrev, bestEdge;
      var matched, u := EdgeValue(rule, n, kids, pri, exp, ci, e);
      if matched {
        prev := ci;
        ci := ci + 1;
      }
      if u > maxValue {
        bestPrev := prev;
        maxValue := u;
        moveChoice := n.edges[e].moveId;
        bestEdge := e;
      }
      WalkAdvance(ids, cids, scores, ci0, e, prev0, max0, move0, bestPrev0, edge0,
                  ci, prev, maxValue, moveChoice, bestPrev, bestEdge);
      e := e + 1;
    }
    WalkDone(ids, cids, scores, ci, prev, maxValue, moveChoice, bestPrev, bestEdge);
  }
}
