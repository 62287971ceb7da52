/**
 * Operations on the search tree shared by the second-generation search classes
 * (trainmc.cpp, playmc.cpp) and the first-generation PlayMC (cpp/playmc.cpp):
 * walking up a path, splicing a new child into a sibling list, detaching the
 * chosen child as the new root, and deducing game-theoretic results.
 */
module TreeOps {
  import opened Common
  import MC = MoveCodec
  import GR = GameRules
  import opened SearchTree

  // ---------------------------------------------------------------------
  // Paths towards the root

  /** Every parent comes before its child and sits one level higher. */
  predicate Linked(nodes: seq<Node>)
  {
    (forall i | 0 <= i < |nodes| :: -1 <= nodes[i].parent < i) &&
    forall i | 0 <= i < |nodes| :: DepthLinked(nodes, i)
  }

  /** A node with a parent sits one level below it. */
  predicate DepthLinked(nodes: seq<Node>, i: int)
    requires 0 <= i < |nodes|
  {
    0 <= nodes[i].parent < i ==> nodes[i].depth == nodes[nodes[i].parent].depth + 1
  }

  lemma TreeLinked(nodes: seq<Node>)
    requires TreeOk(nodes)
    ensures Linked(nodes)
  {
    forall i | 0 <= i < |nodes|
      ensures -1 <= nodes[i].parent < i && (nodes[i].parent >= 0 ==> nodes[i].depth == nodes[nodes[i].parent].depth + 1)
    {
      assert NodeOk(nodes, i);
    }
  }

  /** Node i and all its ancestors: the nodes a walk along `parent` pointers visits. */
  function Path(nodes: seq<Node>, i: int): (p: set<int>)
    requires Linked(nodes) && 0 <= i < |nodes|
    ensures i in p
    ensures forall k | k in p :: 0 <= k <= i
    decreases i
  {
    if nodes[i].parent < 0 then {i} else {i} + Path(nodes, nodes[i].parent)
  }

  /** A root's path is the root alone; any other path is the node and its parent's path. */
  lemma PathOfRoot(nodes: seq<Node>, i: int)
    requires Linked(nodes) && 0 <= i < |nodes| && nodes[i].parent == -1
    ensures Path(nodes, i) == {i}
  {
  }

  /** Below i on its own path there is its parent's path only. */
  lemma PathBelow(nodes: seq<Node>, i: int, k: int)
    requires Linked(nodes) && 0 <= i < |nodes| && k in Path(nodes, i) && k != i
    ensures nodes[i].parent >= 0 && k in Path(nodes, nodes[i].parent)
  {
  }

  /** A path through k continues along k's own path. */
  lemma {:induction false} PathTransitive(nodes: seq<Node>, i: int, k: int)
    requires Linked(nodes) && 0 <= i < |nodes| && k in Path(nodes, i)
    ensures Path(nodes, k) <= Path(nodes, i)
    decreases i
  {
    if k != i {
      PathTransitive(nodes, nodes[i].parent, k);
    }
  }

  /** Two nodes on one path: the lower-indexed one lies on the other's path. */
  lemma {:induction false} PathChain(nodes: seq<Node>, i: int, a: int, b: int)
    requires Linked(nodes) && 0 <= i < |nodes| && a in Path(nodes, i) && b in Path(nodes, i) && a <= b
    ensures a in Path(nodes, b)
    decreases i
  {
    if b != i {
      PathChain(nodes, nodes[i].parent, a, b);
    }
  }

  /** Paths only depend on the parent pointers of the nodes they pass. */
  lemma {:induction false} PathKept(a: seq<Node>, b: seq<Node>, i: int)
    requires Linked(a) && Linked(b) && 0 <= i < |a| <= |b|
    requires forall k | 0 <= k <= i :: a[k].parent == b[k].parent
    ensures Path(a, i) == Path(b, i)
    decreases i
  {
    if a[i].parent >= 0 {
      PathKept(a, b, a[i].parent);
    }
  }

  /** A new root without children, appended to the arena, keeps the tree well formed. */
  lemma PlantKeepsTree(nodes: seq<Node>, n: Node)
    requires TreeOk(nodes) && n.parent == -1 && n.children == [] && GR.Shaped(n.game) && EdgesOk(n)
    ensures TreeOk(nodes + [n])
  {
    var r := nodes + [n];
    forall j | 0 <= j < |r| ensures NodeOk(r, j) {
      if j < |nodes| {
        assert NodeOk(nodes, j);
        assert Kids(r, j) == Kids(nodes, j);
      } else {
        assert KidIds(Kids(r, j)) == [];
      }
    }
  }

  // ---------------------------------------------------------------------
  // Counter updates along a path

  /** A visit count and an evaluation moved by the given amounts. */
  function Shift(n: Node, dv: int, de: real): (m: Node)
    ensures SameShape(n, m) && m.result == n.result && m.allVisited == n.allVisited && m.edges == n.edges
    ensures m.visits - n.visits == dv && m.evaluation - n.evaluation == de
  {
    n.(visits := n.visits + dv, evaluation := n.evaluation + de)
  }

  /** Moving the counters back restores the node. */
  lemma ShiftBack(n: Node, dv: int, de: real)
    ensures Shift(Shift(n, dv, de), -dv, -de) == n
  {
  }

  /**
   * The walk from node x to the root that moves every node's visits by `dv`
   * and evaluation by `de`: the undo of an abandoned descent
   * (`decrement_visits`, `decrease_evaluation(1.0)` in trainmc.cpp and
   * playmc.cpp; `increase_evaluation(1.0)` in cpp/playmc.cpp).
   */
  method ShiftPath(nodes: seq<Node>, x: int, dv: int, de: real) returns (r: seq<Node>)
    requires Linked(nodes) && 0 <= x < |nodes|
    ensures |r| == |nodes|
    ensures forall k | 0 <= k < |nodes| :: r[k] == if k in Path(nodes, x) then Shift(nodes[k], dv, de) else nodes[k]
  {
    r := nodes;
    var c := x;
    while c >= 0
      invariant -1 <= c < |nodes| && |r| == |nodes|
      invariant c >= 0 ==> Path(nodes, c) <= Path(nodes, x)
      invariant forall k | 0 <= k < |nodes| ::
        r[k] == if k in Path(nodes, x) && !(c >= 0 && k in Path(nodes, c)) then Shift(nodes[k], dv, de) else nodes[k]
      decreases c + 1
    {
      if nodes[c].parent >= 0 {
        PathTransitive(nodes, c, nodes[c].parent);
      }
      r := r[c := Shift(r[c], dv, de)];
      c := r[c].parent;
    }
  }

  // ---------------------------------------------------------------------
  // Well-formedness under updates

  /** Two arenas of the same length whose nodes pairwise keep their shape. */
  predicate SameShapes(a: seq<Node>, b: seq<Node>)
  {
    |a| == |b| && forall k | 0 <= k < |a| :: SameShape(a[k], b[k])
  }

  /** Changing only counters, results, flags and priors keeps the tree well formed. */
  lemma SameShapesKeepTree(a: seq<Node>, b: seq<Node>)
    requires TreeOk(a) && SameShapes(a, b)
    ensures TreeOk(b)
  {
    forall j | 0 <= j < |b| ensures NodeOk(b, j) {
      assert NodeOk(a, j);
      assert KidIds(Kids(b, j)) == KidIds(Kids(a, j));
    }
  }

  // ---------------------------------------------------------------------
  // Splicing a new child into a sibling list

  /** `s` with `x` inserted at position `pos`. */
  function Inserted(s: seq<int>, pos: int, x: int): (r: seq<int>)
    requires 0 <= pos <= |s|
    ensures |r| == |s| + 1 && r[pos] == x
    ensures forall k | 0 <= k < pos :: r[k] == s[k]
    ensures forall k | pos < k < |r| :: r[k] == s[k - 1]
    ensures forall y :: y in r <==> y == x || y in s
  {
    s[..pos] + [x] + s[pos..]
  }

  /**
   * A new node for `move` appended to the arena and linked into node p's
   * list at position `pos`: at the head of the list when `pos` is 0, else
   * after the node at `pos - 1` (`set_first_child` / `set_next_sibling` with
   * the child constructor).
   */
  function Grow(nodes: seq<Node>, p: int, pos: int, move: int, breakers: seq<seq<bool>>): (r: seq<Node>)
    requires 0 <= p < |nodes| && 0 <= pos <= |nodes[p].children| && 0 <= move < MC.NumMoves
    requires GR.Shaped(nodes[p].game) && GR.BreakersShape(breakers)
    ensures |r| == |nodes| + 1 && r[|nodes|] == FreshChild(nodes[p], p, move, breakers)
    ensures r[p] == nodes[p].(children := Inserted(nodes[p].children, pos, |nodes|))
    ensures forall k | 0 <= k < |nodes| && k != p :: r[k] == nodes[k]
  {
    var q := nodes[p];
    nodes[p := q.(children := Inserted(q.children, pos, |nodes|))] + [FreshChild(q, p, move, breakers)]
  }

  /** Inserting a value where it falls keeps a sequence strictly increasing. */
  lemma InsertIncreasing(s: seq<int>, pos: int, x: int)
    requires Increasing(s) && 0 <= pos <= |s|
    requires forall k | 0 <= k < pos :: s[k] < x
    requires forall k | pos <= k < |s| :: x < s[k]
    ensures Increasing(Inserted(s, pos, x))
  {
    var r := Inserted(s, pos, x);
    forall a, b | 0 <= a < b < |r| ensures r[a] < r[b] {
      if b < pos { } else if b == pos { } else if a < pos { } else if a == pos { } else { }
    }
  }

  /**
   * The move ids under node p of an arena `g` whose child list for p is the
   * old one with the new node `|nodes|` inserted at `pos`, and which keeps
   * every old child.
   */
  lemma InsertedKidIds(nodes: seq<Node>, g: seq<Node>, p: int, pos: int, move: int)
    requires 0 <= p < |nodes| && ChildrenAfter(nodes, p) && 0 <= pos <= |nodes[p].children|
    requires |g| == |nodes| + 1 && g[|nodes|].childId == move
    requires g[p].children == Inserted(nodes[p].children, pos, |nodes|)
    requires forall k | 0 <= k < |nodes| && k != p :: g[k] == nodes[k]
    ensures ChildrenAfter(g, p)
    ensures KidIds(Kids(g, p)) == Inserted(KidIds(Kids(nodes, p)), pos, move)
  {
    var cs := g[p].children;
    assert ChildrenAfter(g, p) by {
      forall k | 0 <= k < |cs| ensures p < cs[k] < |g| {
        if k < pos { } else if k == pos { } else { assert cs[k] == nodes[p].children[k - 1]; }
      }
    }
    var a := KidIds(Kids(g, p));
    var b := Inserted(KidIds(Kids(nodes, p)), pos, move);
    assert |a| == |b|;
    forall k | 0 <= k < |a| ensures a[k] == b[k] {
      if k < pos {
        assert a[k] == g[cs[k]].childId && cs[k] == nodes[p].children[k];
      } else if k == pos {
        assert a[k] == g[|nodes|].childId;
      } else {
        assert a[k] == g[cs[k]].childId && cs[k] == nodes[p].children[k - 1];
      }
    }
  }

  /** The children of the grown node: the old ones with the new child at `pos`. */
  lemma GrowKids(nodes: seq<Node>, p: int, pos: int, move: int, breakers: seq<seq<bool>>)
    requires 0 <= p < |nodes| && ChildrenAfter(nodes, p) && 0 <= pos <= |nodes[p].children| && 0 <= move < MC.NumMoves
    requires GR.Shaped(nodes[p].game) && GR.BreakersShape(breakers)
    ensures ChildrenAfter(Grow(nodes, p, pos, move, breakers), p)
    ensures KidIds(Kids(Grow(nodes, p, pos, move, breakers), p)) == Inserted(KidIds(Kids(nodes, p)), pos, move)
  {
    InsertedKidIds(nodes, Grow(nodes, p, pos, move, breakers), p, pos, move);
  }

  /** The parent of the new node stays well formed. */
  lemma GrowParentOk(nodes: seq<Node>, p: int, pos: int, move: int, breakers: seq<seq<bool>>)
    requires TreeOk(nodes) && 0 <= p < |nodes| && ChildrenAfter(nodes, p) && 0 <= pos <= |nodes[p].children|
    requires 0 <= move < MC.NumMoves && GR.Shaped(nodes[p].game) && GR.BreakersShape(breakers) && move in MoveIds(nodes[p].edges)
    requires forall k | 0 <= k < pos :: KidIds(Kids(nodes, p))[k] < move
    requires forall k | pos <= k < |nodes[p].children| :: move < KidIds(Kids(nodes, p))[k]
    ensures NodeOk(Grow(nodes, p, pos, move, breakers), p)
  {
    var g := Grow(nodes, p, pos, move, breakers);
    assert NodeOk(nodes, p);
    GrowKids(nodes, p, pos, move, breakers);
    InsertIncreasing(KidIds(Kids(nodes, p)), pos, move);
    var ids := KidIds(Kids(g, p));
    forall k | 0 <= k < |ids| ensures ids[k] in MoveIds(g[p].edges) {
      if k < pos { } else if k == pos { } else { assert ids[k] == KidIds(Kids(nodes, p))[k - 1]; }
    }
    forall k | 0 <= k < |g[p].children| ensures g[g[p].children[k]].parent == p {
      if k < pos { } else if k == pos { } else { }
    }
  }

  /** The new node itself is well formed: a fresh child with no children. */
  lemma GrowChildOk(nodes: seq<Node>, p: int, pos: int, move: int, breakers: seq<seq<bool>>)
    requires 0 <= p < |nodes| && ChildrenAfter(nodes, p) && 0 <= pos <= |nodes[p].children|
    requires 0 <= move < MC.NumMoves && GR.Shaped(nodes[p].game) && GR.BreakersShape(breakers)
    ensures NodeOk(Grow(nodes, p, pos, move, breakers), |nodes|)
  {
    var g := Grow(nodes, p, pos, move, breakers);
    assert Kids(g, |nodes|) == [];
    assert |nodes| in g[p].children;
  }

  /** Every other node keeps its children and what they record. */
  lemma GrowOtherOk(nodes: seq<Node>, p: int, pos: int, move: int, breakers: seq<seq<bool>>, j: int)
    requires TreeOk(nodes) && 0 <= p < |nodes| && ChildrenAfter(nodes, p) && 0 <= pos <= |nodes[p].children|
    requires 0 <= move < MC.NumMoves && GR.Shaped(nodes[p].game) && GR.BreakersShape(breakers)
    requires 0 <= j < |nodes| && j != p
    ensures NodeOk(Grow(nodes, p, pos, move, breakers), j)
  {
    var g := Grow(nodes, p, pos, move, breakers);
    assert NodeOk(nodes, j);
    assert KidIds(Kids(g, j)) == KidIds(Kids(nodes, j));
  }

  /**
   * Inserting a child for one of the node's moves where it falls in move
   * order keeps the tree well formed: this is how the sibling list stays in
   * edge order.
   */
  lemma GrowKeepsTree(nodes: seq<Node>, p: int, pos: int, move: int, breakers: seq<seq<bool>>)
    requires TreeOk(nodes) && 0 <= p < |nodes| && ChildrenAfter(nodes, p) && 0 <= pos <= |nodes[p].children|
    requires 0 <= move < MC.NumMoves && GR.Shaped(nodes[p].game) && GR.BreakersShape(breakers) && move in MoveIds(nodes[p].edges)
    requires forall k | 0 <= k < pos :: KidIds(Kids(nodes, p))[k] < move
    requires forall k | pos <= k < |nodes[p].children| :: move < KidIds(Kids(nodes, p))[k]
    ensures TreeOk(Grow(nodes, p, pos, move, breakers))
  {
    var g := Grow(nodes, p, pos, move, breakers);
    forall j | 0 <= j < |g| ensures NodeOk(g, j) {
      if j == |nodes| {
        GrowChildOk(nodes, p, pos, move, breakers);
      } else if j == p {
        GrowParentOk(nodes, p, pos, move, breakers);
      } else {
        GrowOtherOk(nodes, p, pos, move, breakers, j);
      }
    }
  }

  // ---------------------------------------------------------------------
  // Re-rooting

  /** `s` without its element at `pos`. */
  function Removed(s: seq<int>, pos: int): (r: seq<int>)
    requires 0 <= pos < |s|
    ensures |r| == |s| - 1
    ensures forall k | 0 <= k < pos :: r[k] == s[k]
    ensures forall k | pos <= k < |r| :: r[k] == s[k + 1]
  {
    s[..pos] + s[pos + 1..]
  }

  /**
   * `move_down`: the child at position `pos` of the root's list is unlinked
   * from the list (from the head, or after its predecessor) and loses its
   * parent, becoming the root of its own tree.
   */
  function Detach(nodes: seq<Node>, root: int, pos: int): (r: seq<Node>)
    requires 0 <= root < |nodes| && 0 <= pos < |nodes[root].children|
    requires root < nodes[root].children[pos] < |nodes|
    ensures |r| == |nodes|
    ensures var c := nodes[root].children[pos];
      r[c] == nodes[c].(parent := -1) &&
      r[root] == nodes[root].(children := Removed(nodes[root].children, pos)) &&
      forall k | 0 <= k < |nodes| && k != c && k != root :: r[k] == nodes[k]
  {
    var c := nodes[root].children[pos];
    var r := nodes[root := nodes[root].(children := Removed(nodes[root].children, pos))];
    r[c := r[c].(parent := -1)]
  }

  /** In a well-formed tree a node's children are distinct nodes. */
  lemma ChildrenDistinct(nodes: seq<Node>, i: int, a: int, b: int)
    requires TreeOk(nodes) && 0 <= i < |nodes| && 0 <= a < b < |nodes[i].children|
    ensures nodes[i].children[a] != nodes[i].children[b]
  {
    assert NodeOk(nodes, i);
    var ids := KidIds(Kids(nodes, i));
    assert ids[a] < ids[b];
  }

  /** The root's remaining children: the old list without position `pos`. */
  lemma DetachKids(nodes: seq<Node>, root: int, pos: int)
    requires TreeOk(nodes) && 0 <= root < |nodes| && ChildrenAfter(nodes, root) && 0 <= pos < |nodes[root].children|
    requires root < nodes[root].children[pos] < |nodes|
    ensures ChildrenAfter(Detach(nodes, root, pos), root)
    ensures KidIds(Kids(Detach(nodes, root, pos), root)) == Removed(KidIds(Kids(nodes, root)), pos)
  {
    var c := nodes[root].children[pos];
    var d := Detach(nodes, root, pos);
    assert NodeOk(nodes, root);
    forall k | 0 <= k < |nodes[root].children| && k != pos ensures nodes[root].children[k] != c {
      if k < pos { ChildrenDistinct(nodes, root, k, pos); } else { ChildrenDistinct(nodes, root, pos, k); }
    }
    var a := KidIds(Kids(d, root));
    var b := Removed(KidIds(Kids(nodes, root)), pos);
    forall k | 0 <= k < |a| ensures a[k] == b[k] {
      if k < pos { } else { assert d[root].children[k] == nodes[root].children[k + 1]; }
    }
  }

  /** Dropping an element keeps a sequence strictly increasing. */
  lemma RemoveIncreasing(s: seq<int>, pos: int)
    requires Increasing(s) && 0 <= pos < |s|
    ensures Increasing(Removed(s, pos))
  {
    var r := Removed(s, pos);
    forall a, b | 0 <= a < b < |r| ensures r[a] < r[b] {
      if b < pos { } else if a < pos { } else { }
    }
  }

  /** The old root stays well formed with one child fewer. */
  lemma DetachRootOk(nodes: seq<Node>, root: int, pos: int)
    requires TreeOk(nodes) && 0 <= root < |nodes| && 0 <= pos < |nodes[root].children|
    requires root < nodes[root].children[pos] < |nodes|
    ensures NodeOk(Detach(nodes, root, pos), root)
  {
    var d := Detach(nodes, root, pos);
    assert NodeOk(nodes, root);
    DetachKids(nodes, root, pos);
    RemoveIncreasing(KidIds(Kids(nodes, root)), pos);
    var ids := KidIds(Kids(d, root));
    forall k | 0 <= k < |ids| ensures ids[k] in MoveIds(d[root].edges) {
      if k < pos { } else { assert ids[k] == KidIds(Kids(nodes, root))[k + 1]; }
    }
    forall k | 0 <= k < |d[root].children| ensures d[d[root].children[k]].parent == root {
      if k < pos {
        ChildrenDistinct(nodes, root, k, pos);
      } else {
        ChildrenDistinct(nodes, root, pos, k + 1);
      }
    }
  }

  /** Every other node keeps its children, and a child of the old root other than the detached one stays listed. */
  lemma DetachOtherOk(nodes: seq<Node>, root: int, pos: int, j: int)
    requires TreeOk(nodes) && 0 <= root < |nodes| && 0 <= pos < |nodes[root].children|
    requires root < nodes[root].children[pos] < |nodes|
    requires 0 <= j < |nodes| && j != root
    ensures NodeOk(Detach(nodes, root, pos), j)
  {
    var c := nodes[root].children[pos];
    var d := Detach(nodes, root, pos);
    assert NodeOk(nodes, root);
    assert NodeOk(nodes, j);
    assert KidIds(Kids(d, j)) == KidIds(Kids(nodes, j));
    if j != c && nodes[j].parent == root {
      var k :| 0 <= k < |nodes[root].children| && nodes[root].children[k] == j;
      assert k != pos;
      assert j == d[root].children[if k < pos then k else k - 1];
    }
  }

  /** Detaching a child keeps the tree well formed, with the child now a root. */
  lemma DetachKeepsTree(nodes: seq<Node>, root: int, pos: int)
    requires TreeOk(nodes) && 0 <= root < |nodes| && 0 <= pos < |nodes[root].children|
    ensures root < nodes[root].children[pos] < |nodes|
    ensures TreeOk(Detach(nodes, root, pos))
  {
    assert NodeOk(nodes, root);
    var d := Detach(nodes, root, pos);
    forall j | 0 <= j < |d| ensures NodeOk(d, j) {
      if j == root {
        DetachRootOk(nodes, root, pos);
      } else {
        DetachOtherOk(nodes, root, pos, j);
      }
    }
  }

  // ---------------------------------------------------------------------
  // Result deduction: `propagate_result`

  /** Every legal move has a child, in edge order, and every child's result is known. */
  predicate Complete(n: Node, kids: seq<Node>)
  {
    KidIds(kids) == MoveIds(n.edges) && forall k | 0 <= k < |kids| :: Known(kids[k])
  }

  predicate HasDraw(kids: seq<Node>)
  {
    exists k | 0 <= k < |kids| :: Drawn(kids[k])
  }

  /**
   * What the deduction step from node x concludes about x's parent: a lost
   * x makes the parent won; otherwise, with every move of the parent tried
   * and known, the parent is drawn if some child is drawn and lost if none is.
   */
  predicate Deduced(nodes: seq<Node>, x: int)
  {
    0 <= x < |nodes| && 0 <= nodes[x].parent < x && ChildrenAfter(nodes, nodes[x].parent) &&
    var p := nodes[x].parent;
    if Lost(nodes[x]) then nodes[p].result == DeducedWin
    else (Complete(nodes[p], Kids(nodes, p)) &&
          nodes[p].result == (if HasDraw(Kids(nodes, p)) then DeducedDraw else DeducedLoss))
  }

  /** The position of each child move among the edge moves grows at least as fast as the child index. */
  lemma {:induction false} OrderedPositions(ids: seq<int>, cids: seq<int>, k: int)
    requires OrderedIds(ids, cids) && 0 <= k < |cids|
    ensures k <= Position(ids, cids[k])
  {
    if k > 0 {
      OrderedPositions(ids, cids, k - 1);
      assert cids[k - 1] < cids[k];
      IncreasingOrder(ids, Position(ids, cids[k - 1]), Position(ids, cids[k]));
    }
  }

  /** In a strictly increasing sequence the order of values is the order of positions. */
  lemma IncreasingOrder(s: seq<int>, i: int, j: int)
    requires Increasing(s) && 0 <= i < |s| && 0 <= j < |s| && s[i] < s[j]
    ensures i < j
  {
  }

  /** A node has no more children than edges. */
  lemma OrderedFits(n: Node, kids: seq<Node>)
    requires Ordered(n, kids)
    ensures |kids| <= |n.edges|
  {
    if |kids| > 0 {
      OrderedPositions(MoveIds(n.edges), KidIds(kids), |kids| - 1);
    }
  }

  /**
   * The scan of a parent's children in `propagate_result`: stop at the first
   * child out of step with the edges or without a result; otherwise the
   * list is complete if it reached the last edge, and `hasDraw` tells
   * whether some child is drawn.
   */
  method CheckKids(n: Node, kids: seq<Node>) returns (complete: bool, hasDraw: bool)
    requires |kids| <= |n.edges|
    ensures complete <==> Complete(n, kids)
    ensures complete ==> (hasDraw <==> HasDraw(kids))
  {
    hasDraw := false;
    var k := 0;
    while k < |kids|
      invariant 0 <= k <= |kids|
      invariant forall i | 0 <= i < k :: kids[i].childId == n.edges[i].moveId && Known(kids[i])
      invariant hasDraw <==> exists i | 0 <= i < k :: Drawn(kids[i])
    {
      if kids[k].childId != n.edges[k].moveId || kids[k].result == NoResult {
        assert KidIds(kids)[k] != MoveIds(n.edges)[k] || !Known(kids[k]);
        return false, hasDraw;
      }
      if kids[k].result == Draw || kids[k].result == DeducedDraw {
        hasDraw := true;
      }
      k := k + 1;
    }
    complete := k == |n.edges|;
    if complete {
      assert KidIds(kids) == MoveIds(n.edges);
    }
  }

  /** Agreement of two arenas from index p + 1 on. */
  predicate AgreeAbove(a: seq<Node>, b: seq<Node>, p: int)
  {
    |a| == |b| && forall i | p < i < |a| && 0 <= i :: a[i] == b[i]
  }

  /** A deduction step depends only on the nodes from the parent on. */
  lemma DeducedKept(a: seq<Node>, b: seq<Node>, x: int, p: int)
    requires Deduced(a, x) && AgreeAbove(a, b, p) && p < a[x].parent
    ensures Deduced(b, x)
  {
    var q := a[x].parent;
    assert Kids(a, q) == Kids(b, q);
  }

  /** The state of the `propagate_result` walk when it stands at `node`. */
  ghost predicate PropInv(nodes: seq<Node>, r: seq<Node>, cur: int, root: int, node: int)
  {
    Linked(nodes) && 0 <= node <= cur < |nodes| && node in Path(nodes, cur) && root in Path(nodes, node) &&
    |r| == |nodes| &&
    (forall k | 0 <= k < |nodes| :: r[k] == nodes[k].(result := r[k].result)) &&
    (forall k | 0 <= k < |nodes| && r[k].result != nodes[k].result :: k in Path(nodes, cur) && node <= k < cur) &&
    (forall k | k in Path(nodes, cur) && node < k :: Deduced(r, k))
  }

  /** Below the root the walk has a parent to go to, with its children in edge order. */
  lemma PropParent(nodes: seq<Node>, r: seq<Node>, cur: int, root: int, node: int)
    requires TreeOk(nodes) && PropInv(nodes, r, cur, root, node) && node != root
    ensures 0 <= r[node].parent < node && root in Path(nodes, r[node].parent)
    ensures ChildrenAfter(r, r[node].parent) && |Kids(r, r[node].parent)| <= |r[r[node].parent].edges|
  {
    var p := r[node].parent;
    PathBelow(nodes, node, root);
    assert NodeOk(nodes, p);
    assert KidIds(Kids(r, p)) == KidIds(Kids(nodes, p));
    OrderedFits(r[p], Kids(r, p));
  }

  /** One deduction step moves the walk from `node` to its parent. */
  lemma PropStep(nodes: seq<Node>, r: seq<Node>, cur: int, root: int, node: int, res: Result)
    requires TreeOk(nodes) && PropInv(nodes, r, cur, root, node) && node != root
    requires 0 <= r[node].parent < node && ChildrenAfter(r, r[node].parent)
    requires var p := r[node].parent;
      if Lost(r[node]) then res == DeducedWin
      else (Complete(r[p], Kids(r, p)) && res == (if HasDraw(Kids(r, p)) then DeducedDraw else DeducedLoss))
    ensures PropInv(nodes, r[r[node].parent := r[r[node].parent].(result := res)], cur, root, r[node].parent)
  {
    var p := r[node].parent;
    var r' := r[p := r[p].(result := res)];
    PathBelow(nodes, node, root);
    PathTransitive(nodes, cur, node);
    assert Kids(r', p) == Kids(r, p);
    forall k | k in Path(nodes, cur) && p < k ensures Deduced(r', k) {
      if k != node {
        if k < node {
          PathChain(nodes, cur, k, node);
          PathBelow(nodes, node, k);
        }
        PathChain(nodes, cur, node, k);
        PathBelow(nodes, k, node);
        DeducedKept(r, r', k, p);
      }
    }
  }

  /**
   * `propagate_result`: from the terminal node `cur` towards `root`, each
   * step deduces the parent's result from the node just left; the walk stops
   * at the root, or early, at `top`, when the parent's moves are not all
   * tried and known.  Only results change, only on the path from `cur`
   * strictly above it and not above `top`.
   */
  method Propagate(nodes: seq<Node>, root: int, cur: int) returns (r: seq<Node>, ghost top: int)
    requires TreeOk(nodes) && Linked(nodes) && 0 <= cur < |nodes| && 0 <= root < |nodes| && root in Path(nodes, cur)
    ensures |r| == |nodes| && TreeOk(r)
    ensures forall k | 0 <= k < |nodes| :: r[k] == nodes[k].(result := r[k].result)
    ensures top in Path(nodes, cur) && root in Path(nodes, top)
    ensures forall k | 0 <= k < |nodes| && r[k].result != nodes[k].result :: k in Path(nodes, cur) && top <= k < cur
    ensures forall k | k in Path(nodes, cur) && top < k :: Deduced(r, k)
    ensures top == root || (0 <= r[top].parent < top && ChildrenAfter(r, r[top].parent) &&
      !Lost(r[top]) && !Complete(r[r[top].parent], Kids(r, r[top].parent)))
  {
    r := nodes;
    var node := cur;
    while node != root
      invariant PropInv(nodes, r, cur, root, node)
      decreases node
    {
      PropParent(nodes, r, cur, root, node);
      var p := r[node].parent;
      var res;
      if r[node].result == Loss || r[node].result == DeducedLoss {
        res := DeducedWin;
      } else {
        var complete, hasDraw := CheckKids(r[p], Kids(r, p));
        if !complete {
          top := node;
          SameShapesKeepTree(nodes, r);
          return;
        }
        res := if hasDraw then DeducedDraw else DeducedLoss;
      }
      PropStep(nodes, r, cur, root, node, res);
      r := r[p := r[p].(result := res)];
      node := p;
    }
    top := node;
    SameShapesKeepTree(nodes, r);
  }
}
