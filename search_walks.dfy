/**
 * The walks one search iteration makes through the tree (trainmc.cpp and
 * playmc.cpp `search` and `receive_evaluation`; cpp/playmc.cpp): the
 * descent from the root that picks or creates a child at each level, and
 * the walks back up that credit evaluations.
 *
 * Evaluations are running sums seen from the side to move at each node.
 * A descent adds a provisional +1 to every node it passes; the backup of a
 * leaf's value v then adds `v - 1`, `-v - 1`, `v - 1`, ... going up, so that
 * each node on the path ends up credited with v from its own side.
 */
module SearchWalks {
  import opened Common
  import MC = MoveCodec
  import GR = GameRules
  import opened SearchTree
  import opened TreeOps

  // ---------------------------------------------------------------------
  // Crediting a value along a path

  /** A value seen from the side to move `d` plies further up: negated at odd distances. */
  function Alt(v: real, d: int): (w: real)
    ensures w == v || w == -v
    ensures d % 2 == 0 ==> w == v
  {
    if d % 2 == 0 then v else -v
  }

  lemma AltStep(v: real, d: int)
    ensures Alt(v, d + 1) == -Alt(v, d) && Alt(-v, d) == -Alt(v, d)
  {
  }

  /** One node credited with value `v` plus `offset`; `clear` resets all_visited unless the node is a root. */
  function Credit(n: Node, v: real, offset: real, clear: bool): (m: Node)
    ensures SameShape(n, m) && m.visits == n.visits && m.result == n.result && m.edges == n.edges
    ensures m.evaluation == n.evaluation + v + offset
  {
    n.(evaluation := n.evaluation + v + offset, allVisited := if clear && n.parent >= 0 then false else n.allVisited)
  }

  /** The tree after crediting `v` at node `from` and alternating values at its ancestors. */
  function BackedUp(nodes: seq<Node>, from: int, v: real, offset: real, clear: bool): (r: seq<Node>)
    requires Linked(nodes) && 0 <= from < |nodes|
    ensures SameShapes(nodes, r)
  {
    seq(|nodes|, k requires 0 <= k < |nodes| => BackedNode(nodes, from, v, offset, clear, k))
  }

  /** Node k after the backup: credited when it lies on the path from `from`, unchanged otherwise. */
  function BackedNode(nodes: seq<Node>, from: int, v: real, offset: real, clear: bool, k: int): (m: Node)
    requires Linked(nodes) && 0 <= from < |nodes| && 0 <= k < |nodes|
    ensures SameShape(nodes[k], m)
  {
    if k in Path(nodes, from) then Credit(nodes[k], Alt(v, nodes[from].depth - nodes[k].depth), offset, clear)
    else nodes[k]
  }

  /** The backup loop standing at node c (or past the root, c = -1) with value cv. */
  ghost predicate BackInv(nodes: seq<Node>, r: seq<Node>, from: int, v: real, offset: real, clear: bool, c: int, cv: real)
  {
    Linked(nodes) && 0 <= from < |nodes| && -1 <= c < |nodes| && |r| == |nodes| &&
    (c >= 0 ==> Path(nodes, c) <= Path(nodes, from) && cv == Alt(v, nodes[from].depth - nodes[c].depth)) &&
    forall k | 0 <= k < |nodes| ::
      r[k] == if k in Path(nodes, from) && !(c >= 0 && k in Path(nodes, c))
              then Credit(nodes[k], Alt(v, nodes[from].depth - nodes[k].depth), offset, clear) else nodes[k]
  }

  lemma BackStep(nodes: seq<Node>, r: seq<Node>, from: int, v: real, offset: real, clear: bool, c: int, cv: real)
    requires BackInv(nodes, r, from, v, offset, clear, c, cv) && c >= 0
    ensures BackInv(nodes, r[c := Credit(r[c], cv, offset, clear)], from, v, offset, clear, nodes[c].parent, -cv)
  {
    var p := nodes[c].parent;
    if p >= 0 {
      assert DepthLinked(nodes, c);
      PathTransitive(nodes, c, p);
      AltStep(v, nodes[from].depth - nodes[c].depth);
    }
  }

  lemma BackDone(nodes: seq<Node>, r: seq<Node>, from: int, v: real, offset: real, clear: bool, cv: real)
    requires BackInv(nodes, r, from, v, offset, clear, -1, cv)
    ensures r == BackedUp(nodes, from, v, offset, clear)
  {
  }

  /**
   * The backup loop: from `from` to the root, add the current value plus
   * `offset`, then negate the value for the parent.
   */
  method Backup(nodes: seq<Node>, from: int, v: real, offset: real, clear: bool) returns (r: seq<Node>)
    requires Linked(nodes) && 0 <= from < |nodes|
    ensures r == BackedUp(nodes, from, v, offset, clear)
  {
    r := nodes;
    var c := from;
    var cv := v;
    while c >= 0
      invariant BackInv(nodes, r, from, v, offset, clear, c, cv)
      decreases c + 1
    {
      BackStep(nodes, r, from, v, offset, clear, c, cv);
      r := r[c := Credit(r[c], cv, offset, clear)];
      cv := -cv;
      c := nodes[c].parent;
    }
    BackDone(nodes, r, from, v, offset, clear, cv);
  }

  // ---------------------------------------------------------------------
  // The descent

  /** Where the descent stops: `terminal` (Loss, Draw) in the second generation, `is_terminal` (also Win) in the first. */
  predicate StopsAt(rule: Rule, n: Node)
  {
    if rule == First then OldTerminal(n) else Terminal(n)
  }

  /** How a descent ends: at a node with nothing selectable, or at a leaf. */
  datatype Descent = Blocked(at: int) | Reached(leaf: int)

  /** What to do at one level of the descent. */
  datatype Step =
    | Stuck                      // no edge scores above -2
    | Down(child: int)           // the best move has a child: go on at this position of the list
    | Grew(pos: int, move: int)  // the best move has no child: create one at this position

  /**
   * The decision `search` takes at node n from the walk's choice: nothing
   * selectable; the existing child of the best move (`best_prev_node`
   * itself); or a new child for it, at the head of the list when
   * `best_prev_node` is null, else right after it.
   */
  method Decide(rule: Rule, n: Node, kids: seq<Node>, pri: seq<real>, exp: seq<real>) returns (s: Step)
    requires Ordered(n, kids) && |pri| == |exp| == |n.edges|
    ensures var c := BestOf(EdgeScores(rule, n, kids, pri, exp), |n.edges|);
      (s == Stuck <==> c.edge < 0) &&
      (s.Down? ==> 0 <= c.edge && 0 <= s.child < |kids| && KidIds(kids)[s.child] == n.edges[c.edge].moveId) &&
      (s.Grew? ==> (0 <= c.edge && s.move == n.edges[c.edge].moveId && 0 <= s.pos <= |kids| &&
        (forall k | 0 <= k < s.pos :: KidIds(kids)[k] < s.move) &&
        (forall k | s.pos <= k < |kids| :: s.move < KidIds(kids)[k])))
    ensures s.Grew? ==> s.move in MoveIds(n.edges) && 0 <= s.move < MC.NumMoves
    ensures s.Down? ==> !kids[s.child].allVisited && (rule == Current ==> kids[s.child].result == NoResult || Drawn(kids[s.child]))
  {
    var maxValue, moveChoice, bestPrev, bestEdge := Select(rule, n, kids, pri, exp);
    BestOfIsBest(EdgeScores(rule, n, kids, pri, exp), |n.edges|);
    if maxValue == -2.0 {
      return Stuck;
    }
    if bestPrev == -1 {
      s := Grew(0, moveChoice);
      assert MoveIds(n.edges)[bestEdge] == moveChoice;
    } else if kids[bestPrev].childId != moveChoice {
      s := Grew(bestPrev + 1, moveChoice);
      assert MoveIds(n.edges)[bestEdge] == moveChoice;
      assert KidIds(kids)[bestPrev] < moveChoice;
      forall k | 0 <= k < bestPrev + 1 ensures KidIds(kids)[k] < moveChoice {
        if k < bestPrev {
          assert KidIds(kids)[k] < KidIds(kids)[bestPrev];
        }
      }
    } else {
      s := Down(bestPrev);
      MatchedScore(rule, n, kids, bestEdge, bestPrev, pri, exp);
    }
  }

  /** `r` is `base` with the provisional visit and `de` added at every strict ancestor of `cur`. */
  ghost predicate Bumped(base: seq<Node>, r: seq<Node>, cur: int, de: real)
  {
    Linked(base) && 0 <= cur < |base| && |r| == |base| &&
    forall k | 0 <= k < |base| :: r[k] == if k in Path(base, cur) && k != cur then Shift(base[k], 1, de) else base[k]
  }

  /** The descent standing at `cur`. */
  ghost predicate DescInv(nodes: seq<Node>, r: seq<Node>, root: int, cur: int, de: real)
  {
    TreeOk(nodes) && Linked(nodes) && 0 <= cur < |nodes| && 0 <= root < |nodes| && root in Path(nodes, cur) &&
    Bumped(nodes, r, cur, de) && TreeOk(r)
  }

  lemma DescStart(nodes: seq<Node>, root: int, de: real)
    requires TreeOk(nodes) && 0 <= root < |nodes| && nodes[root].parent == -1
    ensures DescInv(nodes, nodes, root, root, de)
  {
    TreeLinked(nodes);
    PathOfRoot(nodes, root);
  }

  lemma DescKids(nodes: seq<Node>, r: seq<Node>, root: int, cur: int, de: real)
    requires DescInv(nodes, r, root, cur, de)
    ensures ChildrenAfter(r, cur) && Ordered(r[cur], Kids(r, cur)) && GR.Shaped(r[cur].game)
    ensures KidIds(Kids(r, cur)) == KidIds(Kids(nodes, cur)) && r[cur] == nodes[cur]
  {
    assert NodeOk(r, cur);
    assert NodeOk(nodes, cur);
  }

  /** Going down to an existing child: the node left behind has its visit counted. */
  lemma DescDown(nodes: seq<Node>, r: seq<Node>, root: int, cur: int, de: real, child: int)
    requires DescInv(nodes, r, root, cur, de) && 0 <= child < |r[cur].children|
    ensures cur < r[cur].children[child] < |nodes| && r[r[cur].children[child]] == nodes[r[cur].children[child]]
    ensures DescInv(nodes, r[cur := Shift(r[cur], 1, de)], root, r[cur].children[child], de)
  {
    var c := r[cur].children[child];
    assert NodeOk(r, cur);
    assert NodeOk(nodes, cur);
    assert nodes[c].parent == cur;
    assert Path(nodes, c) == {c} + Path(nodes, cur);
    PathTransitive(nodes, c, root);
    UpdateKeepsTree(r, cur, Shift(r[cur], 1, de));
  }

  /** Nothing selectable: marking the node and undoing the visits leaves only the mark. */
  lemma DescStuck(nodes: seq<Node>, r: seq<Node>, root: int, cur: int, de: real, r2: seq<Node>)
    requires DescInv(nodes, r, root, cur, de)
    requires var r1 := r[cur := Shift(r[cur], 1, de).(allVisited := true)];
      Linked(r1) && |r2| == |r1| &&
      forall k | 0 <= k < |r1| :: r2[k] == if k in Path(r1, cur) then Shift(r1[k], -1, -de) else r1[k]
    ensures r2 == nodes[cur := nodes[cur].(allVisited := true)]
  {
    var r1 := r[cur := Shift(r[cur], 1, de).(allVisited := true)];
    PathKept(nodes, r1, cur);
    forall k | 0 <= k < |r2| ensures r2[k] == nodes[cur := nodes[cur].(allVisited := true)][k] {
      if k in Path(nodes, cur) {
        ShiftBack(nodes[k], 1, de);
      }
    }
  }

  /**
   * The undo of `search` when nothing is selectable at `cur`: the node is
   * marked all_visited, and walking back to the root takes off the visit
   * and the `de` each ancestor got on the way down, and the node's own.
   */
  method Undo(nodes: seq<Node>, r: seq<Node>, root: int, cur: int, de: real) returns (r2: seq<Node>)
    requires DescInv(nodes, r, root, cur, de)
    ensures r2 == nodes[cur := nodes[cur].(allVisited := true)] && TreeOk(r2)
  {
    var r1 := r[cur := Shift(r[cur], 1, de).(allVisited := true)];
    assert SameShapes(nodes, r1);
    LinkedShapes(nodes, r1);
    r2 := ShiftPath(r1, cur, -1, -de);
    DescStuck(nodes, r, root, cur, de, r2);
    UpdateKeepsTree(nodes, cur, nodes[cur].(allVisited := true));
  }

  /** Parent pointers and depths are all `Linked` looks at. */
  lemma LinkedShapes(a: seq<Node>, b: seq<Node>)
    requires Linked(a) && SameShapes(a, b)
    ensures Linked(b)
  {
    forall i | 0 <= i < |b| ensures DepthLinked(b, i) {
      assert DepthLinked(a, i);
    }
  }

  /** The conditions under which `Grow` may add the child for `move` at `pos` below `cur`. */
  ghost predicate GrowsAt(nodes: seq<Node>, cur: int, pos: int, move: int, breakers: seq<seq<bool>>)
  {
    0 <= cur < |nodes| && ChildrenAfter(nodes, cur) && 0 <= pos <= |nodes[cur].children| &&
    0 <= move < MC.NumMoves && GR.Shaped(nodes[cur].game) && GR.BreakersShape(breakers) &&
    move in MoveIds(nodes[cur].edges) &&
    (forall k | 0 <= k < pos :: KidIds(Kids(nodes, cur))[k] < move) &&
    (forall k | pos <= k < |nodes[cur].children| :: move < KidIds(Kids(nodes, cur))[k])
  }

  /** A new child: the tree grows by the fresh child, and it is the leaf of a descent from the root. */
  lemma DescGrow(nodes: seq<Node>, r: seq<Node>, root: int, cur: int, de: real, pos: int, move: int, breakers: seq<seq<bool>>)
    requires DescInv(nodes, r, root, cur, de) && GrowsAt(nodes, cur, pos, move, breakers)
    ensures var base := Grow(nodes, cur, pos, move, breakers);
      TreeOk(base) && Linked(base) && root in Path(base, |nodes|) && base[|nodes|].parent == cur &&
      base[|nodes|].childId == move
    ensures var base := Grow(nodes, cur, pos, move, breakers);
      Bumped(base, Grow(r[cur := Shift(r[cur], 1, de)], cur, pos, move, breakers), |nodes|, de)
    ensures TreeOk(Grow(r[cur := Shift(r[cur], 1, de)], cur, pos, move, breakers))
  {
    var base := Grow(nodes, cur, pos, move, breakers);
    GrowKeepsTree(nodes, cur, pos, move, breakers);
    TreeLinked(base);
    GrowPath(nodes, root, cur, pos, move, breakers);
    GrowBumped(nodes, r, cur, de, pos, move, breakers);
    GrowBumpedOk(nodes, r, root, cur, de, pos, move, breakers);
  }

  lemma GrowPath(nodes: seq<Node>, root: int, cur: int, pos: int, move: int, breakers: seq<seq<bool>>)
    requires TreeOk(nodes) && Linked(nodes) && GrowsAt(nodes, cur, pos, move, breakers)
    requires 0 <= root < |nodes| && root in Path(nodes, cur)
    requires Linked(Grow(nodes, cur, pos, move, breakers))
    ensures var base := Grow(nodes, cur, pos, move, breakers);
      root in Path(base, |nodes|) && Path(base, |nodes|) == {|nodes|} + Path(nodes, cur)
  {
    var base := Grow(nodes, cur, pos, move, breakers);
    PathKept(nodes, base, cur);
    assert Path(base, |nodes|) == {|nodes|} + Path(base, cur);
  }

  lemma GrowBumped(nodes: seq<Node>, r: seq<Node>, cur: int, de: real, pos: int, move: int, breakers: seq<seq<bool>>)
    requires Bumped(nodes, r, cur, de) && 0 <= pos <= |nodes[cur].children| && 0 <= move < MC.NumMoves
    requires GR.Shaped(nodes[cur].game) && GR.BreakersShape(breakers)
    requires var base := Grow(nodes, cur, pos, move, breakers);
      Linked(base) && Path(base, |nodes|) == {|nodes|} + Path(nodes, cur)
    ensures Bumped(Grow(nodes, cur, pos, move, breakers), Grow(r[cur := Shift(r[cur], 1, de)], cur, pos, move, breakers), |nodes|, de)
  {
    var base := Grow(nodes, cur, pos, move, breakers);
    var g := Grow(r[cur := Shift(r[cur], 1, de)], cur, pos, move, breakers);
    GrowBumpedAt(nodes, r, cur, de, pos, move, breakers);
    forall k | 0 <= k < |base|
      ensures g[k] == if k in Path(base, |nodes|) && k != |nodes| then Shift(base[k], 1, de) else base[k]
    {
      if k != |nodes| && k != cur {
        assert g[k] == r[k] && base[k] == nodes[k];
      }
    }
  }

  /** The new child and its parent, after growing the bumped and the plain tree. */
  lemma GrowBumpedAt(nodes: seq<Node>, r: seq<Node>, cur: int, de: real, pos: int, move: int, breakers: seq<seq<bool>>)
    requires Bumped(nodes, r, cur, de) && 0 <= pos <= |nodes[cur].children| && 0 <= move < MC.NumMoves
    requires GR.Shaped(nodes[cur].game) && GR.BreakersShape(breakers)
    ensures var g := Grow(r[cur := Shift(r[cur], 1, de)], cur, pos, move, breakers);
      var base := Grow(nodes, cur, pos, move, breakers);
      g[|nodes|] == base[|nodes|] && g[cur] == Shift(base[cur], 1, de)
  {
    assert r[cur] == nodes[cur];
    var r1 := r[cur := Shift(r[cur], 1, de)];
    assert r1[cur].game == nodes[cur].game && r1[cur].depth == nodes[cur].depth;
  }

  lemma GrowBumpedOk(nodes: seq<Node>, r: seq<Node>, root: int, cur: int, de: real, pos: int, move: int, breakers: seq<seq<bool>>)
    requires DescInv(nodes, r, root, cur, de) && GrowsAt(nodes, cur, pos, move, breakers)
    ensures TreeOk(Grow(r[cur := Shift(r[cur], 1, de)], cur, pos, move, breakers))
  {
    var r1 := r[cur := Shift(r[cur], 1, de)];
    assert r[cur] == nodes[cur] by { assert NodeOk(r, cur); }
    UpdateKeepsTree(r, cur, Shift(r[cur], 1, de));
    assert NodeOk(r1, cur);
    assert NodeOk(nodes, cur);
    assert KidIds(Kids(r1, cur)) == KidIds(Kids(nodes, cur));
    GrowKeepsTree(r1, cur, pos, move, breakers);
  }

  /** The decision at `cur`, with the scores computed by the two formulas, in terms the descent can use. */
  method DecideAt(nodes: seq<Node>, r: seq<Node>, root: int, cur: int, de: real, rule: Rule, breakers: seq<seq<bool>>,
                  prior: (Node, int) -> real, explore: (Node, seq<Node>, int) -> real)
    returns (s: Step)
    requires DescInv(nodes, r, root, cur, de) && GR.BreakersShape(breakers)
    ensures s.Down? ==> 0 <= s.child < |r[cur].children| && ChildrenAfter(r, cur) && !r[r[cur].children[s.child]].allVisited
    ensures s.Grew? ==> GrowsAt(nodes, cur, s.pos, s.move, breakers)
  {
    DescKids(nodes, r, root, cur, de);
    var n := r[cur];
    var kids := Kids(r, cur);
    var pri := seq(|n.edges|, e requires 0 <= e < |n.edges| => prior(n, e));
    var exp := seq(|n.edges|, e requires 0 <= e < |n.edges| => explore(n, kids, e));
    s := Decide(rule, n, kids, pri, exp);
    assert NodeOk(nodes, cur);
    if s.Grew? {
      assert MovesOk(MoveIds(n.edges));
    }
  }

  /** How a descent that grew the tree relates the new tree to the old. */
  ghost predicate GrownBy(nodes: seq<Node>, base: seq<Node>, leaf: int, at: int, rule: Rule, breakers: seq<seq<bool>>)
  {
    leaf == |nodes| && |base| == |nodes| + 1 &&
    var p := base[leaf].parent;
    GrowsAt(nodes, p, at, base[leaf].childId, breakers) && !StopsAt(rule, nodes[p]) &&
    base == Grow(nodes, p, at, base[leaf].childId, breakers)
  }

  /**
   * The outcome of a descent from `root`: `Blocked` at a node with nothing
   * selectable (the root, or a node that was not all_visited), which is now
   * marked all_visited and nothing else has changed; or `Reached` at a leaf
   * of `base`, with a visit and `de` counted at each strict ancestor, where
   * `base` is the tree itself and the leaf a node where the descent stops,
   * or the tree grown by the leaf as a new child of a node where it does not.
   */
  ghost predicate DescentOk(nodes: seq<Node>, root: int, rule: Rule, breakers: seq<seq<bool>>, de: real,
                            r: seq<Node>, d: Descent, base: seq<Node>, at: int)
  {
    TreeOk(r) && TreeOk(base) && Linked(base) &&
    (d.Blocked? ==>
      0 <= d.at < |nodes| && base == nodes && r == nodes[d.at := nodes[d.at].(allVisited := true)] &&
      (d.at != root ==> !nodes[d.at].allVisited)) &&
    (d.Reached? ==>
      0 <= root < |base| && 0 <= d.leaf < |base| && root in Path(base, d.leaf) && Bumped(base, r, d.leaf, de) &&
      ((d.leaf < |nodes| && base == nodes && StopsAt(rule, nodes[d.leaf])) ||
       GrownBy(nodes, base, d.leaf, at, rule, breakers)))
  }

  lemma BlockedOk(nodes: seq<Node>, r: seq<Node>, root: int, cur: int, de: real, rule: Rule, breakers: seq<seq<bool>>, r2: seq<Node>)
    requires DescInv(nodes, r, root, cur, de) && (cur == root || !nodes[cur].allVisited)
    requires r2 == nodes[cur := nodes[cur].(allVisited := true)] && TreeOk(r2)
    ensures DescentOk(nodes, root, rule, breakers, de, r2, Blocked(cur), nodes, 0)
  {
  }

  lemma GrownOk(nodes: seq<Node>, r: seq<Node>, root: int, cur: int, de: real, rule: Rule, breakers: seq<seq<bool>>,
                pos: int, move: int)
    requires DescInv(nodes, r, root, cur, de) && GrowsAt(nodes, cur, pos, move, breakers) && !StopsAt(rule, r[cur])
    ensures DescentOk(nodes, root, rule, breakers, de, Grow(r[cur := Shift(r[cur], 1, de)], cur, pos, move, breakers),
                      Reached(|nodes|), Grow(nodes, cur, pos, move, breakers), pos)
  {
    DescGrow(nodes, r, root, cur, de, pos, move, breakers);
    assert r[cur] == nodes[cur];
  }

  lemma StopOk(nodes: seq<Node>, r: seq<Node>, root: int, cur: int, de: real, rule: Rule, breakers: seq<seq<bool>>, at: int)
    requires DescInv(nodes, r, root, cur, de) && StopsAt(rule, r[cur])
    ensures DescentOk(nodes, root, rule, breakers, de, r, Reached(cur), nodes, at)
  {
    assert r[cur] == nodes[cur];
  }

  /**
   * The descent of `search`: from the root, while the node is not where the
   * descent stops, score its edges (`prior` and `explore` stand for the two
   * PUCT formulas), count the visit and add `de` to its evaluation, and
   * follow the decision.  It ends `Blocked` at a node with nothing
   * selectable, which is marked all_visited while every provisional visit
   * is undone; or `Reached` at a leaf, either a node where the descent stops
   * or a child just created, with a visit counted at each strict ancestor.
   */
  method Descend(nodes: seq<Node>, root: int, rule: Rule, breakers: seq<seq<bool>>,
                 prior: (Node, int) -> real, explore: (Node, seq<Node>, int) -> real, de: real)
    returns (r: seq<Node>, d: Descent, ghost base: seq<Node>, ghost at: int)
    requires TreeOk(nodes) && 0 <= root < |nodes| && nodes[root].parent == -1
    requires GR.BreakersShape(breakers)
    ensures DescentOk(nodes, root, rule, breakers, de, r, d, base, at)
  {
    DescStart(nodes, root, de);
    r := nodes;
    var cur := root;
    while !StopsAt(rule, r[cur])
      invariant DescInv(nodes, r, root, cur, de)
      invariant cur == root || !nodes[cur].allVisited
      decreases |nodes| - cur
    {
      var s := DecideAt(nodes, r, root, cur, de, rule, breakers, prior, explore);
      match s
      case Stuck =>
        var r2 := Undo(nodes, r, root, cur, de);
        BlockedOk(nodes, r, root, cur, de, rule, breakers, r2);
        return r2, Blocked(cur), nodes, 0;
      case Grew(pos, move) =>
        GrownOk(nodes, r, root, cur, de, rule, breakers, pos, move);
        r := Grow(r[cur := Shift(r[cur], 1, de)], cur, pos, move, breakers);
        return r, Reached(|nodes|), Grow(nodes, cur, pos, move, breakers), pos;
      case Down(child) =>
        DescDown(nodes, r, root, cur, de, child);
        var next := r[cur].children[child];
        r := r[cur := Shift(r[cur], 1, de)];
        cur := next;
    }
    StopOk(nodes, r, root, cur, de, rule, breakers, 0);
    return r, Reached(cur), nodes, 0;
  }

  // ---------------------------------------------------------------------
  // What a walk back up leaves behind

  /** The value of a terminal leaf to its side to move: a decisive end is a loss for the player to move. */
  function LeafValue(n: Node): (v: real)
    ensures v == -1.0 || v == 0.0
    ensures v == 0.0 <==> n.result == Draw
  {
    if n.result == Draw then 0.0 else -1.0
  }

  /**
   * After a descent from `base` and the walk back up, every strict ancestor
   * k of `leaf` has gained exactly the leaf's value `v` seen from k's own
   * side to move, and no node off the path has changed.
   */
  ghost predicate Credited(base: seq<Node>, t: seq<Node>, leaf: int, v: real)
  {
    Linked(base) && 0 <= leaf < |base| && |t| == |base| &&
    (forall k | 0 <= k < |base| && k !in Path(base, leaf) :: t[k] == base[k]) &&
    forall k | 0 <= k < |base| && k in Path(base, leaf) && k != leaf ::
      t[k].evaluation == base[k].evaluation + Alt(v, base[leaf].depth - base[k].depth)
  }

  /** A bumped tree has the same shape, so the same paths, as the one it came from. */
  lemma BumpedPaths(base: seq<Node>, r: seq<Node>, leaf: int, de: real)
    requires Bumped(base, r, leaf, de)
    ensures SameShapes(base, r) && Linked(r) && Path(r, leaf) == Path(base, leaf)
  {
    assert SameShapes(base, r);
    LinkedShapes(base, r);
    PathKept(base, r, leaf);
  }

  /** One node after the backup from `leaf` of a tree bumped by `de` at each strict ancestor. */
  lemma BackedUpPoint(base: seq<Node>, r: seq<Node>, leaf: int, v: real, offset: real, clear: bool, de: real, k: int)
    requires Bumped(base, r, leaf, de) && Linked(r) && Path(r, leaf) == Path(base, leaf) && 0 <= k < |base|
    ensures var t := BackedUp(r, leaf, v, offset, clear);
      (k !in Path(base, leaf) ==> t[k] == base[k]) &&
      (k == leaf ==> t[k].evaluation == r[leaf].evaluation + v + offset) &&
      (k in Path(base, leaf) && k != leaf ==>
        t[k].evaluation == base[k].evaluation + de + Alt(v, base[leaf].depth - base[k].depth) + offset)
  {
    var t := BackedUp(r, leaf, v, offset, clear);
    assert t[k] == BackedNode(r, leaf, v, offset, clear, k);
    if k in Path(base, leaf) {
      var a := Alt(v, r[leaf].depth - r[k].depth);
      assert t[k] == Credit(r[k], a, offset, clear);
      if k != leaf {
        var s := Shift(base[k], 1, de);
        assert r[k] == s;
        assert r[leaf] == base[leaf];
        assert a == Alt(v, base[leaf].depth - base[k].depth);
        assert t[k].evaluation == s.evaluation + a + offset;
      }
    } else {
      assert r[k] == base[k];
    }
  }

  /**
   * The backup from `leaf` of a tree bumped by `de` at each strict ancestor:
   * each strict ancestor ends with `de + offset` plus the alternating value,
   * the leaf with its own evaluation plus `v + offset`.
   */
  lemma BackedUpOnPath(base: seq<Node>, r: seq<Node>, leaf: int, v: real, offset: real, clear: bool, de: real)
    requires Bumped(base, r, leaf, de)
    ensures Linked(r)
    ensures var t := BackedUp(r, leaf, v, offset, clear);
      (forall k | 0 <= k < |base| && k !in Path(base, leaf) :: t[k] == base[k]) &&
      t[leaf].evaluation == r[leaf].evaluation + v + offset &&
      forall k | 0 <= k < |base| && k in Path(base, leaf) && k != leaf ::
        t[k].evaluation == base[k].evaluation + de + Alt(v, base[leaf].depth - base[k].depth) + offset
  {
    BumpedPaths(base, r, leaf, de);
    forall k | 0 <= k < |base| {
      BackedUpPoint(base, r, leaf, v, offset, clear, de, k);
    }
  }

  /**
   * The backup of `receive_evaluation` in trainmc.cpp: `v - 1` at the leaf,
   * then alternating.  Over the descent's +1 it credits every strict
   * ancestor with the value from its own side, and it replaces the leaf's
   * default +1 by v.
   */
  lemma EvalBackupCredits(base: seq<Node>, r: seq<Node>, leaf: int, v: real, clear: bool)
    requires Bumped(base, r, leaf, 1.0)
    ensures Linked(r)
    ensures Credited(base, BackedUp(r, leaf, v, -1.0, clear), leaf, v)
    ensures BackedUp(r, leaf, v, -1.0, clear)[leaf].evaluation == r[leaf].evaluation - 1.0 + v
  {
    BackedUpOnPath(base, r, leaf, v, -1.0, clear, 1.0);
  }

  /**
   * The backup of `receive_evaluation` in playmc.cpp as written, `v + 1` at
   * the leaf and alternating: every node on the path ends 2 above the value
   * from its side, so the descent's +1 is doubled instead of undone.
   */
  lemma EvalBackupPlusOvershoots(base: seq<Node>, r: seq<Node>, leaf: int, v: real, clear: bool)
    requires Bumped(base, r, leaf, 1.0)
    ensures Linked(r)
    ensures var t := BackedUp(r, leaf, v, 1.0, clear);
      t[leaf].evaluation == r[leaf].evaluation + 1.0 + v &&
      forall k | 0 <= k < |base| && k in Path(base, leaf) && k != leaf ::
        t[k].evaluation == base[k].evaluation + Alt(v, base[leaf].depth - base[k].depth) + 2.0
    ensures base[leaf].parent >= 0 ==> !Credited(base, BackedUp(r, leaf, v, 1.0, clear), leaf, v)
  {
    BackedUpOnPath(base, r, leaf, v, 1.0, clear, 1.0);
    var p := base[leaf].parent;
    if p >= 0 {
      assert p in Path(base, leaf);
    }
  }

  /** The leaf of a terminal descent with its visit counted and its evaluation set to its value. */
  function Settle(r: seq<Node>, leaf: int): (r1: seq<Node>)
    requires Linked(r) && 0 <= leaf < |r|
    ensures Linked(r1) && SameShapes(r, r1)
    ensures r1 == r[leaf := r[leaf].(visits := r[leaf].visits + 1, evaluation := LeafValue(r[leaf]))]
  {
    var r1 := r[leaf := r[leaf].(visits := r[leaf].visits + 1, evaluation := LeafValue(r[leaf]))];
    LinkedShapes(r, r1);
    r1
  }

  /**
   * `search` at a terminal leaf as written in trainmc.cpp and playmc.cpp:
   * settle the leaf, then add `value - 1` at its parent and alternate.  The
   * parent gets the leaf's value itself, not its negation.
   */
  function TerminalCreditAsWritten(r: seq<Node>, leaf: int): (t: seq<Node>)
    requires Linked(r) && 0 <= leaf < |r|
    ensures |t| == |r|
  {
    var r1 := Settle(r, leaf);
    if r[leaf].parent < 0 then r1 else BackedUp(r1, r[leaf].parent, LeafValue(r[leaf]), -1.0, false)
  }

  /** `search` at a terminal leaf with the sign the backup convention calls for: the parent gets minus the leaf's value. */
  function TerminalCredit(r: seq<Node>, leaf: int): (t: seq<Node>)
    requires Linked(r) && 0 <= leaf < |r|
    ensures |t| == |r|
  {
    var r1 := Settle(r, leaf);
    if r[leaf].parent < 0 then r1 else BackedUp(r1, r[leaf].parent, -LeafValue(r[leaf]), -1.0, false)
  }

  /**
   * Walking up from a terminal leaf's parent with -v is walking up from the
   * leaf itself with v, except at the settled leaf.
   */
  lemma FromParent(r: seq<Node>, leaf: int, v: real)
    requires Linked(r) && 0 <= leaf < |r| && r[leaf].parent >= 0
    ensures BackedUp(Settle(r, leaf), r[leaf].parent, -v, -1.0, false) ==
            BackedUp(r, leaf, v, -1.0, false)[leaf := Settle(r, leaf)[leaf]]
  {
    var p := r[leaf].parent;
    var r1 := Settle(r, leaf);
    PathKept(r, r1, p);
    assert Path(r, leaf) == {leaf} + Path(r, p);
    var a := BackedUp(r1, p, -v, -1.0, false);
    var b := BackedUp(r, leaf, v, -1.0, false)[leaf := r1[leaf]];
    assert DepthLinked(r, leaf);
    forall k | 0 <= k < |r| ensures a[k] == b[k] {
      if k in Path(r, p) {
        AltStep(v, r[p].depth - r[k].depth);
      }
    }
  }

  /** The corrected terminal walk credits every strict ancestor with the leaf's value from its side. */
  lemma TerminalCreditCredits(base: seq<Node>, r: seq<Node>, leaf: int)
    requires Bumped(base, r, leaf, 1.0)
    ensures Linked(r)
    ensures Credited(base, TerminalCredit(r, leaf), leaf, LeafValue(base[leaf]))
    ensures TerminalCredit(r, leaf)[leaf] == base[leaf].(visits := base[leaf].visits + 1, evaluation := LeafValue(base[leaf]))
  {
    BumpedPaths(base, r, leaf, 1.0);
    var v := LeafValue(base[leaf]);
    assert r[leaf] == base[leaf];
    if base[leaf].parent >= 0 {
      FromParent(r, leaf, v);
      BackedUpOnPath(base, r, leaf, v, -1.0, false, 1.0);
    } else {
      PathOfRoot(base, leaf);
    }
  }

  /**
   * The terminal walk as written credits every strict ancestor with the
   * opposite of the leaf's value from its side: the parent of a lost leaf,
   * which has a winning move, comes out at -1.
   */
  lemma TerminalCreditAsWrittenFlips(base: seq<Node>, r: seq<Node>, leaf: int)
    requires Bumped(base, r, leaf, 1.0)
    ensures Linked(r)
    ensures forall k | 0 <= k < |base| && k in Path(base, leaf) && k != leaf ::
      TerminalCreditAsWritten(r, leaf)[k].evaluation == base[k].evaluation - Alt(LeafValue(base[leaf]), base[leaf].depth - base[k].depth)
  {
    BumpedPaths(base, r, leaf, 1.0);
    if base[leaf].parent >= 0 {
      forall k | 0 <= k < |base| && k in Path(base, leaf) && k != leaf
        ensures TerminalCreditAsWritten(r, leaf)[k].evaluation ==
          base[k].evaluation - Alt(LeafValue(base[leaf]), base[leaf].depth - base[k].depth)
      {
        AsWrittenPoint(base, r, leaf, k);
      }
    } else {
      PathOfRoot(base, leaf);
    }
  }

  /** One strict ancestor after the terminal walk as written. */
  lemma AsWrittenPoint(base: seq<Node>, r: seq<Node>, leaf: int, k: int)
    requires Bumped(base, r, leaf, 1.0) && Linked(r) && Path(r, leaf) == Path(base, leaf)
    requires base[leaf].parent >= 0 && 0 <= k < |base| && k in Path(base, leaf) && k != leaf
    ensures TerminalCreditAsWritten(r, leaf)[k].evaluation ==
      base[k].evaluation - Alt(LeafValue(base[leaf]), base[leaf].depth - base[k].depth)
  {
    var v := LeafValue(base[leaf]);
    var d := base[leaf].depth - base[k].depth;
    AncestorPoint(base, r, leaf, k, -v);
    AltStep(v, d);
    assert r[leaf] == base[leaf];
    assert -(-v) == v;
    FromParent(r, leaf, -v);
  }

  /** A strict ancestor after the backup of `w` with offset -1 from a leaf bumped by 1. */
  lemma AncestorPoint(base: seq<Node>, r: seq<Node>, leaf: int, k: int, w: real)
    requires Bumped(base, r, leaf, 1.0) && Linked(r) && Path(r, leaf) == Path(base, leaf)
    requires 0 <= k < |base| && k in Path(base, leaf) && k != leaf
    ensures BackedUp(r, leaf, w, -1.0, false)[k].evaluation == base[k].evaluation + Alt(w, base[leaf].depth - base[k].depth)
  {
    BackedUpPoint(base, r, leaf, w, -1.0, false, 1.0, k);
  }

  /** Hence the walk as written does not credit the parent of a won or lost leaf correctly. */
  lemma TerminalCreditAsWrittenWrong(base: seq<Node>, r: seq<Node>, leaf: int)
    requires Bumped(base, r, leaf, 1.0) && base[leaf].parent >= 0 && base[leaf].result != Draw
    ensures Linked(r)
    ensures !Credited(base, TerminalCreditAsWritten(r, leaf), leaf, LeafValue(base[leaf]))
  {
    TerminalCreditAsWrittenFlips(base, r, leaf);
    var v := LeafValue(base[leaf]);
    var p := base[leaf].parent;
    assert p in Path(base, leaf);
    assert DepthLinked(base, leaf);
    AltStep(v, 0);
    var t := TerminalCreditAsWritten(r, leaf);
    assert t[p].evaluation == base[p].evaluation + v;
  }

  /**
   * `search` at a terminal leaf in cpp/playmc.cpp, as written: count the
   * visit and take 1 off the leaf, then, unless the leaf is a draw, add
   * `value + 1` from the leaf up, alternating.  A draw skips the walk, so
   * the descent's -1 stays at every ancestor.
   */
  function OldTerminalCreditAsWritten(r: seq<Node>, leaf: int): (t: seq<Node>)
    requires Linked(r) && 0 <= leaf < |r|
    ensures |t| == |r|
  {
    var r1 := r[leaf := r[leaf].(visits := r[leaf].visits + 1, evaluation := r[leaf].evaluation - 1.0, allVisited := false)];
    assert SameShapes(r, r1);
    LinkedShapes(r, r1);
    if r[leaf].result == Draw then r1 else BackedUp(r1, leaf, -1.0, 1.0, false)
  }

  /** The same with the walk made for a draw too, adding 0 + 1 to undo the descent's -1. */
  function OldTerminalCredit(r: seq<Node>, leaf: int): (t: seq<Node>)
    requires Linked(r) && 0 <= leaf < |r|
    ensures |t| == |r|
  {
    var r1 := r[leaf := r[leaf].(visits := r[leaf].visits + 1, evaluation := r[leaf].evaluation - 1.0, allVisited := false)];
    assert SameShapes(r, r1);
    LinkedShapes(r, r1);
    BackedUp(r1, leaf, LeafValue(r[leaf]), 1.0, false)
  }

  /** Changing the counters of the leaf before a backup only changes the leaf after it. */
  lemma LeafUpdate(r: seq<Node>, leaf: int, m: Node, v: real, offset: real, clear: bool)
    requires Linked(r) && 0 <= leaf < |r| && SameShape(r[leaf], m)
    ensures Linked(r[leaf := m])
    ensures BackedUp(r[leaf := m], leaf, v, offset, clear) == BackedUp(r, leaf, v, offset, clear)[leaf := Credit(m, v, offset, clear)]
  {
    var r1 := r[leaf := m];
    assert SameShapes(r, r1);
    LinkedShapes(r, r1);
    PathKept(r, r1, leaf);
    var a := BackedUp(r1, leaf, v, offset, clear);
    var b := BackedUp(r, leaf, v, offset, clear)[leaf := Credit(m, v, offset, clear)];
    forall k | 0 <= k < |r| ensures a[k] == b[k] {
      LeafUpdatePoint(r, leaf, m, v, offset, clear, k);
    }
  }

  lemma LeafUpdatePoint(r: seq<Node>, leaf: int, m: Node, v: real, offset: real, clear: bool, k: int)
    requires Linked(r) && 0 <= leaf < |r| && SameShape(r[leaf], m) && 0 <= k < |r|
    requires Linked(r[leaf := m]) && Path(r[leaf := m], leaf) == Path(r, leaf)
    ensures BackedUp(r[leaf := m], leaf, v, offset, clear)[k] == BackedUp(r, leaf, v, offset, clear)[leaf := Credit(m, v, offset, clear)][k]
  {
  }

  /** The first-generation walk, bumped by -1 on the way down: the corrected terminal walk credits every ancestor. */
  lemma OldTerminalCreditCredits(base: seq<Node>, r: seq<Node>, leaf: int)
    requires Bumped(base, r, leaf, -1.0)
    ensures Linked(r)
    ensures Credited(base, OldTerminalCredit(r, leaf), leaf, LeafValue(base[leaf]))
  {
    BumpedPaths(base, r, leaf, -1.0);
    var v := LeafValue(base[leaf]);
    assert r[leaf] == base[leaf];
    LeafUpdate(r, leaf, r[leaf].(visits := r[leaf].visits + 1, evaluation := r[leaf].evaluation - 1.0, allVisited := false), v, 1.0, false);
    BackedUpOnPath(base, r, leaf, v, 1.0, false, -1.0);
  }

  /** As written, a drawn terminal leaf leaves -1 at every strict ancestor instead of the draw's 0. */
  lemma OldTerminalCreditAsWrittenDraw(base: seq<Node>, r: seq<Node>, leaf: int)
    requires Bumped(base, r, leaf, -1.0) && base[leaf].result == Draw
    ensures Linked(r)
    ensures forall k | 0 <= k < |base| && k in Path(base, leaf) && k != leaf ::
      OldTerminalCreditAsWritten(r, leaf)[k].evaluation == base[k].evaluation - 1.0
    ensures base[leaf].parent >= 0 ==> !Credited(base, OldTerminalCreditAsWritten(r, leaf), leaf, 0.0)
  {
    assert SameShapes(base, r);
    LinkedShapes(base, r);
    var p := base[leaf].parent;
    if p >= 0 {
      assert p in Path(base, leaf);
    }
  }

  /** The first-generation evaluation backup, `v + 1` over the descent's -1, credits every ancestor. */
  lemma OldEvalBackupCredits(base: seq<Node>, r: seq<Node>, leaf: int, v: real)
    requires Bumped(base, r, leaf, -1.0)
    ensures Linked(r)
    ensures Credited(base, BackedUp(r, leaf, v, 1.0, true), leaf, v)
  {
    BackedUpOnPath(base, r, leaf, v, 1.0, true, -1.0);
  }
}
