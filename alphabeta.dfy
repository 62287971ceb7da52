/** The alpha-beta value type: a float tagged as normal, +infinity or -infinity. */
module AlphaBetaValue {

  /** A normal value is finite; the infinities carry no number. */
  datatype Value = Normal(v: real) | PosInf | NegInf

  /** The usual order of the extended reals, used as the reference for the operators below. */
  predicate Below(a: Value, b: Value)
  {
    match a
    case NegInf => b != NegInf
    case PosInf => false
    case Normal(x) => b == PosInf || (b.Normal? && x < b.v)
  }

  /** `operator<`: +inf is below nothing, -inf below everything, a number compares with the other's float. */
  predicate Lt(a: Value, b: Value)
  {
    if a == PosInf then false
    else if a == NegInf then true
    else match b
      case Normal(y) => a.v < y
      case PosInf => true
      case NegInf => false
  }

  /** `operator>`, the mirror image of `Lt`. */
  predicate Gt(a: Value, b: Value)
  {
    if a == PosInf then true
    else if a == NegInf then false
    else match b
      case Normal(y) => a.v > y
      case PosInf => false
      case NegInf => true
  }

  /** `operator<=` is the negation of `>`, `operator>=` the negation of `<`. */
  predicate Le(a: Value, b: Value) { !Gt(a, b) }
  predicate Ge(a: Value, b: Value) { !Lt(a, b) }

  /** `operator==`: same tag, and the same number when normal. */
  predicate Eq(a: Value, b: Value)
  {
    if a.Normal? && b.Normal? then a.v == b.v
    else a.Normal? == b.Normal? && (a == PosInf) == (b == PosInf)
  }

  predicate Ne(a: Value, b: Value) { !Eq(a, b) }

  /** Unary minus: swaps the infinities, negates a number. */
  function Neg(a: Value): (r: Value)
    ensures r.Normal? == a.Normal?
  {
    match a
    case PosInf => NegInf
    case NegInf => PosInf
    case Normal(x) => Normal(-x)
  }

  /** Unary minus is an involution. */
  lemma NegInvolution(a: Value)
    ensures Neg(Neg(a)) == a
  {
  }

  /** The stream text, with the number formatter as a parameter. */
  function Text(a: Value, number: real -> string): (s: string)
    ensures a.Normal? ==> s == number(a.v)
    ensures !a.Normal? ==> |s| == 6 && s[1..] == "INFTY" && (s[0] == '+' <==> a == PosInf)
  {
    match a
    case PosInf => "+INFTY"
    case NegInf => "-INFTY"
    case Normal(x) => number(x)
  }

  /** `<` is the extended-real order, except that -inf < -inf also holds. */
  lemma LtMeaning(a: Value, b: Value)
    ensures Lt(a, b) <==> Below(a, b) || (a == NegInf && b == NegInf)
  {
  }

  /** `>` is the extended-real order, except that +inf > +inf also holds. */
  lemma GtMeaning(a: Value, b: Value)
    ensures Gt(a, b) <==> Below(b, a) || (a == PosInf && b == PosInf)
  {
  }

  /** `==` is equality of the modelled values, and `!=` its negation. */
  lemma EqMeaning(a: Value, b: Value)
    ensures Eq(a, b) <==> a == b
    ensures Ne(a, b) <==> a != b
  {
  }

  /** Negation reverses `<` into `>`. */
  lemma NegSwapsOrder(a: Value, b: Value)
    ensures Lt(a, b) <==> Gt(Neg(a), Neg(b))
    ensures Below(a, b) <==> Below(Neg(b), Neg(a))
  {
  }

  /** The infinity quirks: `>=` and `<=` fail on equal infinities. */
  lemma InfinityQuirks()
    ensures Lt(NegInf, NegInf) && !Ge(NegInf, NegInf)
    ensures Gt(PosInf, PosInf) && !Le(PosInf, PosInf)
  {
  }

  /** The reference order is a strict total order. */
  lemma BelowTotal(a: Value, b: Value, c: Value)
    ensures !Below(a, a)
    ensures a != b ==> Below(a, b) || Below(b, a)
    ensures Below(a, b) && Below(b, c) ==> Below(a, c)
  {
  }
}

/** Fail-hard negamax over a tree of positions (`AlphaBeta::Node`). */
module AlphaBetaSearch {
  import opened Common
  import opened AlphaBetaValue
  import MC = MoveCodec
  import GR = GameRules

  /** A search node: its position, its children (held by value) and whether they were generated. */
  datatype ABNode = ABNode(game: GR.GameState, children: seq<ABNode>, initialized: bool)

  /** A node made by the default constructor and then given a position. */
  function Leaf(g: GR.GameState): ABNode
  {
    ABNode(g, [], false)
  }

  /** `evaluate`: every position is worth 0. */
  function Evaluate(n: ABNode): (r: Value)
    ensures r == Normal(0.0)
  {
    Normal(0.0)
  }

  /** `search(depth, alpha, beta)`. */
  function Search(n: ABNode, depth: int, alpha: Value, beta: Value): Value
    decreases n, |n.children| + 1
  {
    if depth == 0 || |n.children| == 0 then Evaluate(n)
    else SearchFrom(n, depth, alpha, beta, 0)
  }

  /** The loop over the children from child `i` on, `alpha` holding the best score so far. */
  function SearchFrom(n: ABNode, depth: int, alpha: Value, beta: Value, i: nat): Value
    requires i <= |n.children|
    decreases n, |n.children| - i
  {
    if i == |n.children| then alpha
    else
      var score := Neg(Search(n.children[i], depth - 1, Neg(beta), Neg(alpha)));
      if Ge(score, beta) then beta
      else SearchFrom(n, depth, if Gt(score, alpha) then score else alpha, beta, i + 1)
  }

  /** The loop of `search`: fail-hard, it returns beta on a cutoff and the raised alpha otherwise. */
  method SearchNode(n: ABNode, depth: int, alpha0: Value, beta: Value) returns (r: Value)
    ensures r == Search(n, depth, alpha0, beta)
    decreases n
  {
    if depth == 0 || |n.children| == 0 {
      return Evaluate(n);
    }
    var alpha := alpha0;
    var i := 0;
    while i < |n.children|
      invariant 0 <= i <= |n.children|
      invariant SearchFrom(n, depth, alpha, beta, i) == Search(n, depth, alpha0, beta)
      decreases |n.children| - i
    {
      var child := SearchNode(n.children[i], depth - 1, Neg(beta), Neg(alpha));
      var score := Neg(child);
      if Ge(score, beta) {
        return beta;
      }
      if Gt(score, alpha) {
        alpha := score;
      }
      i := i + 1;
    }
    return alpha;
  }

  /** Without a cutoff the loop's alpha never goes down and stays below beta. */
  lemma {:induction false} SearchFromWindow(n: ABNode, depth: int, alpha: Value, beta: Value, i: nat)
    requires i <= |n.children|
    requires alpha == beta || Below(alpha, beta)
    ensures var r := SearchFrom(n, depth, alpha, beta, i);
      (r == alpha || Below(alpha, r)) && (r == beta || Below(r, beta))
    decreases |n.children| - i
  {
    if i < |n.children| {
      var score := Neg(Search(n.children[i], depth - 1, Neg(beta), Neg(alpha)));
      if !Ge(score, beta) {
        var a2 := if Gt(score, alpha) then score else alpha;
        BelowTotal(alpha, a2, beta);
        BelowTotal(score, beta, score);
        SearchFromWindow(n, depth, a2, beta, i + 1);
        var r := SearchFrom(n, depth, a2, beta, i + 1);
        BelowTotal(alpha, a2, r);
      }
    }
  }

  /** A search that goes through the children (depth not 0, some child) lands in [alpha, beta]. */
  lemma SearchWithinWindow(n: ABNode, depth: int, alpha: Value, beta: Value)
    requires depth != 0 && |n.children| > 0
    requires alpha == beta || Below(alpha, beta)
    ensures var r := Search(n, depth, alpha, beta);
      (r == alpha || Below(alpha, r)) && (r == beta || Below(r, beta))
  {
    SearchFromWindow(n, depth, alpha, beta, 0);
  }

  /** A window around a value, in the reference order. */
  predicate Contains(alpha: Value, beta: Value, x: Value)
  {
    (alpha == x || Below(alpha, x)) && (x == beta || Below(x, beta))
  }

  /** As every position evaluates to 0, any search whose window contains 0 returns 0. */
  lemma {:induction false} SearchZero(n: ABNode, depth: int, alpha: Value, beta: Value)
    requires Contains(alpha, beta, Normal(0.0))
    ensures Search(n, depth, alpha, beta) == Normal(0.0)
    decreases n, |n.children| + 1
  {
    if depth != 0 && |n.children| > 0 {
      SearchFromZero(n, depth, alpha, beta, 0);
    }
  }

  lemma {:induction false} SearchFromZero(n: ABNode, depth: int, alpha: Value, beta: Value, i: nat)
    requires i <= |n.children|
    requires Contains(alpha, beta, Normal(0.0))
    requires i > 0 ==> alpha == Normal(0.0)
    ensures SearchFrom(n, depth, alpha, beta, i) == Normal(0.0) || (i == 0 && |n.children| == 0)
    decreases n, |n.children| - i
  {
    if i < |n.children| {
      SearchZero(n.children[i], depth - 1, Neg(beta), Neg(alpha));
      var score := Neg(Search(n.children[i], depth - 1, Neg(beta), Neg(alpha)));
      assert score == Normal(0.0);
      if !Ge(score, beta) {
        var a2 := if Gt(score, alpha) then score else alpha;
        assert a2 == Normal(0.0);
        SearchFromZero(n, depth, a2, beta, i + 1);
      }
    }
  }

  /** The children `createChildren` adds: one per legal move, ascending, each with that move played. */
  function Successors(g: GR.GameState, ids: seq<int>): (cs: seq<ABNode>)
    requires GR.Shaped(g)
    requires forall k | 0 <= k < |ids| :: 0 <= ids[k] < MC.NumMoves
    ensures |cs| == |ids|
  {
    if |ids| == 0 then []
    else Successors(g, ids[..|ids| - 1]) + [Leaf(GR.Play(g, MC.Decode(ids[|ids| - 1])))]
  }

  lemma SuccessorsSnoc(g: GR.GameState, ids: seq<int>, id: int)
    requires GR.Shaped(g)
    requires forall k | 0 <= k < |ids| :: 0 <= ids[k] < MC.NumMoves
    requires 0 <= id < MC.NumMoves
    ensures Successors(g, ids + [id]) == Successors(g, ids) + [Leaf(GR.Play(g, MC.Decode(id)))]
  {
    assert (ids + [id])[..|ids|] == ids;
  }

  /** The legal moves of a position, ascending. */
  function LegalIds(g: GR.GameState, breakers: seq<seq<bool>>, n: int): (ids: seq<int>)
    requires GR.Shaped(g) && GR.BreakersShape(breakers) && 0 <= n <= MC.NumMoves
    ensures forall k | 0 <= k < |ids| :: 0 <= ids[k] < MC.NumMoves && GR.IsLegalMove(g, ids[k])
  {
    GR.LegalMaskLegal(g, breakers);
    IndicesBelow(GR.LegalMask(g, breakers), n)
  }

  /** `createChildren`: nothing once initialized; otherwise one child per legal move, then initialized. */
  method CreateChildren(n: ABNode, breakers: seq<seq<bool>>) returns (m: ABNode)
    requires GR.Shaped(n.game) && GR.BreakersShape(breakers)
    ensures m.initialized && m.game == n.game
    ensures n.initialized ==> m == n
    ensures !n.initialized ==>
      m.children == n.children + Successors(n.game, LegalIds(n.game, breakers, MC.NumMoves))
  {
    if n.initialized {
      return n;
    }
    var children := AppendChildren(n.game, GR.LegalMask(n.game, breakers), n.children);
    m := ABNode(n.game, children, true);
  }

  /** The loop of `createChildren` over the 96 move ids, pushing a child for each set bit. */
  method AppendChildren(g: GR.GameState, legal: seq<bool>, children0: seq<ABNode>) returns (children: seq<ABNode>)
    requires GR.Shaped(g) && |legal| == MC.NumMoves
    ensures children == children0 + Successors(g, IndicesBelow(legal, MC.NumMoves))
  {
    var added: seq<ABNode> := [];
    ghost var ids: seq<int> := [];
    var i := 0;
    while i < MC.NumMoves
      invariant 0 <= i <= MC.NumMoves
      invariant ids == IndicesBelow(legal, i)
      invariant added == Successors(g, ids)
    {
      if legal[i] {
        added := added + [Leaf(GR.Play(g, MC.Decode(i)))];
        SuccessorsSnoc(g, ids, i);
        ids := ids + [i];
      }
      i := i + 1;
    }
    children := children0 + added;
  }

  /** The generated children are exactly the legal moves, in ascending move order, each with its move played. */
  lemma {:induction false} SuccessorsAreLegalMoves(g: GR.GameState, breakers: seq<seq<bool>>)
    requires GR.Shaped(g) && GR.BreakersShape(breakers)
    ensures var ids := LegalIds(g, breakers, MC.NumMoves);
      Increasing(ids) &&
      (forall j | 0 <= j < MC.NumMoves :: j in ids <==> GR.LegalMask(g, breakers)[j]) &&
      (forall k | 0 <= k < |ids| :: Successors(g, ids)[k] == Leaf(GR.AfterMove(g, ids[k])))
  {
    var ids := LegalIds(g, breakers, MC.NumMoves);
    SuccessorsAt(g, ids);
  }

  lemma {:induction false} SuccessorsAt(g: GR.GameState, ids: seq<int>)
    requires GR.Shaped(g)
    requires forall k | 0 <= k < |ids| :: 0 <= ids[k] < MC.NumMoves
    ensures forall k | 0 <= k < |ids| :: Successors(g, ids)[k] == Leaf(GR.Play(g, MC.Decode(ids[k])))
    decreases |ids|
  {
    if |ids| > 0 {
      SuccessorsAt(g, ids[..|ids| - 1]);
    }
  }
}
