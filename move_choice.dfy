/**
 * The scans of `choose_move` over the root's children, in list order
 * (trainmc.cpp, playmc.cpp; the first generation's cpp/playmc.cpp uses the
 * last two).  Each returns the position of the chosen child in the list, or
 * -1 when none qualifies; the caller moves down to that child, or to the
 * first one when none was chosen.
 */
module MoveChoice {
  import opened Common
  import MC = MoveCodec
  import opened SearchTree

  /** The value the scans compare children by: the evaluation, with a known draw counted as 0. */
  function EvalOf(c: Node): (e: real)
    ensures Drawn(c) ==> e == 0.0
    ensures !Drawn(c) ==> e == c.evaluation
  {
    if c.result == Draw || c.result == DeducedDraw then 0.0 else c.evaluation
  }

  /**
   * How the most-visited scans break a tie in visits: not at all; by the
   * value with known draws counted as 0 (second generation); or by the raw
   * evaluation (cpp/playmc.cpp).
   */
  datatype Ties = VisitsOnly | ByValue | ByEvaluation

  /** The value a tie is broken by. */
  function Worth(c: Node, ties: Ties): (e: real)
    ensures ties == ByEvaluation ==> e == c.evaluation
    ensures ties != ByEvaluation ==> e == EvalOf(c)
  {
    if ties == ByEvaluation then c.evaluation else EvalOf(c)
  }

  /** A child the scan may choose: any, or with `skipWon` one that is not a deduced win for the opponent. */
  predicate Eligible(c: Node, skipWon: bool)
  {
    !(skipWon && Won(c))
  }

  /** Whether child c displaces a best so far of `v` visits and value `e`: more visits, or as many and a higher value when ties count. */
  predicate Beats(c: Node, ties: Ties, v: int, e: real)
  {
    c.visits > v || (ties != VisitsOnly && c.visits == v && Worth(c, ties) > e)
  }

  // ---------------------------------------------------------------------
  // A deduced win: the first losing child

  /** The first child whose result is a loss for its side to move, or -1 when there is none. */
  predicate FirstLostChoice(kids: seq<Node>, pick: int)
  {
    -1 <= pick < |kids| &&
    (pick >= 0 ==> Lost(kids[pick]) && forall k | 0 <= k < pick :: !Lost(kids[k])) &&
    (pick < 0 ==> forall k | 0 <= k < |kids| :: !Lost(kids[k]))
  }

  /** The scan of a won root. */
  method FirstLost(kids: seq<Node>) returns (pick: int)
    ensures FirstLostChoice(kids, pick)
  {
    var i := 0;
    while i < |kids|
      invariant 0 <= i <= |kids|
      invariant forall k | 0 <= k < i :: !Lost(kids[k])
    {
      if kids[i].result == DeducedLoss || kids[i].result == Loss {
        return i;
      }
      i := i + 1;
    }
    return -1;
  }

  /** The scan of `receiveOpponentMove`: the position of the child for move `move`, or -1 when it has none. */
  method FindChild(kids: seq<Node>, move: int) returns (pos: int)
    ensures -1 <= pos < |kids|
    ensures pos >= 0 ==> kids[pos].childId == move && forall k | 0 <= k < pos :: kids[k].childId != move
    ensures pos < 0 <==> move !in KidIds(kids)
  {
    var i := 0;
    while i < |kids|
      invariant 0 <= i <= |kids|
      invariant forall k | 0 <= k < i :: kids[k].childId != move
    {
      if kids[i].childId == move {
        assert KidIds(kids)[i] == move;
        return i;
      }
      i := i + 1;
    }
    pos := -1;
    assert forall k | 0 <= k < |kids| :: KidIds(kids)[k] != move;
  }

  // ---------------------------------------------------------------------
  // The most visited child

  /**
   * The scans of a lost root (`skipWon` false, ties ignored), a drawn root
   * (`skipWon` true) and the normal choice (`skipWon` true, ties by value;
   * in cpp/playmc.cpp `skipWon` false, ties by raw evaluation):
   * starting from 0 visits and value 0, keep the first eligible child that
   * beats the best so far.  The result is an eligible child that no eligible
   * child beats and that beats every eligible child before it; with none,
   * no eligible child beats 0 visits and value 0.
   */
  predicate MostVisitedChoice(kids: seq<Node>, skipWon: bool, ties: Ties, pick: int)
  {
    -1 <= pick < |kids| &&
    (pick >= 0 ==> Eligible(kids[pick], skipWon) && Beats(kids[pick], ties, 0, 0.0)) &&
    (pick >= 0 ==> forall k | 0 <= k < |kids| && Eligible(kids[k], skipWon) ::
      !Beats(kids[k], ties, kids[pick].visits, Worth(kids[pick], ties))) &&
    (pick >= 0 ==> forall k | 0 <= k < pick && Eligible(kids[k], skipWon) ::
      Beats(kids[pick], ties, kids[k].visits, Worth(kids[k], ties))) &&
    (pick < 0 ==> forall k | 0 <= k < |kids| && Eligible(kids[k], skipWon) :: !Beats(kids[k], ties, 0, 0.0))
  }

  /** The scan loop of those three branches. */
  method MostVisited(kids: seq<Node>, skipWon: bool, ties: Ties) returns (pick: int)
    ensures MostVisitedChoice(kids, skipWon, ties, pick)
  {
    pick := -1;
    var maxVisits := 0;
    var maxEval := 0.0;
    var i := 0;
    while i < |kids|
      invariant 0 <= i <= |kids| && -1 <= pick < i
      invariant pick < 0 ==> maxVisits == 0 && maxEval == 0.0
      invariant pick >= 0 ==> Eligible(kids[pick], skipWon) && Beats(kids[pick], ties, 0, 0.0)
      invariant pick >= 0 ==> maxVisits == kids[pick].visits && maxEval == Worth(kids[pick], ties)
      invariant forall k | 0 <= k < i && Eligible(kids[k], skipWon) :: !Beats(kids[k], ties, maxVisits, maxEval)
      invariant pick >= 0 ==> forall k | 0 <= k < pick && Eligible(kids[k], skipWon) ::
        Beats(kids[pick], ties, kids[k].visits, Worth(kids[k], ties))
    {
      var c := kids[i];
      if Eligible(c, skipWon) {
        var eval := Worth(c, ties);
        if c.visits > maxVisits || (ties != VisitsOnly && c.visits == maxVisits && eval > maxEval) {
          pick := i;
          maxVisits := c.visits;
          maxEval := eval;
        }
      }
      i := i + 1;
    }
  }

  // ---------------------------------------------------------------------
  // The branch for the root's result

  /** A root whose result `propagate_result` has deduced. */
  predicate Decided(n: Node)
  {
    n.result == DeducedWin || n.result == DeducedLoss || n.result == DeducedDraw
  }

  /**
   * The choice of `choose_move` by the root's result (trainmc.cpp outside
   * the opening, playmc.cpp always): a won root takes the first lost child;
   * a lost root the most visited child; a drawn root the most visited child
   * that is not a deduced win for the opponent; any other root the most
   * visited such child, ties going to the higher value.
   */
  predicate ResultChoice(n: Node, kids: seq<Node>, pick: int)
  {
    if n.result == DeducedWin then FirstLostChoice(kids, pick)
    else if n.result == DeducedLoss then MostVisitedChoice(kids, false, VisitsOnly, pick)
    else if n.result == DeducedDraw then MostVisitedChoice(kids, true, VisitsOnly, pick)
    else MostVisitedChoice(kids, true, ByValue, pick)
  }

  /** The four branches of `choose_move` by the root's result. */
  method ResultPick(n: Node, kids: seq<Node>) returns (pick: int)
    ensures ResultChoice(n, kids, pick)
  {
    if n.result == DeducedWin {
      pick := FirstLost(kids);
    } else if n.result == DeducedLoss {
      pick := MostVisited(kids, false, VisitsOnly);
    } else if n.result == DeducedDraw {
      pick := MostVisited(kids, true, VisitsOnly);
    } else {
      pick := MostVisited(kids, true, ByValue);
    }
  }

  /** Outside a won root the choice is never a deduced win for the opponent, unless the root is lost. */
  lemma ResultChoiceNotWon(n: Node, kids: seq<Node>, pick: int)
    requires ResultChoice(n, kids, pick) && 0 <= pick < |kids| && n.result != DeducedLoss
    ensures n.result == DeducedWin ==> Lost(kids[pick])
    ensures !Won(kids[pick])
  {
  }

  // ---------------------------------------------------------------------
  // The first generation's draw: a child picked in proportion to its visits

  /** The visits of the first n children. */
  function KidVisits(kids: seq<Node>, n: int): int
    requires 0 <= n <= |kids|
  {
    if n == 0 then 0 else KidVisits(kids, n - 1) + kids[n - 1].visits
  }

  /** The first child whose running visit total exceeds `target`. */
  predicate VisitsChoice(kids: seq<Node>, target: int, pick: int)
  {
    0 <= pick < |kids| && target < KidVisits(kids, pick + 1) &&
    forall k | 1 <= k <= pick :: KidVisits(kids, k) <= target
  }

  /**
   * The scan of cpp/playmc.cpp below depth 9, which runs until a running
   * total exceeds `target`: the chosen child is that first one, and with a
   * non-negative target it has been visited.
   */
  method VisitsScan(kids: seq<Node>, target: int) returns (pick: int)
    requires exists k | 1 <= k <= |kids| :: target < KidVisits(kids, k)
    ensures VisitsChoice(kids, target, pick)
    ensures target >= 0 ==> kids[pick].visits > 0
  {
    ghost var w :| 1 <= w <= |kids| && target < KidVisits(kids, w);
    var total := 0;
    var i := 0;
    while true
      invariant 0 <= i < w && total == KidVisits(kids, i)
      invariant forall k | 1 <= k <= i :: KidVisits(kids, k) <= target
      decreases w - i
    {
      total := total + kids[i].visits;
      if total > target {
        pick := i;
        if i > 0 {
          assert KidVisits(kids, i) <= target;
        }
        return;
      }
      i := i + 1;
    }
  }

  /** The draw is a function of the target: no two children qualify. */
  lemma VisitsChoiceUnique(kids: seq<Node>, target: int, p: int, q: int)
    requires VisitsChoice(kids, target, p) && VisitsChoice(kids, target, q)
    ensures p == q
  {
    if p < q {
      assert false;
    } else if q < p {
      assert false;
    }
  }

  // ---------------------------------------------------------------------
  // The opening: a child drawn in proportion to its visits

  /** The visits of the children among the first n that are not deduced wins for the opponent. */
  function OpenVisits(kids: seq<Node>, n: int): int
    requires 0 <= n <= |kids|
  {
    if n == 0 then 0 else OpenVisits(kids, n - 1) + (if Won(kids[n - 1]) then 0 else kids[n - 1].visits)
  }

  /** A distribution over the 96 moves, all zero. */
  function Zeros(): (z: seq<real>)
    ensures |z| == MC.NumMoves && forall j | 0 <= j < MC.NumMoves :: z[j] == 0.0
  {
    seq(MC.NumMoves, j => 0.0)
  }

  /** Children carry move ids. */
  predicate IdsInRange(kids: seq<Node>)
  {
    forall k | 0 <= k < |kids| :: 0 <= kids[k].childId < MC.NumMoves
  }

  /** A child's share of the opening sample: its visits times `d`. */
  function Share(c: Node, d: real): (x: real)
    ensures d > 0.0 && c.visits > 0 ==> x > 0.0
  {
    c.visits as real * d
  }

  /** The opening sample after the first n children: each eligible child's visits times `d` at its move. */
  function Spread(kids: seq<Node>, d: real, n: int): (s: seq<real>)
    requires IdsInRange(kids) && 0 <= n <= |kids|
    ensures |s| == MC.NumMoves
  {
    if n == 0 then Zeros()
    else
      var s := Spread(kids, d, n - 1);
      var c := kids[n - 1];
      if Won(c) then s else s[c.childId := Share(c, d)]
  }

  lemma SpreadStep(kids: seq<Node>, d: real, i: int)
    requires IdsInRange(kids) && 0 <= i < |kids|
    ensures Spread(kids, d, i + 1) ==
      if Won(kids[i]) then Spread(kids, d, i) else Spread(kids, d, i)[kids[i].childId := Share(kids[i], d)]
  {
  }

  /**
   * With child moves in ascending order, the sample holds visits times `d`
   * at the move of every eligible child, and 0 at any move no eligible
   * child has.
   */
  lemma {:induction false} SpreadAt(kids: seq<Node>, d: real, n: int, j: int)
    requires IdsInRange(kids) && Increasing(KidIds(kids)) && 0 <= n <= |kids| && 0 <= j < MC.NumMoves
    ensures forall k | 0 <= k < n && !Won(kids[k]) && kids[k].childId == j ::
      Spread(kids, d, n)[j] == Share(kids[k], d)
    ensures (forall k | 0 <= k < n && !Won(kids[k]) :: kids[k].childId != j) ==> Spread(kids, d, n)[j] == 0.0
    decreases n
  {
    if n > 0 {
      SpreadAt(kids, d, n - 1, j);
      forall k | 0 <= k < n - 1 ensures kids[k].childId != kids[n - 1].childId {
        assert KidIds(kids)[k] < KidIds(kids)[n - 1];
      }
    }
  }

  /**
   * The opening choice: with the random draw taken modulo the eligible
   * visits, the first eligible child whose running visit total exceeds it.
   */
  predicate OpeningChoice(kids: seq<Node>, draw: nat, pick: int)
  {
    0 <= pick < |kids| && !Won(kids[pick]) && OpenVisits(kids, |kids|) > 0 &&
    OpenVisits(kids, pick) <= draw % OpenVisits(kids, |kids|) < OpenVisits(kids, pick + 1)
  }

  /** The opening sample: every eligible child's share of the visits at its move, 0 elsewhere. */
  function OpeningSample(kids: seq<Node>): (s: seq<real>)
    requires IdsInRange(kids) && OpenVisits(kids, |kids|) > 0
    ensures |s| == MC.NumMoves
  {
    Spread(kids, 1.0 / OpenVisits(kids, |kids|) as real, |kids|)
  }

  /**
   * The opening scan of trainmc.cpp: the chosen child is the opening
   * choice, and every eligible child's share of the visits is written at
   * its move in the cleared sample, both before the choice and after it.
   */
  method OpeningPick(kids: seq<Node>, draw: nat, sample: array<real>) returns (pick: int)
    requires IdsInRange(kids) && OpenVisits(kids, |kids|) > 0 && sample[..] == Zeros()
    modifies sample
    ensures OpeningChoice(kids, draw, pick)
    ensures sample[..] == OpeningSample(kids)
  {
    var visits := OpenVisits(kids, |kids|);
    var denominator := 1.0 / visits as real;
    pick := OpeningScan(kids, draw % visits, denominator, sample);
    SpreadRest(kids, denominator, pick + 1, sample);
  }

  /** The first loop: accumulate eligible visits, writing shares, up to the child whose total passes `target`. */
  method OpeningScan(kids: seq<Node>, target: int, denominator: real, sample: array<real>) returns (pick: int)
    requires IdsInRange(kids) && 0 <= target < OpenVisits(kids, |kids|) && sample[..] == Zeros()
    modifies sample
    ensures 0 <= pick < |kids| && !Won(kids[pick])
    ensures OpenVisits(kids, pick) <= target < OpenVisits(kids, pick + 1)
    ensures sample[..] == Spread(kids, denominator, pick + 1)
  {
    var total := 0;
    var i := 0;
    while true
      invariant 0 <= i < |kids|
      invariant total == OpenVisits(kids, i) <= target
      invariant sample[..] == Spread(kids, denominator, i)
      decreases |kids| - i
    {
      var c := kids[i];
      SpreadStep(kids, denominator, i);
      if !Won(c) {
        total := total + c.visits;
        sample[c.childId] := Share(c, denominator);
        if total > target {
          return i;
        }
      }
      i := i + 1;
    }
  }

  /** The second loop: the shares of the eligible children after the chosen one. */
  method SpreadRest(kids: seq<Node>, denominator: real, from: int, sample: array<real>)
    requires IdsInRange(kids) && 0 <= from <= |kids| && sample[..] == Spread(kids, denominator, from)
    modifies sample
    ensures sample[..] == Spread(kids, denominator, |kids|)
  {
    var i := from;
    while i < |kids|
      invariant from <= i <= |kids|
      invariant sample[..] == Spread(kids, denominator, i)
    {
      var c := kids[i];
      SpreadStep(kids, denominator, i);
      if !Won(c) {
        sample[c.childId] := Share(c, denominator);
      }
      i := i + 1;
    }
  }

  /** Running visit totals never fall when no child has negative visits. */
  lemma {:induction false} OpenVisitsGrow(kids: seq<Node>, a: int, b: int)
    requires 0 <= a <= b <= |kids| && forall k | 0 <= k < |kids| :: kids[k].visits >= 0
    ensures OpenVisits(kids, a) <= OpenVisits(kids, b)
    decreases b - a
  {
    if a < b {
      OpenVisitsGrow(kids, a, b - 1);
    }
  }

  /** The opening choice is a function of the draw: no two children qualify. */
  lemma OpeningChoiceUnique(kids: seq<Node>, draw: nat, p: int, q: int)
    requires forall k | 0 <= k < |kids| :: kids[k].visits >= 0
    requires OpeningChoice(kids, draw, p) && OpeningChoice(kids, draw, q)
    ensures p == q
  {
    if p < q {
      OpenVisitsGrow(kids, p + 1, q);
    } else if q < p {
      OpenVisitsGrow(kids, q + 1, p);
    }
  }

  /** The sum of the entries of a sample. */
  function Total(s: seq<real>): real
  {
    if s == [] then 0.0 else Total(s[..|s| - 1]) + s[|s| - 1]
  }

  /** A sample of zeros sums to 0. */
  lemma {:induction false} TotalOfZeros(s: seq<real>)
    requires forall j | 0 <= j < |s| :: s[j] == 0.0
    ensures Total(s) == 0.0
    decreases |s|
  {
    if s != [] {
      TotalOfZeros(s[..|s| - 1]);
    }
  }

  /** Writing x at move j changes the sum by x less the entry it replaces. */
  lemma {:induction false} TotalUpdate(s: seq<real>, j: int, x: real)
    requires 0 <= j < |s|
    ensures Total(s[j := x]) == Total(s) - s[j] + x
    decreases |s|
  {
    var t := s[j := x];
    if j == |s| - 1 {
      assert t[..|t| - 1] == s[..|s| - 1];
    } else {
      TotalUpdate(s[..|s| - 1], j, x);
      assert t[..|t| - 1] == s[..|s| - 1][j := x];
    }
  }

  /** With child moves in ascending order, the sample after n children sums to `d` times their eligible visits. */
  lemma {:induction false} SpreadTotal(kids: seq<Node>, d: real, n: int)
    requires IdsInRange(kids) && Increasing(KidIds(kids)) && 0 <= n <= |kids|
    ensures Total(Spread(kids, d, n)) == d * OpenVisits(kids, n) as real
    decreases n
  {
    if n == 0 {
      TotalOfZeros(Zeros());
    } else {
      SpreadTotal(kids, d, n - 1);
      var c := kids[n - 1];
      if !Won(c) {
        forall k | 0 <= k < n - 1 ensures kids[k].childId != c.childId {
          assert KidIds(kids)[k] < KidIds(kids)[n - 1];
        }
        SpreadAt(kids, d, n - 1, c.childId);
        TotalUpdate(Spread(kids, d, n - 1), c.childId, Share(c, d));
        assert d * OpenVisits(kids, n) as real == d * OpenVisits(kids, n - 1) as real + c.visits as real * d;
      }
    }
  }

  /** With no negative visits and a nonnegative `d`, no entry of the sample is negative. */
  lemma {:induction false} SpreadNonnegative(kids: seq<Node>, d: real, n: int)
    requires IdsInRange(kids) && 0 <= n <= |kids| && d >= 0.0
    requires forall k | 0 <= k < |kids| :: kids[k].visits >= 0
    ensures forall j | 0 <= j < MC.NumMoves :: Spread(kids, d, n)[j] >= 0.0
    decreases n
  {
    if n > 0 {
      SpreadNonnegative(kids, d, n - 1);
      var c := kids[n - 1];
      assert c.visits as real >= 0.0;
      assert Share(c, d) >= 0.0;
    }
  }

  /** With `d` the reciprocal of the eligible visits, the full sample sums to 1. */
  lemma SpreadTotalOne(kids: seq<Node>, d: real)
    requires IdsInRange(kids) && Increasing(KidIds(kids)) && d * OpenVisits(kids, |kids|) as real == 1.0
    ensures Total(Spread(kids, d, |kids|)) == 1.0
  {
    SpreadTotal(kids, d, |kids|);
  }

  /** With child moves in ascending order, the opening sample sums to 1. */
  lemma OpeningSampleTotal(kids: seq<Node>)
    requires IdsInRange(kids) && Increasing(KidIds(kids)) && OpenVisits(kids, |kids|) > 0
    ensures Total(OpeningSample(kids)) == 1.0
  {
    var v := OpenVisits(kids, |kids|) as real;
    Reciprocal(v);
    SpreadTotalOne(kids, 1.0 / v);
  }

  /**
   * The opening sample is a distribution over the 96 moves: with child
   * moves in ascending order and no negative visits, no entry is negative
   * and the entries sum to 1.
   */
  lemma OpeningSampleDistribution(kids: seq<Node>)
    requires IdsInRange(kids) && Increasing(KidIds(kids)) && OpenVisits(kids, |kids|) > 0
    requires forall k | 0 <= k < |kids| :: kids[k].visits >= 0
    ensures forall j | 0 <= j < MC.NumMoves :: OpeningSample(kids)[j] >= 0.0
    ensures Total(OpeningSample(kids)) == 1.0
  {
    SpreadNonnegative(kids, 1.0 / OpenVisits(kids, |kids|) as real, |kids|);
    OpeningSampleTotal(kids);
  }

  /** A positive total times its reciprocal is 1. */
  lemma Reciprocal(v: real)
    requires v > 0.0
    ensures 1.0 / v * v == 1.0
  {
  }

  /** A sample that is 1 at the chosen move: zero elsewhere when it started cleared. */
  lemma OneHot(base: seq<real>, move: int, j: int)
    requires |base| == MC.NumMoves && 0 <= move < MC.NumMoves && 0 <= j < MC.NumMoves
    ensures base[move := 1.0][j] == if j == move then 1.0 else base[j]
  {
  }
}
