/**
 * A tournament match between two players (`Match`, match.cpp): either player
 * may be a Monte Carlo searcher or a random player, stored as a null pointer.
 *
 * The match keeps its own copy of the position, `root_`, one node with no
 * children that is replaced by the child for every move played.  What the
 * searchers decide (which move they choose, whether receiving the opponent's
 * move or their next iteration needs an evaluation) and what the random
 * generator draws come in as `Reply` values, one per move.
 */
module MatchPlay {
  import opened Common
  import MC = MoveCodec
  import GR = GameRules
  import ST = SearchTree
  import SP = SelfPlay

  /**
   * One pass of the move loop: `pick` selects the move among the legal moves
   * of the position (the generator's draw for a random player, the chosen
   * move's rank for a searcher); `needEval` is what the next searcher's
   * `receiveOpponentMove` answers and `searchDone` what its `doIteration`
   * answers afterwards.
   */
  datatype Reply = Reply(pick: nat, needEval: bool, searchDone: bool)

  /** The next searcher needs an evaluation after receiving the move. */
  predicate Halts(r: Reply)
  {
    r.needEval || !r.searchDone
  }

  // ---------------------------------------------------------------------
  // The position

  /**
   * What the match needs of `root_`, as the node constructors leave it: a
   * well-shaped game, legal moves as edges, and terminal exactly when there
   * are none.
   */
  predicate Planted(n: ST.Node, breakers: seq<seq<bool>>)
  {
    GR.BreakersShape(breakers) && GR.Shaped(n.game) && (ST.Terminal(n) <==> |n.edges| == 0) &&
    forall k | 0 <= k < |n.edges| :: 0 <= n.edges[k].moveId < MC.NumMoves && GR.IsLegalMove(n.game, n.edges[k].moveId)
  }

  lemma FreshPlanted(g: GR.GameState, childId: int, depth: int, breakers: seq<seq<bool>>)
    requires GR.Shaped(g) && GR.BreakersShape(breakers)
    ensures Planted(ST.Fresh(g, -1, childId, depth, breakers), breakers)
  {
    var n := ST.Fresh(g, -1, childId, depth, breakers);
    GR.LegalMaskLegal(g, breakers);
    forall k | 0 <= k < |n.edges|
      ensures 0 <= n.edges[k].moveId < MC.NumMoves && GR.IsLegalMove(n.game, n.edges[k].moveId)
    {
      assert GR.LegalMask(g, breakers)[n.edges[k].moveId];
    }
  }

  /** The starting position, as `Node()` builds it, is a planted root with moves to play. */
  lemma StartPlanted(breakers: seq<seq<bool>>)
    requires GR.BreakersShape(breakers)
    ensures Planted(ST.DefaultNode(breakers), breakers) && !ST.Terminal(ST.DefaultNode(breakers))
    ensures ST.DefaultNode(breakers).game.toPlay == 0
  {
    ST.DefaultNodeNotTerminal(breakers);
    FreshPlanted(ST.DefaultNode(breakers).game, 0, 0, breakers);
  }

  /** The match as the constructor leaves it, with `root_` at the starting position. */
  function StartTable(breakers: seq<seq<bool>>): Table
    requires GR.BreakersShape(breakers)
  {
    Table(ST.DefaultNode(breakers), 0, NoResult, [true, true], false)
  }

  lemma StartTableOk(random: seq<bool>, breakers: seq<seq<bool>>)
    requires |random| == 2 && !(random[0] && random[1]) && GR.BreakersShape(breakers)
    ensures var t := StartTable(breakers);
      TableOk(t, random, breakers) && !t.over && t.toPlay == 0 && t.result == NoResult && t.uninitialized == [true, true]
    ensures StartTable(breakers).root.depth == 0 && GR.IsStart(StartTable(breakers).root.game)
  {
    StartPlanted(breakers);
  }

  /** `chooseMove` for a random player: the legal move at the drawn index. */
  function ChooseMove(root: ST.Node, pick: nat): (id: int)
    requires |root.edges| > 0
    ensures id in ST.MoveIds(root.edges)
  {
    ST.MoveIds(root.edges)[pick % |root.edges|]
  }

  /** A random player can draw every move of `root_`, and only those. */
  lemma ChooseMoveCovers(root: ST.Node, j: int)
    requires |root.edges| > 0
    ensures (exists pick: nat :: pick < |root.edges| && ChooseMove(root, pick) == j) <==> j in ST.MoveIds(root.edges)
  {
    if j in ST.MoveIds(root.edges) {
      var k :| 0 <= k < |root.edges| && ST.MoveIds(root.edges)[k] == j;
      SmallMod(k, |root.edges|);
      assert ChooseMove(root, k) == j;
    }
  }

  lemma SmallMod(k: nat, n: nat)
    requires k < n
    ensures k % n == k
  {
  }

  /**
   * The node `chooseMoveAndContinue` makes `root_`: the position after the
   * chosen move, one ply deeper.  The move is legal there.
   */
  function Child(root: ST.Node, id: int, breakers: seq<seq<bool>>): (c: ST.Node)
    requires Planted(root, breakers) && id in ST.MoveIds(root.edges)
    ensures Planted(c, breakers) && c.depth == root.depth + 1 && c.game.toPlay == 1 - root.game.toPlay
    ensures 0 <= c.childId < MC.NumMoves && GR.IsLegalMove(root.game, c.childId)
    ensures c.childId == id && c.game == GR.AfterMove(root.game, id)
  {
    ChosenIsLegal(root, breakers, id);
    var g := GR.Play(root.game, MC.Decode(id));
    FreshPlanted(g, id, root.depth + 1, breakers);
    ST.Fresh(g, -1, id, root.depth + 1, breakers)
  }

  lemma ChosenIsLegal(root: ST.Node, breakers: seq<seq<bool>>, id: int)
    requires Planted(root, breakers) && id in ST.MoveIds(root.edges)
    ensures 0 <= id < MC.NumMoves && GR.IsLegalMove(root.game, id)
  {
    var k :| 0 <= k < |root.edges| && ST.MoveIds(root.edges)[k] == id;
    assert root.edges[k].moveId == id;
  }

  /** The moves of the new `root_` are exactly the legal moves of the new position. */
  lemma ChildMoves(root: ST.Node, id: int, breakers: seq<seq<bool>>, j: int)
    requires Planted(root, breakers) && id in ST.MoveIds(root.edges) && 0 <= j < MC.NumMoves
    ensures var c := Child(root, id, breakers);
      j in ST.MoveIds(c.edges) <==> GR.LegalMask(c.game, breakers)[j]
  {
    ChosenIsLegal(root, breakers, id);
    ST.FreshEdgesAreLegal(GR.Play(root.game, MC.Decode(id)), -1, id, root.depth + 1, breakers, j);
  }

  // ---------------------------------------------------------------------
  // The match state and one pass of the move loop

  /** The fields of a Match that the move loop changes. */
  datatype Table = Table(root: ST.Node, toPlay: int, result: Result, uninitialized: seq<bool>, over: bool)

  /**
   * At most one player is random.  While the game goes on, the side to play
   * is the side to move in `root_`, which is not terminal; once it is over,
   * `to_play_` is still the side that made the last move, and the result for
   * the first player is a draw or that side's win.
   */
  predicate TableOk(t: Table, random: seq<bool>, breakers: seq<seq<bool>>)
  {
    |random| == 2 && !(random[0] && random[1]) && |t.uninitialized| == 2 &&
    (t.toPlay == 0 || t.toPlay == 1) && Planted(t.root, breakers) &&
    (!t.over ==> t.root.game.toPlay == t.toPlay && !ST.Terminal(t.root) && t.result == NoResult) &&
    (t.over ==> ST.Terminal(t.root) && t.root.game.toPlay == 1 - t.toPlay &&
                t.result == SP.EndResult(t.root.result == Draw, t.toPlay))
  }

  /** The table after one pass, and whether the loop stops there. */
  datatype Step = Step(table: Table, stop: bool)

  /**
   * One pass of the loop of `chooseMoveAndContinue`: play the chosen move;
   * end the game if the new position is terminal; otherwise pass the turn.
   * The loop goes on for a random player; a searcher without a root gets
   * one and stops the loop; any other searcher stops it when it needs an
   * evaluation.
   */
  function Pass(t: Table, r: Reply, random: seq<bool>, breakers: seq<seq<bool>>): (s: Step)
    requires TableOk(t, random, breakers) && !t.over
    ensures TableOk(s.table, random, breakers)
    ensures s.table.root.depth == t.root.depth + 1 && s.table.root.childId in ST.MoveIds(t.root.edges)
    ensures s.table.over ==> s.stop && s.table.toPlay == t.toPlay
    ensures !s.table.over ==> s.table.toPlay == 1 - t.toPlay
    ensures s.stop && !s.table.over ==> !random[s.table.toPlay] && !s.table.uninitialized[s.table.toPlay]
    ensures !s.stop ==> s.table.uninitialized == t.uninitialized
  {
    Passed(t, Child(t.root, ChooseMove(t.root, r.pick), breakers), r, random, breakers)
  }

  /** The rest of a pass once `root_` is the new position `child`. */
  function Passed(t: Table, child: ST.Node, r: Reply, random: seq<bool>, breakers: seq<seq<bool>>): (s: Step)
    requires TableOk(t, random, breakers) && !t.over
    requires Planted(child, breakers) && child.game.toPlay == 1 - t.toPlay
    ensures TableOk(s.table, random, breakers) && s.table.root == child
    ensures s.table.over ==> s.stop && s.table.toPlay == t.toPlay
    ensures !s.table.over ==> s.table.toPlay == 1 - t.toPlay
    ensures s.stop && !s.table.over ==> !random[s.table.toPlay] && !s.table.uninitialized[s.table.toPlay]
    ensures !s.stop ==> s.table.uninitialized == t.uninitialized
  {
    if ST.Terminal(child) then
      Step(t.(root := child, result := SP.EndResult(child.result == Draw, t.toPlay), over := true), true)
    else
      var next := 1 - t.toPlay;
      var moved := t.(root := child, toPlay := next);
      if random[next] then Step(moved, false)
      else if t.uninitialized[next] then Step(moved.(uninitialized := t.uninitialized[next := false]), true)
      else Step(moved, Halts(r))
  }

  /** The loop stops within the replies `rs`. */
  predicate Closes(t: Table, rs: seq<Reply>, random: seq<bool>, breakers: seq<seq<bool>>)
    requires TableOk(t, random, breakers) && !t.over
    decreases |rs|
  {
    |rs| > 0 &&
    var s := Pass(t, rs[0], random, breakers);
    s.stop || Closes(s.table, rs[1..], random, breakers)
  }

  /** Where the loop stops and how many replies it took. */
  datatype Outcome = Outcome(table: Table, used: nat)

  /**
   * The whole loop of `chooseMoveAndContinue`.  It plays one ply per reply
   * and comes back either with the game over or with a searcher that has a
   * root to move: random players never wait for an evaluation.
   */
  function Run(t: Table, rs: seq<Reply>, random: seq<bool>, breakers: seq<seq<bool>>): (o: Outcome)
    requires TableOk(t, random, breakers) && !t.over && Closes(t, rs, random, breakers)
    ensures TableOk(o.table, random, breakers) && 1 <= o.used <= |rs|
    ensures o.table.root.depth == t.root.depth + o.used
    ensures !o.table.over ==> !random[o.table.toPlay] && !o.table.uninitialized[o.table.toPlay]
    decreases |rs|
  {
    var s := Pass(t, rs[0], random, breakers);
    if s.stop then Outcome(s.table, 1)
    else
      var o := Run(s.table, rs[1..], random, breakers);
      Outcome(o.table, o.used + 1)
  }

  /** One more pass of the loop, as the loop of ChooseMoveAndContinue takes it. */
  lemma RunStep(start: Table, t: Table, rs: seq<Reply>, used: nat, random: seq<bool>, breakers: seq<seq<bool>>)
    requires TableOk(start, random, breakers) && !start.over && Closes(start, rs, random, breakers)
    requires TableOk(t, random, breakers) && !t.over && used < |rs| && Closes(t, rs[used..], random, breakers)
    requires Run(start, rs, random, breakers) == Shifted(Run(t, rs[used..], random, breakers), used)
    ensures var s := Pass(t, rs[used], random, breakers);
      (s.stop ==> Run(start, rs, random, breakers) == Outcome(s.table, used + 1)) &&
      (!s.stop ==> Closes(s.table, rs[used + 1..], random, breakers) &&
                   Run(start, rs, random, breakers) == Shifted(Run(s.table, rs[used + 1..], random, breakers), used + 1))
  {
    assert rs[used..][0] == rs[used];
    assert rs[used..][1..] == rs[used + 1..];
  }

  /**
   * The loop of `chooseMoveAndContinue` after `used` replies from `start`:
   * either it stopped at the last one, where the whole loop stops, or what
   * is left of the loop runs from the state `now` on the rest of the replies.
   */
  ghost predicate Looping(start: Table, now: Table, rs: seq<Reply>, used: nat, stop: bool,
                          random: seq<bool>, breakers: seq<seq<bool>>)
  {
    TableOk(start, random, breakers) && !start.over && Closes(start, rs, random, breakers) &&
    TableOk(now, random, breakers) && used <= |rs| &&
    (!stop ==> !now.over && Closes(now, rs[used..], random, breakers) &&
               Run(start, rs, random, breakers) == Shifted(Run(now, rs[used..], random, breakers), used)) &&
    (stop ==> Run(start, rs, random, breakers) == Outcome(now, used))
  }

  function Shifted(o: Outcome, k: nat): Outcome
  {
    Outcome(o.table, o.used + k)
  }

  /** The side to play after a searcher's own iteration: it has a root from then on. */
  function Started(t: Table, random: seq<bool>): (u: Table)
    requires |random| == 2 && |t.uninitialized| == 2 && (t.toPlay == 0 || t.toPlay == 1)
    ensures u.root == t.root && u.toPlay == t.toPlay && u.over == t.over && u.result == t.result
    ensures |u.uninitialized| == 2 && (random[t.toPlay] || !u.uninitialized[t.toPlay])
    ensures u.uninitialized[1 - t.toPlay] == t.uninitialized[1 - t.toPlay]
  {
    if random[t.toPlay] then t else t.(uninitialized := t.uninitialized[t.toPlay := false])
  }

  // ---------------------------------------------------------------------
  // The match as written

  /** `root_` as the constructor leaves it: the default of match.h, a null pointer. */
  function InitialRootAsWritten(): Option<ST.Node>
  {
    None
  }

  /**
   * The new `root_` as written: `chooseMove` and the child constructor read
   * the moves and the game through `root_`; a null `root_` gives no node.
   */
  function ChildAsWritten(root: Option<ST.Node>, pick: nat, breakers: seq<seq<bool>>): (c: Option<ST.Node>)
    requires root.Some? ==> Planted(root.value, breakers) && !ST.Terminal(root.value)
    ensures c.Some? <==> root.Some?
  {
    if root.None? then None else Some(Child(root.value, ChooseMove(root.value, pick), breakers))
  }

  /** As written, the first move of every match dereferences the null `root_`. */
  lemma FirstMoveAsWritten(pick: nat, breakers: seq<seq<bool>>)
    ensures ChildAsWritten(InitialRootAsWritten(), pick, breakers) == None
  {
  }

  /**
   * One pass as written: the terminal test reads `players_[to_play_]->root()`
   * and `endGame` calls `null_root` on both players; both dereference the
   * null pointer of a random player (None).
   */
  function PassAsWritten(t: Table, r: Reply, random: seq<bool>, breakers: seq<seq<bool>>): (s: Option<Step>)
    requires TableOk(t, random, breakers) && !t.over
    ensures s.Some? ==> s.value == Pass(t, r, random, breakers)
  {
    var s := Pass(t, r, random, breakers);
    if random[t.toPlay] then None
    else if s.table.over && (random[0] || random[1]) then None
    else Some(s)
  }

  /** The loop as written; None when some pass dereferences a null player. */
  function RunAsWritten(t: Table, rs: seq<Reply>, random: seq<bool>, breakers: seq<seq<bool>>): Option<Outcome>
    requires TableOk(t, random, breakers) && !t.over && Closes(t, rs, random, breakers)
    decreases |rs|
  {
    match PassAsWritten(t, rs[0], random, breakers)
    case None => None
    case Some(s) =>
      if s.stop then Some(Outcome(s.table, 1))
      else
        match RunAsWritten(s.table, rs[1..], random, breakers)
        case None => None
        case Some(o) => Some(Outcome(o.table, o.used + 1))
  }

  /** As written, a match with a random player never records a result. */
  lemma {:induction false} RandomMatchNeverEndsAsWritten(t: Table, rs: seq<Reply>, random: seq<bool>,
                                                       breakers: seq<seq<bool>>)
    requires TableOk(t, random, breakers) && !t.over && Closes(t, rs, random, breakers)
    requires random[0] || random[1]
    ensures var o := RunAsWritten(t, rs, random, breakers); o.None? || !o.value.table.over
    decreases |rs|
  {
    var s := Pass(t, rs[0], random, breakers);
    if PassAsWritten(t, rs[0], random, breakers).Some? && !s.stop {
      RandomMatchNeverEndsAsWritten(s.table, rs[1..], random, breakers);
    }
  }

  /** The corrected pass is the written one wherever the written one reaches no null pointer. */
  lemma RunAgreesAsWritten(t: Table, rs: seq<Reply>, random: seq<bool>, breakers: seq<seq<bool>>)
    requires TableOk(t, random, breakers) && !t.over && Closes(t, rs, random, breakers)
    ensures var o := RunAsWritten(t, rs, random, breakers); o.Some? ==> o.value == Run(t, rs, random, breakers)
    decreases |rs|
  {
    var s := Pass(t, rs[0], random, breakers);
    if !s.stop {
      RunAgreesAsWritten(s.table, rs[1..], random, breakers);
    }
  }

  // ---------------------------------------------------------------------
  // The match, with the position read through `root_`

  class Match {
    /** `players_[i] == nullptr`: player i is random. */
    const random: seq<bool>
    const breakers: seq<seq<bool>>
    var root: ST.Node
    var toPlay: int
    var result: Result
    /** `uninitialized()` of each searcher: no root yet. */
    var uninitialized: seq<bool>
    /** `endGame` ran. */
    var over: bool

    function Snap(): Table
      reads this
    {
      Table(root, toPlay, result, uninitialized, over)
    }

    predicate Valid()
      reads this
    {
      TableOk(Snap(), random, breakers)
    }

    /** The match starts at the starting position, player 0 to play, neither searcher with a root. */
    constructor (random: seq<bool>, breakers: seq<seq<bool>>)
      requires |random| == 2 && !(random[0] && random[1]) && GR.BreakersShape(breakers)
      ensures Valid() && !over && toPlay == 0 && result == NoResult && uninitialized == [true, true]
      ensures root.depth == 0 && GR.IsStart(root.game)
      ensures this.random == random && this.breakers == breakers
    {
      this.random := random;
      this.breakers := breakers;
      new;
      StartTableOk(random, breakers);
      Adopt(StartTable(breakers));
    }

    /** Take over the fields of a table the invariant holds for. */
    method Adopt(t: Table)
      requires TableOk(t, random, breakers)
      modifies this
      ensures Valid() && Snap() == t
    {
      root, toPlay, result, uninitialized, over := t.root, t.toPlay, t.result, t.uninitialized, t.over;
    }

    /** `score`: the first player's score, 1 when the first player made the final line. */
    function Score(): (s: real)
      reads this
      requires Valid()
      ensures !over || root.result == Draw ==> s == 0.5
      ensures over && root.result != Draw ==> (s == 1.0 <==> root.game.toPlay == 1) && (s == 0.0 <==> root.game.toPlay == 0)
    {
      SP.ResultScore(result)
    }

    /**
     * `doIteration`: a random player moves at once; a searcher does an
     * iteration (its first one gives it a root) and moves when its turn is
     * done.  The game is complete when this returns true; otherwise the side
     * to play is a searcher, as `num_requests` and `writeRequests` assert.
     */
    method DoIteration(turnDone: bool, replies: seq<Reply>) returns (done: bool)
      requires Valid() && !over
      requires random[toPlay] || turnDone ==> Closes(Started(Snap(), random), replies, random, breakers)
      modifies this
      ensures Valid() && (done <==> over)
      ensures !random[old(toPlay)] && !turnDone ==> !done && Snap() == Started(old(Snap()), random)
      ensures random[old(toPlay)] || turnDone ==>
        Snap() == Run(Started(old(Snap()), random), replies, random, breakers).table
      ensures !done ==> !random[toPlay]
    {
      if random[toPlay] {
        var used;
        done, used := ChooseMoveAndContinue(replies);
        return;
      }
      uninitialized := uninitialized[toPlay := false];
      if !turnDone {
        return false;
      }
      var used;
      done, used := ChooseMoveAndContinue(replies);
    }

    /** `endGame`: the result for the first player, from the side that made the last move. */
    method EndGame()
      requires |random| == 2 && !(random[0] && random[1]) && |uninitialized| == 2 && (toPlay == 0 || toPlay == 1)
      requires Planted(root, breakers) && ST.Terminal(root) && root.game.toPlay == 1 - toPlay
      modifies this
      ensures Valid() && over && result == SP.EndResult(root.result == Draw, toPlay)
      ensures root == old(root) && toPlay == old(toPlay) && uninitialized == old(uninitialized)
    {
      if root.result == Draw {
        result := Draw;
      } else if toPlay == 1 {
        result := Loss;
      } else {
        result := Win;
      }
      over := true;
    }

    /**
     * `chooseMove` for a random player: collect the ids of the legal moves
     * of `root_` and take the one at the drawn index.
     */
    method ChooseRandomMove(pick: nat) returns (choice: int)
      requires Valid() && !over
      ensures choice == ChooseMove(root, pick)
    {
      var moves: seq<int> := [];
      var i := 0;
      while i < |root.edges|
        invariant 0 <= i <= |root.edges| && moves == ST.MoveIds(root.edges)[..i]
      {
        moves := moves + [root.edges[i].moveId];
        i := i + 1;
      }
      assert moves == ST.MoveIds(root.edges);
      choice := moves[pick % |moves|];
    }

    /** One pass of the loop of `chooseMoveAndContinue`. */
    method TakeTurn(r: Reply) returns (stop: bool)
      requires Valid() && !over
      modifies this
      ensures Valid() && Step(Snap(), stop) == Pass(old(Snap()), r, random, breakers)
    {
      var choice := ChooseRandomMove(r.pick);
      ghost var before := Snap();
      root := Child(root, choice, breakers);
      assert Pass(before, r, random, breakers) == Passed(before, root, r, random, breakers);
      stop := Continue(before, r);
    }

    /** The rest of a pass, once `root_` holds the new position. */
    method Continue(ghost t: Table, r: Reply) returns (stop: bool)
      requires TableOk(t, random, breakers) && !t.over && Snap() == t.(root := root)
      requires Planted(root, breakers) && root.game.toPlay == 1 - t.toPlay
      modifies this
      ensures Valid() && Step(Snap(), stop) == Passed(t, old(root), r, random, breakers)
    {
      if ST.Terminal(root) {
        EndGame();
        return true;
      }
      toPlay := 1 - toPlay;
      if random[toPlay] {
        return false;
      }
      if uninitialized[toPlay] {
        // The new searcher's first iteration always asks for an evaluation.
        uninitialized := uninitialized[toPlay := false];
        return true;
      }
      var needEval := r.needEval;
      if !needEval {
        needEval := !r.searchDone;
      }
      return needEval;
    }

    /**
     * `chooseMoveAndContinue`: play moves until the game ends or the searcher
     * to play needs an evaluation; `used` replies were consumed.
     */
    method ChooseMoveAndContinue(replies: seq<Reply>) returns (done: bool, used: nat)
      requires Valid() && !over && Closes(Snap(), replies, random, breakers)
      modifies this
      ensures Valid() && (done <==> over)
      ensures Outcome(Snap(), used) == Run(old(Snap()), replies, random, breakers)
    {
      ghost var start := Snap();
      var stop := false;
      used := 0;
      while !stop
        invariant Valid() && Looping(start, Snap(), replies, used, stop, random, breakers)
        decreases |replies| - used, !stop
      {
        stop := Advance(replies, used, start);
        used := used + 1;
      }
      done := over;
    }

    /** One pass of the loop of `chooseMoveAndContinue`, as the loop's invariant sees it. */
    method Advance(replies: seq<Reply>, used: nat, ghost start: Table) returns (stop: bool)
      requires Valid() && Looping(start, Snap(), replies, used, false, random, breakers)
      modifies this
      ensures Valid() && used < |replies| && Looping(start, Snap(), replies, used + 1, stop, random, breakers)
    {
      ghost var before := Snap();
      RunStep(start, before, replies, used, random, breakers);
      stop := TakeTurn(replies[used]);
    }
  }
}
