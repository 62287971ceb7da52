/**
 * The first C++ rules engine: 48 tier bits at row*12 + col*3 + tier, a
 * separate 16-bit frozen set at row*4 + col, the player to move and six
 * inventory counts.
 */
module CppGame {
  import opened Common
  import MC = MoveCodec
  import GR = GameRules
  import CM = CppMove

  datatype State = State(board: seq<bool>, frozen: seq<bool>, toPlay: int, pieces: seq<int>)

  predicate Shaped(g: State)
  {
    |g.board| == 48 && |g.frozen| == 16 && (g.toPlay == 0 || g.toPlay == 1) && |g.pieces| == 6
  }

  predicate OnBoard(row: int, col: int) { 0 <= row < 4 && 0 <= col < 4 }

  /** The constructor: empty board, nothing frozen, player 0, four of each piece. */
  function Init(): (g: State)
    ensures Shaped(g) && g.toPlay == 0
    ensures forall k | 0 <= k < 48 :: !g.board[k]
    ensures forall k | 0 <= k < 16 :: !g.frozen[k]
    ensures forall i | 0 <= i < 6 :: g.pieces[i] == 4
  {
    State(seq(48, _ => false), seq(16, _ => false), 0, [4, 4, 4, 4, 4, 4])
  }

  function TierBit(row: int, col: int, t: int): (k: int)
    requires OnBoard(row, col) && 0 <= t < 3
    ensures 0 <= k < 48
  {
    row * 12 + col * 3 + t
  }

  predicate Has(g: State, row: int, col: int, t: int)
    requires Shaped(g) && OnBoard(row, col) && 0 <= t < 3
  {
    g.board[TierBit(row, col, t)]
  }

  predicate IsFrozen(g: State, row: int, col: int)
    requires Shaped(g) && OnBoard(row, col)
  {
    g.frozen[row * 4 + col]
  }

  /** `is_empty`: no tier present. */
  predicate IsEmpty(g: State, row: int, col: int)
    requires Shaped(g) && OnBoard(row, col)
  {
    !(Has(g, row, col, 0) || Has(g, row, col, 1) || Has(g, row, col, 2))
  }

  /** `can_place` as written: an empty cell is accepted before the inventory is looked at. */
  predicate CanPlace(g: State, ptype: int, row: int, col: int)
    requires Shaped(g) && OnBoard(row, col) && 0 <= ptype < 3
  {
    if IsEmpty(g, row, col) then true
    else if g.pieces[g.toPlay * 3 + ptype] == 0 then false
    else if IsFrozen(g, row, col) then false
    else if ptype == 0 then false
    else if ptype == 1 then !(Has(g, row, col, 1) || Has(g, row, col, 2))
    else !(Has(g, row, col, 2) || (Has(g, row, col, 0) && !Has(g, row, col, 1)))
  }

  /** `can_place` with the inventory check applied to every cell, as the current engine does. */
  predicate CanPlaceHeld(g: State, ptype: int, row: int, col: int)
    requires Shaped(g) && OnBoard(row, col) && 0 <= ptype < 3
  {
    g.pieces[g.toPlay * 3 + ptype] != 0 && CanPlace(g, ptype, row, col)
  }

  /** `get_bottom`: the lowest tier present, 3 when empty. */
  function Bottom(g: State, row: int, col: int): (r: int)
    requires Shaped(g) && OnBoard(row, col)
    ensures 0 <= r <= 3
    ensures r == 3 <==> IsEmpty(g, row, col)
    ensures r < 3 ==> Has(g, row, col, r) && forall t | 0 <= t < r :: !Has(g, row, col, t)
  {
    if Has(g, row, col, 0) then 0
    else if Has(g, row, col, 1) then 1
    else if Has(g, row, col, 2) then 2
    else 3
  }

  /** `get_top`: the highest tier present, -1 when empty. */
  function Top(g: State, row: int, col: int): (r: int)
    requires Shaped(g) && OnBoard(row, col)
    ensures -1 <= r < 3
    ensures r == -1 <==> IsEmpty(g, row, col)
    ensures r >= 0 ==> Has(g, row, col, r)
    ensures r < 2 ==> !Has(g, row, col, 2)
    ensures r < 1 ==> !Has(g, row, col, 1)
  {
    if Has(g, row, col, 2) then 2
    else if Has(g, row, col, 1) then 1
    else if Has(g, row, col, 0) then 0
    else -1
  }

  /**
   * `can_move`, with the source's three typos read as intended: the
   * missing `+` before the third tier in `is_empty`, `ro1` for `col1`
   * and the frozen set called without `.test`.
   */
  predicate CanMove(g: State, row1: int, col1: int, row2: int, col2: int)
    requires Shaped(g) && OnBoard(row1, col1) && OnBoard(row2, col2)
  {
    if IsEmpty(g, row1, col1) || IsEmpty(g, row2, col2) then false
    else if IsFrozen(g, row1, col1) || IsFrozen(g, row2, col2) then false
    else Bottom(g, row1, col1) - Top(g, row2, col2) == 1
  }

  /** `is_legal`: dispatch on the decoded move, using the given placement rule. */
  predicate IsLegalWith(g: State, id: int, held: bool)
    requires Shaped(g) && 0 <= id < MC.NumMoves
  {
    CM.DecodeAgreesWithCurrent(id);
    match CM.Decode(id)
    case PlaceAt(t, r, c) => if held then CanPlaceHeld(g, t, r, c) else CanPlace(g, t, r, c)
    case SlideBetween(r1, c1, r2, c2) => CanMove(g, r1, c1, r2, c2)
  }

  /** `is_legal` as written. */
  predicate IsLegal(g: State, id: int)
    requires Shaped(g) && 0 <= id < MC.NumMoves
  {
    IsLegalWith(g, id, false)
  }

  /** The same position in the current engine's 64-bit layout. */
  function ToCurrent(g: State): (h: GR.GameState)
    requires Shaped(g)
    ensures GR.Shaped(h) && h.toPlay == g.toPlay && h.pieces == g.pieces
  {
    GR.GameState(
      seq(GR.BoardBits, k requires 0 <= k < GR.BoardBits =>
        if k % 4 == GR.Frozen then g.frozen[k / 4] else g.board[(k / 16) * 12 + ((k % 16) / 4) * 3 + k % 4]),
      g.toPlay, g.pieces)
  }

  /** Each tier bit and frozen flag lands on the current engine's bit for the same cell. */
  lemma ToCurrentAt(g: State, row: int, col: int)
    requires Shaped(g) && OnBoard(row, col)
    ensures GR.Has(ToCurrent(g), MC.Space(row, col), 0) == Has(g, row, col, 0)
    ensures GR.Has(ToCurrent(g), MC.Space(row, col), 1) == Has(g, row, col, 1)
    ensures GR.Has(ToCurrent(g), MC.Space(row, col), 2) == Has(g, row, col, 2)
    ensures GR.IsFrozen(ToCurrent(g), MC.Space(row, col)) == IsFrozen(g, row, col)
  {
    ToCurrentBit(g, row, col, 0);
    ToCurrentBit(g, row, col, 1);
    ToCurrentBit(g, row, col, 2);
    ToCurrentBit(g, row, col, GR.Frozen);
  }

  lemma ToCurrentBit(g: State, row: int, col: int, t: int)
    requires Shaped(g) && OnBoard(row, col) && 0 <= t < 4
    ensures ToCurrent(g).board[GR.Bit(MC.Space(row, col), t)] ==
      if t == GR.Frozen then g.frozen[row * 4 + col] else g.board[row * 12 + col * 3 + t]
  {
    var k := GR.Bit(MC.Space(row, col), t);
    GR.BitParts(MC.Space(row, col), t);
    assert k / 4 == row * 4 + col;
  }

  /** `get_top` and `get_bottom` compute the current engine's `top` and `bottom`. */
  lemma TopBottomAgree(g: State, row: int, col: int)
    requires Shaped(g) && OnBoard(row, col)
    ensures Top(g, row, col) == GR.Top(ToCurrent(g), MC.Space(row, col))
    ensures Bottom(g, row, col) == GR.Bottom(ToCurrent(g), MC.Space(row, col))
    ensures IsEmpty(g, row, col) == GR.Empty(ToCurrent(g), MC.Space(row, col))
  {
    ToCurrentAt(g, row, col);
    GR.TopMeaning(ToCurrent(g), MC.Space(row, col));
    GR.BottomMeaning(ToCurrent(g), MC.Space(row, col));
  }

  /** `can_move` is the current engine's slide rule. */
  lemma CanMoveAgrees(g: State, row1: int, col1: int, row2: int, col2: int)
    requires Shaped(g) && OnBoard(row1, col1) && OnBoard(row2, col2)
    ensures CanMove(g, row1, col1, row2, col2) == GR.CanMove(ToCurrent(g), MC.Space(row1, col1), MC.Space(row2, col2))
  {
    ToCurrentAt(g, row1, col1);
    ToCurrentAt(g, row2, col2);
    TopBottomAgree(g, row1, col1);
    TopBottomAgree(g, row2, col2);
  }

  /** With the inventory check in front, `can_place` is the current engine's placement rule. */
  lemma CanPlaceHeldAgrees(g: State, ptype: int, row: int, col: int)
    requires Shaped(g) && OnBoard(row, col) && 0 <= ptype < 3
    ensures CanPlaceHeld(g, ptype, row, col) == GR.CanPlace(ToCurrent(g), ptype, MC.Space(row, col))
  {
    ToCurrentAt(g, row, col);
    assert IsEmpty(g, row, col) == GR.Empty(ToCurrent(g), MC.Space(row, col));
  }

  /** As written, an empty cell accepts any tier even when the mover has none of it left. */
  lemma EmptyIgnoresInventory(g: State, ptype: int, row: int, col: int)
    requires Shaped(g) && OnBoard(row, col) && 0 <= ptype < 3
    requires IsEmpty(g, row, col) && g.pieces[g.toPlay * 3 + ptype] == 0
    ensures CanPlace(g, ptype, row, col)
    ensures !GR.CanPlace(ToCurrent(g), ptype, MC.Space(row, col))
  {
  }

  /** With the inventory-checked rule, `is_legal` is the current engine's `isLegalMove`. */
  lemma IsLegalHeldAgrees(g: State, id: int)
    requires Shaped(g) && 0 <= id < MC.NumMoves
    ensures IsLegalWith(g, id, true) == GR.IsLegalMove(ToCurrent(g), id)
  {
    CM.DecodeAgreesWithCurrent(id);
    match CM.Decode(id)
    case PlaceAt(t, r, c) => CanPlaceHeldAgrees(g, t, r, c);
    case SlideBetween(r1, c1, r2, c2) => CanMoveAgrees(g, r1, c1, r2, c2);
  }
}

/**
 * The C rules engine: the same layout as the first C++ engine, with a game
 * allocated and filled by `init_game`.
 */
module CGame {
  import MC = MoveCodec
  import CG = CppGame
  import CM = CppMove
  import CMv = CMove

  /** The frozen set `init_game` leaves: every cell but (0,0), (0,1) and (1,1). */
  predicate StartFrozen(k: int)
  {
    k != 0 && k != 1 && k != 5
  }

  class GameRecord {
    var board: array<bool>
    var frozen: array<bool>
    var toPlay: int
    var pieces: array<int>
    var isDone: bool

    function State(): CG.State
      reads this, board, frozen, pieces
    {
      CG.State(board[..], frozen[..], toPlay, pieces[..])
    }

    /**
     * `init_game`: clear the 48 tiers, freeze every cell but three, player 0
     * to move, four of each piece.
     */
    constructor Init()
      ensures CG.Shaped(State()) && !isDone && toPlay == 0
      ensures forall k | 0 <= k < 48 :: !board[k]
      ensures forall k | 0 <= k < 16 :: frozen[k] == StartFrozen(k)
      ensures forall i | 0 <= i < 6 :: pieces[i] == 4
      ensures fresh(board) && fresh(frozen) && fresh(pieces)
    {
      board := new bool[48];
      frozen := new bool[16];
      pieces := new int[6];
      toPlay := 0;
      isDone := false;
      new;
      var i := 0;
      while i < 48
        invariant 0 <= i <= 48 && forall k | 0 <= k < i :: !board[k]
        modifies board
      {
        board[i] := false;
        i := i + 1;
      }
      i := 0;
      while i < 16
        invariant 0 <= i <= 16 && forall k | 0 <= k < i :: frozen[k]
        invariant forall k | 0 <= k < 48 :: !board[k]
        modifies frozen
      {
        frozen[i] := true;
        i := i + 1;
      }
      frozen[0 * 4 + 0] := false;
      frozen[0 * 4 + 1] := false;
      frozen[1 * 4 + 1] := false;
      i := 0;
      while i < 6
        invariant 0 <= i <= 6 && forall k | 0 <= k < i :: pieces[k] == 4
        invariant forall k | 0 <= k < 48 :: !board[k]
        invariant forall k | 0 <= k < 16 :: frozen[k] == StartFrozen(k)
        modifies pieces
      {
        pieces[i] := 4;
        i := i + 1;
      }
    }
  }

  /** `is_empty` as written: true when some tier IS present. */
  predicate IsEmptyAsWritten(g: CG.State, row: int, col: int)
    requires CG.Shaped(g) && CG.OnBoard(row, col)
  {
    CG.Has(g, row, col, 0) || CG.Has(g, row, col, 1) || CG.Has(g, row, col, 2)
  }

  /** The as-written test is the exact negation of emptiness. */
  lemma IsEmptyInverted(g: CG.State, row: int, col: int)
    requires CG.Shaped(g) && CG.OnBoard(row, col)
    ensures IsEmptyAsWritten(g, row, col) <==> !CG.IsEmpty(g, row, col)
  {
  }

  /** `can_place` built on an emptiness test; a capital needs no base and no capital here. */
  predicate CanPlaceWith(g: CG.State, ptype: int, row: int, col: int, empty: bool)
    requires CG.Shaped(g) && CG.OnBoard(row, col) && 0 <= ptype < 3
  {
    if CG.IsFrozen(g, row, col) then false
    else if empty then true
    else if ptype == 0 then false
    else if ptype == 1 then !CG.Has(g, row, col, 1) && !CG.Has(g, row, col, 2)
    else !CG.Has(g, row, col, 0) && !CG.Has(g, row, col, 2)
  }

  /** `can_move` built on an emptiness test for each cell. */
  predicate CanMoveWith(g: CG.State, row1: int, col1: int, row2: int, col2: int, empty1: bool, empty2: bool)
    requires CG.Shaped(g) && CG.OnBoard(row1, col1) && CG.OnBoard(row2, col2)
  {
    if empty1 || empty2 then false
    else if CG.IsFrozen(g, row1, col1) || CG.IsFrozen(g, row2, col2) then false
    else CG.Bottom(g, row1, col1) - CG.Top(g, row2, col2) == 1
  }

  /** `can_place` as written. */
  predicate CanPlaceAsWritten(g: CG.State, ptype: int, row: int, col: int)
    requires CG.Shaped(g) && CG.OnBoard(row, col) && 0 <= ptype < 3
  {
    CanPlaceWith(g, ptype, row, col, IsEmptyAsWritten(g, row, col))
  }

  /** `can_move` as written. */
  predicate CanMoveAsWritten(g: CG.State, row1: int, col1: int, row2: int, col2: int)
    requires CG.Shaped(g) && CG.OnBoard(row1, col1) && CG.OnBoard(row2, col2)
  {
    CanMoveWith(g, row1, col1, row2, col2, IsEmptyAsWritten(g, row1, col1), IsEmptyAsWritten(g, row2, col2))
  }

  /** `can_place` with `is_empty` meaning what its name says. */
  predicate CanPlace(g: CG.State, ptype: int, row: int, col: int)
    requires CG.Shaped(g) && CG.OnBoard(row, col) && 0 <= ptype < 3
  {
    CanPlaceWith(g, ptype, row, col, CG.IsEmpty(g, row, col))
  }

  /** `can_move` with `is_empty` meaning what its name says. */
  predicate CanMove(g: CG.State, row1: int, col1: int, row2: int, col2: int)
    requires CG.Shaped(g) && CG.OnBoard(row1, col1) && CG.OnBoard(row2, col2)
  {
    CanMoveWith(g, row1, col1, row2, col2, CG.IsEmpty(g, row1, col1), CG.IsEmpty(g, row2, col2))
  }

  /**
   * As written no slide is ever allowed: only two empty cells pass the
   * emptiness test, and then bottom 3 minus top -1 is 4.
   */
  lemma NoSlideAsWritten(g: CG.State, row1: int, col1: int, row2: int, col2: int)
    requires CG.Shaped(g) && CG.OnBoard(row1, col1) && CG.OnBoard(row2, col2)
    ensures !CanMoveAsWritten(g, row1, col1, row2, col2)
  {
  }

  /** As written a base is refused on an empty unfrozen cell, and anything goes on an occupied one. */
  lemma PlaceAsWritten(g: CG.State, ptype: int, row: int, col: int)
    requires CG.Shaped(g) && CG.OnBoard(row, col) && 0 <= ptype < 3 && !CG.IsFrozen(g, row, col)
    ensures CG.IsEmpty(g, row, col) && ptype == 0 ==> !CanPlaceAsWritten(g, ptype, row, col)
    ensures !CG.IsEmpty(g, row, col) ==> CanPlaceAsWritten(g, ptype, row, col)
  {
  }

  /** With the emptiness test corrected, `can_move` is the first C++ engine's slide rule. */
  lemma CanMoveAgrees(g: CG.State, row1: int, col1: int, row2: int, col2: int)
    requires CG.Shaped(g) && CG.OnBoard(row1, col1) && CG.OnBoard(row2, col2)
    ensures CanMove(g, row1, col1, row2, col2) == CG.CanMove(g, row1, col1, row2, col2)
  {
  }

  /**
   * With the emptiness test corrected: a frozen cell takes nothing, an empty
   * unfrozen cell takes every tier, a base never goes on a stack, a column
   * needs no column and no capital, a capital no base and no capital.
   */
  lemma CanPlaceRule(g: CG.State, ptype: int, row: int, col: int)
    requires CG.Shaped(g) && CG.OnBoard(row, col) && 0 <= ptype < 3
    ensures CG.IsFrozen(g, row, col) ==> !CanPlace(g, ptype, row, col)
    ensures !CG.IsFrozen(g, row, col) && CG.IsEmpty(g, row, col) ==> CanPlace(g, ptype, row, col)
    ensures !CG.IsFrozen(g, row, col) && !CG.IsEmpty(g, row, col) ==>
      (CanPlace(g, ptype, row, col) <==>
        (ptype == 1 && !CG.Has(g, row, col, 1) && !CG.Has(g, row, col, 2)) ||
        (ptype == 2 && !CG.Has(g, row, col, 0) && !CG.Has(g, row, col, 2)))
  {
  }

  /**
   * `is_legal`, repaired to pass the game along, with the corrected rules:
   * a placement uses `can_place`, a slide `can_move`.
   */
  predicate IsLegal(g: CG.State, id: int)
    requires CG.Shaped(g) && 0 <= id < MC.NumMoves
  {
    CMv.DecodeAgreesWithCurrent(id);
    match CMv.Decode(id)
    case PlaceAt(t, r, c) => CanPlace(g, t, r, c)
    case SlideBetween(r1, c1, r2, c2) => CanMove(g, r1, c1, r2, c2)
  }

  /** `is_legal` as written, with the inverted emptiness test in both rules. */
  predicate IsLegalAsWritten(g: CG.State, id: int)
    requires CG.Shaped(g) && 0 <= id < MC.NumMoves
  {
    CMv.DecodeAgreesWithCurrent(id);
    match CMv.Decode(id)
    case PlaceAt(t, r, c) => CanPlaceAsWritten(g, t, r, c)
    case SlideBetween(r1, c1, r2, c2) => CanMoveAsWritten(g, r1, c1, r2, c2)
  }

  /**
   * As written, no slide is ever legal, and a base on an empty unfrozen
   * cell, which the corrected rule accepts, is refused.
   */
  lemma IsLegalAsWrittenRefuses(g: CG.State, id: int)
    requires CG.Shaped(g) && 0 <= id < MC.NumMoves
    ensures id < 48 ==> !IsLegalAsWritten(g, id)
    ensures 48 <= id < 64 && CG.IsEmpty(g, (id - 48) / 4, (id - 48) % 4) && !CG.IsFrozen(g, (id - 48) / 4, (id - 48) % 4) ==>
      IsLegal(g, id) && !IsLegalAsWritten(g, id)
  {
    CMv.DecodeAgreesWithCurrent(id);
    match CMv.Decode(id)
    case PlaceAt(t, r, c) =>
    case SlideBetween(r1, c1, r2, c2) =>
      NoSlideAsWritten(g, r1, c1, r2, c2);
  }

  /** Slides are legal in the C engine exactly when they are in the first C++ engine. */
  lemma SlidesAgree(g: CG.State, id: int)
    requires CG.Shaped(g) && 0 <= id < 48
    ensures IsLegal(g, id) == CG.IsLegal(g, id)
  {
    CMv.DecodeAgreesWithCurrent(id);
    CM.DecodeAgreesWithCurrent(id);
    assert CMv.Decode(id) == CM.Decode(id);
  }
}
