/**
 * The board of the first Python prototype (board.py). It keeps the same
 * state as the later prototype board: three tier flags per cell, a frozen
 * flag per cell and the standing lines. Its nested 4 x 4 x 3 and 4 x 4
 * lists are kept here flattened row by row, so tier t of cell (row, col)
 * is flag 12*row + 3*col + t and its frozen flag is 4*row + col.
 *
 * It differs from the later board in its rules: a frozen cell refuses
 * every placement, a slide only checks that the target is occupied, and
 * it adds `clear` and `is_top`.
 */
module ProtoBoard {
  import opened Common
  import MC = MoveCodec
  import PL = PyLines
  import PB = PyBoard

  /** `is_top`'s answer: false below the top, true at it, and no answer above it. */
  function TopAnswer(spaces: seq<bool>, c: int, t: int): (r: Option<bool>)
    requires |spaces| == 48 && 0 <= c < 16 && 0 <= t < 3
    ensures r == Some(true) <==> PB.CellTop(spaces, c) == t
    ensures r == Some(false) <==> t < PB.CellTop(spaces, c)
    ensures r == None <==> PB.CellTop(spaces, c) < t
  {
    if (t < 1 && spaces[3 * c + 1]) || (t < 2 && spaces[3 * c + 2]) then Some(false)
    else if spaces[3 * c + t] then Some(true)
    else None
  }

  /** The flags with the three tiers of cell `c` cleared. */
  function Cleared(spaces: seq<bool>, c: int): (r: seq<bool>)
    requires |spaces| == 48 && 0 <= c < 16
    ensures |r| == 48
  {
    spaces[..3 * c] + [false, false, false] + spaces[3 * c + 3..]
  }

  /** Clearing a cell empties it and leaves every other flag as it was. */
  lemma ClearedEmpties(spaces: seq<bool>, c: int)
    requires |spaces| == 48 && 0 <= c < 16
    ensures PB.CellTop(Cleared(spaces, c), c) == -1
    ensures forall k | 0 <= k < 48 && (k < 3 * c || 3 * c + 3 <= k) :: Cleared(spaces, c)[k] == spaces[k]
  {
    var r := Cleared(spaces, c);
    assert r[3 * c] == false && r[3 * c + 1] == false && r[3 * c + 2] == false;
  }

  class Board {
    var spaces: seq<bool>
    var frozen: seq<bool>
    var lines: seq<PL.Line>

    ghost predicate Shaped()
      reads this
    {
      PB.Sized(spaces, frozen)
    }

    /** The recorded lines are always those of the current tops. */
    ghost predicate Valid()
      reads this
    {
      Shaped() && lines == PL.Lines(PB.TopsOf(spaces))
    }

    /** `__init__`: every cell empty, only (0,0), (0,1) and (1,1) unfrozen, no lines. */
    constructor ()
      ensures Valid()
      ensures forall k | 0 <= k < 48 :: !spaces[k]
      ensures frozen == PB.StartFrozen() && lines == []
    {
      spaces := seq(48, _ => false);
      frozen := PB.StartFrozen();
      lines := [];
      new;
      PL.EmptyBoardNoLines(PB.TopsOf(spaces));
    }

    predicate Has(row: int, col: int, t: int)
      reads this
      requires Shaped() && PB.OnBoard(row, col) && 0 <= t < 3
    {
      spaces[PB.Slot(row, col, t)]
    }

    predicate IsFrozen(row: int, col: int)
      reads this
      requires Shaped() && PB.OnBoard(row, col)
    {
      frozen[PB.Cell(row, col)]
    }

    /** `is_empty`: no tier present. */
    predicate IsEmpty(row: int, col: int)
      reads this
      requires Shaped() && PB.OnBoard(row, col)
    {
      !(Has(row, col, 0) || Has(row, col, 1) || Has(row, col, 2))
    }

    /** `bottom`: the lowest tier present, or -1. */
    function Bottom(row: int, col: int): (r: int)
      reads this
      requires Shaped() && PB.OnBoard(row, col)
      ensures -1 <= r < 3
      ensures r == -1 <==> IsEmpty(row, col)
      ensures r >= 0 ==> Has(row, col, r)
      ensures forall u | 0 <= u < r :: !Has(row, col, u)
    {
      PB.CellBottom(spaces, PB.Cell(row, col))
    }

    /** `top`: the highest tier present, or -1. */
    function Top(row: int, col: int): (r: int)
      reads this
      requires Shaped() && PB.OnBoard(row, col)
      ensures -1 <= r < 3
      ensures r == -1 <==> IsEmpty(row, col)
      ensures r >= 0 ==> Has(row, col, r)
      ensures forall u | r < u < 3 :: !Has(row, col, u)
    {
      PB.CellTop(spaces, PB.Cell(row, col))
    }

    /**
     * `can_place`: a frozen cell refuses every piece, even when empty; an
     * empty cell accepts any piece; a base never goes on an occupied cell;
     * a column needs a base and no column; a capital a column and no capital.
     */
    predicate CanPlace(ptype: int, row: int, col: int)
      reads this
      requires Shaped() && PB.OnBoard(row, col)
    {
      if IsFrozen(row, col) then false
      else if IsEmpty(row, col) then true
      else if ptype == 0 then false
      else if ptype == 1 then Has(row, col, 0) && !Has(row, col, 1)
      else Has(row, col, 1) && !Has(row, col, 2)
    }

    /**
     * On a stack without a gap, a piece can be placed exactly on an unfrozen
     * cell that is empty or topped one tier below it.
     */
    lemma CanPlaceOnTop(ptype: int, row: int, col: int)
      requires Shaped() && PB.OnBoard(row, col) && 0 <= ptype < 3
      requires !(Has(row, col, 0) && !Has(row, col, 1) && Has(row, col, 2))
      ensures CanPlace(ptype, row, col) <==> !IsFrozen(row, col) && (IsEmpty(row, col) || ptype == Top(row, col) + 1)
    {
    }

    /**
     * `can_move`: refused when either cell is frozen or the target is empty,
     * otherwise the source's bottom must be one tier above the target's top.
     */
    predicate CanMove(row1: int, col1: int, row2: int, col2: int)
      reads this
      requires Shaped() && PB.OnBoard(row1, col1) && PB.OnBoard(row2, col2)
    {
      if IsFrozen(row1, col1) || IsFrozen(row2, col2) then false
      else if IsEmpty(row2, col2) then false
      else Bottom(row1, col1) - Top(row2, col2) == 1
    }

    /**
     * Although the source is never tested for emptiness, an empty source has
     * bottom -1 and so can never be moved: the rule is the later board's.
     */
    lemma CanMoveRule(row1: int, col1: int, row2: int, col2: int)
      requires Shaped() && PB.OnBoard(row1, col1) && PB.OnBoard(row2, col2)
      ensures CanMove(row1, col1, row2, col2) <==>
        !IsEmpty(row1, col1) && !IsEmpty(row2, col2) && !IsFrozen(row1, col1) && !IsFrozen(row2, col2) &&
        Bottom(row1, col1) - Top(row2, col2) == 1
    {
    }

    /**
     * `is_top`: false when a higher tier is present, true when the tier is
     * present with nothing above it, and no answer (Python's None) when the
     * tier is above the top.
     */
    function IsTop(row: int, col: int, ptype: int): (r: Option<bool>)
      reads this
      requires Shaped() && PB.OnBoard(row, col) && 0 <= ptype < 3
      ensures r == Some(true) <==> Top(row, col) == ptype
      ensures r == Some(false) <==> ptype < Top(row, col)
      ensures r == None <==> Top(row, col) < ptype
    {
      TopAnswer(spaces, PB.Cell(row, col), ptype)
    }

    /**
     * `is_legal_move` as written hands `can_place` the target's row, column
     * and tier in the order (row, col, ptype), so it asks whether tier `row`
     * can go on cell (col, ptype).
     */
    predicate IsLegalMoveAsWritten(m: MC.Move)
      reads this
      requires Shaped() && MC.ValidMove(m)
    {
      match m
      case Place(t, to) => CanPlace(to.row, to.col, t)
      case Slide(from, to) => CanMove(from.row, from.col, to.row, to.col)
    }

    /** `is_legal_move`: the placement or slide rule for the move. */
    predicate IsLegalMove(m: MC.Move)
      reads this
      requires Shaped() && MC.ValidMove(m)
    {
      match m
      case Place(t, to) => CanPlace(t, to.row, to.col)
      case Slide(from, to) => CanMove(from.row, from.col, to.row, to.col)
    }

    /**
     * A placement is legal exactly when its tier fits the target's top, and a
     * slide exactly when the slide rule holds.
     */
    lemma IsLegalMoveRule(m: MC.Move)
      requires Shaped() && MC.ValidMove(m)
      requires m.Place? ==> !(Has(m.spaceTo.row, m.spaceTo.col, 0) && !Has(m.spaceTo.row, m.spaceTo.col, 1) && Has(m.spaceTo.row, m.spaceTo.col, 2))
      ensures m.Place? ==> (IsLegalMove(m) <==>
        (!IsFrozen(m.spaceTo.row, m.spaceTo.col) &&
         (IsEmpty(m.spaceTo.row, m.spaceTo.col) || m.pieceType == Top(m.spaceTo.row, m.spaceTo.col) + 1)))
      ensures m.Slide? ==> (IsLegalMove(m) <==> CanMove(m.spaceFrom.row, m.spaceFrom.col, m.spaceTo.row, m.spaceTo.col))
    {
      if m.Place? {
        CanPlaceOnTop(m.pieceType, m.spaceTo.row, m.spaceTo.col);
      }
    }

    /** `clear`: empty one cell. */
    method Clear(row: int, col: int)
      requires Shaped() && PB.OnBoard(row, col)
      modifies this
      ensures Shaped() && frozen == old(frozen) && lines == old(lines)
      ensures spaces == Cleared(old(spaces), PB.Cell(row, col))
    {
      var c := PB.Cell(row, col);
      spaces := spaces[..3 * c] + [false, false, false] + spaces[3 * c + 3..];
    }

    /** `__str__`: the board's text, built cell by cell. */
    method Str() returns (output: string)
      requires Shaped()
      ensures output == PB.Picture(spaces, frozen, 4)
    {
      output := "";
      var i := 0;
      while i < 4
        invariant 0 <= i <= 4 && output == PB.Picture(spaces, frozen, i)
      {
        var j := 0;
        while j < 4
          invariant 0 <= j <= 4 && output == PB.Picture(spaces, frozen, i) + PB.RowText(spaces, frozen, i, j)
        {
          output := output + PB.CellText(spaces, frozen, PB.Cell(i, j));
          j := j + 1;
        }
        output := output + "\n";
        assert output == PB.Picture(spaces, frozen, i) + (PB.RowText(spaces, frozen, i, 4) + "\n");
        i := i + 1;
      }
    }

    /** `get_tops`: the sixteen tops, row by row. */
    method GetTops() returns (tops: seq<int>)
      requires Shaped()
      ensures tops == PB.TopsOf(spaces)
    {
      tops := [];
      var i := 0;
      while i < 4
        invariant 0 <= i <= 4
        invariant tops == PB.TopsOf(spaces)[..i * 4]
      {
        var j := 0;
        while j < 4
          invariant 0 <= j <= 4
          invariant tops == PB.TopsOf(spaces)[..i * 4 + j]
        {
          tops := tops + [Top(i, j)];
          j := j + 1;
        }
        i := i + 1;
      }
    }

    /** `get_lines`: recompute the standing lines from the tops, as the later board does. */
    method GetLines()
      requires Shaped()
      modifies this
      ensures Valid() && spaces == old(spaces) && frozen == old(frozen)
    {
      var tops := GetTops();
      lines := PL.Lines(tops);
    }

    /** The first step of `do_move`: clear every frozen flag, row by row. */
    method Unfreeze()
      requires Shaped()
      modifies this
      ensures Shaped() && spaces == old(spaces)
      ensures forall k | 0 <= k < 16 :: !frozen[k]
    {
      var row := 0;
      while row < 4
        invariant 0 <= row <= 4 && |frozen| == 16 && spaces == old(spaces)
        invariant forall k | 0 <= k < row * 4 :: !frozen[k]
      {
        frozen := frozen[..row * 4] + [false, false, false, false] + frozen[row * 4 + 4..];
        row := row + 1;
      }
    }

    /** A slide's flags: each target tier becomes the OR of both cells', then the source is emptied. */
    method SlideSpaces(from: MC.Space, to: MC.Space)
      requires Shaped() && MC.ValidMove(MC.Slide(from, to))
      modifies this
      ensures Shaped() && frozen == old(frozen)
      ensures spaces == PB.Moved(old(spaces), MC.Slide(from, to))
    {
      var s := spaces;
      var a := PB.Slot(to.row, to.col, 0);
      var b := PB.Slot(from.row, from.col, 0);
      PB.MovedStacked(s, from, to);
      spaces := s[a := s[b] || s[a]];
      spaces := spaces[a + 1 := s[b + 1] || s[a + 1]];
      spaces := spaces[a + 2 := s[b + 2] || s[a + 2]];
      spaces := spaces[..b] + [false, false, false] + spaces[b + 3..];
    }

    /**
     * `do_move`: only the target cell stays frozen; a placement adds its
     * tier, a slide stacks the source onto the target and empties the
     * source; then the lines are recomputed. Legality is not checked.
     */
    method DoMove(m: MC.Move)
      requires Shaped() && MC.ValidMove(m)
      modifies this
      ensures Valid()
      ensures spaces == PB.Moved(old(spaces), m)
      ensures frozen == PB.OnlyFrozen(m.spaceTo)
    {
      Unfreeze();
      match m {
        case Place(t, to) =>
          spaces := spaces[PB.Slot(to.row, to.col, t) := true];
          PB.FreezeOnly(frozen, to);
          frozen := frozen[PB.Cell(to.row, to.col) := true];
        case Slide(from, to) =>
          SlideSpaces(from, to);
          PB.FreezeOnly(frozen, to);
          frozen := frozen[PB.Cell(to.row, to.col) := true];
      }
      GetLines();
    }
  }

  /**
   * On the starting board a base may go on the unfrozen empty cell (0, 1),
   * but the as-written `is_legal_move` asks about cell (1, 0), which is
   * frozen, and refuses it.
   */
  lemma SwappedArgumentsRefuse(b: Board)
    requires b.Shaped() && b.frozen == PB.StartFrozen() && forall k | 0 <= k < 48 :: !b.spaces[k]
    ensures b.IsLegalMove(MC.Place(0, MC.Space(0, 1)))
    ensures !b.IsLegalMoveAsWritten(MC.Place(0, MC.Space(0, 1)))
  {
    assert !b.frozen[1] && b.frozen[4];
  }
}
