/**
 * The board of the Python prototype (implement/board.py): 48 tier flags at
 * row*12 + col*3 + tier, 16 frozen flags at row*4 + col, and the lines
 * standing after the last move. Cell tops and bottoms are -1 for an empty
 * cell. Moves are the current codec's decoded moves.
 */
module PyBoard {
  import MC = MoveCodec
  import PL = PyLines
  import CG = CppGame

  predicate OnBoard(row: int, col: int) { 0 <= row < 4 && 0 <= col < 4 }

  /** The index of a cell in the frozen flags. */
  function Cell(row: int, col: int): (c: int)
    requires OnBoard(row, col)
    ensures 0 <= c < 16
  {
    row * 4 + col
  }

  /** The tier slot of a cell, row*12 + col*3 + t. */
  function Slot(row: int, col: int, t: int): (k: int)
    requires OnBoard(row, col) && 0 <= t < 3
    ensures 0 <= k < 48
  {
    3 * Cell(row, col) + t
  }

  /** The highest tier present on cell `c`, or -1. */
  function CellTop(spaces: seq<bool>, c: int): (r: int)
    requires |spaces| == 48 && 0 <= c < 16
    ensures -1 <= r <= 2
  {
    if spaces[3 * c + 2] then 2 else if spaces[3 * c + 1] then 1 else if spaces[3 * c] then 0 else -1
  }

  /** The lowest tier present on cell `c`, or -1. */
  function CellBottom(spaces: seq<bool>, c: int): (r: int)
    requires |spaces| == 48 && 0 <= c < 16
    ensures -1 <= r <= 2
  {
    if spaces[3 * c] then 0 else if spaces[3 * c + 1] then 1 else if spaces[3 * c + 2] then 2 else -1
  }

  /** The sixteen cell tops, row by row, as `get_tops` fills them. */
  function TopsOf(spaces: seq<bool>): (tops: seq<int>)
    requires |spaces| == 48
    ensures |tops| == 16
    ensures forall c | 0 <= c < 16 :: tops[c] == CellTop(spaces, c)
  {
    seq(16, c requires 0 <= c < 16 => CellTop(spaces, c))
  }

  /** The starting frozen flags: every cell except (0,0), (0,1) and (1,1). */
  function StartFrozen(): (f: seq<bool>)
    ensures |f| == 16
    ensures forall k | 0 <= k < 16 :: f[k] <==> !(k == 0 || k == 1 || k == 5)
  {
    seq(16, k => !(k == 0 || k == 1 || k == 5))
  }

  /** The frozen flags after a move to `to`: only the target cell. */
  function OnlyFrozen(to: MC.Space): (f: seq<bool>)
    requires MC.OnBoard(to)
    ensures |f| == 16
    ensures forall k | 0 <= k < 16 :: f[k] <==> k == Cell(to.row, to.col)
  {
    seq(16, k => k == Cell(to.row, to.col))
  }

  /** Freezing the target of a board with nothing frozen leaves only the target frozen. */
  lemma FreezeOnly(f: seq<bool>, to: MC.Space)
    requires |f| == 16 && MC.OnBoard(to) && forall k | 0 <= k < 16 :: !f[k]
    ensures f[Cell(to.row, to.col) := true] == OnlyFrozen(to)
  {
  }

  /** The target square of a decoded move. */
  function Target(m: MC.Move): MC.Space
  {
    m.spaceTo
  }

  /** The tier flags after a placement or a slide, as `do_move` writes them. */
  function Moved(spaces: seq<bool>, m: MC.Move): (r: seq<bool>)
    requires |spaces| == 48 && MC.ValidMove(m)
    ensures |r| == 48
  {
    match m
    case Place(t, to) => spaces[Slot(to.row, to.col, t) := true]
    case Slide(from, to) =>
      Stacked(spaces, Slot(to.row, to.col, 0), Slot(from.row, from.col, 0))
  }

  /**
   * The writes of a slide from the three slots at `b` onto the three slots
   * at `a`: each target tier ors in the source tier, then the source is
   * cleared.
   */
  function Stacked(spaces: seq<bool>, a: int, b: int): (r: seq<bool>)
    requires |spaces| == 48 && 0 <= a <= 45 && 0 <= b <= 45 && (a + 3 <= b || b + 3 <= a)
    ensures |r| == 48
  {
    var w := spaces[a := spaces[b] || spaces[a]][a + 1 := spaces[b + 1] || spaces[a + 1]][a + 2 := spaces[b + 2] || spaces[a + 2]];
    w[..b] + [false, false, false] + w[b + 3..]
  }

  lemma StackedAt(spaces: seq<bool>, a: int, b: int, k: int)
    requires |spaces| == 48 && 0 <= a <= 45 && 0 <= b <= 45 && (a + 3 <= b || b + 3 <= a) && 0 <= k < 48
    ensures Stacked(spaces, a, b)[k] ==
      if b <= k < b + 3 then false else if a <= k < a + 3 then spaces[b + (k - a)] || spaces[k] else spaces[k]
  {
  }

  /**
   * A slide moves the source stack onto the target: each target tier is
   * present iff it was present on either cell, the source is emptied, and
   * every other cell keeps its tiers.
   */
  lemma MovedSlideAt(spaces: seq<bool>, from: MC.Space, to: MC.Space, row: int, col: int, t: int)
    requires |spaces| == 48 && MC.ValidMove(MC.Slide(from, to)) && OnBoard(row, col) && 0 <= t < 3
    ensures Moved(spaces, MC.Slide(from, to))[Slot(row, col, t)] ==
      if row == from.row && col == from.col then false
      else if row == to.row && col == to.col then spaces[Slot(from.row, from.col, t)] || spaces[Slot(row, col, t)]
      else spaces[Slot(row, col, t)]
  {
    if row == from.row && col == from.col {
      SlideSource(spaces, from, to, t);
    } else if row == to.row && col == to.col {
      SlideTarget(spaces, from, to, t);
    } else {
      SlideElsewhere(spaces, from, to, row, col, t);
    }
  }

  lemma SlideSource(spaces: seq<bool>, from: MC.Space, to: MC.Space, t: int)
    requires |spaces| == 48 && MC.ValidMove(MC.Slide(from, to)) && 0 <= t < 3
    ensures !Moved(spaces, MC.Slide(from, to))[Slot(from.row, from.col, t)]
  {
    MovedStacked(spaces, from, to);
    StackedAt(spaces, Slot(to.row, to.col, 0), Slot(from.row, from.col, 0), Slot(from.row, from.col, t));
  }

  lemma SlideTarget(spaces: seq<bool>, from: MC.Space, to: MC.Space, t: int)
    requires |spaces| == 48 && MC.ValidMove(MC.Slide(from, to)) && 0 <= t < 3
    ensures Moved(spaces, MC.Slide(from, to))[Slot(to.row, to.col, t)] ==
      (spaces[Slot(from.row, from.col, t)] || spaces[Slot(to.row, to.col, t)])
  {
    MovedStacked(spaces, from, to);
    StackedAt(spaces, Slot(to.row, to.col, 0), Slot(from.row, from.col, 0), Slot(to.row, to.col, t));
  }

  lemma SlideElsewhere(spaces: seq<bool>, from: MC.Space, to: MC.Space, row: int, col: int, t: int)
    requires |spaces| == 48 && MC.ValidMove(MC.Slide(from, to)) && OnBoard(row, col) && 0 <= t < 3
    requires !(row == from.row && col == from.col) && !(row == to.row && col == to.col)
    ensures Moved(spaces, MC.Slide(from, to))[Slot(row, col, t)] == spaces[Slot(row, col, t)]
  {
    MovedStacked(spaces, from, to);
    SlotApart(row, col, t, from.row, from.col);
    SlotApart(row, col, t, to.row, to.col);
    StackedAt(spaces, Slot(to.row, to.col, 0), Slot(from.row, from.col, 0), Slot(row, col, t));
  }

  /** A slide's source and target slot blocks are disjoint, and its tiers are the writes of `Stacked`. */
  lemma MovedStacked(spaces: seq<bool>, from: MC.Space, to: MC.Space)
    requires |spaces| == 48 && MC.ValidMove(MC.Slide(from, to))
    ensures Slot(to.row, to.col, 0) + 3 <= Slot(from.row, from.col, 0) || Slot(from.row, from.col, 0) + 3 <= Slot(to.row, to.col, 0)
    ensures Moved(spaces, MC.Slide(from, to)) == Stacked(spaces, Slot(to.row, to.col, 0), Slot(from.row, from.col, 0))
  {
    SlotApart(from.row, from.col, 0, to.row, to.col);
  }

  /** A slot of one cell lies outside the three slots of any other cell. */
  lemma SlotApart(row: int, col: int, t: int, r2: int, c2: int)
    requires OnBoard(row, col) && 0 <= t < 3 && OnBoard(r2, c2) && !(row == r2 && col == c2)
    ensures Slot(row, col, t) < Slot(r2, c2, 0) || Slot(r2, c2, 0) + 3 <= Slot(row, col, t)
  {
    if row < r2 {
      assert Slot(row, col, t) < 12 * row + 12 <= Slot(r2, c2, 0);
    } else if row > r2 {
      assert Slot(r2, c2, 0) + 3 <= 12 * r2 + 12 <= Slot(row, col, t);
    }
  }

  predicate Sized(spaces: seq<bool>, frozen: seq<bool>)
  {
    |spaces| == 48 && |frozen| == 16
  }

  /** One cell's text: B, C, A or _ for each tier, then # when frozen. */
  function CellText(spaces: seq<bool>, frozen: seq<bool>, c: int): (r: string)
    requires Sized(spaces, frozen) && 0 <= c < 16
    ensures |r| == 4
  {
    [if spaces[3 * c] then 'B' else '_', if spaces[3 * c + 1] then 'C' else '_',
     if spaces[3 * c + 2] then 'A' else '_', if frozen[c] then '#' else ' ']
  }

  /** The first `n` cells of a row. */
  function RowText(spaces: seq<bool>, frozen: seq<bool>, row: int, n: int): (r: string)
    requires Sized(spaces, frozen) && 0 <= row < 4 && 0 <= n <= 4
    ensures |r| == 4 * n
  {
    if n == 0 then [] else RowText(spaces, frozen, row, n - 1) + CellText(spaces, frozen, Cell(row, n - 1))
  }

  /** The first `n` rows, each ended by a newline. */
  function Picture(spaces: seq<bool>, frozen: seq<bool>, n: int): (r: string)
    requires Sized(spaces, frozen) && 0 <= n <= 4
    ensures |r| == 17 * n
  {
    if n == 0 then [] else Picture(spaces, frozen, n - 1) + (RowText(spaces, frozen, n - 1, 4) + "\n")
  }

  lemma {:induction false} RowTextAt(spaces: seq<bool>, frozen: seq<bool>, row: int, n: int, col: int, k: int)
    requires Sized(spaces, frozen) && 0 <= row < 4 && 0 <= col < n <= 4 && 0 <= k < 4
    ensures RowText(spaces, frozen, row, n)[4 * col + k] == CellText(spaces, frozen, Cell(row, col))[k]
  {
    var p := RowText(spaces, frozen, row, n - 1);
    var q := CellText(spaces, frozen, Cell(row, n - 1));
    assert RowText(spaces, frozen, row, n) == p + q;
    if col < n - 1 {
      RowTextAt(spaces, frozen, row, n - 1, col, k);
      assert (p + q)[4 * col + k] == p[4 * col + k];
    } else {
      assert (p + q)[4 * col + k] == q[k];
    }
  }

  lemma {:induction false} PictureAt(spaces: seq<bool>, frozen: seq<bool>, n: int, row: int, k: int)
    requires Sized(spaces, frozen) && 0 <= row < n <= 4 && 0 <= k < 17
    ensures Picture(spaces, frozen, n)[17 * row + k] == (RowText(spaces, frozen, row, 4) + "\n")[k]
  {
    var p := Picture(spaces, frozen, n - 1);
    var q := RowText(spaces, frozen, n - 1, 4) + "\n";
    assert Picture(spaces, frozen, n) == p + q;
    if row < n - 1 {
      PictureAt(spaces, frozen, n - 1, row, k);
      assert (p + q)[17 * row + k] == p[17 * row + k];
    } else {
      assert (p + q)[17 * row + k] == q[k];
    }
  }

  /**
   * The text of `__str__` is four lines of sixteen characters and a newline:
   * cell (row, col) owns characters 17*row + 4*col .. +3, one per tier and
   * one for the frozen flag.
   */
  lemma PictureLayout(spaces: seq<bool>, frozen: seq<bool>, row: int, col: int)
    requires Sized(spaces, frozen) && OnBoard(row, col)
    ensures |Picture(spaces, frozen, 4)| == 68 && Picture(spaces, frozen, 4)[17 * row + 16] == '\n'
    ensures Picture(spaces, frozen, 4)[17 * row + 4 * col] == (if spaces[Slot(row, col, 0)] then 'B' else '_')
    ensures Picture(spaces, frozen, 4)[17 * row + 4 * col + 1] == (if spaces[Slot(row, col, 1)] then 'C' else '_')
    ensures Picture(spaces, frozen, 4)[17 * row + 4 * col + 2] == (if spaces[Slot(row, col, 2)] then 'A' else '_')
    ensures Picture(spaces, frozen, 4)[17 * row + 4 * col + 3] == (if frozen[Cell(row, col)] then '#' else ' ')
  {
    PictureAt(spaces, frozen, 4, row, 16);
    PictureCell(spaces, frozen, row, col, 0);
    PictureCell(spaces, frozen, row, col, 1);
    PictureCell(spaces, frozen, row, col, 2);
    PictureCell(spaces, frozen, row, col, 3);
    var ct := CellText(spaces, frozen, Cell(row, col));
    assert ct[0] == (if spaces[Slot(row, col, 0)] then 'B' else '_');
    assert ct[1] == (if spaces[Slot(row, col, 1)] then 'C' else '_');
    assert ct[2] == (if spaces[Slot(row, col, 2)] then 'A' else '_');
  }

  lemma PictureCell(spaces: seq<bool>, frozen: seq<bool>, row: int, col: int, k: int)
    requires Sized(spaces, frozen) && OnBoard(row, col) && 0 <= k < 4
    ensures Picture(spaces, frozen, 4)[17 * row + 4 * col + k] == CellText(spaces, frozen, Cell(row, col))[k]
  {
    var r := RowText(spaces, frozen, row, 4);
    PictureAt(spaces, frozen, 4, row, 4 * col + k);
    RowTextAt(spaces, frozen, row, 4, col, k);
    assert (r + "\n")[4 * col + k] == r[4 * col + k];
  }

  class Board {
    var spaces: seq<bool>
    var frozen: seq<bool>
    var lines: seq<PL.Line>

    ghost predicate Shaped()
      reads this
    {
      Sized(spaces, frozen)
    }

    /** The recorded lines are always those of the current tops. */
    ghost predicate Valid()
      reads this
    {
      Shaped() && lines == PL.Lines(TopsOf(spaces))
    }

    /** `__init__`: no tier present, only (0,0), (0,1) and (1,1) unfrozen, no lines. */
    constructor ()
      ensures Valid()
      ensures forall k | 0 <= k < 48 :: !spaces[k]
      ensures frozen == StartFrozen() && lines == []
    {
      spaces := seq(48, _ => false);
      frozen := StartFrozen();
      lines := [];
      new;
      PL.EmptyBoardNoLines(TopsOf(spaces));
    }

    predicate Has(row: int, col: int, t: int)
      reads this
      requires Shaped() && OnBoard(row, col) && 0 <= t < 3
    {
      spaces[Slot(row, col, t)]
    }

    predicate IsFrozen(row: int, col: int)
      reads this
      requires Shaped() && OnBoard(row, col)
    {
      frozen[Cell(row, col)]
    }

    /** `is_empty`: no tier present on the cell. */
    predicate IsEmpty(row: int, col: int)
      reads this
      requires Shaped() && OnBoard(row, col)
    {
      !(Has(row, col, 0) || Has(row, col, 1) || Has(row, col, 2))
    }

    /** `bottom`: the lowest tier present, -1 for an empty cell. */
    function Bottom(row: int, col: int): (r: int)
      reads this
      requires Shaped() && OnBoard(row, col)
      ensures -1 <= r < 3
      ensures r == -1 <==> IsEmpty(row, col)
      ensures r >= 0 ==> Has(row, col, r)
      ensures r > 0 ==> !Has(row, col, 0)
      ensures r > 1 ==> !Has(row, col, 1)
    {
      CellBottom(spaces, Cell(row, col))
    }

    /** `top`: the highest tier present, -1 for an empty cell. */
    function Top(row: int, col: int): (r: int)
      reads this
      requires Shaped() && OnBoard(row, col)
      ensures -1 <= r < 3
      ensures r == -1 <==> IsEmpty(row, col)
      ensures r >= 0 ==> Has(row, col, r)
      ensures r < 2 ==> !Has(row, col, 2)
      ensures r < 1 ==> !Has(row, col, 1)
    {
      CellTop(spaces, Cell(row, col))
    }

    /**
     * `can_place`: an empty cell accepts any piece, frozen or not; an
     * occupied frozen cell accepts none; a base never goes on an occupied
     * cell; a column needs a base and no column; a capital needs a column
     * and no capital.
     */
    predicate CanPlace(ptype: int, row: int, col: int)
      reads this
      requires Shaped() && OnBoard(row, col) && 0 <= ptype < 3
    {
      if IsEmpty(row, col) then true
      else if IsFrozen(row, col) then false
      else if ptype == 0 then false
      else if ptype == 1 then Has(row, col, 0) && !Has(row, col, 1)
      else Has(row, col, 1) && !Has(row, col, 2)
    }

    /** `can_move`: both cells occupied and unfrozen, and the source's bottom one tier above the target's top. */
    predicate CanMove(row1: int, col1: int, row2: int, col2: int)
      reads this
      requires Shaped() && OnBoard(row1, col1) && OnBoard(row2, col2)
    {
      if IsEmpty(row1, col1) || IsEmpty(row2, col2) then false
      else if IsFrozen(row1, col1) || IsFrozen(row2, col2) then false
      else Bottom(row1, col1) - Top(row2, col2) == 1
    }

    /** `is_legal_move`: the placement or slide rule for the move. */
    predicate IsLegalMove(m: MC.Move)
      reads this
      requires Shaped() && MC.ValidMove(m)
    {
      match m
      case Place(t, to) => CanPlace(t, to.row, to.col)
      case Slide(from, to) => CanMove(from.row, from.col, to.row, to.col)
    }

    /** `__str__`: the board's text, built cell by cell. */
    method Str() returns (output: string)
      requires Shaped()
      ensures output == Picture(spaces, frozen, 4)
    {
      output := "";
      var i := 0;
      while i < 4
        invariant 0 <= i <= 4 && output == Picture(spaces, frozen, i)
      {
        var j := 0;
        while j < 4
          invariant 0 <= j <= 4 && output == Picture(spaces, frozen, i) + RowText(spaces, frozen, i, j)
        {
          output := output + CellText(spaces, frozen, Cell(i, j));
          j := j + 1;
        }
        output := output + "\n";
        assert output == Picture(spaces, frozen, i) + (RowText(spaces, frozen, i, 4) + "\n");
        i := i + 1;
      }
    }

    /** The same tier and frozen flags as a first-engine state, whose layout is the same. */
    function AsCpp(): (g: CG.State)
      reads this
      requires Shaped()
      ensures CG.Shaped(g)
    {
      CG.State(spaces, frozen, 0, [1, 1, 1, 1, 1, 1])
    }

    /**
     * With the mover holding the piece, this board's placement rule and the
     * first C++ engine's differ only on a cell holding a base and a capital
     * without a column, a stack no legal sequence of moves builds.
     */
    lemma CanPlaceAgreesWithCpp(ptype: int, row: int, col: int)
      requires Shaped() && OnBoard(row, col) && 0 <= ptype < 3
      requires !(Has(row, col, 0) && !Has(row, col, 1) && Has(row, col, 2))
      ensures CanPlace(ptype, row, col) == CG.CanPlace(AsCpp(), ptype, row, col)
    {
    }

    /** Tops and bottoms are the first engine's, except that an empty cell's bottom is -1 rather than 3. */
    lemma TopBottomAgreeWithCpp(row: int, col: int)
      requires Shaped() && OnBoard(row, col)
      ensures Top(row, col) == CG.Top(AsCpp(), row, col)
      ensures Bottom(row, col) == (if IsEmpty(row, col) then -1 else CG.Bottom(AsCpp(), row, col))
      ensures CanMove(row, col, row, col) == CG.CanMove(AsCpp(), row, col, row, col)
    {
    }

    /** `get_tops`: fill the tops cell by cell. */
    method GetTops() returns (tops: seq<int>)
      requires Shaped()
      ensures tops == TopsOf(spaces)
    {
      tops := [];
      var i := 0;
      while i < 4
        invariant 0 <= i <= 4
        invariant tops == TopsOf(spaces)[..i * 4]
      {
        var j := 0;
        while j < 4
          invariant 0 <= j <= 4
          invariant tops == TopsOf(spaces)[..i * 4 + j]
        {
          tops := tops + [Top(i, j)];
          j := j + 1;
        }
        i := i + 1;
      }
    }

    /** `get_lines`: recompute the standing lines from the tops. */
    method GetLines()
      requires Shaped()
      modifies this
      ensures Valid() && spaces == old(spaces) && frozen == old(frozen)
    {
      var tops := GetTops();
      lines := PL.Lines(tops);
    }

    /** The first step of `do_move`: clear the frozen flag of every cell, row by row. */
    method Unfreeze()
      requires Shaped()
      modifies this
      ensures Shaped() && spaces == old(spaces)
      ensures forall k | 0 <= k < 16 :: !frozen[k]
    {
      var row := 0;
      while row < 4
        invariant 0 <= row <= 4 && |frozen| == 16 && spaces == old(spaces)
        invariant forall k | 0 <= k < row * 4 :: !frozen[k]
      {
        frozen := frozen[..row * 4] + [false, false, false, false] + frozen[row * 4 + 4..];
        row := row + 1;
      }
    }

    /** The slide step of `do_move`: or the source tiers into the target, then clear the source. */
    method SlideSpaces(from: MC.Space, to: MC.Space)
      requires Shaped() && MC.ValidMove(MC.Slide(from, to))
      modifies this
      ensures Shaped() && frozen == old(frozen)
      ensures spaces == Moved(old(spaces), MC.Slide(from, to))
    {
      var s := spaces;
      var a := Slot(to.row, to.col, 0);
      var b := Slot(from.row, from.col, 0);
      MovedStacked(s, from, to);
      spaces := s[a := s[b] || s[a]];
      spaces := spaces[a + 1 := s[b + 1] || s[a + 1]];
      spaces := spaces[a + 2 := s[b + 2] || s[a + 2]];
      spaces := spaces[..b] + [false, false, false] + spaces[b + 3..];
    }

    /**
     * `do_move`: unfreeze every cell, apply the placement or slide, freeze
     * only the target and recompute the lines.
     */
    method DoMove(m: MC.Move)
      requires Shaped() && MC.ValidMove(m)
      modifies this
      ensures Valid()
      ensures spaces == Moved(old(spaces), m)
      ensures frozen == OnlyFrozen(Target(m))
    {
      Unfreeze();
      match m {
        case Place(t, to) =>
          spaces := spaces[Slot(to.row, to.col, t) := true];
          FreezeOnly(frozen, to);
          frozen := frozen[Cell(to.row, to.col) := true];
        case Slide(from, to) =>
          SlideSpaces(from, to);
          FreezeOnly(frozen, to);
          frozen := frozen[Cell(to.row, to.col) := true];
      }
      GetLines();
    }
  }
}
