/**
 * The game of the Python prototype (implement/game.py): a board, the player
 * to move, both players' remaining pieces and the outcome once play ends.
 * Legal moves are found in two stages: each standing line admits only the
 * moves that could break or extend it, the admitted sets of all lines are
 * intersected, and what survives is filtered by the slide rule and by the
 * placement rule for the mover's pieces.
 *
 * Moves use the 96-index codec of the current engine: `Move(i)` decodes an
 * index, `encode_move` and `encode_place` build one.
 */
module PyGame {
  import opened Common
  import MC = MoveCodec
  import PL = PyLines
  import PB = PyBoard
  import CM = CppMove
  import PM = PyMove

  /** A slide between (r1, c1) and (r2, c2), as the code names one before encoding it. */
  function Slide(r1: int, c1: int, r2: int, c2: int): MC.Move
  {
    MC.Slide(MC.Space(r1, c1), MC.Space(r2, c2))
  }

  /** A placement of tier `t` on (r, c). */
  function Place(t: int, r: int, c: int): MC.Move
  {
    MC.Place(t, MC.Space(r, c))
  }

  /** `encode_move` and `encode_place`: the formulas of the 96-index codec, applied to any squares. */
  function Index(m: MC.Move): int
  {
    match m
    case Place(t, to) => CM.EncodePlace(t, to.row, to.col)
    case Slide(from, to) => CM.EncodeMove(from.row, from.col, to.row, to.col)
  }

  /** The index of a valid move decodes back to it. */
  lemma IndexDecodes(m: MC.Move)
    requires MC.ValidMove(m)
    ensures 0 <= Index(m) < 96 && MC.Decode(Index(m)) == m
  {
    match m
    case Place(t, to) => MC.EncodePlaceDecode(to, t);
    case Slide(from, to) => MC.EncodeMoveDecode(from, to);
  }

  /** The flags `cur` that a list of named moves sets. */
  function Indices(ms: seq<MC.Move>): set<int>
  {
    set k | 0 <= k < |ms| :: Index(ms[k])
  }

  /** The neighbouring rows (or columns) of a line's row (or column). */
  function Sources(target: int): (ss: seq<int>)
    requires 0 <= target < 4
    ensures 1 <= |ss| <= 2
    ensures forall k | 0 <= k < |ss| :: 0 <= ss[k] < 4 && (ss[k] == target - 1 || ss[k] == target + 1)
  {
    if target == 0 then [1] else if target == 1 then [0, 2] else if target == 2 then [1, 3] else [2]
  }

  /** A slide written for a row line, transposed for a column line. */
  function StraightSlide(column: bool, a1: int, b1: int, a2: int, b2: int): MC.Move
  {
    if column then Slide(b1, a1, b2, a2) else Slide(a1, b1, a2, b2)
  }

  /** A placement written for a row line, transposed for a column line. */
  function StraightPlace(column: bool, t: int, a: int, b: int): MC.Move
  {
    if column then Place(t, b, a) else Place(t, a, b)
  }

  /**
   * The cell whose top decides an extending slide from `source` towards the
   * line end: the `first` end (l or u) looks at (source, 3), the `last` end
   * (r or d) at (source, 0), transposed for a column. With `asWritten`, a
   * column's first end reads flat index 3 + source instead.
   */
  function ExtendCell(column: bool, asWritten: bool, first: bool, source: int): (k: int)
    requires 0 <= source < 4
    ensures 0 <= k < 16
  {
    if !column then (if first then source * 4 + 3 else source * 4)
    else if first then (if asWritten then 3 + source else 3 * 4 + source)
    else 0 * 4 + source
  }

  /** The slides a row (or column) line admits for one neighbouring row (or column). */
  function SourceMask(column: bool, asWritten: bool, target: int, source: int, end: char, tier: int, tops: seq<int>): seq<MC.Move>
    requires |tops| == 16 && 0 <= source < 4
  {
    [StraightSlide(column, target, 1, source, 1), StraightSlide(column, target, 2, source, 2),
     StraightSlide(column, source, 1, target, 1), StraightSlide(column, source, 2, target, 2)] +
    SourceEnd(column, asWritten, target, source, end, tier, tops)
  }

  /**
   * The slides between a joined end cell and the neighbouring row's (or
   * column's) cell, and the extending slide onto the open end cell when
   * the neighbour's top there is the line's tier.
   */
  function SourceEnd(column: bool, asWritten: bool, target: int, source: int, end: char, tier: int, tops: seq<int>): seq<MC.Move>
    requires |tops| == 16 && 0 <= source < 4
  {
    var first := if column then 'u' else 'l';
    var last := if column then 'd' else 'r';
    if end == first then
      [StraightSlide(column, target, 0, source, 0), StraightSlide(column, source, 0, target, 0)] +
      (if tops[ExtendCell(column, asWritten, true, source)] == tier then [StraightSlide(column, source, 3, target, 3)] else [])
    else if end == last then
      [StraightSlide(column, target, 3, source, 3), StraightSlide(column, source, 3, target, 3)] +
      (if tops[ExtendCell(column, asWritten, false, source)] == tier then [StraightSlide(column, source, 0, target, 0)] else [])
    else []
  }

  /** The slide along a row (or column) line that moves its joined end's inner stack outward. */
  function StraightAlong(column: bool, target: int, end: char): seq<MC.Move>
  {
    var first := if column then 'u' else 'l';
    var last := if column then 'd' else 'r';
    if end == first then [StraightSlide(column, target, 2, target, 3)]
    else if end == last then [StraightSlide(column, target, 1, target, 0)]
    else []
  }

  /**
   * The placements a row (or column) line admits: the next tier on its
   * middle cells and, for a joined end, on the cell beside it (not on
   * capitals), and its own tier on the open end cell.
   */
  function StraightPlaces(column: bool, target: int, end: char, tier: int): seq<MC.Move>
  {
    var first := if column then 'u' else 'l';
    var last := if column then 'd' else 'r';
    (if tier < 2 then
       [StraightPlace(column, tier + 1, target, 1), StraightPlace(column, tier + 1, target, 2)] +
       (if end == first then [StraightPlace(column, tier + 1, target, 0)]
        else if end == last then [StraightPlace(column, tier + 1, target, 3)]
        else [])
     else []) +
    (if end == first then [StraightPlace(column, tier, target, 3)]
     else if end == last then [StraightPlace(column, tier, target, 0)]
     else [])
  }

  /** The moves a row line (or, transposed, a column line) admits, in the order the code names them. */
  function StraightMask(column: bool, asWritten: bool, target: int, end: char, tier: int, tops: seq<int>): seq<MC.Move>
    requires |tops| == 16 && 0 <= target < 4
  {
    SourcesMask(column, asWritten, target, end, tier, tops) +
    StraightAlong(column, target, end) + StraightPlaces(column, target, end, tier)
  }

  /** The source-row (or source-column) moves, for each neighbouring row in turn. */
  function SourcesMask(column: bool, asWritten: bool, target: int, end: char, tier: int, tops: seq<int>): seq<MC.Move>
    requires |tops| == 16 && 0 <= target < 4
  {
    var ss := Sources(target);
    SourceMask(column, asWritten, target, ss[0], end, tier, tops) +
    (if |ss| == 2 then SourceMask(column, asWritten, target, ss[1], end, tier, tops) else [])
  }

  /** Column `x` of a long diagonal mirrored for d1, or row `x` of a short diagonal shifted down. */
  function Flip(mirror: bool, x: int): int
  {
    if mirror then 3 - x else x
  }

  /**
   * The slide into the lower middle cell of a long diagonal from above. The
   * code names (0, f2) to (2, f2), two rows apart; the evident intent, by
   * symmetry with the other three slides into (2, f2), is (1, f2) to (2, f2).
   */
  function IntoLowerMiddle(asWritten: bool, mirror: bool): MC.Move
  {
    if asWritten then Slide(0, Flip(mirror, 2), 2, Flip(mirror, 2))
    else Slide(1, Flip(mirror, 2), 2, Flip(mirror, 2))
  }

  /** The slides onto and off the upper middle cell (1, f1) of a long diagonal. */
  function LongUpper(mirror: bool): seq<MC.Move>
  {
    var f0, f1, f2 := Flip(mirror, 0), Flip(mirror, 1), Flip(mirror, 2);
    [Slide(1, f1, 0, f1), Slide(1, f1, 1, f2), Slide(1, f1, 2, f1), Slide(1, f1, 1, f0),
     Slide(0, f1, 1, f1), Slide(1, f2, 1, f1), Slide(2, f1, 1, f1), Slide(1, f0, 1, f1)]
  }

  /** The slides off and onto the lower middle cell (2, f2) of a long diagonal. */
  function LongLower(asWritten: bool, mirror: bool): seq<MC.Move>
  {
    var f1, f2, f3 := Flip(mirror, 1), Flip(mirror, 2), Flip(mirror, 3);
    [Slide(2, f2, 1, f2), Slide(2, f2, 2, f3), Slide(2, f2, 3, f2), Slide(2, f2, 2, f1),
     IntoLowerMiddle(asWritten, mirror), Slide(2, f3, 2, f2), Slide(3, f2, 2, f2), Slide(2, f1, 2, f2)]
  }

  /**
   * The slides at a long diagonal's joined end: onto and off its corner,
   * and the extending slides onto the open corner from a neighbour whose
   * top is the line's tier.
   */
  function LongEnds(mirror: bool, end: char, tier: int, tops: seq<int>): seq<MC.Move>
    requires |tops| == 16
  {
    var f0, f1, f2, f3 := Flip(mirror, 0), Flip(mirror, 1), Flip(mirror, 2), Flip(mirror, 3);
    if end == 'u' then
      [Slide(0, f0, 0, f1), Slide(0, f0, 1, f0), Slide(0, f1, 0, f0), Slide(1, f0, 0, f0)] +
      (if tops[2 * 4 + f3] == tier then [Slide(2, f3, 3, f3)] else []) +
      (if tops[3 * 4 + f2] == tier then [Slide(3, f2, 3, f3)] else [])
    else if end == 'd' then
      [Slide(3, f3, 2, f3), Slide(3, f3, 3, f2), Slide(2, f3, 3, f3), Slide(3, f2, 3, f3)] +
      (if tops[0 * 4 + f1] == tier then [Slide(0, f1, 0, f0)] else []) +
      (if tops[1 * 4 + f0] == tier then [Slide(1, f0, 0, f0)] else [])
    else []
  }

  /** The placements a long diagonal admits, as for a row. */
  function LongPlaces(mirror: bool, end: char, tier: int): seq<MC.Move>
  {
    var f0, f1, f2, f3 := Flip(mirror, 0), Flip(mirror, 1), Flip(mirror, 2), Flip(mirror, 3);
    (if tier < 2 then
       [Place(tier + 1, 1, f1), Place(tier + 1, 2, f2)] +
       (if end == 'u' then [Place(tier + 1, 0, f0)] else if end == 'd' then [Place(tier + 1, 3, f3)] else [])
     else []) +
    (if end == 'u' then [Place(tier, 3, f3)] else if end == 'd' then [Place(tier, 0, f0)] else [])
  }

  /** The moves a long diagonal admits; d1 is d0 with the columns mirrored. */
  function LongMask(asWritten: bool, mirror: bool, end: char, tier: int, tops: seq<int>): seq<MC.Move>
    requires |tops| == 16
  {
    LongUpper(mirror) + LongLower(asWritten, mirror) + LongEnds(mirror, end, tier, tops) + LongPlaces(mirror, end, tier)
  }

  /** The slides onto the cells of a short diagonal; `mirror` flips the columns, `shift` the rows. */
  function ShortOnto(mirror: bool, shift: bool): seq<MC.Move>
  {
    var f0, f1, f2, f3 := Flip(mirror, 0), Flip(mirror, 1), Flip(mirror, 2), Flip(mirror, 3);
    var s0, s1, s2, s3 := Flip(shift, 0), Flip(shift, 1), Flip(shift, 2), Flip(shift, 3);
    [Slide(s0, f3, s0, f2), Slide(s1, f2, s0, f2), Slide(s0, f1, s0, f2), Slide(s0, f1, s1, f1),
     Slide(s1, f2, s1, f1), Slide(s2, f1, s1, f1), Slide(s1, f0, s1, f1), Slide(s1, f0, s2, f0),
     Slide(s2, f1, s2, f0), Slide(s3, f0, s2, f0)]
  }

  /** The slides off the cells of a short diagonal. */
  function ShortOff(mirror: bool, shift: bool): seq<MC.Move>
  {
    var f0, f1, f2, f3 := Flip(mirror, 0), Flip(mirror, 1), Flip(mirror, 2), Flip(mirror, 3);
    var s0, s1, s2, s3 := Flip(shift, 0), Flip(shift, 1), Flip(shift, 2), Flip(shift, 3);
    [Slide(s0, f2, s0, f3), Slide(s0, f2, s1, f2), Slide(s0, f2, s0, f1), Slide(s1, f1, s0, f1),
     Slide(s1, f1, s1, f2), Slide(s1, f1, s2, f1), Slide(s1, f1, s1, f0), Slide(s2, f0, s1, f0),
     Slide(s2, f0, s2, f1), Slide(s2, f0, s3, f0)]
  }

  /** The moves a short diagonal admits: slides onto and off it, and the next tier on each cell. */
  function ShortMask(mirror: bool, shift: bool, tier: int): seq<MC.Move>
  {
    var f0, f1, f2 := Flip(mirror, 0), Flip(mirror, 1), Flip(mirror, 2);
    var s0, s1, s2 := Flip(shift, 0), Flip(shift, 1), Flip(shift, 2);
    ShortOnto(mirror, shift) + ShortOff(mirror, shift) +
    (if tier < 2 then [Place(tier + 1, s0, f2), Place(tier + 1, s1, f1), Place(tier + 1, s2, f0)] else [])
  }

  /** The digit of a line's tag: its row, column or diagonal number. */
  function Target(l: PL.Line): (t: int)
    requires PL.Tagged(l)
    ensures 0 <= t < 4
  {
    l.tag[1] as int - '0' as int
  }

  /** The end letter of a four-cell line's tag; a short diagonal has none. */
  function End(l: PL.Line): char
    requires PL.Tagged(l)
  {
    if |l.tag| > 2 then l.tag[2] else ' '
  }

  /** The moves whose flags `get_legal_moves` sets in `cur` for one line. */
  function LineMovesWith(asWritten: bool, l: PL.Line, tops: seq<int>): seq<MC.Move>
    requires PL.Tagged(l) && |tops| == 16
  {
    if l.tag[0] == 'r' then StraightMask(false, asWritten, Target(l), End(l), l.tier, tops)
    else if l.tag[0] == 'c' then StraightMask(true, asWritten, Target(l), End(l), l.tier, tops)
    else if l.tag[0] == 'd' then LongMask(asWritten, l.tag[1] == '1', End(l), l.tier, tops)
    else ShortMask(l.tag[1] in "12", l.tag[1] in "23", l.tier)
  }

  /** The line's moves as the code names them (see `ExtendCell` and `IntoLowerMiddle`). */
  function LineMovesAsWritten(l: PL.Line, tops: seq<int>): seq<MC.Move>
    requires PL.Tagged(l) && |tops| == 16
  {
    LineMovesWith(true, l, tops)
  }

  /** The line's moves with the two evident slips corrected; the game uses these. */
  function LineMoves(l: PL.Line, tops: seq<int>): seq<MC.Move>
    requires PL.Tagged(l) && |tops| == 16
  {
    LineMovesWith(false, l, tops)
  }

  /** Whether square `s` is one of the cells of line `l`. */
  predicate OnLine(l: PL.Line, s: MC.Space)
    requires PL.Tagged(l)
  {
    var t := Target(l);
    if l.tag[0] == 'r' then s.row == t
    else if l.tag[0] == 'c' then s.col == t
    else if l.tag[0] == 'd' then (if t == 0 then s.row == s.col else s.row + s.col == 3)
    else if t == 0 then s.row + s.col == 2 && s.row <= 2
    else if t == 1 then s.col == s.row + 1
    else if t == 2 then s.row + s.col == 4 && s.row >= 1
    else s.row == s.col + 1
  }

  /** A move touches a line when it places on it, or slides from or onto it. */
  predicate Touches(l: PL.Line, m: MC.Move)
    requires PL.Tagged(l)
  {
    OnLine(l, m.spaceTo) || (m.Slide? && OnLine(l, m.spaceFrom))
  }

  /** Every move a line admits is a real move that touches the line. */
  predicate AdmitsOnlyTouching(l: PL.Line, ms: seq<MC.Move>)
    requires PL.Tagged(l)
  {
    forall k | 0 <= k < |ms| :: MC.ValidMove(ms[k]) && Touches(l, ms[k])
  }

  /** On row (or column) `target`. */
  predicate InStraight(column: bool, target: int, s: MC.Space)
  {
    if column then s.col == target else s.row == target
  }

  /** Every move in `ms` is real and starts or ends on the row (or column). */
  predicate StraightGood(column: bool, target: int, ms: seq<MC.Move>)
  {
    forall k | 0 <= k < |ms| ::
      MC.ValidMove(ms[k]) && (InStraight(column, target, ms[k].spaceTo) || (ms[k].Slide? && InStraight(column, target, ms[k].spaceFrom)))
  }

  lemma StraightAppend(column: bool, target: int, a: seq<MC.Move>, b: seq<MC.Move>)
    requires StraightGood(column, target, a) && StraightGood(column, target, b)
    ensures StraightGood(column, target, a + b)
  {
    forall k | 0 <= k < |a + b|
      ensures MC.ValidMove((a + b)[k]) && (InStraight(column, target, (a + b)[k].spaceTo) || ((a + b)[k].Slide? && InStraight(column, target, (a + b)[k].spaceFrom)))
    {
      if k >= |a| {
        assert (a + b)[k] == b[k - |a|];
      }
    }
  }

  lemma SourceEndGood(column: bool, target: int, source: int, end: char, tier: int, tops: seq<int>)
    requires |tops| == 16 && 0 <= target < 4 && 0 <= source < 4 && (source == target - 1 || source == target + 1)
    ensures StraightGood(column, target, SourceEnd(column, false, target, source, end, tier, tops))
  {
  }

  lemma SourceGood(column: bool, target: int, source: int, end: char, tier: int, tops: seq<int>)
    requires |tops| == 16 && 0 <= target < 4 && 0 <= source < 4 && (source == target - 1 || source == target + 1)
    ensures StraightGood(column, target, SourceMask(column, false, target, source, end, tier, tops))
  {
    SourceEndGood(column, target, source, end, tier, tops);
    StraightAppend(column, target,
      [StraightSlide(column, target, 1, source, 1), StraightSlide(column, target, 2, source, 2),
       StraightSlide(column, source, 1, target, 1), StraightSlide(column, source, 2, target, 2)],
      SourceEnd(column, false, target, source, end, tier, tops));
  }

  lemma StraightPlacesGood(column: bool, target: int, end: char, tier: int)
    requires 0 <= target < 4 && 0 <= tier < 3
    ensures StraightGood(column, target, StraightAlong(column, target, end) + StraightPlaces(column, target, end, tier))
  {
  }

  lemma SourcesMaskGood(column: bool, target: int, end: char, tier: int, tops: seq<int>)
    requires |tops| == 16 && 0 <= target < 4
    ensures StraightGood(column, target, SourcesMask(column, false, target, end, tier, tops))
  {
    var ss := Sources(target);
    SourceGood(column, target, ss[0], end, tier, tops);
    if |ss| == 2 {
      SourceGood(column, target, ss[1], end, tier, tops);
      StraightAppend(column, target, SourceMask(column, false, target, ss[0], end, tier, tops), SourceMask(column, false, target, ss[1], end, tier, tops));
    } else {
      assert SourcesMask(column, false, target, end, tier, tops) == SourceMask(column, false, target, ss[0], end, tier, tops) + [];
    }
  }

  lemma StraightMaskGood(column: bool, target: int, end: char, tier: int, tops: seq<int>)
    requires |tops| == 16 && 0 <= target < 4 && 0 <= tier < 3
    ensures StraightGood(column, target, StraightMask(column, false, target, end, tier, tops))
  {
    SourcesMaskGood(column, target, end, tier, tops);
    StraightPlacesGood(column, target, end, tier);
    StraightAppend(column, target, SourcesMask(column, false, target, end, tier, tops),
      StraightAlong(column, target, end) + StraightPlaces(column, target, end, tier));
    assert StraightMask(column, false, target, end, tier, tops) ==
      SourcesMask(column, false, target, end, tier, tops) + (StraightAlong(column, target, end) + StraightPlaces(column, target, end, tier));
  }

  /** For a row or column line, touching it is starting or ending on that row or column. */
  lemma StraightTouches(l: PL.Line, ms: seq<MC.Move>)
    requires PL.Tagged(l) && (l.tag[0] == 'r' || l.tag[0] == 'c')
    requires StraightGood(l.tag[0] == 'c', Target(l), ms)
    ensures AdmitsOnlyTouching(l, ms)
  {
  }

  /** Cell `b` of row `a`, or cell `b` of column `a` when `column`. */
  function StraightCell(column: bool, a: int, b: int): MC.Space
  {
    if column then MC.Space(b, a) else MC.Space(a, b)
  }

  /** The cell at the open end of a row (or column) joined at `end`. */
  function OpenEnd(column: bool, target: int, end: char): MC.Space
  {
    var first := if column then 'u' else 'l';
    if end == first then StraightCell(column, target, 3) else StraightCell(column, target, 0)
  }

  /**
   * Every slide in `ms` onto the open end cell from a cell off the row
   * (or column) starts from a stack whose top is the line's tier: a slide
   * that extends the line keeps it a line.
   */
  predicate ExtendsAtTier(column: bool, target: int, end: char, tier: int, tops: seq<int>, ms: seq<MC.Move>)
    requires |tops| == 16
  {
    forall k | 0 <= k < |ms| ::
      ms[k].Slide? && ms[k].spaceTo == OpenEnd(column, target, end) && MC.OnBoard(ms[k].spaceFrom) &&
      !InStraight(column, target, ms[k].spaceFrom) ==>
        tops[ms[k].spaceFrom.row * 4 + ms[k].spaceFrom.col] == tier
  }

  lemma ExtendsAppend(column: bool, target: int, end: char, tier: int, tops: seq<int>, a: seq<MC.Move>, b: seq<MC.Move>)
    requires |tops| == 16
    requires ExtendsAtTier(column, target, end, tier, tops, a) && ExtendsAtTier(column, target, end, tier, tops, b)
    ensures ExtendsAtTier(column, target, end, tier, tops, a + b)
  {
    forall k | 0 <= k < |a + b| && (a + b)[k].Slide? && (a + b)[k].spaceTo == OpenEnd(column, target, end) &&
      MC.OnBoard((a + b)[k].spaceFrom) && !InStraight(column, target, (a + b)[k].spaceFrom)
      ensures tops[(a + b)[k].spaceFrom.row * 4 + (a + b)[k].spaceFrom.col] == tier
    {
      if k >= |a| {
        assert (a + b)[k] == b[k - |a|];
      }
    }
  }

  lemma SourceEndExtends(column: bool, target: int, source: int, end: char, tier: int, tops: seq<int>)
    requires |tops| == 16 && 0 <= target < 4 && 0 <= source < 4 && (source == target - 1 || source == target + 1)
    ensures ExtendsAtTier(column, target, end, tier, tops, SourceMask(column, false, target, source, end, tier, tops))
  {
  }

  lemma SourcesMaskExtends(column: bool, target: int, end: char, tier: int, tops: seq<int>)
    requires |tops| == 16 && 0 <= target < 4
    ensures ExtendsAtTier(column, target, end, tier, tops, SourcesMask(column, false, target, end, tier, tops))
  {
    var ss := Sources(target);
    SourceEndExtends(column, target, ss[0], end, tier, tops);
    if |ss| == 2 {
      SourceEndExtends(column, target, ss[1], end, tier, tops);
      ExtendsAppend(column, target, end, tier, tops, SourceMask(column, false, target, ss[0], end, tier, tops), SourceMask(column, false, target, ss[1], end, tier, tops));
    } else {
      assert SourcesMask(column, false, target, end, tier, tops) == SourceMask(column, false, target, ss[0], end, tier, tops) + [];
    }
  }

  /**
   * A row or column line admits an extending slide onto its open end only
   * from a neighbouring stack whose top is the line's tier.
   */
  lemma StraightExtendsAtTier(l: PL.Line, tops: seq<int>)
    requires PL.Tagged(l) && (l.tag[0] == 'r' || l.tag[0] == 'c') && |tops| == 16
    ensures ExtendsAtTier(l.tag[0] == 'c', Target(l), End(l), l.tier, tops, LineMoves(l, tops))
  {
    var column, target, end := l.tag[0] == 'c', Target(l), End(l);
    SourcesMaskExtends(column, target, end, l.tier, tops);
    var rest := StraightAlong(column, target, end) + StraightPlaces(column, target, end, l.tier);
    assert ExtendsAtTier(column, target, end, l.tier, tops, rest);
    ExtendsAppend(column, target, end, l.tier, tops, SourcesMask(column, false, target, end, l.tier, tops), rest);
    assert LineMoves(l, tops) == SourcesMask(column, false, target, end, l.tier, tops) + rest;
  }

  /**
   * As written, a column joined at its upper end reads the extending
   * neighbour's top from flat index 3 + source instead of 12 + source, the
   * cell (3, source): a column of capitals over a base at (3, 0) admits the slide
   * of the tier-1 stack at (3, 1) onto (3, 0), which the corrected mask
   * does not.
   */
  lemma ColumnExtendAsWritten()
    ensures var l, tops := PL.Line("c0u", 2), [2, -1, -1, -1, 2, -1, -1, -1, 2, -1, -1, -1, 0, 1, -1, -1];
      Slide(3, 1, 3, 0) in LineMovesAsWritten(l, tops) && Slide(3, 1, 3, 0) !in LineMoves(l, tops) &&
      !ExtendsAtTier(true, 0, 'u', 2, tops, LineMovesAsWritten(l, tops))
  {
    var l, tops := PL.Line("c0u", 2), [2, -1, -1, -1, 2, -1, -1, -1, 2, -1, -1, -1, 0, 1, -1, -1];
    assert LineMovesAsWritten(l, tops)[6] == Slide(3, 1, 3, 0);
  }

  /** On the long diagonal d0, or on d1 when mirrored. */
  predicate InLong(mirror: bool, s: MC.Space)
  {
    s.col == Flip(mirror, s.row)
  }

  /** Every move in `ms` is real and starts or ends on the long diagonal. */
  predicate LongGood(mirror: bool, ms: seq<MC.Move>)
  {
    forall k | 0 <= k < |ms| ::
      MC.ValidMove(ms[k]) && (InLong(mirror, ms[k].spaceTo) || (ms[k].Slide? && InLong(mirror, ms[k].spaceFrom)))
  }

  /** For a long diagonal, touching it is starting or ending on it. */
  lemma LongTouches(l: PL.Line, ms: seq<MC.Move>)
    requires PL.Tagged(l) && l.tag[0] == 'd'
    requires LongGood(l.tag[1] == '1', ms)
    ensures AdmitsOnlyTouching(l, ms)
  {
  }

  lemma LongUpperGood(mirror: bool)
    ensures LongGood(mirror, LongUpper(mirror))
  {
  }

  lemma LongLowerGood(mirror: bool)
    ensures LongGood(mirror, LongLower(false, mirror))
  {
  }

  lemma LongEndsGood(mirror: bool, end: char, tier: int, tops: seq<int>)
    requires |tops| == 16
    ensures LongGood(mirror, LongEnds(mirror, end, tier, tops))
  {
  }

  lemma LongPlacesGood(mirror: bool, end: char, tier: int)
    requires 0 <= tier < 3
    ensures LongGood(mirror, LongPlaces(mirror, end, tier))
  {
  }

  lemma LongMaskGood(mirror: bool, end: char, tier: int, tops: seq<int>)
    requires |tops| == 16 && 0 <= tier < 3
    ensures LongGood(mirror, LongMask(false, mirror, end, tier, tops))
  {
    LongUpperGood(mirror);
    LongLowerGood(mirror);
    LongEndsGood(mirror, end, tier, tops);
    LongPlacesGood(mirror, end, tier);
  }

  /** The cells of the short diagonal through (s(0), f(2)), (s(1), f(1)) and (s(2), f(0)). */
  predicate InShort(mirror: bool, shift: bool, s: MC.Space)
  {
    s == MC.Space(Flip(shift, 0), Flip(mirror, 2)) || s == MC.Space(Flip(shift, 1), Flip(mirror, 1)) ||
    s == MC.Space(Flip(shift, 2), Flip(mirror, 0))
  }

  /** Every move in `ms` is real and starts or ends on the short diagonal. */
  predicate ShortGood(mirror: bool, shift: bool, ms: seq<MC.Move>)
  {
    forall k | 0 <= k < |ms| ::
      MC.ValidMove(ms[k]) && (InShort(mirror, shift, ms[k].spaceTo) || (ms[k].Slide? && InShort(mirror, shift, ms[k].spaceFrom)))
  }

  lemma ShortOntoGood(mirror: bool, shift: bool)
    ensures ShortGood(mirror, shift, ShortOnto(mirror, shift))
  {
  }

  lemma ShortOffGood(mirror: bool, shift: bool)
    ensures ShortGood(mirror, shift, ShortOff(mirror, shift))
  {
  }

  lemma ShortMaskTouches(mirror: bool, shift: bool, tier: int)
    requires 0 <= tier < 3
    ensures ShortGood(mirror, shift, ShortMask(mirror, shift, tier))
  {
    ShortOntoGood(mirror, shift);
    ShortOffGood(mirror, shift);
    var a, b := ShortOnto(mirror, shift), ShortOff(mirror, shift);
    var c := ShortMask(mirror, shift, tier)[|a| + |b|..];
    assert ShortGood(mirror, shift, c);
    assert ShortMask(mirror, shift, tier) == a + b + c;
  }

  /** For a short diagonal, touching it is starting or ending on it. */
  lemma ShortTouches(l: PL.Line, ms: seq<MC.Move>)
    requires PL.Tagged(l) && l.tag[0] == 's'
    requires ShortGood(l.tag[1] in "12", l.tag[1] in "23", ms)
    ensures AdmitsOnlyTouching(l, ms)
  {
    var mirror, shift := l.tag[1] in "12", l.tag[1] in "23";
    forall k | 0 <= k < |ms| ensures MC.ValidMove(ms[k]) && Touches(l, ms[k]) {
      if InShort(mirror, shift, ms[k].spaceTo) {
        ShortOnLine(l, ms[k].spaceTo);
      } else {
        ShortOnLine(l, ms[k].spaceFrom);
      }
    }
  }

  /** A space of the short diagonal named by the line's tag lies on that line. */
  lemma ShortOnLine(l: PL.Line, s: MC.Space)
    requires PL.Tagged(l) && l.tag[0] == 's' && InShort(l.tag[1] in "12", l.tag[1] in "23", s)
    ensures OnLine(l, s)
  {
  }

  /**
   * Every move a line admits is a real move that starts or ends on the
   * line: a move elsewhere can neither break nor extend it.
   */
  lemma LineMovesTouch(l: PL.Line, tops: seq<int>)
    requires PL.Tagged(l) && |tops| == 16
    ensures AdmitsOnlyTouching(l, LineMoves(l, tops))
  {
    var ms := LineMoves(l, tops);
    if l.tag[0] == 'r' || l.tag[0] == 'c' {
      StraightMaskGood(l.tag[0] == 'c', Target(l), End(l), l.tier, tops);
      StraightTouches(l, ms);
    } else if l.tag[0] == 'd' {
      LongMaskGood(l.tag[1] == '1', End(l), l.tier, tops);
      LongTouches(l, ms);
    } else {
      ShortMaskTouches(l.tag[1] in "12", l.tag[1] in "23", l.tier);
      ShortTouches(l, ms);
    }
  }

  /**
   * As written, the long diagonal's slide onto its lower middle cell starts
   * two rows up, at (0, f2): the encoded id is that of the slide from
   * (0, f2) down to (1, f2), which touches neither long diagonal.
   */
  lemma LongLowerAsWritten(tops: seq<int>)
    requires |tops| == 16
    ensures var l := PL.Line("d0u", 0);
      var m := LineMovesAsWritten(l, tops)[12];
      m == Slide(0, 2, 2, 2) && !MC.ValidMove(m) && Index(m) == 14 &&
      MC.Decode(14) == Slide(0, 2, 1, 2) && !Touches(l, MC.Decode(14)) &&
      !AdmitsOnlyTouching(l, LineMovesAsWritten(l, tops))
  {
    var l := PL.Line("d0u", 0);
    assert LineMovesAsWritten(l, tops)[12] == LongLower(true, false)[4];
  }

  // The intersected mask

  /** Every recorded line carries a well-formed tag. */
  predicate AllTagged(lines: seq<PL.Line>)
  {
    forall n | 0 <= n < |lines| :: PL.Tagged(lines[n])
  }

  /** The indices each line admits, line by line. */
  function Admitted(lines: seq<PL.Line>, tops: seq<int>): (sets: seq<set<int>>)
    requires |tops| == 16 && AllTagged(lines)
    ensures |sets| == |lines|
  {
    seq(|lines|, n requires 0 <= n < |lines| => Indices(LineMoves(lines[n], tops)))
  }

  /**
   * The mask after intersecting the first `n` admitted index sets,
   * starting from all 96 indices.
   */
  function MaskUpTo(admitted: seq<set<int>>, n: nat): (mask: seq<bool>)
    requires n <= |admitted|
    ensures |mask| == 96
  {
    if n == 0 then seq(96, _ => true)
    else
      var prev := MaskUpTo(admitted, n - 1);
      seq(96, i requires 0 <= i < 96 => prev[i] && i in admitted[n - 1])
  }

  /** An index survives the intersection exactly when every line admits it. */
  lemma {:induction false} MaskUpToEvery(admitted: seq<set<int>>, n: nat, i: int)
    requires n <= |admitted| && 0 <= i < 96
    ensures MaskUpTo(admitted, n)[i] <==> forall m | 0 <= m < n :: i in admitted[m]
  {
    if n > 0 {
      MaskUpToEvery(admitted, n - 1, i);
    }
  }

  /** The index of placing tier `t` on cell `c`. */
  function PlaceIndex(t: int, c: int): (i: int)
    requires 0 <= t < 3 && 0 <= c < 16
    ensures 48 <= i < 96
  {
    48 + t * 16 + c
  }

  /** A placement index decodes to its tier on the cell's row and column. */
  lemma PlaceIndexDecodes(t: int, c: int)
    requires 0 <= t < 3 && 0 <= c < 16
    ensures MC.Decode(PlaceIndex(t, c)) == MC.Place(t, MC.Space(c / 4, c % 4))
    ensures PB.Cell(c / 4, c % 4) == c
  {
    var i := PlaceIndex(t, c);
    assert i - 48 == t * 16 + c && i == (3 + t) * 16 + c;
    assert (i - 48) / 16 == t && i % 16 == c;
    assert i == 4 * (12 + 4 * t) + c;
    assert i % 4 == c % 4;
  }

  /** A stack with a base and a capital but no column between them. */
  predicate Gapped(spaces: seq<bool>, c: int)
    requires |spaces| == 48 && 0 <= c < 16
  {
    spaces[3 * c] && !spaces[3 * c + 1] && spaces[3 * c + 2]
  }

  /** One line's flags: the indices of the moves it admits set, all others clear. */
  method LineFlags(ms: seq<MC.Move>) returns (cur: seq<bool>)
    requires forall k | 0 <= k < |ms| :: MC.ValidMove(ms[k])
    ensures |cur| == 96
    ensures forall i | 0 <= i < 96 :: cur[i] <==> i in Indices(ms)
  {
    cur := seq(96, _ => false);
    var k := 0;
    while k < |ms|
      invariant 0 <= k <= |ms| && |cur| == 96
      invariant forall i | 0 <= i < 96 :: cur[i] <==> exists j | 0 <= j < k :: Index(ms[j]) == i
    {
      IndexDecodes(ms[k]);
      cur := cur[Index(ms[k]) := true];
      k := k + 1;
    }
  }

  /** Clear every flag of `moves` that `cur` does not set, one index at a time. */
  method Intersect(moves: seq<bool>, cur: seq<bool>) returns (r: seq<bool>)
    requires |moves| == 96 && |cur| == 96
    ensures |r| == 96
    ensures forall i | 0 <= i < 96 :: r[i] == (moves[i] && cur[i])
  {
    r := moves;
    var i := 0;
    while i < 96
      invariant 0 <= i <= 96 && |r| == 96
      invariant forall j | 0 <= j < i :: r[j] == (moves[j] && cur[j])
      invariant forall j | i <= j < 96 :: r[j] == moves[j]
    {
      if !cur[i] {
        r := r[i := false];
      }
      i := i + 1;
    }
  }

  /** The mask `get_legal_moves` builds, line by line; no lines leave every index admitted. */
  method BuildMask(lines: seq<PL.Line>, tops: seq<int>) returns (moves: seq<bool>)
    requires |tops| == 16 && AllTagged(lines)
    ensures moves == MaskUpTo(Admitted(lines, tops), |lines|)
  {
    var admitted := Admitted(lines, tops);
    moves := seq(96, _ => true);
    var n := 0;
    while n < |lines|
      invariant 0 <= n <= |lines| && moves == MaskUpTo(admitted, n)
    {
      LineMovesTouch(lines[n], tops);
      var cur := LineFlags(LineMoves(lines[n], tops));
      moves := Intersect(moves, cur);
      n := n + 1;
    }
  }

  /** The pieces after player `p` spends one piece of tier `t`. */
  function Spent(pieces: seq<seq<int>>, p: int, t: int): seq<seq<int>>
    requires 0 <= p < |pieces| && 0 <= t < |pieces[p]|
  {
    pieces[p := pieces[p][t := pieces[p][t] - 1]]
  }

  /** An index some line admits decodes to a move that touches that line. */
  lemma AdmittedTouches(l: PL.Line, tops: seq<int>, i: int)
    requires PL.Tagged(l) && |tops| == 16 && i in Indices(LineMoves(l, tops))
    ensures 0 <= i < 96 && Touches(l, MC.Decode(i))
  {
    var ms := LineMoves(l, tops);
    var k :| 0 <= k < |ms| && Index(ms[k]) == i;
    LineMovesTouch(l, tops);
    IndexDecodes(ms[k]);
  }

  /** An index that survives the intersection decodes to a move touching every standing line. */
  lemma MaskTouches(lines: seq<PL.Line>, tops: seq<int>, i: int)
    requires |tops| == 16 && AllTagged(lines) && 0 <= i < 96
    requires MaskUpTo(Admitted(lines, tops), |lines|)[i]
    ensures forall n | 0 <= n < |lines| :: Touches(lines[n], MC.Decode(i))
  {
    var admitted := Admitted(lines, tops);
    MaskUpToEvery(admitted, |lines|, i);
    forall n | 0 <= n < |lines|
      ensures Touches(lines[n], MC.Decode(i))
    {
      assert i in admitted[n];
      AdmittedTouches(lines[n], tops, i);
    }
  }

  /** With no line standing, nothing is masked out. */
  lemma MaskOfNoLines(admitted: seq<set<int>>, i: int)
    requires |admitted| == 0 && 0 <= i < 96
    ensures MaskUpTo(admitted, 0)[i]
  {
  }

  // The network input vector

  /** The position of tier `j` of cell `c` in the 48 tier marks. */
  function TierSlot(c: int, j: int): (k: int)
    requires 0 <= c < 16 && 0 <= j < 3
    ensures 0 <= k < 48
  {
    3 * c + j
  }

  /** Tier `j` of cell `c` is marked when it lies between the cell's bottom and top tiers. */
  predicate Marked(spaces: seq<bool>, c: int, j: int)
    requires |spaces| == 48 && 0 <= c < 16 && 0 <= j < 3
  {
    PB.CellBottom(spaces, c) <= j <= PB.CellTop(spaces, c)
  }

  /** The 48 tier marks, cell by cell. */
  function Marks(spaces: seq<bool>): (r: seq<real>)
    requires |spaces| == 48
    ensures |r| == 48
    ensures forall c, j | 0 <= c < 16 && 0 <= j < 3 :: r[TierSlot(c, j)] == if Marked(spaces, c, j) then 1.0 else 0.0
  {
    seq(48, k requires 0 <= k < 48 => if Marked(spaces, k / 3, k % 3) then 1.0 else 0.0)
  }

  /** The counts of a hand, each divided by four. */
  function Hand(counts: seq<int>): (r: seq<real>)
    requires |counts| == 3
    ensures |r| == 3
  {
    [counts[0] as real / 4.0, counts[1] as real / 4.0, counts[2] as real / 4.0]
  }

  /**
   * The 70-entry vector of a position in canonical form: the tier marks,
   * the frozen flags, then the mover's hand before the opponent's.
   */
  function VectorOf(spaces: seq<bool>, frozen: seq<bool>, pieces: seq<seq<int>>, toPlay: int): (v: seq<real>)
    requires |spaces| == 48 && |frozen| == 16 && |pieces| == 2 && |pieces[0]| == 3 && |pieces[1]| == 3
    requires toPlay == 0 || toPlay == 1
    ensures |v| == 70
  {
    Marks(spaces) + seq(16, k requires 0 <= k < 16 => if frozen[k] then 1.0 else 0.0) +
    Hand(pieces[toPlay]) + Hand(pieces[1 - toPlay])
  }

  /** On a stack without a gap, a tier is marked exactly when that piece is present. */
  lemma MarkedIsPresent(spaces: seq<bool>, c: int, j: int)
    requires |spaces| == 48 && 0 <= c < 16 && 0 <= j < 3 && !Gapped(spaces, c)
    ensures Marked(spaces, c, j) <==> spaces[TierSlot(c, j)]
  {
  }

  /**
   * The vector does not depend on which player is to move, only on whose
   * hand is whose: swapping the hands and the mover gives the same vector.
   */
  lemma VectorCanonical(spaces: seq<bool>, frozen: seq<bool>, pieces: seq<seq<int>>, toPlay: int)
    requires |spaces| == 48 && |frozen| == 16 && |pieces| == 2 && |pieces[0]| == 3 && |pieces[1]| == 3
    requires toPlay == 0 || toPlay == 1
    ensures VectorOf(spaces, frozen, pieces, toPlay) == VectorOf(spaces, frozen, [pieces[1], pieces[0]], 1 - toPlay)
  {
  }

  /**
   * As written, `get_vector` walks tiers from a cell's bottom to its top
   * with an empty cell's bottom and top both -1, so an empty cell writes
   * position 3c - 1, which Python reads from the end when c is 0: position
   * `k` is marked when some cell `c` and tier `j` in that range give
   * (3c + j) mod 48 == k.
   */
  predicate MarkedAsWritten(spaces: seq<bool>, k: int)
    requires |spaces| == 48
  {
    exists c, j | 0 <= c < 16 && -1 <= j < 3 :: PB.CellBottom(spaces, c) <= j <= PB.CellTop(spaces, c) && WrappedSlot(c, j) == k
  }

  /** Where writing tier `j` of cell `c` lands in a 48-entry array indexed as Python does. */
  function WrappedSlot(c: int, j: int): (k: int)
    ensures 0 <= k < 48
  {
    (3 * c + j) % 48
  }

  /**
   * On the empty starting board the as-written walk marks the capital of
   * every cell although nothing stands anywhere: empty cell c writes
   * position 3c - 1, the capital of cell c - 1, and cell 0 wraps round to
   * the capital of cell 15. The corrected marks leave all 48 clear.
   */
  lemma StartVectorAsWritten(spaces: seq<bool>)
    requires |spaces| == 48 && forall k | 0 <= k < 48 :: !spaces[k]
    ensures forall c | 0 <= c < 16 :: MarkedAsWritten(spaces, TierSlot(c, 2)) && !spaces[TierSlot(c, 2)]
    ensures forall k | 0 <= k < 48 :: Marks(spaces)[k] == 0.0
  {
    forall c | 0 <= c < 16
      ensures MarkedAsWritten(spaces, TierSlot(c, 2))
    {
      var d := (c + 1) % 16;
      assert PB.CellBottom(spaces, d) <= -1 <= PB.CellTop(spaces, d);
      assert WrappedSlot(d, -1) == TierSlot(c, 2);
    }
  }

  /** Mark the tiers of cell `c` from its bottom to its top; an empty cell marks nothing. */
  method MarkCell(spaces: seq<bool>, c: int, before: seq<real>) returns (marks: seq<real>)
    requires |spaces| == 48 && 0 <= c < 16 && |before| == 48
    requires forall j | 0 <= j < 3 :: before[TierSlot(c, j)] == 0.0
    ensures |marks| == 48
    ensures forall j | 0 <= j < 3 :: marks[TierSlot(c, j)] == if Marked(spaces, c, j) then 1.0 else 0.0
    ensures forall k | 0 <= k < 48 && k != TierSlot(c, 0) && k != TierSlot(c, 1) && k != TierSlot(c, 2) :: marks[k] == before[k]
  {
    marks := before;
    var top := PB.CellTop(spaces, c);
    if top == -1 {
      return;
    }
    var j := PB.CellBottom(spaces, c);
    while j <= top
      invariant PB.CellBottom(spaces, c) <= j <= top + 1 && |marks| == 48
      invariant forall u | 0 <= u < 3 :: marks[TierSlot(c, u)] == if PB.CellBottom(spaces, c) <= u < j then 1.0 else 0.0
      invariant forall k | 0 <= k < 48 && k != TierSlot(c, 0) && k != TierSlot(c, 1) && k != TierSlot(c, 2) :: marks[k] == before[k]
    {
      marks := marks[TierSlot(c, j) := 1.0];
      j := j + 1;
    }
  }

  /**
   * `get_legal_moves` as written, given how many lines stand. A board has
   * only the attributes `spaces`, `frozen` and `lines`
   * (implement/board.py:12-20) and nothing assigns it a `tops`, yet both
   * the line-breaking code and the placement loop read `self.board.tops`:
   * with at most two lines the call raises AttributeError at the first
   * such read (in the placement loop at the latest), and with more it
   * returns all zeros before reaching any. Either way no move is ever
   * flagged.
   */
  function LegalMovesAsWritten(lineCount: nat): (r: PM.Py<seq<bool>>)
    ensures r.Value? <==> lineCount > 2
    ensures r.Value? ==> |r.v| == 96 && true !in r.v
  {
    if lineCount > 2 then PM.Value(seq(96, _ => false)) else PM.AttributeError
  }

  /**
   * `get_vector` as written: the canonical hands are built, then the first
   * pass of the tier loop reads `self.board.bottoms`, which a board never
   * has, so every position raises AttributeError.
   */
  function VectorAsWritten(spaces: seq<bool>, frozen: seq<bool>, pieces: seq<seq<int>>, toPlay: int): (r: PM.Py<seq<real>>)
    requires |pieces| == 2 && (toPlay == 0 || toPlay == 1)
    ensures r == PM.AttributeError
  {
    var canonical := [pieces[toPlay], pieces[1 - toPlay]];
    PM.AttributeError
  }

  class Game {
    const board: PB.Board
    var toPlay: int
    var pieces: seq<seq<int>>
    var outcome: Option<int>

    /** The shape the move rules need: a board of the right size and two hands of three counts. */
    ghost predicate Ready()
      reads this`toPlay, this`pieces, board
    {
      board.Shaped() && (toPlay == 0 || toPlay == 1) &&
      |pieces| == 2 && |pieces[0]| == 3 && |pieces[1]| == 3
    }

    /** Ready, with the board's recorded lines those of its tops. */
    ghost predicate Valid()
      reads this`toPlay, this`pieces, board
    {
      Ready() && board.Valid() && AllTagged(board.lines)
    }

    /** `__init__`: an empty board, the first player to move, four of each piece each, no outcome. */
    constructor ()
      ensures Valid() && fresh(board)
      ensures forall k | 0 <= k < 48 :: !board.spaces[k]
      ensures board.frozen == PB.StartFrozen() && board.lines == []
      ensures toPlay == 0 && pieces == [[4, 4, 4], [4, 4, 4]] && outcome == None
    {
      var b := new PB.Board();
      PL.LinesTagged(PB.TopsOf(b.spaces));
      board := b;
      toPlay := 0;
      pieces := [[4, 4, 4], [4, 4, 4]];
      outcome := None;
    }

    /** `is_legal`: a placement needs a piece of that tier in hand and the board's placement rule; a slide the slide rule. */
    predicate IsLegal(m: MC.Move)
      reads this`toPlay, this`pieces, board
      requires Ready() && MC.ValidMove(m)
    {
      match m
      case Place(t, to) => pieces[toPlay][t] > 0 && board.CanPlace(t, to.row, to.col)
      case Slide(from, to) => board.CanMove(from.row, from.col, to.row, to.col)
    }

    /** The intersection of what every standing line admits. */
    function Mask(): (mask: seq<bool>)
      reads this`toPlay, this`pieces, board
      requires Valid()
      ensures |mask| == 96
    {
      var admitted := Admitted(board.lines, PB.TopsOf(board.spaces));
      MaskUpTo(admitted, |admitted|)
    }

    /** Whether `get_legal_moves` flags slide `i`: at most two lines, the mask admits it and it is legal. */
    predicate SlideOffered(i: int)
      reads this`toPlay, this`pieces, board
      requires Valid() && 0 <= i < 48
    {
      |board.lines| <= 2 && SlideAllowed(Mask(), i)
    }

    /** Slide `i` passes mask `mask` and the slide rule. */
    predicate SlideAllowed(mask: seq<bool>, i: int)
      reads this`toPlay, this`pieces, board
      requires Ready() && |mask| == 96 && 0 <= i < 48
    {
      mask[i] && IsLegal(MC.Decode(i))
    }

    /**
     * Whether `get_legal_moves` flags placing tier `t` on cell `c`: at most
     * two lines, the mask admits it, the mover holds such a piece and the
     * cell is unfrozen and either empty or topped one tier below `t`.
     */
    predicate PlaceOffered(t: int, c: int)
      reads this`toPlay, this`pieces, board
      requires Valid() && 0 <= t < 3 && 0 <= c < 16
    {
      |board.lines| <= 2 && PlaceAllowed(Mask(), t, c)
    }

    /** Placing tier `t` on cell `c` passes mask `mask` and the placement filter. */
    predicate PlaceAllowed(mask: seq<bool>, t: int, c: int)
      reads this`toPlay, this`pieces, board
      requires Ready() && |mask| == 96 && 0 <= t < 3 && 0 <= c < 16
    {
      var top := PB.CellTop(board.spaces, c);
      mask[PlaceIndex(t, c)] && !board.frozen[c] && pieces[toPlay][t] > 0 &&
      (top == -1 || (top < 2 && t == top + 1))
    }

    /**
     * `get_legal_moves`: nothing when more than two lines stand; otherwise
     * the masked slides the slide rule allows, and the masked placements of
     * a piece the mover holds on an unfrozen cell that is empty or topped one
     * tier below it.
     */
    method GetLegalMoves() returns (legal: seq<bool>)
      requires Valid()
      ensures |legal| == 96
      ensures forall i | 0 <= i < 48 :: legal[i] == SlideOffered(i)
      ensures forall t, c | 0 <= t < 3 && 0 <= c < 16 :: legal[PlaceIndex(t, c)] == PlaceOffered(t, c)
    {
      if |board.lines| > 2 {
        return seq(96, _ => false);
      }
      var tops := board.GetTops();
      var moves := BuildMask(board.lines, tops);
      assert moves == Mask();
      legal := LegalSlides(moves);
      legal := LegalPlaces(moves, tops, legal);
    }

    /** The slide half of `get_legal_moves`: masked slides that `is_legal` accepts. */
    method LegalSlides(moves: seq<bool>) returns (legal: seq<bool>)
      requires Ready() && |moves| == 96
      ensures |legal| == 96
      ensures forall i | 0 <= i < 48 :: legal[i] == SlideAllowed(moves, i)
      ensures forall i | 48 <= i < 96 :: !legal[i]
    {
      legal := seq(96, _ => false);
      var i := 0;
      while i < 48
        invariant 0 <= i <= 48 && |legal| == 96
        invariant forall j | 0 <= j < i :: legal[j] == SlideAllowed(moves, j)
        invariant forall j | i <= j < 96 :: !legal[j]
      {
        if moves[i] && IsLegal(MC.Decode(i)) {
          legal := legal[i := true];
        }
        i := i + 1;
      }
    }

    /** The placement half of `get_legal_moves`, cell by cell. */
    method LegalPlaces(moves: seq<bool>, tops: seq<int>, slides: seq<bool>) returns (legal: seq<bool>)
      requires Ready() && |moves| == 96 && tops == PB.TopsOf(board.spaces)
      requires |slides| == 96 && forall i | 48 <= i < 96 :: !slides[i]
      ensures |legal| == 96 && forall i | 0 <= i < 48 :: legal[i] == slides[i]
      ensures forall t, c | 0 <= t < 3 && 0 <= c < 16 :: legal[PlaceIndex(t, c)] == PlaceAllowed(moves, t, c)
    {
      legal := slides;
      var c := 0;
      while c < 16
        invariant 0 <= c <= 16 && |legal| == 96 && forall i | 0 <= i < 48 :: legal[i] == slides[i]
        invariant forall t, d | 0 <= t < 3 && 0 <= d < c :: legal[PlaceIndex(t, d)] == PlaceAllowed(moves, t, d)
        invariant forall t, d | 0 <= t < 3 && c <= d < 16 :: !legal[PlaceIndex(t, d)]
      {
        legal := PlaceCell(moves, tops, c, legal);
        c := c + 1;
      }
    }

    /** The placements `get_legal_moves` sets on one cell. */
    method PlaceCell(moves: seq<bool>, tops: seq<int>, c: int, before: seq<bool>) returns (legal: seq<bool>)
      requires Ready() && |moves| == 96 && tops == PB.TopsOf(board.spaces)
      requires 0 <= c < 16 && |before| == 96
      requires forall t | 0 <= t < 3 :: !before[PlaceIndex(t, c)]
      ensures |legal| == 96
      ensures forall t | 0 <= t < 3 :: legal[PlaceIndex(t, c)] == PlaceAllowed(moves, t, c)
      ensures forall i | 0 <= i < 96 && i != PlaceIndex(0, c) && i != PlaceIndex(1, c) && i != PlaceIndex(2, c) :: legal[i] == before[i]
    {
      legal := before;
      if tops[c] == -1 {
        if !board.frozen[c] {
          var t := 0;
          while t < 3
            invariant 0 <= t <= 3 && |legal| == 96
            invariant forall u | 0 <= u < t :: legal[PlaceIndex(u, c)] == PlaceAllowed(moves, u, c)
            invariant forall u | t <= u < 3 :: !legal[PlaceIndex(u, c)]
            invariant forall i | 0 <= i < 96 && i != PlaceIndex(0, c) && i != PlaceIndex(1, c) && i != PlaceIndex(2, c) :: legal[i] == before[i]
          {
            if pieces[toPlay][t] > 0 {
              legal := legal[PlaceIndex(t, c) := moves[PlaceIndex(t, c)]];
            }
            t := t + 1;
          }
        }
      } else if tops[c] < 2 && !board.frozen[c] {
        var t := tops[c] + 1;
        if pieces[toPlay][t] > 0 {
          legal := legal[PlaceIndex(t, c) := moves[PlaceIndex(t, c)]];
        }
      }
    }
  
    /**
     * `do_move`: a placement spends one of the mover's pieces of that tier
     * (whether or not one is left), the board plays the move, the turn
     * passes, and when the next player is offered no move the game ends: a
     * win for the player who moved if a line stands, a draw otherwise.
     */
    method DoMove(id: int) returns (result: Option<int>, legal: seq<bool>)
      requires Valid() && 0 <= id < 96
      modifies this, board
      ensures Valid()
      ensures board.spaces == PB.Moved(old(board.spaces), MC.Decode(id))
      ensures board.frozen == PB.OnlyFrozen(MC.Decode(id).spaceTo)
      ensures pieces == if id >= 48 then Spent(old(pieces), old(toPlay), (id - 48) / 16) else old(pieces)
      ensures toPlay == 1 - old(toPlay)
      ensures |legal| == 96
      ensures forall i | 0 <= i < 48 :: legal[i] == SlideOffered(i)
      ensures forall t, c | 0 <= t < 3 && 0 <= c < 16 :: legal[PlaceIndex(t, c)] == PlaceOffered(t, c)
      ensures result == if true in legal then None else if |board.lines| > 0 then Some(1 - 2 * old(toPlay)) else Some(0)
      ensures outcome == if result.Some? then result else old(outcome)
    {
      Advance(id);
      legal := GetLegalMoves();
      if true !in legal {
        if |board.lines| > 0 {
          outcome := Some(2 * toPlay - 1);
        } else {
          outcome := Some(0);
        }
        return outcome, legal;
      }
      return None, legal;
    }

    /**
     * `do_move` as written: the piece is spent, the board moved and the turn
     * passed, and only then does `get_legal_moves` raise, unless more than
     * two lines stand, when the player who moved is recorded as the winner.
     */
    method DoMoveAsWritten(id: int) returns (r: PM.Py<Option<int>>)
      requires Valid() && 0 <= id < 96
      modifies this, board
      ensures Valid()
      ensures board.spaces == PB.Moved(old(board.spaces), MC.Decode(id))
      ensures board.frozen == PB.OnlyFrozen(MC.Decode(id).spaceTo)
      ensures pieces == if id >= 48 then Spent(old(pieces), old(toPlay), (id - 48) / 16) else old(pieces)
      ensures toPlay == 1 - old(toPlay)
      ensures r == if |board.lines| > 2 then PM.Value(Some(1 - 2 * old(toPlay))) else PM.AttributeError
      ensures outcome == if r.Value? then r.v else old(outcome)
    {
      Advance(id);
      var legal := LegalMovesAsWritten(|board.lines|);
      if legal.AttributeError? {
        return PM.AttributeError;
      }
      outcome := Some(2 * toPlay - 1);
      return PM.Value(outcome);
    }

    /** The first half of `do_move`: spend the piece, play the move on the board, pass the turn. */
    method Advance(id: int)
      requires Valid() && 0 <= id < 96
      modifies this, board
      ensures Valid() && outcome == old(outcome)
      ensures board.spaces == PB.Moved(old(board.spaces), MC.Decode(id))
      ensures board.frozen == PB.OnlyFrozen(MC.Decode(id).spaceTo)
      ensures pieces == if id >= 48 then Spent(old(pieces), old(toPlay), (id - 48) / 16) else old(pieces)
      ensures toPlay == 1 - old(toPlay)
    {
      var m := MC.Decode(id);
      if m.Place? {
        pieces := Spent(pieces, toPlay, m.pieceType);
      }
      board.DoMove(m);
      PL.LinesTagged(PB.TopsOf(board.spaces));
      toPlay := 1 - toPlay;
    }

    /**
     * `get_vector`: the position as the network sees it, with the empty
     * cells skipped when marking tiers.
     */
    method GetVector() returns (v: seq<real>)
      requires Ready()
      ensures v == VectorOf(board.spaces, board.frozen, pieces, toPlay)
    {
      var canonical := [pieces[toPlay], pieces[1 - toPlay]];
      var marks := seq(48, _ => 0.0);
      var i := 0;
      while i < 16
        invariant 0 <= i <= 16 && |marks| == 48
        invariant forall c, j | 0 <= c < i && 0 <= j < 3 :: marks[TierSlot(c, j)] == if Marked(board.spaces, c, j) then 1.0 else 0.0
        invariant forall c, j | i <= c < 16 && 0 <= j < 3 :: marks[TierSlot(c, j)] == 0.0
      {
        marks := MarkCell(board.spaces, i, marks);
        i := i + 1;
      }
      assert marks == Marks(board.spaces) by {
        forall k | 0 <= k < 48
          ensures marks[k] == Marks(board.spaces)[k]
        {
          assert k == TierSlot(k / 3, k % 3);
        }
      }
      var frozen := board.frozen;
      v := marks + seq(16, k requires 0 <= k < 16 => if frozen[k] then 1.0 else 0.0) +
        Hand(canonical[0]) + Hand(canonical[1]);
    }
  }

  /** The placement filter's condition meets the board's placement rule. */
  lemma PlaceRuleHolds(b: PB.Board, t: int, row: int, col: int)
    requires b.Shaped() && PB.OnBoard(row, col) && 0 <= t < 3 && !b.IsFrozen(row, col)
    requires b.Top(row, col) == -1 || (b.Top(row, col) < 2 && t == b.Top(row, col) + 1)
    ensures b.CanPlace(t, row, col)
  {
  }

  /** On an unfrozen stack without a gap, the placement rule is exactly the filter's "empty or topped one tier below". */
  lemma PlaceRuleExact(b: PB.Board, t: int, row: int, col: int)
    requires b.Shaped() && PB.OnBoard(row, col) && 0 <= t < 3 && !b.IsFrozen(row, col)
    requires !(b.Has(row, col, 0) && !b.Has(row, col, 1) && b.Has(row, col, 2))
    ensures b.CanPlace(t, row, col) <==> b.Top(row, col) == -1 || (b.Top(row, col) < 2 && t == b.Top(row, col) + 1)
  {
  }

  /** A flagged placement is one `is_legal` accepts: the filter never offers what the rules refuse. */
  lemma PlaceOfferedIsLegal(g: Game, t: int, c: int)
    requires g.Valid() && 0 <= t < 3 && 0 <= c < 16 && g.PlaceOffered(t, c)
    ensures MC.Decode(PlaceIndex(t, c)) == MC.Place(t, MC.Space(c / 4, c % 4))
    ensures g.IsLegal(MC.Decode(PlaceIndex(t, c)))
  {
    PlaceIndexDecodes(t, c);
    var row, col := c / 4, c % 4;
    assert g.board.Top(row, col) == PB.CellTop(g.board.spaces, c);
    PlaceRuleHolds(g.board, t, row, col);
  }

  /** Every flagged slide starts or ends on every standing line, so it can break or extend each of them. */
  lemma SlideOfferedTouchesLines(g: Game, i: int)
    requires g.Valid() && 0 <= i < 48 && g.SlideOffered(i)
    ensures forall n | 0 <= n < |g.board.lines| :: Touches(g.board.lines[n], MC.Decode(i))
  {
    MaskTouches(g.board.lines, PB.TopsOf(g.board.spaces), i);
  }

  /** Every flagged placement lands on every standing line. */
  lemma PlaceOfferedTouchesLines(g: Game, t: int, c: int)
    requires g.Valid() && 0 <= t < 3 && 0 <= c < 16 && g.PlaceOffered(t, c)
    ensures forall n | 0 <= n < |g.board.lines| :: Touches(g.board.lines[n], MC.Decode(PlaceIndex(t, c)))
  {
    MaskTouches(g.board.lines, PB.TopsOf(g.board.spaces), PlaceIndex(t, c));
  }

  /**
   * With no line standing, a slide is flagged exactly when it is legal, and
   * a placement on a stack without a gap exactly when it is legal and the
   * cell is unfrozen (the placement rule alone lets any piece onto an empty
   * frozen cell).
   */
  lemma NoLinesOffered(g: Game, i: int, t: int, c: int)
    requires g.Valid() && |g.board.lines| == 0 && 0 <= i < 48 && 0 <= t < 3 && 0 <= c < 16
    requires !Gapped(g.board.spaces, c)
    ensures g.SlideOffered(i) <==> g.IsLegal(MC.Decode(i))
    ensures g.PlaceOffered(t, c) <==> g.IsLegal(MC.Decode(PlaceIndex(t, c))) && !g.board.frozen[c]
  {
    NoLinesSlide(g, i);
    NoLinesPlace(g, t, c);
  }

  /** The slide half of NoLinesOffered. */
  lemma NoLinesSlide(g: Game, i: int)
    requires g.Valid() && |g.board.lines| == 0 && 0 <= i < 48
    ensures g.SlideOffered(i) <==> g.IsLegal(MC.Decode(i))
  {
    MaskOfNoLines(Admitted(g.board.lines, PB.TopsOf(g.board.spaces)), i);
  }

  /** The placement half of NoLinesOffered. */
  lemma NoLinesPlace(g: Game, t: int, c: int)
    requires g.Valid() && |g.board.lines| == 0 && 0 <= t < 3 && 0 <= c < 16
    requires !Gapped(g.board.spaces, c)
    ensures g.PlaceOffered(t, c) <==> g.IsLegal(MC.Decode(PlaceIndex(t, c))) && !g.board.frozen[c]
  {
    MaskOfNoLines(Admitted(g.board.lines, PB.TopsOf(g.board.spaces)), PlaceIndex(t, c));
    PlaceIndexDecodes(t, c);
    var row, col := c / 4, c % 4;
    assert g.board.Top(row, col) == PB.CellTop(g.board.spaces, c);
    if !g.board.frozen[c] {
      PlaceRuleExact(g.board, t, row, col);
    }
  }

  /**
   * The starting game shows the gap between the program as written and the
   * corrected members: as written, `get_legal_moves` and `get_vector` raise,
   * where the corrected ones offer a base on a4 and give the 70-entry vector.
   */
  lemma StartGameAsWritten(g: Game)
    requires g.Valid() && g.board.lines == [] && g.board.frozen == PB.StartFrozen()
    requires forall k | 0 <= k < 48 :: !g.board.spaces[k]
    requires g.toPlay == 0 && g.pieces == [[4, 4, 4], [4, 4, 4]]
    ensures LegalMovesAsWritten(|g.board.lines|) == PM.AttributeError
    ensures VectorAsWritten(g.board.spaces, g.board.frozen, g.pieces, g.toPlay) == PM.AttributeError
    ensures g.PlaceOffered(0, 0) && g.IsLegal(MC.Decode(PlaceIndex(0, 0)))
    ensures |VectorOf(g.board.spaces, g.board.frozen, g.pieces, g.toPlay)| == 70
  {
    MaskOfNoLines(Admitted(g.board.lines, PB.TopsOf(g.board.spaces)), PlaceIndex(0, 0));
    assert PB.CellTop(g.board.spaces, 0) == -1;
    PlaceOfferedIsLegal(g, 0, 0);
  }
}
