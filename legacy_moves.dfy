/**
 * The first C++ move codec: a decoded move keeps the source square in
 * (row1, col1) and the slide target in (row2, col2).
 */
module CppMove {
  import opened Common
  import MC = MoveCodec

  datatype Coords =
    | PlaceAt(ptype: int, row1: int, col1: int)
    | SlideBetween(row1: int, col1: int, row2: int, col2: int)

  /** The same move in the current codec's terms. */
  function ToCurrent(c: Coords): (m: MC.Move)
  {
    match c
    case PlaceAt(t, r, k) => MC.Place(t, MC.Space(r, k))
    case SlideBetween(r1, k1, r2, k2) => MC.Slide(MC.Space(r1, k1), MC.Space(r2, k2))
  }

  /** `Move(uintf)`; the Up block computes row1 as (id - 32) / 4. */
  function Decode(id: nat): (c: Coords)
    ensures c.PlaceAt? <==> id >= 48
  {
    if id >= 48 then PlaceAt((id - 48) / 16, (id % 16) / 4, id % 4)
    else if id < 12 then SlideBetween(id / 3, id % 3, id / 3, id % 3 + 1)
    else if id < 24 then SlideBetween((id - 12) / 4, id % 4, (id - 12) / 4 + 1, id % 4)
    else if id < 36 then SlideBetween((id - 24) / 3, id % 3 + 1, (id - 24) / 3, id % 3)
    else SlideBetween((id - 32) / 4, id % 4, (id - 32) / 4 - 1, id % 4)
  }

  /** This decoder and the current one describe the same move for every index. */
  lemma DecodeAgreesWithCurrent(id: nat)
    requires id < MC.NumMoves
    ensures ToCurrent(Decode(id)) == MC.Decode(id)
  {
    if 36 <= id < 48 {
      assert (id - 32) / 4 == (id - 36) / 4 + 1;
    }
  }

  function EncodePlace(ptype: int, row: int, col: int): (id: int)
    ensures ptype >= 0 && 0 <= row < 4 && 0 <= col < 4 ==> id >= 48
  {
    48 + ptype * 16 + row * 4 + col
  }

  function EncodeMove(row1: int, col1: int, row2: int, col2: int): (id: int)
    ensures col1 < col2 && 0 <= row1 < 4 && 0 <= col1 < 3 ==> 0 <= id < 12
  {
    if col1 < col2 then row1 * 3 + col1
    else if row1 < row2 then 12 + row1 * 4 + col1
    else if col1 > col2 then 24 + row1 * 3 + (col1 - 1)
    else 36 + (row1 - 1) * 4 + col1
  }

  /** Decode then encode is the identity on all 96 indices. */
  lemma {:induction false} RoundTrip(id: nat)
    requires id < MC.NumMoves
    ensures Decode(id).PlaceAt? ==> EncodePlace(Decode(id).ptype, Decode(id).row1, Decode(id).col1) == id
    ensures Decode(id).SlideBetween? ==>
      EncodeMove(Decode(id).row1, Decode(id).col1, Decode(id).row2, Decode(id).col2) == id
  {
    DecodeAgreesWithCurrent(id);
    MC.DecodeEncode(id);
  }

  /** A placement decodes to a tier in 0..2 on the board. */
  lemma PlaceInRange(id: nat)
    requires 48 <= id < MC.NumMoves
    ensures 0 <= Decode(id).ptype < 3 && 0 <= Decode(id).row1 < 4 && 0 <= Decode(id).col1 < 4
  {
  }

  /** The values pinned by the unit tests. */
  lemma PinnedValues()
    ensures EncodePlace(0, 0, 0) == 48 && EncodePlace(1, 2, 3) == 75
    ensures EncodeMove(0, 0, 0, 1) == 0 && EncodeMove(1, 2, 2, 2) == 18
    ensures Decode(0) == SlideBetween(0, 0, 0, 1)
    ensures Decode(48) == PlaceAt(0, 0, 0)
  {
  }

  /** `get_col_name`: a, b, c for 0, 1, 2 and 'd' for anything else. */
  function ColName(col: int): (c: char)
    ensures 'a' <= c <= 'd'
    ensures 0 <= col < 3 ==> c as int - 'a' as int == col
    ensures c == 'd' <==> !(0 <= col < 3)
  {
    if col == 0 then 'a' else if col == 1 then 'b' else if col == 2 then 'c' else 'd'
  }

  /**
   * The printed move: placements print the tier letter and the square
   * (row1, col1); slides print the source square and a direction letter.
   */
  function Notation(c: Coords): (r: string)
    requires 0 <= c.row1 < 4
  {
    match c
    case PlaceAt(t, r1, k1) =>
      (if t == 0 then "B" else if t == 1 then "C" else if t == 2 then "A" else "")
        + [ColName(k1), DigitChar(4 - r1)]
    case SlideBetween(r1, k1, r2, k2) =>
      [ColName(k1), DigitChar(4 - r1),
       if k2 < k1 then 'L' else if k2 > k1 then 'R' else if r2 < r1 then 'U' else 'D']
  }

  /** Every decoded move prints as the current codec's notation prints it. */
  lemma NotationAgreesWithCurrent(id: nat)
    requires id < MC.NumMoves
    ensures 0 <= Decode(id).row1 < 4
    ensures Notation(Decode(id)) == MC.Notation(MC.Decode(id))
  {
    DecodeAgreesWithCurrent(id);
  }

  /** Move 0 prints "a4R". */
  lemma FirstMovePrints()
    ensures Notation(Decode(0)) == "a4R"
  {
  }
}

/** The C move codec, a struct-returning version of the same decoder. */
module CMove {
  import MC = MoveCodec
  import opened CppMove

  /** `move_from_id`; Down computes row2 as (id - 8) / 4, Up row2 as (id - 36) / 4. */
  function Decode(id: int): (c: Coords)
    requires 0 <= id < MC.NumMoves
    ensures c.PlaceAt? <==> id >= 48
  {
    if id >= 48 then PlaceAt((id - 48) / 16, (id % 16) / 4, id % 4)
    else if id < 12 then SlideBetween(id / 3, id % 3, id / 3, id % 3 + 1)
    else if id < 24 then SlideBetween((id - 12) / 4, id % 4, (id - 8) / 4, id % 4)
    else if id < 36 then SlideBetween((id - 24) / 3, id % 3 + 1, (id - 24) / 3, id % 3)
    else SlideBetween((id - 32) / 4, id % 4, (id - 36) / 4, id % 4)
  }

  /** The Down and Up blocks' alternative row formulas name the neighbouring row. */
  lemma RowFormulas(id: int)
    requires 12 <= id < 48 && !(24 <= id < 36)
    ensures id < 24 ==> (id - 8) / 4 == (id - 12) / 4 + 1
    ensures id >= 36 ==> (id - 36) / 4 == (id - 32) / 4 - 1
  {
  }

  /** The C decoder describes the same move as the current one. */
  lemma DecodeAgreesWithCurrent(id: int)
    requires 0 <= id < MC.NumMoves
    ensures ToCurrent(Decode(id)) == MC.Decode(id)
    ensures MC.ValidMove(ToCurrent(Decode(id)))
  {
    if 12 <= id < 24 || 36 <= id < 48 {
      RowFormulas(id);
    }
    CppMove.DecodeAgreesWithCurrent(id);
  }

  /** `encode_place` and `encode_move` invert `move_from_id` on all 96 indices. */
  lemma {:induction false} RoundTrip(id: int)
    requires 0 <= id < MC.NumMoves
    ensures Decode(id).PlaceAt? ==> EncodePlace(Decode(id).ptype, Decode(id).row1, Decode(id).col1) == id
    ensures Decode(id).SlideBetween? ==>
      EncodeMove(Decode(id).row1, Decode(id).col1, Decode(id).row2, Decode(id).col2) == id
  {
    DecodeAgreesWithCurrent(id);
    MC.DecodeEncode(id);
  }
}

/**
 * The Python move class. Attributes a constructor never assigns are absent,
 * and reading one raises AttributeError.
 */
module PyMove {
  import opened Common
  import MC = MoveCodec

  datatype Py<T> = Value(v: T) | AttributeError

  datatype PyMove = PyMove(
    mtype: bool,
    ptype: Option<int>,
    row1: Option<int>, col1: Option<int>,
    row2: Option<int>, col2: Option<int>,
    row: Option<int>)

  function SlideOf(r1: int, k1: int, r2: int, k2: int): PyMove
  {
    PyMove(false, None, Some(r1), Some(k1), Some(r2), Some(k2), None)
  }

  /**
   * The decoder as written: a placement assigns `row` twice, the second time
   * with the column, and never assigns row1 or col1.
   */
  function DecodeAsWritten(id: int): (m: PyMove)
    ensures m.mtype <==> id >= 48
    ensures m.mtype ==> m.row1.None? && m.col1.None? && m.row == Some(id % 4)
  {
    if id < 12 then SlideOf(id / 3, id % 3, id / 3, id % 3 + 1)
    else if id < 24 then SlideOf((id - 12) / 4, id % 4, (id - 12) / 4 + 1, id % 4)
    else if id < 36 then SlideOf((id - 24) / 3, id % 3 + 1, (id - 24) / 3, id % 3)
    else if id < 48 then SlideOf((id - 36) / 4 + 1, id % 4, (id - 36) / 4, id % 4)
    else PyMove(true, Some((id - 48) / 16), None, None, None, None, Some(id % 4))
  }

  /** The decoder with the placement square stored in row1 and col1. */
  function Decode(id: int): (m: PyMove)
    ensures m.mtype <==> id >= 48
    ensures m.row1.Some? && m.col1.Some?
    ensures !m.mtype ==> m == DecodeAsWritten(id)
  {
    if id < 48 then DecodeAsWritten(id)
    else PyMove(true, Some((id - 48) / 16), Some((id % 16) / 4), Some(id % 4), None, None, None)
  }

  /** The same move in the current codec's terms, for a fully decoded move. */
  function ToCurrent(m: PyMove): (c: MC.Move)
    requires m.row1.Some? && m.col1.Some?
    requires m.mtype ==> m.ptype.Some?
    requires !m.mtype ==> m.row2.Some? && m.col2.Some?
  {
    if m.mtype then MC.Place(m.ptype.value, MC.Space(m.row1.value, m.col1.value))
    else MC.Slide(MC.Space(m.row1.value, m.col1.value), MC.Space(m.row2.value, m.col2.value))
  }

  /** On 0..95 the corrected decoder agrees with the current codec. */
  lemma DecodeAgreesWithCurrent(id: int)
    requires 0 <= id < MC.NumMoves
    ensures Decode(id).mtype ==> Decode(id).ptype.Some?
    ensures !Decode(id).mtype ==> Decode(id).row2.Some? && Decode(id).col2.Some?
    ensures ToCurrent(Decode(id)) == MC.Decode(id)
  {
  }

  /** Slides decode to orthogonally adjacent squares on the board. */
  lemma SlidesAdjacent(id: int)
    requires 0 <= id < 48
    ensures var m := Decode(id);
      m.row2.Some? && m.col2.Some? &&
      MC.OnBoard(MC.Space(m.row1.value, m.col1.value)) && MC.OnBoard(MC.Space(m.row2.value, m.col2.value)) &&
      MC.Adjacent(MC.Space(m.row1.value, m.col1.value), MC.Space(m.row2.value, m.col2.value))
  {
    DecodeAgreesWithCurrent(id);
  }

  function EqAttr(x: Option<int>, y: Option<int>): Py<bool>
  {
    if x.None? || y.None? then AttributeError else Value(x.value == y.value)
  }

  /** Python's short-circuit `and`: the right operand only matters after True. */
  function And(p: Py<bool>, q: Py<bool>): Py<bool>
  {
    if p.AttributeError? then p else if !p.v then Value(false) else q
  }

  /** `__eq__`. */
  function Eq(a: PyMove, b: PyMove): (r: Py<bool>)
    ensures a.mtype != b.mtype ==> r == Value(false)
  {
    if a.mtype != b.mtype then Value(false)
    else if a.mtype then And(EqAttr(a.ptype, b.ptype), And(EqAttr(a.row1, b.row1), EqAttr(a.col1, b.col1)))
    else And(EqAttr(a.row1, b.row1), And(EqAttr(a.col1, b.col1),
         And(EqAttr(a.row2, b.row2), EqAttr(a.col2, b.col2))))
  }

  /** Slides compare equal exactly when they carry the same four coordinates. */
  lemma EqSlides(a: PyMove, b: PyMove)
    requires !a.mtype && !b.mtype
    requires a.row1.Some? && a.col1.Some? && a.row2.Some? && a.col2.Some?
    requires b.row1.Some? && b.col1.Some? && b.row2.Some? && b.col2.Some?
    ensures Eq(a, b).Value?
    ensures Eq(a, b).v <==> a.row1 == b.row1 && a.col1 == b.col1 && a.row2 == b.row2 && a.col2 == b.col2
  {
  }

  /** As written, comparing two decoded placements of the same tier raises. */
  lemma EqPlacementsRaise(i: int, j: int)
    requires 48 <= i && 48 <= j && (i - 48) / 16 == (j - 48) / 16
    ensures Eq(DecodeAsWritten(i), DecodeAsWritten(j)) == AttributeError
  {
  }

  /** With the corrected decoder, two indices in 0..95 compare equal iff they are the same. */
  lemma {:induction false} EqDecodedIffSameId(i: int, j: int)
    requires 0 <= i < MC.NumMoves && 0 <= j < MC.NumMoves
    ensures Eq(Decode(i), Decode(j)) == Value(i == j)
  {
    DecodeAgreesWithCurrent(i);
    DecodeAgreesWithCurrent(j);
    MC.DecodeEncode(i);
    MC.DecodeEncode(j);
  }

  /** One step of `__lt__` on an attribute pair: Some(answer) decides, None goes on. */
  function LtStep(x: Option<int>, y: Option<int>, rest: Py<bool>): Py<bool>
  {
    if x.None? || y.None? then AttributeError
    else if x.value < y.value then Value(true)
    else if x.value > y.value then Value(false)
    else rest
  }

  /** `__lt__`: placements first, then row1, col1, then ptype or row2, col2. */
  function Lt(a: PyMove, b: PyMove): (r: Py<bool>)
    ensures a.mtype && !b.mtype ==> r == Value(true)
    ensures !a.mtype && b.mtype ==> r == Value(false)
  {
    if a.mtype && !b.mtype then Value(true)
    else if !a.mtype && b.mtype then Value(false)
    else LtStep(a.row1, b.row1, LtStep(a.col1, b.col1,
      if a.mtype then (if a.ptype.None? || b.ptype.None? then AttributeError else Value(a.ptype.value < b.ptype.value))
      else LtStep(a.row2, b.row2,
        if a.col2.None? || b.col2.None? then AttributeError else Value(a.col2.value < b.col2.value))))
  }

  /** `__lt__` is irreflexive on every fully decoded move. */
  lemma LtIrreflexive(id: int)
    requires 0 <= id < MC.NumMoves
    ensures Lt(Decode(id), Decode(id)) == Value(false)
  {
  }

  /** On decoded moves `__lt__` is total and antisymmetric: exactly one of a < b, b < a, a == b. */
  lemma {:induction false} LtTrichotomy(i: int, j: int)
    requires 0 <= i < MC.NumMoves && 0 <= j < MC.NumMoves
    ensures Lt(Decode(i), Decode(j)).Value? && Lt(Decode(j), Decode(i)).Value?
    ensures i != j <==> (Lt(Decode(i), Decode(j)).v != Lt(Decode(j), Decode(i)).v)
  {
    EqDecodedIffSameId(i, j);
    DecodeAgreesWithCurrent(i);
    DecodeAgreesWithCurrent(j);
    if Decode(i).mtype == Decode(j).mtype {
      LtAgreesWithEq(Decode(i), Decode(j));
    }
  }

  /** Two moves of one kind with every compared attribute set: one is below the other exactly when they differ. */
  lemma LtAgreesWithEq(a: PyMove, b: PyMove)
    requires a.mtype == b.mtype && a.row1.Some? && a.col1.Some? && b.row1.Some? && b.col1.Some?
    requires a.mtype ==> a.ptype.Some? && b.ptype.Some?
    requires !a.mtype ==> a.row2.Some? && a.col2.Some? && b.row2.Some? && b.col2.Some?
    ensures Lt(a, b).Value? && Lt(b, a).Value? && Eq(a, b).Value?
    ensures Lt(a, b).v != Lt(b, a).v <==> !Eq(a, b).v
  {
  }

  /** Python's `str` of a natural number: its decimal digits. */
  function Decimal(n: nat): (s: string)
    ensures |s| >= 1 && (n <= 9 <==> |s| == 1)
    decreases n
  {
    if n <= 9 then [DigitChar(n)] else Decimal(n / 10) + [DigitChar(n % 10)]
  }

  /** `str` of an attribute, which raises when the attribute was never set. */
  function Digit(o: Option<int>): Py<string>
  {
    if o.None? then AttributeError
    else if o.value < 0 then Value("-" + Decimal(-o.value))
    else Value(Decimal(o.value))
  }

  function Cat(p: Py<string>, q: Py<string>): Py<string>
  {
    if p.AttributeError? || q.AttributeError? then AttributeError else Value(p.v + q.v)
  }

  /** `__str__`: "P", tier letter, row1, col1 for placements; "M", row1, col1, direction for slides. */
  function Str(m: PyMove): (r: Py<string>)
    ensures m.mtype && m.row1.None? ==> r == AttributeError
  {
    if m.mtype then
      Cat(Value("P" + (if m.ptype == Some(0) then "B" else if m.ptype == Some(1) then "C"
                       else if m.ptype == Some(2) then "A" else "")),
          Cat(Digit(m.row1), Digit(m.col1)))
    else
      Cat(Value("M"), Cat(Digit(m.row1), Cat(Digit(m.col1),
        if m.row1.None? || m.row2.None? || m.col1.None? || m.col2.None? then AttributeError
        else Value(
          if m.row2.value - m.row1.value == 1 then "D" else if m.row2.value - m.row1.value == -1 then "U"
          else if m.col2.value - m.col1.value == 1 then "R" else if m.col2.value - m.col1.value == -1 then "L"
          else ""))))
  }

  /** Every decoded slide prints as four characters whose last one is its block's direction. */
  lemma StrSlide(id: int)
    requires 0 <= id < 48
    ensures Str(Decode(id)).Value? && |Str(Decode(id)).v| == 4
    ensures Str(Decode(id)).v[3] == (if id < 12 then 'R' else if id < 24 then 'D' else if id < 36 then 'L' else 'U')
  {
    SlidesAdjacent(id);
  }

  /** As written, printing any decoded placement raises; corrected, it prints four characters. */
  lemma StrPlacement(id: int)
    requires 48 <= id < MC.NumMoves
    ensures Str(DecodeAsWritten(id)) == AttributeError
    ensures Str(Decode(id)).Value? && |Str(Decode(id)).v| == 4
  {
  }
}
