/**
 * The move codec of the current engine: 96 action indices, 0-47 slides in
 * four direction blocks of twelve (Right, Down, Left, Up) and 48-95
 * placements (three tiers times sixteen cells).
 */
module MoveCodec {
  import opened Common

  const NumMoves := 96

  datatype Space = Space(row: int, col: int)

  predicate OnBoard(s: Space) { 0 <= s.row < 4 && 0 <= s.col < 4 }

  /** Orthogonal neighbours. */
  predicate Adjacent(a: Space, b: Space)
  {
    (a.row == b.row && (a.col + 1 == b.col || a.col - 1 == b.col)) ||
    (a.col == b.col && (a.row + 1 == b.row || a.row - 1 == b.row))
  }

  /**
   * A decoded move. A placement only records its target square: the
   * placement constructors never set the source square.
   */
  datatype Move =
    | Place(pieceType: int, spaceTo: Space)
    | Slide(spaceFrom: Space, spaceTo: Space)

  predicate ValidMove(m: Move)
  {
    match m
    case Place(t, to) => 0 <= t < 3 && OnBoard(to)
    case Slide(from, to) => OnBoard(from) && OnBoard(to) && Adjacent(from, to)
  }

  /** The decoding constructor `Move(id)`; the source asserts the id range. */
  function Decode(id: int): (m: Move)
    requires 0 <= id < NumMoves
    ensures ValidMove(m)
    ensures m.Place? <==> id >= 48
    ensures m.Place? ==> m.pieceType == (id - 48) / 16
    ensures id < 12 ==> m.spaceTo == m.spaceFrom.(col := m.spaceFrom.col + 1)
    ensures 12 <= id < 24 ==> m.spaceTo == m.spaceFrom.(row := m.spaceFrom.row + 1)
    ensures 24 <= id < 36 ==> m.spaceTo == m.spaceFrom.(col := m.spaceFrom.col - 1)
    ensures 36 <= id < 48 ==> m.spaceTo == m.spaceFrom.(row := m.spaceFrom.row - 1)
  {
    if id >= 48 then Place((id - 48) / 16, Space((id % 16) / 4, id % 4))
    else if id < 12 then Slide(Space(id / 3, id % 3), Space(id / 3, id % 3 + 1))
    else if id < 24 then Slide(Space((id - 12) / 4, id % 4), Space((id - 12) / 4 + 1, id % 4))
    else if id < 36 then Slide(Space((id - 24) / 3, id % 3 + 1), Space((id - 24) / 3, id % 3))
    else Slide(Space((id - 36) / 4 + 1, id % 4), Space((id - 36) / 4, id % 4))
  }

  /** `encodePlace`: the index of placing tier `t` on `s`. */
  function EncodePlace(s: Space, t: int): (id: int)
    requires OnBoard(s) && 0 <= t < 3
    ensures 48 <= id < NumMoves
    ensures (id - 48) / 16 == t && (id % 16) / 4 == s.row && id % 4 == s.col
  {
    48 + t * 16 + s.row * 4 + s.col
  }

  /**
   * `encodeMove`: the index of a slide. Its asserts demand that the target is
   * the neighbour in the direction the branch classifies.
   */
  function EncodeMove(from: Space, to: Space): (id: int)
    requires OnBoard(from) && OnBoard(to) && Adjacent(from, to)
    ensures 0 <= id < 48
    ensures from.col < to.col <==> id < 12
    ensures from.row < to.row <==> 12 <= id < 24
    ensures from.col > to.col <==> 24 <= id < 36
    ensures from.row > to.row <==> 36 <= id < 48
  {
    if from.col < to.col then from.row * 3 + from.col
    else if from.row < to.row then 12 + from.row * 4 + from.col
    else if from.col > to.col then 24 + from.row * 3 + (from.col - 1)
    else 36 + (from.row - 1) * 4 + from.col
  }

  /** Encoding a decoded index gives the index back. */
  lemma DecodeEncode(id: int)
    requires 0 <= id < NumMoves
    ensures Decode(id).Place? ==> EncodePlace(Decode(id).spaceTo, Decode(id).pieceType) == id
    ensures Decode(id).Slide? ==> EncodeMove(Decode(id).spaceFrom, Decode(id).spaceTo) == id
  {
    if id >= 48 {
      DecodeEncodePlace(id);
    } else {
      DecodeEncodeSlide(id);
    }
  }

  lemma DecodeEncodePlace(id: int)
    requires 48 <= id < NumMoves
    ensures EncodePlace(Decode(id).spaceTo, Decode(id).pieceType) == id
  {
    var r := (id - 48) % 16;
    assert id % 16 == r;
    assert r == 4 * (r / 4) + id % 4;
    assert Decode(id) == Place((id - 48) / 16, Space(r / 4, id % 4));
  }

  lemma DecodeEncodeSlide(id: int)
    requires 0 <= id < 48
    ensures EncodeMove(Decode(id).spaceFrom, Decode(id).spaceTo) == id
  {
    if id < 12 {
      assert id == 3 * (id / 3) + id % 3;
      assert Decode(id) == Slide(Space(id / 3, id % 3), Space(id / 3, id % 3 + 1));
    } else if id < 24 {
      assert id - 12 == 4 * ((id - 12) / 4) + id % 4;
      assert Decode(id) == Slide(Space((id - 12) / 4, id % 4), Space((id - 12) / 4 + 1, id % 4));
    } else if id < 36 {
      assert id - 24 == 3 * ((id - 24) / 3) + id % 3;
      assert Decode(id) == Slide(Space((id - 24) / 3, id % 3 + 1), Space((id - 24) / 3, id % 3));
    } else {
      assert id - 36 == 4 * ((id - 36) / 4) + id % 4;
      assert Decode(id) == Slide(Space((id - 36) / 4 + 1, id % 4), Space((id - 36) / 4, id % 4));
    }
  }

  /** Distinct indices decode to distinct moves. */
  lemma DecodeInjective(i: int, j: int)
    requires 0 <= i < NumMoves && 0 <= j < NumMoves
    ensures Decode(i) == Decode(j) <==> i == j
  {
    if Decode(i) == Decode(j) {
      DecodeEncode(i);
      DecodeEncode(j);
    }
  }

  /** Decoding an encoded placement gives the placement back. */
  lemma EncodePlaceDecode(s: Space, t: int)
    requires OnBoard(s) && 0 <= t < 3
    ensures Decode(EncodePlace(s, t)) == Place(t, s)
  {
  }

  /** Decoding an encoded slide gives the slide back. */
  lemma EncodeMoveDecode(from: Space, to: Space)
    requires OnBoard(from) && OnBoard(to) && Adjacent(from, to)
    ensures Decode(EncodeMove(from, to)) == Slide(from, to)
  {
  }

  /** Every valid move has an index; with `DecodeInjective`, exactly one. */
  lemma DecodeSurjective(m: Move)
    requires ValidMove(m)
    ensures exists id :: 0 <= id < NumMoves && Decode(id) == m
  {
    match m
    case Place(t, s) =>
      EncodePlaceDecode(s, t);
      assert Decode(EncodePlace(s, t)) == m;
    case Slide(from, to) =>
      EncodeMoveDecode(from, to);
      assert Decode(EncodeMove(from, to)) == m;
  }

  /** `getColName`: 'a'..'d' for the four columns, ' ' after the failed assert. */
  function ColName(col: int): (c: char)
    ensures 0 <= col < 4 <==> 'a' <= c <= 'd'
    ensures 0 <= col < 4 ==> c as int - 'a' as int == col
    ensures !(0 <= col < 4) ==> c == ' '
  {
    match col
    case 0 => 'a'
    case 1 => 'b'
    case 2 => 'c'
    case 3 => 'd'
    case _ => ' '
  }

  function TierLetter(t: int): (s: string)
    ensures 0 <= t < 3 <==> |s| == 1
  {
    if t == 0 then "B" else if t == 1 then "C" else if t == 2 then "A" else ""
  }

  /** The algebraic name of a square: column letter, then rank 4 - row. */
  function SquareName(s: Space): (r: string)
    requires OnBoard(s)
    ensures |r| == 2 && 'a' <= r[0] <= 'd' && '1' <= r[1] <= '4'
    ensures r[0] as int - 'a' as int == s.col && 4 - (r[1] as int - '0' as int) == s.row
  {
    [ColName(s.col), DigitChar(4 - s.row)]
  }

  /**
   * Slide notation: the source square, then L, R, U or D from where the
   * target lies relative to it.
   */
  function SlideNotation(from: Space, to: Space): (r: string)
    requires OnBoard(from)
    ensures |r| == 3 && r[..2] == SquareName(from)
    ensures r[2] == 'L' <==> to.col < from.col
    ensures r[2] == 'R' <==> to.col > from.col
    ensures r[2] == 'U' <==> to.col == from.col && to.row < from.row
    ensures r[2] == 'D' <==> to.col == from.col && to.row >= from.row
  {
    SquareName(from) +
      [if to.col < from.col then 'L' else if to.col > from.col then 'R'
       else if to.row < from.row then 'U' else 'D']
  }

  /**
   * Placement notation as the printer writes it: the tier letter followed by
   * the name of `spaceFrom_`, a field a placement never sets. `unset` stands
   * for whatever that field holds.
   */
  function PlaceNotationAsWritten(t: int, unset: Space): (r: string)
    requires 0 <= t < 3 && OnBoard(unset)
    ensures |r| == 3 && r[1..] == SquareName(unset)
  {
    TierLetter(t) + SquareName(unset)
  }

  /** Placement notation naming the target square. */
  function PlaceNotation(t: int, to: Space): (r: string)
    requires 0 <= t < 3 && OnBoard(to)
    ensures |r| == 3 && r[1..] == SquareName(to)
    ensures r[0] == "BCA"[t]
  {
    TierLetter(t) + SquareName(to)
  }

  /** The notation of a valid move; placements name their target. */
  function Notation(m: Move): (r: string)
    requires ValidMove(m)
    ensures |r| == 3
  {
    match m
    case Place(t, to) => PlaceNotation(t, to)
    case Slide(from, to) => SlideNotation(from, to)
  }

  /**
   * As written, the printed square of a placement does not depend on the
   * placement: two placements to different squares print the same when the
   * unset field holds the same value, here index 48 (base on a4) and index
   * 53 (base on b3) both print "Ba4".
   */
  lemma PlaceNotationIgnoresTarget()
    ensures Decode(48) == Place(0, Space(0, 0)) && Decode(53) == Place(0, Space(1, 1))
    ensures PlaceNotationAsWritten(0, Space(0, 0)) == "Ba4"
    ensures PlaceNotation(0, Space(1, 1)) == "Bb3"
  {
  }

  /** The corrected placement notation tells every placement apart. */
  lemma PlaceNotationInjective(i: int, j: int)
    requires 48 <= i < NumMoves && 48 <= j < NumMoves
    ensures Notation(Decode(i)) == Notation(Decode(j)) <==> i == j
  {
    var a, b := Decode(i), Decode(j);
    if Notation(a) == Notation(b) {
      assert a.pieceType == b.pieceType by {
        assert Notation(a)[0] == Notation(b)[0];
      }
      assert a.spaceTo == b.spaceTo by {
        assert SquareName(a.spaceTo) == Notation(a)[1..] == Notation(b)[1..] == SquareName(b.spaceTo);
      }
      DecodeEncode(i);
      DecodeEncode(j);
    }
  }

  /** Move 0 prints "a4R". */
  lemma FirstMoveNotation()
    ensures Notation(Decode(0)) == "a4R"
  {
  }

  /** Every slide prints the direction of its index block. */
  lemma SlideNotationDirection(id: int)
    requires 0 <= id < 48
    ensures Notation(Decode(id))[2] == (if id < 12 then 'R' else if id < 24 then 'D' else if id < 36 then 'L' else 'U')
  {
  }
}
