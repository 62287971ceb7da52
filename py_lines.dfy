/**
 * Line detection of the Python prototype boards. Both prototypes read the
 * sixteen cell tops (-1 for an empty cell) and record each line as a tag and
 * the tier it is made of: a row, column or long diagonal is tagged by its
 * name and "b", "l"/"u" or "r"/"d" for which ends join the middle pair, a
 * short diagonal by its name alone.
 */
module PyLines {

  datatype Line = Line(tag: string, tier: int)

  /**
   * A row, column or long diagonal with ends `a`, `d` and middle cells `b`,
   * `c`: it stands when the middle tops are equal and present and at least
   * one end joins them.
   */
  function FourLine(name: string, a: int, b: int, c: int, d: int, first: char, last: char): (ls: seq<Line>)
  {
    if b == c && c > -1 then
      if b == a then
        if b == d then [Line(name + "b", b)] else [Line(name + [first], b)]
      else if b == d then [Line(name + [last], b)]
      else []
    else []
  }

  /** The tag of a four-cell line names which ends join the middle pair, and it carries the middle tier. */
  lemma FourLineCases(name: string, a: int, b: int, c: int, d: int, first: char, last: char)
    ensures |FourLine(name, a, b, c, d, first, last)| <= 1
    ensures |FourLine(name, a, b, c, d, first, last)| == 1 <==> b == c && c > -1 && (a == b || d == b)
    ensures FourLine(name, a, b, c, d, first, last) != [] ==>
      var l := FourLine(name, a, b, c, d, first, last)[0];
      l.tier == b && |l.tag| == |name| + 1 && l.tag[..|name|] == name &&
      l.tag[|name|] == (if a == b && d == b then 'b' else if a == b then first else last)
  {
  }

  /** A short diagonal of three cells stands when its three tops are equal and present. */
  function ThreeLine(name: string, a: int, b: int, c: int): (ls: seq<Line>)
    ensures |ls| <= 1
    ensures ls != [] <==> a == b && b == c && a > -1
    ensures ls != [] ==> ls[0] == Line(name, a)
  {
    if a == b && b == c && c > -1 then [Line(name, a)] else []
  }

  /** The top of the cell at (row, col) in a row-major list of sixteen tops. */
  function At(tops: seq<int>, row: int, col: int): int
    requires |tops| == 16 && 0 <= row < 4 && 0 <= col < 4
  {
    tops[row * 4 + col]
  }

  function RowLine(tops: seq<int>, r: int): seq<Line>
    requires |tops| == 16 && 0 <= r < 4
  {
    FourLine(['r', (r + '0' as int) as char], At(tops, r, 0), At(tops, r, 1), At(tops, r, 2), At(tops, r, 3), 'l', 'r')
  }

  function ColumnLine(tops: seq<int>, c: int): seq<Line>
    requires |tops| == 16 && 0 <= c < 4
  {
    FourLine(['c', (c + '0' as int) as char], At(tops, 0, c), At(tops, 1, c), At(tops, 2, c), At(tops, 3, c), 'u', 'd')
  }

  /**
   * The `i`-th check of `get_lines`: the four rows, the four columns, the
   * two long diagonals, then the four short diagonals.
   */
  function Check(tops: seq<int>, i: int): (ls: seq<Line>)
    requires |tops| == 16 && 0 <= i < 14
    ensures |ls| <= 1
  {
    if i < 4 then RowLine(tops, i)
    else if i < 8 then ColumnLine(tops, i - 4)
    else if i == 8 then FourLine("d0", At(tops, 0, 0), At(tops, 1, 1), At(tops, 2, 2), At(tops, 3, 3), 'u', 'd')
    else if i == 9 then FourLine("d1", At(tops, 0, 3), At(tops, 1, 2), At(tops, 2, 1), At(tops, 3, 0), 'u', 'd')
    else if i == 10 then ThreeLine("s0", At(tops, 0, 2), At(tops, 1, 1), At(tops, 2, 0))
    else if i == 11 then ThreeLine("s1", At(tops, 0, 1), At(tops, 1, 2), At(tops, 2, 3))
    else if i == 12 then ThreeLine("s2", At(tops, 1, 3), At(tops, 2, 2), At(tops, 3, 1))
    else ThreeLine("s3", At(tops, 1, 0), At(tops, 2, 1), At(tops, 3, 2))
  }

  /** The lines the first `n` checks record, in order. */
  function LinesUpTo(tops: seq<int>, n: int): (ls: seq<Line>)
    requires |tops| == 16 && 0 <= n <= 14
    ensures |ls| <= n
  {
    if n == 0 then [] else LinesUpTo(tops, n - 1) + Check(tops, n - 1)
  }

  /** `get_lines`: every check in order. */
  function Lines(tops: seq<int>): (ls: seq<Line>)
    requires |tops| == 16
    ensures |ls| <= 14
  {
    LinesUpTo(tops, 14)
  }

  /**
   * The shape of every recorded line: a kind letter, a digit naming the row,
   * column or diagonal, an end letter for the four-cell kinds, and a present
   * tier.
   */
  predicate Tagged(l: Line)
  {
    0 <= l.tier <= 2 && |l.tag| >= 2 && l.tag[0] in "rcds" && '0' <= l.tag[1] <= '3' &&
    (l.tag[0] == 's' || |l.tag| == 3) && (l.tag[0] == 'd' ==> l.tag[1] <= '1')
  }

  lemma CheckTagged(tops: seq<int>, i: int)
    requires |tops| == 16 && 0 <= i < 14 && forall k | 0 <= k < 16 :: -1 <= tops[k] <= 2
    ensures forall l | l in Check(tops, i) :: Tagged(l)
  {
    if i < 4 {
      FourLineCases(['r', (i + '0' as int) as char], At(tops, i, 0), At(tops, i, 1), At(tops, i, 2), At(tops, i, 3), 'l', 'r');
    } else if i < 8 {
      var c := i - 4;
      FourLineCases(['c', (c + '0' as int) as char], At(tops, 0, c), At(tops, 1, c), At(tops, 2, c), At(tops, 3, c), 'u', 'd');
    } else if i == 8 {
      FourLineCases("d0", At(tops, 0, 0), At(tops, 1, 1), At(tops, 2, 2), At(tops, 3, 3), 'u', 'd');
    } else if i == 9 {
      FourLineCases("d1", At(tops, 0, 3), At(tops, 1, 2), At(tops, 2, 1), At(tops, 3, 0), 'u', 'd');
    }
  }

  lemma {:induction false} LinesUpToTagged(tops: seq<int>, n: int)
    requires |tops| == 16 && 0 <= n <= 14 && forall k | 0 <= k < 16 :: -1 <= tops[k] <= 2
    ensures forall l | l in LinesUpTo(tops, n) :: Tagged(l)
  {
    if n > 0 {
      LinesUpToTagged(tops, n - 1);
      CheckTagged(tops, n - 1);
    }
  }

  /** Every recorded line has the shape `Tagged` describes. */
  lemma LinesTagged(tops: seq<int>)
    requires |tops| == 16 && forall k | 0 <= k < 16 :: -1 <= tops[k] <= 2
    ensures forall l | l in Lines(tops) :: Tagged(l)
  {
    LinesUpToTagged(tops, 14);
  }

  lemma {:induction false} EmptyUpTo(tops: seq<int>, n: int)
    requires |tops| == 16 && 0 <= n <= 14 && forall k | 0 <= k < 16 :: tops[k] == -1
    ensures LinesUpTo(tops, n) == []
  {
    if n > 0 {
      EmptyUpTo(tops, n - 1);
    }
  }

  /** A board of empty cells has no line. */
  lemma EmptyBoardNoLines(tops: seq<int>)
    requires |tops| == 16 && forall k | 0 <= k < 16 :: tops[k] == -1
    ensures Lines(tops) == []
  {
    EmptyUpTo(tops, 14);
  }
}
