/**
 * The rules engine of the current engine. The board is 64 bits: the cell at
 * (row, col) owns bits row*16 + col*4 + t, where t = 0, 1, 2 are the base,
 * column and capital tiers and t = 3 is the frozen flag. Six inventory
 * counts follow (three per player) and the player to move.
 */
module GameRules {
  import opened Common
  import MC = MoveCodec

  const BoardBits := 64
  const GameStateSize := 70
  const NumLines := 102
  const Frozen := 3

  // Line groups: the row and column groups take indices G*12 + i*3 + tier,
  // the diagonal groups 72 + G*3 + tier.
  const RL := 0
  const RR := 1
  const RB := 2
  const CU := 3
  const CD := 4
  const CB := 5
  const D0U := 0
  const D0D := 1
  const D0B := 2
  const D1U := 3
  const D1D := 4
  const D1B := 5
  const S0 := 6
  const S1 := 7
  const S2 := 8
  const S3 := 9

  datatype GameState = GameState(board: seq<bool>, toPlay: int, pieces: seq<int>)

  /** A 64-bit board, a player 0 or 1 and six inventory counts. */
  predicate Shaped(g: GameState)
  {
    |g.board| == BoardBits && (g.toPlay == 0 || g.toPlay == 1) && |g.pieces| == 6
  }

  /** What the state constructor asserts: a well-shaped state with inventories in 0..4. */
  predicate ValidState(g: GameState)
  {
    Shaped(g) && forall i | 0 <= i < 6 :: 0 <= g.pieces[i] <= 4
  }

  /** `Space{a, b, transpose}`: (a, b), or (b, a) when transposed. */
  function Cell(a: int, b: int, transpose: bool): (s: MC.Space)
    ensures s.row == (if transpose then b else a) && s.col == (if transpose then a else b)
  {
    if transpose then MC.Space(b, a) else MC.Space(a, b)
  }

  function Bit(s: MC.Space, t: int): (k: int)
    requires MC.OnBoard(s) && 0 <= t < 4
    ensures 0 <= k < BoardBits
  {
    s.row * 16 + s.col * 4 + t
  }

  /** A bit index gives back its cell and flag. */
  lemma BitParts(s: MC.Space, t: int)
    requires MC.OnBoard(s) && 0 <= t < 4
    ensures Bit(s, t) / 16 == s.row && (Bit(s, t) % 16) / 4 == s.col && Bit(s, t) % 4 == t
  {
  }

  /** Every bit index belongs to exactly one cell and flag. */
  lemma BitOf(k: int)
    requires 0 <= k < BoardBits
    ensures MC.OnBoard(MC.Space(k / 16, (k % 16) / 4))
    ensures Bit(MC.Space(k / 16, (k % 16) / 4), k % 4) == k
  {
    assert k % 16 == 4 * ((k % 16) / 4) + k % 4;
  }

  predicate Has(g: GameState, s: MC.Space, t: int)
    requires Shaped(g) && MC.OnBoard(s) && 0 <= t < 3
  {
    g.board[Bit(s, t)]
  }

  predicate IsFrozen(g: GameState, s: MC.Space)
    requires Shaped(g) && MC.OnBoard(s)
  {
    g.board[Bit(s, Frozen)]
  }

  predicate Empty(g: GameState, s: MC.Space)
    requires Shaped(g) && MC.OnBoard(s)
  {
    !(Has(g, s, 0) || Has(g, s, 1) || Has(g, s, 2))
  }

  /** `top`: the highest tier present, -1 for an empty cell. */
  function Top(g: GameState, s: MC.Space): (r: int)
    requires Shaped(g) && MC.OnBoard(s)
    ensures -1 <= r < 3
  {
    TopFrom(g, s, 2)
  }

  /** The loop of `top` from tier t downwards. */
  function TopFrom(g: GameState, s: MC.Space, t: int): (r: int)
    requires Shaped(g) && MC.OnBoard(s) && -1 <= t < 3
    ensures -1 <= r <= t
    decreases t + 1
  {
    if t < 0 then -1 else if Has(g, s, t) then t else TopFrom(g, s, t - 1)
  }

  /** `top` is -1 exactly on an empty cell, otherwise a present tier with nothing above it. */
  lemma TopMeaning(g: GameState, s: MC.Space)
    requires Shaped(g) && MC.OnBoard(s)
    ensures Top(g, s) == -1 <==> Empty(g, s)
    ensures Top(g, s) >= 0 ==> Has(g, s, Top(g, s)) && forall t | Top(g, s) < t < 3 :: !Has(g, s, t)
  {
  }

  /** `bottom`: the lowest tier present, 3 for an empty cell. */
  function Bottom(g: GameState, s: MC.Space): (r: int)
    requires Shaped(g) && MC.OnBoard(s)
    ensures 0 <= r <= 3
  {
    BottomFrom(g, s, 0)
  }

  /** The loop of `bottom` from tier t upwards. */
  function BottomFrom(g: GameState, s: MC.Space, t: int): (r: int)
    requires Shaped(g) && MC.OnBoard(s) && 0 <= t <= 3
    ensures t <= r <= 3
    decreases 3 - t
  {
    if t == 3 then 3 else if Has(g, s, t) then t else BottomFrom(g, s, t + 1)
  }

  /** `bottom` is 3 exactly on an empty cell, otherwise a present tier with nothing below it. */
  lemma BottomMeaning(g: GameState, s: MC.Space)
    requires Shaped(g) && MC.OnBoard(s)
    ensures Bottom(g, s) == 3 <==> Empty(g, s)
    ensures Bottom(g, s) < 3 ==> Has(g, s, Bottom(g, s)) && forall t | 0 <= t < Bottom(g, s) :: !Has(g, s, t)
  {
  }

  /** `canPlace`, checking in the source's order. */
  predicate CanPlace(g: GameState, t: int, s: MC.Space)
    requires Shaped(g) && MC.OnBoard(s) && 0 <= t < 3
  {
    if g.pieces[g.toPlay * 3 + t] == 0 then false
    else if Empty(g, s) then true
    else if IsFrozen(g, s) then false
    else if t == 0 then false
    else if t == 1 then !(Has(g, s, 1) || Has(g, s, 2))
    else !(Has(g, s, 2) || (Has(g, s, 0) && !Has(g, s, 1)))
  }

  /**
   * Placement in stacking terms: the mover must hold the piece, and it goes
   * on an empty cell (frozen or not) or directly above the top of an unfrozen
   * stack.
   */
  lemma CanPlaceStacking(g: GameState, t: int, s: MC.Space)
    requires ValidState(g) && MC.OnBoard(s) && 0 <= t < 3
    ensures CanPlace(g, t, s) <==>
      g.pieces[g.toPlay * 3 + t] > 0 && (Empty(g, s) || (!IsFrozen(g, s) && t == Top(g, s) + 1))
  {
  }

  /** `canMove`. */
  predicate CanMove(g: GameState, from: MC.Space, to: MC.Space)
    requires Shaped(g) && MC.OnBoard(from) && MC.OnBoard(to)
  {
    if Empty(g, from) || Empty(g, to) then false
    else if IsFrozen(g, from) || IsFrozen(g, to) then false
    else Bottom(g, from) - Top(g, to) == 1
  }

  /** The placement or slide rule for a decoded move. */
  predicate Allowed(g: GameState, m: MC.Move)
    requires Shaped(g) && MC.ValidMove(m)
  {
    match m
    case Place(t, to) => CanPlace(g, t, to)
    case Slide(from, to) => CanMove(g, from, to)
  }

  /** `isLegalMove`: the rule for the decoded index. */
  predicate IsLegalMove(g: GameState, id: int)
    requires Shaped(g) && 0 <= id < MC.NumMoves
  {
    Allowed(g, MC.Decode(id))
  }

  // ---------------------------------------------------------------------
  // Applying a move

  /** Bits are distinct for distinct (cell, flag) pairs. */
  lemma BitInjective(s: MC.Space, t: int, s2: MC.Space, t2: int)
    requires MC.OnBoard(s) && 0 <= t < 4 && MC.OnBoard(s2) && 0 <= t2 < 4
    ensures Bit(s, t) == Bit(s2, t2) <==> s == s2 && t == t2
  {
    BitParts(s, t);
    BitParts(s2, t2);
  }

  /** The board with the frozen flags of the cells before bit n cleared (n a multiple of four). */
  function ThawedBelow(b: seq<bool>, n: int): (r: seq<bool>)
    requires |b| == BoardBits
    ensures |r| == BoardBits
  {
    seq(BoardBits, k requires 0 <= k < BoardBits => if k % 4 == Frozen && k < n then false else b[k])
  }

  /** Clearing every frozen flag touches only frozen flags. */
  lemma ThawedAt(b: seq<bool>, s: MC.Space, t: int)
    requires |b| == BoardBits && MC.OnBoard(s) && 0 <= t < 4
    ensures ThawedBelow(b, BoardBits)[Bit(s, t)] == (t != Frozen && b[Bit(s, t)])
  {
    BitParts(s, t);
  }

  /** One tier of a slide: the destination takes the union, the source is emptied. */
  function SlideTier(b: seq<bool>, from: MC.Space, to: MC.Space, t: int): (r: seq<bool>)
    requires |b| == BoardBits && MC.OnBoard(from) && MC.OnBoard(to) && 0 <= t < 3
    ensures |r| == BoardBits
  {
    b[Bit(to, t) := b[Bit(from, t)] || b[Bit(to, t)]][Bit(from, t) := false]
  }

  /** The first n tiers of a slide, base first. */
  function SlideTiers(b: seq<bool>, from: MC.Space, to: MC.Space, n: int): (r: seq<bool>)
    requires |b| == BoardBits && MC.OnBoard(from) && MC.OnBoard(to) && 0 <= n <= 3
    ensures |r| == BoardBits
  {
    if n == 0 then b else SlideTier(SlideTiers(b, from, to, n - 1), from, to, n - 1)
  }

  /** A slide's tiers touch only the tier bits of its two cells. */
  lemma {:induction false} SlideTiersAt(b: seq<bool>, from: MC.Space, to: MC.Space, n: int, s: MC.Space, t: int)
    requires |b| == BoardBits && MC.OnBoard(from) && MC.OnBoard(to) && from != to && 0 <= n <= 3
    requires MC.OnBoard(s) && 0 <= t < 4
    ensures SlideTiers(b, from, to, n)[Bit(s, t)] ==
      if t >= n then b[Bit(s, t)]
      else if s == to then b[Bit(from, t)] || b[Bit(to, t)]
      else if s == from then false
      else b[Bit(s, t)]
    decreases n
  {
    if n > 0 {
      SlideTiersAt(b, from, to, n - 1, s, t);
      SlideTiersAt(b, from, to, n - 1, from, n - 1);
      SlideTiersAt(b, from, to, n - 1, to, n - 1);
      BitInjective(s, t, to, n - 1);
      BitInjective(s, t, from, n - 1);
      BitInjective(from, n - 1, to, n - 1);
    }
  }

  /** `doMove` on a decoded move: every frozen flag cleared, the move applied, its target frozen. */
  function Play(g: GameState, m: MC.Move): (h: GameState)
    requires Shaped(g) && MC.ValidMove(m)
    ensures |h.board| == BoardBits && |h.pieces| == 6 && h.toPlay == 1 - g.toPlay
  {
    var thawed := ThawedBelow(g.board, BoardBits);
    match m
    case Place(t, to) =>
      var i := g.toPlay * 3 + t;
      GameState(thawed[Bit(to, t) := true][Bit(to, Frozen) := true], 1 - g.toPlay, g.pieces[i := g.pieces[i] - 1])
    case Slide(from, to) =>
      GameState(SlideTiers(thawed, from, to, 3)[Bit(to, Frozen) := true], 1 - g.toPlay, g.pieces)
  }

  /** The state after `doMove(id)`. */
  function AfterMove(g: GameState, id: int): (h: GameState)
    requires Shaped(g) && 0 <= id < MC.NumMoves && IsLegalMove(g, id)
    ensures |h.board| == BoardBits && |h.pieces| == 6 && h.toPlay == 1 - g.toPlay
  {
    Play(g, MC.Decode(id))
  }

  /** Reading one cell's flag of the board after a placement. */
  lemma PlayPlaceAt(g: GameState, pt: int, to: MC.Space, s: MC.Space, t: int)
    requires Shaped(g) && MC.ValidMove(MC.Place(pt, to))
    requires MC.OnBoard(s) && 0 <= t < 4
    ensures Play(g, MC.Place(pt, to)).board[Bit(s, t)] ==
      if t == Frozen then s == to else (s == to && t == pt) || g.board[Bit(s, t)]
  {
    ThawedAt(g.board, s, t);
    BitInjective(s, t, to, Frozen);
    BitInjective(s, t, to, pt);
  }

  /** Reading one cell's flag of the board after a slide. */
  lemma PlaySlideAt(g: GameState, from: MC.Space, to: MC.Space, s: MC.Space, t: int)
    requires Shaped(g) && MC.ValidMove(MC.Slide(from, to))
    requires MC.OnBoard(s) && 0 <= t < 4
    ensures Play(g, MC.Slide(from, to)).board[Bit(s, t)] ==
      if t == Frozen then s == to
      else if s == to then g.board[Bit(from, t)] || g.board[Bit(s, t)]
      else if s == from then false
      else g.board[Bit(s, t)]
  {
    var thawed := ThawedBelow(g.board, BoardBits);
    BitInjective(s, t, to, Frozen);
    SlideTiersAt(thawed, from, to, 3, s, t);
    ThawedAt(g.board, s, t);
    if t < 3 {
      ThawedAt(g.board, from, t);
      ThawedAt(g.board, to, t);
    }
  }

  /** After `doMove` exactly the destination is frozen. */
  lemma PlayFreezesTarget(g: GameState, m: MC.Move)
    requires Shaped(g) && MC.ValidMove(m)
    ensures forall s | MC.OnBoard(s) :: Play(g, m).board[Bit(s, Frozen)] <==> s == m.spaceTo
  {
    forall s | MC.OnBoard(s) ensures Play(g, m).board[Bit(s, Frozen)] <==> s == m.spaceTo {
      match m
      case Place(pt, to) => PlayPlaceAt(g, pt, to, s, Frozen);
      case Slide(from, to) => PlaySlideAt(g, from, to, s, Frozen);
    }
  }

  /**
   * `doMove` keeps the state valid, flips the player, leaves only the
   * destination frozen, spends exactly one piece on a placement and none on a
   * slide.
   */
  lemma PlayValid(g: GameState, m: MC.Move)
    requires ValidState(g) && MC.ValidMove(m) && Allowed(g, m)
    ensures ValidState(Play(g, m))
    ensures Play(g, m).toPlay == 1 - g.toPlay
    ensures forall s | MC.OnBoard(s) :: IsFrozen(Play(g, m), s) <==> s == m.spaceTo
    ensures m.Place? ==>
      var i := g.toPlay * 3 + m.pieceType;
      Play(g, m).pieces[i] == g.pieces[i] - 1 &&
      forall j | 0 <= j < 6 && j != i :: Play(g, m).pieces[j] == g.pieces[j]
    ensures m.Slide? ==> Play(g, m).pieces == g.pieces
  {
    var h := Play(g, m);
    if m.Place? {
      var i := g.toPlay * 3 + m.pieceType;
      assert g.pieces[i] > 0;
      assert h.pieces == g.pieces[i := g.pieces[i] - 1];
    }
    assert Shaped(h);
    PlayFreezesTarget(g, m);
  }

  /**
   * In stacking terms: a placement puts its tier on top of the target; a
   * slide stacks the source on the destination, so the destination keeps its
   * bottom, takes the source's top, and the source is left empty. No other
   * cell changes.
   */
  lemma PlayStacks(g: GameState, m: MC.Move)
    requires ValidState(g) && MC.ValidMove(m) && Allowed(g, m)
    ensures m.Place? ==> Top(Play(g, m), m.spaceTo) == m.pieceType
    ensures m.Slide? ==> Empty(Play(g, m), m.spaceFrom) &&
                         Top(Play(g, m), m.spaceTo) == Top(g, m.spaceFrom) &&
                         Bottom(Play(g, m), m.spaceTo) == Bottom(g, m.spaceTo)
    ensures forall s, t | MC.OnBoard(s) && 0 <= t < 3 && s != m.spaceTo && (m.Place? || s != m.spaceFrom) ::
      Has(Play(g, m), s, t) == Has(g, s, t)
  {
    var h := Play(g, m);
    match m
    case Place(pt, to) =>
      forall s, t | MC.OnBoard(s) && 0 <= t < 3 ensures Has(h, s, t) == ((s == to && t == pt) || Has(g, s, t)) {
        PlayPlaceAt(g, pt, to, s, t);
      }
      CanPlaceStacking(g, pt, to);
      TopMeaning(g, to);
    case Slide(from, to) =>
      forall s, t | MC.OnBoard(s) && 0 <= t < 3
        ensures Has(h, s, t) == if s == to then Has(g, from, t) || Has(g, to, t)
                                else if s == from then false else Has(g, s, t)
      {
        PlaySlideAt(g, from, to, s, t);
      }
      BottomMeaning(g, from);
      TopMeaning(g, to);
  }

  // ---------------------------------------------------------------------
  // Lines

  /** What a line scan found: the line index to apply (or -1) and the slides it forbids. */
  datatype Scan = Scan(found: bool, line: int, cleared: set<int>)

  predicate GoodScan(sc: Scan)
  {
    (sc.found <==> sc.line >= 0) && sc.line < NumLines && forall j | j in sc.cleared :: 0 <= j < 48
  }

  /**
   * After a capital line that can be extended at coordinate `ec`, slides
   * within the extension row or column whose source has no capital are
   * forbidden.
   */
  function CapitalClears(g: GameState, ec: int, isCol: bool): (c: set<int>)
    requires Shaped(g) && (ec == 0 || ec == 3)
    ensures forall j | j in c :: 0 <= j < 48
  {
    set k, j | 0 <= k < 4 && 0 <= j < 4 && (j == k - 1 || j == k + 1) && !Has(g, Cell(k, ec, isCol), 2) ::
      MC.EncodeMove(Cell(k, ec, isCol), Cell(j, ec, isCol))
  }

  /** The tops of four cells in a line, in order. */
  datatype Tops = Tops(t0: int, t1: int, t2: int, t3: int)

  /** The four tops of row (or column) i. */
  function LineTops(g: GameState, i: int, isCol: bool): (ts: Tops)
    requires Shaped(g) && 0 <= i < 4
  {
    Tops(Top(g, Cell(i, 0, isCol)), Top(g, Cell(i, 1, isCol)), Top(g, Cell(i, 2, isCol)), Top(g, Cell(i, 3, isCol)))
  }

  /** Three equal, non-empty tops in a row of four, middle pair included. */
  predicate LineOfFour(ts: Tops)
  {
    ts.t1 != -1 && ts.t1 == ts.t2 && (ts.t0 == ts.t1 || ts.t2 == ts.t3)
  }

  /**
   * Where a line lies among four tops: -1 for none, 0 for the first three,
   * 1 for the last three, 2 for all four. The source tests the middle pair
   * first, then all four, then each end.
   */
  function LineKind(ts: Tops): (k: int)
    ensures -1 <= k <= 2
    ensures k >= 0 <==> LineOfFour(ts)
    ensures k == 2 <==> LineOfFour(ts) && ts.t0 == ts.t3
    ensures k == 0 ==> ts.t0 == ts.t1 && ts.t1 == ts.t2 && ts.t2 != ts.t3
    ensures k == 1 ==> ts.t1 == ts.t2 && ts.t2 == ts.t3 && ts.t0 != ts.t1
  {
    if ts.t1 == -1 || ts.t2 == -1 then -1
    else if ts.t0 == ts.t1 && ts.t1 == ts.t2 && ts.t2 == ts.t3 then 2
    else if ts.t0 == ts.t1 && ts.t1 == ts.t2 then 0
    else if ts.t1 == ts.t2 && ts.t2 == ts.t3 then 1
    else -1
  }

  /** One pass of the loop of `applyRowColLines`: what row (or column) i yields. */
  function RowColAt(g: GameState, isCol: bool, i: int): (sc: Scan)
    requires Shaped(g) && 0 <= i < 4
    ensures GoodScan(sc)
    ensures sc.found <==> LineOfFour(LineTops(g, i, isCol))
  {
    var ts := LineTops(g, i, isCol);
    var k := LineKind(ts);
    if k == -1 then Scan(false, -1, {})
    else
      Scan(true, ((if isCol then CU else RL) + k) * 12 + i * 3 + ts.t1,
           if k < 2 && ts.t1 == 2 then CapitalClears(g, if k == 0 then 3 else 0, isCol) else {})
  }

  /** A row or column line index splits back into its group, its row or column and its tier. */
  lemma RowColIndex(grp: int, i: int, t: int)
    requires 0 <= grp < 6 && 0 <= i < 4 && 0 <= t < 3
    ensures var l := grp * 12 + i * 3 + t; l / 12 == grp && l % 12 / 3 == i && l % 3 == t
  {
    var l := grp * 12 + i * 3 + t;
    assert 0 <= i * 3 + t < 12;
    assert l % 12 == i * 3 + t;
  }

  /**
   * A line found in row (column) i is indexed by its group, by i and by the
   * tier of its tops; the group is "both" for four equal tops, otherwise the
   * end of the line the three tops sit at.
   */
  lemma RowColAtLine(g: GameState, isCol: bool, i: int)
    requires Shaped(g) && 0 <= i < 4 && RowColAt(g, isCol, i).found
    ensures var sc, ts := RowColAt(g, isCol, i), LineTops(g, i, isCol);
      sc.line % 12 / 3 == i && sc.line % 3 == ts.t1 &&
      sc.line / 12 == (if ts.t0 == ts.t3 then (if isCol then CB else RB)
                       else if ts.t0 == ts.t1 then (if isCol then CU else RL)
                       else (if isCol then CD else RR))
  {
    var ts := LineTops(g, i, isCol);
    RowColIndex((if isCol then CU else RL) + LineKind(ts), i, ts.t1);
  }

  /** Slides are only ever cleared after a capital line of three. */
  lemma RowColAtClears(g: GameState, isCol: bool, i: int)
    requires Shaped(g) && 0 <= i < 4
    ensures var sc, ts := RowColAt(g, isCol, i), LineTops(g, i, isCol);
      sc.cleared != {} ==> sc.found && ts.t1 == 2 && ts.t0 != ts.t3
  {
  }

  /** The loop of `applyRowColLines` from row (or column) i on: the first row yielding a line. */
  function RowColFrom(g: GameState, isCol: bool, i: int): (sc: Scan)
    requires Shaped(g) && 0 <= i <= 4
    ensures GoodScan(sc)
    decreases 4 - i
  {
    if i == 4 then Scan(false, -1, {})
    else if LineOfFour(LineTops(g, i, isCol)) then RowColAt(g, isCol, i)
    else RowColFrom(g, isCol, i + 1)
  }

  predicate RowColLine(g: GameState, isCol: bool)
    requires Shaped(g)
  {
    exists i | 0 <= i < 4 :: LineOfFour(LineTops(g, i, isCol))
  }

  /**
   * The scan from i finds a line iff some row (column) from i on holds one,
   * and then it is the first such row's line.
   */
  lemma {:induction false} RowColFromFinds(g: GameState, isCol: bool, i: int)
    requires Shaped(g) && 0 <= i <= 4
    ensures RowColFrom(g, isCol, i).found <==> exists k | i <= k < 4 :: LineOfFour(LineTops(g, k, isCol))
    decreases 4 - i
  {
    if i < 4 {
      RowColFromFinds(g, isCol, i + 1);
      if !LineOfFour(LineTops(g, i, isCol)) {
        forall k | i <= k < 4 && LineOfFour(LineTops(g, k, isCol)) ensures i + 1 <= k {
        }
      }
    }
  }

  /** A scan that found no line forbids nothing. */
  lemma {:induction false} RowColFromClears(g: GameState, isCol: bool, i: int)
    requires Shaped(g) && 0 <= i <= 4
    ensures !RowColFrom(g, isCol, i).found ==> RowColFrom(g, isCol, i).cleared == {}
    decreases 4 - i
  {
    if i < 4 && !LineOfFour(LineTops(g, i, isCol)) {
      RowColFromClears(g, isCol, i + 1);
    }
  }

  /** The scan from i reports the line of the first row (column) k from i on holding one. */
  lemma {:induction false} RowColFromFirst(g: GameState, isCol: bool, i: int, k: int)
    requires Shaped(g) && 0 <= i <= k < 4 && LineOfFour(LineTops(g, k, isCol))
    requires forall k' | i <= k' < k :: !LineOfFour(LineTops(g, k', isCol))
    ensures RowColFrom(g, isCol, i) == RowColAt(g, isCol, k)
    decreases k - i
  {
    if i < k {
      RowColFromFirst(g, isCol, i + 1, k);
      assert RowColFrom(g, isCol, i) == RowColFrom(g, isCol, i + 1);
    }
  }

  /** The two long diagonals: flip = false runs (0,0)-(3,3), flip = true (0,3)-(3,0). */
  function DiagTops(g: GameState, flip: bool): (ts: Tops)
    requires Shaped(g)
  {
    if flip then Tops(Top(g, MC.Space(0, 3)), Top(g, MC.Space(1, 2)), Top(g, MC.Space(2, 1)), Top(g, MC.Space(3, 0)))
    else Tops(Top(g, MC.Space(0, 0)), Top(g, MC.Space(1, 1)), Top(g, MC.Space(2, 2)), Top(g, MC.Space(3, 3)))
  }

  function LongDiagOne(g: GameState, flip: bool): (sc: Scan)
    requires Shaped(g)
    ensures GoodScan(sc) && sc.cleared == {}
    ensures sc.found <==> LineOfFour(DiagTops(g, flip))
  {
    var ts := DiagTops(g, flip);
    var k := LineKind(ts);
    if k == -1 then Scan(false, -1, {})
    else Scan(true, 72 + ((if flip then D1U else D0U) + k) * 3 + ts.t1, {})
  }

  /** `applyLongDiagLines`: the first long diagonal holding a line. */
  function LongDiagScan(g: GameState): (sc: Scan)
    requires Shaped(g)
    ensures GoodScan(sc) && sc.cleared == {}
    ensures sc.found <==> LineOfFour(DiagTops(g, false)) || LineOfFour(DiagTops(g, true))
  {
    if LongDiagOne(g, false).found then LongDiagOne(g, false) else LongDiagOne(g, true)
  }

  /** The short diagonals, in the order the source tests them: middle cell first. */
  function ShortDiagCells(n: int): (cs: seq<MC.Space>)
    requires 0 <= n < 4
    ensures |cs| == 3 && forall k | 0 <= k < 3 :: MC.OnBoard(cs[k])
  {
    if n == 0 then [MC.Space(1, 1), MC.Space(0, 2), MC.Space(2, 0)]
    else if n == 1 then [MC.Space(1, 2), MC.Space(0, 1), MC.Space(2, 3)]
    else if n == 2 then [MC.Space(2, 2), MC.Space(1, 3), MC.Space(3, 1)]
    else [MC.Space(2, 1), MC.Space(1, 0), MC.Space(3, 2)]
  }

  predicate ShortDiagLineAt(g: GameState, n: int)
    requires Shaped(g) && 0 <= n < 4
  {
    var cs := ShortDiagCells(n);
    Top(g, cs[0]) != -1 && Top(g, cs[0]) == Top(g, cs[1]) && Top(g, cs[0]) == Top(g, cs[2])
  }

  function ShortDiagFrom(g: GameState, n: int): (sc: Scan)
    requires Shaped(g) && 0 <= n <= 4
    ensures GoodScan(sc) && sc.cleared == {}
    decreases 4 - n
  {
    if n == 4 then Scan(false, -1, {})
    else if ShortDiagLineAt(g, n) then Scan(true, 72 + (S0 + n) * 3 + Top(g, ShortDiagCells(n)[0]), {})
    else ShortDiagFrom(g, n + 1)
  }

  lemma {:induction false} ShortDiagFromFinds(g: GameState, n: int)
    requires Shaped(g) && 0 <= n <= 4
    ensures ShortDiagFrom(g, n).found <==> exists k | n <= k < 4 :: ShortDiagLineAt(g, k)
    decreases 4 - n
  {
    if n < 4 {
      ShortDiagFromFinds(g, n + 1);
    }
  }

  /** Some line stands on the board: a row, a column, a long or a short diagonal. */
  predicate AnyLine(g: GameState)
    requires Shaped(g)
  {
    RowColLine(g, false) || RowColLine(g, true) ||
    LineOfFour(DiagTops(g, false)) || LineOfFour(DiagTops(g, true)) ||
    exists n | 0 <= n < 4 :: ShortDiagLineAt(g, n)
  }

  /** `applyLines` reports a line exactly when one stands somewhere. */
  lemma ScansFindAnyLine(g: GameState)
    requires Shaped(g)
    ensures (RowColFrom(g, false, 0).found || RowColFrom(g, true, 0).found ||
             LongDiagScan(g).found || ShortDiagFrom(g, 0).found) <==> AnyLine(g)
  {
    RowColFromFinds(g, false, 0);
    RowColFromFinds(g, true, 0);
    ShortDiagFromFinds(g, 0);
  }

  /** The line-breaker table: for each of the 102 lines, the moves that may still be played. */
  predicate BreakersShape(breakers: seq<seq<bool>>)
  {
    |breakers| == NumLines && forall l | 0 <= l < NumLines :: |breakers[l]| == MC.NumMoves
  }

  /** A move survives a scan when the applied line's breakers allow it and it was not cleared. */
  predicate Keeps(sc: Scan, breakers: seq<seq<bool>>, j: int)
    requires GoodScan(sc) && BreakersShape(breakers) && 0 <= j < MC.NumMoves
  {
    (sc.found ==> breakers[sc.line][j]) && j !in sc.cleared
  }

  function Apply(mask: seq<bool>, sc: Scan, breakers: seq<seq<bool>>): (r: seq<bool>)
    requires |mask| == MC.NumMoves && GoodScan(sc) && BreakersShape(breakers)
    ensures |r| == MC.NumMoves
    ensures forall j | 0 <= j < MC.NumMoves :: r[j] == (mask[j] && Keeps(sc, breakers, j))
  {
    seq(MC.NumMoves, j requires 0 <= j < MC.NumMoves => mask[j] && Keeps(sc, breakers, j))
  }

  /** A scan that found nothing and cleared nothing changes nothing. */
  lemma ApplyIdle(mask: seq<bool>, sc: Scan, breakers: seq<seq<bool>>)
    requires |mask| == MC.NumMoves && GoodScan(sc) && BreakersShape(breakers)
    requires !sc.found && sc.cleared == {}
    ensures Apply(mask, sc, breakers) == mask
  {
  }

  /** A move no scan of `applyLines` rules out. */
  predicate SurvivesLines(g: GameState, breakers: seq<seq<bool>>, j: int)
    requires Shaped(g) && BreakersShape(breakers) && 0 <= j < MC.NumMoves
  {
    Keeps(RowColFrom(g, false, 0), breakers, j) && Keeps(RowColFrom(g, true, 0), breakers, j) &&
    Keeps(LongDiagScan(g), breakers, j) && Keeps(ShortDiagFrom(g, 0), breakers, j)
  }

  /** The legal-move set `getLegalMoves` computes. */
  function LegalMask(g: GameState, breakers: seq<seq<bool>>): (r: seq<bool>)
    requires Shaped(g) && BreakersShape(breakers)
    ensures |r| == MC.NumMoves
  {
    seq(MC.NumMoves, j requires 0 <= j < MC.NumMoves => SurvivesLines(g, breakers, j) && IsLegalMove(g, j))
  }

  /** Helper for the callers of `LegalMask`: every move left in the mask obeys the move rules. */
  lemma LegalMaskLegal(g: GameState, breakers: seq<seq<bool>>)
    requires Shaped(g) && BreakersShape(breakers)
    ensures forall j | 0 <= j < MC.NumMoves && LegalMask(g, breakers)[j] :: IsLegalMove(g, j)
  {
  }

  /** The three steps of `getLegalMoves` (all set, lines applied, rules applied) give the legal mask. */
  lemma LegalMaskSteps(g: GameState, breakers: seq<seq<bool>>, filtered: seq<bool>, legal: seq<bool>)
    requires Shaped(g) && BreakersShape(breakers)
    requires filtered ==
      Apply(Apply(Apply(Apply(seq(MC.NumMoves, _ => true), RowColFrom(g, false, 0), breakers),
        RowColFrom(g, true, 0), breakers), LongDiagScan(g), breakers), ShortDiagFrom(g, 0), breakers)
    requires |legal| == MC.NumMoves
    requires forall i | 0 <= i < MC.NumMoves :: legal[i] == (filtered[i] && IsLegalMove(g, i))
    ensures legal == LegalMask(g, breakers)
  {
    forall i | 0 <= i < MC.NumMoves ensures legal[i] == LegalMask(g, breakers)[i] {
      assert filtered[i] == SurvivesLines(g, breakers, i);
    }
  }

  /** When no line stands, the legal moves are exactly the moves the rules allow. */
  lemma NoLineNoFilter(g: GameState, breakers: seq<seq<bool>>)
    requires Shaped(g) && BreakersShape(breakers) && !AnyLine(g)
    ensures forall j | 0 <= j < MC.NumMoves :: LegalMask(g, breakers)[j] == IsLegalMove(g, j)
  {
    ScansFindAnyLine(g);
    RowColFromClears(g, false, 0);
    RowColFromClears(g, true, 0);
    forall j | 0 <= j < MC.NumMoves ensures LegalMask(g, breakers)[j] == IsLegalMove(g, j) {
      IdleScansKeep(g, breakers, j);
    }
  }

  /** Scans that found nothing and cleared nothing keep every move the rules allow. */
  lemma IdleScansKeep(g: GameState, breakers: seq<seq<bool>>, j: int)
    requires Shaped(g) && BreakersShape(breakers) && 0 <= j < MC.NumMoves
    requires !RowColFrom(g, false, 0).found && RowColFrom(g, false, 0).cleared == {}
    requires !RowColFrom(g, true, 0).found && RowColFrom(g, true, 0).cleared == {}
    requires !LongDiagScan(g).found && !ShortDiagFrom(g, 0).found
    ensures LegalMask(g, breakers)[j] == IsLegalMove(g, j)
  {
    assert SurvivesLines(g, breakers, j);
  }

  /** The starting position: an empty, unfrozen board, player 0 to move, four of each piece. */
  predicate IsStart(g: GameState)
  {
    |g.board| == BoardBits && (forall k | 0 <= k < BoardBits :: !g.board[k]) &&
    g.toPlay == 0 && g.pieces == [4, 4, 4, 4, 4, 4]
  }

  function Start(): (g: GameState)
    ensures IsStart(g) && ValidState(g)
  {
    GameState(seq(BoardBits, k => false), 0, [4, 4, 4, 4, 4, 4])
  }

  /** Every cell of the starting position is empty and unfrozen. */
  lemma StartEmpty(g: GameState, s: MC.Space)
    requires IsStart(g) && MC.OnBoard(s)
    ensures Shaped(g) && Empty(g, s) && !IsFrozen(g, s) && Top(g, s) == -1
  {
  }

  /** The starting position has no lines. */
  lemma StartNoLine(g: GameState)
    requires IsStart(g)
    ensures Shaped(g) && !AnyLine(g)
  {
    forall i, isCol | 0 <= i < 4 ensures !LineOfFour(LineTops(g, i, isCol)) {
      StartEmpty(g, Cell(i, 1, isCol));
    }
    StartEmpty(g, MC.Space(1, 1));
    StartEmpty(g, MC.Space(1, 2));
    StartEmpty(g, MC.Space(2, 2));
    StartEmpty(g, MC.Space(2, 1));
  }

  /** In the starting position every placement and no slide obeys the move rules. */
  lemma StartRules(g: GameState, j: int)
    requires IsStart(g) && 0 <= j < MC.NumMoves
    ensures Shaped(g) && (IsLegalMove(g, j) <==> j >= 48)
  {
    var m := MC.Decode(j);
    match m
    case Place(t, to) => StartEmpty(g, to);
    case Slide(from, to) => StartEmpty(g, from);
  }

  /** The starting position's legal moves are exactly the 48 placements. */
  lemma StartPosition(g: GameState, breakers: seq<seq<bool>>)
    requires IsStart(g) && BreakersShape(breakers)
    ensures Shaped(g) && forall j | 0 <= j < MC.NumMoves :: LegalMask(g, breakers)[j] <==> j >= 48
  {
    StartMaskIsRules(g, breakers);
    forall j | 0 <= j < MC.NumMoves ensures IsLegalMove(g, j) <==> j >= 48 {
      StartRules(g, j);
    }
  }

  lemma StartMaskIsRules(g: GameState, breakers: seq<seq<bool>>)
    requires IsStart(g) && BreakersShape(breakers)
    ensures Shaped(g) && forall j | 0 <= j < MC.NumMoves :: LegalMask(g, breakers)[j] == IsLegalMove(g, j)
  {
    StartNoLine(g);
    NoLineNoFilter(g, breakers);
  }

  // ---------------------------------------------------------------------
  // The network input

  /** `writeGameState`: the 64 board bits as 0/1, then the inventories with the mover's first, scaled by 1/4. */
  function StateVector(g: GameState): (v: seq<real>)
    requires Shaped(g)
    ensures |v| == GameStateSize
  {
    seq(GameStateSize, i requires 0 <= i < GameStateSize =>
      if i < BoardBits then (if g.board[i] then 1.0 else 0.0)
      else g.pieces[(g.toPlay * 3 + (i - BoardBits)) % 6] as real * 0.25)
  }

  /** The same position seen from the other side: inventories swapped, the other player to move. */
  function Swapped(g: GameState): (h: GameState)
    requires ValidState(g)
    ensures ValidState(h)
  {
    GameState(g.board, 1 - g.toPlay, g.pieces[3..] + g.pieces[..3])
  }

  /**
   * The vector is canonical: it depends on the mover's and the opponent's
   * inventories, not on which player is which.
   */
  lemma StateVectorCanonical(g: GameState)
    requires ValidState(g)
    ensures StateVector(Swapped(g)) == StateVector(g)
  {
    var h := Swapped(g);
    forall i | BoardBits <= i < GameStateSize ensures StateVector(h)[i] == StateVector(g)[i] {
      var k := i - BoardBits;
      assert h.pieces[(h.toPlay * 3 + k) % 6] == g.pieces[(g.toPlay * 3 + k) % 6];
    }
  }

  /** Board bits are copied as 0/1; the mover's inventory comes first, then the opponent's, each scaled by 1/4. */
  lemma StateVectorLayout(g: GameState)
    requires ValidState(g)
    ensures forall i | 0 <= i < BoardBits :: StateVector(g)[i] == 1.0 <==> g.board[i]
    ensures forall i | BoardBits <= i < BoardBits + 3 ::
      StateVector(g)[i] == g.pieces[g.toPlay * 3 + (i - BoardBits)] as real / 4.0
    ensures forall i | BoardBits + 3 <= i < GameStateSize ::
      StateVector(g)[i] == g.pieces[(1 - g.toPlay) * 3 + (i - BoardBits - 3)] as real / 4.0
  {
  }

  // ---------------------------------------------------------------------
  // The mutable game

  class Game {
    var board: array<bool>
    var toPlay: int
    var pieces: array<int>

    ghost predicate Valid()
      reads this, board, pieces
    {
      board.Length == BoardBits && pieces.Length == 6 && ValidState(State())
    }

    function State(): GameState
      reads this, board, pieces
    {
      GameState(board[..], toPlay, pieces[..])
    }

    /** A game holding the given state. */
    constructor FromState(g: GameState)
      requires ValidState(g)
      ensures Valid() && State() == g && fresh(board) && fresh(pieces)
    {
      board := new bool[BoardBits](k requires 0 <= k < BoardBits => g.board[k]);
      pieces := new int[6](k requires 0 <= k < 6 => g.pieces[k]);
      toPlay := g.toPlay;
      new;
      assert board[..] == g.board;
      assert pieces[..] == g.pieces;
    }

    /** `doMove`: reset all frozen flags, apply the placement or slide, switch player. */
    method DoMove(id: int)
      requires Valid() && 0 <= id < MC.NumMoves && IsLegalMove(State(), id)
      modifies this, board, pieces
      ensures board == old(board) && pieces == old(pieces)
      ensures Valid() && State() == AfterMove(old(State()), id)
    {
      var m := MC.Decode(id);
      PlayMove(m);
    }

    /** `doMove` on the decoded move. */
    method PlayMove(m: MC.Move)
      requires Valid() && MC.ValidMove(m) && Allowed(State(), m)
      modifies this, board, pieces
      ensures board == old(board) && pieces == old(pieces)
      ensures Valid() && State() == Play(old(State()), m)
    {
      ghost var g := State();
      match m {
        case Place(t, to) =>
          assert pieces[toPlay * 3 + t] > 0;
          DoPlace(t, to);
        case Slide(from, to) => DoSlide(from, to);
      }
      PlayValid(g, m);
    }

    /** `doMove` for a placement. */
    method DoPlace(t: int, to: MC.Space)
      requires Shaped(State()) && MC.ValidMove(MC.Place(t, to)) && pieces[toPlay * 3 + t] > 0
      modifies this, board, pieces
      ensures board == old(board) && pieces == old(pieces)
      ensures Shaped(State()) && State() == Play(old(State()), MC.Place(t, to))
    {
      ghost var g := State();
      Thaw();
      PlacePiece(t, to);
      toPlay := 1 - toPlay;
      assert State() == Play(g, MC.Place(t, to));
    }

    /** `doMove` for a slide. */
    method DoSlide(from: MC.Space, to: MC.Space)
      requires Shaped(State()) && MC.ValidMove(MC.Slide(from, to))
      modifies this, board, pieces
      ensures board == old(board) && pieces == old(pieces)
      ensures Shaped(State()) && State() == Play(old(State()), MC.Slide(from, to))
    {
      ghost var g := State();
      Thaw();
      SlideStack(from, to);
      board[Bit(to, Frozen)] := true;
      toPlay := 1 - toPlay;
      assert State() == Play(g, MC.Slide(from, to));
    }

    /** The placement branch of `doMove`: spend the piece, put it on the target, freeze the target. */
    method PlacePiece(t: int, to: MC.Space)
      requires Shaped(State()) && MC.OnBoard(to) && 0 <= t < 3 && pieces[toPlay * 3 + t] > 0
      modifies board, pieces
      ensures Shaped(State()) && toPlay == old(toPlay)
      ensures board[..] == old(board[..])[Bit(to, t) := true][Bit(to, Frozen) := true]
      ensures pieces[..] == old(pieces[..])[toPlay * 3 + t := old(pieces[toPlay * 3 + t]) - 1]
    {
      pieces[toPlay * 3 + t] := pieces[toPlay * 3 + t] - 1;
      board[Bit(to, t)] := true;
      board[Bit(to, Frozen)] := true;
    }

    /** The slide loop of `doMove`: tier by tier, the destination takes the union and the source is emptied. */
    method SlideStack(from: MC.Space, to: MC.Space)
      requires Shaped(State()) && MC.OnBoard(from) && MC.OnBoard(to)
      modifies board
      ensures Shaped(State()) && board[..] == SlideTiers(old(board[..]), from, to, 3)
      ensures toPlay == old(toPlay) && pieces[..] == old(pieces[..])
    {
      ghost var b := board[..];
      var t := 0;
      while t < 3
        invariant 0 <= t <= 3 && board[..] == SlideTiers(b, from, to, t)
      {
        board[Bit(to, t)] := board[Bit(from, t)] || board[Bit(to, t)];
        board[Bit(from, t)] := false;
        t := t + 1;
      }
    }

    /** The reset loop of `doMove`: clear the frozen flag of every cell, row by row. */
    method Thaw()
      requires Shaped(State())
      modifies board
      ensures Shaped(State()) && board[..] == ThawedBelow(old(board[..]), BoardBits)
      ensures toPlay == old(toPlay) && pieces[..] == old(pieces[..])
    {
      ghost var b := board[..];
      var row := 0;
      while row < 4
        invariant 0 <= row <= 4 && board[..] == ThawedBelow(b, 16 * row)
      {
        var col := 0;
        while col < 4
          invariant 0 <= col <= 4 && board[..] == ThawedBelow(b, 16 * row + 4 * col)
        {
          ghost var n := 16 * row + 4 * col;
          assert Bit(MC.Space(row, col), Frozen) == n + 3;
          board[Bit(MC.Space(row, col), Frozen)] := false;
          assert forall k | n <= k < n + 4 :: k % 4 == Frozen <==> k == n + 3;
          col := col + 1;
        }
        row := row + 1;
      }
    }

    /** `applyLine` and the capital-line clears: drop every move the scan rules out. */
    static method ApplyScan(legal: array<bool>, sc: Scan, breakers: seq<seq<bool>>)
      requires legal.Length == MC.NumMoves && GoodScan(sc) && BreakersShape(breakers)
      modifies legal
      ensures legal[..] == Apply(old(legal[..]), sc, breakers)
    {
      ghost var before := legal[..];
      var j := 0;
      while j < MC.NumMoves
        invariant 0 <= j <= MC.NumMoves
        invariant forall i | 0 <= i < MC.NumMoves ::
          legal[i] == if i < j then before[i] && Keeps(sc, breakers, i) else before[i]
      {
        if sc.found {
          legal[j] := legal[j] && breakers[sc.line][j];
        }
        if j in sc.cleared {
          legal[j] := false;
        }
        j := j + 1;
      }
      assert legal[..] == Apply(before, sc, breakers);
    }

    /** `applyRowColLines`: the first row (column) holding a line. */
    method ApplyRowColLines(legal: array<bool>, isCol: bool, breakers: seq<seq<bool>>) returns (found: bool)
      requires Valid() && legal.Length == MC.NumMoves && legal != board && BreakersShape(breakers)
      modifies legal
      ensures legal[..] == Apply(old(legal[..]), RowColFrom(State(), isCol, 0), breakers)
      ensures found == RowColFrom(State(), isCol, 0).found
    {
      found := RowColLines(State(), legal, isCol, breakers);
    }

    /** The loop of `applyRowColLines` over the rows (columns) of the state `g`. */
    static method RowColLines(g: GameState, legal: array<bool>, isCol: bool, breakers: seq<seq<bool>>) returns (found: bool)
      requires Shaped(g) && legal.Length == MC.NumMoves && BreakersShape(breakers)
      modifies legal
      ensures legal[..] == Apply(old(legal[..]), RowColFrom(g, isCol, 0), breakers)
      ensures found == RowColFrom(g, isCol, 0).found
    {
      var i := 0;
      while i < 4
        invariant 0 <= i <= 4 && legal[..] == old(legal[..])
        invariant RowColFrom(g, isCol, i) == RowColFrom(g, isCol, 0)
      {
        if LineOfFour(LineTops(g, i, isCol)) {
          ApplyScan(legal, RowColAt(g, isCol, i), breakers);
          return true;
        }
        i := i + 1;
      }
      ApplyIdle(legal[..], RowColFrom(g, isCol, 0), breakers);
      return false;
    }

    /** `applyLines`: rows, columns, long diagonals, short diagonals, all four applied. */
    method ApplyLines(legal: array<bool>, breakers: seq<seq<bool>>) returns (isAnyLines: bool)
      requires Valid() && legal.Length == MC.NumMoves && legal != board && BreakersShape(breakers)
      modifies legal
      ensures legal[..] ==
        Apply(Apply(Apply(Apply(old(legal[..]), RowColFrom(State(), false, 0), breakers),
          RowColFrom(State(), true, 0), breakers), LongDiagScan(State()), breakers), ShortDiagFrom(State(), 0), breakers)
      ensures isAnyLines == AnyLine(State())
    {
      var g := State();
      var rows := ApplyRowColLines(legal, false, breakers);
      var cols := ApplyRowColLines(legal, true, breakers);
      ApplyScan(legal, LongDiagScan(g), breakers);
      ApplyScan(legal, ShortDiagFrom(g, 0), breakers);
      isAnyLines := rows || cols || LongDiagScan(g).found || ShortDiagFrom(g, 0).found;
      ScansFindAnyLine(g);
    }

    /** `getLegalMoves`: all moves, filtered by the lines, then by the move rules. */
    method GetLegalMoves(legal: array<bool>, breakers: seq<seq<bool>>) returns (isLines: bool)
      requires Valid() && legal.Length == MC.NumMoves && legal != board && BreakersShape(breakers)
      modifies legal
      ensures legal[..] == LegalMask(State(), breakers)
      ensures isLines == AnyLine(State())
    {
      var g := State();
      forall i | 0 <= i < MC.NumMoves {
        legal[i] := true;
      }
      assert legal[..] == seq(MC.NumMoves, _ => true);
      isLines := ApplyLines(legal, breakers);
      assert State() == g;
      ghost var filtered := legal[..];
      KeepRuleAbiding(legal, g);
      LegalMaskSteps(g, breakers, filtered, legal[..]);
      assert State() == g;
    }

    /** The last loop of `getLegalMoves`: drop every move the move rules forbid. */
    static method KeepRuleAbiding(legal: array<bool>, g: GameState)
      requires legal.Length == MC.NumMoves && Shaped(g)
      modifies legal
      ensures forall i | 0 <= i < MC.NumMoves :: legal[i] == (old(legal[i]) && IsLegalMove(g, i))
    {
      var j := 0;
      while j < MC.NumMoves
        invariant 0 <= j <= MC.NumMoves
        invariant forall i | 0 <= i < MC.NumMoves ::
          legal[i] == if i < j then old(legal[i]) && IsLegalMove(g, i) else old(legal[i])
      {
        if legal[j] && !IsLegalMove(g, j) {
          legal[j] := false;
        }
        j := j + 1;
      }
    }

    /** `writeGameState`. */
    method WriteGameState(out: array<real>)
      requires Valid() && out.Length == GameStateSize
      modifies out
      ensures out[..] == StateVector(State())
    {
      var g := State();
      var i := 0;
      while i < BoardBits
        invariant 0 <= i <= BoardBits
        invariant forall k | 0 <= k < i :: out[k] == StateVector(g)[k]
      {
        out[i] := if board[i] then 1.0 else 0.0;
        i := i + 1;
      }
      i := 0;
      while i < 6
        invariant 0 <= i <= 6
        invariant forall k | 0 <= k < BoardBits + i :: out[k] == StateVector(g)[k]
      {
        out[BoardBits + i] := pieces[(toPlay * 3 + i) % 6] as real * 0.25;
        i := i + 1;
      }
      assert out[..] == StateVector(g);
    }
  }
}
