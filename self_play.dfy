/**
 * Self-play bookkeeping of the current engine (`SelfPlayer`, selfplayer.cpp):
 * the game result and the first player's score, one training sample per
 * chosen move, the value labels and the slot layout `writeSamples` fills, and
 * the turn loop that alternates the two searchers.
 *
 * The two searchers are `TrainMC` objects (modelled in TrainSearch).  Within
 * the turn loop their answers are inputs: one `Reply` per chosen move.
 */
module SelfPlay {
  import opened Common
  import GR = GameRules
  import MC = MoveCodec
  import ST = SearchTree

  /** `kBoardSize`: cells on the board; the first 4 * 16 state entries are per-cell blocks of four. */
  const BoardSize := 16
  const CellEntries := 64

  /** A training sample: the position's state vector and the move distribution of the search. */
  datatype Sample = Sample(gameState: seq<real>, probabilities: seq<real>)

  predicate SampleShaped(s: Sample)
  {
    |s.gameState| == GR.GameStateSize && |s.probabilities| == MC.NumMoves
  }

  /** The samples a searcher writes: a full state vector and a full move distribution. */
  type FullSample = s: Sample | SampleShaped(s)
    witness Sample(seq(GR.GameStateSize, i => 0.0), seq(MC.NumMoves, i => 0.0))

  // ---------------------------------------------------------------------
  // Result and score

  /** A result that ends the game at the mover's new root (`terminal`). */
  predicate Ends(r: Result)
  {
    r == Loss || r == Draw
  }

  /**
   * `endGame`'s result for the first player: a draw, or a win for the side
   * that just moved (`to_play_` has not been flipped yet).
   */
  function EndResult(drawn: bool, toPlay: int): (r: Result)
    ensures r == Draw || r == Win || r == Loss
    ensures r == Draw <==> drawn
  {
    if drawn then Draw else if toPlay == 1 then Loss else Win
  }

  /** `score`: the first player's score; 0.5 for anything but a loss or a win. */
  function ResultScore(r: Result): (s: real)
    ensures 0.0 <= s <= 1.0
    ensures s == 0.5 <==> r != Loss && r != Win
  {
    if r == Loss then 0.0 else if r == Win then 1.0 else 0.5
  }

  /**
   * After `n` moves from the opening the last mover is player (n - 1) % 2, so
   * a decisive game scores 1 for the first player exactly when `n` is odd.
   */
  lemma ScoreOfGame(drawn: bool, n: int)
    requires n >= 1
    ensures ResultScore(EndResult(drawn, (n - 1) % 2)) ==
      if drawn then 0.5 else if n % 2 == 1 then 1.0 else 0.0
  {
  }

  // ---------------------------------------------------------------------
  // Value labels

  /**
   * The value label of the sample `offset` places from the end: the loop of
   * `writeSamples` starts at 1 (0 for a draw) and negates at every step.
   */
  function Label(drawn: bool, offset: nat): real
  {
    if offset == 0 then (if drawn then 0.0 else 1.0) else -Label(drawn, offset - 1)
  }

  /** The labels in closed form: 0 throughout a draw, else +1 on even offsets and -1 on odd ones. */
  lemma {:induction false} LabelValue(drawn: bool, offset: nat)
    ensures drawn ==> Label(drawn, offset) == 0.0
    ensures !drawn ==> Label(drawn, offset) == if offset % 2 == 0 then 1.0 else -1.0
  {
    if offset > 0 {
      LabelValue(drawn, offset - 1);
    }
  }

  // ---------------------------------------------------------------------
  // Symmetries and the sample layout

  /**
   * Symmetry tables (`space_symmetries`, `move_symmetries`, from a header not
   * part of this model): as many cell permutations as move permutations.
   */
  predicate SymmetriesOk(cellSym: seq<CellSymmetry>, moveSym: seq<MoveSymmetry>)
  {
    |cellSym| == |moveSym| >= 1
  }

  predicate CellPerm(p: seq<int>)
  {
    |p| == BoardSize && forall c | 0 <= c < BoardSize :: 0 <= p[c] < BoardSize
  }

  predicate MovePerm(p: seq<int>)
  {
    |p| == MC.NumMoves && forall j | 0 <= j < MC.NumMoves :: 0 <= p[j] < MC.NumMoves
  }

  /** A cell permutation of the symmetry table: 16 cell indices. */
  type CellSymmetry = p: seq<int> | CellPerm(p) witness seq(BoardSize, c => c)

  /** A move permutation of the symmetry table: 96 move indices. */
  type MoveSymmetry = p: seq<int> | MovePerm(p) witness seq(MC.NumMoves, j => j)

  /** A state vector under a cell permutation: cell blocks moved, the six inventory entries kept. */
  function SymState(st: seq<real>, perm: CellSymmetry): (r: seq<real>)
    requires |st| == GR.GameStateSize
    ensures |r| == GR.GameStateSize
  {
    seq(GR.GameStateSize, j requires 0 <= j < GR.GameStateSize =>
      if j < CellEntries then st[perm[j / 4] * 4 + j % 4] else st[j])
  }

  /** A move distribution under a move permutation. */
  function SymProbs(p: seq<real>, perm: MoveSymmetry): (r: seq<real>)
    requires |p| == MC.NumMoves
    ensures |r| == MC.NumMoves
  {
    seq(MC.NumMoves, j requires 0 <= j < MC.NumMoves => p[perm[j]])
  }

  /** Entry e of cell c of a transformed state is entry e of cell perm[c]; the inventory is unchanged. */
  lemma SymStateCells(st: seq<real>, perm: CellSymmetry, c: int, e: int)
    requires |st| == GR.GameStateSize && 0 <= c < BoardSize && 0 <= e < 4
    ensures SymState(st, perm)[4 * c + e] == st[4 * perm[c] + e]
    ensures forall j | CellEntries <= j < GR.GameStateSize :: SymState(st, perm)[j] == st[j]
  {
    var j := 4 * c + e;
    assert j / 4 == c && j % 4 == e;
  }

  /** The identity permutations leave a sample unchanged. */
  lemma IdentitySymmetry(st: seq<real>, p: seq<real>, cellId: CellSymmetry, moveId: MoveSymmetry)
    requires |st| == GR.GameStateSize && |p| == MC.NumMoves
    requires forall c | 0 <= c < BoardSize :: cellId[c] == c
    requires forall j | 0 <= j < MC.NumMoves :: moveId[j] == j
    ensures SymState(st, cellId) == st && SymProbs(p, moveId) == p
  {
    forall j | 0 <= j < CellEntries ensures SymState(st, cellId)[j] == st[j] {
      assert cellId[j / 4] * 4 + j % 4 == j;
    }
  }

  /** Blocks laid end to end. */
  function Flatten(bs: seq<seq<real>>): (r: seq<real>)
  {
    if bs == [] then [] else bs[0] + Flatten(bs[1..])
  }

  predicate Uniform(bs: seq<seq<real>>, w: nat)
  {
    forall b | 0 <= b < |bs| :: |bs[b]| == w
  }

  lemma {:induction false} FlattenAppend(x: seq<seq<real>>, y: seq<seq<real>>)
    ensures Flatten(x + y) == Flatten(x) + Flatten(y)
  {
    if x == [] {
      assert x + y == y;
    } else {
      assert (x + y)[1..] == x[1..] + y;
      FlattenAppend(x[1..], y);
    }
  }

  lemma {:induction false} FlattenLength(bs: seq<seq<real>>, w: nat)
    requires Uniform(bs, w)
    ensures |Flatten(bs)| == |bs| * w
  {
    if bs != [] {
      FlattenLength(bs[1..], w);
    }
  }

  /** Entry j of block b sits at b * w + j. */
  lemma {:induction false} FlattenIndex(bs: seq<seq<real>>, w: nat, b: int, j: int)
    requires Uniform(bs, w) && 0 <= b < |bs| && 0 <= j < w
    ensures b * w + j < |Flatten(bs)| && Flatten(bs)[b * w + j] == bs[b][j]
  {
    FlattenLength(bs, w);
    if b > 0 {
      FlattenIndex(bs[1..], w, b - 1, j);
      assert (b - 1) * w + j + w == b * w + j;
    }
  }

  /** The symmetric copies of one sample's state, in symmetry order. */
  function StateCopies(s: FullSample, cellSym: seq<CellSymmetry>): (bs: seq<seq<real>>)
    requires |s.gameState| == GR.GameStateSize
    ensures |bs| == |cellSym| && Uniform(bs, GR.GameStateSize)
  {
    seq(|cellSym|, k requires 0 <= k < |cellSym| => SymState(s.gameState, cellSym[k]))
  }

  function ProbCopies(s: FullSample, moveSym: seq<MoveSymmetry>): (bs: seq<seq<real>>)
    requires |s.probabilities| == MC.NumMoves
    ensures |bs| == |moveSym| && Uniform(bs, MC.NumMoves)
  {
    seq(|moveSym|, k requires 0 <= k < |moveSym| => SymProbs(s.probabilities, moveSym[k]))
  }

  function LabelCopies(v: real, n: nat): (bs: seq<seq<real>>)
    ensures |bs| == n && Uniform(bs, 1)
  {
    seq(n, k requires 0 <= k < n => [v])
  }

  /** The state blocks of the samples from `offset` places before the end back to the first. */
  function StatesFrom(samples: seq<FullSample>, cellSym: seq<CellSymmetry>, offset: nat): (bs: seq<seq<real>>)
    ensures Uniform(bs, GR.GameStateSize)
    decreases |samples| - offset
  {
    if offset >= |samples| then []
    else StateCopies(samples[|samples| - 1 - offset], cellSym) + StatesFrom(samples, cellSym, offset + 1)
  }

  function ProbsFrom(samples: seq<FullSample>, moveSym: seq<MoveSymmetry>, offset: nat): (bs: seq<seq<real>>)
    ensures Uniform(bs, MC.NumMoves)
    decreases |samples| - offset
  {
    if offset >= |samples| then []
    else ProbCopies(samples[|samples| - 1 - offset], moveSym) + ProbsFrom(samples, moveSym, offset + 1)
  }

  function LabelsFrom(n: nat, drawn: bool, numSym: nat, offset: nat): (bs: seq<seq<real>>)
    ensures Uniform(bs, 1)
    decreases n - offset
  {
    if offset >= n then [] else LabelCopies(Label(drawn, offset), numSym) + LabelsFrom(n, drawn, numSym, offset + 1)
  }

  /** Every remaining sample contributes one block per symmetry. */
  lemma {:induction false} BlocksFromCount(samples: seq<FullSample>, cellSym: seq<CellSymmetry>, moveSym: seq<MoveSymmetry>,
                                           drawn: bool, offset: nat)
    requires SymmetriesOk(cellSym, moveSym) && offset <= |samples|
    ensures |StatesFrom(samples, cellSym, offset)| == (|samples| - offset) * |cellSym|
    ensures |ProbsFrom(samples, moveSym, offset)| == (|samples| - offset) * |cellSym|
    ensures |LabelsFrom(|samples|, drawn, |cellSym|, offset)| == (|samples| - offset) * |cellSym|
    decreases |samples| - offset
  {
    if offset < |samples| {
      BlocksFromCount(samples, cellSym, moveSym, drawn, offset + 1);
      assert (|samples| - offset) * |cellSym| == (|samples| - offset - 1) * |cellSym| + |cellSym|;
    }
  }

  /** One more leading sample moves a block index on by S. */
  lemma MulStep(a: nat, n: nat, k: int)
    ensures (a + 1) * n + k == n + (a * n + k)
  {
  }

  /** State block `(offset - from) * S + k` from `from` on is symmetry k of the sample `offset` places from the end. */
  lemma {:induction false} StateBlock(samples: seq<FullSample>, cellSym: seq<CellSymmetry>, from: nat, offset: nat, k: int)
        requires from <= offset < |samples| && 0 <= k < |cellSym|
    ensures (offset - from) * |cellSym| + k < |StatesFrom(samples, cellSym, from)|
    ensures StatesFrom(samples, cellSym, from)[(offset - from) * |cellSym| + k] ==
      SymState(samples[|samples| - 1 - offset].gameState, cellSym[k])
    decreases offset - from
  {
    var head := StateCopies(samples[|samples| - 1 - from], cellSym);
    var rest := StatesFrom(samples, cellSym, from + 1);
    assert StatesFrom(samples, cellSym, from) == head + rest;
    if from == offset {
      assert (offset - from) * |head| + k == k;
    } else {
      StateBlock(samples, cellSym, from + 1, offset, k);
      MulStep(offset - from - 1, |cellSym|, k);
    }
  }

  lemma {:induction false} ProbBlock(samples: seq<FullSample>, moveSym: seq<MoveSymmetry>, from: nat, offset: nat, k: int)
        requires from <= offset < |samples| && 0 <= k < |moveSym|
    ensures (offset - from) * |moveSym| + k < |ProbsFrom(samples, moveSym, from)|
    ensures ProbsFrom(samples, moveSym, from)[(offset - from) * |moveSym| + k] ==
      SymProbs(samples[|samples| - 1 - offset].probabilities, moveSym[k])
    decreases offset - from
  {
    var head := ProbCopies(samples[|samples| - 1 - from], moveSym);
    var rest := ProbsFrom(samples, moveSym, from + 1);
    assert ProbsFrom(samples, moveSym, from) == head + rest;
    if from == offset {
      assert (offset - from) * |head| + k == k;
    } else {
      ProbBlock(samples, moveSym, from + 1, offset, k);
      MulStep(offset - from - 1, |moveSym|, k);
    }
  }

  lemma {:induction false} LabelBlock(n: nat, drawn: bool, numSym: nat, from: nat, offset: nat, k: int)
    requires from <= offset < n && 0 <= k < numSym
    ensures (offset - from) * numSym + k < |LabelsFrom(n, drawn, numSym, from)|
    ensures LabelsFrom(n, drawn, numSym, from)[(offset - from) * numSym + k] == [Label(drawn, offset)]
    decreases offset - from
  {
    var head := LabelCopies(Label(drawn, from), numSym);
    var rest := LabelsFrom(n, drawn, numSym, from + 1);
    assert LabelsFrom(n, drawn, numSym, from) == head + rest;
    if from == offset {
      assert (offset - from) * |head| + k == k;
    } else {
      LabelBlock(n, drawn, numSym, from + 1, offset, k);
      MulStep(offset - from - 1, numSym, k);
    }
  }

  /**
   * The layout `writeSamples` is meant to produce: entry j of symmetry k of
   * the sample `offset` places from the end sits in slot offset * S + k of
   * each output (S the number of symmetries), slots being kGameStateSize,
   * kNumMoves and 1 entries wide.
   */
  lemma StateLayout(samples: seq<FullSample>, cellSym: seq<CellSymmetry>, offset: nat, k: int, j: int)
        requires offset < |samples| && 0 <= k < |cellSym| && 0 <= j < GR.GameStateSize
    ensures (offset * |cellSym| + k) * GR.GameStateSize + j < |Flatten(StatesFrom(samples, cellSym, 0))|
    ensures Flatten(StatesFrom(samples, cellSym, 0))[(offset * |cellSym| + k) * GR.GameStateSize + j] ==
      SymState(samples[|samples| - 1 - offset].gameState, cellSym[k])[j]
  {
    var slot := offset * |cellSym| + k;
    var bs := StatesFrom(samples, cellSym, 0);
    StateBlock(samples, cellSym, 0, offset, k);
    assert bs[slot] == SymState(samples[|samples| - 1 - offset].gameState, cellSym[k]);
    FlattenIndex(bs, GR.GameStateSize, slot, j);
  }

  lemma ProbLayout(samples: seq<FullSample>, moveSym: seq<MoveSymmetry>, offset: nat, k: int, j: int)
        requires offset < |samples| && 0 <= k < |moveSym| && 0 <= j < MC.NumMoves
    ensures (offset * |moveSym| + k) * MC.NumMoves + j < |Flatten(ProbsFrom(samples, moveSym, 0))|
    ensures Flatten(ProbsFrom(samples, moveSym, 0))[(offset * |moveSym| + k) * MC.NumMoves + j] ==
      SymProbs(samples[|samples| - 1 - offset].probabilities, moveSym[k])[j]
  {
    var slot := offset * |moveSym| + k;
    var bs := ProbsFrom(samples, moveSym, 0);
    ProbBlock(samples, moveSym, 0, offset, k);
    assert bs[slot] == SymProbs(samples[|samples| - 1 - offset].probabilities, moveSym[k]);
    FlattenIndex(bs, MC.NumMoves, slot, j);
  }

  lemma LabelLayout(n: nat, drawn: bool, numSym: nat, offset: nat, k: int)
    requires offset < n && 0 <= k < numSym
    ensures offset * numSym + k < |Flatten(LabelsFrom(n, drawn, numSym, 0))|
    ensures Flatten(LabelsFrom(n, drawn, numSym, 0))[offset * numSym + k] == Label(drawn, offset)
  {
    var slot := offset * numSym + k;
    var ls := LabelsFrom(n, drawn, numSym, 0);
    LabelBlock(n, drawn, numSym, 0, offset, k);
    assert ls[slot] == [Label(drawn, offset)];
    FlattenIndex(ls, 1, slot, 0);
    assert slot * 1 + 0 == slot;
  }

  /** The slot `writeSamples` writes symmetry k of the sample at `offset` to, as written: k + 1. */
  function SlotAsWritten(offset: nat, k: nat, numSym: nat): nat
  {
    offset * numSym + (k + 1)
  }

  /**
   * As written, the last symmetry of the first sample written goes one slot
   * past the n * S slots the callers allocate, and slot 0 is never written.
   */
  lemma SlotAsWrittenOverruns(n: nat, numSym: nat)
    requires n >= 1 && numSym >= 1
    ensures SlotAsWritten(n - 1, numSym - 1, numSym) == n * numSym
    ensures forall offset: nat, k: nat | offset < n && k < numSym :: SlotAsWritten(offset, k, numSym) != 0
  {
    assert (n - 1) * numSym + numSym == n * numSym;
  }

  // ---------------------------------------------------------------------
  // The mate counter

  /**
   * `mate_turn_` as written: it is reassigned only when it is already
   * nonzero, so starting from 0 it never changes.
   */
  function MateTurnAsWritten(mateTurn: int, known: bool, count: int): int
  {
    if known && mateTurn != 0 then count else mateTurn
  }

  /** The evidently intended update: the first turn a searcher's root is known. */
  function MateTurnStep(mateTurn: int, known: bool, count: int): (m: int)
  {
    if known && mateTurn == 0 then count else mateTurn
  }

  /** The first-known flags of a run of replies, counted from `count` samples. */
  function MateTurnsAsWritten(mateTurn: int, count: int, known: seq<bool>): int
    decreases |known|
  {
    if known == [] then mateTurn
    else MateTurnsAsWritten(MateTurnAsWritten(mateTurn, known[0], count), count + 1, known[1..])
  }

  function MateTurns(mateTurn: int, count: int, known: seq<bool>): int
    decreases |known|
  {
    if known == [] then mateTurn
    else MateTurns(MateTurnStep(mateTurn, known[0], count), count + 1, known[1..])
  }

  /** As written the counter stays 0 whatever the searchers find, so `mateLength` is always 0. */
  lemma {:induction false} MateTurnStaysZero(count: int, known: seq<bool>)
    ensures MateTurnsAsWritten(0, count, known) == 0
    decreases |known|
  {
    if known != [] {
      MateTurnStaysZero(count + 1, known[1..]);
    }
  }

  /** A mate found on the second move is missed as written and recorded when corrected. */
  lemma MateTurnExample()
    ensures MateTurnsAsWritten(0, 0, [false, true]) == 0
    ensures MateTurns(0, 0, [false, true]) == 1
  {
  }

  /**
   * Corrected: the counter keeps the first turn (from `count`) at which a
   * root was known, provided that turn is not the opening one.
   */
  lemma {:induction false} MateTurnsFirst(count: int, known: seq<bool>, j: int)
    requires 0 <= j < |known| && known[j] && count + j != 0
    requires forall i | 0 <= i < j :: !known[i]
    ensures MateTurns(0, count, known) == count + j
    decreases j
  {
    if j == 0 {
      MateTurnsKept(count + 1, count, known[1..]);
    } else {
      MateTurnsFirst(count + 1, known[1..], j - 1);
    }
  }

  /** Once set, the corrected counter never changes. */
  lemma {:induction false} MateTurnsKept(count: int, m: int, known: seq<bool>)
    requires m != 0
    ensures MateTurns(m, count, known) == m
    decreases |known|
  {
    if known != [] {
      MateTurnsKept(count + 1, m, known[1..]);
    }
  }

  // ---------------------------------------------------------------------
  // The move log

  /**
   * The scan of `writeMoves` that pairs the root's children with its edges,
   * as written, after n passes from the first child: the state is the
   * position of `cur` among the children and the edge index.  A pass runs
   * while `cur` is a child; it moves the edge index on and never `cur`.
   */
  function LogScanAsWritten(kids: seq<int>, n: nat): (int, int)
  {
    if n == 0 then (0, 0)
    else
      var (cur, edge) := LogScanAsWritten(kids, n - 1);
      if cur < |kids| then (cur, edge + 1) else (cur, edge)
  }

  /**
   * As written, once the root has a child the scan never ends: after any
   * number n of passes `cur` is still the first child and the edge index
   * is n, past the root's edges once n reaches their count.
   */
  lemma {:induction false} LogScanAsWrittenNeverEnds(kids: seq<int>, n: nat)
    requires |kids| > 0
    ensures LogScanAsWritten(kids, n) == (0, n)
    ensures LogScanAsWritten(kids, n).0 < |kids|
  {
    if n > 0 {
      LogScanAsWrittenNeverEnds(kids, n - 1);
    }
  }

  /**
   * The scan as match.cpp writes it: a child matched to the edge with its
   * move goes into the log and `cur` moves to its next sibling.  With the
   * children's moves among the edges' and both in ascending order, every
   * child is logged once, in order, beside the edge of its own move (whose
   * prior the log reads), and no edge past the last is read.
   */
  method LogScan(kids: seq<int>, edges: seq<int>) returns (logged: seq<(int, int)>, read: int)
    requires ST.OrderedIds(edges, kids)
    ensures |logged| == |kids| && 0 <= read <= |edges|
    ensures forall i | 0 <= i < |kids| ::
      logged[i].0 == kids[i] && 0 <= logged[i].1 < |edges| && edges[logged[i].1] == kids[i]
  {
    logged := [];
    var cur := 0;
    read := 0;
    if 0 < |kids| {
      assert kids[0] in edges;
    }
    while cur < |kids|
      invariant 0 <= cur <= |kids| && 0 <= read <= |edges| && |logged| == cur
      invariant forall i | 0 <= i < cur ::
        logged[i].0 == kids[i] && 0 <= logged[i].1 < |edges| && edges[logged[i].1] == kids[i]
      invariant cur < |kids| ==> exists e | read <= e < |edges| :: edges[e] == kids[cur]
      decreases |edges| - read
    {
      if kids[cur] == edges[read] {
        logged := logged + [(kids[cur], read)];
        cur := cur + 1;
        if cur < |kids| {
          NextKidLater(kids, edges, cur, read);
        }
      }
      read := read + 1;
    }
  }

  /** The next child's move lies among the edges after the one matched. */
  lemma NextKidLater(kids: seq<int>, edges: seq<int>, cur: int, read: int)
    requires ST.OrderedIds(edges, kids) && 0 < cur < |kids| && 0 <= read < |edges| && edges[read] == kids[cur - 1]
    ensures exists e | read < e < |edges| :: edges[e] == kids[cur]
  {
    assert kids[cur] in edges;
    var e :| 0 <= e < |edges| && edges[e] == kids[cur];
    assert kids[cur - 1] < kids[cur];
  }

  // ---------------------------------------------------------------------
  // The turn loop

  /** What the searchers answered for one chosen move. */
  datatype Reply = Reply(
    known: bool,        // the mover's root had a known result before the choice
    choice: int,        // the move the mover's chooseMove returned
    sample: FullSample, // the sample it wrote
    after: Result,      // the result of the mover's new root
    needEval: bool,     // what the opponent's receiveOpponentMove answered
    searchDone: bool)   // what the opponent's doIteration answered when no evaluation was needed

  /** The loop stops at this reply: the game ended, the opponent was new, or an evaluation is needed. */
  predicate Stops(r: Reply, opponentNew: bool)
  {
    Ends(r.after) || opponentNew || r.needEval || !r.searchDone
  }

  /** Some reply stops the loop even with both searchers running. */
  predicate Closes(replies: seq<Reply>)
  {
    exists k | 0 <= k < |replies| :: Stops(replies[k], false)
  }

  function SamplesOf(replies: seq<Reply>): (s: seq<FullSample>)
    ensures |s| == |replies|
  {
    if replies == [] then [] else SamplesOf(replies[..|replies| - 1]) + [replies[|replies| - 1].sample]
  }

  function KnownOf(replies: seq<Reply>): (s: seq<bool>)
    ensures |s| == |replies|
  {
    if replies == [] then [] else KnownOf(replies[..|replies| - 1]) + [replies[|replies| - 1].known]
  }

  lemma {:induction false} MateTurnsSnoc(m: int, count: int, known: seq<bool>, x: bool)
    ensures MateTurns(m, count, known + [x]) == MateTurnStep(MateTurns(m, count, known), x, count + |known|)
    decreases |known|
  {
    if known != [] {
      assert (known + [x])[1..] == known[1..] + [x];
      MateTurnsSnoc(MateTurnStep(m, known[0], count), count + 1, known[1..], x);
    }
  }

  /** Consuming one more reply appends its sample and takes one more step of the mate counter. */
  lemma ConsumeReply(replies: seq<Reply>, used: nat, m: int, count: int)
    requires used < |replies|
    ensures SamplesOf(replies[..used + 1]) == SamplesOf(replies[..used]) + [replies[used].sample]
    ensures MateTurns(m, count, KnownOf(replies[..used + 1])) ==
      MateTurnStep(MateTurns(m, count, KnownOf(replies[..used])), replies[used].known, count + used)
  {
    var before := replies[..used];
    assert replies[..used + 1] == before + [replies[used]];
    assert (before + [replies[used]])[..|before|] == before;
    MateTurnsSnoc(m, count, KnownOf(before), replies[used].known);
    assert KnownOf(replies[..used + 1]) == KnownOf(before) + [replies[used].known];
  }

  /**
   * After `used` replies the loop of `chooseMoveAndContinue` has gone on
   * past every one of them but the last, and stopped at the last one if
   * `stop`.  The first reply sees the opponent without a root exactly when
   * `firstNew`; `last` is a reply that stops the loop in any case.
   */
  ghost predicate Progress(replies: seq<Reply>, used: nat, stop: bool, firstNew: bool, last: int)
  {
    used <= |replies| && 0 <= last < |replies| && Stops(replies[last], false) &&
    (forall j | 0 <= j < used - 1 :: !Stops(replies[j], false)) &&
    (!stop ==> used <= last && forall j | 0 <= j < used :: !Stops(replies[j], false)) &&
    (stop ==> 1 <= used && Stops(replies[used - 1], used == 1 && firstNew))
  }

  /** The fields of a SelfPlayer that `chooseMoveAndContinue` changes. */
  datatype Snapshot = Snapshot(samples: seq<FullSample>, mateTurn: int, uninitialized: seq<bool>, toPlay: int, over: bool)

  /** What one pass of the loop does, as Turn states it. */
  ghost predicate TurnEffect(b: Snapshot, a: Snapshot, r: Reply, stop: bool)
  {
    |b.uninitialized| == 2 && (b.toPlay == 0 || b.toPlay == 1) &&
    a.samples == b.samples + [r.sample] &&
    a.mateTurn == MateTurnStep(b.mateTurn, r.known, |b.samples|) &&
    (a.over <==> Ends(r.after)) &&
    (stop <==> Stops(r, b.uninitialized[1 - b.toPlay])) &&
    (!stop ==> a.uninitialized == b.uninitialized) &&
    |a.uninitialized| == 2 && (a.toPlay == 0 || a.toPlay == 1) && !a.uninitialized[a.toPlay]
  }

  /**
   * The loop of `chooseMoveAndContinue` after `used` replies, from the state
   * `start`: the samples and the mate counter account for exactly those
   * replies, and the loop stopped at the last one if `stop`.
   */
  ghost predicate Looping(start: Snapshot, now: Snapshot, replies: seq<Reply>, used: nat, stop: bool,
                          firstNew: bool, last: int)
  {
    Progress(replies, used, stop, firstNew, last) &&
    now.samples == start.samples + SamplesOf(replies[..used]) &&
    now.mateTurn == MateTurns(start.mateTurn, |start.samples|, KnownOf(replies[..used])) &&
    |now.uninitialized| == 2 && (now.toPlay == 0 || now.toPlay == 1) && !now.uninitialized[now.toPlay] &&
    (used == 0 ==> now.uninitialized == start.uninitialized && now.toPlay == start.toPlay &&
                   firstNew == start.uninitialized[1 - start.toPlay]) &&
    (used > 0 && !stop ==> !now.uninitialized[0] && !now.uninitialized[1]) &&
    (!stop ==> !now.over) &&
    (stop ==> (now.over <==> Ends(replies[used - 1].after)))
  }

  lemma LoopStep(start: Snapshot, before: Snapshot, after: Snapshot, replies: seq<Reply>, used: nat, stop: bool,
                 firstNew: bool, last: int)
    requires Looping(start, before, replies, used, false, firstNew, last) && used < |replies|
    requires TurnEffect(before, after, replies[used], stop)
    ensures Looping(start, after, replies, used + 1, stop, firstNew, last)
  {
    var r := replies[used];
    ConsumeReply(replies, used, start.mateTurn, |start.samples|);
    var opponentNew := before.uninitialized[1 - before.toPlay];
    assert opponentNew == (used == 0 && firstNew);
    assert Progress(replies, used + 1, stop, firstNew, last);
    assert after.samples == start.samples + (SamplesOf(replies[..used]) + [r.sample]);
  }

  class SelfPlayer {
    var toPlay: int
    var samples: seq<FullSample>
    var result: Result
    var mateTurn: int
    /** `isUninitialized` of each searcher: no root yet. */
    var uninitialized: seq<bool>
    /** `endGame` ran: the searchers' trees are released. */
    var over: bool
    const parity: int

    /**
     * One sample per move played: the side to play is the parity of the
     * number of samples until the game ends; then it is the side that made
     * the last move, and the result is theirs.
     */
    /** The parts of Valid() that hold in the middle of a turn as well. */
    ghost predicate Shaped()
      reads this
    {
      |uninitialized| == 2 && (toPlay == 0 || toPlay == 1) && (parity == 0 || parity == 1) &&
      0 <= mateTurn <= |samples|
    }

    ghost predicate Valid()
      reads this
    {
      Shaped() &&
      (!over ==> result == NoResult && toPlay == |samples| % 2) &&
      (over ==> |samples| >= 1 && toPlay == (|samples| - 1) % 2 && result == EndResult(result == Draw, toPlay))
    }

    ghost function Snap(): Snapshot
      reads this
    {
      Snapshot(samples, mateTurn, uninitialized, toPlay, over)
    }

    constructor (parity: int)
      requires parity == 0 || parity == 1
      ensures Valid() && !over && toPlay == 0 && samples == [] && result == NoResult && mateTurn == 0
      ensures uninitialized == [true, true] && this.parity == parity
    {
      this.parity := parity;
      toPlay := 0;
      samples := [];
      result := NoResult;
      mateTurn := 0;
      uninitialized := [true, true];
      over := false;
    }

    /** `score`. */
    function Score(): (s: real)
      reads this
      requires Valid()
      ensures !over ==> s == 0.5
      ensures over && result != Draw ==> (s == 1.0 <==> |samples| % 2 == 1) && (s == 0.0 <==> |samples| % 2 == 0)
    {
      ResultScore(result)
    }

    /** `mateLength`: plies from the recorded turn to the end, 0 when none was recorded. */
    function MateLength(): (n: int)
      reads this
      requires Valid()
      ensures mateTurn == 0 ==> n == 0
      ensures mateTurn != 0 ==> 1 <= n <= |samples|
    {
      if mateTurn == 0 then 0 else |samples| - mateTurn + 1
    }

    /**
     * `doIteration`: the current searcher's iteration (its first one gives it
     * a root); a finished turn goes on to choose moves.
     */
    method DoIteration(turnDone: bool, replies: seq<Reply>) returns (done: bool)
      requires Valid() && !over && (turnDone ==> Closes(replies))
      modifies this
      ensures Valid()
      ensures !turnDone ==> !done && !over && samples == old(samples) && toPlay == old(toPlay)
      ensures done <==> over
    {
      uninitialized := uninitialized[toPlay := false];
      if !turnDone {
        return false;
      }
      var used;
      done, used := ChooseMoveAndContinue(replies);
    }

    /** `endGame`: record the result for the first player and release the searchers. */
    method EndGame(drawn: bool)
      requires Shaped() && !over && result == NoResult && |samples| >= 1 && toPlay == (|samples| - 1) % 2
      modifies this
      ensures Valid() && over && result == EndResult(drawn, toPlay)
      ensures samples == old(samples) && toPlay == old(toPlay) && mateTurn == old(mateTurn)
      ensures uninitialized == old(uninitialized)
    {
      result := EndResult(drawn, toPlay);
      over := true;
    }

    /**
     * One pass of the loop of `chooseMoveAndContinue`: record the mover's
     * sample (and the turn, if its root was known), then end the game, or
     * pass the turn and tell whether the loop stops there: the opponent had
     * no root yet, or needs an evaluation.
     */
    method Turn(r: Reply) returns (ended: bool, stop: bool)
      requires Valid() && !over && !uninitialized[toPlay]
      modifies this
      ensures Valid() && !uninitialized[toPlay]
      ensures samples == old(samples) + [r.sample]
      ensures mateTurn == MateTurnStep(old(mateTurn), r.known, |old(samples)|)
      ensures (ended <==> Ends(r.after)) && (ended <==> over)
      ensures ended ==> toPlay == old(toPlay) && result == EndResult(r.after == Draw, toPlay)
      ensures !ended ==> toPlay == 1 - old(toPlay)
      ensures stop <==> Stops(r, old(uninitialized)[1 - old(toPlay)])
      ensures !stop ==> uninitialized == old(uninitialized)
      ensures uninitialized == old(uninitialized)[1 - old(toPlay) := false] || uninitialized == old(uninitialized)
      ensures TurnEffect(old(Snap()), Snap(), r, stop)
    {
      if r.known && mateTurn == 0 {
        mateTurn := |samples|;
      }
      samples := samples + [r.sample];
      if Ends(r.after) {
        EndGame(r.after == Draw);
        return true, true;
      }
      toPlay := 1 - toPlay;
      if uninitialized[toPlay] {
        // The other searcher's first iteration always asks for an evaluation.
        uninitialized := uninitialized[toPlay := false];
        return false, true;
      }
      return false, r.needEval || !r.searchDone;
    }

    /**
     * `chooseMoveAndContinue`: choose a move and record its sample; stop if
     * it ended the game; otherwise hand the move to the other searcher and
     * keep choosing while no evaluation is needed.  `used` replies were
     * consumed: every one but the last went on, and the last one stopped.
     */
    method ChooseMoveAndContinue(replies: seq<Reply>) returns (done: bool, used: nat)
      requires Valid() && !over && Closes(replies) && !uninitialized[toPlay]
      modifies this
      ensures Valid() && 1 <= used <= |replies|
      ensures samples == old(samples) + SamplesOf(replies[..used])
      ensures forall j | 0 <= j < used - 1 :: !Stops(replies[j], false)
      ensures Stops(replies[used - 1], used == 1 && old(uninitialized)[1 - old(toPlay)])
      ensures done <==> Ends(replies[used - 1].after)
      ensures done <==> over
      ensures mateTurn == MateTurns(old(mateTurn), |old(samples)|, KnownOf(replies[..used]))
    {
      ghost var last :| 0 <= last < |replies| && Stops(replies[last], false);
      ghost var firstNew := uninitialized[1 - toPlay];
      ghost var start := Snap();
      var stop := false;
      used := 0;
      while !stop
        invariant Valid() && Looping(start, Snap(), replies, used, stop, firstNew, last)
        decreases |replies| - used
      {
        stop := Advance(replies, used, start, firstNew, last);
        used := used + 1;
      }
      done := over;
    }

    /** One pass of the loop of `chooseMoveAndContinue`, as the loop's invariant sees it. */
    method Advance(replies: seq<Reply>, used: nat, ghost start: Snapshot, ghost firstNew: bool, ghost last: int)
      returns (stop: bool)
      requires Valid() && Looping(start, Snap(), replies, used, false, firstNew, last)
      modifies this
      ensures Valid() && used < |replies| && Looping(start, Snap(), replies, used + 1, stop, firstNew, last)
    {
      ghost var before := Snap();
      var ended;
      ended, stop := Turn(replies[used]);
      LoopStep(start, before, Snap(), replies, used, stop, firstNew, last);
    }

    /**
     * `writeSamples`: the samples last to first, each in every symmetry, with
     * the value label +1 (0 for a draw) negated from one sample to the next.
     * Symmetry k of the sample `offset` places from the end goes to slot
     * offset * S + k; StateLayout, ProbLayout and LabelLayout give the
     * entries of each slot.  The three outputs are filled one after the
     * other rather than interleaved; they are distinct buffers.
     */
    method WriteSamples(cellSym: seq<CellSymmetry>, moveSym: seq<MoveSymmetry>,
                        gameStates: array<real>, evalSamples: array<real>, probSamples: array<real>)
      requires Valid() && SymmetriesOk(cellSym, moveSym)
      requires gameStates.Length == |samples| * |cellSym| * GR.GameStateSize
      requires evalSamples.Length == |samples| * |cellSym|
      requires probSamples.Length == |samples| * |cellSym| * MC.NumMoves
      requires gameStates != evalSamples && gameStates != probSamples && evalSamples != probSamples
      modifies gameStates, evalSamples, probSamples
      ensures gameStates[..] == Flatten(StatesFrom(samples, cellSym, 0))
      ensures evalSamples[..] == Flatten(LabelsFrom(|samples|, result == Draw, |cellSym|, 0))
      ensures probSamples[..] == Flatten(ProbsFrom(samples, moveSym, 0))
    {
      BlockLengths(samples, cellSym, moveSym, result == Draw);
      WriteStates(samples, cellSym, gameStates);
      WriteLabels(|samples|, result == Draw, |cellSym|, evalSamples);
      WriteProbs(samples, moveSym, probSamples);
    }
  }

  /** The outputs are as long as the callers allocate them: n * S slots each. */
  lemma BlockLengths(samples: seq<FullSample>, cellSym: seq<CellSymmetry>, moveSym: seq<MoveSymmetry>, drawn: bool)
    requires SymmetriesOk(cellSym, moveSym)
    ensures |Flatten(StatesFrom(samples, cellSym, 0))| == |samples| * |cellSym| * GR.GameStateSize
    ensures |Flatten(LabelsFrom(|samples|, drawn, |cellSym|, 0))| == |samples| * |cellSym|
    ensures |Flatten(ProbsFrom(samples, moveSym, 0))| == |samples| * |cellSym| * MC.NumMoves
  {
    BlocksFromCount(samples, cellSym, moveSym, drawn, 0);
    FlattenLength(StatesFrom(samples, cellSym, 0), GR.GameStateSize);
    FlattenLength(LabelsFrom(|samples|, drawn, |cellSym|, 0), 1);
    FlattenLength(ProbsFrom(samples, moveSym, 0), MC.NumMoves);
  }

  /** Splitting a run of blocks before block k, and moving block k from the back part to the front. */
  lemma FlattenSplit(bs: seq<seq<real>>, k: int)
    requires 0 <= k < |bs|
    ensures Flatten(bs[k..]) == bs[k] + Flatten(bs[k + 1..])
    ensures Flatten(bs[..k + 1]) == Flatten(bs[..k]) + bs[k]
  {
    assert bs[..k + 1] == bs[..k] + [bs[k]];
    FlattenAppend(bs[..k], [bs[k]]);
    assert Flatten([bs[k]]) == bs[k] + Flatten([]);
  }

  /**
   * The inner loops of `writeSamples` after k of the blocks `cs`: they sit
   * from p0 to p, the buffer before p0 is as it was, and the rest fits.
   */
  ghost predicate BlocksWritten(now: seq<real>, before: seq<real>, p0: int, p: int, cs: seq<seq<real>>, k: int)
  {
    0 <= k <= |cs| && 0 <= p0 <= p && p0 <= |before| &&
    p + |Flatten(cs[k..])| == p0 + |Flatten(cs)| && p + |Flatten(cs[k..])| <= |now| &&
    now[..p] == before[..p0] + Flatten(cs[..k])
  }

  /** Writing block k right after the first k leaves the first k + 1 written. */
  lemma BlocksStep(before: seq<real>, mid: seq<real>, now: seq<real>, p0: int, p: int, cs: seq<seq<real>>, k: int)
    requires BlocksWritten(mid, before, p0, p, cs, k) && k < |cs|
    requires |now| == |mid| && p + |cs[k]| <= |now| && now[..p + |cs[k]|] == mid[..p] + cs[k]
    ensures BlocksWritten(now, before, p0, p + |cs[k]|, cs, k + 1)
  {
    FlattenSplit(cs, k);
  }

  /** All blocks written: the written part is the blocks laid end to end. */
  lemma BlocksDone(now: seq<real>, before: seq<real>, p0: int, p: int, cs: seq<seq<real>>)
    requires BlocksWritten(now, before, p0, p, cs, |cs|)
    ensures p0 <= p <= |now| && now[..p] == before[..p0] + Flatten(cs)
  {
    assert cs[..|cs|] == cs;
  }

  /** Flatten(bs[..k]) + Flatten(bs[k..]) is Flatten(bs). */
  lemma FlattenCut(bs: seq<seq<real>>, k: int)
    requires 0 <= k <= |bs|
    ensures Flatten(bs[..k]) + Flatten(bs[k..]) == Flatten(bs)
  {
    assert bs == bs[..k] + bs[k..];
    FlattenAppend(bs[..k], bs[k..]);
  }

  /** Writing the blocks of one more sample: the written prefix grows by those blocks. */
  lemma PrefixStep(prefix: seq<real>, copies: seq<seq<real>>, rest: seq<seq<real>>, total: seq<real>)
    requires prefix + Flatten(copies + rest) == total
    ensures prefix + Flatten(copies) + Flatten(rest) == total
  {
    FlattenAppend(copies, rest);
  }

  lemma StatesStep(samples: seq<FullSample>, cellSym: seq<CellSymmetry>, offset: nat, prefix: seq<real>, total: seq<real>)
    requires offset < |samples| && prefix + Flatten(StatesFrom(samples, cellSym, offset)) == total
    ensures prefix + Flatten(StateCopies(samples[|samples| - 1 - offset], cellSym)) +
      Flatten(StatesFrom(samples, cellSym, offset + 1)) == total
  {
    PrefixStep(prefix, StateCopies(samples[|samples| - 1 - offset], cellSym), StatesFrom(samples, cellSym, offset + 1), total);
  }

  lemma ProbsStep(samples: seq<FullSample>, moveSym: seq<MoveSymmetry>, offset: nat, prefix: seq<real>, total: seq<real>)
    requires offset < |samples| && prefix + Flatten(ProbsFrom(samples, moveSym, offset)) == total
    ensures prefix + Flatten(ProbCopies(samples[|samples| - 1 - offset], moveSym)) +
      Flatten(ProbsFrom(samples, moveSym, offset + 1)) == total
  {
    PrefixStep(prefix, ProbCopies(samples[|samples| - 1 - offset], moveSym), ProbsFrom(samples, moveSym, offset + 1), total);
  }

  lemma LabelsStep(n: nat, drawn: bool, numSym: nat, offset: nat, prefix: seq<real>, total: seq<real>)
    requires offset < n && prefix + Flatten(LabelsFrom(n, drawn, numSym, offset)) == total
    ensures prefix + Flatten(LabelCopies(Label(drawn, offset), numSym)) +
      Flatten(LabelsFrom(n, drawn, numSym, offset + 1)) == total
  {
    PrefixStep(prefix, LabelCopies(Label(drawn, offset), numSym), LabelsFrom(n, drawn, numSym, offset + 1), total);
  }

  /** The state part of `writeSamples`: every sample, last to first, in every symmetry. */
  method WriteStates(samples: seq<FullSample>, cellSym: seq<CellSymmetry>, a: array<real>)
        requires a.Length == |Flatten(StatesFrom(samples, cellSym, 0))|
    modifies a
    ensures a[..] == Flatten(StatesFrom(samples, cellSym, 0))
  {
    ghost var total := Flatten(StatesFrom(samples, cellSym, 0));
    var p, offset := 0, 0;
    var i := |samples| - 1;
    while i >= 0
      invariant -1 <= i < |samples| && offset == |samples| - 1 - i
      invariant 0 <= p <= a.Length
      invariant a[..p] + Flatten(StatesFrom(samples, cellSym, offset)) == total
    {
      StatesStep(samples, cellSym, offset, a[..p], total);
      p := WriteStateCopies(samples[i], cellSym, a, p);
      offset, i := offset + 1, i - 1;
    }
    assert a[..p] == a[..];
  }

  /** The symmetry loop of `writeSamples` for the state of one sample. */
  method WriteStateCopies(s: FullSample, cellSym: seq<CellSymmetry>, a: array<real>, p0: int) returns (p: int)
    requires |s.gameState| == GR.GameStateSize
    requires 0 <= p0 && p0 + |Flatten(StateCopies(s, cellSym))| <= a.Length
    modifies a
    ensures p0 <= p <= a.Length && a[..p] == old(a[..p0]) + Flatten(StateCopies(s, cellSym))
  {
    ghost var cs := StateCopies(s, cellSym);
    ghost var before := a[..];
    p := p0;
    var k := 0;
    while k < |cellSym|
      invariant |cs| == |cellSym| && a.Length == |before| && BlocksWritten(a[..], before, p0, p, cs, k)
    {
      ghost var mid := a[..];
      assert cs[k] == SymState(s.gameState, cellSym[k]);
      CopyState(a, p, s.gameState, cellSym[k]);
      BlocksStep(before, mid, a[..], p0, p, cs, k);
      p, k := p + GR.GameStateSize, k + 1;
    }
    BlocksDone(a[..], before, p0, p, cs);
  }

  /** The value labels of `writeSamples`: one per symmetry of every sample, negated from sample to sample. */
  method WriteLabels(n: nat, drawn: bool, numSym: nat, a: array<real>)
    requires a.Length == |Flatten(LabelsFrom(n, drawn, numSym, 0))|
    modifies a
    ensures a[..] == Flatten(LabelsFrom(n, drawn, numSym, 0))
  {
    var evaluation := if drawn then 0.0 else 1.0;
    ghost var total := Flatten(LabelsFrom(n, drawn, numSym, 0));
    var p, offset := 0, 0;
    var i := n - 1;
    while i >= 0
      invariant -1 <= i < n && offset == n - 1 - i
      invariant evaluation == Label(drawn, offset)
      invariant 0 <= p <= a.Length
      invariant a[..p] + Flatten(LabelsFrom(n, drawn, numSym, offset)) == total
    {
      LabelsStep(n, drawn, numSym, offset, a[..p], total);
      p := WriteLabelCopies(evaluation, numSym, a, p);
      offset, i := offset + 1, i - 1;
      evaluation := -evaluation;
    }
    assert a[..p] == a[..];
  }

  method WriteLabelCopies(v: real, numSym: nat, a: array<real>, p0: int) returns (p: int)
    requires 0 <= p0 && p0 + |Flatten(LabelCopies(v, numSym))| <= a.Length
    modifies a
    ensures p0 <= p <= a.Length && a[..p] == old(a[..p0]) + Flatten(LabelCopies(v, numSym))
  {
    ghost var cs := LabelCopies(v, numSym);
    p := p0;
    var k := 0;
    while k < numSym
      invariant 0 <= k <= numSym && p0 <= p
      invariant p + |Flatten(cs[k..])| == p0 + |Flatten(cs)|
      invariant a[..p] == old(a[..p0]) + Flatten(cs[..k])
    {
      FlattenSplit(cs, k);
      assert cs[k] == [v];
      a[p] := v;
      assert a[..p + 1] == a[..p] + [v];
      p, k := p + 1, k + 1;
    }
    assert cs[..k] == cs;
  }

  /** The probability part of `writeSamples`. */
  method WriteProbs(samples: seq<FullSample>, moveSym: seq<MoveSymmetry>, a: array<real>)
        requires a.Length == |Flatten(ProbsFrom(samples, moveSym, 0))|
    modifies a
    ensures a[..] == Flatten(ProbsFrom(samples, moveSym, 0))
  {
    ghost var total := Flatten(ProbsFrom(samples, moveSym, 0));
    var p, offset := 0, 0;
    var i := |samples| - 1;
    while i >= 0
      invariant -1 <= i < |samples| && offset == |samples| - 1 - i
      invariant 0 <= p <= a.Length
      invariant a[..p] + Flatten(ProbsFrom(samples, moveSym, offset)) == total
    {
      ProbsStep(samples, moveSym, offset, a[..p], total);
      p := WriteProbCopies(samples[i], moveSym, a, p);
      offset, i := offset + 1, i - 1;
    }
    assert a[..p] == a[..];
  }

  method WriteProbCopies(s: FullSample, moveSym: seq<MoveSymmetry>, a: array<real>, p0: int) returns (p: int)
    requires |s.probabilities| == MC.NumMoves
    requires 0 <= p0 && p0 + |Flatten(ProbCopies(s, moveSym))| <= a.Length
    modifies a
    ensures p0 <= p <= a.Length && a[..p] == old(a[..p0]) + Flatten(ProbCopies(s, moveSym))
  {
    ghost var cs := ProbCopies(s, moveSym);
    ghost var before := a[..];
    p := p0;
    var k := 0;
    while k < |moveSym|
      invariant |cs| == |moveSym| && a.Length == |before| && BlocksWritten(a[..], before, p0, p, cs, k)
    {
      ghost var mid := a[..];
      assert cs[k] == SymProbs(s.probabilities, moveSym[k]);
      CopyProbs(a, p, s.probabilities, moveSym[k]);
      BlocksStep(before, mid, a[..], p0, p, cs, k);
      p, k := p + MC.NumMoves, k + 1;
    }
    BlocksDone(a[..], before, p0, p, cs);
  }

  /** The two inner loops of `writeSamples` for the state: cell blocks permuted, the rest copied. */
  method CopyState(a: array<real>, at: int, st: seq<real>, perm: CellSymmetry)
    requires |st| == GR.GameStateSize
    requires 0 <= at && at + GR.GameStateSize <= a.Length
    modifies a
    ensures a[..at + GR.GameStateSize] == old(a[..at]) + SymState(st, perm)
  {
    var j := 0;
    while j < CellEntries
      invariant 0 <= j <= CellEntries
      invariant a[..at + j] == old(a[..at]) + SymState(st, perm)[..j]
    {
      a[at + j] := st[perm[j / 4] * 4 + j % 4];
      j := j + 1;
      assert SymState(st, perm)[..j] == SymState(st, perm)[..j - 1] + [SymState(st, perm)[j - 1]];
    }
    while j < GR.GameStateSize
      invariant CellEntries <= j <= GR.GameStateSize
      invariant a[..at + j] == old(a[..at]) + SymState(st, perm)[..j]
    {
      a[at + j] := st[j];
      j := j + 1;
      assert SymState(st, perm)[..j] == SymState(st, perm)[..j - 1] + [SymState(st, perm)[j - 1]];
    }
    assert SymState(st, perm)[..j] == SymState(st, perm);
  }

  /** The probability loop of `writeSamples`: one permuted copy of the distribution. */
  method CopyProbs(a: array<real>, at: int, p: seq<real>, perm: MoveSymmetry)
    requires |p| == MC.NumMoves
    requires 0 <= at && at + MC.NumMoves <= a.Length
    modifies a
    ensures a[..at + MC.NumMoves] == old(a[..at]) + SymProbs(p, perm)
  {
    var j := 0;
    while j < MC.NumMoves
      invariant 0 <= j <= MC.NumMoves
      invariant a[..at + j] == old(a[..at]) + SymProbs(p, perm)[..j]
    {
      a[at + j] := p[perm[j]];
      j := j + 1;
      assert SymProbs(p, perm)[..j] == SymProbs(p, perm)[..j - 1] + [SymProbs(p, perm)[j - 1]];
    }
    assert SymProbs(p, perm)[..j] == SymProbs(p, perm);
  }
}
