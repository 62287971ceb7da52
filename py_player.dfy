/**
 * The players of the Python prototype (implement/player.py): a random
 * player that picks uniformly among the flagged moves, and a human player
 * that reads three-character commands until one names a flagged move.
 *
 * A command is either a placement, a tier letter (B base, C column,
 * A capital) then the row and column digits, or a slide, the row and
 * column digits of the source then a direction U, D, L or R.
 */
module PyPlayer {
  import opened Common
  import MC = MoveCodec
  import CM = CppMove
  import PG = PyGame

  /** `char_to_num`: the tier a placement letter names. */
  function TierOf(letter: char): (t: int)
    requires letter in "ABC"
    ensures 0 <= t < 3
  {
    if letter == 'A' then 2 else if letter == 'C' then 1 else 0
  }

  /** The letter that names tier `t`. */
  function LetterOf(t: int): (letter: char)
    requires 0 <= t < 3
    ensures letter in "ABC" && TierOf(letter) == t
  {
    if t == 2 then 'A' else if t == 1 then 'C' else 'B'
  }

  /** The value of a digit character. */
  function DigitValue(d: char): (n: int)
    requires d in "0123"
    ensures 0 <= n < 4
  {
    d as int - '0' as int
  }

  /** The digit character for 0..3. */
  function DigitOf(n: int): (d: char)
    requires 0 <= n < 4
    ensures d in "0123" && DigitValue(d) == n
  {
    if n == 0 then '0' else if n == 1 then '1' else if n == 2 then '2' else '3'
  }

  /** The (row, column) step a direction letter names. */
  function Step(dir: char): (rc: (int, int))
    requires dir in "UDLR"
  {
    if dir == 'U' then (-1, 0) else if dir == 'D' then (1, 0) else if dir == 'L' then (0, -1) else (0, 1)
  }

  /** The shape `decode_move` accepts: three characters, a placement or a slide. */
  predicate Command(s: string)
  {
    |s| == 3 &&
    if s[0] in "ABC" then s[1] in "0123" && s[2] in "0123"
    else s[0] in "0123" && s[1] in "0123" && s[2] in "UDLR"
  }

  /**
   * `decode_move`: the index a command names, or nothing for text of any
   * other shape. A slide off the board is not refused: its squares go to
   * `encode_move` as they are.
   */
  function DecodeMove(s: string): (r: Option<int>)
    ensures r.Some? <==> Command(s)
    ensures r.Some? && s[0] in "ABC" ==> 48 <= r.value < 96
  {
    if |s| != 3 then None
    else if s[0] in "ABC" then
      if !(s[1] in "0123" && s[2] in "0123") then None
      else Some(CM.EncodePlace(TierOf(s[0]), DigitValue(s[1]), DigitValue(s[2])))
    else if !(s[0] in "0123" && s[1] in "0123") then None
    else if s[2] !in "UDLR" then None
    else
      var row, col := DigitValue(s[0]), DigitValue(s[1]);
      var (dy, dx) := Step(s[2]);
      Some(CM.EncodeMove(row, col, row + dy, col + dx))
  }

  /** The command that names move index `id`. */
  function CommandOf(id: int): (s: string)
    requires 0 <= id < MC.NumMoves
    ensures Command(s)
  {
    var m := MC.Decode(id);
    match m
    case Place(t, to) => [LetterOf(t), DigitOf(to.row), DigitOf(to.col)]
    case Slide(from, to) =>
      var dir := if to.row < from.row then 'U' else if to.row > from.row then 'D' else if to.col < from.col then 'L' else 'R';
      [DigitOf(from.row), DigitOf(from.col), dir]
  }

  /** Every move index has a command, and decoding that command gives the index back. */
  lemma DecodeCommandOf(id: int)
    requires 0 <= id < MC.NumMoves
    ensures DecodeMove(CommandOf(id)) == Some(id)
  {
    var m := MC.Decode(id);
    PG.IndexDecodes(m);
    assert DecodeMove(CommandOf(id)) == Some(PG.Index(m));
    MC.DecodeInjective(PG.Index(m), id);
  }

  /** A command decodes to the move it spells out when its squares are on the board. */
  lemma DecodeNamesMove(s: string)
    requires Command(s)
    requires s[0] !in "ABC" ==>
      var (dy, dx) := Step(s[2]);
      0 <= DigitValue(s[0]) + dy < 4 && 0 <= DigitValue(s[1]) + dx < 4
    ensures 0 <= DecodeMove(s).value < MC.NumMoves
    ensures MC.Decode(DecodeMove(s).value) ==
      if s[0] in "ABC" then MC.Place(TierOf(s[0]), MC.Space(DigitValue(s[1]), DigitValue(s[2])))
      else
        var (dy, dx) := Step(s[2]);
        MC.Slide(MC.Space(DigitValue(s[0]), DigitValue(s[1])), MC.Space(DigitValue(s[0]) + dy, DigitValue(s[1]) + dx))
  {
    if s[0] in "ABC" {
      PG.IndexDecodes(MC.Place(TierOf(s[0]), MC.Space(DigitValue(s[1]), DigitValue(s[2]))));
    } else {
      var (dy, dx) := Step(s[2]);
      PG.IndexDecodes(MC.Slide(MC.Space(DigitValue(s[0]), DigitValue(s[1])), MC.Space(DigitValue(s[0]) + dy, DigitValue(s[1]) + dx)));
    }
  }

  /** A slide off the board is not refused: "00U" decodes to an index. */
  lemma OffBoardSlideDecodes()
    ensures DecodeMove("00U").Some?
  {
  }

  /**
   * As written, `get_move` tests the decoded index for truth before looking
   * it up, so index 0, the slide "00R", is refused even when flagged.
   */
  predicate AcceptedAsWritten(r: Option<int>, legal: seq<bool>)
  {
    r.Some? && r.value != 0 && 0 <= r.value < |legal| && legal[r.value]
  }

  /** A decoded command is accepted when it names a flagged move. */
  predicate Accepted(r: Option<int>, legal: seq<bool>)
  {
    r.Some? && 0 <= r.value < |legal| && legal[r.value]
  }

  /** The command "00R" names the flagged move 0, which the check as written refuses. */
  lemma FirstSlideRefusedAsWritten(legal: seq<bool>)
    requires |legal| == 96 && legal[0]
    ensures DecodeMove("00R") == Some(0)
    ensures Accepted(DecodeMove("00R"), legal) && !AcceptedAsWritten(DecodeMove("00R"), legal)
  {
  }

  /** Accepting differs from the as-written check only for index 0. */
  lemma AcceptedAgrees(r: Option<int>, legal: seq<bool>)
    ensures AcceptedAsWritten(r, legal) <==> Accepted(r, legal) && r != Some(0)
  {
  }

  /**
   * `HumanPlayer.get_move`: read commands until one names a flagged move.
   * The input stream is the sequence `inputs`; when it runs out with
   * nothing accepted the result is None and every command was read.
   */
  method GetMove(inputs: seq<string>, legal: seq<bool>) returns (move: Option<int>, used: nat)
    ensures used <= |inputs|
    ensures move.Some? ==> 1 <= used && move == DecodeMove(inputs[used - 1]) && Accepted(move, legal)
    ensures move.None? ==> used == |inputs|
    ensures forall k | 0 <= k < (if move.Some? then used - 1 else used) :: !Accepted(DecodeMove(inputs[k]), legal)
  {
    used := 0;
    while used < |inputs|
      invariant used <= |inputs|
      invariant forall k | 0 <= k < used :: !Accepted(DecodeMove(inputs[k]), legal)
    {
      var r := DecodeMove(inputs[used]);
      used := used + 1;
      if r.Some? && 0 <= r.value < |legal| && legal[r.value] {
        return r, used;
      }
    }
    return None, used;
  }

  /** `RandomPlayer.get_move`, first half: the flagged indices in increasing order. */
  method Choices(legal: seq<bool>) returns (choices: seq<int>)
    ensures forall k, l | 0 <= k < l < |choices| :: choices[k] < choices[l]
    ensures forall i :: i in choices <==> 0 <= i < |legal| && legal[i]
  {
    choices := [];
    var i := 0;
    while i < |legal|
      invariant 0 <= i <= |legal|
      invariant forall k, l | 0 <= k < l < |choices| :: choices[k] < choices[l]
      invariant forall k | 0 <= k < |choices| :: choices[k] < i
      invariant forall j :: j in choices <==> 0 <= j < i && legal[j]
    {
      if legal[i] {
        choices := choices + [i];
      }
      i := i + 1;
    }
  }

  /**
   * `RandomPlayer.get_move`: one of the flagged indices, the one the
   * generator's draw `pick` selects; nothing when none is flagged (the
   * source's generator raises an error there).
   */
  method RandomMove(legal: seq<bool>, pick: nat) returns (move: Option<int>)
    ensures move.Some? ==> 0 <= move.value < |legal| && legal[move.value]
    ensures move.None? <==> forall i | 0 <= i < |legal| :: !legal[i]
  {
    var choices := Choices(legal);
    if |choices| == 0 {
      forall i | 0 <= i < |legal|
        ensures !legal[i]
      {
        assert i !in choices;
      }
      return None;
    }
    var i := choices[pick % |choices|];
    assert i in choices;
    move := Some(i);
  }
}
