# Corintho engine and search bookkeeping, modelled in Dafny

Corintho is a two-player stacking game on a 4 x 4 board. Every cell holds
a stack of up to three tiers: base, column and capital. A player either
places one of their pieces or slides a whole stack onto an orthogonal
neighbour. A "line" is a row, a column or a diagonal of equal stack tops.
A player who has no legal move loses if a line stands, and otherwise the
game is drawn. The repository is an AlphaZero-style player for the game.
This project models the integer and boolean core of that player, in four
layers.

- **Move codec** (`move_codec.dfy`, `legacy_moves.dfy`). This is the
  bijection between the 96 action indices and moves. Indices 0-47 are
  slides, in blocks of twelve for Right, Down, Left and Up. Indices 48-95
  are placements of three tiers on sixteen cells. The current C++ codec
  is modelled, and so are the first C++ codec, the C codec and the Python
  move class.
- **Rules engine** (`game_rules.dfy`, `old_games.dfy`, `py_lines.dfy`,
  `py_board.dfy`, `py_game.dfy`, `py_player.dfy`, `proto_board.dfy`).
  This layer covers stack tops and bottoms, placement and slide legality,
  applying a move, line detection, legal-move generation, the terminal
  result and the feature vector given to the network. It covers the
  current engine, the first C++ and C engines, and both Python
  prototypes.
- **Search-tree bookkeeping** (`search_tree.dfy`, `tree_ops.dfy`,
  `search_walks.dfy`, `search_buffer.dfy`, `move_choice.dfy`,
  `train_mc.dfy`, `play_mc.dfy`, `old_play_mc.dfy`).
  - A tree node's edges are its legal moves in ascending order, and its
    children are kept in edge order.
  - Results are deduced game-theoretically, and the tree can be re-rooted
    at a child.
  - Searches can be suspended while positions wait for the network's
    evaluation.
  - Moves are chosen from the visit counts.
- **Self-play, matches and helpers** (`self_play.dfy`, `series_play.dfy`,
  `match_play.dfy`, `util_text.dfy`, `alphabeta.dfy`).
  - Results map to scores, and training samples carry alternating value
    labels.
  - Turns alternate between two searchers or between a searcher and a
    random player.
  - Results and lines are named as text.
  - An alpha-beta search runs over values tagged with infinities.

The modern engine keeps its position in 64-bit sets. The model keeps them
as sequences of booleans indexed by bit number. The search tree is a
linked structure of nodes, and the model keeps it as an arena: a sequence
of node records, where a child is an index and -1 stands for null. The
sibling chain is the node's ordered list of child indices. Floating-point
evaluation sums are `real`. Random draws, the network's answers and the
constant tables defined in headers outside the sources are parameters.

Where a source file does something its authors evidently did not intend,
the model keeps both versions. It keeps the code as written and shows the
input that exposes it, and it keeps the corrected code, which the rest of
the model builds on. "## Findings" lists each case.

## Model

| member | source | states |
|---|---|---|
| MoveCodec.Decode | corintho_ai/cpp/src/move.cpp:10-41 | Every index in [0, 96) decodes to a valid move. It is a placement exactly when the index is at least 48, and then its tier is (id-48)/16. Each slide block moves to the orthogonal neighbour in its own direction: Right, Down, Left or Up. |
| MoveCodec.EncodePlace | corintho_ai/cpp/src/move.cpp:79-83 | A placement's index lies in [48, 96), and the decoder's formulas recover its tier, row and column from it. |
| MoveCodec.EncodeMove | corintho_ai/cpp/src/move.cpp:85-107 | It takes the adjacency its asserts demand. The index lies in [0, 48), and its direction block is Right, Down, Left or Up exactly when the target lies that way from the source. |
| MoveCodec.DecodeEncode | corintho_ai/cpp/src/move.cpp:79-107 | Encoding a decoded index gives back the same index, for all 96 indices. |
| MoveCodec.DecodeInjective | corintho_ai/cpp/src/move.cpp:10-41 | Two indices decode to the same move if and only if they are equal. |
| MoveCodec.EncodePlaceDecode | corintho_ai/cpp/src/move.cpp:79-83 | Decoding an encoded placement gives back that placement. |
| MoveCodec.EncodeMoveDecode | corintho_ai/cpp/src/move.cpp:85-107 | Decoding an encoded slide between neighbours gives back that slide. |
| MoveCodec.DecodeSurjective | corintho_ai/cpp/src/move.cpp:43-53 | Every move the two constructors accept has an index. |
| MoveCodec.ColName | corintho_ai/cpp/src/move.cpp:109-123 | Columns 0-3 map to 'a'-'d' in order, and anything else maps to ' '. |
| MoveCodec.SquareName | corintho_ai/cpp/src/move.cpp:66 | A square prints as its column letter followed by its rank 4-row, and both coordinates can be read back from the text. |
| MoveCodec.SlideNotation | corintho_ai/cpp/src/move.cpp:66-74 | A slide prints the source square, then L, R, U or D. Each letter appears exactly when the target lies in that direction, and D also covers a target in the same column at the same or a lower row. |
| MoveCodec.PlaceNotationAsWritten | corintho_ai/cpp/src/move.cpp:56-64 | A placement prints the name of `spaceFrom_`, a square it never sets. |
| MoveCodec.PlaceNotation | corintho_ai/cpp/src/move.cpp:56-64 | The corrected placement text is the tier letter B, C or A followed by the target square. |
| MoveCodec.Notation | corintho_ai/cpp/src/move.cpp:55-77 | Every valid move prints as three characters. |
| MoveCodec.PlaceNotationIgnoresTarget | corintho_ai/cpp/src/move.cpp:64 | Indices 48 and 53 are placements on different squares. As written, both print "Ba4" when the unset field holds a4. |
| MoveCodec.PlaceNotationInjective | corintho_ai/cpp/src/move.cpp:56-64 | The corrected notation gives two placement indices the same text only when they are the same index. |
| MoveCodec.FirstMoveNotation | tests/cpp/move_test.cpp:51-57 | Move 0 prints "a4R". |
| MoveCodec.SlideNotationDirection | corintho_ai/cpp/src/move.cpp:66-74 | Every slide index prints the direction letter of its block. |
| CppMove.Decode | cpp/move.cpp:6-49 | A move is a placement exactly when its index is at least 48. The other fields follow the first C++ decoder, including row (id-32)/4 in the Up block. |
| CppMove.DecodeAgreesWithCurrent | cpp/move.cpp:6-49 | For every index, the first decoder describes the same move as the current one. |
| CppMove.EncodePlace | cpp/move.cpp:52-55 | A placement on the board encodes to an index of at least 48. |
| CppMove.EncodeMove | cpp/move.cpp:58-74 | A rightward slide from a column in 0..2 encodes into the Right block [0, 12). |
| CppMove.RoundTrip | tests/cpp/move_test.cpp:33-43 | `encode_place` and `encode_move` invert the decoder on all 96 indices. |
| CppMove.PlaceInRange | cpp/move.cpp:10-14 | A placement index decodes to a tier in 0..2 on a cell of the board. |
| CppMove.PinnedValues | tests/cpp/move_test.cpp:4-31 | The encodings and decodings the unit tests pin: 48, 75, 0 and 18, move 0 and move 48. |
| CppMove.ColName | cpp/move.cpp:76-84 | Columns 0..2 map to 'a'..'c', and everything else maps to 'd'. |
| CppMove.NotationAgreesWithCurrent | cpp/move.cpp:86-110 | Every decoded move prints exactly as the current codec prints it. The old printer reads the square a placement does set, so its placements name their target. |
| CppMove.FirstMovePrints | tests/cpp/move_test.cpp:51-57 | Move 0 prints "a4R". |
| CMove.Decode | c/move.c:4-61 | A move is a placement exactly when its index is at least 48. Down computes row2 as (id-8)/4, and Up computes row1 as (id-32)/4 and row2 as (id-36)/4. |
| CMove.RowFormulas | c/move.c:31-59 | These alternative formulas name the neighbouring row. |
| CMove.DecodeAgreesWithCurrent | c/move.c:4-61 | For every index, the C decoder describes the same valid move as the current one. |
| CMove.RoundTrip | c/move.c:63-83 | `encode_place` and `encode_move` invert `move_from_id` on all 96 indices. |
| PyMove.DecodeAsWritten | move.py:6-43 | A placement assigns `row` twice and never sets `row1` or `col1`. Slides set all four coordinates. |
| PyMove.Decode | move.py:6-43 | The corrected decoder sets `row1` and `col1` for every index and agrees with the as-written decoder on slides. |
| PyMove.DecodeAgreesWithCurrent | move.py:6-43 | On indices 0..95 the corrected decoder describes the current codec's move. |
| PyMove.SlidesAdjacent | move.py:13-37 | Each slide index decodes to two orthogonally adjacent squares on the board. |
| PyMove.Eq | move.py:69-84 | Moves of different kinds compare unequal. Reading an unset attribute raises AttributeError, and `and` short-circuits. |
| PyMove.EqSlides | move.py:79-84 | Two slides compare equal exactly when all four coordinates agree. |
| PyMove.EqPlacementsRaise | move.py:73-78 | As written, comparing two decoded placements of the same tier raises AttributeError. |
| PyMove.EqDecodedIffSameId | move.py:69-84 | With the corrected decoder, two indices compare equal if and only if they are the same index. |
| PyMove.Lt | move.py:92-115 | Every placement sorts below every slide. |
| PyMove.LtIrreflexive | move.py:92-115 | No decoded move is below itself. |
| PyMove.LtTrichotomy | move.py:92-115 | For two decoded indices, exactly one of a < b and b < a holds when they differ, and neither holds when they are equal. |
| PyMove.LtAgreesWithEq | move.py:92-115 | For two fully set moves of one kind, the two `<` answers differ exactly when `__eq__` answers False. |
| PyMove.Decimal | move.py:132-138 | `str` of a natural number is at least one digit long, and exactly one digit long when the number is at most 9. |
| PyMove.Str | move.py:117-147 | Printing a placement without `row1` raises AttributeError. |
| PyMove.StrSlide | move.py:134-146 | Every decoded slide prints as four characters, and the last one is its block's direction. |
| PyMove.StrPlacement | move.py:124-133 | As written, printing any decoded placement raises AttributeError. Corrected, it prints four characters. |
| GameRules.Cell | corintho_ai/cpp/src/game.cpp:251-254 | A transposed `Space{a, b, transpose}` swaps the row and the column. |
| GameRules.Bit | corintho_ai/cpp/src/game.cpp:141-150 | A flag of a cell is one of the 64 board bits. |
| GameRules.BitParts | corintho_ai/cpp/src/game.cpp:141-150 | The bit row*16 + col*4 + flag gives back its row, its column and its flag. |
| GameRules.BitOf | corintho_ai/cpp/src/game.cpp:141-150 | Every one of the 64 bits is the flag of exactly one cell. |
| GameRules.BitInjective | corintho_ai/cpp/src/game.cpp:182-191 | Two (cell, flag) pairs share a bit only when they are equal, so each setter writes only its own flag. |
| GameRules.Top | corintho_ai/cpp/src/game.cpp:158-168 | `top` lies in -1..2. |
| GameRules.TopFrom | corintho_ai/cpp/src/game.cpp:162-167 | The downward loop from tier t returns a tier no higher than t, or -1. |
| GameRules.TopMeaning | corintho_ai/cpp/src/game.cpp:158-168 | `top` is -1 exactly on an empty cell. Otherwise it is a present tier with nothing above it. |
| GameRules.Bottom | corintho_ai/cpp/src/game.cpp:170-180 | `bottom` lies in 0..3. |
| GameRules.BottomFrom | corintho_ai/cpp/src/game.cpp:174-179 | The upward loop from tier t returns a tier no lower than t, or 3. |
| GameRules.BottomMeaning | corintho_ai/cpp/src/game.cpp:170-180 | `bottom` is 3 exactly on an empty cell. Otherwise it is a present tier with nothing below it. |
| GameRules.CanPlaceStacking | corintho_ai/cpp/src/game.cpp:193-219 | A placement is allowed exactly when the mover still holds the piece and either the cell is empty, frozen or not, or the cell is unfrozen and the tier is top+1. |
| GameRules.ThawedBelow | corintho_ai/cpp/src/game.cpp:67-71 | The reset loop keeps the board at 64 bits. |
| GameRules.ThawedAt | corintho_ai/cpp/src/game.cpp:67-71 | After the reset loop, every frozen flag is clear and every tier bit is unchanged. |
| GameRules.SlideTier | corintho_ai/cpp/src/game.cpp:83-90 | One tier of a slide keeps the board at 64 bits. |
| GameRules.SlideTiers | corintho_ai/cpp/src/game.cpp:83-90 | The tier loop keeps the board at 64 bits. |
| GameRules.SlideTiersAt | corintho_ai/cpp/src/game.cpp:83-90 | After n tiers, each of the first n tiers of the destination holds the union of both cells' bits, and that tier of the source is clear. Every other bit is unchanged. |
| GameRules.Play | corintho_ai/cpp/src/game.cpp:60-96 | `doMove` keeps the board's and the inventory's sizes and hands the move to the other player. |
| GameRules.AfterMove | corintho_ai/cpp/src/game.cpp:60-96 | The state after `doMove(id)` of a legal index has the same shape, with the other player to move. |
| GameRules.PlayPlaceAt | corintho_ai/cpp/src/game.cpp:66-80 | After a placement, exactly the target is frozen, the placed tier is set on the target, and every other tier bit is unchanged. |
| GameRules.PlaySlideAt | corintho_ai/cpp/src/game.cpp:66-93 | After a slide, exactly the destination is frozen. Each destination tier is the union of both cells' tiers, the source is empty, and every other bit is unchanged. |
| GameRules.PlayFreezesTarget | corintho_ai/cpp/src/game.cpp:66-93 | After any move, a cell is frozen if and only if it is the move's target. |
| GameRules.PlayValid | corintho_ai/cpp/src/game.cpp:60-96 | An allowed move keeps the inventories in 0..4 and flips the player. Only its target stays frozen. A placement spends exactly the mover's piece of that tier, and a slide spends nothing. |
| GameRules.PlayStacks | corintho_ai/cpp/src/game.cpp:73-93 | A placement's tier becomes the target's top. A slide empties the source, and the destination keeps its bottom and takes the source's top. No other cell changes. |
| GameRules.CapitalClears | corintho_ai/cpp/src/game.cpp:279-307 | The slides cleared after a capital line are slide indices in [0, 48). |
| GameRules.LineKind | corintho_ai/cpp/src/game.cpp:255-278 | Four tops form a line exactly when three adjacent ones, the middle pair included, are equal and non-empty. The kind is "all four" when the ends are also equal, and otherwise the end the three equal tops sit at. |
| GameRules.RowColAt | corintho_ai/cpp/src/game.cpp:250-311 | One row or column yields a line exactly when its tops form one. |
| GameRules.RowColIndex | corintho_ai/cpp/src/game.cpp:260-277 | The index group*12 + i*3 + tier gives back its group, its row or column, and its tier. |
| GameRules.RowColAtLine | corintho_ai/cpp/src/game.cpp:258-278 | A line found in row or column i carries index i and the tier of the middle tops. Its group is CB or RB for four equal tops, CU or RL when the first end matches, and CD or RR otherwise. |
| GameRules.RowColAtClears | corintho_ai/cpp/src/game.cpp:279-307 | Slides are cleared only after a capital line of three. |
| GameRules.RowColFrom | corintho_ai/cpp/src/game.cpp:250-313 | The scan over rows or columns yields a well-formed result. |
| GameRules.RowColFromFinds | corintho_ai/cpp/src/game.cpp:250-313 | The scan from row i finds a line if and only if some row or column from i on holds one. |
| GameRules.RowColFromClears | corintho_ai/cpp/src/game.cpp:313 | A scan that found no line forbids nothing. |
| GameRules.RowColFromFirst | corintho_ai/cpp/src/game.cpp:264-309 | The scan reports the line of the first row or column holding one, and stops there. |
| GameRules.LongDiagOne | corintho_ai/cpp/src/game.cpp:322-356 | A long diagonal yields a line exactly when its tops form one, and it never clears slides. |
| GameRules.LongDiagScan | corintho_ai/cpp/src/game.cpp:316-359 | `applyLongDiagLines` finds a line exactly when either long diagonal holds one. |
| GameRules.ShortDiagCells | corintho_ai/cpp/src/game.cpp:361-390 | Each of the four short diagonals is three cells on the board. |
| GameRules.ShortDiagFrom | corintho_ai/cpp/src/game.cpp:361-390 | The short-diagonal scan never clears slides. |
| GameRules.ShortDiagFromFinds | corintho_ai/cpp/src/game.cpp:361-390 | The scan from diagonal n finds a line if and only if some short diagonal from n on holds three equal non-empty tops. |
| GameRules.ScansFindAnyLine | corintho_ai/cpp/src/game.cpp:392-404 | `applyLines` reports a line exactly when a row, column, long diagonal or short diagonal holds one. |
| GameRules.Apply | corintho_ai/cpp/src/game.cpp:243-246 | A move stays in the mask exactly when it was there and survives the applied line's breakers and the scan's clears. |
| GameRules.ApplyIdle | corintho_ai/cpp/src/game.cpp:255-256 | A scan that found nothing and cleared nothing leaves the mask unchanged. |
| GameRules.LegalMask | corintho_ai/cpp/src/game.cpp:28-43 | The legal-move mask has one flag per move index. |
| GameRules.LegalMaskSteps | corintho_ai/cpp/src/game.cpp:28-43 | Setting every move, applying the four scans and then clearing the moves that break the rules gives the legal mask. |
| GameRules.NoLineNoFilter | corintho_ai/cpp/src/game.cpp:28-43 | When no line stands, the legal moves are exactly the moves the rules allow. |
| GameRules.IdleScansKeep | corintho_ai/cpp/src/game.cpp:392-404 | Scans that found and cleared nothing keep every move the rules allow. |
| GameRules.Start | tests/cpp/game_test.cpp:6-12 | The default game is the starting position, and it is valid. |
| GameRules.StartEmpty | tests/cpp/game_test.cpp:6-12 | Every cell of the starting position is empty and unfrozen, with top -1. |
| GameRules.StartNoLine | tests/cpp/game_test.cpp:6-11 | `getLegalMoves` on the starting position reports no line. |
| GameRules.StartRules | corintho_ai/cpp/src/game.cpp:193-241 | In the starting position, every placement obeys the rules and no slide does. |
| GameRules.StartPosition | corintho_ai/cpp/src/game.cpp:28-43 | The starting position's legal moves are exactly the 48 placements. |
| GameRules.StartMaskIsRules | corintho_ai/cpp/src/game.cpp:28-43 | In the starting position, the legal mask is exactly the rule check. |
| GameRules.StateVector | corintho_ai/cpp/src/game.cpp:45-58 | The feature vector has 70 entries. |
| GameRules.Swapped | corintho_ai/cpp/src/game.cpp:53-57 | Swapping the two inventories and the player to move gives a valid state. |
| GameRules.StateVectorCanonical | corintho_ai/cpp/src/game.cpp:53-57 | The vector depends on the mover's and the opponent's inventories, not on which player is which. |
| GameRules.StateVectorLayout | corintho_ai/cpp/src/game.cpp:45-58 | The 64 board bits appear as 1.0 or 0.0. The mover's three inventory counts follow, then the opponent's, each scaled by 1/4. |
| GameRules.Game.FromState | corintho_ai/cpp/src/game.cpp:14-26 | The constructor takes the asserted ranges and holds exactly the given state. |
| GameRules.Game.DoMove | corintho_ai/cpp/src/game.cpp:60-96 | `doMove` leaves the state `AfterMove` computes, and the game stays valid. |
| GameRules.Game.PlayMove | corintho_ai/cpp/src/game.cpp:65-95 | Applying the decoded move leaves `Play` of the old state. |
| GameRules.Game.DoPlace | corintho_ai/cpp/src/game.cpp:66-80 | The placement path leaves `Play` of the placement. |
| GameRules.Game.DoSlide | corintho_ai/cpp/src/game.cpp:66-93 | The slide path leaves `Play` of the slide. |
| GameRules.Game.PlacePiece | corintho_ai/cpp/src/game.cpp:73-80 | The board gains the tier and the target's frozen flag, and exactly one of the mover's pieces of that tier is spent. |
| GameRules.Game.SlideStack | corintho_ai/cpp/src/game.cpp:83-92 | The board becomes the three-tier slide of the old board, and the player and pieces are unchanged. |
| GameRules.Game.Thaw | corintho_ai/cpp/src/game.cpp:67-71 | The board becomes the old board with every frozen flag cleared. |
| GameRules.Game.ApplyScan | corintho_ai/cpp/src/game.cpp:243-246 | The mask becomes `Apply` of the old mask under one scan's line and clears. |
| GameRules.Game.RowColLines | corintho_ai/cpp/src/game.cpp:248-314 | Over any shaped position, the loop leaves the mask filtered by the rows' or columns' scan and reports whether it found a line. |
| GameRules.Game.ApplyRowColLines | corintho_ai/cpp/src/game.cpp:248-314 | The mask becomes the old mask filtered by the first row's or column's line, and the result says whether one was found. |
| GameRules.Game.ApplyLines | corintho_ai/cpp/src/game.cpp:392-404 | The mask is filtered by all four scans in order, and the result is true exactly when some line stands. |
| GameRules.Game.GetLegalMoves | corintho_ai/cpp/src/game.cpp:28-43 | The output array ends as the legal mask, and the result is true exactly when some line stands. |
| GameRules.Game.KeepRuleAbiding | corintho_ai/cpp/src/game.cpp:34-38 | A flag stays set exactly when it was set and `isLegalMove` accepts that index. |
| GameRules.Game.WriteGameState | corintho_ai/cpp/src/game.cpp:45-58 | The output array ends as the feature vector of the position. |
| CppGame.Init | cpp/game.cpp:4 | The constructor leaves every tier clear, nothing frozen, player 0 to move and four of each piece. |
| CppGame.TierBit | cpp/game.cpp:8-10 | A tier of a cell is one of the 48 bits at row*12 + col*3 + tier. |
| CppGame.Bottom | cpp/game.cpp:44-50 | `get_bottom` is 3 exactly on an empty cell. Otherwise it is a present tier with no tier below it. |
| CppGame.Top | cpp/game.cpp:54-60 | `get_top` is -1 exactly on an empty cell. Otherwise it is a present tier with no tier above it. |
| CppGame.ToCurrent | cpp/game.cpp:4-12 | The position in the current engine's 64-bit layout has the same player and inventories. |
| CppGame.ToCurrentAt | cpp/game.cpp:6-12 | Each tier and the frozen flag of every cell read the same in both layouts. |
| CppGame.ToCurrentBit | cpp/game.cpp:6-12 | Bit row*16 + col*4 + t of the current layout is tier bit row*12 + col*3 + t, and flag 3 is frozen bit row*4 + col. |
| CppGame.TopBottomAgree | cpp/game.cpp:6-60 | `is_empty`, `get_top` and `get_bottom` agree with the current engine's `empty`, `top` and `bottom` on every cell. |
| CppGame.CanMoveAgrees | cpp/game.cpp:63-70 | `can_move` allows exactly the slides the current `canMove` allows. |
| CppGame.CanPlaceHeldAgrees | cpp/game.cpp:14-40 | With the inventory checked on every cell, `can_place` allows exactly what the current `canPlace` allows. |
| CppGame.EmptyIgnoresInventory | cpp/game.cpp:19-21 | As written, a piece the mover no longer holds is accepted on an empty cell, which the current engine refuses. |
| CppGame.IsLegalHeldAgrees | cpp/game.cpp:73-79 | With the inventory checked on every cell, `is_legal` agrees with the current `isLegalMove` on all 96 indices. |
| CGame.GameRecord.Init | c/game.c:4-17 | `init_game` clears the 48 tiers, freezes every cell but (0,0), (0,1) and (1,1), sets player 0 to move and not done, and gives four of each piece. |
| CGame.IsEmptyInverted | c/game.c:20-26 | As written, `is_empty` is true exactly when the cell is not empty. |
| CGame.NoSlideAsWritten | c/game.c:73-81 | As written, `can_move` refuses every slide. |
| CGame.PlaceAsWritten | c/game.c:29-53 | As written, on an unfrozen cell a base is refused when the cell is empty, and every tier is accepted on an occupied cell. |
| CGame.CanMoveAgrees | c/game.c:73-81 | With `is_empty` corrected, `can_move` is the first C++ engine's slide rule. |
| CGame.CanPlaceRule | c/game.c:29-53 | With `is_empty` corrected, a frozen cell takes nothing and an empty unfrozen cell takes every tier. On an occupied unfrozen cell, a column needs no column and no capital, a capital needs no base and no capital, and a base is refused. |
| CGame.IsLegalAsWrittenRefuses | c/game.c:84-92 | As written, `is_legal` refuses every slide. It also refuses a base on an empty unfrozen cell, which the corrected rule allows. |
| CGame.SlidesAgree | c/game.c:84-92 | With `is_empty` corrected, the C engine and the first C++ engine allow the same slides. |
| PyLines.FourLineCases | board.py:221-230 | A row, column or long diagonal records at most one line. It records one exactly when the middle tops are equal and present and an end joins them. Its tag is the name followed by "b" for both ends, or by the letter of the joining end, and its tier is the middle tier. |
| PyLines.ThreeLine | board.py:313-324 | A short diagonal records one line, with its name and the shared tier, exactly when its three tops are equal and present. |
| PyLines.Check | board.py:213-324 | Each of the fourteen checks of `get_lines` records at most one line. |
| PyLines.LinesUpTo | board.py:213-324 | The first n checks record at most n lines. |
| PyLines.Lines | board.py:213-324 | `get_lines` records at most fourteen lines. |
| PyLines.CheckTagged | board.py:213-324 | Every line a check records over tops in -1..2 has a well-formed tag (kind letter, then index digit, then an end letter for four-cell kinds) and a present tier. |
| PyLines.LinesUpToTagged | board.py:213-324 | Every line the first n checks record is well formed. |
| PyLines.LinesTagged | implement/board.py:206-317 | Every line `get_lines` records is well formed. |
| PyLines.EmptyUpTo | board.py:213-324 | On an empty board, the first n checks record nothing. |
| PyLines.EmptyBoardNoLines | board.py:10-25 | The empty board of a new prototype board has no lines. |
| PyBoard.Cell | implement/board.py:104 | A cell's frozen flag is one of the 16 at row*4 + col. |
| PyBoard.Slot | implement/board.py:69 | A cell's tier is one of the 48 flags at row*12 + col*3 + tier. |
| PyBoard.CellTop | implement/board.py:83-93 | `top` lies in -1..2. |
| PyBoard.CellBottom | implement/board.py:71-81 | `bottom` lies in -1..2. |
| PyBoard.TopsOf | implement/board.py:182-191 | The sixteen tops, cell by cell in row-major order. |
| PyBoard.StartFrozen | implement/board.py:16-19 | Every cell is frozen except (0,0), (0,1) and (1,1). |
| PyBoard.OnlyFrozen | implement/board.py:155-161 | After a move, exactly the target cell is frozen. |
| PyBoard.FreezeOnly | implement/board.py:155-161 | Freezing the target of an unfrozen board freezes that cell alone. |
| PyBoard.Moved | implement/board.py:158-178 | A move keeps the 48 tier flags. |
| PyBoard.Stacked | implement/board.py:164-178 | Or-ing one cell's three tiers into another's and clearing the first keeps the 48 flags. |
| PyBoard.StackedAt | implement/board.py:164-178 | After stacking, the source tiers are clear and each target tier is the or of both. Every other flag is unchanged. |
| PyBoard.MovedSlideAt | implement/board.py:163-178 | After a slide, the source's tiers are clear and each target tier is the or of the two cells' tiers. Every other cell is unchanged. |
| PyBoard.SlideSource | implement/board.py:176-178 | A slide clears every tier of its source. |
| PyBoard.SlideTarget | implement/board.py:164-175 | Each tier of a slide's target becomes the or of the source's and the target's tier. |
| PyBoard.SlideElsewhere | implement/board.py:163-178 | A slide leaves every other cell unchanged. |
| PyBoard.MovedStacked | implement/board.py:163-178 | A slide between neighbours touches two disjoint three-flag blocks, and it is the stacking of the source block onto the target block. |
| PyBoard.SlotApart | implement/board.py:69 | A tier of one cell lies outside the three-flag block of any other cell. |
| PyBoard.CellText | implement/board.py:30-49 | A cell prints as four characters. |
| PyBoard.RowText | implement/board.py:29-49 | The first n cells of a row print as 4n characters. |
| PyBoard.Picture | implement/board.py:22-51 | The first n rows print as 17n characters. |
| PyBoard.RowTextAt | implement/board.py:29-49 | Character 4*col + k of a row's text is character k of that cell's text. |
| PyBoard.PictureAt | implement/board.py:28-50 | Character 17*row + k of the picture is character k of that row's line, newline included. |
| PyBoard.PictureLayout | implement/board.py:22-51 | The picture has 68 characters, and every row ends with a newline. A cell prints B, C and A for present tiers or '_' for absent ones, then '#' when frozen or ' ' otherwise. |
| PyBoard.PictureCell | implement/board.py:28-50 | Each cell's four characters sit at 17*row + 4*col. |
| PyBoard.Board.constructor | implement/board.py:12-20 | A new board has no tier, only (0,0), (0,1) and (1,1) unfrozen, and no lines, which are the lines of its tops. |
| PyBoard.Board.Bottom | implement/board.py:71-81 | `bottom` is -1 exactly on an empty cell. Otherwise it is a present tier with no tier below it. |
| PyBoard.Board.Top | implement/board.py:83-93 | `top` is -1 exactly on an empty cell. Otherwise it is a present tier with no tier above it. |
| PyBoard.Board.Str | implement/board.py:22-51 | The loops build exactly the picture of the board. |
| PyBoard.Board.AsCpp | implement/board.py:12-20 | The same flags form a state of the first C++ engine. |
| PyBoard.Board.CanPlaceAgreesWithCpp | implement/board.py:95-121 | When the mover holds the piece, `can_place` agrees with the first C++ engine except on a base-and-capital stack with no column. |
| PyBoard.Board.TopBottomAgreeWithCpp | implement/board.py:71-93 | `top` agrees with the first C++ engine. `bottom` also agrees, except that it gives -1 rather than 3 on an empty cell. |
| PyBoard.Board.GetTops | implement/board.py:182-191 | The loops give the tops of every cell in row-major order. |
| PyBoard.Board.GetLines | implement/board.py:206-317 | The recorded lines become the lines of the current tops, and nothing else changes. |
| PyBoard.Board.Unfreeze | implement/board.py:155-157 | Every frozen flag is cleared, and the tiers are unchanged. |
| PyBoard.Board.SlideSpaces | implement/board.py:163-178 | The tiers become the slide of the old tiers, and the frozen flags are unchanged. |
| PyBoard.Board.DoMove | implement/board.py:149-180 | The tiers become the moved tiers, exactly the target is frozen, and the lines are recomputed. |
| PyGame.IndexDecodes | implement/game.py:85-164 | `encode_move` and `encode_place` applied to a valid move give an index in [0, 96) that decodes back to that move. |
| PyGame.Sources | implement/game.py:73-82 | A row or column has one or two neighbouring rows or columns, each on the board and adjacent to it. |
| PyGame.ExtendCell | implement/game.py:93-146 | The cell whose top decides an extending slide is one of the 16 cells, whichever reading is taken. |
| PyGame.Target | implement/game.py:72 | The digit of a line's tag names a row, column or diagonal in 0..3. |
| PyGame.StraightAppend | implement/game.py:69-264 | Joining two lists of moves that each start or end on a row or column gives such a list. |
| PyGame.SourceEndGood | implement/game.py:89-100 | The end-cell slides for one neighbouring row are real moves that touch the line's row. |
| PyGame.SourceGood | implement/game.py:84-100 | Every slide named for one neighbouring row is a real move that touches the line's row. |
| PyGame.StraightPlacesGood | implement/game.py:101-117 | The along-the-line slide and the placements of a row line are real moves on that row. |
| PyGame.SourcesMaskGood | implement/game.py:84-100 | The slides for all neighbouring rows touch the line's row. |
| PyGame.StraightMaskGood | implement/game.py:71-117 | Every move a row line (or, transposed, a column line) admits is real and touches it. |
| PyGame.StraightTouches | implement/game.py:71-164 | A row or column line admits only real moves that touch one of its cells. |
| PyGame.ExtendsAppend | implement/game.py:93-147 | Joining two lists whose extending slides all start from a stack of the line's tier gives such a list. |
| PyGame.SourceEndExtends | implement/game.py:92-100 | With the corrected cell, the extending slide from a neighbour is admitted only when that neighbour's top is the line's tier. |
| PyGame.SourcesMaskExtends | implement/game.py:84-100 | The same holds over every neighbouring row or column. |
| PyGame.StraightExtendsAtTier | implement/game.py:71-164 | With the corrected cell, a row or column line admits a slide from off the line onto its open end only from a stack whose top is the line's tier. |
| PyGame.ColumnExtendAsWritten | implement/game.py:140-141 | As written, a column of capitals "c0u" admits the slide of a tier-1 stack from (3,1) onto (3,0), because index 3 + source is read instead of (3, source). The corrected mask does not admit it. |
| PyGame.LongTouches | implement/game.py:166-221 | A long diagonal admits only real moves that touch one of its cells. |
| PyGame.LongUpperGood | implement/game.py:172-179 | The slides onto and off the upper middle cell are real moves that touch the diagonal. |
| PyGame.LongLowerGood | implement/game.py:181-188 | With the slip at line 185 corrected, the slides at the lower middle cell are real moves that touch the diagonal. |
| PyGame.LongEndsGood | implement/game.py:189-208 | The slides at a joined end, extending ones included, are real moves that touch the diagonal. |
| PyGame.LongPlacesGood | implement/game.py:209-221 | The placements a long diagonal admits are on it. |
| PyGame.LongMaskGood | implement/game.py:166-221 | Every move of the corrected long-diagonal mask is real and touches the diagonal, for d0 and for mirrored d1. |
| PyGame.ShortOntoGood | implement/game.py:233-242 | The slides onto a short diagonal are real moves that end on it. |
| PyGame.ShortOffGood | implement/game.py:243-252 | The slides off a short diagonal are real moves that start on it. |
| PyGame.ShortMaskTouches | implement/game.py:223-257 | Every move a short diagonal admits, in any of its four mirrorings, is real and touches it. |
| PyGame.ShortTouches | implement/game.py:223-257 | A short diagonal admits only real moves that touch one of its cells. |
| PyGame.LineMovesTouch | implement/game.py:69-257 | With the two slips corrected, every move any line admits is real and touches that line. |
| PyGame.LongLowerAsWritten | implement/game.py:185 | As written, "d0u" names the slide from (0,2) to (2,2), which is two rows apart. It encodes to index 14, which decodes to the slide (0,2) to (1,2), a move that does not touch the diagonal. |
| PyGame.Admitted | implement/game.py:69-257 | One admitted index set per standing line. |
| PyGame.MaskUpTo | implement/game.py:66-264 | The intersected mask keeps 96 flags. |
| PyGame.MaskUpToEvery | implement/game.py:258-264 | An index survives the first n intersections exactly when each of those n lines admits it. |
| PyGame.PlaceIndex | implement/game.py:277-284 | A placement's flag 48 + tier*16 + cell lies in [48, 96). |
| PyGame.PlaceIndexDecodes | implement/game.py:277-284 | That flag decodes to placing the tier on the cell's row and column. |
| PyGame.LineFlags | implement/game.py:70-257 | The loop leaves `cur` set exactly at the indices of the line's named moves. |
| PyGame.Intersect | implement/game.py:262-264 | An entry of the mask stays set exactly when it is set in both inputs. |
| PyGame.BuildMask | implement/game.py:66-264 | The loop over the lines yields the intersection of what every line admits. |
| PyGame.AdmittedTouches | implement/game.py:69-257 | Every admitted index is a move that touches its line. |
| PyGame.MaskTouches | implement/game.py:66-264 | An index that survives the intersection touches every standing line. |
| PyGame.MaskOfNoLines | implement/game.py:66-68 | With no line standing, every index survives. |
| PyGame.LegalMovesAsWritten | implement/game.py:62-65 | As written, `get_legal_moves` returns exactly when more than two lines stand, and then flags no move. With at most two lines it raises AttributeError at the first read of `self.board.tops` (implement/game.py:273), since a board has no such attribute (implement/board.py:12-20). |
| PyGame.VectorAsWritten | implement/game.py:321-327 | As written, `get_vector` raises AttributeError on every position, at the read of `self.board.bottoms`. |
| PyGame.StartGameAsWritten | implement/game.py:273 | On the starting game the written `get_legal_moves` and `get_vector` raise, while the corrected members offer a base on a4, which `is_legal` accepts, and give a 70-entry vector. |
| PyGame.TierSlot | implement/game.py:328 | The mark of tier j of cell c is entry 3c + j of 48. |
| PyGame.Marks | implement/game.py:325-328 | Entry 3c + j is 1.0 exactly when tier j lies between the cell's bottom and top, and 0.0 otherwise. |
| PyGame.Hand | implement/game.py:321-324 | A hand of three counts gives three scaled entries. |
| PyGame.VectorOf | implement/game.py:315-330 | The vector has 70 entries: 48 marks, 16 frozen flags and two hands. |
| PyGame.MarkedIsPresent | implement/game.py:326-328 | On a stack without a gap, a tier is marked exactly when it is present. |
| PyGame.VectorCanonical | implement/game.py:321-324 | Swapping the two hands and the player to move leaves the vector unchanged. |
| PyGame.WrappedSlot | implement/game.py:328 | A write at 3c + j lands in the array as Python's negative indexing places it. |
| PyGame.StartVectorAsWritten | implement/game.py:326-328 | As written, on the empty starting board every empty cell c walks its tiers from -1 to -1 and writes entry 3c - 1: the capital of cell c - 1, and for cell 0 the capital of cell 15. All sixteen capital entries are marked although the board is empty. The corrected marks leave all 48 entries clear. |
| PyGame.MarkCell | implement/game.py:327-328 | The loop marks the tiers of one cell from its bottom to its top, marks nothing for an empty cell, and changes no other entry. |
| PyGame.Game.constructor | implement/game.py:19-26 | A new game has an empty board with only three cells unfrozen and no lines, player 0 to move, four of each piece for both players and no outcome. |
| PyGame.Game.Mask | implement/game.py:62-264 | The mask of the standing lines has 96 flags. It is built from the tops computed from the board, the corrected reading of `self.board.tops`. |
| PyGame.Game.GetLegalMoves | implement/game.py:56-286 | Corrected half of the implement/game.py:273-285 finding, reading the tops computed from the board. A slide is flagged exactly when at most two lines stand, every line admits it and `is_legal` accepts it. A placement is flagged exactly when at most two lines stand, every line admits it, the mover holds the piece, and the cell is unfrozen and either empty or topped one tier below. |
| PyGame.Game.LegalSlides | implement/game.py:265-269 | The slide loop flags exactly the masked slides that the rules allow, and no placement. |
| PyGame.Game.LegalPlaces | implement/game.py:270-285 | The placement loop flags exactly the allowed placements and keeps the slides. |
| PyGame.Game.PlaceCell | implement/game.py:272-285 | One cell's pass flags its three placements as the filter decides and changes nothing else. |
| PyGame.Game.DoMove | implement/game.py:288-313 | Corrected half of the implement/game.py:273-285 finding. The board takes the move, and a placement spends one piece of its tier from the mover. Then the other player moves. The result is the new legal mask, together with no outcome while a move is flagged, the previous mover's win when a line stands, or a draw. |
| PyGame.Game.DoMoveAsWritten | implement/game.py:300-313 | As written, the piece is spent, the board moved and the turn passed before `get_legal_moves` raises AttributeError. Only when more than two lines stand does the call return, recording a win for the player who moved. |
| PyGame.Game.Advance | implement/game.py:300-304 | The move is applied to the board and the pieces, and the player to move changes. |
| PyGame.Game.GetVector | implement/game.py:315-330 | Corrected half of the implement/game.py:327 and 326-328 findings: with the bottoms and tops computed from the board and empty cells skipped, the walk gives the canonical 70-entry vector of the position. |
| PyGame.PlaceRuleHolds | implement/board.py:95-121 | An unfrozen cell that is empty, or topped one tier below the piece, accepts the placement under the board's rule. |
| PyGame.PlaceRuleExact | implement/board.py:95-121 | On an unfrozen stack without a gap, the board accepts the placement exactly when the cell is empty or topped one tier below the piece. This is the converse of `PlaceRuleHolds`. |
| PyGame.PlaceOfferedIsLegal | implement/game.py:43-54 | Every flagged placement is one `is_legal` accepts. This is a property of the corrected `get_legal_moves`; as written the call flags nothing. |
| PyGame.SlideOfferedTouchesLines | implement/game.py:56-269 | Every flagged slide starts or ends on every standing line. This is a property of the corrected `get_legal_moves`; as written the call flags nothing. |
| PyGame.PlaceOfferedTouchesLines | implement/game.py:56-285 | Every flagged placement lands on every standing line. This is a property of the corrected `get_legal_moves`; as written the call flags nothing. |
| PyGame.NoLinesOffered | implement/game.py:56-286 | With no line standing, a slide is flagged exactly when it is legal. A placement on a gap-free stack is flagged exactly when it is legal and the cell is unfrozen. This is a property of the corrected `get_legal_moves`; as written the call raises. |
| PyGame.NoLinesSlide | implement/game.py:267-269 | With no line standing, a slide is flagged exactly when `is_legal` accepts it, in the corrected `get_legal_moves`. |
| PyGame.NoLinesPlace | implement/game.py:271-285 | With no line standing, a placement on a gap-free stack is flagged exactly when `is_legal` accepts it and the cell is unfrozen, in the corrected `get_legal_moves`. |
| PyPlayer.TierOf | implement/player.py:65 | A placement letter names a tier in 0..2. |
| PyPlayer.LetterOf | implement/player.py:65 | Each tier has a letter, and the letter reads back as that tier. |
| PyPlayer.DigitValue | implement/player.py:68-73 | A digit 0-3 has a value in 0..3. |
| PyPlayer.DigitOf | implement/player.py:68-73 | Each value in 0..3 has a digit, and the digit reads back as that value. |
| PyPlayer.DecodeMove | implement/player.py:62-92 | `decode_move` yields an index exactly for a three-character placement or slide command, and nothing for any other text. A placement command's index lies in [48, 96). |
| PyPlayer.CommandOf | implement/player.py:62-92 | Every move index has a command of the accepted shape. |
| PyPlayer.DecodeCommandOf | implement/player.py:62-92 | Decoding the command of any index gives back that index, so every move can be entered. |
| PyPlayer.DecodeNamesMove | implement/player.py:62-92 | A command whose squares are on the board decodes to the move it spells out: the tier and cell for a placement, or the source and the step in its direction for a slide. |
| PyPlayer.OffBoardSlideDecodes | implement/player.py:73-92 | A slide off the board, such as "00U", is not refused by `decode_move`. |
| PyPlayer.FirstSlideRefusedAsWritten | implement/player.py:50-55 | The command "00R" decodes to index 0. When that move is flagged, the corrected check accepts it, but the truth test as written refuses it. |
| PyPlayer.AcceptedAgrees | implement/player.py:51-55 | The check as written and the corrected check differ only on index 0. |
| PyPlayer.GetMove | implement/player.py:49-56 | Commands are read in order until one names a flagged move, which is returned. Every earlier command names no flagged move. When the input runs out, every command was read and none was accepted. |
| PyPlayer.Choices | implement/player.py:30-33 | The flagged indices, in increasing order, exactly. |
| PyPlayer.RandomMove | implement/player.py:29-35 | The chosen index is flagged. The result is None exactly when no index is flagged, standing for the ValueError that `rng.choice` raises on an empty list. |
| ProtoBoard.TopAnswer | board.py:135-144 | `is_top` answers True exactly when the tier is the cell's top, False when a higher tier is present, and None when the tier lies above the top. |
| ProtoBoard.Cleared | board.py:67-73 | Clearing a cell keeps the 48 tier flags. |
| ProtoBoard.ClearedEmpties | board.py:67-73 | After `clear`, the cell is empty and every other cell is unchanged. |
| ProtoBoard.Board.constructor | board.py:10-25 | A new board has no tier, only (0,0), (0,1) and (1,1) unfrozen, and no lines. |
| ProtoBoard.Board.Bottom | board.py:75-85 | `bottom` is -1 exactly on an empty cell. Otherwise it is a present tier with no tier below it. |
| ProtoBoard.Board.Top | board.py:87-97 | `top` is -1 exactly on an empty cell. Otherwise it is a present tier with no tier above it. |
| ProtoBoard.Board.CanPlaceOnTop | board.py:99-119 | On a stack without a gap, `can_place` accepts exactly on an unfrozen cell that is either empty or topped one tier below the piece. |
| ProtoBoard.Board.CanMoveRule | board.py:121-133 | `can_move` accepts exactly when both cells are occupied and unfrozen and the source's bottom is one above the target's top. |
| ProtoBoard.Board.IsTop | board.py:135-144 | As `TopAnswer`, stated on the board's own cells. |
| ProtoBoard.Board.IsLegalMoveRule | board.py:146-157 | With the arguments in the intended order, a placement on a gap-free stack is legal exactly when the cell is unfrozen and either empty or topped one tier below. A slide is legal exactly when `can_move` accepts it. |
| ProtoBoard.Board.Clear | board.py:67-73 | The cell's tiers are cleared, and the frozen flags and the lines are unchanged. |
| ProtoBoard.Board.Str | board.py:27-56 | The loops build exactly the picture of the board. |
| ProtoBoard.Board.GetTops | board.py:189-198 | The loops give the tops of every cell in row-major order. |
| ProtoBoard.Board.GetLines | board.py:213-324 | The recorded lines become the lines of the current tops, and nothing else changes. |
| ProtoBoard.Board.Unfreeze | board.py:164-166 | Every frozen flag is cleared, and the tiers are unchanged. |
| ProtoBoard.Board.SlideSpaces | board.py:171-186 | The tiers become the slide of the old tiers, and the frozen flags are unchanged. |
| ProtoBoard.Board.DoMove | board.py:159-187 | The tiers become the moved tiers, exactly the target is frozen, and the lines are recomputed. |
| ProtoBoard.SwappedArgumentsRefuse | board.py:146-157 | On the starting board, a base on (0,1) is legal. As written, `is_legal_move` passes the row, the column and the tier in the wrong order and refuses it. |
| AlphaBetaValue.Neg | corintho_ai/cpp/src/alphabeta/dtypes.cpp:49-57 | Negation keeps a value normal or infinite. |
| AlphaBetaValue.NegInvolution | corintho_ai/cpp/src/alphabeta/dtypes.cpp:49-57 | Negating twice gives the value back. |
| AlphaBetaValue.Text | corintho_ai/cpp/src/alphabeta/dtypes.cpp:59-68 | A normal value prints as its number. An infinity prints as "+INFTY" or "-INFTY", with '+' exactly for +infinity. |
| AlphaBetaValue.LtMeaning | corintho_ai/cpp/src/alphabeta/dtypes.cpp:5-13 | `<` is the order of the extended reals, except that -infinity < -infinity also holds. |
| AlphaBetaValue.GtMeaning | corintho_ai/cpp/src/alphabeta/dtypes.cpp:15-23 | `>` is the reversed order, except that +infinity > +infinity also holds. |
| AlphaBetaValue.EqMeaning | corintho_ai/cpp/src/alphabeta/dtypes.cpp:33-47 | `==` is equality of the tagged values, and `!=` is its negation. |
| AlphaBetaValue.NegSwapsOrder | corintho_ai/cpp/src/alphabeta/dtypes.cpp:5-57 | Negation turns `<` into `>` and reverses the extended-real order. |
| AlphaBetaValue.InfinityQuirks | corintho_ai/cpp/src/alphabeta/dtypes.cpp:5-31 | -infinity < -infinity holds while -infinity >= -infinity fails, and +infinity > +infinity holds while +infinity <= +infinity fails. |
| AlphaBetaValue.BelowTotal | corintho_ai/cpp/src/alphabeta/dtypes.cpp:5-23 | The reference order is irreflexive, total and transitive. |
| AlphaBetaSearch.Evaluate | corintho_ai/cpp/src/alphabeta/node.cpp:39-41 | `evaluate` returns 0. |
| AlphaBetaSearch.SearchNode | corintho_ai/cpp/src/alphabeta/node.cpp:43-58 | The loop computes the fail-hard negamax value. It returns `evaluate()` at depth 0 or without children, beta at the first child whose negated score reaches beta, and otherwise the running maximum of alpha and the scores. |
| AlphaBetaSearch.SearchFromWindow | corintho_ai/cpp/src/alphabeta/node.cpp:48-57 | From a window with alpha at most beta, the loop's result lies between alpha and beta. |
| AlphaBetaSearch.SearchWithinWindow | corintho_ai/cpp/src/alphabeta/node.cpp:43-58 | A node with children searched at a nonzero depth returns a value within its window, as a fail-hard search does. |
| AlphaBetaSearch.SearchZero | corintho_ai/cpp/src/alphabeta/node.cpp:39-58 | Since every leaf is worth 0, a search whose window contains 0 returns 0. |
| AlphaBetaSearch.SearchFromZero | corintho_ai/cpp/src/alphabeta/node.cpp:48-57 | The loop over the children returns 0 from such a window. |
| AlphaBetaSearch.Successors | corintho_ai/cpp/src/alphabeta/node.cpp:28-35 | One child per move index. |
| AlphaBetaSearch.SuccessorsSnoc | corintho_ai/cpp/src/alphabeta/node.cpp:28-35 | Adding a move appends exactly its child, which holds the game with that move applied. |
| AlphaBetaSearch.LegalIds | corintho_ai/cpp/src/alphabeta/node.cpp:26-35 | The moves that get children are legal move indices. |
| AlphaBetaSearch.CreateChildren | corintho_ai/cpp/src/alphabeta/node.cpp:22-37 | An initialized node is returned unchanged. Otherwise the node becomes initialized and gains one child per legal move in ascending order. |
| AlphaBetaSearch.AppendChildren | corintho_ai/cpp/src/alphabeta/node.cpp:28-35 | The loop appends one child per flagged index, in ascending order. |
| AlphaBetaSearch.SuccessorsAreLegalMoves | corintho_ai/cpp/src/alphabeta/node.cpp:26-35 | The children's moves increase. They are exactly the moves `getLegalMoves` flags, and each child holds the game after `doMove` of its move. |
| AlphaBetaSearch.SuccessorsAt | corintho_ai/cpp/src/alphabeta/node.cpp:31-33 | Child k holds the parent's game with move k applied. |
| ResultText.StrResult | corintho_ai/cpp/src/util.cpp:5-25 | A result prints as one letter and a deduced result as two. The text is "N" exactly for no result. |
| ResultText.DeducedText | corintho_ai/cpp/src/util.cpp:15-23 | A deduced result prints as "D" followed by the letter of the result it deduces. |
| ResultText.ParseResult | corintho_ai/cpp/util.cpp:53-73 | Reading a text back gives the one result that prints as it, or nothing. |
| ResultText.StrResultInjective | corintho_ai/cpp/src/util.cpp:5-25 | Two results print the same only when they are equal. |
| LineNames.TierChar | corintho_ai/cpp/util.cpp:41-50 | The tier suffix is B, C or A. |
| LineNames.PrintLine | corintho_ai/cpp/util.cpp:6-51 | For the first 72 indices, `print_line` writes the row or column group, then (line % 12) / 3, then the tier of line % 3. From 72 on it writes the diagonal group of each block of three, then the tier, and everything from 99 on is named S3. |
| LineNames.RowColLineName | corintho_ai/cpp/util.cpp:7-18 | Index G*12 + i*3 + t is named by group G, digit i and tier t. |
| LineNames.DiagLineName | corintho_ai/cpp/util.cpp:19-39 | Index 72 + G*3 + t is named by diagonal group G and tier t. |
| LineNames.TierOf | corintho_ai/cpp/util.cpp:41-50 | The tier letter reads back as its tier. |
| LineNames.IndexIn | corintho_ai/cpp/util.cpp:6-39 | The position of a group name is its last occurrence, or -1 when it is absent. |
| LineNames.NamesDistinct | corintho_ai/cpp/util.cpp:6-39 | The six row and column group names are distinct two-letter names starting with R or C. The ten diagonal group names are distinct and start with D or S. |
| LineNames.RowColParses | corintho_ai/cpp/util.cpp:7-18 | A row or column line's name reads back as its index. |
| LineNames.DiagParses | corintho_ai/cpp/util.cpp:19-39 | A diagonal line's name reads back as its index. |
| LineNames.PrintLineParses | corintho_ai/cpp/util.cpp:6-51 | Each of the 102 line names reads back as its own index, so no two lines share a name. |
| MoveChoice.EvalOf | corintho_ai/cpp/src/trainmc.cpp:189-194 | A child known to be drawn is valued 0. Every other child is valued by its evaluation. |
| MoveChoice.Worth | corintho_ai/cpp/src/playmc.cpp:132-137 | The second generation breaks ties by that value. The first generation (cpp/playmc.cpp:79-81) breaks them by the raw evaluation. |
| MoveChoice.FirstLost | corintho_ai/cpp/src/trainmc.cpp:87-100 | A won root picks the first child that is lost for its side to move. When no child is lost, it picks none. |
| MoveChoice.FindChild | corintho_ai/cpp/src/trainmc.cpp:214-225 | The scan finds the first child carrying the opponent's move, and reports -1 exactly when no child carries it. The same scan is at playmc.cpp:156-165 and cpp/playmc.cpp:100-109. |
| MoveChoice.MostVisited | corintho_ai/cpp/src/trainmc.cpp:105-138 | The pick is an eligible child that no eligible child beats. It beats every eligible child before it, so ties go to the earlier child. With none picked, no eligible child beats 0 visits. The same loops are at trainmc.cpp:180-207, playmc.cpp:93-149 and cpp/playmc.cpp:71-90. |
| MoveChoice.ResultPick | corintho_ai/cpp/src/playmc.cpp:66-149 | The four branches, chosen by the root's result: a won root takes the first lost child; a lost root the most visited child; a drawn root the most visited child that is not a deduced win for the opponent; any other root the most visited such child, with ties broken by value. |
| MoveChoice.ResultChoiceNotWon | corintho_ai/cpp/src/trainmc.cpp:83-207 | Unless the root is lost, the chosen move never hands the opponent a deduced win. From a won root it is a lost child. |
| MoveChoice.VisitsScan | cpp/playmc.cpp:55-69 | Below depth 9 the choice is the first child whose running visit total exceeds the target. With a non-negative target, that child has been visited. |
| MoveChoice.VisitsChoiceUnique | cpp/playmc.cpp:55-69 | The visit-weighted choice is a function of the target: no two children qualify. |
| MoveChoice.Zeros | corintho_ai/cpp/src/trainmc.cpp:73-75 | The cleared sample holds 0 for each of the 96 moves. |
| MoveChoice.Share | corintho_ai/cpp/src/trainmc.cpp:153-161 | A visited child gets a positive share of the opening sample. |
| MoveChoice.Spread | corintho_ai/cpp/src/trainmc.cpp:157-177 | The opening sample has one entry for each of the 96 moves. That it is a distribution is `OpeningSampleDistribution`. |
| MoveChoice.SpreadStep | corintho_ai/cpp/src/trainmc.cpp:158-161 | Each child that is not a deduced win for the opponent writes its share at its move id. Every other child leaves the sample alone. |
| MoveChoice.SpreadAt | corintho_ai/cpp/src/trainmc.cpp:157-177 | Children are in increasing move order, so each move's entry is the share of the child carrying it. A move no eligible child carries keeps 0. |
| MoveChoice.OpeningSample | corintho_ai/cpp/src/trainmc.cpp:142-178 | The sample the opening writes covers all 96 moves. |
| MoveChoice.OpeningPick | corintho_ai/cpp/src/trainmc.cpp:142-178 | In the opening, the choice is the first eligible child whose running visit total exceeds the draw modulo the eligible visits. The sample holds every eligible child's share of the visits. |
| MoveChoice.OpeningScan | corintho_ai/cpp/src/trainmc.cpp:152-169 | The scan stops at an eligible child whose running total brackets the target. By then it has written the shares of the children up to that one. |
| MoveChoice.SpreadTotal | corintho_ai/cpp/src/trainmc.cpp:157-177 | Children are in increasing move order, so each eligible child writes a slot still at 0. The sample then sums to the factor times the eligible visits. |
| MoveChoice.SpreadNonnegative | corintho_ai/cpp/src/trainmc.cpp:157-177 | With no negative visits and a nonnegative factor, no entry of the sample is negative. |
| MoveChoice.OpeningSampleTotal | corintho_ai/cpp/src/trainmc.cpp:157-177 | The factor is one over the eligible visits, so the opening sample sums to 1. |
| MoveChoice.OpeningSampleDistribution | corintho_ai/cpp/src/trainmc.cpp:157-177 | The opening sample is a distribution over the 96 moves: no entry is negative and the entries sum to 1. |
| MoveChoice.SpreadRest | corintho_ai/cpp/src/trainmc.cpp:170-177 | After the choice, the loop writes the remaining children's shares, completing the whole opening sample. |
| MoveChoice.OpenVisitsGrow | corintho_ai/cpp/src/trainmc.cpp:144-151 | The running total of eligible visits never decreases along the list. |
| MoveChoice.OpeningChoiceUnique | corintho_ai/cpp/src/trainmc.cpp:152-169 | The opening choice is a function of the draw. |
| MoveChoice.OneHot | corintho_ai/cpp/src/trainmc.cpp:99 | Outside the opening, the sample is 1 at the chosen move and unchanged elsewhere. |
| SearchTree.ResultPredicates | corintho_ai/cpp/src/node.cpp:94-113 | A terminal node is known, never won, and either lost or drawn. Known means won, lost, drawn or a plain win. Won, lost and drawn exclude each other. The first generation's `is_terminal` (cpp/node.cpp:50-52) adds exactly the plain win. |
| SearchTree.MoveIds | corintho_ai/cpp/src/node.cpp:273-281 | The move ids of a node's edges, one per edge. |
| SearchTree.NewEdges | corintho_ai/cpp/src/node.cpp:276-281 | New edges carry the given move ids, in order, each with prior 0. |
| SearchTree.Fresh | corintho_ai/cpp/src/node.cpp:254-281 | A new node with no legal move is terminal with 0 visits: lost when the position has a line, drawn otherwise. Any other new node has 1 visit, no result, and one prior-0 edge per legal move, in increasing move order and covering every legal move. |
| SearchTree.FreshChild | corintho_ai/cpp/src/node.cpp:29-37 | A child node plays its move on the parent's game, passes the turn to the other player, records the move as its child id, and sits one level deeper. |
| SearchTree.FreshEdgesAreLegal | corintho_ai/cpp/src/node.cpp:254-281 | A move has an edge in a new node exactly when it is legal there. |
| SearchTree.Create | corintho_ai/cpp/src/node.cpp:23-27 | Constructing a node builds the node `Fresh` describes. |
| SearchTree.FillEdges | corintho_ai/cpp/src/node.cpp:273-281 | The edge loop produces one prior-0 edge for each set bit of the legal-move set, in increasing order. |
| SearchTree.DefaultNode | corintho_ai/cpp/src/node.cpp:12-15 | The default node is the root at depth 0 holding the starting position. |
| SearchTree.DefaultNodeNotTerminal | tests/cpp/node_test.cpp:7-17 | The default node is not terminal. Its edges are exactly the 48 placements, ids 48 to 95 in order. |
| SearchTree.PlacementEdges | corintho_ai/cpp/src/node.cpp:273-281 | When the legal moves are exactly the placements, the edges are the 48 placements in order, each with prior 0. |
| SearchTree.KidIds | corintho_ai/cpp/src/trainmc.cpp:358-389 | The child ids of a child list, one per child. |
| SearchTree.Kids | corintho_ai/cpp/src/node.cpp:51-53 | The children of a node, read through the arena, one per entry of its child list. |
| SearchTree.UpdateKeepsTree | corintho_ai/cpp/src/trainmc.cpp:400-404 | Updating a node's counters, result or edges without touching its links keeps the tree well formed. |
| SearchTree.Count | corintho_ai/cpp/src/node.cpp:176-184 | `countNodes` counts a node plus everything below it, so at least one more than its child count. |
| SearchTree.CountFrom | corintho_ai/cpp/src/node.cpp:178-182 | The counting loop over the sibling chain adds at least one per remaining child. |
| SearchTree.CountFresh | tests/cpp/node_test.cpp:7-17 | A new node on its own is a well-formed tree whose count is 1. |
| SearchTree.Subtree | corintho_ai/cpp/src/node.cpp:17-21 | The subtree of a node holds exactly the nodes below it: the set a destructor call frees. |
| SearchTree.SubtreesFrom | corintho_ai/cpp/src/node.cpp:17-21 | The subtrees of a node's children from position k on: the set freed by deleting a sibling chain from that child. |
| SearchTree.SubtreesDisjoint | corintho_ai/cpp/src/node.cpp:17-21 | A child's subtree shares no node with the subtrees of the siblings after it, so the destructor frees each node once. |
| SearchTree.SubtreeSplit | corintho_ai/cpp/src/node.cpp:17-21 | A subtree is the node itself plus, disjointly, its children's subtrees. |
| SearchTree.CountIsSize | corintho_ai/cpp/src/node.cpp:176-184 | `countNodes` equals the number of nodes in the subtree. |
| SearchTree.CountFromIsSize | corintho_ai/cpp/src/node.cpp:178-182 | The sibling-chain count equals the number of nodes in the remaining children's subtrees. |
| SearchTree.Position | corintho_ai/cpp/src/trainmc.cpp:358-381 | The position of a move id in the child list holds that id. The position is -1 exactly when no child holds it. |
| SearchTree.PositionUnique | corintho_ai/cpp/src/trainmc.cpp:358-381 | In an increasing child list, each child is found at its own position. |
| SearchTree.ChildScore | corintho_ai/cpp/src/trainmc.cpp:360-376 | The score of an existing child. The second generation skips a fully visited child, and any child whose result is known and not a draw. A known draw is scored by the prior term alone. The first generation (cpp/playmc.cpp:235-241) skips only fully visited children. |
| SearchTree.EdgeScores | corintho_ai/cpp/src/trainmc.cpp:358-399 | The walk gives one score per edge. |
| SearchTree.MatchedScore | corintho_ai/cpp/src/trainmc.cpp:361-376 | An edge with a child is scored from that child. |
| SearchTree.UnmatchedScore | corintho_ai/cpp/src/trainmc.cpp:379-381 | An edge without a child is scored by its prior term. This holds also after the child list ends (390-399). |
| SearchTree.BestOf | corintho_ai/cpp/src/trainmc.cpp:382-399 | The choice among the scores is an edge index, or -1. |
| SearchTree.BestOfIsBest | corintho_ai/cpp/src/trainmc.cpp:382-399 | The walk takes the first edge of the highest score above -2, with that score as the maximum. It takes none, keeping -2, exactly when every score is at most -2. |
| SearchTree.WalkDone | corintho_ai/cpp/src/trainmc.cpp:390-399 | When the edges run out, the child list has been consumed. The recorded previous node is the last child whose id is not above the chosen move. |
| SearchTree.Select | corintho_ai/cpp/src/trainmc.cpp:346-399 | The joint walk over edges and children returns the best-scoring edge's move and maximum, as `BestOfIsBest` describes. The previous node it returns is the last child with id up to that move, so inserting after it keeps the child list in move order. The same walk is at playmc.cpp:277-329 and cpp/playmc.cpp:222-264. |
| TreeOps.TreeLinked | corintho_ai/cpp/src/node.cpp:29-37 | In a well-formed tree every parent comes before its child and sits one level higher. |
| TreeOps.Path | corintho_ai/cpp/src/trainmc.cpp:415-422 | The nodes the walk to the root passes: the node itself and ancestors, none later in the arena. |
| TreeOps.PathOfRoot | corintho_ai/cpp/src/trainmc.cpp:415-422 | From a node without a parent, the walk visits that node alone. |
| TreeOps.PathTransitive | corintho_ai/cpp/src/trainmc.cpp:415-422 | The walk from any node on a path stays within that path. |
| TreeOps.PathChain | corintho_ai/cpp/src/trainmc.cpp:415-422 | Of two nodes on one path, the earlier one is an ancestor of the later one. |
| TreeOps.PathKept | corintho_ai/cpp/src/trainmc.cpp:428-437 | Appending nodes or changing anything but parent links leaves existing paths as they were. |
| TreeOps.PlantKeepsTree | corintho_ai/cpp/src/trainmc.cpp:228-230 | Adding a new parentless node with no children keeps the tree well formed. |
| TreeOps.Shift | corintho_ai/cpp/src/trainmc.cpp:401-404 | A visit and evaluation update changes those two counters by the given amounts and nothing else. |
| TreeOps.ShiftBack | corintho_ai/cpp/src/trainmc.cpp:415-422 | Undoing an update with the opposite amounts restores the node exactly. |
| TreeOps.ShiftPath | corintho_ai/cpp/src/trainmc.cpp:415-422 | The walk to the root updates every node on the path by the same amounts and leaves all other nodes alone. |
| TreeOps.SameShapesKeepTree | corintho_ai/cpp/src/trainmc.cpp:400-425 | Counter and result updates never break the tree. |
| TreeOps.Inserted | corintho_ai/cpp/src/trainmc.cpp:427-440 | Splicing into the sibling chain puts the new child at the given position and shifts the later children by one, keeping their order. |
| TreeOps.Grow | corintho_ai/cpp/src/trainmc.cpp:427-440 | A new child node is appended with the parent's move played. The parent's child list gains it at the given position. No other node changes. |
| TreeOps.InsertIncreasing | corintho_ai/cpp/src/trainmc.cpp:427-440 | Splicing a move between the smaller and the larger ids keeps the child list in increasing order. |
| TreeOps.GrowKids | corintho_ai/cpp/src/trainmc.cpp:427-440 | The child ids of the grown parent are the old ones with the new move spliced in at the position. |
| TreeOps.GrowKeepsTree | corintho_ai/cpp/src/trainmc.cpp:427-440 | Inserting the child of a legal move after the last smaller id keeps the tree well formed, with child lists in edge order. |
| TreeOps.Removed | corintho_ai/cpp/src/trainmc.cpp:490-496 | Unlinking a child from the sibling chain removes exactly that position and keeps the others in order. |
| TreeOps.Detach | corintho_ai/cpp/src/trainmc.cpp:486-505 | Detaching the chosen child gives it no parent and removes it from the old root's child list. No other node changes. |
| TreeOps.DetachKids | corintho_ai/cpp/src/trainmc.cpp:490-496 | The old root's child ids lose exactly the chosen one. |
| TreeOps.RemoveIncreasing | corintho_ai/cpp/src/trainmc.cpp:490-496 | Removing a child keeps the list in increasing order. |
| TreeOps.DetachKeepsTree | corintho_ai/cpp/src/trainmc.cpp:486-505 | Detaching keeps the tree well formed, and the chosen child comes after the old root in the arena. |
| TreeOps.OrderedFits | corintho_ai/cpp/src/trainmc.cpp:358-389 | A child list in edge order has at most as many children as the node has edges. |
| TreeOps.CheckKids | corintho_ai/cpp/src/trainmc.cpp:524-543 | The scan of `propagate_result` reports the child list complete exactly when every edge has a child, in order, with a known result. It then reports whether some child is drawn. |
| TreeOps.DeducedKept | corintho_ai/cpp/src/trainmc.cpp:516-556 | A deduction already made stays valid when only nodes further up the path change. |
| TreeOps.PropStep | corintho_ai/cpp/src/trainmc.cpp:516-556 | One deduction step keeps the loop's invariant, with the parent as the new current node. A lost child makes the parent a deduced win. A complete child list makes it a deduced draw if some child is drawn, and a deduced loss if none is. |
| TreeOps.Propagate | corintho_ai/cpp/src/trainmc.cpp:513-556 | `propagate_result` changes only results, and only of nodes on the path from the new terminal node up to where it stops. Every changed node holds the result deduced from its child. It stops at the root, or below it at a node that is not lost and whose parent is not complete. The same rules are at playmc.cpp:438-482. |
| SearchWalks.Alt | corintho_ai/cpp/src/trainmc.cpp:318-327 | The value seen from a node d plies up is the value itself at even distances and its negation at odd ones. |
| SearchWalks.AltStep | corintho_ai/cpp/src/trainmc.cpp:323 | Each step up negates the value, as `cur_eval *= -1.0` does. |
| SearchWalks.Credit | corintho_ai/cpp/src/trainmc.cpp:320-322 | Crediting one node adds the value plus the offset to its evaluation and changes nothing else, except that `clear` resets the all-visited flag below the root. |
| SearchWalks.BackedUp | corintho_ai/cpp/src/trainmc.cpp:316-327 | The walk back up changes only evaluations and flags, never the tree's shape. |
| SearchWalks.BackedNode | corintho_ai/cpp/src/trainmc.cpp:316-327 | Each node after the walk has the same links as before. |
| SearchWalks.Backup | corintho_ai/cpp/src/trainmc.cpp:316-327 | The loop credits every node on the path to the root with the value, alternating in sign, plus the offset. Every other node is left alone. |
| SearchWalks.Decide | corintho_ai/cpp/src/trainmc.cpp:346-444 | At one level the descent is stuck exactly when no edge scores above -2. Otherwise it enters the existing child of the best edge, which is not fully visited and, in the second generation, not known except as a draw. Or it creates the child of the best edge's legal move, at the place that keeps the child list in move order. |
| SearchWalks.Undo | corintho_ai/cpp/src/trainmc.cpp:406-425 | When the descent is stuck, undoing the visit and evaluation increments along the path leaves the tree as it was, except that the stuck node is marked all-visited. |
| SearchWalks.DecideAt | corintho_ai/cpp/src/trainmc.cpp:343-445 | The decision at the current node of a descent enters a child that is not fully visited, or grows the tree at a valid place. |
| SearchWalks.Descend | corintho_ai/cpp/src/trainmc.cpp:339-445 | A descent either is blocked at a node with nothing selectable, which ends up marked all-visited with nothing else changed, or reaches a leaf. A reached leaf is an existing node where the descent stops or a new child of one where it does not. Every strict ancestor of the leaf has one more visit and the provisional evaluation. The first generation's descent is at cpp/playmc.cpp:216-310. |
| SearchWalks.LeafValue | corintho_ai/cpp/src/trainmc.cpp:454-459 | A terminal leaf is worth -1 to its side to move, or 0 exactly when it is a draw. |
| SearchWalks.BackedUpOnPath | corintho_ai/cpp/src/trainmc.cpp:316-327 | After a descent and a walk back up, nodes off the path are as they were before the descent. Each ancestor has gained the value seen from its own side, plus the provisional amount and the offset. |
| SearchWalks.EvalBackupCredits | corintho_ai/cpp/src/trainmc.cpp:316-327 | With the offset -1 that trainmc.cpp uses, the descent's provisional +1 is cancelled. Every ancestor ends up credited with exactly the evaluation from its own side. |
| SearchWalks.EvalBackupPlusOvershoots | corintho_ai/cpp/src/playmc.cpp:234-244 | As written, with `cur_eval + 1.0`, every ancestor ends up 2 above the credited value, so the evaluation is not credited. |
| SearchWalks.Settle | corintho_ai/cpp/src/trainmc.cpp:452-460 | At a terminal leaf, the leaf gains a visit and its evaluation becomes its value. |
| SearchWalks.TerminalCreditAsWritten | corintho_ai/cpp/src/trainmc.cpp:452-466 | The terminal walk as written: settle the leaf, then add the leaf's own value minus 1 at its parent and alternate. |
| SearchWalks.TerminalCredit | corintho_ai/cpp/src/trainmc.cpp:452-466 | The terminal walk with the parent credited with minus the leaf's value. |
| SearchWalks.TerminalCreditCredits | corintho_ai/cpp/src/trainmc.cpp:452-466 | The corrected terminal walk credits every ancestor with the leaf's value from its own side. It settles the leaf with one more visit and its value. |
| SearchWalks.TerminalCreditAsWrittenFlips | corintho_ai/cpp/src/trainmc.cpp:456-466 | As written, every ancestor is credited with the negation of what it should get. |
| SearchWalks.TerminalCreditAsWrittenWrong | corintho_ai/cpp/src/playmc.cpp:390-397 | For a decisive terminal leaf below the root, the walk as written does not credit the ancestors correctly. |
| SearchWalks.OldTerminalCreditAsWritten | cpp/playmc.cpp:313-331 | The first generation at a terminal leaf, as written: count the visit, take 1 off the leaf, and walk up unless the leaf is a draw. |
| SearchWalks.OldTerminalCredit | cpp/playmc.cpp:313-331 | The same walk made for a draw too, so it cancels the descent's -1. |
| SearchWalks.OldTerminalCreditCredits | cpp/playmc.cpp:313-331 | The corrected first-generation walk credits every ancestor with the leaf's value from its own side. |
| SearchWalks.OldTerminalCreditAsWrittenDraw | cpp/playmc.cpp:319-320 | As written, a drawn leaf leaves every ancestor 1 below where it was, so the draw is not credited as 0. |
| SearchWalks.OldEvalBackupCredits | cpp/playmc.cpp:178-188 | The first generation's descent subtracts 1, and its backup adds `cur_eval + 1.0`. Every ancestor ends up credited with the evaluation from its own side. |
| SearchBuffer.Slot | corintho_ai/cpp/src/trainmc.cpp:474 | Slot i of the request buffer is the block of `kGameStateSize` entries at offset i times that size. |
| SearchBuffer.WriteSlot | corintho_ai/cpp/src/trainmc.cpp:474 | Writing slot i puts the vector there and leaves every entry outside the slot unchanged. |
| SearchBuffer.WriteSlotOther | corintho_ai/cpp/src/trainmc.cpp:474 | Writing one slot leaves every other slot as it was. |
| SearchBuffer.WriteState | corintho_ai/cpp/src/trainmc.cpp:474 | `writeGameState` at an offset writes the node's state vector into that slot and nothing else. |
| SearchBuffer.QueuePush | corintho_ai/cpp/src/trainmc.cpp:469-478 | Queueing a new leaf writes its state to slot `eval_index`, appends it to `searched` and increments `eval_index`. The buffer keeps the state of each queued node in its slot. |
| SearchBuffer.QueueEmpty | corintho_ai/cpp/src/trainmc.cpp:329-331 | With `eval_index` back at 0, the buffer invariant holds whatever the buffer holds. |
| SearchBuffer.QueuedKept | corintho_ai/cpp/src/trainmc.cpp:427-440 | Growing the tree or updating counters keeps the queued nodes' slots valid, because no node's game changes. |
| SearchBuffer.Raised | corintho_ai/cpp/src/trainmc.cpp:305-311 | Every legal edge gets an integer prior of at least 1: the rounded value, or 1 when the rounded value is smaller. The move ids are kept. |
| SearchBuffer.Denominator | corintho_ai/cpp/src/trainmc.cpp:314 | The recorded scalar times the prior sum is 1, and it is positive. |
| SearchBuffer.PriorSumAtLeast | corintho_ai/cpp/src/trainmc.cpp:305-311 | When every prior is at least 1, the sum is at least the number of edges. |
| SearchBuffer.RaisedPriors | corintho_ai/cpp/src/trainmc.cpp:305-314 | For a node with edges, the prior sum is positive, so `1.0 / final_sum` is well defined and normalises the priors. |
| SearchBuffer.SetPriors | corintho_ai/cpp/src/trainmc.cpp:302-314 | The node gets the raised priors and the normalising scalar, with nothing else changed. |
| SearchBuffer.RaiseAll | corintho_ai/cpp/src/trainmc.cpp:304-311 | The prior loop produces the raised priors and their sum. |
| SearchBuffer.ReceiveOne | corintho_ai/cpp/src/trainmc.cpp:259-327 | Answering one queued node sets that node's priors, leaves every other node's edges alone, and keeps the tree's shape. |
| SearchBuffer.ReceiveNode | corintho_ai/cpp/src/trainmc.cpp:259-327 | The per-node body of `receive_evaluation` does exactly that. |
| SearchBuffer.BackedUpKeepsEdges | corintho_ai/cpp/src/trainmc.cpp:316-327 | The backup never touches edges. |
| SearchBuffer.Received | corintho_ai/cpp/src/trainmc.cpp:259-328 | Answering the queued nodes one after another keeps the tree's shape. |
| SearchBuffer.ReceivedStep | corintho_ai/cpp/src/trainmc.cpp:259-328 | Answering the first j nodes is answering the first j-1 and then node j. |
| SearchBuffer.ReceiveAll | corintho_ai/cpp/src/trainmc.cpp:259-328 | The loop of `receive_evaluation` answers every queued node in queue order. |
| SearchBuffer.ReceivedPriors | corintho_ai/cpp/src/trainmc.cpp:305-311 | After the answers, every answered node's edges carry priors of at least 1. |
| SearchBuffer.ReceiveOneCredits | corintho_ai/cpp/src/trainmc.cpp:316-327 | After a descent and its answer, every ancestor of the leaf is credited with the network's value from its own side, and the leaf itself with the value minus the provisional 1. |
| SearchBuffer.OpenCount | corintho_ai/cpp/src/trainmc.cpp:406-425 | The number of nodes not marked all-visited, at most the number of nodes. |
| SearchBuffer.OpenCountMark | corintho_ai/cpp/src/trainmc.cpp:408 | Marking an open node all-visited closes exactly one node, which is why a blocked descent makes progress. |
| TrainSearch.ResultsAside | corintho_ai/cpp/src/trainmc.cpp:448-466 | The results `propagate_result` writes before the terminal walk pass through the walk untouched, since the walk changes only counters. |
| TrainSearch.DeducedCounters | corintho_ai/cpp/src/trainmc.cpp:451-466 | A deduction stays valid when only counters and evaluations change afterwards. |
| TrainSearch.KidsInRange | corintho_ai/cpp/src/trainmc.cpp:160-173 | In a well-formed tree every child id is a move id from 0 to 95, so writing the sample at it stays in bounds. |
| TrainSearch.Answered | corintho_ai/cpp/src/trainmc.cpp:258-332 | After `receive_evaluation` the tree keeps its shape and the root is open again. |
| TrainSearch.AnswerQueue | corintho_ai/cpp/src/trainmc.cpp:258-332 | Answering every queued node and reopening the root leaves an empty queue and a valid search state. |
| TrainSearch.AnsweredPriors | corintho_ai/cpp/src/trainmc.cpp:305-311 | After `receive_evaluation` every evaluated node's edges have integer priors of at least 1. |
| TrainSearch.PlantOk | corintho_ai/cpp/src/trainmc.cpp:43-52 | A new root appended and queued in slot 0 keeps the search state valid. |
| TrainSearch.SettleLeaf | corintho_ai/cpp/src/trainmc.cpp:448-466 | At a terminal leaf, `propagate_result` and the walk leave the tree as the settle predicate describes. Results change only on the leaf's path, each one deduced from the node below it. Counters and evaluations are those of the corrected terminal walk. |
| TrainSearch.SettledCredits | corintho_ai/cpp/src/trainmc.cpp:448-466 | After settling, nodes off the path are as before the descent. Each ancestor is credited with the leaf's value from its own side. The leaf has one more visit and its value as its evaluation. |
| TrainSearch.SettledLeaf | corintho_ai/cpp/src/trainmc.cpp:513-520 | Settling never changes the terminal leaf's own result. |
| TrainSearch.SettledOffPath | corintho_ai/cpp/src/trainmc.cpp:448-466 | Settling leaves every node off the leaf's path as it was. |
| TrainSearch.SettledResultsOnPath | corintho_ai/cpp/src/trainmc.cpp:513-556 | Every result that settling changes lies on the leaf's path. |
| TrainSearch.StuckKeeps | corintho_ai/cpp/src/trainmc.cpp:406-425 | Marking a blocked node all-visited keeps the search state valid and, below the root, closes one more node. |
| TrainSearch.AskedKeeps | corintho_ai/cpp/src/trainmc.cpp:468-478 | Queueing a new non-terminal leaf with its provisional evaluation keeps the search state valid, with its state in the next slot. |
| TrainSearch.SearchPass | corintho_ai/cpp/src/trainmc.cpp:339-478 | One pass of the search loop does one of three things. It marks a blocked node, closing one more node unless it is the root. Or it settles a terminal leaf. Or it queues a new leaf in the next slot. The state stays valid, and the queue grows by at most one. |
| TrainSearch.LeafPass | corintho_ai/cpp/src/trainmc.cpp:447-478 | At a reached leaf the pass settles it if terminal and queues it otherwise, keeping the search state valid. |
| TrainSearch.ChoosePick | corintho_ai/cpp/src/trainmc.cpp:83-207 | At an undecided root in the opening, the choice is drawn by visit counts and the sample holds every eligible child's share. Otherwise the choice follows the root's result and the sample is 1 at the chosen move. |
| TrainSearch.ClearSample | corintho_ai/cpp/src/trainmc.cpp:73-75 | The `memset` leaves every probability 0. |
| TrainSearch.TrainMC.constructor | corintho_ai/cpp/src/trainmc.cpp:18-30 | A new search has no root, an empty queue and no iterations done, with the given settings. |
| TrainSearch.TrainMC.Plant | corintho_ai/cpp/src/trainmc.cpp:43-52 | The first iteration makes a new root for the game and counts one iteration. It queues the root and writes its state to slot 0. |
| TrainSearch.TrainMC.DoFirstIteration | corintho_ai/cpp/src/trainmc.cpp:32-41 | The same for the default root holding the starting position. |
| TrainSearch.TrainMC.DoFirstIterationAt | corintho_ai/cpp/src/trainmc.cpp:43-52 | The same for a given game and depth. |
| TrainSearch.TrainMC.MoveDown | corintho_ai/cpp/src/trainmc.cpp:486-505 | The chosen child becomes the root, detached from the old root, and the iteration count returns to 0. The queue is unchanged. |
| TrainSearch.TrainMC.ReceiveOpponentMove | corintho_ai/cpp/src/trainmc.cpp:214-240 | The method asks for an evaluation exactly when no child carries the opponent's move. With such a child, it moves down to it and changes nothing else. Without one, it plants a new root for the given game and depth, queued in slot 0, with one iteration done. |
| TrainSearch.TrainMC.Iterate | corintho_ai/cpp/src/trainmc.cpp:339-478 | One pass on the class's state, counting an iteration unless the descent was blocked. |
| TrainSearch.TrainMC.Adopt | corintho_ai/cpp/src/trainmc.cpp:334-484 | The class takes over a pass's tree, queue and iteration count, keeping its root. |
| TrainSearch.TrainMC.Search | corintho_ai/cpp/src/trainmc.cpp:334-484 | `search` queues at most one node. A blocked descent reports done exactly when it was blocked at the root. Otherwise it reports done exactly when the iteration limit is reached or the root's result is known. Every run that is not done makes progress: more iterations, or fewer open nodes. |
| TrainSearch.TrainMC.DoIteration | corintho_ai/cpp/src/trainmc.cpp:54-66 | The turn is done exactly when the iteration limit is reached or the root's result is known. When it is not done, the buffer is full or the root is exhausted. |
| TrainSearch.TrainMC.ChooseMove | corintho_ai/cpp/src/trainmc.cpp:68-212 | Outside testing, the root's state goes to `game_state`. The move is chosen as `ChoosePick` describes and the sample written accordingly. The search moves down to the chosen child, or to the first child when none was chosen, as the source does with `best_prev_node` null. |
| TrainSearch.TrainMC.ReceiveEvaluation | corintho_ai/cpp/src/trainmc.cpp:258-332 | Every queued node gets its priors and its value backed up. The queue is then empty and the root and iteration count are kept. |
| PlaySearch.NewRoot | corintho_ai/cpp/src/playmc.cpp:40-41 | A new root is the fresh node for the game with one visit taken off. A non-terminal root has 0 visits and no result, so the first `search` treats it as unsearched. A terminal root has -1 visits. |
| PlaySearch.StartRoot | corintho_ai/cpp/src/playmc.cpp:25-26 | The default root is the starting position at depth 0 with 0 visits, no result and the 48 placement edges. |
| PlaySearch.CopyRequests | corintho_ai/cpp/src/playmc.cpp:514-519 | The copy loop copies exactly the first `count` slots and leaves the rest of the destination alone. |
| PlaySearch.RequestsAre | corintho_ai/cpp/src/playmc.cpp:514-519 | The copied slots hold the state vectors of the queued nodes, in queue order. |
| PlaySearch.MarkLegal | corintho_ai/cpp/src/playmc.cpp:484-491 | The legal-move vector is 1 exactly at the move ids of the root's edges and 0 elsewhere. |
| PlaySearch.Replanted | corintho_ai/cpp/src/playmc.cpp:167-173 | An unforeseen opponent move gives a new parentless root one level deeper, holding the move played on the old root's game. A non-terminal new root has 0 visits. The old nodes stay. |
| PlaySearch.ReplantedOk | corintho_ai/cpp/src/playmc.cpp:167-173 | The new root keeps the search state valid. |
| PlaySearch.LoneRootOk | corintho_ai/cpp/src/playmc.cpp:17-43 | A single parentless root with no queue is a valid search state. |
| PlaySearch.AppendedRootOk | corintho_ai/cpp/src/playmc.cpp:167-173 | Appending a new parentless root keeps the search state valid. |
| PlaySearch.FirstSearchOk | corintho_ai/cpp/src/playmc.cpp:254-263 | Searching an unsearched root sets its visits to 1, queues only the root in slot 0, and keeps the search state valid. |
| PlaySearch.PlayMC.constructor | corintho_ai/cpp/src/playmc.cpp:17-28 | A new player holds the default root with 0 visits, an empty queue and no iterations done. |
| PlaySearch.PlayMC.PlantRoot | corintho_ai/cpp/src/playmc.cpp:25-27 | The given node becomes the only node and the root, with nothing queued. |
| PlaySearch.PlayMC.FromPosition | corintho_ai/cpp/src/playmc.cpp:30-43 | A player built from a position holds that position's new root, with the largest unsigned value as its iteration limit. |
| PlaySearch.PlayMC.MoveDown | corintho_ai/cpp/src/playmc.cpp:416-437 | The chosen child becomes the root, detached from the old root, and the iteration count returns to 0. |
| PlaySearch.PlayMC.Iterate | corintho_ai/cpp/src/playmc.cpp:266-413 | One pass of the search loop, counting an iteration unless the descent was blocked. |
| PlaySearch.PlayMC.Adopt | corintho_ai/cpp/src/playmc.cpp:251-415 | The class takes over a pass's tree, queue and iteration count, keeping its root. |
| PlaySearch.PlayMC.Search | corintho_ai/cpp/src/playmc.cpp:251-415 | An unsearched root is given 1 visit and queued alone in slot 0, and `search` returns true. Otherwise the search behaves as in trainmc: it is done when blocked at the root, or when the iteration limit is reached or the root's result is known. Every run that is not done makes progress. |
| PlaySearch.PlayMC.DoIteration | corintho_ai/cpp/src/playmc.cpp:52-64 | The turn is done exactly when the iteration limit is reached or the root's result is known. When it is not done, the buffer is full, the root is exhausted, or only the first root request is queued. |
| PlaySearch.PlayMC.ChooseMove | corintho_ai/cpp/src/playmc.cpp:66-154 | The choice follows the root's result as `ResultPick` describes. The player moves down to the chosen child, or to the first child when none was chosen. |
| PlaySearch.PlayMC.ReceiveOppMove | corintho_ai/cpp/src/playmc.cpp:156-174 | When a child carries the move, the player moves down to it. Otherwise it replants a new root with the move played. The queue is unchanged. |
| PlaySearch.PlayMC.Replant | corintho_ai/cpp/src/playmc.cpp:167-173 | The new root is appended and becomes the root, with nothing else changed. |
| PlaySearch.PlayMC.ReceiveEvaluation | corintho_ai/cpp/src/playmc.cpp:176-249 | Every queued node gets its priors and its value backed up, and the queue is emptied. |
| PlaySearch.PlayMC.GetLegalMoves | corintho_ai/cpp/src/playmc.cpp:484-491 | The output is 1 exactly at the root's legal moves and 0 elsewhere. |
| PlaySearch.PlayMC.IsDone | corintho_ai/cpp/src/playmc.cpp:501-504 | The game is done exactly when the root's result is a plain win, draw or loss. Deduced results do not count. |
| PlaySearch.PlayMC.HasWon | corintho_ai/cpp/src/playmc.cpp:506-508 | A won game is done and neither lost nor drawn. |
| PlaySearch.PlayMC.HasDrawn | corintho_ai/cpp/src/playmc.cpp:510-512 | A drawn game is done, drawn and not won. |
| PlaySearch.PlayMC.WriteRequests | corintho_ai/cpp/src/playmc.cpp:514-519 | The method returns the queue length. The first that many slots of the output hold the queued nodes' states. The rest is untouched. |
| OldPlaySearch.Charged | cpp/playmc.cpp:289-304 | The first generation's new leaf is charged the descent's -1 on its own evaluation. No other node, and none of the leaf's counters or result, changes. |
| OldPlaySearch.SettleOld | cpp/playmc.cpp:313-331 | At a terminal leaf the first generation's walk leaves the tree as `OldTerminalCredit` describes, keeping it well formed. |
| OldPlaySearch.OldSearchPass | cpp/playmc.cpp:212-342 | One pass of the first generation's search loop does one of three things. It marks a blocked node, closing one more node unless it is the root. Or it settles a leaf where the descent stops, including a plain win. Or it queues a new leaf in the next slot. The state stays valid. |
| OldPlaySearch.OldLeafPass | cpp/playmc.cpp:312-341 | At a reached leaf the pass settles it if terminal and queues it otherwise. |
| OldPlaySearch.OldSettledPass | cpp/playmc.cpp:312-331 | A reached leaf that is a plain loss, win or draw is settled by the terminal walk. That pass is a settled pass and keeps the search state valid, with the queue and the buffer unchanged. |
| OldPlaySearch.OldAskedPass | cpp/playmc.cpp:332-341 | A reached leaf that is not terminal is the node the descent just created. Queuing it and writing its game state into the next buffer slot keeps the search state valid. |
| OldPlaySearch.OldSettledCredits | cpp/playmc.cpp:313-331 | After settling, every ancestor is credited with the leaf's value from its own side. The leaf has one more visit and is reopened, and its evaluation gains its value, less the extra 1 when it is new. |
| OldPlaySearch.OldPlayMC.constructor | cpp/playmc.cpp:14-25 | A new player holds the default root with 0 visits, an empty queue and no iterations done. |
| OldPlaySearch.OldPlayMC.PlantRoot | cpp/playmc.cpp:22-24 | The given node becomes the only node and the root, with nothing queued. |
| OldPlaySearch.OldPlayMC.MoveDown | cpp/playmc.cpp:349-369 | The chosen child becomes the root, detached from the old root, and the iteration count returns to 0. |
| OldPlaySearch.OldPlayMC.Iterate | cpp/playmc.cpp:212-342 | One pass of the search loop on the class's state, counting an iteration unless the descent was blocked. |
| OldPlaySearch.OldPlayMC.Adopt | cpp/playmc.cpp:195-347 | The class takes over a pass's tree, queue and iteration count. |
| OldPlaySearch.OldPlayMC.Search | cpp/playmc.cpp:195-347 | An unsearched root is queued alone and `search` returns true. Otherwise the search is done when blocked at the root or when the iteration limit is reached; the root's result does not stop it. Every run that is not done makes progress. |
| OldPlaySearch.OldPlayMC.DoIteration | cpp/playmc.cpp:32-44 | The turn is done exactly when the iteration limit is reached. |
| OldPlaySearch.OldPlayMC.ChooseMove | cpp/playmc.cpp:46-98 | Below depth 9 the move is the first child whose running visit total exceeds the draw modulo the root's visits minus 1. From depth 9 on it is the most visited child, with ties going to the higher raw evaluation. The player moves down and clears the queue. |
| OldPlaySearch.OldPlayMC.ReceiveOppMove | cpp/playmc.cpp:100-118 | When a child carries the move, the player moves down to it. Otherwise it replants a new root with the move played. |
| OldPlaySearch.OldPlayMC.Replant | cpp/playmc.cpp:111-117 | The new root is appended and becomes the root, with nothing else changed. |
| OldPlaySearch.OldPlayMC.ReceiveEvaluation | cpp/playmc.cpp:120-193 | Every queued node gets its priors and its value backed up with the `+ 1.0` offset, and the queue is emptied. |
| OldPlaySearch.OldPlayMC.IsDone | cpp/playmc.cpp:371 | The game is done exactly when the root has any result, deduced or not. |
| OldPlaySearch.OldPlayMC.HasWon | cpp/playmc.cpp:373 | A won game is done and neither lost nor drawn. |
| OldPlaySearch.OldPlayMC.HasDrawn | cpp/playmc.cpp:375 | A drawn game is done, drawn and not won. |
| OldPlaySearch.OldPlayMC.WriteRequests | cpp/playmc.cpp:377-382 | The method returns the queue length. The first that many slots of the output hold the queued nodes' states. The rest is untouched. |
| SelfPlay.EndResult | corintho_ai/cpp/src/selfplayer.cpp:202-212 | The game's result for the first player is a draw exactly when the final root is drawn. Otherwise it is a win or a loss. |
| SelfPlay.ResultScore | corintho_ai/cpp/src/selfplayer.cpp:56-63 | The first player's score lies between 0 and 1. It is 0.5 exactly when the result is neither a loss nor a win. |
| SelfPlay.ScoreOfGame | corintho_ai/cpp/src/selfplayer.cpp:56-63 | A decisive game of n moves scores 1 for the first player when n is odd, since the last mover won, and 0 when n is even. A drawn game scores 0.5. |
| SelfPlay.LabelValue | corintho_ai/cpp/src/selfplayer.cpp:79-108 | The value labels are 0 throughout a draw. Otherwise they are +1 for the winner's samples (even distance from the end) and -1 for the loser's. |
| SelfPlay.SymState | corintho_ai/cpp/src/selfplayer.cpp:91-99 | A symmetry applied to a state vector yields a full state vector. |
| SelfPlay.SymProbs | corintho_ai/cpp/src/selfplayer.cpp:101-105 | A symmetry applied to a move distribution yields a full distribution. |
| SelfPlay.SymStateCells | corintho_ai/cpp/src/selfplayer.cpp:91-99 | Entry e of cell c comes from entry e of the permuted cell. Every entry past the 64 cell entries is copied unchanged. |
| SelfPlay.IdentitySymmetry | corintho_ai/cpp/src/selfplayer.cpp:87-89 | The identity symmetry copies the sample unchanged. |
| SelfPlay.StateCopies | corintho_ai/cpp/src/selfplayer.cpp:90-99 | One state block per symmetry, each of `kGameStateSize` entries. |
| SelfPlay.ProbCopies | corintho_ai/cpp/src/selfplayer.cpp:101-105 | One probability block per symmetry, each of 96 entries. |
| SelfPlay.LabelCopies | corintho_ai/cpp/src/selfplayer.cpp:100 | One label per symmetry. |
| SelfPlay.StatesFrom | corintho_ai/cpp/src/selfplayer.cpp:86-109 | The state blocks of the samples from the end backwards, all of one width. |
| SelfPlay.ProbsFrom | corintho_ai/cpp/src/selfplayer.cpp:86-109 | The probability blocks, likewise. |
| SelfPlay.LabelsFrom | corintho_ai/cpp/src/selfplayer.cpp:86-109 | The labels, likewise. |
| SelfPlay.BlocksFromCount | corintho_ai/cpp/src/selfplayer.cpp:86-109 | Each output holds one block per remaining sample and symmetry. |
| SelfPlay.StateBlock | corintho_ai/cpp/src/selfplayer.cpp:90-99 | Block offset times S plus k holds symmetry k of the sample `offset` places from the end. |
| SelfPlay.ProbBlock | corintho_ai/cpp/src/selfplayer.cpp:101-105 | Likewise for probabilities. |
| SelfPlay.LabelBlock | corintho_ai/cpp/src/selfplayer.cpp:100 | Likewise for labels: the label of that sample. |
| SelfPlay.StateLayout | corintho_ai/cpp/src/selfplayer.cpp:92-98 | In the flat output, entry j of slot offset times S plus k is entry j of symmetry k of the sample `offset` from the end. |
| SelfPlay.ProbLayout | corintho_ai/cpp/src/selfplayer.cpp:102-104 | Likewise for the probability output. |
| SelfPlay.LabelLayout | corintho_ai/cpp/src/selfplayer.cpp:100 | Likewise for the label output: the sample's value label. |
| SelfPlay.SlotAsWrittenOverruns | corintho_ai/cpp/src/selfplayer.cpp:92-104 | As written, the slot index `(k + 1)` sends the last symmetry of the last sample written to slot n times S, one past the n times S slots the buffers hold. Slot 0 is never written. |
| SelfPlay.MateTurnStaysZero | corintho_ai/cpp/src/selfplayer.cpp:249-252 | As written, the mate counter starts at 0 and is only reassigned when nonzero, so it stays 0 and `mateLength` is always 0. |
| SelfPlay.MateTurnExample | corintho_ai/cpp/src/selfplayer.cpp:249-252 | With a known root on the second turn, the code as written keeps 0. The intended counter records turn 1. |
| SelfPlay.MateTurnsFirst | corintho_ai/cpp/src/selfplayer.cpp:249-252 | The intended counter records the sample count at the first turn whose root is known. |
| SelfPlay.MateTurnsKept | corintho_ai/cpp/src/selfplayer.cpp:249-252 | Once set, the intended counter never changes. |
| SelfPlay.SamplesOf | corintho_ai/cpp/src/selfplayer.cpp:231-238 | One sample per chosen move. |
| SelfPlay.KnownOf | corintho_ai/cpp/src/selfplayer.cpp:250 | One known-root flag per chosen move. |
| SelfPlay.MateTurnsSnoc | corintho_ai/cpp/src/selfplayer.cpp:249-252 | The counter over one more turn is one more step of the update. |
| SelfPlay.ConsumeReply | corintho_ai/cpp/src/selfplayer.cpp:245-283 | Taking one more turn appends its sample and steps the counter once. |
| SelfPlay.LoopStep | corintho_ai/cpp/src/selfplayer.cpp:245-283 | One more pass keeps the loop's account of samples, counter and stop. |
| SelfPlay.SelfPlayer.constructor | corintho_ai/cpp/src/selfplayer.cpp:18-38 | A new self-play game has no samples, no result, no mate, the first player to move and both searchers without a root. |
| SelfPlay.SelfPlayer.Score | corintho_ai/cpp/src/selfplayer.cpp:56-63 | An unfinished game scores 0.5. A finished decisive game scores 1 exactly when the number of moves is odd, and 0 exactly when it is even. |
| SelfPlay.SelfPlayer.MateLength | corintho_ai/cpp/src/selfplayer.cpp:65-70 | Without a mate the length is 0. With one, it is between 1 and the number of samples. |
| SelfPlay.SelfPlayer.DoIteration | corintho_ai/cpp/src/selfplayer.cpp:112-119 | When the searcher's turn is not done, nothing changes and the game goes on. Otherwise the result is whether the game is over. This is a game without a log file: a logged game never gets past its first turn (see Findings). |
| SelfPlay.SelfPlayer.EndGame | corintho_ai/cpp/src/selfplayer.cpp:202-229 | Ending the game records the result for the first player from the final root and the side that moved, with everything else kept. |
| SelfPlay.SelfPlayer.Turn | corintho_ai/cpp/src/selfplayer.cpp:250-282 | One turn appends the sample and steps the mate counter. It ends the game exactly when the new root is terminal. Otherwise it passes the turn to the other player. It stops the loop exactly when the game ended, the opponent was new, an evaluation is needed, or the opponent's search did not finish. This is a turn without a log file. |
| SelfPlay.SelfPlayer.ChooseMoveAndContinue | corintho_ai/cpp/src/selfplayer.cpp:240-285 | The loop plays turns until the first reply that stops it, and appends one sample per turn. It reports the game over exactly when the last turn ended it. The mate counter is the first turn with a known root. This is a game without a log file. |
| SelfPlay.LogScanAsWrittenNeverEnds | corintho_ai/cpp/src/selfplayer.cpp:152-162 | As written, once the root has a child the scan never ends. After any number of passes `cur` is still the first child, and the edge index equals the number of passes, which goes past the edges. |
| SelfPlay.LogScan | corintho_ai/cpp/src/match.cpp:90-101 | The corrected scan ends. It logs every child once and in order, each beside the edge of its own move, and it reads no edge past the last. |
| SelfPlay.NextKidLater | corintho_ai/cpp/src/match.cpp:92-100 | Edges and children are both in increasing move order, so after a match the next child's move lies among the later edges. |
| SelfPlay.SelfPlayer.Advance | corintho_ai/cpp/src/selfplayer.cpp:245-283 | One pass of the loop, keeping its invariant. |
| SelfPlay.SelfPlayer.WriteSamples | corintho_ai/cpp/src/selfplayer.cpp:77-110 | The three outputs hold, from the last sample backwards, every symmetry of each sample's state and distribution and its value label, in the 0-based slots `offset * S + k`. |
| SelfPlay.BlockLengths | corintho_ai/cpp/src/selfplayer.cpp:77-110 | The outputs hold n times S state blocks, n times S labels and n times S distributions. |
| SelfPlay.WriteStates | corintho_ai/cpp/src/selfplayer.cpp:86-99 | The state loop fills the whole state output with the symmetric copies in order. |
| SelfPlay.WriteStateCopies | corintho_ai/cpp/src/selfplayer.cpp:90-99 | The symmetry loop of one sample appends its state copies after what was written before. |
| SelfPlay.WriteLabels | corintho_ai/cpp/src/selfplayer.cpp:80-108 | The label loop fills the label output, negating the label after each sample. |
| SelfPlay.WriteLabelCopies | corintho_ai/cpp/src/selfplayer.cpp:100 | One sample's labels are appended, one per symmetry. |
| SelfPlay.WriteProbs | corintho_ai/cpp/src/selfplayer.cpp:86-105 | The probability loop fills the probability output with the permuted copies in order. |
| SelfPlay.WriteProbCopies | corintho_ai/cpp/src/selfplayer.cpp:101-105 | One sample's permuted distributions are appended. |
| SelfPlay.CopyState | corintho_ai/cpp/src/selfplayer.cpp:91-99 | Copying one symmetric state appends exactly that vector. |
| SelfPlay.CopyProbs | corintho_ai/cpp/src/selfplayer.cpp:101-105 | Copying one permuted distribution appends exactly that vector. |
| SeriesPlay.FirstStop | cython/selfplayer.py:84-95 | The loop of `play` stops at the first answer that is an evaluation request or a move ending the game. No earlier answer does. |
| SeriesPlay.Consumed | cython/selfplayer.py:84-95 | The loop plays only moves, and every one but the last leaves the game undecided. It plays the stopping answer too exactly when that answer is a move. |
| SeriesPlay.Vectors | cython/selfplayer.py:88 | One state vector per move played. |
| SeriesPlay.ProbLabels | cython/selfplayer.py:89 | One probability label per move played. |
| SeriesPlay.MovesAt | cython/selfplayer.py:88-89 | The j-th recorded vector and label are those of the j-th move. |
| SeriesPlay.MovesSnoc | cython/selfplayer.py:88-89 | One more move appends exactly its vector and its label. |
| SeriesPlay.TurnedValue | cython/selfplayer.py:90 | After n moves from side t, side `(t + n) % 2` is to play. |
| SeriesPlay.MovingStart | cython/selfplayer.py:83-84 | Before any move, the loop's account holds with the lists unchanged. |
| SeriesPlay.MovingStep | cython/selfplayer.py:85-95 | Recording one move keeps the account. Only the current game's lists grow, and the side to play flips. |
| SeriesPlay.SignPowValue | cython/selfplayer.py:127 | `(-1) ** e` is 1 for even e and -1 for odd e. |
| SeriesPlay.GameLabels | cython/selfplayer.py:121-130 | One value label per sample of the game. |
| SeriesPlay.GameLabelsValue | cython/selfplayer.py:121-130 | A drawn game labels every sample 0. A decisive one labels sample j +1 when an even number of moves follow it and -1 otherwise. This agrees with the C++ self-player's labels (`SelfPlay.Label`). |
| SeriesPlay.Joined | cython/selfplayer.py:115-132 | The joined states, value labels and probability labels have one common length. |
| SeriesPlay.JoinedAt | cython/selfplayer.py:118-130 | Sample j of game i sits at the start of game i plus j in each output, with its own state, probability label and value label. |
| SeriesPlay.JoinedLength | cython/selfplayer.py:118-130 | The joined outputs hold the samples of all games of the series. |
| SeriesPlay.SeriesPlayer.constructor | cython/selfplayer.py:17-44 | A new series has one empty sample list and one empty label list per game, no game played, no outcome yet and the first side to play. |
| SeriesPlay.SeriesPlayer.Play | cython/selfplayer.py:46-102 | When the game is over and the series exhausted, `play` signals the end and changes nothing. When the game is over with games left, it starts the next game. It then records the moves up to the first stop in the current game's lists. It returns the evaluation request, or signals the end of the game and appends its outcome. |
| SeriesPlay.SeriesPlayer.PlayMoves | cython/selfplayer.py:83-95 | The loop stops at the first stopping answer and records every move it consumed. The game's outcome is that of the last move when the loop ended on a move. |
| SeriesPlay.SeriesPlayer.Record | cython/selfplayer.py:85-90 | One move appends the game's vector and the probability label to the current game. It passes the turn and takes the move's outcome. |
| SeriesPlay.SeriesPlayer.GetSamples | cython/selfplayer.py:104-132 | Empty outputs while games of the series remain. Otherwise it fails when an outcome is missing (the source raises `IndexError`). Else it returns the joined samples of all games. |
| MatchPlay.FreshPlanted | corintho_ai/cpp/src/match.cpp:192-193 | A node made for a position has its legal moves as edges and is terminal exactly when it has none. |
| MatchPlay.StartPlanted | corintho_ai/cpp/include/match.h:63 | The starting node is well formed, not terminal, and the first player is to move. |
| MatchPlay.StartTableOk | corintho_ai/cpp/include/match.h:63-67 | A new match starts at the starting position with the first player to move, no result, the game not over, and neither searcher having a root. |
| MatchPlay.ChooseMove | corintho_ai/cpp/src/match.cpp:169-180 | The chosen move is always one of the legal moves of `root_`. |
| MatchPlay.ChooseMoveCovers | corintho_ai/cpp/src/match.cpp:172-177 | Every legal move of `root_`, and only those, is chosen by some draw of the generator. |
| MatchPlay.Child | corintho_ai/cpp/src/match.cpp:192-193 | The new `root_` is one ply deeper, with the other side to move. Its game is the old game after the chosen legal move. |
| MatchPlay.ChosenIsLegal | corintho_ai/cpp/src/match.cpp:169-180 | A chosen move is a legal move of the position. |
| MatchPlay.ChildMoves | corintho_ai/cpp/src/match.cpp:192-193 | The new root's edges are exactly the legal moves of the new position. |
| MatchPlay.Pass | corintho_ai/cpp/src/match.cpp:191-225 | One pass plays one ply of a legal move. A terminal position ends the game and stops the loop, leaving the side to play unchanged. Otherwise the turn passes. The loop only stops with the game going on when a searcher that has a root is to move. |
| MatchPlay.Passed | corintho_ai/cpp/src/match.cpp:197-225 | The same as `Pass`, once the new `root_` is given. |
| MatchPlay.Run | corintho_ai/cpp/src/match.cpp:182-228 | The loop uses between one and all of the replies, one ply each. When it returns with the game going on, the side to play is a searcher with a root. A random player never waits for an evaluation. |
| MatchPlay.RunStep | corintho_ai/cpp/src/match.cpp:187-226 | One more pass either ends the loop where the whole loop ends, or leaves the rest of the loop to run from the new state. |
| MatchPlay.Started | corintho_ai/cpp/src/match.cpp:46-57 | After its own iteration a searcher to move has a root. The random side and the other player are untouched. |
| MatchPlay.ChildAsWritten | corintho_ai/cpp/src/match.cpp:191-193 | As written, a new `root_` is made only when `root_` is not null. |
| MatchPlay.FirstMoveAsWritten | corintho_ai/cpp/src/match.cpp:191-193 | As written, the first move of every match reads through the null `root_` that match.h leaves, and yields no position. |
| MatchPlay.PassAsWritten | corintho_ai/cpp/src/match.cpp:191-225 | Where the pass as written reaches no null player, it agrees with the corrected pass. |
| MatchPlay.RandomMatchNeverEndsAsWritten | corintho_ai/cpp/src/match.cpp:197-200 | As written, a match with a random player never records a result. Its terminal test or `endGame` dereferences the random player's null pointer first. |
| MatchPlay.RunAgreesAsWritten | corintho_ai/cpp/src/match.cpp:182-228 | Wherever the loop as written does not fail, it ends where the corrected loop ends. |
| MatchPlay.Match.constructor | corintho_ai/cpp/src/match.cpp:13-18 | A new match starts from the starting position, with the first player to move and no result. |
| MatchPlay.Match.Adopt | corintho_ai/cpp/src/match.cpp:182-228 | The match takes over a consistent state. |
| MatchPlay.Match.Score | corintho_ai/cpp/src/match.cpp:30-36 | An unfinished or drawn match scores 0.5. A decisive one scores 1 exactly when the second player is to move at the end, that is when the first player made the last move, and 0 exactly when the first player is to move. |
| MatchPlay.Match.DoIteration | corintho_ai/cpp/src/match.cpp:46-57 | A searcher whose turn is not done leaves the match going. It only gets its root. A random player or a finished turn runs the move loop to its end. The result is whether the match is over, and a match that goes on waits on a searcher. |
| MatchPlay.Match.EndGame | corintho_ai/cpp/src/match.cpp:141-167 | The result is a draw when the final position is drawn. Otherwise it is the win of the side that made the last move. |
| MatchPlay.Match.ChooseRandomMove | corintho_ai/cpp/src/match.cpp:171-178 | A random player's move is the legal move at the generator's draw. |
| MatchPlay.Match.TakeTurn | corintho_ai/cpp/src/match.cpp:191-225 | One pass of the loop, as `Pass` states. |
| MatchPlay.Match.Continue | corintho_ai/cpp/src/match.cpp:197-225 | The rest of the pass after the new `root_`, as `Passed` states. |
| MatchPlay.Match.ChooseMoveAndContinue | corintho_ai/cpp/src/match.cpp:182-228 | The loop ends where `Run` ends, using as many replies. The result is whether the match is over. |
| MatchPlay.Match.Advance | corintho_ai/cpp/src/match.cpp:187-226 | One pass of the loop, keeping its invariant. |

## Left out

- AlphaBetaValue.Lt, AlphaBetaValue.Gt and the other value operators: a NORMAL value holds a `real`, so an infinite or NaN float inside it is not modelled.
- Floating point: evaluations, priors, probabilities and scores are `real`, with no rounding, no NaN and no overflow. The alpha-beta values model `inf`/`-inf` as tags on a real number.
- The PUCT formulas (the `c_puct` constant, square roots, exploration terms) become the searcher's pick among children. `SearchTree.Select` states which child wins for any given score table. The scores are not computed from visit counts.
- SearchBuffer.Raised: the Dirichlet noise and the `lround` of the priors arrive as the `rounded` input. The member models only the `max(1, ...)` clamp applied to them.
- Random generators (`std::mt19937`, `random.choice`, `uniform_int_distribution`) become `pick`/`draw` inputs. The modulo of a draw by the visit total is kept.
- The neural network and the Python and Cython wrappers that ferry evaluations between processes are not modelled. An evaluation arrives as a sequence of reals.
- The constant tables defined in `util.h` (`line_breakers`, `space_symmetries`, `move_symmetries`) are parameters. Their contents are not part of this model. `util.h` is not part of this model.
- GameRules.Cell: `Space{a, b, transpose}` is assumed to name the cell (a, b), or (b, a) when transposed. The constructor lives in `util.h`, which is not part of this model.
- The logging paths are not modelled: `printMainLine`, `writeMoveChoice`, `writeEval`, the text that `writeMoves` and `writePreMoveLogs` write, and the match's logs. These only write text to a file. The exception is the self-player's `writeMoves` scan (corintho_ai/cpp/src/selfplayer.cpp:152-162), which never advances `cur`. Once the root has a child the scan never ends, and it reads move ids past the edges. That scan is modelled on its own, as `LogScanAsWritten` and `LogScan` (see Findings).
- SelfPlay.SelfPlayer.Turn, SelfPlay.SelfPlayer.ChooseMoveAndContinue and SelfPlay.SelfPlayer.DoIteration: model a game without a log file. The trainer gives a log file to the first `num_logged` self-players (corintho_ai/cpp/src/trainer.cpp:261-267, 275-281). With a log file, `chooseMoveAndContinue` calls `writePreMoveLogs` (selfplayer.cpp:246-248), which calls `writeMoves` (line 193). That scan never ends once the root has a child, so a logged game never gets past its first turn. These members promise nothing about logged games; the corrected scan `LogScan` is proved separately.
- Turn: models a turn without a log file. With one, the turn never ends (see the line above).
- ChooseMoveAndContinue: models a game without a log file. With one, the loop never completes its first pass (see above).
- DoIteration: models a game without a log file. With one, an iteration that finishes a turn never returns (see above).
- `numRequests`/`num_requests` accessors, `count_nodes` wrappers, `is_uninitialized`, `get_game`, `set_statics`, `get_node_number` and `get_evaluation` are not modelled. They are trivial accessors over the modelled state. `SearchTree.Count` covers `countNodes`.
- TreeOps.Detach only unlinks the chosen child. The destructor's deletion of the old root, its other children and their sibling chains is not modelled: they stay in the arena as unreachable records.
- Memory management (`delete`, `unique_ptr`, `null_root`) is not modelled otherwise.
- SearchTree.Fresh: the modern `node.h` defaults are not shown in the sources, so the defaults are those of the first node constructors (one visit, `all_visited` set, no result, evaluation 0).
- PlaySearch.NewRoot: the unsigned visit counter of a terminal root is taken one below zero. The model keeps -1. The field is `uint16s visits` (corintho_ai/cpp/include/node.h:24), and `uint16s` is `uint_least16_t` (cpp/util.h:18), so the source wraps to 65535 (2^16 - 1) where that type is 16 bits wide.
- Visit counters have a fixed width in the source, and every visit counter in the model is an unbounded `int`. The first-generation node's `uint16s visits` (corintho_ai/cpp/include/node.h:24) wraps past 65535. The modern `visits_` is narrowed to `int16_t` by `set_visits` (corintho_ai/cpp/src/node.cpp:136) and stepped by `++`/`--` (lines 153, 157), so it wraps past 32767. The model assumes no search reaches those counts. A longer search, whose counters wrap in the source, is not modelled.
- MoveCodec.PlaceNotationAsWritten: requires the never-set `spaceFrom_` to hold a square on the board. Its default is unknown: the header that declares `spaceFrom_` for corintho_ai/cpp/src/move.cpp is not part of this model (corintho_ai/cpp/include/move.h declares `row1_`..`col2_` instead). The finding does not depend on it, because every placement prints the same square whatever that square is.
- CppMove.EncodeMove: the first C++ encoder computes `row1 - 1` and `col1 - 1` in unsigned arithmetic. The model uses integers, which agree with it on every legal slide.
- TrainSearch.TrainMC.ChooseMove requires positive opening visits in the opening branch. corintho_ai/cpp/src/trainmc.cpp:151-153 takes the draw `% visits`, which would divide by zero otherwise.
- OldPlaySearch.OldPlayMC.ChooseMove requires more than one root visit below the opening depth. cpp/playmc.cpp:56 takes the draw `% (root->visits - 1)`, which would divide by zero otherwise.
- CGame.GameRecord.Init: the loop at c/game.c:14 assigns the whole `pieces` array as if it were one cell. The model reads it as setting every count to 4.
- CppGame.Init: the `frozen` bitset has 48 bits of which only the first 16 are ever read, and the model keeps those 16.
- The first-generation trainer `cpp/trainmc.cpp` and the searcher `Searcher` (`searchUpToDepth`, `sortChildren`) are not part of this model. Neither is `implement/move.py`, whose codec `implement/game.py` calls: the model uses the modelled codec in its place. The top-level Python scripts (`montecarlo.py`, `mcplayer.py`, `evaluator.py`, `training.py`, the `neural` package) are left out because they train or drive the network.
- PyGame: `__str__`, `__deepcopy__` and `receive_opp_move` are not modelled. The first two only render or copy the game, and the last only forwards to a player. The game vector is a sequence of reals instead of a numpy array.
- PyGame.Game.Mask, PyGame.Game.GetLegalMoves, PyGame.Game.DoMove and PyGame.Game.GetVector read the tops and bottoms computed from the board (`PyBoard.TopsOf`, `PyBoard.CellTop`, `PyBoard.CellBottom`) where implement/game.py reads `self.board.tops` and `self.board.bottoms`, attributes a board never has. As written these calls raise AttributeError; "## Findings" records that, with the as-written members `PyGame.LegalMovesAsWritten`, `PyGame.VectorAsWritten` and `PyGame.Game.DoMoveAsWritten`. The findings for implement/game.py:140-141 and 326-328 likewise assume the intended flat `tops` and `bottoms`, indexed by cell.
- PlaceOfferedIsLegal: states its property of the corrected `get_legal_moves`, which reads the computed tops. As written the call raises AttributeError or flags nothing, so the written program offers no placement at all.
- SlideOfferedTouchesLines: states its property of the corrected `get_legal_moves`. As written the call raises AttributeError or flags nothing.
- PlaceOfferedTouchesLines: states its property of the corrected `get_legal_moves`. As written the call raises AttributeError or flags nothing.
- NoLinesOffered: states its property of the corrected `get_legal_moves`. As written, with no line standing, the call raises AttributeError at implement/game.py:273.
- NoLinesSlide: states its property of the corrected `get_legal_moves`. As written, with no line standing, the call raises AttributeError at implement/game.py:273 after the slide loop has run.
- NoLinesPlace: states its property of the corrected `get_legal_moves`. As written, with no line standing, the placement loop raises AttributeError at its first read of `self.board.tops`.
- PyPlayer.RandomMove: returns None when no index is flagged. In the source, `self.rng.choice(choices)` at implement/player.py:34 raises ValueError on the empty list; None stands for that error.
- PlaySearch.PlayMC.Search and the search passes it shares stop the descent at a node whose result is Loss or Draw, the modern `terminal()` of corintho_ai/cpp/src/node.cpp:94. corintho_ai/cpp/src/playmc.cpp:275 and 378 call `is_terminal()`, which the modern node.cpp does not define; the first-generation `is_terminal` (cpp/node.cpp:50) also counts a plain Win. The two readings agree only because the modern search never gives a node a plain Win.
- PlaySearch.PlayMC.ChooseMove and OldPlaySearch.OldPlayMC.ChooseMove require the root to have a child, where the source would dereference a null child pointer. The callers in the sources reach them only after a search of a non-terminal root.
- PyBoard and ProtoBoard: `get_tops_and_bottoms` is left out, as it only pairs the two modelled lookups. Nested lists are flattened to sequences indexed by cell.
- PyPlayer.GetMove: the human player's `input()` stream is the sequence `inputs`. An index outside the board is treated as a refused command, where the source would raise IndexError.
- SelfPlay: the search trees of both self-players are abstracted to their replies (the chosen move, the sample, whether the root is decided). The trees themselves are modelled in TrainSearch.
- Concurrency and the driver processes (`tourney`, `trainer`, `dockermc`) are not part of this model.

## Findings

| source | as written | input that shows it | evidently intended | confidence | as-written member | corrected member |
|---|---|---|---|---|---|---|
| move.py:38-42 | A placement assigns `self.row` twice and never sets `row1` or `col1`. `__eq__` and `__str__` then read the missing attributes. | Id 48: comparing `Move(48) == Move(48)` or printing it raises AttributeError. | `row1 = (id % 16) // 4` and `col1 = id % 4`, after which two decoded moves are equal exactly when their ids are. | not executed | PyMove.DecodeAsWritten, PyMove.EqPlacementsRaise, PyMove.StrPlacement | PyMove.Decode, PyMove.EqDecodedIffSameId |
| corintho_ai/cpp/src/move.cpp:56-64 | Placement notation prints `spaceFrom_`, which the placement constructors never set. | Ids 48 and 53 are placements on a4 and b3. Both print "Ba4" when the unset field holds a4. | Placement text names the target square `spaceTo_`, so the notation is injective. | not executed | MoveCodec.PlaceNotationAsWritten, MoveCodec.PlaceNotationIgnoresTarget | MoveCodec.PlaceNotation, MoveCodec.PlaceNotationInjective |
| c/game.c:20-26 | `is_empty` returns true when some tier is present, the opposite of its comment. `can_place`, `can_move` and `is_legal` are built on it. | Any occupied cell is "empty". A piece of any tier is accepted on an occupied unfrozen cell, a base on an empty unfrozen cell is refused, and every slide, such as index 0, is refused. | `is_empty` is true exactly for a cell with no tier, and slides follow the bottom-minus-top rule. | not executed | CGame.IsEmptyInverted, CGame.PlaceAsWritten, CGame.NoSlideAsWritten, CGame.IsLegalAsWrittenRefuses | CGame.CanMoveAgrees, CGame.CanPlaceRule, CGame.IsLegal |
| cpp/game.cpp:19-21 | `can_place` returns true on an empty cell before it checks the mover's inventory. | A mover holding no bases may still place a base on an empty cell. | The inventory check comes first, as in the current engine. | not executed | CppGame.EmptyIgnoresInventory | CppGame.CanPlaceHeldAgrees |
| implement/game.py:140-141 | The column-line mask reads index `3 + source` where the cell (3, source) is meant. (This reads the intended flat `tops` indexed by cell, which the board lacks; see the implement/game.py:273-285 row.) | A column of capitals "c0u" admits the slide of a tier-1 stack from (3,1) onto (3,0), which does not extend the line. | The mask admits only moves that extend the line at its tier. | not executed | PyGame.ColumnExtendAsWritten | PyGame.StraightExtendsAtTier |
| implement/game.py:185 | The long-diagonal mask names a slide two rows apart for the lower middle cell. | For "d0u", the intended slide from (0,2) to (2,2) encodes to index 14, which decodes to the slide (0,2) to (1,2), off the diagonal. | Every admitted slide touches the line. | not executed | PyGame.LongLowerAsWritten | PyGame.LineMovesTouch |
| implement/game.py:326-328 | Reading the intended `bottoms` and `tops`, which are -1 on an empty cell, the walk over an empty cell c runs from -1 to -1 and writes entry 3c - 1: the capital of cell c - 1, and for cell 0 the last entry, the capital of cell 15. | The empty starting board: all sixteen capital entries are marked although no piece stands. | Only tiers that are present are marked. | not executed | PyGame.StartVectorAsWritten | PyGame.MarkedIsPresent, PyGame.Game.GetVector |
| implement/game.py:273-285 | `get_legal_moves` reads `self.board.tops` (also at lines 93, 99, 140, 146 and 195-207), but a board only has `spaces`, `frozen` and `lines` (implement/board.py:12-20) and nothing assigns it a `tops`. `do_move` calls `get_legal_moves` at line 306, after it has spent the piece, moved the board and passed the turn. | The starting game: the placement loop raises AttributeError at line 273, so no move is ever offered, and every `do_move` that leaves at most two lines raises after mutating the game. | Read the tops computed from the board, flat and indexed by cell as the mask code indexes them (`get_tops`, implement/board.py:182-191, computes them as a 4 x 4 array). | not executed | PyGame.LegalMovesAsWritten, PyGame.Game.DoMoveAsWritten, PyGame.StartGameAsWritten | PyGame.Game.GetLegalMoves, PyGame.Game.DoMove, PyGame.PlaceOfferedIsLegal |
| implement/game.py:327 | `get_vector` reads `self.board.bottoms`, which a board never has. | Any game, the starting one included: the call raises AttributeError. | Read the bottoms computed from the board, -1 on an empty cell. | not executed | PyGame.VectorAsWritten, PyGame.StartGameAsWritten | PyGame.Game.GetVector, PyGame.VectorCanonical |
| implement/player.py:50-55 | The acceptance test uses the truth of the decoded index, so index 0 is never accepted. | The command "00R" decodes to index 0. When that move is legal, it is refused. | A decoded index is accepted exactly when it is legal. | not executed | PyPlayer.FirstSlideRefusedAsWritten | PyPlayer.AcceptedAgrees, PyPlayer.GetMove |
| board.py:146-157 | `is_legal_move` passes `can_place` the row, column and tier in the wrong order. | On the starting board, a base on (0,1) is legal but refused. | The arguments are passed in the order `can_place` declares. | not executed | ProtoBoard.SwappedArgumentsRefuse | ProtoBoard.Board.IsLegalMoveRule |
| corintho_ai/cpp/src/trainmc.cpp:455-466 | The terminal backup adds `cur_eval - 1.0` to each ancestor before it flips the sign, so the flip comes one level late. The same code is at corintho_ai/cpp/src/playmc.cpp:385-397. | A decisive terminal leaf (value -1) under the root: the root is credited -1 where a network evaluation of -1 at that leaf credits it +1. | The terminal value is backed up exactly as an evaluation is: each ancestor gets the value with alternating sign (`Credited`). | not executed | SearchWalks.TerminalCreditAsWritten, SearchWalks.TerminalCreditAsWrittenWrong | SearchWalks.TerminalCredit, SearchWalks.TerminalCreditCredits |
| corintho_ai/cpp/src/playmc.cpp:237-244 | The evaluation backup adds `cur_eval + 1.0`, although the descent already added 1 to every node of the path. | Any evaluation v at a leaf below the root: every ancestor ends 2 above its alternating credit. | `cur_eval - 1.0`, which undoes the descent's +1, as corintho_ai/cpp/src/trainmc.cpp:320 does. | not executed | SearchWalks.EvalBackupPlusOvershoots | SearchWalks.EvalBackupCredits |
| cpp/playmc.cpp:316-331 | A drawn terminal leaf skips the backup walk, so the ancestors keep the -1 that the descent subtracted. | A new drawn terminal leaf under the root: the root ends 1 below where a draw (value 0) should leave it. | A draw is backed up like any value, here 0, which undoes the descent's -1. | not executed | SearchWalks.OldTerminalCreditAsWritten, SearchWalks.OldTerminalCreditAsWrittenDraw | SearchWalks.OldTerminalCredit, SearchWalks.OldTerminalCreditCredits |
| corintho_ai/cpp/src/selfplayer.cpp:249-252 | `mate_turn_` is only reassigned when it is already nonzero. It starts at 0, so it stays 0 and `mateLength` is always 0. | Known roots from the second turn on: the counter stays 0. | Record the sample count at the first turn whose root is known (`mate_turn_ == 0`). | not executed | SelfPlay.MateTurnsAsWritten, SelfPlay.MateTurnStaysZero, SelfPlay.MateTurnExample | SelfPlay.MateTurns, SelfPlay.MateTurnsFirst, SelfPlay.SelfPlayer.Turn |
| corintho_ai/cpp/src/selfplayer.cpp:152-162 | The loop of `writeMoves` that pairs the root's children with its edges moves `edge_index` on but never `cur`. The same loop in corintho_ai/cpp/src/match.cpp:92-100 moves `cur` to its next sibling at line 98. | Any logged self-play game whose root has a child: the scan never leaves the first child, so it runs forever and reads move ids past the edges. The first `num_logged` games get a log file (corintho_ai/cpp/src/trainer.cpp:261-267). | After a match, move `cur` to its next sibling, as match.cpp does. | not executed | SelfPlay.LogScanAsWritten, SelfPlay.LogScanAsWrittenNeverEnds | SelfPlay.LogScan |
| corintho_ai/cpp/src/selfplayer.cpp:92-104 | Symmetry k of a sample is written at slot `offset * S + (k + 1)`. | n samples and S symmetries: the last copy goes to slot n times S, one past the buffers, and slot 0 is never written. | Slot `offset * S + k`. | not executed | SelfPlay.SlotAsWritten, SelfPlay.SlotAsWrittenOverruns | SelfPlay.SelfPlayer.WriteSamples, SelfPlay.StateLayout |
| corintho_ai/cpp/src/match.cpp:191-193 | `root_` is left null by match.h:63, and the first `chooseMove` reads the moves through it. | The first move of any match. | `root_` starts at the starting position. | not executed | MatchPlay.ChildAsWritten, MatchPlay.FirstMoveAsWritten | MatchPlay.Match.constructor, MatchPlay.StartTableOk |
| corintho_ai/cpp/src/match.cpp:197-200 | The terminal test reads `players_[to_play_]->root()`, and `endGame` calls `null_root` on both players. A random player is a null pointer. | Any match with a random player: the random player's move, or the final move, dereferences null. | Test `root_->terminal()` and skip the random player in `endGame`. | not executed | MatchPlay.PassAsWritten, MatchPlay.RandomMatchNeverEndsAsWritten | MatchPlay.Run, MatchPlay.RunAgreesAsWritten |
