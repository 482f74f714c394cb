# Othello board rules, modelled in Dafny

This project models the rules engine of an Othello/Reversi board, `skeleton/lib/board.js`:

- the 8×8 grid and its starting layout (`_makeGrid`);
- the positional queries `getPiece`, `isValidPos`, `isOccupied` and `isMine`;
- the eight directions `Board.DIRS`;
- the recursive direction walk `_positionsToFlip`;
- `validMove`, `validMoves`, `hasMove` and `isOver`;
- `placePiece`.

The file is an unfinished skeleton, and several of its bodies contradict their own doc-comments. The main model follows the doc-comments. The bodies as written are modelled separately in module `AsWritten`, and each body that contradicts its doc-comment is listed under "## Findings". `placePiece` has no body yet. It is modelled from its doc-comment alone, and "## Left out" says so.

Modules:

- `Wrappers`: `Option` stands for the source's `null`. `Result` carries a value or the error the source would throw.
- `Grid`: the board state. It has `Color`, `Pos`, `Dir`, and `Board` (an 8×8 `seq<seq<Option<Color>>>`). It also holds `Dirs`, the queries, and `MakeGrid`.
- `Flip`: the direction walk. `Closes(b, p, color, d, n)` is its independent reference definition. `RunLength` is the walk's case split without the collected array, and `WalkIsRun` relates the two. It says that exactly `n` opponent pieces lie from `p` along `d`, and that an on-board piece of `color` closes the run.
- `Moves`: legality, enumeration, has-move, game over and placement. Each one is stated against the reference predicates `Legal`, `CanMove`, `Over`, `Flipped` and `Captured`.
- `AsWritten`: the divergent bodies, with lemmas that exhibit each difference.

A board is an immutable value, so `placePiece` returns a new board or an error. Off-board positions make `getPiece`, `isMine` and `isOccupied` fail with `OutOfRange`, as they do in the source through `getPiece`. An invalid placement fails with `InvalidMove`.

## Model

| member | source | states |
|---|---|---|
| `Grid.DirsAreTheNeighbours` | skeleton/lib/board.js:29-33 | `Board.DIRS` has eight entries, no repeats, and contains every non-zero unit step |
| `Grid.IsValidPos` | skeleton/lib/board.js:86-96 | a position is on the board exactly when both coordinates lie in [0, 7] |
| `Grid.GetPiece` | skeleton/lib/board.js:35-46 | fails with `OutOfRange` exactly when `IsValidPos` is false; otherwise yields the grid cell |
| `Grid.IsMine` | skeleton/lib/board.js:55-66 | three-way answer: fails off the board; `NoPiece` iff the cell is empty (distinct from false); `Mine` iff it holds `color`; `Theirs` iff it holds the opponent |
| `Grid.IsOccupied` | skeleton/lib/board.js:68-73 | fails off the board; otherwise true iff the cell holds a piece |
| `Grid.OccupiedIffOwned` | skeleton/lib/board.js:59-73 | for either colour, `isOccupied` and `isMine` fail on the same positions; a cell is occupied iff `isMine` answers "mine" or "theirs", and empty iff it answers "no piece" |
| `Grid.EmptyGrid` | skeleton/lib/board.js:8-14 | all 64 cells are empty |
| `Grid.MakeGrid` | skeleton/lib/board.js:3-19 | black on (3,4) and (4,3), white on (3,3) and (4,4), every other on-board cell empty |
| `Grid.UpdateAll` | skeleton/lib/board.js:165-170 | after recolouring a list of cells, exactly the listed cells hold the new value and all others are unchanged |
| `Flip.ClosesUnique` | skeleton/lib/board.js:98-103 | a run from a position in a direction has at most one length: the walk stops at the first piece of the mover's colour |
| `Flip.RunLengthCloses` | skeleton/lib/board.js:98-103 | the run length read off the walk's case split is a closed run of the rule, and when it finds none there is no closed run of any length |
| `Flip.RunLengthOnly` | skeleton/lib/board.js:98-103 | the run the walk's case split finds is the only closed run from that cell |
| `Flip.Walk` | skeleton/lib/board.js:137-162 | the intended recursive walk. It has no contract of its own; its facts are in `Flip.WalkIsRun` and `Flip.RunLengthCloses` |
| `Flip.WalkIsRun` | skeleton/lib/board.js:137-162 | the recursive walk appends exactly the closed run from the current cell to the positions already collected; it gives null when there is no closed run, or when neither the collection nor the run has a cell |
| `Flip.PositionsToFlip` | skeleton/lib/board.js:98-111 | a non-null result is non-empty. It is exactly the cells pos + k·d for k = 1..n, all opponent pieces, and cell pos + (n+1)·d is on the board and holds `color`. The result is null iff no such run exists, so the edge, an empty neighbour or an own neighbour gives null |
| `Flip.ListedCell` | skeleton/lib/board.js:98-103 | every position in a direction list is pos + k·d for some k within the list's length, and holds an on-board opponent piece |
| `Flip.RunCellListed` | skeleton/lib/board.js:98-103 | every cell inside a closed run is in the direction list, so nothing the rule captures is missed |
| `Flip.SingleCapture` | skeleton/lib/board.js:98-110 | one opponent piece followed by a piece of the mover's colour gives exactly that one position |
| `Moves.ValidMove` | skeleton/lib/board.js:188-206 | true iff the position is on the board, empty, and some direction of `Board.DIRS` holds a closed run (`Legal`), equivalently iff some of the eight walks is non-null |
| `Moves.ScanRow` | skeleton/lib/board.js:212-223 | scanning one row collects exactly that row's legal positions, in increasing column order |
| `Moves.ValidMoves` | skeleton/lib/board.js:208-223 | the list holds exactly the positions where `Legal` holds, in strict row-major order, with no duplicates |
| `Moves.RowMajorByContents` | skeleton/lib/board.js:208-223 | two strictly row-major lists with the same positions are equal, so the enumeration's result is fully determined and repeated calls agree |
| `Moves.HasMove` | skeleton/lib/board.js:48-53 | true iff some legal move exists for the colour |
| `Moves.IsOver` | skeleton/lib/board.js:75-78 | true iff neither black nor white has a legal move (the doc-comment's rule) |
| `Moves.DirectionListOpponent` | skeleton/lib/board.js:98-103 | every position in a direction list is an on-board opponent piece |
| `Moves.CollectFlips` | skeleton/lib/board.js:165-170 | the gathered list holds exactly the positions of the non-null direction lists, all of them opponent pieces on the unchanged board |
| `Moves.PlacePiece` | skeleton/lib/board.js:165-173 | fails with `InvalidMove` iff the move is not legal. On success the target holds `color`, and so does every cell of every non-null direction list. Every other cell is unchanged. Only opponent pieces change colour, no other cell is filled or emptied, and the mover keeps every piece |
| `Moves.FlippedIsCaptured` | skeleton/lib/board.js:165-170 | every cell of a non-null direction list lies inside a closed run of the rule |
| `Moves.CapturedIsFlipped` | skeleton/lib/board.js:165-170 | every cell inside a closed run of the rule lies in some non-null direction list |
| `Moves.FlippedIffCaptured` | skeleton/lib/board.js:165-170 | a cell lies in some non-null direction list iff it lies inside a closed run of the rule |
| `Moves.OpeningMoves` | skeleton/lib/board.js:227-228 | on the starting grid black may play (2,3), which flips (3,3) and leaves the closing (4,3) alone; white may play (2,4) |
| `Moves.OpeningNotOver` | skeleton/lib/board.js:75-84 | both colours can move at the start, so the game is not over |
| `Moves.EmptyGridOver` | skeleton/lib/board.js:75-78 | on the empty grid neither colour has a legal move, so the game is over by the doc-comment's rule |
| `Moves.OpeningPieces` | skeleton/lib/board.js:15-18 | on the starting grid the white pieces are exactly (3,3), (4,4) and the black ones exactly (3,4), (4,3) |
| `Moves.OpeningRunBlack` | skeleton/lib/board.js:98-110 | on the starting grid every black run is one piece long and starts from (2,3), (3,2), (4,5) or (5,4) |
| `Moves.OpeningLegalBlack` | skeleton/lib/board.js:188-206 | on the starting grid black's legal moves are exactly (2,3), (3,2), (4,5), (5,4) |
| `Moves.OpeningValidMoves` | skeleton/lib/board.js:212-223 | the enumeration for black on the starting grid is exactly `[(2,3), (3,2), (4,5), (5,4)]` |
| `AsWritten.OwnerSeen` | skeleton/lib/board.js:59-66 | with no colour argument `isMine` never answers "mine"; it answers "no piece" exactly for empty cells |
| `AsWritten.Walk` | skeleton/lib/board.js:140-160 | the walk exactly as its branches read. It has no contract of its own; its facts are in `AsWritten.WalkNeverCloses` and `AsWritten.WalkFlipsGap` |
| `AsWritten.WalkNeverCloses` | skeleton/lib/board.js:147-157 | as written, the walk returns null for every board, position and direction |
| `AsWritten.WalkMissesOpening` | skeleton/lib/board.js:147-148 | for black's opening (2,3) downwards the walk as written gives null, where the intended walk gives `[(3,3)]` |
| `AsWritten.WalkFlipsGap` | skeleton/lib/board.js:144-160 | on any board with (0,1) empty and black on (0,2), black at (0,0) looking right gets `[(0,1)]` from the walk as written and null from the intended walk |
| `AsWritten.WalkFlipsEmptyCell` | skeleton/lib/board.js:144-160 | even with the colour passed, the walk as written lists an empty cell for flipping where the intended walk gives null |
| `AsWritten.ValidMoves` | skeleton/lib/board.js:212-223 | the enumeration as written, which is always empty. It has no contract of its own; its fact is in `AsWritten.ValidMovesMissesOpening` |
| `AsWritten.ValidMovesMissesOpening` | skeleton/lib/board.js:212-223 | on the starting grid black has a legal move, (2,3), yet the enumeration as written is empty |
| `AsWritten.IsOver` | skeleton/lib/board.js:79-84 | the condition as written: over iff both colours have a move |

## Left out

- `print` (skeleton/lib/board.js:178-186) is left out. It is console output, and its body is broken: it reads `i.length` and calls `push` on a string.
- The `debugger` statement, the `console.log` in `validMove`, and the script at the end of the file are left out. They are side effects with no logical content. `Moves.OpeningMoves` states what the script's call `validMove([2,3], "black")` would return with the intended walk, namely true. As written it returns false, because every walk is null (`AsWritten.WalkNeverCloses`).
- The `Piece` class is left out; `piece.js` is not part of this model. A piece is just its colour, and flipping replaces the cell's colour.
- `CustomError` is never defined in the file. Thrown errors become the `Failure` case of `Result`.
- The commented-out earlier walk (skeleton/lib/board.js:112-136) is left out.
- Mutation is not modelled. `placePiece` returns a new board instead of changing `this.grid`, so "the board is unchanged on failure" holds because boards are values.
- The body of `placePiece` is empty in the source. `Moves.PlacePiece` follows its doc-comment only.
- The walk returns positions, as the live code pushes `nextPos`. The doc-comment speaks of "pieces".
- `AsWritten.IsOver` takes `hasMove` as intended. Composed with the as-written `validMoves`, the source's `hasMove` is always false, so its `isOver` is always false too.

## Findings

| source | as written | input that shows it | evidently intended | confidence | as-written member | corrected member |
|---|---|---|---|---|---|---|
| skeleton/lib/board.js:147 | `isMine(nextPos)` omits the colour, so no piece ever counts as "mine" and no run ever closes; `validMove` is then always false | starting grid, black at (2,3), direction (1,0): null instead of `[(3,3)]` | `isMine(nextPos, color)` | high; not executed | `AsWritten.WalkNeverCloses`, `AsWritten.WalkMissesOpening` | `Flip.PositionsToFlip` |
| skeleton/lib/board.js:144 | an empty cell falls through to the general branch, which pushes it and walks on instead of returning null | board with only black at (0,2), colour passed; black at (0,0) facing (0,1) gets `[(0,1)]`, an empty cell | return null on an empty cell | high; not executed | `AsWritten.WalkFlipsGap`, `AsWritten.WalkFlipsEmptyCell` | `Flip.PositionsToFlip` |
| skeleton/lib/board.js:215 | the loops run to `this.length`, which is undefined, so no position is tried. The misspelt `this.ValidMove([i,j])` also drops the colour | starting grid, black: `[]` although (2,3) is legal | loop over the 8 rows and columns calling `this.validMove([i, j], color)` | high; not executed | `AsWritten.ValidMoves`, `AsWritten.ValidMovesMissesOpening` | `Moves.ValidMoves` |
| skeleton/lib/board.js:80 | over when both colours still have a move | the empty grid: neither colour can move, so the game is over, yet the condition reports not over. With `hasMove` repaired, the starting grid is reported over although both colours can move | over when neither colour has a move | high; not executed | `AsWritten.IsOver`, `Moves.EmptyGridOver`, `Moves.OpeningNotOver` | `Moves.IsOver` |
