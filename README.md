# 2048 board engine of SecWeb2024.2

The client of SecWeb2024.2 implements the 2048 game twice, independently.

- **Dashboard** (`client/src/pages/Dashboard.jsx`) holds the board as a 4×4
  array of numbers, with `0` for an empty cell. A swipe deep-copies the board
  and runs a loop with two indices (`slow` and `fast`) over every row, in place. The
  loop packs the tiles to the left and merges equal neighbours. Right, Up and
  Down run the same loop after reversing rows, transposing, or both, and then
  undo that. A swipe spawns a 2 or a 4 on a random empty cell (at most 50
  tries) only if the board changed. It then adds the merged values to the
  score, raises the best score if it was beaten, and asks `checkIfGameOver`.
- **Game / Gameboard** (`client/src/pages/TheGame/Game.jsx` with
  `client/src/pages/Gameboard.jsx`) holds the board as 4×4 cells that are
  `''` or a number. An arrow key takes each row or column in turn. It drops
  the `''` entries with `splice`, merges equal neighbours with `splice`,
  reports each merged value through `incrementScore`, and writes the line
  back. Up and Left put the tiles first; Down and Right put them last. After
  every arrow key `randomNumberGenerator` draws random cells until it finds
  an empty one. After more than 1000 failed draws it resets the game. The
  Gameboard page owns the state (`cellValues`, `userScore`, `bestUserScore`,
  `initialized`). It spawns with `addRandomNumber`, which picks from the
  list of empty cells, and it starts over with `resetGame`.

The model has five modules:

- `Grids` (`grids.dfy`): 4×4 grids as sequences of rows, transpose, row
  reversal, and the view of a 4×4 `array2`.
- `Line` (`line.dfy`): the reference left slide of one row of numbers,
  `MoveLeftRow`. It compacts the row, merges equal neighbours once from the
  left, and pads with 0. The lemmas give its sum, its shape, its tile count,
  and the single-merge rule.
- `Dashboard` (`dashboard.dfy`): the in-place `slow`/`fast` loop. It is proved to
  compute `MoveLeftRow` of each row and to return the row's score. The module
  also holds the in-place transpose and reversal, `addNumber` over a
  sequence of tries, `checkIfGameOver`, and the page state as class `Board`.
- `Gameboard` (`gameboard.dfy`): cells `Blank | Num(v)`, the row-major list
  of empty cells, `addRandomNumber`, `resetGame`, `incrementScore` and the
  high score, with the page state as class `GameBoard`.
- `Game` (`game.dfy`): the splice-based compaction and the two merge loops,
  the write-back loops, the four key branches, `randomNumberGenerator`, the
  start-up effect, and lemmas relating this variant to the Dashboard one.

Randomness is replaced by parameters:

- Dashboard's `addNumber` takes a sequence of `Try(row, col, four)`, one per
  attempt.
- `randomNumberGenerator` takes 1002 `Draw(col, row)` coordinates and a
  `four` flag.
- `addRandomNumber` takes `Pick(index, four)`.

## Model

| member | source | states |
|---|---|---|
| Grids.Transpose | client/src/pages/Dashboard.jsx:187-193 | the swap loop leaves cell (c, r) of the old grid at (r, c) for every cell |
| Grids.TransposeTwice | client/src/pages/Dashboard.jsx:232-238 | transposing a second time gives back the original grid, so Up and Down restore the orientation |
| Grids.ReverseRows | client/src/pages/Dashboard.jsx:273-275 | after reversing every row, cell (r, c) holds the old (r, 3 - c), and row r is the reverse of the old row r |
| Grids.ReverseRowsTwice | client/src/pages/Dashboard.jsx:314-316 | reversing every row again gives back the original grid |
| Grids.ReversedTwice | client/src/pages/Dashboard.jsx:161 | reversing a row twice gives the row back, so Right writes its rows back the right way round |
| Grids.Copy | client/src/pages/Dashboard.jsx:55 | the deep copy is a new 4×4 array, not aliased, holding exactly the grid's cells |
| Line.MoveLeftRowShape | client/src/pages/Dashboard.jsx:59-97 | a row after a left pass is its merged tiles followed only by zeros; its tiles are the merge of the old tiles; the tile count drops by exactly the number of merges |
| Line.MoveLeftRowSum | client/src/pages/Dashboard.jsx:76-86 | a left pass keeps the sum of the row |
| Line.MoveLeftRowNonNegative | client/src/pages/Dashboard.jsx:88 | on non-negative rows the pass yields non-negative cells and a non-negative score gain |
| Line.SumCompact | client/src/pages/Dashboard.jsx:76-77 | moving tiles over zeros keeps the sum |
| Line.SumMerge | client/src/pages/Dashboard.jsx:85-86 | merging keeps the sum, because a pair a, a becomes 2a |
| Line.MergeCount | client/src/pages/Dashboard.jsx:84-91 | each merge removes one tile and adds one value to the score: merged length plus the number of gains equals the input length |
| Line.MergedTileRests | client/src/pages/Dashboard.jsx:84-91 | the one-merge rule of the reference `Merge`, with its first two clauses the recursion unfolded once: after a pair a, a merges, the rest of the line merges on its own, so a, a, a gives 2a, a with the single gain 2a; that the source's loop follows this rule is `Dashboard.StepMerge` together with `Dashboard.LeftPass` |
| Line.MergeAtMostPairs | client/src/pages/Dashboard.jsx:90-91 | at least half of the tiles remain, a consequence of the one-merge rule (the rule itself is `Line.MergedTileRests`) |
| Line.MergeShrinks | client/src/pages/Dashboard.jsx:84-86 | a line with two equal neighbours always loses a tile |
| Line.MergeStable | client/src/pages/Dashboard.jsx:92-95 | a line with no equal neighbours is left as it is and scores nothing |
| Line.FullRowMoves | client/src/pages/Dashboard.jsx:358-363 | a full row is unchanged by the pass if and only if no two neighbours are equal |
| Line.NoChangeNoGain | client/src/pages/Dashboard.jsx:100-104 | a row that the pass leaves unchanged adds nothing to the score |
| Line.ThreeAndFourEqual | client/src/pages/Dashboard.jsx:84-91 | [2,2,2,0] becomes [4,2,0,0] for 4 points and [2,2,2,2] becomes [4,4,0,0] for 8 points |
| Dashboard.StepKeepsInv | client/src/pages/Dashboard.jsx:64-97 | every turn of the loop keeps the invariant: before `slow` no tile follows a 0, cells strictly between `slow` and `fast` are 0, `fast == slow` only on a 0 cell, and the tiles before `slow` plus the merge of the rest, with the logged gains, give the pass's result |
| Dashboard.StepAdvances | client/src/pages/Dashboard.jsx:64-97 | every turn raises `slow`, or keeps `slow` and raises `fast`, and afterwards `0 <= slow <= fast <= 4` still holds, so the loop terminates |
| Dashboard.StepMerge | client/src/pages/Dashboard.jsx:84-91 | a merge doubles `b[slow]`, clears `b[fast]`, logs the doubled value and moves `slow` past the doubled tile |
| Dashboard.StepMove | client/src/pages/Dashboard.jsx:75-78 | moving the `fast` tile into an empty `slow` cell keeps the invariant |
| Dashboard.Turn | client/src/pages/Dashboard.jsx:66-96 | one turn on the array row does what the loop step does, adds the merged value to the score, and touches no other row |
| Dashboard.PassDone | client/src/pages/Dashboard.jsx:64 | once `slow` reaches 4 the row equals `MoveLeftRow` of the original row and the log holds exactly its merge gains |
| Dashboard.LeftPass | client/src/pages/Dashboard.jsx:59-97 | the in-place loop turns row i into `MoveLeftRow` of the old row, returns the sum of its merged values, and leaves the other rows alone |
| Dashboard.LeftPasses | client/src/pages/Dashboard.jsx:59-98 | the four passes turn the array into the left move of the old grid and return the left score |
| Dashboard.ReverseRow | client/src/pages/Dashboard.jsx:124 | `reverse()` reverses row i in place and touches no other row |
| Dashboard.ReverseAllRows | client/src/pages/Dashboard.jsx:273-275 | every row is reversed in place |
| Dashboard.TransposeInPlace | client/src/pages/Dashboard.jsx:264-270 | the nested swap loops transpose the array in place |
| Dashboard.RightPass | client/src/pages/Dashboard.jsx:123-161 | row i becomes the reverse of the left pass of its reverse; the returned score is that pass's score |
| Dashboard.RightPasses | client/src/pages/Dashboard.jsx:123-162 | the Right loop equals reverse rows, left move, reverse rows, with the matching score |
| Dashboard.FirstHit | client/src/pages/Dashboard.jsx:35-45 | gives the first try that lands on a 0 cell; every earlier try lands on a tile |
| Dashboard.AddNumber | client/src/pages/Dashboard.jsx:31-50 | the array afterwards is the old grid with the first 0 cell hit among the tries set to 2 or 4 |
| Dashboard.AddNumberWritesOneEmptyCell | client/src/pages/Dashboard.jsx:31-50 | at most one cell changes; it was 0 and becomes 2 or 4; the grid stays the same if and only if every try lands on a tile |
| Dashboard.AddNumberNonNegative | client/src/pages/Dashboard.jsx:40 | spawning keeps every cell non-negative |
| Dashboard.MovePreservesSum | client/src/pages/Dashboard.jsx:76-86 | every move in every direction keeps the sum of the board |
| Dashboard.MoveNonNegative | client/src/pages/Dashboard.jsx:88 | on a non-negative board every move keeps the cells non-negative and scores at least 0 |
| Dashboard.NoChangeNoScore | client/src/pages/Dashboard.jsx:100-104 | a move that leaves the board unchanged scores nothing |
| Dashboard.CheckIfGameOver | client/src/pages/Dashboard.jsx:345-370 | the scan, which compares each cell with all four neighbours, answers true exactly when no cell is 0 and no two horizontal or vertical neighbours are equal |
| Dashboard.GameOverIsStuck | client/src/pages/Dashboard.jsx:345-370 | on a board reported over, no direction changes the board |
| Dashboard.StuckIsGameOver | client/src/pages/Dashboard.jsx:345-370 | a full board that neither Left nor Up changes is reported over |
| Dashboard.GameOverIffStuck | client/src/pages/Dashboard.jsx:345-370 | on a full board, `checkIfGameOver` holds if and only if every direction leaves the board unchanged |
| Dashboard.FirstSpawnOnEmpty | client/src/pages/Dashboard.jsx:35-42 | on the empty board the first try always lands: the board then has exactly one tile, a 2 or a 4, at that try's cell |
| Dashboard.ResetHasOneOrTwoTiles | client/src/pages/Dashboard.jsx:373-384 | a reset board has the first spawn's tile plus at most one more, each a 2 or a 4; it keeps a single tile exactly when all 50 tries of the second spawn fall on the first tile |
| Dashboard.Board.constructor | client/src/pages/Dashboard.jsx:9-19 | the page starts with an empty board, score 0 and the stored best score |
| Dashboard.Board.Initialize | client/src/pages/Dashboard.jsx:22-28 | the score is reset to 0 and two spawns are applied to the current board |
| Dashboard.Board.Reset | client/src/pages/Dashboard.jsx:373-384 | an empty board with two spawns applied, score 0, best score unchanged |
| Dashboard.Board.Finish | client/src/pages/Dashboard.jsx:100-114 | spawns only when the new board differs from the old; stores the board and the score; the best score becomes the new score exactly when it was beaten; reports game over |
| Dashboard.Board.SwipeLeft | client/src/pages/Dashboard.jsx:53-115 | board is the left move (plus a spawn when it changed); score grows by the move's merges and never drops; best score is the maximum |
| Dashboard.Board.SwipeRight | client/src/pages/Dashboard.jsx:118-179 | as SwipeLeft, for the reverse–pass–reverse move |
| Dashboard.Board.SwipeUp | client/src/pages/Dashboard.jsx:181-255 | as SwipeLeft, for the transpose–pass–transpose move |
| Dashboard.Board.SwipeDown | client/src/pages/Dashboard.jsx:258-342 | as SwipeLeft, for the transpose–reverse–pass–reverse–transpose move |
| Dashboard.Board.HandleKeyDown | client/src/pages/Dashboard.jsx:386-403 | each arrow code performs the swipe in its direction with that swipe's full result; any other code changes nothing |
| Gameboard.CollectEmptyCells | client/src/pages/Gameboard.jsx:93-98 | the `forEach` loops collect exactly the row-major list of empty cells |
| Gameboard.EmptyCellsExactly | client/src/pages/Gameboard.jsx:93-98 | a coordinate is in the list if and only if it is on the board and its cell is `''` |
| Gameboard.EmptyCellsUpToOrdered | client/src/pages/Gameboard.jsx:94-97 | the list is in strictly increasing row-major order, so there are no duplicates |
| Gameboard.EmptyCellsFill | client/src/pages/Gameboard.jsx:107 | writing a number into an empty cell shortens the list by exactly one |
| Gameboard.EmptyCellsBlankGrid | client/src/pages/Gameboard.jsx:114 | the fresh board has 16 empty cells |
| Gameboard.AddRandomWritesOneBlank | client/src/pages/Gameboard.jsx:100-109 | with no empty cell the board is returned unchanged; otherwise exactly one empty cell becomes 2 or 4, the other rows and the other cells of its row are untouched, and one fewer cell is empty |
| Gameboard.AddRandomSmallTiles | client/src/pages/Gameboard.jsx:103 | a spawn writes only 2 or 4, so a board of 2s and 4s stays one |
| Gameboard.NewGameHasTwoTiles | client/src/pages/Gameboard.jsx:113-118 | a new game has exactly 14 empty cells, and its two tiles are 2 or 4 |
| Gameboard.TwoSpawns | client/src/pages/Gameboard.jsx:117-118 | two spawns on an all-empty board leave 14 empty cells |
| Gameboard.Max | client/src/pages/Gameboard.jsx:32 | `Math.max` is at least each argument and equals one of them |
| Gameboard.GameBoard.constructor | client/src/pages/Gameboard.jsx:13-18 | the state starts with an all-`''` board, scores 0 and not initialized |
| Gameboard.GameBoard.IncrementScore | client/src/pages/Gameboard.jsx:22-24 | the score grows by exactly the given points, which are logged; nothing else changes |
| Gameboard.GameBoard.NewHighScore | client/src/pages/Gameboard.jsx:32 | the saved high score is at least the best and the current score, and is one of them |
| Gameboard.GameBoard.SyncBestScore | client/src/pages/Gameboard.jsx:57 | the best score becomes the maximum of itself and the score, so it never drops |
| Gameboard.GameBoard.AddRandomNumber | client/src/pages/Gameboard.jsx:91-111 | the board becomes the spawn result of the old board; scores and flags are unchanged |
| Gameboard.GameBoard.AddTwoRandomNumbers | client/src/pages/Gameboard.jsx:117-118 | two spawns in a row, composed |
| Gameboard.GameBoard.ResetGame | client/src/pages/Gameboard.jsx:113-118 | the board becomes the new game built from an all-`''` board by two spawns; score 0; initialized; best score unchanged |
| Game.CompactLine | client/src/pages/TheGame/Game.jsx:103-108 | the `splice` loop with `j--` leaves exactly the non-empty entries, in their order |
| Game.TilesMembers | client/src/pages/TheGame/Game.jsx:51-56 | a value survives compaction if and only if it was in the line and is not `''` |
| Game.TilesAreCompact | client/src/pages/TheGame/Game.jsx:77-82 | when no tile is 0, the compaction agrees with the 0-based compaction of Dashboard |
| Game.TilesSum | client/src/pages/TheGame/Game.jsx:129-134 | compaction keeps the line's sum |
| Game.MergeLeft | client/src/pages/TheGame/Game.jsx:111-117 | the left-to-right `splice` merge gives the single-pass merge of the tiles and reports to `incrementScore` exactly the doubled values, in order |
| Game.MergeRight | client/src/pages/TheGame/Game.jsx:137-143 | the right-to-left `splice` merge gives the as-written right merge and reports exactly its doubled values |
| Game.MergeRCount | client/src/pages/TheGame/Game.jsx:85-91 | each right merge removes one tile and reports one value |
| Game.SumMergeR | client/src/pages/TheGame/Game.jsx:85-91 | the right merge keeps the sum of the line |
| Game.RightMergesTwice | client/src/pages/TheGame/Game.jsx:137-143 | compacted 4, 2, 2 merges to 8 reporting 4 then 8, while the mirror of the left merge gives 4, 4 |
| Game.LeftMergesOnce | client/src/pages/TheGame/Game.jsx:111-117 | 2, 2, 4 slides left to 4, 4 reporting only 4: the doubled tile is not merged again |
| Game.PushRow | client/src/pages/TheGame/Game.jsx:101-102 | the `push` loop copies row i |
| Game.PushColumn | client/src/pages/TheGame/Game.jsx:49-50 | the `push` loop copies column j |
| Game.WriteRowStart | client/src/pages/TheGame/Game.jsx:120-121 | row i becomes the tiles followed by `''` up to length 4; other rows unchanged |
| Game.WriteRowEnd | client/src/pages/TheGame/Game.jsx:146-147 | row i becomes `''` then the tiles, length 4; other rows unchanged |
| Game.WriteColumnStart | client/src/pages/TheGame/Game.jsx:68-69 | column j becomes the tiles then `''`; other columns unchanged |
| Game.WriteColumnEnd | client/src/pages/TheGame/Game.jsx:94-95 | column j becomes `''` then the tiles; other columns unchanged |
| Game.CompactAndMerge | client/src/pages/TheGame/Game.jsx:103-117 | compaction then merge of one line, written back padded, gives the line's slide result and reports its gains |
| Game.SlideLineShape | client/src/pages/TheGame/Game.jsx:146-147 | a slid line has length 4; towards the start every `''` follows the numbers, towards the end every `''` precedes them; its numbers are the merged tiles |
| Game.SlideLineSum | client/src/pages/TheGame/Game.jsx:61-63 | sliding a line in either direction keeps its sum |
| Game.LeftLineIsMoveLeftRow | client/src/pages/TheGame/Game.jsx:99-123 | with no 0 tiles, Left on a line equals the Dashboard reference `MoveLeftRow` |
| Game.SwipeRows | client/src/pages/TheGame/Game.jsx:99-149 | the row loop for Left or Right gives every row's slide and reports all rows' gains in order |
| Game.SwipeColumns | client/src/pages/TheGame/Game.jsx:47-97 | the column loop for Up or Down equals transpose, row slide, transpose, and reports the gains of every column |
| Game.Swipe | client/src/pages/TheGame/Game.jsx:46-153 | every direction yields `Slid` of the board and adds exactly `MoveGains` to the score |
| Game.FirstFreeFrom | client/src/pages/TheGame/Game.jsx:17-21 | the draws before the result land on tiles; the result, if at most 1000, lands on an empty cell |
| Game.RetryDraws | client/src/pages/TheGame/Game.jsx:15-21 | the retry loop stops at `MAX_COUNT` equal to the first draw landing on an empty cell, or at 1001 |
| Game.SpawnWritesOneBlank | client/src/pages/TheGame/Game.jsx:27 | a successful spawn turns exactly one empty cell into 2 or 4 and leaves everything else alone |
| Game.FullBoardResets | client/src/pages/TheGame/Game.jsx:22-26 | on a full board every draw fails, so the reset branch is always taken |
| Game.BlankBoardTakesFirstDraw | client/src/pages/TheGame/Game.jsx:15-17 | on an empty board the first draw is used |
| Game.RandomNumberGenerator | client/src/pages/TheGame/Game.jsx:12-30 | if a draw among the first 1001 is free, the board gets the spawn and the score is unchanged; otherwise the game is reset (new game, score 0) |
| Game.HandleKeyPress | client/src/pages/TheGame/Game.jsx:34-160 | a non-arrow key changes nothing; an arrow key slides in its direction, reports exactly the move's gains, and always attempts a spawn (or resets), even if nothing moved |
| Game.StartGame | client/src/pages/TheGame/Game.jsx:163-170 | if not yet initialized: an all-`''` board, initialized, then two spawns; if already initialized: nothing changes |
| Game.SpawnSmallTiles | client/src/pages/TheGame/Game.jsx:27 | a spawn writes only 2 or 4 |
| Game.FirstSpawnHasOneTile | client/src/pages/TheGame/Game.jsx:166-168 | the first spawn on the fresh board leaves 15 empty cells |
| Game.StartedGameHasTwoTiles | client/src/pages/TheGame/Game.jsx:163-170 | a started game has exactly 14 empty cells and only 2s and 4s, whichever branch of the second spawn is taken |
| Game.LeftRowsAgree | client/src/pages/TheGame/Game.jsx:99-123 | on boards without 0 tiles, the Left branch gives the Dashboard left move and the same score |
| Game.LeftGainsAgree | client/src/pages/TheGame/Game.jsx:114 | the values Left reports for the first n rows add up to the Dashboard score of those rows |
| Game.LeftAgrees | client/src/pages/TheGame/Game.jsx:99-123 | Left of the two variants agree on board and score |
| Game.UpAgrees | client/src/pages/TheGame/Game.jsx:47-71 | Up of the two variants agree on board and score |
| Game.RightDisagrees | client/src/pages/TheGame/Game.jsx:125-149 | a row `'' 4 2 2` goes Right to `'' '' '' 8` here but to 0 0 4 4 in Dashboard |
| Game.SlidKeepsTotal | client/src/pages/TheGame/Game.jsx:46-153 | every direction keeps the total of the numbers on the board |

## Left out

- React wiring is not modelled: `useState` setters and functional updaters,
  `useEffect` scheduling, StrictMode double calls, `useContext`, and the key
  listeners (`useEvent`, `addEventListener` in `client/src/pages/TheGame/Game.jsx:172-175`).
  Each state update is applied at once and in program order, with the one
  exception under `Game.RandomNumberGenerator` below.
- Game.RandomNumberGenerator: on more than 1000 failed draws the source
  calls `resetGame()` inside the `setCellValues` updater and then returns
  the old cells (`client/src/pages/TheGame/Game.jsx:22-26`). The model lets
  the updates queued by `resetGame` win: the board becomes
  `NewGame(first, second)` with score 0, as React applies updates scheduled
  during an updater after that updater's own result. Applying the updater's
  `return prevCellValues` last instead would leave the old full board with
  score 0. This is the Game.jsx game-over path, since every arrow key on a
  full board ends here (`Game.FullBoardResets`).
- The context shape mismatch between `client/src/pages/TheGame/Game.jsx:10`
  (array destructuring) and `client/src/pages/Gameboard.jsx:124-132`
  (object) is not modelled; the model calls the functions by name.
- Rendering, `alert`, `toast`, `console.log` and `localStorage` are not
  modelled. The stored best score is a constructor parameter.
- `Math.random` and the 0.5 / 0.9 value odds are not modelled. Every random
  choice is a parameter, and nothing is said about distributions.
- `Gameboard.AfterAddRandom` takes `Pick.index` modulo the number of empty
  cells. For an index below that number, which is all that
  `Math.floor(Math.random() * emptyCells.length)` yields, it is exactly the
  source. It also makes any index usable without a precondition.
- The `JSON.stringify` comparison of the old and new boards is modelled as
  equality of the grids.
- `saveUser` (axios, toast) is not modelled, except for its `newHighScore`
  value.
- The Gameboard effect's branch that loads a saved game of a logged-in user
  (`client/src/pages/Gameboard.jsx:61-67, 78`) is not modelled. Neither is
  the guest branch that writes to `localStorage`
  (`client/src/pages/Gameboard.jsx:69-79`).
- The effect's own fresh-game branch (`client/src/pages/Gameboard.jsx:80-86`)
  is not modelled separately. It is the board part of `ResetGame` without
  the score reset.
- Everything under `server/` is not part of this model.
- Game.jsx Right and Down are modelled as written. The right-to-left
  `splice` merge can merge a freshly doubled tile again, so `'' 4 2 2` goes
  Right to `8` and reports 4 and 8 (`Game.RightMergesTwice`). Dashboard.jsx's
  pass merges each tile at most once (`Dashboard.StepMerge`,
  `Line.MergedTileRests`, `Line.ThreeAndFourEqual`), and so does Game.jsx's
  Left and Up (`Game.LeftMergesOnce`). The two variants therefore differ on
  Right and Down (`Game.RightDisagrees`).
- Dashboard.jsx spawns only when the board changed
  (`client/src/pages/Dashboard.jsx:100-102`). Game.jsx spawns after every
  arrow key, even when nothing moved (`client/src/pages/TheGame/Game.jsx:159`).
  Each variant is modelled as written (`Dashboard.Board.Finish`,
  `Game.HandleKeyPress`).
- JavaScript numbers are IEEE doubles. Tiles, scores and `MAX_COUNT` are
  modelled as unbounded integers. The two agree for every value a game can
  reach: tiles and scores stay far below 2^53, where doubles are still exact
  integers.
- `randomNumberGenerator` draws 1002 coordinates, but the 1002nd is never
  used: when the loop ends with `MAX_COUNT` at 1001, the game is reset.
- Game.RightDisagrees: Right and Down of the two variants are not claimed to
  agree. Only the total of the board is proved to be kept
  (`Game.SlidKeepsTotal`).
- Game.LeftAgrees: the agreement with Dashboard requires that no tile holds
  0. The `''` variant never writes 0.
- Gameboard.GameBoard.ResetGame: the count of 14 empty cells and the 2-or-4
  tiles are stated separately, in `Gameboard.NewGameHasTwoTiles`.
