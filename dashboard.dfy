/** The board engine of the dashboard page: 0 is an empty cell, a swipe to
    the left runs a `slow`/`fast` loop over each row of a copy of the board in
    place, and the other three swipes run the same loop on rows that were
    first reversed and/or transposed, undoing that afterwards. */
module Dashboard {
  import opened Grids
  import opened Line

  datatype Direction = Left | Right | Up | Down

  function EmptyGrid(): (g: Grid<int>)
    ensures IsGrid(g)
  {
    [[0, 0, 0, 0], [0, 0, 0, 0], [0, 0, 0, 0], [0, 0, 0, 0]]
  }

  /** No cell holds a negative number. */
  predicate NonNegative(g: Grid<int>)
    requires IsGrid(g)
  {
    forall r, c :: 0 <= r < 4 && 0 <= c < 4 ==> g[r][c] >= 0
  }

  // ---------------------------------------------------------------------
  // What a swipe computes

  /** Every row slid to the left. */
  function MoveLeftGrid(g: Grid<int>): (h: Grid<int>)
    requires IsGrid(g)
    ensures IsGrid(h)
  {
    [MoveLeftRow(g[0]), MoveLeftRow(g[1]), MoveLeftRow(g[2]), MoveLeftRow(g[3])]
  }

  /** What the first `n` rows gain when they are slid to the left. */
  function RowsScore(g: Grid<int>, n: nat): int
    requires IsGrid(g) && n <= 4
  {
    if n == 0 then 0 else RowsScore(g, n - 1) + Sum(Gains(Compact(g[n - 1])))
  }

  function LeftScore(g: Grid<int>): int
    requires IsGrid(g)
  {
    RowsScore(g, 4)
  }

  lemma LeftScoreRows(g: Grid<int>)
    requires IsGrid(g)
    ensures LeftScore(g) == Sum(Gains(Compact(g[0]))) + Sum(Gains(Compact(g[1])))
                          + Sum(Gains(Compact(g[2]))) + Sum(Gains(Compact(g[3])))
  {
    assert RowsScore(g, 1) == Sum(Gains(Compact(g[0])));
    assert RowsScore(g, 2) == RowsScore(g, 1) + Sum(Gains(Compact(g[1])));
    assert RowsScore(g, 3) == RowsScore(g, 2) + Sum(Gains(Compact(g[2])));
  }

  /** The board after a swipe, before a tile is spawned: Right reverses the
      rows around the left pass, Up transposes the board around it, and Down
      does both. */
  function Moved(g: Grid<int>, d: Direction): (h: Grid<int>)
    requires IsGrid(g)
    ensures IsGrid(h)
  {
    match d
    case Left => MoveLeftGrid(g)
    case Right => ReverseRows(MoveLeftGrid(ReverseRows(g)))
    case Up => Transpose(MoveLeftGrid(Transpose(g)))
    case Down => Transpose(ReverseRows(MoveLeftGrid(ReverseRows(Transpose(g)))))
  }

  /** What a swipe adds to the score. */
  function MoveScore(g: Grid<int>, d: Direction): int
    requires IsGrid(g)
  {
    match d
    case Left => LeftScore(g)
    case Right => LeftScore(ReverseRows(g))
    case Up => LeftScore(Transpose(g))
    case Down => LeftScore(ReverseRows(Transpose(g)))
  }

  /** Cell (r, c) differs from its right-hand neighbour. */
  predicate DiffersRight(g: Grid<int>, r: int, c: int)
    requires IsGrid(g) && 0 <= r < 4 && 0 <= c < 3
  {
    g[r][c] != g[r][c + 1]
  }

  /** Cell (r, c) differs from the cell below it. */
  predicate DiffersBelow(g: Grid<int>, r: int, c: int)
    requires IsGrid(g) && 0 <= r < 3 && 0 <= c < 4
  {
    g[r][c] != g[r + 1][c]
  }

  predicate IsFull(g: Grid<int>)
    requires IsGrid(g)
  {
    forall r, c :: 0 <= r < 4 && 0 <= c < 4 ==> g[r][c] != 0
  }

  /** No empty cell and no two equal cells side by side or one above the
      other. */
  predicate IsGameOver(g: Grid<int>)
    requires IsGrid(g)
  {
    IsFull(g) &&
    (forall r, c :: 0 <= r < 4 && 0 <= c < 3 ==> DiffersRight(g, r, c)) &&
    (forall r, c :: 0 <= r < 3 && 0 <= c < 4 ==> DiffersBelow(g, r, c))
  }

  // ---------------------------------------------------------------------
  // Spawning a tile

  /** One draw of `addNumber`: a cell, and whether the value is 4 rather
      than 2. */
  datatype Try = Try(row: int, col: int, four: bool)

  /** Fifty draws, every one on the board. */
  predicate ValidTries(tries: seq<Try>)
  {
    |tries| == 50 &&
    forall k :: 0 <= k < |tries| ==> 0 <= tries[k].row < 4 && 0 <= tries[k].col < 4
  }

  /** The first draw from `from` on that lands on an empty cell, or the
      number of draws if none does. */
  function FirstHit(g: Grid<int>, tries: seq<Try>, from: nat): (k: nat)
    requires IsGrid(g) && ValidTries(tries) && from <= |tries|
    ensures from <= k <= |tries|
    ensures k < |tries| ==> g[tries[k].row][tries[k].col] == 0
    ensures forall j :: from <= j < k ==> g[tries[j].row][tries[j].col] != 0
    decreases |tries| - from
  {
    if from == |tries| then from
    else if g[tries[from].row][tries[from].col] == 0 then from
    else FirstHit(g, tries, from + 1)
  }

  /** The board after `addNumber`: the first draw that lands on an empty
      cell puts a 2 or a 4 there; if none does, the board stays as it was. */
  function AfterAddNumber(g: Grid<int>, tries: seq<Try>): (h: Grid<int>)
    requires IsGrid(g) && ValidTries(tries)
    ensures IsGrid(h)
  {
    var k := FirstHit(g, tries, 0);
    if k == |tries| then g
    else
      var t := tries[k];
      g[t.row := g[t.row][t.col := if t.four then 4 else 2]]
  }

  /** `addNumber` writes at most one cell, only a cell that was empty, and
      only a 2 or a 4 there; it writes one exactly when some draw lands on
      an empty cell. */
  lemma AddNumberWritesOneEmptyCell(g: Grid<int>, tries: seq<Try>)
    requires IsGrid(g) && ValidTries(tries)
    ensures var h := AfterAddNumber(g, tries);
      forall r, c :: 0 <= r < 4 && 0 <= c < 4 && h[r][c] != g[r][c] ==>
        g[r][c] == 0 && (h[r][c] == 2 || h[r][c] == 4)
    ensures var h := AfterAddNumber(g, tries);
      forall r, c, r', c' ::
        (0 <= r < 4 && 0 <= c < 4 && 0 <= r' < 4 && 0 <= c' < 4 &&
         h[r][c] != g[r][c] && h[r'][c'] != g[r'][c']) ==> r == r' && c == c'
    ensures var h := AfterAddNumber(g, tries);
      h == g <==> forall k :: 0 <= k < |tries| ==> g[tries[k].row][tries[k].col] != 0
  {
    var k := FirstHit(g, tries, 0);
    if k < |tries| {
      var h := AfterAddNumber(g, tries);
      assert h[tries[k].row][tries[k].col] != g[tries[k].row][tries[k].col];
    }
  }

  /** Spawning keeps every cell non-negative. */
  lemma AddNumberNonNegative(g: Grid<int>, tries: seq<Try>)
    requires IsGrid(g) && ValidTries(tries) && NonNegative(g)
    ensures NonNegative(AfterAddNumber(g, tries))
  {
  }

  /** On the empty board the first draw always lands: the board then holds
      a single tile, a 2 or a 4, where that draw fell. */
  lemma FirstSpawnOnEmpty(tries: seq<Try>)
    requires ValidTries(tries)
    ensures var g1 := AfterAddNumber(EmptyGrid(), tries);
      forall r, c :: 0 <= r < 4 && 0 <= c < 4 ==>
        (g1[r][c] != 0 <==> r == tries[0].row && c == tries[0].col)
    ensures var g1 := AfterAddNumber(EmptyGrid(), tries);
      g1[tries[0].row][tries[0].col] == 2 || g1[tries[0].row][tries[0].col] == 4
  {
    assert FirstHit(EmptyGrid(), tries, 0) == 0;
  }

  /** `reset` (and `initialize` on the first, empty board) starts a game
      with one or two tiles, each a 2 or a 4: the first spawn always lands,
      and the second lands unless every one of its draws falls on the first
      tile, in which case the game starts with a single tile. */
  lemma ResetHasOneOrTwoTiles(first: seq<Try>, second: seq<Try>)
    requires ValidTries(first) && ValidTries(second)
    ensures var h := AfterAddNumber(AfterAddNumber(EmptyGrid(), first), second);
      h[first[0].row][first[0].col] != 0 &&
      forall r, c :: 0 <= r < 4 && 0 <= c < 4 && h[r][c] != 0 ==> h[r][c] == 2 || h[r][c] == 4
    ensures var h := AfterAddNumber(AfterAddNumber(EmptyGrid(), first), second);
      forall r, c, r', c' ::
        (0 <= r < 4 && 0 <= c < 4 && 0 <= r' < 4 && 0 <= c' < 4 &&
         h[r][c] != 0 && h[r'][c'] != 0 &&
         (r != first[0].row || c != first[0].col) &&
         (r' != first[0].row || c' != first[0].col)) ==> r == r' && c == c'
    ensures var g1 := AfterAddNumber(EmptyGrid(), first);
      AfterAddNumber(g1, second) == g1 <==>
        forall k :: 0 <= k < |second| ==>
          second[k].row == first[0].row && second[k].col == first[0].col
  {
    var g1 := AfterAddNumber(EmptyGrid(), first);
    FirstSpawnOnEmpty(first);
    AddNumberWritesOneEmptyCell(g1, second);
  }

  // ---------------------------------------------------------------------
  // Properties of the swipes

  lemma Sum4(s: seq<int>)
    requires |s| == 4
    ensures Sum(s) == s[0] + s[1] + s[2] + s[3]
  {
    assert s[3..][1..] == [];
    assert Sum(s[3..]) == s[3];
    assert s[2..][1..] == s[3..];
    assert Sum(s[2..]) == s[2] + s[3];
    assert s[1..][1..] == s[2..];
    assert Sum(s[1..]) == s[1] + s[2] + s[3];
  }

  /** The total of all cells. */
  function GridSum(g: Grid<int>): int
    requires IsGrid(g)
  {
    Sum(g[0]) + Sum(g[1]) + Sum(g[2]) + Sum(g[3])
  }

  lemma GridSumCells(g: Grid<int>)
    requires IsGrid(g)
    ensures GridSum(g) == g[0][0] + g[0][1] + g[0][2] + g[0][3]
                        + g[1][0] + g[1][1] + g[1][2] + g[1][3]
                        + g[2][0] + g[2][1] + g[2][2] + g[2][3]
                        + g[3][0] + g[3][1] + g[3][2] + g[3][3]
  {
    Sum4(g[0]);
    Sum4(g[1]);
    Sum4(g[2]);
    Sum4(g[3]);
  }

  lemma GridSumTranspose(g: Grid<int>)
    requires IsGrid(g)
    ensures GridSum(Transpose(g)) == GridSum(g)
  {
    GridSumCells(g);
    GridSumCells(Transpose(g));
  }

  lemma GridSumReverseRows(g: Grid<int>)
    requires IsGrid(g)
    ensures GridSum(ReverseRows(g)) == GridSum(g)
  {
    GridSumCells(g);
    GridSumCells(ReverseRows(g));
  }

  lemma GridSumMoveLeft(g: Grid<int>)
    requires IsGrid(g)
    ensures GridSum(MoveLeftGrid(g)) == GridSum(g)
  {
    MoveLeftRowSum(g[0]);
    MoveLeftRowSum(g[1]);
    MoveLeftRowSum(g[2]);
    MoveLeftRowSum(g[3]);
  }

  /** A swipe in any direction keeps the sum of all cells. */
  lemma MovePreservesSum(g: Grid<int>, d: Direction)
    requires IsGrid(g)
    ensures GridSum(Moved(g, d)) == GridSum(g)
  {
    match d
    case Left =>
      GridSumMoveLeft(g);
    case Right =>
      GridSumReverseRows(g);
      GridSumMoveLeft(ReverseRows(g));
      GridSumReverseRows(MoveLeftGrid(ReverseRows(g)));
    case Up =>
      GridSumTranspose(g);
      GridSumMoveLeft(Transpose(g));
      GridSumTranspose(MoveLeftGrid(Transpose(g)));
    case Down =>
      var t := Transpose(g);
      GridSumTranspose(g);
      GridSumReverseRows(t);
      GridSumMoveLeft(ReverseRows(t));
      GridSumReverseRows(MoveLeftGrid(ReverseRows(t)));
      GridSumTranspose(ReverseRows(MoveLeftGrid(ReverseRows(t))));
  }

  lemma LeftNonNegative(g: Grid<int>)
    requires IsGrid(g) && NonNegative(g)
    ensures NonNegative(MoveLeftGrid(g)) && LeftScore(g) >= 0
  {
    forall r | 0 <= r < 4
      ensures forall c :: 0 <= c < 4 ==> MoveLeftRow(g[r])[c] >= 0
      ensures Sum(Gains(Compact(g[r]))) >= 0
    {
      assert forall c :: 0 <= c < 4 ==> g[r][c] >= 0;
      MoveLeftRowNonNegative(g[r]);
    }
    LeftScoreRows(g);
  }

  lemma NonNegativeTranspose(g: Grid<int>)
    requires IsGrid(g) && NonNegative(g)
    ensures NonNegative(Transpose(g))
  {
  }

  lemma NonNegativeReverseRows(g: Grid<int>)
    requires IsGrid(g) && NonNegative(g)
    ensures NonNegative(ReverseRows(g))
  {
  }

  /** A swipe over non-negative cells leaves non-negative cells and does not
      lower the score. */
  lemma MoveNonNegative(g: Grid<int>, d: Direction)
    requires IsGrid(g) && NonNegative(g)
    ensures NonNegative(Moved(g, d)) && MoveScore(g, d) >= 0
  {
    match d
    case Left =>
      LeftNonNegative(g);
    case Right =>
      var r := ReverseRows(g);
      NonNegativeReverseRows(g);
      LeftNonNegative(r);
      NonNegativeReverseRows(MoveLeftGrid(r));
    case Up =>
      var t := Transpose(g);
      NonNegativeTranspose(g);
      LeftNonNegative(t);
      NonNegativeTranspose(MoveLeftGrid(t));
    case Down =>
      var rt := ReverseRows(Transpose(g));
      NonNegativeTranspose(g);
      NonNegativeReverseRows(Transpose(g));
      LeftNonNegative(rt);
      NonNegativeReverseRows(MoveLeftGrid(rt));
      NonNegativeTranspose(ReverseRows(MoveLeftGrid(rt)));
  }

  lemma LeftNoChangeNoScore(g: Grid<int>)
    requires IsGrid(g) && MoveLeftGrid(g) == g
    ensures LeftScore(g) == 0
  {
    assert MoveLeftRow(g[0]) == g[0];
    assert MoveLeftRow(g[1]) == g[1];
    assert MoveLeftRow(g[2]) == g[2];
    assert MoveLeftRow(g[3]) == g[3];
    NoChangeNoGain(g[0]);
    NoChangeNoGain(g[1]);
    NoChangeNoGain(g[2]);
    NoChangeNoGain(g[3]);
    LeftScoreRows(g);
  }

  /** A swipe that leaves the board as it was adds nothing to the score. */
  lemma NoChangeNoScore(g: Grid<int>, d: Direction)
    requires IsGrid(g) && Moved(g, d) == g
    ensures MoveScore(g, d) == 0
  {
    match d
    case Left =>
      LeftNoChangeNoScore(g);
    case Right =>
      var r := ReverseRows(g);
      ReverseRowsTwice(MoveLeftGrid(r));
      LeftNoChangeNoScore(r);
    case Up =>
      var t := Transpose(g);
      TransposeTwice(MoveLeftGrid(t));
      LeftNoChangeNoScore(t);
    case Down =>
      var t := Transpose(g);
      var rt := ReverseRows(t);
      TransposeTwice(ReverseRows(MoveLeftGrid(rt)));
      ReverseRowsTwice(MoveLeftGrid(rt));
      LeftNoChangeNoScore(rt);
  }

  /** Rows that are full and have no equal neighbours stay put. */
  lemma StableRowsStay(g: Grid<int>)
    requires IsGrid(g) && IsFull(g)
    requires forall r, c :: 0 <= r < 4 && 0 <= c < 3 ==> DiffersRight(g, r, c)
    ensures MoveLeftGrid(g) == g
  {
    forall r | 0 <= r < 4
      ensures MoveLeftRow(g[r]) == g[r]
    {
      assert forall c :: 0 <= c < 4 ==> g[r][c] != 0;
      forall k | 0 <= k < 3
        ensures g[r][k] != g[r][k + 1]
      {
        assert DiffersRight(g, r, k);
      }
      FullRowMoves(g[r]);
    }
  }

  /** Rows of a full board that stay put have no equal neighbours. */
  lemma StayingRowsStable(g: Grid<int>)
    requires IsGrid(g) && IsFull(g) && MoveLeftGrid(g) == g
    ensures forall r, c :: 0 <= r < 4 && 0 <= c < 3 ==> DiffersRight(g, r, c)
  {
    forall r, c | 0 <= r < 4 && 0 <= c < 3
      ensures DiffersRight(g, r, c)
    {
      assert MoveLeftRow(g[r]) == g[r];
      assert forall k :: 0 <= k < 4 ==> g[r][k] != 0;
      FullRowMoves(g[r]);
      assert g[r][c] != g[r][c + 1];
    }
  }

  lemma ReverseRowsStable(g: Grid<int>)
    requires IsGrid(g) && IsFull(g)
    requires forall r, c :: 0 <= r < 4 && 0 <= c < 3 ==> DiffersRight(g, r, c)
    ensures IsFull(ReverseRows(g))
    ensures forall r, c :: 0 <= r < 4 && 0 <= c < 3 ==> DiffersRight(ReverseRows(g), r, c)
  {
    var h := ReverseRows(g);
    forall r, c | 0 <= r < 4 && 0 <= c < 3
      ensures DiffersRight(h, r, c)
    {
      assert DiffersRight(g, r, 2 - c);
    }
  }

  lemma TransposeStable(g: Grid<int>)
    requires IsGrid(g) && IsFull(g)
    requires forall r, c :: 0 <= r < 3 && 0 <= c < 4 ==> DiffersBelow(g, r, c)
    ensures IsFull(Transpose(g))
    ensures forall r, c :: 0 <= r < 4 && 0 <= c < 3 ==> DiffersRight(Transpose(g), r, c)
  {
    var t := Transpose(g);
    forall r, c | 0 <= r < 4 && 0 <= c < 3
      ensures DiffersRight(t, r, c)
    {
      assert DiffersBelow(g, c, r);
    }
  }

  /** On a board whose game is over, no swipe changes anything. */
  lemma GameOverIsStuck(g: Grid<int>, d: Direction)
    requires IsGrid(g) && IsGameOver(g)
    ensures Moved(g, d) == g
  {
    match d
    case Left =>
      StableRowsStay(g);
    case Right =>
      ReverseRowsStable(g);
      StableRowsStay(ReverseRows(g));
      ReverseRowsTwice(g);
    case Up =>
      var t := Transpose(g);
      TransposeStable(g);
      StableRowsStay(t);
      TransposeTwice(g);
    case Down =>
      var t := Transpose(g);
      TransposeStable(g);
      ReverseRowsStable(t);
      StableRowsStay(ReverseRows(t));
      ReverseRowsTwice(t);
      TransposeTwice(g);
  }

  /** A full board on which neither Left nor Up changes anything is over. */
  lemma StuckIsGameOver(g: Grid<int>)
    requires IsGrid(g) && IsFull(g)
    requires Moved(g, Left) == g && Moved(g, Up) == g
    ensures IsGameOver(g)
  {
    var t := Transpose(g);
    StayingRowsStable(g);
    TransposeTwice(MoveLeftGrid(t));
    assert IsFull(t);
    StayingRowsStable(t);
    forall r, c | 0 <= r < 3 && 0 <= c < 4
      ensures DiffersBelow(g, r, c)
    {
      assert DiffersRight(t, c, r);
    }
  }

  /** A full board is over exactly when no swipe in any direction changes
      it. */
  lemma GameOverIffStuck(g: Grid<int>)
    requires IsGrid(g) && IsFull(g)
    ensures IsGameOver(g) <==> forall d :: Moved(g, d) == g
  {
    if IsGameOver(g) {
      forall d
        ensures Moved(g, d) == g
      {
        GameOverIsStuck(g, d);
      }
    } else if forall d :: Moved(g, d) == g {
      assert Moved(g, Left) == g;
      assert Moved(g, Up) == g;
      StuckIsGameOver(g);
    }
  }

  // ---------------------------------------------------------------------
  // The in-place pieces of a swipe

  /** What the `slow`/`fast` loop of the left pass keeps true of the row `r` it is
      rewriting: `orig` is the row before the pass and `log` the values
      merged so far. */
  ghost predicate PassInv(r: seq<int>, slow: int, fast: int, orig: seq<int>, log: seq<int>)
  {
    PassShape(r, slow, fast) && PassTiles(r, slow, orig, log)
  }

  /** Where the empty cells are: cells before `slow` are final (no tile
      after an empty one), cells strictly between `slow` and `fast` are
      empty, and `fast` meets `slow` only at an empty cell, so a tile is
      never compared with itself. */
  ghost predicate PassShape(r: seq<int>, slow: int, fast: int)
  {
    |r| == 4 && 0 <= slow <= fast <= 4 &&
    (forall k :: slow < k < fast ==> r[k] == 0) &&
    (slow == fast < 4 ==> r[slow] == 0) &&
    (forall a, b :: 0 <= a < slow && a <= b < 4 && r[a] == 0 ==> r[b] == 0)
  }

  /** What the tiles become: the tiles before `slow`, followed by the merge
      of the tiles from `slow` on, are the merge of the original tiles, and
      the merges logged so far, followed by those still to come, are all the
      merges of the original tiles. */
  ghost predicate PassTiles(r: seq<int>, slow: int, orig: seq<int>, log: seq<int>)
  {
    0 <= slow <= |r| &&
    Compact(r[..slow]) + Merge(Compact(r[slow..])) == Merge(Compact(orig)) &&
    log + Gains(Compact(r[slow..])) == Gains(Compact(orig))
  }

  /** The tiles from `s` on, when the cells strictly between `s` and `f`
      are empty. */
  lemma CompactAcrossGap(r: seq<int>, s: int, f: int)
    requires 0 <= s < f < |r|
    requires forall k :: s < k < f ==> r[k] == 0
    ensures Compact(r[s + 1..]) == Compact([r[f]]) + Compact(r[f + 1..])
    ensures Compact(r[s..]) == Compact([r[s]]) + Compact([r[f]]) + Compact(r[f + 1..])
  {
    assert r[s..] == [r[s]] + r[s + 1..f] + [r[f]] + r[f + 1..];
    assert r[s + 1..] == r[s + 1..f] + [r[f]] + r[f + 1..];
    CompactEmpty(r[s + 1..f]);
    CompactAppend([r[s]] + r[s + 1..f] + [r[f]], r[f + 1..]);
    CompactAppend([r[s]] + r[s + 1..f], [r[f]]);
    CompactAppend([r[s]], r[s + 1..f]);
    CompactAppend(r[s + 1..f] + [r[f]], r[f + 1..]);
    CompactAppend(r[s + 1..f], [r[f]]);
  }

  /** Cells from `s + 1` to `f` are empty, so the tiles after `s` are the
      tiles after `f`. */
  lemma TilesAfterGap(r: seq<int>, s: int, f: int)
    requires 0 <= s < f < |r|
    requires forall k :: s < k <= f ==> r[k] == 0
    ensures Compact(r[s + 1..]) == Compact(r[f + 1..])
  {
    assert r[s + 1..] == r[s + 1..f + 1] + r[f + 1..];
    CompactEmpty(r[s + 1..f + 1]);
    CompactAppend(r[s + 1..f + 1], r[f + 1..]);
  }

  /** The tiles of the first `s + 1` cells. */
  lemma TilesThrough(r: seq<int>, s: int)
    requires 0 <= s < |r|
    ensures Compact(r[..s + 1]) == Compact(r[..s]) + Compact([r[s]])
  {
    assert r[..s + 1] == r[..s] + [r[s]];
    CompactAppend(r[..s], [r[s]]);
  }

  // `fast` ran off the end: every cell after `slow` is empty.

  lemma ShapeAdvance(r: seq<int>, s: int)
    requires PassShape(r, s, 4) && s < 4
    ensures PassShape(r, s + 1, s + 1)
  {
  }

  lemma TilesAdvance(r: seq<int>, s: int, orig: seq<int>, log: seq<int>)
    requires PassTiles(r, s, orig, log) && s < |r|
    requires forall k :: s < k < |r| ==> r[k] == 0
    ensures PassTiles(r, s + 1, orig, log)
  {
    assert r[s..] == [r[s]] + r[s + 1..];
    CompactEmpty(r[s + 1..]);
    CompactAppend([r[s]], r[s + 1..]);
    TilesThrough(r, s);
    assert |Compact([r[s]])| <= 1;
  }

  lemma StepAdvance(r: seq<int>, s: int, orig: seq<int>, log: seq<int>)
    requires PassInv(r, s, 4, orig, log) && s < 4
    ensures PassInv(r, s + 1, s + 1, orig, log)
  {
    ShapeAdvance(r, s);
    TilesAdvance(r, s, orig, log);
  }

  // `fast` is at an empty cell: it moves on.

  lemma ShapeSkip(r: seq<int>, s: int, f: int)
    requires PassShape(r, s, f) && f < 4 && r[f] == 0
    ensures PassShape(r, s, f + 1)
  {
  }

  lemma StepSkip(r: seq<int>, s: int, f: int, orig: seq<int>, log: seq<int>)
    requires PassInv(r, s, f, orig, log) && f < 4 && r[f] == 0
    ensures PassInv(r, s, f + 1, orig, log)
  {
    ShapeSkip(r, s, f);
  }

  // `slow` is empty and `fast` holds a tile: the tile moves to `slow`.

  lemma ShapeMove(r: seq<int>, s: int, f: int)
    requires PassShape(r, s, f) && f < 4 && r[s] == 0 && r[f] != 0
    ensures s < f
    ensures PassShape(r[s := r[f]][f := 0], s, f + 1)
  {
    assert forall a :: 0 <= a < s ==> r[a] != 0;
  }

  /** Moving the tile at `f` into the empty cell `s` keeps the tiles from
      `s` on. */
  lemma MoveKeepsTiles(r: seq<int>, s: int, f: int)
    requires 0 <= s < f < |r| && r[s] == 0
    requires forall k :: s < k < f ==> r[k] == 0
    ensures Compact(r[s := r[f]][f := 0][s..]) == Compact(r[s..])
  {
    var r' := r[s := r[f]][f := 0];
    var y, t := r[f], Compact(r[f + 1..]);
    assert Compact([0]) == [];
    CompactAcrossGap(r, s, f);
    assert r'[f + 1..] == r[f + 1..];
    CompactAcrossGap(r', s, f);
  }

  lemma TilesMove(r: seq<int>, s: int, f: int, orig: seq<int>, log: seq<int>)
    requires PassTiles(r, s, orig, log) && s < f < |r| && r[s] == 0
    requires forall k :: s < k < f ==> r[k] == 0
    ensures PassTiles(r[s := r[f]][f := 0], s, orig, log)
  {
    MoveKeepsTiles(r, s, f);
    assert r[s := r[f]][f := 0][..s] == r[..s];
  }

  lemma StepMove(r: seq<int>, s: int, f: int, orig: seq<int>, log: seq<int>)
    requires PassInv(r, s, f, orig, log) && f < 4 && r[s] == 0 && r[f] != 0
    ensures PassInv(r[s := r[f]][f := 0], s, f + 1, orig, log)
  {
    ShapeMove(r, s, f);
    TilesMove(r, s, f, orig, log);
  }

  // `slow` and `fast` hold equal tiles: they merge at `slow`, and both
  // indices move past it.

  lemma ShapeMerge(r: seq<int>, s: int, f: int)
    requires PassShape(r, s, f) && f < 4 && r[s] != 0 && r[s] == r[f]
    ensures s < f
    ensures PassShape(r[s := r[s] + r[f]][f := 0], s + 1, s + 1)
  {
    var r' := r[s := r[s] + r[f]][f := 0];
    assert forall a :: 0 <= a < s ==> r[a] != 0;
    assert forall a :: 0 <= a <= s ==> r'[a] != 0;
  }

  lemma TilesMerge(r: seq<int>, s: int, f: int, orig: seq<int>, log: seq<int>)
    requires PassTiles(r, s, orig, log) && s < f < |r| && r[s] != 0 && r[s] == r[f]
    requires forall k :: s < k < f ==> r[k] == 0
    ensures PassTiles(r[s := r[s] + r[f]][f := 0], s + 1, orig, log + [r[s] + r[f]])
  {
    var x := r[s];
    var r' := r[s := x + x][f := 0];
    var done, t := Compact(r[..s]), Compact(r[f + 1..]);
    CompactAcrossGap(r, s, f);
    assert Compact([x]) == [x];
    assert Compact(r[s..]) == [x, x] + t;
    assert ([x, x] + t)[2..] == t;
    TilesAfterGap(r', s, f);
    assert r'[f + 1..] == r[f + 1..];
    TilesThrough(r', s);
    assert Compact([x + x]) == [x + x];
    assert r'[..s] == r[..s];
    Associative(done, [x + x], Merge(t));
    Associative(log, [x + x], Gains(t));
  }

  lemma StepMerge(r: seq<int>, s: int, f: int, orig: seq<int>, log: seq<int>)
    requires PassInv(r, s, f, orig, log) && f < 4 && r[s] != 0 && r[s] == r[f]
    ensures PassInv(r[s := r[s] + r[f]][f := 0], s + 1, s + 1, orig, log + [r[s] + r[f]])
  {
    ShapeMerge(r, s, f);
    TilesMerge(r, s, f, orig, log);
  }

  // `slow` and `fast` hold different tiles: the tile at `slow` is final.

  lemma ShapeKeep(r: seq<int>, s: int, f: int)
    requires PassShape(r, s, f) && f < 4 && r[s] != 0 && r[f] != 0 && r[s] != r[f]
    ensures s < f
    ensures PassShape(r, s + 1, s + 2)
  {
    assert forall a :: 0 <= a <= s ==> r[a] != 0;
  }

  lemma TilesKeep(r: seq<int>, s: int, f: int, orig: seq<int>, log: seq<int>)
    requires PassTiles(r, s, orig, log) && s < f < |r|
    requires r[s] != 0 && r[f] != 0 && r[s] != r[f]
    requires forall k :: s < k < f ==> r[k] == 0
    ensures PassTiles(r, s + 1, orig, log)
  {
    var done, t := Compact(r[..s]), Compact(r[f + 1..]);
    CompactAcrossGap(r, s, f);
    assert Compact([r[s]]) == [r[s]];
    assert Compact([r[f]]) == [r[f]];
    assert Compact(r[s..]) == [r[s], r[f]] + t;
    assert ([r[s], r[f]] + t)[1..] == [r[f]] + t;
    TilesThrough(r, s);
    Associative(done, [r[s]], Merge([r[f]] + t));
  }

  lemma StepKeep(r: seq<int>, s: int, f: int, orig: seq<int>, log: seq<int>)
    requires PassInv(r, s, f, orig, log) && f < 4 && r[s] != 0 && r[f] != 0 && r[s] != r[f]
    ensures PassInv(r, s + 1, s + 2, orig, log)
  {
    ShapeKeep(r, s, f);
    TilesKeep(r, s, f, orig, log);
  }

  /** The state of the `slow`/`fast` loop of the left pass: the row being
      rewritten, the two indices, and the values merged so far. */
  datatype Pass = Pass(row: seq<int>, slow: int, fast: int, log: seq<int>)

  /** One turn of the `slow`/`fast` loop, on values. */
  function PassStep(p: Pass): (q: Pass)
    requires |p.row| == 4 && 0 <= p.slow <= p.fast <= 4
    ensures |q.row| == 4
  {
    var r, s, f := p.row, p.slow, p.fast;
    if f == 4 then Pass(r, s + 1, s + 1, p.log)
    else if r[s] == 0 && r[f] == 0 then Pass(r, s, f + 1, p.log)
    else if r[s] == 0 && r[f] != 0 then Pass(r[s := r[f]][f := 0], s, f + 1, p.log)
    else if r[s] != 0 && r[f] == 0 then Pass(r, s, f + 1, p.log)
    else if r[s] == r[f] then Pass(r[s := r[s] + r[f]][f := 0], s + 1, s + 1, p.log + [r[s] + r[f]])
    else Pass(r, s + 1, s + 2, p.log)
  }

  /** Every turn of the loop keeps `PassInv`. */
  lemma StepKeepsInv(p: Pass, orig: seq<int>)
    requires PassInv(p.row, p.slow, p.fast, orig, p.log) && p.slow < 4
    ensures var q := PassStep(p);
      PassInv(q.row, q.slow, q.fast, orig, q.log)
  {
    var r, s, f, log := p.row, p.slow, p.fast, p.log;
    var q := PassStep(p);
    if f == 4 {
      assert q == Pass(r, s + 1, s + 1, log);
      StepAdvance(r, s, orig, log);
    } else if r[f] == 0 {
      assert q == Pass(r, s, f + 1, log);
      StepSkip(r, s, f, orig, log);
    } else if r[s] == 0 {
      assert q == Pass(r[s := r[f]][f := 0], s, f + 1, log);
      StepMove(r, s, f, orig, log);
    } else if r[s] == r[f] {
      assert q == Pass(r[s := r[s] + r[f]][f := 0], s + 1, s + 1, log + [r[s] + r[f]]);
      StepMerge(r, s, f, orig, log);
    } else {
      assert q == Pass(r, s + 1, s + 2, log);
      StepKeep(r, s, f, orig, log);
    }
  }

  /** Every turn of the loop moves an index forward, and `fast` never goes
      past 4. */
  lemma StepAdvances(p: Pass)
    requires |p.row| == 4 && 0 <= p.slow <= p.fast <= 4 && p.slow < 4
    ensures var q := PassStep(p);
      q.slow > p.slow || (q.slow == p.slow && q.fast > p.fast)
    ensures var q := PassStep(p);
      0 <= q.slow <= q.fast <= 4
  {
  }

  /** One turn of the `slow`/`fast` loop over row `i` of the board, in place:
      `slow` is the cell being filled, `fast` the cell being looked at, and
      `p` the same state on values. */
  method Turn(b: array2<int>, i: int, slow: int, fast: int, ghost p: Pass)
    returns (slow': int, fast': int, gain: int)
    requires b.Length0 == 4 && b.Length1 == 4 && 0 <= i < 4
    requires |p.row| == 4 && p.slow == slow && p.fast == fast && 0 <= slow < 4 && slow <= fast <= 4
    requires slow == fast < 4 ==> p.row[slow] == 0
    requires forall c :: 0 <= c < 4 ==> b[i, c] == p.row[c]
    modifies b
    ensures var q := PassStep(p);
      slow' == q.slow && fast' == q.fast && Sum(q.log) == Sum(p.log) + gain
    ensures forall c :: 0 <= c < 4 ==> b[i, c] == PassStep(p).row[c]
    ensures forall r, c :: 0 <= r < 4 && 0 <= c < 4 && r != i ==> b[r, c] == old(b[r, c])
  {
    slow', fast', gain := slow, fast, 0;
    if fast' == 4 {
      fast' := slow' + 1;
      slow' := slow' + 1;
      return;
    }
    if b[i, slow'] == 0 && b[i, fast'] == 0 {
      fast' := fast' + 1;
    } else if b[i, slow'] == 0 && b[i, fast'] != 0 {
      b[i, slow'] := b[i, fast'];
      b[i, fast'] := 0;
      fast' := fast' + 1;
    } else if b[i, slow'] != 0 && b[i, fast'] == 0 {
      fast' := fast' + 1;
    } else if b[i, slow'] != 0 && b[i, fast'] != 0 {
      if b[i, slow'] == b[i, fast'] {
        b[i, slow'] := b[i, slow'] + b[i, fast'];
        b[i, fast'] := 0;
        gain := b[i, slow'];
        SumAppend(p.log, [gain]);
        fast' := slow' + 1;
        slow' := slow' + 1;
      } else {
        slow' := slow' + 1;
        fast' := slow' + 1;
      }
    }
  }

  /** When `slow` has passed the last cell, the row is slid and `log` holds
      every merge of the row. */
  lemma PassDone(p: Pass, orig: seq<int>)
    requires PassInv(p.row, p.slow, p.fast, orig, p.log) && p.slow >= 4 && |orig| == 4
    ensures p.row == MoveLeftRow(orig) && p.log == Gains(Compact(orig))
  {
    var done := p.row;
    assert done[..4] == done && done[4..] == [];
    assert Compact(done[4..]) == [];
    PackedIsPadded(done);
  }

  /** The left pass over row `i` of the board, in place: the `slow`/`fast`
      loop of the dashboard page. */
  method LeftPass(b: array2<int>, i: int) returns (gained: int)
    requires b.Length0 == 4 && b.Length1 == 4 && 0 <= i < 4
    modifies b
    ensures Row(b, i) == MoveLeftRow(old(Row(b, i)))
    ensures gained == Sum(Gains(Compact(old(Row(b, i)))))
    ensures forall r, c :: 0 <= r < 4 && 0 <= c < 4 && r != i ==> b[r, c] == old(b[r, c])
  {
    ghost var orig := Row(b, i);
    ghost var p := Pass(orig, 0, 1, []);
    var slow, fast := 0, 1;
    gained := 0;
    CompactAppend([], orig);
    while slow < 4
      invariant p.slow == slow && p.fast == fast
      invariant PassInv(p.row, slow, fast, orig, p.log)
      invariant forall c :: 0 <= c < 4 ==> b[i, c] == p.row[c]
      invariant forall r, c :: 0 <= r < 4 && 0 <= c < 4 && r != i ==> b[r, c] == old(b[r, c])
      invariant gained == Sum(p.log)
      decreases 4 - slow, 4 - fast
    {
      StepKeepsInv(p, orig);
      StepAdvances(p);
      var gain;
      slow, fast, gain := Turn(b, i, slow, fast, p);
      gained := gained + gain;
      p := PassStep(p);
    }
    PassDone(p, orig);
    assert Row(b, i) == p.row;
  }

  /** Row `i` reversed in place (JavaScript's `reverse()` on a row). */
  method ReverseRow(b: array2<int>, i: int)
    requires b.Length0 == 4 && b.Length1 == 4 && 0 <= i < 4
    modifies b
    ensures Row(b, i) == Reversed(old(Row(b, i)))
    ensures forall r, c :: 0 <= r < 4 && 0 <= c < 4 && r != i ==> b[r, c] == old(b[r, c])
  {
    b[i, 0], b[i, 3] := b[i, 3], b[i, 0];
    b[i, 1], b[i, 2] := b[i, 2], b[i, 1];
  }

  /** Every row reversed in place. */
  method ReverseAllRows(b: array2<int>)
    requires b.Length0 == 4 && b.Length1 == 4
    modifies b
    ensures View(b) == ReverseRows(old(View(b)))
  {
    ghost var g := View(b);
    for i := 0 to 4
      invariant forall r :: 0 <= r < i ==> Row(b, r) == Reversed(g[r])
      invariant forall r :: i <= r < 4 ==> Row(b, r) == g[r]
    {
      ReverseRow(b, i);
    }
  }

  /** The board transposed in place by swapping each cell above the
      diagonal with its mirror image. */
  method TransposeInPlace(b: array2<int>)
    requires b.Length0 == 4 && b.Length1 == 4
    modifies b
    ensures View(b) == Transpose(old(View(b)))
  {
    for i := 0 to 4
      invariant forall r, c :: 0 <= r < 4 && 0 <= c < 4 ==>
        b[r, c] == if r < i || c < i then old(b[c, r]) else old(b[r, c])
    {
      for j := i + 1 to 4
        invariant forall r, c :: 0 <= r < 4 && 0 <= c < 4 ==>
          b[r, c] == if r < i || c < i || (r == i && i < c < j) || (c == i && i < r < j)
                     then old(b[c, r]) else old(b[r, c])
      {
        var temp := b[i, j];
        b[i, j] := b[j, i];
        b[j, i] := temp;
      }
    }
    GridExt(View(b), Transpose(old(View(b))));
  }

  /** The left pass over every row. */
  method LeftPasses(b: array2<int>) returns (gained: int)
    requires b.Length0 == 4 && b.Length1 == 4
    modifies b
    ensures View(b) == MoveLeftGrid(old(View(b)))
    ensures gained == LeftScore(old(View(b)))
  {
    ghost var g := View(b);
    gained := 0;
    for i := 0 to 4
      invariant forall r :: 0 <= r < i ==> Row(b, r) == MoveLeftRow(g[r])
      invariant forall r :: i <= r < 4 ==> Row(b, r) == g[r]
      invariant gained == RowsScore(g, i)
    {
      var d := LeftPass(b, i);
      gained := gained + d;
    }
  }

  /** Row `i` swiped right in place: reversed, passed to the left and
      reversed back. */
  method RightPass(b: array2<int>, i: int) returns (gained: int)
    requires b.Length0 == 4 && b.Length1 == 4 && 0 <= i < 4
    modifies b
    ensures Row(b, i) == Reversed(MoveLeftRow(Reversed(old(Row(b, i)))))
    ensures gained == Sum(Gains(Compact(Reversed(old(Row(b, i))))))
    ensures forall r, c :: 0 <= r < 4 && 0 <= c < 4 && r != i ==> b[r, c] == old(b[r, c])
  {
    ReverseRow(b, i);
    gained := LeftPass(b, i);
    ReverseRow(b, i);
  }

  /** Every row swiped right in place. */
  method RightPasses(b: array2<int>) returns (gained: int)
    requires b.Length0 == 4 && b.Length1 == 4
    modifies b
    ensures View(b) == ReverseRows(MoveLeftGrid(ReverseRows(old(View(b)))))
    ensures gained == LeftScore(ReverseRows(old(View(b))))
  {
    ghost var g := View(b);
    ghost var rg := ReverseRows(g);
    gained := 0;
    for i := 0 to 4
      invariant forall r :: 0 <= r < i ==> Row(b, r) == Reversed(MoveLeftRow(rg[r]))
      invariant forall r :: i <= r < 4 ==> Row(b, r) == g[r]
      invariant gained == RowsScore(rg, i)
    {
      var d := RightPass(b, i);
      gained := gained + d;
    }
  }

  /** `addNumber`: up to fifty draws of a cell; the first one that lands on
      an empty cell gets a 2 or a 4. */
  method AddNumber(newGrid: array2<int>, tries: seq<Try>)
    requires newGrid.Length0 == 4 && newGrid.Length1 == 4 && ValidTries(tries)
    modifies newGrid
    ensures View(newGrid) == AfterAddNumber(old(View(newGrid)), tries)
  {
    ghost var g := View(newGrid);
    var added := false;
    var attempts := 0;
    while !added && attempts < 50
      invariant 0 <= attempts <= 50
      invariant !added ==> View(newGrid) == g
      invariant !added ==> forall j :: 0 <= j < attempts ==> g[tries[j].row][tries[j].col] != 0
      invariant added ==> View(newGrid) == AfterAddNumber(g, tries)
    {
      var rand1 := tries[attempts].row;
      var rand2 := tries[attempts].col;
      if newGrid[rand1, rand2] == 0 {
        newGrid[rand1, rand2] := if tries[attempts].four then 4 else 2;
        added := true;
        GridExt(View(newGrid), AfterAddNumber(g, tries));
      }
      attempts := attempts + 1;
    }
  }

  /** `checkIfGameOver`: first look for an empty cell, then for a cell equal
      to one of its four neighbours. */
  method CheckIfGameOver(grid: Grid<int>) returns (over: bool)
    requires IsGrid(grid)
    ensures over == IsGameOver(grid)
  {
    for i := 0 to 4
      invariant forall r, c :: 0 <= r < i && 0 <= c < 4 ==> grid[r][c] != 0
    {
      for j := 0 to 4
        invariant forall r, c :: 0 <= r < 4 && 0 <= c < 4 && (r < i || (r == i && c < j)) ==> grid[r][c] != 0
      {
        if grid[i][j] == 0 {
          return false;
        }
      }
    }
    for i := 0 to 4
      invariant forall r, c :: 0 <= r < i && 0 <= c < 3 ==> DiffersRight(grid, r, c)
      invariant forall r, c :: 0 <= r < i && r < 3 && 0 <= c < 4 ==> DiffersBelow(grid, r, c)
    {
      for j := 0 to 4
        invariant forall r, c :: 0 <= r < 4 && 0 <= c < 3 && (r < i || (r == i && c < j)) ==> DiffersRight(grid, r, c)
        invariant forall r, c :: 0 <= r < 3 && 0 <= c < 4 && (r < i || (r == i && c < j)) ==> DiffersBelow(grid, r, c)
      {
        // The tests above and to the left never fire first: those pairs
        // were compared, as below and to the right, on earlier cells.
        assert i > 0 ==> DiffersBelow(grid, i - 1, j);
        assert j > 0 ==> DiffersRight(grid, i, j - 1);
        if (i > 0 && grid[i][j] == grid[i - 1][j]) ||
           (i < 3 && grid[i][j] == grid[i + 1][j]) ||
           (j > 0 && grid[i][j] == grid[i][j - 1]) ||
           (j < 3 && grid[i][j] == grid[i][j + 1])
        {
          if i < 3 && grid[i][j] == grid[i + 1][j] {
            assert !DiffersBelow(grid, i, j);
          } else if j < 3 && grid[i][j] == grid[i][j + 1] {
            assert !DiffersRight(grid, i, j);
          }
          return false;
        }
      }
    }
    return true;
  }

  // ---------------------------------------------------------------------
  // The page's state

  /** The key codes `handleKeyDown` reacts to. */
  const ArrowCodes: seq<string> := ["ArrowUp", "ArrowDown", "ArrowRight", "ArrowLeft"]

  /** The swipe each arrow code triggers. */
  function CodeDirection(code: string): (d: Direction)
    requires code in ArrowCodes
  {
    if code == "ArrowUp" then Up
    else if code == "ArrowDown" then Down
    else if code == "ArrowRight" then Right
    else Left
  }

  /** The dashboard's game: the board, the score of this game and the best
      score seen (read from local storage when the page opens). */
  class Board {
    var data: Grid<int>
    var score: int
    var bestScore: int

    ghost predicate Valid()
      reads this
    {
      IsGrid(data) && NonNegative(data)
    }

    /** The page before it is first drawn: an empty board, score 0. */
    constructor (storedBest: int)
      ensures Valid() && data == EmptyGrid() && score == 0 && bestScore == storedBest
    {
      data := EmptyGrid();
      score := 0;
      bestScore := storedBest;
    }

    /** `initialize`: the score goes back to 0 and two tiles are spawned on
        the current board. */
    method Initialize(first: seq<Try>, second: seq<Try>)
      requires Valid() && ValidTries(first) && ValidTries(second)
      modifies this
      ensures Valid()
      ensures data == AfterAddNumber(AfterAddNumber(old(data), first), second)
      ensures score == 0 && bestScore == old(bestScore)
    {
      var newGrid := Copy(data);
      score := 0;
      AddNumber(newGrid, first);
      AddNumber(newGrid, second);
      AddNumberNonNegative(data, first);
      AddNumberNonNegative(AfterAddNumber(data, first), second);
      data := View(newGrid);
    }

    /** `reset`: an empty board with two tiles spawned, score 0. */
    method Reset(first: seq<Try>, second: seq<Try>)
      requires Valid() && ValidTries(first) && ValidTries(second)
      modifies this
      ensures Valid()
      ensures data == AfterAddNumber(AfterAddNumber(EmptyGrid(), first), second)
      ensures score == 0 && bestScore == old(bestScore)
    {
      var newGrid := Copy(EmptyGrid());
      score := 0;
      AddNumber(newGrid, first);
      AddNumber(newGrid, second);
      AddNumberNonNegative(EmptyGrid(), first);
      AddNumberNonNegative(AfterAddNumber(EmptyGrid(), first), second);
      data := View(newGrid);
    }

    /** The end of every swipe: spawn a tile if the board changed, store the
        board and the score, raise the best score if it was beaten, and
        report whether the game is over. */
    method Finish(newGrid: array2<int>, newScore: int, tries: seq<Try>) returns (gameOver: bool)
      requires Valid() && ValidTries(tries)
      requires newGrid.Length0 == 4 && newGrid.Length1 == 4 && NonNegative(View(newGrid))
      modifies this, newGrid
      ensures Valid()
      ensures data == if old(View(newGrid)) == old(data) then old(data)
                      else AfterAddNumber(old(View(newGrid)), tries)
      ensures score == newScore
      ensures bestScore == if newScore > old(bestScore) then newScore else old(bestScore)
      ensures gameOver == IsGameOver(data)
    {
      if View(newGrid) != data {
        AddNumberNonNegative(View(newGrid), tries);
        AddNumber(newGrid, tries);
      }
      data := View(newGrid);
      score := newScore;
      if newScore > bestScore {
        bestScore := newScore;
      }
      gameOver := CheckIfGameOver(data);
    }

    method SwipeLeft(tries: seq<Try>) returns (gameOver: bool)
      requires Valid() && ValidTries(tries)
      modifies this
      ensures Valid()
      ensures data == if Moved(old(data), Left) == old(data) then old(data)
                      else AfterAddNumber(Moved(old(data), Left), tries)
      ensures score == old(score) + MoveScore(old(data), Left) >= old(score)
      ensures bestScore == if score > old(bestScore) then score else old(bestScore)
      ensures gameOver == IsGameOver(data)
    {
      var newGrid := Copy(data);
      var newScore := score;
      var gained := LeftPasses(newGrid);
      newScore := newScore + gained;
      MoveNonNegative(data, Left);
      gameOver := Finish(newGrid, newScore, tries);
    }

    method SwipeRight(tries: seq<Try>) returns (gameOver: bool)
      requires Valid() && ValidTries(tries)
      modifies this
      ensures Valid()
      ensures data == if Moved(old(data), Right) == old(data) then old(data)
                      else AfterAddNumber(Moved(old(data), Right), tries)
      ensures score == old(score) + MoveScore(old(data), Right) >= old(score)
      ensures bestScore == if score > old(bestScore) then score else old(bestScore)
      ensures gameOver == IsGameOver(data)
    {
      var newGrid := Copy(data);
      var newScore := score;
      var gained := RightPasses(newGrid);
      newScore := newScore + gained;
      MoveNonNegative(data, Right);
      gameOver := Finish(newGrid, newScore, tries);
    }

    method SwipeUp(tries: seq<Try>) returns (gameOver: bool)
      requires Valid() && ValidTries(tries)
      modifies this
      ensures Valid()
      ensures data == if Moved(old(data), Up) == old(data) then old(data)
                      else AfterAddNumber(Moved(old(data), Up), tries)
      ensures score == old(score) + MoveScore(old(data), Up) >= old(score)
      ensures bestScore == if score > old(bestScore) then score else old(bestScore)
      ensures gameOver == IsGameOver(data)
    {
      var newGrid := Copy(data);
      var newScore := score;
      TransposeInPlace(newGrid);
      var gained := LeftPasses(newGrid);
      newScore := newScore + gained;
      TransposeInPlace(newGrid);
      MoveNonNegative(data, Up);
      gameOver := Finish(newGrid, newScore, tries);
    }

    method SwipeDown(tries: seq<Try>) returns (gameOver: bool)
      requires Valid() && ValidTries(tries)
      modifies this
      ensures Valid()
      ensures data == if Moved(old(data), Down) == old(data) then old(data)
                      else AfterAddNumber(Moved(old(data), Down), tries)
      ensures score == old(score) + MoveScore(old(data), Down) >= old(score)
      ensures bestScore == if score > old(bestScore) then score else old(bestScore)
      ensures gameOver == IsGameOver(data)
    {
      var newGrid := Copy(data);
      var newScore := score;
      TransposeInPlace(newGrid);
      ReverseAllRows(newGrid);
      var gained := LeftPasses(newGrid);
      newScore := newScore + gained;
      ReverseAllRows(newGrid);
      TransposeInPlace(newGrid);
      MoveNonNegative(data, Down);
      gameOver := Finish(newGrid, newScore, tries);
    }

    /** `handleKeyDown`: each of the four arrow codes performs the swipe in
        its direction; any other code does nothing. */
    method HandleKeyDown(code: string, tries: seq<Try>) returns (gameOver: bool)
      requires Valid() && ValidTries(tries)
      modifies this
      ensures Valid()
      ensures code !in ArrowCodes ==>
        data == old(data) && score == old(score) && bestScore == old(bestScore) && !gameOver
      ensures code in ArrowCodes ==>
        var d := CodeDirection(code);
        data == (if Moved(old(data), d) == old(data) then old(data)
                 else AfterAddNumber(Moved(old(data), d), tries)) &&
        score == old(score) + MoveScore(old(data), d) >= old(score) &&
        bestScore == (if score > old(bestScore) then score else old(bestScore)) &&
        gameOver == IsGameOver(data)
    {
      gameOver := false;
      if code == "ArrowUp" {
        gameOver := SwipeUp(tries);
      } else if code == "ArrowDown" {
        gameOver := SwipeDown(tries);
      } else if code == "ArrowRight" {
        gameOver := SwipeRight(tries);
      } else if code == "ArrowLeft" {
        gameOver := SwipeLeft(tries);
      }
    }
  }
}
