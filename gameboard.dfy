/** The state of the second game page: a 4×4 board whose cells are either
    empty (the empty string in the page) or hold a number, the score of the
    current game and the best score, with the operations the page offers
    the game component: report points, spawn a tile in a random empty cell,
    and start a new game. */
module Gameboard {
  import opened Grids

  /** A cell: empty, or holding a number. */
  datatype Cell = Blank | Num(value: int)

  /** The cells as numbers, an empty cell reading as 0. */
  function AsInts(s: seq<Cell>): (r: seq<int>)
    ensures |r| == |s|
    ensures forall k :: 0 <= k < |s| ==> r[k] == (if s[k].Blank? then 0 else s[k].value)
  {
    seq(|s|, k requires 0 <= k < |s| => if s[k].Blank? then 0 else s[k].value)
  }

  /** Numbers as cells. */
  function Nums(s: seq<int>): (r: seq<Cell>)
    ensures |r| == |s|
    ensures forall k :: 0 <= k < |s| ==> r[k] == Num(s[k])
  {
    seq(|s|, k requires 0 <= k < |s| => Num(s[k]))
  }

  /** `n` empty cells. */
  function Blanks(n: nat): (r: seq<Cell>)
    ensures |r| == n
    ensures forall k :: 0 <= k < n ==> r[k] == Blank
  {
    seq(n, k => Blank)
  }

  /** Every cell holds a number. */
  predicate AllNums(s: seq<Cell>)
  {
    forall k :: 0 <= k < |s| ==> s[k].Num?
  }

  /** No cell holds the number 0, which would read like an empty cell. */
  predicate NoZeroTile(s: seq<Cell>)
  {
    forall k :: 0 <= k < |s| ==> s[k] != Num(0)
  }

  /** The board of a new game, every cell empty. */
  function BlankGrid(): (g: Grid<Cell>)
    ensures IsGrid(g)
    ensures forall r, c :: 0 <= r < 4 && 0 <= c < 4 ==> g[r][c] == Blank
  {
    [Blanks(4), Blanks(4), Blanks(4), Blanks(4)]
  }

  // ---------------------------------------------------------------------
  // The list of empty cells

  /** A cell's place in row-major order. */
  function Key(e: (int, int)): int
  {
    4 * e.0 + e.1
  }

  /** The cell at place `n` in row-major order. */
  function CellAt(n: int): (e: (int, int))
    requires 0 <= n < 16
    ensures 0 <= e.0 < 4 && 0 <= e.1 < 4 && Key(e) == n
  {
    (n / 4, n % 4)
  }

  /** The empty cells among the first `k` cells in row-major order, as
      (row, column) pairs, in that order. */
  function EmptyCellsUpTo(g: Grid<Cell>, k: nat): (cells: seq<(int, int)>)
    requires IsGrid(g) && k <= 16
    ensures |cells| <= k
    ensures forall n :: 0 <= n < |cells| ==>
      0 <= cells[n].0 < 4 && 0 <= cells[n].1 < 4 &&
      g[cells[n].0][cells[n].1] == Blank && Key(cells[n]) < k
  {
    if k == 0 then []
    else
      var e := CellAt(k - 1);
      EmptyCellsUpTo(g, k - 1) + if g[e.0][e.1] == Blank then [e] else []
  }

  /** The list is in row-major order. */
  lemma {:induction false} EmptyCellsUpToOrdered(g: Grid<Cell>, k: nat)
    requires IsGrid(g) && k <= 16
    ensures forall a, b :: 0 <= a < b < |EmptyCellsUpTo(g, k)| ==>
      Key(EmptyCellsUpTo(g, k)[a]) < Key(EmptyCellsUpTo(g, k)[b])
  {
    if k > 0 {
      EmptyCellsUpToOrdered(g, k - 1);
    }
  }

  /** The empty cells of the board in row-major order (all 4 * 4 cells). */
  function EmptyCells(g: Grid<Cell>): (cells: seq<(int, int)>)
    requires IsGrid(g)
  {
    EmptyCellsUpTo(g, 4 * |g|)
  }

  lemma {:induction false} EmptyCellsUpToComplete(g: Grid<Cell>, k: nat, r: int, c: int)
    requires IsGrid(g) && k <= 16
    requires 0 <= r < 4 && 0 <= c < 4 && 4 * r + c < k && g[r][c] == Blank
    ensures (r, c) in EmptyCellsUpTo(g, k)
  {
    if 4 * r + c < k - 1 {
      EmptyCellsUpToComplete(g, k - 1, r, c);
    } else {
      assert CellAt(k - 1) == (r, c);
    }
  }

  /** A cell is listed exactly when it is on the board and empty. */
  lemma EmptyCellsExactly(g: Grid<Cell>, r: int, c: int)
    requires IsGrid(g)
    ensures (r, c) in EmptyCells(g) <==> 0 <= r < 4 && 0 <= c < 4 && g[r][c] == Blank
  {
    if 0 <= r < 4 && 0 <= c < 4 && g[r][c] == Blank {
      EmptyCellsUpToComplete(g, 16, r, c);
    }
  }

  /** Writing a number into an empty cell takes one cell off every longer
      prefix of the list. */
  lemma {:induction false} EmptyCellsUpToFill(g: Grid<Cell>, i: int, j: int, v: int, k: nat)
    requires IsGrid(g) && 0 <= i < 4 && 0 <= j < 4 && g[i][j] == Blank && k <= 16
    ensures |EmptyCellsUpTo(g[i := g[i][j := Num(v)]], k)|
         == |EmptyCellsUpTo(g, k)| - (if 4 * i + j < k then 1 else 0)
  {
    if k > 0 {
      var h := g[i := g[i][j := Num(v)]];
      var e := CellAt(k - 1);
      EmptyCellsUpToFill(g, i, j, v, k - 1);
      if 4 * i + j == k - 1 {
        assert e == (i, j);
        assert h[e.0][e.1] != Blank;
      } else {
        assert e != (i, j);
        assert h[e.0][e.1] == g[e.0][e.1];
      }
    }
  }

  /** Writing a number into an empty cell shortens the list by one. */
  lemma EmptyCellsFill(g: Grid<Cell>, i: int, j: int, v: int)
    requires IsGrid(g) && 0 <= i < 4 && 0 <= j < 4 && g[i][j] == Blank
    ensures |EmptyCells(g[i := g[i][j := Num(v)]])| == |EmptyCells(g)| - 1
  {
    EmptyCellsUpToFill(g, i, j, v, 16);
  }

  lemma {:induction false} EmptyCellsUpToBlank(k: nat)
    requires k <= 16
    ensures |EmptyCellsUpTo(BlankGrid(), k)| == k
  {
    if k > 0 {
      EmptyCellsUpToBlank(k - 1);
    }
  }

  /** On the board of a new game all sixteen cells are listed. */
  lemma EmptyCellsBlankGrid()
    ensures |EmptyCells(BlankGrid())| == 16
  {
    EmptyCellsUpToBlank(16);
  }

  /** The page's loop: walk the rows, and the cells of each row, pushing
      the empty ones. */
  method CollectEmptyCells(g: Grid<Cell>) returns (emptyCells: seq<(int, int)>)
    requires IsGrid(g)
    ensures emptyCells == EmptyCells(g)
  {
    emptyCells := [];
    for i := 0 to 4
      invariant emptyCells == EmptyCellsUpTo(g, 4 * i)
    {
      for j := 0 to 4
        invariant emptyCells == EmptyCellsUpTo(g, 4 * i + j)
      {
        assert (4 * i + j) / 4 == i && (4 * i + j) % 4 == j;
        if g[i][j] == Blank {
          emptyCells := emptyCells + [(i, j)];
        }
      }
    }
  }

  // ---------------------------------------------------------------------
  // Spawning a tile from the list of empty cells

  /** The two random choices of `addRandomNumber`: a position in the list
      of empty cells, taken modulo the length of the list so that any entry
      can be chosen, and whether the new tile is a 4 rather than a 2. */
  datatype Pick = Pick(index: nat, four: bool)

  /** The board after `addRandomNumber`. */
  function AfterAddRandom(g: Grid<Cell>, p: Pick): (h: Grid<Cell>)
    requires IsGrid(g)
    ensures IsGrid(h)
  {
    var cells := EmptyCells(g);
    if |cells| == 0 then g
    else
      var (i, j) := cells[p.index % |cells|];
      g[i := g[i][j := Num(if p.four then 4 else 2)]]
  }

  /** With no empty cell the board is returned as it was; otherwise exactly
      one cell changes, in the row of the picked cell: it was empty and now
      holds a 2 or a 4, and one empty cell fewer is left. */
  lemma AddRandomWritesOneBlank(g: Grid<Cell>, p: Pick)
    requires IsGrid(g)
    ensures var h := AfterAddRandom(g, p);
      |EmptyCells(g)| == 0 ==> h == g
    ensures var h := AfterAddRandom(g, p);
      |EmptyCells(g)| > 0 ==>
        |EmptyCells(h)| == |EmptyCells(g)| - 1 &&
        exists i, j :: 0 <= i < 4 && 0 <= j < 4 && g[i][j] == Blank &&
          (h[i][j] == Num(2) || h[i][j] == Num(4)) &&
          (forall r :: 0 <= r < 4 && r != i ==> h[r] == g[r]) &&
          (forall c :: 0 <= c < 4 && c != j ==> h[i][c] == g[i][c])
  {
    var cells := EmptyCells(g);
    if |cells| > 0 {
      var (i, j) := cells[p.index % |cells|];
      EmptyCellsFill(g, i, j, if p.four then 4 else 2);
      var h := AfterAddRandom(g, p);
      assert g[i][j] == Blank && (h[i][j] == Num(2) || h[i][j] == Num(4));
    }
  }

  /** Every tile on the board is a 2 or a 4. */
  predicate SmallTiles(g: Grid<Cell>)
    requires IsGrid(g)
  {
    forall r, c :: 0 <= r < 4 && 0 <= c < 4 && g[r][c].Num? ==> g[r][c].value in {2, 4}
  }

  lemma AddRandomSmallTiles(g: Grid<Cell>, p: Pick)
    requires IsGrid(g) && SmallTiles(g)
    ensures SmallTiles(AfterAddRandom(g, p))
  {
  }

  /** The board of a new game: two tiles spawned on an empty board. */
  function NewGame(first: Pick, second: Pick): (g: Grid<Cell>)
    ensures IsGrid(g)
  {
    AfterAddRandom(AfterAddRandom(BlankGrid(), first), second)
  }

  /** A new game holds exactly two tiles, each a 2 or a 4. */
  lemma NewGameHasTwoTiles(first: Pick, second: Pick)
    ensures |EmptyCells(NewGame(first, second))| == 14
    ensures SmallTiles(NewGame(first, second))
  {
    EmptyCellsBlankGrid();
    TwoSpawns(BlankGrid(), first, second);
  }

  /** Two spawns on a board with sixteen empty cells leave fourteen. */
  lemma TwoSpawns(g: Grid<Cell>, first: Pick, second: Pick)
    requires IsGrid(g) && |EmptyCells(g)| == 16 && SmallTiles(g)
    ensures var g1 := AfterAddRandom(g, first);
      |EmptyCells(AfterAddRandom(g1, second))| == 14 &&
      SmallTiles(AfterAddRandom(g1, second))
  {
    AddRandomWritesOneBlank(g, first);
    var g1 := AfterAddRandom(g, first);
    AddRandomWritesOneBlank(g1, second);
    AddRandomSmallTiles(g, first);
    AddRandomSmallTiles(g1, second);
  }

  /** The larger of two scores: what is saved as the new high score. */
  function Max(a: int, b: int): (m: int)
    ensures m >= a && m >= b
    ensures m == a || m == b
  {
    if a >= b then a else b
  }

  // ---------------------------------------------------------------------
  // The page's state

  class GameBoard {
    var cellValues: Grid<Cell>
    var userScore: int
    var bestUserScore: int
    var initialized: bool
    /** Every amount passed to `incrementScore`, in order. */
    ghost var reported: seq<int>

    ghost predicate Valid()
      reads this
    {
      IsGrid(cellValues)
    }

    /** The page before its first effect runs: an empty board, no score,
        not yet initialized. */
    constructor ()
      ensures Valid() && cellValues == BlankGrid()
      ensures userScore == 0 && bestUserScore == 0 && !initialized && reported == []
    {
      cellValues := BlankGrid();
      userScore := 0;
      bestUserScore := 0;
      initialized := false;
      reported := [];
    }

    /** `incrementScore`: the score grows by `points`. */
    method IncrementScore(points: int)
      modifies this
      ensures userScore == old(userScore) + points
      ensures reported == old(reported) + [points]
      ensures cellValues == old(cellValues) && bestUserScore == old(bestUserScore)
      ensures initialized == old(initialized)
    {
      userScore := userScore + points;
      reported := reported + [points];
    }

    /** The high score sent when the game is saved. */
    function NewHighScore(): (m: int)
      reads this
      ensures m >= bestUserScore && m >= userScore
      ensures m == bestUserScore || m == userScore
    {
      Max(bestUserScore, userScore)
    }

    /** The effect that runs when the score changes: the best score
        catches up with the score. */
    method SyncBestScore()
      modifies this
      ensures bestUserScore == Max(old(bestUserScore), old(userScore))
      ensures bestUserScore >= old(bestUserScore) && bestUserScore >= userScore
      ensures cellValues == old(cellValues) && userScore == old(userScore)
      ensures initialized == old(initialized) && reported == old(reported)
    {
      bestUserScore := NewHighScore();
    }

    /** `addRandomNumber`: list the empty cells; if there is none, keep the
        board; otherwise copy the row of the picked cell and put a 2 or a 4
        into that cell. */
    method AddRandomNumber(p: Pick)
      requires Valid()
      modifies this
      ensures Valid()
      ensures cellValues == AfterAddRandom(old(cellValues), p)
      ensures userScore == old(userScore) && bestUserScore == old(bestUserScore)
      ensures initialized == old(initialized) && reported == old(reported)
    {
      var emptyCells := CollectEmptyCells(cellValues);
      if |emptyCells| == 0 {
        return;
      }
      var (i, j) := emptyCells[p.index % |emptyCells|];
      var newValue := if p.four then 4 else 2;
      var newRow := cellValues[i];
      newRow := newRow[j := Num(newValue)];
      cellValues := cellValues[i := newRow];
    }

    /** The two `addRandomNumber` calls that end `resetGame`, on whatever
        board they find. */
    method AddTwoRandomNumbers(first: Pick, second: Pick)
      requires Valid()
      modifies this
      ensures Valid()
      ensures cellValues == AfterAddRandom(AfterAddRandom(old(cellValues), first), second)
      ensures userScore == old(userScore) && bestUserScore == old(bestUserScore)
      ensures initialized == old(initialized) && reported == old(reported)
    {
      AddRandomNumber(first);
      AddRandomNumber(second);
    }

    /** `resetGame`: an empty board, score 0, and two tiles spawned. */
    method ResetGame(first: Pick, second: Pick)
      requires Valid()
      modifies this
      ensures Valid()
      ensures cellValues == NewGame(first, second)
      ensures userScore == 0 && initialized
      ensures bestUserScore == old(bestUserScore) && reported == old(reported)
    {
      cellValues := BlankGrid();
      userScore := 0;
      initialized := true;
      AddTwoRandomNumbers(first, second);
    }
  }
}
