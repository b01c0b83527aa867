/** The game component of the second game page: an arrow key pulls each
    row or column of a copy of the board out into a list, removes its empty
    cells with `splice`, merges equal neighbours with `splice`, reports each
    merge to the page's score, writes the list back, and then tries to
    spawn a tile at randomly drawn coordinates. */
module Game {
  import opened Grids
  import opened Line
  import opened Gameboard
  import Dashboard

  // ---------------------------------------------------------------------
  // Lists of cells

  /** The numbers of `s`, its empty cells left out, in their order. */
  function Tiles(s: seq<Cell>): (t: seq<Cell>)
    ensures |t| <= |s|
    ensures AllNums(t)
  {
    if s == [] then []
    else (if s[0] == Blank then [] else [s[0]]) + Tiles(s[1..])
  }

  lemma {:induction false} TilesAppend(a: seq<Cell>, b: seq<Cell>)
    ensures Tiles(a + b) == Tiles(a) + Tiles(b)
  {
    if a == [] {
      assert a + b == b;
    } else {
      assert (a + b)[1..] == a[1..] + b;
      TilesAppend(a[1..], b);
    }
  }

  lemma {:induction false} TilesOfNums(s: seq<Cell>)
    requires AllNums(s)
    ensures Tiles(s) == s
  {
    if s != [] {
      TilesOfNums(s[1..]);
    }
  }

  /** A cell survives compaction exactly when it holds a number. */
  lemma {:induction false} TilesMembers(s: seq<Cell>, x: Cell)
    ensures x in Tiles(s) <==> x in s && x != Blank
  {
    if s != [] {
      TilesMembers(s[1..], x);
      assert s == [s[0]] + s[1..];
    }
  }

  lemma AsIntsAppend(a: seq<Cell>, b: seq<Cell>)
    ensures AsInts(a + b) == AsInts(a) + AsInts(b)
  {
  }

  lemma NumsAsInts(s: seq<Cell>)
    requires AllNums(s)
    ensures Nums(AsInts(s)) == s
  {
  }

  lemma AsIntsNums(s: seq<int>)
    ensures AsInts(Nums(s)) == s
  {
  }

  lemma AsIntsBlanks(n: nat)
    ensures AsInts(Blanks(n)) == Zeros(n)
  {
  }

  /** Read as numbers, compaction is the reference `Compact`: the numbers in
      their order, as long as no cell holds a 0. */
  lemma {:induction false} TilesAreCompact(s: seq<Cell>)
    requires NoZeroTile(s)
    ensures AsInts(Tiles(s)) == Compact(AsInts(s))
  {
    if s != [] {
      TilesAreCompact(s[1..]);
      assert AsInts(s)[1..] == AsInts(s[1..]);
      AsIntsAppend(if s[0] == Blank then [] else [s[0]], Tiles(s[1..]));
    }
  }

  /** Splicing out an empty cell at `j` keeps what is before it and what is
      still to be compacted after it. */
  lemma SpliceBlank(row: seq<Cell>, j: nat)
    requires j < |row| && row[j] == Blank
    ensures var r := row[..j] + row[j + 1..];
      r[..j] == row[..j] && Tiles(r[j..]) == Tiles(row[j..])
  {
    var r := row[..j] + row[j + 1..];
    assert r[j..] == row[j + 1..];
    assert row[j..] == [row[j]] + row[j + 1..];
  }

  /** Stepping over a number moves it into the compacted prefix. */
  lemma StepOverNum(row: seq<Cell>, j: nat)
    requires j < |row| && row[j] != Blank && AllNums(row[..j])
    ensures AllNums(row[..j + 1])
    ensures row[..j] + Tiles(row[j..]) == row[..j + 1] + Tiles(row[j + 1..])
  {
    assert row[j..] == [row[j]] + row[j + 1..];
    assert row[..j + 1] == row[..j] + [row[j]];
  }

  /** The loop that walks the list and splices out each empty cell,
      stepping back so that the cell moved into its place is looked at. */
  method CompactLine(line: seq<Cell>) returns (row: seq<Cell>)
    ensures row == Tiles(line)
  {
    row := line;
    var j := 0;
    while j < |row|
      invariant 0 <= j <= |row|
      invariant AllNums(row[..j])
      invariant row[..j] + Tiles(row[j..]) == Tiles(line)
      decreases |row| - j
    {
      if row[j] == Blank {
        SpliceBlank(row, j);
        row := row[..j] + row[j + 1..];
      } else {
        StepOverNum(row, j);
        j := j + 1;
      }
    }
    assert row[..j] == row;
    TilesOfNums(row);
  }

  // ---------------------------------------------------------------------
  // Merging, left to right (Left and Up)

  /** A merge at `j` moves the doubled tile into the merged prefix and
      reports its value. */
  lemma {:induction false} LeftMergeStep(x: seq<int>, j: nat)
    requires j + 1 < |x| && x[j] == x[j + 1]
    ensures var y := x[..j] + [2 * x[j]] + x[j + 2..];
      y[..j + 1] + Merge(y[j + 1..]) == x[..j] + Merge(x[j..]) &&
      Gains(x[j..]) == [2 * x[j]] + Gains(y[j + 1..])
  {
    var y := x[..j] + [2 * x[j]] + x[j + 2..];
    var t := x[j..];
    assert t[0] == x[j] && t[1] == x[j + 1];
    assert Merge(t) == [2 * x[j]] + Merge(t[2..]);
    assert Gains(t) == [2 * x[j]] + Gains(t[2..]);
    assert y[j + 1..] == t[2..];
    assert y[..j + 1] == x[..j] + [2 * x[j]];
    Associative(x[..j], [2 * x[j]], Merge(t[2..]));
  }

  /** Without a merge at `j`, the tile at `j` joins the merged prefix as it is. */
  lemma {:induction false} LeftKeepStep(x: seq<int>, j: nat)
    requires j + 1 < |x| && x[j] != x[j + 1]
    ensures x[..j + 1] + Merge(x[j + 1..]) == x[..j] + Merge(x[j..])
    ensures Gains(x[j..]) == Gains(x[j + 1..])
  {
    var t := x[j..];
    assert t[0] == x[j] && t[1] == x[j + 1];
    assert Merge(t) == [x[j]] + Merge(t[1..]);
    assert Gains(t) == Gains(t[1..]);
    assert x[j + 1..] == t[1..];
    assert x[..j + 1] == x[..j] + [x[j]];
    Associative(x[..j], [x[j]], Merge(t[1..]));
  }

  /** Doubling cell `j` of a list of numbers and splicing out cell `j + 1`. */
  lemma NumsSpliceAfter(x: seq<int>, j: nat, v: int)
    requires j + 1 < |x|
    ensures var r := Nums(x)[j := Num(v)];
      r[..j + 1] + r[j + 2..] == Nums(x[..j] + [v] + x[j + 2..])
  {
  }

  /** The left-to-right scan at `j`: the prefix is merged, what is left will
      merge into the rest of the answer, and `log` holds the values reported
      so far. */
  ghost predicate LeftScan(x: seq<int>, j: nat, log: seq<int>, orig: seq<int>)
  {
    j <= |x| &&
    x[..j] + Merge(x[j..]) == Merge(orig) &&
    log + Gains(x[j..]) == Gains(orig)
  }

  lemma LeftScanMerge(x: seq<int>, j: nat, log: seq<int>, orig: seq<int>)
    requires LeftScan(x, j, log, orig) && j + 1 < |x| && x[j] == x[j + 1]
    ensures LeftScan(x[..j] + [2 * x[j]] + x[j + 2..], j + 1, log + [2 * x[j]], orig)
    ensures Sum(log + [2 * x[j]]) == Sum(log) + 2 * x[j]
  {
    LeftMergeStep(x, j);
    SumAppend(log, [2 * x[j]]);
    assert Sum([2 * x[j]]) == 2 * x[j] by {
      assert [2 * x[j]][1..] == [];
    }
  }

  lemma LeftScanKeep(x: seq<int>, j: nat, log: seq<int>, orig: seq<int>)
    requires LeftScan(x, j, log, orig) && j + 1 < |x| && x[j] != x[j + 1]
    ensures LeftScan(x, j + 1, log, orig)
  {
    LeftKeepStep(x, j);
  }

  lemma LeftScanDone(x: seq<int>, j: nat, log: seq<int>, orig: seq<int>)
    requires LeftScan(x, j, log, orig) && j + 1 >= |x|
    ensures x == Merge(orig) && log == Gains(orig)
  {
    assert x[..j] + x[j..] == x;
  }

  /** The left-to-right merge loop over the compacted list: when `row[j]`
      equals `row[j + 1]` it doubles `row[j]`, reports the new value and
      splices out `row[j + 1]`; either way it goes on at `j + 1`. */
  method MergeLeft(board: GameBoard, tiles: seq<Cell>) returns (row: seq<Cell>)
    requires AllNums(tiles)
    modifies board
    ensures row == Nums(Merge(AsInts(tiles)))
    ensures board.reported == old(board.reported) + Gains(AsInts(tiles))
    ensures board.userScore == old(board.userScore) + Sum(Gains(AsInts(tiles)))
    ensures board.cellValues == old(board.cellValues)
    ensures board.bestUserScore == old(board.bestUserScore)
    ensures board.initialized == old(board.initialized)
  {
    NumsAsInts(tiles);
    row := tiles;
    var j := 0;
    ghost var x := AsInts(tiles);
    ghost var log: seq<int> := [];
    while j < |row| - 1
      invariant row == Nums(x)
      invariant 0 <= j <= |x| && LeftScan(x, j, log, AsInts(tiles))
      invariant board.reported == old(board.reported) + log
      invariant board.userScore == old(board.userScore) + Sum(log)
      invariant board.cellValues == old(board.cellValues)
      invariant board.bestUserScore == old(board.bestUserScore)
      invariant board.initialized == old(board.initialized)
      decreases |row| - j
    {
      if row[j] == row[j + 1] {
        var v := row[j].value * 2;
        assert v == 2 * x[j];
        LeftScanMerge(x, j, log, AsInts(tiles));
        NumsSpliceAfter(x, j, v);
        row := row[j := Num(v)];
        board.IncrementScore(v);
        row := row[..j + 1] + row[j + 2..];
        x := x[..j] + [v] + x[j + 2..];
        log := log + [v];
      } else {
        LeftScanKeep(x, j, log, AsInts(tiles));
      }
      j := j + 1;
    }
    LeftScanDone(x, j, log, AsInts(tiles));
  }

  // ---------------------------------------------------------------------
  // Merging, right to left (Right and Down)

  /** The right-to-left merge as the page's loop performs it: when the last
      two numbers are equal they become one number of twice the value, and
      that number is compared again with the one before it. */
  function MergeR(s: seq<int>): (r: seq<int>)
    decreases |s|
  {
    if |s| < 2 then s
    else if s[|s| - 1] == s[|s| - 2] then MergeR(s[..|s| - 2] + [2 * s[|s| - 1]])
    else MergeR(s[..|s| - 1]) + [s[|s| - 1]]
  }

  /** The values that the merges of `MergeR(s)` create, in the order they
      are made. */
  function RightGains(s: seq<int>): seq<int>
    decreases |s|
  {
    if |s| < 2 then []
    else if s[|s| - 1] == s[|s| - 2] then
      [2 * s[|s| - 1]] + RightGains(s[..|s| - 2] + [2 * s[|s| - 1]])
    else RightGains(s[..|s| - 1])
  }

  /** Every merge takes one number off the list. */
  lemma {:induction false} MergeRCount(s: seq<int>)
    ensures |MergeR(s)| + |RightGains(s)| == |s|
    decreases |s|
  {
    if |s| >= 2 {
      var n := |s|;
      if s[n - 1] == s[n - 2] {
        MergeRCount(s[..n - 2] + [2 * s[n - 1]]);
      } else {
        MergeRCount(s[..n - 1]);
      }
    }
  }

  /** Merging from the right keeps the total of the numbers. */
  lemma {:induction false} SumMergeR(s: seq<int>)
    ensures Sum(MergeR(s)) == Sum(s)
    decreases |s|
  {
    if |s| >= 2 {
      var n := |s|;
      var x := s[n - 1];
      if x == s[n - 2] {
        var t := s[..n - 2] + [2 * x];
        SumMergeR(t);
        assert s == s[..n - 2] + [x, x];
        SumAppend(s[..n - 2], [x, x]);
        SumAppend(s[..n - 2], [2 * x]);
        assert Sum([x, x]) == x + Sum([x]);
      } else {
        SumMergeR(s[..n - 1]);
        SumAppend(MergeR(s[..n - 1]), [x]);
        assert s == s[..n - 1] + [x];
        SumAppend(s[..n - 1], [x]);
      }
    }
  }

  /** The Right and Down merge is not the mirror image of the Left and Up
      merge: on 4, 2, 2 the doubled 4 meets the 4 before it and merges
      again, while the mirrored merge stops at 4, 4. */
  lemma RightMergesTwice()
    ensures MergeR([4, 2, 2]) == [8] && RightGains([4, 2, 2]) == [4, 8]
    ensures Reversed(Merge(Reversed([4, 2, 2]))) == [4, 4]
  {
    assert [4, 2, 2][..1] + [4] == [4, 4];
    assert [4, 4][..0] + [8] == [8];
    assert Reversed([4, 2, 2]) == [2, 2, 4];
    assert [2, 2, 4][2..] == [4];
    assert Merge([2, 2, 4]) == [4, 4];
  }

  /** The right-to-left scan at `j`: cells after `j` are final, cells up to
      `j` still merge into the rest of the answer, and `log` holds the
      values reported so far. */
  ghost predicate RightScan(x: seq<int>, j: int, log: seq<int>, orig: seq<int>)
  {
    -1 <= j < |x| &&
    MergeR(x[..j + 1]) + x[j + 1..] == MergeR(orig) &&
    log + RightGains(x[..j + 1]) == RightGains(orig)
  }

  lemma RightScanMerge(x: seq<int>, j: int, log: seq<int>, orig: seq<int>)
    requires RightScan(x, j, log, orig) && 0 < j && x[j] == x[j - 1]
    ensures RightScan(x[..j - 1] + [2 * x[j]] + x[j + 1..], j - 1, log + [2 * x[j]], orig)
    ensures Sum(log + [2 * x[j]]) == Sum(log) + 2 * x[j]
  {
    var p := x[..j + 1];
    var y := x[..j - 1] + [2 * x[j]] + x[j + 1..];
    assert p[..|p| - 2] == x[..j - 1];
    assert y[..j] == p[..|p| - 2] + [2 * p[|p| - 1]];
    assert y[j..] == x[j + 1..];
    SumAppend(log, [2 * x[j]]);
    assert Sum([2 * x[j]]) == 2 * x[j] by {
      assert [2 * x[j]][1..] == [];
    }
  }

  lemma RightScanKeep(x: seq<int>, j: int, log: seq<int>, orig: seq<int>)
    requires RightScan(x, j, log, orig) && 0 < j && x[j] != x[j - 1]
    ensures RightScan(x, j - 1, log, orig)
  {
    var p := x[..j + 1];
    assert p[..|p| - 1] == x[..j];
    assert x[j..] == [x[j]] + x[j + 1..];
  }

  lemma RightScanDone(x: seq<int>, j: int, log: seq<int>, orig: seq<int>)
    requires RightScan(x, j, log, orig) && j <= 0
    ensures x == MergeR(orig) && log == RightGains(orig)
  {
    assert x[..j + 1] + x[j + 1..] == x;
  }

  /** Doubling cell `j` of a list of numbers and splicing out cell `j - 1`. */
  lemma NumsSpliceBefore(x: seq<int>, j: nat, v: int)
    requires 0 < j < |x|
    ensures var r := Nums(x)[j := Num(v)];
      r[..j - 1] + r[j..] == Nums(x[..j - 1] + [v] + x[j + 1..])
  {
  }

  /** The right-to-left merge loop over the compacted list: when `row[j]`
      equals `row[j - 1]` it doubles `row[j]`, reports the new value and
      splices out `row[j - 1]`, which moves the doubled number to `j - 1`,
      the cell looked at next. */
  method MergeRight(board: GameBoard, tiles: seq<Cell>) returns (row: seq<Cell>)
    requires AllNums(tiles)
    modifies board
    ensures row == Nums(MergeR(AsInts(tiles)))
    ensures board.reported == old(board.reported) + RightGains(AsInts(tiles))
    ensures board.userScore == old(board.userScore) + Sum(RightGains(AsInts(tiles)))
    ensures board.cellValues == old(board.cellValues)
    ensures board.bestUserScore == old(board.bestUserScore)
    ensures board.initialized == old(board.initialized)
  {
    NumsAsInts(tiles);
    row := tiles;
    var j := |row| - 1;
    ghost var x := AsInts(tiles);
    ghost var log: seq<int> := [];
    assert x[..j + 1] == x && x[j + 1..] == [];
    while j > 0
      invariant row == Nums(x)
      invariant RightScan(x, j, log, AsInts(tiles))
      invariant board.reported == old(board.reported) + log
      invariant board.userScore == old(board.userScore) + Sum(log)
      invariant board.cellValues == old(board.cellValues)
      invariant board.bestUserScore == old(board.bestUserScore)
      invariant board.initialized == old(board.initialized)
      decreases j
    {
      if row[j] == row[j - 1] {
        var v := row[j].value * 2;
        assert v == 2 * x[j];
        RightScanMerge(x, j, log, AsInts(tiles));
        NumsSpliceBefore(x, j, v);
        row := row[j := Num(v)];
        board.IncrementScore(v);
        row := row[..j - 1] + row[j..];
        x := x[..j - 1] + [v] + x[j + 1..];
        log := log + [v];
      } else {
        RightScanKeep(x, j, log, AsInts(tiles));
      }
      j := j - 1;
    }
    RightScanDone(x, j, log, AsInts(tiles));
  }

  // ---------------------------------------------------------------------
  // One line after a swipe

  /** A line after a swipe towards its start (Left, Up): the numbers,
      merged left to right, then empty cells. */
  function LeftLine(s: seq<Cell>): (r: seq<Cell>)
    ensures |r| == |s|
  {
    var m := Merge(AsInts(Tiles(s)));
    Nums(m) + Blanks(|s| - |m|)
  }

  /** A line after a swipe towards its end (Right, Down): empty cells, then
      the numbers merged right to left. */
  function RightLine(s: seq<Cell>): (r: seq<Cell>)
    ensures |r| == |s|
  {
    var t := AsInts(Tiles(s));
    MergeRCount(t);
    var m := MergeR(t);
    Blanks(|s| - |m|) + Nums(m)
  }

  /** The line after a swipe, towards its end or towards its start. */
  function SlideLine(s: seq<Cell>, towardsEnd: bool): (r: seq<Cell>)
    ensures |r| == |s|
  {
    if towardsEnd then RightLine(s) else LeftLine(s)
  }

  /** The values a line reports to the score during a swipe. */
  function LineGains(s: seq<Cell>, towardsEnd: bool): seq<int>
  {
    if towardsEnd then RightGains(AsInts(Tiles(s))) else Gains(AsInts(Tiles(s)))
  }

  /** Empty cells only after every number. */
  predicate NumsFirst(r: seq<Cell>)
  {
    forall a, b :: 0 <= a < b < |r| && r[a] == Blank ==> r[b] == Blank
  }

  /** Empty cells only before every number. */
  predicate NumsLast(r: seq<Cell>)
  {
    forall a, b :: 0 <= a < b < |r| && r[b] == Blank ==> r[a] == Blank
  }

  /** The write-back: a Left or Up line holds its numbers first and is
      padded with empty cells after them; a Right or Down line is padded
      before them. Either way the line keeps its length and its numbers are
      the merged ones, in order. */
  lemma SlideLineShape(s: seq<Cell>, towardsEnd: bool)
    ensures |SlideLine(s, towardsEnd)| == |s|
    ensures towardsEnd ==> NumsLast(SlideLine(s, towardsEnd))
    ensures !towardsEnd ==> NumsFirst(SlideLine(s, towardsEnd))
    ensures Tiles(SlideLine(s, towardsEnd))
         == Nums(if towardsEnd then MergeR(AsInts(Tiles(s))) else Merge(AsInts(Tiles(s))))
  {
    var t := AsInts(Tiles(s));
    var m := if towardsEnd then MergeR(t) else Merge(t);
    MergeRCount(t);
    var pad := Blanks(|s| - |m|);
    TilesOfNums(Nums(m));
    TilesOfBlanks(pad);
    if towardsEnd {
      TilesAppend(pad, Nums(m));
    } else {
      TilesAppend(Nums(m), pad);
    }
  }

  lemma {:induction false} TilesOfBlanks(s: seq<Cell>)
    requires forall k :: 0 <= k < |s| ==> s[k] == Blank
    ensures Tiles(s) == []
  {
    if s != [] {
      TilesOfBlanks(s[1..]);
    }
  }

  /** Read as numbers, a Left or Up line is the reference slide, as long as
      no cell holds a 0. */
  lemma LeftLineIsMoveLeftRow(s: seq<Cell>)
    requires NoZeroTile(s)
    ensures AsInts(LeftLine(s)) == MoveLeftRow(AsInts(s))
  {
    TilesAreCompact(s);
    var m := Merge(AsInts(Tiles(s)));
    AsIntsAppend(Nums(m), Blanks(|s| - |m|));
  }

  /** A swipe keeps the total of a line. */
  lemma SlideLineSum(s: seq<Cell>, towardsEnd: bool)
    ensures Sum(AsInts(SlideLine(s, towardsEnd))) == Sum(AsInts(s))
  {
    var t := AsInts(Tiles(s));
    var m := if towardsEnd then MergeR(t) else Merge(t);
    MergeRCount(t);
    var pad := Blanks(|s| - |m|);
    SumZeros(|pad|);
    AsIntsNums(m);
    AsIntsBlanks(|pad|);
    if towardsEnd {
      assert SlideLine(s, towardsEnd) == pad + Nums(m);
      SumMergeR(t);
      AsIntsAppend(pad, Nums(m));
      SumAppend(Zeros(|pad|), m);
    } else {
      assert SlideLine(s, towardsEnd) == Nums(m) + pad;
      SumMerge(t);
      AsIntsAppend(Nums(m), pad);
      SumAppend(m, Zeros(|pad|));
    }
    TilesSum(s);
  }

  /** Leaving out the empty cells keeps the total. */
  lemma {:induction false} TilesSum(s: seq<Cell>)
    ensures Sum(AsInts(Tiles(s))) == Sum(AsInts(s))
  {
    if s != [] {
      TilesSum(s[1..]);
      var head := if s[0] == Blank then [] else [s[0]];
      AsIntsAppend(head, Tiles(s[1..]));
      SumAppend(AsInts(head), AsInts(Tiles(s[1..])));
      assert AsInts(s) == [AsInts(s)[0]] + AsInts(s[1..]);
      SumAppend([AsInts(s)[0]], AsInts(s[1..]));
    }
  }

  // ---------------------------------------------------------------------
  // The board after an arrow key

  /** Every row slid towards its end or towards its start. */
  function SlideRows(g: Grid<Cell>, towardsEnd: bool): (h: Grid<Cell>)
    requires IsGrid(g)
    ensures IsGrid(h)
  {
    [SlideLine(g[0], towardsEnd), SlideLine(g[1], towardsEnd),
     SlideLine(g[2], towardsEnd), SlideLine(g[3], towardsEnd)]
  }

  lemma SlideRowsAt(g: Grid<Cell>, towardsEnd: bool, i: int)
    requires IsGrid(g) && 0 <= i < 4
    ensures SlideRows(g, towardsEnd)[i] == SlideLine(g[i], towardsEnd)
  {
  }

  /** The board after a swipe: Left and Right slide the rows, Up and Down
      slide the columns (the rows of the transposed board). */
  function Slid(g: Grid<Cell>, d: Dashboard.Direction): (h: Grid<Cell>)
    requires IsGrid(g)
    ensures IsGrid(h)
  {
    match d
    case Left => SlideRows(g, false)
    case Right => SlideRows(g, true)
    case Up => Transpose(SlideRows(Transpose(g), false))
    case Down => Transpose(SlideRows(Transpose(g), true))
  }

  /** The values the first `n` lines report, line after line. */
  function LinesGains(lines: Grid<Cell>, n: nat, towardsEnd: bool): seq<int>
    requires IsGrid(lines) && n <= 4
  {
    if n == 0 then [] else LinesGains(lines, n - 1, towardsEnd) + LineGains(lines[n - 1], towardsEnd)
  }

  /** The values a swipe reports to the score, in the order reported. */
  function MoveGains(g: Grid<Cell>, d: Dashboard.Direction): seq<int>
    requires IsGrid(g)
  {
    match d
    case Left => LinesGains(g, 4, false)
    case Right => LinesGains(g, 4, true)
    case Up => LinesGains(Transpose(g), 4, false)
    case Down => LinesGains(Transpose(g), 4, true)
  }

  /** Column `c` of `g` replaced by `col`. */
  function SetColumn(g: Grid<Cell>, c: int, col: seq<Cell>): (h: Grid<Cell>)
    requires IsGrid(g) && 0 <= c < 4 && |col| == 4
    ensures IsGrid(h)
    ensures forall r, k :: 0 <= r < 4 && 0 <= k < 4 ==> h[r][k] == (if k == c then col[r] else g[r][k])
  {
    [g[0][c := col[0]], g[1][c := col[1]], g[2][c := col[2]], g[3][c := col[3]]]
  }

  /** Pushing the cells of row `i` into a new list. */
  method PushRow(g: Grid<Cell>, i: int) returns (row: seq<Cell>)
    requires IsGrid(g) && 0 <= i < 4
    ensures row == g[i]
  {
    row := [];
    for j := 0 to 4
      invariant row == g[i][..j]
    {
      row := row + [g[i][j]];
    }
  }

  /** Pushing the cells of column `j` into a new list, top to bottom. */
  method PushColumn(g: Grid<Cell>, j: int) returns (row: seq<Cell>)
    requires IsGrid(g) && 0 <= j < 4
    ensures row == Column(g, j)
  {
    row := [];
    for i := 0 to 4
      invariant row == Column(g, j)[..i]
    {
      row := row + [g[i][j]];
    }
  }

  /** Writing the list into row `i` from the left, then emptying the rest
      of the row. */
  method WriteRowStart(g: Grid<Cell>, i: int, row: seq<Cell>) returns (h: Grid<Cell>)
    requires IsGrid(g) && 0 <= i < 4 && |row| <= 4
    ensures h == g[i := row + Blanks(4 - |row|)]
  {
    h := g;
    for j := 0 to |row|
      invariant IsGrid(h) && forall r :: 0 <= r < 4 && r != i ==> h[r] == g[r]
      invariant forall c :: 0 <= c < 4 ==> h[i][c] == (if c < j then row[c] else g[i][c])
    {
      h := h[i := h[i][j := row[j]]];
    }
    for j := |row| to 4
      invariant IsGrid(h) && forall r :: 0 <= r < 4 && r != i ==> h[r] == g[r]
      invariant forall c :: 0 <= c < 4 ==>
        h[i][c] == (if c < |row| then row[c] else if c < j then Blank else g[i][c])
    {
      h := h[i := h[i][j := Blank]];
    }
    assert h[i] == row + Blanks(4 - |row|);
  }

  /** Emptying the start of row `i`, then writing the list into the rest. */
  method WriteRowEnd(g: Grid<Cell>, i: int, row: seq<Cell>) returns (h: Grid<Cell>)
    requires IsGrid(g) && 0 <= i < 4 && |row| <= 4
    ensures h == g[i := Blanks(4 - |row|) + row]
  {
    var start := 4 - |row|;
    h := g;
    for j := 0 to start
      invariant IsGrid(h) && forall r :: 0 <= r < 4 && r != i ==> h[r] == g[r]
      invariant forall c :: 0 <= c < 4 ==> h[i][c] == (if c < j then Blank else g[i][c])
    {
      h := h[i := h[i][j := Blank]];
    }
    var j, index := start, 0;
    while j < 4
      invariant start <= j <= 4 && index == j - start
      invariant IsGrid(h) && forall r :: 0 <= r < 4 && r != i ==> h[r] == g[r]
      invariant forall c :: 0 <= c < 4 ==>
        h[i][c] == (if c < start then Blank else if c < j then row[c - start] else g[i][c])
    {
      h := h[i := h[i][j := row[index]]];
      j, index := j + 1, index + 1;
    }
    assert h[i] == Blanks(4 - |row|) + row;
  }

  /** Writing the list into column `j` from the top, then emptying the rest
      of the column. */
  method WriteColumnStart(g: Grid<Cell>, j: int, row: seq<Cell>) returns (h: Grid<Cell>)
    requires IsGrid(g) && 0 <= j < 4 && |row| <= 4
    ensures h == SetColumn(g, j, row + Blanks(4 - |row|))
  {
    h := g;
    for i := 0 to |row|
      invariant IsGrid(h)
      invariant forall r, c :: 0 <= r < 4 && 0 <= c < 4 ==>
        h[r][c] == (if c == j && r < i then row[r] else g[r][c])
    {
      h := h[i := h[i][j := row[i]]];
    }
    for i := |row| to 4
      invariant IsGrid(h)
      invariant forall r, c :: 0 <= r < 4 && 0 <= c < 4 ==>
        h[r][c] == (if c == j && r < |row| then row[r] else if c == j && r < i then Blank else g[r][c])
    {
      h := h[i := h[i][j := Blank]];
    }
    GridExt(h, SetColumn(g, j, row + Blanks(4 - |row|)));
  }

  /** Emptying the top of column `j`, then writing the list into the rest. */
  method WriteColumnEnd(g: Grid<Cell>, j: int, row: seq<Cell>) returns (h: Grid<Cell>)
    requires IsGrid(g) && 0 <= j < 4 && |row| <= 4
    ensures h == SetColumn(g, j, Blanks(4 - |row|) + row)
  {
    var start := 4 - |row|;
    h := g;
    for i := 0 to start
      invariant IsGrid(h)
      invariant forall r, c :: 0 <= r < 4 && 0 <= c < 4 ==>
        h[r][c] == (if c == j && r < i then Blank else g[r][c])
    {
      h := h[i := h[i][j := Blank]];
    }
    var i, index := start, 0;
    while i < 4
      invariant start <= i <= 4 && index == i - start
      invariant IsGrid(h)
      invariant forall r, c :: 0 <= r < 4 && 0 <= c < 4 ==>
        h[r][c] == (if c == j && r < start then Blank
                    else if c == j && r < i then row[r - start] else g[r][c])
    {
      h := h[i := h[i][j := row[index]]];
      i, index := i + 1, index + 1;
    }
    GridExt(h, SetColumn(g, j, Blanks(4 - |row|) + row));
  }
  /** The list written back into a line of four cells: padded with empty
      cells before it when towards the end, after it otherwise. */
  function Padded(row: seq<Cell>, towardsEnd: bool): (r: seq<Cell>)
    requires |row| <= 4
    ensures |r| == 4
  {
    if towardsEnd then Blanks(4 - |row|) + row else row + Blanks(4 - |row|)
  }

  /** The write-back of a row: from the right for Right, from the left for
      Left. */
  method WriteRow(g: Grid<Cell>, i: int, row: seq<Cell>, towardsEnd: bool) returns (h: Grid<Cell>)
    requires IsGrid(g) && 0 <= i < 4 && |row| <= 4
    ensures h == g[i := Padded(row, towardsEnd)]
  {
    if towardsEnd {
      h := WriteRowEnd(g, i, row);
    } else {
      h := WriteRowStart(g, i, row);
    }
  }

  /** The write-back of a column: from the bottom for Down, from the top for
      Up. */
  method WriteColumn(g: Grid<Cell>, j: int, row: seq<Cell>, towardsEnd: bool) returns (h: Grid<Cell>)
    requires IsGrid(g) && 0 <= j < 4 && |row| <= 4
    ensures h == SetColumn(g, j, Padded(row, towardsEnd))
  {
    if towardsEnd {
      h := WriteColumnEnd(g, j, row);
    } else {
      h := WriteColumnStart(g, j, row);
    }
  }

  /** Compaction and merging of one pulled-out line, towards its end or its
      start; written back with the padding on the other side, the list is
      the slid line, and the merges report the line's gains. */
  method CompactAndMerge(board: GameBoard, line: seq<Cell>, towardsEnd: bool) returns (row: seq<Cell>)
    requires |line| == 4
    modifies board
    ensures |row| <= 4 && Padded(row, towardsEnd) == SlideLine(line, towardsEnd)
    ensures board.reported == old(board.reported) + LineGains(line, towardsEnd)
    ensures board.userScore == old(board.userScore) + Sum(LineGains(line, towardsEnd))
    ensures board.cellValues == old(board.cellValues)
    ensures board.bestUserScore == old(board.bestUserScore)
    ensures board.initialized == old(board.initialized)
  {
    row := CompactLine(line);
    MergeRCount(AsInts(row));
    if towardsEnd {
      row := MergeRight(board, row);
    } else {
      row := MergeLeft(board, row);
    }
  }

  /** One more line's gains, as the score sees them. */
  lemma LinesGainsStep(lines: Grid<Cell>, i: nat, towardsEnd: bool, before: seq<int>)
    requires IsGrid(lines) && i < 4
    ensures before + LinesGains(lines, i + 1, towardsEnd)
         == (before + LinesGains(lines, i, towardsEnd)) + LineGains(lines[i], towardsEnd)
    ensures Sum(LinesGains(lines, i + 1, towardsEnd))
         == Sum(LinesGains(lines, i, towardsEnd)) + Sum(LineGains(lines[i], towardsEnd))
  {
    SumAppend(LinesGains(lines, i, towardsEnd), LineGains(lines[i], towardsEnd));
  }

  /** The first `i` rows of `b` over the rest of `a`: the board while the
      rows are slid one by one. */
  function RowsUpTo(a: Grid<Cell>, b: Grid<Cell>, i: nat): (g: Grid<Cell>)
    requires IsGrid(a) && IsGrid(b) && i <= 4
    ensures IsGrid(g)
  {
    b[..i] + a[i..]
  }

  lemma RowsUpToStep(a: Grid<Cell>, b: Grid<Cell>, i: nat)
    requires IsGrid(a) && IsGrid(b) && i < 4
    ensures RowsUpTo(a, b, i)[i] == a[i]
    ensures RowsUpTo(a, b, i)[i := b[i]] == RowsUpTo(a, b, i + 1)
  {
  }

  lemma RowsUpToEnds(a: Grid<Cell>, b: Grid<Cell>)
    requires IsGrid(a) && IsGrid(b)
    ensures RowsUpTo(a, b, 0) == a && RowsUpTo(a, b, 4) == b
  {
    assert b[..4] == b && a[4..] == [];
  }

  /** The Left and Right branches: each row in turn is pushed into a list,
      compacted, merged and written back. */
  method SwipeRows(board: GameBoard, g0: Grid<Cell>, towardsEnd: bool) returns (g: Grid<Cell>)
    requires IsGrid(g0)
    modifies board
    ensures g == SlideRows(g0, towardsEnd)
    ensures board.reported == old(board.reported) + LinesGains(g0, 4, towardsEnd)
    ensures board.userScore == old(board.userScore) + Sum(LinesGains(g0, 4, towardsEnd))
    ensures board.cellValues == old(board.cellValues)
    ensures board.bestUserScore == old(board.bestUserScore)
    ensures board.initialized == old(board.initialized)
  {
    ghost var target := SlideRows(g0, towardsEnd);
    RowsUpToEnds(g0, target);
    g := g0;
    for i := 0 to 4
      invariant g == RowsUpTo(g0, target, i)
      invariant board.reported == old(board.reported) + LinesGains(g0, i, towardsEnd)
      invariant board.userScore == old(board.userScore) + Sum(LinesGains(g0, i, towardsEnd))
      invariant board.cellValues == old(board.cellValues)
      invariant board.bestUserScore == old(board.bestUserScore)
      invariant board.initialized == old(board.initialized)
    {
      RowsUpToStep(g0, target, i);
      SlideRowsAt(g0, towardsEnd, i);
      LinesGainsStep(g0, i, towardsEnd, old(board.reported));
      var row := PushRow(g, i);
      row := CompactAndMerge(board, row, towardsEnd);
      g := WriteRow(g, i, row, towardsEnd);
    }
  }

  /** The first `j` columns of `b` beside the rest of `a`: the board while
      the columns are slid one by one. */
  function ColumnsUpTo(a: Grid<Cell>, b: Grid<Cell>, j: nat): (g: Grid<Cell>)
    requires IsGrid(a) && IsGrid(b) && j <= 4
    ensures IsGrid(g)
  {
    seq(4, r requires 0 <= r < 4 => b[r][..j] + a[r][j..])
  }

  lemma ColumnsUpToCells(a: Grid<Cell>, b: Grid<Cell>, j: nat)
    requires IsGrid(a) && IsGrid(b) && j <= 4
    ensures forall r, c :: 0 <= r < 4 && 0 <= c < 4 ==>
      ColumnsUpTo(a, b, j)[r][c] == if c < j then b[r][c] else a[r][c]
  {
  }

  lemma ColumnsUpToStep(a: Grid<Cell>, b: Grid<Cell>, j: nat)
    requires IsGrid(a) && IsGrid(b) && j < 4
    ensures Column(ColumnsUpTo(a, b, j), j) == Column(a, j)
    ensures SetColumn(ColumnsUpTo(a, b, j), j, Column(b, j)) == ColumnsUpTo(a, b, j + 1)
  {
    ColumnsUpToCells(a, b, j);
    ColumnsUpToCells(a, b, j + 1);
    GridExt(SetColumn(ColumnsUpTo(a, b, j), j, Column(b, j)), ColumnsUpTo(a, b, j + 1));
  }

  lemma ColumnsUpToEnds(a: Grid<Cell>, b: Grid<Cell>)
    requires IsGrid(a) && IsGrid(b)
    ensures ColumnsUpTo(a, b, 0) == a && ColumnsUpTo(a, b, 4) == b
  {
    ColumnsUpToCells(a, b, 0);
    ColumnsUpToCells(a, b, 4);
    GridExt(ColumnsUpTo(a, b, 0), a);
    GridExt(ColumnsUpTo(a, b, 4), b);
  }

  /** Column `j` of a transposed board is row `j` of the board. */
  lemma ColumnOfTranspose(h: Grid<Cell>, j: int)
    requires IsGrid(h) && 0 <= j < 4
    ensures Column(Transpose(h), j) == h[j]
    ensures Transpose(h)[j] == Column(h, j)
  {
  }

  /** The Up and Down branches: each column in turn is pushed into a list
      top to bottom, compacted, merged and written back. */
  method SwipeColumns(board: GameBoard, g0: Grid<Cell>, towardsEnd: bool) returns (g: Grid<Cell>)
    requires IsGrid(g0)
    modifies board
    ensures g == Transpose(SlideRows(Transpose(g0), towardsEnd))
    ensures board.reported == old(board.reported) + LinesGains(Transpose(g0), 4, towardsEnd)
    ensures board.userScore == old(board.userScore) + Sum(LinesGains(Transpose(g0), 4, towardsEnd))
    ensures board.cellValues == old(board.cellValues)
    ensures board.bestUserScore == old(board.bestUserScore)
    ensures board.initialized == old(board.initialized)
  {
    var t := Transpose(g0);
    ghost var slid := SlideRows(t, towardsEnd);
    ghost var target := Transpose(slid);
    ColumnsUpToEnds(g0, target);
    g := g0;
    for j := 0 to 4
      invariant g == ColumnsUpTo(g0, target, j)
      invariant board.reported == old(board.reported) + LinesGains(t, j, towardsEnd)
      invariant board.userScore == old(board.userScore) + Sum(LinesGains(t, j, towardsEnd))
      invariant board.cellValues == old(board.cellValues)
      invariant board.bestUserScore == old(board.bestUserScore)
      invariant board.initialized == old(board.initialized)
    {
      ColumnsUpToStep(g0, target, j);
      ColumnOfTranspose(slid, j);
      ColumnOfTranspose(g0, j);
      SlideRowsAt(t, towardsEnd, j);
      LinesGainsStep(t, j, towardsEnd, old(board.reported));
      var row := PushColumn(g, j);
      row := CompactAndMerge(board, row, towardsEnd);
      g := WriteColumn(g, j, row, towardsEnd);
    }
  }
  // ---------------------------------------------------------------------
  // Spawning at randomly drawn coordinates

  /** One draw of two random coordinates. The page calls them `col` and
      `row`, but it indexes the board as `[col][row]`: `col` picks the row
      of the board and `row` the cell within it. */
  datatype Draw = Draw(col: int, row: int)

  /** The 1002 draws the retry loop can make, all on the board. */
  predicate DrawsFit(draws: seq<Draw>)
  {
    |draws| == 1002 &&
    forall k :: 0 <= k < |draws| ==> 0 <= draws[k].col < 4 && 0 <= draws[k].row < 4
  }

  /** The drawn cell holds a number. */
  predicate Occupied(g: Grid<Cell>, d: Draw)
    requires IsGrid(g) && 0 <= d.col < 4 && 0 <= d.row < 4
  {
    g[d.col][d.row] != Blank
  }

  /** The first draw from `k` on, up to draw 1000, that lands on an empty
      cell; 1001 when there is none. */
  function FirstFreeFrom(g: Grid<Cell>, draws: seq<Draw>, k: nat): (n: nat)
    requires IsGrid(g) && DrawsFit(draws) && k <= 1001
    ensures k <= n <= 1001
    ensures n <= 1000 ==> !Occupied(g, draws[n])
    ensures forall m :: k <= m < n ==> Occupied(g, draws[m])
    decreases 1001 - k
  {
    if k == 1001 || !Occupied(g, draws[k]) then k else FirstFreeFrom(g, draws, k + 1)
  }

  /** The draw the loop stops at: 1001 means draws 0 to 1000 all hit
      numbers and the game is reset. */
  function FirstFree(g: Grid<Cell>, draws: seq<Draw>): nat
    requires IsGrid(g) && DrawsFit(draws)
  {
    FirstFreeFrom(g, draws, 0)
  }

  /** The board after a spawn at the first empty drawn cell. */
  function AfterRandomNumber(g: Grid<Cell>, draws: seq<Draw>, four: bool): (h: Grid<Cell>)
    requires IsGrid(g) && DrawsFit(draws) && FirstFree(g, draws) <= 1000
    ensures IsGrid(h)
  {
    var d := draws[FirstFree(g, draws)];
    g[d.col := g[d.col][d.row := Num(if four then 4 else 2)]]
  }

  /** A spawn writes a 2 or a 4 into one cell that was empty and changes
      nothing else, leaving one empty cell fewer. */
  lemma SpawnWritesOneBlank(g: Grid<Cell>, draws: seq<Draw>, four: bool)
    requires IsGrid(g) && DrawsFit(draws) && FirstFree(g, draws) <= 1000
    ensures var h := AfterRandomNumber(g, draws, four);
      |EmptyCells(h)| == |EmptyCells(g)| - 1 &&
      exists i, j :: 0 <= i < 4 && 0 <= j < 4 && g[i][j] == Blank &&
        (h[i][j] == Num(2) || h[i][j] == Num(4)) &&
        (forall r :: 0 <= r < 4 && r != i ==> h[r] == g[r]) &&
        (forall c :: 0 <= c < 4 && c != j ==> h[i][c] == g[i][c])
  {
    var d := draws[FirstFree(g, draws)];
    EmptyCellsFill(g, d.col, d.row, if four then 4 else 2);
    var h := AfterRandomNumber(g, draws, four);
    assert g[d.col][d.row] == Blank && (h[d.col][d.row] == Num(2) || h[d.col][d.row] == Num(4));
  }

  /** On a board without an empty cell every draw hits a number, so the
      game is reset. */
  lemma {:induction false} FullBoardResetsFrom(g: Grid<Cell>, draws: seq<Draw>, k: nat)
    requires IsGrid(g) && DrawsFit(draws) && k <= 1001
    requires forall r, c :: 0 <= r < 4 && 0 <= c < 4 ==> g[r][c] != Blank
    ensures FirstFreeFrom(g, draws, k) == 1001
    decreases 1001 - k
  {
    if k < 1001 {
      FullBoardResetsFrom(g, draws, k + 1);
    }
  }

  lemma FullBoardResets(g: Grid<Cell>, draws: seq<Draw>)
    requires IsGrid(g) && DrawsFit(draws)
    requires forall r, c :: 0 <= r < 4 && 0 <= c < 4 ==> g[r][c] != Blank
    ensures FirstFree(g, draws) == 1001
  {
    FullBoardResetsFrom(g, draws, 0);
  }

  /** On an empty board the first draw is taken. */
  lemma BlankBoardTakesFirstDraw(draws: seq<Draw>)
    requires DrawsFit(draws)
    ensures FirstFree(BlankGrid(), draws) == 0
  {
  }

  /** `FirstFree` is the only draw that hits no number after every earlier
      draw did, or 1001 when draws 0 to 1000 all hit numbers. */
  lemma FirstFreeUnique(g: Grid<Cell>, draws: seq<Draw>, n: nat)
    requires IsGrid(g) && DrawsFit(draws) && n <= 1001
    requires forall m :: 0 <= m < n ==> Occupied(g, draws[m])
    requires n <= 1000 ==> !Occupied(g, draws[n])
    ensures FirstFree(g, draws) == n
  {
  }

  /** The retry loop of `randomNumberGenerator`: the number of redraws
      made before a draw lands on an empty cell, or 1001 when the loop gives
      up after draw 1000. */
  method RetryDraws(g: Grid<Cell>, draws: seq<Draw>) returns (count: nat)
    requires IsGrid(g) && DrawsFit(draws)
    ensures count == FirstFree(g, draws)
  {
    var col, row := draws[0].col, draws[0].row;
    count := 0;
    while g[col][row] != Blank && count <= 1000
      invariant count <= 1001 && col == draws[count].col && row == draws[count].row
      invariant forall m :: 0 <= m < count ==> Occupied(g, draws[m])
      decreases 1001 - count
    {
      col, row := draws[count + 1].col, draws[count + 1].row;
      count := count + 1;
    }
    FirstFreeUnique(g, draws, count);
  }

  /** `randomNumberGenerator`: draw coordinates until they land on an empty
      cell or more than 1000 redraws were made; in the second case start a
      new game (the grid the updater returns is replaced by the new game's
      queued updates), otherwise write a 2 or a 4 into the cell. */
  method RandomNumberGenerator(board: GameBoard, draws: seq<Draw>, four: bool, first: Pick, second: Pick)
    requires board.Valid() && DrawsFit(draws)
    modifies board
    ensures board.Valid()
    ensures FirstFree(old(board.cellValues), draws) <= 1000 ==>
      board.cellValues == AfterRandomNumber(old(board.cellValues), draws, four) &&
      board.userScore == old(board.userScore) && board.initialized == old(board.initialized)
    ensures FirstFree(old(board.cellValues), draws) > 1000 ==>
      board.cellValues == NewGame(first, second) && board.userScore == 0 && board.initialized
    ensures board.bestUserScore == old(board.bestUserScore) && board.reported == old(board.reported)
  {
    var newCellValues := board.cellValues;
    var count := RetryDraws(newCellValues, draws);
    if count > 1000 {
      board.ResetGame(first, second);
      return;
    }
    var col, row := draws[count].col, draws[count].row;
    newCellValues := newCellValues[col := newCellValues[col][row := Num(if four then 4 else 2)]];
    board.cellValues := newCellValues;
  }

  // ---------------------------------------------------------------------
  // Key presses

  /** The branch of `handleKeyPress` for one direction: rows for Left and
      Right, columns for Up and Down. */
  method Swipe(board: GameBoard, g0: Grid<Cell>, d: Dashboard.Direction) returns (g: Grid<Cell>)
    requires IsGrid(g0)
    modifies board
    ensures g == Slid(g0, d)
    ensures board.reported == old(board.reported) + MoveGains(g0, d)
    ensures board.userScore == old(board.userScore) + Sum(MoveGains(g0, d))
    ensures board.cellValues == old(board.cellValues)
    ensures board.bestUserScore == old(board.bestUserScore)
    ensures board.initialized == old(board.initialized)
  {
    match d
    case Up => g := SwipeColumns(board, g0, false);
    case Down => g := SwipeColumns(board, g0, true);
    case Left => g := SwipeRows(board, g0, false);
    case Right => g := SwipeRows(board, g0, true);
  }

  /** The keys the game reacts to. */
  const ArrowKeys: seq<string> := ["ArrowUp", "ArrowDown", "ArrowLeft", "ArrowRight"]

  /** The swipe an arrow key asks for. */
  function KeyDirection(key: string): Dashboard.Direction
    requires key in ArrowKeys
  {
    if key == "ArrowUp" then Dashboard.Up
    else if key == "ArrowDown" then Dashboard.Down
    else if key == "ArrowLeft" then Dashboard.Left
    else Dashboard.Right
  }

  /** `handleKeyPress`: any other key leaves everything as it was; an arrow
      key slides the board, reporting each merge to the score, and then
      always tries to spawn a tile, whether or not anything moved. */
  method HandleKeyPress(board: GameBoard, key: string, draws: seq<Draw>, four: bool,
                        first: Pick, second: Pick)
    requires board.Valid() && DrawsFit(draws)
    modifies board
    ensures board.Valid()
    ensures key !in ArrowKeys ==>
      board.cellValues == old(board.cellValues) && board.userScore == old(board.userScore) &&
      board.initialized == old(board.initialized) && board.reported == old(board.reported)
    ensures key in ArrowKeys ==>
      var d := KeyDirection(key);
      board.reported == old(board.reported) + MoveGains(old(board.cellValues), d)
    ensures key in ArrowKeys ==>
      var d := KeyDirection(key);
      var slid := Slid(old(board.cellValues), d);
      FirstFree(slid, draws) <= 1000 ==>
        board.cellValues == AfterRandomNumber(slid, draws, four) &&
        board.userScore == old(board.userScore) + Sum(MoveGains(old(board.cellValues), d)) &&
        board.initialized == old(board.initialized)
    ensures key in ArrowKeys ==>
      var slid := Slid(old(board.cellValues), KeyDirection(key));
      FirstFree(slid, draws) > 1000 ==>
        board.cellValues == NewGame(first, second) && board.userScore == 0 && board.initialized
    ensures board.bestUserScore == old(board.bestUserScore)
  {
    if key !in ArrowKeys {
      return;
    }
    var newCellValues := Swipe(board, board.cellValues, KeyDirection(key));
    board.cellValues := newCellValues;
    RandomNumberGenerator(board, draws, four, first, second);
  }

  /** The board after the first spawn of a new game: an empty board with
      the first draw filled. */
  function FirstSpawn(draws: seq<Draw>, four: bool): (g: Grid<Cell>)
    requires DrawsFit(draws)
    ensures IsGrid(g)
  {
    BlankBoardTakesFirstDraw(draws);
    AfterRandomNumber(BlankGrid(), draws, four)
  }

  /** The component's effect while the game is not initialized: an empty
      board, marked initialized, and two spawns. */
  method StartGame(board: GameBoard, draws1: seq<Draw>, four1: bool, draws2: seq<Draw>, four2: bool,
                   first: Pick, second: Pick)
    requires board.Valid() && DrawsFit(draws1) && DrawsFit(draws2)
    modifies board
    ensures board.Valid() && board.initialized
    ensures old(board.initialized) ==>
      board.cellValues == old(board.cellValues) && board.userScore == old(board.userScore)
    ensures !old(board.initialized) ==>
      var g1 := FirstSpawn(draws1, four1);
      if FirstFree(g1, draws2) <= 1000 then
        board.cellValues == AfterRandomNumber(g1, draws2, four2) && board.userScore == old(board.userScore)
      else
        board.cellValues == NewGame(first, second) && board.userScore == 0
    ensures board.bestUserScore == old(board.bestUserScore) && board.reported == old(board.reported)
  {
    if !board.initialized {
      board.cellValues := BlankGrid();
      board.initialized := true;
      BlankBoardTakesFirstDraw(draws1);
      RandomNumberGenerator(board, draws1, four1, first, second);
      RandomNumberGenerator(board, draws2, four2, first, second);
    }
  }

  /** A spawn keeps every tile a 2 or a 4. */
  lemma SpawnSmallTiles(g: Grid<Cell>, draws: seq<Draw>, four: bool)
    requires IsGrid(g) && DrawsFit(draws) && FirstFree(g, draws) <= 1000 && SmallTiles(g)
    ensures SmallTiles(AfterRandomNumber(g, draws, four))
  {
  }

  /** After the first spawn of a new game: fifteen empty cells, one small tile. */
  lemma FirstSpawnHasOneTile(draws: seq<Draw>, four: bool)
    requires DrawsFit(draws)
    ensures |EmptyCells(FirstSpawn(draws, four))| == 15 && SmallTiles(FirstSpawn(draws, four))
  {
    BlankBoardTakesFirstDraw(draws);
    EmptyCellsBlankGrid();
    SpawnWritesOneBlank(BlankGrid(), draws, four);
    SpawnSmallTiles(BlankGrid(), draws, four);
  }

  /** However the draws fall, a started game holds exactly two tiles, each
      a 2 or a 4. */
  lemma StartedGameHasTwoTiles(draws1: seq<Draw>, four1: bool, draws2: seq<Draw>, four2: bool,
                               first: Pick, second: Pick)
    requires DrawsFit(draws1) && DrawsFit(draws2)
    ensures var g1 := FirstSpawn(draws1, four1);
      var g := if FirstFree(g1, draws2) <= 1000 then AfterRandomNumber(g1, draws2, four2)
               else NewGame(first, second);
      |EmptyCells(g)| == 14 && SmallTiles(g)
  {
    var g1 := FirstSpawn(draws1, four1);
    FirstSpawnHasOneTile(draws1, four1);
    if FirstFree(g1, draws2) <= 1000 {
      SpawnWritesOneBlank(g1, draws2, four2);
      SpawnSmallTiles(g1, draws2, four2);
    } else {
      NewGameHasTwoTiles(first, second);
    }
  }
  // ---------------------------------------------------------------------
  // The two boards compared

  /** The board with empty cells written as 0, as the dashboard keeps it. */
  function IntGrid(g: Grid<Cell>): (h: Grid<int>)
    requires IsGrid(g)
    ensures IsGrid(h)
    ensures forall r, c :: 0 <= r < 4 && 0 <= c < 4 ==> h[r][c] == (if g[r][c].Blank? then 0 else g[r][c].value)
  {
    [AsInts(g[0]), AsInts(g[1]), AsInts(g[2]), AsInts(g[3])]
  }

  /** No cell holds the number 0, which the dashboard could not tell from
      an empty cell. */
  predicate NoZeroGrid(g: Grid<Cell>)
    requires IsGrid(g)
  {
    forall r, c :: 0 <= r < 4 && 0 <= c < 4 ==> g[r][c] != Num(0)
  }

  lemma IntGridTranspose(g: Grid<Cell>)
    requires IsGrid(g)
    ensures IntGrid(Transpose(g)) == Transpose(IntGrid(g))
  {
    GridExt(IntGrid(Transpose(g)), Transpose(IntGrid(g)));
  }

  /** The rows slid to the left, with 0 for empty, are the dashboard's
      left swipe, and the values reported add up to the dashboard's score. */
  lemma LeftRowsAgree(g: Grid<Cell>)
    requires IsGrid(g) && NoZeroGrid(g)
    ensures IntGrid(SlideRows(g, false)) == Dashboard.MoveLeftGrid(IntGrid(g))
    ensures Sum(LinesGains(g, 4, false)) == Dashboard.LeftScore(IntGrid(g))
  {
    forall r | 0 <= r < 4
      ensures AsInts(LeftLine(g[r])) == MoveLeftRow(AsInts(g[r]))
    {
      assert NoZeroTile(g[r]);
      LeftLineIsMoveLeftRow(g[r]);
    }
    LeftGainsAgree(g, 4);
    Dashboard.LeftScoreRows(IntGrid(g));
  }

  /** The first `n` rows report what the dashboard scores for them. */
  lemma {:induction false} LeftGainsAgree(g: Grid<Cell>, n: nat)
    requires IsGrid(g) && NoZeroGrid(g) && n <= 4
    ensures Sum(LinesGains(g, n, false)) == Dashboard.RowsScore(IntGrid(g), n)
  {
    if n > 0 {
      LeftGainsAgree(g, n - 1);
      assert NoZeroTile(g[n - 1]);
      TilesAreCompact(g[n - 1]);
      SumAppend(LinesGains(g, n - 1, false), LineGains(g[n - 1], false));
    }
  }

  /** The no-zero condition survives transposition. */
  lemma NoZeroTranspose(g: Grid<Cell>)
    requires IsGrid(g) && NoZeroGrid(g)
    ensures NoZeroGrid(Transpose(g))
  {
  }

  /** A left swipe here is the dashboard's left swipe, tile for tile and
      point for point. */
  lemma LeftAgrees(g: Grid<Cell>)
    requires IsGrid(g) && NoZeroGrid(g)
    ensures IntGrid(Slid(g, Dashboard.Left)) == Dashboard.Moved(IntGrid(g), Dashboard.Left)
    ensures Sum(MoveGains(g, Dashboard.Left)) == Dashboard.MoveScore(IntGrid(g), Dashboard.Left)
  {
    LeftRowsAgree(g);
  }

  /** An up swipe here is the dashboard's up swipe, tile for tile and
      point for point. */
  lemma UpAgrees(g: Grid<Cell>)
    requires IsGrid(g) && NoZeroGrid(g)
    ensures IntGrid(Slid(g, Dashboard.Up)) == Dashboard.Moved(IntGrid(g), Dashboard.Up)
    ensures Sum(MoveGains(g, Dashboard.Up)) == Dashboard.MoveScore(IntGrid(g), Dashboard.Up)
  {
    var t := Transpose(g);
    NoZeroTranspose(g);
    LeftRowsAgree(t);
    IntGridTranspose(g);
    IntGridTranspose(SlideRows(t, false));
  }

  /** Right differs: the dashboard merges each pair once, this board merges
      a new tile again with the one before it. */
  lemma RightDisagrees()
    ensures var g := [[Blank, Num(4), Num(2), Num(2)], [Blank, Blank, Blank, Blank],
                      [Blank, Blank, Blank, Blank], [Blank, Blank, Blank, Blank]];
      Slid(g, Dashboard.Right)[0] == [Blank, Blank, Blank, Num(8)] &&
      Dashboard.Moved(IntGrid(g), Dashboard.Right)[0] == [0, 0, 4, 4]
  {
    RightBoardHere();
    RightBoardThere();
  }

  lemma RightBoardHere()
    ensures var g := [[Blank, Num(4), Num(2), Num(2)], [Blank, Blank, Blank, Blank],
                      [Blank, Blank, Blank, Blank], [Blank, Blank, Blank, Blank]];
      Slid(g, Dashboard.Right)[0] == [Blank, Blank, Blank, Num(8)]
  {
    var g := [[Blank, Num(4), Num(2), Num(2)], [Blank, Blank, Blank, Blank],
              [Blank, Blank, Blank, Blank], [Blank, Blank, Blank, Blank]];
    RightRowHere();
    SlideRowsAt(g, true, 0);
  }

  lemma RightBoardThere()
    ensures var g := [[Blank, Num(4), Num(2), Num(2)], [Blank, Blank, Blank, Blank],
                      [Blank, Blank, Blank, Blank], [Blank, Blank, Blank, Blank]];
      Dashboard.Moved(IntGrid(g), Dashboard.Right)[0] == [0, 0, 4, 4]
  {
    var g := [[Blank, Num(4), Num(2), Num(2)], [Blank, Blank, Blank, Blank],
              [Blank, Blank, Blank, Blank], [Blank, Blank, Blank, Blank]];
    RightRowThere();
    assert AsInts(g[0]) == [0, 4, 2, 2];
    assert IntGrid(g)[0] == [0, 4, 2, 2];
    var m := Dashboard.MoveLeftGrid(ReverseRows(IntGrid(g)));
    assert m[0] == MoveLeftRow(Reversed([0, 4, 2, 2]));
    assert ReverseRows(m)[0] == Reversed(m[0]);
  }

  lemma RightRowHere()
    ensures SlideLine([Blank, Num(4), Num(2), Num(2)], true) == [Blank, Blank, Blank, Num(8)]
  {
    var row := [Blank, Num(4), Num(2), Num(2)];
    assert Tiles(row) == [Num(4), Num(2), Num(2)];
    assert AsInts(Tiles(row)) == [4, 2, 2];
    RightMergesTwice();
    assert Blanks(3) + Nums([8]) == [Blank, Blank, Blank, Num(8)];
  }

  lemma RightRowThere()
    ensures Reversed(MoveLeftRow(Reversed([0, 4, 2, 2]))) == [0, 0, 4, 4]
  {
    assert Reversed([0, 4, 2, 2]) == [2, 2, 4, 0];
    assert Compact([2, 2, 4, 0]) == [2, 2, 4];
    assert Merge([2, 2, 4]) == [4, 4];
    assert MoveLeftRow([2, 2, 4, 0]) == [4, 4, 0, 0];
  }

  /** The Left and Up merge does not touch a doubled tile again: 2, 2, 4
      becomes 4, 4 and reports only the 4 made by the merge. */
  lemma LeftMergesOnce()
    ensures SlideLine([Num(2), Num(2), Num(4), Blank], false) == [Num(4), Num(4), Blank, Blank]
    ensures LineGains([Num(2), Num(2), Num(4), Blank], false) == [4]
  {
    var row := [Num(2), Num(2), Num(4), Blank];
    assert Tiles(row) == [Num(2), Num(2), Num(4)];
    assert AsInts(Tiles(row)) == [2, 2, 4];
    assert [2, 2, 4][2..] == [4];
    assert Merge([2, 2, 4]) == [4, 4];
    assert Nums([4, 4]) == [Num(4), Num(4)];
    assert Blanks(1) == [Blank];
  }

  /** Every swipe keeps the total of the numbers on the board. */
  lemma SlidKeepsTotal(g: Grid<Cell>, d: Dashboard.Direction)
    requires IsGrid(g)
    ensures Dashboard.GridSum(IntGrid(Slid(g, d))) == Dashboard.GridSum(IntGrid(g))
  {
    var towardsEnd := d == Dashboard.Right || d == Dashboard.Down;
    if d == Dashboard.Left || d == Dashboard.Right {
      RowsKeepTotal(g, towardsEnd);
    } else {
      var t := Transpose(g);
      RowsKeepTotal(t, towardsEnd);
      IntGridTranspose(g);
      IntGridTranspose(SlideRows(t, towardsEnd));
      Dashboard.GridSumTranspose(IntGrid(g));
      Dashboard.GridSumTranspose(IntGrid(SlideRows(t, towardsEnd)));
    }
  }

  lemma RowsKeepTotal(g: Grid<Cell>, towardsEnd: bool)
    requires IsGrid(g)
    ensures Dashboard.GridSum(IntGrid(SlideRows(g, towardsEnd))) == Dashboard.GridSum(IntGrid(g))
  {
    SlideLineSum(g[0], towardsEnd);
    SlideLineSum(g[1], towardsEnd);
    SlideLineSum(g[2], towardsEnd);
    SlideLineSum(g[3], towardsEnd);
  }
}
