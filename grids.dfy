/** 4×4 boards, both as values (a sequence of four rows of four cells,
    indexed `g[row][col]`, rows top to bottom and columns left to right) and
    as the two-dimensional arrays that the game code edits in place. */
module Grids {

  type Grid<T> = seq<seq<T>>

  /** Four rows of four cells each. */
  predicate IsGrid<T>(g: Grid<T>)
  {
    |g| == 4 && |g[0]| == 4 && |g[1]| == 4 && |g[2]| == 4 && |g[3]| == 4
  }

  /** The line read backwards, as JavaScript's `Array.prototype.reverse`
      leaves it. */
  function Reversed<T>(s: seq<T>): (r: seq<T>)
    ensures |r| == |s|
    ensures forall k :: 0 <= k < |s| ==> r[k] == s[|s| - 1 - k]
  {
    seq(|s|, k requires 0 <= k < |s| => s[|s| - 1 - k])
  }

  lemma ReversedTwice<T>(s: seq<T>)
    ensures Reversed(Reversed(s)) == s
  {
  }

  /** Column `c`, read top to bottom. */
  function Column<T>(g: Grid<T>, c: int): (col: seq<T>)
    requires IsGrid(g) && 0 <= c < 4
  {
    [g[0][c], g[1][c], g[2][c], g[3][c]]
  }

  /** Rows become columns: cell (r, c) of the result is cell (c, r) of `g`. */
  function Transpose<T>(g: Grid<T>): (t: Grid<T>)
    requires IsGrid(g)
    ensures IsGrid(t)
    ensures forall r, c :: 0 <= r < 4 && 0 <= c < 4 ==> t[r][c] == g[c][r]
  {
    [Column(g, 0), Column(g, 1), Column(g, 2), Column(g, 3)]
  }

  /** Every row of `g` reversed in place; the rows keep their order. */
  function ReverseRows<T>(g: Grid<T>): (h: Grid<T>)
    requires IsGrid(g)
    ensures IsGrid(h)
    ensures forall r, c :: 0 <= r < 4 && 0 <= c < 4 ==> h[r][c] == g[r][3 - c]
    ensures forall r :: 0 <= r < 4 ==> h[r] == Reversed(g[r])
  {
    [Reversed(g[0]), Reversed(g[1]), Reversed(g[2]), Reversed(g[3])]
  }

  /** Two grids are equal when they agree cell by cell. */
  lemma GridExt<T>(g: Grid<T>, h: Grid<T>)
    requires IsGrid(g) && IsGrid(h)
    requires forall r, c :: 0 <= r < 4 && 0 <= c < 4 ==> g[r][c] == h[r][c]
    ensures g == h
  {
    forall r | 0 <= r < 4
      ensures g[r] == h[r]
    {
      assert forall c :: 0 <= c < 4 ==> g[r][c] == h[r][c];
    }
  }

  /** The swap-based transpose undoes itself. */
  lemma TransposeTwice<T>(g: Grid<T>)
    requires IsGrid(g)
    ensures Transpose(Transpose(g)) == g
  {
    GridExt(Transpose(Transpose(g)), g);
  }

  /** Reversing every row twice gives the rows back. */
  lemma ReverseRowsTwice<T>(g: Grid<T>)
    requires IsGrid(g)
    ensures ReverseRows(ReverseRows(g)) == g
  {
    GridExt(ReverseRows(ReverseRows(g)), g);
  }

  /** Row `i` of a 4×4 array, left to right. */
  function Row<T>(a: array2<T>, i: int): (row: seq<T>)
    reads a
    requires a.Length0 == 4 && a.Length1 == 4 && 0 <= i < 4
  {
    [a[i, 0], a[i, 1], a[i, 2], a[i, 3]]
  }

  /** The value a 4×4 array holds. */
  function View<T>(a: array2<T>): (g: Grid<T>)
    reads a
    requires a.Length0 == 4 && a.Length1 == 4
    ensures IsGrid(g)
    ensures forall r, c :: 0 <= r < 4 && 0 <= c < 4 ==> g[r][c] == a[r, c]
  {
    [Row(a, 0), Row(a, 1), Row(a, 2), Row(a, 3)]
  }

  /** A fresh array holding a deep copy of `g`. */
  method Copy<T>(g: Grid<T>) returns (a: array2<T>)
    requires IsGrid(g)
    ensures fresh(a) && a.Length0 == 4 && a.Length1 == 4
    ensures View(a) == g
  {
    a := new T[4, 4]((r, c) requires 0 <= r < 4 && 0 <= c < 4 => g[r][c]);
    GridExt(View(a), g);
  }
}
