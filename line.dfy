/** The reference meaning of one swipe on one line of a 2048 board, with 0
    standing for an empty cell: take the tiles in order, merge each pair of
    equal neighbours once from the start of the line, and fill the rest of
    the line with empty cells. */
module Line {

  function Sum(s: seq<int>): int
  {
    if s == [] then 0 else s[0] + Sum(s[1..])
  }

  /** `n` empty cells. */
  function Zeros(n: nat): (z: seq<int>)
    ensures |z| == n
    ensures forall k :: 0 <= k < n ==> z[k] == 0
  {
    if n == 0 then [] else [0] + Zeros(n - 1)
  }

  /** The tiles of `s` (its non-zero entries), in their original order. */
  function Compact(s: seq<int>): (r: seq<int>)
    ensures |r| <= |s|
    ensures forall k :: 0 <= k < |r| ==> r[k] != 0
  {
    if s == [] then []
    else if s[0] == 0 then Compact(s[1..])
    else [s[0]] + Compact(s[1..])
  }

  /** One merge pass over a line of tiles, from its start: a tile equal to
      the next one absorbs it, and the tile so made is passed over. */
  function Merge(s: seq<int>): (r: seq<int>)
    ensures |r| <= |s|
  {
    if |s| < 2 then s
    else if s[0] == s[1] then [s[0] + s[1]] + Merge(s[2..])
    else [s[0]] + Merge(s[1..])
  }

  /** The values that the merges of `Merge(s)` create, in the order they
      happen: what the score grows by. */
  function Gains(s: seq<int>): seq<int>
  {
    if |s| < 2 then []
    else if s[0] == s[1] then [s[0] + s[1]] + Gains(s[2..])
    else Gains(s[1..])
  }

  /** The line after a swipe towards its start. */
  function MoveLeftRow(s: seq<int>): (r: seq<int>)
    ensures |r| == |s|
  {
    var m := Merge(Compact(s));
    m + Zeros(|s| - |m|)
  }

  /** Every empty cell comes after every tile. */
  ghost predicate Packed(s: seq<int>)
  {
    forall a, b :: 0 <= a <= b < |s| && s[a] == 0 ==> s[b] == 0
  }

  // ---------------------------------------------------------------------
  // Facts about the pieces

  lemma Associative(a: seq<int>, b: seq<int>, c: seq<int>)
    ensures (a + b) + c == a + (b + c)
  {
  }

  lemma {:induction false} SumAppend(a: seq<int>, b: seq<int>)
    ensures Sum(a + b) == Sum(a) + Sum(b)
  {
    if a == [] {
      assert a + b == b;
    } else {
      assert (a + b)[1..] == a[1..] + b;
      SumAppend(a[1..], b);
    }
  }

  lemma {:induction false} SumZeros(n: nat)
    ensures Sum(Zeros(n)) == 0
  {
    if n > 0 {
      SumZeros(n - 1);
    }
  }

  lemma {:induction false} CompactAppend(a: seq<int>, b: seq<int>)
    ensures Compact(a + b) == Compact(a) + Compact(b)
  {
    if a == [] {
      assert a + b == b;
    } else {
      assert (a + b)[1..] == a[1..] + b;
      CompactAppend(a[1..], b);
    }
  }

  /** A line of empty cells holds no tile. */
  lemma {:induction false} CompactEmpty(s: seq<int>)
    requires forall k :: 0 <= k < |s| ==> s[k] == 0
    ensures Compact(s) == []
  {
    if s != [] {
      CompactEmpty(s[1..]);
    }
  }

  /** A line without empty cells is its own list of tiles. */
  lemma {:induction false} CompactFull(s: seq<int>)
    requires forall k :: 0 <= k < |s| ==> s[k] != 0
    ensures Compact(s) == s
  {
    if s != [] {
      CompactFull(s[1..]);
    }
  }

  /** Removing the empty cells does not change the total. */
  lemma {:induction false} SumCompact(s: seq<int>)
    ensures Sum(Compact(s)) == Sum(s)
  {
    if s != [] {
      SumCompact(s[1..]);
      if s[0] != 0 {
        SumAppend([s[0]], Compact(s[1..]));
      }
    }
  }

  /** A merge replaces a, a by a + a, so the total is kept. */
  lemma {:induction false} SumMerge(s: seq<int>)
    ensures Sum(Merge(s)) == Sum(s)
  {
    if |s| >= 2 {
      if s[0] == s[1] {
        SumMerge(s[2..]);
        assert s[1..][1..] == s[2..];
      } else {
        SumMerge(s[1..]);
      }
    }
  }

  /** Each merge removes exactly one tile from the line. */
  lemma {:induction false} MergeCount(s: seq<int>)
    ensures |Merge(s)| + |Gains(s)| == |s|
  {
    if |s| >= 2 {
      if s[0] == s[1] {
        MergeCount(s[2..]);
      } else {
        MergeCount(s[1..]);
      }
    }
  }

  /** Merging tiles gives tiles: no merge produces an empty cell. */
  lemma {:induction false} MergeNonZero(s: seq<int>)
    requires forall k :: 0 <= k < |s| ==> s[k] != 0
    ensures forall k :: 0 <= k < |Merge(s)| ==> Merge(s)[k] != 0
  {
    if |s| >= 2 {
      if s[0] == s[1] {
        MergeNonZero(s[2..]);
      } else {
        MergeNonZero(s[1..]);
      }
    }
  }

  /** Merging non-negative tiles gives non-negative tiles and gains. */
  lemma {:induction false} MergeNonNegative(s: seq<int>)
    requires forall k :: 0 <= k < |s| ==> s[k] >= 0
    ensures forall k :: 0 <= k < |Merge(s)| ==> Merge(s)[k] >= 0
    ensures forall k :: 0 <= k < |Gains(s)| ==> Gains(s)[k] >= 0
    ensures Sum(Gains(s)) >= 0
  {
    if |s| >= 2 {
      if s[0] == s[1] {
        MergeNonNegative(s[2..]);
        SumAppend([s[0] + s[1]], Gains(s[2..]));
      } else {
        MergeNonNegative(s[1..]);
      }
    }
  }

  lemma {:induction false} CompactNonNegative(s: seq<int>)
    requires forall k :: 0 <= k < |s| ==> s[k] >= 0
    ensures forall k :: 0 <= k < |Compact(s)| ==> Compact(s)[k] > 0
  {
    if s != [] {
      CompactNonNegative(s[1..]);
    }
  }

  /** A line with its tiles first and its empty cells last is its tiles
      padded with empty cells. */
  lemma {:induction false} PackedIsPadded(s: seq<int>)
    requires Packed(s)
    ensures s == Compact(s) + Zeros(|s| - |Compact(s)|)
  {
    if s != [] {
      assert Packed(s[1..]) by {
        forall a, b | 0 <= a <= b < |s[1..]| && s[1..][a] == 0
          ensures s[1..][b] == 0
        {
          assert s[a + 1] == 0;
        }
      }
      PackedIsPadded(s[1..]);
      if s[0] == 0 {
        CompactEmpty(s);
        assert forall k :: 0 <= k < |s| ==> s[k] == 0;
      }
    }
  }

  lemma {:induction false} PaddedIsPacked(m: seq<int>, n: nat)
    requires forall k :: 0 <= k < |m| ==> m[k] != 0
    ensures Packed(m + Zeros(n))
    ensures Compact(m + Zeros(n)) == m
  {
    CompactAppend(m, Zeros(n));
    CompactFull(m);
    CompactEmpty(Zeros(n));
  }

  // ---------------------------------------------------------------------
  // What a swipe does to a line

  /** After a swipe the tiles of the line are the merged tiles of the line
      before, all of them before all the empty cells, and the line holds
      one tile fewer for each merge. */
  lemma MoveLeftRowShape(s: seq<int>)
    ensures Compact(MoveLeftRow(s)) == Merge(Compact(s))
    ensures Packed(MoveLeftRow(s))
    ensures |Compact(MoveLeftRow(s))| == |Compact(s)| - |Gains(Compact(s))|
  {
    var m := Merge(Compact(s));
    MergeNonZero(Compact(s));
    PaddedIsPacked(m, |s| - |m|);
    MergeCount(Compact(s));
  }

  /** A swipe keeps the sum of the line's cells. */
  lemma MoveLeftRowSum(s: seq<int>)
    ensures Sum(MoveLeftRow(s)) == Sum(s)
  {
    var m := Merge(Compact(s));
    SumAppend(m, Zeros(|s| - |m|));
    SumZeros(|s| - |m|);
    SumMerge(Compact(s));
    SumCompact(s);
  }

  /** A swipe over non-negative cells leaves non-negative cells and never
      lowers the score. */
  lemma MoveLeftRowNonNegative(s: seq<int>)
    requires forall k :: 0 <= k < |s| ==> s[k] >= 0
    ensures forall k :: 0 <= k < |s| ==> MoveLeftRow(s)[k] >= 0
    ensures Sum(Gains(Compact(s))) >= 0
  {
    CompactNonNegative(s);
    MergeNonNegative(Compact(s));
  }

  /** A swipe that leaves the line as it was merged nothing, so it gains
      no score. */
  lemma NoChangeNoGain(s: seq<int>)
    requires MoveLeftRow(s) == s
    ensures Gains(Compact(s)) == []
  {
    MoveLeftRowShape(s);
  }

  /** The one-merge rule itself: a merged pair leaves the line as one tile
      that is never compared again, the rest of the line merges on its own,
      and so three equal tiles give one doubled tile and the third as it
      was. */
  lemma MergedTileRests(a: int, t: seq<int>)
    ensures Merge([a, a] + t) == [a + a] + Merge(t)
    ensures Gains([a, a] + t) == [a + a] + Gains(t)
    ensures Merge([a, a, a]) == [a + a, a] && Gains([a, a, a]) == [a + a]
  {
    assert ([a, a] + t)[2..] == t;
    assert [a, a, a][2..] == [a];
  }

  /** A consequence of the one-merge rule (`MergedTileRests`): every tile of
      the result is made from at most two tiles of the input, so the result
      keeps at least half of them. */
  lemma {:induction false} MergeAtMostPairs(s: seq<int>)
    ensures 2 * |Merge(s)| >= |s|
  {
    if |s| >= 2 {
      if s[0] == s[1] {
        MergeAtMostPairs(s[2..]);
      } else {
        MergeAtMostPairs(s[1..]);
      }
    }
  }

  /** A line of tiles with two equal neighbours gets shorter. */
  lemma {:induction false} MergeShrinks(s: seq<int>, k: int)
    requires 0 <= k < |s| - 1 && s[k] == s[k + 1]
    ensures |Merge(s)| < |s|
  {
    if s[0] != s[1] {
      MergeShrinks(s[1..], k - 1);
    }
  }

  /** A line of tiles without two equal neighbours is left as it is. */
  lemma {:induction false} MergeStable(s: seq<int>)
    requires forall k :: 0 <= k < |s| - 1 ==> s[k] != s[k + 1]
    ensures Merge(s) == s
    ensures Gains(s) == []
  {
    if |s| >= 2 {
      MergeStable(s[1..]);
    }
  }

  /** A full line moves iff two neighbouring tiles are equal. */
  lemma FullRowMoves(s: seq<int>)
    requires forall k :: 0 <= k < |s| ==> s[k] != 0
    ensures MoveLeftRow(s) == s <==> forall k :: 0 <= k < |s| - 1 ==> s[k] != s[k + 1]
  {
    CompactFull(s);
    if forall k :: 0 <= k < |s| - 1 ==> s[k] != s[k + 1] {
      MergeStable(s);
    } else {
      var k :| 0 <= k < |s| - 1 && s[k] == s[k + 1];
      MergeShrinks(s, k);
      MoveLeftRowShape(s);
    }
  }

  /** The two examples of a row of three and of four equal tiles. */
  lemma ThreeAndFourEqual()
    ensures MoveLeftRow([2, 2, 2, 0]) == [4, 2, 0, 0]
    ensures Sum(Gains(Compact([2, 2, 2, 0]))) == 4
    ensures MoveLeftRow([2, 2, 2, 2]) == [4, 4, 0, 0]
    ensures Sum(Gains(Compact([2, 2, 2, 2]))) == 8
  {
    assert Compact([2, 2, 2, 0]) == [2, 2, 2];
    assert Compact([2, 2, 2, 2]) == [2, 2, 2, 2];
    assert Merge([2, 2, 2]) == [4, 2];
    assert Merge([2, 2, 2, 2]) == [4, 4];
  }
}
