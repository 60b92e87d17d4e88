/** Dominoes as pip pairs: flipping, generating a full set, and pip sums. */
module Tiles {

  /** A domino is the pair of its two pip values, in the orientation it is held or placed. */
  type Domino = (int, int)

  /** The same domino turned end for end. */
  function Flip(d: Domino): Domino
  {
    (d.1, d.0)
  }

  lemma FlipTwice(d: Domino)
    ensures Flip(Flip(d)) == d
    ensures Flip(d).0 == d.1 && Flip(d).1 == d.0
  {
  }

  /** A domino up to orientation: the way round with the smaller pip first. */
  function Norm(d: Domino): (n: Domino)
    ensures n == d || n == Flip(d)
    ensures n.0 <= n.1
  {
    if d.0 <= d.1 then d else Flip(d)
  }

  lemma NormFlip(d: Domino)
    ensures Norm(Flip(d)) == Norm(d)
  {
  }

  /** The tiles of a line or a hand as a multiset, each taken up to orientation. */
  function Bag(s: seq<Domino>): (b: multiset<Domino>)
    ensures |b| == |s|
  {
    if s == [] then multiset{} else multiset{Norm(s[0])} + Bag(s[1..])
  }

  lemma {:induction false} BagAppend(a: seq<Domino>, b: seq<Domino>)
    ensures Bag(a + b) == Bag(a) + Bag(b)
    decreases |a|
  {
    if a != [] {
      assert (a + b)[0] == a[0];
      assert (a + b)[1..] == a[1..] + b;
      BagAppend(a[1..], b);
    } else {
      assert a + b == b;
    }
  }

  lemma BagSingle(d: Domino)
    ensures Bag([d]) == multiset{Norm(d)}
  {
    assert [d][1..] == [];
  }

  /** (a, b) comes strictly before (c, d) in lexicographic order. */
  predicate Before(x: Domino, y: Domino)
  {
    x.0 < y.0 || (x.0 == y.0 && x.1 < y.1)
  }

  /** Every element strictly precedes every later one: sorted, hence free of duplicates. */
  predicate StrictlyOrdered(s: seq<Domino>)
  {
    forall p, q :: 0 <= p < q < |s| ==> Before(s[p], s[q])
  }

  /** Row(i, lo, hi) is (i, lo), (i, lo + 1), ..., (i, hi - 1): one run of the inner loop. */
  function Row(i: int, lo: int, hi: int): seq<Domino>
    decreases hi - lo
  {
    if hi <= lo then [] else Row(i, lo, hi - 1) + [(i, hi - 1)]
  }

  /** Rows(n, size) is what the outer loop has produced after its first n rounds. */
  function Rows(n: int, size: int): seq<Domino>
    decreases n
  {
    if n <= 0 then [] else Rows(n - 1, size) + Row(n - 1, n - 1, size + 1)
  }

  /** The set of dominoes whose highest pip value is `size`. */
  function DominoSet(size: int): seq<Domino>
  {
    Rows(size + 1, size)
  }

  lemma {:induction false} RowMembers(i: int, lo: int, hi: int, d: Domino)
    ensures d in Row(i, lo, hi) <==> d.0 == i && lo <= d.1 < hi
    decreases hi - lo
  {
    if hi > lo {
      RowMembers(i, lo, hi - 1, d);
    }
  }

  lemma {:induction false} RowsMembers(n: int, size: int, d: Domino)
    requires n >= 0
    ensures d in Rows(n, size) <==> 0 <= d.0 < n && d.0 <= d.1 <= size
    decreases n
  {
    if n > 0 {
      var earlier, last := Rows(n - 1, size), Row(n - 1, n - 1, size + 1);
      assert d in earlier + last <==> d in earlier || d in last;
      RowsMembers(n - 1, size, d);
      RowMembers(n - 1, n - 1, size + 1, d);
    }
  }

  /** The set holds exactly the pairs (i, j) with 0 <= i <= j <= size. */
  lemma DominoSetMembers(size: int, d: Domino)
    ensures d in DominoSet(size) <==> 0 <= d.0 <= d.1 <= size
  {
    if size + 1 >= 0 {
      RowsMembers(size + 1, size, d);
    }
  }

  lemma {:induction false} RowLength(i: int, lo: int, hi: int)
    ensures |Row(i, lo, hi)| == if hi <= lo then 0 else hi - lo
    decreases hi - lo
  {
    if hi > lo {
      RowLength(i, lo, hi - 1);
    }
  }

  lemma {:induction false} RowsLength(n: int, size: int)
    requires 0 <= n <= size + 1
    ensures 2 * |Rows(n, size)| == n * (2 * size + 3 - n)
    decreases n
  {
    if n > 0 {
      RowsLength(n - 1, size);
      RowLength(n - 1, n - 1, size + 1);
      assert 2 * |Rows(n, size)| == (n - 1) * (2 * size + 4 - n) + 2 * (size + 2 - n);
    }
  }

  /** The set has (size + 1)(size + 2) / 2 tiles: 28 for size 6. */
  lemma DominoSetLength(size: int)
    ensures size >= 0 ==> |DominoSet(size)| == (size + 1) * (size + 2) / 2
    ensures size < 0 ==> DominoSet(size) == []
  {
    if size >= 0 {
      RowsLength(size + 1, size);
    }
  }

  lemma {:induction false} RowOrdered(i: int, lo: int, hi: int)
    ensures StrictlyOrdered(Row(i, lo, hi))
    decreases hi - lo
  {
    if hi > lo {
      RowOrdered(i, lo, hi - 1);
      var r := Row(i, lo, hi - 1);
      forall x | x in r
        ensures Before(x, (i, hi - 1))
      {
        RowMembers(i, lo, hi - 1, x);
      }
      ConcatOrdered(r, [(i, hi - 1)]);
    }
  }

  lemma ConcatOrdered(a: seq<Domino>, b: seq<Domino>)
    requires StrictlyOrdered(a) && StrictlyOrdered(b)
    requires forall x, y :: x in a && y in b ==> Before(x, y)
    ensures StrictlyOrdered(a + b)
  {
    var s := a + b;
    forall p, q | 0 <= p < q < |s|
      ensures Before(s[p], s[q])
    {
      if q < |a| {
        assert s[p] == a[p] && s[q] == a[q];
      } else if p >= |a| {
        assert s[p] == b[p - |a|] && s[q] == b[q - |a|];
      } else {
        assert s[p] in a && s[q] in b;
      }
    }
  }

  /** Every tile of the first n rows precedes every tile of row n. */
  lemma RowsPrecedeRow(n: int, size: int, x: Domino, y: Domino)
    requires n >= 0
    requires x in Rows(n, size) && y in Row(n, n, size + 1)
    ensures Before(x, y)
  {
    RowsMembers(n, size, x);
    RowMembers(n, n, size + 1, y);
  }

  lemma {:induction false} RowsOrdered(n: int, size: int)
    requires n >= 0
    ensures StrictlyOrdered(Rows(n, size))
    decreases n
  {
    if n > 0 {
      RowsOrdered(n - 1, size);
      RowOrdered(n - 1, n - 1, size + 1);
      forall x, y | x in Rows(n - 1, size) && y in Row(n - 1, n - 1, size + 1)
        ensures Before(x, y)
      {
        RowsPrecedeRow(n - 1, size, x, y);
      }
      ConcatOrdered(Rows(n - 1, size), Row(n - 1, n - 1, size + 1));
    }
  }

  /** Everything the source promises about the generated set, in one place. */
  lemma DominoSetFacts(size: int)
    ensures forall d :: d in DominoSet(size) <==> 0 <= d.0 <= d.1 <= size
    ensures StrictlyOrdered(DominoSet(size))
    ensures size >= 0 ==> |DominoSet(size)| == (size + 1) * (size + 2) / 2
    ensures size < 0 ==> DominoSet(size) == []
  {
    forall d
      ensures d in DominoSet(size) <==> 0 <= d.0 <= d.1 <= size
    {
      DominoSetMembers(size, d);
    }
    if size + 1 >= 0 {
      RowsOrdered(size + 1, size);
    }
    DominoSetLength(size);
  }

  /** create_domino_set: the nested loops append (i, j) for i in 0..size and j in i..size. */
  method CreateDominoSet(size: int) returns (dominoes: seq<Domino>)
    ensures dominoes == DominoSet(size)
    ensures forall d :: d in dominoes <==> 0 <= d.0 <= d.1 <= size
    ensures StrictlyOrdered(dominoes)
    ensures size >= 0 ==> |dominoes| == (size + 1) * (size + 2) / 2
    ensures size < 0 ==> dominoes == []
  {
    dominoes := [];
    var i := 0;
    while i < size + 1
      invariant 0 <= i <= if size + 1 < 0 then 0 else size + 1
      invariant dominoes == Rows(i, size)
    {
      var j := i;
      while j < size + 1
        invariant i <= j <= size + 1
        invariant dominoes == Rows(i, size) + Row(i, i, j)
      {
        assert Row(i, i, j + 1) == Row(i, i, j) + [(i, j)];
        dominoes := dominoes + [(i, j)];
        j := j + 1;
      }
      assert Rows(i + 1, size) == Rows(i, size) + Row(i, i, size + 1);
      i := i + 1;
    }
    DominoSetFacts(size);
  }

  /** The standard sizes: 28 tiles up to double-six, 36 up to double-seven, 6 up to double-two, 1 for size 0. */
  lemma StandardSetSizes()
    ensures |DominoSet(6)| == 28 && |DominoSet(7)| == 36
    ensures |DominoSet(2)| == 6 && |DominoSet(0)| == 1
  {
    assert |DominoSet(6)| == 28 by {
      DominoSetLength(6);
    }
    assert |DominoSet(7)| == 36 by {
      DominoSetLength(7);
    }
    assert |DominoSet(2)| == 6 by {
      DominoSetLength(2);
    }
    assert |DominoSet(0)| == 1 by {
      DominoSetLength(0);
    }
  }

  /** add_remaining_dominoes: the sum of both pips over every tile of a hand. */
  function PipSum(hand: seq<Domino>): int
  {
    if hand == [] then 0 else hand[0].0 + hand[0].1 + PipSum(hand[1..])
  }

  /** A hand whose pips are all non-negative has a non-negative pip sum. */
  lemma {:induction false} PipSumNonNegative(hand: seq<Domino>)
    ensures (forall k :: 0 <= k < |hand| ==> hand[k].0 >= 0 && hand[k].1 >= 0) ==> PipSum(hand) >= 0
    decreases |hand|
  {
    if hand != [] {
      PipSumNonNegative(hand[1..]);
      assert forall k :: 0 <= k < |hand| - 1 ==> hand[1..][k] == hand[k + 1];
    }
  }

  lemma PipSumSingle(d: Domino)
    ensures PipSum([d]) == d.0 + d.1
  {
    assert [d][1..] == [];
  }

  /** A hand holding (5, 5) and (2, 3) is worth 15 points. */
  lemma PipSumExample()
    ensures PipSum([(5, 5), (2, 3)]) == 15
  {
  }
}
