/** The board: a double-ended line of placed dominoes, and the two moves that extend it. */
module Chain {
  import opened Tiles

  /**
   * What `_move` returns: a deferred `appendleft` or `append` of one
   * domino, in the orientation it will lie on the board.
   */
  datatype Move = AppendLeft(tile: Domino) | Append(tile: Domino)

  /** Running the move on the board deque. */
  function Apply(board: seq<Domino>, m: Move): seq<Domino>
  {
    match m
    case AppendLeft(t) => [t] + board
    case Append(t) => board + [t]
  }

  /** Neighbouring tiles touch with equal pips. */
  predicate Linked(board: seq<Domino>)
  {
    forall k :: 0 <= k < |board| - 1 ==> board[k].1 == board[k + 1].0
  }

  /** `board[0][0]`: the pip exposed on the left. */
  function LeftEnd(board: seq<Domino>): int
    requires board != []
  {
    board[0].0
  }

  /** `board[-1][-1]`: the pip exposed on the right. */
  function RightEnd(board: seq<Domino>): int
    requires board != []
  {
    board[|board| - 1].1
  }

  /** The move's inner pip meets the end it is placed against (anything fits an empty board). */
  predicate Fits(board: seq<Domino>, m: Move)
  {
    board == [] ||
    match m
    case AppendLeft(t) => t.1 == LeftEnd(board)
    case Append(t) => t.0 == RightEnd(board)
  }

  /**
   * A fitting move keeps the line linked, adds exactly one tile, leaves the
   * old tiles in place, and changes only the end it targets, whose new
   * pip is the outer pip of the placed tile.
   */
  lemma ApplyFitting(board: seq<Domino>, m: Move)
    requires Linked(board) && Fits(board, m)
    ensures var r := Apply(board, m);
      && Linked(r)
      && |r| == |board| + 1
      && (m.AppendLeft? ==> r[1..] == board && LeftEnd(r) == m.tile.0 &&
                            RightEnd(r) == if board == [] then m.tile.1 else RightEnd(board))
      && (m.Append? ==> r[..|board|] == board && RightEnd(r) == m.tile.1 &&
                        LeftEnd(r) == if board == [] then m.tile.0 else LeftEnd(board))
  {
    var r := Apply(board, m);
    forall k | 0 <= k < |r| - 1
      ensures r[k].1 == r[k + 1].0
    {
      match m
      case AppendLeft(t) =>
        if k > 0 {
          assert r[k] == board[k - 1] && r[k + 1] == board[k];
        }
      case Append(t) =>
        if k < |board| - 1 {
          assert r[k] == board[k] && r[k + 1] == board[k + 1];
        }
    }
  }

  /** A move puts its one tile on the board and takes none away. */
  lemma ApplyAddsTile(board: seq<Domino>, m: Move)
    ensures Bag(Apply(board, m)) == Bag(board) + multiset{Norm(m.tile)}
  {
    BagSingle(m.tile);
    match m
    case AppendLeft(t) => BagAppend([t], board);
    case Append(t) => BagAppend(board, [t]);
  }

  /** `_move('append', (4, 5))` run on an empty deque leaves it holding just (4, 5). */
  lemma AppendToEmpty()
    ensures Apply([], Append((4, 5))) == [(4, 5)]
  {
  }
}
