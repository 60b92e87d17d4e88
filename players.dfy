/** Players: their hands, the first-match move policy, and creating a table of players. */
module Players {
  import opened Tiles
  import opened Chain

  /** What `decide_move` yields: a move to run on the board, or the `CannotPlay` signal. */
  datatype Decision = Play(move: Move) | CannotPlay

  /** A decision together with the hand the player keeps after making it. */
  datatype Turn = Turn(decision: Decision, hand: seq<Domino>)

  /** One of the domino's pips equals one of the two exposed ends. */
  predicate Matches(d: Domino, left: int, right: int)
  {
    d.0 == left || d.0 == right || d.1 == left || d.1 == right
  }

  /** No tile of the hand can be placed on the (non-empty) board. */
  predicate Stuck(hand: seq<Domino>, board: seq<Domino>)
    requires board != []
  {
    forall j :: 0 <= j < |hand| ==> !Matches(hand[j], LeftEnd(board), RightEnd(board))
  }

  /** Position of the first tile in hand order that matches an end, or |hand| when none does. */
  function FirstMatch(hand: seq<Domino>, left: int, right: int): (k: nat)
    ensures k <= |hand|
    ensures forall j :: 0 <= j < k ==> !Matches(hand[j], left, right)
    ensures k < |hand| ==> Matches(hand[k], left, right)
  {
    if hand == [] then 0
    else if Matches(hand[0], left, right) then 0
    else 1 + FirstMatch(hand[1..], left, right)
  }

  /**
   * The placement of a matching tile, tested in the order
   * d[0] == left, d[0] == right, d[1] == left, d[1] == right.
   */
  function Place(d: Domino, board: seq<Domino>): (m: Move)
    requires board != [] && Matches(d, LeftEnd(board), RightEnd(board))
    ensures Fits(board, m)
    ensures m.tile == d || m.tile == Flip(d)
  {
    if d.0 == LeftEnd(board) then AppendLeft(Flip(d))
    else if d.0 == RightEnd(board) then Append(d)
    else if d.1 == LeftEnd(board) then AppendLeft(d)
    else Append(Flip(d))
  }

  /** `list.remove`: drop the first occurrence of `x`. */
  function Remove(xs: seq<Domino>, x: Domino): (r: seq<Domino>)
    requires x in xs
    ensures |r| == |xs| - 1
    ensures multiset(r) + multiset{x} == multiset(xs)
  {
    assert xs == [xs[0]] + xs[1..];
    if xs[0] == x then xs[1..] else [xs[0]] + Remove(xs[1..], x)
  }

  /** Removing a value whose first occurrence is at k drops exactly position k. */
  lemma {:induction false} RemoveFirstOccurrence(xs: seq<Domino>, k: nat)
    requires k < |xs|
    requires forall j :: 0 <= j < k ==> xs[j] != xs[k]
    ensures Remove(xs, xs[k]) == xs[..k] + xs[k + 1..]
  {
    if k > 0 {
      assert xs[1..][k - 1] == xs[k];
      RemoveFirstOccurrence(xs[1..], k - 1);
      assert xs[1..][..k - 1] + xs[1..][k..] == xs[1..k] + xs[k + 1..];
      assert [xs[0]] + xs[1..k] == xs[..k];
    }
  }

  /**
   * The move policy of `decide_move` on a hand and a board. On an empty
   * board the last tile of the hand is popped and placed as it is;
   * otherwise the first matching tile in hand order is removed and placed.
   */
  function Decide(hand: seq<Domino>, board: seq<Domino>): (t: Turn)
    requires board == [] ==> hand != []
    ensures t.decision.CannotPlay? <==> board != [] && Stuck(hand, board)
    ensures t.decision.CannotPlay? ==> t.hand == hand
    ensures t.decision.Play? ==> Fits(board, t.decision.move)
    ensures t.decision.Play? ==> |t.hand| == |hand| - 1
    ensures t.decision.Play? ==>
      multiset(t.hand) + multiset{t.decision.move.tile} == multiset(hand) ||
      multiset(t.hand) + multiset{Flip(t.decision.move.tile)} == multiset(hand)
  {
    if board == [] then
      assert hand == hand[..|hand| - 1] + [hand[|hand| - 1]];
      Turn(Play(AppendLeft(hand[|hand| - 1])), hand[..|hand| - 1])
    else
      var k := FirstMatch(hand, LeftEnd(board), RightEnd(board));
      if k == |hand| then Turn(CannotPlay, hand)
      else
        assert hand == hand[..k] + [hand[k]] + hand[k + 1..];
        Turn(Play(Place(hand[k], board)), hand[..k] + hand[k + 1..])
  }

  /** Taking position k out of a hand takes exactly that tile out of its bag. */
  lemma BagRemoveAt(hand: seq<Domino>, k: nat)
    requires k < |hand|
    ensures Bag(hand) == Bag(hand[..k] + hand[k + 1..]) + multiset{Norm(hand[k])}
  {
    var before, after := hand[..k], hand[k + 1..];
    calc {
      Bag(hand);
    == { assert hand == before + ([hand[k]] + after); BagAppend(before, [hand[k]] + after); }
      Bag(before) + Bag([hand[k]] + after);
    == { BagAppend([hand[k]], after); BagSingle(hand[k]); }
      Bag(before) + multiset{Norm(hand[k])} + Bag(after);
    == { BagAppend(before, after); }
      Bag(before + after) + multiset{Norm(hand[k])};
    }
  }

  /** A move takes exactly its own tile, up to orientation, out of the hand. */
  lemma DecideKeepsTiles(hand: seq<Domino>, board: seq<Domino>)
    requires board == [] ==> hand != []
    ensures var t := Decide(hand, board);
      t.decision.Play? ==> Bag(hand) == Bag(t.hand) + multiset{Norm(t.decision.move.tile)}
  {
    if board == [] {
      var k := |hand| - 1;
      assert hand[..k] + hand[k + 1..] == hand[..k];
      BagRemoveAt(hand, k);
    } else {
      var k := FirstMatch(hand, LeftEnd(board), RightEnd(board));
      if k < |hand| {
        BagRemoveAt(hand, k);
        NormFlip(hand[k]);
      }
    }
  }

  /** On an empty board the last tile is popped and becomes the whole board, unflipped. */
  lemma DecideOnEmptyBoard(hand: seq<Domino>)
    requires hand != []
    ensures var t := Decide(hand, []);
      && t.hand == hand[..|hand| - 1]
      && t.decision.Play?
      && Apply([], t.decision.move) == [hand[|hand| - 1]]
  {
  }

  /**
   * On a non-empty board the first matching tile in hand order is played,
   * placed by the fixed test order, and only that position leaves the hand.
   */
  lemma DecideFirstMatch(hand: seq<Domino>, board: seq<Domino>, k: nat)
    requires board != [] && k < |hand|
    requires Matches(hand[k], LeftEnd(board), RightEnd(board))
    requires forall j :: 0 <= j < k ==> !Matches(hand[j], LeftEnd(board), RightEnd(board))
    ensures Decide(hand, board) == Turn(Play(Place(hand[k], board)), hand[..k] + hand[k + 1..])
  {
    var f := FirstMatch(hand, LeftEnd(board), RightEnd(board));
    assert !(f < k) && !(k < f);
  }

  /** Board [(4, 5)], hand [(3, 4), (1, 6)]: (3, 4) goes on the left and the board becomes [(3, 4), (4, 5)]. */
  lemma DecideExample()
    ensures var t := Decide([(3, 4), (1, 6)], [(4, 5)]);
      t.decision.Play? && Apply([(4, 5)], t.decision.move) == [(3, 4), (4, 5)] && t.hand == [(1, 6)]
  {
    var hand, board := [(3, 4), (1, 6)], [(4, 5)];
    DecideFirstMatch(hand, board, 0);
    assert hand[..0] + hand[1..] == [(1, 6)];
    assert Place(hand[0], board) == AppendLeft((3, 4));
  }

  /** Board [(4, 5)], hand [(0, 2), (1, 6)]: nothing fits, and the hand is kept. */
  lemma CannotPlayExample()
    ensures Decide([(0, 2), (1, 6)], [(4, 5)]) == Turn(CannotPlay, [(0, 2), (1, 6)])
  {
    assert Stuck([(0, 2), (1, 6)], [(4, 5)]);
  }

  /** A player: a fixed seat number and the list of dominoes in hand. */
  class Player {
    const order: int
    var dominoes: seq<Domino>

    constructor (order: int)
      ensures this.order == order && dominoes == []
    {
      this.order := order;
      dominoes := [];
    }

    /** `add_domino`: the tile goes to the end of the hand. */
    method AddDomino(domino: Domino)
      modifies this
      ensures dominoes == old(dominoes) + [domino]
    {
      dominoes := dominoes + [domino];
    }

    /** `check_for_completion`: true exactly when the hand is empty. */
    function CheckForCompletion(): (done: bool)
      reads this
      ensures done <==> |dominoes| == 0
    {
      dominoes == []
    }

    /**
     * `add_remaining_dominoes`: the pip sum of the hand, scored when the game
     * is blocked. An empty hand scores nothing, and a hand of non-negative
     * pips never scores below zero.
     */
    function AddRemainingDominoes(): (points: int)
      reads this
      ensures dominoes == [] ==> points == 0
      ensures (forall k :: 0 <= k < |dominoes| ==> dominoes[k].0 >= 0 && dominoes[k].1 >= 0) ==> points >= 0
    {
      PipSumNonNegative(dominoes);
      PipSum(dominoes)
    }

    /**
     * `decide_move`: pop the last tile onto an empty board, or scan the hand
     * for the first tile that fits an end and remove it; `CannotPlay` when
     * the scan finds nothing.
     */
    method DecideMove(board: seq<Domino>) returns (decision: Decision)
      requires board == [] ==> dominoes != []
      modifies this
      ensures Turn(decision, dominoes) == Decide(old(dominoes), board)
    {
      if board == [] {
        var domino := dominoes[|dominoes| - 1];
        dominoes := dominoes[..|dominoes| - 1];
        return Play(AppendLeft(domino));
      }
      var leftEnd := board[0].0;
      var rightEnd := board[|board| - 1].1;
      var k := 0;
      while k < |dominoes|
        invariant k <= |dominoes| && dominoes == old(dominoes)
        invariant forall j :: 0 <= j < k ==> !Matches(dominoes[j], leftEnd, rightEnd)
      {
        var domino := dominoes[k];
        if Matches(domino, leftEnd, rightEnd) {
          DecideFirstMatch(dominoes, board, k);
          RemoveFirstOccurrence(dominoes, k);
        }
        if domino.0 == leftEnd {
          dominoes := Remove(dominoes, domino);
          return Play(AppendLeft(Flip(domino)));
        } else if domino.0 == rightEnd {
          dominoes := Remove(dominoes, domino);
          return Play(Append(domino));
        } else if domino.1 == leftEnd {
          dominoes := Remove(dominoes, domino);
          return Play(AppendLeft(domino));
        } else if domino.1 == rightEnd {
          dominoes := Remove(dominoes, domino);
          return Play(Append(Flip(domino)));
        }
        k := k + 1;
      }
      return CannotPlay;
    }
  }

  /** A new player 4 has completed; after taking (5, 5) it has not. */
  method CompletionExample() returns (before: bool, after: bool)
    ensures before && !after
  {
    var p := new Player(4);
    before := p.CheckForCompletion();
    p.AddDomino((5, 5));
    after := p.CheckForCompletion();
  }

  /** Player 4 holding (5, 5) and (2, 3) has 15 points remaining. */
  method RemainingPointsExample() returns (points: int)
    ensures points == 15
  {
    var p := new Player(4);
    p.AddDomino((5, 5));
    p.AddDomino((2, 3));
    PipSumExample();
    points := p.AddRemainingDominoes();
  }

  /** All players are distinct objects. */
  ghost predicate Distinct(players: seq<Player>)
  {
    forall a, b :: 0 <= a < b < |players| ==> players[a] != players[b]
  }

  /** What `make_players` returns, or the `IndexError` it raises. */
  datatype Made = Made(players: seq<Player>) | IndexError

  /** `make_players`: seats 1..num with empty hands, or IndexError when num < 1. */
  method MakePlayers(num: int) returns (r: Made)
    ensures num < 1 <==> r.IndexError?
    ensures r.Made? ==> |r.players| == num && Distinct(r.players)
    ensures r.Made? ==> forall k :: 0 <= k < num ==>
      fresh(r.players[k]) && r.players[k].order == k + 1 && r.players[k].dominoes == []
  {
    if num < 1 {
      return IndexError;
    }
    var players: seq<Player> := [];
    for i := 1 to num + 1
      invariant |players| == i - 1 && Distinct(players)
      invariant forall k :: 0 <= k < i - 1 ==>
        fresh(players[k]) && players[k].order == k + 1 && players[k].dominoes == []
    {
      var p := new Player(i);
      players := players + [p];
    }
    return Made(players);
  }
}
