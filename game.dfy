/**
 * The game loop: players move in seat order, a counter of consecutive
 * skips ends a blocked game, and a player who empties their hand wins.
 */
module GameLoop {
  import opened Tiles
  import opened Chain
  import opened Players

  /** The number of consecutive skips that ends the game as blocked (a literal in the loop). */
  const SkipLimit := 4

  /** Tiles still held, over all hands. */
  function Total(hands: seq<seq<Domino>>): nat
  {
    if hands == [] then 0 else |hands[0]| + Total(hands[1..])
  }

  lemma {:induction false} TotalUpdate(hands: seq<seq<Domino>>, i: nat, h: seq<Domino>)
    requires i < |hands|
    ensures Total(hands[i := h]) == Total(hands) - |hands[i]| + |h|
    decreases i
  {
    if i > 0 {
      assert hands[i := h][1..] == hands[1..][i - 1 := h];
      TotalUpdate(hands[1..], i - 1, h);
    } else {
      assert hands[i := h][1..] == hands[1..];
    }
  }

  /** The tiles still held, over all hands, each taken up to orientation. */
  function Held(hands: seq<seq<Domino>>): (b: multiset<Domino>)
    ensures |b| == Total(hands)
  {
    if hands == [] then multiset{} else Bag(hands[0]) + Held(hands[1..])
  }

  lemma {:induction false} HeldUpdate(hands: seq<seq<Domino>>, i: nat, h: seq<Domino>)
    requires i < |hands|
    ensures Held(hands[i := h]) + Bag(hands[i]) == Held(hands) + Bag(h)
    decreases i
  {
    var updated := hands[i := h];
    if i > 0 {
      var tail := hands[1..];
      assert Held(updated) == Bag(hands[0]) + Held(tail[i - 1 := h]) by {
        assert updated[0] == hands[0] && updated[1..] == tail[i - 1 := h];
      }
      assert tail[i - 1] == hands[i];
      HeldUpdate(tail, i - 1, h);
      UnionShift(Bag(hands[0]), Held(tail), Held(tail[i - 1 := h]), Bag(hands[i]), Bag(h));
    } else {
      assert updated[0] == h && updated[1..] == hands[1..];
    }
  }

  lemma UnionShift(first: multiset<Domino>, rest: multiset<Domino>, rest': multiset<Domino>,
                   out: multiset<Domino>, into: multiset<Domino>)
    requires rest' + out == rest + into
    ensures first + rest' + out == first + rest + into
  {
    assert first + rest' + out == first + (rest' + out);
    assert first + rest + into == first + (rest + into);
  }

  /** add_remaining_dominoes of every hand, in seat order. */
  function Sums(hands: seq<seq<Domino>>): (s: seq<int>)
    ensures |s| == |hands|
  {
    seq(|hands|, k requires 0 <= k < |hands| => PipSum(hands[k]))
  }

  /** Position of the first smallest value: no value is smaller, every earlier one is larger. */
  function FirstMinimum(s: seq<int>): (w: nat)
    requires s != []
    ensures w < |s|
    ensures forall k :: 0 <= k < |s| ==> s[w] <= s[k]
    ensures forall k :: 0 <= k < w ==> s[w] < s[k]
    decreases |s|
  {
    if |s| == 1 then 0
    else
      var p := FirstMinimum(s[..|s| - 1]);
      assert forall k :: 0 <= k < |s| - 1 ==> s[..|s| - 1][k] == s[k];
      if s[|s| - 1] < s[p] then |s| - 1 else p
  }

  /**
   * p lists the positions of s sorted ascending by value, with equal
   * values kept in their original order: what a stable sort by key does.
   */
  predicate StableSortedPositions(s: seq<int>, p: seq<nat>)
  {
    && |p| == |s|
    && (forall a :: 0 <= a < |p| ==> p[a] < |s|)
    && (forall k :: 0 <= k < |s| ==> k in p)
    && (forall a, b :: 0 <= a < b < |p| ==> s[p[a]] <= s[p[b]])
    && (forall a, b :: 0 <= a < b < |p| && s[p[a]] == s[p[b]] ==> p[a] < p[b])
  }

  /** The head of a stable ascending sort by pip sum is the first player with the minimum sum. */
  lemma StableSortHead(s: seq<int>, p: seq<nat>)
    requires s != [] && StableSortedPositions(s, p)
    ensures p[0] == FirstMinimum(s)
  {
    var w := FirstMinimum(s);
    assert w in p;
    var a :| 0 <= a < |p| && p[a] == w;
    var head := p[0];
    var atHead, atW := s[head], s[w];
    assert 0 < a ==> atHead <= atW;
    assert 0 < a && atHead == atW ==> head < w;
  }

  /** How a game ended, as a seat position: by an emptied hand or by a blocked board. */
  datatype Ending = Completion(winner: nat) | Block(winner: nat)

  /** The board and hands when the game stops, and how it stopped. */
  datatype Final = Final(board: seq<Domino>, hands: seq<seq<Domino>>, ending: Ending)

  /** The seat after i, going round the table. */
  function Next(i: nat, n: nat): (j: nat)
    requires i < n
    ensures j < n
  {
    if i + 1 == n then 0 else i + 1
  }

  /** The seat before i, going round the table. */
  function Prev(i: nat, n: nat): (j: nat)
    requires i < n
    ensures j < n && Next(j, n) == i
  {
    if i == 0 then n - 1 else i - 1
  }

  /** The seat t turns before i. */
  function Back(i: nat, t: nat, n: nat): (j: nat)
    requires i < n
    ensures j < n
    decreases t
  {
    if t == 0 then i else Back(Prev(i, n), t - 1, n)
  }

  lemma {:induction false} BackFormula(i: nat, t: nat, n: nat)
    requires i < n && t < n
    ensures Back(i, t, n) == if t <= i then i - t else i - t + n
    decreases t
  {
    if t > 0 {
      BackFormula(Prev(i, n), t - 1, n);
    }
  }

  /** After one turn: the game is over, or it goes on with this board, these hands and this skip count. */
  datatype Status = Over(final: Final) | Going(board: seq<Domino>, hands: seq<seq<Domino>>, skipped: nat)

  /**
   * One turn of seat i, with `skipped` consecutive skips behind it: the
   * player decides; a skip either reaches the limit, ending the game as
   * blocked with the first smallest pip sum winning, or bumps the counter;
   * a move is applied to the board and either empties the hand, ending the
   * game with the mover winning, or resets the counter. A turn that does
   * not end the game makes progress: a tile leaves a hand, or the counter
   * grows with nothing else changed.
   */
  function Step(board: seq<Domino>, hands: seq<seq<Domino>>, i: nat, skipped: nat): (s: Status)
    requires i < |hands| && skipped < SkipLimit
    requires board == [] ==> hands[i] != []
    ensures s.Over? ==> |s.final.hands| == |hands| && s.final.ending.winner < |hands|
    ensures s.Going? ==> |s.hands| == |hands| && s.board != [] && s.skipped < SkipLimit
    ensures s.Going? ==>
      || Total(s.hands) < Total(hands)
      || (s.board == board && s.hands == hands && s.skipped == skipped + 1)
  {
    var t := Decide(hands[i], board);
    match t.decision
    case CannotPlay =>
      if skipped + 1 == SkipLimit then Over(Final(board, hands, Block(FirstMinimum(Sums(hands)))))
      else Going(board, hands, skipped + 1)
    case Play(m) =>
      var after := hands[i := t.hand];
      TotalUpdate(hands, i, t.hand);
      if t.hand == [] then Over(Final(Apply(board, m), after, Completion(i)))
      else Going(Apply(board, m), after, 0)
  }

  /** The game from seat i on: turns in seat order, round after round, until one ends it. */
  function PlayFrom(board: seq<Domino>, hands: seq<seq<Domino>>, i: nat, skipped: nat): (r: Final)
    requires i < |hands| && skipped < SkipLimit
    requires board == [] ==> hands[i] != []
    ensures |r.hands| == |hands| && r.ending.winner < |hands|
    decreases Total(hands), SkipLimit - skipped
  {
    match Step(board, hands, i, skipped)
    case Over(f) => f
    case Going(b, h, k) => PlayFrom(b, h, Next(i, |hands|), k)
  }

  /**
   * One turn keeps the board linked, moves at most one tile from the
   * mover's hand to the board, grows no hand and leaves every other seat's
   * hand as it was. That the tile placed is the tile taken out is
   * `StepKeepsTiles`.
   */
  lemma StepInvariants(board: seq<Domino>, hands: seq<seq<Domino>>, i: nat, skipped: nat)
    requires i < |hands| && skipped < SkipLimit
    requires board == [] ==> hands[i] != []
    requires Linked(board)
    ensures match Step(board, hands, i, skipped)
      case Over(r) =>
        && Linked(r.board)
        && |r.board| + Total(r.hands) == |board| + Total(hands)
        && (forall j :: 0 <= j < |hands| ==> |r.hands[j]| <= |hands[j]|)
        && (forall j :: 0 <= j < |hands| && j != i ==> r.hands[j] == hands[j])
        && (r.ending.Completion? ==> r.ending.winner == i && r.hands[i] == [])
        && (r.ending.Block? ==> r.board != [] && r.board == board && r.hands == hands &&
                                r.ending.winner == FirstMinimum(Sums(hands)))
      case Going(b, h, _) =>
        && Linked(b)
        && |b| + Total(h) == |board| + Total(hands)
        && (forall j :: 0 <= j < |hands| ==> |h[j]| <= |hands[j]|)
        && (forall j :: 0 <= j < |hands| && j != i ==> h[j] == hands[j])
  {
    var t := Decide(hands[i], board);
    if t.decision.Play? {
      ApplyFitting(board, t.decision.move);
      TotalUpdate(hands, i, t.hand);
    }
  }

  /** One turn loses no tile and makes none: the one leaving a hand is the one placed, up to orientation. */
  lemma StepKeepsTiles(board: seq<Domino>, hands: seq<seq<Domino>>, i: nat, skipped: nat)
    requires i < |hands| && skipped < SkipLimit
    requires board == [] ==> hands[i] != []
    ensures match Step(board, hands, i, skipped)
      case Over(r) => Bag(r.board) + Held(r.hands) == Bag(board) + Held(hands)
      case Going(b, h, _) => Bag(b) + Held(h) == Bag(board) + Held(hands)
  {
    var t := Decide(hands[i], board);
    if t.decision.Play? {
      ApplyAddsTile(board, t.decision.move);
      HeldUpdate(hands, i, t.hand);
      DecideKeepsTiles(hands[i], board);
      MoveBalances(Bag(board), Bag(Apply(board, t.decision.move)), Held(hands), Held(hands[i := t.hand]),
                   Bag(hands[i]), Bag(t.hand), multiset{Norm(t.decision.move.tile)});
    }
  }

  /** The multiset sum behind a move: the board gains what the hand loses. */
  lemma MoveBalances(board: multiset<Domino>, board': multiset<Domino>, held: multiset<Domino>, held': multiset<Domino>,
                     hand: multiset<Domino>, hand': multiset<Domino>, tile: multiset<Domino>)
    requires board' == board + tile
    requires held' + hand == held + hand'
    requires hand == hand' + tile
    ensures board' + held' == board + held
  {
    forall x ensures (held' + tile)[x] == held[x] {
      assert (held' + hand)[x] == (held + hand')[x];
    }
  }

  /**
   * What the game keeps: the board stays a linked chain, every tile that
   * leaves a hand lands on the board (up to orientation, so the tiles on the
   * board and in hands stay the same multiset), hands only shrink, a completion's
   * winner holds nothing, and a block's winner is the first smallest pip sum.
   */
  lemma {:induction false} PlayInvariants(board: seq<Domino>, hands: seq<seq<Domino>>, i: nat, skipped: nat)
    requires i < |hands| && skipped < SkipLimit
    requires board == [] ==> hands[i] != []
    requires Linked(board)
    ensures var r := PlayFrom(board, hands, i, skipped);
      && Linked(r.board)
      && Bag(r.board) + Held(r.hands) == Bag(board) + Held(hands)
      && |r.board| + Total(r.hands) == |board| + Total(hands)
      && (forall j :: 0 <= j < |hands| ==> |r.hands[j]| <= |hands[j]|)
      && (r.ending.Completion? ==> r.hands[r.ending.winner] == [])
      && (r.ending.Block? ==> r.board != [] && r.ending.winner == FirstMinimum(Sums(r.hands)))
    decreases Total(hands), SkipLimit - skipped
  {
    StepInvariants(board, hands, i, skipped);
    StepKeepsTiles(board, hands, i, skipped);
    match Step(board, hands, i, skipped)
    case Over(_) =>
    case Going(b, h, k) =>
      PlayInvariants(b, h, Next(i, |hands|), k);
  }

  /**
   * With at most four players the limit of four skips is sound: the last
   * four turns covered every seat, so when the game ends blocked no player
   * can place any tile. The invariant is that the `skipped` seats before i
   * are stuck on the current board.
   */
  lemma {:induction false} BlockIsStuck(board: seq<Domino>, hands: seq<seq<Domino>>, i: nat, skipped: nat)
    requires i < |hands| <= SkipLimit && skipped < SkipLimit
    requires board == [] ==> hands[i] != []
    requires forall t :: 1 <= t <= skipped ==> board != [] && Stuck(hands[Back(i, t, |hands|)], board)
    ensures var r := PlayFrom(board, hands, i, skipped);
      r.ending.Block? ==> r.board != [] && forall j :: 0 <= j < |hands| ==> Stuck(r.hands[j], r.board)
    decreases Total(hands), SkipLimit - skipped
  {
    var n := |hands|;
    var t := Decide(hands[i], board);
    match t.decision
    case CannotPlay =>
      if skipped + 1 == SkipLimit {
        SeatsCovered(board, hands, i);
      } else {
        var i' := Next(i, n);
        forall u | 1 <= u <= skipped + 1
          ensures board != [] && Stuck(hands[Back(i', u, n)], board)
        {
          assert Back(i', u, n) == Back(i, u - 1, n);
        }
        BlockIsStuck(board, hands, i', skipped + 1);
      }
    case Play(m) =>
      if t.hand != [] {
        TotalUpdate(hands, i, t.hand);
        BlockIsStuck(Apply(board, m), hands[i := t.hand], Next(i, n), 0);
      }
  }

  /** With at most four seats, seat i and the three before it are every seat. */
  lemma SeatsCovered(board: seq<Domino>, hands: seq<seq<Domino>>, i: nat)
    requires i < |hands| <= SkipLimit && board != []
    requires forall t :: 0 <= t < SkipLimit ==> Stuck(hands[Back(i, t, |hands|)], board)
    ensures forall j :: 0 <= j < |hands| ==> Stuck(hands[j], board)
  {
    var n := |hands|;
    forall j | 0 <= j < n
      ensures Stuck(hands[j], board)
    {
      var back := if j <= i then i - j else i - j + n;
      BackFormula(i, back, n);
    }
  }

  /** A whole game of at most four players that ends blocked leaves nobody able to play. */
  lemma BlockedGameIsStuck(board: seq<Domino>, hands: seq<seq<Domino>>)
    requires 1 <= |hands| <= SkipLimit
    requires board == [] ==> hands[0] != []
    ensures var r := PlayFrom(board, hands, 0, 0);
      r.ending.Block? ==> r.board != [] && forall j :: 0 <= j < |hands| ==> Stuck(r.hands[j], r.board)
  {
    BlockIsStuck(board, hands, 0, 0);
  }

  /** A skip below the limit passes the turn on with the board and hands untouched and the counter bumped. */
  lemma SkipCounts(board: seq<Domino>, hands: seq<seq<Domino>>, i: nat, skipped: nat)
    requires i < |hands| && skipped + 1 < SkipLimit
    requires board != [] && Stuck(hands[i], board)
    ensures PlayFrom(board, hands, i, skipped) == PlayFrom(board, hands, Next(i, |hands|), skipped + 1)
  {
  }

  /** The skip that reaches the limit ends the game as blocked, won by the first smallest pip sum. */
  lemma SkipLimitBlocks(board: seq<Domino>, hands: seq<seq<Domino>>, i: nat)
    requires i < |hands|
    requires board != [] && Stuck(hands[i], board)
    ensures PlayFrom(board, hands, i, SkipLimit - 1) == Final(board, hands, Block(FirstMinimum(Sums(hands))))
  {
  }

  /** A move that empties the mover's hand ends the game at once, won by the mover. */
  lemma EmptyHandCompletes(board: seq<Domino>, hands: seq<seq<Domino>>, i: nat, skipped: nat)
    requires i < |hands| && skipped < SkipLimit
    requires board == [] ==> hands[i] != []
    requires Decide(hands[i], board).decision.Play? && Decide(hands[i], board).hand == []
    ensures var t := Decide(hands[i], board);
      PlayFrom(board, hands, i, skipped) == Final(Apply(board, t.decision.move), hands[i := []], Completion(i))
  {
  }

  /**
   * After a move that leaves tiles in the hand, the game goes on from the
   * next seat with the counter back at 0, whatever it was before.
   */
  lemma MoveResetsSkips(board: seq<Domino>, hands: seq<seq<Domino>>, i: nat, skipped: nat)
    requires i < |hands| && skipped < SkipLimit
    requires board == [] ==> hands[i] != []
    requires Decide(hands[i], board).decision.Play? && Decide(hands[i], board).hand != []
    ensures var t := Decide(hands[i], board);
      PlayFrom(board, hands, i, skipped) ==
      PlayFrom(Apply(board, t.decision.move), hands[i := t.hand], Next(i, |hands|), 0)
  {
  }

  /**
   * With five players the limit is reached after four skips even though the
   * fifth seat, the first player, still holds (1, 5), which fits the board (1, 1).
   */
  lemma FivePlayerBlock()
    ensures var r := PlayFrom([], [[(1, 5), (1, 1)], [(2, 2)], [(3, 3)], [(4, 4)], [(6, 6)]], 0, 0);
      && r.ending == Block(1)
      && r.board == [(1, 1)]
      && !Stuck(r.hands[0], r.board)
  {
    var start := [[(1, 5), (1, 1)], [(2, 2)], [(3, 3)], [(4, 4)], [(6, 6)]];
    var hands := [[(1, 5)], [(2, 2)], [(3, 3)], [(4, 4)], [(6, 6)]];
    var board := [(1, 1)];
    assert start[0 := [(1, 5)]] == hands;
    DecideOnEmptyBoard(start[0]);
    assert start[0][..1] == [(1, 5)];
    MoveResetsSkips([], start, 0, 0);
    assert PlayFrom([], start, 0, 0) == PlayFrom(board, hands, 1, 0);
    FivePlayerSkips();
  }

  /** From there the other four seats skip in turn, and the fourth skip ends the game. */
  lemma FivePlayerSkips()
    ensures var hands := [[(1, 5)], [(2, 2)], [(3, 3)], [(4, 4)], [(6, 6)]];
      PlayFrom([(1, 1)], hands, 1, 0) == Final([(1, 1)], hands, Block(1))
  {
    var hands := [[(1, 5)], [(2, 2)], [(3, 3)], [(4, 4)], [(6, 6)]];
    var board := [(1, 1)];
    NoOneFits(board, [(2, 2)]);
    NoOneFits(board, [(3, 3)]);
    NoOneFits(board, [(4, 4)]);
    NoOneFits(board, [(6, 6)]);
    SkipCounts(board, hands, 1, 0);
    SkipCounts(board, hands, 2, 1);
    SkipCounts(board, hands, 3, 2);
    FivePlayerSums();
  }

  /** A hand of one double that shows no 1 is stuck on the board (1, 1). */
  lemma NoOneFits(board: seq<Domino>, hand: seq<Domino>)
    requires board == [(1, 1)] && |hand| == 1 && hand[0].0 != 1 && hand[0].1 != 1
    ensures Stuck(hand, board)
  {
  }

  /** The pip sums at that block are 6, 4, 6, 8 and 12, so the second seat has the fewest. */
  lemma FivePlayerSums()
    ensures FirstMinimum(Sums([[(1, 5)], [(2, 2)], [(3, 3)], [(4, 4)], [(6, 6)]])) == 1
  {
    var sums := Sums([[(1, 5)], [(2, 2)], [(3, 3)], [(4, 4)], [(6, 6)]]);
    PipSumSingle((1, 5));
    PipSumSingle((2, 2));
    PipSumSingle((3, 3));
    PipSumSingle((4, 4));
    PipSumSingle((6, 6));
    assert sums == [6, 4, 6, 8, 12];
    var w := FirstMinimum(sums);
    assert sums[w] <= sums[1];
  }

  /** Seat 1 holds (6, 6) and seat 2 holds (2, 3): the blocked game goes to seat 2. */
  lemma EndingsExample()
    ensures FirstMinimum(Sums([[(6, 6)], [(2, 3)]])) == 1
  {
    var sums := Sums([[(6, 6)], [(2, 3)]]);
    assert sums[0] == 12 && sums[1] == 5;
  }

  /** A game: the board deque and the players in seat order. */
  class Game {
    var board: seq<Domino>
    const players: seq<Player>

    constructor (board: seq<Domino>, players: seq<Player>)
      ensures this.board == board && this.players == players
    {
      this.board := board;
      this.players := players;
    }

    /** The players' hands, in seat order. */
    function Hands(): (hs: seq<seq<Domino>>)
      reads set p | p in players
      ensures |hs| == |players| && forall k :: 0 <= k < |players| ==> hs[k] == players[k].dominoes
    {
      seq(|players|, k reads set p | p in players requires 0 <= k < |players| => players[k].dominoes)
    }

    /**
     * `_end_via_block`: the seat number of the first player whose remaining
     * pip sum is smallest, the head of the list sorted by that sum.
     */
    method EndViaBlock() returns (winner: int)
      requires |players| >= 1
      ensures winner == players[FirstMinimum(Sums(Hands()))].order
    {
      ghost var sums := Sums(Hands());
      var best := 0;
      var bestPoints := players[0].AddRemainingDominoes();
      assert sums[..1] == [sums[0]];
      for k := 1 to |players|
        invariant best == FirstMinimum(sums[..k]) && bestPoints == sums[best]
      {
        var points := players[k].AddRemainingDominoes();
        assert sums[..k + 1][..k] == sums[..k];
        if points < bestPoints {
          best := k;
          bestPoints := points;
        }
      }
      assert sums[..|players|] == sums;
      return players[best].order;
    }

    /**
     * One pass of the body of `run`'s inner loop, for seat i: the player
     * decides; a skip bumps the counter and, at the limit, ends the game via
     * `EndViaBlock`; a move resets the counter, is applied to the board, and
     * ends the game with the mover's seat number if their hand is now empty.
     * When the game goes on, what remains of it is the game from the next
     * seat, and progress is made: a tile left a hand, or the counter grew.
     */
    method TakeTurn(i: nat, skipped: nat) returns (skippedAfter: nat, over: bool, winner: int)
      requires i < |players| && Distinct(players) && skipped < SkipLimit
      requires board == [] ==> players[i].dominoes != []
      modifies this, players[i]
      ensures var s := Step(old(board), old(Hands()), i, skipped);
        && over == s.Over?
        && (s.Over? ==> board == s.final.board && Hands() == s.final.hands &&
                        winner == players[s.final.ending.winner].order)
        && (s.Going? ==> board == s.board && Hands() == s.hands && skippedAfter == s.skipped)
    {
      ghost var hs := Hands();
      var player := players[i];
      var decision := player.DecideMove(board);
      assert Turn(decision, player.dominoes) == Decide(hs[i], old(board));
      assert Hands() == hs[i := player.dominoes] by {
        forall j | 0 <= j < |players| && j != i ensures players[j] != player {
        }
      }
      if decision.CannotPlay? {
        assert hs[i := player.dominoes] == hs;
        skippedAfter := skipped + 1;
        if skippedAfter == SkipLimit {
          winner := EndViaBlock();
          return skippedAfter, true, winner;
        }
        return skippedAfter, false, 0;
      } else {
        skippedAfter := 0;
        board := Apply(board, decision.move);
        if player.CheckForCompletion() {
          return skippedAfter, true, player.order;
        }
        return skippedAfter, false, 0;
      }
    }

    /**
     * `run`: the players take turns in seat order, round after round, until
     * a turn ends the game; the result is the winner's seat number.
     */
    method Run() returns (winner: int)
      requires |players| >= 1 && Distinct(players)
      requires board == [] ==> players[0].dominoes != []
      modifies this, set p | p in players
      ensures var r := PlayFrom(old(board), old(Hands()), 0, 0);
        && board == r.board && Hands() == r.hands && winner == players[r.ending.winner].order
    {
      var n := |players|;
      ghost var hs := Hands();
      ghost var result := PlayFrom(board, hs, 0, 0);
      var skipped: nat := 0;
      while true
        invariant Hands() == hs && |hs| == n
        invariant skipped < SkipLimit && (board == [] ==> hs[0] != [])
        invariant PlayFrom(board, hs, 0, skipped) == result
        decreases Total(hs), SkipLimit - skipped
      {
        ghost var total0, skipped0 := Total(hs), skipped;
        for i := 0 to n
          invariant Hands() == hs && |hs| == n
          invariant skipped < SkipLimit
          invariant board == [] ==> i == 0 && hs[0] != []
          invariant PlayFrom(board, hs, if i == n then 0 else i, skipped) == result
          invariant Total(hs) <= total0
          invariant Total(hs) == total0 ==> skipped == skipped0 + i
        {
          var over;
          skipped, over, winner := TakeTurn(i, skipped);
          if over {
            return;
          }
          hs := Hands();
        }
      }
    }
  }

  /**
   * Two players, the first holding (6, 6) and the second (2, 3), at a game
   * on an empty board: a block is won by the second, whose order is 2.
   */
  method EndViaBlockExample() returns (winner: int)
    ensures winner == 2
  {
    var p := new Player(1);
    var p2 := new Player(2);
    p.AddDomino((6, 6));
    p2.AddDomino((2, 3));
    var g := new Game([], [p, p2]);
    var hands := g.Hands();
    assert hands[0] == [(6, 6)] && hands[1] == [(2, 3)];
    assert hands == [[(6, 6)], [(2, 3)]];
    EndingsExample();
    winner := g.EndViaBlock();
  }
}
