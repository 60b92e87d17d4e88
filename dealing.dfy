/**
 * Dealing: each player in turn draws the same number of tiles from a
 * shared pool. The random index of every draw is supplied by the caller.
 */
module Dealing {
  import opened Tiles
  import opened Players

  /** The k-th pick indexes the pool as it stands after k earlier pops. */
  predicate ValidPicks(pool: seq<Domino>, picks: seq<int>)
  {
    forall k :: 0 <= k < |picks| ==> 0 <= picks[k] < |pool| - k
  }

  /** The tiles popped by `picks`, in order, and what is left of the pool afterwards. */
  function Draw(pool: seq<Domino>, picks: seq<int>): (r: (seq<Domino>, seq<Domino>))
    requires ValidPicks(pool, picks)
    ensures |r.0| == |picks| && |r.1| == |pool| - |picks|
    decreases |picks|
  {
    if picks == [] then ([], pool)
    else
      var earlier := picks[..|picks| - 1];
      assert ValidPicks(pool, earlier) by {
        forall k | 0 <= k < |earlier| ensures 0 <= earlier[k] < |pool| - k {
          assert earlier[k] == picks[k];
        }
      }
      var prev := Draw(pool, earlier);
      var i := picks[|picks| - 1];
      var rest := prev.1;
      (prev.0 + [rest[i]], rest[..i] + rest[i + 1..])
  }

  /** No tile is created or lost: the drawn tiles and the rest together make up the pool. */
  lemma {:induction false} DrawConserves(pool: seq<Domino>, picks: seq<int>)
    requires ValidPicks(pool, picks)
    ensures multiset(Draw(pool, picks).0) + multiset(Draw(pool, picks).1) == multiset(pool)
    decreases |picks|
  {
    if picks != [] {
      var earlier := picks[..|picks| - 1];
      PrefixValid(pool, picks, |picks| - 1);
      DrawConserves(pool, earlier);
      var prev := Draw(pool, earlier);
      var i := picks[|picks| - 1];
      assert prev.1 == prev.1[..i] + [prev.1[i]] + prev.1[i + 1..];
    }
  }

  /** In particular every tile dealt or left over was in the pool, and every pool tile is one or the other. */
  lemma DealtOrLeft(pool: seq<Domino>, picks: seq<int>, d: Domino)
    requires ValidPicks(pool, picks)
    ensures d in Draw(pool, picks).0 || d in Draw(pool, picks).1 <==> d in pool
  {
    DrawConserves(pool, picks);
    var r := Draw(pool, picks);
    assert d in multiset(r.0) + multiset(r.1) <==> d in multiset(pool);
  }

  /** `int(len(dominoes) / len(players))`: the tiles each player receives. */
  function HandNumber(poolSize: nat, players: nat): nat
    requires players >= 1
  {
    poolSize / players
  }

  /** 28 tiles among 4 players is 7 each; 36 among 6 is 6 each: the arithmetic behind the standard deals. */
  lemma StandardHandNumbers()
    ensures HandNumber(28, 4) == 7 && HandNumber(36, 6) == 6
  {
  }

  /** Where player k's share starts: k * h, built up one hand at a time. */
  function Offset(k: nat, h: nat): nat
  {
    if k == 0 then 0 else Offset(k - 1, h) + h
  }

  lemma {:induction false} OffsetIsProduct(k: nat, h: nat)
    ensures Offset(k, h) == k * h
  {
    if k > 0 {
      OffsetIsProduct(k - 1, h);
    }
  }

  /** The share of a player before the last ends no later than all n shares do. */
  lemma {:induction false} ShareFits(k: nat, h: nat, n: nat)
    requires k < n
    ensures Offset(k, h) + h <= Offset(n, h)
    decreases n
  {
    if k < n - 1 {
      ShareFits(k, h, n - 1);
    }
  }

  /** Player k's share of the drawn tiles: positions k*h .. k*h + h (empty if they do not exist). */
  function Share(drawn: seq<Domino>, k: nat, h: nat): seq<Domino>
  {
    var start := Offset(k, h);
    if start + h <= |drawn| then drawn[start .. start + h] else []
  }

  /** Each of n players' shares of n * h drawn tiles has h tiles. */
  lemma ShareLength(drawn: seq<Domino>, k: nat, h: nat, n: nat)
    requires k < n && |drawn| == Offset(n, h)
    ensures |Share(drawn, k, h)| == h
  {
    ShareFits(k, h, n);
  }

  /** The k-th pick's prefix is itself a valid pick sequence. */
  lemma PrefixValid(pool: seq<Domino>, picks: seq<int>, m: nat)
    requires ValidPicks(pool, picks) && m <= |picks|
    ensures ValidPicks(pool, picks[..m])
  {
    forall k | 0 <= k < m ensures 0 <= picks[..m][k] < |pool| - k {
      assert picks[..m][k] == picks[k];
    }
  }

  /** One more pick pops the tile at that index from what the earlier picks left. */
  lemma DrawStep(pool: seq<Domino>, picks: seq<int>, m: nat)
    requires ValidPicks(pool, picks) && m < |picks|
    ensures ValidPicks(pool, picks[..m]) && ValidPicks(pool, picks[..m + 1])
    ensures var prev := Draw(pool, picks[..m]);
      Draw(pool, picks[..m + 1]) == (prev.0 + [prev.1[picks[m]]], prev.1[..picks[m]] + prev.1[picks[m] + 1..])
  {
    PrefixValid(pool, picks, m);
    PrefixValid(pool, picks, m + 1);
    assert picks[..m + 1][..m] == picks[..m];
  }

  /** The first m draws of a longer pick sequence are the same draws. */
  lemma {:induction false} DrawPrefix(pool: seq<Domino>, picks: seq<int>, m: nat)
    requires ValidPicks(pool, picks) && m <= |picks|
    ensures ValidPicks(pool, picks[..m])
    ensures Draw(pool, picks[..m]).0 == Draw(pool, picks).0[..m]
    decreases |picks| - m
  {
    PrefixValid(pool, picks, m);
    if m < |picks| {
      DrawPrefix(pool, picks, m + 1);
      DrawStep(pool, picks, m);
      var longer := Draw(pool, picks[..m + 1]).0;
      assert longer[..m] == Draw(pool, picks[..m]).0;
    } else {
      assert picks[..m] == picks;
    }
  }

  /** The pick after the first m pops the m-th drawn tile from the pool those pops left. */
  lemma DrawNext(pool0: seq<Domino>, picks: seq<int>, m: nat, pool: seq<Domino>)
    requires ValidPicks(pool0, picks) && m < |picks|
    requires ValidPicks(pool0, picks[..m]) && pool == Draw(pool0, picks[..m]).1
    ensures ValidPicks(pool0, picks[..m + 1]) && 0 <= picks[m] < |pool|
    ensures Draw(pool0, picks).0[m] == pool[picks[m]]
    ensures Draw(pool0, picks[..m + 1]).1 == pool[..picks[m]] + pool[picks[m] + 1..]
  {
    DrawPrefix(pool0, picks, m + 1);
    DrawStep(pool0, picks, m);
  }

  lemma SliceExtend(s: seq<Domino>, a: int, b: int)
    requires 0 <= a <= b < |s|
    ensures s[a..b + 1] == s[a..b] + [s[b]]
  {
  }

  /**
   * The inner loop of `assign_dominoes`: `count` times, pop the tile at the
   * next pick from the pool and add it to the player's hand. `drawn` picks
   * have been served before.
   */
  method DrawInto(player: Player, dominoes: seq<Domino>, picks: seq<int>, drawn: nat, count: nat,
                  pool: seq<Domino>) returns (rest: seq<Domino>)
    requires ValidPicks(dominoes, picks) && drawn + count <= |picks|
    requires ValidPicks(dominoes, picks[..drawn]) && pool == Draw(dominoes, picks[..drawn]).1
    modifies player
    ensures ValidPicks(dominoes, picks[..drawn + count]) && rest == Draw(dominoes, picks[..drawn + count]).1
    ensures player.dominoes == old(player.dominoes) + Draw(dominoes, picks).0[drawn .. drawn + count]
  {
    ghost var all := Draw(dominoes, picks).0;
    rest := pool;
    var m := drawn;
    while m < drawn + count
      invariant drawn <= m <= drawn + count
      invariant ValidPicks(dominoes, picks[..m]) && rest == Draw(dominoes, picks[..m]).1
      invariant player.dominoes == old(player.dominoes) + all[drawn .. m]
    {
      var rand := picks[m];
      DrawNext(dominoes, picks, m, rest);
      var domino := rest[rand];
      rest := rest[..rand] + rest[rand + 1..];
      player.AddDomino(domino);
      SliceExtend(all, drawn, m);
      m := m + 1;
    }
  }

  /**
   * `assign_dominoes`: for each player in order, pop `HandNumber` tiles at
   * the given indices and add each to that player's hand. Player k
   * receives the k-th block of drawn tiles; the rest of the pool is
   * returned.
   */
  method AssignDominoes(dominoes: seq<Domino>, players: seq<Player>, picks: seq<int>)
    returns (pool: seq<Domino>)
    requires |players| >= 1 && Distinct(players)
    requires |picks| == |players| * HandNumber(|dominoes|, |players|)
    requires ValidPicks(dominoes, picks)
    modifies set p | p in players
    ensures pool == Draw(dominoes, picks).1
    ensures forall k :: 0 <= k < |players| ==>
      var h := HandNumber(|dominoes|, |players|);
      && |players[k].dominoes| == |old(players[k].dominoes)| + h
      && players[k].dominoes == old(players[k].dominoes) + Share(Draw(dominoes, picks).0, k, h)
  {
    var h := HandNumber(|dominoes|, |players|);
    ghost var all := Draw(dominoes, picks).0;
    OffsetIsProduct(|players|, h);
    pool := dominoes;
    var drawn: nat := 0;  // how many draws the random stream has served
    assert picks[..0] == [];
    for k := 0 to |players|
      invariant drawn == Offset(k, h) && drawn <= |picks|
      invariant ValidPicks(dominoes, picks[..drawn]) && pool == Draw(dominoes, picks[..drawn]).1
      invariant forall j :: 0 <= j < |players| ==>
        players[j].dominoes == old(players[j].dominoes) + if j < k then Share(all, j, h) else []
    {
      ShareFits(k, h, |players|);
      assert Share(all, k, h) == all[drawn .. drawn + h];
      pool := DrawInto(players[k], dominoes, picks, drawn, h, pool);
      forall j | 0 <= j < |players| && j != k
        ensures players[j] != players[k]
      {
      }
      drawn := drawn + h;
    }
    forall k | 0 <= k < |players|
      ensures |players[k].dominoes| == |old(players[k].dominoes)| + h
    {
      ShareLength(all, k, h, |players|);
    }
    assert picks[..drawn] == picks;
  }

  /**
   * A new table: the full set up to double-`size`, dealt by
   * `assign_dominoes` to `make_players(num)`. Every player holds exactly
   * `HandNumber` tiles, their own block of the draws.
   */
  method DealNewTable(size: int, num: int, picks: seq<int>) returns (players: seq<Player>)
    requires num >= 1
    requires |picks| == num * HandNumber(|DominoSet(size)|, num) && ValidPicks(DominoSet(size), picks)
    ensures |players| == num && Distinct(players)
    ensures forall k :: 0 <= k < num ==>
      var h := HandNumber(|DominoSet(size)|, num);
      |players[k].dominoes| == h && players[k].dominoes == Share(Draw(DominoSet(size), picks).0, k, h)
  {
    var dominoes := CreateDominoSet(size);
    var made := MakePlayers(num);
    players := made.players;
    var rest := AssignDominoes(dominoes, players, picks);
  }

  /** A full double-six set dealt to four new players: each of them, the second player included, holds 7 tiles. */
  method DealDoubleSixToFour(picks: seq<int>) returns (players: seq<Player>)
    requires |picks| == 28 && ValidPicks(DominoSet(6), picks)
    ensures |players| == 4
    ensures forall k :: 0 <= k < 4 ==>
      |players[k].dominoes| == 7 && players[k].dominoes == Share(Draw(DominoSet(6), picks).0, k, 7)
  {
    StandardSetSizes();
    StandardHandNumbers();
    players := DealNewTable(6, 4, picks);
  }

  /** A full double-seven set dealt to six new players: each of them, the third player included, holds 6 tiles. */
  method DealDoubleSevenToSix(picks: seq<int>) returns (players: seq<Player>)
    requires |picks| == 36 && ValidPicks(DominoSet(7), picks)
    ensures |players| == 6
    ensures forall k :: 0 <= k < 6 ==>
      |players[k].dominoes| == 6 && players[k].dominoes == Share(Draw(DominoSet(7), picks).0, k, 6)
  {
    StandardSetSizes();
    StandardHandNumbers();
    players := DealNewTable(7, 6, picks);
  }
}
