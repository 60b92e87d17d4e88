# Dominoes turn engine, modelled in Dafny

This project models the core of a small dominoes simulator (`app.py`). A
set of tiles is generated and dealt to the players. Players then take turns
in seat order, each extending a two-ended chain of tiles on the board. A
player who empties their hand wins. A run of consecutive skips ends the
game as blocked, and the player with the smallest remaining pip sum wins.

Modules, in dependency order:

- `Tiles` (`tiles.dfy`) covers the domino as a pip pair, `flip`, and
  `create_domino_set`.
  - The nested loops are a method proved equal to the row-by-row
    specification `DominoSet`.
  - The lemmas show it holds exactly the pairs `0 <= i <= j <= size`, in
    strict lexicographic order, with `(size+1)(size+2)/2` tiles.
  - `PipSum` is the summation of `add_remaining_dominoes`.
  - `Bag` is the multiset of a line's tiles, each taken up to orientation.
    It is how the model says that tiles move but are never lost.
- `Chain` (`chain.dfy`) covers the board and the closure returned by `_move`.
  - The closure is modelled as `Move = AppendLeft(tile) | Append(tile)`,
    and `Apply` runs it on the board sequence.
  - `ApplyFitting` shows a fitting move keeps the chain linked
    (`board[k].1 == board[k+1].0`), adds one tile, and changes only the end
    it targets.
- `Players` (`players.dfy`) covers the `Player` class, the move policy and
  `make_players`.
  - `Decide` is the pure specification of `decide_move`: on an empty board
    the last tile is popped; otherwise the first tile in hand order that
    matches an end is removed. The placement tests are `d[0]==left`,
    `d[0]==right`, `d[1]==left`, `d[1]==right`, in that order.
  - `Player.DecideMove` is the loop over the hand, proved to agree with
    `Decide`.
- `Dealing` (`dealing.dfy`) covers `assign_dominoes`.
  - Each `randint` result is a caller-supplied index in `picks`.
  - `Draw` is the specification: the tiles popped and the pool left.
  - The nested loops are proved to give player `k` the `k`-th block of
    `HandNumber` drawn tiles.
  - `DrawConserves` shows the dealt tiles plus the remaining pool are the
    original multiset.
  - `DealNewTable` runs a deal through `CreateDominoSet`, `MakePlayers`
    and `AssignDominoes`. `DealDoubleSixToFour` and `DealDoubleSevenToSix`
    are the standard deals.
- `GameLoop` (`game.dfy`) covers `Game`.
  - `Step` is one turn and `PlayFrom` is the rest of the game. `PlayFrom`
    terminates on the measure (tiles in hands, `4 - skipped`).
  - `Game.Run` keeps the source's `while`/`for` structure, and its loop body
    is the method `Game.TakeTurn`. It is proved to produce the board, the
    hands and the winner that `PlayFrom` prescribes.
  - `Game.EndViaBlock` finds the first smallest pip sum by a scan.
    `StableSortHead` shows this is the head of the stably sorted list the
    source builds.

The model follows the code in these details, which differ from how the
game is usually described:

- On an empty board, `decide_move` pops the **last** tile of the hand
  (`app.py:150`), not the first.
- The game ends as blocked when the skip counter equals the literal `4`
  (`app.py:350`), not the number of players.
  - `BlockedGameIsStuck` shows that with at most four players, a blocked
    game leaves nobody able to play.
  - `FivePlayerBlock` shows a five-player game ending as blocked while a
    player still holds a tile that fits.
- Ties in a block go to the earliest player in the list, because Python's
  sort is stable. That is the lowest `order` when players come from
  `make_players`.

## Model

| member | source | states |
|---|---|---|
| `Tiles.FlipTwice` | app.py:46-51 | flipping swaps the two pips, and flipping twice gives the tile back |
| `Tiles.DominoSetMembers` | app.py:54-65 | a pair is in the generated set iff `0 <= d.0 <= d.1 <= size` |
| `Tiles.DominoSetLength` | app.py:54-65 | the set has `(size+1)(size+2)/2` tiles for `size >= 0`, and none for a negative size |
| `Tiles.RowsOrdered` | app.py:61-64 | the tiles produced by the first `n` outer rounds are in strictly increasing lexicographic order, so they hold no duplicates |
| `Tiles.DominoSetFacts` | app.py:54-65 | membership, strict lexicographic order and size of the generated set, together |
| `Tiles.CreateDominoSet` | app.py:54-65 | the nested loops return exactly `DominoSet(size)`: every pair `(i, j)` with `0 <= i <= j <= size`, sorted, of size `(size+1)(size+2)/2` |
| `Tiles.StandardSetSizes` | tests.py:67-75 | 28 tiles for size 6, 36 for 7, 6 for 2, 1 for 0 |
| `Tiles.PipSumNonNegative` | app.py:131-136 | a hand whose pips are all non-negative has a non-negative pip sum |
| `Tiles.PipSumSingle` | app.py:136 | a one-tile hand is worth both its pips |
| `Tiles.PipSumExample` | tests.py:26-32 | a hand of (5, 5) and (2, 3) is worth 15 |
| `Chain.ApplyFitting` | app.py:184-207 | a move whose inner pip meets its end keeps the board linked, adds exactly one tile, leaves the old tiles in place, and changes only the targeted end |
| `Chain.ApplyAddsTile` | app.py:184-207 | running a move adds exactly its tile to the board's tiles (taken up to orientation) and removes none |
| `Chain.AppendToEmpty` | app.py:193-201 | `append` of (4, 5) on an empty board gives `[(4, 5)]` |
| `Players.FirstMatch` | app.py:161-177 | returns the position of the first tile in hand order with a pip equal to either end, or the hand length when there is none |
| `Players.Place` | app.py:163-177 | with the test order `d[0]==left`, `d[0]==right`, `d[1]==left`, `d[1]==right`, the placed tile is the domino or its flip, with its inner pip on the matching end |
| `Players.Remove` | app.py:164 | `list.remove` drops one occurrence: the length falls by one and the multiset loses exactly that tile |
| `Players.RemoveFirstOccurrence` | app.py:161-177 | removing a tile whose first occurrence is at `k` drops exactly position `k` |
| `Players.Decide` | app.py:138-182 | `CannotPlay` iff the board is non-empty and no hand tile matches an end; then the hand is unchanged. Otherwise the move fits, and the hand loses exactly one tile, which is the placed tile or its flip |
| `Players.DecideKeepsTiles` | app.py:138-182 | when `decide_move` plays, the tiles left in hand plus the placed tile, up to orientation, are exactly the tiles held before |
| `Players.DecideOnEmptyBoard` | app.py:148-153 | on an empty board the last tile is popped and the board becomes exactly that tile, unflipped |
| `Players.DecideFirstMatch` | app.py:155-177 | on a non-empty board the first matching tile in hand order is placed, and only its position leaves the hand |
| `Players.DecideExample` | tests.py:34-47 | board `[(4, 5)]` and hand `[(3, 4), (1, 6)]` give board `[(3, 4), (4, 5)]` and hand `[(1, 6)]` |
| `Players.CannotPlayExample` | tests.py:49-59 | board `[(4, 5)]` and hand `[(0, 2), (1, 6)]` give `CannotPlay`, and the hand is kept |
| `Players.Player.constructor` | app.py:114-116 | a new player has the given order and an empty hand |
| `Players.Player.AddDomino` | app.py:118-122 | the tile is appended to the end of the hand |
| `Players.Player.CheckForCompletion` | app.py:124-129 | true exactly when the player's hand is empty |
| `Players.Player.AddRemainingDominoes` | app.py:131-136 | an empty hand scores 0, and a hand of non-negative pips never scores below 0 |
| `Players.CompletionExample` | tests.py:19-24 | a new `Player(4)` has completed, and after `add_domino((5, 5))` it has not |
| `Players.RemainingPointsExample` | tests.py:26-32 | `Player(4)` after adding (5, 5) and (2, 3) has 15 points remaining |
| `Players.Player.DecideMove` | app.py:138-182 | the decision and the new hand are exactly `Decide(old hand, board)` |
| `Players.MakePlayers` | app.py:81-85 | for `num >= 1`: `num` distinct fresh players with orders `1..num` in sequence and empty hands; `IndexError` iff `num < 1` |
| `Dealing.Draw` | app.py:76-78 | drawing one tile per pick gives as many tiles as picks, and leaves the pool shorter by that many |
| `Dealing.DrawConserves` | app.py:75-78 | the drawn tiles plus the remaining pool are the original pool, as a multiset |
| `Dealing.DealtOrLeft` | app.py:75-78 | every tile is dealt or left in the pool iff it was in the pool |
| `Dealing.DrawInto` | app.py:76-78 | the inner loop pops the tile at each pick and appends it to the hand, so the hand gains the next `count` drawn tiles in order |
| `Dealing.AssignDominoes` | app.py:68-78 | every player receives exactly `len(dominoes) // len(players)` tiles, namely their own consecutive block of drawn tiles; the pool keeps the rest |
| `Dealing.DealNewTable` | app.py:54-85 | a set made by `create_domino_set(size)`, dealt by `assign_dominoes` to `make_players(num)`, leaves `num` distinct players each holding exactly `int(len(set) / num)` tiles, their own block of the draws |
| `Dealing.DealDoubleSixToFour` | tests.py:77-87 | `create_domino_set(6)` dealt by `assign_dominoes` to `make_players(4)` leaves each of the four players, the second included, exactly 7 tiles (their own block of the draws) |
| `Dealing.DealDoubleSevenToSix` | tests.py:77-89 | `create_domino_set(7)` dealt to `make_players(6)` leaves each of the six players, the third included, exactly 6 tiles (their own block of the draws) |
| `GameLoop.FirstMinimum` | app.py:307-315 | the chosen position has the smallest value, and every earlier position has a strictly larger one |
| `GameLoop.StableSortHead` | app.py:312-314 | the head of any stable ascending sort by pip sum is the first player with the minimum sum |
| `GameLoop.Step` | app.py:337-363 | a turn that does not end the game leaves a non-empty board, and either a tile left a hand or only the skip counter grew by one |
| `GameLoop.PlayFrom` | app.py:326-363 | the game terminates with as many hands as players, and its winner is a seat at the table |
| `GameLoop.StepInvariants` | app.py:337-363 | one turn keeps the board linked and keeps the number of tiles on the board plus in hands the same. No hand grows, and every seat but the mover's keeps its hand exactly. A completion's winner is the mover with an empty hand. A block leaves board and hands unchanged and is won by the first minimum pip sum |
| `GameLoop.StepKeepsTiles` | app.py:337-363 | one turn keeps the multiset of tiles on the board plus in hands, each taken up to orientation: the tile leaving the mover's hand is the tile placed |
| `GameLoop.PlayInvariants` | app.py:326-363 | over a whole game the board stays linked, the multiset of tiles on the board plus in hands (up to orientation) stays the same, so every tile leaving a hand lands on the board, and hands only shrink. A completion's winner holds no tile. A block's winner is the first player with the minimum pip sum |
| `GameLoop.SkipCounts` | app.py:341-351 | a skip below the limit passes the turn on with the counter one higher and nothing else changed |
| `GameLoop.SkipLimitBlocks` | app.py:345-351 | the fourth consecutive skip ends the game through `_end_via_block` |
| `GameLoop.EmptyHandCompletes` | app.py:353-363 | a move that empties the mover's hand ends the game at once with the mover winning |
| `GameLoop.MoveResetsSkips` | app.py:353-358 | after a successful move the game goes on from the next seat with the counter at 0, whatever it was before |
| `GameLoop.BlockIsStuck` | app.py:345-351 | with at most four players, if the game ends blocked then the last four turns covered every seat and nobody can play |
| `GameLoop.BlockedGameIsStuck` | app.py:347-351 | a whole game of at most four players that ends blocked leaves no player able to place a tile |
| `GameLoop.FivePlayerBlock` | app.py:347-350 | with five players the game ends as blocked after four skips, although the first player still holds a tile that fits |
| `GameLoop.EndingsExample` | tests.py:134-147 | players holding (6, 6) and (2, 3): the blocked game goes to the second |
| `GameLoop.EndViaBlockExample` | tests.py:134-147 | a game whose first player holds (6, 6) and whose second holds (2, 3) ends via block with order 2 returned |
| `GameLoop.Game.constructor` | app.py:296-298 | the game holds the given board and players |
| `GameLoop.Game.EndViaBlock` | app.py:300-324 | returns the order of the first player with the smallest remaining pip sum |
| `GameLoop.Game.TakeTurn` | app.py:338-363 | one pass of the loop body changes the board and hands as `Step` says, and returns the winner's order when the game ends |
| `GameLoop.Game.Run` | app.py:326-363 | the final board and hands and the returned winner's order are those of `PlayFrom(board, hands, 0, 0)` |

## Left out

- `HumanPlayer` (app.py:210-287) is not modelled. It is console input and `sys.exit`.
- Configuration handling (`make_config_file`, `string_to_bool`, reading
  the config file) and the top-level `run()` wiring are not modelled. They
  are file and configuration glue.
- Logging setup and the `__main__` exception handling are not modelled. They are process plumbing.
- `time.sleep` and the `print` calls in `run` and `_end` are not modelled. They only narrate.
- The random index of `assign_dominoes` is not modelled as randomness. It becomes the caller-supplied `picks`, each in range at its pop.
- `analysis.py` is not part of this model. It is a batch statistics and plotting driver.
- `_end` (app.py:319-324) prints a message and returns `player.order`. `EndViaBlock` and `TakeTurn` return that order directly.
- `Players.Player.DecideMove` requires a non-empty hand when the board is empty. In the source, `pop` raises an uncaught `IndexError` there, and the model does not reproduce that crash.
- `GameLoop.Game.Run` requires at least one player. With none, the source's `while` loop never ends.
- `GameLoop.Game.Run` requires a non-empty first hand when the board is empty. Otherwise the source's `pop` (app.py:150) raises an uncaught `IndexError`, which the model does not reproduce.
- `Dealing.AssignDominoes` requires at least one player. With none, `int(len(dominoes)/len(players))` (app.py:73) raises `ZeroDivisionError`, which the model does not reproduce.
- `Dealing.AssignDominoes` returns the leftover pool as `pool`. The source instead shrinks the caller's `dominoes` list in place (app.py:78), so the model does not capture that aliasing effect on the caller's list.
- `GameLoop.Game.EndViaBlock` requires at least one player. With none, `final_result[0]` (app.py:314) raises `IndexError`, which the model does not reproduce.
- `Players.Decide` requires a non-empty hand when the board is empty, for the same uncaught `IndexError` at app.py:150 as `DecideMove`.
- `GameLoop.Step` requires a non-empty mover's hand when the board is empty, for the same `IndexError` at app.py:150.
- `GameLoop.PlayFrom` requires the same of the seat it starts from, for the same `IndexError` at app.py:150. Later turns need no such condition, since the board is never empty after a move.
- Aliasing of one `Player` object at two seats is not modelled. `AssignDominoes`, `TakeTurn` and `Run` require distinct players, which is what `make_players` provides.
- `_end_via_block` builds and sorts a list, but `GameLoop.Game.EndViaBlock` scans for the first minimum instead. `StableSortHead` shows the two choose the same player.
- The board deque is modelled as a sequence, and the closure returned by `_move` as a `Move` value that `Apply` runs.
- `GameLoop.Game.TakeTurn` is the body of `run`'s inner `for` loop, split out as its own method. The loop structure of `Run` is kept.
