# Mancala board and sowing, in Dafny

This project models the core of `main.go`, a small Go program for the board game
Mancala. The program keeps the board as a circular linked list of `Cell`s. Each
cell has a seed count (`value`), a store tag (`store`: 0 for a pit, `c` = 1 for
the close store, `f` = 2 for the far store) and a `next` link. The model covers
three parts of it:

- `newField`, which links 2 × 6 pits and the two stores into one cycle;
- `Cell.sow`, which lifts the seeds of a cell, drops them one per cell along the
  cycle, passes over the opponent's store, and then either gives an extra turn
  (the last seed lands in the player's own store) or sows again from the cell
  where the last seed landed;
- the part of `printField` that walks one lap from a store, sorts the pits into
  two rows and assembles the list of values that the format string shows.

The cycle is modelled as three arrays indexed by cell (module `Mancala`, class
`Field`). Cell 0 is the close store, cells 1..6 are the pits towards the far store, cell 7
is the far store and cells 8..13 are the pits back towards the close store. A
`next` link is the index of the cell it points to.

The methods are proved against specification functions on seed sequences:

- `Board` holds the layout.
- `Sowing` holds one distribution pass, its closed form and the chained sow.
- `Printing` holds the value list.

Three statements of the source do not do what their comments and the program's
evident design say (see "## Findings"). For each of them, the code as written
is modelled beside the intended behaviour:

- `LiteralSow` is the sow loop as written.
- `Mancala.Field.RowsAsWritten` is printField with Go slice aliasing. It uses
  `GoSlices`, a model of Go's `append` on a shared backing array.

The rest of the model uses the intended behaviour.

The code always chains: it sows again from any pit where the last seed lands,
whether or not that pit was empty. A later rule variant that ends the turn on an
empty pit does not appear in `main.go`, so the model follows the code.

## Model

| member | source | states |
|---|---|---|
| Board.StepsIsModular | main.go:49-70 | following `next` k times from cell i reaches cell (i + k) mod 14 |
| Board.CycleShape | main.go:49-70 | the links form a single cycle of 14 cells: no cell recurs before 14 steps, every cell is on the walk from the close store, and the two stores are 7 steps apart in both directions |
| Board.StoreTags | main.go:50 | only the two stores carry a tag, the close store `c` and the far store `f`, and the tags differ |
| Board.SkippedIsOpponentStore | main.go:28-31 | the skip test `store != 0 && store != player` picks out exactly the opponent's store and never the player's own |
| Board.InitialTotal | main.go:5-7 | a new board holds 6 × 2 × 3 = 36 seeds, all of them in pits, and its stores are empty |
| Sowing.Pass | main.go:23-36 | one distribution pass adds exactly `hand` seeds to the board and never touches the opponent's store; it always ends on a cell that is not skipped |
| Sowing.PassOnlyAdds | main.go:33 | a pass never lowers a cell, and the cell where it ends gained at least one seed |
| Sowing.PassClosedForm | main.go:23-44 | closed form of a pass: each cell other than the opponent's store gains one seed per lap that reaches it, and the last seed lands on the cell of rank (hand − 1) mod 13 |
| Sowing.FirstPass | main.go:23-36 | lifting the origin's seeds and sowing them keeps the total on the board; the opponent's store is emptied only when it was itself the origin; the landing cell is never empty |
| Sowing.FirstPassClosedForm | main.go:23-44 | after the first pass the origin holds only what later laps bring back to it, and every other cell has gained its share |
| Sowing.SowSpec | main.go:16-46 | a finished sow conserves the seeds on the board and does not feed the opponent's store; it gives an extra turn exactly when its origin was not empty, because every chained sow starts from a cell that just received a seed, so `false` only ever means an empty origin |
| Sowing.ExtraTurnExactReach | main.go:36-39 | the first pass gives an extra turn exactly when the number of seeds lifted reaches the player's own store, modulo a lap; the sow then stops with that board |
| Sowing.SowSpecStep | main.go:36-41 | a sow from a non-empty cell is its first pass, followed by an extra turn at the own store or by the sow from the landing cell |
| Sowing.SowFuelMonotone | main.go:40-41 | the bound on the chain of sows only cuts it short: a sow that finishes within some bound gives the same outcome with any larger bound |
| SowingExamples.SowExampleExtraTurn | main.go:18-46 | on a new board, the far player sowing pit 4 (3 seeds) ends in their own store and gets an extra turn, with the board written out |
| SowingExamples.SowExampleChains | main.go:23-44 | on a new board, the close player sowing the first pit fills the next three pits to 4 each and leaves the close store unchanged, landing on pit 4 |
| Mancala.Field.NewField | main.go:49-70 | newField builds the cycle of `Valid`: every link is to the next cell, the stores are tagged `c` and `f`, pits hold 3 seeds and stores none |
| Mancala.Field.LinkRow | main.go:54-67 | one loop of newField appends 6 pits of 3 seeds after the given cell, each linked to the next, and changes no other cell |
| Mancala.Field.Drop | main.go:33 | `cur.value++` adds one seed to that cell and leaves every other cell and every link as it was |
| Mancala.Field.Sow | main.go:16-46 | an empty origin changes nothing and gives no extra turn; otherwise the board and the extra-turn flag are those of `SowSpec`, and it runs out of fuel exactly when `SowSpec` does; a finished sow returns true exactly when its origin held seeds |
| Mancala.Field.Distribute | main.go:23-44 | the loop that lifts and drops seeds leaves the board that `FirstPass` gives and returns the cell where the last seed fell |
| Mancala.Field.Rows | main.go:73-108 | the value list assembled from a store is `Display` of the board: far store, then each pit after the close store followed by the facing pit after the far store, then close store |
| Mancala.Field.CollectRows | main.go:74-99 | one lap from a store puts the 6 pits after the close store in `farToClose` and the 6 after the far store in `closeToFar`, in `next` order, and finds both stores |
| Printing.Display | main.go:101-108 | the list has 14 entries: far store first, close store last, and at 2i+1 and 2i+2 the i-th pit after the close and after the far store |
| Printing.DisplayShowsEveryCell | main.go:101-108 | every cell's value appears in the list, at a position of its own |
| Printing.ShownIsBijection | main.go:101-108 | list positions and cells correspond one to one |
| Printing.AliasedDisplayCorrectIff | main.go:81-84 | the list printField builds as written equals the intended one if and only if each pit after the close store holds as many seeds as the facing pit after the far store |
| Mancala.Field.RowsAsWritten | main.go:73-108 | printField as written from a store lists, in both rows, the pits after the store reached second (`AliasedDisplay`) |
| Mancala.Field.CollectRowsAsWritten | main.go:74-99 | with Go slices, both rows end up as the same 6-element view of `temp`'s backing array, which holds the row collected last |
| GoSlices.Append | main.go:89-96 | `append` writes into the backing array when there is room, keeping the elements before it and after it; without room it copies them to a fresh array and leaves the old one as it was |
| SowingExamples.AliasedDisplayWrongAfterSow | main.go:81-84 | after the close player's first pass on a new board, printField as written from the close store shows a wrong list |
| LiteralSow.Start | main.go:24-26 | as written, the loop starts with the origin emptied, every seed of it in hand and `cur` at the next cell, the rest of the board unchanged |
| LiteralSow.Body | main.go:28-44 | one iteration of the loop as written: a skipped store leaves every variable unchanged; a drop that empties the hand returns at the own store or chains at a pit |
| LiteralSow.Resume | main.go:41-44 | when the nested call of line 41 returns, its result is dropped and the loop goes on at the next cell with `hand` still 0, on the board the call left |
| LiteralSow.Run | main.go:27-45 | k iterations of the `for` loop as written: the loop state after them, or the return or recursive call that ended it first; no iterations leave the state as it was |
| LiteralSow.SkipSpinsForever | main.go:29-30 | once the loop as written reaches the opponent's store, no number of iterations changes the state or leaves the loop |
| LiteralSow.SpinExample | main.go:29-30 | on a new board, the close player sowing pit 5 reaches the far store with 2 seeds in hand and stays there |
| LiteralSow.ChainExample | main.go:33-41 | on a new board, the far player sowing pit 1 ends on pit 4 and reaches the recursive call |
| LiteralSow.DiscardedChainWrapsHand | main.go:34-44 | after the recursive call returns, the loop drops a seed from an empty hand: the board gains a seed out of nothing and the hand wraps to 2^64 − 1 on a 64-bit platform |
| LiteralSow.WrapExample | main.go:34-44 | on the board [0,1,4,3,3,3,3,0,3,3,3,3,3,3], the far player sowing pit 1 chains at pit 2; the nested sow ends in the far store and returns, and the outer loop resumes at pit 3 with its hand wrapping |
| LiteralSow.NestedSowReturns | main.go:28-39 | from a cell holding 5 seeds at pit 2, the loop as written for the far player drops on pits 3 to 6 and the far store and returns true |
| LiteralSow.DropAgreesWithPass | main.go:33-44 | away from the opponent's store, a drop of the loop as written is the same step as the intended pass |
| LiteralSow.LastDropAgreesWithPass | main.go:33-41 | the last seed of a hand leaves the loop as written where the intended pass lands, with the same board |

## Left out

- `main` and the `fmt.Printf` layout of printField are not modelled; the model stops at the list of values handed to the format string.
- printField from a cell that is not a store is not modelled. `Rows`, `RowsAsWritten` and their collectors require a store origin, which is the only origin `main` uses.
- The `case 0` append to `temp` in printField cannot happen from a store origin, since the first cell sets `to`. `CollectRowsAsWritten` marks it as dead code.
- Cells are array entries, not heap objects: pointer identity and allocation order in newField are not modelled. A `next` link is an index.
- Player values other than `c` and `f` are excluded by `IsPlayer`, following the comment at main.go:16 (the player "gets an extra turn" at their store) and the test `cur.store == player` at line 38. Nothing in `main.go` calls `sow` with any particular player; the recursive call of line 41 passes its own `player` on. A player 0 would skip both stores and get an extra turn on any pit.
- Seed counts are unbounded naturals. The `uint` wrap-around of `value` (at 2^64 on a 64-bit platform, 2^32 on a 32-bit one) is not modelled, since a board holds 36 seeds. The wrap-around of `hand` is modelled in `LiteralSow`, where the code as written reaches it, for a 64-bit platform.
- Mancala.Field.Sow: the chain of sows is bounded by a `fuel` argument, and `None` reports that the bound ran out. Whether the intended chain always ends is not proved.
- Sowing.SowSpec: its contract states conservation, the opponent's store and the meaning of the extra-turn flag. The exact board is stated by `FirstPassClosedForm` for each pass, not in closed form for the whole chain.
- GoSlices.Append: the growth factor of a full slice is not Go's. No slice in printField grows from a store origin.
- LiteralSow models the sow loop as written on values, one iteration at a time. It is not a method: a method that ran the loop as written would have to be allowed not to terminate, and could then state nothing about a run that spins; `Run` with an iteration bound lets `SkipSpinsForever` state that the loop stays at the opponent's store for any number of iterations. The result of the recursive call of line 41 is a parameter (`Resume`), since it depends on a sow that may itself never return.
- The stop-when-landing-in-an-empty-pit rule of later revisions is not in `main.go` and is not modelled.
- Cloning, parallel simulations, turn loops and win detection are not part of `main.go` and are not modelled.

## Findings

| source | as written | input that shows it | evidently intended | confidence | as-written member | corrected member |
|---|---|---|---|---|---|---|
| main.go:29-30 | the skip `continue`s without `cur = cur.next`, so the loop re-tests the same store for ever | new board, player `c` sows pit 5: one seed to pit 6, then it spins on the far store with 2 seeds in hand | move to the next cell and go on sowing | high; not executed | LiteralSow.SkipSpinsForever | Sowing.Pass |
| main.go:41 | the result of the recursive `cur.sow(player)` is dropped and the loop continues with `hand == 0`; the next drop wraps `hand` to 2^64 − 1 (on a 64-bit platform) and creates a seed | board [0,1,4,3,3,3,3,0,3,3,3,3,3,3], player `f` sows pit 1: the seed lands on pit 2, which then holds 5; the nested sow ends in the far store and returns true; the outer loop resumes at pit 3 with `hand` 0 and wraps | `return cur.sow(player)` | high; not executed | LiteralSow.WrapExample | Sowing.SowSpec |
| main.go:81-84 | `farToClose = temp` and `closeToFar = temp` make both rows views of `temp`'s backing array, so the row collected second overwrites the first | printField from the close store after player `c`'s first pass from pit 1 of a new board: pit 1 holds 0 and pit 8 holds 3, yet both rows show the far row | each row collected into its own slice | high; not executed | Mancala.Field.RowsAsWritten | Mancala.Field.Rows |
