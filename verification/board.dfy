/**
 * The Mancala board: a fixed cycle of 2 * FieldSize + 2 cells, each holding a
 * seed count.  Cell 0 is the close store, cells 1 .. FieldSize the pits from
 * the close store towards the far store, cell FieldSize + 1 the far store and
 * the remaining cells the pits from the far store back to the close store:
 * the order in which main.go's newField links its cells.
 */
module Board {

  /** Pits on each side of the board (`fieldSize`). */
  const FieldSize: nat := 6
  /** Seeds in every pit of a new board (`startingSeeds`). */
  const StartingSeeds: nat := 3
  /** Store tags: 0 marks an ordinary pit, C the close store, F the far store. */
  const C: nat := 1
  const F: nat := 2

  /** Number of cells in the cycle. */
  const Cells: nat := 2 * FieldSize + 2
  const CloseStore: nat := 0
  const FarStore: nat := FieldSize + 1

  type Index = i: nat | i < Cells

  /** The cell that `next` points to. */
  function Next(i: Index): Index {
    if i == Cells - 1 then 0 else i + 1
  }

  /** The cell reached from `i` by following `next` k times. */
  function Steps(i: Index, k: nat): Index
    decreases k
  {
    if k == 0 then i else Steps(Next(i), k - 1)
  }

  /** The `store` field of each cell as newField sets it. */
  function StoreTag(i: Index): nat {
    if i == CloseStore then C else if i == FarStore then F else 0
  }

  /** A player is identified by the tag of their own store. */
  predicate IsPlayer(player: nat) {
    player == C || player == F
  }

  function OwnStore(player: nat): Index
    requires IsPlayer(player)
  {
    if player == C then CloseStore else FarStore
  }

  function OpponentStore(player: nat): Index
    requires IsPlayer(player)
  {
    if player == C then FarStore else CloseStore
  }

  /** The test sowing uses to pass over a cell: a store that is not the player's own. */
  predicate Skipped(i: Index, player: nat) {
    StoreTag(i) != 0 && StoreTag(i) != player
  }

  predicate IsBoard(b: seq<nat>) {
    |b| == Cells
  }

  function Sum(s: seq<nat>): nat {
    if s == [] then 0 else s[0] + Sum(s[1..])
  }

  /** The seed counts of a board fresh from newField. */
  function InitialSeeds(): (b: seq<nat>)
    ensures IsBoard(b)
  {
    seq(Cells, i requires 0 <= i < Cells => if StoreTag(i) == 0 then StartingSeeds else 0)
  }

  /** Following `next` k times from cell i is adding k modulo the cycle length. */
  lemma {:induction false} StepsIsModular(i: Index, k: nat)
    ensures Steps(i, k) == (i + k) % Cells
    decreases k
  {
    if k > 0 {
      StepsIsModular(Next(i), k - 1);
      if i == Cells - 1 {
        LapMod(k - 1);
      }
    }
  }

  /** Adding a whole lap does not change a position on the cycle. */
  lemma LapMod(x: nat)
    ensures (x + Cells) % Cells == x % Cells
  {
    var q, m := x / Cells, x % Cells;
    assert x == q * Cells + m;
    assert x + Cells == (q + 1) * Cells + m;
  }

  /**
   * The links form one cycle of Cells cells through both stores: from either
   * store the walk first comes back after exactly Cells steps, every cell
   * lies on the walk from the close store, and the two stores are
   * FieldSize + 1 steps apart.
   */
  lemma CycleShape()
    ensures Steps(CloseStore, FieldSize + 1) == FarStore
    ensures Steps(FarStore, FieldSize + 1) == CloseStore
    ensures forall i: Index :: Steps(i, Cells) == i
    ensures forall i: Index, k :: 0 < k < Cells ==> Steps(i, k) != i
    ensures forall j: Index :: Steps(CloseStore, j) == j
  {
    StepsIsModular(CloseStore, FieldSize + 1);
    StepsIsModular(FarStore, FieldSize + 1);
    forall i: Index ensures Steps(i, Cells) == i {
      StepsIsModular(i, Cells);
    }
    forall i: Index, k | 0 < k < Cells ensures Steps(i, k) != i {
      StepsIsModular(i, k);
    }
    forall j: Index ensures Steps(CloseStore, j) == j {
      StepsIsModular(CloseStore, j);
    }
  }

  /** Exactly the two stores carry a store tag, C and F, and they differ. */
  lemma StoreTags()
    ensures StoreTag(CloseStore) == C && StoreTag(FarStore) == F && C != F
    ensures forall i: Index :: StoreTag(i) != 0 <==> i == CloseStore || i == FarStore
  {
  }

  /** For a player, the skipped cell is exactly the opponent's store. */
  lemma SkippedIsOpponentStore(player: nat, i: Index)
    requires IsPlayer(player)
    ensures Skipped(i, player) <==> i == OpponentStore(player)
    ensures !Skipped(OwnStore(player), player)
  {
  }

  /** Replacing one entry changes the sum by the difference. */
  lemma {:induction false} SumUpdate(s: seq<nat>, i: nat, v: nat)
    requires i < |s|
    ensures Sum(s[i := v]) + s[i] == Sum(s) + v
    decreases |s|
  {
    if i == 0 {
      assert s[i := v][1..] == s[1..];
    } else {
      SumUpdate(s[1..], i - 1, v);
      assert s[i := v][1..] == s[1..][i - 1 := v];
    }
  }

  lemma {:induction false} SumConcat(a: seq<nat>, b: seq<nat>)
    ensures Sum(a + b) == Sum(a) + Sum(b)
    decreases |a|
  {
    if a == [] {
      assert a + b == b;
    } else {
      SumConcat(a[1..], b);
      assert (a + b)[1..] == a[1..] + b;
    }
  }

  /** The seeds of n pits as newField fills them. */
  lemma {:induction false} SumOfPits(n: nat)
    ensures Sum(seq(n, k => StartingSeeds)) == n * StartingSeeds
  {
    if n > 0 {
      SumOfPits(n - 1);
      assert seq(n, k => StartingSeeds)[1..] == seq(n - 1, k => StartingSeeds);
    }
  }

  /** A new board holds StartingSeeds in each of its 2 * FieldSize pits and nothing in its stores. */
  lemma InitialTotal()
    ensures Sum(InitialSeeds()) == 2 * FieldSize * StartingSeeds
    ensures InitialSeeds()[CloseStore] == 0 && InitialSeeds()[FarStore] == 0
  {
    var row := seq(FieldSize, k => StartingSeeds);
    assert InitialSeeds() == [0] + row + [0] + row;
    SumOfPits(FieldSize);
    SumConcat([0] + row + [0], row);
    SumConcat([0] + row, [0]);
    SumConcat([0], row);
  }
}
