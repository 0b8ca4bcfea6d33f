/**
 * The list of values printField hands to its format string (main.go, lines
 * 101-108): the far store, then for each i the i-th pit after the close
 * store followed by the i-th pit after the far store, then the close store.
 */
module Printing {
  import opened Board

  /** The i-th pit after store `s`. */
  function Pit(s: Index, i: nat): Index
    requires StoreTag(s) != 0 && i < FieldSize
  {
    s + 1 + i
  }

  /** The first `n` pits after store `s`, in `next` order. */
  function RowAfter(s: Index, n: nat): (row: seq<nat>)
    requires StoreTag(s) != 0 && n <= FieldSize
    ensures |row| == n
    ensures forall k :: 0 <= k < n ==> row[k] == Pit(s, k) && StoreTag(row[k]) == 0
  {
    seq(n, k requires 0 <= k < n => Pit(s, k))
  }

  /** A row grows by the next pit after the ones it has. */
  lemma RowAfterExtend(s: Index, n: nat)
    requires StoreTag(s) != 0 && n < FieldSize
    ensures RowAfter(s, n + 1) == RowAfter(s, n) + [Pit(s, n)]
  {
  }

  /** The cell whose value is shown at position `k` of the list. */
  function ShownCell(k: nat): Index
    requires k < Cells
  {
    if k == 0 then FarStore
    else if k == Cells - 1 then CloseStore
    else if k % 2 == 1 then (k + 1) / 2
    else FarStore + k / 2
  }

  /** The position of the list at which cell `j` is shown. */
  function ShownAt(j: Index): nat {
    if j == FarStore then 0
    else if j == CloseStore then Cells - 1
    else if j < FarStore then 2 * j - 1
    else 2 * (j - FarStore)
  }

  /** Every cell is shown exactly once: positions and cells are in one-to-one correspondence. */
  lemma ShownIsBijection()
    ensures forall k :: 0 <= k < Cells ==> ShownAt(ShownCell(k)) == k
    ensures forall j: Index :: ShownAt(j) < Cells && ShownCell(ShownAt(j)) == j
  {
  }

  /** The values printField lays out, in the order the format string receives them. */
  function Display(b: seq<nat>): (vals: seq<nat>)
    requires IsBoard(b)
    ensures |vals| == Cells
    ensures vals[0] == b[FarStore] && vals[Cells - 1] == b[CloseStore]
    ensures forall i :: 0 <= i < FieldSize ==>
      vals[2 * i + 1] == b[Pit(CloseStore, i)] && vals[2 * i + 2] == b[Pit(FarStore, i)]
  {
    seq(Cells, k requires 0 <= k < Cells => b[ShownCell(k)])
  }

  /** Each cell's value appears in the list, at its own position. */
  lemma DisplayShowsEveryCell(b: seq<nat>, j: Index)
    requires IsBoard(b)
    ensures ShownAt(j) < Cells && Display(b)[ShownAt(j)] == b[j]
  {
    ShownIsBijection();
  }

  /** The store whose row printField collects last when its walk starts at `origin`. */
  function LastRowStore(origin: Index): Index
    requires StoreTag(origin) != 0
  {
    if origin == CloseStore then FarStore else CloseStore
  }

  /**
   * The list printField builds as written from a store: both rows read the
   * pits that follow the store reached second, each shown twice, because
   * both row slices end up on the backing array of `temp`.
   */
  function AliasedDisplay(b: seq<nat>, origin: Index): (vals: seq<nat>)
    requires IsBoard(b) && StoreTag(origin) != 0
    ensures |vals| == Cells
    ensures vals[0] == b[FarStore] && vals[Cells - 1] == b[CloseStore]
    ensures forall i :: 0 <= i < FieldSize ==>
      vals[2 * i + 1] == vals[2 * i + 2] == b[Pit(LastRowStore(origin), i)]
  {
    var row := LastRowStore(origin) + 1;
    seq(Cells, k requires 0 <= k < Cells =>
      if k == 0 then b[FarStore]
      else if k == Cells - 1 then b[CloseStore]
      else b[row + (k - 1) / 2])
  }

  /**
   * The list printField builds as written agrees with the intended one
   * exactly when every pit after the close store holds as many seeds as the
   * pit at the same position after the far store, as on a new board.
   */
  lemma AliasedDisplayCorrectIff(b: seq<nat>, origin: Index)
    requires IsBoard(b) && StoreTag(origin) != 0
    ensures AliasedDisplay(b, origin) == Display(b)
      <==> forall i :: 0 <= i < FieldSize ==> b[Pit(CloseStore, i)] == b[Pit(FarStore, i)]
  {
    var aliased, intended := AliasedDisplay(b, origin), Display(b);
    if forall i :: 0 <= i < FieldSize ==> b[Pit(CloseStore, i)] == b[Pit(FarStore, i)] {
      forall k | 0 <= k < Cells ensures aliased[k] == intended[k] {
        if 0 < k < Cells - 1 {
          var i := (k - 1) / 2;
          assert k == 2 * i + 1 || k == 2 * i + 2;
          assert b[Pit(CloseStore, i)] == b[Pit(FarStore, i)];
        }
      }
      assert aliased == intended;
    } else {
      var i :| 0 <= i < FieldSize && b[Pit(CloseStore, i)] != b[Pit(FarStore, i)];
      assert aliased[2 * i + 1] != intended[2 * i + 1] || aliased[2 * i + 2] != intended[2 * i + 2];
    }
  }
}
