/**
 * The board as main.go keeps it: cells whose `value`, `store` and `next`
 * fields live in memory and are updated in place.  Cell i of the cycle is
 * entry i of three arrays; a `next` link is the index of the cell it points
 * to.  Sow and Rows are proved against the functions of Sowing and Printing.
 */
module Mancala {
  import opened Board
  import opened Options
  import opened Sowing
  import opened Printing
  import opened GoSlices

  class Field {
    /** The seed count of each cell (`Cell.value`). */
    const value: array<nat>
    /** The store tag of each cell (`Cell.store`): 0, C or F. */
    const store: array<nat>
    /** The link of each cell (`Cell.next`). */
    const next: array<nat>
    /** The two entry points newField returns. */
    const closeStore: nat
    const farStore: nat

    /** The shape newField builds: tags and links never change after it. */
    ghost predicate Valid()
      reads this, store, next
    {
      && value.Length == Cells && store.Length == Cells && next.Length == Cells
      && value != store && value != next
      && closeStore == CloseStore && farStore == FarStore
      && (forall i :: 0 <= i < Cells ==> store[i] == StoreTag(i))
      && (forall i :: 0 <= i < Cells ==> next[i] == Next(i))
    }

    /**
     * newField (main.go, lines 49-70): the close store, FieldSize pits, the
     * far store and FieldSize more pits, linked in that order and closed
     * into a cycle; every pit holds StartingSeeds and the stores are empty.
     * A cell is allocated by taking the next unused index.
     */
    constructor NewField()
      ensures Valid()
      ensures value[..] == InitialSeeds()
      ensures fresh(value) && fresh(store) && fresh(next)
    {
      var v := new nat[Cells];
      var s := new nat[Cells];
      var n := new nat[Cells];
      v[CloseStore], s[CloseStore] := 0, C;
      v[FarStore], s[FarStore] := 0, F;
      // close => far row
      var cur := LinkRow(v, s, n, CloseStore);
      // insert the far store
      n[cur] := FarStore;
      // far => close row
      cur := LinkRow(v, s, n, FarStore);
      // close the loop
      n[cur] := CloseStore;
      assert forall k :: 0 <= k < Cells ==> s[k] == StoreTag(k) && n[k] == Next(k);
      assert v[..] == InitialSeeds();
      value, store, next := v, s, n;
      closeStore, farStore := CloseStore, FarStore;
    }

    /**
     * One loop of newField (main.go, lines 54-58 and 63-67): FieldSize new
     * pits of StartingSeeds each, linked one after another from cell `from`.
     * The result is the last pit, whose link is still to be set.
     */
    static method LinkRow(v: array<nat>, s: array<nat>, n: array<nat>, from: nat) returns (last: nat)
      requires v.Length == Cells && s.Length == Cells && n.Length == Cells
      requires v != s && s != n && v != n
      requires from + FieldSize < Cells
      modifies v, s, n
      ensures last == from + FieldSize
      ensures forall k :: from < k <= last ==> v[k] == StartingSeeds && s[k] == 0
      ensures forall k :: from <= k < last ==> n[k] == k + 1
      ensures forall k :: 0 <= k < Cells && !(from < k <= last) ==> v[k] == old(v[k]) && s[k] == old(s[k])
      ensures forall k :: 0 <= k < Cells && !(from <= k < last) ==> n[k] == old(n[k])
    {
      last := from;
      for i := 0 to FieldSize
        invariant last == from + i
        invariant forall k :: from < k <= last ==> v[k] == StartingSeeds && s[k] == 0
        invariant forall k :: from <= k < last ==> n[k] == k + 1
        invariant forall k :: 0 <= k < Cells && !(from < k <= last) ==> v[k] == old(v[k]) && s[k] == old(s[k])
        invariant forall k :: 0 <= k < Cells && !(from <= k < last) ==> n[k] == old(n[k])
      {
        var cell := last + 1;
        v[cell], s[cell] := StartingSeeds, 0;
        n[last] := cell;
        last := cell;
      }
    }

    /**
     * Cell.sow (main.go, lines 18-46) from cell `origin` for `player`, with
     * at most `fuel` passes.  The result is None when the fuel runs out and
     * otherwise the extra-turn flag; the board is then the one SowSpec gives.
     */
    method Sow(origin: nat, player: nat, fuel: nat) returns (extraTurn: Option<bool>)
      requires Valid() && origin < Cells && IsPlayer(player)
      modifies value
      ensures Valid()
      ensures old(value[origin]) == 0 ==> extraTurn == Some(false) && value[..] == old(value[..])
      ensures extraTurn.Some? <==> SowSpec(old(value[..]), origin, player, fuel).Some?
      ensures extraTurn.Some? ==> (extraTurn.value <==> old(value[origin]) > 0)
      ensures extraTurn.Some? ==> SowSpec(old(value[..]), origin, player, fuel) == Some(Outcome(value[..], extraTurn.value))
      decreases fuel
    {
      // end if the cell is empty
      if value[origin] == 0 {
        return Some(false);
      }
      if fuel == 0 {
        return None;
      }
      ghost var start := value[..];
      var landing := Distribute(origin, player);
      // extra turn if you end at your store
      if store[landing] == player {
        return Some(true);
      }
      // otherwise the outcome is that of sowing again from the landing cell
      assert SowSpec(start, origin, player, fuel) == SowSpec(value[..], landing, player, fuel - 1);
      extraTurn := Sow(landing, player, fuel - 1);
    }

    /**
     * The distribution loop of Cell.sow (main.go, lines 23-36 and 44): lift
     * every seed from `origin`, then walk the cycle dropping one seed per
     * cell and passing over the opponent's store, until the hand is empty.
     * The result is the cell that received the last seed.
     */
    method Distribute(origin: nat, player: nat) returns (landing: Index)
      requires Valid() && origin < Cells && IsPlayer(player) && value[origin] > 0
      modifies value
      ensures Valid()
      ensures FirstPass(old(value[..]), origin, player) == PassResult(value[..], landing)
    {
      ghost var pass := FirstPass(value[..], origin, player);
      // pick up all the stones
      var hand := value[origin];
      value[origin] := 0;
      assert value[..] == old(value[..])[origin := 0];
      var cur: Index := next[origin];
      while true
        invariant Valid()
        invariant 0 < hand
        invariant Pass(value[..], cur, hand, player) == pass
        decreases hand, if Skipped(cur, player) then 1 else 0
      {
        ghost var board := value[..];
        PassStep(board, cur, hand, player);
        assert store[cur] == StoreTag(cur) && next[cur] == Next(cur);
        // skip opponent's store
        if store[cur] != 0 && store[cur] != player {
          cur := next[cur];
          continue;
        }
        // drop a seed
        Drop(cur);
        hand := hand - 1;
        if hand == 0 {
          return cur;
        }
        // move on
        cur := next[cur];
      }
    }

    /** `cur.value++` (main.go, line 33): one more seed in cell `cur`, nothing else changes. */
    method Drop(cur: Index)
      requires Valid()
      modifies value
      ensures Valid()
      ensures value[..] == old(value[..])[cur := old(value[cur]) + 1]
    {
      value[cur] := value[cur] + 1;
    }

    /**
     * printField (main.go, lines 73-108) from a store, without the
     * printing: the pits are sorted into two rows by one lap of the cycle,
     * and the list of values is assembled from the stores and the rows.
     * Each row is a list of its own here, so the result is the intended
     * Display order.
     */
    method Rows(origin: nat) returns (vals: seq<nat>)
      requires Valid() && origin < Cells && store[origin] != 0
      ensures vals == Display(value[..])
    {
      var closeToFar, farToClose, closeBank, farBank := CollectRows(origin);
      ghost var shown := Display(value[..]);
      vals := [value[farBank]];
      for i := 0 to FieldSize
        invariant vals == shown[..2 * i + 1]
      {
        vals := vals + [value[farToClose[i]]];
        vals := vals + [value[closeToFar[i]]];
      }
      vals := vals + [value[closeBank]];
    }

    /**
     * The walk of printField (main.go, lines 74-99): one lap from a store,
     * switching the row that receives pits each time a store is passed.
     * The row after the close store is collected in `farToClose` and the
     * row after the far store in `closeToFar`, the names the source uses.
     */
    method CollectRows(origin: nat) returns (closeToFar: seq<nat>, farToClose: seq<nat>, closeBank: nat, farBank: nat)
      requires Valid() && origin < Cells && store[origin] != 0
      ensures closeToFar == RowAfter(FarStore, FieldSize) && farToClose == RowAfter(CloseStore, FieldSize)
      ensures closeBank == CloseStore && farBank == FarStore
    {
      var temp: seq<nat> := [];
      closeToFar, farToClose := [], [];
      var closeCell, farCell: Option<nat> := None, None;
      var to: nat := 0;
      var cur := origin;
      // the store whose row is being collected
      ghost var rowStore: Index := origin;
      for i := 0 to Cells
        invariant cur == if origin + i < Cells then origin + i else origin + i - Cells
        invariant temp == []
        invariant i == 0 ==> to == 0 && closeCell == None && farCell == None
        invariant 0 < i ==> rowStore == (if i <= FarStore then origin else LastRowStore(origin))
        invariant 0 < i ==> to == StoreTag(rowStore)
        invariant 0 < i && to == C ==> closeCell == Some(CloseStore)
        invariant 0 < i && to == C ==> farToClose == RowAfter(CloseStore, if i <= FarStore then i - 1 else i - FarStore - 1)
        invariant 0 < i && to == F ==> farCell == Some(FarStore)
        invariant 0 < i && to == F ==> closeToFar == RowAfter(FarStore, if i <= FarStore then i - 1 else i - FarStore - 1)
        invariant FarStore < i ==> closeCell == Some(CloseStore) && farCell == Some(FarStore)
        invariant FarStore < i && to == C ==> closeToFar == RowAfter(FarStore, FieldSize)
        invariant FarStore < i && to == F ==> farToClose == RowAfter(CloseStore, FieldSize)
      {
        assert store[cur] == StoreTag(cur) && next[cur] == Next(cur);
        if store[cur] != 0 {
          if store[cur] == 1 {
            farToClose := temp;
            closeCell := Some(cur);
          } else if store[cur] == 2 {
            closeToFar := temp;
            farCell := Some(cur);
          }
          to := store[cur];
          rowStore := cur;
        } else {
          if to == 0 {
            temp := temp + [cur];
          } else if to == 1 {
            farToClose := farToClose + [cur];
          } else if to == 2 {
            closeToFar := closeToFar + [cur];
          }
        }
        cur := next[cur];
      }
      closeBank, farBank := closeCell.value, farCell.value;
    }

    /**
     * printField from a store as written, with Go's slice semantics: the
     * assignments `farToClose = temp` and `closeToFar = temp` (main.go,
     * lines 81 and 84) make both rows views of temp's backing array, so the
     * row collected second overwrites the first and both rows show it.
     */
    method RowsAsWritten(origin: nat) returns (vals: seq<nat>)
      requires Valid() && origin < Cells && store[origin] != 0
      ensures vals == AliasedDisplay(value[..], origin)
    {
      var closeToFar, farToClose, closeBank, farBank := CollectRowsAsWritten(origin);
      ghost var shown := AliasedDisplay(value[..], origin);
      vals := [value[farBank]];
      for i := 0 to FieldSize
        invariant vals == shown[..2 * i + 1]
      {
        vals := vals + [value[farToClose.buf[i]]];
        vals := vals + [value[closeToFar.buf[i]]];
      }
      vals := vals + [value[closeBank]];
    }

    /**
     * The walk of printField as written (main.go, lines 74-99), slices and
     * all: temp and the two rows start on three backing arrays of capacity
     * FieldSize, and passing a store points a row at temp's array.
     */
    method CollectRowsAsWritten(origin: nat) returns (closeToFar: Slice, farToClose: Slice, closeBank: nat, farBank: nat)
      requires Valid() && origin < Cells && store[origin] != 0
      ensures closeToFar.buf == farToClose.buf && closeToFar.len == farToClose.len == FieldSize
      ensures closeToFar.buf.Length == FieldSize
      ensures closeToFar.buf[..] == RowAfter(LastRowStore(origin), FieldSize)
      ensures closeBank == CloseStore && farBank == FarStore
    {
      var shared := new nat[FieldSize];
      var temp := Slice(shared, 0);
      var closeBuf := new nat[FieldSize];
      var farBuf := new nat[FieldSize];
      closeToFar, farToClose := Slice(closeBuf, 0), Slice(farBuf, 0);
      var closeCell, farCell: Option<nat> := None, None;
      var to: nat := 0;
      var cur := origin;
      // the store whose row is being collected, and how many of its pits are in
      ghost var rowStore: Index := origin;
      ghost var filled: nat := 0;
      for i := 0 to Cells
        invariant cur == if origin + i < Cells then origin + i else origin + i - Cells
        invariant temp == Slice(shared, 0) && fresh(shared)
        invariant fresh(closeToFar.buf) && fresh(farToClose.buf)
        invariant closeToFar.len <= closeToFar.buf.Length && farToClose.len <= farToClose.buf.Length
        invariant i == 0 ==> to == 0 && closeCell == None && farCell == None
        invariant 0 < i ==> rowStore == (if i <= FarStore then origin else LastRowStore(origin))
        invariant 0 < i ==> filled == (if i <= FarStore then i - 1 else i - FarStore - 1)
        invariant 0 < i ==> to == StoreTag(rowStore)
        invariant 0 < i ==> shared[..filled] == RowAfter(rowStore, filled)
        invariant 0 < i && to == C ==> closeCell == Some(CloseStore)
        invariant 0 < i && to == C ==> farToClose == Slice(shared, filled)
        invariant 0 < i && to == F ==> farCell == Some(FarStore)
        invariant 0 < i && to == F ==> closeToFar == Slice(shared, filled)
        invariant FarStore < i ==> closeCell == Some(CloseStore) && farCell == Some(FarStore)
        invariant FarStore < i && to == C ==> closeToFar == Slice(shared, FieldSize)
        invariant FarStore < i && to == F ==> farToClose == Slice(shared, FieldSize)
      {
        assert store[cur] == StoreTag(cur) && next[cur] == Next(cur);
        if store[cur] != 0 {
          if store[cur] == 1 {
            farToClose := temp;
            closeCell := Some(cur);
          } else if store[cur] == 2 {
            closeToFar := temp;
            farCell := Some(cur);
          }
          to := store[cur];
          rowStore, filled := cur, 0;
        } else {
          assert cur == Pit(rowStore, filled);
          if to == 0 {
            // a walk from a store sets `to` at its first cell
            assert false;
          } else if to == 1 {
            farToClose := Append(farToClose, cur);
          } else if to == 2 {
            closeToFar := Append(closeToFar, cur);
          }
          RowAfterExtend(rowStore, filled);
          filled := filled + 1;
        }
        cur := next[cur];
      }
      closeBank, farBank := closeCell.value, farCell.value;
    }
  }
}
