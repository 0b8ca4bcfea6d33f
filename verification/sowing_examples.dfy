/** Sows from a new board, worked out cell by cell. */
module SowingExamples {
  import opened Board
  import opened Options
  import opened Sowing
  import opened Printing

  /**
   * From a new board, the far player sowing the fourth pit after the close
   * store drops one seed in each of the next two pits and the last in their
   * own store, and gets an extra turn.
   */
  lemma SowExampleExtraTurn(b: seq<nat>)
    requires b == InitialSeeds()
    ensures SowSpec(b, 4, F, 1) == Some(Outcome([0, 3, 3, 3, 0, 4, 4, 1, 3, 3, 3, 3, 3, 3], true))
  {
    var lifted := b[4 := 0];
    var once := lifted[5 := lifted[5] + 1];
    var twice := once[6 := once[6] + 1];
    var last := twice[7 := twice[7] + 1];
    assert Pass(twice, 7, 1, F) == PassResult(last, 7);
    assert Pass(once, 6, 2, F) == PassResult(last, 7);
    assert Pass(lifted, 5, 3, F) == PassResult(last, 7);
    assert b == [0, 3, 3, 3, 3, 3, 3, 0, 3, 3, 3, 3, 3, 3];
    assert last == [0, 3, 3, 3, 0, 4, 4, 1, 3, 3, 3, 3, 3, 3];
  }

  /**
   * From a new board, sowing the first pit after the close store puts one
   * seed in each of the next three pits, leaves the close store alone and
   * lands on a pit that already held seeds, so the sow continues from there.
   */
  lemma SowExampleChains(b: seq<nat>)
    requires b == InitialSeeds()
    ensures FirstPass(b, 1, C) == PassResult([0, 0, 4, 4, 4, 3, 3, 0, 3, 3, 3, 3, 3, 3], 4)
  {
    var lifted := b[1 := 0];
    var once := lifted[2 := lifted[2] + 1];
    var twice := once[3 := once[3] + 1];
    var last := twice[4 := twice[4] + 1];
    assert Pass(twice, 4, 1, C) == PassResult(last, 4);
    assert Pass(once, 3, 2, C) == PassResult(last, 4);
    assert Pass(lifted, 2, 3, C) == PassResult(last, 4);
    assert b == [0, 3, 3, 3, 3, 3, 3, 0, 3, 3, 3, 3, 3, 3];
    assert last == [0, 0, 4, 4, 4, 3, 3, 0, 3, 3, 3, 3, 3, 3];
  }

  /**
   * After that first pass the rows differ (the first pit after the close
   * store is empty, the first after the far store holds three), so the list
   * printField builds as written from the close store is not the list the
   * board should show.
   */
  lemma AliasedDisplayWrongAfterSow(b: seq<nat>)
    requires b == InitialSeeds()
    ensures AliasedDisplay(FirstPass(b, 1, C).board, CloseStore) != Display(FirstPass(b, 1, C).board)
  {
    var lifted := b[1 := 0];
    var once := lifted[2 := lifted[2] + 1];
    var twice := once[3 := once[3] + 1];
    var last := twice[4 := twice[4] + 1];
    assert Pass(twice, 4, 1, C) == PassResult(last, 4);
    assert Pass(once, 3, 2, C) == PassResult(last, 4);
    assert Pass(lifted, 2, 3, C) == PassResult(last, 4);
    assert last[Pit(CloseStore, 0)] == 0 && last[Pit(FarStore, 0)] == StartingSeeds;
    assert Display(last)[1] != AliasedDisplay(last, CloseStore)[1];
  }
}
