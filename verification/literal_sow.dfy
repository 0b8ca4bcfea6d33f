/**
 * Cell.sow exactly as main.go writes it (lines 18-46), one iteration of its
 * `for` loop at a time.  Two statements there do not do what the comments
 * beside them say: the skip of the opponent's store `continue`s without
 * moving `cur` (lines 29-30), and after the recursive call of line 41 the
 * loop goes on with an empty hand (lines 34 and 44), which as a `uint`
 * wraps around.  This module models the loop as written so that both can
 * be stated; Sowing models the intended behaviour.
 */
module LiteralSow {
  import opened Board
  import opened Sowing

  /** `hand` is a Go `uint`: on a 64-bit platform, arithmetic on it is modulo 2^64. */
  const UintModulus: nat := 0x1_0000_0000_0000_0000

  /** The variables of the loop: the board, `cur` and `hand`. */
  datatype LoopState = LoopState(board: seq<nat>, cur: Index, hand: nat)

  /** How one iteration of the loop ends. */
  datatype BodyExit =
    | Loop(state: LoopState)                 // the loop goes round again
    | ExtraTurn(board: seq<nat>)             // `return true` (line 39)
    | Chain(board: seq<nat>, cur: Index)     // the recursive `cur.sow(player)` (line 41)

  /** Lines 24-26: lift every seed of `origin` and start at the next cell. */
  function Start(b: seq<nat>, origin: Index): (s: LoopState)
    requires IsBoard(b) && b[origin] > 0
    ensures IsBoard(s.board) && s.board[origin] == 0 && s.hand == b[origin] && s.cur == Next(origin)
    ensures forall j: Index :: j != origin ==> s.board[j] == b[j]
  {
    LoopState(b[origin := 0], Next(origin), b[origin])
  }

  /**
   * One iteration of the loop (lines 28-44).  A skipped store leaves every
   * variable as it was; a drop adds one seed at `cur` and takes one from
   * the hand, modulo 2^64 (a 64-bit platform's `uint`).
   */
  function Body(s: LoopState, player: nat): (e: BodyExit)
    requires IsBoard(s.board) && IsPlayer(player)
    ensures e == Loop(s) <==> Skipped(s.cur, player)
    ensures e.Loop? ==> IsBoard(e.state.board)
    ensures e.Loop? && s.hand < UintModulus ==> e.state.hand < UintModulus
    ensures !e.Loop? ==> !Skipped(s.cur, player) && s.hand % UintModulus == 1
    ensures e.ExtraTurn? ==> s.cur == OwnStore(player)
    ensures e.Chain? ==> e.cur == s.cur && StoreTag(s.cur) == 0
  {
    if Skipped(s.cur, player) then
      Loop(s)
    else
      var board := s.board[s.cur := s.board[s.cur] + 1];
      var hand := (s.hand - 1) % UintModulus;
      if hand == 0 then
        if StoreTag(s.cur) == player then ExtraTurn(board) else Chain(board, s.cur)
      else
        Loop(LoopState(board, Next(s.cur), hand))
  }

  /**
   * Line 44 after the call of line 41 returns: its result is dropped, the
   * loop moves to the next cell and `hand` is still 0.  `board` is the
   * board the nested call left.
   */
  function Resume(board: seq<nat>, cur: Index): (s: LoopState)
    ensures s.hand == 0 && s.cur == Next(cur)
  {
    LoopState(board, Next(cur), 0)
  }

  /** At most `k` iterations of the loop from `s`. */
  function Run(s: LoopState, player: nat, k: nat): (e: BodyExit)
    requires IsBoard(s.board) && IsPlayer(player)
    ensures e.Loop? ==> IsBoard(e.state.board)
    ensures k == 0 ==> e == Loop(s)
    decreases k
  {
    if k == 0 then Loop(s)
    else
      var e := Body(s, player);
      if e.Loop? then Run(e.state, player, k - 1) else e
  }

  /**
   * Once the loop reaches the opponent's store it stays there: however many
   * iterations run, the state never changes and sow never returns.
   */
  lemma {:induction false} SkipSpinsForever(s: LoopState, player: nat, k: nat)
    requires IsBoard(s.board) && IsPlayer(player) && Skipped(s.cur, player)
    ensures Run(s, player, k) == Loop(s)
  {
    if k > 0 {
      SkipSpinsForever(s, player, k - 1);
    }
  }

  /**
   * On a new board, the close-side player sowing its fifth pit drops a seed
   * in the sixth pit and then spins on the far store with two seeds in
   * hand, for ever.
   */
  lemma SpinExample(b: seq<nat>, k: nat)
    requires b == InitialSeeds() && k >= 1
    ensures Run(Start(b, 5), C, k) == Loop(LoopState(b[5 := 0][6 := 4], FarStore, 2))
  {
    var stuck := LoopState(b[5 := 0][6 := 4], FarStore, 2);
    assert Body(Start(b, 5), C) == Loop(stuck);
    SkipSpinsForever(stuck, C, k - 1);
  }

  /**
   * On a new board, the far-side player sowing its first pit ends its three
   * seeds in the fourth pit, a plain pit, and so reaches the recursive call
   * of line 41.
   */
  lemma ChainExample(b: seq<nat>)
    requires b == InitialSeeds()
    ensures Run(Start(b, 1), F, 3) == Chain(b[1 := 0][2 := 4][3 := 4][4 := 4], 4)
  {
    var s0 := Start(b, 1);
    var s1 := LoopState(b[1 := 0][2 := 4], 3, 2);
    var s2 := LoopState(b[1 := 0][2 := 4][3 := 4], 4, 1);
    assert Body(s0, F) == Loop(s1);
    assert Body(s1, F) == Loop(s2);
    assert Run(s2, F, 1) == Chain(b[1 := 0][2 := 4][3 := 4][4 := 4], 4);
  }

  /**
   * After the recursive call returns, the next drop is made from an empty
   * hand: a seed appears on the board out of nothing and the hand wraps
   * around to 2^64 - 1 on a 64-bit platform, so the loop goes on dropping
   * seeds.
   */
  lemma DiscardedChainWrapsHand(board: seq<nat>, cur: Index, player: nat)
    requires IsBoard(board) && IsPlayer(player) && !Skipped(Next(cur), player)
    ensures Body(Resume(board, cur), player)
      == Loop(LoopState(board[Next(cur) := board[Next(cur)] + 1], Next(Next(cur)), UintModulus - 1))
    ensures Sum(Body(Resume(board, cur), player).state.board) == Sum(board) + 1
  {
    SumUpdate(board, Next(cur), board[Next(cur)] + 1);
  }

  /**
   * A sow that does reach the wrap-around.  On the board
   * [0, 1, 4, 3, 3, 3, 3, 0, 3, 3, 3, 3, 3, 3] the far-side player sows its
   * first pit: the single seed lands on the second pit, which then holds 5,
   * and the loop reaches the call of line 41.  That nested sow drops its 5
   * seeds on the next four pits and the far store and returns true.  The
   * outer loop then resumes at the third pit with an empty hand, which wraps.
   */
  lemma WrapExample(b: seq<nat>)
    requires b == InitialSeeds()[1 := 1][2 := 4]
    ensures Run(Start(b, 1), F, 1) == Chain(b[1 := 0][2 := 5], 2)
    ensures Run(Start(b[1 := 0][2 := 5], 2), F, 5)
      == ExtraTurn(b[1 := 0][2 := 0][3 := 4][4 := 4][5 := 4][6 := 4][7 := 1])
    ensures Body(Resume(b[1 := 0][2 := 0][3 := 4][4 := 4][5 := 4][6 := 4][7 := 1], 2), F)
      == Loop(LoopState(b[1 := 0][2 := 0][3 := 5][4 := 4][5 := 4][6 := 4][7 := 1], 4, UintModulus - 1))
  {
    var outer := b[1 := 0][2 := 5];
    assert Body(Start(b, 1), F) == Chain(outer, 2);
    NestedSowReturns(outer);
    var last := b[1 := 0][2 := 0][3 := 4][4 := 4][5 := 4][6 := 4][7 := 1];
    assert last[3 := last[3] + 1] == b[1 := 0][2 := 0][3 := 5][4 := 4][5 := 4][6 := 4][7 := 1];
  }

  /** The nested sow of WrapExample: five seeds from the second pit end in the far store. */
  lemma NestedSowReturns(outer: seq<nat>)
    requires IsBoard(outer) && outer[2] == 5
    ensures Run(Start(outer, 2), F, 5)
      == ExtraTurn(outer[2 := 0][3 := outer[3] + 1][4 := outer[4] + 1][5 := outer[5] + 1][6 := outer[6] + 1][7 := outer[7] + 1])
  {
    var s1 := LoopState(outer[2 := 0][3 := outer[3] + 1], 4, 4);
    var s2 := LoopState(s1.board[4 := outer[4] + 1], 5, 3);
    var s3 := LoopState(s2.board[5 := outer[5] + 1], 6, 2);
    var s4 := LoopState(s3.board[6 := outer[6] + 1], 7, 1);
    var last := s4.board[7 := outer[7] + 1];
    assert Body(Start(outer, 2), F) == Loop(s1);
    assert Body(s1, F) == Loop(s2);
    assert Body(s2, F) == Loop(s3);
    assert Body(s3, F) == Loop(s4);
    assert Body(s4, F) == ExtraTurn(last);
    assert Run(s4, F, 1) == ExtraTurn(last);
    assert Run(s3, F, 2) == ExtraTurn(last);
    assert Run(s2, F, 3) == ExtraTurn(last);
    assert Run(s1, F, 4) == ExtraTurn(last);
  }

  /**
   * Away from the opponent's store, a drop that keeps seeds in a hand that
   * fits a `uint` is one step of Sowing.Pass: the loop and the pass both go
   * on from the next cell with the same board and hand.
   */
  lemma DropAgreesWithPass(b: seq<nat>, cur: Index, hand: nat, player: nat)
    requires IsBoard(b) && IsPlayer(player) && !Skipped(cur, player) && 1 < hand < UintModulus
    ensures Body(LoopState(b, cur, hand), player) == Loop(LoopState(b[cur := b[cur] + 1], Next(cur), hand - 1))
    ensures Pass(b, cur, hand, player) == Pass(b[cur := b[cur] + 1], Next(cur), hand - 1, player)
  {
    assert (hand - 1) % UintModulus == hand - 1;
    PassStep(b, cur, hand, player);
  }

  /**
   * The last seed of a hand leaves the loop where Sowing.Pass lands, with
   * the board the pass gives.
   */
  lemma LastDropAgreesWithPass(b: seq<nat>, cur: Index, player: nat)
    requires IsBoard(b) && IsPlayer(player) && !Skipped(cur, player)
    ensures !Body(LoopState(b, cur, 1), player).Loop?
    ensures Body(LoopState(b, cur, 1), player).board == Pass(b, cur, 1, player).board
    ensures Pass(b, cur, 1, player).landing == cur
  {
    PassStep(b, cur, 1, player);
  }
}
