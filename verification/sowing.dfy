/**
 * Sowing (Cell.sow in main.go, lines 18-46), stated on seed-count sequences.
 *
 * A sow lifts every seed from its origin and drops them one at a time on the
 * cells that follow, passing over the opponent's store (`Pass`).  If the
 * last seed lands in the player's own store the player gets an extra turn;
 * otherwise the sow starts again from the landing cell (`SowSpec`).  The
 * chain has no bound in the source, so `SowSpec` takes a fuel argument, the
 * number of passes it may run, and gives None when the fuel runs out.
 */
module Sowing {
  import opened Board
  import opened Options

  datatype PassResult = PassResult(board: seq<nat>, landing: Index)

  /** What a completed sow leaves behind: the board and the extra-turn flag. */
  datatype Outcome = Outcome(board: seq<nat>, extraTurn: bool)

  /**
   * One distribution pass: `hand` seeds are dropped one per cell on the
   * cells from `cur` on, the opponent's store passed over.  The result is
   * the board after the last drop and the cell that received it.
   */
  function Pass(b: seq<nat>, cur: Index, hand: nat, player: nat): (r: PassResult)
    requires IsBoard(b) && IsPlayer(player) && hand > 0
    ensures IsBoard(r.board)
    ensures !Skipped(r.landing, player)
    ensures Sum(r.board) == Sum(b) + hand
    ensures r.board[OpponentStore(player)] == b[OpponentStore(player)]
    decreases hand, if Skipped(cur, player) then 1 else 0
  {
    if Skipped(cur, player) then
      Pass(b, Next(cur), hand, player)
    else
      var dropped := b[cur := b[cur] + 1];
      SumUpdate(b, cur, b[cur] + 1);
      if hand == 1 then PassResult(dropped, cur)
      else Pass(dropped, Next(cur), hand - 1, player)
  }

  /** One step of a pass, for callers that walk the cycle themselves. */
  lemma PassStep(b: seq<nat>, cur: Index, hand: nat, player: nat)
    requires IsBoard(b) && IsPlayer(player) && hand > 0
    ensures Skipped(cur, player) ==> Pass(b, cur, hand, player) == Pass(b, Next(cur), hand, player)
    ensures !Skipped(cur, player) && hand == 1 ==>
      Pass(b, cur, hand, player) == PassResult(b[cur := b[cur] + 1], cur)
    ensures !Skipped(cur, player) && hand > 1 ==>
      Pass(b, cur, hand, player) == Pass(b[cur := b[cur] + 1], Next(cur), hand - 1, player)
  {
  }

  /** The pass that starts a sow: the origin is emptied into the hand first. */
  function FirstPass(b: seq<nat>, origin: Index, player: nat): (r: PassResult)
    requires IsBoard(b) && IsPlayer(player) && b[origin] > 0
    ensures IsBoard(r.board) && !Skipped(r.landing, player)
    ensures Sum(r.board) == Sum(b)
    ensures r.board[OpponentStore(player)] == if origin == OpponentStore(player) then 0 else b[OpponentStore(player)]
    ensures r.board[r.landing] > 0
  {
    SumUpdate(b, origin, 0);
    PassOnlyAdds(b[origin := 0], Next(origin), b[origin], player);
    Pass(b[origin := 0], Next(origin), b[origin], player)
  }

  /**
   * A whole sow as the comments of Cell.sow describe it: an empty origin
   * changes nothing and gives no extra turn; otherwise one pass, then an
   * extra turn if it ended in the player's own store, or else the outcome of
   * sowing again from the landing cell.  Each landing cell holds the seed
   * just dropped there, so a chained sow never starts from an empty cell:
   * a sow that finishes gives no extra turn only when its origin was empty.
   */
  function SowSpec(b: seq<nat>, origin: Index, player: nat, fuel: nat): (r: Option<Outcome>)
    requires IsBoard(b) && IsPlayer(player)
    ensures r.Some? ==> IsBoard(r.value.board) && Sum(r.value.board) == Sum(b)
    ensures r.Some? ==>
      r.value.board[OpponentStore(player)] == if origin == OpponentStore(player) then 0 else b[OpponentStore(player)]
    ensures r.Some? ==> (r.value.extraTurn <==> b[origin] > 0)
    decreases fuel
  {
    if b[origin] == 0 then Some(Outcome(b, false))
    else if fuel == 0 then None
    else
      var pass := FirstPass(b, origin, player);
      if pass.landing == OwnStore(player) then Some(Outcome(pass.board, true))
      else SowSpec(pass.board, pass.landing, player, fuel - 1)
  }

  /** Cells one lap of sowing drops a seed on: all but the opponent's store. */
  const Ring: nat := Cells - 1

  /** How many `next` links lead from `from` to `to`. */
  function Dist(from: Index, to: Index): nat {
    if from <= to then to - from else to + Cells - from
  }

  /**
   * The number of cells a sowing hand at `from` drops on before it reaches
   * `j`: the cells from `from` up to but not including `j`, less the
   * opponent's store if that lies among them.
   */
  function Rank(from: Index, j: Index, player: nat): nat
    requires IsPlayer(player)
  {
    Dist(from, j) - if Dist(from, OpponentStore(player)) < Dist(from, j) then 1 else 0
  }

  /** Seeds a cell of rank `rank` receives when `hand` seeds are sown: one per lap that reaches it. */
  function Received(hand: nat, rank: nat): nat {
    if rank < hand then (hand - 1 - rank) / Ring + 1 else 0
  }

  /** Seeds cell `j` receives from a pass of `hand` seeds that starts at `cur`. */
  function Share(cur: Index, j: Index, hand: nat, player: nat): nat
    requires IsPlayer(player)
  {
    if Skipped(j, player) then 0 else Received(hand, Rank(cur, j, player))
  }

  /** The cells a lap drops on have the ranks 0 .. Ring - 1, each a different one. */
  lemma RankIsPosition(from: Index, i: Index, j: Index, player: nat)
    requires IsPlayer(player) && !Skipped(i, player) && !Skipped(j, player)
    ensures Rank(from, i, player) < Ring
    ensures Rank(from, i, player) == Rank(from, j, player) ==> i == j
  {
    SkippedIsOpponentStore(player, i);
    SkippedIsOpponentStore(player, j);
  }

  /** After a drop on `cur` every other cell comes one drop closer and `cur` is a full lap away. */
  lemma RankAfterDrop(cur: Index, j: Index, player: nat)
    requires IsPlayer(player) && !Skipped(cur, player) && !Skipped(j, player)
    ensures Rank(Next(cur), j, player) == if j == cur then Ring - 1 else Rank(cur, j, player) - 1
  {
    SkippedIsOpponentStore(player, cur);
    SkippedIsOpponentStore(player, j);
  }

  /** Passing over the opponent's store brings no cell closer. */
  lemma RankAfterSkip(cur: Index, j: Index, player: nat)
    requires IsPlayer(player) && Skipped(cur, player) && !Skipped(j, player)
    ensures Rank(Next(cur), j, player) == Rank(cur, j, player)
  {
    SkippedIsOpponentStore(player, cur);
    SkippedIsOpponentStore(player, j);
  }

  /** Counting one more: the remainder modulo a lap steps on, and wraps to 0 when a lap completes. */
  lemma ModStep(x: nat)
    ensures (x + 1) % Ring == if x % Ring == Ring - 1 then 0 else x % Ring + 1
  {
    var q, m := x / Ring, x % Ring;
    assert x == q * Ring + m;
    if m == Ring - 1 {
      assert x + 1 == (q + 1) * Ring + 0;
    } else {
      assert x + 1 == q * Ring + (m + 1);
    }
  }

  /** Taking one lap off a count takes one off its number of laps. */
  lemma LapShift(y: nat)
    requires y >= Ring
    ensures (y - Ring) / Ring == y / Ring - 1
  {
    var q, m := (y - Ring) / Ring, (y - Ring) % Ring;
    assert y - Ring == q * Ring + m;
    assert y == (q + 1) * Ring + m;
  }

  /** Arithmetic of shares: the cell dropped on now is a full lap away for the rest of the hand. */
  lemma ReceivedAfterDrop(hand: nat, rank: nat)
    requires hand >= 2 && rank < Ring
    ensures Received(hand, rank) == if rank == 0 then 1 + Received(hand - 1, Ring - 1) else Received(hand - 1, rank - 1)
    ensures (hand - 1) % Ring == if (hand - 2) % Ring == Ring - 1 then 0 else (hand - 2) % Ring + 1
  {
    ModStep(hand - 2);
    if rank == 0 && hand - 1 >= Ring {
      LapShift(hand - 1);
    }
  }

  /** The closed form of a pass, as a predicate of its result. */
  ghost predicate ClosedForm(b: seq<nat>, cur: Index, hand: nat, player: nat, r: PassResult)
    requires IsBoard(b) && IsPlayer(player) && IsBoard(r.board)
  {
    && (forall j: Index :: r.board[j] == b[j] + Share(cur, j, hand, player))
    && Rank(cur, r.landing, player) == (hand - 1) % Ring
  }

  /** Passing over the opponent's store keeps the closed form. */
  lemma ClosedFormAfterSkip(b: seq<nat>, cur: Index, hand: nat, player: nat, r: PassResult)
    requires IsBoard(b) && IsPlayer(player) && IsBoard(r.board) && hand > 0
    requires Skipped(cur, player) && !Skipped(r.landing, player)
    requires ClosedForm(b, Next(cur), hand, player, r)
    ensures ClosedForm(b, cur, hand, player, r)
  {
    forall j: Index ensures r.board[j] == b[j] + Share(cur, j, hand, player) {
      if !Skipped(j, player) {
        RankAfterSkip(cur, j, player);
      }
    }
    RankAfterSkip(cur, r.landing, player);
  }

  /** The last seed of a hand lands on `cur` and nowhere else. */
  lemma ClosedFormLastDrop(b: seq<nat>, cur: Index, player: nat)
    requires IsBoard(b) && IsPlayer(player) && !Skipped(cur, player)
    ensures ClosedForm(b, cur, 1, player, PassResult(b[cur := b[cur] + 1], cur))
  {
    forall j: Index ensures b[cur := b[cur] + 1][j] == b[j] + Share(cur, j, 1, player) {
      if !Skipped(j, player) {
        RankIsPosition(cur, j, cur, player);
      }
    }
  }

  /** A drop on `cur` followed by a pass of the rest of the hand keeps the closed form. */
  lemma ClosedFormAfterDrop(b: seq<nat>, cur: Index, hand: nat, player: nat, r: PassResult)
    requires IsBoard(b) && IsPlayer(player) && IsBoard(r.board) && hand >= 2
    requires !Skipped(cur, player) && !Skipped(r.landing, player)
    requires ClosedForm(b[cur := b[cur] + 1], Next(cur), hand - 1, player, r)
    ensures ClosedForm(b, cur, hand, player, r)
  {
    var dropped := b[cur := b[cur] + 1];
    forall j: Index ensures r.board[j] == b[j] + Share(cur, j, hand, player) {
      if !Skipped(j, player) {
        RankAfterDrop(cur, j, player);
        RankIsPosition(cur, j, j, player);
        ReceivedAfterDrop(hand, Rank(cur, j, player));
      }
    }
    RankAfterDrop(cur, r.landing, player);
    RankIsPosition(cur, r.landing, r.landing, player);
    ReceivedAfterDrop(hand, Rank(cur, r.landing, player));
  }

  /**
   * Closed form of a pass: every cell other than the opponent's store gains
   * one seed per lap that reaches it, the opponent's store gains nothing, and
   * the last seed lands on the cell whose rank is (hand - 1) mod Ring.
   */
  lemma {:induction false} PassClosedForm(b: seq<nat>, cur: Index, hand: nat, player: nat)
    requires IsBoard(b) && IsPlayer(player) && hand > 0
    ensures forall j: Index :: Pass(b, cur, hand, player).board[j] == b[j] + Share(cur, j, hand, player)
    ensures Rank(cur, Pass(b, cur, hand, player).landing, player) == (hand - 1) % Ring
    decreases hand, if Skipped(cur, player) then 1 else 0
  {
    var r := Pass(b, cur, hand, player);
    PassStep(b, cur, hand, player);
    if Skipped(cur, player) {
      PassClosedForm(b, Next(cur), hand, player);
      ClosedFormAfterSkip(b, cur, hand, player, r);
    } else if hand == 1 {
      ClosedFormLastDrop(b, cur, player);
    } else {
      PassClosedForm(b[cur := b[cur] + 1], Next(cur), hand - 1, player);
      ClosedFormAfterDrop(b, cur, hand, player, r);
    }
    assert ClosedForm(b, cur, hand, player, r);
  }

  /** A pass only adds seeds, and the cell it lands on gained at least one. */
  lemma {:induction false} PassOnlyAdds(b: seq<nat>, cur: Index, hand: nat, player: nat)
    requires IsBoard(b) && IsPlayer(player) && hand > 0
    ensures forall j: Index :: b[j] <= Pass(b, cur, hand, player).board[j]
    ensures b[Pass(b, cur, hand, player).landing] < Pass(b, cur, hand, player).board[Pass(b, cur, hand, player).landing]
  {
    PassClosedForm(b, cur, hand, player);
    LandingReceives(hand);
  }

  /** The cell of rank (hand - 1) mod Ring receives at least one seed of the hand. */
  lemma LandingReceives(hand: nat)
    requires hand > 0
    ensures Received(hand, (hand - 1) % Ring) >= 1
  {
    var q, m := (hand - 1) / Ring, (hand - 1) % Ring;
    assert hand - 1 == q * Ring + m;
  }

  /**
   * The first pass of a sow from `origin`: the origin is left with only what
   * the pass brings back to it, every other cell gains its share, and the
   * landing cell is fixed by the number of seeds lifted.
   */
  lemma FirstPassClosedForm(b: seq<nat>, origin: Index, player: nat)
    requires IsBoard(b) && IsPlayer(player) && b[origin] > 0
    ensures forall j: Index ::
      FirstPass(b, origin, player).board[j] == (if j == origin then 0 else b[j]) + Share(Next(origin), j, b[origin], player)
    ensures Rank(Next(origin), FirstPass(b, origin, player).landing, player) == (b[origin] - 1) % Ring
  {
    PassClosedForm(b[origin := 0], Next(origin), b[origin], player);
  }

  /**
   * A sow from a non-empty origin ends its first pass in the player's own
   * store, and so gives an extra turn at once, exactly when the number of
   * seeds lifted matches the store's rank modulo a lap.
   */
  lemma ExtraTurnExactReach(b: seq<nat>, origin: Index, player: nat, fuel: nat)
    requires IsBoard(b) && IsPlayer(player) && b[origin] > 0 && fuel > 0
    ensures FirstPass(b, origin, player).landing == OwnStore(player)
      <==> Rank(Next(origin), OwnStore(player), player) == (b[origin] - 1) % Ring
    ensures FirstPass(b, origin, player).landing == OwnStore(player)
      ==> SowSpec(b, origin, player, fuel) == Some(Outcome(FirstPass(b, origin, player).board, true))
  {
    var landing := FirstPass(b, origin, player).landing;
    FirstPassClosedForm(b, origin, player);
    SkippedIsOpponentStore(player, OwnStore(player));
    RankIsPosition(Next(origin), landing, OwnStore(player), player);
  }

  /** One link of the chain: a sow from a non-empty origin with fuel left is its first pass, then the rest. */
  lemma SowSpecStep(b: seq<nat>, origin: Index, player: nat, fuel: nat)
    requires IsBoard(b) && IsPlayer(player) && b[origin] > 0 && fuel > 0
    ensures FirstPass(b, origin, player).landing == OwnStore(player) ==>
      SowSpec(b, origin, player, fuel) == Some(Outcome(FirstPass(b, origin, player).board, true))
    ensures FirstPass(b, origin, player).landing != OwnStore(player) ==>
      SowSpec(b, origin, player, fuel)
        == SowSpec(FirstPass(b, origin, player).board, FirstPass(b, origin, player).landing, player, fuel - 1)
  {
  }

  /** Fuel only bounds the chain: a sow that finishes gives the same outcome with more fuel. */
  lemma {:induction false} SowFuelMonotone(b: seq<nat>, origin: Index, player: nat, fuel: nat, more: nat)
    requires IsBoard(b) && IsPlayer(player) && fuel <= more
    requires SowSpec(b, origin, player, fuel).Some?
    ensures SowSpec(b, origin, player, more) == SowSpec(b, origin, player, fuel)
    decreases fuel
  {
    if b[origin] > 0 {
      var pass := FirstPass(b, origin, player);
      SowSpecStep(b, origin, player, fuel);
      SowSpecStep(b, origin, player, more);
      if pass.landing != OwnStore(player) {
        SowFuelMonotone(pass.board, pass.landing, player, fuel - 1, more - 1);
      }
    }
  }
}
