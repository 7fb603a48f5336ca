/**
 * The multiplier ladder of server.js (`/api/bet`): after i + 1 safe reveals the
 * payout multiplier is the inverse of the probability of surviving i + 1 draws
 * without replacement from 25 tiles holding `mines` mines, scaled by the house
 * edge 0.964.
 */
module Ladder {
  import Board

  const HouseEdge: real := 0.964

  /**
   * The factor step i multiplies `current` by: `current / (safeRem / totalRem)` with
   * totalRem = 25 - i and safeRem = 25 - mines - i. When totalRem is 0 (only for a
   * negative mine count, at i = 25) the source divides by +Infinity and gets 0, which is
   * this factor's value too.
   */
  function StepFactor(mines: int, i: nat): real
    requires i < Board.TileCount - mines
  {
    (Board.TileCount - i) as real / (Board.TileCount - mines - i) as real
  }

  /** `current` after step i of the ladder loop. */
  function Growth(mines: int, i: nat): real
    requires i < Board.TileCount - mines
  {
    if i == 0 then StepFactor(mines, 0) else Growth(mines, i - 1) * StepFactor(mines, i)
  }

  /** `multis` for a mine count: one entry per step 0 .. 24 - mines (none when mines >= 25). */
  function Ladder(mines: int): (l: seq<real>)
    ensures |l| == if mines < Board.TileCount then Board.TileCount - mines else 0
  {
    var moves := if mines < Board.TileCount then Board.TileCount - mines else 0;
    seq(moves, i requires 0 <= i < moves => Growth(mines, i) * HouseEdge)
  }

  /** The falling factorial n (n - 1) ... (n - k + 1). */
  function Falling(n: int, k: nat): real {
    if k == 0 then 1.0 else Falling(n, k - 1) * (n - k + 1) as real
  }

  lemma {:induction false} FallingPositive(n: int, k: nat)
    requires k <= n
    ensures Falling(n, k) > 0.0
  {
    if k > 0 {
      FallingPositive(n, k - 1);
      PositiveProduct(Falling(n, k - 1), (n - k + 1) as real);
    }
  }

  /** The probability that k tiles revealed one by one from 25 are all safe when `mines` are mines. */
  function Survival(mines: int, k: nat): real
    requires 0 <= mines && k <= Board.TileCount
  {
    FallingPositive(Board.TileCount, k);
    Falling(Board.TileCount - mines, k) / Falling(Board.TileCount, k)
  }

  lemma RatioStep(g: real, q: real, fs: real, safe: real, ft: real, total: real, g': real, fs': real, ft': real)
    requires g * fs == ft && q * safe == total
    requires g' == g * q && fs' == fs * safe && ft' == ft * total
    ensures g' * fs' == ft'
  {
    assert (g * q) * (fs * safe) == (g * fs) * (q * safe);
  }

  lemma QuotientTimesDivisor(t: real, s: real)
    requires s != 0.0
    ensures (t / s) * s == t
  {
  }

  lemma QuotientAboveOne(t: real, s: real)
    requires 0.0 < s < t
    ensures t / s > 1.0
  {
  }

  lemma ScaledRatio(h: real, g: real, fs: real, ft: real)
    requires ft != 0.0 && g * fs == ft
    ensures (h * g) * (fs / ft) == h
  {
    assert (h * g) * (fs / ft) == h * ((g * fs) / ft);
  }

  /** `current` after step i is the ratio of falling factorials (25)_{i+1} / (25 - mines)_{i+1}. */
  lemma {:induction false} GrowthIsFallingRatio(mines: int, i: nat)
    requires i < Board.TileCount - mines
    ensures Growth(mines, i) * Falling(Board.TileCount - mines, i + 1) == Falling(Board.TileCount, i + 1)
    decreases i
  {
    var n := Board.TileCount - mines;
    var safe := (n - i) as real;
    var total := (Board.TileCount - i) as real;
    QuotientTimesDivisor(total, safe);
    if i == 0 {
      assert Falling(n, 1) == safe;
      assert Falling(Board.TileCount, 1) == total;
    } else {
      GrowthIsFallingRatio(mines, i - 1);
      RatioStep(Growth(mines, i - 1), StepFactor(mines, i), Falling(n, i), safe, Falling(Board.TileCount, i), total,
                Growth(mines, i), Falling(n, i + 1), Falling(Board.TileCount, i + 1));
    }
  }


  /**
   * Every rung pays the house edge in expectation: the multiplier for i + 1 safe
   * reveals times the probability of surviving them is 0.964.
   */
  lemma LadderExpectedReturn(mines: int, i: nat)
    requires 0 <= mines && i < Board.TileCount - mines
    ensures Ladder(mines)[i] * Survival(mines, i + 1) == HouseEdge
  {
    GrowthIsFallingRatio(mines, i);
    FallingPositive(Board.TileCount, i + 1);
    ScaledRatio(HouseEdge, Growth(mines, i), Falling(Board.TileCount - mines, i + 1), Falling(Board.TileCount, i + 1));
  }

  /** The first rung is 0.964 * 25 / (25 - mines). */
  lemma LadderFirstRung(mines: int)
    requires mines < Board.TileCount
    ensures Ladder(mines)[0] == HouseEdge * 25.0 / (Board.TileCount - mines) as real
  {
  }

  lemma {:induction false} GrowthPositive(mines: int, i: nat)
    requires 0 <= mines && i < Board.TileCount - mines
    ensures Growth(mines, i) > 0.0
    decreases i
  {
    if i > 0 {
      GrowthPositive(mines, i - 1);
      PositiveProduct(Growth(mines, i - 1), StepFactor(mines, i));
    }
  }

  lemma PositiveProduct(a: real, b: real)
    requires a > 0.0 && b > 0.0
    ensures a * b > 0.0
  {
  }

  lemma {:induction false} LadderStepUp(mines: int, i: nat)
    requires 1 <= mines && i + 1 < Board.TileCount - mines
    ensures Growth(mines, i) < Growth(mines, i + 1)
  {
    GrowthPositive(mines, i);
    var g := Growth(mines, i);
    var f := StepFactor(mines, i + 1);
    var safe := (Board.TileCount - mines - i - 1) as real;
    var total := (Board.TileCount - i - 1) as real;
    assert f == total / safe;
    QuotientAboveOne(total, safe);
    assert Growth(mines, i + 1) == g * f;
    PositiveProduct(g, f - 1.0);
  }

  /** With 1 to 24 mines the ladder is strictly increasing. */
  lemma {:induction false} LadderStrictlyIncreasing(mines: int, i: nat, j: nat)
    requires 1 <= mines <= 24
    requires i < j < |Ladder(mines)|
    ensures Ladder(mines)[i] < Ladder(mines)[j]
    decreases j - i
  {
    LadderStepUp(mines, j - 1);
    if i < j - 1 {
      LadderStrictlyIncreasing(mines, i, j - 1);
    }
  }

  /** With no mines every rung is 0.964: a player can only lose against the ladder. */
  lemma LadderFlatWithoutMines(i: nat)
    requires i < Board.TileCount
    ensures Ladder(0)[i] == HouseEdge
  {
    GrowthWithoutMines(i);
  }

  lemma {:induction false} GrowthWithoutMines(i: nat)
    requires i < Board.TileCount
    ensures Growth(0, i) == 1.0
    decreases i
  {
    QuotientTimesDivisor((Board.TileCount - i) as real, (Board.TileCount - i) as real);
    assert StepFactor(0, i) == 1.0;
    if i > 0 {
      GrowthWithoutMines(i - 1);
    }
  }

  /**
   * A negative mine count is never rejected: its ladder has 25 - mines rungs, and from
   * rung 25 on (past the board) every rung is 0.
   */
  lemma {:induction false} LadderPastBoardIsZero(mines: int, i: nat)
    requires mines < 0 && Board.TileCount <= i < Board.TileCount - mines
    ensures Ladder(mines)[i] == 0.0
    decreases i
  {
    if i > Board.TileCount {
      LadderPastBoardIsZero(mines, i - 1);
    }
  }

  /** One step of the ladder loop takes `current` from the growth after step i - 1 (1 before the first) to the growth after step i. */
  lemma GrowthStep(mines: int, i: nat, current: real)
    requires i < Board.TileCount - mines
    requires current == if i == 0 then 1.0 else Growth(mines, i - 1)
    ensures current * ((Board.TileCount - i) as real / ((Board.TileCount - mines) - i) as real) == Growth(mines, i)
  {
  }

  /** The ladder loop: `current` accumulates the step factors and each rung is `current * houseEdge`. */
  method ComputeLadder(mines: int) returns (multis: seq<real>)
    ensures multis == Ladder(mines)
    ensures |multis| == if mines < Board.TileCount then Board.TileCount - mines else 0
  {
    var maxMoves := Board.TileCount - mines;
    multis := [];
    var current := 1.0;
    var i := 0;
    while i < maxMoves
      invariant 0 <= i && (i <= maxMoves || i == 0)
      invariant |multis| == i
      invariant current == if i == 0 then 1.0 else Growth(mines, i - 1)
      invariant forall k :: 0 <= k < i ==> multis[k] == Growth(mines, k) * HouseEdge
    {
      var totalRem := Board.TileCount - i;
      var safeRem := (Board.TileCount - mines) - i;
      GrowthStep(mines, i, current);
      current := current * (totalRem as real / safeRem as real);
      multis := multis + [current * HouseEdge];
      i := i + 1;
    }
    assert |multis| == |Ladder(mines)|;
  }
}
