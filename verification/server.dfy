/**
 * The single-player state of server.js: the in-memory `db` record and the bodies of
 * the `/api/bet`, `/api/reveal` and `/api/cashout` handlers, each of which either
 * answers with an error and changes nothing or performs its whole state change.
 */
module Server {
  import opened Wrappers
  import opened Stream
  import opened Board
  import Ladder

  /**
   * A JavaScript number as the handlers can drive it: a value, or NaN. NaN arises when
   * a reveal reads past the end of the ladder (`multiStack[stepIndex]` is undefined).
   */
  datatype Num = Num(value: real) | NaN

  /** `a + b` (and `+=`): NaN as soon as either side is NaN. */
  function Add(a: Num, b: Num): (r: Num)
    ensures r.Num? <==> a.Num? && b.Num?
    ensures r.Num? ==> r.value == a.value + b.value
  {
    if a.Num? && b.Num? then Num(a.value + b.value) else NaN
  }

  /** `a - b` (and `-=`): NaN as soon as either side is NaN. */
  function Sub(a: Num, b: Num): (r: Num)
    ensures r.Num? <==> a.Num? && b.Num?
    ensures r.Num? ==> r.value == a.value - b.value
  {
    if a.Num? && b.Num? then Num(a.value - b.value) else NaN
  }

  /** `a * b`: NaN as soon as either side is NaN. */
  function Mul(a: Num, b: Num): (r: Num)
    ensures r.Num? <==> a.Num? && b.Num?
    ensures r.Num? ==> r.value == a.value * b.value
  {
    if a.Num? && b.Num? then Num(a.value * b.value) else NaN
  }

  /** `a > b`: false whenever either side is NaN. */
  predicate Greater(a: Num, b: Num)
    ensures Greater(a, b) ==> a.Num? && b.Num?
    ensures a.Num? && b.Num? ==> (Greater(a, b) <==> a.value > b.value)
  {
    a.Num? && b.Num? && a.value > b.value
  }

  function RealMin(a: real, b: real): real {
    if a <= b then a else b
  }

  /** `db.balance` at start-up. */
  const StartingBalance: real := 5000.0
  /** Floats drawn per bet. */
  const FloatCount: nat := 60
  /** A win is capped at this multiple of the bet. */
  const MaxWinFactor: real := 5000000.0

  /** `costMult`: 10 for 'boost10', 75 for 'boost75', 1 for every other mode. */
  function CostMult(mode: string): (m: real)
    ensures m == 10.0 <==> mode == "boost10"
    ensures m == 75.0 <==> mode == "boost75"
    ensures m == 1.0 <==> mode != "boost10" && mode != "boost75"
  {
    if mode == "boost75" then 75.0 else if mode == "boost10" then 10.0 else 1.0
  }

  /**
   * The payout of a safe reveal at step `step`: bet times the ladder rung, times the
   * booster multiplier when the tile has one, capped at 5,000,000 times the bet. Past
   * the end of the ladder the rung is undefined and the payout is NaN.
   */
  function Payout(bet: real, multiStack: seq<real>, step: nat, boost: Option<Booster>): (p: Num)
    ensures p.Num? <==> step < |multiStack|
    ensures p.Num? ==> p.value <= bet * MaxWinFactor
    ensures p.Num? ==> p.value == RealMin(
      bet * multiStack[step] * (if boost.Some? then boost.value.mult else 1.0), bet * MaxWinFactor)
  {
    var base := if step < |multiStack| then Num(bet * multiStack[step]) else NaN;
    var boosted := if boost.Some? then Mul(base, Num(boost.value.mult)) else base;
    if Greater(boosted, Num(bet * MaxWinFactor)) then Num(bet * MaxWinFactor) else boosted
  }

  /** `game.specialItems[index]` as the reveal tests it: a booster exactly when the tile is a key of the map. */
  function BoosterAt(specialItems: map<int, Booster>, index: int): (b: Option<Booster>)
    ensures b.Some? <==> index in specialItems
    ensures b.Some? ==> b.value == specialItems[index]
  {
    if index in specialItems then Some(specialItems[index]) else None
  }

  /** The stream of a round: 60 floats for the round's seed, the client seed and the nonce. */
  function RoundFloats(hmac: Hmac, serverSeed: string, clientSeed: string, nonce: nat): (f: seq<Word>)
    ensures |f| == FloatCount
  {
    Floats(hmac, serverSeed, clientSeed, nonce, FloatCount)
  }

  datatype Fault =
    | GameInProgress       // a bet while a round is active and not over
    | InsufficientFunds    // amount * costMult > balance
    | NoActiveGame         // a reveal or cashout with no round, or a round that is over
    | TileAlreadyRevealed  // a reveal of an index already in `revealed`

  datatype BetReply = BetReply(balance: Num, nextHash: string, nonce: nat)

  datatype RevealReply =
    | Bomb(mineMap: seq<int>, specialMap: map<int, Booster>)
    | Safe(payout: Num, step: nat, special: Option<Booster>)

  datatype CashoutReply = CashoutReply(winAmount: Num, balance: Num, mineMap: seq<int>, specialMap: map<int, Booster>)

  /** `db.activeGame`: one round. Its board and ladder are fixed at the bet; reveals and the cashout update the rest. */
  class Game {
    /** `amount * costMult`, the stake the ladder pays on. */
    const bet: real
    const baseBet: real
    const mines: seq<int>
    const specialItems: map<int, Booster>
    const multiStack: seq<real>
    var revealed: seq<int>
    var currentWin: Num
    var isOver: bool

    /** No revealed tile is a mine or revealed twice, and nothing is won before the first safe reveal. */
    ghost predicate Valid()
      reads this
    {
      && Distinct(revealed)
      && (forall x :: x in revealed ==> x !in mines)
      && (revealed == [] ==> currentWin == Num(0.0))
    }

    constructor (bet: real, baseBet: real, mines: seq<int>, specialItems: map<int, Booster>, multiStack: seq<real>)
      ensures Valid()
      ensures this.bet == bet && this.baseBet == baseBet && this.mines == mines
      ensures this.specialItems == specialItems && this.multiStack == multiStack
      ensures revealed == [] && currentWin == Num(0.0) && !isOver
    {
      this.bet := bet;
      this.baseBet := baseBet;
      this.mines := mines;
      this.specialItems := specialItems;
      this.multiStack := multiStack;
      revealed := [];
      currentWin := Num(0.0);
      isOver := false;
    }
  }

  /**
   * The round a bet opens: 60 floats for the round's seed, the client seed and the
   * nonce; the board built from them; the ladder for `mines`.
   */
  method NewRound(hmac: Hmac, serverSeed: string, clientSeed: string, nonce: nat,
                  amount: real, totalCost: real, mines: int, mode: string) returns (game: Game)
    ensures fresh(game) && game.Valid()
    ensures game.bet == totalCost && game.baseBet == amount
    ensures game.mines == MineLocations(RoundFloats(hmac, serverSeed, clientSeed, nonce), mines)
    ensures game.specialItems == SpecialItems(RoundFloats(hmac, serverSeed, clientSeed, nonce), mines, mode)
    ensures game.multiStack == Ladder.Ladder(mines)
    ensures game.revealed == [] && game.currentWin == Num(0.0) && !game.isOver
  {
    var floats := GenerateFloats(hmac, serverSeed, clientSeed, nonce, FloatCount);
    var mineLocations, specialItems := GenerateBoard(floats, mines, mode);
    var multis := Ladder.ComputeLadder(mines);
    game := new Game(totalCost, amount, mineLocations, specialItems, multis);
  }

  /** The `db` record: balance, seed commitment, nonce and the current round. */
  class Db {
    /** HMAC-SHA256 and the hex SHA-256 digest, left uninterpreted. */
    const hmac: Hmac
    const sha256: string -> string
    var balance: Num
    var serverSeed: Option<string>
    var nextServerSeed: string
    var nextServerHash: string
    var nonce: nat
    var activeGame: Game?

    /** The published hash always commits to the next seed, and the round keeps its own invariant. */
    ghost predicate Valid()
      reads this, activeGame
    {
      && nextServerHash == sha256(nextServerSeed)
      && (activeGame != null ==> activeGame.Valid())
    }

    /** A round is in play: it exists and is not over. */
    predicate InProgress()
      reads this, activeGame
      ensures !InProgress() <==> activeGame == null || activeGame.isOver
    {
      activeGame != null && !activeGame.isOver
    }

    /** Start-up: the initial balance and the first committed seed (`generateSeed()` supplies `firstSeed`). */
    constructor (hmac: Hmac, sha256: string -> string, firstSeed: string)
      ensures Valid()
      ensures this.hmac == hmac && this.sha256 == sha256
      ensures balance == Num(StartingBalance) && serverSeed == None && nonce == 0 && activeGame == null
      ensures nextServerSeed == firstSeed && nextServerHash == sha256(firstSeed)
    {
      this.hmac := hmac;
      this.sha256 := sha256;
      balance := Num(StartingBalance);
      serverSeed := None;
      nextServerSeed := firstSeed;
      nextServerHash := sha256(firstSeed);
      nonce := 0;
      activeGame := null;
    }

    /**
     * `/api/bet`: rejected while a round is in play or when the cost exceeds the
     * balance. Otherwise the committed seed becomes the round's seed, the nonce goes up
     * by one, a fresh seed (`generateSeed()` supplies `freshSeed`) is committed, the cost
     * is debited and a new round is built from the stream. `mines` is not range-checked.
     */
    method Bet(amount: real, mines: int, clientSeed: string, mode: string, freshSeed: string)
      returns (r: Result<BetReply, Fault>)
      requires Valid()
      modifies this
      ensures Valid()
      ensures old(InProgress()) ==> r == Err(GameInProgress) && unchanged(this)
      ensures !old(InProgress()) && Greater(Num(amount * CostMult(mode)), old(balance)) ==>
        r == Err(InsufficientFunds) && unchanged(this)
      ensures r.Ok? <==> !old(InProgress()) && !Greater(Num(amount * CostMult(mode)), old(balance))
      ensures !old(InProgress()) && old(balance) == NaN ==> r.Ok? && balance == NaN
      ensures r.Ok? ==> InProgress()
      ensures r.Ok? ==>
        && serverSeed == Some(old(nextServerSeed))
        && sha256(serverSeed.value) == old(nextServerHash)
        && nonce == old(nonce) + 1
        && nextServerSeed == freshSeed && nextServerHash == sha256(freshSeed)
        && balance == Sub(old(balance), Num(amount * CostMult(mode)))
        && r.value == BetReply(balance, nextServerHash, nonce)
    ensures r.Ok? ==>
        && activeGame != null && fresh(activeGame)
        && activeGame.bet == amount * CostMult(mode) && activeGame.baseBet == amount
        && activeGame.mines == MineLocations(RoundFloats(hmac, serverSeed.value, clientSeed, nonce), mines)
        && activeGame.specialItems == SpecialItems(RoundFloats(hmac, serverSeed.value, clientSeed, nonce), mines, mode)
        && activeGame.multiStack == Ladder.Ladder(mines)
        && activeGame.revealed == [] && activeGame.currentWin == Num(0.0) && !activeGame.isOver
    {
      if activeGame != null && !activeGame.isOver {
        return Err(GameInProgress);
      }
      var costMult := 1.0;
      if mode == "boost10" {
        costMult := 10.0;
      }
      if mode == "boost75" {
        costMult := 75.0;
      }
      assert costMult == CostMult(mode);
      var totalCost := amount * costMult;
      if Greater(Num(totalCost), balance) {
        return Err(InsufficientFunds);
      }
      ghost var spoilt := balance == NaN;
      // Both branches of `if (!db.serverSeed)` make the committed seed the round's seed.
      serverSeed := Some(nextServerSeed);
      nonce := nonce + 1;
      nextServerSeed := freshSeed;
      nextServerHash := sha256(nextServerSeed);
      balance := Sub(balance, Num(totalCost));
      assert spoilt ==> balance == NaN;

      var game := NewRound(hmac, serverSeed.value, clientSeed, nonce, amount, totalCost, mines, mode);
      activeGame := game;
      assert InProgress();
      r := Ok(BetReply(balance, nextServerHash, nonce));
    }

    /**
     * `/api/reveal`: rejected with no round in play or on an index already revealed.
     * A mine ends the round. Any other index, on the board or not, is a safe hit: it is
     * appended and the current win becomes the capped payout of that step.
     */
    method Reveal(index: int) returns (r: Result<RevealReply, Fault>)
      requires Valid()
      modifies activeGame
      ensures Valid()
      ensures r.Ok? ==> (r.value.Bomb? <==> !InProgress())
      ensures !old(InProgress()) ==> r == Err(NoActiveGame) && (activeGame != null ==> unchanged(activeGame))
      ensures old(InProgress()) && index in old(activeGame.revealed) ==>
        r == Err(TileAlreadyRevealed) && unchanged(activeGame)
      ensures old(InProgress()) && index !in old(activeGame.revealed) && index in activeGame.mines ==>
        && r == Ok(Bomb(activeGame.mines, activeGame.specialItems))
        && activeGame.isOver
        && activeGame.revealed == old(activeGame.revealed)
        && activeGame.currentWin == old(activeGame.currentWin)
      ensures old(InProgress()) && index !in old(activeGame.revealed) && index !in activeGame.mines ==>
        && activeGame.revealed == old(activeGame.revealed) + [index]
        && !activeGame.isOver
        && activeGame.currentWin == Payout(activeGame.bet, activeGame.multiStack, |old(activeGame.revealed)|,
                                           BoosterAt(activeGame.specialItems, index))
        && r == Ok(Safe(activeGame.currentWin, |old(activeGame.revealed)|, BoosterAt(activeGame.specialItems, index)))
    {
      var game := activeGame;
      if game == null || game.isOver {
        return Err(NoActiveGame);
      }
      if index in game.revealed {
        return Err(TileAlreadyRevealed);
      }
      if index in game.mines {
        game.isOver := true;
        return Ok(Bomb(game.mines, game.specialItems));
      }
      game.revealed := game.revealed + [index];
      var stepIndex := |game.revealed| - 1;
      var currentPayout := if stepIndex < |game.multiStack| then Num(game.bet * game.multiStack[stepIndex]) else NaN;
      var specialData := None;
      if index in game.specialItems {
        specialData := Some(game.specialItems[index]);
        currentPayout := Mul(currentPayout, Num(specialData.value.mult));
      }
      if Greater(currentPayout, Num(game.bet * MaxWinFactor)) {
        currentPayout := Num(game.bet * MaxWinFactor);
      }
      game.currentWin := currentPayout;
      r := Ok(Safe(currentPayout, stepIndex, specialData));
    }

    /**
     * `/api/cashout`: rejected with no round in play. Otherwise the current win is
     * credited and the round is over; with no safe reveal the credit is 0.
     */
    method Cashout() returns (r: Result<CashoutReply, Fault>)
      requires Valid()
      modifies this, activeGame
      ensures Valid()
      ensures !InProgress()
      ensures old(balance) == NaN ==> balance == NaN
      ensures !old(InProgress()) ==>
        r == Err(NoActiveGame) && unchanged(this) && (activeGame != null ==> unchanged(activeGame))
      ensures old(InProgress()) ==>
        && activeGame == old(activeGame)
        && activeGame.isOver
        && activeGame.revealed == old(activeGame.revealed)
        && activeGame.currentWin == old(activeGame.currentWin)
        && balance == Add(old(balance), activeGame.currentWin)
        && serverSeed == old(serverSeed) && nonce == old(nonce)
        && nextServerSeed == old(nextServerSeed) && nextServerHash == old(nextServerHash)
        && r == Ok(CashoutReply(activeGame.currentWin, balance, activeGame.mines, activeGame.specialItems))
      ensures old(InProgress()) && old(activeGame.revealed) == [] ==> r.Ok? && r.value.winAmount == Num(0.0)
    {
      var game := activeGame;
      if game == null || game.isOver {
        return Err(NoActiveGame);
      }
      balance := Add(balance, game.currentWin);
      game.isOver := true;
      r := Ok(CashoutReply(game.currentWin, balance, game.mines, game.specialItems));
    }
  }

  // What the arithmetic and the board guarantee about the handlers

  /**
   * Once the balance is NaN it stays NaN: every stake passes the funds check, the
   * debit keeps NaN and so does any credit.
   */
  lemma NaNBalanceIsSticky(amount: real, mode: string, win: Num)
    ensures !Greater(Num(amount * CostMult(mode)), NaN)
    ensures Sub(NaN, Num(amount * CostMult(mode))) == NaN
    ensures Add(NaN, win) == NaN
  {
  }

  /** The cost multiplier is at least 1, so a bet never costs less than its non-negative amount. */
  lemma CostCoversStake(amount: real, mode: string)
    requires amount >= 0.0
    ensures CostMult(mode) >= 1.0
    ensures amount <= amount * CostMult(mode)
  {
    var m := CostMult(mode);
    assert amount * m - amount == amount * (m - 1.0);
  }

  /** A booster the reveal can apply sits on an on-board tile that is not a mine. */
  lemma BoosterOnlyOnSafeTile(floats: seq<Word>, mines: int, mode: string, index: int)
    requires |floats| >= BoardDraws
    ensures BoosterAt(SpecialItems(floats, mines, mode), index).Some? ==>
      0 <= index < TileCount && index !in MineLocations(floats, mines)
  {
    BoostersAreSafeTiles(floats, mines, mode);
  }


  /** An index off the board is never a mine, so `/api/reveal` always treats it as a safe hit. */
  lemma OffBoardIndexIsNeverAMine(floats: seq<Word>, mines: int, index: int)
    requires |floats| >= TileCount
    requires index < 0 || index >= TileCount
    ensures index !in MineLocations(floats, mines)
  {
    MinesAreDistinctTiles(floats, mines);
  }

  /** Every on-board tile that is not a mine lies in the part of the tile order after the mine cut. */
  lemma SafeTileAfterCut(floats: seq<Word>, mines: int, x: int)
    requires |floats| >= TileCount
    requires 0 <= x < TileCount && x !in MineLocations(floats, mines)
    ensures x in TileOrder(floats)[SliceIndex(mines, TileCount)..]
  {
    TileOrderIsPermutation(floats);
    var t := TileOrder(floats);
    var c := SliceIndex(mines, TileCount);
    assert Tiles()[x] == x;
    assert x in multiset(t);
    assert t == t[..c] + t[c..];
  }

  /** A duplicate-free sequence whose elements all occur in t is no longer than t. */
  lemma {:induction false} DistinctWithin(xs: seq<int>, t: seq<int>)
    requires Distinct(xs)
    requires forall x :: x in xs ==> x in t
    ensures |xs| <= |t|
  {
    if xs != [] {
      var x := xs[|xs| - 1];
      assert x in xs;
      var k :| 0 <= k < |t| && t[k] == x;
      var rest := t[..k] + t[k + 1..];
      var init := xs[..|xs| - 1];
      forall y | y in init ensures y in rest {
        var i :| 0 <= i < |init| && init[i] == y;
        assert xs[i] == y && y != x;
        assert y in xs;
        var j :| 0 <= j < |t| && t[j] == y;
        if j < k {
          assert rest[j] == y;
        } else {
          assert rest[j - 1] == y;
        }
      }
      DistinctWithin(init, rest);
    }
  }

  /**
   * With fewer than 25 mines the ladder has a rung for every safe tile: a new on-board
   * safe reveal, after any run of distinct on-board safe reveals, lands on the ladder
   * and pays a number. The NaN payout therefore needs an off-board index.
   */
  lemma OnBoardRevealStaysOnLadder(floats: seq<Word>, mines: int, revealed: seq<int>, index: int,
                                   bet: real, boost: Option<Booster>)
    requires |floats| >= TileCount && 0 <= mines < TileCount
    requires Distinct(revealed + [index])
    requires forall x :: x in revealed + [index] ==> 0 <= x < TileCount && x !in MineLocations(floats, mines)
    ensures |revealed| < |Ladder.Ladder(mines)|
    ensures Payout(bet, Ladder.Ladder(mines), |revealed|, boost).Num?
  {
    var xs := revealed + [index];
    var safe := TileOrder(floats)[SliceIndex(mines, TileCount)..];
    TileOrderIsPermutation(floats);
    forall x | x in xs ensures x in safe {
      SafeTileAfterCut(floats, mines, x);
    }
    DistinctWithin(xs, safe);
  }

  /**
   * A round with 24 mines has a one-rung ladder. Two off-board reveals are both safe
   * hits; the second reads past the ladder, its payout is NaN, and cashing out makes
   * the balance NaN.
   */
  method OffBoardRevealsSpoilBalance(hmac: Hmac, sha256: string -> string, seeds: seq<string>, clientSeed: string)
    returns (second: Result<RevealReply, Fault>, cashout: Result<CashoutReply, Fault>)
    requires |seeds| == 2
    ensures second.Ok? && second.value == Safe(NaN, 1, None)
    ensures cashout.Ok? && cashout.value.winAmount == NaN && cashout.value.balance == NaN
  {
    var db := new Db(hmac, sha256, seeds[0]);
    var bet := db.Bet(1.0, 24, clientSeed, "normal", seeds[1]);
    assert bet.Ok?;
    var game := db.activeGame;
    var floats := RoundFloats(hmac, db.serverSeed.value, clientSeed, db.nonce);
    MinesAreDistinctTiles(floats, 24);
    assert game.specialItems == map[];
    OffBoardIndexIsNeverAMine(floats, 24, 100);
    OffBoardIndexIsNeverAMine(floats, 24, 101);
    var first := db.Reveal(100);
    assert first.Ok? && first.value.Safe?;
    second := db.Reveal(101);
    cashout := db.Cashout();
  }
}
