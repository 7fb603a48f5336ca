/**
 * Board generation of server.js (`/api/bet`): a Durstenfeld shuffle of the tiles
 * 0..24 driven by the stream, whose first `mines` entries are the mines, and, for
 * every mode but 'normal', a second shuffle of the remaining tiles whose first three
 * become booster tiles with a tier drawn from the stream.
 */
module Board {
  import opened Stream

  const TileCount: nat := 25
  /** The booster shuffle reads `floats[i + 25]`. */
  const BoosterShuffleOffset: nat := 25
  /** The tier of booster i reads `floats[i + 30]`. */
  const TierOffset: nat := 30
  /** At most this many boosters (`safeTiles.slice(0, 3)`). */
  const MaxBoosters: nat := 3
  /** Floats the board needs: the booster shuffle reads up to index 49. */
  const BoardDraws: nat := 50

  predicate Distinct(s: seq<int>) {
    forall a, b :: 0 <= a < b < |s| ==> s[a] != s[b]
  }

  function Min(a: int, b: int): int {
    if a <= b then a else b
  }

  /**
   * `Math.floor(f * (i + 1))` for the float f = v / 2^32. The product has fewer than
   * 53 significant bits, so the double computation is exact and equals this quotient.
   */
  function SwapIndex(v: Word, i: nat): (j: nat)
    ensures j <= i
  {
    ScaledWordBelow(v, i + 1);
    (v * (i + 1)) / WordRange
  }

  /** A word scaled by n and divided by 2^32 stays below n. */
  lemma ScaledWordBelow(v: Word, n: nat)
    requires n > 0
    ensures (v * n) / WordRange < n
  {
    var x := v * n;
    var q := x / WordRange;
    assert x < WordRange * n by {
      assert (WordRange - v) * n > 0;
    }
  }

  /** `[s[i], s[j]] = [s[j], s[i]]`. */
  function Swap(s: seq<int>, i: nat, j: nat): (t: seq<int>)
    requires i < |s| && j < |s|
    ensures |t| == |s| && t[i] == s[j] && t[j] == s[i]
    ensures forall k :: 0 <= k < |s| && k != i && k != j ==> t[k] == s[k]
  {
    s[i := s[j]][j := s[i]]
  }

  /** Steps i, i - 1, ..., 1 of the shuffle: step k swaps entry k with entry SwapIndex(draws[k + offset], k). */
  function ShuffleSteps(s: seq<int>, draws: seq<Word>, offset: nat, i: nat): (t: seq<int>)
    requires i == 0 || (i < |s| && i + offset < |draws|)
    ensures |t| == |s|
    decreases i
  {
    if i == 0 then s
    else ShuffleSteps(Swap(s, i, SwapIndex(draws[i + offset], i)), draws, offset, i - 1)
  }

  /** The Durstenfeld shuffle of s, step i reading the draw at i + offset. */
  function Shuffle(s: seq<int>, draws: seq<Word>, offset: nat): (t: seq<int>)
    requires |s| <= 1 || offset + |s| <= |draws|
    ensures |t| == |s|
  {
    if |s| == 0 then s else ShuffleSteps(s, draws, offset, |s| - 1)
  }

  /** A swap permutes the entries and keeps distinct entries distinct. */
  lemma SwapPermutes(s: seq<int>, i: nat, j: nat)
    requires i < |s| && j < |s|
    ensures multiset(Swap(s, i, j)) == multiset(s)
    ensures Distinct(s) ==> Distinct(Swap(s, i, j))
  {
    var t := Swap(s, i, j);
    if Distinct(s) {
      forall a, b | 0 <= a < b < |t| ensures t[a] != t[b] {
        var pa := if a == i then j else if a == j then i else a;
        var pb := if b == i then j else if b == j then i else b;
        assert t[a] == s[pa] && t[b] == s[pb] && pa != pb;
      }
    }
  }

  lemma {:induction false} ShuffleStepsPermutes(s: seq<int>, draws: seq<Word>, offset: nat, i: nat)
    requires i == 0 || (i < |s| && i + offset < |draws|)
    ensures multiset(ShuffleSteps(s, draws, offset, i)) == multiset(s)
    decreases i
  {
    if i > 0 {
      var j := SwapIndex(draws[i + offset], i);
      SwapPermutes(s, i, j);
      ShuffleStepsPermutes(Swap(s, i, j), draws, offset, i - 1);
    }
  }

  lemma {:induction false} ShuffleStepsDistinct(s: seq<int>, draws: seq<Word>, offset: nat, i: nat)
    requires i == 0 || (i < |s| && i + offset < |draws|)
    requires Distinct(s)
    ensures Distinct(ShuffleSteps(s, draws, offset, i))
    decreases i
  {
    if i > 0 {
      var j := SwapIndex(draws[i + offset], i);
      SwapPermutes(s, i, j);
      ShuffleStepsDistinct(Swap(s, i, j), draws, offset, i - 1);
    }
  }

  /** Every swap index stays within 0..i, so the shuffle is a permutation of its input and keeps distinct entries distinct. */
  lemma ShufflePermutes(s: seq<int>, draws: seq<Word>, offset: nat)
    requires |s| <= 1 || offset + |s| <= |draws|
    ensures multiset(Shuffle(s, draws, offset)) == multiset(s)
    ensures Distinct(s) ==> Distinct(Shuffle(s, draws, offset))
  {
    if |s| > 0 {
      ShuffleStepsPermutes(s, draws, offset, |s| - 1);
      if Distinct(s) {
        ShuffleStepsDistinct(s, draws, offset, |s| - 1);
      }
    }
  }

  /** The in-place shuffle loop `for (let i = a.length - 1; i > 0; i--)` of server.js. */
  method ShuffleInPlace(a: array<int>, draws: seq<Word>, offset: nat)
    requires a.Length <= 1 || offset + a.Length <= |draws|
    modifies a
    ensures a[..] == Shuffle(old(a[..]), draws, offset)
  {
    var i := a.Length - 1;
    while i > 0
      invariant -1 <= i < a.Length
      invariant a.Length == 0 <==> i == -1
      invariant i == -1 ==> a[..] == old(a[..])
      invariant i >= 0 ==> ShuffleSteps(a[..], draws, offset, i) == Shuffle(old(a[..]), draws, offset)
    {
      var j := SwapIndex(draws[i + offset], i);
      ghost var before := a[..];
      var t := a[i];
      a[i] := a[j];
      a[j] := t;
      assert a[..] == Swap(before, i, j);
      i := i - 1;
    }
  }

  // ---------------------------------------------------------------------------
  // The board as functions of the stream

  /** `Array.from({length: 25}, (_, i) => i)`. */
  function Tiles(): (t: seq<int>)
    ensures |t| == TileCount && forall i :: 0 <= i < |t| ==> t[i] == i
    ensures forall x :: x in t <==> 0 <= x < TileCount
  {
    var t := seq(TileCount, i => i);
    assert forall i :: 0 <= i < |t| ==> t[i] == i;
    IdentityElements(t);
    t
  }

  /** A sequence holding i at every position i holds exactly 0 .. |t| - 1. */
  lemma IdentityElements(t: seq<int>)
    requires forall i :: 0 <= i < |t| ==> t[i] == i
    ensures forall x :: x in t <==> 0 <= x < |t|
  {
    forall x | 0 <= x < |t| ensures x in t {
      assert t[x] == x;
    }
  }

  /** Where `slice` cuts an array of length len for the argument k: a negative k counts from the end. */
  function SliceIndex(k: int, len: nat): (c: nat)
    ensures c <= len
    ensures 0 <= k <= len ==> c == k
  {
    if k < 0 then (if len + k < 0 then 0 else len + k) else if k > len then len else k
  }

  /** `allTiles` after the tile shuffle. */
  function TileOrder(floats: seq<Word>): seq<int>
    requires |floats| >= TileCount
  {
    Shuffle(Tiles(), floats, 0)
  }

  /** `allTiles.slice(0, mines)`. */
  function MineLocations(floats: seq<Word>, mines: int): seq<int>
    requires |floats| >= TileCount
  {
    TileOrder(floats)[..SliceIndex(mines, TileCount)]
  }

  /** `safeTiles` after the booster shuffle: `allTiles.slice(mines)` shuffled with the draws from index 25 on. */
  function SafeOrder(floats: seq<Word>, mines: int): seq<int>
    requires |floats| >= BoardDraws
  {
    Shuffle(TileOrder(floats)[SliceIndex(mines, TileCount)..], floats, BoosterShuffleOffset)
  }

  /** `safeTiles.slice(0, 3)`. */
  function BoostedTiles(floats: seq<Word>, mines: int): seq<int>
    requires |floats| >= BoardDraws
  {
    var safe := SafeOrder(floats, mines);
    safe[..Min(MaxBoosters, |safe|)]
  }

  datatype BoosterKind = GoldGem | NovaStar

  /** A booster tile's descriptor `{ type, mult }`. */
  datatype Booster = Booster(kind: BoosterKind, mult: real)

  /** The GOLD_GEM multiplier for draw r: 1.5, then 3 above 0.6, 5 above 0.9, 10 above 0.99. */
  function GoldGemMult(r: Word): real {
    var f := ToUnit(r);
    if f > 0.99 then 10.0 else if f > 0.9 then 5.0 else if f > 0.6 then 3.0 else 1.5
  }

  /** The NOVA_STAR multiplier for draw r: 3, then 10 above 0.5, 25 above 0.8, 50 above 0.95. */
  function NovaStarMult(r: Word): real {
    var f := ToUnit(r);
    if f > 0.95 then 50.0 else if f > 0.8 then 25.0 else if f > 0.5 then 10.0 else 3.0
  }

  /** 'boost10' gives GOLD_GEM tiers; every other mode that reaches booster placement gives NOVA_STAR. */
  function BoosterFor(mode: string, r: Word): Booster {
    if mode == "boost10" then Booster(GoldGem, GoldGemMult(r)) else Booster(NovaStar, NovaStarMult(r))
  }

  /** `specialItems` after the first n iterations of `boostedTiles.forEach((idx, i) => ...)`. */
  function Boosters(boosted: seq<int>, floats: seq<Word>, mode: string, n: nat): (m: map<int, Booster>)
    requires n <= |boosted| && TierOffset + n <= |floats|
    ensures m.Keys == set k | 0 <= k < n :: boosted[k]
  {
    if n == 0 then map[]
    else Boosters(boosted, floats, mode, n - 1)[boosted[n - 1] := BoosterFor(mode, floats[n - 1 + TierOffset])]
  }

  /** `specialItems`: empty in the 'normal' mode, one booster per boosted tile otherwise. */
  function SpecialItems(floats: seq<Word>, mines: int, mode: string): map<int, Booster>
    requires |floats| >= BoardDraws
  {
    if mode == "normal" then map[]
    else
      var boosted := BoostedTiles(floats, mines);
      Boosters(boosted, floats, mode, |boosted|)
  }

  // ---------------------------------------------------------------------------
  // Properties of the board

  /** `allTiles` stays a permutation of 0..24: the same multiset, all distinct, all in range. */
  lemma TileOrderIsPermutation(floats: seq<Word>)
    requires |floats| >= TileCount
    ensures multiset(TileOrder(floats)) == multiset(Tiles())
    ensures |TileOrder(floats)| == TileCount
    ensures Distinct(TileOrder(floats))
    ensures forall k :: 0 <= k < TileCount ==> 0 <= TileOrder(floats)[k] < TileCount
  {
    ShufflePermutes(Tiles(), floats, 0);
    var t := TileOrder(floats);
    forall k | 0 <= k < TileCount ensures 0 <= t[k] < TileCount {
      assert t[k] in multiset(t);
      assert t[k] in Tiles();
    }
  }

  /** The mines are exactly `slice(0, mines)` many distinct tile indices in 0..24; for 0 <= mines <= 25 that is `mines` of them. */
  lemma MinesAreDistinctTiles(floats: seq<Word>, mines: int)
    requires |floats| >= TileCount
    ensures |MineLocations(floats, mines)| == SliceIndex(mines, TileCount)
    ensures 0 <= mines <= TileCount ==> |MineLocations(floats, mines)| == mines
    ensures Distinct(MineLocations(floats, mines))
    ensures forall x :: x in MineLocations(floats, mines) ==> 0 <= x < TileCount
  {
    TileOrderIsPermutation(floats);
  }

  lemma {:induction false} BoostersAt(boosted: seq<int>, floats: seq<Word>, mode: string, n: nat, k: nat)
    requires n <= |boosted| && TierOffset + n <= |floats|
    requires Distinct(boosted) && k < n
    ensures Boosters(boosted, floats, mode, n)[boosted[k]] == BoosterFor(mode, floats[k + TierOffset])
    decreases n
  {
    if k < n - 1 {
      BoostersAt(boosted, floats, mode, n - 1, k);
    }
  }

  lemma {:induction false} BoostersCount(boosted: seq<int>, floats: seq<Word>, mode: string, n: nat)
    requires n <= |boosted| && TierOffset + n <= |floats|
    requires Distinct(boosted)
    ensures |Boosters(boosted, floats, mode, n)| == n
    decreases n
  {
    if n > 0 {
      BoostersCount(boosted, floats, mode, n - 1);
      var before := Boosters(boosted, floats, mode, n - 1);
      assert boosted[n - 1] !in before by {
        assert forall k :: 0 <= k < n - 1 ==> boosted[k] != boosted[n - 1];
      }
    }
  }

  /** The boosted tiles are distinct tiles of `allTiles.slice(mines)`, hence never mines. */
  lemma BoostedTilesAreSafe(floats: seq<Word>, mines: int)
    requires |floats| >= BoardDraws
    ensures Distinct(BoostedTiles(floats, mines))
    ensures forall x :: x in BoostedTiles(floats, mines) ==> 0 <= x < TileCount && x !in MineLocations(floats, mines)
  {
    TileOrderIsPermutation(floats);
    var order := TileOrder(floats);
    var cut := SliceIndex(mines, TileCount);
    var rest := order[cut..];
    assert Distinct(rest);
    ShufflePermutes(rest, floats, BoosterShuffleOffset);
    var safe := SafeOrder(floats, mines);
    var boosted := BoostedTiles(floats, mines);
    forall x | x in boosted ensures 0 <= x < TileCount && x !in MineLocations(floats, mines) {
      assert x in multiset(safe);
      assert x in rest;
      var p :| 0 <= p < |rest| && rest[p] == x;
      assert order[cut + p] == x;
    }
  }

  /**
   * The boosters: at most three, none in the 'normal' mode and min(3, safe tiles)
   * otherwise, never on a mine, and the booster of the i-th boosted tile has the tier
   * of draw 30 + i.
   */
  lemma BoostersAreSafeTiles(floats: seq<Word>, mines: int, mode: string)
    requires |floats| >= BoardDraws
    ensures var items := SpecialItems(floats, mines, mode);
      && |items| <= MaxBoosters
      && (mode == "normal" ==> items == map[])
      && (mode != "normal" ==> |items| == Min(MaxBoosters, TileCount - SliceIndex(mines, TileCount)))
      && (forall t :: t in items ==> 0 <= t < TileCount && t !in MineLocations(floats, mines))
    ensures mode != "normal" ==> forall i :: 0 <= i < |BoostedTiles(floats, mines)| ==>
      SpecialItems(floats, mines, mode)[BoostedTiles(floats, mines)[i]] == BoosterFor(mode, floats[i + TierOffset])
  {
    BoostedTilesAreSafe(floats, mines);
    var boosted := BoostedTiles(floats, mines);
    if mode != "normal" {
      forall t | t in SpecialItems(floats, mines, mode) ensures t in boosted {
        var k :| 0 <= k < |boosted| && boosted[k] == t;
      }
      BoostersCount(boosted, floats, mode, |boosted|);
      forall i | 0 <= i < |boosted|
        ensures SpecialItems(floats, mines, mode)[boosted[i]] == BoosterFor(mode, floats[i + TierOffset])
      {
        BoostersAt(boosted, floats, mode, |boosted|, i);
      }
    }
  }

  /** Tier multipliers never decrease as the draw grows. */
  lemma BoosterMultMonotone(mode: string, r1: Word, r2: Word)
    requires r1 <= r2
    ensures BoosterFor(mode, r1).mult <= BoosterFor(mode, r2).mult
    ensures BoosterFor(mode, r1).kind == BoosterFor(mode, r2).kind
  {
    assert ToUnit(r1) <= ToUnit(r2);
  }

  /** Stream index x is read by the booster shuffle when there are n safe tiles (steps n - 1 down to 1). */
  predicate ReadByBoosterShuffle(n: nat, x: nat) {
    BoosterShuffleOffset + 1 <= x < BoosterShuffleOffset + n
  }

  /** Stream index x is read by a tier draw when there are n safe tiles. */
  predicate ReadByTierDraw(n: nat, x: nat) {
    TierOffset <= x < TierOffset + Min(MaxBoosters, n)
  }

  /** Steps i down to 1 of a shuffle read only the draws at offset + 1 .. offset + i. */
  lemma {:induction false} ShuffleStepsReads(s: seq<int>, d1: seq<Word>, d2: seq<Word>, offset: nat, i: nat)
    requires i == 0 || (i < |s| && i + offset < |d1| && i + offset < |d2|)
    requires forall x :: offset + 1 <= x <= offset + i ==> d1[x] == d2[x]
    ensures ShuffleSteps(s, d1, offset, i) == ShuffleSteps(s, d2, offset, i)
    decreases i
  {
    if i > 0 {
      assert d1[i + offset] == d2[i + offset];
      ShuffleStepsReads(Swap(s, i, SwapIndex(d1[i + offset], i)), d1, d2, offset, i - 1);
    }
  }

  /** The first n iterations of the booster loop read only the draws at 30 .. 29 + n. */
  lemma {:induction false} BoostersReads(boosted: seq<int>, f1: seq<Word>, f2: seq<Word>, mode: string, n: nat)
    requires n <= |boosted| && TierOffset + n <= |f1| && TierOffset + n <= |f2|
    requires forall x :: TierOffset <= x < TierOffset + n ==> f1[x] == f2[x]
    ensures Boosters(boosted, f1, mode, n) == Boosters(boosted, f2, mode, n)
    decreases n
  {
    if n > 0 {
      assert f1[n - 1 + TierOffset] == f2[n - 1 + TierOffset];
      BoostersReads(boosted, f1, f2, mode, n - 1);
    }
  }

  /** The shuffled safe tiles depend only on the tile shuffle's entries 1 .. 24 and the booster shuffle's entries. */
  lemma SafeOrderReads(f1: seq<Word>, f2: seq<Word>, mines: int)
    requires |f1| >= BoardDraws && |f2| >= BoardDraws
    requires forall x :: 1 <= x < TileCount ==> f1[x] == f2[x]
    requires forall x: nat :: ReadByBoosterShuffle(TileCount - SliceIndex(mines, TileCount), x) ==> f1[x] == f2[x]
    ensures TileOrder(f1) == TileOrder(f2)
    ensures SafeOrder(f1, mines) == SafeOrder(f2, mines)
  {
    ShuffleStepsReads(Tiles(), f1, f2, 0, TileCount - 1);
    var safe := TileOrder(f1)[SliceIndex(mines, TileCount)..];
    var n := |safe|;
    if n > 0 {
      forall x | BoosterShuffleOffset + 1 <= x <= BoosterShuffleOffset + (n - 1)
        ensures f1[x] == f2[x]
      {
        assert ReadByBoosterShuffle(n, x);
      }
      ShuffleStepsReads(safe, f1, f2, BoosterShuffleOffset, n - 1);
    }
  }

  /**
   * The board reads the stream only at the tile shuffle's entries 1 .. 24, the booster
   * shuffle's entries and the tier draws: two streams that agree there give the same
   * mines and the same boosters.
   */
  lemma BoardReads(f1: seq<Word>, f2: seq<Word>, mines: int, mode: string)
    requires |f1| >= BoardDraws && |f2| >= BoardDraws
    requires forall x :: 1 <= x < TileCount ==> f1[x] == f2[x]
    requires forall x: nat :: ReadByBoosterShuffle(TileCount - SliceIndex(mines, TileCount), x) ==> f1[x] == f2[x]
    requires forall x: nat :: ReadByTierDraw(TileCount - SliceIndex(mines, TileCount), x) ==> f1[x] == f2[x]
    ensures TileOrder(f1) == TileOrder(f2)
    ensures MineLocations(f1, mines) == MineLocations(f2, mines)
    ensures SpecialItems(f1, mines, mode) == SpecialItems(f2, mines, mode)
  {
    SafeOrderReads(f1, f2, mines);
    var n := TileCount - SliceIndex(mines, TileCount);
    var boosted := BoostedTiles(f1, mines);
    assert |boosted| == Min(MaxBoosters, n);
    forall x | TierOffset <= x < TierOffset + |boosted|
      ensures f1[x] == f2[x]
    {
      assert ReadByTierDraw(n, x);
    }
    BoostersReads(boosted, f1, f2, mode, |boosted|);
  }

  /**
   * The booster shuffle and the tier draws share stream entries exactly when there are
   * at least 6 safe tiles (mines <= 19): step 5 of the shuffle reads `floats[30]`, the
   * first tier's draw. BoardReads shows these two ranges cover what the board reads
   * after the tile shuffle.
   */
  lemma DrawsOverlap(n: nat)
    ensures (exists x: nat :: ReadByBoosterShuffle(n, x) && ReadByTierDraw(n, x)) <==> n >= 6
  {
    if n >= 6 {
      assert ReadByBoosterShuffle(n, 30) && ReadByTierDraw(n, 30);
    }
  }

  /**
   * The board of `/api/bet`: the tile array is built and shuffled in place, its prefix
   * is the mine list, and outside the 'normal' mode the rest is copied, shuffled again
   * and its first three entries receive boosters.
   */
  method GenerateBoard(floats: seq<Word>, mines: int, mode: string)
    returns (mineLocations: seq<int>, specialItems: map<int, Booster>)
    requires |floats| >= BoardDraws
    ensures mineLocations == MineLocations(floats, mines)
    ensures specialItems == SpecialItems(floats, mines, mode)
    ensures |mineLocations| == SliceIndex(mines, TileCount)
    ensures Distinct(mineLocations) && forall x :: x in mineLocations ==> 0 <= x < TileCount
    ensures |specialItems| <= MaxBoosters
    ensures forall t :: t in specialItems ==> 0 <= t < TileCount && t !in mineLocations
    ensures mode == "normal" ==> specialItems == map[]
  {
    var allTiles := new int[TileCount](i => i);
    assert allTiles[..] == Tiles();
    ShuffleInPlace(allTiles, floats, 0);
    var cut := SliceIndex(mines, allTiles.Length);
    mineLocations := allTiles[..cut];
    specialItems := map[];
    if mode != "normal" {
      var rest := allTiles[cut..];
      var safeTiles := new int[|rest|](i requires 0 <= i < |rest| => rest[i]);
      assert safeTiles[..] == rest;
      ShuffleInPlace(safeTiles, floats, BoosterShuffleOffset);
      var boosted := safeTiles[..Min(MaxBoosters, safeTiles.Length)];
      for i := 0 to |boosted|
        invariant specialItems == Boosters(boosted, floats, mode, i)
      {
        specialItems := specialItems[boosted[i] := BoosterFor(mode, floats[i + TierOffset])];
      }
    }
    MinesAreDistinctTiles(floats, mines);
    BoostersAreSafeTiles(floats, mines, mode);
  }
}
