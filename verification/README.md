# Mines outcome engine, modelled in Dafny

This project models the outcome engine of a "provably fair" mines game on a 5×5 board. It covers two source files.

`server.js` holds an in-memory `db` and four handlers, three of them modelled:

- `/api/bet` checks the stake and rotates the committed server seed. It draws 60 floats from an HMAC-SHA256 stream and shuffles the 25 tiles into mine locations. Outside the `normal` mode it shuffles the safe tiles again and gives the first min(3, safe tiles) of them a tiered booster. It then computes the multiplier ladder.
- `/api/reveal` either ends the round on a mine or pays the next rung of the ladder, with the tile's booster applied and the win capped.
- `/api/cashout` credits the current win.

`math/engine.js` reads the published math artifacts:

- `parseLookupCSV` reads the lookup table and `parseBooksFromJsonl` reads the books.
- `weightedPick` picks a row of the table.
- The `MathEngine` object loads every mode listed in index.json into its `modes` field.
- `draw` returns the book of a picked row after checking its payout against the row.

The model is split into these modules:

| module | file | models |
|---|---|---|
| `Wrappers` | wrappers.dfy | `Option` and `Result` |
| `Text` | text.dfy | decimal strings, JavaScript `trim`, `split(",")` and `split(/\r?\n/)` |
| `Stream` | stream.dfy | `generateFloats` |
| `Board` | board.dfy | the tile shuffle, the mine cut, the booster shuffle and the tiers |
| `Ladder` | ladder.dfy | the multiplier ladder and its closed form |
| `Server` | server.dfy | `db` (class `Db`), `db.activeGame` (class `Game`) and the three modelled handlers as methods of `Db` |
| `Lookup` | lookup.dfy | `parseLookupCSV` and `parseBooksFromJsonl` |
| `Engine` | engine.dfy | `weightedPick` and the class `MathEngine` with `load` and `draw` |

Each loop in the source is a Dafny method with loop invariants, and each method is proved against a function that specifies it. The properties are proved about those functions. Examples:

- the shuffle is a permutation;
- the mines are distinct board tiles and boosters never sit on a mine;
- each rung times the probability of surviving that many reveals is exactly 0.964;
- for 1 to 24 mines the ladder is strictly increasing;
- a lookup CSV written by the generator script reads back as the rows written;
- the pick is the first row whose running weight passes the target;
- a load stores the listed modes, on top of those stored before, and a later duplicate name wins.

The model follows the code as written:

- `/api/bet` never range-checks `mines`. `slice` semantics apply, so a negative count cuts from the end. A negative count also makes a ladder longer than the board, and its rungs past tile 25 are 0 (`Ladder.LadderPastBoardIsZero`).
- `/api/reveal` never range-checks `index`.
  - An off-board index is never a mine (`Server.OffBoardIndexIsNeverAMine`), so it is taken as a safe hit.
  - Enough such hits read past the ladder. The payout then becomes NaN, and so does the balance after a cashout (`Server.OffBoardRevealsSpoilBalance`).
  - On-board reveals alone can never get there. With 0 to 24 mines, `Server.OnBoardRevealStaysOnLadder` shows that distinct safe on-board reveals stay on the ladder. With 25 or more mines, every on-board tile is a mine. With a negative count, the ladder is longer than the board. Amounts are therefore modelled as JavaScript numbers that may be NaN (`Server.Num`).
- The bet reply carries the balance, the next hash and the nonce. No reply discloses a round's server seed.
- The booster shuffle reads `floats[26..]` and the tier draws read `floats[30..32]`. The two share stream entries whenever there are at least 6 safe tiles (`Board.DrawsOverlap`). `Board.BoardReads` shows that these entries and the tile shuffle's entries are all the board reads.
- Any mode other than `boost10` or `boost75` costs 1× and, unless it is `normal`, gets NOVA_STAR boosters.

## Model

| member | source | states |
|---|---|---|
| Stream.Message | server.js:34 | The HMAC message for a cursor: `${clientSeed}:${nonce}:${cursor}` with decimal numbers. |
| Stream.ReadUInt32BE | server.js:41 | `readUInt32BE`: four bytes at an offset, most significant first. |
| Stream.FloatAt | server.js:32-43 | Element k of the stream: word k mod 8 of the digest for cursor k div 8, as a numerator over 2^32. |
| Stream.Floats | server.js:29-47 | The first `count` elements of the stream in push order. It has exactly `count` elements. |
| Stream.ReadUInt32BEBytes | server.js:41 | The word read at an offset gives back its four bytes, most significant first (big-endian). |
| Stream.ToUnit | server.js:43 | Every float of the stream lies in [0, 1). |
| Stream.FloatsAt | server.js:32-44 | Element k of any request for more than k floats is word k mod 8 of the HMAC of `clientSeed:nonce:(k div 8)` keyed by the server seed. The stream is a function of seeds, nonce and position only. |
| Stream.FloatsPrefix | server.js:29-47 | A request for fewer floats is a prefix of a request for more with the same seeds and nonce. |
| Stream.FloatsNext | server.js:33-43 | Reading word j of the digest for cursor c extends the stream by element 8c + j. |
| Stream.GenerateFloats | server.js:29-47 | The loop over cursors and 4-byte chunks returns exactly the first `count` elements of the stream. |
| Board.ShuffleSteps | server.js:103-106 | Steps i, i - 1, ..., 1 of the Durstenfeld shuffle: step k swaps entry k with entry `floor(draws[k + offset] * (k + 1))`. Its own contract is only that the length is kept; that the steps permute their input is Board.ShuffleStepsPermutes. |
| Board.Shuffle | server.js:103-106 | The whole shuffle of an array, step i reading the draw at i + offset. The length is kept. |
| Board.SwapIndex | server.js:104 | `floor(floats[i] * (i + 1))` is at most i, so each swap stays inside the array. |
| Board.Swap | server.js:105 | The destructuring swap exchanges positions i and j and leaves every other position unchanged. |
| Board.SwapPermutes | server.js:105 | A swap keeps the multiset of elements and keeps a duplicate-free array duplicate-free. |
| Board.ShuffleStepsPermutes | server.js:103-106 | Every prefix of the shuffle's steps keeps the multiset of elements. |
| Board.ShuffleStepsDistinct | server.js:103-106 | Every prefix of the shuffle's steps keeps a duplicate-free array duplicate-free. |
| Board.ShufflePermutes | server.js:103-106 | The whole shuffle is a permutation of its input and keeps it duplicate-free. |
| Board.ShuffleInPlace | server.js:103-106 | The in-place shuffle of an array leaves it holding the shuffle of its old contents. |
| Board.Tiles | server.js:102 | `allTiles`: 25 entries, entry i holding i, so its elements are exactly the tiles 0..24. |
| Board.SliceIndex | server.js:107 | The cut that `slice(0, mines)` makes lies in [0, 25], and equals `mines` when `mines` is in range. |
| Board.TileOrder | server.js:102-106 | `allTiles` after the tile shuffle, which reads draws 1..24. |
| Board.MineLocations | server.js:107 | `allTiles.slice(0, mines)`. |
| Board.SafeOrder | server.js:111-116 | `allTiles.slice(mines)` shuffled with the draws from index 25 on. |
| Board.BoostedTiles | server.js:117 | The first min(3, safe tiles) entries of the shuffled safe tiles. |
| Board.GoldGemMult | server.js:121-124 | The GOLD_GEM tier: 1.5, then 3 above 0.6, 5 above 0.9 and 10 above 0.99. |
| Board.NovaStarMult | server.js:125-128 | The NOVA_STAR tier: 3, then 10 above 0.5, 25 above 0.8 and 50 above 0.95. |
| Board.BoosterFor | server.js:121-128 | `boost10` gives GOLD_GEM; every other mode reaching booster placement gives NOVA_STAR. |
| Board.SpecialItems | server.js:110-131 | `specialItems`: empty in the `normal` mode, otherwise one booster per boosted tile with the tier of draw 30 + i. |
| Board.TileOrderIsPermutation | server.js:102-106 | The shuffled tiles are a permutation of 0..24: 25 distinct on-board tiles. |
| Board.MinesAreDistinctTiles | server.js:102-107 | The mine list has the cut's length, which is `mines` for 0..25 mines, and holds distinct on-board tiles. |
| Board.Boosters | server.js:119-130 | The booster map's keys are exactly the first n boosted tiles. |
| Board.BoostersAt | server.js:119-129 | The i-th boosted tile carries the booster for the tier draw `floats[30 + i]`. |
| Board.BoostersCount | server.js:119-130 | n distinct boosted tiles give exactly n boosters. |
| Board.BoostedTilesAreSafe | server.js:111-117 | The boosted tiles are distinct on-board tiles, and none is a mine. |
| Board.BoostersAreSafeTiles | server.js:110-131 | There are at most three boosters and none in the `normal` mode. Otherwise there are min(3, safe tiles), each on a safe tile, each with the tier of its own draw. |
| Board.BoosterMultMonotone | server.js:120-128 | A larger tier draw never gives a smaller multiplier, and the booster kind depends only on the mode. |
| Board.ShuffleStepsReads | server.js:103-106 | Steps i down to 1 of a shuffle read only the draws at offset + 1 .. offset + i: streams that agree there give the same result. |
| Board.BoostersReads | server.js:119-130 | The first n booster iterations read only the draws at 30 .. 29 + n. |
| Board.SafeOrderReads | server.js:102-116 | The shuffled safe tiles depend only on the tile shuffle's entries 1..24 and the booster shuffle's entries. |
| Board.BoardReads | server.js:102-131 | Two streams that agree on entries 1..24, on the booster shuffle's entries and on the tier draws give the same tile order, mines and boosters. |
| Board.DrawsOverlap | server.js:113-120 | The booster shuffle and the tier draws read a common stream entry if and only if there are at least 6 safe tiles. |
| Board.GenerateBoard | server.js:102-131 | The board equals the model's mine list and booster map. Mines are distinct on-board tiles, there are at most three boosters, none on a mine, and none in the `normal` mode. |
| Ladder.StepFactor | server.js:137-140 | The factor step i multiplies `current` by: (25 - i) / (25 - mines - i). |
| Ladder.Growth | server.js:136-140 | `current` after step i: the product of the step factors 0..i. |
| Ladder.Survival | server.js:133 | The reference the ladder is measured against: the probability that k tiles drawn without replacement from 25 avoid all mines. |
| Ladder.Ladder | server.js:134-142 | The ladder has 25 - mines rungs, none when mines >= 25. |
| Ladder.GrowthIsFallingRatio | server.js:136-140 | `current` after step i is (25)_(i+1) / (25 - mines)_(i+1), a ratio of falling factorials. |
| Ladder.GrowthStep | server.js:137-140 | One loop step takes `current` from its value after step i - 1 to its value after step i. |
| Ladder.LadderExpectedReturn | server.js:133-142 | Rung i times the probability of i + 1 safe reveals in a row is exactly 0.964 (3.6% house edge). |
| Ladder.LadderFirstRung | server.js:134-141 | The first rung is 0.964 · 25 / (25 - mines). |
| Ladder.GrowthPositive | server.js:136-140 | `current` stays positive for non-negative mine counts. |
| Ladder.LadderStepUp | server.js:136-141 | With at least one mine each step raises `current`. |
| Ladder.LadderStrictlyIncreasing | server.js:134-142 | For 1 to 24 mines the ladder is strictly increasing. |
| Ladder.GrowthWithoutMines | server.js:136-140 | With no mines every step factor is 1. |
| Ladder.LadderFlatWithoutMines | server.js:134-142 | With no mines every rung is 0.964. |
| Ladder.LadderPastBoardIsZero | server.js:134-140 | For a negative mine count every rung from index 25 on is 0. |
| Ladder.ComputeLadder | server.js:133-142 | The loop produces exactly the ladder for the mine count. |
| Server.Add | server.js:211 | Definition: `+` and `+=` on numbers where NaN absorbs. Its contract spells the definition out; what the handlers rely on is Server.NaNBalanceIsSticky. |
| Server.Sub | server.js:97 | Definition: `-=` on numbers where NaN absorbs. Its contract spells the definition out. |
| Server.Mul | server.js:190 | Definition: `*` on numbers where NaN absorbs. Its contract spells the definition out. |
| Server.Greater | server.js:87 | Definition: `>` on numbers where any comparison with NaN is false. Its contract spells the definition out. |
| Server.NaNBalanceIsSticky | server.js:86-97 | Once the balance is NaN, no stake fails the funds check, the debit leaves it NaN and so does the credit at server.js:211. Server.Db.Bet and Server.Db.Cashout state the same about their new balance. |
| Server.BoosterAt | server.js:187-188 | Definition: `game.specialItems[index]` as the reveal tests it, the stored booster when the tile is a key and none otherwise. Its contract spells the definition out. |
| Server.BoosterOnlyOnSafeTile | server.js:186-190 | A booster the reveal can apply to a tile of a board built by the bet sits on an on-board tile that is not a mine, so a booster is only ever paid on a safe hit. |
| Server.Db.InProgress | server.js:80 | Definition: a round exists and is not over. The bet refuses while it holds; its contract spells out the negation, which is the guard of the reveal (server.js:168) and the cashout (server.js:209). A successful bet makes it hold; a bomb or a cashout makes it false (the ensures of Bet, Reveal and Cashout). |
| Server.CostMult | server.js:82-84 | Definition: 10 for `boost10`, 75 for `boost75` and 1 for every other mode. Its contract spells this out as three iffs. |
| Server.CostCoversStake | server.js:82-86 | The cost multiplier is at least 1, so `totalCost` is never below a non-negative `amount`. |
| Server.Payout | server.js:183-194 | The payout is a number if and only if the step is on the ladder. It is then the bet times the rung times the tile's booster multiplier, capped at 5,000,000 × the bet. |
| Server.RoundFloats | server.js:100 | A round draws 60 floats. |
| Server.Game.constructor | server.js:144-153 | A new round holds the given stake, board and ladder, with nothing revealed, a win of 0 and the round not over. |
| Server.NewRound | server.js:99-153 | The round built for a bet has the board of the round's 60 floats, the ladder of the mine count and the stake, with nothing revealed. |
| Server.Db.constructor | server.js:15-22 | Start-up has balance 5000, no round seed, nonce 0 and no game, and publishes the hash of the first committed seed. |
| Server.Db.Bet | server.js:77-161 | A bet is rejected, with no change, while a round is in play or when the stake exceeds the balance, and succeeds otherwise. On success: the committed seed becomes the round's seed and matches the published hash; the nonce goes up by one; a fresh seed is committed; the stake is debited; the new round holds the board and ladder of the round's stream, and a round is in play. A NaN balance accepts every bet and stays NaN. |
| Server.Db.Reveal | server.js:164-204 | With no round in play, or on a repeated index, the reveal is rejected and nothing changes. A mine ends the round and discloses the board. Any other index is appended and the current win becomes the capped payout of that step. A successful reveal leaves the round in play exactly when it is safe. |
| Server.Db.Cashout | server.js:207-222 | With no round in play the cashout is rejected and nothing changes. Otherwise the current win is credited, the round is over and the seeds are untouched. With no safe reveal the credit is 0. Afterwards no round is in play, and a NaN balance stays NaN. |
| Server.OffBoardIndexIsNeverAMine | server.js:165-171 | An index outside 0..24 is never a mine, so a reveal always treats it as safe. |
| Server.SafeTileAfterCut | server.js:107-112 | Every on-board tile that is not a mine lies after the mine cut of the shuffled tiles. |
| Server.OnBoardRevealStaysOnLadder | server.js:182-184 | With 0..24 mines, distinct on-board safe reveals never outrun the ladder, so their payout is a number. |
| Server.OffBoardRevealsSpoilBalance | server.js:164-212 | With 24 mines, two off-board reveals are both safe. The second pays NaN, and cashing out leaves the balance NaN. |
| Lookup.ParseField | math/engine.js:30-32 | `Number(field)` / `BigInt(field)` on a trimmed decimal integer, an empty field reading as 0. None for any other form. |
| Lookup.FieldsOutcome | math/engine.js:29-34 | The loop body on a line's fields: fewer than three skip it; a bad weight, then a bad payout, throws; a bad id skips; otherwise a row. |
| Lookup.ParseLine | math/engine.js:28-34 | One line: `split(",")` and the loop body. |
| Lookup.RowStep | math/engine.js:27-35 | One turn of the loop: a throw stops it, a skip leaves the rows, a row is pushed. |
| Lookup.Collect | math/engine.js:26-36 | The loop over per-line outcomes in order. |
| Lookup.LookupTable | math/engine.js:24-37 | `parseLookupCSV`: trim, split at `/\r?\n/`, and the loop. |
| Lookup.CollectErrPersists | math/engine.js:27-35 | Once a line throws, the later lines do not change the outcome. |
| Lookup.ParseLookupCsv | math/engine.js:24-37 | The loop over the lines returns the table the model defines for the text: the rows in order, or the first field that fails to parse. |
| Lookup.CollectAppend | math/engine.js:27-35 | Reading two runs of lines that both parse gives the rows of the first followed by the rows of the second. |
| Lookup.ShortLineSkipped | math/engine.js:28-29 | A line with fewer than three comma-separated fields is skipped. |
| Lookup.FieldsAfterThirdUnread | math/engine.js:30-34 | Only the first three fields decide a line's outcome. |
| Lookup.ExtraFieldsIgnored | math/engine.js:28-34 | A line with extra fields parses like its first three fields alone. |
| Lookup.FieldOfIntToString | math/engine.js:30-32 | A field holding the decimal form of an integer reads back as that integer. |
| Lookup.GeneratedLine | scripts/generate_math.js:62 | The generator's line `${i},1,${payout}` splits at commas into exactly the three fields written. |
| Lookup.GeneratedCsv | scripts/generate_math.js:62 | The generator's file ends in a line feed, as every line it writes does. |
| Lookup.GeneratedLineParses | scripts/generate_math.js:62 | A line `${i},1,${payout}` written by the generator parses to the row (i, 1, payout). |
| Lookup.GeneratedCsvLines | math/engine.js:25 | Trimming and splitting the generated CSV gives back the written lines. |
| Lookup.GeneratedCsvRoundTrip | scripts/generate_math.js:48-62 | A CSV written by the generator reads back as rows 1..n with weight 1 and the written payouts, in order. |
| Lookup.ClassifyLine | math/engine.js:50-51 | A line is blank after trim, unparsable by `JSON.parse`, or a parsed value. |
| Lookup.BookStep | math/engine.js:50-52 | One turn of the loop: a throw stops it, a value with a numeric id is stored under it, anything else is skipped. |
| Lookup.Gather | math/engine.js:48-54 | The loop over classified lines in order, from an empty map. |
| Lookup.BooksById | math/engine.js:46-55 | `parseBooksFromJsonl`: trim, split at `/\r?\n/`, and the loop. |
| Lookup.GatherErrPersists | math/engine.js:49-53 | Once `JSON.parse` throws on a line, the later lines do not change the outcome. |
| Lookup.ParseBooks | math/engine.js:46-55 | The books reader returns what the model defines for the text: the id map, or the first line that fails to parse. |
| Lookup.GatherBooks | math/engine.js:48-54 | The loop over the lines folds each line's outcome into the id map in order. |
| Lookup.GatherFails | math/engine.js:49-53 | Reading the books fails if and only if some non-blank line does not parse. |
| Lookup.GatherKeys | math/engine.js:52 | The keys of the id map are exactly the numeric ids of the parsed lines, and each maps to a value carrying its own id. |
| Lookup.GatherLastWins | math/engine.js:52 | The book stored under an id is the last line carrying that id. |
| Lookup.BlankLineSkipped | math/engine.js:50 | A blank line changes nothing. |
| Text.NatToString | server.js:34 | `${n}` for a non-negative integer: at least one character, all decimal digits, no leading zero. |
| Text.ParseDecimal | math/engine.js:30-32 | The integer reading of a field: every non-empty digit string is read, as a non-negative value; anything read ends in a digit and starts with a digit or a sign; the value is non-negative unless the sign is `-`, and non-positive when it is. |
| Text.SpaceIsNotFieldChar | math/engine.js:25 | No character in `IsJsSpace` (the WhiteSpace and LineTerminator code points `trim()` removes) is a digit, a sign or a comma. |
| Text.Trim | math/engine.js:25 | `trim()` never lengthens the text; Text.TrimRemovesOnlySpaces states what it removes. |
| Text.TrimRemovesOnlySpaces | math/engine.js:25 | `trim()` returns a contiguous piece of the text with only JavaScript whitespace before and after it, and the piece neither starts nor ends with whitespace. |
| Text.Split | math/engine.js:28 | `split(sep)`: at least one piece, none holding the separator. |
| Text.SplitLines | math/engine.js:25 | `split(/\r?\n/)`: at least one line, none holding a line feed, a carriage return before a line feed belonging to the separator. |
| Text.SplitOfJoin | math/engine.js:28 | `split(",")` of fields joined by commas gives back the fields. |
| Text.JoinOfSplit | math/engine.js:28 | Joining the pieces of `split(",")` gives back the line. |
| Text.SplitLinesOfJoin | math/engine.js:25 | Splitting at `/\r?\n/` gives back the lines that were joined by newlines. |
| Text.ParseDecimalOfIntToString | math/engine.js:30-32 | Reading the decimal form of an integer gives back the integer. |
| Engine.Prefix | math/engine.js:70-71 | The running weight sum over the first n rows. |
| Engine.TotalWeight | math/engine.js:70-71 | `total`: with non-negative weights it is non-negative, and 0 exactly when every row weighs 0. |
| Engine.NonNegativeTotal | math/engine.js:70-73 | With non-negative weights the running total over all rows is non-negative, and the "total weight is 0" error fires exactly when every row weighs 0. |
| Engine.IsZst | math/engine.js:109 | `endsWith(".zst")`: a name that passes is some prefix followed by `.zst`. |
| Engine.ZstSuffix | math/engine.js:109-111 | A name ending in `.zst` takes the decompression branch; one ending in `.jsonl` reads the text as is. |
| Engine.Target | math/engine.js:76 | `floor(u * total)`, computed exactly. |
| Engine.ScanFrom | math/engine.js:79-83 | The scan from row i on: the first row whose running sum exceeds the target, or the last row. |
| Engine.PickIndex | math/engine.js:79-83 | The picked row is a row of the table. |
| Engine.PickIsFirstReach | math/engine.js:79-83 | The pick is the first row whose running sum exceeds the target, or the last row when there is none. |
| Engine.PickIndexFallback | math/engine.js:83 | When no running sum exceeds the target, the last row is picked. |
| Engine.WeightedPick | math/engine.js:68-84 | A total weight that is not positive throws. Otherwise the loop returns the row the first-reach rule picks for the target `floor(u · total)`. |
| Engine.TargetBelowTotal | math/engine.js:75-76 | For u in [0, 1) and a positive total, the target lies in [0, total - 1]. |
| Engine.PickWithinTotal | math/engine.js:76-82 | With the target below the total, the scan stops at a row of positive weight whose running sum exceeds the target. |
| Engine.PickAtOrAboveTotal | math/engine.js:76-83 | With non-negative weights and the target at or above the total, the last row is picked. |
| Engine.PickAtZero | math/engine.js:76-82 | Target 0 picks the first row of positive weight. |
| Engine.PickMonotone | math/engine.js:76-82 | A larger target never picks an earlier row. |
| Engine.BookFor | math/engine.js:129-138 | The book for a picked row, or why it fails: missing, payout not an integer, or payout mismatch. |
| Engine.DrawFrom | math/engine.js:123-139 | `draw` as a function of the loaded modes: unknown mode, zero total weight, or the book of the picked row. |
| Engine.BooksByIdKeyed | math/engine.js:52 | Every book read from a books file is filed under its own id. |
| Engine.ReadMode | math/engine.js:101-119 | An entry whose lookup file is missing, or whose books file is missing, fails with that file. A mode read successfully has the entry's cost and books filed under their ids. |
| Engine.ReadEntry | math/engine.js:101-113 | One turn of the loop up to the store returns the model's reading of the entry. |
| Engine.ReadModes | math/engine.js:100-113 | What every entry reads, in index order. |
| Engine.LoadPrefix | math/engine.js:100-120 | The loop over per-entry readings: a failure stops it with that error, a reading is stored under the entry's name. |
| Engine.LoadIndex | math/engine.js:92-121 | `load()`: an index with no mode fails; otherwise the loop over what each entry reads. |
| Engine.LoadPrefixErrPersists | math/engine.js:100-120 | Once an entry fails, the later entries change nothing. |
| Engine.LoadPrefixStoresEntries | math/engine.js:100-120 | The walk succeeds if and only if every entry reads without error, and then every entry's name is stored. |
| Engine.LoadPrefixOnlyEntries | math/engine.js:100-120 | Every stored mode was stored before or is named by an entry. |
| Engine.LoadPrefixLastWins | math/engine.js:115-119 | The mode stored under a name is what its last entry read. |
| Engine.LoadPrefixKeyed | math/engine.js:113-119 | Modes whose books are filed under their own ids stay so through a load. |
| Engine.LoadIndexStoresModes | math/engine.js:92-121 | A load succeeds if and only if index.json lists a mode and every entry's files exist and parse. It then stores every listed name, and it stores no name that was not there before or listed. |
| Engine.LoadIndexOfReadings | math/engine.js:92-121 | The walk over the entries read so far is the whole load, once it covers the index or stops at an error. |
| Engine.MathEngine.constructor | math/engine.js:87-90 | A new engine has no modes. |
| Engine.MathEngine.Load | math/engine.js:92-121 | An index that lists no mode fails and changes nothing. Otherwise each entry is read in order and stored under its name, and the first failure stops the load with that error. The resulting modes and outcome are the walk over what each entry read, and every stored mode files its books under their ids. |
| Engine.MathEngine.Draw | math/engine.js:123-139 | A draw fails on an unknown mode, a table of no weight, a missing book, a non-integer payout or a payout mismatch. Otherwise it returns the book of the picked row, whose id and payout equal the row's. |

## Left out

- HMAC-SHA256 and SHA-256 are left uninterpreted (the `hmac` and `sha256` parameters of `Db`). Every property holds for any such functions.
- `generateSeed` (`crypto.randomBytes`) is left out. Fresh seeds are parameters: `firstSeed` of the `Db` constructor and `freshSeed` of `Bet`.
- IEEE-754 arithmetic is modelled on exact reals, both for `val / 2^32` and for the ladder, payouts and balance. A float is kept as its 32-bit numerator, and a threshold such as `r > 0.6` is compared exactly, which gives the same answer because no multiple of 2^-32 lies strictly between 0.6 and the double nearest it. Rounding in `current / prob`, in `bet * multiStack[step]` and in the balance is not modelled. Nor is rounding in `u * Number(total)` (math/engine.js:76): `Engine.Target` computes `floor(u * total)` exactly, while the double product can round up to `total` and so take the fallback row (`Engine.PickAtOrAboveTotal`).
- `rngFloat` (math/engine.js:58-66) is left out. `Draw` takes its float `u` as a parameter.
- `JSON.parse` is left uninterpreted (the `parse` parameter). A parsed value is seen only through its numeric `id` and the outcome of `BigInt(payoutMultiplier)`.
- File I/O is left out: `readText`, `fs.existsSync`, `path.join` with `publishDir`, and reading index.json itself. Files are a map from name to contents, and `index` is the parsed `modes` list or None. The `zstd` decompression (math/engine.js:40-43) is the `decompress` parameter.
- Lookup.ParseField: `Number()` and `BigInt()` are modelled on trimmed decimal integers only: an optional `+` or `-`, digits, and an empty field read as 0. Every other form reads as unparsable. For `Infinity` this matches the source. For hex (`0x10`), binary (`0b1`), octal (`0o7`), exponent (`1e2`) and fractional (`5.`) forms it differs: such an id skips the line where `Number` keeps it, and such a weight or payout throws where `BigInt` accepts a hex, binary or octal literal. The `id` of a lookup row is therefore an integer.
- Engine.MathEngine.Load: mode names that collide with properties inherited from `Object.prototype` are not modelled. The load's specification is stated through its ghost `seen` output. Engine.LoadIndexOfReadings shows that this specification is `LoadIndex`.
- Server.Db.Reveal: the reply's `multiplier` field (`currentPayout / baseBet`) is not modelled.
- Server.Db.Cashout: the reply's `success` and `finalMultiplier` fields are not modelled.
- Server.Db.Bet: the `newBalance` field of the reply, a copy of `balance`, is not modelled. Neither is `autoPattern`, which the handler never uses.
- Server.Db.Bet / Server.Db.Reveal: the request fields are typed, `amount` as a real, `mines` and `index` as integers. Three behaviours of untyped bodies are therefore not modelled. A missing or non-numeric `amount` makes `totalCost` NaN; `NaN > db.balance` is false, so the bet is accepted and the balance becomes NaN. A string `index` such as `"3"` is never found by `game.mines.includes` and is paid as a safe hit, even on a mine, while `game.specialItems["3"]` still applies that tile's booster. A fractional `mines` is truncated by `slice` but not by the ladder loop.
- `/api/init`, the HTTP transport, JSON request parsing, the static file server and `sha256Hex` are left out.
- Concurrency is not modelled: each handler runs to completion, as on Node's single thread.
