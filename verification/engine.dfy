/**
 * The outcome selection of math/engine.js: `weightedPick` over a lookup table, and the
 * `MathEngine` object whose `load` fills its `modes` from the published artifacts and
 * whose `draw` picks a row and returns the matching book.
 */
module Engine {
  import opened Wrappers
  import opened Text
  import opened Lookup

  // ---------------------------------------------------------------------------
  // weightedPick

  /** The running weight sum over the first n rows. */
  function Prefix(rows: seq<LookupRow>, n: nat): int
    requires n <= |rows|
  {
    if n == 0 then 0 else Prefix(rows, n - 1) + rows[n - 1].weight
  }

  /** `total`: the sum of all weights. */
  function TotalWeight(rows: seq<LookupRow>): (t: int)
    ensures (forall j :: 0 <= j < |rows| ==> rows[j].weight >= 0) ==>
      t >= 0 && (t == 0 <==> forall j :: 0 <= j < |rows| ==> rows[j].weight == 0)
  {
    NonNegativeTotal(rows);
    Prefix(rows, |rows|)
  }

  /** Running sums of rows that all weigh 0 are 0. */
  lemma {:induction false} PrefixOfZeros(rows: seq<LookupRow>, n: nat)
    requires n <= |rows|
    requires forall j :: 0 <= j < n ==> rows[j].weight == 0
    ensures Prefix(rows, n) == 0
    decreases n
  {
    if n > 0 {
      PrefixOfZeros(rows, n - 1);
    }
  }

  /** With non-negative weights the total is non-negative, and 0 exactly when every row weighs 0. */
  lemma NonNegativeTotal(rows: seq<LookupRow>)
    ensures (forall j :: 0 <= j < |rows| ==> rows[j].weight >= 0) ==>
      Prefix(rows, |rows|) >= 0 && (Prefix(rows, |rows|) == 0 <==> forall j :: 0 <= j < |rows| ==> rows[j].weight == 0)
  {
    if forall j :: 0 <= j < |rows| ==> rows[j].weight >= 0 {
      PrefixMonotone(rows, 0, |rows|);
      if Prefix(rows, |rows|) == 0 {
        ZeroPrefix(rows, |rows|);
      }
      if forall j :: 0 <= j < |rows| ==> rows[j].weight == 0 {
        PrefixOfZeros(rows, |rows|);
      }
    }
  }

  /** `BigInt(Math.floor(u * Number(total)))`, with exact arithmetic. */
  function Target(u: real, total: int): int {
    (u * total as real).Floor
  }

  /** Row i is where the running sum first can pass `target`: the sum through row i exceeds it. */
  predicate Reaches(rows: seq<LookupRow>, target: int, i: int) {
    0 <= i < |rows| && target < Prefix(rows, i + 1)
  }

  /** The scan from row i on: stop at the first row whose running sum exceeds the target, or at the last row. */
  function ScanFrom(rows: seq<LookupRow>, target: int, i: nat): (k: nat)
    requires i < |rows|
    ensures i <= k < |rows|
    decreases |rows| - i
  {
    if i == |rows| - 1 || target < Prefix(rows, i + 1) then i else ScanFrom(rows, target, i + 1)
  }

  /** The index of the row `weightedPick` returns for an integer target. */
  function PickIndex(rows: seq<LookupRow>, target: int): (k: nat)
    requires |rows| > 0
    ensures k < |rows|
  {
    ScanFrom(rows, target, 0)
  }

  lemma {:induction false} ScanFromIsFirstReach(rows: seq<LookupRow>, target: int, i: nat)
    requires i < |rows|
    ensures var k := ScanFrom(rows, target, i);
      && (forall j :: i <= j < k ==> !Reaches(rows, target, j))
      && (Reaches(rows, target, k) || k == |rows| - 1)
    decreases |rows| - i
  {
    if !(i == |rows| - 1 || target < Prefix(rows, i + 1)) {
      ScanFromIsFirstReach(rows, target, i + 1);
    }
  }

  /**
   * The picked row is the first row whose running sum exceeds the target; when no row
   * does, it is the last row.
   */
  lemma PickIsFirstReach(rows: seq<LookupRow>, target: int)
    requires |rows| > 0
    ensures var k := PickIndex(rows, target);
      && (forall j :: 0 <= j < k ==> !Reaches(rows, target, j))
      && ((exists j :: Reaches(rows, target, j)) ==> Reaches(rows, target, k))
      && ((forall j :: !Reaches(rows, target, j)) ==> k == |rows| - 1)
  {
    ScanFromIsFirstReach(rows, target, 0);
  }

  /** A row that reaches the target with none before it is the picked row. */
  lemma PickIndexAt(rows: seq<LookupRow>, target: int, k: nat)
    requires Reaches(rows, target, k)
    requires forall j :: 0 <= j < k ==> !Reaches(rows, target, j)
    ensures PickIndex(rows, target) == k
  {
    PickIsFirstReach(rows, target);
  }

  /** When no row reaches the target the last row is picked. */
  lemma PickIndexFallback(rows: seq<LookupRow>, target: int)
    requires |rows| > 0
    requires forall j :: 0 <= j < |rows| ==> !Reaches(rows, target, j)
    ensures PickIndex(rows, target) == |rows| - 1
  {
    PickIsFirstReach(rows, target);
  }

  datatype EngineError =
    | ZeroTotalWeight                  // "Lookup table total weight is 0."
    | UnknownMode(name: string)
    | BookNotFound(id: int)
    | PayoutNotInteger(id: int)        // `BigInt(book.payoutMultiplier)` throws
    | PayoutMismatch(id: int, book: int, csv: int)
    | InvalidIndex                     // index.json without a non-empty `modes` list
    | MissingLookup(path: string)
    | MissingBooks(path: string)
    | BadLookup(field: string)         // `parseLookupCSV` throws on this field
    | BadBooks(line: string)           // `JSON.parse` throws on this line

  /**
   * `weightedPick(rows, u)`: fails when the total weight is not positive; otherwise
   * the row a scan of running sums stops at for the target `floor(u * total)`.
   */
  method WeightedPick(rows: seq<LookupRow>, u: real) returns (r: Result<LookupRow, EngineError>)
    ensures TotalWeight(rows) <= 0 ==> r == Err(ZeroTotalWeight)
    ensures TotalWeight(rows) > 0 ==> |rows| > 0 && r == Ok(rows[PickIndex(rows, Target(u, TotalWeight(rows)))])
  {
    var total := 0;
    for k := 0 to |rows|
      invariant total == Prefix(rows, k)
    {
      total := total + rows[k].weight;
    }
    if total <= 0 {
      return Err(ZeroTotalWeight);
    }
    var target := (u * total as real).Floor;
    assert target == Target(u, TotalWeight(rows));
    var acc := 0;
    for k := 0 to |rows|
      invariant acc == Prefix(rows, k)
      invariant forall j :: 0 <= j < k ==> !Reaches(rows, target, j)
    {
      acc := acc + rows[k].weight;
      if target < acc {
        assert Reaches(rows, target, k);
        PickIndexAt(rows, target, k);
        return Ok(rows[k]);
      }
    }
    PickIndexFallback(rows, target);
    return Ok(rows[|rows| - 1]);
  }

  /** With non-negative weights the running sum never decreases. */
  lemma {:induction false} PrefixMonotone(rows: seq<LookupRow>, a: nat, b: nat)
    requires a <= b <= |rows|
    requires forall j :: 0 <= j < |rows| ==> rows[j].weight >= 0
    ensures Prefix(rows, a) <= Prefix(rows, b)
    decreases b - a
  {
    if a < b {
      PrefixMonotone(rows, a, b - 1);
    }
  }

  /** With non-negative weights a running sum of 0 means every row so far weighs 0. */
  lemma {:induction false} ZeroPrefix(rows: seq<LookupRow>, n: nat)
    requires n <= |rows|
    requires forall j :: 0 <= j < |rows| ==> rows[j].weight >= 0
    requires Prefix(rows, n) == 0
    ensures forall j :: 0 <= j < n ==> rows[j].weight == 0
    decreases n
  {
    if n > 0 {
      PrefixMonotone(rows, 0, n - 1);
      ZeroPrefix(rows, n - 1);
    }
  }

  /**
   * For a target in [0, total) the scan finds its row before the fallback: the picked
   * row reaches the target and has positive weight.
   */
  lemma PickWithinTotal(rows: seq<LookupRow>, target: int)
    requires 0 <= target < TotalWeight(rows)
    ensures |rows| > 0
    ensures Reaches(rows, target, PickIndex(rows, target))
    ensures rows[PickIndex(rows, target)].weight > 0
  {
    assert |rows| > 0;
    assert Reaches(rows, target, |rows| - 1);
    PickIsFirstReach(rows, target);
    var k := PickIndex(rows, target);
    assert Prefix(rows, k + 1) == Prefix(rows, k) + rows[k].weight;
    if k > 0 {
      assert !Reaches(rows, target, k - 1);
    }
  }

  /** With non-negative weights a target at or above the total (u rounded up to 1) picks the last row. */
  lemma PickAtOrAboveTotal(rows: seq<LookupRow>, target: int)
    requires |rows| > 0
    requires forall j :: 0 <= j < |rows| ==> rows[j].weight >= 0
    requires target >= TotalWeight(rows)
    ensures PickIndex(rows, target) == |rows| - 1
  {
    forall j | 0 <= j < |rows| ensures !Reaches(rows, target, j) {
      PrefixMonotone(rows, j + 1, |rows|);
    }
    PickIndexFallback(rows, target);
  }

  /** With non-negative weights and a positive total, target 0 picks the first row of positive weight. */
  lemma PickAtZero(rows: seq<LookupRow>)
    requires forall j :: 0 <= j < |rows| ==> rows[j].weight >= 0
    requires TotalWeight(rows) > 0
    ensures |rows| > 0
    ensures rows[PickIndex(rows, 0)].weight > 0
    ensures forall j :: 0 <= j < PickIndex(rows, 0) ==> rows[j].weight == 0
  {
    PickWithinTotal(rows, 0);
    PickIsFirstReach(rows, 0);
    var k := PickIndex(rows, 0);
    PrefixMonotone(rows, 0, k);
    assert k > 0 ==> !Reaches(rows, 0, k - 1);
    ZeroPrefix(rows, k);
  }

  /** A larger target never picks an earlier row. */
  lemma PickMonotone(rows: seq<LookupRow>, t1: int, t2: int)
    requires |rows| > 0 && t1 <= t2
    ensures PickIndex(rows, t1) <= PickIndex(rows, t2)
  {
    PickIsFirstReach(rows, t1);
    PickIsFirstReach(rows, t2);
    var k2 := PickIndex(rows, t2);
    if Reaches(rows, t2, k2) {
      assert Reaches(rows, t1, k2);
    }
  }

  /** For u in [0, 1) and a positive total the target lies in [0, total), so the fallback is never needed. */
  lemma TargetBelowTotal(u: real, total: int)
    requires 0.0 <= u < 1.0 && total > 0
    ensures 0 <= Target(u, total) < total
  {
    var t := total as real;
    assert 0.0 <= u * t;
    assert u * t < t by {
      assert (1.0 - u) * t > 0.0;
    }
  }

  // ---------------------------------------------------------------------------
  // MathEngine

  /** One entry of `this.modes`: `{ cost, lookupRows, booksById }`. */
  datatype Mode = Mode(cost: real, lookupRows: seq<LookupRow>, booksById: map<real, Json>)

  /** One element of `idx.modes` in index.json: its name, cost and the two file names. */
  datatype ModeEntry = ModeEntry(name: string, cost: real, weights: string, events: string)

  /** Every book is filed under its own id. */
  predicate BooksKeyed(books: map<real, Json>) {
    forall k :: k in books ==> books[k].Value? && books[k].id == Some(k)
  }

  /** Every mode's books are filed under their own ids. */
  predicate ModesKeyed(modes: map<string, Mode>) {
    forall name :: name in modes ==> BooksKeyed(modes[name].booksById)
  }

  /** The book `draw` would return for a row, or why it fails: missing, payout not an integer, or payout mismatch. */
  function BookFor(books: map<real, Json>, row: LookupRow): Result<Json, EngineError> {
    if row.id as real !in books then Err(BookNotFound(row.id))
    else
      var book := books[row.id as real];
      var payout := if book.Value? then book.payoutMultiplier else None;
      if payout.None? then Err(PayoutNotInteger(row.id))
      else if payout.value != row.payout then Err(PayoutMismatch(row.id, payout.value, row.payout))
      else Ok(book)
  }

  /** What `draw` returns for a mode and the float u, as a function of the loaded state. */
  function DrawFrom(modes: map<string, Mode>, modeName: string, u: real): Result<Json, EngineError> {
    if modeName !in modes then Err(UnknownMode(modeName))
    else
      var rows := modes[modeName].lookupRows;
      if TotalWeight(rows) <= 0 then Err(ZeroTotalWeight)
      else
        assert Prefix(rows, |rows|) > 0;
        BookFor(modes[modeName].booksById, rows[PickIndex(rows, Target(u, TotalWeight(rows)))])
  }

  /** `p.endsWith(".zst")`. */
  predicate IsZst(p: string)
    ensures IsZst(p) ==> |p| >= 4 && p == p[..|p| - 4] + ".zst"
  {
    |p| >= 4 && p[|p| - 4..] == ".zst"
  }

  /** A name ending in ".zst" takes the decompression branch; one ending in ".jsonl" does not. */
  lemma ZstSuffix(name: string)
    ensures IsZst(name + ".zst")
    ensures !IsZst(name + ".jsonl")
  {
    assert (name + ".zst")[|name|..] == ".zst";
    assert (name + ".jsonl")[|name| + 2..] == "sonl";
  }

  /** The books of a parsed books file are filed under their own ids. */
  lemma BooksByIdKeyed(jsonl: string, parse: JsonParser)
    requires BooksById(jsonl, parse).Ok?
    ensures BooksKeyed(BooksById(jsonl, parse).value)
  {
    GatherKeys(BookLines(SplitLines(Trim(jsonl)), parse));
  }

  /**
   * What one turn of `load`'s loop reads for an entry: both files must exist and both
   * must parse; the books file goes through `decompress` when its name ends in ".zst".
   */
  function ReadMode(m: ModeEntry, files: map<string, string>, decompress: string -> string,
                    parse: JsonParser): (r: Result<Mode, EngineError>)
    ensures r.Ok? ==> r.value.cost == m.cost && BooksKeyed(r.value.booksById)
    ensures m.weights !in files ==> r == Err(MissingLookup(m.weights))
    ensures m.weights in files && m.events !in files ==> r == Err(MissingBooks(m.events))
  {
    if m.weights !in files then Err(MissingLookup(m.weights))
    else if m.events !in files then Err(MissingBooks(m.events))
    else
      var lookupRows := LookupTable(files[m.weights]);
      if lookupRows.Err? then Err(BadLookup(lookupRows.error))
      else
        var jsonl := if IsZst(m.events) then decompress(files[m.events]) else files[m.events];
        var books := BooksById(jsonl, parse);
        if books.Err? then Err(BadBooks(books.error))
        else
          BooksByIdKeyed(jsonl, parse);
          Ok(Mode(m.cost, lookupRows.value, books.value))
  }

  /** The reading of every entry, in index order. */
  function ReadModes(entries: seq<ModeEntry>, files: map<string, string>, decompress: string -> string,
                     parse: JsonParser): (outcomes: seq<Result<Mode, EngineError>>)
    ensures |outcomes| == |entries|
  {
    if |entries| == 0 then []
    else ReadModes(entries[..|entries| - 1], files, decompress, parse) + [ReadMode(entries[|entries| - 1], files, decompress, parse)]
  }

  /** The reading of entry i is what ReadMode gives for it. */
  lemma {:induction false} ReadModesAt(entries: seq<ModeEntry>, files: map<string, string>, decompress: string -> string,
                                       parse: JsonParser, i: nat)
    requires i < |entries|
    ensures ReadModes(entries, files, decompress, parse)[i] == ReadMode(entries[i], files, decompress, parse)
    decreases |entries|
  {
    if i < |entries| - 1 {
      ReadModesAt(entries[..|entries| - 1], files, decompress, parse, i);
    }
  }

  /**
   * The modes after `load` walks the first n entries, given what each entry reads:
   * each mode is stored under its entry's name in turn. A failing entry stops the
   * walk, and the modes stored before it stay stored.
   */
  function LoadPrefix(modes: map<string, Mode>, entries: seq<ModeEntry>, outcomes: seq<Result<Mode, EngineError>>,
                      n: nat): (map<string, Mode>, Option<EngineError>)
    requires n <= |entries| && n <= |outcomes|
  {
    if n == 0 then (modes, None)
    else
      var before := LoadPrefix(modes, entries, outcomes, n - 1);
      if before.1.Some? then before
      else match outcomes[n - 1]
        case Ok(mode) => (before.0[entries[n - 1].name := mode], None)
        case Err(e) => (before.0, Some(e))
  }

  /** A failing entry stops the walk: the modes and the error stay as they were. */
  lemma {:induction false} LoadPrefixErrPersists(modes: map<string, Mode>, entries: seq<ModeEntry>,
                                                 outcomes: seq<Result<Mode, EngineError>>, n: nat, m: nat)
    requires n <= m <= |entries| == |outcomes|
    requires LoadPrefix(modes, entries, outcomes, n).1.Some?
    ensures LoadPrefix(modes, entries, outcomes, m) == LoadPrefix(modes, entries, outcomes, n)
    decreases m - n
  {
    if n < m {
      LoadPrefixErrPersists(modes, entries, outcomes, n, m - 1);
    }
  }

  /** One more turn of the walk: a failing entry ends the walk with its error, a read entry is stored. */
  lemma LoadPrefixNext(modes: map<string, Mode>, entries: seq<ModeEntry>, outcomes: seq<Result<Mode, EngineError>>,
                       n: nat, current: map<string, Mode>)
    requires n < |entries| && n < |outcomes|
    requires LoadPrefix(modes, entries, outcomes, n) == (current, None)
    ensures outcomes[n].Err? ==> LoadPrefix(modes, entries, outcomes, n + 1) == (current, Some(outcomes[n].error))
    ensures outcomes[n].Ok? ==> LoadPrefix(modes, entries, outcomes, n + 1) == (current[entries[n].name := outcomes[n].value], None)
  {
  }

  /** The walk over n entries depends only on the first n outcomes. */
  lemma {:induction false} LoadPrefixAgree(modes: map<string, Mode>, entries: seq<ModeEntry>,
                                           o1: seq<Result<Mode, EngineError>>, o2: seq<Result<Mode, EngineError>>, n: nat)
    requires n <= |entries| && n <= |o1| && n <= |o2|
    requires forall i :: 0 <= i < n ==> o1[i] == o2[i]
    ensures LoadPrefix(modes, entries, o1, n) == LoadPrefix(modes, entries, o2, n)
    decreases n
  {
    if n > 0 {
      LoadPrefixAgree(modes, entries, o1, o2, n - 1);
    }
  }

  /** Storing a mode whose books are keyed keeps every mode keyed. */
  lemma StoreKeyed(modes: map<string, Mode>, name: string, mode: Mode)
    requires ModesKeyed(modes) && BooksKeyed(mode.booksById)
    ensures ModesKeyed(modes[name := mode])
  {
  }

  /** The walk succeeds exactly when every entry reads without error, and then every entry's name is stored. */
  lemma {:induction false} LoadPrefixStoresEntries(modes: map<string, Mode>, entries: seq<ModeEntry>,
                                                   outcomes: seq<Result<Mode, EngineError>>, n: nat)
    requires n <= |entries| == |outcomes|
    ensures LoadPrefix(modes, entries, outcomes, n).1.None? <==> forall i :: 0 <= i < n ==> outcomes[i].Ok?
    ensures LoadPrefix(modes, entries, outcomes, n).1.None? ==>
      forall i :: 0 <= i < n ==> entries[i].name in LoadPrefix(modes, entries, outcomes, n).0
    decreases n
  {
    if n > 0 {
      LoadPrefixStoresEntries(modes, entries, outcomes, n - 1);
    }
  }

  /** A load stores nothing but the entries it walks: every mode after it was there before or is named by an entry. */
  lemma {:induction false} LoadPrefixOnlyEntries(modes: map<string, Mode>, entries: seq<ModeEntry>,
                                                 outcomes: seq<Result<Mode, EngineError>>, n: nat)
    requires n <= |entries| == |outcomes|
    ensures var after := LoadPrefix(modes, entries, outcomes, n).0;
      forall name :: name in after ==> name in modes || exists i :: 0 <= i < n && entries[i].name == name
    decreases n
  {
    if n > 0 {
      LoadPrefixOnlyEntries(modes, entries, outcomes, n - 1);
    }
  }

  /** The stored mode of a name is what its last entry read: a later duplicate replaces the earlier one. */
  lemma {:induction false} LoadPrefixLastWins(modes: map<string, Mode>, entries: seq<ModeEntry>,
                                              outcomes: seq<Result<Mode, EngineError>>, n: nat, i: nat)
    requires i < n <= |entries| == |outcomes|
    requires LoadPrefix(modes, entries, outcomes, n).1.None?
    requires forall j :: i < j < n ==> entries[j].name != entries[i].name
    ensures var after := LoadPrefix(modes, entries, outcomes, n).0;
      outcomes[i].Ok? && entries[i].name in after && after[entries[i].name] == outcomes[i].value
    decreases n
  {
    if i < n - 1 {
      LoadPrefixLastWins(modes, entries, outcomes, n - 1, i);
    }
  }

  /** Modes whose books are filed under their ids stay so through a load. */
  lemma {:induction false} LoadPrefixKeyed(modes: map<string, Mode>, entries: seq<ModeEntry>,
                                           outcomes: seq<Result<Mode, EngineError>>, n: nat)
    requires n <= |entries| == |outcomes|
    requires ModesKeyed(modes)
    requires forall i :: 0 <= i < |outcomes| && outcomes[i].Ok? ==> BooksKeyed(outcomes[i].value.booksById)
    ensures ModesKeyed(LoadPrefix(modes, entries, outcomes, n).0)
    decreases n
  {
    if n > 0 {
      LoadPrefixKeyed(modes, entries, outcomes, n - 1);
      var before := LoadPrefix(modes, entries, outcomes, n - 1);
      if before.1.None? && outcomes[n - 1].Ok? {
        var mode := outcomes[n - 1].value;
        var after := before.0[entries[n - 1].name := mode];
        assert BooksKeyed(mode.booksById);
        assert LoadPrefix(modes, entries, outcomes, n).0 == after;
      }
    }
  }

  /**
   * What `load` leaves in `modes` and whether it throws: index.json must list at least
   * one mode, then the entries are walked in order.
   */
  function LoadIndex(modes: map<string, Mode>, index: Option<seq<ModeEntry>>, files: map<string, string>,
                     decompress: string -> string, parse: JsonParser): (map<string, Mode>, Result<(), EngineError>)
  {
    if index.None? || |index.value| == 0 then (modes, Err(InvalidIndex))
    else
      var loaded := LoadPrefix(modes, index.value, ReadModes(index.value, files, decompress, parse), |index.value|);
      (loaded.0, if loaded.1.Some? then Err(loaded.1.value) else Ok(()))
  }

  /**
   * A load succeeds exactly when index.json lists a mode and every entry's files exist
   * and parse; it then stores every entry, each name holding what its last entry read,
   * and it stores nothing else. A failed load keeps the modes stored before the
   * failing entry.
   */
  lemma LoadIndexStoresModes(modes: map<string, Mode>, index: Option<seq<ModeEntry>>, files: map<string, string>,
                             decompress: string -> string, parse: JsonParser)
    ensures var (after, r) := LoadIndex(modes, index, files, decompress, parse);
      && (r.Ok? <==> index.Some? && |index.value| > 0
                     && forall i :: 0 <= i < |index.value| ==> ReadMode(index.value[i], files, decompress, parse).Ok?)
      && (forall name :: name in after ==> name in modes || exists i :: 0 <= i < |index.value| && index.value[i].name == name)
      && (r.Ok? ==> forall i :: 0 <= i < |index.value| ==> index.value[i].name in after)
  {
    if index.Some? && |index.value| > 0 {
      var entries := index.value;
      var outcomes := ReadModes(entries, files, decompress, parse);
      forall i | 0 <= i < |entries| ensures outcomes[i] == ReadMode(entries[i], files, decompress, parse) {
        ReadModesAt(entries, files, decompress, parse, i);
      }
      LoadPrefixStoresEntries(modes, entries, outcomes, |entries|);
      LoadPrefixOnlyEntries(modes, entries, outcomes, |entries|);
    }
  }

  /** `load`'s reading of one index entry, as a function of the entry. */
  function Reader(files: map<string, string>, decompress: string -> string, parse: JsonParser): ModeEntry -> Result<Mode, EngineError> {
    m => ReadMode(m, files, decompress, parse)
  }

  /** `outcomes` are the readings of the first entries of the index, in order. */
  predicate Readings(entries: seq<ModeEntry>, outcomes: seq<Result<Mode, EngineError>>, read: ModeEntry -> Result<Mode, EngineError>)
    decreases |outcomes|
  {
    && |outcomes| <= |entries|
    && (|outcomes| > 0 ==>
          Readings(entries, outcomes[..|outcomes| - 1], read)
          && outcomes[|outcomes| - 1] == read(entries[|outcomes| - 1]))
  }

  /** Reading the next entry extends the readings by one. */
  lemma ReadingsSnoc(entries: seq<ModeEntry>, outcomes: seq<Result<Mode, EngineError>>, next: Result<Mode, EngineError>,
                     read: ModeEntry -> Result<Mode, EngineError>)
    requires Readings(entries, outcomes, read) && |outcomes| < |entries| && next == read(entries[|outcomes|])
    ensures Readings(entries, outcomes + [next], read)
  {
    assert (outcomes + [next])[..|outcomes|] == outcomes;
  }

  /** Each of the readings is the reading of its entry. */
  lemma {:induction false} ReadingsAt(entries: seq<ModeEntry>, outcomes: seq<Result<Mode, EngineError>>,
                                      read: ModeEntry -> Result<Mode, EngineError>, i: nat)
    requires Readings(entries, outcomes, read) && i < |outcomes|
    ensures outcomes[i] == read(entries[i])
    decreases |outcomes|
  {
    if i < |outcomes| - 1 {
      ReadingsAt(entries, outcomes[..|outcomes| - 1], read, i);
    }
  }

  /**
   * A walk over the readings of the first entries that either covers the index or
   * stops at an error is the whole load.
   */
  lemma LoadIndexOfReadings(modes: map<string, Mode>, entries: seq<ModeEntry>, seen: seq<Result<Mode, EngineError>>,
                            files: map<string, string>, decompress: string -> string, parse: JsonParser)
    requires |entries| > 0 && Readings(entries, seen, Reader(files, decompress, parse))
    requires LoadPrefix(modes, entries, seen, |seen|).1.None? ==> |seen| == |entries|
    ensures var walked := LoadPrefix(modes, entries, seen, |seen|);
      LoadIndex(modes, Some(entries), files, decompress, parse)
        == (walked.0, if walked.1.Some? then Err(walked.1.value) else Ok(()))
  {
    var outcomes := ReadModes(entries, files, decompress, parse);
    var n := |seen|;
    forall i | 0 <= i < n ensures seen[i] == outcomes[i] {
      ReadingsAt(entries, seen, Reader(files, decompress, parse), i);
      ReadModesAt(entries, files, decompress, parse, i);
    }
    LoadPrefixAgree(modes, entries, seen, outcomes, n);
    if LoadPrefix(modes, entries, seen, n).1.Some? {
      LoadPrefixErrPersists(modes, entries, outcomes, n, |entries|);
    }
  }

  /** The body of `load`'s loop up to the store: check both files, parse the table, read and parse the books. */
  method ReadEntry(m: ModeEntry, files: map<string, string>, decompress: string -> string,
                   parse: JsonParser) returns (r: Result<Mode, EngineError>)
    ensures r == ReadMode(m, files, decompress, parse)
  {
    if m.weights !in files {
      return Err(MissingLookup(m.weights));
    }
    if m.events !in files {
      return Err(MissingBooks(m.events));
    }
    var lookupRows := ParseLookupCsv(files[m.weights]);
    if lookupRows.Err? {
      return Err(BadLookup(lookupRows.error));
    }
    var jsonl := if IsZst(m.events) then decompress(files[m.events]) else files[m.events];
    var booksById := ParseBooks(jsonl, parse);
    if booksById.Err? {
      return Err(BadBooks(booksById.error));
    }
    return Ok(Mode(m.cost, lookupRows.value, booksById.value));
  }

  /** Reads the entry after the ones already read. */
  method ReadNext(entries: seq<ModeEntry>, n: nat, ghost seen: seq<Result<Mode, EngineError>>, files: map<string, string>,
                  decompress: string -> string, parse: JsonParser) returns (read: Result<Mode, EngineError>)
    requires n == |seen| < |entries| && Readings(entries, seen, Reader(files, decompress, parse))
    ensures Readings(entries, seen + [read], Reader(files, decompress, parse))
    ensures read.Ok? ==> BooksKeyed(read.value.booksById)
  {
    read := ReadEntry(entries[n], files, decompress, parse);
    ReadingsSnoc(entries, seen, read, Reader(files, decompress, parse));
  }

  /** The engine: its loaded modes by name. */
  class MathEngine {
    var modes: map<string, Mode>

    ghost predicate Valid()
      reads this
    {
      ModesKeyed(modes)
    }

    constructor ()
      ensures Valid() && modes == map[]
    {
      modes := map[];
    }

    /**
     * `load()`: index.json must list at least one mode (`index` None: it does not
     * parse to an object with a `modes` array). Each mode's files are read from
     * `files`, the books file through `decompress` when it ends in ".zst".
     * `seen` is what each entry read, up to the one that failed; the new modes are
     * the walk over it, which LoadIndexOfReadings shows to be LoadIndex.
     */
    method Load(index: Option<seq<ModeEntry>>, files: map<string, string>, decompress: string -> string,
                parse: JsonParser) returns (r: Result<(), EngineError>, ghost seen: seq<Result<Mode, EngineError>>)
      requires Valid()
      modifies this
      ensures Valid()
      ensures index.None? || |index.value| == 0 ==> r == Err(InvalidIndex) && modes == old(modes)
      ensures index.Some? && |index.value| > 0 ==>
        && Readings(index.value, seen, Reader(files, decompress, parse))
        && LoadPrefix(old(modes), index.value, seen, |seen|) == (modes, if r.Ok? then None else Some(r.error))
        && (r.Ok? ==> |seen| == |index.value|)
    {
      seen := [];
      if index.None? || |index.value| == 0 {
        return Err(InvalidIndex), seen;
      }
      var entries := index.value;
      ghost var start := modes;
      for n := 0 to |entries|
        invariant Valid()
        invariant |seen| == n && Readings(entries, seen, Reader(files, decompress, parse))
        invariant LoadPrefix(start, entries, seen, n) == (modes, None)
      {
        var m := entries[n];
        var read := ReadNext(entries, n, seen, files, decompress, parse);
        ghost var walked := LoadPrefix(start, entries, seen + [read], n + 1);
        assert walked == if read.Ok? then (modes[m.name := read.value], None) else (modes, Some(read.error)) by {
          LoadPrefixAgree(start, entries, seen, seen + [read], n);
          LoadPrefixNext(start, entries, seen + [read], n, modes);
        }
        seen := seen + [read];
        if read.Err? {
          return Err(read.error), seen;
        }
        StoreKeyed(modes, m.name, read.value);
        modes := modes[m.name := read.value];
      }
      return Ok(()), seen;
    }

    /**
     * `draw({ modeName, ... })` for the float u that `rngFloat` yields: fails on an
     * unknown mode, a table of no weight, a missing book, a payout that is not an
     * integer, or a book whose payout differs from the row's; otherwise returns the
     * book filed under the picked row's id.
     */
    method Draw(modeName: string, u: real) returns (r: Result<Json, EngineError>)
      requires Valid()
      ensures r == DrawFrom(modes, modeName, u)
      ensures r.Ok? ==> modeName in modes && |modes[modeName].lookupRows| > 0
      ensures r.Ok? ==>
        var rows := modes[modeName].lookupRows;
        var row := rows[PickIndex(rows, Target(u, TotalWeight(rows)))];
        r.value.Value? && r.value.id == Some(row.id as real) && r.value.payoutMultiplier == Some(row.payout)
    {
      if modeName !in modes {
        return Err(UnknownMode(modeName));
      }
      var mode := modes[modeName];
      var picked := WeightedPick(mode.lookupRows, u);
      if picked.Err? {
        return Err(picked.error);
      }
      var row := picked.value;
      if row.id as real !in mode.booksById {
        return Err(BookNotFound(row.id));
      }
      var book := mode.booksById[row.id as real];
      var payoutFromBook := if book.Value? then book.payoutMultiplier else None;
      if payoutFromBook.None? {
        return Err(PayoutNotInteger(row.id));
      }
      if payoutFromBook.value != row.payout {
        return Err(PayoutMismatch(row.id, payoutFromBook.value, row.payout));
      }
      return Ok(book);
    }
  }
}
