/**
 * The readers of the published math artifacts in math/engine.js: `parseLookupCSV` for
 * the lookup table and `parseBooksFromJsonl` for the books. Each trims the text,
 * splits it at `/\r?\n/` and walks the lines in order. Each is specified in two
 * layers: what the loop body makes of one line, and how the loop folds those
 * per-line outcomes.
 */
module Lookup {
  import opened Wrappers
  import opened Text

  // ---------------------------------------------------------------------------
  // parseLookupCSV

  /** A lookup-table row `{ id, weight, payout }`. */
  datatype LookupRow = LookupRow(id: int, weight: int, payout: int)

  /**
   * `Number(field)` or `BigInt(field)` on a decimal field: surrounding whitespace is
   * ignored and an empty field is 0. None stands for NaN (`Number`) or a thrown
   * SyntaxError (`BigInt`).
   */
  function ParseField(field: string): Option<int> {
    var t := Trim(field);
    if t == "" then Some(0) else ParseDecimal(t)
  }

  /** What the loop body does with one line: skip it, push a row, or throw on a field. */
  datatype LineOutcome = Skip | Row(row: LookupRow) | Fail(field: string)

  /**
   * The loop body on the comma-separated fields of a line: fewer than three skip it;
   * `BigInt` on the weight, then on the payout, throws on a bad field; only after both
   * does a non-finite id skip the line. Fields after the third are never read.
   */
  function FieldsOutcome(parts: seq<string>): LineOutcome {
    if |parts| < 3 then Skip
    else if ParseField(parts[1]).None? then Fail(parts[1])
    else if ParseField(parts[2]).None? then Fail(parts[2])
    else if ParseField(parts[0]).None? then Skip
    else Row(LookupRow(ParseField(parts[0]).value, ParseField(parts[1]).value, ParseField(parts[2]).value))
  }

  /** One line: `line.split(",")` and the body of the loop. */
  function ParseLine(line: string): LineOutcome {
    FieldsOutcome(Split(line, ','))
  }

  /** The body of the loop on every line, in order. */
  function LineOutcomes(lines: seq<string>): (outcomes: seq<LineOutcome>)
    ensures |outcomes| == |lines|
    ensures forall i :: 0 <= i < |lines| ==> outcomes[i] == ParseLine(lines[i])
  {
    seq(|lines|, i requires 0 <= i < |lines| => ParseLine(lines[i]))
  }

  /** One turn of the loop: a skipped line keeps the rows, a row line appends, a throw ends it. */
  function RowStep(acc: Result<seq<LookupRow>, string>, outcome: LineOutcome): Result<seq<LookupRow>, string> {
    if acc.Err? then acc
    else match outcome
      case Skip => acc
      case Row(row) => Ok(acc.value + [row])
      case Fail(field) => Err(field)
  }

  /** The loop over a run of line outcomes. */
  function Collect(outcomes: seq<LineOutcome>): Result<seq<LookupRow>, string>
    decreases |outcomes|
  {
    if outcomes == [] then Ok([])
    else RowStep(Collect(outcomes[..|outcomes| - 1]), outcomes[|outcomes| - 1])
  }

  /** `parseLookupCSV(csvText)`: Err(field) when it throws on that field. */
  function LookupTable(csvText: string): Result<seq<LookupRow>, string> {
    Collect(LineOutcomes(SplitLines(Trim(csvText))))
  }

  /** One more outcome: the loop over a prefix one longer is one step further. */
  lemma CollectSnoc(outcomes: seq<LineOutcome>, n: nat)
    requires n < |outcomes|
    ensures Collect(outcomes[..n + 1]) == RowStep(Collect(outcomes[..n]), outcomes[n])
  {
    assert outcomes[..n + 1][..n] == outcomes[..n];
  }

  /** Once a prefix throws, the whole run throws the same error. */
  lemma {:induction false} CollectErrPersists(outcomes: seq<LineOutcome>, k: nat)
    requires k <= |outcomes| && Collect(outcomes[..k]).Err?
    ensures Collect(outcomes) == Collect(outcomes[..k])
    decreases |outcomes| - k
  {
    if k < |outcomes| {
      CollectSnoc(outcomes, k);
      CollectErrPersists(outcomes, k + 1);
    } else {
      assert outcomes[..k] == outcomes;
    }
  }

  /** The loop of `parseLookupCSV`: one `push` per row line, a throw ends it. */
  method ParseLookupCsv(csvText: string) returns (r: Result<seq<LookupRow>, string>)
    ensures r == LookupTable(csvText)
  {
    var lines := SplitLines(Trim(csvText));
    ghost var outcomes := LineOutcomes(lines);
    var rows := [];
    for n := 0 to |lines|
      invariant Collect(outcomes[..n]) == Ok(rows)
    {
      CollectSnoc(outcomes, n);
      var outcome := ParseLine(lines[n]);
      match outcome {
        case Skip =>
        case Row(row) =>
          rows := rows + [row];
        case Fail(field) =>
          CollectErrPersists(outcomes, n + 1);
          return Err(field);
      }
    }
    assert outcomes[..|lines|] == outcomes;
    return Ok(rows);
  }

  /** Rows keep input order: the rows of two runs of lines are the rows of the first followed by those of the second. */
  lemma {:induction false} CollectAppend(xs: seq<LineOutcome>, ys: seq<LineOutcome>)
    requires Collect(xs).Ok? && Collect(ys).Ok?
    ensures Collect(xs + ys) == Ok(Collect(xs).value + Collect(ys).value)
    decreases |ys|
  {
    if ys == [] {
      assert xs + ys == xs;
      assert Collect(xs).value + [] == Collect(xs).value;
    } else {
      var init := ys[..|ys| - 1];
      assert (xs + ys)[..|xs + ys| - 1] == xs + init;
      assert (xs + ys)[|xs + ys| - 1] == ys[|ys| - 1];
      assert Collect(init).Ok?;
      CollectAppend(xs, init);
      var a, b := Collect(xs).value, Collect(init).value;
      match ys[|ys| - 1] {
        case Skip =>
        case Row(row) =>
          assert (a + b) + [row] == a + (b + [row]);
        case Fail(_) =>
      }
    }
  }

  /** A line with fewer than three fields is skipped. */
  lemma ShortLineSkipped(parts: seq<string>)
    requires 1 <= |parts| < 3
    requires forall k :: 0 <= k < |parts| ==> ',' !in parts[k]
    ensures ParseLine(Join(parts, ',')) == Skip
  {
    SplitOfJoin(parts, ',');
  }

  /** The loop body reads only the first three fields. */
  lemma FieldsAfterThirdUnread(parts: seq<string>)
    requires |parts| >= 3
    ensures FieldsOutcome(parts) == FieldsOutcome(parts[..3])
  {
  }

  /** Fields after the third are ignored: a line with more fields parses like its first three. */
  lemma ExtraFieldsIgnored(parts: seq<string>)
    requires |parts| >= 3
    requires forall k :: 0 <= k < |parts| ==> ',' !in parts[k]
    ensures ParseLine(Join(parts, ',')) == ParseLine(Join(parts[..3], ','))
  {
    SplitOfJoin(parts, ',');
    SplitOfJoin(parts[..3], ',');
    FieldsAfterThirdUnread(parts);
  }

  /** The decimal rendering of an integer holds no character other than digits and '-'. */
  lemma NoSymbolInInt(i: int, ch: char)
    requires !IsDigit(ch) && ch != '-'
    ensures ch !in IntToString(i)
  {
    var s := IntToString(i);
    forall k | 0 <= k < |s| ensures s[k] != ch {
      assert IsDigit(s[k]) || s[k] == '-';
    }
  }

  /** The lookup line the generator writes for simulation `id` with payout `payout`: `${i},1,${payoutMultiplier}`. */
  function GeneratedLine(id: nat, payout: int): (line: string)
    ensures Split(line, ',') == [IntToString(id), "1", IntToString(payout)]
  {
    NoSymbolInInt(id, ',');
    NoSymbolInInt(payout, ',');
    SplitOfJoin([IntToString(id), "1", IntToString(payout)], ',');
    Join([IntToString(id), "1", IntToString(payout)], ',')
  }

  /** An integer rendering is a field that reads back as that integer. */
  lemma FieldOfIntToString(i: int)
    ensures ParseField(IntToString(i)) == Some(i)
  {
    var s := IntToString(i);
    TrimOfLine(s);
    ParseDecimalOfIntToString(i);
  }

  /** A generated line parses to the row it was written from. */
  lemma GeneratedLineParses(id: nat, payout: int)
    ensures ParseLine(GeneratedLine(id, payout)) == Row(LookupRow(id, 1, payout))
  {
    FieldOfIntToString(id);
    FieldOfIntToString(1);
    assert IntToString(1) == "1";
    FieldOfIntToString(payout);
  }

  /** The generator's lines, one per payout, for ids 1, 2, .... */
  function GeneratedLines(payouts: seq<int>): (lines: seq<string>)
    ensures |lines| == |payouts|
    ensures forall k :: 0 <= k < |payouts| ==> lines[k] == GeneratedLine(k + 1, payouts[k])
  {
    seq(|payouts|, k requires 0 <= k < |payouts| => GeneratedLine(k + 1, payouts[k]))
  }

  /** The generator's lookup file: its lines, each ending in a line feed. */
  function GeneratedCsv(payouts: seq<int>): (csv: string)
    requires |payouts| >= 1
    ensures |csv| > 0 && csv[|csv| - 1] == '\n'
  {
    Join(GeneratedLines(payouts), '\n') + "\n"
  }

  /** A generated line holds no line break and starts and ends with a digit. */
  lemma GeneratedLineShape(id: nat, payout: int)
    ensures var line := GeneratedLine(id, payout);
      '\n' !in line && |line| > 0 && IsDigit(line[0]) && IsDigit(line[|line| - 1])
  {
    var a, c := IntToString(id), IntToString(payout);
    NoSymbolInInt(id, '\n');
    NoSymbolInInt(payout, '\n');
    assert a == NatToString(id);
    var line := GeneratedLine(id, payout);
    assert [a, "1", c][1..] == ["1", c] && ["1", c][1..] == [c];
    assert Join([c], ',') == c;
    assert Join(["1", c], ',') == "1" + [','] + c;
    assert line == a + [','] + ("1" + [','] + c);
    assert line[0] == a[0];
    assert line[|line| - 1] == c[|c| - 1];
  }

  /** Every generated line holds no line break and starts and ends with a digit. */
  lemma GeneratedLinesShape(payouts: seq<int>)
    ensures forall k :: 0 <= k < |payouts| ==>
      var line := GeneratedLines(payouts)[k];
      '\n' !in line && |line| > 0 && IsDigit(line[0]) && IsDigit(line[|line| - 1])
  {
    forall k | 0 <= k < |payouts|
      ensures var line := GeneratedLines(payouts)[k];
        '\n' !in line && |line| > 0 && IsDigit(line[0]) && IsDigit(line[|line| - 1])
    {
      GeneratedLineShape(k + 1, payouts[k]);
    }
  }

  /** The generator's file trims and splits back into its lines. */
  lemma GeneratedCsvLines(payouts: seq<int>)
    requires |payouts| >= 1
    ensures SplitLines(Trim(GeneratedCsv(payouts))) == GeneratedLines(payouts)
  {
    var lines := GeneratedLines(payouts);
    var joined := Join(lines, '\n');
    GeneratedLinesShape(payouts);
    JoinEnds(lines, '\n');
    SpaceIsNotFieldChar(joined[0]);
    SpaceIsNotFieldChar(joined[|joined| - 1]);
    TrimOfLine(joined);
    assert GeneratedCsv(payouts) == joined + "\n";
    SplitLinesOfJoin(lines);
  }

  /** The rows the generator writes: ids 1, 2, ..., weight 1 and the written payouts. */
  function GeneratedRows(payouts: seq<int>): seq<LookupRow> {
    seq(|payouts|, k requires 0 <= k < |payouts| => LookupRow(k + 1, 1, payouts[k]))
  }

  /** Each row as the outcome of the line that holds it. */
  function RowOutcomes(rows: seq<LookupRow>): seq<LineOutcome> {
    seq(|rows|, k requires 0 <= k < |rows| => Row(rows[k]))
  }

  /** The generator's lines parse to the rows written. */
  lemma GeneratedOutcomes(payouts: seq<int>)
    ensures LineOutcomes(GeneratedLines(payouts)) == RowOutcomes(GeneratedRows(payouts))
  {
    var outcomes := LineOutcomes(GeneratedLines(payouts));
    var expected := RowOutcomes(GeneratedRows(payouts));
    forall k | 0 <= k < |payouts| ensures outcomes[k] == expected[k] {
      GeneratedLineParses(k + 1, payouts[k]);
    }
    assert outcomes == expected;
  }

  /** A run of row outcomes collects to exactly those rows. */
  lemma {:induction false} CollectRows(rows: seq<LookupRow>)
    ensures Collect(RowOutcomes(rows)) == Ok(rows)
    decreases |rows|
  {
    if rows != [] {
      var init := rows[..|rows| - 1];
      assert RowOutcomes(rows)[..|rows| - 1] == RowOutcomes(init);
      CollectRows(init);
      assert init + [rows[|rows| - 1]] == rows;
    }
  }

  /** The generator's file splits into lines that each parse to the row written. */
  lemma GeneratedCsvOutcomes(payouts: seq<int>)
    requires |payouts| >= 1
    ensures LineOutcomes(SplitLines(Trim(GeneratedCsv(payouts)))) == RowOutcomes(GeneratedRows(payouts))
  {
    GeneratedCsvLines(payouts);
    GeneratedOutcomes(payouts);
  }

  /**
   * Round trip with the generator: its lookup file parses to rows with ids 1, 2, ...,
   * weight 1 and the written payouts, in order.
   */
  lemma GeneratedCsvRoundTrip(payouts: seq<int>)
    requires |payouts| >= 1
    ensures LookupTable(GeneratedCsv(payouts)) == Ok(seq(|payouts|, k requires 0 <= k < |payouts| => LookupRow(k + 1, 1, payouts[k])))
  {
    GeneratedCsvOutcomes(payouts);
    CollectRows(GeneratedRows(payouts));
  }

  // ---------------------------------------------------------------------------
  // parseBooksFromJsonl, over the values `JSON.parse` produces

  /**
   * A parsed JSON line as the book reader and `draw` see it. Falsy is null, false, 0 or
   * "", which `obj &&` rejects. Any other value carries `id` when its `id` property is a
   * number, and `payoutMultiplier` when `BigInt(obj.payoutMultiplier)` yields an integer
   * (None: it throws).
   */
  datatype Json = Falsy | Value(id: Option<real>, payoutMultiplier: Option<int>)

  /** `JSON.parse` of a line, left uninterpreted: None when it throws. */
  type JsonParser = string -> Option<Json>

  /** What the loop body makes of one line: a blank line, a line `JSON.parse` throws on, or a parsed value. */
  datatype BookLine = Blank | Unparsable(line: string) | Parsed(obj: Json)

  function ClassifyLine(line: string, parse: JsonParser): BookLine {
    if Trim(line) == "" then Blank
    else match parse(line)
      case None => Unparsable(line)
      case Some(obj) => Parsed(obj)
  }

  /** The body of the loop on every line, in order. */
  function BookLines(lines: seq<string>, parse: JsonParser): (entries: seq<BookLine>)
    ensures |entries| == |lines|
    ensures forall i :: 0 <= i < |lines| ==> entries[i] == ClassifyLine(lines[i], parse)
  {
    seq(|lines|, i requires 0 <= i < |lines| => ClassifyLine(lines[i], parse))
  }

  /** One turn of the loop: `byId.set` for a value with a numeric id, a throw ends it, anything else is skipped. */
  function BookStep(acc: Result<map<real, Json>, string>, entry: BookLine): Result<map<real, Json>, string> {
    if acc.Err? then acc
    else match entry
      case Blank => acc
      case Unparsable(line) => Err(line)
      case Parsed(obj) =>
        if obj.Value? && obj.id.Some? then Ok(acc.value[obj.id.value := obj]) else acc
  }

  /** The loop over a run of classified lines. */
  function Gather(entries: seq<BookLine>): Result<map<real, Json>, string>
    decreases |entries|
  {
    if entries == [] then Ok(map[])
    else BookStep(Gather(entries[..|entries| - 1]), entries[|entries| - 1])
  }

  /** `parseBooksFromJsonl(jsonlText)`: Err(line) when `JSON.parse` throws on that line. */
  function BooksById(jsonlText: string, parse: JsonParser): Result<map<real, Json>, string> {
    Gather(BookLines(SplitLines(Trim(jsonlText)), parse))
  }

  lemma GatherSnoc(entries: seq<BookLine>, n: nat)
    requires n < |entries|
    ensures Gather(entries[..n + 1]) == BookStep(Gather(entries[..n]), entries[n])
  {
    assert entries[..n + 1][..n] == entries[..n];
  }

  lemma {:induction false} GatherErrPersists(entries: seq<BookLine>, k: nat)
    requires k <= |entries| && Gather(entries[..k]).Err?
    ensures Gather(entries) == Gather(entries[..k])
    decreases |entries| - k
  {
    if k < |entries| {
      GatherSnoc(entries, k);
      GatherErrPersists(entries, k + 1);
    } else {
      assert entries[..k] == entries;
    }
  }

  /** `parseBooksFromJsonl(jsonlText)`: the text trimmed and split into lines, then read line by line. */
  method ParseBooks(jsonlText: string, parse: JsonParser) returns (r: Result<map<real, Json>, string>)
    ensures r == BooksById(jsonlText, parse)
  {
    var lines := SplitLines(Trim(jsonlText));
    r := GatherBooks(lines, parse);
  }

  /** The loop of `parseBooksFromJsonl`: blank lines skipped, `byId.set` per value with a numeric id. */
  method GatherBooks(lines: seq<string>, parse: JsonParser) returns (r: Result<map<real, Json>, string>)
    ensures r == Gather(BookLines(lines, parse))
  {
    ghost var entries := BookLines(lines, parse);
    var byId := map[];
    for n := 0 to |lines|
      invariant Gather(entries[..n]) == Ok(byId)
    {
      var line := lines[n];
      ghost var step := Gather(entries[..n + 1]);
      assert step == BookStep(Ok(byId), ClassifyLine(line, parse)) by {
        GatherSnoc(entries, n);
      }
      if Trim(line) == "" {
        continue;
      }
      var obj := parse(line);
      if obj.None? {
        GatherErrPersists(entries, n + 1);
        return Err(line);
      }
      if obj.value.Value? && obj.value.id.Some? {
        byId := byId[obj.value.id.value := obj.value];
      }
    }
    assert entries[..|lines|] == entries;
    return Ok(byId);
  }

  /** Entry i is a parsed value with numeric id k. */
  predicate IdAt(entries: seq<BookLine>, i: int, k: real) {
    0 <= i < |entries| && entries[i].Parsed? && entries[i].obj.Value? && entries[i].obj.id == Some(k)
  }

  /** The reader throws exactly when some non-blank line does not parse. */
  lemma {:induction false} GatherFails(entries: seq<BookLine>)
    ensures Gather(entries).Err? <==> exists i :: 0 <= i < |entries| && entries[i].Unparsable?
    decreases |entries|
  {
    if entries != [] {
      var last := |entries| - 1;
      var init := entries[..last];
      GatherFails(init);
      if Gather(init).Err? {
        var i :| 0 <= i < |init| && init[i].Unparsable?;
        assert entries[i] == init[i];
      } else {
        forall i | 0 <= i < last ensures !entries[i].Unparsable? {
          assert entries[i] == init[i];
        }
      }
    }
  }

  /** The keys of `byId` are exactly the numeric ids of the parsed lines, and each maps to a value carrying its key. */
  lemma {:induction false} GatherKeys(entries: seq<BookLine>)
    requires Gather(entries).Ok?
    ensures forall k :: k in Gather(entries).value <==> exists i :: IdAt(entries, i, k)
    ensures forall k :: k in Gather(entries).value ==>
      Gather(entries).value[k].Value? && Gather(entries).value[k].id == Some(k)
    decreases |entries|
  {
    if entries != [] {
      var last := |entries| - 1;
      var init := entries[..last];
      assert Gather(init).Ok?;
      GatherKeys(init);
      var m, e := Gather(init).value, entries[last];
      var m' := Gather(entries).value;
      assert Gather(entries) == BookStep(Gather(init), e);
      if e.Parsed? && e.obj.Value? && e.obj.id.Some? {
        assert m' == m[e.obj.id.value := e.obj];
      } else {
        assert m' == m;
      }
      forall k ensures k in m' <==> exists i :: IdAt(entries, i, k) {
        if k in m' {
          if k in m {
            var i :| IdAt(init, i, k);
            assert entries[i] == init[i];
            assert IdAt(entries, i, k);
          } else {
            assert IdAt(entries, last, k);
          }
        }
        if i :| IdAt(entries, i, k) {
          if i < last {
            assert entries[i] == init[i];
            assert IdAt(init, i, k);
          }
        }
      }
    }
  }

  /** A later line with the same id replaces an earlier one: each key maps to the value on its last line. */
  lemma {:induction false} GatherLastWins(entries: seq<BookLine>, i: int, k: real)
    requires Gather(entries).Ok?
    requires IdAt(entries, i, k)
    requires forall j :: i < j ==> !IdAt(entries, j, k)
    ensures k in Gather(entries).value
    ensures Gather(entries).value[k] == entries[i].obj
    decreases |entries|
  {
    var last := |entries| - 1;
    var init := entries[..last];
    assert Gather(init).Ok?;
    if i < last {
      assert !IdAt(entries, last, k);
      forall j | i < j ensures !IdAt(init, j, k) {
        if j < last {
          assert entries[j] == init[j];
          assert !IdAt(entries, j, k);
        }
      }
      assert entries[i] == init[i];
      GatherLastWins(init, i, k);
    }
  }

  /** Blank lines are skipped: removing one changes nothing. */
  lemma BlankLineSkipped(xs: seq<BookLine>, ys: seq<BookLine>)
    ensures Gather(xs + [Blank] + ys) == Gather(xs + ys)
  {
    GatherBlankIgnored(xs, ys);
  }

  lemma {:induction false} GatherBlankIgnored(xs: seq<BookLine>, ys: seq<BookLine>)
    ensures Gather(xs + [Blank] + ys) == Gather(xs + ys)
    decreases |ys|
  {
    if ys == [] {
      assert (xs + [Blank] + ys)[..|xs|] == xs;
      assert xs + [Blank] + ys == xs + [Blank];
      assert xs + ys == xs;
    } else {
      var init := ys[..|ys| - 1];
      var s, t := xs + [Blank] + ys, xs + ys;
      assert s[..|s| - 1] == xs + [Blank] + init;
      assert t[..|t| - 1] == xs + init;
      assert s[|s| - 1] == t[|t| - 1];
      GatherBlankIgnored(xs, init);
    }
  }
}
