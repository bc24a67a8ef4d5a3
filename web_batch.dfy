/**
  The batch driver of the wine-pairing script, `process_wine_csv`: every
  input row is sent through `process_food_info` up to three times; the
  first success gives a row of original columns plus taste columns, three
  failures give a row of original columns plus empty pairing columns.
  Every value written goes through `clean_text`.
 */
module WebBatch {
  import opened Text
  import opened Wrappers
  import opened ModelCalls
  import opened WebText
  import opened WebPairing

  // ---------------------------------------------------------------------
  // Output columns

  /** `FOOD_PAIRING_COLUMNS`: nine columns for each of the three pairings. */
  const FoodPairingColumns: seq<string> := [
    "Food Pairing 1", "Pairing Type 1", "Course 1", "Pairing Description 1",
    "Food & Wine Acidity 1", "Regional Pairing 1", "Food 1 Image URL",
    "Sweetness & Spiciness 1", "Pairing Suitability 1",
    "Food Pairing 2", "Pairing Type 2", "Course 2", "Pairing Description 2",
    "Food & Wine Acidity 2", "Regional Pairing 2", "Food 2 Image URL",
    "Sweetness & Spiciness 2", "Pairing Suitability 2",
    "Food Pairing 3", "Pairing Type 3", "Course 3", "Pairing Description 3",
    "Food & Wine Acidity 3", "Regional Pairing 3", "Food 3 Image URL",
    "Sweetness & Spiciness 3", "Pairing Suitability 3"
  ]

  /** `DEFAULT_FOOD_PAIRING_VALUES`: twelve of those columns, all empty. */
  const DefaultFoodPairingValues: map<string, string> := map[
    "Food 1 Image URL" := "", "Food 2 Image URL" := "", "Food 3 Image URL" := "",
    "Food & Wine Acidity 1" := "", "Food & Wine Acidity 2" := "", "Food & Wine Acidity 3" := "",
    "Regional Pairing 1" := "", "Regional Pairing 2" := "", "Regional Pairing 3" := "",
    "Sweetness & Spiciness 1" := "", "Sweetness & Spiciness 2" := "", "Sweetness & Spiciness 3" := ""
  ]

  /** The six characteristics a success row reports for each pairing. */
  const Tastes: seq<string> := ["Sweetness", "Saltiness", "Sourness", "Bitterness", "Umami", "Tags"]

  /** `max_retries`. */
  const MaxRetries: nat := 3

  /** The output column `f"{taste} {i}"`. */
  function TasteColumn(taste: string, i: nat): string {
    taste + " " + Numeral(i)
  }

  /** The key `f"{taste}_{i}"` it is read from in the pipeline result. */
  function TasteKey(taste: string, i: nat): string {
    taste + "_" + Numeral(i)
  }

  /** `clean_text(result.get(f"{taste}_{i}", ""))`. */
  function TasteCell(result: map<string, string>, taste: string, i: nat): Cell {
    Str(CleanText(Get(result, TasteKey(taste, i), "")))
  }

  // ---------------------------------------------------------------------
  // The two kinds of output row

  /** `{col: clean_text(row.get(col, "")) for col in df.columns}`. */
  function CleanedColumns(columns: seq<string>, row: map<string, Cell>): map<string, Cell> {
    map col | col in columns :: CleanCell(CellOr(row, col, ""))
  }

  /** The taste columns of pairings `1` to `n`, in the order the loop
      writes them, taste `t` of pairing `i` holding `cell(t, i)`. */
  function TasteCells(cell: (string, nat) -> Cell, n: nat): map<string, Cell>
    decreases n
  {
    if n == 0 then map[] else PairingCells(TasteCells(cell, n - 1), cell, n)
  }

  /** `m` with the six taste columns of pairing `n` written in order. */
  function PairingCells(m: map<string, Cell>, cell: (string, nat) -> Cell, n: nat): map<string, Cell> {
    m
      [TasteColumn("Sweetness", n) := cell("Sweetness", n)]
      [TasteColumn("Saltiness", n) := cell("Saltiness", n)]
      [TasteColumn("Sourness", n) := cell("Sourness", n)]
      [TasteColumn("Bitterness", n) := cell("Bitterness", n)]
      [TasteColumn("Umami", n) := cell("Umami", n)]
      [TasteColumn("Tags", n) := cell("Tags", n)]
  }

  /** The taste cells read from a pipeline result. */
  function CellsOf(result: map<string, string>): (string, nat) -> Cell {
    (t: string, i: nat) => TasteCell(result, t, i)
  }

  /** The row written when the pipeline returns `result`. */
  function SuccessRow(columns: seq<string>, row: map<string, Cell>, result: map<string, string>): map<string, Cell> {
    CleanedColumns(columns, row) + TasteCells(CellsOf(result), 3)
  }

  /** The pairing columns `cols`, each set to its cleaned default. */
  function PairingDefaults(cols: seq<string>): map<string, Cell>
    decreases |cols|
  {
    if cols == [] then map[]
    else
      var col := cols[|cols| - 1];
      PairingDefaults(cols[..|cols| - 1])[col := Str(CleanText(Get(DefaultFoodPairingValues, col, "")))]
  }

  /** The row written after the last failed attempt. */
  function FallbackRow(columns: seq<string>, row: map<string, Cell>): map<string, Cell> {
    CleanedColumns(columns, row) + PairingDefaults(FoodPairingColumns)
  }

  /** The success row, built as `process_wine_csv` builds it: the cleaned
      columns, then six taste columns for each pairing. */
  method BuildSuccessRow(columns: seq<string>, row: map<string, Cell>, result: map<string, string>)
    returns (newRow: map<string, Cell>)
    ensures newRow == SuccessRow(columns, row, result)
  {
    var base := CleanedColumns(columns, row);
    ghost var cell := CellsOf(result);
    newRow := base;
    EmptyUnion(base);
    for i := 1 to 4
      invariant newRow == base + TasteCells(cell, i - 1)
    {
      newRow := newRow[TasteColumn("Sweetness", i) := TasteCell(result, "Sweetness", i)];
      newRow := newRow[TasteColumn("Saltiness", i) := TasteCell(result, "Saltiness", i)];
      newRow := newRow[TasteColumn("Sourness", i) := TasteCell(result, "Sourness", i)];
      newRow := newRow[TasteColumn("Bitterness", i) := TasteCell(result, "Bitterness", i)];
      newRow := newRow[TasteColumn("Umami", i) := TasteCell(result, "Umami", i)];
      newRow := newRow[TasteColumn("Tags", i) := TasteCell(result, "Tags", i)];
      SixUpdates(base, cell, i);
    }
  }

  /** The six updates of one pairing, made to a union, land in its
      right-hand side. */
  lemma SixUpdates(base: map<string, Cell>, cell: (string, nat) -> Cell, i: nat)
    requires 1 <= i
    ensures (base + TasteCells(cell, i - 1))
        [TasteColumn("Sweetness", i) := cell("Sweetness", i)]
        [TasteColumn("Saltiness", i) := cell("Saltiness", i)]
        [TasteColumn("Sourness", i) := cell("Sourness", i)]
        [TasteColumn("Bitterness", i) := cell("Bitterness", i)]
        [TasteColumn("Umami", i) := cell("Umami", i)]
        [TasteColumn("Tags", i) := cell("Tags", i)]
      == base + TasteCells(cell, i)
  {
    var b0 := TasteCells(cell, i - 1);
    var b1 := b0[TasteColumn("Sweetness", i) := cell("Sweetness", i)];
    var b2 := b1[TasteColumn("Saltiness", i) := cell("Saltiness", i)];
    var b3 := b2[TasteColumn("Sourness", i) := cell("Sourness", i)];
    var b4 := b3[TasteColumn("Bitterness", i) := cell("Bitterness", i)];
    var b5 := b4[TasteColumn("Umami", i) := cell("Umami", i)];
    UpdateUnion(base, b0, TasteColumn("Sweetness", i), cell("Sweetness", i));
    UpdateUnion(base, b1, TasteColumn("Saltiness", i), cell("Saltiness", i));
    UpdateUnion(base, b2, TasteColumn("Sourness", i), cell("Sourness", i));
    UpdateUnion(base, b3, TasteColumn("Bitterness", i), cell("Bitterness", i));
    UpdateUnion(base, b4, TasteColumn("Umami", i), cell("Umami", i));
    UpdateUnion(base, b5, TasteColumn("Tags", i), cell("Tags", i));
  }

  /** The fallback row, built as `process_wine_csv` builds it: the cleaned
      columns, then every pairing column set to its cleaned default. */
  method BuildFallbackRow(columns: seq<string>, row: map<string, Cell>) returns (newRow: map<string, Cell>)
    ensures newRow == FallbackRow(columns, row)
  {
    var base := CleanedColumns(columns, row);
    newRow := base;
    EmptyUnion(base);
    for j := 0 to |FoodPairingColumns|
      invariant newRow == base + PairingDefaults(FoodPairingColumns[..j])
    {
      var col := FoodPairingColumns[j];
      FallbackStep(base, FoodPairingColumns, j);
      newRow := newRow[col := Str(CleanText(Get(DefaultFoodPairingValues, col, "")))];
    }
    assert FoodPairingColumns[..|FoodPairingColumns|] == FoodPairingColumns;
  }

  /** One more pairing column set to its default. */
  lemma FallbackStep(base: map<string, Cell>, cols: seq<string>, j: nat)
    requires j < |cols|
    ensures base + PairingDefaults(cols[..j + 1])
      == (base + PairingDefaults(cols[..j]))[cols[j] := Str(CleanText(Get(DefaultFoodPairingValues, cols[j], "")))]
  {
    assert cols[..j + 1][..j] == cols[..j];
    UpdateUnion(base, PairingDefaults(cols[..j]), cols[j], Str(CleanText(Get(DefaultFoodPairingValues, cols[j], ""))));
  }

  // ---------------------------------------------------------------------
  // What the rows hold

  /** One of the eighteen taste columns of a success row. */
  ghost predicate IsTasteColumn(c: string) {
    exists t, i :: t in Tastes && 1 <= i <= 3 && c == TasteColumn(t, i)
  }

  /** Distinct tastes or pairings give distinct columns. */
  lemma TasteColumnInjective(t: string, i: nat, u: string, j: nat)
    requires 1 <= i <= 9 && 1 <= j <= 9
    requires TasteColumn(t, i) == TasteColumn(u, j)
    ensures t == u && i == j
  {
    var c := TasteColumn(t, i);
    assert |c| == |t| + 2 && |c| == |u| + 2;
    assert t == c[..|t|] && u == c[..|u|];
    assert c[|c| - 1] == (48 + i) as char == (48 + j) as char;
  }

  /** The taste columns of pairings `1` to `n` are exactly those columns,
      taste `t` of pairing `i` holding `cell(t, i)`. */
  lemma {:induction false} TasteCellsFacts(cell: (string, nat) -> Cell, n: nat)
    requires n <= 3
    ensures forall k :: k in TasteCells(cell, n) ==> exists t, i :: t in Tastes && 1 <= i <= n && k == TasteColumn(t, i)
    ensures forall t, i :: t in Tastes && 1 <= i <= n ==>
      TasteColumn(t, i) in TasteCells(cell, n) && TasteCells(cell, n)[TasteColumn(t, i)] == cell(t, i)
    decreases n
  {
    if n > 0 {
      TasteCellsFacts(cell, n - 1);
      TasteCellsKeys(cell, n);
      forall t, i | t in Tastes && 1 <= i <= n
        ensures TasteColumn(t, i) in TasteCells(cell, n) && TasteCells(cell, n)[TasteColumn(t, i)] == cell(t, i)
      {
        if i < n {
          TasteCellsKeep(cell, n, t, i);
        } else {
          TasteCellsNew(cell, n, t);
        }
      }
    }
  }

  /** Pairing `n` adds the six taste columns of `n`. */
  lemma TasteCellsKeys(cell: (string, nat) -> Cell, n: nat)
    requires 1 <= n
    ensures forall k :: k in TasteCells(cell, n) ==>
      k in TasteCells(cell, n - 1) || exists t :: t in Tastes && k == TasteColumn(t, n)
  {
    PairingCellsKeys(TasteCells(cell, n - 1), cell, n);
  }

  /** The six writes add only the six taste columns of `n`. */
  lemma PairingCellsKeys(m: map<string, Cell>, cell: (string, nat) -> Cell, n: nat)
    ensures forall k :: k in PairingCells(m, cell, n) ==> k in m || exists t :: t in Tastes && k == TasteColumn(t, n)
  {
    forall k | k in PairingCells(m, cell, n) && k !in m
      ensures exists t :: t in Tastes && k == TasteColumn(t, n)
    {
      if k == TasteColumn("Sweetness", n) { assert Tastes[0] == "Sweetness"; }
      else if k == TasteColumn("Saltiness", n) { assert Tastes[1] == "Saltiness"; }
      else if k == TasteColumn("Sourness", n) { assert Tastes[2] == "Sourness"; }
      else if k == TasteColumn("Bitterness", n) { assert Tastes[3] == "Bitterness"; }
      else if k == TasteColumn("Umami", n) { assert Tastes[4] == "Umami"; }
      else { assert Tastes[5] == "Tags"; }
    }
  }

  /** Pairing `n` leaves the columns of earlier pairings alone. */
  lemma TasteCellsKeep(cell: (string, nat) -> Cell, n: nat, t: string, i: nat)
    requires 1 <= i < n <= 3
    requires TasteColumn(t, i) in TasteCells(cell, n - 1)
    ensures TasteColumn(t, i) in TasteCells(cell, n)
    ensures TasteCells(cell, n)[TasteColumn(t, i)] == TasteCells(cell, n - 1)[TasteColumn(t, i)]
  {
    forall u | TasteColumn(t, i) == TasteColumn(u, n) ensures false {
      TasteColumnInjective(t, i, u, n);
    }
    PairingCellsKeep(TasteCells(cell, n - 1), cell, n, TasteColumn(t, i));
  }

  /** The six writes leave every other column alone. */
  lemma PairingCellsKeep(m: map<string, Cell>, cell: (string, nat) -> Cell, n: nat, k: string)
    requires k in m
    requires forall u :: k != TasteColumn(u, n)
    ensures k in PairingCells(m, cell, n) && PairingCells(m, cell, n)[k] == m[k]
  {
  }

  /** Pairing `n` writes each of its own columns once. */
  lemma TasteCellsNew(cell: (string, nat) -> Cell, n: nat, t: string)
    requires 1 <= n <= 3 && t in Tastes
    ensures TasteColumn(t, n) in TasteCells(cell, n)
    ensures TasteCells(cell, n)[TasteColumn(t, n)] == cell(t, n)
  {
    PairingCellsNew(TasteCells(cell, n - 1), cell, n, t);
  }

  /** The value written last for a taste column is the one it keeps. */
  lemma PairingCellsNew(m: map<string, Cell>, cell: (string, nat) -> Cell, n: nat, t: string)
    requires 1 <= n <= 3 && t in Tastes
    ensures TasteColumn(t, n) in PairingCells(m, cell, n)
    ensures PairingCells(m, cell, n)[TasteColumn(t, n)] == cell(t, n)
  {
    OtherTastes(t, n);
  }

  /** The other tastes of the same pairing have other columns. */
  lemma OtherTastes(t: string, n: nat)
    requires 1 <= n <= 3 && t in Tastes
    ensures forall u :: u in Tastes && u != t ==> TasteColumn(t, n) != TasteColumn(u, n)
  {
    forall u | u in Tastes && u != t ensures TasteColumn(t, n) != TasteColumn(u, n) {
      if TasteColumn(t, n) == TasteColumn(u, n) {
        TasteColumnInjective(t, n, u, n);
      }
    }
  }

  /** A success row: each original column cleaned, unless a taste column
      of the same name overwrote it; each taste column the cleaned value
      the pipeline gave for it, or empty; and no other column. */
  lemma SuccessRowCells(columns: seq<string>, row: map<string, Cell>, result: map<string, string>)
    ensures var r := SuccessRow(columns, row, result);
      && (forall t, i :: t in Tastes && 1 <= i <= 3 ==>
            TasteColumn(t, i) in r && r[TasteColumn(t, i)] == Str(CleanText(Get(result, TasteKey(t, i), ""))))
      && (forall c :: c in columns && !IsTasteColumn(c) ==> c in r && r[c] == CleanCell(CellOr(row, c, "")))
      && (forall k :: k in r <==> k in columns || IsTasteColumn(k))
  {
    TasteCellsFacts(CellsOf(result), 3);
  }

  /** Cleaning the empty string gives it back. */
  lemma CleanTextEmpty()
    ensures CleanText("") == ""
  {
    assert KeepAllowed("") == "";
    assert Words("") == [];
  }

  /** Every default pairing value is empty, so `get` with an empty default
      always gives the empty string. */
  lemma DefaultsEmpty(col: string)
    ensures Get(DefaultFoodPairingValues, col, "") == ""
  {
    assert forall k :: k in DefaultFoodPairingValues ==> DefaultFoodPairingValues[k] == "";
  }

  /** The pairing columns `cols` are exactly its keys, each empty. */
  lemma {:induction false} PairingDefaultsFacts(cols: seq<string>)
    ensures forall k :: k in PairingDefaults(cols) <==> k in cols
    ensures forall k :: k in PairingDefaults(cols) ==> PairingDefaults(cols)[k] == Str("")
    decreases |cols|
  {
    if cols != [] {
      var col := cols[|cols| - 1];
      PairingDefaultsFacts(cols[..|cols| - 1]);
      DefaultsEmpty(col);
      CleanTextEmpty();
      FrontLast(cols);
    }
  }

  /** A fallback row: each original column cleaned, unless it is a pairing
      column; each pairing column empty; and no other column. */
  lemma FallbackRowCells(columns: seq<string>, row: map<string, Cell>)
    ensures var r := FallbackRow(columns, row);
      && (forall col :: col in FoodPairingColumns ==> col in r && r[col] == Str(""))
      && (forall c :: c in columns && c !in FoodPairingColumns ==> c in r && r[c] == CleanCell(CellOr(row, c, "")))
      && (forall k :: k in r <==> k in columns || k in FoodPairingColumns)
  {
    PairingDefaultsFacts(FoodPairingColumns);
  }

  // ---------------------------------------------------------------------
  // Cleanliness of the written rows

  /** A row every value of which `clean_text` leaves unchanged. */
  ghost predicate CleanRow(r: map<string, Cell>) {
    forall k :: k in r ==> CleanCell(r[k]) == r[k]
  }

  /** The cleaned original columns are clean. */
  lemma CleanedColumnsClean(columns: seq<string>, row: map<string, Cell>)
    ensures CleanRow(CleanedColumns(columns, row))
  {
    forall k | k in CleanedColumns(columns, row) ensures CleanCell(CleanedColumns(columns, row)[k]) == CleanedColumns(columns, row)[k] {
      CleanCellIdempotent(CellOr(row, k, ""));
    }
  }

  /** A union of clean rows is clean. */
  lemma UnionClean(a: map<string, Cell>, b: map<string, Cell>)
    requires CleanRow(a) && CleanRow(b)
    ensures CleanRow(a + b)
  {
  }

  /** Every row `process_wine_csv` writes on success is clean. */
  lemma SuccessRowClean(columns: seq<string>, row: map<string, Cell>, result: map<string, string>)
    ensures CleanRow(SuccessRow(columns, row, result))
  {
    var tastes := TasteCells(CellsOf(result), 3);
    TasteCellsFacts(CellsOf(result), 3);
    forall k | k in tastes ensures CleanCell(tastes[k]) == tastes[k] {
      var t, i :| t in Tastes && 1 <= i <= 3 && k == TasteColumn(t, i);
      CleanTextIdempotent(Get(result, TasteKey(t, i), ""));
    }
    CleanedColumnsClean(columns, row);
    UnionClean(CleanedColumns(columns, row), tastes);
  }

  /** Every fallback row is clean. */
  lemma FallbackRowClean(columns: seq<string>, row: map<string, Cell>)
    ensures CleanRow(FallbackRow(columns, row))
  {
    PairingDefaultsFacts(FoodPairingColumns);
    CleanTextEmpty();
    CleanedColumnsClean(columns, row);
    UnionClean(CleanedColumns(columns, row), PairingDefaults(FoodPairingColumns));
  }

  // ---------------------------------------------------------------------
  // The retry loop

  /** `food_pairing_pipeline` on the data extracted from a row, started at
      call `pos`: what it returns or raises, and the next call number. */
  type Pipeline = (map<string, Cell>, nat) -> (Result<map<string, string>, ChainError>, nat)

  ghost function PipelineOf(t: Templates, oracle: Oracle): Pipeline {
    (foodData: map<string, Cell>, pos: nat) => FoodInfo(t, foodData, oracle, pos)
  }

  /** The row the loop writes for a pipeline result. */
  type SuccessWriter = map<string, string> -> map<string, Cell>

  function SuccessOf(columns: seq<string>, row: map<string, Cell>): SuccessWriter {
    (result: map<string, string>) => SuccessRow(columns, row, result)
  }

  /** The row a run of the retry loop appends, the next call number, and
      the number of pipeline runs it made. */
  datatype RowRun = RowRun(written: map<string, Cell>, next: nat, attempts: nat)

  /** The retry loop on a row whose extracted data is `foodData`, after
      `failures` failed runs: a success writes `success` of the result; the
      third failure writes `fallback`. */
  ghost function RetryRow(pipeline: Pipeline, success: SuccessWriter, fallback: map<string, Cell>,
                          foodData: map<string, Cell>, pos: nat, failures: nat): RowRun
    requires failures <= MaxRetries
    decreases MaxRetries - failures
  {
    if failures == MaxRetries then RowRun(fallback, pos, failures)
    else
      var (result, next) := pipeline(foodData, pos);
      if result.Ok? then RowRun(success(result.value), next, failures + 1)
      else RetryRow(pipeline, success, fallback, foodData, next, failures + 1)
  }

  /** The retry loop of one row of `process_wine_csv`. */
  ghost function RunRowSpec(t: Templates, columns: seq<string>, row: map<string, Cell>, oracle: Oracle, pos: nat): RowRun {
    RetryRow(PipelineOf(t, oracle), SuccessOf(columns, row), FallbackRow(columns, row), ExtractFoodData(row), pos, 0)
  }

  /** The retry loop of one row started at a call number. */
  type RowRunner = (map<string, Cell>, nat) -> RowRun

  ghost function RunnerOf(t: Templates, columns: seq<string>, oracle: Oracle): RowRunner {
    (row: map<string, Cell>, pos: nat) => RunRowSpec(t, columns, row, oracle, pos)
  }

  /** One row of `process_wine_csv`: extract the food data, then retry. */
  method RunRow(t: Templates, columns: seq<string>, row: map<string, Cell>, oracle: Oracle, pos: nat)
    returns (newRow: map<string, Cell>, next: nat, attempts: nat)
    ensures RowRun(newRow, next, attempts) == RunnerOf(t, columns, oracle)(row, pos)
  {
    var wineData := ExtractFoodData(row);
    newRow, next, attempts := Retry(t, columns, row, wineData, oracle, pos);
  }

  /** The `while retry_count < max_retries and not success` loop. */
  method Retry(t: Templates, columns: seq<string>, row: map<string, Cell>, wineData: map<string, Cell>, oracle: Oracle, pos: nat)
    returns (newRow: map<string, Cell>, next: nat, attempts: nat)
    ensures RowRun(newRow, next, attempts)
      == RetryRow(PipelineOf(t, oracle), SuccessOf(columns, row), FallbackRow(columns, row), wineData, pos, 0)
  {
    ghost var pipeline, write, fallback := PipelineOf(t, oracle), SuccessOf(columns, row), FallbackRow(columns, row);
    var retryCount := 0;
    var success := false;
    newRow := map[];
    next := pos;
    while retryCount < MaxRetries && !success
      invariant retryCount <= MaxRetries
      invariant !success ==> RetryRow(pipeline, write, fallback, wineData, pos, 0) == RetryRow(pipeline, write, fallback, wineData, next, retryCount)
      invariant success ==> RetryRow(pipeline, write, fallback, wineData, pos, 0) == RowRun(newRow, next, retryCount + 1)
      invariant !success && retryCount == MaxRetries ==> newRow == fallback
      decreases MaxRetries - retryCount + if success then 0 else 1
    {
      ghost var before := next;
      var result;
      result, next := Attempt(t, wineData, oracle, next);
      RetryRowUnfolds(pipeline, write, fallback, wineData, before, retryCount);
      if result.Ok? {
        newRow := BuildSuccessRow(columns, row, result.value);
        assert newRow == write(result.value);
        success := true;
      } else {
        retryCount := retryCount + 1;
        if retryCount == MaxRetries {
          newRow := BuildFallbackRow(columns, row);
        }
      }
    }
    attempts := if success then retryCount + 1 else retryCount;
  }

  /** One run of `food_pairing_pipeline`. */
  method Attempt(t: Templates, wineData: map<string, Cell>, oracle: Oracle, pos: nat)
    returns (result: Result<map<string, string>, ChainError>, next: nat)
    ensures (result, next) == PipelineOf(t, oracle)(wineData, pos)
  {
    result, next := ProcessFoodInfo(t, wineData, oracle, pos);
  }

  /** One run of the loop: it writes a row or goes round again. */
  lemma RetryRowUnfolds(pipeline: Pipeline, success: SuccessWriter, fallback: map<string, Cell>,
                        foodData: map<string, Cell>, pos: nat, failures: nat)
    requires failures < MaxRetries
    ensures var (result, next) := pipeline(foodData, pos);
      RetryRow(pipeline, success, fallback, foodData, pos, failures)
        == if result.Ok? then RowRun(success(result.value), next, failures + 1)
           else RetryRow(pipeline, success, fallback, foodData, next, failures + 1)
  {
  }

  // ---------------------------------------------------------------------
  // What one row's retry loop does

  /** Every run of `pipeline` makes at most seven calls. */
  ghost predicate AtMostSevenCalls(pipeline: Pipeline) {
    forall foodData: map<string, Cell>, p: nat :: p <= pipeline(foodData, p).1 <= p + 7
  }

  /** A run of `process_food_info` makes at most seven calls. */
  lemma FoodInfoAtMostSevenCalls(t: Templates, oracle: Oracle)
    ensures AtMostSevenCalls(PipelineOf(t, oracle))
  {
    forall foodData: map<string, Cell>, p: nat ensures p <= PipelineOf(t, oracle)(foodData, p).1 <= p + 7 {
      FoodInfoShape(t, foodData, oracle, p);
    }
  }

  /** The loop runs the pipeline one to three times, at most seven calls
      a run. It writes `success` of the result of the run that ended the
      loop at `run.next`, when that run returned a result; otherwise it
      writes the fallback row after a third run that raised, also ending
      at `run.next`. */
  lemma {:induction false} RetryRowShape(pipeline: Pipeline, success: SuccessWriter, fallback: map<string, Cell>,
                                         foodData: map<string, Cell>, pos: nat, failures: nat)
    requires failures < MaxRetries
    requires AtMostSevenCalls(pipeline)
    ensures var run := RetryRow(pipeline, success, fallback, foodData, pos, failures);
      && failures < run.attempts <= MaxRetries
      && pos <= run.next <= pos + 7 * (run.attempts - failures)
      && ((&& run.written == fallback && run.attempts == MaxRetries
           && exists q: nat :: pos <= q <= run.next && pipeline(foodData, q).0.Err? && pipeline(foodData, q).1 == run.next)
          || exists p: nat :: && pos <= p <= run.next && pipeline(foodData, p).0.Ok? && pipeline(foodData, p).1 == run.next
                              && run.written == success(pipeline(foodData, p).0.value))
    decreases MaxRetries - failures
  {
    var (result, next) := pipeline(foodData, pos);
    assert pos <= next <= pos + 7;
    if result.Err? && failures + 1 < MaxRetries {
      RetryRowShape(pipeline, success, fallback, foodData, next, failures + 1);
    }
  }

  /** A pipeline that fails after `cost` calls, at every position from
      `pos` on, makes the loop write the fallback row after three runs. */
  lemma {:induction false} RetryRowAllFail(pipeline: Pipeline, cost: nat, success: SuccessWriter, fallback: map<string, Cell>,
                                           foodData: map<string, Cell>, pos: nat, failures: nat)
    requires cost <= 1 && failures <= MaxRetries
    requires forall p: nat :: pos <= p ==> pipeline(foodData, p).0.Err? && pipeline(foodData, p).1 == p + cost
    ensures RetryRow(pipeline, success, fallback, foodData, pos, failures)
      == RowRun(fallback, pos + if cost == 0 then 0 else MaxRetries - failures, MaxRetries)
    decreases MaxRetries - failures
  {
    if failures < MaxRetries {
      RetryRowAllFail(pipeline, cost, success, fallback, foodData, pos + cost, failures + 1);
    }
  }

  /** When every call from `pos` on raises, the loop makes one call per
      run and writes the fallback row. */
  lemma FailingModelFallsBack(columns: seq<string>, row: map<string, Cell>, oracle: Oracle, pos: nat)
    requires forall j :: pos <= j ==> ReplyAt(oracle, j).CallError?
    ensures RunRowSpec(IntendedTemplates, columns, row, oracle, pos) == RowRun(FallbackRow(columns, row), pos + 3, 3)
  {
    IntendedTemplatesSupplied(row, "");
    FailingCalls(IntendedTemplates, ExtractFoodData(row), oracle, pos);
    RetryRowAllFail(PipelineOf(IntendedTemplates, oracle), 1, SuccessOf(columns, row), FallbackRow(columns, row),
                    ExtractFoodData(row), pos, 0);
  }

  /** Every run that makes its first call on a failing model raises
      after that call. */
  lemma FailingCalls(t: Templates, foodData: map<string, Cell>, oracle: Oracle, pos: nat)
    requires t.pairings <= foodData.Keys
    requires forall j :: pos <= j ==> ReplyAt(oracle, j).CallError?
    ensures forall p: nat :: pos <= p ==>
      PipelineOf(t, oracle)(foodData, p).0.Err? && PipelineOf(t, oracle)(foodData, p).1 == p + 1
  {
    forall p: nat | pos <= p
      ensures PipelineOf(t, oracle)(foodData, p).0.Err? && PipelineOf(t, oracle)(foodData, p).1 == p + 1
    {
      assert ReplyAt(oracle, p).CallError?;
    }
  }

  /** With the templates as written, every run raises before any call:
      the loop writes the fallback row and the model is never called. */
  lemma AsWrittenFallsBack(columns: seq<string>, row: map<string, Cell>, oracle: Oracle, pos: nat)
    ensures RunRowSpec(AsWrittenTemplates, columns, row, oracle, pos) == RowRun(FallbackRow(columns, row), pos, 3)
  {
    assert "sweetness_dry" in AsWrittenTemplates.pairings && "sweetness_dry" !in ExtractFoodData(row).Keys;
    RaisingCalls(AsWrittenTemplates, ExtractFoodData(row), oracle);
    RetryRowAllFail(PipelineOf(AsWrittenTemplates, oracle), 0, SuccessOf(columns, row), FallbackRow(columns, row),
                    ExtractFoodData(row), pos, 0);
  }

  /** A run whose first template lacks an input raises before any call. */
  lemma RaisingCalls(t: Templates, foodData: map<string, Cell>, oracle: Oracle)
    requires !(t.pairings <= foodData.Keys)
    ensures forall p: nat ::
      PipelineOf(t, oracle)(foodData, p).0.Err? && PipelineOf(t, oracle)(foodData, p).1 == p
  {
  }

  /** With the intended templates and a model that answers every call
      usefully, the first run succeeds after seven calls. */
  lemma IntendedFirstTry(columns: seq<string>, row: map<string, Cell>, oracle: Oracle, pos: nat)
    requires ReplyAt(oracle, pos).Reply? && PassesGate(ParseKeyval(ReplyAt(oracle, pos).text))
    requires forall i :: 1 <= i <= 3 ==> PairingAnswered(oracle, PairingCall(pos, i))
    ensures var run := RunRowSpec(IntendedTemplates, columns, row, oracle, pos);
      var (result, _) := FoodInfo(IntendedTemplates, ExtractFoodData(row), oracle, pos);
      && result.Ok?
      && run == RowRun(SuccessRow(columns, row, result.value), pos + 7, 1)
  {
    IntendedSucceeds(row, oracle, pos);
    RetryRowUnfolds(PipelineOf(IntendedTemplates, oracle), SuccessOf(columns, row), FallbackRow(columns, row), ExtractFoodData(row), pos, 0);
  }

  /** The run of one row ends with the success row of the result that
      `process_food_info` returned from the model's replies, in the run
      that ended the loop, or with the fallback row after a third run that
      raised. */
  ghost predicate RowShape(t: Templates, columns: seq<string>, row: map<string, Cell>, oracle: Oracle, pos: nat, run: RowRun) {
    var foodData := ExtractFoodData(row);
    && 1 <= run.attempts <= MaxRetries
    && pos <= run.next <= pos + 7 * run.attempts
    && ((&& run.written == FallbackRow(columns, row) && run.attempts == MaxRetries
         && exists q: nat :: pos <= q <= run.next && FoodInfo(t, foodData, oracle, q).0.Err? && FoodInfo(t, foodData, oracle, q).1 == run.next)
        || exists p: nat :: && pos <= p <= run.next && FoodInfo(t, foodData, oracle, p).0.Ok? && FoodInfo(t, foodData, oracle, p).1 == run.next
                            && run.written == SuccessRow(columns, row, FoodInfo(t, foodData, oracle, p).0.value))
  }

  /** Every row's retry loop has that shape. */
  lemma RunRowShape(t: Templates, columns: seq<string>, row: map<string, Cell>, oracle: Oracle, pos: nat)
    ensures RowShape(t, columns, row, oracle, pos, RunRowSpec(t, columns, row, oracle, pos))
  {
    var pipeline, success, foodData := PipelineOf(t, oracle), SuccessOf(columns, row), ExtractFoodData(row);
    FoodInfoAtMostSevenCalls(t, oracle);
    RetryRowShape(pipeline, success, FallbackRow(columns, row), foodData, pos, 0);
    var run := RunRowSpec(t, columns, row, oracle, pos);
    if run.written == FallbackRow(columns, row) && run.attempts == MaxRetries
       && exists q: nat :: pos <= q <= run.next && pipeline(foodData, q).0.Err? && pipeline(foodData, q).1 == run.next {
      var q: nat :| pos <= q <= run.next && pipeline(foodData, q).0.Err? && pipeline(foodData, q).1 == run.next;
      assert FoodInfo(t, foodData, oracle, q) == pipeline(foodData, q);
    } else {
      var p: nat :| && pos <= p <= run.next && pipeline(foodData, p).0.Ok? && pipeline(foodData, p).1 == run.next
                    && run.written == success(pipeline(foodData, p).0.value);
      assert FoodInfo(t, foodData, oracle, p) == pipeline(foodData, p);
    }
  }

  // ---------------------------------------------------------------------
  // The batch

  /** The rows of `result_data`, one per input row in input order, and
      the next call number. */
  ghost function Batch(runner: RowRunner, rows: seq<map<string, Cell>>, pos: nat): (seq<map<string, Cell>>, nat)
    decreases |rows|
  {
    if rows == [] then ([], pos)
    else
      var run := runner(rows[0], pos);
      var (rest, next) := Batch(runner, rows[1..], run.next);
      ([run.written] + rest, next)
  }

  /** `for index, row in df.iterrows()`: each row's retry loop in turn. */
  method ProcessRows(t: Templates, columns: seq<string>, rows: seq<map<string, Cell>>, oracle: Oracle, pos: nat)
    returns (resultData: seq<map<string, Cell>>, next: nat)
    ensures (resultData, next) == Batch(RunnerOf(t, columns, oracle), rows, pos)
  {
    ghost var runner := RunnerOf(t, columns, oracle);
    resultData := [];
    next := pos;
    assert rows[0..] == rows;
    for n := 0 to |rows|
      invariant resultData + Batch(runner, rows[n..], next).0 == Batch(runner, rows, pos).0
      invariant Batch(runner, rows[n..], next).1 == Batch(runner, rows, pos).1
    {
      ghost var before := next;
      var newRow, attempts;
      newRow, next, attempts := RunRow(t, columns, rows[n], oracle, next);
      BatchStep(runner, rows, pos, n, resultData, before, RowRun(newRow, next, attempts));
      resultData := resultData + [newRow];
    }
    assert rows[|rows|..] == [];
    assert Batch(runner, rows[|rows|..], next) == ([], next);
    assert resultData + [] == resultData;
    assert resultData == Batch(runner, rows, pos).0;
    assert next == Batch(runner, rows, pos).1;
  }

  /** Appending the run of row `n` keeps the loop invariant. */
  lemma BatchStep(runner: RowRunner, rows: seq<map<string, Cell>>, pos: nat, n: nat,
                  done: seq<map<string, Cell>>, before: nat, run: RowRun)
    requires n < |rows|
    requires done + Batch(runner, rows[n..], before).0 == Batch(runner, rows, pos).0
    requires Batch(runner, rows[n..], before).1 == Batch(runner, rows, pos).1
    requires run == runner(rows[n], before)
    ensures (done + [run.written]) + Batch(runner, rows[n + 1..], run.next).0 == Batch(runner, rows, pos).0
    ensures Batch(runner, rows[n + 1..], run.next).1 == Batch(runner, rows, pos).1
  {
    BatchUnfolds(runner, rows[n..], before);
    assert rows[n..][1..] == rows[n + 1..];
  }

  /** The first row's run, then the rest. */
  lemma BatchUnfolds(runner: RowRunner, rows: seq<map<string, Cell>>, pos: nat)
    requires rows != []
    ensures var run := runner(rows[0], pos);
      Batch(runner, rows, pos) == ([run.written] + Batch(runner, rows[1..], run.next).0, Batch(runner, rows[1..], run.next).1)
  {
  }

  /** One output row per input row, in input order, each related by
      `written` to the input row at the same index; at most twenty-one
      calls per row. */
  lemma {:induction false} BatchShape(runner: RowRunner, written: (map<string, Cell>, map<string, Cell>) -> bool,
                                      rows: seq<map<string, Cell>>, pos: nat)
    requires forall row: map<string, Cell>, p: nat :: written(row, runner(row, p).written) && p <= runner(row, p).next <= p + 21
    ensures var (out, next) := Batch(runner, rows, pos);
      && |out| == |rows|
      && pos <= next <= pos + 21 * |rows|
      && forall i :: 0 <= i < |rows| ==> written(rows[i], out[i])
    decreases |rows|
  {
    if rows != [] {
      var run := runner(rows[0], pos);
      BatchShape(runner, written, rows[1..], run.next);
      var (out, next) := Batch(runner, rows, pos);
      forall i | 1 <= i < |rows| ensures written(rows[i], out[i]) {
        assert out[i] == Batch(runner, rows[1..], run.next).0[i - 1] && rows[i] == rows[1..][i - 1];
      }
    }
  }

  /** The two rows `process_wine_csv` may write for `row`: the fallback
      row, or the success row of a result `process_food_info` returns
      from the model's replies. */
  ghost function SuccessOrFallback(t: Templates, columns: seq<string>, oracle: Oracle): (map<string, Cell>, map<string, Cell>) -> bool {
    (row: map<string, Cell>, w: map<string, Cell>) =>
      w == FallbackRow(columns, row) || SuccessFromReplies(t, columns, row, oracle, w)
  }

  /** `w` is the success row of a result `process_food_info` returns for
      the row's data when started at some call number. */
  ghost predicate SuccessFromReplies(t: Templates, columns: seq<string>, row: map<string, Cell>, oracle: Oracle, w: map<string, Cell>) {
    exists p: nat :: FoodInfo(t, ExtractFoodData(row), oracle, p).0.Ok?
      && w == SuccessRow(columns, row, FoodInfo(t, ExtractFoodData(row), oracle, p).0.value)
  }

  /** `result_data` holds one row per input row, in input order: the
      fallback row of the input row at the same index, or the success row
      of a result `process_food_info` returned for it from the model's
      replies; the whole file makes at most twenty-one calls per row. */
  lemma ProcessedRows(t: Templates, columns: seq<string>, rows: seq<map<string, Cell>>, oracle: Oracle, pos: nat)
    ensures var (out, next) := Batch(RunnerOf(t, columns, oracle), rows, pos);
      && |out| == |rows|
      && pos <= next <= pos + 21 * |rows|
      && forall i :: 0 <= i < |rows| ==>
           out[i] == FallbackRow(columns, rows[i]) || SuccessFromReplies(t, columns, rows[i], oracle, out[i])
  {
    var runner := RunnerOf(t, columns, oracle);
    var written := SuccessOrFallback(t, columns, oracle);
    forall row: map<string, Cell>, p: nat ensures written(row, runner(row, p).written) && p <= runner(row, p).next <= p + 21 {
      RunRowShape(t, columns, row, oracle, p);
    }
    BatchShape(runner, written, rows, pos);
  }

  /** When every row's loop writes `fallback` of the row without calling
      the model, so does the whole file. */
  lemma {:induction false} BatchAllFallback(runner: RowRunner, fallback: map<string, Cell> -> map<string, Cell>,
                                            rows: seq<map<string, Cell>>, pos: nat)
    requires forall row: map<string, Cell>, p: nat :: runner(row, p) == RowRun(fallback(row), p, MaxRetries)
    ensures var (out, next) := Batch(runner, rows, pos);
      && next == pos
      && |out| == |rows|
      && forall i :: 0 <= i < |rows| ==> out[i] == fallback(rows[i])
    decreases |rows|
  {
    if rows != [] {
      BatchAllFallback(runner, fallback, rows[1..], pos);
      var out := Batch(runner, rows, pos).0;
      assert out == [fallback(rows[0])] + Batch(runner, rows[1..], pos).0;
      forall i | 1 <= i < |rows| ensures out[i] == fallback(rows[i]) {
        assert out[i] == Batch(runner, rows[1..], pos).0[i - 1] && rows[i] == rows[1..][i - 1];
      }
    }
  }

  /** With the templates as written, the whole file gets fallback rows
      and the model is never called. */
  lemma AsWrittenBatch(columns: seq<string>, rows: seq<map<string, Cell>>, oracle: Oracle, pos: nat)
    ensures var (out, next) := Batch(RunnerOf(AsWrittenTemplates, columns, oracle), rows, pos);
      && next == pos
      && |out| == |rows|
      && forall i :: 0 <= i < |rows| ==> out[i] == FallbackRow(columns, rows[i])
  {
    var runner := RunnerOf(AsWrittenTemplates, columns, oracle);
    var fallback := (row: map<string, Cell>) => FallbackRow(columns, row);
    forall row: map<string, Cell>, p: nat ensures runner(row, p) == RowRun(fallback(row), p, MaxRetries) {
      AsWrittenFallsBack(columns, row, oracle, p);
    }
    BatchAllFallback(runner, fallback, rows, pos);
  }

  /** Either row `process_wine_csv` writes is clean and carries every
      input column that no pairing column overwrites, cleaned. */
  lemma WrittenRowFacts(columns: seq<string>, row: map<string, Cell>, w: map<string, Cell>)
    requires w == FallbackRow(columns, row) || exists result :: w == SuccessRow(columns, row, result)
    ensures CleanRow(w)
    ensures forall c :: c in columns && c !in FoodPairingColumns && !IsTasteColumn(c) ==>
      c in w && w[c] == CleanCell(CellOr(row, c, ""))
  {
    if w == FallbackRow(columns, row) {
      FallbackRowClean(columns, row);
      FallbackRowCells(columns, row);
    } else {
      var result :| w == SuccessRow(columns, row, result);
      SuccessRowClean(columns, row, result);
      SuccessRowCells(columns, row, result);
    }
  }

  /** Every row of `result_data` is clean, and row `i` carries the input
      columns of input row `i` that no pairing column overwrites, cleaned. */
  lemma ProcessedRowsCarryInput(t: Templates, columns: seq<string>, rows: seq<map<string, Cell>>, oracle: Oracle, pos: nat)
    ensures var out := Batch(RunnerOf(t, columns, oracle), rows, pos).0;
      && |out| == |rows|
      && (forall i :: 0 <= i < |rows| ==> CleanRow(out[i]))
      && forall i, c :: 0 <= i < |rows| && c in columns && c !in FoodPairingColumns && !IsTasteColumn(c) ==>
           c in out[i] && out[i][c] == CleanCell(CellOr(rows[i], c, ""))
  {
    var out := Batch(RunnerOf(t, columns, oracle), rows, pos).0;
    ProcessedRows(t, columns, rows, oracle, pos);
    forall i | 0 <= i < |rows|
      ensures CleanRow(out[i])
      ensures forall c :: c in columns && c !in FoodPairingColumns && !IsTasteColumn(c) ==>
        c in out[i] && out[i][c] == CleanCell(CellOr(rows[i], c, ""))
    {
      if out[i] != FallbackRow(columns, rows[i]) {
        var p: nat :| FoodInfo(t, ExtractFoodData(rows[i]), oracle, p).0.Ok?
          && out[i] == SuccessRow(columns, rows[i], FoodInfo(t, ExtractFoodData(rows[i]), oracle, p).0.value);
      }
      WrittenRowFacts(columns, rows[i], out[i]);
    }
  }

  // ---------------------------------------------------------------------
  // The whole file

  /** A loaded CSV file: its columns in order and its rows. */
  datatype Table = Table(columns: seq<string>, rows: seq<map<string, Cell>>)

  /** A table `pd.read_csv` loads: every row has a cell, possibly a NaN
      one, in every column of the file. */
  predicate Loaded(t: Table) {
    forall i :: 0 <= i < |t.rows| ==> t.rows[i].Keys == set c | c in t.columns
  }

  /** `clean_text` applied to every value of a row. */
  function CleanedRow(r: map<string, Cell>): map<string, Cell> {
    map k | k in r :: CleanCell(r[k])
  }

  /** A clean row is its own cleaning. */
  lemma CleanedRowOfClean(r: map<string, Cell>)
    requires CleanRow(r)
    ensures CleanedRow(r) == r
  {
  }

  /** The final pass of `process_wine_csv` over every text column. */
  method FinalClean(rows: seq<map<string, Cell>>) returns (cleaned: seq<map<string, Cell>>)
    ensures |cleaned| == |rows|
    ensures forall i :: 0 <= i < |rows| ==> cleaned[i] == CleanedRow(rows[i])
  {
    cleaned := [];
    for i := 0 to |rows|
      invariant |cleaned| == i
      invariant forall j :: 0 <= j < i ==> cleaned[j] == CleanedRow(rows[j])
    {
      cleaned := cleaned + [CleanedRow(rows[i])];
    }
  }

  /** `process_wine_csv`: `None` stands for a file `pd.read_csv` could not
      load. Returns whether it succeeded and the rows it writes out; the
      model's calls are numbered from 0. */
  method ProcessWineCsv(t: Templates, input: Option<Table>, oracle: Oracle)
    returns (ok: bool, output: seq<map<string, Cell>>)
    requires input.Some? ==> Loaded(input.value)
    ensures ok <==> input.Some?
    ensures input.None? ==> output == []
    ensures input.Some? ==> output == Batch(RunnerOf(t, input.value.columns, oracle), input.value.rows, 0).0
  {
    if input.None? {
      return false, [];
    }
    var table := input.value;
    var resultData, _ := ProcessRows(t, table.columns, table.rows, oracle, 0);
    output := FinalClean(resultData);
    ProcessedRowsCarryInput(t, table.columns, table.rows, oracle, 0);
    forall i | 0 <= i < |output| ensures output[i] == resultData[i] {
      CleanedRowOfClean(resultData[i]);
    }
    ok := true;
  }
}
