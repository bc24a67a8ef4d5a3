/**
  The batch driver of the food-data script, `process_csv`: the column
  guard, the retry loop of every row (up to three attempts, then the
  fallback row), the table of all written rows, and the final step that
  adds each required column missing from it.
 */
module ServerBatch {
  import opened Text
  import opened Wrappers
  import opened ModelCalls
  import opened ServerParse
  import opened ServerPipeline

  /** `max_retries`. */
  const MaxRetries: nat := 3

  // ---------------------------------------------------------------------
  // The retry loop of one row

  /** One attempt started at a call number: its outcome and the next call
      number. */
  type Attempt = nat -> (Result<map<string, string>, PipelineError>, nat)

  /** What the loop of one row leaves: the row appended to `results`, the
      next call number and the number of attempts made. */
  datatype RowRun = RowRun(written: map<string, string>, next: nat, attempts: nat)

  /** The `while retry_count < max_retries and not success` loop, entered
      after `failures` failed attempts. */
  function RetryRow(attempt: Attempt, fallback: map<string, string>, pos: nat, failures: nat): RowRun
    requires failures <= MaxRetries
    decreases MaxRetries - failures
  {
    if failures == MaxRetries then RowRun(fallback, pos, failures)
    else
      var (result, next) := attempt(pos);
      if result.Ok? then RowRun(result.value, next, failures + 1)
      else RetryRow(attempt, fallback, next, failures + 1)
  }

  /** The attempts at `row`, on the inputs extracted from it. */
  function AttemptOf(row: map<string, string>, oracle: Oracle): Attempt {
    (p: nat) => AttemptRow(row, ExtractInputData(row), oracle, p)
  }

  /** The loop of one row of `process_csv`, started at call `pos`. */
  function RunRowSpec(row: map<string, string>, oracle: Oracle, pos: nat): RowRun {
    RetryRow(AttemptOf(row, oracle), FallbackRow(row), pos, 0)
  }

  /** The loop of one row started at a call number. */
  type RowRunner = (map<string, string>, nat) -> RowRun

  function RunnerOf(oracle: Oracle): RowRunner {
    (row: map<string, string>, pos: nat) => RunRowSpec(row, oracle, pos)
  }

  /** One row of `process_csv`: extract the inputs, then retry. */
  method RunRow(row: map<string, string>, oracle: Oracle, pos: nat)
    returns (newRow: map<string, string>, next: nat, attempts: nat)
    ensures RowRun(newRow, next, attempts) == RunnerOf(oracle)(row, pos)
  {
    var inputs := ExtractInputData(row);
    newRow, next, attempts := Retry(row, inputs, oracle, pos, AttemptOf(row, oracle));
  }

  /** The `while retry_count < max_retries and not success` loop, whose
      attempts `attempt` describes. */
  method Retry(row: map<string, string>, inputs: map<string, string>, oracle: Oracle, pos: nat, ghost attempt: Attempt)
    returns (newRow: map<string, string>, next: nat, attempts: nat)
    requires forall p: nat {:trigger AttemptRow(row, inputs, oracle, p)} :: attempt(p) == AttemptRow(row, inputs, oracle, p)
    ensures RowRun(newRow, next, attempts) == RetryRow(attempt, FallbackRow(row), pos, 0)
  {
    ghost var fallback := FallbackRow(row);
    var retryCount := 0;
    var success := false;
    newRow := map[];
    next := pos;
    while retryCount < MaxRetries && !success
      invariant retryCount <= MaxRetries
      invariant !success ==> RetryRow(attempt, fallback, pos, 0) == RetryRow(attempt, fallback, next, retryCount)
      invariant success ==> RetryRow(attempt, fallback, pos, 0) == RowRun(newRow, next, retryCount + 1)
      invariant !success && retryCount == MaxRetries ==> newRow == fallback
      decreases MaxRetries - retryCount + if success then 0 else 1
    {
      ghost var before := next;
      var result;
      result, next := TryRow(row, inputs, oracle, next);
      RetryRowUnfolds(attempt, fallback, before, retryCount);
      if result.Ok? {
        newRow := result.value;
        success := true;
      } else {
        retryCount := retryCount + 1;
        if retryCount == MaxRetries {
          newRow := BuildFallbackRow(row);
        }
      }
    }
    attempts := if success then retryCount + 1 else retryCount;
  }

  /** One run of the loop: it writes a row or goes round again. */
  lemma RetryRowUnfolds(attempt: Attempt, fallback: map<string, string>, pos: nat, failures: nat)
    requires failures < MaxRetries
    ensures var (result, next) := attempt(pos);
      RetryRow(attempt, fallback, pos, failures)
        == if result.Ok? then RowRun(result.value, next, failures + 1)
           else RetryRow(attempt, fallback, next, failures + 1)
  {
  }

  // ---------------------------------------------------------------------
  // What one row's loop does

  /** Every attempt makes one or two calls, and a successful one makes two
      and gives `success` of its first call number. */
  ghost predicate OneOrTwoCalls(attempt: Attempt, success: nat -> map<string, string>) {
    forall p: nat ::
      && p + 1 <= attempt(p).1 <= p + 2
      && (attempt(p).0.Ok? ==> attempt(p).1 == p + 2 && attempt(p).0.value == success(p))
  }

  /** The loop makes between one and three attempts, each of one or two
      calls, and writes either the fallback row after three failures or
      the success row of its last two calls. */
  lemma {:induction false} RetryRowShape(attempt: Attempt, success: nat -> map<string, string>,
                                         fallback: map<string, string>, pos: nat, failures: nat)
    requires failures < MaxRetries
    requires OneOrTwoCalls(attempt, success)
    ensures var run := RetryRow(attempt, fallback, pos, failures);
      && failures < run.attempts <= MaxRetries
      && pos + (run.attempts - failures) <= run.next <= pos + 2 * (run.attempts - failures)
      && ((run.written == fallback && run.attempts == MaxRetries)
          || (pos + 2 <= run.next && run.written == success(run.next - 2)))
    decreases MaxRetries - failures
  {
    var (result, next) := attempt(pos);
    RetryRowUnfolds(attempt, fallback, pos, failures);
    if !result.Ok? && failures + 1 < MaxRetries {
      RetryRowShape(attempt, success, fallback, next, failures + 1);
    }
  }

  /** The success row an attempt started at each call number writes. */
  function SuccessFrom(row: map<string, string>, oracle: Oracle): nat -> map<string, string> {
    (p: nat) => SuccessAt(row, oracle, p)
  }

  /** An attempt at a row makes one or two calls and, when it succeeds,
      gives the success row of the two replies. */
  lemma AttemptCalls(row: map<string, string>, oracle: Oracle)
    ensures OneOrTwoCalls(AttemptOf(row, oracle), SuccessFrom(row, oracle))
  {
    forall p: nat {
      AttemptRowOutcome(row, oracle, p);
    }
  }

  /** Each row gets one to three attempts and at most six calls, and one
      row is written: the fallback row after three failed attempts, or the
      success row of the replies to the last two calls. */
  lemma RunRowShape(row: map<string, string>, oracle: Oracle, pos: nat)
    ensures var run := RunRowSpec(row, oracle, pos);
      && 1 <= run.attempts <= MaxRetries
      && pos + run.attempts <= run.next <= pos + 2 * run.attempts
      && ((run.written == FallbackRow(row) && run.attempts == MaxRetries)
          || (pos + 2 <= run.next && run.written == SuccessAt(row, oracle, run.next - 2)))
  {
    var run := RunRowSpec(row, oracle, pos);
    AttemptCalls(row, oracle);
    RowShapeOf(pos, run, AttemptOf(row, oracle), SuccessFrom(row, oracle), FallbackRow(row), SuccessAt(row, oracle, run.next - 2));
  }

  /** The shape of a row's loop, in terms of the row written when its last
      attempt succeeds. */
  lemma RowShapeOf(pos: nat, run: RowRun, attempt: Attempt, success: nat -> map<string, string>,
                   fallback: map<string, string>, last: map<string, string>)
    requires run == RetryRow(attempt, fallback, pos, 0)
    requires OneOrTwoCalls(attempt, success)
    requires pos + 2 <= run.next ==> success(run.next - 2) == last
    ensures && 1 <= run.attempts <= MaxRetries
      && pos + run.attempts <= run.next <= pos + 2 * run.attempts
      && ((run.written == fallback && run.attempts == MaxRetries)
          || (pos + 2 <= run.next && run.written == last))
  {
    RetryRowShape(attempt, success, fallback, pos, 0);
  }

  /** When both calls of the first attempt are answered, the row is the
      success row of those replies, after one attempt and two calls. */
  lemma RunRowFirstTry(row: map<string, string>, oracle: Oracle, pos: nat)
    requires ReplyAt(oracle, pos).Reply? && ReplyAt(oracle, pos + 1).Reply?
    ensures RunRowSpec(row, oracle, pos) == RowRun(SuccessAt(row, oracle, pos), pos + 2, 1)
  {
    AttemptRowOutcome(row, oracle, pos);
    RetryRowUnfolds(AttemptOf(row, oracle), FallbackRow(row), pos, 0);
  }

  /** When the next three calls all fail, each attempt stops at its first
      call and the row is the fallback row, after three calls. */
  lemma RunRowAllFail(row: map<string, string>, oracle: Oracle, pos: nat)
    requires ReplyAt(oracle, pos).CallError?
    requires ReplyAt(oracle, pos + 1).CallError?
    requires ReplyAt(oracle, pos + 2).CallError?
    ensures RunRowSpec(row, oracle, pos) == RowRun(FallbackRow(row), pos + 3, MaxRetries)
  {
    var attempt, fallback := AttemptOf(row, oracle), FallbackRow(row);
    AttemptRowOutcome(row, oracle, pos);
    AttemptRowOutcome(row, oracle, pos + 1);
    AttemptRowOutcome(row, oracle, pos + 2);
    RetryRowUnfolds(attempt, fallback, pos, 0);
    RetryRowUnfolds(attempt, fallback, pos + 1, 1);
    RetryRowUnfolds(attempt, fallback, pos + 2, 2);
  }

  // ---------------------------------------------------------------------
  // The rows of the file

  /** The rows of `results`, one per input row in input order, and the
      next call number. */
  function Batch(runner: RowRunner, rows: seq<map<string, string>>, pos: nat): (seq<map<string, string>>, nat)
    decreases |rows|
  {
    if rows == [] then ([], pos)
    else
      var run := runner(rows[0], pos);
      var (rest, next) := Batch(runner, rows[1..], run.next);
      ([run.written] + rest, next)
  }

  /** `for index, row in df.iterrows()`: each row's loop in turn. */
  method ProcessRows(rows: seq<map<string, string>>, oracle: Oracle, pos: nat)
    returns (results: seq<map<string, string>>, next: nat)
    ensures (results, next) == Batch(RunnerOf(oracle), rows, pos)
  {
    ghost var runner := RunnerOf(oracle);
    results := [];
    next := pos;
    assert rows[0..] == rows;
    for n := 0 to |rows|
      invariant results + Batch(runner, rows[n..], next).0 == Batch(runner, rows, pos).0
      invariant Batch(runner, rows[n..], next).1 == Batch(runner, rows, pos).1
    {
      ghost var before := next;
      var newRow, attempts;
      newRow, next, attempts := RunRow(rows[n], oracle, next);
      BatchStep(runner, rows, pos, n, results, before, RowRun(newRow, next, attempts));
      results := results + [newRow];
    }
    assert rows[|rows|..] == [];
    assert Batch(runner, rows[|rows|..], next) == ([], next);
    assert results + [] == results;
    assert results == Batch(runner, rows, pos).0;
    assert next == Batch(runner, rows, pos).1;
  }

  /** Appending the row written for row `n` keeps the loop invariant. */
  lemma BatchStep(runner: RowRunner, rows: seq<map<string, string>>, pos: nat, n: nat,
                  done: seq<map<string, string>>, before: nat, run: RowRun)
    requires n < |rows|
    requires done + Batch(runner, rows[n..], before).0 == Batch(runner, rows, pos).0
    requires Batch(runner, rows[n..], before).1 == Batch(runner, rows, pos).1
    requires run == runner(rows[n], before)
    ensures (done + [run.written]) + Batch(runner, rows[n + 1..], run.next).0 == Batch(runner, rows, pos).0
    ensures Batch(runner, rows[n + 1..], run.next).1 == Batch(runner, rows, pos).1
  {
    assert rows[n..][1..] == rows[n + 1..];
  }

  /** One output row per input row, in input order, each related by
      `written` to the input row at the same index; between one and six
      calls per row, so a failing row never stops the batch. */
  lemma {:induction false} BatchShape(runner: RowRunner, written: (map<string, string>, map<string, string>) -> bool,
                                      rows: seq<map<string, string>>, pos: nat)
    requires forall row: map<string, string>, p: nat ::
      written(row, runner(row, p).written) && p + 1 <= runner(row, p).next <= p + 6
    ensures var (out, next) := Batch(runner, rows, pos);
      && |out| == |rows|
      && pos + |rows| <= next <= pos + 6 * |rows|
      && forall i :: 0 <= i < |rows| ==> written(rows[i], out[i])
    decreases |rows|
  {
    if rows != [] {
      var run := runner(rows[0], pos);
      BatchShape(runner, written, rows[1..], run.next);
      var (out, next) := Batch(runner, rows, pos);
      forall i | 1 <= i < |rows| ensures written(rows[i], out[i]) {
        assert out[i] == Batch(runner, rows[1..], run.next).0[i - 1] && rows[i] == rows[1..][i - 1];
      }
    }
  }

  /** The two rows `process_csv` may append for `row`. */
  ghost function SuccessOrFallback(): (map<string, string>, map<string, string>) -> bool {
    (row: map<string, string>, w: map<string, string>) =>
      w == FallbackRow(row) || exists baseInfo, characteristics :: w == SuccessRow(row, baseInfo, characteristics)
  }

  /** `results` holds one row per input row, in input order: the success
      row or the fallback row of the input row at the same index; the file
      takes between one and six calls per row. */
  lemma ProcessedRows(rows: seq<map<string, string>>, oracle: Oracle, pos: nat)
    ensures var (out, next) := Batch(RunnerOf(oracle), rows, pos);
      && |out| == |rows|
      && pos + |rows| <= next <= pos + 6 * |rows|
      && forall i :: 0 <= i < |rows| ==>
           out[i] == FallbackRow(rows[i])
           || exists baseInfo, characteristics :: out[i] == SuccessRow(rows[i], baseInfo, characteristics)
  {
    var runner := RunnerOf(oracle);
    var written := SuccessOrFallback();
    forall row: map<string, string>, p: nat
      ensures written(row, runner(row, p).written) && p + 1 <= runner(row, p).next <= p + 6
    {
      RunRowShape(row, oracle, p);
    }
    BatchShape(runner, written, rows, pos);
  }

  // ---------------------------------------------------------------------
  // The final table and its required columns

  /** A table: its set of columns and its rows; a row without some column
      holds no value there (pandas' NaN). */
  datatype Table = Table(columns: set<string>, rows: seq<map<string, string>>)

  /** Every row's keys are columns of the table. */
  predicate WellFormed(t: Table) {
    forall i :: 0 <= i < |t.rows| ==> t.rows[i].Keys <= t.columns
  }

  /** A table `pd.read_csv` loads: every row has a cell in every column, so
      `row.get` finds every column of the file (a NaN cell is one of the
      row's string values). */
  predicate Loaded(t: Table) {
    forall i :: 0 <= i < |t.rows| ==> t.rows[i].Keys == t.columns
  }

  /** The columns of `pd.DataFrame(results)`: every key of every row. */
  function ColumnsOf(records: seq<map<string, string>>): set<string>
    decreases |records|
  {
    if records == [] then {} else ColumnsOf(records[..|records| - 1]) + records[|records| - 1].Keys
  }

  /** Every key of every row is a column of the frame. */
  lemma {:induction false} ColumnsOfKeys(records: seq<map<string, string>>)
    ensures forall i :: 0 <= i < |records| ==> records[i].Keys <= ColumnsOf(records)
    decreases |records|
  {
    if records != [] {
      var init := records[..|records| - 1];
      ColumnsOfKeys(init);
      assert forall i :: 0 <= i < |init| ==> init[i] == records[i];
    }
  }

  /** A key no row has is not a column of the frame. */
  lemma {:induction false} ColumnsOfAbsent(records: seq<map<string, string>>, col: string)
    requires forall i :: 0 <= i < |records| ==> col !in records[i]
    ensures col !in ColumnsOf(records)
    decreases |records|
  {
    if records != [] {
      var init := records[..|records| - 1];
      assert forall i :: 0 <= i < |init| ==> init[i] == records[i];
      ColumnsOfAbsent(init, col);
    }
  }

  /** `DEFAULT_VALUES.get(col, "")`. */
  function DefaultOf(col: string): string {
    Get(DefaultValues, col, "")
  }

  /** `missing_columns`: the required columns the table lacks, in order. */
  function MissingColumns(required: seq<string>, columns: set<string>): (missing: seq<string>)
    ensures forall col :: col in missing <==> col in required && col !in columns
    decreases |required|
  {
    if required == [] then []
    else
      var rest := MissingColumns(required[1..], columns);
      assert forall col :: col in required <==> col == required[0] || col in required[1..];
      if required[0] in columns then rest else [required[0]] + rest
  }

  /** Every row with column `col` set to `value`. */
  function WithColumn(rows: seq<map<string, string>>, col: string, value: string): (r: seq<map<string, string>>)
    ensures |r| == |rows|
    ensures forall i :: 0 <= i < |rows| ==> r[i] == rows[i][col := value]
  {
    seq(|rows|, i requires 0 <= i < |rows| => rows[i][col := value])
  }

  /** `final_df[col] = value`. */
  function AddColumn(t: Table, col: string, value: string): Table {
    Table(t.columns + {col}, WithColumn(t.rows, col, value))
  }

  /** The table after `final_df[col] = DEFAULT_VALUES.get(col, "")` for
      each column of `missing`, in order. */
  function FillColumns(t: Table, missing: seq<string>): Table
    decreases |missing|
  {
    if missing == [] then t
    else
      var last := missing[|missing| - 1];
      AddColumn(FillColumns(t, missing[..|missing| - 1]), last, DefaultOf(last))
  }

  /** The table after the required-column step. */
  function FillRequired(t: Table): Table {
    FillColumns(t, MissingColumns(RequiredColumns, t.columns))
  }

  /** Filling adds exactly the listed columns and keeps the rows. */
  lemma {:induction false} FillColumnsShape(t: Table, missing: seq<string>)
    ensures FillColumns(t, missing).columns == t.columns + set col | col in missing
    ensures |FillColumns(t, missing).rows| == |t.rows|
    decreases |missing|
  {
    if missing != [] {
      var init := missing[..|missing| - 1];
      FillColumnsShape(t, init);
      assert forall col :: col in missing <==> col in init || col == missing[|missing| - 1];
    }
  }

  /** In row `i` each listed column holds its default and every other key
      keeps its value. */
  lemma {:induction false} FillColumnsRow(t: Table, missing: seq<string>, i: nat)
    requires i < |t.rows|
    ensures |FillColumns(t, missing).rows| == |t.rows|
    ensures var r := FillColumns(t, missing).rows[i];
      forall col ::
        && (col in missing ==> col in r && r[col] == DefaultOf(col))
        && (col !in missing ==> (col in r <==> col in t.rows[i]) && (col in t.rows[i] ==> r[col] == t.rows[i][col]))
    decreases |missing|
  {
    FillColumnsShape(t, missing);
    if missing != [] {
      var init, last := missing[..|missing| - 1], missing[|missing| - 1];
      FillColumnsRow(t, init, i);
      FillColumnsShape(t, init);
      var g := FillColumns(t, init);
      assert FillColumns(t, missing).rows[i] == g.rows[i][last := DefaultOf(last)];
      assert forall col :: col in missing <==> col in init || col == last;
    }
  }

  /** After the step every required column is a column of the table
      (though a row may still hold no value in it); exactly the required
      columns the table lacked are added, each holding its default in
      every row; every column the table had is untouched. */
  lemma FillRequiredFacts(t: Table)
    requires WellFormed(t)
    ensures var f := FillRequired(t);
      && WellFormed(f)
      && (forall col :: col in RequiredColumns ==> col in f.columns)
      && f.columns == t.columns + set col | col in RequiredColumns && col !in t.columns
      && |f.rows| == |t.rows|
      && forall i :: 0 <= i < |t.rows| ==>
           && (forall col :: col in t.columns ==>
                 (col in f.rows[i] <==> col in t.rows[i]) && (col in t.rows[i] ==> f.rows[i][col] == t.rows[i][col]))
           && (forall col :: col in RequiredColumns && col !in t.columns ==> f.rows[i][col] == DefaultOf(col))
  {
    var missing := MissingColumns(RequiredColumns, t.columns);
    FillColumnsShape(t, missing);
    var f := FillRequired(t);
    forall i | 0 <= i < |t.rows|
      ensures f.rows[i].Keys <= f.columns
      ensures forall col :: col in t.columns ==>
                (col in f.rows[i] <==> col in t.rows[i]) && (col in t.rows[i] ==> f.rows[i][col] == t.rows[i][col])
      ensures forall col :: col in RequiredColumns && col !in t.columns ==> f.rows[i][col] == DefaultOf(col)
    {
      FillColumnsRow(t, missing, i);
    }
  }

  /** A table that has every required column is left as it is. */
  lemma FillRequiredComplete(t: Table)
    requires forall col :: col in RequiredColumns ==> col in t.columns
    ensures FillRequired(t) == t
  {
    assert MissingColumns(RequiredColumns, t.columns) == [];
  }

  /** A pandas frame: its columns and its rows, changed in place. */
  class Frame {
    var columns: set<string>
    var rows: seq<map<string, string>>

    function Value(): Table
      reads this
    {
      Table(columns, rows)
    }

    /** `pd.DataFrame(results)`. */
    constructor FromRecords(records: seq<map<string, string>>)
      ensures Value() == Table(ColumnsOf(records), records)
      ensures WellFormed(Value())
    {
      columns := ColumnsOf(records);
      rows := records;
      ColumnsOfKeys(records);
    }

    /** `self[col] = value`: the column is set in every row. */
    method SetColumn(col: string, value: string)
      modifies this
      ensures Value() == AddColumn(old(Value()), col, value)
    {
      var updated := [];
      for i := 0 to |rows|
        invariant updated == WithColumn(rows[..i], col, value)
      {
        updated := updated + [rows[i][col := value]];
      }
      assert rows[..|rows|] == rows;
      rows := updated;
      columns := columns + {col};
    }

    /** Lines `missing_columns = ...` to the end of the `for` loop that
        fills them. */
    method FillRequiredColumns()
      modifies this
      ensures Value() == FillRequired(old(Value()))
    {
      var missing := MissingColumns(RequiredColumns, columns);
      ghost var start := Value();
      for j := 0 to |missing|
        invariant Value() == FillColumns(start, missing[..j])
      {
        assert missing[..j + 1][..j] == missing[..j];
        SetColumn(missing[j], DefaultOf(missing[j]));
      }
      assert missing[..|missing|] == missing;
    }
  }

  // ---------------------------------------------------------------------
  // process_csv

  /** The frame `pd.DataFrame(results)` builds. */
  function FrameOf(records: seq<map<string, string>>): Table {
    Table(ColumnsOf(records), records)
  }

  /** The table `process_csv` writes for the rows of an input file. */
  function OutputTable(rows: seq<map<string, string>>, oracle: Oracle): Table {
    FillRequired(FrameOf(Batch(RunnerOf(oracle), rows, 0).0))
  }

  /** `process_csv`: `input` is the parsed file, `None` when reading it
      failed.  Without a `Product Name` column nothing is called and
      nothing is written; otherwise every row is processed and the filled
      table is written. */
  method ProcessCsv(input: Option<Table>, oracle: Oracle) returns (ok: bool, output: Option<Table>, calls: nat)
    requires input.Some? ==> Loaded(input.value)
    ensures ok <==> input.Some? && "Product Name" in input.value.columns
    ensures !ok ==> output == None && calls == 0
    ensures ok ==> output == Some(OutputTable(input.value.rows, oracle))
                   && calls == Batch(RunnerOf(oracle), input.value.rows, 0).1
  {
    if input.None? || "Product Name" !in input.value.columns {
      return false, None, 0;
    }
    var results, next := ProcessRows(input.value.rows, oracle, 0);
    var finalDf := new Frame.FromRecords(results);
    finalDf.FillRequiredColumns();
    return true, Some(finalDf.Value()), next;
  }

  /** One row written per input row. */
  lemma {:induction false} BatchLength(runner: RowRunner, rows: seq<map<string, string>>, pos: nat)
    ensures |Batch(runner, rows, pos).0| == |rows|
    decreases |rows|
  {
    if rows != [] {
      BatchLength(runner, rows[1..], runner(rows[0], pos).next);
    }
  }

  /** The written table has one row per input row and every required
      column, each row's keys among its columns. */
  lemma OutputTableShape(rows: seq<map<string, string>>, oracle: Oracle)
    ensures var out := OutputTable(rows, oracle);
      && |out.rows| == |rows|
      && WellFormed(out)
      && forall col :: col in RequiredColumns ==> col in out.columns
  {
    var records := Batch(RunnerOf(oracle), rows, 0).0;
    BatchLength(RunnerOf(oracle), rows, 0);
    ColumnsOfKeys(records);
    FillRequiredFacts(FrameOf(records));
  }

  /** When every row succeeds no row has `Food Name` (success rows carry
      `Product Name`), so the step adds `Food Name` as "" to every row. */
  lemma AllSuccessBlankFoodName(records: seq<map<string, string>>)
    requires forall i :: 0 <= i < |records| ==> "Food Name" !in records[i]
    ensures var out := FillRequired(FrameOf(records));
      && out.columns == ColumnsOf(records) + {"Food Name"}
      && |out.rows| == |records|
      && forall i :: 0 <= i < |records| ==>
           out.rows[i] == records[i]["Food Name" := ""]
  {
    var t := FrameOf(records);
    ColumnsOfAbsent(records, "Food Name");
    assert "Food Name" !in t.columns;
    assert MissingColumns(RequiredColumns, t.columns) == ["Food Name"];
    assert DefaultOf("Food Name") == "" by {
      assert "Food Name" !in DefaultValues;
    }
    assert FillRequired(t) == AddColumn(t, "Food Name", "");
  }

  /** When some row is a fallback row the table has `Food Name`, the step
      adds nothing, and the success rows keep no value in it. */
  lemma FallbackKeepsFoodNameColumn(records: seq<map<string, string>>, k: nat)
    requires k < |records| && "Food Name" in records[k]
    ensures FillRequired(FrameOf(records)) == FrameOf(records)
  {
    ColumnsOfKeys(records);
    assert "Food Name" in ColumnsOf(records);
    FillRequiredComplete(FrameOf(records));
  }
}
