/**
  One row of the food-data script: the input it sends to the model
  (`extract_input_data`), the two-call pipeline (`full_pipeline`, with its
  "Unknown" fallbacks), and the two rows `process_csv` may write for it:
  the reconciled row of a successful attempt and the fallback row.
 */
module ServerPipeline {
  import opened Text
  import opened Wrappers
  import opened ModelCalls
  import opened ServerParse

  // ---------------------------------------------------------------------
  // Constants

  /** `REQUIRED_COLUMNS`. */
  const RequiredColumns: seq<string> := ["Food Name"]

  /** `DEFAULT_VALUES`. */
  const DefaultValues: map<string, string> := map[
    "Image Link" := "", "Price" := "0.00", "Currency" := "HKD", "Sizing" := "Medium",
    "Food Type" := "", "Course" := "",
    "Sweetness" := "5", "Saltiness" := "5", "Sourness" := "5", "Bitterness" := "5", "Umami" := "5",
    "Tags" := ""
  ]

  /** The columns a row's own value wins over the base-information reply. */
  const ReconciledColumns: set<string> := {"Price", "Currency", "Sizing", "Food Type", "Course"}

  /** The columns taken from the characteristics reply. */
  const CharacteristicColumns: set<string> := {"Sweetness", "Saltiness", "Sourness", "Bitterness", "Umami", "Tags"}

  /** The keys of a success row. */
  const SuccessColumns: set<string> := {"Product Name", "Image Link"} + ReconciledColumns + CharacteristicColumns

  /** Both prompts interpolate only `{product_name}`. */
  const BaseInfoTemplate: Template := {"product_name"}
  const CharacteristicsTemplate: Template := {"product_name"}

  /** The two keys `full_pipeline` returns. */
  const BaseInfoKey := "base_info_json"
  const CharacteristicsKey := "characteristics_json"

  // ---------------------------------------------------------------------
  // Input of the pipeline

  /** `extract_input_data`: the product name, or "Unknown Wine" when the
      row has no such column. */
  function ExtractInputData(row: map<string, string>): (inputs: map<string, string>)
    ensures inputs.Keys == {"product_name"}
    ensures "Product Name" in row ==> inputs["product_name"] == row["Product Name"]
    ensures "Product Name" !in row ==> inputs["product_name"] == "Unknown Wine"
  {
    map["product_name" := Get(row, "Product Name", "Unknown Wine")]
  }

  /** The inputs supply every variable both prompts use, so neither chain
      raises before calling the model. */
  lemma ExtractedInputsSupplyTemplates(row: map<string, string>)
    ensures BaseInfoTemplate <= ExtractInputData(row).Keys
    ensures CharacteristicsTemplate <= ExtractInputData(row).Keys
  {
  }

  // ---------------------------------------------------------------------
  // The "Unknown" fallbacks of full_pipeline

  /** `v = inputs.get(key, "Unknown")`, replaced by
      `base_info.get(key, "Unknown")` when it is "Unknown". */
  function Sentinel(inputs: map<string, string>, baseInfo: map<string, string>, key: string): string {
    var given := Get(inputs, key, "Unknown");
    if given == "Unknown" then Get(baseInfo, key, "Unknown") else given
  }

  /** The input value is kept unless it is absent or "Unknown"; then the
      base-information value is taken, or "Unknown" when that is absent. */
  lemma SentinelChoice(inputs: map<string, string>, baseInfo: map<string, string>, key: string)
    ensures key in inputs && inputs[key] != "Unknown" ==> Sentinel(inputs, baseInfo, key) == inputs[key]
    ensures (key !in inputs || inputs[key] == "Unknown") && key in baseInfo ==>
      Sentinel(inputs, baseInfo, key) == baseInfo[key]
    ensures (key !in inputs || inputs[key] == "Unknown") && key !in baseInfo ==>
      Sentinel(inputs, baseInfo, key) == "Unknown"
    ensures Sentinel(inputs, baseInfo, key) == "Unknown" <==>
      (key !in inputs || inputs[key] == "Unknown") && (key !in baseInfo || baseInfo[key] == "Unknown")
  {
  }

  /** The inputs `extract_input_data` builds hold only the product name, so
      every fallback the pipeline computes is the base-information value. */
  lemma SentinelOfExtracted(row: map<string, string>, baseInfo: map<string, string>, key: string)
    requires key != "product_name"
    ensures Sentinel(ExtractInputData(row), baseInfo, key) == Get(baseInfo, key, "Unknown")
  {
  }

  /** A reply written as the prompt asks (`Food type: ...`) leaves the food
      type fallback at "Unknown", since the lookup is for `Food Type`. */
  lemma SentinelFoodTypeMissed(row: map<string, string>, value: string)
    requires Trimmed(value) && forall c :: c in value ==> !IsLineBreak(c)
    ensures Sentinel(ExtractInputData(row), ParsePairs("Food type: " + value), "Food Type") == "Unknown"
  {
    FoodTypeKeptVerbatim(value);
  }

  // ---------------------------------------------------------------------
  // full_pipeline

  /** Why an attempt at a row failed. */
  datatype PipelineError =
    | ModelCallFailed                   // a model call raised
    | TemplateRaised(names: set<string>) // a prompt variable was not supplied
    | MissingData                       // the result lacks one of the two keys

  function ErrorOf(out: ChainOutput): PipelineError
    requires !out.Text?
  {
    if out.ModelFailed? then ModelCallFailed else TemplateRaised(out.names)
  }

  /** `full_pipeline(inputs)` started at call number `pos`: the
      base-information call, then the characteristics call; the result
      holds both replies, unparsed. */
  function FullPipeline(inputs: map<string, string>, oracle: Oracle, pos: nat)
    : (r: (Result<map<string, string>, PipelineError>, nat))
  {
    var (base, p1) := Invoke(BaseInfoTemplate, inputs.Keys, oracle, pos);
    if !base.Text? then (Err(ErrorOf(base)), p1)
    else
      var (characteristics, p2) := Invoke(CharacteristicsTemplate, inputs.Keys, oracle, p1);
      if !characteristics.Text? then (Err(ErrorOf(characteristics)), p2)
      else (Ok(map[BaseInfoKey := base.text, CharacteristicsKey := characteristics.text]), p2)
  }

  /** `full_pipeline`, statement by statement: the fallbacks are computed
      from the parsed base information and then discarded. */
  method RunFullPipeline(inputs: map<string, string>, oracle: Oracle, pos: nat)
    returns (result: Result<map<string, string>, PipelineError>, next: nat)
    ensures (result, next) == FullPipeline(inputs, oracle, pos)
  {
    var (base, afterBase) := Invoke(BaseInfoTemplate, inputs.Keys, oracle, pos);
    next := afterBase;
    if !base.Text? {
      return Err(ErrorOf(base)), next;
    }
    var baseInfo := ParseKeyValuePairs(base.text);
    var price := Sentinel(inputs, baseInfo, "Price");
    var currency := Sentinel(inputs, baseInfo, "Currency");
    var foodType := Sentinel(inputs, baseInfo, "Food Type");
    var course := Sentinel(inputs, baseInfo, "Course");
    var (characteristics, afterCharacteristics) := Invoke(CharacteristicsTemplate, inputs.Keys, oracle, next);
    next := afterCharacteristics;
    if !characteristics.Text? {
      return Err(ErrorOf(characteristics)), next;
    }
    result := Ok(map[BaseInfoKey := base.text, CharacteristicsKey := characteristics.text]);
  }

  /** With the extracted inputs, the pipeline succeeds exactly when both
      calls are answered; it then makes two calls and returns both replies
      under both keys, so the key check of `process_csv` never fails.  On
      failure it stops at the first failed call. */
  lemma FullPipelineOutcome(row: map<string, string>, oracle: Oracle, pos: nat)
    ensures var (result, next) := FullPipeline(ExtractInputData(row), oracle, pos);
      && (result.Ok? <==> ReplyAt(oracle, pos).Reply? && ReplyAt(oracle, pos + 1).Reply?)
      && (result.Ok? ==>
            && next == pos + 2
            && result.value.Keys == {BaseInfoKey, CharacteristicsKey}
            && result.value[BaseInfoKey] == ReplyAt(oracle, pos).text
            && result.value[CharacteristicsKey] == ReplyAt(oracle, pos + 1).text)
      && (result.Err? ==>
            && result.error == ModelCallFailed
            && next == (if ReplyAt(oracle, pos).CallError? then pos + 1 else pos + 2)
            && ReplyAt(oracle, next - 1).CallError?)
  {
    ExtractedInputsSupplyTemplates(row);
  }

  // ---------------------------------------------------------------------
  // The two rows process_csv writes

  /** `row.get(col, base_info.get(col, DEFAULT_VALUES[col]))`. */
  function Reconciled(row: map<string, string>, baseInfo: map<string, string>, col: string): string
    requires col in DefaultValues
  {
    Get(row, col, Get(baseInfo, col, DefaultValues[col]))
  }

  /** `characteristics.get(col, DEFAULT_VALUES[col])`. */
  function Characteristic(characteristics: map<string, string>, col: string): string
    requires col in DefaultValues
  {
    Get(characteristics, col, DefaultValues[col])
  }

  /** The value `food_data` gives column `col`. */
  function SuccessValue(row: map<string, string>, baseInfo: map<string, string>, characteristics: map<string, string>,
                        col: string): string
  {
    if col == "Product Name" then Get(row, "Product Name", "")
    else if col == "Image Link" then Get(row, "Image Link", DefaultValues["Image Link"])
    else if col in ReconciledColumns then Reconciled(row, baseInfo, col)
    else if col in CharacteristicColumns then Characteristic(characteristics, col)
    else ""
  }

  /** `food_data`: the row written when an attempt succeeds, the thirteen
      entries of its dictionary display. */
  function SuccessRow(row: map<string, string>, baseInfo: map<string, string>, characteristics: map<string, string>)
    : map<string, string>
  {
    map col | col in SuccessColumns :: SuccessValue(row, baseInfo, characteristics, col)
  }

  /** A success row has exactly the thirteen columns. */
  lemma SuccessRowKeys(row: map<string, string>, baseInfo: map<string, string>, characteristics: map<string, string>)
    ensures SuccessRow(row, baseInfo, characteristics).Keys == SuccessColumns
  {
  }

  /** The required column `Food Name` is not one of them. */
  lemma SuccessRowLacksFoodName(row: map<string, string>, baseInfo: map<string, string>, characteristics: map<string, string>)
    ensures "Food Name" !in SuccessRow(row, baseInfo, characteristics)
  {
  }

  /** The product name and the image link are the row's own, else "". */
  lemma SuccessRowCopies(row: map<string, string>, baseInfo: map<string, string>, characteristics: map<string, string>)
    ensures var r := SuccessRow(row, baseInfo, characteristics);
      && r["Product Name"] == (if "Product Name" in row then row["Product Name"] else "")
      && r["Image Link"] == (if "Image Link" in row then row["Image Link"] else "")
  {
  }

  /** Each reconciled column takes the row's value, else the
      base-information value, else the default. */
  lemma SuccessRowReconciles(row: map<string, string>, baseInfo: map<string, string>, characteristics: map<string, string>)
    ensures var r := SuccessRow(row, baseInfo, characteristics);
      forall col :: col in ReconciledColumns ==>
        && col in r && col in DefaultValues
        && r[col] == if col in row then row[col]
                     else if col in baseInfo then baseInfo[col]
                     else DefaultValues[col]
  {
    var r := SuccessRow(row, baseInfo, characteristics);
    forall col | col in ReconciledColumns
      ensures col in r && col in DefaultValues && r[col] == Reconciled(row, baseInfo, col)
    {
      assert col != "Product Name" && col != "Image Link";
    }
  }

  /** Each characteristic takes the reply's value, else the default. */
  lemma SuccessRowCharacteristics(row: map<string, string>, baseInfo: map<string, string>, characteristics: map<string, string>)
    ensures var r := SuccessRow(row, baseInfo, characteristics);
      forall col :: col in CharacteristicColumns ==>
        && col in r && col in DefaultValues
        && r[col] == if col in characteristics then characteristics[col] else DefaultValues[col]
  {
    var r := SuccessRow(row, baseInfo, characteristics);
    forall col | col in CharacteristicColumns
      ensures col in r && col in DefaultValues && r[col] == Characteristic(characteristics, col)
    {
      assert col != "Product Name" && col != "Image Link" && col !in ReconciledColumns;
    }
  }

  /** A row whose base-information reply says `Food type: ...`, as the
      prompt asks, and which has no `Food Type` column of its own gets the
      empty default food type: the reply's value is never read. */
  lemma SuccessRowMissesFoodType(row: map<string, string>, characteristics: map<string, string>, value: string)
    requires "Food Type" !in row
    requires Trimmed(value) && forall c :: c in value ==> !IsLineBreak(c)
    ensures SuccessRow(row, ParsePairs("Food type: " + value), characteristics)["Food Type"] == ""
  {
    var baseInfo := ParsePairs("Food type: " + value);
    FoodTypeKeptVerbatim(value);
    FoodTypeDefault(row, baseInfo, characteristics);
  }

  /** Without a `Food Type` in the row or the base information, the food
      type is the empty default. */
  lemma FoodTypeDefault(row: map<string, string>, baseInfo: map<string, string>, characteristics: map<string, string>)
    requires "Food Type" !in row && "Food Type" !in baseInfo
    ensures SuccessRow(row, baseInfo, characteristics)["Food Type"] == ""
  {
    assert "Food Type" in ReconciledColumns;
    assert "Food Type" != "Product Name" && "Food Type" != "Image Link" by {
      assert "Food Type"[0] != "Product Name"[0] && "Food Type"[0] != "Image Link"[0];
    }
  }

  /** `basic_data`: the row written after the last failed attempt. */
  function FallbackRow(row: map<string, string>): map<string, string> {
    map col | col in RequiredColumns :: Get(row, col, Get(DefaultValues, col, ""))
  }

  /** The comprehension over the required columns the row has, then the
      loop that adds the missing ones with their defaults. */
  method BuildFallbackRow(row: map<string, string>) returns (basicData: map<string, string>)
    ensures basicData == FallbackRow(row)
  {
    basicData := map col | col in RequiredColumns && col in row :: Get(row, col, "");
    for j := 0 to |RequiredColumns|
      invariant forall col :: col in basicData <==> col in RequiredColumns && (col in row || col in RequiredColumns[..j])
      invariant forall col :: col in basicData ==> basicData[col] == FallbackRow(row)[col]
    {
      var col := RequiredColumns[j];
      if col !in basicData {
        basicData := basicData[col := Get(DefaultValues, col, "")];
      }
    }
  }

  /** A fallback row holds exactly the required column `Food Name`: the
      row's own value when it has that column, else "". */
  lemma FallbackRowColumns(row: map<string, string>)
    ensures FallbackRow(row).Keys == {"Food Name"}
    ensures FallbackRow(row)["Food Name"] == if "Food Name" in row then row["Food Name"] else ""
  {
    assert "Food Name" !in DefaultValues;
  }

  // ---------------------------------------------------------------------
  // One attempt of the retry loop

  /** The body of the `try` in `process_csv`: run the pipeline, check its
      two keys, parse both replies and build the success row. */
  function AttemptRow(row: map<string, string>, inputs: map<string, string>, oracle: Oracle, pos: nat)
    : (r: (Result<map<string, string>, PipelineError>, nat))
  {
    var (result, next) := FullPipeline(inputs, oracle, pos);
    if result.Err? then (Err(result.error), next)
    else if !(BaseInfoKey in result.value && CharacteristicsKey in result.value) then (Err(MissingData), next)
    else
      var characteristics := ParsePairs(result.value[CharacteristicsKey]);
      var baseInfo := ParsePairs(result.value[BaseInfoKey]);
      (Ok(SuccessRow(row, baseInfo, characteristics)), next)
  }

  method TryRow(row: map<string, string>, inputs: map<string, string>, oracle: Oracle, pos: nat)
    returns (result: Result<map<string, string>, PipelineError>, next: nat)
    ensures (result, next) == AttemptRow(row, inputs, oracle, pos)
  {
    var output;
    output, next := RunFullPipeline(inputs, oracle, pos);
    if output.Err? {
      return Err(output.error), next;
    }
    if !(BaseInfoKey in output.value && CharacteristicsKey in output.value) {
      return Err(MissingData), next;
    }
    var characteristics := ParseKeyValuePairs(output.value[CharacteristicsKey]);
    var baseInfo := ParseKeyValuePairs(output.value[BaseInfoKey]);
    result := Ok(SuccessRow(row, baseInfo, characteristics));
  }

  /** The text of call `pos`, "" when it failed. */
  function TextAt(oracle: Oracle, pos: nat): string {
    if ReplyAt(oracle, pos).Reply? then ReplyAt(oracle, pos).text else ""
  }

  /** The success row of the replies to calls `pos` (base information) and
      `pos + 1` (characteristics). */
  function SuccessAt(row: map<string, string>, oracle: Oracle, pos: nat): map<string, string> {
    SuccessRow(row, ParsePairs(TextAt(oracle, pos)), ParsePairs(TextAt(oracle, pos + 1)))
  }

  /** An attempt on a row's extracted inputs succeeds exactly when both
      calls are answered, and then writes the success row of the two
      parsed replies after two calls; otherwise it fails on a model call,
      never on the key check, after one call when the first fails and two
      otherwise. */
  lemma AttemptRowOutcome(row: map<string, string>, oracle: Oracle, pos: nat)
    ensures var (result, next) := AttemptRow(row, ExtractInputData(row), oracle, pos);
      && (result.Ok? <==> ReplyAt(oracle, pos).Reply? && ReplyAt(oracle, pos + 1).Reply?)
      && (result.Ok? ==> next == pos + 2 && result.value == SuccessAt(row, oracle, pos))
      && (result.Err? ==>
            && result.error == ModelCallFailed
            && next == (if ReplyAt(oracle, pos).CallError? then pos + 1 else pos + 2))
  {
    FullPipelineOutcome(row, oracle, pos);
  }
}
