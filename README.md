# Food data pipelines — a verified model

The repository has two batch scripts. Each reads a table of food products and
asks a language model about every row. It turns the model's text replies into
fields and writes one output row per input row.

- `food_web_app_data_pipeline.py` asks for three wine pairings per food and
  for a description and notes for each pairing. It then writes taste
  columns, cleaning every value with `clean_text`.
- `food_ai_server_data_pipeline.py` asks for the base information and the
  taste characteristics of each food. It reconciles them with the row's own
  columns and the defaults, then fills the required columns.

The model is an oracle: a sequence of replies, one per call, each either a text
or a failed call (`ModelCalls`). A chain `template | llm | parser` first checks
that its inputs supply every variable of the template. When they do not, it
raises before calling the model. Otherwise it consumes the next reply.
A table is a sequence of rows, each a map from column to value.

Modules, following the two scripts:

| module | file | models |
|---|---|---|
| `Text` | text.dfy | `str.strip`, `split`, `splitlines`, `join`, `isspace` |
| `KeyValue` | keyvalue.dfy | "key: value" lines, last key wins |
| `ModelCalls` | model_calls.dfy | the language model as an oracle; invoking a chain |
| `WebText` | web_text.dfy | `parse_keyval_response`, `clean_text` |
| `WebPairing` | web_pairing.dfy | `extract_food_data`, `process_single_pairing`, `process_food_info` |
| `WebBatch` | web_batch.dfy | `process_wine_csv` |
| `ServerParse` | server_parse.dfy | `parse_key_value_pairs` |
| `ServerPipeline` | server_pipeline.dfy | `extract_input_data`, `full_pipeline`, the two rows `process_csv` writes |
| `ServerBatch` | server_batch.dfy | `process_csv`: guard, retry loop, results, required-column fill |

Loops of the scripts are methods with loop invariants, each proved equal to a
specification function: `ParseKeyvalResponse`, `ParseKeyValuePairs`,
`ProcessSinglePairing`, `ProcessFoodInfo`, the `RunRow`, `ProcessRows`,
`BuildFallbackRow` and `ProcessWineCsv`/`ProcessCsv` methods. The lemmas then
prove properties of those functions. The pandas frame that
`process_csv` changes in place is the class `ServerBatch.Frame`.

Behaviour of the scripts that a reader may not expect:

- A template variable that the inputs lack is not a fatal start-up error.
  The `KeyError` is raised inside the retry loop's `try`, so the row is
  retried and then written as a fallback row (`WebBatch.AsWrittenFallsBack`).
- In the server script the row's own value always wins over the reply, even
  when that value is "Unknown". The "Unknown" rule of `full_pipeline` is
  computed and then discarded (`ServerPipeline.SentinelChoice`,
  `ServerPipeline.SuccessRowReconciles`).
- The required column `Food Name` is not present in every output row.
  Success rows carry `Product Name` instead. When any row fell back, the
  column exists and the fill step adds nothing, so the success rows keep no
  value in it (`ServerBatch.FallbackKeepsFoodNameColumn`).
- When a row has no product name, the server inputs hold "Unknown Wine", not "Unknown".

## Model

| member | source | states |
|---|---|---|
| `ModelCalls.Invoke` | food_web_app_data_pipeline.py:146 | a chain makes one model call exactly when the inputs supply every template variable; otherwise it raises with the missing names and makes no call; the text is the reply to that call |
| `KeyValue.SplitEntryShape` | food_ai_server_data_pipeline.py:178-183 | a line gives an entry iff it holds a colon; the key holds no colon; key and value are trimmed and are made of the line's characters |
| `KeyValue.LastWinsFromEntries` | food_ai_server_data_pipeline.py:183 | every key of the dictionary comes from some line, with that line's value |
| `KeyValue.LastWinsLatest` | food_web_app_data_pipeline.py:356 | for a repeated key, the value of the last line with that key wins |
| `Text.SplitLines` | food_ai_server_data_pipeline.py:175 | `splitlines` yields lines without any line-break character |
| `Text.JoinThenSplitLines` | food_ai_server_data_pipeline.py:175 | `splitlines` of non-empty break-free lines joined by "\n" gives back those lines |
| `Text.StripKeeps` | food_web_app_data_pipeline.py:325 | `strip` keeps every non-whitespace character, adds none, and gives "" exactly for all-whitespace text |
| `WebText.ParseKeyvalResponse` | food_web_app_data_pipeline.py:320-358 | the method strips the reply, removes one wrapping pair of fences or comment marks, and builds the dictionary of the lines' entries, the last occurrence of a key winning |
| `WebText.ParseKeyvalShape` | food_web_app_data_pipeline.py:346-351 | every key has no colon and no space; every value is trimmed and has no "\n" |
| `WebText.ParseKeyvalBlank` | food_web_app_data_pipeline.py:325 | empty or whitespace-only text gives the empty dictionary |
| `WebText.KeyvalEntryShape` | food_web_app_data_pipeline.py:341-351 | a line gives an entry iff it has a colon; the key then holds no colon and no space, and the value is trimmed with no line break |
| `WebText.UnwrapFence` | food_web_app_data_pipeline.py:328-329 | text wrapped in a pair of ``` fences loses exactly that pair |
| `WebText.UnwrapCommentMarks` | food_web_app_data_pipeline.py:330-331 | text wrapped in a pair of `*/` marks loses exactly that pair |
| `WebText.UnwrapUnmarked` | food_web_app_data_pipeline.py:328-331 | text not both starting and ending with a marker is left unchanged |
| `WebText.ParseKeyvalRendered` | food_web_app_data_pipeline.py:320-358 | for any list of entries (empty included) whose keys have no colon, space or newline, whose values have no newline and whose parts are trimmed, parsing their "key: value" lines gives the last-wins dictionary of those entries, unless the first key opens and the last value closes with the same wrapping mark (three backticks, or `*/`) |
| `WebText.CleanText` | food_web_app_data_pipeline.py:360-371 | the result holds only alphanumerics and the kept punctuation, with no leading, trailing or doubled space |
| `WebText.CleanTextOfClean` | food_web_app_data_pipeline.py:366-369 | text that is already clean is returned unchanged |
| `WebText.CleanTextKeeps` | food_web_app_data_pipeline.py:366-369 | the non-whitespace characters of the result are exactly the letters, digits and kept punctuation of the text, in their order; the result is "" iff the text has none |
| `WebText.CleanTextIdempotent` | food_web_app_data_pipeline.py:360-371 | cleaning twice is cleaning once |
| `WebText.CleanCell` | food_web_app_data_pipeline.py:362-363 | a non-string cell is returned unchanged; a string cell comes back clean |
| `WebText.CleanCellIdempotent` | food_web_app_data_pipeline.py:360-371 | cleaning a cell twice is cleaning it once |
| `WebPairing.ExtractFoodData` | food_web_app_data_pipeline.py:293-318 | exactly the nine food variables, and no `sweetness_dry` |
| `WebPairing.ExtractFoodDataFields` | food_web_app_data_pipeline.py:296-304 | each variable is the row's cell for its column, else its default |
| `WebPairing.GatePairwiseDistinct` | food_web_app_data_pipeline.py:258-267 | the gate passes iff the three (pairing, type, course) triples are pairwise distinct, missing keys read as "" |
| `WebPairing.GateNeedsItsKeys` | food_web_app_data_pipeline.py:258-267 | a reply with none of the gate's keys always fails the gate |
| `WebPairing.PromptedAnswerFailsGate` | food_web_app_data_pipeline.py:91-110 | a reply holding only the keys the prompt asks for (`Wine_Name_i`, ...) never passes the gate, which reads `Food_Pairing_i` |
| `WebPairing.SuffixedEntries` | food_web_app_data_pipeline.py:239-242 | every entry reappears under its key with suffix `_n` |
| `WebPairing.SuffixedKeys` | food_web_app_data_pipeline.py:239-242 | every key of the result ends in `_n`; the result is empty iff the input is |
| `WebPairing.MergedFacts` | food_web_app_data_pipeline.py:238-244 | a per-pairing result holds every notes entry, and every description entry whose key notes lacks, all suffixed; it is empty iff both replies parse to nothing |
| `WebPairing.SinglePairingCalls` | food_web_app_data_pipeline.py:225-248 | a pairing gives a result iff its templates are supplied and both calls are answered; it makes at most two calls |
| `WebPairing.SinglePairingValue` | food_web_app_data_pipeline.py:229-244 | a result is the merge of the parsed description and notes replies under suffix `_n` |
| `WebPairing.ProcessSinglePairing` | food_web_app_data_pipeline.py:225-248 | the method computes the pairing's result, `None` on any exception |
| `WebPairing.ProcessFoodInfo` | food_web_app_data_pipeline.py:250-289 | the method computes `process_food_info`: first call, gate, then three pairings merged in |
| `WebPairing.ChainCalls` | food_web_app_data_pipeline.py:272-283 | each of the remaining pairings makes two calls; a failure names a pairing from 1 to 3 |
| `WebPairing.ChainKeys` | food_web_app_data_pipeline.py:276-279 | `result.update` keeps every first-stage key and adds only suffixed pairing keys |
| `WebPairing.FoodInfoShape` | food_web_app_data_pipeline.py:250-289 | at most seven calls; a success makes exactly seven, passed the gate, and extends the first-stage map with suffixed pairing keys only |
| `WebPairing.AsWrittenRaisesBeforeAnyCall` | food_web_app_data_pipeline.py:83 | with the templates as written, `process_food_info` raises for the missing `sweetness_dry` before any call |
| `WebPairing.IntendedTemplatesSupplied` | food_web_app_data_pipeline.py:293-304 | with `{sweetness}` in place of `{sweetness_dry}`, the food data supply every template |
| `WebPairing.IntendedSucceeds` | food_web_app_data_pipeline.py:250-289 | with those templates, an answered first call that passes the gate and six answered pairing calls give a success after seven calls |
| `WebBatch.BuildSuccessRow` | food_web_app_data_pipeline.py:417-429 | the loop builds the success row: every column cleaned, then the taste columns of the three pairings |
| `WebBatch.BuildFallbackRow` | food_web_app_data_pipeline.py:446-450 | the loop builds the fallback row: every column cleaned, then every pairing column |
| `WebBatch.SuccessRowCells` | food_web_app_data_pipeline.py:417-426 | a success row holds `Taste i` = cleaned `Taste_i` reply value or "" for each taste and pairing, every other input column cleaned, and nothing else |
| `WebBatch.FallbackRowCells` | food_web_app_data_pipeline.py:446-450 | a fallback row holds every pairing column as "", every other input column cleaned, and nothing else |
| `WebBatch.SuccessRowClean` | food_web_app_data_pipeline.py:417-426 | every string in a success row is clean |
| `WebBatch.FallbackRowClean` | food_web_app_data_pipeline.py:446-450 | every string in a fallback row is clean |
| `WebBatch.RunRow` | food_web_app_data_pipeline.py:396-452 | one row's retry loop computes the row's run: written row, next call, attempts |
| `WebBatch.Retry` | food_web_app_data_pipeline.py:402-452 | the `while` loop stops at the first success or after three failures |
| `WebBatch.RetryRowShape` | food_web_app_data_pipeline.py:402-452 | one to three attempts of at most seven calls each; the row is the success row of the result returned by the run that ended the loop, or the fallback row after three attempts, the third of which raised |
| `WebBatch.FailingModelFallsBack` | food_web_app_data_pipeline.py:433-452 | when every call fails, three attempts of one call each end in the fallback row |
| `WebBatch.AsWrittenFallsBack` | food_web_app_data_pipeline.py:83 | with the templates as written, every row falls back after three attempts and no call |
| `WebBatch.IntendedFirstTry` | food_web_app_data_pipeline.py:406-431 | with the intended templates and a fully answered first attempt, the row is the success row after seven calls |
| `WebBatch.RunRowShape` | food_web_app_data_pipeline.py:396-452 | every row's loop has the shape above, with `process_food_info` on the row's extracted data as the pipeline: the success row is built from the result it returned from the model's replies in the last run |
| `WebBatch.ProcessRows` | food_web_app_data_pipeline.py:396-452 | the loop over rows appends each row's written row in input order |
| `WebBatch.BatchShape` | food_web_app_data_pipeline.py:396-452 | one output row per input row, in order, with at most 21 calls per row |
| `WebBatch.ProcessedRows` | food_web_app_data_pipeline.py:396-452 | each output row is the fallback row of the input row at the same index, or the success row of a result `process_food_info` returned for that row's data from the model's replies |
| `WebBatch.BatchAllFallback` | food_web_app_data_pipeline.py:443-452 | when every row's loop falls back without calls, so does the whole file |
| `WebBatch.AsWrittenBatch` | food_web_app_data_pipeline.py:83 | with the templates as written, every output row is the fallback row and no call is made |
| `WebBatch.ProcessedRowsCarryInput` | food_web_app_data_pipeline.py:417 | every output row is clean and carries every other input column cleaned |
| `WebBatch.CleanedRowOfClean` | food_web_app_data_pipeline.py:458-460 | the final clean pass leaves a clean row unchanged |
| `WebBatch.FinalClean` | food_web_app_data_pipeline.py:458-460 | the final pass cleans every row |
| `WebBatch.ProcessWineCsv` | food_web_app_data_pipeline.py:381-465 | for a loaded table (a cell in every column of every row), an unreadable file gives false and no rows; otherwise true and the batch's rows |
| `ServerParse.ParseKeyValuePairs` | food_ai_server_data_pipeline.py:172-185 | the loop builds the dictionary of the `splitlines` lines' entries, the last occurrence of a key winning |
| `ServerParse.ParsePairsShape` | food_ai_server_data_pipeline.py:177-183 | every key has no colon; keys and values are trimmed and hold no line break |
| `ServerParse.ParsePairsNoColon` | food_ai_server_data_pipeline.py:178-181 | text without a colon, blank text included, gives the empty dictionary |
| `ServerParse.ParsePairsRendered` | food_ai_server_data_pipeline.py:172-185 | parsing "Key: value" lines gives back the last-wins dictionary with keys exactly as written, inner spaces and case kept |
| `ServerParse.FoodTypeKeptVerbatim` | food_ai_server_data_pipeline.py:78 | the reply line `Food type: v` gives key `Food type`, so `Food Type` is not a key |
| `ServerPipeline.ExtractInputData` | food_ai_server_data_pipeline.py:165-170 | the inputs are exactly `product_name`: the row's product name, else "Unknown Wine" |
| `ServerPipeline.ExtractedInputsSupplyTemplates` | food_ai_server_data_pipeline.py:124 | both prompts' variables are supplied, so neither chain raises before calling |
| `ServerPipeline.SentinelChoice` | food_ai_server_data_pipeline.py:128-142 | an input value other than "Unknown" is kept; otherwise the base-information value, or "Unknown" when it is absent; the result is "Unknown" iff both are absent or "Unknown" |
| `ServerPipeline.SentinelOfExtracted` | food_ai_server_data_pipeline.py:128-142 | on the extracted inputs every fallback is the base-information value, or "Unknown" |
| `ServerPipeline.SentinelFoodTypeMissed` | food_ai_server_data_pipeline.py:136-138 | a reply following the prompt leaves the food type fallback "Unknown" |
| `ServerPipeline.RunFullPipeline` | food_ai_server_data_pipeline.py:122-161 | the method computes `full_pipeline`: base-information call, discarded fallbacks, characteristics call |
| `ServerPipeline.FullPipelineOutcome` | food_ai_server_data_pipeline.py:122-161 | a success iff both calls are answered; it then holds exactly both keys with both replies after two calls; a failure stops at the first failed call |
| `ServerPipeline.SuccessRowKeys` | food_ai_server_data_pipeline.py:238-257 | a success row has exactly the thirteen columns |
| `ServerPipeline.SuccessRowLacksFoodName` | food_ai_server_data_pipeline.py:240 | a success row has no `Food Name` column |
| `ServerPipeline.SuccessRowCopies` | food_ai_server_data_pipeline.py:240-241 | the product name and image link are the row's own, else "" |
| `ServerPipeline.SuccessRowReconciles` | food_ai_server_data_pipeline.py:244-248 | price, currency, sizing, food type and course: the row's value, else the base-information value, else the default |
| `ServerPipeline.SuccessRowCharacteristics` | food_ai_server_data_pipeline.py:251-256 | the five tastes and tags: the characteristics value, else the default |
| `ServerPipeline.SuccessRowMissesFoodType` | food_ai_server_data_pipeline.py:247 | for a row with no `Food Type` column, a `Food type: v` reply still gives food type "" |
| `ServerPipeline.BuildFallbackRow` | food_ai_server_data_pipeline.py:273-276 | the comprehension and loop build the fallback row |
| `ServerPipeline.FallbackRowColumns` | food_ai_server_data_pipeline.py:273-276 | a fallback row holds exactly `Food Name`: the row's own value, else "" |
| `ServerPipeline.TryRow` | food_ai_server_data_pipeline.py:224-257 | the `try` body: pipeline, key check, both parses, success row |
| `ServerPipeline.AttemptRowOutcome` | food_ai_server_data_pipeline.py:224-257 | an attempt succeeds iff both calls are answered, and then writes the success row of both parsed replies; the key check never fails; a failure makes one call when the first fails, else two |
| `ServerBatch.RunRow` | food_ai_server_data_pipeline.py:217-277 | extracts the row's inputs and runs its retry loop; the result is the row's run: written row, next call, attempts |
| `ServerBatch.Retry` | food_ai_server_data_pipeline.py:219-277 | the `while` loop stops at the first success or after three failures, writing the success row or the fallback row |
| `ServerBatch.RetryRowShape` | food_ai_server_data_pipeline.py:223-277 | one to three attempts of one or two calls; the row is the fallback after three failures, or else the success row of the last two replies |
| `ServerBatch.RunRowShape` | food_ai_server_data_pipeline.py:217-277 | each row gets one to three attempts and one to six calls, and one row is written: the fallback or the success row of the last two replies |
| `ServerBatch.RunRowFirstTry` | food_ai_server_data_pipeline.py:224-259 | two answered calls give the success row after one attempt |
| `ServerBatch.RunRowAllFail` | food_ai_server_data_pipeline.py:264-277 | three failing calls give the fallback row after three attempts, with no fourth attempt |
| `ServerBatch.ProcessRows` | food_ai_server_data_pipeline.py:212-277 | the loop over rows appends each row's written row in input order |
| `ServerBatch.BatchShape` | food_ai_server_data_pipeline.py:212-277 | one output row per input row, in order, with one to six calls per row, so a failing row never stops the batch |
| `ServerBatch.ProcessedRows` | food_ai_server_data_pipeline.py:212-277 | each output row is the fallback or a success row of the input row at the same index |
| `ServerBatch.BatchLength` | food_ai_server_data_pipeline.py:212-277 | exactly one row is appended per input row |
| `ServerBatch.ColumnsOfKeys` | food_ai_server_data_pipeline.py:280 | every key of every result row is a column of the frame |
| `ServerBatch.ColumnsOfAbsent` | food_ai_server_data_pipeline.py:280 | a key no row has is not a column |
| `ServerBatch.MissingColumns` | food_ai_server_data_pipeline.py:283 | exactly the required columns the frame lacks |
| `ServerBatch.FillColumnsShape` | food_ai_server_data_pipeline.py:287-288 | filling adds exactly the listed columns and keeps the number of rows |
| `ServerBatch.FillColumnsRow` | food_ai_server_data_pipeline.py:287-288 | in every row each filled column holds its default and every other key is untouched |
| `ServerBatch.FillRequiredFacts` | food_ai_server_data_pipeline.py:283-290 | afterwards every required column is a column; only missing ones were added, with their default in every row; existing columns are untouched |
| `ServerBatch.FillRequiredComplete` | food_ai_server_data_pipeline.py:283-290 | a frame with every required column is unchanged |
| `ServerBatch.Frame.FromRecords` | food_ai_server_data_pipeline.py:280 | the frame's columns are every row's keys |
| `ServerBatch.Frame.SetColumn` | food_ai_server_data_pipeline.py:288 | the column is added and set in every row |
| `ServerBatch.Frame.FillRequiredColumns` | food_ai_server_data_pipeline.py:283-290 | the frame becomes the filled frame |
| `ServerBatch.ProcessCsv` | food_ai_server_data_pipeline.py:195-295 | for a loaded table (a cell in every column of every row), true iff the file was read and has `Product Name`; otherwise no call is made and nothing is written; on success the filled table of the batch's rows |
| `ServerBatch.OutputTableShape` | food_ai_server_data_pipeline.py:280-290 | the written table has one row per input row and every required column |
| `ServerBatch.AllSuccessBlankFoodName` | food_ai_server_data_pipeline.py:280-288 | when no row has `Food Name` (as when every row succeeded, since success rows carry `Product Name`), the fill adds the `Food Name` column and sets it to "" in every row, changing nothing else |
| `ServerBatch.FallbackKeepsFoodNameColumn` | food_ai_server_data_pipeline.py:273-290 | when some row fell back, the fill changes nothing, so the success rows have no `Food Name` value |

## Left out

- Setting up the model client, the Bedrock/LangChain objects and the prompt wording. A chain is modelled by the variables its template uses, and each call takes the next oracle reply.
- Reading and writing CSV files, `os.makedirs`, pandas dtypes and the order of the output columns. A loaded input table has a cell in every column of every row, so `row.get` always finds a column of the file. A NaN input cell is a non-string cell in the web script and a string in the server script (see below). In an output frame built from a list of rows, a row without a value for a column stands for pandas' NaN; the server's output frame keeps its columns as a set.
- `time.sleep`, every `print`, `load_dotenv` and the `__main__` blocks.
- `str.isalnum` is modelled on ASCII letters and digits only. `str.isspace` and `splitlines` use the characters Python treats as whitespace or line breaks.
- `WebBatch.FinalClean`: the pass over object-dtype columns is modelled row by row. The result is the same, because cleaning leaves non-strings unchanged.
- The server script's row values are modelled as strings, so a non-string cell (a number or NaN read by pandas) is not distinguished there.
- The commented-out description chain and columns.

## Findings

| source | as written | input that shows it | evidently intended | confidence | as-written member | corrected member |
|---|---|---|---|---|---|---|
| food_web_app_data_pipeline.py:83 | all three templates interpolate `{sweetness_dry}`, which `extract_food_data` does not supply, so every first call raises `KeyError` before reaching the model, and every row is written as the fallback row | any row, any replies | the templates interpolate `{sweetness}`, which `extract_food_data` does supply | high, not executed | `WebPairing.AsWrittenRaisesBeforeAnyCall`, `WebBatch.AsWrittenBatch` | `WebPairing.IntendedSucceeds`, `WebBatch.IntendedFirstTry` |
