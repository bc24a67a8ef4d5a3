/**
  The pairing pipeline of the wine-pairing script: `extract_food_data`,
  which supplies the prompt variables, and the `process_food_info` /
  `process_single_pairing` pair that `create_food_pairing_chains` returns.
  One call proposes three pairings; a gate insists that they are
  distinct; two further calls per pairing are parsed and merged into the
  first answer under a `_<n>` key suffix.
 */
module WebPairing {
  import opened Text
  import opened Wrappers
  import opened ModelCalls
  import opened WebText

  // ---------------------------------------------------------------------
  // extract_food_data

  /** `row.get(column, default)` on a row of the input table. */
  function CellOr(row: map<string, Cell>, column: string, default: string): Cell {
    if column in row then row[column] else Str(default)
  }

  /** The variables `extract_food_data` fills: the variable, the column it
      is read from, and the value used when the row has no such column. */
  const FoodFields: seq<(string, string, string)> := [
    ("product_name", "Product Name", "Unknown Food"),
    ("food_type", "Food Type", "Unknown Food Type"),
    ("course", "Course", "Unknown Food Course"),
    ("sweetness", "Sweetness", "Unknown"),
    ("saltiness", "Saltiness", "Unknown"),
    ("sourness", "Sourness", "Unknown"),
    ("bitterness", "Bitterness", "Unknown"),
    ("umami", "Umami", "Unknown"),
    ("tags", "Tags", "Unknown")
  ]

  const FoodVariables: set<string> :=
    {"product_name", "food_type", "course", "sweetness", "saltiness", "sourness", "bitterness", "umami", "tags"}

  /** `extract_food_data`: exactly the nine variables of `FoodFields`, each
      the row's cell for its column or else its default. */
  function ExtractFoodData(row: map<string, Cell>): (data: map<string, Cell>)
    ensures data.Keys == FoodVariables
  {
    map[
      "product_name" := CellOr(row, "Product Name", "Unknown Food"),
      "food_type" := CellOr(row, "Food Type", "Unknown Food Type"),
      "course" := CellOr(row, "Course", "Unknown Food Course"),
      "sweetness" := CellOr(row, "Sweetness", "Unknown"),
      "saltiness" := CellOr(row, "Saltiness", "Unknown"),
      "sourness" := CellOr(row, "Sourness", "Unknown"),
      "bitterness" := CellOr(row, "Bitterness", "Unknown"),
      "umami" := CellOr(row, "Umami", "Unknown"),
      "tags" := CellOr(row, "Tags", "Unknown")
    ]
  }

  /** Each variable holds the row's cell for its column, or else its
      default. */
  lemma ExtractFoodDataFields(row: map<string, Cell>)
    ensures forall f :: f in FoodFields ==> f.0 in ExtractFoodData(row) && ExtractFoodData(row)[f.0] == CellOr(row, f.1, f.2)
  {
    var data := ExtractFoodData(row);
    assert data["tags"] == CellOr(row, "Tags", "Unknown");
    assert data["umami"] == CellOr(row, "Umami", "Unknown");
    assert data["bitterness"] == CellOr(row, "Bitterness", "Unknown");
    assert data["sourness"] == CellOr(row, "Sourness", "Unknown");
    assert data["saltiness"] == CellOr(row, "Saltiness", "Unknown");
    assert data["sweetness"] == CellOr(row, "Sweetness", "Unknown");
    assert data["course"] == CellOr(row, "Course", "Unknown Food Course");
    assert data["food_type"] == CellOr(row, "Food Type", "Unknown Food Type");
    assert data["product_name"] == CellOr(row, "Product Name", "Unknown Food");
  }

  // ---------------------------------------------------------------------
  // The three prompt templates

  /** The three chains' templates, by the variables each interpolates. */
  datatype Templates = Templates(pairings: Template, description: Template, notes: Template)

  /** The food variables every prompt shows, besides a sweetness. */
  const SharedVariables: set<string> := {"product_name", "food_type", "saltiness", "sourness", "bitterness", "umami"}

  /** The templates as written: each shows `{sweetness_dry}`. */
  const AsWrittenTemplates: Templates := Templates(
    SharedVariables + {"sweetness_dry"},
    SharedVariables + {"sweetness_dry", "wine_pairing"},
    SharedVariables + {"sweetness_dry", "wine_pairing"})

  /** The templates with the sweetness variable `extract_food_data`
      supplies, `{sweetness}`. */
  const IntendedTemplates: Templates := Templates(
    SharedVariables + {"sweetness"},
    SharedVariables + {"sweetness", "wine_pairing"},
    SharedVariables + {"sweetness", "wine_pairing"})

  /** How `process_food_info` fails: a template variable the inputs lack
      (`KeyError`), a failed model call, the gate, or a pairing whose
      processing gave nothing. */
  datatype ChainError =
    | MissingInputs(names: set<string>)
    | CallFailed
    | NotDistinct
    | PairingFailed(pairing: nat)

  // ---------------------------------------------------------------------
  // The distinctness gate

  /** `f"{name}_{i}"`. */
  function Numbered(name: string, i: nat): string {
    name + Suffix(i)
  }

  /** `f"_{n}"`. */
  function Suffix(n: nat): string {
    "_" + Numeral(n)
  }

  /** `(Food_Pairing_i, Pairing_Type_i, Course_i)`, a missing key read as
      the empty string. */
  function Triple(d: map<string, string>, i: nat): (string, string, string) {
    (Get(d, Numbered("Food_Pairing", i), ""), Get(d, Numbered("Pairing_Type", i), ""), Get(d, Numbered("Course", i), ""))
  }

  /** The first answer passes unless `len(set(pairings)) < 3`. */
  predicate PassesGate(d: map<string, string>) {
    |{Triple(d, 1), Triple(d, 2), Triple(d, 3)}| >= 3
  }

  /** The gate passes exactly when the three triples are pairwise distinct. */
  lemma GatePairwiseDistinct(d: map<string, string>)
    ensures PassesGate(d) <==>
      Triple(d, 1) != Triple(d, 2) && Triple(d, 2) != Triple(d, 3) && Triple(d, 1) != Triple(d, 3)
  {
    var a, b, c := Triple(d, 1), Triple(d, 2), Triple(d, 3);
    if a == b {
      assert {a, b, c} == {a, c};
    } else if b == c {
      assert {a, b, c} == {a, b};
    } else if a == c {
      assert {a, b, c} == {a, b};
    } else {
      assert |{a, b, c}| == |{a, b}| + 1;
    }
  }

  /** An answer without any of the nine keys the gate reads never passes. */
  lemma GateNeedsItsKeys(d: map<string, string>)
    requires forall i :: 1 <= i <= 3 ==>
      Numbered("Food_Pairing", i) !in d && Numbered("Pairing_Type", i) !in d && Numbered("Course", i) !in d
    ensures !PassesGate(d)
  {
    assert Triple(d, 1) == Triple(d, 2) == Triple(d, 3) == ("", "", "");
    assert {Triple(d, 1), Triple(d, 2), Triple(d, 3)} == {("", "", "")};
  }

  /** The keys the first prompt asks the model for. */
  const PromptedKeys: set<string> := {
    "Wine_Name_1", "Tasting_Notes_1", "Suitability_1", "Grape_Food_Type_1", "Sweetness_Spiciness_1", "Minerality_Freshness_1",
    "Wine_Name_2", "Tasting_Notes_2", "Suitability_2", "Grape_Food_Type_2", "Sweetness_Spiciness_2", "Minerality_Freshness_2",
    "Wine_Name_3", "Tasting_Notes_3", "Suitability_3", "Grape_Food_Type_3", "Sweetness_Spiciness_3", "Minerality_Freshness_3"
  }

  /** Every key the first prompt asks for starts with one of these letters;
      none of the keys the gate reads does. */
  lemma PromptedKeysInitials()
    ensures forall k :: k in PromptedKeys ==> k != [] && (k[0] == 'W' || k[0] == 'T' || k[0] == 'S' || k[0] == 'G' || k[0] == 'M')
  {
  }

  /** A first answer that holds only the keys its prompt asks for never
      passes the gate, which reads other keys. */
  lemma PromptedAnswerFailsGate(d: map<string, string>)
    requires d.Keys <= PromptedKeys
    ensures !PassesGate(d)
  {
    PromptedKeysInitials();
    forall i | 1 <= i <= 3
      ensures Numbered("Food_Pairing", i) !in d && Numbered("Pairing_Type", i) !in d && Numbered("Course", i) !in d
    {
      assert Numbered("Food_Pairing", i)[0] == 'F';
      assert Numbered("Pairing_Type", i)[0] == 'P';
      assert Numbered("Course", i)[0] == 'C';
    }
    GateNeedsItsKeys(d);
  }

  // ---------------------------------------------------------------------
  // process_single_pairing

  /** `{f"{key}_{n}": value for key, value in m.items()}`, for the suffix
      `_<n>`: the entries of `m` written one at a time, each under its key
      followed by the suffix. */
  ghost function Suffixed(m: map<string, string>, suffix: string): (r: map<string, string>)
    decreases |m|
  {
    if m == map[] then map[]
    else
      var k :| k in m;
      Suffixed(m - {k}, suffix)[k + suffix := m[k]]
  }

  lemma SuffixInjective(suffix: string)
    ensures forall a, b :: a + suffix == b + suffix ==> a == b
  {
    forall a, b | a + suffix == b + suffix ensures a == b {
      assert a == (a + suffix)[..|a|];
      assert b == (b + suffix)[..|b|];
    }
  }

  /** Every entry of `m` is in the suffixed map, under its key followed by
      the suffix. */
  lemma {:induction false} SuffixedEntries(m: map<string, string>, suffix: string)
    ensures forall k :: k in m ==> k + suffix in Suffixed(m, suffix) && Suffixed(m, suffix)[k + suffix] == m[k]
    decreases |m|
  {
    if m != map[] {
      var k :| k in m && Suffixed(m, suffix) == Suffixed(m - {k}, suffix)[k + suffix := m[k]];
      SuffixedEntries(m - {k}, suffix);
      SuffixInjective(suffix);
    }
  }

  /** Nothing else is in it: every key is a key of `m` followed by the
      suffix; it is empty exactly when `m` is. */
  lemma {:induction false} SuffixedKeys(m: map<string, string>, suffix: string)
    ensures forall key :: key in Suffixed(m, suffix) ==> exists k :: k in m && key == k + suffix
    ensures Suffixed(m, suffix) == map[] <==> m == map[]
    decreases |m|
  {
    if m != map[] {
      var k :| k in m && Suffixed(m, suffix) == Suffixed(m - {k}, suffix)[k + suffix := m[k]];
      SuffixedKeys(m - {k}, suffix);
      assert k + suffix in Suffixed(m, suffix);
    }
  }

  /** The two parsed answers of one pairing merged under one suffix, the
      notes written last. */
  ghost function Merged(description: map<string, string>, notes: map<string, string>, suffix: string): map<string, string> {
    Suffixed(description, suffix) + Suffixed(notes, suffix)
  }

  /** Every key of the merge is a key of one of the two answers followed by
      the suffix; the notes value wins over the description value; the
      merge is empty exactly when both answers are. */
  lemma MergedFacts(description: map<string, string>, notes: map<string, string>, suffix: string)
    ensures var r := Merged(description, notes, suffix);
      && (forall key :: key in r ==> exists k :: (k in description || k in notes) && key == k + suffix)
      && (forall k :: k in notes ==> k + suffix in r && r[k + suffix] == notes[k])
      && (forall k :: k in description && k !in notes ==> k + suffix in r && r[k + suffix] == description[k])
      && (r == map[] <==> description == map[] && notes == map[])
  {
    var d := Suffixed(description, suffix);
    var e := Suffixed(notes, suffix);
    SuffixedKeys(description, suffix);
    SuffixedKeys(notes, suffix);
    SuffixedEntries(description, suffix);
    SuffixedEntries(notes, suffix);
    forall k | k in description && k !in notes ensures k + suffix !in e {
      if k + suffix in e {
        var k' :| k' in notes && k + suffix == k' + suffix;
        SuffixInjective(suffix);
      }
    }
    if d != map[] {
      var key :| key in d;
      assert key in d + e;
    }
  }

  /** What `process_single_pairing` returns, and the next call number: a
      description call and a notes call with the same inputs, their parsed
      answers merged under the suffix `_<n>`; `None` when either call
      raises. */
  ghost function SinglePairing(t: Templates, pairingData: map<string, Cell>, n: nat, oracle: Oracle, pos: nat)
    : (r: (Option<map<string, string>>, nat))
  {
    var (description, p1) := Invoke(t.description, pairingData.Keys, oracle, pos);
    if !description.Text? then (None, p1)
    else
      var (notes, p2) := Invoke(t.notes, pairingData.Keys, oracle, p1);
      if !notes.Text? then (None, p2)
      else (Some(Merged(ParseKeyval(description.text), ParseKeyval(notes.text), Suffix(n))), p2)
  }

  /** A processed pairing takes calls `pos` and `pos + 1`; it is `None`
      exactly when a template variable is missing or one of the two calls
      did not give text. */
  lemma SinglePairingCalls(t: Templates, pairingData: map<string, Cell>, n: nat, oracle: Oracle, pos: nat)
    ensures var (r, next) := SinglePairing(t, pairingData, n, oracle, pos);
      && pos <= next <= pos + 2
      && (r.Some? <==>
            && t.description <= pairingData.Keys && t.notes <= pairingData.Keys
            && ReplyAt(oracle, pos).Reply? && ReplyAt(oracle, pos + 1).Reply?)
      && (r.Some? ==> next == pos + 2)
  {
  }

  /** A processed pairing is the merge of the parsed answers to call `pos`
      (the description) and call `pos + 1` (the notes). */
  lemma SinglePairingValue(t: Templates, pairingData: map<string, Cell>, n: nat, oracle: Oracle, pos: nat)
    ensures var (r, next) := SinglePairing(t, pairingData, n, oracle, pos);
      r.Some? ==> r.value == Merged(ParseKeyval(ReplyAt(oracle, pos).text), ParseKeyval(ReplyAt(oracle, pos + 1).text), Suffix(n))
  {
  }

  /** `result[f"{key}_{n}"] = value` for every entry of `m`, in any order. */
  method PutSuffixed(into: map<string, string>, m: map<string, string>, suffix: string) returns (r: map<string, string>)
    ensures r == into + Suffixed(m, suffix)
  {
    r := into;
    var todo := m.Keys;
    ghost var done: map<string, string> := map[];
    while todo != {}
      invariant todo <= m.Keys && done == m - todo
      invariant r == into + Suffixed(done, suffix)
      decreases |todo|
    {
      var key :| key in todo;
      PutSuffixedStep(into, done, key, m[key], suffix);
      TakeOneMore(m, todo, key);
      r := r[key + suffix := m[key]];
      done := done[key := m[key]];
      todo := todo - {key};
    }
    MinusNothing(m);
  }

  /** One more entry written: the suffixed map of the entries done so far
      grows by that entry. */
  lemma PutSuffixedStep(into: map<string, string>, done: map<string, string>, key: string, value: string, suffix: string)
    requires key !in done
    ensures (into + Suffixed(done, suffix))[key + suffix := value] == into + Suffixed(done[key := value], suffix)
  {
    SuffixedGrows(done, key, value, suffix);
    UpdateUnion(into, Suffixed(done, suffix), key + suffix, value);
  }

  /** The entries of `m` outside `todo` grow by one when `key` leaves it. */
  lemma TakeOneMore<K, V>(m: map<K, V>, todo: set<K>, key: K)
    requires key in todo && todo <= m.Keys
    ensures (m - todo)[key := m[key]] == m - (todo - {key})
  {
  }

  lemma MinusNothing<K, V>(m: map<K, V>)
    ensures m - {} == m
  {
  }

  lemma EmptyUnion<K, V>(b: map<K, V>)
    ensures map[] + b == b
  {
  }

  lemma UpdateUnion<K, V>(a: map<K, V>, b: map<K, V>, k: K, v: V)
    ensures (a + b)[k := v] == a + b[k := v]
  {
  }

  lemma SuffixedGrows(m: map<string, string>, key: string, value: string, suffix: string)
    requires key !in m
    ensures Suffixed(m[key := value], suffix) == Suffixed(m, suffix)[key + suffix := value]
  {
    var lhs, rhs := Suffixed(m[key := value], suffix), Suffixed(m, suffix)[key + suffix := value];
    SuffixedGrowsOld(m, key, value, suffix, lhs, rhs);
    SuffixedGrowsNew(m, key, value, suffix, lhs, rhs);
    SameEntries(lhs, rhs);
  }

  lemma SuffixedGrowsOld(m: map<string, string>, key: string, value: string, suffix: string, lhs: map<string, string>, rhs: map<string, string>)
    requires key !in m
    requires lhs == Suffixed(m[key := value], suffix) && rhs == Suffixed(m, suffix)[key + suffix := value]
    ensures forall x :: x in lhs ==> x in rhs && lhs[x] == rhs[x]
  {
    var large := m[key := value];
    SuffixedKeys(large, suffix);
    SuffixedEntries(large, suffix);
    SuffixedEntries(m, suffix);
    SuffixInjective(suffix);
    forall x | x in lhs ensures x in rhs && lhs[x] == rhs[x] {
      var k :| k in large && x == k + suffix;
      if k != key {
        assert k in m;
      }
    }
  }

  lemma SuffixedGrowsNew(m: map<string, string>, key: string, value: string, suffix: string, lhs: map<string, string>, rhs: map<string, string>)
    requires key !in m
    requires lhs == Suffixed(m[key := value], suffix) && rhs == Suffixed(m, suffix)[key + suffix := value]
    ensures forall x :: x in rhs ==> x in lhs
  {
    var large := m[key := value];
    SuffixedKeys(m, suffix);
    SuffixedEntries(large, suffix);
    forall x | x in rhs ensures x in lhs {
      if x != key + suffix {
        var k :| k in m && x == k + suffix;
        assert k in large;
      }
    }
  }

  /** Two maps with the same keys and the same value at each key are equal. */
  lemma SameEntries<K, V>(a: map<K, V>, b: map<K, V>)
    requires forall x :: x in a ==> x in b && a[x] == b[x]
    requires forall x :: x in b ==> x in a
    ensures a == b
  {
  }

  /** `process_single_pairing`: `pairing_data` is the food data with the
      pairing text added under `wine_pairing`. */
  method ProcessSinglePairing(t: Templates, foodData: map<string, Cell>, winePairing: string, n: nat, oracle: Oracle, pos: nat)
    returns (result: Option<map<string, string>>, next: nat)
    ensures (result, next) == SinglePairing(t, foodData["wine_pairing" := Str(winePairing)], n, oracle, pos)
  {
    var pairingData := foodData["wine_pairing" := Str(winePairing)];
    var description := Invoke(t.description, pairingData.Keys, oracle, pos);
    next := description.1;
    if !description.0.Text? {
      return None, next;
    }
    var descriptionDict := ParseKeyvalResponse(description.0.text);
    var notes := Invoke(t.notes, pairingData.Keys, oracle, next);
    next := notes.1;
    if !notes.0.Text? {
      return None, next;
    }
    var notesDict := ParseKeyvalResponse(notes.0.text);
    var merged := PutSuffixed(map[], descriptionDict, Suffix(n));
    merged := PutSuffixed(merged, notesDict, Suffix(n));
    EmptyUnion(Suffixed(descriptionDict, Suffix(n)));
    result := Some(merged);
  }

  // ---------------------------------------------------------------------
  // process_food_info

  /** The `wine_pairing` text for pairing `i`, read from the result being
      built (which starts as the first answer). */
  function WinePairingText(result: map<string, string>, i: nat): string {
    Numbered("Wine_Pairing", i) + ": " + Get(result, Numbered("Wine_Pairing", i), "") + "\n"
    + Numbered("Pairing_Type", i) + ": " + Get(result, Numbered("Pairing_Type", i), "") + "\n"
    + Numbered("Course", i) + ": " + Get(result, Numbered("Course", i), "")
  }

  /** One step of the loop of `process_food_info`: from the result built so
      far, the pairing number and the next call number, the processed
      pairing and the next call number. */
  type PairingStep = (map<string, string>, nat, nat) -> (Option<map<string, string>>, nat)

  /** The step `process_food_info` takes: `process_single_pairing` on the
      food data with the pairing text read from the result so far. */
  ghost function StepOf(t: Templates, foodData: map<string, Cell>, oracle: Oracle): PairingStep {
    (result: map<string, string>, i: nat, pos: nat) =>
      SinglePairing(t, foodData["wine_pairing" := Str(WinePairingText(result, i))], i, oracle, pos)
  }

  /** Pairings `i` to 3, each merged into `result`; a pairing that gives
      `None` or nothing stops the chain. */
  ghost function Chain(step: PairingStep, result: map<string, string>, i: nat, pos: nat)
    : (r: (Result<map<string, string>, ChainError>, nat))
    requires 1 <= i <= 4
    decreases 4 - i
  {
    if i == 4 then (Ok(result), pos)
    else
      var (item, next) := step(result, i, pos);
      if item.None? || item.value == map[] then (Err(PairingFailed(i)), next)
      else Chain(step, result + item.value, i + 1, next)
  }

  /** What `process_food_info` returns or raises, and the next call number. */
  ghost function FoodInfo(t: Templates, foodData: map<string, Cell>, oracle: Oracle, pos: nat)
    : (r: (Result<map<string, string>, ChainError>, nat))
  {
    var (pairings, next) := Invoke(t.pairings, foodData.Keys, oracle, pos);
    match pairings
    case MissingVariables(names) => (Err(MissingInputs(names)), next)
    case ModelFailed => (Err(CallFailed), next)
    case Text(text) =>
      var d := ParseKeyval(text);
      if !PassesGate(d) then (Err(NotDistinct), next)
      else Chain(StepOf(t, foodData, oracle), d, 1, next)
  }

  /** `process_food_info`: the first call, its parse and the gate. */
  method ProcessFoodInfo(t: Templates, foodData: map<string, Cell>, oracle: Oracle, pos: nat)
    returns (result: Result<map<string, string>, ChainError>, next: nat)
    ensures (result, next) == FoodInfo(t, foodData, oracle, pos)
  {
    var pairings := Invoke(t.pairings, foodData.Keys, oracle, pos);
    next := pairings.1;
    if pairings.0.MissingVariables? {
      return Err(MissingInputs(pairings.0.names)), next;
    }
    if pairings.0.ModelFailed? {
      return Err(CallFailed), next;
    }
    var winePairingsDict := ParseKeyvalResponse(pairings.0.text);
    if |{Triple(winePairingsDict, 1), Triple(winePairingsDict, 2), Triple(winePairingsDict, 3)}| < 3 {
      return Err(NotDistinct), next;
    }
    result, next := ProcessPairings(t, foodData, winePairingsDict, oracle, next);
  }

  /** The `for i in range(1, 4)` loop of `process_food_info`: each pairing
      is processed with the pairing text read from the result so far, and
      its entries are added to that result. */
  method ProcessPairings(t: Templates, foodData: map<string, Cell>, winePairingsDict: map<string, string>, oracle: Oracle, pos: nat)
    returns (result: Result<map<string, string>, ChainError>, next: nat)
    ensures (result, next) == Chain(StepOf(t, foodData, oracle), winePairingsDict, 1, pos)
  {
    ghost var step := StepOf(t, foodData, oracle);
    next := pos;
    var acc := winePairingsDict;
    for i := 1 to 4
      invariant Chain(step, winePairingsDict, 1, pos) == Chain(step, acc, i, next)
    {
      var pairingResult;
      ghost var before := next;
      pairingResult, next := ProcessSinglePairing(t, foodData, WinePairingText(acc, i), i, oracle, next);
      StepOfApplied(t, foodData, oracle, acc, i, before);
      ChainUnfolds(step, acc, i, before);
      if pairingResult.None? || pairingResult.value == map[] {
        return Err(PairingFailed(i)), next;
      }
      acc := acc + pairingResult.value;
    }
    result := Ok(acc);
  }

  /** The step applied is one `process_single_pairing`. */
  lemma StepOfApplied(t: Templates, foodData: map<string, Cell>, oracle: Oracle, result: map<string, string>, i: nat, pos: nat)
    ensures StepOf(t, foodData, oracle)(result, i, pos)
      == SinglePairing(t, foodData["wine_pairing" := Str(WinePairingText(result, i))], i, oracle, pos)
  {
  }

  /** One pairing of the chain: it stops there or goes on with the pairing
      added. */
  lemma ChainUnfolds(step: PairingStep, result: map<string, string>, i: nat, pos: nat)
    requires 1 <= i <= 3
    ensures var (item, next) := step(result, i, pos);
      Chain(step, result, i, pos)
        == if item.None? || item.value == map[] then (Err(PairingFailed(i)), next) else Chain(step, result + item.value, i + 1, next)
  {
  }

  // ---------------------------------------------------------------------
  // Properties of process_food_info

  /** A step that makes at most two calls, and exactly two when it gives
      a pairing. */
  ghost predicate TwoCalls(step: PairingStep) {
    forall result: map<string, string>, i: nat, pos: nat :: pos <= step(result, i, pos).1 <= pos + 2
      && (step(result, i, pos).0.Some? ==> step(result, i, pos).1 == pos + 2)
  }

  /** A step whose pairings `1` to `3` hold only pairing keys. */
  ghost predicate AddsPairingKeys(step: PairingStep) {
    forall result: map<string, string>, i: nat, pos: nat :: 1 <= i <= 3 && step(result, i, pos).0.Some? ==>
      forall key :: key in step(result, i, pos).0.value ==> PairingKey(key)
  }

  /** `process_single_pairing` makes two calls when it gives a pairing,
      and fewer otherwise. */
  lemma StepTwoCalls(t: Templates, foodData: map<string, Cell>, oracle: Oracle)
    ensures TwoCalls(StepOf(t, foodData, oracle))
  {
    var step := StepOf(t, foodData, oracle);
    forall result: map<string, string>, i: nat, pos: nat ensures pos <= step(result, i, pos).1 <= pos + 2
      && (step(result, i, pos).0.Some? ==> step(result, i, pos).1 == pos + 2)
    {
      SinglePairingCalls(t, foodData["wine_pairing" := Str(WinePairingText(result, i))], i, oracle, pos);
    }
  }

  /** Every key `process_single_pairing` gives for pairing `1` to `3` is a
      pairing key. */
  lemma StepAddsPairingKeys(t: Templates, foodData: map<string, Cell>, oracle: Oracle)
    ensures AddsPairingKeys(StepOf(t, foodData, oracle))
  {
    var step := StepOf(t, foodData, oracle);
    forall result: map<string, string>, i: nat, pos: nat | 1 <= i <= 3 && step(result, i, pos).0.Some?
      ensures forall key :: key in step(result, i, pos).0.value ==> PairingKey(key)
    {
      var pairingData := foodData["wine_pairing" := Str(WinePairingText(result, i))];
      SinglePairingValue(t, pairingData, i, oracle, pos);
      MergedPairingKeys(ParseKeyval(ReplyAt(oracle, pos).text), ParseKeyval(ReplyAt(oracle, pos + 1).text), i);
    }
  }

  /** Pairings `i` to 3 make two calls each while they succeed; the chain
      fails only for a pairing that gave nothing, and when it returns, all
      of its calls were made. */
  lemma {:induction false} ChainCalls(step: PairingStep, result: map<string, string>, i: nat, pos: nat)
    requires 1 <= i <= 4 && TwoCalls(step)
    ensures var c := Chain(step, result, i, pos);
      && pos <= c.1 <= pos + 2 * (4 - i)
      && (c.0.Err? ==> c.0.error.PairingFailed? && i <= c.0.error.pairing <= 3)
      && (c.0.Ok? ==> c.1 == pos + 2 * (4 - i))
    decreases 4 - i
  {
    if i < 4 {
      var s := step(result, i, pos);
      if s.0.Some? && s.0.value != map[] {
        ChainCalls(step, result + s.0.value, i + 1, s.1);
      }
    }
  }

  /** A key a pairing adds: it ends in `_1`, `_2` or `_3`. */
  predicate PairingKey(key: string) {
    EndsWith(key, "_1") || EndsWith(key, "_2") || EndsWith(key, "_3")
  }

  /** Every key of a processed pairing `n` (1 to 3) is a pairing key. */
  lemma MergedPairingKeys(description: map<string, string>, notes: map<string, string>, n: nat)
    requires 1 <= n <= 3
    ensures forall key :: key in Merged(description, notes, Suffix(n)) ==> PairingKey(key)
  {
    MergedFacts(description, notes, Suffix(n));
    assert Suffix(n) == "_1" || Suffix(n) == "_2" || Suffix(n) == "_3";
    EndsWithAppended(Suffix(n));
  }

  /** The chain keeps every entry key of the result it is given, and every
      key it adds is a pairing key. */
  lemma {:induction false} ChainKeys(step: PairingStep, result: map<string, string>, i: nat, pos: nat)
    requires 1 <= i <= 4 && AddsPairingKeys(step)
    ensures var c := Chain(step, result, i, pos);
      c.0.Ok? ==>
        && result.Keys <= c.0.value.Keys
        && forall key :: key in c.0.value && key !in result ==> PairingKey(key)
    decreases 4 - i
  {
    if i < 4 {
      var s := step(result, i, pos);
      if s.0.Some? && s.0.value != map[] {
        ChainKeys(step, result + s.0.value, i + 1, s.1);
      }
    }
  }

  /** `process_food_info` makes at most seven calls; when it returns, the
      first answer passed the gate, all its entries are in the result, and
      every other key of the result ends in `_1`, `_2` or `_3`. */
  lemma FoodInfoShape(t: Templates, foodData: map<string, Cell>, oracle: Oracle, pos: nat)
    ensures var (r, next) := FoodInfo(t, foodData, oracle, pos);
      && pos <= next <= pos + 7
      && (r.Ok? ==>
            && next == pos + 7
            && ReplyAt(oracle, pos).Reply?
            && var d := ParseKeyval(ReplyAt(oracle, pos).text);
            && PassesGate(d)
            && d.Keys <= r.value.Keys
            && forall key :: key in r.value && key !in d ==> PairingKey(key))
  {
    var (pairings, next) := Invoke(t.pairings, foodData.Keys, oracle, pos);
    if pairings.Text? {
      var d := ParseKeyval(pairings.text);
      if PassesGate(d) {
        StepTwoCalls(t, foodData, oracle);
        StepAddsPairingKeys(t, foodData, oracle);
        ChainCalls(StepOf(t, foodData, oracle), d, 1, next);
        ChainKeys(StepOf(t, foodData, oracle), d, 1, next);
      }
    }
  }

  /** As written, the first template asks for `sweetness_dry`, which
      `extract_food_data` never supplies: `process_food_info` raises before
      any model call, for every row. */
  lemma AsWrittenRaisesBeforeAnyCall(row: map<string, Cell>, oracle: Oracle, pos: nat)
    ensures FoodInfo(AsWrittenTemplates, ExtractFoodData(row), oracle, pos) == (Err(MissingInputs({"sweetness_dry"})), pos)
  {
    var supplied := ExtractFoodData(row).Keys;
    assert "sweetness_dry" !in supplied;
    assert AsWrittenTemplates.pairings - supplied == {"sweetness_dry"};
  }

  /** With `{sweetness}`, the food data supplies every template: no call
      raises for a missing variable, and the first call reaches the model. */
  lemma IntendedTemplatesSupplied(row: map<string, Cell>, winePairing: string)
    ensures IntendedTemplates.pairings <= ExtractFoodData(row).Keys
    ensures IntendedTemplates.description <= ExtractFoodData(row)["wine_pairing" := Str(winePairing)].Keys
    ensures IntendedTemplates.notes <= ExtractFoodData(row)["wine_pairing" := Str(winePairing)].Keys
  {
  }

  /** Calls `p` and `p + 1` both give text, and the description or the
      notes parses to at least one entry. */
  ghost predicate PairingAnswered(oracle: Oracle, p: nat) {
    && ReplyAt(oracle, p).Reply? && ReplyAt(oracle, p + 1).Reply?
    && (ParseKeyval(ReplyAt(oracle, p).text) != map[] || ParseKeyval(ReplyAt(oracle, p + 1).text) != map[])
  }

  /** Pairing `j`, called at call `p`, gives a non-empty pairing after two
      calls. */
  ghost predicate Gives(step: PairingStep, result: map<string, string>, j: nat, p: nat) {
    var s := step(result, j, p);
    s.0.Some? && s.0.value != map[] && s.1 == p + 2
  }

  /** The first of the two calls of pairing `i` when `process_food_info`
      starts at call `pos`: pairing `i` takes calls `pos + 2 * i - 1` and
      `pos + 2 * i`. */
  function PairingCall(pos: nat, i: nat): nat {
    if i == 0 then pos else pos + 2 * i - 1
  }

  /** Each pairing from `i` on giving a pairing at its calls: the chain
      returns after all of them. */
  lemma {:induction false} ChainSucceeds(step: PairingStep, result: map<string, string>, i: nat, pos: nat)
    requires 1 <= i <= 4
    requires forall r: map<string, string>, j: nat :: i <= j <= 3 ==> Gives(step, r, j, PairingCall(pos, j))
    ensures var c := Chain(step, result, i, PairingCall(pos, i));
      c.0.Ok? && c.1 == pos + 7
    decreases 4 - i
  {
    if i < 4 {
      assert Gives(step, result, i, PairingCall(pos, i));
      var s := step(result, i, PairingCall(pos, i));
      assert s.1 == PairingCall(pos, i + 1);
      ChainSucceeds(step, result + s.0.value, i + 1, pos);
    }
  }

  /** The step of supplied templates gives a pairing at every pairing's
      calls that are answered. */
  lemma SuppliedStepGives(t: Templates, foodData: map<string, Cell>, oracle: Oracle, pos: nat)
    requires Supplies(t, foodData)
    requires forall i :: 1 <= i <= 3 ==> PairingAnswered(oracle, PairingCall(pos, i))
    ensures forall r: map<string, string>, j: nat :: 1 <= j <= 3 ==> Gives(StepOf(t, foodData, oracle), r, j, PairingCall(pos, j))
  {
    forall r: map<string, string>, j: nat | 1 <= j <= 3
      ensures Gives(StepOf(t, foodData, oracle), r, j, PairingCall(pos, j))
    {
      SuppliedPairingGives(t, foodData, oracle, PairingCall(pos, j), r, j);
    }
  }

  /** Templates whose variables the food data supplies, the pairing
      templates once `wine_pairing` is added. */
  ghost predicate Supplies(t: Templates, foodData: map<string, Cell>) {
    && t.pairings <= foodData.Keys
    && t.description <= foodData.Keys + {"wine_pairing"}
    && t.notes <= foodData.Keys + {"wine_pairing"}
  }

  /** With the intended templates, `process_food_info` succeeds after
      exactly seven calls when every call gives text, the first answer
      passes the gate, and each pairing's description or notes has at
      least one entry. */
  lemma IntendedSucceeds(row: map<string, Cell>, oracle: Oracle, pos: nat)
    requires ReplyAt(oracle, pos).Reply? && PassesGate(ParseKeyval(ReplyAt(oracle, pos).text))
    requires forall i :: 1 <= i <= 3 ==> PairingAnswered(oracle, PairingCall(pos, i))
    ensures var (r, next) := FoodInfo(IntendedTemplates, ExtractFoodData(row), oracle, pos);
      r.Ok? && next == pos + 7
  {
    var foodData := ExtractFoodData(row);
    assert Supplies(IntendedTemplates, foodData);
    FoodInfoEntersChain(IntendedTemplates, foodData, oracle, pos);
    SuppliedChainSucceeds(IntendedTemplates, foodData, oracle, ParseKeyval(ReplyAt(oracle, pos).text), pos);
  }

  /** For any templates the food data supplies, the pairings chain after
      call `pos` returns after six more calls when each of its pairings is
      answered. */
  lemma SuppliedChainSucceeds(t: Templates, foodData: map<string, Cell>, oracle: Oracle, d: map<string, string>, pos: nat)
    requires Supplies(t, foodData)
    requires forall i :: 1 <= i <= 3 ==> PairingAnswered(oracle, PairingCall(pos, i))
    ensures var c := Chain(StepOf(t, foodData, oracle), d, 1, pos + 1);
      c.0.Ok? && c.1 == pos + 7
  {
    SuppliedStepGives(t, foodData, oracle, pos);
    ChainSucceeds(StepOf(t, foodData, oracle), d, 1, pos);
  }

  /** When the first call gives text that passes the gate, what
      `process_food_info` returns is what its pairings chain returns. */
  lemma FoodInfoEntersChain(t: Templates, foodData: map<string, Cell>, oracle: Oracle, pos: nat)
    requires t.pairings <= foodData.Keys && ReplyAt(oracle, pos).Reply?
    requires PassesGate(ParseKeyval(ReplyAt(oracle, pos).text))
    ensures FoodInfo(t, foodData, oracle, pos) == Chain(StepOf(t, foodData, oracle), ParseKeyval(ReplyAt(oracle, pos).text), 1, pos + 1)
  {
  }

  /** One pairing with supplied templates: two replies, one of them parsing
      to something, give a non-empty pairing after two calls. */
  lemma SuppliedPairingGives(t: Templates, foodData: map<string, Cell>, oracle: Oracle, p: nat, r: map<string, string>, j: nat)
    requires Supplies(t, foodData)
    requires 1 <= j <= 3
    requires PairingAnswered(oracle, p)
    ensures Gives(StepOf(t, foodData, oracle), r, j, p)
  {
    var pairingData := foodData["wine_pairing" := Str(WinePairingText(r, j))];
    assert pairingData.Keys == foodData.Keys + {"wine_pairing"};
    SinglePairingCalls(t, pairingData, j, oracle, p);
    SinglePairingValue(t, pairingData, j, oracle, p);
    MergedFacts(ParseKeyval(ReplyAt(oracle, p).text), ParseKeyval(ReplyAt(oracle, p + 1).text), Suffix(j));
  }
}
