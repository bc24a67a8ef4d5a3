/**
  `parse_key_value_pairs` of the food-data script: the model's reply is
  split with `splitlines`, every line holding a colon gives one entry whose
  key is kept exactly as written (case and inner spaces included), and a
  later line overwrites an earlier one with the same key.
 */
module ServerParse {
  import opened Text
  import opened Wrappers
  import opened KeyValue

  /** The entries of the lines, in order; lines holding none are skipped. */
  function PairEntries(lines: seq<string>): seq<Entry>
    decreases |lines|
  {
    if lines == [] then []
    else
      var last := SplitEntry(lines[|lines| - 1]);
      PairEntries(lines[..|lines| - 1]) + if last.Some? then [last.value] else []
  }

  /** The dictionary `parse_key_value_pairs` returns for a reply. */
  function ParsePairs(text: string): map<string, string> {
    LastWins(PairEntries(SplitLines(text)))
  }

  /** `parse_key_value_pairs`: the `for line in text.splitlines()` loop. */
  method ParseKeyValuePairs(text: string) returns (result: map<string, string>)
    ensures result == ParsePairs(text)
  {
    var lines := SplitLines(text);
    result := map[];
    for n := 0 to |lines|
      invariant result == LastWins(PairEntries(lines[..n]))
    {
      var line := Strip(lines[n]);
      PairEntriesStep(lines, n);
      if line == [] {
        SplitEntryAbsent(lines[n], line);
        assert PairEntries(lines[..n + 1]) == PairEntries(lines[..n]);
        continue;
      }
      if ':' in line {
        var colon := IndexOf(line, ':');
        var key, value := Strip(line[..colon]), Strip(line[colon + 1..]);
        SplitEntryAt(lines[n], line, colon);
        LastWinsAppend(PairEntries(lines[..n]), (key, value));
        result := result[key := value];
        assert PairEntries(lines[..n + 1]) == PairEntries(lines[..n]) + [(key, value)];
      } else {
        SplitEntryAbsent(lines[n], line);
      }
    }
    assert lines[..|lines|] == lines;
  }

  lemma PairEntriesStep(lines: seq<string>, n: nat)
    requires n < |lines|
    ensures PairEntries(lines[..n + 1]) == PairEntries(lines[..n])
      + if SplitEntry(lines[n]).Some? then [SplitEntry(lines[n]).value] else []
  {
    assert lines[..n + 1][..n] == lines[..n];
  }

  // ---------------------------------------------------------------------
  // Shape of the dictionary

  /** Every key has no colon and no line break, and neither keys nor values
      have whitespace at their ends or a line break inside. */
  lemma ParsePairsShape(text: string)
    ensures forall key :: key in ParsePairs(text) ==>
      && ':' !in key && Trimmed(key) && (forall c :: c in key ==> !IsLineBreak(c))
      && Trimmed(ParsePairs(text)[key]) && (forall c :: c in ParsePairs(text)[key] ==> !IsLineBreak(c))
  {
    var es := PairEntries(SplitLines(text));
    PairEntriesShape(SplitLines(text));
    LastWinsFromEntries(es);
  }

  lemma {:induction false} PairEntriesShape(lines: seq<string>)
    requires forall l :: l in lines ==> forall c :: c in l ==> !IsLineBreak(c)
    ensures forall e :: e in PairEntries(lines) ==>
      && ':' !in e.0 && Trimmed(e.0) && (forall c :: c in e.0 ==> !IsLineBreak(c))
      && Trimmed(e.1) && (forall c :: c in e.1 ==> !IsLineBreak(c))
    decreases |lines|
  {
    if lines != [] {
      var init, line := lines[..|lines| - 1], lines[|lines| - 1];
      assert forall l :: l in init ==> l in lines;
      PairEntriesShape(init);
      assert line in lines;
      SplitEntryShape(line);
    }
  }

  /** A reply without any colon (an empty or all-whitespace one included)
      gives the empty dictionary. */
  lemma ParsePairsNoColon(text: string)
    requires ':' !in text
    ensures ParsePairs(text) == map[]
  {
    SplitLinesChars(text);
    NoEntries(SplitLines(text));
  }

  lemma {:induction false} NoEntries(lines: seq<string>)
    requires forall l :: l in lines ==> ':' !in l
    ensures PairEntries(lines) == []
    decreases |lines|
  {
    if lines != [] {
      var init := lines[..|lines| - 1];
      assert forall l :: l in init ==> l in lines;
      NoEntries(init);
      assert lines[|lines| - 1] in lines;
      SplitEntryShape(lines[|lines| - 1]);
    }
  }

  /** Every character of every line is a character of the text. */
  lemma {:induction false} SplitLinesChars(s: string)
    ensures forall l, c :: l in SplitLines(s) && c in l ==> c in s
    decreases |s|
  {
    if s != [] {
      var i := LineBreakIndex(s);
      if i < |s| {
        var width := if s[i] == '\r' && i + 1 < |s| && s[i + 1] == '\n' then 2 else 1;
        SplitLinesChars(s[i + width..]);
        assert forall c :: c in s[..i] ==> c in s;
        assert forall c :: c in s[i + width..] ==> c in s;
      }
    }
  }

  // ---------------------------------------------------------------------
  // Reading back the format the prompts ask for

  /** An entry the parser reads back: the key has no colon, neither part
      has a line break or whitespace at its ends. */
  predicate Readable(e: Entry) {
    && ':' !in e.0 && Trimmed(e.0) && Trimmed(e.1)
    && (forall c :: c in e.0 ==> !IsLineBreak(c))
    && (forall c :: c in e.1 ==> !IsLineBreak(c))
  }

  /** Parsing the "Key: value" lines of readable entries gives back the
      dictionary of those entries, keys exactly as written. */
  lemma ParsePairsRendered(es: seq<Entry>)
    requires es != []
    requires forall e :: e in es ==> Readable(e)
    ensures ParsePairs(Render(es)) == LastWins(es)
  {
    var lines := RenderLines(es);
    forall l | l in lines ensures l != [] && forall c :: c in l ==> !IsLineBreak(c) {
      var i :| 0 <= i < |lines| && lines[i] == l;
      assert es[i] in es;
      assert l == es[i].0 + ": " + es[i].1;
    }
    JoinThenSplitLines(lines);
    RenderedPairEntries(lines, es);
  }

  lemma {:induction false} RenderedPairEntries(lines: seq<string>, es: seq<Entry>)
    requires |lines| == |es|
    requires forall i :: 0 <= i < |es| ==> Readable(es[i]) && lines[i] == es[i].0 + ": " + es[i].1
    ensures PairEntries(lines) == es
    decreases |es|
  {
    if es != [] {
      var n := |es| - 1;
      RenderedPairEntries(lines[..n], es[..n]);
      SplitEntryOfRendered(es[n].0, es[n].1);
      PairEntriesStep(lines, n);
      FrontLast(lines);
      FrontLast(es);
    }
  }

  /** The base-information prompt asks for `Food type`; the key comes back
      as written, so a lookup of `Food Type` misses it. */
  lemma FoodTypeKeptVerbatim(value: string)
    requires Trimmed(value) && forall c :: c in value ==> !IsLineBreak(c)
    ensures var info := ParsePairs("Food type: " + value);
      info == map["Food type" := value] && "Food Type" !in info
  {
    var e := ("Food type", value);
    assert Render([e]) == "Food type: " + value;
    ParsePairsRendered([e]);
    assert "Food type" != "Food Type" by {
      assert "Food type"[5] != "Food Type"[5];
    }
  }
}
