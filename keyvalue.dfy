/**
  What the two response parsers share: reading one line of model output as
  a "Key: value" entry, and collecting entries into a dictionary where a
  later entry overwrites an earlier one with the same key.
 */
module KeyValue {
  import opened Text
  import opened Wrappers

  type Entry = (string, string)

  /** The entry one line of model output holds.  The line is stripped; a
      blank line, or one without a colon, holds none; otherwise the text
      before the FIRST colon is the key and everything after it the value,
      both stripped (so the value may itself contain colons). */
  function SplitEntry(line: string): (e: Option<Entry>)
  {
    var t := Strip(line);
    var i := IndexOf(t, ':');
    if i == |t| then None else Some((Strip(t[..i]), Strip(t[i + 1..])))
  }

  /** A line holds an entry exactly when it contains a colon; the key has
      no colon, key and value have no whitespace at their ends, and both
      are made of the line's own characters. */
  lemma SplitEntryShape(line: string)
    ensures SplitEntry(line).Some? <==> ':' in line
    ensures SplitEntry(line).Some? ==>
      var (key, value) := SplitEntry(line).value;
      && ':' !in key && Trimmed(key) && Trimmed(value)
      && (forall c :: c in key ==> c in line)
      && (forall c :: c in value ==> c in line)
  {
    var t := Strip(line);
    var i := IndexOf(t, ':');
    ColonSurvivesStrip(line);
    if i < |t| {
      StripKeeps(t[..i]);
      StripKeeps(t[i + 1..]);
      StripKeeps(line);
      assert forall c :: c in t[..i] ==> c in t;
      assert forall c :: c in t[i + 1..] ==> c in t;
    }
  }

  lemma ColonSurvivesStrip(line: string)
    ensures ':' in line <==> ':' in Strip(line)
  {
    StripKeeps(line);
    if ':' in line {
      var j :| 0 <= j < |line| && line[j] == ':';
      assert !IsSpace(line[j]);
    }
  }

  /** A dictionary filled entry by entry, `result[key] = value`. */
  function LastWins(es: seq<Entry>): map<string, string>
    decreases |es|
  {
    if es == [] then map[]
    else LastWins(es[..|es| - 1])[es[|es| - 1].0 := es[|es| - 1].1]
  }

  /** A further entry updates the dictionary with its own key and value. */
  lemma LastWinsAppend(es: seq<Entry>, e: Entry)
    ensures LastWins(es + [e]) == LastWins(es)[e.0 := e.1]
  {
    assert (es + [e])[..|es|] == es;
  }

  /** Every key of the dictionary was the key of some entry, with the value
      of one of the entries for that key. */
  lemma {:induction false} LastWinsFromEntries(es: seq<Entry>)
    ensures forall k :: k in LastWins(es) ==> (k, LastWins(es)[k]) in es
    decreases |es|
  {
    if es != [] {
      var init := es[..|es| - 1];
      LastWinsFromEntries(init);
      assert forall e :: e in init ==> e in es;
      assert es[|es| - 1] in es;
    }
  }

  /** The key of every entry is in the dictionary, and it holds the value
      of the LAST entry with that key. */
  lemma {:induction false} LastWinsLatest(es: seq<Entry>, i: nat)
    requires i < |es|
    requires forall j :: i < j < |es| ==> es[j].0 != es[i].0
    ensures es[i].0 in LastWins(es) && LastWins(es)[es[i].0] == es[i].1
    decreases |es|
  {
    if i < |es| - 1 {
      LastWinsLatest(es[..|es| - 1], i);
    }
  }

  /** One "Key: value" line per entry, joined with newlines: the format the
      prompts ask the model for. */
  function Render(es: seq<Entry>): string {
    Join(RenderLines(es), '\n')
  }

  function RenderLines(es: seq<Entry>): (lines: seq<string>)
    ensures |lines| == |es|
  {
    seq(|es|, i requires 0 <= i < |es| => es[i].0 + ": " + es[i].1)
  }

  /** A line written as `key + ": " + value` reads back as that entry
      whenever the key has no colon and neither part has whitespace at
      its ends (the value may contain colons). */
  lemma SplitEntryOfRendered(key: string, value: string)
    requires ':' !in key && Trimmed(key) && Trimmed(value)
    ensures SplitEntry(key + ": " + value) == Some((key, value))
  {
    var line := key + ": " + value;
    var after := if value == [] then [] else " " + value;
    var t := key + [':'] + after;
    assert Strip(line) == t by {
      StripRendered(key, value);
    }
    assert IndexOf(t, ':') == |key| by {
      IndexOfAfter(key, ':', after);
    }
    assert t[..|key|] == key;
    assert t[|key| + 1..] == after;
    assert Strip(after) == value by {
      if value != [] {
        StripLeadingSpace(value);
      }
    }
    assert Strip(key) == key;
    SplitEntryAt(line, t, |key|);
  }

  lemma SplitEntryAt(line: string, t: string, i: nat)
    requires Strip(line) == t && IndexOf(t, ':') == i && i < |t|
    ensures SplitEntry(line) == Some((Strip(t[..i]), Strip(t[i + 1..])))
  {
  }

  lemma SplitEntryAbsent(line: string, t: string)
    requires Strip(line) == t && IndexOf(t, ':') == |t|
    ensures SplitEntry(line) == None
  {
  }

  lemma StripRendered(key: string, value: string)
    requires Trimmed(key) && Trimmed(value)
    ensures Strip(key + ": " + value) == if value == [] then key + ":" else key + ": " + value
  {
    var line := key + ": " + value;
    if value == [] {
      assert line == key + ":" + " ";
      assert TrimStart(line) == line;
      assert TrimEnd(line) == TrimEnd(key + ":");
      assert TrimEnd(key + ":") == key + ":";
    } else {
      assert Trimmed(line);
    }
  }

  lemma StripLeadingSpace(value: string)
    requires Trimmed(value) && value != []
    ensures Strip(" " + value) == value
  {
    assert TrimStart(" " + value) == TrimStart(value);
    assert TrimStart(value) == value;
    assert TrimEnd(value) == value;
  }
}
