/**
  The text handling of the wine-pairing pipeline: `parse_keyval_response`,
  which reads a model reply as a dictionary, and `clean_text`, which every
  value of an output row goes through.
 */
module WebText {
  import opened Text
  import opened Wrappers
  import opened KeyValue

  // ---------------------------------------------------------------------
  // parse_keyval_response

  /** Python's `t[a:-b]`: empty when the two cuts overlap. */
  function SliceInside(t: string, a: nat, b: nat): string {
    if |t| >= a + b then t[a..|t| - b] else []
  }

  /** Removes one wrapping pair of code-fence marks, or else one pair of
      comment-closing marks, from already stripped text. */
  function Unwrap(t: string): string {
    if |t| >= 3 && t[..3] == "```" && t[|t| - 3..] == "```" then Strip(SliceInside(t, 3, 3))
    else if |t| >= 2 && t[..2] == "*/" && t[|t| - 2..] == "*/" then Strip(SliceInside(t, 2, 2))
    else t
  }

  /** The entry a line holds, its key with every space turned into `_`. */
  function KeyvalEntry(line: string): Option<Entry> {
    var split := SplitEntry(line);
    if split.None? then None else Some((ReplaceSpaces(split.value.0), split.value.1))
  }

  function KeyvalEntries(lines: seq<string>): seq<Entry>
    decreases |lines|
  {
    if lines == [] then []
    else
      var last := KeyvalEntry(lines[|lines| - 1]);
      KeyvalEntries(lines[..|lines| - 1]) + if last.Some? then [last.value] else []
  }

  /** The dictionary `parse_keyval_response` returns for a reply. */
  function ParseKeyval(responseText: string): map<string, string> {
    LastWins(KeyvalEntries(Split(Unwrap(Strip(responseText)), '\n')))
  }

  /** `parse_keyval_response`: strips the reply and one pair of wrapping
      marks, then fills the dictionary line by line. */
  method ParseKeyvalResponse(responseText: string) returns (result: map<string, string>)
    ensures result == ParseKeyval(responseText)
  {
    var text := Strip(responseText);
    if |text| >= 3 && text[..3] == "```" && text[|text| - 3..] == "```" {
      text := Strip(SliceInside(text, 3, 3));
    } else if |text| >= 2 && text[..2] == "*/" && text[|text| - 2..] == "*/" {
      text := Strip(SliceInside(text, 2, 2));
    }
    assert text == Unwrap(Strip(responseText));
    result := FillEntries(Split(text, '\n'));
  }

  /** The `for line in lines` loop: each line holding a colon sets its
      entry, a later line overwriting an earlier one. */
  method FillEntries(lines: seq<string>) returns (result: map<string, string>)
    ensures result == LastWins(KeyvalEntries(lines))
  {
    result := map[];
    for n := 0 to |lines|
      invariant result == LastWins(KeyvalEntries(lines[..n]))
    {
      var line := Strip(lines[n]);
      KeyvalEntriesStep(lines, n);
      if line != [] && ':' in line {
        var colon := IndexOf(line, ':');
        var key := ReplaceSpaces(Strip(line[..colon]));
        var value := Strip(line[colon + 1..]);
        KeyvalEntryAt(lines[n], line, colon);
        assert KeyvalEntries(lines[..n + 1]) == KeyvalEntries(lines[..n]) + [(key, value)];
        LastWinsAppend(KeyvalEntries(lines[..n]), (key, value));
        result := result[key := value];
      } else {
        KeyvalEntryAbsent(lines[n], line);
        assert KeyvalEntries(lines[..n + 1]) == KeyvalEntries(lines[..n]);
      }
    }
    assert lines[..|lines|] == lines;
  }

  lemma KeyvalEntriesStep(lines: seq<string>, n: nat)
    requires n < |lines|
    ensures KeyvalEntries(lines[..n + 1]) == KeyvalEntries(lines[..n])
      + if KeyvalEntry(lines[n]).Some? then [KeyvalEntry(lines[n]).value] else []
  {
    assert lines[..n + 1][..n] == lines[..n];
  }

  /** The entry of a line whose stripped text holds a colon: the stripped
      text before the first colon, spaces turned into `_`, and the
      stripped text after it. */
  lemma KeyvalEntryAt(raw: string, line: string, colon: nat)
    requires Strip(raw) == line && IndexOf(line, ':') == colon && colon < |line|
    ensures KeyvalEntry(raw) == Some((ReplaceSpaces(Strip(line[..colon])), Strip(line[colon + 1..])))
  {
    SplitEntryAt(raw, line, colon);
  }

  /** A line without a colon holds no entry. */
  lemma KeyvalEntryAbsent(raw: string, line: string)
    requires Strip(raw) == line && ':' !in line
    ensures KeyvalEntry(raw) == None
  {
    SplitEntryAbsent(raw, line);
  }

  /** Every key has no colon and no space; every value has no whitespace
      at its ends and no newline. */
  lemma ParseKeyvalShape(responseText: string)
    ensures forall key :: key in ParseKeyval(responseText) ==>
      && ':' !in key && ' ' !in key
      && Trimmed(ParseKeyval(responseText)[key])
      && '\n' !in ParseKeyval(responseText)[key]
  {
    var lines := Split(Unwrap(Strip(responseText)), '\n');
    var es := KeyvalEntries(lines);
    KeyvalEntriesShape(lines);
    LastWinsFromEntries(es);
  }

  lemma {:induction false} KeyvalEntriesShape(lines: seq<string>)
    requires forall l :: l in lines ==> '\n' !in l
    ensures forall e :: e in KeyvalEntries(lines) ==>
      ':' !in e.0 && ' ' !in e.0 && Trimmed(e.1) && '\n' !in e.1
    decreases |lines|
  {
    if lines != [] {
      var init, line := lines[..|lines| - 1], lines[|lines| - 1];
      assert forall l :: l in init ==> l in lines;
      KeyvalEntriesShape(init);
      assert line in lines;
      KeyvalEntryShape(line);
    }
  }

  lemma KeyvalEntryShape(line: string)
    requires '\n' !in line
    ensures KeyvalEntry(line).Some? <==> ':' in line
    ensures KeyvalEntry(line).Some? ==>
      var e := KeyvalEntry(line).value;
      ':' !in e.0 && ' ' !in e.0 && Trimmed(e.1) && '\n' !in e.1
  {
    SplitEntryShape(line);
    if SplitEntry(line).Some? {
      var key := SplitEntry(line).value.0;
      assert ':' !in ReplaceSpaces(key);
    }
  }

  /** A reply that is empty or all whitespace gives the empty dictionary. */
  lemma ParseKeyvalBlank(responseText: string)
    requires forall i :: 0 <= i < |responseText| ==> IsSpace(responseText[i])
    ensures ParseKeyval(responseText) == map[]
  {
    StripKeeps(responseText);
    assert Strip(responseText) == [];
    assert Split([], '\n') == [[]];
    assert KeyvalEntries([[]]) == KeyvalEntries([]) + [];
  }

  /** Exactly one pair of code-fence marks is removed: whatever the fences
      enclosed, further fences or comment marks included, is kept. */
  lemma UnwrapFence(s: string)
    requires Trimmed(s)
    ensures Unwrap("```" + s + "```") == s
  {
    var t := "```" + s + "```";
    assert t[..3] == "```";
    assert t[|t| - 3..] == "```";
    assert SliceInside(t, 3, 3) == s;
  }

  /** The same for one pair of comment-closing marks. */
  lemma UnwrapCommentMarks(s: string)
    requires Trimmed(s)
    ensures Unwrap("*/" + s + "*/") == s
  {
    var t := "*/" + s + "*/";
    assert t[0] == '*';
    assert t[..2] == "*/";
    assert t[|t| - 2..] == "*/";
    assert SliceInside(t, 2, 2) == s;
  }

  /** Text that is not wrapped in either kind of marks is left as it is. */
  lemma UnwrapUnmarked(t: string)
    requires !(|t| >= 3 && t[..3] == "```" && t[|t| - 3..] == "```")
    requires !(|t| >= 2 && t[..2] == "*/" && t[|t| - 2..] == "*/")
    ensures Unwrap(t) == t
  {
  }

  /** An entry the parser reads back as it stands: the key has no colon,
      no space and no newline, the value no newline, and neither has
      whitespace at its ends. Either may be empty. */
  predicate WellFormed(e: Entry) {
    && ':' !in e.0 && ' ' !in e.0 && '\n' !in e.0 && '\n' !in e.1
    && Trimmed(e.0) && Trimmed(e.1)
  }

  /** The rendered text does not open and close with the same wrapping
      mark: the first key and the last value do not both carry it. */
  predicate NoWrappingMarks(es: seq<Entry>) {
    es == [] || (
      && !(StartsWith(es[0].0, "```") && EndsWith(es[|es| - 1].1, "```"))
      && !(StartsWith(es[0].0, "*/") && EndsWith(es[|es| - 1].1, "*/")))
  }

  /** Parsing the "Key: value" lines of well-formed entries gives back the
      dictionary of those entries, unless the text opens and closes with
      the same wrapping mark. */
  lemma ParseKeyvalRendered(es: seq<Entry>)
    requires forall e :: e in es ==> WellFormed(e)
    requires NoWrappingMarks(es)
    ensures ParseKeyval(Render(es)) == LastWins(es)
  {
    if es == [] {
      assert Render(es) == [];
      ParseKeyvalBlank(Render(es));
    } else {
      var lines := StrippedLines(es);
      var t := Join(lines, '\n');
      StrippedRender(es);
      UnwrapStripped(es);
      ParseThrough(Render(es), t);
      forall i | 0 <= i < |es| ensures '\n' !in lines[i] && KeyvalEntry(lines[i]) == Some(es[i]) {
        StrippedLine(es, i);
      }
      JoinThenSplit(lines, '\n');
      EntriesOfLines(lines, es);
    }
  }

  /** Text whose stripped form `unwrap` leaves alone is parsed line by
      line from that form. */
  lemma ParseThrough(text: string, t: string)
    requires Strip(text) == t && Unwrap(t) == t
    ensures ParseKeyval(text) == LastWins(KeyvalEntries(Split(t, '\n')))
  {
  }

  /** What follows the colon of a line: nothing for an empty value,
      otherwise a space and the value. */
  function Gap(value: string): string {
    if value == [] then [] else " " + value
  }

  /** An entry's line with nothing after an empty value: the last line of
      the stripped text. */
  function TightLine(e: Entry): string {
    if e.1 == [] then e.0 + ":" else e.0 + ": " + e.1
  }

  /** The tight line is the key followed by a colon and the value's gap. */
  lemma TightLineGap(e: Entry)
    ensures TightLine(e) == e.0 + (":" + Gap(e.1)) == (e.0 + ":") + Gap(e.1)
  {
    if e.1 != [] {
      assert e.0 + ": " + e.1 == e.0 + (":" + (" " + e.1)) == (e.0 + ":") + (" " + e.1);
    }
  }

  /** The lines of the stripped rendered text. */
  function StrippedLines(es: seq<Entry>): seq<string>
    requires es != []
  {
    RenderLines(es)[..|es| - 1] + [TightLine(es[|es| - 1])]
  }

  /** A rendered line, with or without the space an empty value leaves,
      opens with its key and a colon, holds no newline and reads back as
      its entry. */
  lemma LineReadsBack(e: Entry, line: string)
    requires WellFormed(e)
    requires line == e.0 + ": " + e.1 || line == TightLine(e)
    ensures line != [] && !IsSpace(line[0]) && StartsWith(line, e.0 + ":")
    ensures '\n' !in line && KeyvalEntry(line) == Some(e)
  {
    LineEntry(e, line);
    TightLineGap(e);
    var rest := if line == e.0 + ": " + e.1 then " " + e.1 else Gap(e.1);
    assert line == (e.0 + ":") + rest;
    LineShape(e.0, rest, line);
  }

  lemma LineEntry(e: Entry, line: string)
    requires WellFormed(e)
    requires line == e.0 + ": " + e.1 || line == TightLine(e)
    ensures KeyvalEntry(line) == Some(e)
  {
    var raw := e.0 + ": " + e.1;
    StripRendered(e.0, e.1);
    KeyvalEntryRendered(e);
    if line != raw {
      SameStripSameEntry(line, raw);
    }
  }

  /** A line made of a trimmed key free of newlines, a colon and a rest
      free of newlines opens with the key and the colon. */
  lemma LineShape(key: string, rest: string, line: string)
    requires Trimmed(key) && '\n' !in key && '\n' !in rest
    requires line == (key + ":") + rest
    ensures line != [] && !IsSpace(line[0]) && StartsWith(line, key + ":") && '\n' !in line
  {
    assert line[..|key| + 1] == key + ":";
    if key != [] {
      assert line[0] == key[0];
    }
    assert '\n' !in key + ":";
  }

  /** A line's entry depends only on its stripped text. */
  lemma SameStripSameEntry(a: string, b: string)
    requires Strip(a) == Strip(b)
    ensures KeyvalEntry(a) == KeyvalEntry(b)
  {
  }

  lemma StrippedLine(es: seq<Entry>, i: nat)
    requires i < |es| && forall e :: e in es ==> WellFormed(e)
    ensures var line := StrippedLines(es)[i];
      && line != [] && !IsSpace(line[0]) && StartsWith(line, es[i].0 + ":")
      && '\n' !in line && KeyvalEntry(line) == Some(es[i])
  {
    assert es[i] in es;
    LineReadsBack(es[i], StrippedLines(es)[i]);
  }

  /** Stripping the rendered text only removes the space an empty last
      value leaves behind. */
  lemma StrippedRender(es: seq<Entry>)
    requires es != [] && forall e :: e in es ==> WellFormed(e)
    ensures Strip(Render(es)) == Join(StrippedLines(es), '\n')
  {
    var lines := RenderLines(es);
    RenderedEnds(es);
    StripJoin(lines, '\n');
  }

  /** The first and last rendered lines open with their keys, and stripping
      the last one leaves its tight line. */
  lemma RenderedEnds(es: seq<Entry>)
    requires es != [] && forall e :: e in es ==> WellFormed(e)
    ensures var lines, n := RenderLines(es), |es|;
      && lines[0] != [] && !IsSpace(lines[0][0])
      && lines[n - 1] != [] && !IsSpace(lines[n - 1][0])
      && Strip(lines[n - 1]) == TightLine(es[n - 1])
  {
    var n := |es|;
    assert es[0] in es && es[n - 1] in es;
    RenderedLineOpens(es[0]);
    RenderedLineOpens(es[n - 1]);
  }

  /** A rendered line opens with a non-whitespace character, and stripping
      it leaves its tight line. */
  lemma RenderedLineOpens(e: Entry)
    requires WellFormed(e)
    ensures var line := e.0 + ": " + e.1;
      line != [] && !IsSpace(line[0]) && Strip(line) == TightLine(e)
  {
    var line := e.0 + ": " + e.1;
    if e.0 == [] {
      assert line[0] == ':';
    } else {
      assert line[0] == e.0[0];
    }
    StripRendered(e.0, e.1);
  }

  /** The stripped rendered text carries no wrapping marks to remove. */
  lemma UnwrapStripped(es: seq<Entry>)
    requires es != [] && forall e :: e in es ==> WellFormed(e)
    requires NoWrappingMarks(es)
    ensures Unwrap(Join(StrippedLines(es), '\n')) == Join(StrippedLines(es), '\n')
  {
    var lines, n := StrippedLines(es), |es|;
    var t := Join(lines, '\n');
    var first, last := es[0], es[n - 1];
    StrippedStartsWithKey(es);
    StrippedEndsWithGap(es);
    MarkInKey(t, first.0, "```");
    MarkInKey(t, first.0, "*/");
    MarkInValue(t, last.1, "```");
    MarkInValue(t, last.1, "*/");
    assert !(StartsWith(t, "```") && EndsWith(t, "```")) && !(StartsWith(t, "*/") && EndsWith(t, "*/"));
    UnwrapNoMarks(t);
  }

  /** Text that does not both open and close with one mark is left as it
      is by `unwrap`. */
  lemma UnwrapNoMarks(t: string)
    requires !(StartsWith(t, "```") && EndsWith(t, "```")) && !(StartsWith(t, "*/") && EndsWith(t, "*/"))
    ensures Unwrap(t) == t
  {
  }

  /** The stripped text opens with the first key and a colon. */
  lemma StrippedStartsWithKey(es: seq<Entry>)
    requires es != [] && forall e :: e in es ==> WellFormed(e)
    ensures StartsWith(Join(StrippedLines(es), '\n'), es[0].0 + ":")
  {
    var lines := StrippedLines(es);
    var t, k := Join(lines, '\n'), es[0].0 + ":";
    StrippedLine(es, 0);
    JoinStarts(lines, '\n');
    assert t[..|k|] == lines[0][..|k|];
  }

  /** The stripped text closes with a colon and the last value's gap. */
  lemma StrippedEndsWithGap(es: seq<Entry>)
    ensures es != [] ==> EndsWith(Join(StrippedLines(es), '\n'), ":" + Gap(es[|es| - 1].1))
  {
    if es != [] {
      var lines, n := StrippedLines(es), |es|;
      var last := es[n - 1];
      var rest := if n > 1 then Join(lines[..n - 1], '\n') + ['\n'] else [];
      if n > 1 {
        JoinSnoc(lines, '\n');
      }
      TightLineGap(last);
      assert Join(lines, '\n') == (rest + last.0) + (":" + Gap(last.1));
      EndsWithAppended(":" + Gap(last.1));
    }
  }

  /** Text opening with a key and a colon opens with a colon-free mark
      only when the key does. */
  lemma MarkInKey(t: string, key: string, mark: string)
    requires StartsWith(t, key + ":") && ':' !in mark
    ensures StartsWith(t, mark) ==> StartsWith(key, mark)
  {
    PrefixesOverlap(t, mark, key + ":");
    PrefixesOverlap(t, key + ":", mark);
    PrefixesOverlap(mark, key + ":", mark);
    assert ':' in key + ":";
    if StartsWith(t, mark) && |mark| <= |key| {
      assert (key + ":")[..|mark|] == key[..|mark|];
    }
  }

  /** Text closing with a colon and the gap of a value closes with a mark
      free of colons and spaces only when the value does. */
  lemma MarkInValue(t: string, value: string, mark: string)
    requires mark != [] && ':' !in mark && ' ' !in mark
    requires EndsWith(t, ":" + Gap(value))
    ensures EndsWith(t, mark) ==> EndsWith(value, mark)
  {
    var tail := ":" + Gap(value);
    assert ':' in tail;
    SuffixesOverlap(t, mark, tail);
    SuffixesOverlap(t, tail, mark);
    SuffixesOverlap(mark, tail, mark);
    if value != [] {
      assert tail == ": " + value;
      EndsWithAppended(" " + value);
      EndsWithAppended(value);
      assert EndsWith(tail, " " + value) && EndsWith(tail, value);
      assert ' ' in " " + value;
      SuffixesOverlap(tail, mark, " " + value);
      SuffixesOverlap(tail, " " + value, mark);
      SuffixesOverlap(mark, " " + value, mark);
      SuffixesOverlap(tail, mark, value);
    }
  }

  /** The first and last characters of a join are those of the first and
      last pieces, when these are not empty. */
  lemma {:induction false} JoinEnds(pieces: seq<string>, sep: char)
    requires pieces != [] && forall i :: 0 <= i < |pieces| ==> pieces[i] != []
    ensures var s := Join(pieces, sep);
      s != [] && s[0] == pieces[0][0] && s[|s| - 1] == pieces[|pieces| - 1][|pieces[|pieces| - 1]| - 1]
    decreases |pieces|
  {
    if |pieces| > 1 {
      JoinEnds(pieces[1..], sep);
    }
  }

  lemma {:induction false} EntriesOfLines(lines: seq<string>, es: seq<Entry>)
    requires |lines| == |es|
    requires forall i :: 0 <= i < |es| ==> KeyvalEntry(lines[i]) == Some(es[i])
    ensures KeyvalEntries(lines) == es
    decreases |es|
  {
    if es != [] {
      var n := |es| - 1;
      EntriesOfLines(lines[..n], es[..n]);
      EntriesOfLinesStep(lines, es);
    }
  }

  lemma EntriesOfLinesStep(lines: seq<string>, es: seq<Entry>)
    requires |lines| == |es| > 0
    requires KeyvalEntries(lines[..|es| - 1]) == es[..|es| - 1]
    requires KeyvalEntry(lines[|es| - 1]) == Some(es[|es| - 1])
    ensures KeyvalEntries(lines) == es
  {
    KeyvalEntriesStep(lines, |es| - 1);
    FrontLast(lines);
    FrontLast(es);
  }

  lemma KeyvalEntryRendered(e: Entry)
    requires WellFormed(e)
    ensures KeyvalEntry(e.0 + ": " + e.1) == Some(e)
  {
    SplitEntryOfRendered(e.0, e.1);
    ReplaceSpacesNoSpace(e.0);
  }

  // ---------------------------------------------------------------------
  // clean_text

  /** The punctuation `clean_text` keeps besides letters and digits. */
  const Punctuation: string := " .,;:!?()-/"

  predicate Kept(c: char) {
    IsAlnum(c) || c in Punctuation
  }

  /** The characters `clean_text` keeps, in their order. */
  function KeepAllowed(s: string): (r: string)
    ensures forall c :: c in r ==> Kept(c)
    decreases |s|
  {
    if s == [] then []
    else (if Kept(s[0]) then [s[0]] else []) + KeepAllowed(s[1..])
  }

  /** Single spaces between non-space characters, none at either end. */
  predicate SingleSpaced(s: string) {
    forall i :: 0 <= i < |s| && IsSpace(s[i]) ==> s[i] == ' ' && 0 < i < |s| - 1 && !IsSpace(s[i + 1])
  }

  /** What `clean_text` may return for a string: only kept characters,
      single-spaced. */
  predicate Clean(s: string) {
    (forall c :: c in s ==> Kept(c)) && SingleSpaced(s)
  }

  /** `clean_text` on a string: keep letters, digits and the punctuation,
      then `' '.join(cleaned.split())`. */
  function CleanText(text: string): (r: string)
    ensures Clean(r)
    ensures r != [] ==> r[0] != ' ' && r[|r| - 1] != ' '
    ensures forall i :: 0 <= i < |r| - 1 ==> !(r[i] == ' ' && r[i + 1] == ' ')
  {
    var kept := KeepAllowed(text);
    JoinedWordsClean(Words(kept), kept);
    Join(Words(kept), ' ')
  }

  lemma JoinedWordsClean(words: seq<string>, kept: string)
    requires forall c :: c in kept ==> Kept(c)
    requires forall w :: w in words ==> w != [] && forall c :: c in w ==> !IsSpace(c) && c in kept
    ensures Clean(Join(words, ' '))
  {
    JoinChars(words, ' ');
    JoinSingleSpaced(words);
  }

  lemma {:induction false} JoinChars(words: seq<string>, sep: char)
    ensures forall c :: c in Join(words, sep) ==> c == sep || exists w :: w in words && c in w
    decreases |words|
  {
    if |words| > 1 {
      JoinChars(words[1..], sep);
      assert forall w :: w in words[1..] ==> w in words;
    }
    if |words| == 1 {
      assert words[0] in words;
    }
  }

  lemma {:induction false} JoinSingleSpaced(words: seq<string>)
    requires forall w :: w in words ==> w != [] && forall c :: c in w ==> !IsSpace(c)
    ensures SingleSpaced(Join(words, ' '))
    decreases |words|
  {
    if words != [] {
      var w := words[0];
      assert w in words;
      assert forall i :: 0 <= i < |w| ==> w[i] in w;
      if |words| > 1 {
        assert forall x :: x in words[1..] ==> x in words;
        JoinSingleSpaced(words[1..]);
        var rest := Join(words[1..], ' ');
        var s := w + [' '] + rest;
        assert Join(words, ' ') == s;
        assert forall i :: 0 <= i < |words| - 1 ==> words[1..][i] in words;
        JoinEnds(words[1..], ' ');
        assert rest != [] && !IsSpace(rest[0]);
        forall i | 0 <= i < |s| && IsSpace(s[i])
          ensures s[i] == ' ' && 0 < i < |s| - 1 && !IsSpace(s[i + 1])
        {
          if i > |w| {
            assert s[i] == rest[i - |w| - 1];
          }
        }
      }
    }
  }

  /** Joining the words of a single-spaced string gives it back. */
  lemma {:induction false} SingleSpacedWords(s: string)
    requires SingleSpaced(s)
    ensures Join(Words(s), ' ') == s
    decreases |s|
  {
    if s != [] {
      assert !IsSpace(s[0]);
      var n := SpaceIndex(s);
      if n < |s| {
        assert s[n] == ' ' && n + 1 < |s| && !IsSpace(s[n + 1]);
        var rest := s[n + 1..];
        assert SingleSpaced(rest) by {
          forall i | 0 <= i < |rest| && IsSpace(rest[i])
            ensures rest[i] == ' ' && 0 < i < |rest| - 1 && !IsSpace(rest[i + 1])
          {
            assert rest[i] == s[n + 1 + i];
          }
        }
        SingleSpacedWords(rest);
        assert s[n..][1..] == rest;
        assert Words(s[n..]) == Words(rest);
        assert rest != [] && !IsSpace(rest[0]);
        assert Words(rest) != [];
        assert s == s[..n] + [' '] + rest;
      } else {
        assert s[n..] == [];
      }
    }
  }

  lemma {:induction false} KeepAllowedKeepsKept(s: string)
    requires forall c :: c in s ==> Kept(c)
    ensures KeepAllowed(s) == s
    decreases |s|
  {
    if s != [] {
      assert s[0] in s;
      assert forall c :: c in s[1..] ==> c in s;
      KeepAllowedKeepsKept(s[1..]);
      assert s == [s[0]] + s[1..];
    }
  }

  /** The characters of `text` that `clean_text` keeps and that are not
      whitespace, in their order. */
  function KeptVisible(text: string): string
    decreases |text|
  {
    if text == [] then []
    else (if Kept(text[0]) && !IsSpace(text[0]) then [text[0]] else []) + KeptVisible(text[1..])
  }

  /** `clean_text` keeps every allowed non-whitespace character of the text,
      in order, drops every other, and only rearranges whitespace: the
      result is "" exactly when the text has no such character. */
  lemma CleanTextKeeps(text: string)
    ensures NonSpace(CleanText(text)) == KeptVisible(text)
    ensures CleanText(text) == [] <==> KeptVisible(text) == []
  {
    var kept := KeepAllowed(text);
    KeepAllowedVisible(text);
    WordsKeepNonSpace(kept);
    JoinKeepsNonSpace(Words(kept));
    var r := CleanText(text);
    if r != [] {
      assert !IsSpace(r[0]);
      assert NonSpace(r) == [r[0]] + NonSpace(r[1..]);
    }
  }

  lemma {:induction false} KeepAllowedVisible(text: string)
    ensures NonSpace(KeepAllowed(text)) == KeptVisible(text)
    decreases |text|
  {
    if text != [] {
      KeepAllowedVisible(text[1..]);
      var head := if Kept(text[0]) then [text[0]] else [];
      NonSpaceAppend(head, KeepAllowed(text[1..]));
      if Kept(text[0]) {
        assert NonSpace(head) == (if IsSpace(text[0]) then [] else [text[0]]) + NonSpace([]);
      }
    }
  }

  /** A clean string is left as it is. */
  lemma CleanTextOfClean(s: string)
    requires Clean(s)
    ensures CleanText(s) == s
  {
    KeepAllowedKeepsKept(s);
    SingleSpacedWords(s);
  }

  /** Cleaning twice is cleaning once. */
  lemma CleanTextIdempotent(text: string)
    ensures CleanText(CleanText(text)) == CleanText(text)
  {
    CleanTextOfClean(CleanText(text));
  }

  /** A cell of a table: a string, or any other value (a number, a missing
      cell). */
  datatype Cell = Str(s: string) | NonString(repr: string)

  /** `clean_text` on any value: a value that is not a string comes back
      unchanged. */
  function CleanCell(cell: Cell): (r: Cell)
    ensures cell.NonString? ==> r == cell
    ensures cell.Str? ==> r.Str? && Clean(r.s)
  {
    match cell
    case Str(s) => Str(CleanText(s))
    case NonString(_) => cell
  }

  /** Cleaning any value twice is cleaning it once. */
  lemma CleanCellIdempotent(cell: Cell)
    ensures CleanCell(CleanCell(cell)) == CleanCell(cell)
  {
    if cell.Str? {
      CleanTextIdempotent(cell.s);
    }
  }
}
