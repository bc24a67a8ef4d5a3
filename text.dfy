/**
  Python `str` operations the two pipelines rely on: `isspace`, `strip`,
  `split(sep)`, `split()`, `splitlines()`, `sep.join(...)`, `replace` and
  `in`.  Strings are `seq<char>` over Unicode scalar values.
 */
module Text {

  /** Python's `str.isspace` for one character (the complete list of
      characters Python classifies as whitespace). */
  predicate IsSpace(c: char) {
    c == ' ' || ('\t' <= c <= '\r') || ('\U{1C}' <= c <= '\U{1F}')
    || c == '\U{85}' || c == '\U{A0}' || c == '\U{1680}'
    || ('\U{2000}' <= c <= '\U{200A}') || c == '\U{2028}' || c == '\U{2029}'
    || c == '\U{202F}' || c == '\U{205F}' || c == '\U{3000}'
  }

  /** The characters at which Python's `str.splitlines` breaks a line. */
  predicate IsLineBreak(c: char) {
    c == '\n' || c == '\r' || c == '\U{0B}' || c == '\U{0C}'
    || ('\U{1C}' <= c <= '\U{1E}') || c == '\U{85}' || c == '\U{2028}' || c == '\U{2029}'
  }

  /** `str.isalnum`, restricted to ASCII letters and digits. */
  predicate IsAlnum(c: char) {
    ('0' <= c <= '9') || ('A' <= c <= 'Z') || ('a' <= c <= 'z')
  }

  /** No whitespace at either end. */
  predicate Trimmed(s: string) {
    s == [] || (!IsSpace(s[0]) && !IsSpace(s[|s| - 1]))
  }

  /** `dict.get(key, default)` on a string map. */
  function Get(m: map<string, string>, key: string, default: string): (v: string)
    ensures key in m ==> v == m[key]
    ensures key !in m ==> v == default
  {
    if key in m then m[key] else default
  }

  /** `str.lstrip()`. */
  function TrimStart(s: string): (r: string)
    ensures |r| <= |s|
    ensures r != [] ==> !IsSpace(r[0])
    decreases |s|
  {
    if s != [] && IsSpace(s[0]) then TrimStart(s[1..]) else s
  }

  /** `str.rstrip()`. */
  function TrimEnd(s: string): (r: string)
    ensures |r| <= |s|
    ensures r != [] ==> !IsSpace(r[|r| - 1])
    decreases |s|
  {
    if s != [] && IsSpace(s[|s| - 1]) then TrimEnd(s[..|s| - 1]) else s
  }

  /** `lstrip` removes a prefix of whitespace and nothing else. */
  lemma {:induction false} TrimStartFacts(s: string)
    ensures var r := TrimStart(s);
      && r == s[|s| - |r|..]
      && forall i :: 0 <= i < |s| - |r| ==> IsSpace(s[i])
    decreases |s|
  {
    if s != [] && IsSpace(s[0]) {
      TrimStartFacts(s[1..]);
    }
  }

  /** `rstrip` removes a suffix of whitespace and nothing else. */
  lemma {:induction false} TrimEndFacts(s: string)
    ensures var r := TrimEnd(s);
      && r == s[..|r|]
      && forall i :: |r| <= i < |s| ==> IsSpace(s[i])
    decreases |s|
  {
    if s != [] && IsSpace(s[|s| - 1]) {
      TrimEndFacts(s[..|s| - 1]);
    }
  }

  /** `str.strip()`: no whitespace at either end, and a string that has
      none there is left as it is. */
  function Strip(s: string): (r: string)
    ensures Trimmed(r) && |r| <= |s|
    ensures Trimmed(s) ==> r == s
  {
    TrimEndFacts(TrimStart(s));
    TrimEnd(TrimStart(s))
  }

  /** `strip` removes whitespace only: it keeps every other character, adds
      none, and leaves nothing only of an all-whitespace string. */
  lemma StripKeeps(s: string)
    ensures forall c :: c in Strip(s) ==> c in s
    ensures forall i :: 0 <= i < |s| && !IsSpace(s[i]) ==> s[i] in Strip(s)
    ensures Strip(s) == [] <==> forall i :: 0 <= i < |s| ==> IsSpace(s[i])
  {
    var a := TrimStart(s);
    var r := TrimEnd(a);
    var d := |s| - |a|;
    TrimStartFacts(s);
    TrimEndFacts(a);
    assert forall c :: c in r ==> c in a;
    forall i | 0 <= i < |s| && !IsSpace(s[i]) ensures s[i] in r {
      assert d <= i;
      assert s[i] == a[i - d];
      assert i - d < |r|;
      assert r[i - d] == a[i - d];
    }
  }

  /** Position of the first `c` in `s`, or `|s|` when `c !in s`. */
  function IndexOf(s: string, c: char): (i: nat)
    ensures i <= |s|
    ensures i < |s| ==> s[i] == c
    ensures c !in s[..i]
    ensures i == |s| <==> c !in s
    decreases |s|
  {
    if s == [] then 0
    else if s[0] == c then 0
    else
      var j := IndexOf(s[1..], c);
      assert s[..j + 1] == [s[0]] + s[1..][..j];
      j + 1
  }

  /** Position of the first whitespace character in `s`, or `|s|`. */
  function SpaceIndex(s: string): (i: nat)
    ensures i <= |s|
    ensures i < |s| ==> IsSpace(s[i])
    ensures forall j :: 0 <= j < i ==> !IsSpace(s[j])
    decreases |s|
  {
    if s == [] || IsSpace(s[0]) then 0 else SpaceIndex(s[1..]) + 1
  }

  /** Position of the first line-break character in `s`, or `|s|`. */
  function LineBreakIndex(s: string): (i: nat)
    ensures i <= |s|
    ensures i < |s| ==> IsLineBreak(s[i])
    ensures forall j :: 0 <= j < i ==> !IsLineBreak(s[j])
    decreases |s|
  {
    if s == [] || IsLineBreak(s[0]) then 0 else LineBreakIndex(s[1..]) + 1
  }

  /** `sep.join(pieces)` for a one-character separator. */
  function Join(pieces: seq<string>, sep: char): string
    decreases |pieces|
  {
    if pieces == [] then []
    else if |pieces| == 1 then pieces[0]
    else pieces[0] + [sep] + Join(pieces[1..], sep)
  }

  /** `s.split(sep)` for a one-character separator: never empty, and no
      piece contains the separator. */
  function Split(s: string, sep: char): (pieces: seq<string>)
    ensures |pieces| > 0
    ensures forall p :: p in pieces ==> sep !in p
    decreases |s|
  {
    var i := IndexOf(s, sep);
    if i == |s| then [s] else [s[..i]] + Split(s[i + 1..], sep)
  }

  /** Splitting and joining again gives back the string. */
  lemma {:induction false} SplitThenJoin(s: string, sep: char)
    ensures Join(Split(s, sep), sep) == s
    decreases |s|
  {
    var i := IndexOf(s, sep);
    if i < |s| {
      SplitThenJoin(s[i + 1..], sep);
      assert s == s[..i] + [sep] + s[i + 1..];
    }
  }

  /** Joining pieces free of the separator and splitting again gives back
      the pieces. */
  lemma {:induction false} JoinThenSplit(pieces: seq<string>, sep: char)
    requires |pieces| > 0
    requires forall p :: p in pieces ==> sep !in p
    ensures Split(Join(pieces, sep), sep) == pieces
    decreases |pieces|
  {
    var s := Join(pieces, sep);
    if |pieces| == 1 {
      assert IndexOf(s, sep) == |s|;
    } else {
      var rest := Join(pieces[1..], sep);
      assert s == pieces[0] + [sep] + rest;
      var p0 := pieces[0];
      assert p0 in pieces;
      assert s[..|p0|] == p0;
      assert s[|p0|] == sep;
      IndexOfAfter(p0, sep, rest);
      assert s[|p0| + 1..] == rest;
      JoinThenSplit(pieces[1..], sep);
    }
  }

  /** A join starts with its first piece. */
  lemma JoinStarts(pieces: seq<string>, sep: char)
    requires pieces != []
    ensures StartsWith(Join(pieces, sep), pieces[0])
  {
    if |pieces| > 1 {
      assert (pieces[0] + [sep] + Join(pieces[1..], sep))[..|pieces[0]|] == pieces[0];
    }
  }

  /** A join of several pieces is the join of all but the last, the
      separator and the last piece. */
  lemma {:induction false} JoinSnoc(pieces: seq<string>, sep: char)
    requires |pieces| > 1
    ensures Join(pieces, sep) == Join(pieces[..|pieces| - 1], sep) + [sep] + pieces[|pieces| - 1]
    decreases |pieces|
  {
    var n := |pieces|;
    if n > 2 {
      JoinSnoc(pieces[1..], sep);
      assert pieces[1..][..n - 2] == pieces[..n - 1][1..];
      assert pieces[..n - 1][0] == pieces[0];
    } else {
      assert pieces[..1] == [pieces[0]];
    }
  }

  /** `rstrip` of text whose last part opens with a non-whitespace
      character only shortens that part. */
  lemma {:induction false} TrimEndAfter(p: string, l: string)
    requires l != [] && !IsSpace(l[0])
    ensures TrimEnd(p + l) == p + TrimEnd(l)
    decreases |l|
  {
    var s := p + l;
    if IsSpace(l[|l| - 1]) {
      assert s[..|s| - 1] == p + l[..|l| - 1];
      TrimEndAfter(p, l[..|l| - 1]);
    }
  }

  /** `strip` of text opening with a non-whitespace character and closing
      with a part that also opens with one only strips that part. */
  lemma StripAfter(p: string, l: string)
    requires p != [] && !IsSpace(p[0]) && l != [] && !IsSpace(l[0])
    ensures Strip(p + l) == p + Strip(l)
  {
    assert (p + l)[0] == p[0];
    assert TrimStart(p + l) == p + l;
    assert TrimStart(l) == l;
    TrimEndAfter(p, l);
  }

  /** `strip` of a join whose first and last pieces open with
      non-whitespace only strips the last piece. */
  lemma StripJoin(pieces: seq<string>, sep: char)
    requires pieces != [] && pieces[0] != [] && !IsSpace(pieces[0][0])
    requires pieces[|pieces| - 1] != [] && !IsSpace(pieces[|pieces| - 1][0])
    ensures Strip(Join(pieces, sep)) == Join(pieces[..|pieces| - 1] + [Strip(pieces[|pieces| - 1])], sep)
  {
    var n := |pieces|;
    var last := pieces[n - 1];
    var q := pieces[..n - 1] + [Strip(last)];
    if n == 1 {
      assert q == [Strip(last)];
    } else {
      var init := pieces[..n - 1];
      assert q[..n - 1] == init && q[n - 1] == Strip(last);
      JoinSnoc(pieces, sep);
      JoinSnoc(q, sep);
      var p := Join(init, sep) + [sep];
      JoinStarts(init, sep);
      assert p[0] == init[0][0];
      StripAfter(p, last);
    }
  }

  lemma IndexOfAfter(a: string, c: char, b: string)
    requires c !in a
    ensures IndexOf(a + [c] + b, c) == |a|
  {
    var s := a + [c] + b;
    assert s[..|a|] == a;
    assert s[|a|] == c;
    assert forall j :: 0 <= j < |a| ==> s[j] == a[j];
  }

  /** `s.splitlines()`: the lines without their terminators; `"\r\n"`
      ends one line, and a final terminator opens no empty line. */
  function SplitLines(s: string): (lines: seq<string>)
    ensures forall l :: l in lines ==> forall c :: c in l ==> !IsLineBreak(c)
    decreases |s|
  {
    if s == [] then []
    else
      var i := LineBreakIndex(s);
      if i == |s| then [s]
      else
        var width := if s[i] == '\r' && i + 1 < |s| && s[i + 1] == '\n' then 2 else 1;
        [s[..i]] + SplitLines(s[i + width..])
  }

  /** Non-empty lines free of line breaks, joined with `"\n"`, come back
      from `splitlines`. */
  lemma {:induction false} JoinThenSplitLines(lines: seq<string>)
    requires |lines| > 0
    requires forall l :: l in lines ==> l != [] && forall c :: c in l ==> !IsLineBreak(c)
    ensures SplitLines(Join(lines, '\n')) == lines
    decreases |lines|
  {
    var l0 := lines[0];
    assert l0 in lines;
    if |lines| == 1 {
      assert Join(lines, '\n') == l0;
      LineBreakIndexAfter(l0, []);
      assert l0 + [] == l0;
    } else {
      var tail := lines[1..];
      var rest := Join(tail, '\n');
      var s := l0 + ['\n'] + rest;
      assert Join(lines, '\n') == s;
      LineBreakIndexAfter(l0, ['\n'] + rest);
      assert s == l0 + (['\n'] + rest);
      assert s[..|l0|] == l0;
      assert s[|l0| + 1..] == rest;
      forall l | l in tail ensures l != [] && forall c :: c in l ==> !IsLineBreak(c) {
        assert l in lines;
      }
      JoinThenSplitLines(tail);
      assert SplitLines(s) == [l0] + SplitLines(rest);
      assert lines == [l0] + tail;
    }
  }

  lemma {:induction false} LineBreakIndexAfter(a: string, b: string)
    requires forall c :: c in a ==> !IsLineBreak(c)
    requires b == [] || IsLineBreak(b[0])
    ensures LineBreakIndex(a + b) == |a|
    decreases |a|
  {
    if a != [] {
      assert a[0] in a;
      assert (a + b)[1..] == a[1..] + b;
      assert forall c :: c in a[1..] ==> c in a;
      LineBreakIndexAfter(a[1..], b);
    }
  }

  /** `s.split()` with no argument: the maximal runs of non-whitespace. */
  function Words(s: string): (words: seq<string>)
    ensures forall w :: w in words ==> w != [] && forall c :: c in w ==> !IsSpace(c) && c in s
    decreases |s|
  {
    if s == [] then []
    else if IsSpace(s[0]) then Words(s[1..])
    else
      var n := SpaceIndex(s);
      assert forall c :: c in s[..n] ==> !IsSpace(c) && c in s;
      [s[..n]] + Words(s[n..])
  }

  /** `s.replace(' ', '_')`. */
  function ReplaceSpaces(s: string): (r: string)
    ensures |r| == |s| && ' ' !in r
    ensures forall i :: 0 <= i < |s| ==> r[i] == if s[i] == ' ' then '_' else s[i]
  {
    seq(|s|, i requires 0 <= i < |s| => if s[i] == ' ' then '_' else s[i])
  }

  /** A string without spaces is left as it is by `replace(' ', '_')`. */
  lemma ReplaceSpacesNoSpace(s: string)
    requires ' ' !in s
    ensures ReplaceSpaces(s) == s
  {
  }

  /** Python's `str(n)` for a natural number: its decimal digits. */
  function Numeral(n: nat): (r: string)
    ensures r != [] && forall c :: c in r ==> '0' <= c <= '9'
    ensures n < 10 ==> r == [(48 + n) as char]
  {
    if n < 10 then [(48 + n) as char] else Numeral(n / 10) + [(48 + n % 10) as char]
  }

  /** `s.endswith(suffix)`. */
  predicate EndsWith(s: string, suffix: string) {
    |suffix| <= |s| && s[|s| - |suffix|..] == suffix
  }

  /** `s.startswith(prefix)`. */
  predicate StartsWith(s: string, prefix: string) {
    |prefix| <= |s| && s[..|prefix|] == prefix
  }

  /** A string followed by a suffix ends with it. */
  lemma EndsWithAppended(suffix: string)
    ensures forall s :: EndsWith(s + suffix, suffix)
  {
    forall s ensures EndsWith(s + suffix, suffix) {
      assert (s + suffix)[|s|..] == suffix;
    }
  }

  /** Of two prefixes of one string, the shorter is a prefix of the longer,
      and a prefix holds only characters of the string. */
  lemma PrefixesOverlap(t: string, x: string, y: string)
    ensures StartsWith(t, x) && StartsWith(t, y) && |x| <= |y| ==> StartsWith(y, x)
    ensures StartsWith(t, x) ==> forall c :: c in x ==> c in t
  {
    if StartsWith(t, x) && StartsWith(t, y) && |x| <= |y| {
      assert y[..|x|] == t[..|y|][..|x|];
    }
  }

  /** Of two suffixes of one string, the shorter is a suffix of the longer,
      and a suffix holds only characters of the string. */
  lemma SuffixesOverlap(t: string, x: string, y: string)
    ensures EndsWith(t, x) && EndsWith(t, y) && |x| <= |y| ==> EndsWith(y, x)
    ensures EndsWith(t, x) ==> forall c :: c in x ==> c in t
  {
    if EndsWith(t, x) && EndsWith(t, y) && |x| <= |y| {
      assert y[|y| - |x|..] == t[|t| - |y|..][|y| - |x|..];
    }
  }

  /** A non-empty sequence is its front followed by its last element. */
  lemma FrontLast<T>(s: seq<T>)
    requires s != []
    ensures s[..|s| - 1] + [s[|s| - 1]] == s && s[..|s|] == s
  {
  }

  // ---------------------------------------------------------------------
  // What `split()` keeps

  /** The non-whitespace characters of `s`, in their order. */
  function NonSpace(s: string): string
    decreases |s|
  {
    if s == [] then []
    else (if IsSpace(s[0]) then [] else [s[0]]) + NonSpace(s[1..])
  }

  /** The pieces, one after another. */
  function Concat(pieces: seq<string>): string
    decreases |pieces|
  {
    if pieces == [] then [] else pieces[0] + Concat(pieces[1..])
  }

  lemma {:induction false} NonSpaceAppend(a: string, b: string)
    ensures NonSpace(a + b) == NonSpace(a) + NonSpace(b)
    decreases |a|
  {
    if a != [] {
      assert (a + b)[0] == a[0] && (a + b)[1..] == a[1..] + b;
      NonSpaceAppend(a[1..], b);
    } else {
      assert a + b == b;
    }
  }

  lemma {:induction false} NonSpaceOfWord(w: string)
    requires forall c :: c in w ==> !IsSpace(c)
    ensures NonSpace(w) == w
    decreases |w|
  {
    if w != [] {
      assert w[0] in w;
      assert forall c :: c in w[1..] ==> c in w;
      NonSpaceOfWord(w[1..]);
    }
  }

  /** `split()` drops the whitespace and keeps every other character, in
      order. */
  lemma {:induction false} WordsKeepNonSpace(s: string)
    ensures Concat(Words(s)) == NonSpace(s)
    decreases |s|
  {
    if s != [] && !IsSpace(s[0]) {
      var n := SpaceIndex(s);
      WordsKeepNonSpace(s[n..]);
      assert forall c :: c in s[..n] ==> !IsSpace(c);
      NonSpaceOfWord(s[..n]);
      assert s == s[..n] + s[n..];
      NonSpaceAppend(s[..n], s[n..]);
      assert Words(s) == [s[..n]] + Words(s[n..]);
      assert ([s[..n]] + Words(s[n..]))[1..] == Words(s[n..]);
    } else if s != [] {
      WordsKeepNonSpace(s[1..]);
    }
  }

  /** Joining whitespace-free words with a space adds no other character. */
  lemma {:induction false} JoinKeepsNonSpace(words: seq<string>)
    requires forall w :: w in words ==> forall c :: c in w ==> !IsSpace(c)
    ensures NonSpace(Join(words, ' ')) == Concat(words)
    decreases |words|
  {
    if words != [] {
      assert words[0] in words;
      NonSpaceOfWord(words[0]);
      if |words| == 1 {
        assert Concat(words) == words[0] + Concat([]);
      } else {
        var first, rest := words[0], words[1..];
        assert forall w :: w in rest ==> w in words;
        JoinKeepsNonSpace(rest);
        assert Join(words, ' ') == (first + [' ']) + Join(rest, ' ');
        NonSpaceAppend(first + [' '], Join(rest, ' '));
        NonSpaceAppend(first, [' ']);
        assert NonSpace([' ']) == [];
        calc {
          NonSpace(Join(words, ' '));
          NonSpace(first + [' ']) + NonSpace(Join(rest, ' '));
          (first + []) + Concat(rest);
          { assert first + [] == first; }
          Concat(words);
        }
      }
    }
  }
}
