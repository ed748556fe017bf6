/** The string operations the record parser is built from: trimming
    whitespace, stripping a trailing character, splitting on a separator,
    splitting at the first separator, and splitting text into lines.

    featgraph runs on byte strings: its whitespace set is the C `isspace`
    set (space, tab, line feed, carriage return, vertical tab, form feed)
    and its line breaks are line feed, carriage return and the pair CR LF. */
module Text {
  import opened Results

  predicate IsWhitespace(c: char) {
    c == ' ' || c == '\t' || c == '\n' || c == '\r' || c == '\U{0B}' || c == '\U{0C}'
  }

  predicate AllWhitespace(s: string) {
    forall i :: 0 <= i < |s| ==> IsWhitespace(s[i])
  }

  predicate IsLineBreak(c: char) {
    c == '\n' || c == '\r'
  }

  predicate NoLineBreak(s: string) {
    forall i :: 0 <= i < |s| ==> !IsLineBreak(s[i])
  }

  /** Index of the first occurrence of `c` in `s`, or `|s|` when there is none. */
  function IndexOf(s: string, c: char): (i: nat)
    ensures i <= |s|
    ensures c !in s[..i]
    ensures i < |s| ==> s[i] == c
    ensures i == |s| <==> c !in s
  {
    if s == [] then 0
    else if s[0] == c then 0
    else
      assert s[1..][..IndexOf(s[1..], c)] == s[1..IndexOf(s[1..], c) + 1];
      1 + IndexOf(s[1..], c)
  }

  // ---------------------------------------------------------------------
  // Trimming

  /** `r` has no whitespace at either end. */
  predicate Tight(r: string) {
    r == [] || (!IsWhitespace(r[0]) && !IsWhitespace(r[|r| - 1]))
  }

  /** `s` is `r` with only whitespace added in front and behind. */
  ghost predicate Surrounded(s: string, r: string) {
    exists w1, w2 :: s == w1 + r + w2 && AllWhitespace(w1) && AllWhitespace(w2)
  }

  /** Python's `strip()` with no argument: removes whitespace from both ends. */
  function Strip(s: string): (r: string)
    ensures Tight(r)
    ensures Surrounded(s, r)
    decreases |s|
  {
    if s != [] && IsWhitespace(s[0]) then
      var r := Strip(s[1..]);
      SurroundedFront(s, r);
      r
    else if s != [] && IsWhitespace(s[|s| - 1]) then
      var r := Strip(s[..|s| - 1]);
      SurroundedBack(s, r);
      r
    else
      SurroundedSelf(s);
      s
  }

  lemma SurroundedSelf(s: string)
    ensures Surrounded(s, s)
  {
    var w: string := [];
    assert AllWhitespace(w);
    assert s == w + s + w;
  }

  lemma SurroundedFront(s: string, r: string)
    requires s != [] && IsWhitespace(s[0]) && Surrounded(s[1..], r)
    ensures Surrounded(s, r)
  {
    var w1, w2 :| s[1..] == w1 + r + w2 && AllWhitespace(w1) && AllWhitespace(w2);
    assert s == ([s[0]] + w1) + r + w2;
    assert AllWhitespace([s[0]] + w1);
  }

  lemma SurroundedBack(s: string, r: string)
    requires s != [] && IsWhitespace(s[|s| - 1]) && Surrounded(s[..|s| - 1], r)
    ensures Surrounded(s, r)
  {
    var w1, w2 :| s[..|s| - 1] == w1 + r + w2 && AllWhitespace(w1) && AllWhitespace(w2);
    assert s == w1 + r + (w2 + [s[|s| - 1]]);
    assert AllWhitespace(w2 + [s[|s| - 1]]);
  }

  /** Any tight text with only whitespace around it is the strip: the two
      conditions of Strip's contract determine its result. */
  lemma {:induction false} StripUnique(w1: string, r: string, w2: string)
    requires AllWhitespace(w1) && AllWhitespace(w2) && Tight(r)
    ensures Strip(w1 + r + w2) == r
    decreases |w1| + |w2|
  {
    var s := w1 + r + w2;
    if w1 != [] {
      assert s[0] == w1[0];
      assert s[1..] == w1[1..] + r + w2;
      StripUnique(w1[1..], r, w2);
    } else if r == [] && w2 != [] {
      assert s == w2;
      assert s[1..] == [] + [] + w2[1..];
      StripUnique([], [], w2[1..]);
    } else if r == [] {
      assert s == [];
    } else if w2 != [] {
      assert s[0] == r[0];
      assert s[|s| - 1] == w2[|w2| - 1];
      assert s[..|s| - 1] == [] + r + w2[..|w2| - 1];
      StripUnique([], r, w2[..|w2| - 1]);
    } else {
      assert s == r;
      assert s[0] == r[0] && s[|s| - 1] == r[|r| - 1];
    }
  }

  /** Extra whitespace around a text does not change its strip. */
  lemma StripPadded(w1: string, s: string, w2: string)
    requires AllWhitespace(w1) && AllWhitespace(w2)
    ensures Strip(w1 + s + w2) == Strip(s)
  {
    var r := Strip(s);
    var a, b := StripMargins(s);
    var front, back := w1 + a, b + w2;
    Regroup(w1, a, r, b, w2);
    AllWhitespaceAppend(w1, a);
    AllWhitespaceAppend(b, w2);
    StripUnique(front, r, back);
  }

  lemma Regroup(w1: string, a: string, r: string, b: string, w2: string)
    ensures w1 + (a + r + b) + w2 == (w1 + a) + r + (b + w2)
  {
    var mid := (w1 + a) + r;
    assert w1 + (a + r + b) == mid + b;
    assert mid + b + w2 == mid + (b + w2);
  }

  /** The whitespace that strip() removes in front and behind. */
  lemma StripMargins(s: string) returns (a: string, b: string)
    ensures s == a + Strip(s) + b && AllWhitespace(a) && AllWhitespace(b)
  {
    a, b :| s == a + Strip(s) + b && AllWhitespace(a) && AllWhitespace(b);
  }

  lemma AllWhitespaceAppend(a: string, b: string)
    requires AllWhitespace(a) && AllWhitespace(b)
    ensures AllWhitespace(a + b)
  {
    assert forall i :: |a| <= i < |a + b| ==> (a + b)[i] == b[i - |a|];
  }

  /** Stripping twice is stripping once. */
  lemma StripIdempotent(s: string)
    ensures Strip(Strip(s)) == Strip(s)
  {
    var r := Strip(s);
    assert r == [] + r + [];
    StripUnique([], r, []);
  }

  /** Text without whitespace at its ends trims to itself, and so does the
      text after one space. */
  lemma StripSpaced(t: string)
    requires Tight(t)
    ensures Strip(t) == t
    ensures Strip(" " + t) == t
  {
    assert t == [] + t + [];
    StripUnique([], t, []);
    assert AllWhitespace(" ");
    assert " " + t == " " + t + [];
    StripUnique(" ", t, []);
  }

  /** A character that is not whitespace is in `Strip(s)` exactly when it is in `s`. */
  lemma StripKeepsNonWhitespace(s: string, c: char)
    requires !IsWhitespace(c)
    ensures c in Strip(s) <==> c in s
  {
    var r := Strip(s);
    var w1, w2 :| s == w1 + r + w2 && AllWhitespace(w1) && AllWhitespace(w2);
    assert c !in w1 by {
      forall j | 0 <= j < |w1|
        ensures w1[j] != c
      {
      }
    }
    assert c !in w2 by {
      forall j | 0 <= j < |w2|
        ensures w2[j] != c
      {
      }
    }
  }

  /** Python's `rstrip(c)` for a single character `c`: drops every trailing `c`. */
  function RStripChar(s: string, c: char): (r: string)
    ensures |r| <= |s| && r == s[..|r|]
    ensures forall i :: |r| <= i < |s| ==> s[i] == c
    ensures r == [] || r[|r| - 1] != c
  {
    if s != [] && s[|s| - 1] == c then RStripChar(s[..|s| - 1], c) else s
  }

  /** When `s` does not end in `c`, `rstrip(c)` leaves it alone. */
  lemma RStripCharNoOp(s: string, c: char)
    requires s != [] && s[|s| - 1] != c
    ensures RStripChar(s, c) == s
  {
  }

  // ---------------------------------------------------------------------
  // Splitting

  /** Python's `s.split(sep, 1)` guarded by `sep in s`: the text before the
      first `sep` and the text after it, or None when `sep` does not occur. */
  function SplitFirst(s: string, sep: char): (r: Option<(string, string)>)
    ensures r.None? <==> sep !in s
    ensures r.Some? ==> sep !in r.value.0 && s == r.value.0 + [sep] + r.value.1
  {
    var i := IndexOf(s, sep);
    if i == |s| then None
    else
      assert s == s[..i] + [sep] + s[i + 1..];
      Some((s[..i], s[i + 1..]))
  }

  /** The first `c` of `s` is at `k` when `s[k]` is `c` and nothing before it is. */
  lemma {:induction false} IndexOfAt(s: string, c: char, k: nat)
    requires k < |s| && s[k] == c && c !in s[..k]
    ensures IndexOf(s, c) == k
    decreases k
  {
    if k > 0 {
      assert s[..k][0] == s[0];
      assert s[1..][..k - 1] == s[1..k];
      forall j | 0 <= j < k - 1
        ensures s[1..k][j] != c
      {
        assert s[1..k][j] == s[..k][j + 1];
      }
      IndexOfAt(s[1..], c, k - 1);
    }
  }

  /** Only the first separator splits: whatever follows it, separators
      included, is the second part. */
  lemma SplitFirstOf(a: string, sep: char, b: string)
    requires sep !in a
    ensures SplitFirst(a + [sep] + b, sep) == Some((a, b))
  {
    var s := a + [sep] + b;
    assert s[..|a|] == a;
    IndexOfAt(s, sep, |a|);
    assert s[|a| + 1..] == b;
  }

  /** Joins `parts` with `sep` between consecutive ones. */
  function Join(parts: seq<string>, sep: char): string
  {
    if |parts| == 0 then []
    else if |parts| == 1 then parts[0]
    else parts[0] + [sep] + Join(parts[1..], sep)
  }

  /** Text put in front of the first part comes first in the join. */
  lemma JoinPrefixed(p: string, parts: seq<string>, sep: char)
    requires |parts| >= 1
    ensures Join([p + parts[0]] + parts[1..], sep) == p + Join(parts, sep)
  {
    var ps := [p + parts[0]] + parts[1..];
    assert ps[0] == p + parts[0];
    if |parts| > 1 {
      assert ps[1..] == parts[1..];
    }
  }

  /** Python's `s.split(sep)` for a single-character separator: never empty,
      no part holds the separator, and joining the parts gives `s` back. */
  function SplitOn(s: string, sep: char): (parts: seq<string>)
    ensures |parts| >= 1
    ensures forall i :: 0 <= i < |parts| ==> sep !in parts[i]
    ensures Join(parts, sep) == s
    decreases |s|
  {
    var i := IndexOf(s, sep);
    if i == |s| then
      assert s[..i] == s;
      [s]
    else
      var rest := SplitOn(s[i + 1..], sep);
      var parts := [s[..i]] + rest;
      assert parts[1..] == rest;
      assert s == s[..i] + [sep] + s[i + 1..];
      parts
  }

  /** Splitting the joined parts gives the parts back. */
  lemma {:induction false} SplitOnJoin(parts: seq<string>, sep: char)
    requires |parts| >= 1
    requires forall i :: 0 <= i < |parts| ==> sep !in parts[i]
    ensures SplitOn(Join(parts, sep), sep) == parts
    decreases |parts|
  {
    var s := Join(parts, sep);
    if |parts| == 1 {
      assert sep !in s;
      assert IndexOf(s, sep) == |s|;
    } else {
      var tail := Join(parts[1..], sep);
      assert s == parts[0] + [sep] + tail;
      assert s[..|parts[0]|] == parts[0];
      IndexOfAt(s, sep, |parts[0]|);
      assert s[|parts[0]| + 1..] == tail;
      SplitOnJoin(parts[1..], sep);
    }
  }

  // ---------------------------------------------------------------------
  // Lines

  /** Index of the first line break of `s`, or `|s|` when there is none. */
  function LineEnd(s: string): (i: nat)
    ensures i <= |s|
    ensures NoLineBreak(s[..i])
    ensures i < |s| ==> IsLineBreak(s[i])
  {
    if s == [] || IsLineBreak(s[0]) then 0
    else
      assert s[1..][..LineEnd(s[1..])] == s[1..LineEnd(s[1..]) + 1];
      1 + LineEnd(s[1..])
  }

  /** The first line break of `s` is at `k` when `s[k]` is one and nothing before it is. */
  lemma {:induction false} LineEndAt(s: string, k: nat)
    requires k < |s| && IsLineBreak(s[k]) && NoLineBreak(s[..k])
    ensures LineEnd(s) == k
    decreases k
  {
    if k > 0 {
      assert s[..k][0] == s[0];
      var t := s[1..][..k - 1];
      forall j | 0 <= j < k - 1
        ensures !IsLineBreak(t[j])
      {
        assert t[j] == s[..k][j + 1];
      }
      LineEndAt(s[1..], k - 1);
    }
  }

  /** Where the next line starts after a break at `i`; CR LF is one break. */
  function NextLineStart(s: string, i: nat): (j: nat)
    requires i < |s|
    ensures i < j <= |s|
  {
    if s[i] == '\r' && i + 1 < |s| && s[i + 1] == '\n' then i + 2 else i + 1
  }

  /** Text made of pieces without line breaks has no line break. */
  lemma NoLineBreakAppend(a: string, b: string)
    requires NoLineBreak(a) && NoLineBreak(b)
    ensures NoLineBreak(a + b)
  {
    assert forall i :: |a| <= i < |a + b| ==> (a + b)[i] == b[i - |a|];
  }

  /** Joined parts without line breaks, around a separator that is not
      one, have no line break. */
  lemma {:induction false} JoinUnbroken(parts: seq<string>, sep: char)
    requires !IsLineBreak(sep)
    requires forall i :: 0 <= i < |parts| ==> NoLineBreak(parts[i])
    ensures NoLineBreak(Join(parts, sep))
    decreases |parts|
  {
    if |parts| > 1 {
      JoinUnbroken(parts[1..], sep);
      NoLineBreakAppend(parts[0], [sep]);
      NoLineBreakAppend(parts[0] + [sep], Join(parts[1..], sep));
    }
  }

  /** Joined non-empty parts start with the first part's first character
      and end with the last part's last character. */
  lemma {:induction false} JoinEnds(parts: seq<string>, sep: char)
    requires |parts| >= 1
    requires forall i :: 0 <= i < |parts| ==> parts[i] != []
    ensures var s := Join(parts, sep);
      var last := parts[|parts| - 1];
      && s != []
      && s[0] == parts[0][0]
      && s[|s| - 1] == last[|last| - 1]
    decreases |parts|
  {
    if |parts| > 1 {
      JoinEnds(parts[1..], sep);
    }
  }

  /** Python's `splitlines()`: the lines of `s` without their terminators; a
      final terminator does not start an empty last line. */
  function SplitLines(s: string): (lines: seq<string>)
    ensures forall k :: 0 <= k < |lines| ==> NoLineBreak(lines[k])
    decreases |s|
  {
    if s == [] then []
    else
      var i := LineEnd(s);
      if i == |s| then [s]
      else [s[..i]] + SplitLines(s[NextLineStart(s, i)..])
  }

  /** The three line terminators `splitlines()` recognises in a byte
      string: LF, CR, and CR LF taken together. */
  predicate IsTerminator(t: string) {
    t == "\n" || t == "\r" || t == "\r\n"
  }

  /** Each line followed by its own terminator, all concatenated. */
  function Glue(lines: seq<string>, ends: seq<string>): string
    requires |ends| == |lines|
  {
    if lines == [] then [] else lines[0] + ends[0] + Glue(lines[1..], ends[1..])
  }

  /** `lines` with terminators `ends` is a split of some text into lines:
      no line holds a break, every line but the last is terminated, the
      last is terminated or not empty, and a lone CR is never followed by an
      empty line ended by a bare LF (that pair would be one CR LF break). */
  predicate LinesOf(lines: seq<string>, ends: seq<string>) {
    && |ends| == |lines|
    && (forall k :: 0 <= k < |lines| ==> NoLineBreak(lines[k]))
    && (forall k :: 0 <= k < |ends| - 1 ==> IsTerminator(ends[k]))
    && (|ends| > 0 ==>
          IsTerminator(ends[|ends| - 1]) || (ends[|ends| - 1] == [] && lines[|lines| - 1] != []))
    && (forall k :: 0 <= k < |ends| - 1 && ends[k] == "\r" && lines[k + 1] == [] ==> ends[k + 1] != "\n")
  }

  /** The terminator `splitlines()` consumed after each line of `s`; the
      empty string after a final line that has none. */
  function LineEnds(s: string): seq<string>
    decreases |s|
  {
    if s == [] then []
    else
      var i := LineEnd(s);
      if i == |s| then [[]]
      else [s[i..NextLineStart(s, i)]] + LineEnds(s[NextLineStart(s, i)..])
  }

  /** A split with one more line in front is a split, provided a lone CR
      in front is not followed by an empty line ended by LF. */
  lemma LinesOfCons(l: string, e: string, lines: seq<string>, ends: seq<string>)
    requires LinesOf(lines, ends) && NoLineBreak(l) && IsTerminator(e)
    requires e == "\r" && lines != [] && lines[0] == [] ==> ends[0] != "\n"
    ensures LinesOf([l] + lines, [e] + ends)
  {
    var ls, es := [l] + lines, [e] + ends;
    forall k | 0 <= k < |es| - 1 && es[k] == "\r" && ls[k + 1] == []
      ensures es[k + 1] != "\n"
    {
      if k > 0 {
        assert es[k] == ends[k - 1] && ls[k + 1] == lines[k] && es[k + 1] == ends[k];
      }
    }
    assert forall k :: 0 < k < |ls| ==> ls[k] == lines[k - 1];
  }

  /** The tail of a split is a split. */
  lemma LinesOfTail(lines: seq<string>, ends: seq<string>)
    requires LinesOf(lines, ends) && lines != []
    ensures LinesOf(lines[1..], ends[1..])
  {
    var lt, et := lines[1..], ends[1..];
    forall k | 0 <= k < |et| - 1 && et[k] == "\r" && lt[k + 1] == []
      ensures et[k + 1] != "\n"
    {
      assert et[k] == ends[k + 1] && lt[k + 1] == lines[k + 2];
    }
  }

  /** The break at `i` is one of the three terminators. */
  lemma TerminatorAt(s: string, i: nat)
    requires i < |s| && IsLineBreak(s[i])
    ensures IsTerminator(s[i..NextLineStart(s, i)])
  {
    var j := NextLineStart(s, i);
    if j == i + 2 {
      assert s[i..j] == [s[i], s[i + 1]];
    } else {
      assert s[i..j] == [s[i]];
    }
  }

  /** After a CR taken alone, the rest of the text does not start with an
      empty line ended by LF. */
  lemma LoneCrFollower(s: string, i: nat)
    requires i < |s| && IsLineBreak(s[i]) && s[i..NextLineStart(s, i)] == "\r"
    ensures var t := s[NextLineStart(s, i)..];
      SplitLines(t) != [] && SplitLines(t)[0] == [] ==> LineEnds(t)[0] != "\n"
  {
    var j := NextLineStart(s, i);
    var t := s[j..];
    assert j == i + 1;
    if SplitLines(t) != [] && SplitLines(t)[0] == [] {
      assert t != [] && LineEnd(t) == 0;
      assert t[0] == s[i + 1] && t[0] != '\n';
      assert LineEnds(t)[0] == t[0..NextLineStart(t, 0)];
    }
  }

  /** The lines of `s`, each followed by the terminator it lost, rebuild
      `s`, and they form a split of it into lines. */
  lemma {:induction false} SplitLinesRebuild(s: string)
    ensures LinesOf(SplitLines(s), LineEnds(s))
    ensures Glue(SplitLines(s), LineEnds(s)) == s
    decreases |s|
  {
    if s != [] {
      var i := LineEnd(s);
      if i == |s| {
        assert s[..i] == s;
        assert Glue([s], [[]]) == s + [] + [];
      } else {
        var j := NextLineStart(s, i);
        var t := s[j..];
        SplitLinesRebuild(t);
        TerminatorAt(s, i);
        if s[i..j] == "\r" {
          LoneCrFollower(s, i);
        }
        LinesOfCons(s[..i], s[i..j], SplitLines(t), LineEnds(t));
        assert SplitLines(s) == [s[..i]] + SplitLines(t);
        assert LineEnds(s) == [s[i..j]] + LineEnds(t);
        Pieces(s, i, j);
      }
    }
  }

  /** A text is its three pieces cut at `i` and `j`. */
  lemma Pieces(s: string, i: nat, j: nat)
    requires i <= j <= |s|
    ensures s == s[..i] + s[i..j] + s[j..]
  {
    assert s[..i] + s[i..j] == s[..j];
  }

  /** Conversely, any split into lines is the one `splitlines()` finds: it
      gets back exactly the lines, and the terminators they had. */
  lemma {:induction false} SplitLinesGlued(lines: seq<string>, ends: seq<string>)
    requires LinesOf(lines, ends)
    ensures SplitLines(Glue(lines, ends)) == lines
    ensures LineEnds(Glue(lines, ends)) == ends
    decreases |lines|
  {
    if lines != [] {
      var s := Glue(lines, ends);
      var l, e := lines[0], ends[0];
      var rest := Glue(lines[1..], ends[1..]);
      assert s == l + e + rest;
      LinesOfTail(lines, ends);
      SplitLinesGlued(lines[1..], ends[1..]);
      if e == [] {
        assert |lines| == 1 && rest == [];
        assert s == l && s != [];
        assert LineEnd(s) == |s|;
      } else {
        GluedBreak(lines, ends);
        var j := |l| + |e|;
        assert s[..|l|] == l;
        assert s[|l|..j] == e;
        assert s[j..] == rest;
      }
    }
  }

  /** In glued text, the first break ends the first line and spans its
      terminator. */
  lemma GluedBreak(lines: seq<string>, ends: seq<string>)
    requires LinesOf(lines, ends) && lines != [] && ends[0] != []
    ensures var s := Glue(lines, ends);
      && |lines[0]| < |s|
      && LineEnd(s) == |lines[0]|
      && NextLineStart(s, |lines[0]|) == |lines[0]| + |ends[0]|
  {
    var s := Glue(lines, ends);
    var l, e := lines[0], ends[0];
    var rest := Glue(lines[1..], ends[1..]);
    assert s == l + e + rest;
    assert s[..|l|] == l;
    assert s[|l|] == e[0];
    LineEndAt(s, |l|);
    var j := |l| + |e|;
    if e == "\r" && j < |s| {
      // What follows a lone CR is the next line, or the terminator of an
      // empty next line, and neither starts with LF.
      assert |lines| > 1;
      assert rest == lines[1] + ends[1] + Glue(lines[2..], ends[2..]);
      assert s[j] == rest[0];
      if lines[1] == [] {
        assert ends[1] != [] && ends[1] != "\n";
        assert rest[0] == ends[1][0];
      } else {
        assert rest[0] == lines[1][0];
      }
    }
  }

  /** CR LF is one break, while LF CR is two with an empty line between. */
  lemma CrLfBreaks()
    ensures SplitLines("a\r\nb") == ["a", "b"]
    ensures SplitLines("a\n\rb") == ["a", "", "b"]
  {
    assert LinesOf(["a", "b"], ["\r\n", ""]);
    assert Glue(["a", "b"], ["\r\n", ""]) == "a\r\nb";
    SplitLinesGlued(["a", "b"], ["\r\n", ""]);
    assert LinesOf(["a", "", "b"], ["\n", "\r", ""]);
    assert Glue(["a", "", "b"], ["\n", "\r", ""]) == "a\n\rb";
    SplitLinesGlued(["a", "", "b"], ["\n", "\r", ""]);
  }

  /** Each line followed by a line feed, all concatenated. */
  function Terminated(lines: seq<string>): string
  {
    if lines == [] then [] else lines[0] + "\n" + Terminated(lines[1..])
  }

  /** Terminating one more line appends it and its line feed. */
  lemma {:induction false} TerminatedSnoc(lines: seq<string>, l: string)
    ensures Terminated(lines + [l]) == Terminated(lines) + l + "\n"
    decreases |lines|
  {
    if lines == [] {
      assert lines + [l] == [l];
    } else {
      assert (lines + [l])[1..] == lines[1..] + [l];
      TerminatedSnoc(lines[1..], l);
    }
  }

  /** Lines terminated by line feeds split back into the same lines. */
  lemma {:induction false} SplitLinesTerminated(lines: seq<string>)
    requires forall k :: 0 <= k < |lines| ==> NoLineBreak(lines[k])
    ensures SplitLines(Terminated(lines)) == lines
    decreases |lines|
  {
    if lines != [] {
      var s := Terminated(lines);
      var l := lines[0];
      var rest := Terminated(lines[1..]);
      assert s == l + ("\n" + rest);
      assert s[..|l|] == l;
      LineEndAt(s, |l|);
      assert s[|l|] == '\n';
      assert NextLineStart(s, |l|) == |l| + 1;
      assert s[..|l|] == l;
      assert s[|l| + 1..] == rest;
      SplitLinesTerminated(lines[1..]);
    }
  }

  /** Text without a line break is one line, or none when it is empty. */
  lemma SplitLinesSingle(s: string)
    requires NoLineBreak(s)
    ensures SplitLines(s) == (if s == [] then [] else [s])
  {
  }
}
