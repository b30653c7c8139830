/**
 * Code compression of context_generator.py: comment lines are dropped,
 * compress_code also right-strips every line, drops blank lines and condenses
 * the spacing inside each line while keeping its indentation, and finally an
 * ordered table of shorthands is applied, each pattern replaced everywhere
 * before the next is tried. is_valid_py_file decides which paths are
 * aggregated.
 */
module ContextCompress {
  import opened Text

  // ---------------------------------------------------------------------
  // Line filtering

  /** line.strip().startswith("#"). */
  predicate IsComment(line: string) {
    "#" <= Strip(line)
  }

  /** [line for line in lines if not line.strip().startswith("#")]. */
  function DropComments(lines: seq<string>): (r: seq<string>)
    ensures forall l :: l in r <==> l in lines && !IsComment(l)
    ensures |r| <= |lines|
  {
    if lines == [] then []
    else if IsComment(lines[0]) then DropComments(lines[1..])
    else [lines[0]] + DropComments(lines[1..])
  }

  /** The filter keeps the order of the lines: filtering a concatenation filters each part. */
  lemma {:induction false} DropCommentsAppend(a: seq<string>, b: seq<string>)
    ensures DropComments(a + b) == DropComments(a) + DropComments(b)
  {
    if a != [] {
      assert (a + b)[0] == a[0];
      assert (a + b)[1..] == a[1..] + b;
      DropCommentsAppend(a[1..], b);
    } else {
      assert a + b == b;
    }
  }

  /** The number of leading whitespace characters: len(line) - len(line.lstrip()). */
  function Indent(line: string): (n: nat)
    ensures n <= |line|
  {
    |line| - |LStrip(line)|
  }

  /** " " * n. */
  function Spaces(n: nat): (r: string)
    ensures |r| == n && forall i :: 0 <= i < n ==> r[i] == ' '
  {
    seq(n, _ => ' ')
  }

  /** When the first non-whitespace character of s is at i, s.lstrip() is s[i:]. */
  lemma {:induction false} LStripAt(s: string, i: nat)
    requires i < |s| && !IsSpace(s[i])
    requires forall j :: 0 <= j < i ==> IsSpace(s[j])
    ensures LStrip(s) == s[i..]
  {
    if i > 0 {
      assert s[1..][i - 1..] == s[i..];
      LStripAt(s[1..], i - 1);
    }
  }

  /** A comment is a line whose first non-whitespace character is '#'. */
  lemma CommentByFirst(line: string)
    ensures IsComment(line) <==> LStrip(line) != [] && LStrip(line)[0] == '#'
  {
    var t := LStrip(line);
    if t != [] {
      var r := RStrip(t);
      assert |r| > 0;
      assert r[0] == t[0];
    }
  }

  /** Right-stripping a line that is not blank keeps its indentation and its first non-whitespace character. */
  lemma RStripKeepsFront(line: string)
    requires !AllSpace(RStrip(line))
    ensures LStrip(RStrip(line)) != [] && LStrip(RStrip(line))[0] == LStrip(line)[0]
    ensures Indent(RStrip(line)) == Indent(line)
  {
    var r := RStrip(line);
    var i := Indent(line);
    IndentBeforeEnd(line);
    assert line[..|r|] == r;
    LStripOfPrefix(line, |r|);
    assert LStrip(line)[0] == line[i];
  }

  /** The indentation of a line that is not blank after right-stripping ends before the stripped end. */
  lemma IndentBeforeEnd(line: string)
    requires !AllSpace(RStrip(line))
    ensures Indent(line) < |RStrip(line)|
  {
    var r := RStrip(line);
    var w :| 0 <= w < |r| && !IsSpace(r[w]);
    assert r[w] == line[w];
  }

  /** A prefix of s reaching past the indentation of s has the same indentation. */
  lemma LStripOfPrefix(s: string, n: nat)
    requires Indent(s) < n <= |s|
    ensures LStrip(s[..n]) == s[Indent(s)..n]
  {
    var i := Indent(s);
    assert s[i] == LStrip(s)[0];
    LStripAt(s[..n], i);
    assert s[..n][i..] == s[i..n];
  }

  /** [line.rstrip() for line in lines]. */
  function RStripAll(lines: seq<string>): (r: seq<string>)
    ensures |r| == |lines| && forall i :: 0 <= i < |r| ==> r[i] == RStrip(lines[i])
  {
    seq(|lines|, i requires 0 <= i < |lines| => RStrip(lines[i]))
  }

  /** [line for line in lines if line.strip()]. */
  function DropBlank(lines: seq<string>): (r: seq<string>)
    ensures forall l :: l in r <==> l in lines && Strip(l) != []
    ensures |r| <= |lines|
  {
    if lines == [] then []
    else if Strip(lines[0]) == [] then DropBlank(lines[1..])
    else [lines[0]] + DropBlank(lines[1..])
  }

  /** One line is kept exactly when it is not blank. */
  lemma DropBlankOne(line: string)
    ensures DropBlank([line]) == if Strip(line) == [] then [] else [line]
  {
    assert [line][1..] == [];
  }

  /** The filter keeps the order of the lines: filtering a concatenation filters each part. */
  lemma {:induction false} DropBlankAppend(a: seq<string>, b: seq<string>)
    ensures DropBlank(a + b) == DropBlank(a) + DropBlank(b)
  {
    if a != [] {
      assert (a + b)[0] == a[0];
      assert (a + b)[1..] == a[1..] + b;
      DropBlankAppend(a[1..], b);
      if Strip(a[0]) == [] {
        assert DropBlank(a + b) == DropBlank(a[1..] + b);
      } else {
        assert DropBlank(a + b) == [a[0]] + DropBlank(a[1..] + b);
      }
    } else {
      assert a + b == b;
    }
  }

  /** The lines compress_code keeps: non-comment lines, right-stripped, the blank ones dropped. */
  function KeptLines(code: string): seq<string> {
    DropBlank(RStripAll(DropComments(SplitLines(code))))
  }

  /** A shape every line of the compressed code has: not empty, not blank, not a comment, no trailing whitespace. */
  predicate IsCompressedLine(line: string) {
    && line != []
    && NoLineBreak(line)
    && !AllSpace(line)
    && !IsComment(line)
    && !IsSpace(line[|line| - 1])
  }

  /** Right-stripping a non-comment line without line breaks gives the compressed shape, unless it leaves a blank line. */
  lemma RStripShape(orig: string)
    requires NoLineBreak(orig) && !IsComment(orig) && !AllSpace(RStrip(orig))
    ensures IsCompressedLine(RStrip(orig))
  {
    var line := RStrip(orig);
    RStripKeepsFront(orig);
    CommentByFirst(orig);
    CommentByFirst(line);
    assert NoLineBreak(line) by {
      assert line == orig[..|line|];
    }
  }

  /** Every right-stripped line comes from one of the lines. */
  lemma RStripAllOrigin(lines: seq<string>, line: string) returns (orig: string)
    requires line in RStripAll(lines)
    ensures orig in lines && line == RStrip(orig)
  {
    var j :| 0 <= j < |lines| && RStripAll(lines)[j] == line;
    orig := lines[j];
  }

  /** Every kept line has the compressed shape. */
  lemma KeptLineShape(code: string, line: string)
    requires line in KeptLines(code)
    ensures IsCompressedLine(line)
  {
    var uncommented := DropComments(SplitLines(code));
    assert line in RStripAll(uncommented) && Strip(line) != [];
    var orig := RStripAllOrigin(uncommented, line);
    assert orig in SplitLines(code);
    RStripShape(orig);
  }

  // ---------------------------------------------------------------------
  // Condensing the spacing of a line

  /** condense_spaces: the indentation as that many spaces, then the words joined by single spaces. */
  function Condense(line: string): string {
    Spaces(Indent(line)) + JoinWith(" ", Words(line))
  }

  /** The words of a line have no whitespace, so joining them with " " puts a space only between two words. */
  lemma {:induction false} JoinWordsShape(ws: seq<string>)
    requires ws != []
    requires forall i :: 0 <= i < |ws| ==> ws[i] != [] && NoSpace(ws[i])
    ensures JoinWith(" ", ws) != [] && JoinWith(" ", ws)[0] == ws[0][0]
    ensures !IsSpace(JoinWith(" ", ws)[|JoinWith(" ", ws)| - 1])
    ensures forall k :: 0 <= k < |JoinWith(" ", ws)| ==> JoinWith(" ", ws)[k] == ' ' || !IsSpace(JoinWith(" ", ws)[k])
  {
    if |ws| > 1 {
      JoinWordsShape(ws[1..]);
      var rest := JoinWith(" ", ws[1..]);
      var j := ws[0] + " " + rest;
      assert JoinWith(" ", ws) == j;
      forall k | 0 <= k < |j| ensures j[k] == ' ' || !IsSpace(j[k]) {
        if k > |ws[0]| {
          assert j[k] == rest[k - |ws[0]| - 1];
        }
      }
      assert j[|j| - 1] == rest[|rest| - 1];
    }
  }

  /** The first run of non-whitespace of w + rest is w, when rest is empty or starts with whitespace. */
  lemma {:induction false} WordEndOf(w: string, rest: string)
    requires NoSpace(w)
    requires rest == [] || IsSpace(rest[0])
    ensures WordEnd(w + rest) == |w|
  {
    if w != [] {
      assert (w + rest)[1..] == w[1..] + rest;
      WordEndOf(w[1..], rest);
    } else {
      assert w + rest == rest;
    }
  }

  /** Once the leading whitespace is dropped, str.split() takes the first run of non-whitespace and splits the rest. */
  lemma WordsStep(s: string, t: string)
    requires t != [] && LStrip(s) == t
    ensures Words(s) == [t[..WordEnd(t)]] + Words(t[WordEnd(t)..])
  {
  }

  /** A join of words starts with the first word. */
  lemma JoinHead(ws: seq<string>)
    requires ws != [] && ws[0] != []
    ensures JoinWith(" ", ws) != [] && JoinWith(" ", ws)[0] == ws[0][0]
  {
  }

  /** An indented word followed by a space and more text: str.split() takes the word, then splits the text. */
  lemma WordsOfFirst(s: string, w: string, rest: string)
    requires w != [] && NoSpace(w) && LStrip(s) == w + (" " + rest)
    ensures Words(s) == [w] + Words(Spaces(1) + rest)
  {
    var j := w + (" " + rest);
    WordEndOf(w, " " + rest);
    WordsStep(s, j);
    assert j[..|w|] == w;
    assert j[|w|..] == Spaces(1) + rest;
  }

  /** Indentation alone has no words. */
  lemma WordsOfSpaces(n: nat)
    ensures Words(Spaces(n)) == []
  {
    assert AllSpace(Spaces(n));
    WordsEmpty(Spaces(n));
  }

  /** A single indented word is one word. */
  lemma WordsOfOne(s: string, w: string)
    requires w != [] && NoSpace(w) && LStrip(s) == w
    ensures Words(s) == [w]
  {
    WordEndOf(w, []);
    assert w + [] == w;
    WordsStep(s, w);
    assert w[|w|..] == [];
    WordsEmpty([]);
  }

  lemma HeadAndTail(ws: seq<string>)
    requires ws != []
    ensures ws == [ws[0]] + ws[1..]
  {
  }

  /** Splitting an indented line of words joined by single spaces gives back the words. */
  lemma {:induction false} WordsOfJoin(n: nat, ws: seq<string>)
    requires forall i :: 0 <= i < |ws| ==> ws[i] != [] && NoSpace(ws[i])
    decreases |ws|, 1
    ensures Words(Spaces(n) + JoinWith(" ", ws)) == ws
  {
    if ws == [] {
      WordsOfSpaces(n);
      assert Spaces(n) + JoinWith(" ", ws) == Spaces(n);
    } else {
      WordsOfJoinNonEmpty(n, ws);
    }
  }

  /** Indentation before a join of words is exactly what str.lstrip() drops. */
  lemma IndentedJoin(n: nat, ws: seq<string>)
    requires ws != [] && ws[0] != [] && !IsSpace(ws[0][0])
    ensures LStrip(Spaces(n) + JoinWith(" ", ws)) == JoinWith(" ", ws)
  {
    var s := Spaces(n) + JoinWith(" ", ws);
    JoinHead(ws);
    assert s[n..] == JoinWith(" ", ws);
    LStripAt(s, n);
  }

  lemma {:induction false} WordsOfJoinNonEmpty(n: nat, ws: seq<string>)
    requires ws != []
    requires forall i :: 0 <= i < |ws| ==> ws[i] != [] && NoSpace(ws[i])
    decreases |ws|, 0
    ensures Words(Spaces(n) + JoinWith(" ", ws)) == ws
  {
    if |ws| == 1 {
      WordsOfJoinSingle(n, ws[0]);
      assert ws == [ws[0]];
    } else {
      var tail := ws[1..];
      forall i | 0 <= i < |tail| ensures tail[i] != [] && NoSpace(tail[i]) {
        assert tail[i] == ws[i + 1];
      }
      WordsOfJoinStep(n, ws);
      WordsOfJoin(1, tail);
      HeadAndTail(ws);
    }
  }

  /** An indented single word splits into that word. */
  lemma WordsOfJoinSingle(n: nat, w: string)
    requires w != [] && NoSpace(w)
    ensures Words(Spaces(n) + JoinWith(" ", [w])) == [w]
  {
    assert JoinWith(" ", [w]) == w;
    assert !IsSpace(w[0]);
    IndentedJoin(n, [w]);
    WordsOfOne(Spaces(n) + w, w);
  }

  /** An indented join of several words splits into its first word and the split of the rest, behind one space. */
  lemma WordsOfJoinStep(n: nat, ws: seq<string>)
    requires |ws| > 1 && ws[0] != [] && NoSpace(ws[0])
    ensures Words(Spaces(n) + JoinWith(" ", ws)) == [ws[0]] + Words(Spaces(1) + JoinWith(" ", ws[1..]))
  {
    var tail := JoinWith(" ", ws[1..]);
    assert JoinWith(" ", ws) == ws[0] + (" " + tail);
    assert !IsSpace(ws[0][0]);
    IndentedJoin(n, ws);
    WordsOfFirst(Spaces(n) + JoinWith(" ", ws), ws[0], tail);
  }

  /** A blank line is all indentation. */
  lemma BlankIndent(line: string)
    requires AllSpace(line)
    ensures Indent(line) == |line|
  {
  }

  /** condense_spaces keeps the words of a line. */
  lemma CondenseWords(line: string)
    ensures Words(Condense(line)) == Words(line)
  {
    WordsAreWords(line);
    WordsOfJoin(Indent(line), Words(line));
  }

  /** condense_spaces keeps the indentation of a line. */
  lemma CondenseIndent(line: string)
    ensures Indent(Condense(line)) == Indent(line)
  {
    var ws := Words(line);
    var c := Condense(line);
    WordsEmpty(line);
    if ws == [] {
      BlankIndent(line);
      assert c == Spaces(|line|);
      assert AllSpace(c);
      BlankIndent(c);
    } else {
      WordsAreWords(line);
      assert ws[0] != [] && NoSpace(ws[0]);
      IndentedJoin(Indent(line), ws);
    }
  }

  /**
   * condense_spaces keeps the words of a line and its indentation, now all
   * spaces, and so condensing twice is condensing once.
   */
  lemma CondenseKeeps(line: string)
    ensures Words(Condense(line)) == Words(line)
    ensures Indent(Condense(line)) == Indent(line)
    ensures forall i :: 0 <= i < Indent(line) ==> Condense(line)[i] == ' '
    ensures Condense(Condense(line)) == Condense(line)
  {
    CondenseWords(line);
    CondenseIndent(line);
  }

  /** Indentation followed by words joined with " " ends in the last word and holds no line break. */
  lemma IndentedWordsTail(n: nat, ws: seq<string>)
    requires ws != []
    requires forall i :: 0 <= i < |ws| ==> ws[i] != [] && NoSpace(ws[i])
    ensures var c := Spaces(n) + JoinWith(" ", ws);
      c != [] && NoLineBreak(c) && !IsSpace(c[|c| - 1])
  {
    JoinWordsShape(ws);
    var j := JoinWith(" ", ws);
    var c := Spaces(n) + j;
    forall k | 0 <= k < |c| ensures !IsLineBreak(c[k]) {
      if k >= n {
        assert c[k] == j[k - n];
      }
    }
    assert c[|c| - 1] == j[|j| - 1];
  }

  /** A condensed line that is not blank ends in its last word and holds no line break. */
  lemma CondenseTail(line: string)
    requires !AllSpace(line)
    ensures Condense(line) != [] && NoLineBreak(Condense(line))
    ensures !IsSpace(Condense(line)[|Condense(line)| - 1])
  {
    WordsEmpty(line);
    WordsAreWords(line);
    IndentedWordsTail(Indent(line), Words(line));
  }

  /** A condensed line starts, after its indentation, with the line's first non-whitespace character. */
  lemma CondenseFront(line: string)
    requires !AllSpace(line)
    ensures LStrip(Condense(line)) != [] && LStrip(Condense(line))[0] == LStrip(line)[0]
  {
    var ws := Words(line);
    WordsHead(line);
    WordsAreWords(line);
    assert ws[0] != [] && NoSpace(ws[0]);
    IndentedJoin(Indent(line), ws);
    JoinHead(ws);
  }

  /** A kept line stays in the compressed shape once condensed. */
  lemma CondenseShape(line: string)
    requires IsCompressedLine(line)
    ensures IsCompressedLine(Condense(line))
  {
    var c := Condense(line);
    CondenseTail(line);
    CondenseFront(line);
    CommentByFirst(line);
    CommentByFirst(c);
  }

  /** The code compress_code hands to the shorthand step: the kept lines, each condensed, joined by "\n". */
  function Condensed(code: string): string {
    var lines := SplitLines(JoinWith("\n", KeptLines(code)));
    JoinWith("\n", seq(|lines|, i requires 0 <= i < |lines| => Condense(lines[i])))
  }

  /**
   * Before the shorthand step, the lines of compress_code's output are the
   * kept lines condensed, one for one: none is blank, none is a comment, none
   * has trailing whitespace.
   */
  lemma CondensedLines(code: string)
    ensures |SplitLines(Condensed(code))| == |KeptLines(code)|
    ensures forall i :: 0 <= i < |KeptLines(code)| ==> SplitLines(Condensed(code))[i] == Condense(KeptLines(code)[i])
    ensures forall l :: l in SplitLines(Condensed(code)) ==> IsCompressedLine(l)
  {
    var kept := KeptLines(code);
    forall i | 0 <= i < |kept| ensures IsCompressedLine(kept[i]) {
      KeptLineShape(code, kept[i]);
    }
    SplitLinesOfJoin(kept);
    var cs := seq(|kept|, i requires 0 <= i < |kept| => Condense(kept[i]));
    forall i | 0 <= i < |cs| ensures IsCompressedLine(cs[i]) {
      CondenseShape(kept[i]);
    }
    SplitLinesOfJoin(cs);
    assert Condensed(code) == JoinWith("\n", cs);
  }

  /** The text compress_code1 hands to the shorthand step: the non-comment lines, otherwise untouched. */
  function Uncommented(code: string): string {
    JoinWith("\n", DropComments(SplitLines(code)))
  }

  /** compress_code1 keeps blank lines: a blank line is never taken for a comment. */
  lemma UncommentedKeepsBlank(code: string, line: string)
    requires line in SplitLines(code) && AllSpace(line)
    ensures line in DropComments(SplitLines(code))
  {
    assert Strip(line) == [];
  }

  // ---------------------------------------------------------------------
  // Shorthands

  /** SHORTHAND_MAP: pattern and shorthand, in the order the table declares them. */
  const Shorthands: seq<(Pattern, string)> := ShorthandsA + ShorthandsB + ShorthandsC + ShorthandsD

  // SHORTHAND_MAP, entries 0-7
  const ShorthandsA: seq<(Pattern, string)> := [
    ("class ", "\U{A2}"),
    ("def ", "\U{192}"),
    ("try:", "\U{1E6A}"),
    ("except ", "\U{1E8A}"),
    ("logging.error", "\U{2130}"),
    ("logging.info", "\U{2110}"),
    ("self.", "$"),
    ("\"\"\"", "\U{2202}")
  ]

  // SHORTHAND_MAP, entries 8-15
  const ShorthandsB: seq<(Pattern, string)> := [
    ("return ", "\U{2192}"),
    ("import ", "\U{2193}"),
    ("from ", "\U{2198}"),
    (" as ", "\U{2248}"),
    (" with ", "\U{222B}"),
    (" if ", "\U{22A2}"),
    (" else:", "\U{22A3}"),
    (" elif ", "~")
  ]

  // SHORTHAND_MAP, entries 16-23
  const ShorthandsC: seq<(Pattern, string)> := [
    (" for ", "\U{2200}"),
    (" while ", "\U{2203}"),
    (" in ", "\U{2208}"),
    (" not ", "\U{AC}"),
    (" and ", "\U{2227}"),
    (" or ", "\U{2228}"),
    (" is ", "\U{2261}"),
    (" None", "\U{2205}")
  ]

  // SHORTHAND_MAP, entries 24-32
  const ShorthandsD: seq<(Pattern, string)> := [
    (" True", "\U{22A4}"),
    (" False", "\U{22A5}"),
    (" pass", "\U{2225}"),
    (" break", "\U{21AF}"),
    (" continue", "\U{21BA}"),
    (" lambda ", "\U{3BB}"),
    (" yield ", "\U{3B3}"),
    (" global ", "\U{3A9}"),
    (" nonlocal ", "\U{3B7}")
  ]


  /** A shorthand pattern: never empty. */
  type Pattern = p: string | p != [] witness " "

  /** The shorthand step: every occurrence of the first pattern replaced, then the next pattern, and so on. */
  function Shortened(code: string, table: seq<(Pattern, string)>): string
    decreases |table|
  {
    if table == [] then code
    else Shortened(ReplaceAll(code, table[0].0, table[0].1), table[1..])
  }

  /** Running the first part of the table and then the rest is running the whole table. */
  lemma {:induction false} ShortenedAppend(code: string, a: seq<(Pattern, string)>, b: seq<(Pattern, string)>)
    decreases |a|
    ensures Shortened(code, a + b) == Shortened(Shortened(code, a), b)
  {
    if a != [] {
      assert (a + b)[0] == a[0];
      assert (a + b)[1..] == a[1..] + b;
      ShortenedAppend(ReplaceAll(code, a[0].0, a[0].1), a[1..], b);
    } else {
      assert a + b == b;
    }
  }

  /** Code in which no pattern occurs comes through the shorthand step unchanged. */
  lemma {:induction false} ShortenedAbsent(code: string, table: seq<(Pattern, string)>)
    decreases |table|
    requires forall i :: 0 <= i < |table| ==> !Contains(code, table[i].0)
    ensures Shortened(code, table) == code
  {
    if table != [] {
      ReplaceAllAbsent(code, table[0].0, table[0].1);
      ShortenedAbsent(code, table[1..]);
    }
  }

  /**
   * The order of the table matters: " if " (entry 13) consumes the space
   * " None" (entry 23) needs, so " if None" becomes "\U{22A2}None" in the
   * declared order and " if\U{2205}" the other way round.
   */
  lemma ShorthandOrderMatters()
    ensures Shorthands[13] == (" if ", "\U{22A2}") && Shorthands[23] == (" None", "\U{2205}")
    ensures Shortened(" if None", [Shorthands[13], Shorthands[23]]) == "\U{22A2}None"
    ensures Shortened(" if None", [Shorthands[23], Shorthands[13]]) == " if\U{2205}"
  {
    IfThenNone();
    NoneThenIf();
  }

  lemma IfThenNone()
    ensures Shortened(" if None", [(" if ", "\U{22A2}"), (" None", "\U{2205}")]) == "\U{22A2}None"
  {
    ShortenedPair(" if None", (" if ", "\U{22A2}"), (" None", "\U{2205}"));
    IfReplaced();
    NoneKept();
  }

  lemma NoneThenIf()
    ensures Shortened(" if None", [(" None", "\U{2205}"), (" if ", "\U{22A2}")]) == " if\U{2205}"
  {
    ShortenedPair(" if None", (" None", "\U{2205}"), (" if ", "\U{22A2}"));
    NoneReplaced();
    IfKept();
  }

  /** A two-entry table is two replacements in a row. */
  lemma ShortenedPair(code: string, a: (Pattern, string), b: (Pattern, string))
    ensures Shortened(code, [a, b]) == ReplaceAll(ReplaceAll(code, a.0, a.1), b.0, b.1)
  {
    var x := ReplaceAll(code, a.0, a.1);
    assert [a, b][1..] == [b];
    assert Shortened(code, [a, b]) == Shortened(x, [b]);
    assert [b][1..] == [];
    assert Shortened(x, [b]) == Shortened(ReplaceAll(x, b.0, b.1), []);
  }

  lemma IfReplaced()
    ensures ReplaceAll(" if None", " if ", "\U{22A2}") == "\U{22A2}None"
  {
    assert " if " <= " if None";
    assert " if None"[4..] == "None";
    assert ReplaceAll("None", " if ", "\U{22A2}") == "N" + ReplaceAll("one", " if ", "\U{22A2}") by {
      assert !(" if " <= "None");
      assert "None"[1..] == "one";
    }
  }

  lemma NoneKept()
    ensures ReplaceAll("\U{22A2}None", " None", "\U{2205}") == "\U{22A2}None"
  {
    assert !(" None" <= "\U{22A2}None");
    assert "\U{22A2}None"[1..] == "None";
  }

  lemma NoneReplaced()
    ensures ReplaceAll(" if None", " None", "\U{2205}") == " if\U{2205}"
  {
    var none, empty := " None", "\U{2205}";
    assert ReplaceAll(" None", none, empty) == empty + ReplaceAll([], none, empty);
    assert ReplaceAll("f None", none, empty) == "f" + ReplaceAll(" None", none, empty);
    assert ReplaceAll("if None", none, empty) == "i" + ReplaceAll("f None", none, empty);
    assert ReplaceAll(" if None", none, empty) == " " + ReplaceAll("if None", none, empty);
  }

  lemma IfKept()
    ensures ReplaceAll(" if\U{2205}", " if ", "\U{22A2}") == " if\U{2205}"
  {
    var t := " if\U{2205}";
    assert t[3] != ' ' && !(" if " <= t);
    assert ReplaceAll(t, " if ", "\U{22A2}") == " " + ReplaceAll(t[1..], " if ", "\U{22A2}");
    assert t[1..] == "if\U{2205}";
  }

  /** The shorthand loop of compress_code and compress_code1: the code is rewritten one pattern at a time, in the table's order. */
  method ApplyShorthands(code: string) returns (r: string)
    ensures r == Shortened(code, Shorthands)
  {
    r := code;
    for i := 0 to |Shorthands|
      invariant Shortened(r, Shorthands[i..]) == Shortened(code, Shorthands)
    {
      var (pattern, shorthand) := Shorthands[i];
      assert Shorthands[i..][1..] == Shorthands[i + 1..];
      r := ReplaceAll(r, pattern, shorthand);
    }
  }

  /** compress_code up to its @DOC step: the kept lines condensed, then the shorthand step. */
  method CompressCode(code: string) returns (r: string)
    ensures r == Shortened(Condensed(code), Shorthands)
  {
    r := ApplyShorthands(Condensed(code));
  }

  /** compress_code1 up to its @DOC step: the non-comment lines, then the shorthand step. */
  method CompressCode1(code: string) returns (r: string)
    ensures r == Shortened(Uncommented(code), Shorthands)
  {
    r := ApplyShorthands(Uncommented(code));
  }

  // ---------------------------------------------------------------------
  // Which files are aggregated

  /** The index of the first '/' in s, or |s|. */
  function SepAt(s: string): (k: nat)
    ensures k <= |s| && (forall i :: 0 <= i < k ==> s[i] != '/')
    ensures k < |s| ==> s[k] == '/'
  {
    if s == [] || s[0] == '/' then 0 else 1 + SepAt(s[1..])
  }

  /** filepath.split(os.sep) with '/' as the separator: the text between separators, empty components included. */
  function SplitPath(path: string): (r: seq<string>)
    decreases |path|
    ensures r != []
  {
    var k := SepAt(path);
    if k == |path| then [path] else [path[..k]] + SplitPath(path[k + 1..])
  }

  /** Joining the components with '/' gives the path back. */
  lemma {:induction false} SplitPathJoin(path: string)
    decreases |path|
    ensures JoinWith("/", SplitPath(path)) == path
  {
    var k := SepAt(path);
    if k < |path| {
      var rest := SplitPath(path[k + 1..]);
      SplitPathJoin(path[k + 1..]);
      assert SplitPath(path) == [path[..k]] + rest;
      assert path == path[..k] + "/" + path[k + 1..];
    }
  }

  /** The directories whose files are never aggregated. */
  const InvalidDirs: set<string> := {".git", "__pycache__", "venv", "env"}

  /** str.endswith(suffix). */
  predicate EndsWith(s: string, suffix: string) {
    |suffix| <= |s| && s[|s| - |suffix|..] == suffix
  }

  /** is_valid_py_file: a ".py" path none of whose components is an excluded directory. */
  predicate IsValidPyFile(path: string) {
    EndsWith(path, ".py") && (set part | part in SplitPath(path)) * InvalidDirs == {}
  }

  /** d is a whole component of path: it appears in path with a separator or an end of the path on either side. */
  predicate HasComponent(path: string, d: string) {
    Contains("/" + path + "/", "/" + d + "/")
  }

  /** A component is found between separators. */
  lemma {:induction false} ComponentOccurs(path: string, d: string)
    requires d in SplitPath(path)
    decreases |path|
    ensures HasComponent(path, d)
  {
    var k := SepAt(path);
    if d == path[..k] {
      FirstComponentOccurs(path);
    } else {
      ComponentOccurs(path[k + 1..], d);
      OccursPastSep(path, k, "/" + d + "/");
    }
  }

  /** The first component sits at the very start of "/" + path + "/". */
  lemma FirstComponentOccurs(path: string)
    ensures OccursAt("/" + path + "/", "/" + path[..SepAt(path)] + "/", 0)
  {
    var k := SepAt(path);
    var p := "/" + path + "/";
    var x := "/" + path[..k] + "/";
    forall j | 0 <= j < k + 2 ensures p[j] == x[j] {
      if 0 < j <= k {
        assert p[j] == path[j - 1];
      }
    }
    assert p[..k + 2] == x;
  }

  /** What the rest of the path after a separator contains, the whole path contains. */
  lemma OccursPastSep(path: string, k: nat, x: string)
    requires k < |path| && path[k] == '/'
    requires Contains("/" + path[k + 1..] + "/", x)
    ensures Contains("/" + path + "/", x)
  {
    var p := "/" + path + "/";
    SuffixAfterSep(path, k);
    ContainsSuffix(p, k + 1);
    ContainsTrans(p, p[k + 1..], x);
  }

  /** When path continues with '/' or ends right after a separator-free d, d is its first component. */
  lemma SepAtIs(path: string, m: nat)
    requires m <= |path| && (forall i :: 0 <= i < m ==> path[i] != '/')
    requires m < |path| ==> path[m] == '/'
    ensures SepAt(path) == m
  {
  }

  /** A separator-free d at the very start of "/" + path + "/" is the first component. */
  lemma OccursFirst(path: string, d: string)
    requires forall i :: 0 <= i < |d| ==> d[i] != '/'
    requires OccursAt("/" + path + "/", "/" + d + "/", 0)
    ensures d == SplitPath(path)[0]
  {
    var p := "/" + path + "/";
    var x := "/" + d + "/";
    forall j | 0 <= j < |d| ensures path[j] == d[j] {
      assert p[j + 1] == x[j + 1];
    }
    assert p[|d| + 1] == x[|d| + 1];
    SepAtIs(path, |d|);
    assert path[..|d|] == d;
  }

  /** An occurrence at or after off is an occurrence in the suffix from off. */
  lemma OccursShift(s: string, p: string, i: nat, off: nat)
    requires off <= i && OccursAt(s, p, i)
    ensures OccursAt(s[off..], p, i - off)
  {
    assert s[off..][i - off..i - off + |p|] == s[i..i + |p|];
  }

  /** Past a separator of path, "/" + path + "/" continues as "/" + rest + "/". */
  lemma SuffixAfterSep(path: string, k: nat)
    requires k < |path| && path[k] == '/'
    ensures ("/" + path + "/")[k + 1..] == "/" + path[k + 1..] + "/"
  {
  }

  /** A later occurrence lies past the first separator, in the rest of the path. */
  lemma OccursLater(path: string, d: string, i: nat) returns (k: nat)
    requires 0 < i && OccursAt("/" + path + "/", "/" + d + "/", i)
    ensures k == SepAt(path) && k < |path|
    ensures HasComponent(path[k + 1..], d)
  {
    k := SepAt(path);
    var p := "/" + path + "/";
    var x := "/" + d + "/";
    assert p[i] == x[0];
    assert path[i - 1] == '/';
    SuffixAfterSep(path, k);
    OccursShift(p, x, i, k + 1);
  }

  /** What is found between separators is a component. */
  lemma {:induction false} OccursComponent(path: string, d: string)
    requires forall i :: 0 <= i < |d| ==> d[i] != '/'
    requires HasComponent(path, d)
    decreases |path|
    ensures d in SplitPath(path)
  {
    var i :| 0 <= i <= |path| + 2 && OccursAt("/" + path + "/", "/" + d + "/", i);
    if i == 0 {
      OccursFirst(path, d);
    } else {
      var k := OccursLater(path, d, i);
      OccursComponent(path[k + 1..], d);
      assert SplitPath(path) == [path[..k]] + SplitPath(path[k + 1..]);
    }
  }

  /** is_valid_py_file holds exactly for a ".py" path in which no excluded directory appears between separators. */
  lemma IsValidPyFileIff(path: string)
    ensures IsValidPyFile(path) <==>
      EndsWith(path, ".py") && forall d :: d in InvalidDirs ==> !HasComponent(path, d)
  {
    forall d | d in InvalidDirs
      ensures d in SplitPath(path) <==> HasComponent(path, d)
    {
      assert forall i :: 0 <= i < |d| ==> d[i] != '/';
      if d in SplitPath(path) {
        ComponentOccurs(path, d);
      }
      if HasComponent(path, d) {
        OccursComponent(path, d);
      }
    }
    var parts := set part | part in SplitPath(path);
    assert parts * InvalidDirs == {} <==> forall d :: d in InvalidDirs ==> d !in SplitPath(path);
  }
}
