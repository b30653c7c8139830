/**
 * The Python string operations the pipeline relies on, over strings as
 * sequences of Unicode characters: whitespace and line-break classes,
 * strip/lstrip/rstrip, split() into words, splitlines(), join, find,
 * replace-all and the decimal rendering of integers.
 */
module Text {

  /** str.isspace for one character: what split(), strip(), lstrip() and rstrip() drop. */
  predicate IsSpace(c: char) {
    || c == ' '
    || '\t' <= c <= '\r'
    || '\U{1C}' <= c <= '\U{1F}'
    || c == '\U{85}' || c == '\U{A0}' || c == '\U{1680}'
    || '\U{2000}' <= c <= '\U{200A}'
    || c == '\U{2028}' || c == '\U{2029}' || c == '\U{202F}' || c == '\U{205F}' || c == '\U{3000}'
  }

  /** The characters at which str.splitlines() ends a line ("\r\n" is one boundary). */
  predicate IsLineBreak(c: char) {
    || '\n' <= c <= '\r'
    || '\U{1C}' <= c <= '\U{1E}'
    || c == '\U{85}' || c == '\U{2028}' || c == '\U{2029}'
  }

  predicate NoSpace(s: string) {
    forall i :: 0 <= i < |s| ==> !IsSpace(s[i])
  }

  predicate NoLineBreak(s: string) {
    forall i :: 0 <= i < |s| ==> !IsLineBreak(s[i])
  }

  predicate AllSpace(s: string) {
    forall i :: 0 <= i < |s| ==> IsSpace(s[i])
  }

  /** str.lstrip(): the suffix left after dropping the leading whitespace. */
  function LStrip(s: string): (r: string)
    ensures |r| <= |s| && r == s[|s| - |r|..]
    ensures r == [] || !IsSpace(r[0])
    ensures forall i :: 0 <= i < |s| - |r| ==> IsSpace(s[i])
  {
    if s != [] && IsSpace(s[0]) then LStrip(s[1..]) else s
  }

  /** str.rstrip(): the prefix left after dropping the trailing whitespace. */
  function RStrip(s: string): (r: string)
    ensures |r| <= |s| && r == s[..|r|]
    ensures r == [] || !IsSpace(r[|r| - 1])
    ensures forall i :: |r| <= i < |s| ==> IsSpace(s[i])
  {
    if s != [] && IsSpace(s[|s| - 1]) then RStrip(s[..|s| - 1]) else s
  }

  /** s is r with whitespace, possibly none, before and after it. */
  predicate SpaceAround(s: string, r: string) {
    exists i :: 0 <= i <= |s| - |r| && AllSpace(s[..i]) && s[i..i + |r|] == r && AllSpace(s[i + |r|..])
  }

  /**
   * str.strip(): s is whitespace, then r, then whitespace, and r has no
   * whitespace at either end; r is empty exactly when s is all whitespace.
   */
  function Strip(s: string): (r: string)
    ensures r == [] || (!IsSpace(r[0]) && !IsSpace(r[|r| - 1]))
    ensures SpaceAround(s, r)
    ensures Contains(s, r)
    ensures r == [] <==> AllSpace(s)
  {
    var t := LStrip(s);
    var r := RStrip(t);
    StripParts(s, t, r);
    r
  }

  /** The pieces str.strip() cuts s into: whitespace, the result, whitespace. */
  lemma StripParts(s: string, t: string, r: string)
    requires |t| <= |s| && t == s[|s| - |t|..] && forall k :: 0 <= k < |s| - |t| ==> IsSpace(s[k])
    requires t == [] || !IsSpace(t[0])
    requires |r| <= |t| && r == t[..|r|] && forall k :: |r| <= k < |t| ==> IsSpace(t[k])
    requires r == [] || !IsSpace(r[|r| - 1])
    ensures r == [] || (!IsSpace(r[0]) && !IsSpace(r[|r| - 1]))
    ensures SpaceAround(s, r)
    ensures Contains(s, r)
    ensures r == [] <==> AllSpace(s)
  {
    var i := |s| - |t|;
    assert s[i..i + |r|] == t[..|r|];
    var before := s[..i];
    forall k | 0 <= k < |before| ensures IsSpace(before[k]) {
      assert before[k] == s[k];
    }
    var after := s[i + |r|..];
    forall k | 0 <= k < |after| ensures IsSpace(after[k]) {
      assert after[k] == t[|r| + k];
    }
    assert OccursAt(s, r, i);
    if r == [] {
      assert t == [];
      assert before == s;
    } else {
      assert r[0] == t[0];
    }
  }

  /** The length of the leading run of non-whitespace characters of s. */
  function WordEnd(s: string): (k: nat)
    ensures k <= |s| && NoSpace(s[..k])
    ensures k < |s| ==> IsSpace(s[k])
  {
    if s == [] || IsSpace(s[0]) then 0 else 1 + WordEnd(s[1..])
  }

  /** str.split() with no argument: the maximal runs of non-whitespace characters, in order. */
  function Words(s: string): seq<string>
    decreases |s|
  {
    var t := LStrip(s);
    if t == [] then []
    else
      var k := WordEnd(t);
      [t[..k]] + Words(t[k..])
  }

  /** Every word is non-empty and holds no whitespace. */
  lemma {:induction false} WordsAreWords(s: string)
    decreases |s|
    ensures forall i :: 0 <= i < |Words(s)| ==> Words(s)[i] != [] && NoSpace(Words(s)[i])
  {
    var t := LStrip(s);
    if t != [] {
      var k := WordEnd(t);
      var rest := Words(t[k..]);
      WordsAreWords(t[k..]);
      var r := [t[..k]] + rest;
      assert Words(s) == r;
      assert k >= 1 && NoSpace(t[..k]);
      forall i | 0 <= i < |r| ensures r[i] != [] && NoSpace(r[i]) {
        if i > 0 {
          assert r[i] == rest[i - 1];
        }
      }
    }
  }

  /** A string has no words exactly when it is all whitespace. */
  lemma WordsEmpty(s: string)
    ensures Words(s) == [] <==> AllSpace(s)
  {
    var t := LStrip(s);
    if t != [] {
      assert !IsSpace(s[|s| - |t|]);
    }
  }

  /** The first word starts with the first non-whitespace character. */
  lemma WordsHead(s: string)
    requires !AllSpace(s)
    ensures Words(s) != [] && LStrip(s) != [] && Words(s)[0][0] == LStrip(s)[0]
  {
    var t := LStrip(s);
    assert t != [];
    assert Words(s)[0] == t[..WordEnd(t)];
  }

  /** sep.join(parts). */
  function JoinWith(sep: string, parts: seq<string>): string
  {
    if parts == [] then []
    else if |parts| == 1 then parts[0]
    else parts[0] + sep + JoinWith(sep, parts[1..])
  }

  /** The index of the first line break in s, or |s|. */
  function BreakAt(s: string): (k: nat)
    ensures k <= |s| && NoLineBreak(s[..k])
    ensures k < |s| ==> IsLineBreak(s[k])
  {
    if s == [] || IsLineBreak(s[0]) then 0 else 1 + BreakAt(s[1..])
  }

  /**
   * str.splitlines(): the lines of s without their line boundaries; a final
   * boundary does not start an extra empty line.
   */
  function SplitLines(s: string): (r: seq<string>)
    decreases |s|
    ensures forall i :: 0 <= i < |r| ==> NoLineBreak(r[i])
  {
    if s == [] then []
    else
      var k := BreakAt(s);
      if k == |s| then [s]
      else
        var w := if s[k] == '\r' && k + 1 < |s| && s[k + 1] == '\n' then 2 else 1;
        [s[..k]] + SplitLines(s[k + w..])
  }

  lemma {:induction false} BreakAtAfter(a: string, b: string)
    requires NoLineBreak(a)
    ensures BreakAt(a + b) == |a| + BreakAt(b)
  {
    if a != [] {
      assert (a + b)[0] == a[0] && !IsLineBreak(a[0]);
      assert (a + b)[1..] == a[1..] + b;
      assert NoLineBreak(a[1..]);
      BreakAtAfter(a[1..], b);
    } else {
      assert a + b == b;
    }
  }

  /** A line without breaks is one line. */
  lemma SplitLinesOfLine(line: string)
    requires line != [] && NoLineBreak(line)
    ensures SplitLines(line) == [line]
  {
    BreakAtAfter(line, []);
    assert line + [] == line;
  }

  /** A line followed by "\n" is split off as the first line. */
  lemma SplitLinesOfFirst(line: string, rest: string)
    requires NoLineBreak(line)
    ensures SplitLines(line + "\n" + rest) == [line] + SplitLines(rest)
  {
    var s := line + "\n" + rest;
    assert s == line + ("\n" + rest);
    BreakAtAfter(line, "\n" + rest);
    assert BreakAt("\n" + rest) == 0;
    assert s[|line|] == '\n';
    assert s[..|line|] == line;
    assert s[|line| + 1..] == rest;
  }

  /** Joining non-empty lines with "\n" and splitting the result again gives the lines back. */
  lemma {:induction false} SplitLinesOfJoin(lines: seq<string>)
    requires forall i :: 0 <= i < |lines| ==> lines[i] != [] && NoLineBreak(lines[i])
    ensures SplitLines(JoinWith("\n", lines)) == lines
  {
    if |lines| == 1 {
      SplitLinesOfLine(lines[0]);
    } else if |lines| > 1 {
      SplitLinesOfFirst(lines[0], JoinWith("\n", lines[1..]));
      SplitLinesOfJoin(lines[1..]);
      assert lines == [lines[0]] + lines[1..];
    }
  }

  /** p occurs in s at index i. */
  predicate OccursAt(s: string, p: string, i: int) {
    0 <= i && i + |p| <= |s| && s[i..i + |p|] == p
  }

  /** The Python expression `p in s`. */
  predicate Contains(s: string, p: string) {
    exists i :: 0 <= i <= |s| && OccursAt(s, p, i)
  }

  /** A substring of a substring is a substring. */
  lemma ContainsTrans(a: string, b: string, c: string)
    requires Contains(a, b) && Contains(b, c)
    ensures Contains(a, c)
  {
    var i :| 0 <= i <= |a| && OccursAt(a, b, i);
    var j :| 0 <= j <= |b| && OccursAt(b, c, j);
    forall t | 0 <= t < |c| ensures a[i + j + t] == c[t] {
      assert a[i + j + t] == a[i..i + |b|][j + t];
      assert b[j + t] == b[j..j + |c|][t];
    }
    assert OccursAt(a, c, i + j);
  }

  /** What does not occur in s does not occur in any substring of s. */
  lemma AbsentFromPart(s: string, part: string, p: string)
    requires Contains(s, part) && !Contains(s, p)
    ensures !Contains(part, p)
  {
    if Contains(part, p) {
      ContainsTrans(s, part, p);
    }
  }

  /** Every suffix of s is a substring of s. */
  lemma ContainsSuffix(s: string, k: nat)
    requires k <= |s|
    ensures Contains(s, s[k..])
  {
    assert OccursAt(s, s[k..], k);
  }

  lemma OccursAtTail(s: string, p: string, i: int)
    requires s != [] && 0 <= i
    ensures OccursAt(s[1..], p, i) <==> OccursAt(s, p, i + 1)
  {
    if 0 <= i && i + |p| <= |s| - 1 {
      assert s[1..][i..i + |p|] == s[i + 1..i + 1 + |p|];
    }
  }

  /** str.find: the first index at which p occurs in s, or -1. */
  function Find(s: string, p: string): (r: int)
    requires p != []
    decreases |s|
    ensures -1 <= r
    ensures r >= 0 ==> OccursAt(s, p, r) && forall i :: 0 <= i < r ==> !OccursAt(s, p, i)
    ensures r == -1 <==> !Contains(s, p)
  {
    if |s| < |p| then
      -1
    else if p <= s then
      assert OccursAt(s, p, 0);
      0
    else
      var k := Find(s[1..], p);
      assert !OccursAt(s, p, 0);
      forall i | 0 <= i ensures OccursAt(s[1..], p, i) <==> OccursAt(s, p, i + 1) {
        OccursAtTail(s, p, i);
      }
      if k == -1 then
        assert forall i :: 1 <= i <= |s| - |p| && OccursAt(s, p, i) ==> OccursAt(s[1..], p, i - 1);
        -1
      else
        forall i | 1 <= i < k + 1 ensures !OccursAt(s, p, i) {
          OccursAtTail(s, p, i - 1);
        }
        k + 1
  }

  /** The first occurrence is where find reports it. */
  lemma FindAt(s: string, p: string, n: nat)
    requires p != [] && OccursAt(s, p, n)
    requires forall i :: 0 <= i < n ==> !OccursAt(s, p, i)
    ensures Find(s, p) == n
  {
    assert Contains(s, p);
  }

  /** str.replace(pat, rep): every non-overlapping occurrence of pat, left to right, replaced by rep. */
  function ReplaceAll(s: string, pat: string, rep: string): (r: string)
    requires pat != []
    decreases |s|
    ensures forall i :: 0 <= i < |r| ==> r[i] in s || r[i] in rep
  {
    if |s| < |pat| then s
    else if pat <= s then rep + ReplaceAll(s[|pat|..], pat, rep)
    else [s[0]] + ReplaceAll(s[1..], pat, rep)
  }

  /**
   * replace works from the first occurrence: the text before it is kept, the
   * occurrence becomes rep, and the rest is processed the same way; without
   * an occurrence the text is unchanged.
   */
  lemma {:induction false} ReplaceAllAtFind(s: string, pat: string, rep: string)
    requires pat != []
    decreases |s|
    ensures Find(s, pat) < 0 ==> ReplaceAll(s, pat, rep) == s
    ensures Find(s, pat) >= 0 ==>
      ReplaceAll(s, pat, rep) == s[..Find(s, pat)] + rep + ReplaceAll(s[Find(s, pat) + |pat|..], pat, rep)
  {
    var n := Find(s, pat);
    if n >= 0 {
      ReplaceAllPrefix(s, pat, rep, n);
      assert pat <= s[n..];
      assert s[n..][|pat|..] == s[n + |pat|..];
    } else {
      ReplaceAllAbsent(s, pat, rep);
    }
  }

  /** A prefix in which pat starts nowhere passes through replace unchanged. */
  lemma {:induction false} ReplaceAllPrefix(s: string, pat: string, rep: string, n: nat)
    requires pat != [] && n <= |s|
    requires forall i :: 0 <= i < n ==> !OccursAt(s, pat, i)
    decreases n
    ensures ReplaceAll(s, pat, rep) == s[..n] + ReplaceAll(s[n..], pat, rep)
  {
    if n > 0 {
      if |s| >= |pat| {
        assert !OccursAt(s, pat, 0);
        forall i | 0 <= i < n - 1 ensures !OccursAt(s[1..], pat, i) {
          OccursAtTail(s, pat, i);
        }
        ReplaceAllPrefix(s[1..], pat, rep, n - 1);
        assert s[1..][n - 1..] == s[n..];
        assert s[..n] == [s[0]] + s[1..][..n - 1];
      } else {
        assert s == s[..n] + s[n..];
      }
    }
  }

  /** Replacing a pattern that does not occur changes nothing. */
  lemma {:induction false} ReplaceAllAbsent(s: string, pat: string, rep: string)
    requires pat != [] && !Contains(s, pat)
    ensures ReplaceAll(s, pat, rep) == s
  {
    if |s| >= |pat| {
      assert !OccursAt(s, pat, 0);
      forall i | 0 <= i ensures !OccursAt(s[1..], pat, i) {
        OccursAtTail(s, pat, i);
      }
      ReplaceAllAbsent(s[1..], pat, rep);
      assert s == [s[0]] + s[1..];
    }
  }

  function DigitChar(d: nat): (c: char)
    requires d < 10
    ensures '0' <= c <= '9'
  {
    (48 + d) as char
  }

  /** str(n) for a natural number: its decimal digits, most significant first, without leading zeros. */
  function NatToString(n: nat): (r: string)
    ensures 1 <= |r|
    ensures forall i :: 0 <= i < |r| ==> '0' <= r[i] <= '9'
    ensures (n < 10) <==> (|r| == 1)
  {
    if n < 10 then [DigitChar(n)] else NatToString(n / 10) + [DigitChar(n % 10)]
  }

  /** Different numbers have different decimal renderings. */
  lemma {:induction false} NatToStringInjective(m: nat, n: nat)
    requires NatToString(m) == NatToString(n)
    ensures m == n
  {
    if m < 10 && n < 10 {
      assert DigitChar(m) as int == 48 + m;
      assert DigitChar(n) as int == 48 + n;
    } else if m >= 10 && n >= 10 {
      var a, b := NatToString(m), NatToString(n);
      assert a[|a| - 1] == DigitChar(m % 10);
      assert b[|b| - 1] == DigitChar(n % 10);
      assert DigitChar(m % 10) as int == 48 + m % 10;
      assert DigitChar(n % 10) as int == 48 + n % 10;
      assert NatToString(m / 10) == a[..|a| - 1];
      assert NatToString(n / 10) == b[..|b| - 1];
      NatToStringInjective(m / 10, n / 10);
    }
  }

  /** str(i) for any integer. */
  function IntToString(i: int): string {
    if i < 0 then "-" + NatToString(-i) else NatToString(i)
  }
}
