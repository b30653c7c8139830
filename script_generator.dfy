/**
 * Script naming and creation of agents/script_generator.py: a task
 * description is turned into a file-name stem of at most 50 characters from
 * [a-z0-9_], and the first free path scripts/_<stem>.py, scripts/_<stem>_1.py,
 * scripts/_<stem>_2.py, ... is chosen against the files that already exist.
 */
module ScriptGenerator {
  import opened Text
  import opened Py

  /** The characters the name filter keeps: [a-z0-9_]. */
  predicate Allowed(c: char) {
    'a' <= c <= 'z' || '0' <= c <= '9' || c == '_'
  }

  predicate AllAllowed(s: string) {
    forall i :: 0 <= i < |s| ==> Allowed(s[i])
  }

  /**
   * str.lower() for one character, exactly on the characters whose lower case
   * is ASCII: A-Z, KELVIN SIGN (to "k") and LATIN CAPITAL LETTER I WITH DOT
   * ABOVE (to "i" and a combining dot). Every other character is kept, which
   * the name filter then treats as Python's own lower case would.
   */
  function LowerChar(c: char): (r: string)
    ensures forall i :: 0 <= i < |r| ==> !('A' <= r[i] <= 'Z')
  {
    if 'A' <= c <= 'Z' then [(c as int + 32) as char]
    else if c == '\U{212A}' then "k"
    else if c == '\U{0130}' then "i\U{0307}"
    else [c]
  }

  /** str.lower(). */
  function Lower(s: string): (r: string)
    ensures forall i :: 0 <= i < |r| ==> !('A' <= r[i] <= 'Z')
  {
    if s == [] then [] else LowerChar(s[0]) + Lower(s[1..])
  }

  /** Lower-casing works character by character: the lower case of a + b is that of a, then that of b. */
  lemma {:induction false} LowerAppend(a: string, b: string)
    ensures Lower(a + b) == Lower(a) + Lower(b)
  {
    if a != [] {
      assert (a + b)[0] == a[0];
      assert (a + b)[1..] == a[1..] + b;
      LowerAppend(a[1..], b);
    } else {
      assert a + b == b;
    }
  }

  /**
   * On ASCII text, lower-casing keeps the length and moves each capital
   * A-Z to its small letter, 32 code points up; every other character stays.
   */
  lemma {:induction false} LowerOfAscii(s: string)
    requires forall i :: 0 <= i < |s| ==> s[i] < '\U{80}'
    ensures |Lower(s)| == |s|
    ensures forall i :: 0 <= i < |s| ==>
      Lower(s)[i] == if 'A' <= s[i] <= 'Z' then (s[i] as int + 32) as char else s[i]
  {
    if s != [] {
      LowerOfAscii(s[1..]);
      assert Lower(s) == LowerChar(s[0]) + Lower(s[1..]);
      assert forall i :: 1 <= i < |s| ==> s[i] == s[1..][i - 1];
    }
  }

  /** re.sub(r'[^a-z0-9_]', '', s): the allowed characters of s, in order. */
  function KeepAllowed(s: string): (r: string)
    ensures AllAllowed(r) && |r| <= |s|
    ensures AllAllowed(s) ==> r == s
  {
    if s == [] then []
    else if Allowed(s[0]) then [s[0]] + KeepAllowed(s[1..])
    else KeepAllowed(s[1..])
  }

  /** The filter keeps each character on its own: one allowed character stays, any other goes. */
  lemma KeepAllowedOne(c: char)
    ensures KeepAllowed([c]) == if Allowed(c) then [c] else []
  {
    assert [c][1..] == [];
  }

  /** The filter keeps the order of the characters: filtering a + b filters a, then b. */
  lemma {:induction false} KeepAllowedAppend(a: string, b: string)
    ensures KeepAllowed(a + b) == KeepAllowed(a) + KeepAllowed(b)
  {
    if a != [] {
      assert (a + b)[0] == a[0];
      assert (a + b)[1..] == a[1..] + b;
      KeepAllowedAppend(a[1..], b);
    } else {
      assert a + b == b;
    }
  }

  /** s.replace("py", ""): one left-to-right pass deleting non-overlapping "py" (RemovePyFromFirst). */
  function RemovePy(s: string): (r: string)
    ensures forall i :: 0 <= i < |r| ==> r[i] in s
  {
    ReplaceAll(s, "py", "")
  }

  /**
   * The pass keeps the text before the first "py", deletes that "py", and
   * goes on with the rest; text without "py" is kept whole.
   */
  lemma RemovePyFromFirst(s: string)
    ensures !Contains(s, "py") ==> RemovePy(s) == s
    ensures Find(s, "py") >= 0 ==> RemovePy(s) == s[..Find(s, "py")] + RemovePy(s[Find(s, "py") + 2..])
  {
    ReplaceAllAtFind(s, "py", "");
  }

  /** sanitize_filename. */
  function Sanitize(description: string): (r: string)
    ensures |r| <= 50
    ensures AllAllowed(r)
    // The first 50 characters of the lower-cased, underscored, filtered text after one pass of "py" deletion.
    ensures var full := RemovePy(KeepAllowed(ReplaceAll(Lower(description), " ", "_")));
      r <= full && |r| == if |full| <= 50 then |full| else 50
  {
    var stem := RemovePy(KeepAllowed(ReplaceAll(Lower(description), " ", "_")));
    var r := if |stem| <= 50 then stem else stem[..50];
    assert forall i :: 0 <= i < |r| ==> r[i] in stem;
    r
  }

  /** One pass of the "py" deletion can leave a "py" behind: sanitize_filename does not promise a name free of "py". */
  lemma RemovePyLeavesPy()
    ensures Sanitize("ppyy") == "py"
  {
    LowercaseNameKept();
    RemovePyOnce();
  }

  lemma RemovePyOnce()
    ensures RemovePy("ppyy") == "py"
  {
    RemovePyFirst();
    RemovePyRest();
  }

  lemma RemovePyFirst()
    ensures ReplaceAll("ppyy", "py", "") == "p" + ReplaceAll("pyy", "py", "")
  {
    assert !("py" <= "ppyy") by { assert "ppyy"[1] != "py"[1]; }
    assert "ppyy"[1..] == "pyy";
  }

  lemma RemovePyRest()
    ensures ReplaceAll("pyy", "py", "") == "y"
  {
    assert "py" <= "pyy";
    assert "pyy"[2..] == "y";
  }

  lemma LowercaseNameKept()
    ensures KeepAllowed(ReplaceAll(Lower("ppyy"), " ", "_")) == "ppyy"
  {
    LowerOfLowercase("ppyy");
    NoSpaceInName();
    assert AllAllowed("ppyy");
  }

  lemma NoSpaceInName()
    ensures ReplaceAll("ppyy", " ", "_") == "ppyy"
  {
    forall i | 0 <= i <= 4 ensures !OccursAt("ppyy", " ", i) {
      if i < 4 {
        assert "ppyy"[i..i + 1][0] == "ppyy"[i] != ' ';
      }
    }
    ReplaceAllAbsent("ppyy", " ", "_");
  }

  /** A name already in lower case is left as it is. */
  lemma {:induction false} LowerOfLowercase(s: string)
    requires forall i :: 0 <= i < |s| ==> 'a' <= s[i] <= 'z'
    ensures Lower(s) == s
  {
    if s != [] {
      LowerOfLowercase(s[1..]);
      assert LowerChar(s[0]) == [s[0]];
    }
  }

  /** The k-th path generate_unique_filename tries: scripts/_<base>.py, then scripts/_<base>_<k>.py. */
  function Candidate(base: string, k: nat): string {
    if k == 0 then "scripts/_" + base + ".py"
    else "scripts/_" + base + "_" + NatToString(k) + ".py"
  }

  /** Different attempts try different paths. */
  lemma CandidateInjective(base: string, m: nat, n: nat)
    requires Candidate(base, m) == Candidate(base, n)
    ensures m == n
  {
    var prefix := "scripts/_" + base + "_";
    if m != 0 && n != 0 {
      var a, b := Candidate(base, m), Candidate(base, n);
      assert a == prefix + NatToString(m) + ".py";
      assert b == prefix + NatToString(n) + ".py";
      assert a[|prefix|..|a| - 3] == NatToString(m);
      assert b[|prefix|..|b| - 3] == NatToString(n);
      NatToStringInjective(m, n);
    }
  }

  /** The first n paths tried. */
  ghost function Tried(base: string, n: nat): (r: set<string>)
    ensures forall k: nat :: k < n ==> Candidate(base, k) in r
  {
    if n == 0 then {} else Tried(base, n - 1) + {Candidate(base, n - 1)}
  }

  /** The first n attempts are n different paths. */
  lemma {:induction false} TriedSize(base: string, n: nat)
    ensures |Tried(base, n)| == n
  {
    if n > 0 {
      TriedSize(base, n - 1);
      if Candidate(base, n - 1) in Tried(base, n - 1) {
        TriedOnlyEarlier(base, n - 1, n - 1);
      }
    }
  }

  lemma {:induction false} TriedOnlyEarlier(base: string, n: nat, k: nat)
    requires Candidate(base, k) in Tried(base, n)
    ensures k < n
  {
    if n == 0 {
    } else if Candidate(base, k) == Candidate(base, n - 1) {
      CandidateInjective(base, k, n - 1);
    } else {
      TriedOnlyEarlier(base, n - 1, k);
    }
  }

  /** path is the first of base's candidates that is not among the existing files. */
  ghost predicate IsFirstFree(base: string, existing: set<string>, path: string) {
    exists k: nat :: path == Candidate(base, k) && path !in existing &&
      forall j: nat :: j < k ==> Candidate(base, j) in existing
  }

  /** generate_unique_filename: the loop ends for every finite set of existing files, on the first free candidate. */
  method GenerateUniqueFilename(base: string, existing: set<string>) returns (path: string)
    ensures path !in existing
    ensures IsFirstFree(base, existing, path)
  {
    path := Candidate(base, 0);
    var count := 1;
    while path in existing
      invariant count >= 1 && path == Candidate(base, count - 1)
      invariant Tried(base, count - 1) <= existing
      decreases |existing| - |Tried(base, count - 1)|
    {
      assert Tried(base, count) == Tried(base, count - 1) + {path};
      TriedSize(base, count - 1);
      TriedSize(base, count);
      SubsetSize(Tried(base, count), existing);
      path := Candidate(base, count);
      count := count + 1;
    }
    forall j: nat | j < count - 1 ensures Candidate(base, j) in existing {
      assert Candidate(base, j) in Tried(base, count - 1);
    }
  }

  lemma SubsetSize(a: set<string>, b: set<string>)
    requires a <= b
    ensures |a| <= |b|
  {
    assert b == a + (b - a);
  }

  /** The first free candidate is unique: the chosen path is determined by base and the existing files. */
  lemma FirstFreeUnique(base: string, existing: set<string>, p: string, q: string)
    requires IsFirstFree(base, existing, p) && IsFirstFree(base, existing, q)
    ensures p == q
  {
    var m: nat :| p == Candidate(base, m) && p !in existing &&
      forall j: nat :: j < m ==> Candidate(base, j) in existing;
    var n: nat :| q == Candidate(base, n) && q !in existing &&
      forall j: nat :: j < n ==> Candidate(base, j) in existing;
  }

  /** In an empty directory the first script for a stem is scripts/_<stem>.py; once that exists, the next is scripts/_<stem>_1.py. */
  lemma FirstAndSecondScript(base: string, other: set<string>)
    requires forall k: nat :: Candidate(base, k) !in other
    ensures IsFirstFree(base, other, "scripts/_" + base + ".py")
    ensures IsFirstFree(base, other + {Candidate(base, 0)}, "scripts/_" + base + "_1.py")
  {
    assert Candidate(base, 0) == "scripts/_" + base + ".py";
    assert NatToString(1) == "1";
    assert Candidate(base, 1) == "scripts/_" + base + "_1.py";
    assert Candidate(base, 1) != Candidate(base, 0) by {
      if Candidate(base, 1) == Candidate(base, 0) {
        CandidateInjective(base, 1, 0);
      }
    }
    assert forall j: nat :: j < 1 ==> Candidate(base, j) in other + {Candidate(base, 0)};
  }

  /** The stem generate_script names the file after: the sanitised description, or "script" when that is empty. */
  function Stem(description: string): (r: string)
    ensures r != [] && |r| <= 50 && AllAllowed(r)
    ensures Sanitize(description) != [] ==> r == Sanitize(description)
    ensures Sanitize(description) == [] ==> r == "script"
  {
    var s := Sanitize(description);
    DefaultStemAllowed();
    if s != [] then s else "script"
  }

  lemma DefaultStemAllowed()
    ensures AllAllowed("script")
  {
    forall i | 0 <= i < 6 ensures Allowed("script"[i]) {
      assert 'a' <= "script"[i] <= 'z';
    }
  }

  /** The scripts directory: each existing file with its contents. */
  class ScriptDir {
    var files: map<string, string>

    constructor (files: map<string, string>)
      ensures this.files == files
    {
      this.files := files;
    }

    /**
     * generate_script, with the arguments it passes to the extractor's
     * constructor and the extractor's reply given. The constructor raises
     * without an API key; otherwise the file is created at the first free path
     * for the stem and the script written into it, and a missing script (None)
     * makes the write raise after the file is created.
     */
    method GenerateScript(description: string, extractorArgs: seq<string>, content: Option<string>) returns (r: Reply<string>)
      modifies this
      ensures r.Returned? <==> NewExtractor(extractorArgs).Returned? && content.Some?
      ensures NewExtractor(extractorArgs).Raised? ==> files == old(files)
      ensures NewExtractor(extractorArgs).Returned? ==>
        exists path :: IsFirstFree(Stem(description), old(files).Keys, path) &&
          files == old(files)[path := if content.Some? then content.value else ""] &&
          (r.Returned? ==> r.value == path)
    {
      var extractor := NewExtractor(extractorArgs);
      if extractor.Raised? {
        return Raised;
      }
      var base := Sanitize(description);
      if base == [] {
        base := "script";
      }
      assert base == Stem(description);
      var path := GenerateUniqueFilename(base, files.Keys);
      files := files[path := ""];
      if content.None? {
        assert files == old(files)[path := ""];
        return Raised;
      }
      files := files[path := content.value];
      r := Returned(path);
    }

    /**
     * generate_script as written: it builds its extractor with no arguments,
     * so every call raises before a path is chosen or a file written.
     */
    method GenerateScriptAsWritten(description: string, content: Option<string>) returns (r: Reply<string>)
      modifies this
      ensures r.Raised? && files == old(files)
    {
      r := GenerateScript(description, [], content);
    }

    /** generate_script as intended: the extractor gets the API key, and the script lands at the first free path for the stem. */
    method GenerateScriptWithKey(description: string, apiKey: string, content: Option<string>) returns (r: Reply<string>)
      modifies this
      ensures r.Returned? <==> content.Some?
      ensures
        exists path :: IsFirstFree(Stem(description), old(files).Keys, path) && path !in old(files) &&
          files == old(files)[path := if content.Some? then content.value else ""] &&
          (r.Returned? ==> r.value == path)
    {
      r := GenerateScript(description, [apiKey], content);
    }
  }

  /** Calling OpenAIScriptExtractor(...) with the given positional arguments: the API key is required, so a call without it raises TypeError. */
  function NewExtractor(args: seq<string>): (r: Reply<()>)
    ensures r.Returned? <==> 1 <= |args| <= 2
  {
    if 1 <= |args| <= 2 then Returned(()) else Raised
  }
}
