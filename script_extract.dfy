/**
 * Fenced-code extraction of agents/openai_script_extract.py: the reply text
 * is cut into the blocks between successive pairs of ``` fences, and the
 * script is the first block that starts with "python", without that word and
 * without surrounding whitespace.
 */
module ScriptExtract {
  import opened Text
  import opened Py

  const Fence: string := "```"

  /** The first fence in t starts at p. */
  predicate FirstFenceAt(t: string, p: int) {
    OccursAt(t, Fence, p) && forall i :: 0 <= i < p ==> !OccursAt(t, Fence, i)
  }

  /** t holds two fences that do not overlap, the second after the first. */
  predicate TwoFences(t: string) {
    exists i, j :: 0 <= i && i + 3 <= j <= |t| && OccursAt(t, Fence, i) && OccursAt(t, Fence, j)
  }

  /**
   * s is the text before its first fence, that fence, the block, the next
   * fence (the first one after the opening fence), and the tail.
   */
  predicate IsMatch(s: string, block: string, tail: string) {
    var p := |s| - |block| - |tail| - 6;
    && 0 <= p && s == s[..p] + Fence + block + Fence + tail
    && FirstFenceAt(s, p) && FirstFenceAt(block + Fence + tail, |block|)
  }

  /**
   * One match of re.findall(r"```(.*?)```", s, re.DOTALL): the first fence
   * opens a block, the next fence after it closes the block, and the scan
   * goes on after the closing fence. None when no two fences remain
   * (NextBlockSpec).
   */
  function NextBlock(s: string): (r: Option<(string, string)>)
    ensures r.Some? ==> !Contains(r.value.0, Fence) && Contains(s, Fence) && |r.value.1| < |s|
  {
    var open := Find(s, Fence);
    if open < 0 then None
    else
      var rest := s[open + 3..];
      var close := Find(rest, Fence);
      if close < 0 then None
      else
        BeforeFirstFence(rest, close);
        Some((rest[..close], rest[close + 3..]))
  }

  /**
   * A match is the text before the first fence, that fence, the block, the
   * next fence and the tail; there is none exactly when no two fences remain.
   */
  lemma NextBlockSpec(s: string)
    ensures NextBlock(s).Some? ==> IsMatch(s, NextBlock(s).value.0, NextBlock(s).value.1)
    ensures NextBlock(s).None? <==> !TwoFences(s)
  {
    var open := Find(s, Fence);
    if open >= 0 {
      var rest := s[open + 3..];
      var close := Find(rest, Fence);
      if close >= 0 {
        assert NextBlock(s) == Some((rest[..close], rest[close + 3..]));
        MatchParts(s, open, close);
      } else {
        assert NextBlock(s) == None;
        NoSecondFence(s, open);
      }
    } else {
      assert NextBlock(s) == None;
      NoFenceNoPair(s);
    }
  }

  lemma NoFenceNoPair(s: string)
    requires !Contains(s, Fence)
    ensures !TwoFences(s)
  {
  }

  /** With the first fence at open and no fence after it, no second fence exists. */
  lemma NoSecondFence(s: string, open: nat)
    requires FirstFenceAt(s, open) && !Contains(s[open + 3..], Fence)
    ensures !TwoFences(s)
  {
    if TwoFences(s) {
      var i, j :| 0 <= i && i + 3 <= j <= |s| && OccursAt(s, Fence, i) && OccursAt(s, Fence, j);
      var rest := s[open + 3..];
      assert open <= i && open + 3 <= j && j + 3 <= |s|;
      var inRest, inS := rest[j - open - 3..j - open], s[j..j + 3];
      forall k | 0 <= k < 3 ensures inRest[k] == inS[k] {
        assert rest[j - open - 3 + k] == s[j + k];
      }
      assert inRest == inS;
      assert OccursAt(rest, Fence, j - open - 3);
    }
  }

  /** The pieces of one match, with the fences at open and, after it, close. */
  lemma MatchParts(s: string, open: nat, close: nat)
    requires FirstFenceAt(s, open) && FirstFenceAt(s[open + 3..], close)
    ensures IsMatch(s, s[open + 3..][..close], s[open + 3..][close + 3..])
    ensures TwoFences(s)
  {
    var rest := s[open + 3..];
    assert rest[close..close + 3] == Fence;
    assert rest == rest[..close] + Fence + rest[close + 3..];
    assert s[open..open + 3] == Fence;
    assert s == s[..open] + Fence + rest;
    assert s[open + 3 + close..open + 6 + close] == rest[close..close + 3];
    assert OccursAt(s, Fence, open + 3 + close);
  }

  /** re.findall over the whole text: the blocks of successive matches, left to right (BlocksOfMatch). */
  function Blocks(s: string): (r: seq<string>)
    decreases |s|
    // No block contains a fence.
    ensures forall k :: 0 <= k < |r| ==> !Contains(r[k], Fence)
    ensures r != [] ==> Contains(s, Fence)
  {
    match NextBlock(s)
    case None => []
    case Some((block, tail)) => [block] + Blocks(tail)
  }

  /** findall finds nothing exactly when the text does not hold two fences. */
  lemma NoBlocksIff(s: string)
    ensures Blocks(s) == [] <==> !TwoFences(s)
  {
    NextBlockSpec(s);
  }

  /** A fence-free text that does not end in a backtick. */
  predicate Plain(t: string) {
    !Contains(t, Fence) && (t == [] || t[|t| - 1] != '`')
  }

  /**
   * A text that starts with a plain part, a fence, a plain block and a fence
   * yields that block first, and then the blocks of what follows.
   */
  lemma BlocksOfMatch(pre: string, block: string, tail: string)
    requires Plain(pre) && Plain(block)
    ensures Blocks(pre + Fence + block + Fence + tail) == [block] + Blocks(tail)
  {
    var s := pre + Fence + block + Fence + tail;
    var rest := block + Fence + tail;
    assert s == pre + Fence + rest;
    FenceAfter(pre, rest);
    FenceAfter(block, tail);
    assert s[|pre| + 3..] == rest;
    assert rest[..|block|] == block;
    assert rest[|block| + 3..] == tail;
    assert NextBlock(s) == Some((block, tail));
  }

  /** After a plain part, the first fence is the one that follows it. */
  lemma FenceAfter(pre: string, rest: string)
    requires Plain(pre)
    ensures Find(pre + Fence + rest, Fence) == |pre| && (pre + Fence + rest)[|pre| + 3..] == rest
  {
    var s := pre + Fence + rest;
    var n := |pre|;
    assert s[n..n + 3] == Fence;
    forall i | 0 <= i < n ensures !OccursAt(s, Fence, i) {
      if i + 3 <= n {
        assert s[i..i + 3] == pre[i..i + 3];
        assert !OccursAt(pre, Fence, i);
      } else {
        assert s[n - 1] == pre[n - 1];
        if i + 3 <= |s| {
          assert s[i..i + 3][n - 1 - i] == s[n - 1];
        }
      }
    }
    FindAt(s, Fence, n);
  }

  /** The text before the first fence holds no fence. */
  lemma BeforeFirstFence(s: string, n: nat)
    requires Find(s, Fence) == n
    ensures !Contains(s[..n], Fence)
  {
    var block := s[..n];
    forall i | 0 <= i <= |block| - 3 ensures !OccursAt(block, Fence, i) {
      assert !OccursAt(s, Fence, i);
      if i + 3 <= |block| {
        assert block[i..i + 3] == s[i..i + 3];
      }
    }
  }

  predicate StartsWithPython(block: string) {
    "python" <= block
  }

  /** blocks[k] is the first block that starts with "python". */
  predicate IsFirstPython(blocks: seq<string>, k: int) {
    && 0 <= k < |blocks|
    && StartsWithPython(blocks[k])
    && forall j :: 0 <= j < k ==> !StartsWithPython(blocks[j])
  }

  /** block.replace("python", "", 1).strip() for a block that starts with "python". */
  function Script(block: string): (r: string)
    requires StartsWithPython(block)
    // What follows the leading "python" is whitespace, then the script, then whitespace.
    ensures SpaceAround(block[6..], r)
    ensures r == [] || (!IsSpace(r[0]) && !IsSpace(r[|r| - 1]))
    ensures r == [] <==> AllSpace(block[6..])
    ensures !Contains(block, Fence) ==> !Contains(r, Fence)
  {
    ScriptInBlock(block);
    Strip(block[6..])
  }

  /** The script is a piece of its block, so a fence-free block gives a fence-free script. */
  lemma ScriptInBlock(block: string)
    requires StartsWithPython(block)
    ensures Contains(block, Strip(block[6..]))
    ensures !Contains(block, Fence) ==> !Contains(Strip(block[6..]), Fence)
  {
    ContainsSuffix(block, 6);
    ContainsTrans(block, block[6..], Strip(block[6..]));
    if !Contains(block, Fence) {
      AbsentFromPart(block, Strip(block[6..]), Fence);
    }
  }

  /** The position of the first block that starts with "python", or -1 when there is none. */
  function FirstPython(blocks: seq<string>): (k: int)
    ensures -1 <= k < |blocks|
    ensures k == -1 <==> forall j :: 0 <= j < |blocks| ==> !StartsWithPython(blocks[j])
    ensures k >= 0 ==> IsFirstPython(blocks, k)
  {
    if blocks == [] then -1
    else if StartsWithPython(blocks[0]) then 0
    else
      var k := FirstPython(blocks[1..]);
      assert forall j :: 1 <= j < |blocks| ==> blocks[j] == blocks[1..][j - 1];
      if k == -1 then -1 else k + 1
  }

  /** OpenAIScriptExtractor.strip_response_script: the first block that starts with "python", as a script; None when there is none. */
  function StripResponseScript(response: string): (r: Option<string>)
    ensures r.None? <==> forall k :: 0 <= k < |Blocks(response)| ==> !StartsWithPython(Blocks(response)[k])
    ensures r.Some? ==> exists k :: IsFirstPython(Blocks(response), k) && r.value == Script(Blocks(response)[k])
    // The script has no whitespace at either end and no fence in it.
    ensures r.Some? ==> r.value == [] || (!IsSpace(r.value[0]) && !IsSpace(r.value[|r.value| - 1]))
    ensures r.Some? ==> !Contains(r.value, Fence)
  {
    var blocks := Blocks(response);
    var k := FirstPython(blocks);
    if k < 0 then None else Some(Script(blocks[k]))
  }

  /**
   * The extraction in fetch_script, given the outcome of the API call: the
   * reply's message content (None when the API gave no text), or an exception.
   * Any exception, including findall's on a missing content, gives None.
   */
  function FetchScript(content: Reply<Option<string>>): (r: Option<string>)
    ensures content.Raised? || content == Returned(None) ==> r.None?
    ensures content.Returned? && content.value.Some? ==> r == StripResponseScript(content.value.value)
  {
    match content
    case Raised => None
    case Returned(None) => None
    case Returned(Some(message)) => StripResponseScript(message)
  }

  /** "python" followed by a plain body is plain. */
  lemma PythonBodyPlain(body: string)
    requires Plain(body)
    ensures Plain("python" + body)
  {
    var t := "python" + body;
    forall i | 0 <= i <= |t| ensures !OccursAt(t, Fence, i) {
      if i < 6 {
        if i + 3 <= |t| {
          assert t[i..i + 3][0] == t[i] == "python"[i];
        }
      } else if i + 3 <= |t| {
        assert t[i..i + 3] == body[i - 6..i - 3];
        assert !OccursAt(body, Fence, i - 6);
      }
    }
  }

  /** A reply holding one fenced block has exactly that block. */
  lemma OneFencedBlock(body: string)
    requires Plain(body)
    ensures Blocks(Fence + ("python" + body + Fence)) == ["python" + body]
  {
    var block := "python" + body;
    assert [] + Fence + block + Fence + [] == Fence + (block + Fence);
    PythonBodyPlain(body);
    BlocksOfMatch([], block, []);
    NoBlocksInEmpty();
  }

  lemma NoBlocksInEmpty()
    ensures Blocks([]) == []
  {
    assert Find([], Fence) == -1;
  }

  /** A reply holding one python fence yields the fence's body, stripped. */
  lemma OneFencedScript(body: string)
    requires Plain(body)
    ensures StripResponseScript(Fence + ("python" + body + Fence)) == Some(Strip(body))
  {
    OneFencedBlock(body);
    var block := "python" + body;
    assert block[..6] == "python";
    assert block[6..] == body;
  }
}
