/**
 * Path selection of agents/code_auditor.py: after static analysis (whose
 * verdict is only logged) and an AI review that is meant to write
 * <script>_improved.py, the auditor hands back the improved script when it
 * exists and the original script otherwise, including when the review raised.
 */
module CodeAuditor {
  import opened Text
  import opened Py

  /** script_path.replace(".py", "_improved.py"). */
  function ImprovedPath(scriptPath: string): string {
    ReplaceAll(scriptPath, ".py", "_improved.py")
  }

  /**
   * review_and_improve, given the static-analysis verdict, the outcome of the
   * reviewer's call, and the files that exist once the reviewer has run.
   */
  function ReviewAndImprove(scriptPath: string, staticOk: bool, review: Reply<()>, filesAfter: set<string>): (r: string)
    // The result is always the original script or its improved variant.
    ensures r == scriptPath || r == ImprovedPath(scriptPath)
    // The improved variant is chosen exactly when the reviewer returned and the file exists.
    ensures review.Returned? && ImprovedPath(scriptPath) in filesAfter ==> r == ImprovedPath(scriptPath)
    ensures r != scriptPath ==> review.Returned? && ImprovedPath(scriptPath) in filesAfter
    // A raising reviewer or a missing improved file gives back the original script.
    ensures review.Raised? ==> r == scriptPath
    ensures ImprovedPath(scriptPath) !in filesAfter ==> r == scriptPath
  {
    // a failed static analysis is only logged as a warning
    match review
    case Raised => scriptPath
    case Returned(_) =>
      var improved := ImprovedPath(scriptPath);
      if improved in filesAfter then improved else scriptPath
  }

  /** The static-analysis verdict never changes the path handed back. */
  lemma StaticAnalysisOnlyLogs(scriptPath: string, review: Reply<()>, filesAfter: set<string>)
    ensures ReviewAndImprove(scriptPath, true, review, filesAfter) == ReviewAndImprove(scriptPath, false, review, filesAfter)
  {
  }

  /** A path ending in its only ".py" has its improved variant beside it: p.py becomes p_improved.py. */
  lemma {:induction false} ImprovedPathOfScript(p: string)
    requires !Contains(p, ".py")
    ensures ImprovedPath(p + ".py") == p + "_improved.py"
  {
    var s := p + ".py";
    if p == [] {
      assert s == ".py";
      assert s[3..] == [];
    } else {
      NoPyAtFront(p);
      NoPyInTail(p);
      ImprovedPathOfScript(p[1..]);
      assert s[1..] == p[1..] + ".py";
      assert s == [p[0]] + s[1..];
    }
  }

  /** Without ".py" in p, p + ".py" does not start with ".py". */
  lemma NoPyAtFront(p: string)
    requires p != [] && !Contains(p, ".py")
    ensures !(".py" <= p + ".py")
  {
    var s := p + ".py";
    if |p| >= 3 {
      assert !OccursAt(p, ".py", 0);
      assert s[..3] == p[..3];
    } else if |p| == 1 {
      assert s[1] == '.';
    } else {
      assert s[2] == '.';
    }
  }

  /** Without ".py" in p, there is none in p's tail either. */
  lemma NoPyInTail(p: string)
    requires p != [] && !Contains(p, ".py")
    ensures !Contains(p[1..], ".py")
  {
    forall i | 0 <= i ensures !OccursAt(p[1..], ".py", i) {
      OccursAtTail(p, ".py", i);
    }
  }

  /** A path without ".py" has no distinct improved variant, so the original path always comes back. */
  lemma NoPyKeepsPath(scriptPath: string, staticOk: bool, review: Reply<()>, filesAfter: set<string>)
    requires !Contains(scriptPath, ".py")
    ensures ReviewAndImprove(scriptPath, staticOk, review, filesAfter) == scriptPath
  {
    ReplaceAllAbsent(scriptPath, ".py", "_improved.py");
  }
}
