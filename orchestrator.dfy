/**
 * The task pipeline of task_orchestrator.py. An orchestrator loads the task
 * list once, walks it in order, drives every task whose status is "pending"
 * through generate, optional audit and optional execute, writes one terminal
 * status into the task, has the task store mark it done, and finally saves
 * the whole list once.
 *
 * The script generator, the code auditor and the executor are collaborators
 * given as functions of their arguments; every call to them and to
 * mark_task_done is recorded, in order, in the orchestrator's call log.
 */
module Orchestration {
  import opened Py
  import opened Text
  import TaskStore

  /** One call the orchestrator makes to a collaborator or to the task store. */
  datatype Call =
    | Generate(prompt: Value, path: string)
    | Audit(path: string)
    | Execute(path: string)
    | MarkDone(id: Value)

  /**
   * The collaborators: generate_script's result as a truth value, or the
   * exception it raises; the path review_and_improve chooses; whether
   * execute_script succeeded (it catches every exception itself).
   */
  datatype Collaborators = Collaborators(
    generate: (Value, string) -> Reply<bool>,
    audit: string -> string,
    execute: string -> bool)

  function TaskId(t: map<string, Value>): Value { Get(t, "id", Null) }

  function Prompt(t: map<string, Value>): Value { Get(t, "task", Null) }

  /** task.get("skip_auditor", False), as a condition. */
  predicate SkipsAuditor(t: map<string, Value>) { Truthy(Get(t, "skip_auditor", Bool(false))) }

  /** task.get("execute", False), as a condition. */
  predicate Executes(t: map<string, Value>) { Truthy(Get(t, "execute", Bool(false))) }

  /** The path process_task hands to the generator: scripts/script_<id>.py. */
  function ScriptFile(id: Value): string {
    "scripts/script_" + Show(id) + ".py"
  }

  /** The statuses process_task writes. */
  const Terminal: set<string> := {"failed", "completed", "execution_failed", "generated_only"}

  /** The generator returned a truthy result for this task. */
  predicate Generated(t: map<string, Value>, c: Collaborators) {
    c.generate(Prompt(t), ScriptFile(TaskId(t))) == Returned(true)
  }

  /** The path the executor receives: the generator's path, or the path the auditor chose for it. */
  function ExecutedPath(t: map<string, Value>, c: Collaborators): string {
    if SkipsAuditor(t) then ScriptFile(TaskId(t)) else c.audit(ScriptFile(TaskId(t)))
  }

  predicate Audited(calls: seq<Call>) {
    exists k :: 0 <= k < |calls| && calls[k].Audit?
  }

  predicate Executed(calls: seq<Call>) {
    exists k :: 0 <= k < |calls| && calls[k].Execute?
  }

  /** What process_task does with one task: the calls it makes and the status it writes (None when the generator raises). */
  datatype Stage = Stage(calls: seq<Call>, status: Option<string>)

  /** process_task on the task dict t. */
  function Process(t: map<string, Value>, c: Collaborators): (r: Stage)
    ensures r.status.Some? ==> r.status.value in Terminal
  {
    var id := TaskId(t);
    var path := ScriptFile(id);
    var generate := [Generate(Prompt(t), path)];
    match c.generate(Prompt(t), path)
    case Raised => Stage(generate, None)
    case Returned(ok) =>
      if !ok then Stage(generate, Some("failed"))
      else
        var audit := if SkipsAuditor(t) then [] else [Audit(path)];
        var path' := ExecutedPath(t, c);
        var tail := if Executes(t) then [Execute(path'), MarkDone(id)] else [MarkDone(id)];
        if Executes(t) then
          var status := if c.execute(path') then "completed" else "execution_failed";
          Stage(generate + audit + tail, Some(status))
        else
          Stage(generate + audit + tail, Some("generated_only"))
  }

  /** The status process_task writes: none when the generator raises, "failed" when it returns a falsy value, otherwise as execute and the executor decide. */
  lemma ProcessStatus(t: map<string, Value>, c: Collaborators)
    ensures Process(t, c).status.None? <==> c.generate(Prompt(t), ScriptFile(TaskId(t))).Raised?
    ensures Process(t, c).status == Some("failed") <==> c.generate(Prompt(t), ScriptFile(TaskId(t))) == Returned(false)
    ensures Process(t, c).status == Some("generated_only") <==> Generated(t, c) && !Executes(t)
    ensures Process(t, c).status == Some("completed") <==> Generated(t, c) && Executes(t) && c.execute(ExecutedPath(t, c))
    ensures Process(t, c).status == Some("execution_failed") <==> Generated(t, c) && Executes(t) && !c.execute(ExecutedPath(t, c))
  {
  }

  /**
   * The calls process_task makes: the generator first, with
   * scripts/script_<id>.py, and nothing else unless it returned a truthy value;
   * then the auditor on that path unless skip_auditor is truthy, the executor on
   * the audited path when execute is truthy, and mark_task_done last.
   */
  lemma ProcessCalls(t: map<string, Value>, c: Collaborators)
    ensures var r := Process(t, c).calls;
      && |r| >= 1 && r[0] == Generate(Prompt(t), ScriptFile(TaskId(t)))
      && (!Generated(t, c) ==> |r| == 1)
      && (Audited(r) <==> Generated(t, c) && !SkipsAuditor(t))
      && (Audited(r) ==> Audit(ScriptFile(TaskId(t))) in r)
      && (Executed(r) <==> Generated(t, c) && Executes(t))
      && (forall k :: 0 <= k < |r| && r[k].Execute? ==> r[k].path == ExecutedPath(t, c))
      && (MarkDone(TaskId(t)) in r <==> Generated(t, c))
      && (Generated(t, c) ==> r[|r| - 1] == MarkDone(TaskId(t)))
  {
    var r := Process(t, c).calls;
    if Generated(t, c) {
      var path := ScriptFile(TaskId(t));
      var audit := if SkipsAuditor(t) then [] else [Audit(path)];
      var tail := if Executes(t) then [Execute(ExecutedPath(t, c)), MarkDone(TaskId(t))] else [MarkDone(TaskId(t))];
      assert r == [Generate(Prompt(t), path)] + audit + tail;
      assert !SkipsAuditor(t) ==> r[1] == Audit(path);
      assert Executes(t) ==> r[1 + |audit|].Execute?;
    }
  }

  /**
   * The condition `task["status"] == "pending"` of run's loop, for a dict that
   * has the key. Unlike the task store's `task.get("status")`, indexing raises
   * on a missing key (Step), so this is a separate predicate from TaskStore.IsPending.
   */
  predicate IndexedPending(task: Value) {
    task.Dict? && "status" in task.entries && task.entries["status"] == Str("pending")
  }

  /** A pending task after process_task has written its status. */
  function Finalized(task: Value, c: Collaborators): Value
    requires IndexedPending(task) && Process(task.entries, c).status.Some?
  {
    Dict(task.entries["status" := Str(Process(task.entries, c).status.value)])
  }

  /** The state run's loop carries: the in-memory list, the calls made, tasks.json, and whether no exception has escaped. */
  datatype RunState = RunState(tasks: seq<Value>, calls: seq<Call>, file: TaskStore.File, ok: bool)

  /**
   * One iteration of run's loop, on the i-th task. `task["status"]` raises on a
   * non-dict or a dict without "status"; a non-pending task is skipped; a pending
   * one is processed, and a raising generator or mark_task_done ends the run.
   */
  function Visit(s: RunState, i: nat, c: Collaborators): (r: RunState)
    requires i < |s.tasks|
    ensures |r.tasks| == |s.tasks|
  {
    if !s.ok then s
    else
      var task := s.tasks[i];
      if !task.Dict? || "status" !in task.entries then s.(ok := false)
      else if !IndexedPending(task) then s
      else
        var t := task.entries;
        var st := Process(t, c);
        var calls := s.calls + st.calls;
        match st.status
        case None => s.(calls := calls, ok := false)
        case Some(status) =>
          var tasks := s.tasks[i := Dict(t["status" := Str(status)])];
          if !Generated(t, c) then
            RunState(tasks, calls, s.file, true)
          else
            match TaskStore.MarkedFile(s.file, TaskId(t))
            case Raised => RunState(tasks, calls, s.file, false)
            case Returned(f) => RunState(tasks, calls, f, true)
  }

  /**
   * `after` is what processing the pending task t at position i makes of
   * `before`: its calls are appended, the status it writes replaces the task's
   * status, and mark_task_done rewrites tasks.json when generation succeeded.
   */
  predicate ProcessedAs(t: map<string, Value>, c: Collaborators, i: nat, before: RunState, after: RunState)
    requires i < |before.tasks|
  {
    var st := Process(t, c);
    var marked := TaskStore.MarkedFile(before.file, TaskId(t));
    && after.calls == before.calls + st.calls
    && (st.status.None? ==> !after.ok && after.tasks == before.tasks && after.file == before.file)
    && (st.status.Some? ==> after.tasks == before.tasks[i := Dict(t["status" := Str(st.status.value)])])
    && (st.status.Some? && !Generated(t, c) ==> after.ok && after.file == before.file)
    && (Generated(t, c) ==> after.ok == marked.Returned? && after.file == (if marked.Returned? then marked.value else before.file))
  }

  /** Visiting a pending task processes it. */
  lemma VisitPending(s: RunState, i: nat, c: Collaborators)
    requires i < |s.tasks| && s.ok && IndexedPending(s.tasks[i])
    ensures ProcessedAs(s.tasks[i].entries, c, i, s, Visit(s, i, c))
  {
  }

  /** The state after run's loop has visited the first n tasks. */
  function RunUpTo(s0: RunState, n: nat, c: Collaborators): (r: RunState)
    requires n <= |s0.tasks|
    ensures |r.tasks| == |s0.tasks|
    decreases n
  {
    if n == 0 then s0 else Visit(RunUpTo(s0, n - 1, c), n - 1, c)
  }

  /** The document save_tasks writes: {"tasks": tasks}. */
  function Saved(tasks: Value): TaskStore.File {
    TaskStore.Doc(Dict(map["tasks" := tasks]))
  }

  /** The result of run: the in-memory task list, the calls made, tasks.json afterwards, and whether run returned. */
  datatype Outcome = Outcome(tasks: Value, calls: seq<Call>, file: TaskStore.File, ok: bool)

  /** run on the list `tasks` loaded from tasks.json, whose contents are `file`. */
  function RunSpec(tasks: Value, file: TaskStore.File, c: Collaborators): Outcome {
    match tasks
    case List(xs) =>
      var r := RunUpTo(RunState(xs, [], file, true), |xs|, c);
      Outcome(List(r.tasks), r.calls, if r.ok then Saved(List(r.tasks)) else r.file, r.ok)
    case _ =>
      if LoopItems(tasks).Returned? then Outcome(tasks, [], Saved(tasks), true)
      else Outcome(tasks, [], file, false)
  }

  /** TaskOrchestrator.load_tasks: the "tasks" entry, [] for an absent or malformed file; .get raises on a non-dict document. */
  function LoadTaskList(f: TaskStore.File): (r: Reply<Value>)
    ensures f.Missing? || f.Malformed? ==> r == Returned(List([]))
    ensures r.Raised? <==> f.Doc? && !f.content.Dict?
    ensures f.Doc? && r.Returned? ==> r.value == Get(f.content.entries, "tasks", List([]))
  {
    match f
    case Missing => Returned(List([]))
    case Malformed => Returned(List([]))
    case Doc(doc) => if doc.Dict? then Returned(Get(doc.entries, "tasks", List([]))) else Raised
  }

  class Orchestrator {
    /** self.tasks, loaded once at construction. */
    var tasks: Value
    /** Every collaborator and mark_task_done call made so far, in order. */
    var calls: seq<Call>
    /** tasks.json. */
    const disk: TaskStore.Disk

    constructor (disk: TaskStore.Disk)
      requires LoadTaskList(disk.file).Returned?
      ensures this.disk == disk && tasks == LoadTaskList(disk.file).value && calls == []
    {
      this.disk := disk;
      tasks := LoadTaskList(disk.file).value;
      calls := [];
    }

    /** save_tasks: writes {"tasks": self.tasks} over tasks.json. */
    method SaveTasks()
      modifies disk
      ensures disk.file == Saved(tasks)
    {
      TaskStore.SaveTasks(disk, Dict(map["tasks" := tasks]));
    }

    /** process_task on the pending i-th task, updating it in place. */
    method ProcessTask(i: nat, c: Collaborators) returns (ok: bool)
      requires tasks.List? && i < |tasks.items| && IndexedPending(tasks.items[i])
      modifies this, disk
      ensures tasks.List?
      ensures ProcessedAs(old(tasks.items[i].entries), c, i,
        RunState(old(tasks.items), old(calls), old(disk.file), true), RunState(tasks.items, calls, disk.file, ok))
    {
      var task := tasks.items[i].entries;
      var id := Get(task, "id", Null);
      var prompt := Get(task, "task", Null);
      var skipAuditor := Truthy(Get(task, "skip_auditor", Bool(false)));
      var executeFlag := Truthy(Get(task, "execute", Bool(false)));
      var scriptFile := ScriptFile(id);

      ghost var calls0 := calls;
      ghost var made := [Generate(prompt, scriptFile)];
      calls := calls + [Generate(prompt, scriptFile)];
      var generated := c.generate(prompt, scriptFile);
      if generated.Raised? {
        assert Process(task, c) == Stage(made, None);
        return false;
      }
      if !generated.value {
        assert Process(task, c) == Stage(made, Some("failed"));
        tasks := List(tasks.items[i := Dict(task["status" := Str("failed")])]);
        return true;
      }

      if !skipAuditor {
        made := made + [Audit(scriptFile)];
        calls := calls + [Audit(scriptFile)];
        scriptFile := c.audit(scriptFile);
      }
      assert scriptFile == ExecutedPath(task, c);

      var status;
      if executeFlag {
        made := made + [Execute(scriptFile)];
        calls := calls + [Execute(scriptFile)];
        if c.execute(scriptFile) {
          status := "completed";
        } else {
          status := "execution_failed";
        }
      } else {
        status := "generated_only";
      }
      tasks := List(tasks.items[i := Dict(task["status" := Str(status)])]);

      made := made + [MarkDone(id)];
      calls := calls + [MarkDone(id)];
      assert Process(task, c) == Stage(made, Some(status));
      assert calls == calls0 + made;
      ok := TaskStore.MarkTaskDone(disk, id);
    }

    /** One pass of run's loop, on the i-th task: skip it, process it, or raise. */
    method Step(i: nat, c: Collaborators, ghost s0: RunState, ghost calls0: seq<Call>) returns (ok: bool)
      requires i < |s0.tasks| && RunUpTo(s0, i, c).ok
      requires tasks == List(RunUpTo(s0, i, c).tasks)
      requires calls == calls0 + RunUpTo(s0, i, c).calls
      requires disk.file == RunUpTo(s0, i, c).file
      modifies this, disk
      ensures
        var s := RunUpTo(s0, i + 1, c);
        ok == s.ok && tasks == List(s.tasks) && calls == calls0 + s.calls && disk.file == s.file
    {
      ghost var before := RunUpTo(s0, i, c);
      assert RunUpTo(s0, i + 1, c) == Visit(before, i, c);
      var task := tasks.items[i];
      if !task.Dict? || "status" !in task.entries {
        return false;
      }
      if task.entries["status"] == Str("pending") {
        VisitPending(before, i, c);
        ok := ProcessTask(i, c);
      } else {
        ok := true;
      }
    }

    /** run: process every pending task in list order, then save the whole list once. */
    method Run(c: Collaborators) returns (ok: bool)
      modifies this, disk
      ensures
        var r := RunSpec(old(tasks), old(disk.file), c);
        ok == r.ok && tasks == r.tasks && calls == old(calls) + r.calls && disk.file == r.file
    {
      if !tasks.List? {
        if LoopItems(tasks).Returned? {
          SaveTasks();
          return true;
        }
        return false;
      }
      ghost var s0 := RunState(tasks.items, [], disk.file, true);
      ghost var calls0 := calls;
      var n := |tasks.items|;
      var i := 0;
      while i < n
        invariant 0 <= i <= n == |s0.tasks|
        invariant RunUpTo(s0, i, c).ok
        invariant tasks == List(RunUpTo(s0, i, c).tasks)
        invariant calls == calls0 + RunUpTo(s0, i, c).calls
        invariant disk.file == RunUpTo(s0, i, c).file
      {
        ok := Step(i, c, s0, calls0);
        if !ok {
          AbortSticks(s0, i + 1, n, c);
          return false;
        }
        i := i + 1;
      }
      SaveTasks();
      ok := true;
    }
  }

  // ------------------------------------------------------------------ lemmas

  /** A visit changes at most the visited task, and only a pending one. */
  lemma VisitKeepsOthers(s: RunState, i: nat, c: Collaborators, j: nat)
    requires i < |s.tasks| && j < |s.tasks| && (j != i || !IndexedPending(s.tasks[i]))
    ensures Visit(s, i, c).tasks[j] == s.tasks[j]
  {
  }

  /** A visit after which no exception has escaped appends the task's calls to the earlier ones. */
  lemma VisitCalls(s: RunState, i: nat, c: Collaborators)
    requires i < |s.tasks| && Visit(s, i, c).ok
    ensures s.ok && Visit(s, i, c).calls == s.calls + TaskCalls(s.tasks[i], c)
  {
  }

  /** A visit of a pending task after which no exception has escaped leaves it finalized. */
  lemma VisitFinalizes(s: RunState, i: nat, c: Collaborators)
    requires i < |s.tasks| && IndexedPending(s.tasks[i]) && Visit(s, i, c).ok
    ensures Process(s.tasks[i].entries, c).status.Some?
    ensures Visit(s, i, c).tasks[i] == Finalized(s.tasks[i], c)
  {
  }

  /** Once an exception has escaped, later iterations change nothing. */
  lemma {:induction false} AbortSticks(s0: RunState, i: nat, n: nat, c: Collaborators)
    requires i <= n <= |s0.tasks| && !RunUpTo(s0, i, c).ok
    ensures RunUpTo(s0, n, c) == RunUpTo(s0, i, c)
    decreases n
  {
    if n > i {
      AbortSticks(s0, i, n - 1, c);
    }
  }

  /** An escaped exception is never undone: a run that is fine after n tasks was fine after fewer. */
  lemma {:induction false} OkBefore(s0: RunState, m: nat, n: nat, c: Collaborators)
    requires m <= n <= |s0.tasks| && RunUpTo(s0, n, c).ok
    ensures RunUpTo(s0, m, c).ok
    decreases n
  {
    if m < n {
      OkBefore(s0, m, n - 1, c);
    }
  }

  /** Tasks run has not reached yet, and tasks that are not pending, are left exactly as they were. */
  lemma {:induction false} UnvisitedOrNotPendingUnchanged(s0: RunState, n: nat, c: Collaborators, j: nat)
    requires n <= |s0.tasks| && j < |s0.tasks|
    requires j >= n || !IndexedPending(s0.tasks[j])
    ensures RunUpTo(s0, n, c).tasks[j] == s0.tasks[j]
    decreases n
  {
    if n > 0 {
      UnvisitedOrNotPendingUnchanged(s0, n - 1, c, j);
      VisitKeepsOthers(RunUpTo(s0, n - 1, c), n - 1, c, j);
    }
  }

  /** After a run that raised nothing, every pending task it passed holds the terminal status process_task wrote. */
  lemma {:induction false} PendingFinalized(s0: RunState, n: nat, c: Collaborators, j: nat)
    requires n <= |s0.tasks| && j < n
    requires IndexedPending(s0.tasks[j]) && RunUpTo(s0, n, c).ok
    ensures Process(s0.tasks[j].entries, c).status.Some?
    ensures Process(s0.tasks[j].entries, c).status.value in Terminal
    ensures RunUpTo(s0, n, c).tasks[j] == Finalized(s0.tasks[j], c)
    decreases n
  {
    var before := RunUpTo(s0, n - 1, c);
    VisitCalls(before, n - 1, c);
    if j == n - 1 {
      UnvisitedOrNotPendingUnchanged(s0, n - 1, c, j);
      VisitFinalizes(before, j, c);
    } else {
      PendingFinalized(s0, n - 1, c, j);
      assert !IndexedPending(before.tasks[j]);
      VisitKeepsOthers(before, n - 1, c, j);
    }
  }

  /** The calls run makes for one task: process_task's for a pending task, none otherwise. */
  function TaskCalls(task: Value, c: Collaborators): seq<Call> {
    if IndexedPending(task) then Process(task.entries, c).calls else []
  }

  /** The calls a run makes when nothing raises: the calls of each pending task, in list order. */
  function PendingCalls(tasks: seq<Value>, c: Collaborators): seq<Call> {
    if tasks == [] then [] else TaskCalls(tasks[0], c) + PendingCalls(tasks[1..], c)
  }

  lemma {:induction false} PendingCallsSnoc(tasks: seq<Value>, task: Value, c: Collaborators)
    ensures PendingCalls(tasks + [task], c) == PendingCalls(tasks, c) + TaskCalls(task, c)
  {
    if tasks != [] {
      assert (tasks + [task])[1..] == tasks[1..] + [task];
      PendingCallsSnoc(tasks[1..], task, c);
      calc {
        PendingCalls(tasks + [task], c);
        TaskCalls(tasks[0], c) + PendingCalls(tasks[1..] + [task], c);
        TaskCalls(tasks[0], c) + (PendingCalls(tasks[1..], c) + TaskCalls(task, c));
        PendingCalls(tasks, c) + TaskCalls(task, c);
      }
    } else {
      assert [] + [task] == [task];
      assert [task][1..] == [];
    }
  }

  /** run visits the tasks in list order and calls process_task on the pending ones only. */
  lemma {:induction false} CallsOfPendingInOrder(s0: RunState, n: nat, c: Collaborators)
    requires n <= |s0.tasks| && RunUpTo(s0, n, c).ok
    ensures RunUpTo(s0, n, c).calls == s0.calls + PendingCalls(s0.tasks[..n], c)
    decreases n
  {
    if n == 0 {
      assert s0.tasks[..0] == [];
    } else {
      var prefix, task := s0.tasks[..n - 1], s0.tasks[n - 1];
      StepCalls(s0, n, c);
      CallsOfPendingInOrder(s0, n - 1, c);
      PendingCallsSnoc(prefix, task, c);
      PrefixSnoc(s0.tasks, n);
      AppendAssoc(s0.calls, PendingCalls(prefix, c), TaskCalls(task, c));
    }
  }

  lemma AppendAssoc(a: seq<Call>, b: seq<Call>, c: seq<Call>)
    ensures (a + b) + c == a + (b + c)
  {
  }

  lemma PrefixSnoc(s: seq<Value>, n: nat)
    requires 0 < n <= |s|
    ensures s[..n] == s[..n - 1] + [s[n - 1]]
  {
  }

  /** The n-th iteration, when no exception escapes it, appends the calls of the n-th task. */
  lemma StepCalls(s0: RunState, n: nat, c: Collaborators)
    requires 0 < n <= |s0.tasks| && RunUpTo(s0, n, c).ok
    ensures RunUpTo(s0, n - 1, c).ok
    ensures RunUpTo(s0, n, c).calls == RunUpTo(s0, n - 1, c).calls + TaskCalls(s0.tasks[n - 1], c)
  {
    var before := RunUpTo(s0, n - 1, c);
    VisitCalls(before, n - 1, c);
    UnvisitedOrNotPendingUnchanged(s0, n - 1, c, n - 1);
  }

  /**
   * When run returns, tasks.json holds {"tasks": L} where L is the loaded list
   * with each pending task finalized and every other task untouched, in the
   * original order; whatever mark_task_done wrote in between is overwritten,
   * so the statuses in memory are what persist. The calls made are those of
   * the pending tasks, in order.
   */
  lemma RunPersistsInMemoryStatuses(xs: seq<Value>, file: TaskStore.File, c: Collaborators)
    requires RunSpec(List(xs), file, c).ok
    ensures
      var r := RunSpec(List(xs), file, c);
      && r.tasks.List? && |r.tasks.items| == |xs|
      && r.file == Saved(r.tasks)
      && LoadTaskList(r.file) == Returned(r.tasks)
      && r.calls == PendingCalls(xs, c)
      && forall j :: 0 <= j < |xs| ==>
           if IndexedPending(xs[j])
           then Process(xs[j].entries, c).status.Some? && r.tasks.items[j] == Finalized(xs[j], c)
           else r.tasks.items[j] == xs[j]
  {
    var s0 := RunState(xs, [], file, true);
    var r := RunUpTo(s0, |xs|, c);
    forall j | 0 <= j < |xs|
      ensures if IndexedPending(xs[j])
              then Process(xs[j].entries, c).status.Some? && r.tasks[j] == Finalized(xs[j], c)
              else r.tasks[j] == xs[j]
    {
      if IndexedPending(xs[j]) {
        PendingFinalized(s0, |xs|, c, j);
      } else {
        UnvisitedOrNotPendingUnchanged(s0, |xs|, c, j);
      }
    }
    CallsOfPendingInOrder(s0, |xs|, c);
    assert xs[..|xs|] == xs;
  }

  /** A task that was not pending when run started is left exactly as it was, whether or not run returns. */
  lemma NonPendingUntouched(xs: seq<Value>, file: TaskStore.File, c: Collaborators, j: nat)
    requires j < |xs| && !IndexedPending(xs[j])
    ensures RunSpec(List(xs), file, c).tasks.items[j] == xs[j]
  {
    UnvisitedOrNotPendingUnchanged(RunState(xs, [], file, true), |xs|, c, j);
  }
}
