/**
 * The task store of agents/task_manager.py. The file tasks.json holds one
 * JSON document, normally {"tasks": [...]}; every operation loads the whole
 * document, changes it in memory and saves it back whole.
 */
module TaskStore {
  import opened Py

  /** The contents of tasks.json: absent, not valid JSON, or a parsed document. */
  datatype File = Missing | Malformed | Doc(content: Value)

  /** The file tasks.json, shared by every operation that loads or saves it. */
  class Disk {
    var file: File

    constructor (initial: File)
      ensures file == initial
    {
      file := initial;
    }
  }

  /** The document load_tasks yields for an absent file. */
  function EmptyDocument(): Value {
    Dict(map["tasks" := List([])])
  }

  /** load_tasks: the parsed document, {"tasks": []} for an absent file; json.load raises on malformed content. */
  function LoadTasks(f: File): (r: Reply<Value>)
    ensures f.Missing? ==> r == Returned(Dict(map["tasks" := List([])]))
    ensures r.Raised? <==> f.Malformed?
    ensures f.Doc? ==> r == Returned(f.content)
  {
    match f
    case Missing => Returned(EmptyDocument())
    case Malformed => Raised
    case Doc(doc) => Returned(doc)
  }

  /** save_tasks: rewrites the whole file, so that the next load yields exactly the saved document. */
  method SaveTasks(disk: Disk, doc: Value)
    modifies disk
    ensures disk.file == Doc(doc)
    ensures LoadTasks(disk.file) == Returned(doc)
  {
    disk.file := Doc(doc);
  }

  /** The task list of a document as the store's readers see it: doc.get("tasks", []). */
  function TaskList(doc: Value): Value
    requires doc.Dict?
  {
    Get(doc.entries, "tasks", List([]))
  }

  // ---------------------------------------------------------------- add_task

  /**
   * The document add_task saves: `task` appended to doc["tasks"], which
   * setdefault creates when absent. It raises when the document is not a dict
   * or its "tasks" entry is not a list.
   */
  function Appended(doc: Value, task: Value): (r: Reply<Value>)
    ensures r.Returned? <==> doc.Dict? && TaskList(doc).List?
    ensures r.Returned? ==>
      && r.value.Dict?
      && TaskList(r.value) == List(TaskList(doc).items + [task])
      && r.value.entries.Keys == doc.entries.Keys + {"tasks"}
      && forall k :: k in doc.entries && k != "tasks" ==> r.value.entries[k] == doc.entries[k]
  {
    match doc
    case Dict(m) =>
      var list := Get(m, "tasks", List([]));
      if list.List? then Returned(Dict(m["tasks" := List(list.items + [task])])) else Raised
    case _ => Raised
  }

  /** add_task: load, append, save; a raising load or append leaves the file as it was. */
  method AddTask(disk: Disk, task: Value) returns (ok: bool)
    modifies disk
    ensures ok <==> LoadTasks(old(disk.file)).Returned? && Appended(LoadTasks(old(disk.file)).value, task).Returned?
    ensures ok ==> disk.file == Doc(Appended(LoadTasks(old(disk.file)).value, task).value)
    ensures !ok ==> disk.file == old(disk.file)
  {
    var loaded := LoadTasks(disk.file);
    if loaded.Raised? {
      return false;
    }
    var doc := loaded.value;
    if !doc.Dict? {
      return false;
    }
    var list := Get(doc.entries, "tasks", List([]));
    if !list.List? {
      return false;
    }
    list := List(list.items + [task]);
    doc := Dict(doc.entries["tasks" := list]);
    SaveTasks(disk, doc);
    ok := true;
  }

  // ----------------------------------------------------------- get_next_task

  /** task.get("status") == "pending", for a dict task. */
  predicate IsPending(task: Value)
    requires task.Dict?
  {
    Get(task.entries, "status", Null) == Str("pending")
  }

  /** Every task before index k is a dict whose status is not "pending". */
  predicate NoPendingBefore(tasks: seq<Value>, k: int)
    requires k <= |tasks|
  {
    forall j :: 0 <= j < k ==> tasks[j].Dict? && !IsPending(tasks[j])
  }

  /**
   * get_next_task's loop over a task list: the first task whose status is
   * "pending", None when there is none; task.get raises at a non-dict met first.
   */
  function FirstPending(tasks: seq<Value>): (r: Reply<Option<Value>>)
    ensures r == Returned(None) <==> NoPendingBefore(tasks, |tasks|)
    ensures r.Returned? && r.value.Some? ==>
      exists k :: 0 <= k < |tasks| && tasks[k] == r.value.value && tasks[k].Dict? && IsPending(tasks[k]) && NoPendingBefore(tasks, k)
    ensures r.Raised? <==>
      exists k :: 0 <= k < |tasks| && !tasks[k].Dict? && NoPendingBefore(tasks, k)
  {
    if tasks == [] then Returned(None)
    else if !tasks[0].Dict? then
      assert NoPendingBefore(tasks, 0);
      Raised
    else if IsPending(tasks[0]) then
      assert NoPendingBefore(tasks, 0);
      Returned(Some(tasks[0]))
    else
      var r := FirstPending(tasks[1..]);
      assert forall k :: 0 <= k < |tasks| - 1 ==> (NoPendingBefore(tasks[1..], k) <==> NoPendingBefore(tasks, k + 1));
      assert forall k :: 1 <= k < |tasks| ==> tasks[k] == tasks[1..][k - 1];
      r
  }

  /** What get_next_task returns for the file's current contents. */
  function NextTask(f: File): Reply<Option<Value>> {
    match LoadTasks(f)
    case Raised => Raised
    case Returned(doc) =>
      if !doc.Dict? then Raised
      else match LoopItems(TaskList(doc))
        case Raised => Raised
        case Returned(tasks) => FirstPending(tasks)
  }

  /** get_next_task: scans the stored list in order and returns the first pending task. */
  method GetNextTask(disk: Disk) returns (r: Reply<Option<Value>>)
    ensures r == NextTask(disk.file)
  {
    var loaded := LoadTasks(disk.file);
    if loaded.Raised? || !loaded.value.Dict? {
      return Raised;
    }
    var items := LoopItems(TaskList(loaded.value));
    if items.Raised? {
      return Raised;
    }
    var tasks := items.value;
    var i := 0;
    while i < |tasks|
      invariant 0 <= i <= |tasks|
      invariant FirstPending(tasks) == FirstPending(tasks[i..])
    {
      var task := tasks[i];
      assert tasks[i..][0] == task && tasks[i..][1..] == tasks[i + 1..];
      if !task.Dict? {
        return Raised;
      }
      if Get(task.entries, "status", Null) == Str("pending") {
        return Returned(Some(task));
      }
      i := i + 1;
    }
    r := Returned(None);
  }

  // ---------------------------------------------------------- mark_task_done

  /** task.get("id") == task_id, for a dict task. */
  predicate HasId(task: Value, id: Value)
    requires task.Dict?
  {
    Equal(Get(task.entries, "id", Null), id)
  }

  /** A task after task["status"] = "completed". */
  function Completed(task: Value): (r: Value)
    requires task.Dict?
  {
    Dict(task.entries["status" := Str("completed")])
  }

  /** The i-th task after mark_task_done's loop has visited it. */
  function MarkOne(task: Value, id: Value): Value
    requires task.Dict?
  {
    if HasId(task, id) then Completed(task) else task
  }

  /**
   * mark_task_done's loop over a task list: every dict task whose id equals
   * `id` gets status "completed" (not only the first), every other task is
   * left as it is; task.get raises at the first non-dict.
   */
  function MarkedAll(tasks: seq<Value>, id: Value): (r: Reply<seq<Value>>)
    ensures r.Returned? <==> forall k :: 0 <= k < |tasks| ==> tasks[k].Dict?
    ensures r.Returned? ==>
      && |r.value| == |tasks|
      && forall k :: 0 <= k < |tasks| ==> r.value[k] == MarkOne(tasks[k], id)
  {
    if tasks == [] then Returned([])
    else if !tasks[0].Dict? then Raised
    else
      match MarkedAll(tasks[1..], id)
      case Raised =>
        assert exists k :: 1 <= k < |tasks| && !tasks[k].Dict? by {
          var k :| 0 <= k < |tasks| - 1 && !tasks[1..][k].Dict?;
          assert tasks[k + 1] == tasks[1..][k];
        }
        Raised
      case Returned(rest) =>
        var r := [MarkOne(tasks[0], id)] + rest;
        assert forall k :: 1 <= k < |tasks| ==> r[k] == rest[k - 1] && tasks[k] == tasks[1..][k - 1];
        Returned(r)
  }

  /**
   * The document mark_task_done saves: the marked list under "tasks"; the
   * document unchanged when it has no "tasks" entry or an empty string or dict
   * there. It raises when the document is not a dict, or the entry is a
   * non-list that is not empty, or a task is not a dict.
   */
  function MarkedDocument(doc: Value, id: Value): Reply<Value> {
    match doc
    case Dict(m) =>
      if "tasks" !in m then Returned(doc)
      else
        (match m["tasks"]
         case List(tasks) =>
           (match MarkedAll(tasks, id)
            case Raised => Raised
            case Returned(marked) => Returned(Dict(m["tasks" := List(marked)])))
         case other => if LoopItems(other).Returned? then Returned(doc) else Raised)
    case _ => Raised
  }

  /** The file after mark_task_done: load, mark, save; Raised leaves the file as it was. */
  function MarkedFile(f: File, id: Value): Reply<File> {
    match LoadTasks(f)
    case Raised => Raised
    case Returned(doc) =>
      match MarkedDocument(doc, id)
      case Raised => Raised
      case Returned(marked) => Returned(Doc(marked))
  }

  /** mark_task_done's loop: each task in turn is marked when its id matches; task.get raises on a non-dict. */
  method MarkList(list: seq<Value>, id: Value) returns (r: Reply<seq<Value>>)
    ensures r == MarkedAll(list, id)
  {
    var tasks := list;
    var i := 0;
    while i < |tasks|
      invariant 0 <= i <= |tasks| == |list|
      invariant forall k :: 0 <= k < i ==> list[k].Dict? && tasks[k] == MarkOne(list[k], id)
      invariant forall k :: i <= k < |tasks| ==> tasks[k] == list[k]
    {
      if !tasks[i].Dict? {
        return Raised;
      }
      if Equal(Get(tasks[i].entries, "id", Null), id) {
        tasks := tasks[i := Dict(tasks[i].entries["status" := Str("completed")])];
      }
      i := i + 1;
    }
    assert MarkedAll(list, id).Returned?;
    var marked := MarkedAll(list, id).value;
    assert forall k :: 0 <= k < |tasks| ==> marked[k] == tasks[k];
    assert marked == tasks;
    return Returned(tasks);
  }

  /** mark_task_done: load, mark every task with this id completed, save the whole document. */
  method MarkTaskDone(disk: Disk, id: Value) returns (ok: bool)
    modifies disk
    ensures ok <==> MarkedFile(old(disk.file), id).Returned?
    ensures ok ==> disk.file == MarkedFile(old(disk.file), id).value
    ensures !ok ==> disk.file == old(disk.file)
  {
    var loaded := LoadTasks(disk.file);
    if loaded.Raised? || !loaded.value.Dict? {
      return false;
    }
    var doc := loaded.value;
    if "tasks" in doc.entries {
      var list := doc.entries["tasks"];
      if !list.List? {
        if LoopItems(list).Raised? {
          return false;
        }
      } else {
        var marked := MarkList(list.items, id);
        if marked.Raised? {
          return false;
        }
        doc := Dict(doc.entries["tasks" := List(marked.value)]);
      }
    }
    SaveTasks(disk, doc);
    ok := true;
  }

  // ---------------------------------------------------------------- lemmas

  /** Marking twice with the same id gives the same list as marking once. */
  lemma MarkIdempotent(tasks: seq<Value>, id: Value)
    requires MarkedAll(tasks, id).Returned?
    ensures MarkedAll(MarkedAll(tasks, id).value, id) == MarkedAll(tasks, id)
  {
    var once := MarkedAll(tasks, id).value;
    forall k | 0 <= k < |once|
      ensures once[k].Dict? && MarkOne(once[k], id) == once[k]
    {
      if HasId(tasks[k], id) {
        var m := tasks[k].entries;
        assert once[k] == Dict(m["status" := Str("completed")]);
        assert once[k].entries["id" := Null] == m["status" := Str("completed")]["id" := Null];
        assert Get(once[k].entries, "id", Null) == Get(m, "id", Null);
        assert m["status" := Str("completed")]["status" := Str("completed")] == m["status" := Str("completed")];
      }
    }
    var twice := MarkedAll(once, id).value;
    assert |twice| == |once| && forall k :: 0 <= k < |once| ==> twice[k] == once[k];
    assert twice == once;
  }

  /** When no task carries the id, mark_task_done saves the list it loaded. */
  lemma MarkWithoutMatchKeepsList(tasks: seq<Value>, id: Value)
    requires forall k :: 0 <= k < |tasks| ==> tasks[k].Dict? && !HasId(tasks[k], id)
    ensures MarkedAll(tasks, id) == Returned(tasks)
  {
    assert MarkedAll(tasks, id).value == tasks;
  }

  /**
   * mark_task_done saves the list it loaded exactly when every task carrying
   * the id is already completed; in particular when no task carries it.
   */
  lemma MarkKeepsListIff(tasks: seq<Value>, id: Value)
    requires forall k :: 0 <= k < |tasks| ==> tasks[k].Dict?
    ensures MarkedAll(tasks, id) == Returned(tasks) <==>
      forall k :: 0 <= k < |tasks| && HasId(tasks[k], id) ==> Completed(tasks[k]) == tasks[k]
  {
    var marked := MarkedAll(tasks, id).value;
    if forall k :: 0 <= k < |tasks| && HasId(tasks[k], id) ==> Completed(tasks[k]) == tasks[k] {
      assert forall k :: 0 <= k < |tasks| ==> marked[k] == tasks[k];
      assert marked == tasks;
    } else {
      var k :| 0 <= k < |tasks| && HasId(tasks[k], id) && Completed(tasks[k]) != tasks[k];
      assert marked[k] != tasks[k];
    }
  }

  /**
   * On a store with no pending task, a pending task that add_task appends is
   * the one get_next_task returns next.
   */
  lemma AddedPendingTaskIsNext(f: File, task: Value)
    requires task.Dict? && IsPending(task)
    requires LoadTasks(f).Returned? && Appended(LoadTasks(f).value, task).Returned?
    requires NextTask(f) == Returned(None)
    ensures NextTask(Doc(Appended(LoadTasks(f).value, task).value)) == Returned(Some(task))
  {
    var doc := LoadTasks(f).value;
    var tasks := TaskList(doc).items;
    var doc' := Appended(doc, task).value;
    assert LoopItems(TaskList(doc)) == Returned(tasks);
    assert NoPendingBefore(tasks, |tasks|);
    var tasks' := tasks + [task];
    assert TaskList(doc') == List(tasks');
    assert NoPendingBefore(tasks', |tasks|);
    assert tasks'[|tasks|] == task;
    assert forall k :: 0 <= k < |tasks| ==> tasks'[k] == tasks[k];
  }
}
