/**
 * The report of task_summary.py: the task list is read from the store
 * (nothing when the store is missing or not JSON), the pending and completed
 * tasks are counted, a warning is raised above a fixed number of pending
 * tasks, and every pending task is listed, numbered from 1, with defaults for
 * the fields it lacks.
 */
module TaskSummary {
  import opened Py
  import opened TaskStore

  /** WARNING_THRESHOLD. */
  const WarningThreshold: nat := 10

  /**
   * load_tasks: json.load(file)["tasks"]; a missing store or one that is not
   * JSON gives []. Indexing a document that is not a dict, or a dict without
   * "tasks", raises, and nothing catches it.
   */
  function LoadTasks(f: File): (r: Reply<Value>)
    ensures f.Missing? || f.Malformed? ==> r == Returned(List([]))
    ensures f.Doc? ==> (r.Returned? <==> f.content.Dict? && "tasks" in f.content.entries)
    ensures f.Doc? && r.Returned? ==> r.value == f.content.entries["tasks"]
  {
    match f
    case Missing => Returned(List([]))
    case Malformed => Returned(List([]))
    case Doc(Dict(m)) => if "tasks" in m then Returned(m["tasks"]) else Raised
    case Doc(_) => Raised
  }

  /** task.get("status") == status, for a dict task. */
  predicate HasStatus(task: Value, status: string)
    requires task.Dict?
  {
    Get(task.entries, "status", Null) == Str(status)
  }

  /** Every item is a dict, so task.get can be called on each. */
  predicate AllDicts(items: seq<Value>) {
    forall k :: 0 <= k < |items| ==> items[k].Dict?
  }

  /**
   * filter_tasks over the items the loop visits: the dict tasks with the given
   * status, in their order; task.get raises at the first item that is not a dict.
   */
  function FilterTasks(items: seq<Value>, status: string): (r: Reply<seq<Value>>)
    ensures r.Returned? <==> AllDicts(items)
    ensures r.Returned? ==> AllDicts(r.value)
  {
    if items == [] then Returned([])
    else if !items[0].Dict? then Raised
    else
      match FilterTasks(items[1..], status)
      case Raised =>
        assert !AllDicts(items[1..]);
        Raised
      case Returned(rest) =>
        if HasStatus(items[0], status) then Returned([items[0]] + rest) else Returned(rest)
  }

  /** The filter keeps exactly the tasks with the status, each no more often than it occurs. */
  lemma {:induction false} FilterTasksMembers(items: seq<Value>, status: string)
    requires AllDicts(items)
    ensures forall t :: t in FilterTasks(items, status).value <==> t in items && t.Dict? && HasStatus(t, status)
    ensures multiset(FilterTasks(items, status).value) <= multiset(items)
  {
    if items != [] {
      assert AllDicts(items[1..]);
      FilterTasksMembers(items[1..], status);
      assert items == [items[0]] + items[1..];
    }
  }

  lemma AllDictsAppend(a: seq<Value>, b: seq<Value>)
    requires AllDicts(a) && AllDicts(b)
    ensures AllDicts(a + b)
  {
    forall k | 0 <= k < |a + b| ensures (a + b)[k].Dict? {
      if k >= |a| {
        assert (a + b)[k] == b[k - |a|];
      }
    }
  }

  /** The filter keeps the tasks' order: filtering a concatenation filters each part. */
  lemma {:induction false} FilterTasksAppend(a: seq<Value>, b: seq<Value>, status: string)
    requires AllDicts(a) && AllDicts(b)
    ensures AllDicts(a + b)
    ensures FilterTasks(a + b, status).value == FilterTasks(a, status).value + FilterTasks(b, status).value
  {
    AllDictsAppend(a, b);
    if a != [] {
      var head := if HasStatus(a[0], status) then [a[0]] else [];
      assert (a + b)[0] == a[0];
      assert (a + b)[1..] == a[1..] + b;
      assert AllDicts(a[1..]);
      FilterTasksAppend(a[1..], b, status);
      assert FilterTasks(a + b, status).value == head + FilterTasks(a[1..] + b, status).value;
      assert FilterTasks(a, status).value == head + FilterTasks(a[1..], status).value;
    } else {
      assert a + b == b;
    }
  }

  /** A task has at most one status, so two different statuses select disjoint tasks: together they count at most all tasks. */
  lemma {:induction false} DisjointCounts(items: seq<Value>, s1: string, s2: string)
    requires AllDicts(items) && s1 != s2
    ensures |FilterTasks(items, s1).value| + |FilterTasks(items, s2).value| <= |items|
  {
    if items != [] {
      DisjointCounts(items[1..], s1, s2);
    }
  }

  /** One line of the pending-task details. */
  datatype Detail = Detail(index: nat, name: string, priority: string, skipAuditor: string, execute: string)

  /** What summarize_tasks reports. */
  datatype Summary = Summary(total: nat, pending: nat, completed: nat, warning: bool, details: seq<Detail>)

  /** "Yes" if v else "No". */
  function YesNo(v: Value): string {
    if Truthy(v) then "Yes" else "No"
  }

  /** The detail lines of the idx-th pending task, with the defaults of the source for missing fields. */
  function DetailOf(idx: nat, task: Value): (d: Detail)
    requires task.Dict?
    ensures d.index == idx
    ensures "task" !in task.entries ==> d.name == "Unnamed Task"
    ensures "priority" !in task.entries ==> d.priority == "None"
    ensures "skip_auditor" !in task.entries ==> d.skipAuditor == "No"
    ensures "execute" !in task.entries ==> d.execute == "No"
  {
    var m := task.entries;
    Detail(idx,
      Show(Get(m, "task", Str("Unnamed Task"))),
      Show(Get(m, "priority", Str("None"))),
      YesNo(Get(m, "skip_auditor", Bool(false))),
      YesNo(Get(m, "execute", Bool(false))))
  }

  /** The enumerate(pending, start=1) loop: one detail per pending task, numbered from 1. */
  function Details(pending: seq<Value>): (r: seq<Detail>)
    requires AllDicts(pending)
    ensures |r| == |pending|
    ensures forall i :: 0 <= i < |r| ==> r[i] == DetailOf(i + 1, pending[i])
  {
    seq(|pending|, i requires 0 <= i < |pending| => DetailOf(i + 1, pending[i]))
  }

  /**
   * summarize_tasks: len(tasks), the pending and completed filters, the
   * threshold warning and the pending details. It raises when tasks is not
   * iterable or when an item is not a dict.
   */
  function Summarize(tasks: Value): (r: Reply<Summary>)
    ensures r.Returned? <==> LoopItems(tasks).Returned? && AllDicts(LoopItems(tasks).value)
    ensures r.Returned? ==>
      var items := LoopItems(tasks).value;
      && r.value.total == |items|
      // The counts are those of the two filters, and the details list the pending tasks.
      && r.value.pending == |FilterTasks(items, "pending").value|
      && r.value.completed == |FilterTasks(items, "completed").value|
      && r.value.details == Details(FilterTasks(items, "pending").value)
      && r.value.pending + r.value.completed <= r.value.total
      && (r.value.warning <==> r.value.pending > WarningThreshold)
      && |r.value.details| == r.value.pending
      && forall i :: 0 <= i < r.value.pending ==> r.value.details[i].index == i + 1
  {
    match LoopItems(tasks)
    case Raised => Raised
    case Returned(items) =>
      match FilterTasks(items, "pending")
      case Raised => Raised
      case Returned(pending) =>
        var completed := FilterTasks(items, "completed").value;
        DisjointCounts(items, "pending", "completed");
        FilterTasksMembers(items, "pending");
        assert AllDicts(pending) by {
          forall k | 0 <= k < |pending| ensures pending[k].Dict? {
            assert pending[k] in pending;
          }
        }
        Returned(Summary(|items|, |pending|, |completed|, |pending| > WarningThreshold, Details(pending)))
  }

  /** The details list the pending tasks in list order, each with its own fields. */
  lemma SummaryDetails(tasks: Value, i: nat)
    requires Summarize(tasks).Returned? && i < Summarize(tasks).value.pending
    ensures var pending := FilterTasks(LoopItems(tasks).value, "pending").value;
      && |pending| == Summarize(tasks).value.pending
      && pending[i].Dict? && HasStatus(pending[i], "pending")
      && Summarize(tasks).value.details[i] == DetailOf(i + 1, pending[i])
  {
    var pending := FilterTasks(LoopItems(tasks).value, "pending").value;
    FilterTasksMembers(LoopItems(tasks).value, "pending");
    assert pending[i] in pending;
  }

  /**
   * main: the summary of the loaded tasks when there are any, nothing (the
   * "No tasks available." message) when the loaded value is falsy.
   */
  function Report(f: File): (r: Reply<Option<Summary>>)
    ensures LoadTasks(f).Raised? ==> r.Raised?
    ensures r == Returned(None) <==> LoadTasks(f).Returned? && !Truthy(LoadTasks(f).value)
    ensures f.Missing? || f.Malformed? ==> r == Returned(None)
    ensures r.Returned? && r.value.Some? ==> Summarize(LoadTasks(f).value) == Returned(r.value.value)
  {
    match LoadTasks(f)
    case Raised => Raised
    case Returned(tasks) =>
      if !Truthy(tasks) then Returned(None)
      else
        match Summarize(tasks)
        case Raised => Raised
        case Returned(s) => Returned(Some(s))
  }

  /**
   * The task get_next_task hands out is the first one the summary lists as
   * pending, and it hands out none exactly when the summary lists none.
   */
  lemma {:induction false} NextTaskIsFirstListed(tasks: seq<Value>)
    requires AllDicts(tasks)
    ensures var pending := FilterTasks(tasks, "pending").value;
      FirstPending(tasks) == if pending == [] then Returned(None) else Returned(Some(pending[0]))
  {
    if tasks != [] {
      assert tasks[0].Dict?;
      if !IsPending(tasks[0]) {
        assert AllDicts(tasks[1..]);
        NextTaskIsFirstListed(tasks[1..]);
      }
    }
  }
}
