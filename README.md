# A verified model of the task pipeline

This project models, in Dafny, the core of a small Python task pipeline:

- **Task orchestrator** (`task_orchestrator.py`): loads a list of tasks from `tasks.json`, drives every task whose status is `"pending"` through script generation, an optional audit and an optional execution, writes one terminal status into the task, has the task store mark it done, and saves the whole list once at the end.
- **Task store** (`agents/task_manager.py`): `add_task`, `get_next_task` and `mark_task_done`, each a load / change / save of one JSON document.
- **Script naming** (`agents/script_generator.py`): `sanitize_filename`, the suffix search of `generate_unique_filename`, and `generate_script`'s choice of a stem and a path.
- **Auditor path selection** (`agents/code_auditor.py`): the improved script when the reviewer produced it, the original otherwise.
- **Fenced-code extraction** (`agents/openai_script_extract.py`): the first python code block of a model reply.
- **Code compression** (`context_generator.py`): comment and blank line filtering, `condense_spaces`, the ordered shorthand table and `is_valid_py_file`.
- **Task summary** (`task_summary.py`): filters, counts, the pending-task warning and the detail lines.

The files, one module each:

| file | module | what it holds |
|---|---|---|
| `text.dfy` | `Text` | Python's string operations on `seq<char>`: `isspace`, `strip`, `split()`, `splitlines()`, `join`, `find`, `replace`, `str(int)` |
| `py.dfy` | `Py` | JSON values, Python truthiness, `dict.get`, `==`, `str()`, and what a `for` loop visits; an exception is the `Raised` reply |
| `task_store.dfy` | `TaskStore` | `tasks.json` as a `Disk` object whose `file` field the operations rewrite |
| `orchestrator.dfy` | `Orchestration` | the `Orchestrator` class (`tasks`, a call log, the disk), with the pure specification `RunSpec` its `Run` method is proved against |
| `script_generator.dfy` | `ScriptGenerator` | name sanitising, the naming loop, and the scripts directory as a `ScriptDir` object |
| `code_auditor.dfy` | `CodeAuditor` | `review_and_improve` |
| `script_extract.dfy` | `ScriptExtract` | `re.findall` of fenced blocks and the first python block |
| `context_compress.dfy` | `ContextCompress` | `compress_code`, `compress_code1`, `condense_spaces`, the shorthand table, `is_valid_py_file` |
| `task_summary.dfy` | `TaskSummary` | `load_tasks`, `filter_tasks`, `summarize_tasks`, `main` |

The form of each model follows the source:

- **Stateful code** is imperative Dafny:
  - The orchestrator is a class whose `Run` loop updates its `tasks` field in place.
  - The task store's operations are methods that rewrite `Disk.file`.
  - `mark_task_done`'s loop and `get_next_task`'s early-return loop are `while` loops with invariants.
  - The naming loop is a `while` loop whose termination is proved for every finite set of existing paths.
  - The shorthand loop is a `for` loop.
- **Pure code** (auditor, extraction, summary, filters) is functions and lemmas.
- **Collaborators.** The script generator, code auditor and executor are parameters: a `Collaborators` value of functions. Every call made to them and to `mark_task_done` is recorded in the orchestrator's `calls` log.

Behaviour worth noting:

- **No exception containment.** Nothing catches exceptions around `process_task`. A raising generator or a raising `mark_task_done` ends `run` before the list is saved. There is no `"error"` status.
- **Malformed tasks are not skipped.** A task that is not a dict, or has no `"status"` key, makes `task["status"]` raise (task_orchestrator.py:76).
- **The task store does not fail soft.** `agents/task_manager.py`'s `load_tasks` raises on malformed JSON. The orchestrator's own loader and the summary's loader return `[]` instead.
- **The store is written during the run.** `mark_task_done` rewrites `tasks.json` for every successfully generated task. The final save then overwrites that file with the in-memory list (`Orchestration.RunPersistsInMemoryStatuses`).
- **The summary's loader can raise.** `task_summary.py`'s `load_tasks` indexes `["tasks"]`, so a document without that key, or one that is not a dict, raises.

## Model

| member | source | states |
|---|---|---|
| Py.LoopItems | task_orchestrator.py:75 | A `for` loop over a list visits its items. Over an empty string or dict it visits nothing. Over any other value, a body that uses the item as a dict raises. |
| Text.Strip | context_generator.py:50 | `strip()` cuts the string into whitespace, the result and whitespace, so nothing inside is dropped. The result has no whitespace at either end. It is empty exactly when the string is all whitespace. |
| Text.WordsAreWords | context_generator.py:73 | Every word `split()` yields is non-empty and holds no whitespace. |
| Text.WordsEmpty | context_generator.py:73 | `split()` yields no words exactly when the line is all whitespace. |
| Text.SplitLinesOfJoin | context_generator.py:66-75 | Joining non-empty, break-free lines with `"\n"` and calling `splitlines()` on the result gives the same lines back. |
| Text.Find | agents/openai_script_extract.py:70 | The result is the index of the first occurrence, or -1 exactly when there is none. |
| Text.ReplaceAllAbsent | context_generator.py:79 | Replacing a pattern that does not occur leaves the text unchanged. |
| Text.ReplaceAllAtFind | context_generator.py:79 | `replace` keeps the text before the first occurrence, puts the replacement in its place, and goes on after it. Text without an occurrence is unchanged. |
| Text.NatToStringInjective | agents/script_generator.py:19 | Different counts render as different decimal suffixes. |
| TaskStore.LoadTasks | agents/task_manager.py:7-17 | An absent file gives `{"tasks": []}`. Loading raises exactly on malformed JSON. Otherwise the result is the stored document itself. |
| TaskStore.SaveTasks | agents/task_manager.py:19-27 | After a save, the file holds the document and the next load returns exactly that document. |
| TaskStore.Appended | agents/task_manager.py:37 | `setdefault("tasks", []).append(task)` succeeds exactly when the document is a dict and its task list (default `[]`) is a list. The new list is the old one with the task at the end. The other entries are unchanged. |
| TaskStore.AddTask | agents/task_manager.py:29-38 | Succeeds exactly when the load and the append succeed, and then the file holds the appended document. On failure the file is as it was. |
| TaskStore.FirstPending | agents/task_manager.py:48-51 | Returns None exactly when no task is pending. A returned task is pending and every task before it is a non-pending dict. The loop raises exactly when a non-dict comes before the first pending task. |
| TaskStore.GetNextTask | agents/task_manager.py:40-51 | The early-return loop returns what `FirstPending` specifies for the stored list. It raises when the document is not a dict or its list cannot be iterated. |
| TaskStore.MarkedAll | agents/task_manager.py:61-63 | Defined exactly when every task is a dict. The list keeps its length. Every task whose id equals the argument, not only the first, becomes completed. Every other task is as it was. |
| TaskStore.MarkList | agents/task_manager.py:61-63 | The in-place marking loop computes `MarkedAll`. |
| TaskStore.MarkTaskDone | agents/task_manager.py:53-64 | Succeeds exactly when the load and the marking succeed, and then the file holds the marked document. On failure the file is unchanged. |
| TaskStore.MarkIdempotent | agents/task_manager.py:60-64 | Marking the same id twice gives the same list as marking it once. |
| TaskStore.MarkKeepsListIff | agents/task_manager.py:60-64 | The saved list equals the loaded list exactly when every task carrying the id is already completed. |
| TaskStore.MarkWithoutMatchKeepsList | agents/task_manager.py:60-64 | When no task carries the id, the list is saved as it was loaded. |
| TaskStore.AddedPendingTaskIsNext | agents/task_manager.py:36-51 | If no task is pending, the next task after adding a pending one is that task. |
| Orchestration.Process | task_orchestrator.py:34-70 | When `process_task` writes a status, it is one of failed, completed, execution_failed and generated_only. |
| Orchestration.ProcessStatus | task_orchestrator.py:45-67 | No status is written exactly when the generator raises. "failed" is written exactly when generation returned False. "generated_only" means generation succeeded and `execute` is falsy. "completed" or "execution_failed" means `execute` is truthy and follows the executor's verdict on the executed path. |
| Orchestration.ProcessCalls | task_orchestrator.py:38-70 | The first call is the generator with `scripts/script_<id>.py`, and nothing else follows unless generation succeeded. The auditor is called on that path exactly when generation succeeded and `skip_auditor` is falsy. The executor is called exactly when generation succeeded and `execute` is truthy, and it receives the auditor's returned path (or the original path when the audit was skipped). `mark_task_done(id)` is called, last, exactly when generation succeeded. |
| Orchestration.VisitPending | task_orchestrator.py:76-77 | One loop iteration on a pending task appends `process_task`'s calls and writes its status. If generation succeeded, `tasks.json` becomes what `mark_task_done` wrote. |
| Orchestration.LoadTaskList | task_orchestrator.py:17-27 | A missing or malformed file gives `[]`. A document that is not a dict raises. Otherwise the result is its `"tasks"` entry, default `[]`. |
| Orchestration.Orchestrator.constructor | task_orchestrator.py:14-15 | The task list is loaded once, at construction. |
| Orchestration.Orchestrator.SaveTasks | task_orchestrator.py:29-32 | `tasks.json` becomes `{"tasks": self.tasks}`. |
| Orchestration.Orchestrator.ProcessTask | task_orchestrator.py:34-70 | Updates the i-th task in place, appends the calls and rewrites the file as `Process` and `mark_task_done` specify. Every other task is left unchanged. |
| Orchestration.Orchestrator.Step | task_orchestrator.py:75-77 | One iteration of the loop: it raises on a task without a status, skips a non-pending task, and processes a pending one. |
| Orchestration.Orchestrator.Run | task_orchestrator.py:72-79 | The final list, the call log and `tasks.json` are those `RunSpec` gives for the loaded list and file. The list is saved once, after the loop, and only if nothing raised. |
| Orchestration.AbortSticks | task_orchestrator.py:75-77 | Once an exception has escaped, later iterations change nothing. |
| Orchestration.UnvisitedOrNotPendingUnchanged | task_orchestrator.py:75-77 | Tasks the loop has not reached, and tasks that were not pending, are exactly as loaded. |
| Orchestration.PendingFinalized | task_orchestrator.py:45-77 | After a run in which nothing raised, each pending task holds exactly one terminal status: the one `process_task` wrote. |
| Orchestration.CallsOfPendingInOrder | task_orchestrator.py:75-77 | The calls made are those of the pending tasks, in list order. Non-pending tasks cause none. |
| Orchestration.RunPersistsInMemoryStatuses | task_orchestrator.py:75-78 | After a run, `tasks.json` holds `{"tasks": L}`, and loading it gives L. L has the original length and order. Each pending task in L carries its terminal status and every other task is untouched. What `mark_task_done` wrote in between is overwritten. |
| Orchestration.NonPendingUntouched | task_orchestrator.py:75-77 | A task that was not pending when the run started is left as it was, whether or not the run raises. |
| ScriptGenerator.Lower | agents/script_generator.py:9 | No ASCII capital letter survives lower-casing. |
| ScriptGenerator.LowerAppend | agents/script_generator.py:9 | Lower-casing works character by character: lower-casing a concatenation lower-cases each part. |
| ScriptGenerator.LowerOfAscii | agents/script_generator.py:9 | On ASCII text, lower-casing keeps the length, maps each of A-Z to its lower-case letter, and keeps every other character in place. |
| ScriptGenerator.LowerOfLowercase | agents/script_generator.py:9 | Lower-casing a lower-case name leaves it unchanged. |
| ScriptGenerator.KeepAllowed | agents/script_generator.py:10 | Only `[a-z0-9_]` characters remain, and the result is no longer than the input. A name already in `[a-z0-9_]` is kept whole. |
| ScriptGenerator.KeepAllowedOne | agents/script_generator.py:10 | A single character is kept exactly when it is in `[a-z0-9_]`. |
| ScriptGenerator.KeepAllowedAppend | agents/script_generator.py:10 | The filter keeps order: filtering a concatenation filters each part. |
| ScriptGenerator.RemovePy | agents/script_generator.py:11 | The result holds only characters of the input. |
| ScriptGenerator.RemovePyFromFirst | agents/script_generator.py:11 | Text without `"py"` is unchanged. Otherwise the text before the first `"py"` is kept, that `"py"` is dropped, and deletion goes on after it. |
| ScriptGenerator.Sanitize | agents/script_generator.py:7-12 | The result has at most 50 characters, all from `[a-z0-9_]`. It is the first min(50, n) characters of the text obtained by lower-casing, turning spaces into `_`, filtering, and one pass of `"py"` deletion, where n is that text's length. |
| ScriptGenerator.RemovePyLeavesPy | agents/script_generator.py:11 | One deletion pass can leave a `"py"`: `"ppyy"` sanitises to `"py"`. |
| ScriptGenerator.CandidateInjective | agents/script_generator.py:16-19 | Different attempts try different paths. |
| ScriptGenerator.TriedSize | agents/script_generator.py:18-20 | The first n attempts are n distinct paths, which is what bounds the loop. |
| ScriptGenerator.GenerateUniqueFilename | agents/script_generator.py:14-21 | The loop ends for every finite set of existing paths. Its result is `scripts/_<base>.py` if that path is free, and otherwise `scripts/_<base>_<k>.py` for the smallest free k ≥ 1. The result is never an existing path. |
| ScriptGenerator.FirstFreeUnique | agents/script_generator.py:14-21 | The chosen path is determined by the base name and the existing files. |
| ScriptGenerator.FirstAndSecondScript | agents/script_generator.py:16-20 | In a directory without candidates for the stem, the first script is `scripts/_<stem>.py`. Once that path exists, the next one is `scripts/_<stem>_1.py`. |
| ScriptGenerator.Stem | agents/script_generator.py:28-33 | The stem is the sanitised description when that is non-empty, and `"script"` when it is empty. It is never empty, has at most 50 characters, and uses only `[a-z0-9_]`. |
| ScriptGenerator.NewExtractor | agents/openai_script_extract.py:8 | Constructing an extractor succeeds exactly when it gets one or two positional arguments: the required `api_key` and an optional model. |
| ScriptGenerator.ScriptDir.GenerateScript | agents/script_generator.py:23-42 | Returns a path exactly when the extractor could be built and the fetch gave a script. That path is the first free one for the stem, and it alone is created. When the fetch gave None, it is created empty and the write raises. |
| ScriptGenerator.ScriptDir.GenerateScriptAsWritten | agents/script_generator.py:25 | As written, every call raises before any file is touched. |
| ScriptGenerator.ScriptDir.GenerateScriptWithKey | agents/script_generator.py:23-42 | With the key passed, the script lands at the first free path for the stem, no existing file is overwritten, and a path is returned exactly when a script was fetched. |
| CodeAuditor.ReviewAndImprove | agents/code_auditor.py:29-56 | The result is the original path or its `_improved.py` variant. The variant is returned exactly when the reviewer returned and the variant exists. A raising reviewer or a missing variant gives the original path back. |
| CodeAuditor.StaticAnalysisOnlyLogs | agents/code_auditor.py:39-40 | The static-analysis verdict never changes the returned path. |
| CodeAuditor.ImprovedPathOfScript | agents/code_auditor.py:47 | For a path `p.py` whose only `".py"` is the final one, the improved path is `p_improved.py`. |
| CodeAuditor.NoPyKeepsPath | agents/code_auditor.py:47-53 | A path without `".py"` always comes back unchanged. |
| ScriptExtract.NextBlock | agents/openai_script_extract.py:70 | The block of one match holds no fence, the scan resumes on strictly shorter text, and there is no match unless the text contains a fence. |
| ScriptExtract.NextBlockSpec | agents/openai_script_extract.py:70 | A match cuts the text into the part before the first fence, that fence, the block, the first fence after it, and the tail. There is no match exactly when the text does not hold two non-overlapping fences. |
| ScriptExtract.Blocks | agents/openai_script_extract.py:70 | No block contains a fence, and text without a fence yields no block. |
| ScriptExtract.NoBlocksIff | agents/openai_script_extract.py:70 | `findall` finds nothing exactly when the text does not hold two non-overlapping fences. |
| ScriptExtract.BlocksOfMatch | agents/openai_script_extract.py:70 | Text made of a fence-free part, a fence, a fence-free block, a fence and a tail yields that block first and then the blocks of the tail. |
| ScriptExtract.FirstPython | agents/openai_script_extract.py:71-72 | The result is the index of the first block that starts with `"python"`, or -1 exactly when no block does. |
| ScriptExtract.Script | agents/openai_script_extract.py:73 | What follows the leading `"python"` is whitespace, the script, and whitespace. The script has no whitespace at either end, is empty exactly when that remainder is all whitespace, and holds no fence when the block holds none. |
| ScriptExtract.StripResponseScript | agents/openai_script_extract.py:67-74 | Returns None exactly when no block starts with `"python"` (so also when there are fewer than two fences). Otherwise it returns the script of the first such block, which has no surrounding whitespace and no fence. |
| ScriptExtract.FetchScript | agents/openai_script_extract.py:49-65 | An exception or a missing message gives None. A message gives exactly what `strip_response_script` gives for it. |
| ScriptExtract.OneFencedBlock | agents/openai_script_extract.py:70 | A reply made of one python fence, whose body holds no fence and does not end in a backtick, has exactly that block. |
| ScriptExtract.OneFencedScript | agents/openai_script_extract.py:70-74 | For a reply made of one python fence, whose body holds no fence and does not end in a backtick, the script is the body, stripped. |
| ContextCompress.DropComments | context_generator.py:50 | A line is kept exactly when it is a line of the input that does not start with `#` after its leading whitespace. |
| ContextCompress.DropCommentsAppend | context_generator.py:50 | The filter keeps line order: filtering a concatenation filters each part. |
| ContextCompress.CommentByFirst | context_generator.py:63 | A line is a comment exactly when its first non-whitespace character is `#`. |
| ContextCompress.RStripAll | context_generator.py:63 | Each line is replaced by its right-stripped self, one for one. |
| ContextCompress.DropBlank | context_generator.py:65 | A line is kept exactly when it is a line of the input that is not blank. |
| ContextCompress.DropBlankOne | context_generator.py:65 | A single line is kept exactly when it is not blank. |
| ContextCompress.DropBlankAppend | context_generator.py:65 | The filter keeps line order: filtering a concatenation filters each part. |
| ContextCompress.KeptLineShape | context_generator.py:61-65 | Every line kept by `compress_code`'s filters is non-empty, not blank, not a comment, has no line break and has no trailing whitespace. |
| ContextCompress.CondenseKeeps | context_generator.py:70-73 | `condense_spaces` keeps the words and the indentation width of a line, and the indentation becomes all spaces. Condensing twice is condensing once. |
| ContextCompress.CondenseShape | context_generator.py:70-75 | Condensing a kept line keeps it non-blank, comment-free and without trailing whitespace. |
| ContextCompress.CondensedLines | context_generator.py:61-75 | Before the shorthand step, the output's lines are the kept lines, each condensed, one for one. None is blank, none is a comment, and none has trailing whitespace. |
| ContextCompress.UncommentedKeepsBlank | context_generator.py:49-51 | `compress_code1` keeps blank lines. |
| ContextCompress.ShortenedAppend | context_generator.py:78-79 | Applying the first part of the table, then the rest, is applying the whole table. |
| ContextCompress.ShortenedAbsent | context_generator.py:78-79 | Code in which no pattern occurs comes through the shorthand step unchanged. |
| ContextCompress.ShorthandOrderMatters | context_generator.py:11-45 | The table's order matters. In the declared order `" if "` consumes the space that `" None"` needs, so `" if None"` becomes `"⊢None"`. In the reverse order it becomes `" if∅"`. |
| ContextCompress.ApplyShorthands | context_generator.py:78-79 | The loop replaces every occurrence of each pattern, one pattern at a time, in the table's order. |
| ContextCompress.CompressCode | context_generator.py:59-84 | `compress_code` up to its `@DOC` step is the shorthand step applied to the condensed kept lines. |
| ContextCompress.CompressCode1 | context_generator.py:47-57 | `compress_code1` up to its `@DOC` step is the shorthand step applied to the non-comment lines. |
| ContextCompress.SplitPath | context_generator.py:93 | Splitting on the separator yields at least one component. |
| ContextCompress.SplitPathJoin | context_generator.py:93 | Joining the components with the separator gives the path back. |
| ContextCompress.ComponentOccurs | context_generator.py:93-94 | Every component appears in the path between separators or path ends. |
| ContextCompress.OccursComponent | context_generator.py:93-94 | A separator-free name that appears between separators or path ends is a component. |
| ContextCompress.IsValidPyFileIff | context_generator.py:87-94 | `is_valid_py_file` holds exactly when the path ends in `.py` and none of `.git`, `__pycache__`, `venv`, `env` is a whole component. |
| TaskSummary.LoadTasks | task_summary.py:12-23 | A missing or malformed file gives `[]`. A document gives its `"tasks"` entry, and raises exactly when it is not a dict holding that key. |
| TaskSummary.FilterTasks | task_summary.py:25-27 | The filter returns exactly when every task is a dict. |
| TaskSummary.FilterTasksMembers | task_summary.py:27 | The result holds exactly the tasks with the given status, none more often than in the input. |
| TaskSummary.FilterTasksAppend | task_summary.py:27 | The filter keeps the original order: filtering a concatenation filters each part. |
| TaskSummary.DisjointCounts | task_summary.py:31-37 | The pending and completed filters select disjoint tasks, so together they count at most all tasks. |
| TaskSummary.DetailOf | task_summary.py:44-50 | A missing field shows its default: name "Unnamed Task", priority "None", skip-auditor and execute "No". |
| TaskSummary.Details | task_summary.py:43-50 | One detail per pending task, in order, numbered from 1. |
| TaskSummary.Summarize | task_summary.py:29-50 | Returns exactly when the list can be walked and every task is a dict. The total is the number of tasks. The pending and completed counts are the sizes of the two status filters, and together they are at most the total. The warning is raised exactly when more than 10 tasks are pending. The details are those of the pending tasks, in order, numbered from 1. |
| TaskSummary.SummaryDetails | task_summary.py:43-50 | The i-th detail belongs to the i-th pending task in list order. |
| TaskSummary.Report | task_summary.py:52-58 | "No tasks available." (None) is reported exactly when the load returned an empty or falsy value, including for a missing or malformed file. Otherwise the report is the summary. |
| TaskSummary.NextTaskIsFirstListed | task_summary.py:27 | `get_next_task` hands out the first task the summary lists as pending, and none exactly when the summary lists none. |

## Left out

- **Input and output.** File I/O, logging, `print` and the JSON text encoding are not modelled. `tasks.json` is a value: missing, malformed, or a parsed document. The scripts directory is a map from path to contents. An existence check is membership.
- **External services.** The LLM call in `fetch_script` and its debug dump are left out. So are `openai_python_code_improver.py` (the reviewer), the flake8 subprocess of `run_static_analysis` and `agents/executor.py`. They enter only through their results: the reply content, whether the reviewer raised, the files after the review, and the executor's boolean.
- **Other modules.** `generate_context`, `agents/init_repo.py`, `agents/logger.py`, `main.py`, `agents/scripts/script_test.py`, `save_script_to_file` and `fetch_and_save_script` are not part of this model. They are directory walking, shell commands, logging setup, a demo program, or file writes.
- **The `@DOC` regex step** (context_generator.py:56,82). It is left out. `ContextCompress.CompressCode` and `ContextCompress.CompressCode1` state the text before that step, which is the final output whenever it contains no `"@DOC"`.
- Orchestration.Collaborators: the generator is an abstract function of the prompt and path. task_orchestrator.py:45 passes the script path where `generate_script` expects a task description, and ignores the path it returns. The generator's own behaviour is modelled separately, in `ScriptGenerator`.
- Orchestration.Orchestrator.constructor: requires a task list that can be loaded. When `tasks.json` holds a document that is not a dict, `__init__` raises, and no orchestrator exists.
- Orchestration.Orchestrator.ProcessTask: the task dict shared between `self.tasks` and `process_task` is modelled by writing the updated dict back at its index. Python's aliasing of that dict elsewhere is not modelled.
- **Floating-point values** in task documents are not modelled. Dict key order is not modelled (a dict is a `map`).
- Py.Show: `str()` of a list or dict is a placeholder, not Python's `repr`.
- Py.Equal: Python's `True == 1` and `False == 0` are applied only to the two values compared. Inside lists and dicts, a boolean and a number never compare equal.
- ScriptGenerator.Candidate: `os.path.join` is taken to use `/` as the separator.
- ScriptGenerator.Lower: maps only the characters whose lower case contains ASCII letters (A-Z, KELVIN SIGN, LATIN CAPITAL LETTER I WITH DOT ABOVE) and keeps every other character. `Sanitize` is exact all the same, because the filter that follows drops every non-ASCII character.
- ContextCompress.SplitPath: `os.sep` is taken to be `/`.
- TaskSummary.Summarize: the log lines themselves are not modelled. The summary is the record of the values they print.
- Text: strings are sequences of Unicode code points. Case folding, normalisation and byte encodings are not modelled.

## Findings

| source | as written | input that shows it | evidently intended | confidence | as-written member | corrected member |
|---|---|---|---|---|---|---|
| agents/script_generator.py:25 | `generate_script` builds `OpenAIScriptExtractor()` with no arguments, but the constructor requires `api_key` (agents/openai_script_extract.py:8), so every call raises TypeError before a path is chosen | any call, e.g. `generate_script("p", "demo")` | the extractor receives the API key, and the fetched script is written to the first free path for the stem | not executed | ScriptGenerator.ScriptDir.GenerateScriptAsWritten | ScriptGenerator.ScriptDir.GenerateScriptWithKey |
