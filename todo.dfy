/**
 * The console to-do list: one list of tasks, each a name and a completed
 * flag, changed in place by adding, completing and deleting. Task numbers are
 * 1-based, as the user types them.
 */
module Todo {
  import opened Options

  datatype Task = Task(name: string, completed: bool)

  /** The characters Python's `str.strip()` removes when given no argument
      (those for which `str.isspace()` holds). */
  predicate IsWhitespace(c: char) {
    || ('\t' <= c <= '\r')                 // tab, line feed, vertical tab, form feed, carriage return
    || ('\U{1C}' <= c <= ' ')              // the four separator controls and space
    || c == '\U{85}' || c == '\U{A0}' || c == '\U{1680}'
    || ('\U{2000}' <= c <= '\U{200A}')
    || c == '\U{2028}' || c == '\U{2029}' || c == '\U{202F}' || c == '\U{205F}' || c == '\U{3000}'
  }

  /** Every character is whitespace (the empty name included). */
  predicate IsBlank(name: string) {
    forall i :: 0 <= i < |name| ==> IsWhitespace(name[i])
  }

  /** `s` without its leading whitespace: a suffix of `s` that is empty or
      starts with a non-whitespace character, after a blank part. */
  function StripLeading(s: string): (r: string)
    ensures |r| <= |s| && r == s[|s| - |r|..]
    ensures IsBlank(s[..|s| - |r|])
    ensures r == [] || !IsWhitespace(r[0])
  {
    if s != [] && IsWhitespace(s[0]) then StripLeading(s[1..]) else s
  }

  /** `s` without its trailing whitespace: a prefix of `s` that is empty or
      ends with a non-whitespace character, before a blank part. */
  function StripTrailing(s: string): (r: string)
    ensures |r| <= |s| && r == s[..|r|]
    ensures IsBlank(s[|r|..])
    ensures r == [] || !IsWhitespace(r[|r| - 1])
  {
    if s != [] && IsWhitespace(s[|s| - 1]) then StripTrailing(s[..|s| - 1]) else s
  }

  /** `str.strip()` with no argument: the result is empty exactly when the
      name is blank, and otherwise neither starts nor ends with whitespace. */
  function Strip(name: string): (r: string)
    ensures r == [] <==> IsBlank(name)
    ensures r != [] ==> !IsWhitespace(r[0]) && !IsWhitespace(r[|r| - 1])
  {
    StripTrailing(StripLeading(name))
  }

  /** Whether a typed task number names an entry of the list. */
  predicate IsTaskNumber(tasks: seq<Task>, taskNum: int) {
    1 <= taskNum <= |tasks|
  }

  /** The list after add_task: a non-blank name is appended, unstripped and
      not completed. */
  function Added(tasks: seq<Task>, name: string): (r: seq<Task>)
    ensures IsBlank(name) ==> r == tasks
    ensures !IsBlank(name) ==> |r| == |tasks| + 1 && r[..|tasks|] == tasks
    ensures !IsBlank(name) ==> r[|tasks|].name == name && !r[|tasks|].completed
  {
    if Strip(name) == [] then tasks else tasks + [Task(name, false)]
  }

  /** The list after mark_completed: only the numbered entry changes, and only
      its flag. */
  function Completed(tasks: seq<Task>, taskNum: int): (r: seq<Task>)
    ensures |r| == |tasks|
    ensures forall i :: 0 <= i < |r| ==> r[i].name == tasks[i].name
    ensures forall i :: 0 <= i < |r| && i != taskNum - 1 ==> r[i] == tasks[i]
    ensures IsTaskNumber(tasks, taskNum) ==> r[taskNum - 1].completed
    ensures !IsTaskNumber(tasks, taskNum) ==> r == tasks
  {
    if IsTaskNumber(tasks, taskNum) then tasks[taskNum - 1 := tasks[taskNum - 1].(completed := true)]
    else tasks
  }

  /** The list after delete_task: the numbered entry is gone and the others
      keep their order. */
  function Deleted(tasks: seq<Task>, taskNum: int): (r: seq<Task>)
    ensures IsTaskNumber(tasks, taskNum) ==> |r| == |tasks| - 1
    ensures IsTaskNumber(tasks, taskNum) ==> forall i :: 0 <= i < taskNum - 1 ==> r[i] == tasks[i]
    ensures IsTaskNumber(tasks, taskNum) ==> forall i :: taskNum - 1 <= i < |r| ==> r[i] == tasks[i + 1]
    ensures IsTaskNumber(tasks, taskNum) ==>
              multiset(r) + multiset{tasks[taskNum - 1]} == multiset(tasks)
    ensures !IsTaskNumber(tasks, taskNum) ==> r == tasks
  {
    if IsTaskNumber(tasks, taskNum) then
      assert tasks == tasks[..taskNum - 1] + [tasks[taskNum - 1]] + tasks[taskNum..];
      tasks[..taskNum - 1] + tasks[taskNum..]
    else tasks
  }

  /** Completing an entry a second time changes nothing. */
  lemma CompletedIdempotent(tasks: seq<Task>, taskNum: int)
    ensures Completed(Completed(tasks, taskNum), taskNum) == Completed(tasks, taskNum)
  {
  }

  /** Deleting the entry just added gives back the list as it was. */
  lemma DeleteUndoesAdd(tasks: seq<Task>, name: string)
    ensures Deleted(Added(tasks, name), |tasks| + 1) == tasks
  {
  }

  /** Completing an entry and then deleting it is the same as deleting it. */
  lemma DeleteAfterComplete(tasks: seq<Task>, taskNum: int)
    ensures Deleted(Completed(tasks, taskNum), taskNum) == Deleted(tasks, taskNum)
  {
  }

  /** The module-level list `todo_list` and the operations on it. */
  class TodoList {
    var tasks: seq<Task>

    constructor ()
      ensures tasks == []
    {
      tasks := [];
    }

    /** add_task; `added` tells which message is printed. */
    method AddTask(name: string) returns (added: bool)
      modifies this
      ensures added <==> !IsBlank(name)
      ensures tasks == Added(old(tasks), name)
    {
      added := Strip(name) != [];
      if added {
        tasks := tasks + [Task(name, false)];
      }
    }

    /** mark_completed; `ok` is false when the number names no entry. */
    method MarkCompleted(taskNum: int) returns (ok: bool)
      modifies this
      ensures ok <==> IsTaskNumber(old(tasks), taskNum)
      ensures tasks == Completed(old(tasks), taskNum)
    {
      ok := 1 <= taskNum <= |tasks|;
      if ok {
        tasks := tasks[taskNum - 1 := tasks[taskNum - 1].(completed := true)];
      }
    }

    /** delete_task; returns the removed entry, or None when the number names
        no entry. */
    method DeleteTask(taskNum: int) returns (removed: Option<Task>)
      modifies this
      ensures removed.Some? <==> IsTaskNumber(old(tasks), taskNum)
      ensures removed.Some? ==> removed.value == old(tasks)[taskNum - 1]
      ensures tasks == Deleted(old(tasks), taskNum)
    {
      if 1 <= taskNum <= |tasks| {
        removed := Some(tasks[taskNum - 1]);
        tasks := tasks[..taskNum - 1] + tasks[taskNum..];
      } else {
        removed := None;
      }
    }
  }
}
