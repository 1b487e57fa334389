/**
 * The in-memory to-do store of main.py: the module-level `tasks` list,
 * `create_task` (capacity check, truncation, append) and
 * `find_and_remove_task` (first case-insensitive substring match).
 */
module Tasks {
  import opened Wrappers
  import opened Text

  /** `Config.MAX_TASKS`: the store never holds more tasks than this. */
  const MAX_TASKS: nat := 100
  /** `Config.MAX_TASK_LENGTH`: stored contents are cut to this many characters. */
  const MAX_TASK_LENGTH: nat := 500

  /** A stored task. The id (a fresh uuid4) and the creation time (`datetime.now()`) come from outside. */
  datatype Task = Task(id: string, content: string, createdAt: nat)

  /** The only failure of the store: `ValueError("Too many tasks")`. */
  datatype StoreError = TooManyTasks {
    function Text(): string { "Too many tasks" }
  }

  function Min(a: nat, b: nat): nat { if a <= b then a else b }

  /** `content[:MAX_TASK_LENGTH]`: the longest prefix of the content within the length limit. */
  function Truncate(content: string): (r: string)
    ensures |r| <= MAX_TASK_LENGTH
    ensures |r| == Min(|content|, MAX_TASK_LENGTH)
    ensures IsPrefix(r, content)
  {
    if |content| <= MAX_TASK_LENGTH then content else content[..MAX_TASK_LENGTH]
  }

  /** The task built by `create_task`. */
  function NewTask(content: string, id: string, now: nat): Task
  {
    Task(id, Truncate(content), now)
  }

  /** `task_name.lower() in task.content.lower()`. */
  predicate Matches(query: string, t: Task)
  {
    Contains(Lower(t.content), Lower(query))
  }

  /** The index that `find_and_remove_task` stops at: the first task matching the query, if any. */
  function FirstMatch(ts: seq<Task>, query: string): (r: Option<nat>)
    ensures r.Some? ==> r.value < |ts| && Matches(query, ts[r.value])
    ensures r.Some? ==> forall j :: 0 <= j < r.value ==> !Matches(query, ts[j])
    ensures r.None? <==> forall j :: 0 <= j < |ts| ==> !Matches(query, ts[j])
  {
    if ts == [] then None
    else if Matches(query, ts[0]) then Some(0)
    else match FirstMatch(ts[1..], query)
      case None => None
      case Some(k) => Some(k + 1)
  }

  /** The list after `find_and_remove_task`: the first matching task taken out, or the list as it was. */
  function RemoveFirstMatch(ts: seq<Task>, query: string): (r: seq<Task>)
    ensures |ts| - 1 <= |r| <= |ts|
    ensures r == ts <==> FirstMatch(ts, query).None?
  {
    match FirstMatch(ts, query)
    case None => ts
    case Some(k) => ts[..k] + ts[k + 1..]
  }

  /** The store invariant: within capacity and every content within the length limit. */
  predicate ValidTasks(ts: seq<Task>)
  {
    && |ts| <= MAX_TASKS
    && forall i :: 0 <= i < |ts| ==> |ts[i].content| <= MAX_TASK_LENGTH
  }

  /** The process-wide task list. */
  class TaskList {
    var tasks: seq<Task>

    ghost predicate Valid()
      reads this
    {
      ValidTasks(tasks)
    }

    /** `tasks = []` at start-up. */
    constructor ()
      ensures tasks == [] && Valid()
    {
      tasks := [];
    }

    /** `create_task`: refuses a full store, otherwise appends the truncated content. */
    method CreateTask(content: string, id: string, now: nat) returns (r: Result<Task, StoreError>)
      modifies this
      ensures |old(tasks)| >= MAX_TASKS ==> r == Failure(TooManyTasks) && tasks == old(tasks)
      ensures |old(tasks)| < MAX_TASKS ==>
        && r == Success(Task(id, Truncate(content), now))
        && tasks == old(tasks) + [r.value]
      ensures old(Valid()) ==> Valid()
    {
      if |tasks| >= MAX_TASKS {
        return Failure(TooManyTasks);
      }
      var task := Task(id, Truncate(content), now);
      tasks := tasks + [task];
      return Success(task);
    }

    /** `find_and_remove_task`: scans in list order and removes the first task whose content contains the name, ignoring case. */
    method FindAndRemoveTask(name: string) returns (removed: bool)
      modifies this
      ensures removed <==> exists k :: 0 <= k < |old(tasks)| && Matches(name, old(tasks)[k])
      ensures tasks == RemoveFirstMatch(old(tasks), name)
      ensures old(Valid()) ==> Valid()
    {
      var i := 0;
      while i < |tasks|
        invariant 0 <= i <= |tasks|
        invariant tasks == old(tasks)
        invariant forall j :: 0 <= j < i ==> !Matches(name, tasks[j])
      {
        if Contains(Lower(tasks[i].content), Lower(name)) {
          assert FirstMatch(tasks, name) == Some(i);
          tasks := tasks[..i] + tasks[i + 1..];
          return true;
        }
        i := i + 1;
      }
      return false;
    }

    /** `tasks.clear()`. */
    method Clear()
      modifies this
      ensures tasks == [] && Valid()
    {
      tasks := [];
    }
  }

  // ----- properties of the store operations -----

  /** Appending a new task to a valid store with room keeps it valid. */
  lemma AppendKeepsValid(ts: seq<Task>, content: string, id: string, now: nat)
    requires ValidTasks(ts) && |ts| < MAX_TASKS
    ensures ValidTasks(ts + [NewTask(content, id, now)])
  {
  }

  /** Content within the limit is stored as given; longer content keeps exactly its first MAX_TASK_LENGTH characters. */
  lemma TruncateExact(content: string)
    ensures |content| <= MAX_TASK_LENGTH ==> Truncate(content) == content
    ensures |content| > MAX_TASK_LENGTH ==> |Truncate(content)| == MAX_TASK_LENGTH && Truncate(content) == content[..MAX_TASK_LENGTH]
  {
  }

  /** Without a match, removal changes nothing. */
  lemma RemoveNoMatch(ts: seq<Task>, query: string)
    requires forall j :: 0 <= j < |ts| ==> !Matches(query, ts[j])
    ensures RemoveFirstMatch(ts, query) == ts
  {
  }

  /**
   * With a match, removal takes out exactly one task, the first that matches,
   * and keeps the others in their order.
   */
  lemma RemoveFirstMatchShape(ts: seq<Task>, query: string, k: nat)
    requires FirstMatch(ts, query) == Some(k)
    ensures |RemoveFirstMatch(ts, query)| == |ts| - 1
    ensures forall j :: 0 <= j < k ==> RemoveFirstMatch(ts, query)[j] == ts[j]
    ensures forall j :: k < j < |ts| ==> RemoveFirstMatch(ts, query)[j - 1] == ts[j]
  {
    var rest := RemoveFirstMatch(ts, query);
    assert rest == ts[..k] + ts[k + 1..];
    forall j | k < j < |ts| ensures rest[j - 1] == ts[j] {
      assert rest[j - 1] == ts[k + 1..][j - 1 - k];
    }
  }

  /** Removal loses exactly the removed task: no task is duplicated or invented. */
  lemma RemoveFirstMatchMultiset(ts: seq<Task>, query: string, k: nat)
    requires FirstMatch(ts, query) == Some(k)
    ensures multiset(RemoveFirstMatch(ts, query)) + multiset{ts[k]} == multiset(ts)
  {
    var rest := RemoveFirstMatch(ts, query);
    assert rest == ts[..k] + ts[k + 1..];
    SplitMultiset(ts, k);
  }

  lemma SplitMultiset(ts: seq<Task>, k: nat)
    requires k < |ts|
    ensures multiset(ts[..k] + ts[k + 1..]) + multiset{ts[k]} == multiset(ts)
  {
    assert ts == ts[..k] + [ts[k]] + ts[k + 1..];
  }

  /** Removal keeps the store invariant. */
  lemma RemoveKeepsValid(ts: seq<Task>, query: string)
    requires ValidTasks(ts)
    ensures ValidTasks(RemoveFirstMatch(ts, query))
  {
    if FirstMatch(ts, query).Some? {
      var k := FirstMatch(ts, query).value;
      RemoveFirstMatchShape(ts, query, k);
      var r := RemoveFirstMatch(ts, query);
      forall i | 0 <= i < |r| ensures |r[i].content| <= MAX_TASK_LENGTH {
        if i < k { assert r[i] == ts[i]; } else { assert r[i] == ts[i + 1]; }
      }
    }
  }

  /** A query that is a piece of a task's content, in any letter case, finds that task. */
  lemma {:induction false} InfixMatches(query: string, a: string, b: string, id: string, now: nat)
    ensures Matches(query, Task(id, a + query + b, now))
  {
    LowerAppend(a + query, b);
    LowerAppend(a, query);
    ContainsInfix(Lower(a), Lower(query), Lower(b));
  }

  /**
   * Adding a task and then removing by any piece of the stored content
   * always finds a task and brings the list back to its old size.
   */
  lemma {:induction false} AddThenRemove(ts: seq<Task>, content: string, id: string, now: nat, a: string, query: string, b: string)
    requires Truncate(content) == a + query + b
    ensures FirstMatch(ts + [NewTask(content, id, now)], query).Some?
    ensures |RemoveFirstMatch(ts + [NewTask(content, id, now)], query)| == |ts|
  {
    var us := ts + [NewTask(content, id, now)];
    InfixMatches(query, a, b, id, now);
    assert us[|ts|] == Task(id, a + query + b, now);
    RemoveFirstMatchShape(us, query, FirstMatch(us, query).value);
  }
}
