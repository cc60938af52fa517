/**
 * data/repository/TaskRepositoryImpl.kt: forwards upsert, lookup and delete to
 * the TASK table and derives the upcoming and completed task lists from it,
 * each ordered by due date and then by priority, highest first.
 */
module TaskRepository {
  import opened Wrappers
  import opened Domain
  import opened Tables
  import opened TaskDao

  /**
   * The order `compareBy { it.dueDate }.thenByDescending { it.priority }`
   * puts `a` and `b` in: `a` may come first when its due date is earlier, or
   * the same and its priority at least as high.
   */
  predicate InOrder(a: Task, b: Task) {
    a.dueDate < b.dueDate || (a.dueDate == b.dueDate && a.priority >= b.priority)
  }

  /** Every pair of positions is in order. */
  ghost predicate Sorted(s: seq<Task>) {
    forall i, j :: 0 <= i < j < |s| ==> InOrder(s[i], s[j])
  }

  /** The tasks that share both sort keys with `d` and `p`, in their order in `s`. */
  function SameKeys(s: seq<Task>, d: int, p: int): seq<Task> {
    Filter(s, (t: Task) => t.dueDate == d && t.priority == p)
  }

  /**
   * Puts `x` in front of the first task it may precede; every task it passes
   * strictly precedes it, so no task with the same keys is passed.
   */
  function Insert(x: Task, s: seq<Task>): (r: seq<Task>)
    ensures multiset(r) == multiset(s) + multiset{x}
    ensures forall y :: y in r <==> y == x || y in s
  {
    if |s| == 0 then [x]
    else if InOrder(x, s[0]) then [x] + s
    else
      assert s == [s[0]] + s[1..];
      [s[0]] + Insert(x, s[1..])
  }

  lemma {:induction false} InsertSorted(x: Task, s: seq<Task>)
    requires Sorted(s)
    ensures Sorted(Insert(x, s))
    decreases |s|
  {
    if |s| > 0 && !InOrder(x, s[0]) {
      InsertSorted(x, s[1..]);
      var rest := Insert(x, s[1..]);
      assert forall y :: y in rest ==> InOrder(s[0], y);
      forall i, j | 0 <= i < j < |[s[0]] + rest|
        ensures InOrder(([s[0]] + rest)[i], ([s[0]] + rest)[j])
      {
        if i == 0 {
          assert ([s[0]] + rest)[j] in rest;
        } else {
          assert ([s[0]] + rest)[i] == rest[i - 1] && ([s[0]] + rest)[j] == rest[j - 1];
        }
      }
    }
  }

  /**
   * `sortedList`: the tasks in sort order. Kotlin's `sortedWith` is stable, so
   * this is the insertion sort that keeps equal tasks in input order.
   */
  function SortedList(tasks: seq<Task>): (r: seq<Task>)
    ensures multiset(r) == multiset(tasks)
    ensures Sorted(r)
  {
    if |tasks| == 0 then []
    else
      var rest := SortedList(tasks[1..]);
      assert tasks == [tasks[0]] + tasks[1..];
      InsertSorted(tasks[0], rest);
      Insert(tasks[0], rest)
  }

  /** Inserting `x` adds it in front of the tasks that share its keys. */
  lemma {:induction false} SameKeysInsert(x: Task, s: seq<Task>, d: int, p: int)
    ensures SameKeys(Insert(x, s), d, p) ==
      if x.dueDate == d && x.priority == p then [x] + SameKeys(s, d, p) else SameKeys(s, d, p)
    decreases |s|
  {
    if |s| > 0 && !InOrder(x, s[0]) {
      SameKeysInsert(x, s[1..], d, p);
      assert ([s[0]] + Insert(x, s[1..]))[1..] == Insert(x, s[1..]);
    } else if |s| > 0 {
      assert ([x] + s)[1..] == s;
    }
  }

  /**
   * `sortedList` is stable: tasks equal on both keys come out in the order
   * they went in.
   */
  lemma {:induction false} SortedListIsStable(tasks: seq<Task>, d: int, p: int)
    ensures SameKeys(SortedList(tasks), d, p) == SameKeys(tasks, d, p)
    decreases |tasks|
  {
    if |tasks| > 0 {
      SortedListIsStable(tasks[1..], d, p);
      SameKeysInsert(tasks[0], SortedList(tasks[1..]), d, p);
    }
  }

  /** The first task of a list is among the tasks of the list with its own keys. */
  lemma HeadHasOwnKeys(s: seq<Task>)
    ensures |s| > 0 ==> s[0] in SameKeys(s, s[0].dueDate, s[0].priority)
  {
  }

  /** One step of `SameKeys`: the first task is kept exactly when it has the keys. */
  lemma SameKeysCons(s: seq<Task>, d: int, p: int)
    requires |s| > 0
    ensures SameKeys(s, d, p) ==
      if s[0].dueDate == d && s[0].priority == p then [s[0]] + SameKeys(s[1..], d, p) else SameKeys(s[1..], d, p)
  {
  }

  /**
   * Two non-empty sorted lists that hold, for every pair of keys, the same
   * tasks with those keys in the same order start with the same task: each
   * head occurs in the other list, so the heads are in order both ways and
   * share their keys, and then each is the first task with those keys.
   */
  lemma SortedStableHeads(a: seq<Task>, b: seq<Task>)
    requires Sorted(a) && Sorted(b) && |a| > 0 && |b| > 0
    requires forall d, p :: SameKeys(a, d, p) == SameKeys(b, d, p)
    ensures a[0] == b[0]
  {
    var x, y := a[0], b[0];
    SameKeysCons(a, x.dueDate, x.priority);
    SameKeysCons(b, y.dueDate, y.priority);
    assert x in SameKeys(b, x.dueDate, x.priority);
    var j :| 0 <= j < |b| && b[j] == x;
    assert j == 0 || InOrder(y, x);
    assert y in SameKeys(a, y.dueDate, y.priority);
    var i :| 0 <= i < |a| && a[i] == y;
    assert i == 0 || InOrder(x, y);
    SameKeysCons(b, x.dueDate, x.priority);
  }

  /**
   * Two sorted lists that hold, for every pair of keys, the same tasks with
   * those keys in the same order are equal.
   */
  lemma {:induction false} SortedStableUnique(a: seq<Task>, b: seq<Task>)
    requires Sorted(a) && Sorted(b)
    requires forall d, p :: SameKeys(a, d, p) == SameKeys(b, d, p)
    ensures a == b
    decreases |a|
  {
    if |a| == 0 && |b| > 0 {
      HeadHasOwnKeys(b);
      assert false;
    } else if |a| > 0 && |b| == 0 {
      HeadHasOwnKeys(a);
      assert false;
    } else if |a| > 0 {
      SortedStableHeads(a, b);
      forall d, p
        ensures SameKeys(a[1..], d, p) == SameKeys(b[1..], d, p)
      {
        SameKeysCons(a, d, p);
        SameKeysCons(b, d, p);
        assert SameKeys(a, d, p) == SameKeys(b, d, p);
        if a[0].dueDate == d && a[0].priority == p {
          assert SameKeys(a, d, p)[1..] == SameKeys(a[1..], d, p);
          assert SameKeys(b, d, p)[1..] == SameKeys(b[1..], d, p);
        }
      }
      SortedStableUnique(a[1..], b[1..]);
      assert a == [a[0]] + a[1..] && b == [b[0]] + b[1..];
    }
  }

  /**
   * Any stable sort of `tasks` by this order, such as the one `sortedWith`
   * performs, gives exactly `SortedList(tasks)`.
   */
  lemma SortedListIsTheStableSort(tasks: seq<Task>, r: seq<Task>)
    requires Sorted(r)
    requires forall d, p :: SameKeys(r, d, p) == SameKeys(tasks, d, p)
    ensures r == SortedList(tasks)
  {
    forall d, p
      ensures SameKeys(r, d, p) == SameKeys(SortedList(tasks), d, p)
    {
      SortedListIsStable(tasks, d, p);
    }
    SortedStableUnique(r, SortedList(tasks));
  }

  /** `tasks.filter { it.isComplete.not() }` */
  function Incomplete(tasks: seq<Task>): seq<Task> {
    Filter(tasks, (t: Task) => !t.isComplete)
  }

  /** `tasks.filter { it.isComplete }` */
  function Complete(tasks: seq<Task>): seq<Task> {
    Filter(tasks, (t: Task) => t.isComplete)
  }

  /** Two lists with the same multiset of tasks hold the same tasks. */
  lemma SameMultisetSameMembers(r: seq<Task>, s: seq<Task>)
    requires multiset(r) == multiset(s)
    ensures forall t :: t in r <==> t in s
  {
    forall t
      ensures t in r <==> t in s
    {
      assert t in r <==> t in multiset(r);
      assert t in s <==> t in multiset(s);
    }
  }

  /** The upcoming list of a snapshot of the table: its incomplete tasks, sorted. */
  function UpcomingOf(rows: seq<Task>): (r: seq<Task>)
    ensures Sorted(r) && multiset(r) == multiset(Incomplete(rows))
    ensures forall t :: t in r <==> t in rows && !t.isComplete
  {
    var selected := Incomplete(rows);
    var r := SortedList(selected);
    SameMultisetSameMembers(r, selected);
    r
  }

  /** The completed list of a snapshot of the table: its completed tasks, sorted. */
  function CompletedOf(rows: seq<Task>): (r: seq<Task>)
    ensures Sorted(r) && multiset(r) == multiset(Complete(rows))
    ensures forall t :: t in r <==> t in rows && t.isComplete
  {
    var selected := Complete(rows);
    var r := SortedList(selected);
    SameMultisetSameMembers(r, selected);
    r
  }

  /**
   * A subject's upcoming and completed lists share no task and together hold
   * every task of the subject, each as often as the table holds it.
   */
  lemma UpcomingCompletedPartition(rows: seq<Task>, subjectId: int)
    ensures multiset(UpcomingOf(ForSubject(rows, subjectId))) + multiset(CompletedOf(ForSubject(rows, subjectId)))
      == multiset(ForSubject(rows, subjectId))
    ensures forall t :: !(t in UpcomingOf(ForSubject(rows, subjectId)) && t in CompletedOf(ForSubject(rows, subjectId)))
  {
    FilterPartition(ForSubject(rows, subjectId), (t: Task) => !t.isComplete, (t: Task) => t.isComplete);
  }

  /** TaskRepositoryImpl over the TASK table it was given. */
  class TaskRepositoryImpl {
    const taskDao: TaskTable

    ghost predicate Valid()
      reads this, taskDao
    {
      taskDao.Valid()
    }

    constructor (taskDao: TaskTable)
      ensures this.taskDao == taskDao
    {
      this.taskDao := taskDao;
    }

    /** `upsertTask`: exactly the table's upsert. */
    method UpsertTask(task: Task)
      requires Valid()
      modifies taskDao
      ensures Valid()
      ensures taskDao.rows == Upserted(old(taskDao.rows), old(taskDao.nextId), task)
      ensures taskDao.nextId == NextIdAfter(old(taskDao.nextId), task)
    {
      taskDao.UpsertTask(task);
    }

    /** `getTaskById`: exactly the table's lookup. */
    function GetTaskById(taskId: int): (r: Option<Task>)
      reads this, taskDao
      ensures r == taskDao.GetTaskById(taskId)
    {
      taskDao.GetTaskById(taskId)
    }

    /** `deleteTask`: exactly the table's delete. */
    method DeleteTask(taskId: int)
      requires Valid()
      modifies taskDao
      ensures Valid()
      ensures taskDao.rows == WithoutTask(old(taskDao.rows), taskId)
      ensures taskDao.nextId == old(taskDao.nextId)
    {
      taskDao.DeleteTask(taskId);
    }

    /** `getAllUpcomingTasks`: every incomplete task in the table, sorted. */
    function GetAllUpcomingTasks(): (r: seq<Task>)
      reads this, taskDao
      ensures Sorted(r)
      ensures forall t :: t in r <==> t in taskDao.rows && !t.isComplete
    {
      UpcomingOf(taskDao.GetAllTasks())
    }

    /** `getUpcomingTasksForSubject`: the subject's incomplete tasks, sorted. */
    function GetUpcomingTasksForSubject(subjectId: int): (r: seq<Task>)
      reads this, taskDao
      ensures Sorted(r)
      ensures forall t :: t in r <==> t in taskDao.rows && t.taskSubjectId == subjectId && !t.isComplete
    {
      UpcomingOf(taskDao.GetTasksForSubject(subjectId))
    }

    /** `getCompletedTasksForSubject`: the subject's completed tasks, sorted. */
    function GetCompletedTasksForSubject(subjectId: int): (r: seq<Task>)
      reads this, taskDao
      ensures Sorted(r)
      ensures forall t :: t in r <==> t in taskDao.rows && t.taskSubjectId == subjectId && t.isComplete
    {
      CompletedOf(taskDao.GetTasksForSubject(subjectId))
    }
  }
}
