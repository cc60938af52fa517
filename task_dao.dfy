/**
 * data/local/TaskDao.kt: the TASK table. Upsert and the two DELETE statements
 * change the table in place; the SELECTs read it.
 */
module TaskDao {
  import opened Wrappers
  import opened Domain
  import opened Tables

  /** The primary key of a task row. */
  function TaskKey(t: Task): Option<int> {
    t.taskId
  }

  /**
   * The row that storing `task` writes: a task without an id gets the key the
   * generator hands out next; nothing else about the task changes.
   */
  function WithGeneratedId(task: Task, nextId: int): (stored: Task)
    ensures stored.taskId.Some? && stored.(taskId := task.taskId) == task
    ensures task.taskId.Some? ==> stored == task
  {
    if task.taskId.Some? then task else task.(taskId := Some(nextId))
  }

  /** The generator never hands out a key at or below one it has seen. */
  function NextIdAfter(nextId: int, task: Task): (n: int)
    ensures n >= nextId
    ensures n > WithGeneratedId(task, nextId).taskId.value
  {
    match task.taskId
    case None => nextId + 1
    case Some(k) => if k >= nextId then k + 1 else nextId
  }

  /** Keys are unique and all below the next generated key. */
  ghost predicate TableInvariant(rows: seq<Task>, nextId: int) {
    && KeyedRows(rows, TaskKey)
    && forall t :: t in rows ==> t.taskId.Some? && t.taskId.value < nextId
  }

  /** The table after `@Upsert upsertTask(task)`. */
  function Upserted(rows: seq<Task>, nextId: int, task: Task): seq<Task> {
    UpsertBy(rows, TaskKey, WithGeneratedId(task, nextId))
  }

  /** The table after `DELETE FROM TASK WHERE taskId = :taskId`. */
  function WithoutTask(rows: seq<Task>, taskId: int): seq<Task> {
    Filter(rows, (t: Task) => t.taskId != Some(taskId))
  }

  /** The table after `DELETE FROM TASK WHERE taskSubjectId = :subjectId`. */
  function WithoutSubject(rows: seq<Task>, subjectId: int): seq<Task> {
    Filter(rows, (t: Task) => t.taskSubjectId != subjectId)
  }

  /** `SELECT * FROM TASK WHERE taskSubjectId = :subjectId` */
  function ForSubject(rows: seq<Task>, subjectId: int): seq<Task> {
    Filter(rows, (t: Task) => t.taskSubjectId == subjectId)
  }

  lemma UpsertKeepsInvariant(rows: seq<Task>, nextId: int, task: Task)
    requires TableInvariant(rows, nextId)
    ensures TableInvariant(Upserted(rows, nextId, task), NextIdAfter(nextId, task))
  {
    UpsertKeyed(rows, TaskKey, WithGeneratedId(task, nextId));
  }

  /**
   * After an upsert the stored row is found under its key (the task's own id,
   * or the generated one), and every other key finds what it found before.
   */
  lemma UpsertThenGetTaskById(rows: seq<Task>, nextId: int, task: Task)
    requires TableInvariant(rows, nextId)
    ensures var stored := WithGeneratedId(task, nextId);
      && FindBy(Upserted(rows, nextId, task), TaskKey, stored.taskId.value) == Some(stored)
      && forall id :: id != stored.taskId.value ==>
           FindBy(Upserted(rows, nextId, task), TaskKey, id) == FindBy(rows, TaskKey, id)
  {
    var stored := WithGeneratedId(task, nextId);
    UpsertThenFind(rows, TaskKey, stored, stored.taskId.value);
    forall id | id != stored.taskId.value
      ensures FindBy(Upserted(rows, nextId, task), TaskKey, id) == FindBy(rows, TaskKey, id)
    {
      UpsertKeepsOthers(rows, TaskKey, stored, id);
    }
  }

  /** A task without an id becomes a new last row under the generated key. */
  lemma UpsertWithoutIdAppends(rows: seq<Task>, nextId: int, task: Task)
    requires TableInvariant(rows, nextId)
    requires task.taskId.None?
    ensures Upserted(rows, nextId, task) == rows + [task.(taskId := Some(nextId))]
  {
    UpsertFreshKeyAppends(rows, TaskKey, task.(taskId := Some(nextId)));
  }

  /**
   * Deleting by id removes the row with that id and no other: afterwards the
   * id is not found, and every other id finds what it found before.
   */
  lemma DeleteTaskEffect(rows: seq<Task>, nextId: int, taskId: int)
    requires TableInvariant(rows, nextId)
    ensures TableInvariant(WithoutTask(rows, taskId), nextId)
    ensures FindBy(WithoutTask(rows, taskId), TaskKey, taskId) == None
    ensures forall id :: id != taskId ==>
      FindBy(WithoutTask(rows, taskId), TaskKey, id) == FindBy(rows, TaskKey, id)
  {
    var keep := (t: Task) => t.taskId != Some(taskId);
    FilterKeyed(rows, TaskKey, keep);
    forall id | id != taskId
      ensures FindBy(WithoutTask(rows, taskId), TaskKey, id) == FindBy(rows, TaskKey, id)
    {
      FindByAfterFilter(rows, TaskKey, keep, id);
    }
  }

  lemma DeleteBySubjectKeepsInvariant(rows: seq<Task>, nextId: int, subjectId: int)
    requires TableInvariant(rows, nextId)
    ensures TableInvariant(WithoutSubject(rows, subjectId), nextId)
  {
    FilterKeyed(rows, TaskKey, (t: Task) => t.taskSubjectId != subjectId);
  }

  /** The TASK table and its generator of keys. */
  class TaskTable {
    var rows: seq<Task>
    /** The key Room's generator hands out next. */
    var nextId: int

    ghost predicate Valid()
      reads this
    {
      TableInvariant(rows, nextId)
    }

    constructor ()
      ensures Valid() && rows == []
    {
      rows := [];
      nextId := 1;
    }

    /** `@Upsert upsertTask` */
    method UpsertTask(task: Task)
      requires Valid()
      modifies this
      ensures Valid()
      ensures rows == Upserted(old(rows), old(nextId), task)
      ensures nextId == NextIdAfter(old(nextId), task)
    {
      UpsertKeepsInvariant(rows, nextId, task);
      rows := Upserted(rows, nextId, task);
      nextId := NextIdAfter(nextId, task);
    }

    /** `getTaskById`: the row with that id, or null when there is none. */
    function GetTaskById(taskId: int): (r: Option<Task>)
      reads this
      ensures r.Some? ==> r.value in rows && r.value.taskId == Some(taskId)
      ensures r.None? <==> forall t :: t in rows ==> t.taskId != Some(taskId)
    {
      FindBy(rows, TaskKey, taskId)
    }

    /** `deleteTask`: the row with that id goes, every other row stays. */
    method DeleteTask(taskId: int)
      requires Valid()
      modifies this
      ensures Valid()
      ensures rows == WithoutTask(old(rows), taskId) && nextId == old(nextId)
      ensures forall t :: t in rows <==> t in old(rows) && t.taskId != Some(taskId)
    {
      DeleteTaskEffect(rows, nextId, taskId);
      rows := WithoutTask(rows, taskId);
    }

    /** `deleteTasksBySubjectId`: the subject's rows go, the other subjects' rows stay. */
    method DeleteTasksBySubjectId(subjectId: int)
      requires Valid()
      modifies this
      ensures Valid()
      ensures rows == WithoutSubject(old(rows), subjectId) && nextId == old(nextId)
      ensures forall t :: t in rows <==> t in old(rows) && t.taskSubjectId != subjectId
    {
      DeleteBySubjectKeepsInvariant(rows, nextId, subjectId);
      rows := WithoutSubject(rows, subjectId);
    }

    /** `getAllTasks`: every row, in table order. */
    function GetAllTasks(): (r: seq<Task>)
      reads this
      ensures r == rows
    {
      rows
    }

    /** `getTasksForSubject`: exactly the rows of that subject, in table order. */
    function GetTasksForSubject(subjectId: int): (r: seq<Task>)
      reads this
      ensures forall t :: t in r <==> t in rows && t.taskSubjectId == subjectId
    {
      ForSubject(rows, subjectId)
    }
  }
}
