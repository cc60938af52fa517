/**
 * data/repository/SubjectRepositoryImpl.kt: forwards upsert and lookup to the
 * SUBJECT table; deleting a subject deletes it and then every task and every
 * session that belongs to it.
 */
module SubjectRepository {
  import opened Wrappers
  import opened Domain
  import opened Tables
  import KotlinText
  import SubjectDao
  import TaskDao
  import SessionDao

  /** Some stored subject has the key `id`. */
  ghost predicate HasSubject(subjects: seq<Subject>, id: int) {
    exists s :: s in subjects && s.subjectId == Some(id)
  }

  /** Every task and every session belongs to a stored subject. */
  ghost predicate NoOrphans(subjects: seq<Subject>, tasks: seq<Task>, sessions: seq<Session>) {
    && (forall t :: t in tasks ==> HasSubject(subjects, t.taskSubjectId))
    && (forall e :: e in sessions ==> HasSubject(subjects, e.sessionSubjectId))
  }

  /**
   * The cascade keeps every task and session attached to a stored subject:
   * the rows it leaves belong to other subjects, and those subjects stay.
   */
  lemma CascadeKeepsNoOrphans(subjects: seq<Subject>, tasks: seq<Task>, sessions: seq<Session>, id: int)
    requires NoOrphans(subjects, tasks, sessions)
    ensures NoOrphans(SubjectDao.WithoutSubject(subjects, id),
                      TaskDao.WithoutSubject(tasks, id),
                      SessionDao.WithoutSubject(sessions, id))
  {
    var kept := SubjectDao.WithoutSubject(subjects, id);
    forall t | t in TaskDao.WithoutSubject(tasks, id)
      ensures HasSubject(kept, t.taskSubjectId)
    {
      var s :| s in subjects && s.subjectId == Some(t.taskSubjectId);
      assert s in kept;
    }
    forall e | e in SessionDao.WithoutSubject(sessions, id)
      ensures HasSubject(kept, e.sessionSubjectId)
    {
      var s :| s in subjects && s.subjectId == Some(e.sessionSubjectId);
      assert s in kept;
    }
  }

  /**
   * Without the cascade the invariant can break: deleting only the subject
   * row leaves its task behind.
   */
  lemma SubjectDeleteAloneOrphansTasks()
    ensures var subjects := [Subject("Maths", KotlinText.Finite(2.0), [], Some(1))];
      var tasks := [Task("Revise", "", 0, 1, "Maths", false, 1, Some(1))];
      && NoOrphans(subjects, tasks, [])
      && !NoOrphans(SubjectDao.WithoutSubject(subjects, 1), tasks, [])
  {
    var subjects := [Subject("Maths", KotlinText.Finite(2.0), [], Some(1))];
    var tasks := [Task("Revise", "", 0, 1, "Maths", false, 1, Some(1))];
    assert subjects[0] in subjects;
    assert tasks[0] in tasks;
    assert SubjectDao.WithoutSubject(subjects, 1) == [];
  }

  /** SubjectRepositoryImpl over the three tables it was given. */
  class SubjectRepositoryImpl {
    const subjectDao: SubjectDao.SubjectTable
    const taskDao: TaskDao.TaskTable
    const sessionDao: SessionDao.SessionTable

    ghost predicate Valid()
      reads this, subjectDao, taskDao, sessionDao
    {
      subjectDao.Valid() && taskDao.Valid() && sessionDao.Valid()
    }

    constructor (subjectDao: SubjectDao.SubjectTable, taskDao: TaskDao.TaskTable, sessionDao: SessionDao.SessionTable)
      ensures this.subjectDao == subjectDao && this.taskDao == taskDao && this.sessionDao == sessionDao
    {
      this.subjectDao := subjectDao;
      this.taskDao := taskDao;
      this.sessionDao := sessionDao;
    }

    /** `upsertSubject`: exactly the table's upsert. */
    method UpsertSubject(subject: Subject)
      requires Valid()
      modifies subjectDao
      ensures Valid()
      ensures subjectDao.rows == SubjectDao.Upserted(old(subjectDao.rows), old(subjectDao.nextId), subject)
      ensures subjectDao.nextId == SubjectDao.NextIdAfter(old(subjectDao.nextId), subject)
    {
      subjectDao.UpsertSubject(subject);
    }

    /** `getSubjectById`: exactly the table's lookup. */
    function GetSubjectById(subjectId: int): (r: Option<Subject>)
      reads this, subjectDao
      ensures r == subjectDao.GetSubjectById(subjectId)
    {
      subjectDao.GetSubjectById(subjectId)
    }

    /**
     * `deleteSubject`: the subject, its tasks and its sessions go; the rows of
     * every other subject stay.
     */
    method DeleteSubject(subjectId: int)
      requires Valid()
      modifies subjectDao, taskDao, sessionDao
      ensures Valid()
      ensures subjectDao.rows == SubjectDao.WithoutSubject(old(subjectDao.rows), subjectId)
      ensures taskDao.rows == TaskDao.WithoutSubject(old(taskDao.rows), subjectId)
      ensures sessionDao.rows == SessionDao.WithoutSubject(old(sessionDao.rows), subjectId)
      ensures subjectDao.nextId == old(subjectDao.nextId) && taskDao.nextId == old(taskDao.nextId)
      ensures forall s :: s in subjectDao.rows <==> s in old(subjectDao.rows) && s.subjectId != Some(subjectId)
      ensures forall t :: t in taskDao.rows <==> t in old(taskDao.rows) && t.taskSubjectId != subjectId
      ensures forall e :: e in sessionDao.rows <==> e in old(sessionDao.rows) && e.sessionSubjectId != subjectId
      ensures NoOrphans(old(subjectDao.rows), old(taskDao.rows), old(sessionDao.rows)) ==>
        NoOrphans(subjectDao.rows, taskDao.rows, sessionDao.rows)
    {
      if NoOrphans(subjectDao.rows, taskDao.rows, sessionDao.rows) {
        CascadeKeepsNoOrphans(subjectDao.rows, taskDao.rows, sessionDao.rows, subjectId);
      }
      subjectDao.DeleteSubject(subjectId);
      taskDao.DeleteTasksBySubjectId(subjectId);
      sessionDao.DeleteSessionsBySubjectId(subjectId);
    }
  }
}
