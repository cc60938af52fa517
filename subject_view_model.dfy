/**
 * presentation/subject/SubjectViewModel.kt: the subject screen's editable
 * fields, the events that edit them, and the commands that update or delete
 * the subject, toggle a task and delete a session. Each launched coroutine is
 * one method; `events` is what the snackbar flow has emitted so far.
 */
module SubjectViewModel {
  import opened Wrappers
  import opened KotlinText
  import opened Common
  import opened Domain
  import opened ViewModelSupport
  import TaskDao
  import SubjectDao
  import SessionDao
  import TaskRepository
  import SubjectRepository

  /**
   * The fields of SubjectState the view-model writes. SubjectState.kt is not
   * part of this model; colours are ARGB values.
   */
  datatype SubjectState = SubjectState(
    subjectName: string,
    goalStudyHours: string,
    subjectCardColors: seq<Int32>,
    session: Option<Session>,
    currentSubjectId: Option<int>)

  datatype SubjectEvent =
    | UpdateSubject
    | DeleteSubject
    | DeleteSession
    | UpdateProgress
    | OnTaskIsCompleteChange(task: Task)
    | OnSubjectCardColorChange(colors: seq<Int32>)
    | OnSubjectNameChange(name: string)
    | OnGoalStudyHoursChange(hours: string)
    | OnDeleteSessionButtonClick(session: Session)
  {
    /** The events `onEvent` handles by a `copy` of the state. */
    predicate IsFieldEvent() {
      OnSubjectCardColorChange? || OnSubjectNameChange? || OnGoalStudyHoursChange? || OnDeleteSessionButtonClick?
    }
  }

  /** The state after a field event: its own field is replaced, every other field kept. */
  function Reduce(s: SubjectState, e: SubjectEvent): (r: SubjectState)
    requires e.IsFieldEvent()
    ensures e.OnGoalStudyHoursChange? ==> r.goalStudyHours == e.hours && r.(goalStudyHours := s.goalStudyHours) == s
    ensures e.OnSubjectCardColorChange? ==> r.subjectCardColors == e.colors && r.(subjectCardColors := s.subjectCardColors) == s
    ensures e.OnSubjectNameChange? ==> r.subjectName == e.name && r.(subjectName := s.subjectName) == s
    ensures e.OnDeleteSessionButtonClick? ==> r.session == Some(e.session) && r.(session := s.session) == s
  {
    match e
    case OnGoalStudyHoursChange(hours) => s.(goalStudyHours := hours)
    case OnSubjectCardColorChange(colors) => s.(subjectCardColors := colors)
    case OnSubjectNameChange(name) => s.(subjectName := name)
    case OnDeleteSessionButtonClick(session) => s.(session := Some(session))
  }

  /** A field event applied twice has the effect of applying it once. */
  lemma FieldEventIdempotent(s: SubjectState, e: SubjectEvent)
    requires e.IsFieldEvent()
    ensures Reduce(Reduce(s, e), e) == Reduce(s, e)
  {
  }

  const SavedInUpcoming := "Saved in Upcoming Tasks"
  const SavedInCompleted := "Saved in Completed Tasks"
  const SubjectDeleted := "Subject Deleted Successfully"
  const NoSubjectToDelete := "No Subjects to delete"
  const SubjectUpdated := "Subject Updated Successfully"

  /**
   * The snackbar of `updateTask`: the list the task moves to, chosen by the
   * completion flag it had before the toggle.
   */
  function UpdateTaskEvents(task: Task, fault: Option<Fault>): (r: seq<SnackBarEvent>)
    ensures |r| == 1 && r[0].ShowSnackBar?
    ensures fault.Some? ==> r == [ShowSnackBar(FaultText(fault.value, "Couldn't update task. "), Long)]
  {
    if fault.Some? then [FaultEvent(fault.value, "Couldn't update task. ", Long)]
    else if task.isComplete then [Show(SavedInUpcoming)]
    else [Show(SavedInCompleted)]
  }

  /**
   * The message names the list the toggled task ends up in: after the upsert
   * it is among the subject's upcoming tasks exactly when the message says
   * "Upcoming", and among its completed tasks exactly when it says "Completed".
   */
  lemma UpdateTaskMessageNamesList(rows: seq<Task>, nextId: int, task: Task)
    requires task.taskId.Some?
    ensures var after := TaskDao.ForSubject(TaskDao.Upserted(rows, nextId, Toggled(task)), task.taskSubjectId);
      && (UpdateTaskEvents(task, None) == [Show(SavedInUpcoming)] <==> Toggled(task) in TaskRepository.UpcomingOf(after))
      && (UpdateTaskEvents(task, None) == [Show(SavedInCompleted)] <==> Toggled(task) in TaskRepository.CompletedOf(after))
  {
    assert Toggled(task) in TaskDao.Upserted(rows, nextId, Toggled(task));
  }

  /** The snackbar events of `deleteSubject`. */
  function DeleteSubjectEvents(s: SubjectState, fault: Option<Fault>): (r: seq<SnackBarEvent>)
    ensures 1 <= |r| <= 2 && r[0].ShowSnackBar?
    ensures NavigateUp in r <==> s.currentSubjectId.Some? && fault.None?
    ensures NavigateUp in r ==> r == [Show(SubjectDeleted), NavigateUp]
    ensures s.currentSubjectId.None? ==> r == [Show(NoSubjectToDelete)]
    ensures s.currentSubjectId.Some? && fault.Some? ==> r == [ShowSnackBar(FaultText(fault.value, "Couldn't delete subject. "), Long)]
  {
    if s.currentSubjectId.None? then [Show(NoSubjectToDelete)]
    else if fault.Some? then [FaultEvent(fault.value, "Couldn't delete subject. ", Long)]
    else [Show(SubjectDeleted), NavigateUp]
  }

  /** The snackbar of `updateSubject`. */
  function UpdateSubjectEvents(fault: Option<Fault>): (r: seq<SnackBarEvent>)
    ensures |r| == 1 && r[0].ShowSnackBar?
    ensures r == [Show(SubjectUpdated)] <==> fault.None?
    ensures fault.Some? ==> r == [ShowSnackBar(FaultText(fault.value, "Couldn't update subject. "), Long)]
  {
    if fault.Some? then [FaultEvent(fault.value, "Couldn't update subject. ", Long)]
    else [Show(SubjectUpdated)]
  }

  /** The subject `updateSubject` stores: the edited fields under the current id. */
  function FormSubject(s: SubjectState, parsedGoal: Option<KFloat>): Subject {
    SubjectFromForm(s.subjectName, parsedGoal, s.subjectCardColors, s.currentSubjectId)
  }

  /** The state after `fetchSubject` found `subject`, its goal written as `goalText`. */
  function CopySubject(s: SubjectState, subject: Subject, goalText: string): SubjectState {
    s.(subjectName := subject.name, goalStudyHours := goalText,
       subjectCardColors := subject.colors, currentSubjectId := subject.subjectId)
  }

  /**
   * Fetching a subject and updating it without edits stores the same subject,
   * provided the goal's text parses back to the goal.
   */
  lemma FetchThenUpdateRestoresSubject(s: SubjectState, subject: Subject, goalText: string)
    ensures FormSubject(CopySubject(s, subject, goalText), Some(subject.goalHours)) == subject
  {
  }

  class SubjectViewModel {
    var state: SubjectState
    /** The events emitted on the snackbar flow, oldest first. */
    var events: seq<SnackBarEvent>
    const subjectRepository: SubjectRepository.SubjectRepositoryImpl
    const taskRepository: TaskRepository.TaskRepositoryImpl
    /** SessionRepository is taken to act on the SESSION table directly. */
    const sessionRepository: SessionDao.SessionTable

    /** The repositories share the app's single tables. */
    ghost predicate Valid()
      reads this, subjectRepository, taskRepository
      reads subjectRepository.subjectDao, subjectRepository.taskDao, subjectRepository.sessionDao
    {
      && subjectRepository.Valid()
      && taskRepository.taskDao == subjectRepository.taskDao
      && sessionRepository == subjectRepository.sessionDao
    }

    constructor (initial: SubjectState, subjectRepository: SubjectRepository.SubjectRepositoryImpl,
                 taskRepository: TaskRepository.TaskRepositoryImpl)
      requires subjectRepository.Valid() && taskRepository.taskDao == subjectRepository.taskDao
      ensures Valid()
      ensures state == initial && events == []
      ensures this.subjectRepository == subjectRepository && this.taskRepository == taskRepository
    {
      this.subjectRepository := subjectRepository;
      this.taskRepository := taskRepository;
      this.sessionRepository := subjectRepository.sessionDao;
      state := initial;
      events := [];
    }

    /**
     * `updateTask`: the task is stored with its completion flipped and the
     * snackbar names the list it moves to; when the repository throws, the
     * table stays and only the error is shown.
     */
    method UpdateTask(task: Task, fault: Option<Fault>)
      requires Valid()
      modifies this, subjectRepository.taskDao
      ensures Valid() && state == old(state)
      ensures events == old(events) + UpdateTaskEvents(task, fault)
      ensures fault.None? ==>
        taskRepository.taskDao.rows ==
          TaskDao.Upserted(old(taskRepository.taskDao.rows), old(taskRepository.taskDao.nextId), Toggled(task))
      ensures fault.None? ==>
        taskRepository.taskDao.nextId == TaskDao.NextIdAfter(old(taskRepository.taskDao.nextId), Toggled(task))
      ensures fault.None? && task.taskId.Some? ==>
        taskRepository.GetTaskById(task.taskId.value) == Some(Toggled(task))
      ensures fault.Some? ==> unchanged(subjectRepository.taskDao)
    {
      if fault.None? {
        TaskDao.UpsertThenGetTaskById(taskRepository.taskDao.rows, taskRepository.taskDao.nextId, Toggled(task));
        taskRepository.UpsertTask(Toggled(task));
      }
      events := events + UpdateTaskEvents(task, fault);
    }

    /**
     * `deleteSubject`: with no current subject, only "No Subjects to delete";
     * otherwise the subject, its tasks and its sessions are deleted and
     * "deleted" and NavigateUp follow, or, when the repository throws, the
     * tables stay and only the error is shown.
     */
    method DeleteSubject(fault: Option<Fault>)
      requires Valid()
      modifies this, subjectRepository.subjectDao, subjectRepository.taskDao, subjectRepository.sessionDao
      ensures Valid() && state == old(state)
      ensures events == old(events) + DeleteSubjectEvents(old(state), fault)
      ensures old(state).currentSubjectId.Some? && fault.None? ==>
        var id := old(state).currentSubjectId.value;
        && subjectRepository.GetSubjectById(id) == None
        && subjectRepository.subjectDao.rows == SubjectDao.WithoutSubject(old(subjectRepository.subjectDao.rows), id)
        && subjectRepository.taskDao.rows == TaskDao.WithoutSubject(old(subjectRepository.taskDao.rows), id)
        && subjectRepository.sessionDao.rows == SessionDao.WithoutSubject(old(subjectRepository.sessionDao.rows), id)
        && subjectRepository.subjectDao.nextId == old(subjectRepository.subjectDao.nextId)
        && subjectRepository.taskDao.nextId == old(subjectRepository.taskDao.nextId)
      ensures !(old(state).currentSubjectId.Some? && fault.None?) ==>
        unchanged(subjectRepository.subjectDao, subjectRepository.taskDao, subjectRepository.sessionDao)
    {
      if state.currentSubjectId.Some? && fault.None? {
        subjectRepository.DeleteSubject(state.currentSubjectId.value);
      }
      events := events + DeleteSubjectEvents(state, fault);
    }

    /**
     * `updateSubject`: the edited subject is upserted under the current id, so
     * it replaces the stored subject; before a subject has been fetched there
     * is no id and a new subject is added.
     */
    method UpdateSubject(parsedGoal: Option<KFloat>, fault: Option<Fault>)
      requires Valid()
      modifies this, subjectRepository.subjectDao
      ensures Valid() && state == old(state)
      ensures events == old(events) + UpdateSubjectEvents(fault)
      ensures fault.None? ==>
        subjectRepository.subjectDao.rows ==
          SubjectDao.Upserted(old(subjectRepository.subjectDao.rows), old(subjectRepository.subjectDao.nextId), FormSubject(old(state), parsedGoal))
      ensures fault.None? ==>
        subjectRepository.subjectDao.nextId ==
          SubjectDao.NextIdAfter(old(subjectRepository.subjectDao.nextId), FormSubject(old(state), parsedGoal))
      ensures fault.None? && old(state).currentSubjectId.Some? ==>
        subjectRepository.GetSubjectById(old(state).currentSubjectId.value) == Some(FormSubject(old(state), parsedGoal))
      ensures fault.None? && old(state).currentSubjectId.None? ==>
        subjectRepository.subjectDao.rows ==
          old(subjectRepository.subjectDao.rows) + [FormSubject(old(state), parsedGoal).(subjectId := Some(old(subjectRepository.subjectDao.nextId)))]
      ensures fault.Some? ==> unchanged(subjectRepository.subjectDao)
    {
      if fault.None? {
        var subject := FormSubject(state, parsedGoal);
        SubjectDao.UpsertThenGetSubjectById(subjectRepository.subjectDao.rows, subjectRepository.subjectDao.nextId, subject);
        if subject.subjectId.None? {
          SubjectDao.UpsertWithoutIdAppends(subjectRepository.subjectDao.rows, subjectRepository.subjectDao.nextId, subject);
        }
        subjectRepository.UpsertSubject(subject);
      }
      events := events + UpdateSubjectEvents(fault);
    }

    /**
     * `fetchSubject`: when the table has the screen's subject, its name,
     * goal (as `formatGoal` writes it), colours and id are copied into the
     * state; otherwise nothing changes.
     */
    method FetchSubject(navSubjectId: int, formatGoal: KFloat -> string)
      requires Valid()
      modifies this
      ensures Valid() && events == old(events)
      ensures subjectRepository.GetSubjectById(navSubjectId).Some? ==>
        var subject := subjectRepository.GetSubjectById(navSubjectId).value;
        state == CopySubject(old(state), subject, formatGoal(subject.goalHours))
      ensures subjectRepository.GetSubjectById(navSubjectId).None? ==> state == old(state)
    {
      var subject := subjectRepository.GetSubjectById(navSubjectId);
      if subject.Some? {
        state := CopySubject(state, subject.value, formatGoal(subject.value.goalHours));
      }
    }

    /**
     * `deleteSession`: nothing at all without a selected session; otherwise
     * the session's row is deleted and a snackbar follows, or, when the
     * repository throws, the table stays and only the error is shown.
     */
    method DeleteSession(fault: Option<Fault>)
      requires Valid()
      modifies this, subjectRepository.sessionDao
      ensures Valid() && state == old(state)
      ensures events == old(events) + DeleteSessionEvents(old(state).session, fault)
      ensures old(state).session.Some? && fault.None? ==>
        sessionRepository.rows == SessionDao.WithoutSession(old(sessionRepository.rows), old(state).session.value)
      ensures !(old(state).session.Some? && fault.None?) ==> unchanged(subjectRepository.sessionDao)
    {
      if state.session.Some? && fault.None? {
        sessionRepository.DeleteSession(state.session.value);
      }
      events := events + DeleteSessionEvents(state.session, fault);
    }

    /**
     * `onEvent`: field events update the state, the commands run, and
     * UpdateProgress writes only the progress, which this model leaves out.
     */
    method OnEvent(e: SubjectEvent, parsedGoal: Option<KFloat>, fault: Option<Fault>)
      requires Valid()
      modifies this, subjectRepository.subjectDao, subjectRepository.taskDao, subjectRepository.sessionDao
      ensures Valid()
      ensures e.IsFieldEvent() || e.UpdateProgress? ==>
        && state == (if e.UpdateProgress? then old(state) else Reduce(old(state), e))
        && events == old(events)
        && unchanged(subjectRepository.subjectDao, subjectRepository.taskDao, subjectRepository.sessionDao)
      ensures e.OnTaskIsCompleteChange? ==> state == old(state) && events == old(events) + UpdateTaskEvents(e.task, fault)
      ensures e.DeleteSubject? ==> state == old(state) && events == old(events) + DeleteSubjectEvents(old(state), fault)
      ensures e.UpdateSubject? ==> state == old(state) && events == old(events) + UpdateSubjectEvents(fault)
      ensures e.DeleteSession? ==> state == old(state) && events == old(events) + DeleteSessionEvents(old(state).session, fault)
    {
      match e
      case UpdateSubject => UpdateSubject(parsedGoal, fault);
      case DeleteSession => DeleteSession(fault);
      case DeleteSubject => DeleteSubject(fault);
      case OnTaskIsCompleteChange(task) => UpdateTask(task, fault);
      case UpdateProgress =>
      case _ => state := Reduce(state, e);
    }
  }
}
