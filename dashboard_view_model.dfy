/**
 * presentation/dashboard/DashboardViewModel.kt: the add-subject form on the
 * dashboard, the events that edit it, and the commands that save a subject,
 * toggle an upcoming task and delete a session. Each launched coroutine is one
 * method; `events` is what the snackbar flow has emitted so far.
 */
module DashboardViewModel {
  import opened Wrappers
  import opened KotlinText
  import opened Common
  import opened Domain
  import opened ViewModelSupport
  import TaskDao
  import SubjectDao
  import SessionDao
  import TaskRepository
  import SubjectRepository

  /**
   * The fields of DashboardState the view-model writes; the counts, totals
   * and subject list are filled in by the screen's flow.
   */
  datatype DashboardState = DashboardState(
    subjectName: string,
    goalStudyHours: string,
    subjectCardColors: seq<Int32>,
    session: Option<Session>)

  /** `DashboardState()`, with the randomly chosen colours passed in. */
  function InitialState(colors: seq<Int32>): DashboardState {
    DashboardState("", "", colors, None)
  }

  datatype DashboardEvent =
    | DeleteSession
    | OnDeleteSessionButtonClick(session: Session)
    | OnGoalStudyHoursChange(hours: string)
    | OnSubjectCardColorChange(colors: seq<Int32>)
    | OnSubjectNameChange(name: string)
    | OnTaskIsCompleteChange(task: Task)
    | SaveSubject
  {
    /** The events `onEvent` handles by a `copy` of the state. */
    predicate IsFieldEvent() {
      OnDeleteSessionButtonClick? || OnGoalStudyHoursChange? || OnSubjectCardColorChange? || OnSubjectNameChange?
    }
  }

  /** The state after a field event: its own field is replaced, every other field kept. */
  function Reduce(s: DashboardState, e: DashboardEvent): (r: DashboardState)
    requires e.IsFieldEvent()
    ensures e.OnDeleteSessionButtonClick? ==> r.session == Some(e.session) && r.(session := s.session) == s
    ensures e.OnGoalStudyHoursChange? ==> r.goalStudyHours == e.hours && r.(goalStudyHours := s.goalStudyHours) == s
    ensures e.OnSubjectCardColorChange? ==> r.subjectCardColors == e.colors && r.(subjectCardColors := s.subjectCardColors) == s
    ensures e.OnSubjectNameChange? ==> r.subjectName == e.name && r.(subjectName := s.subjectName) == s
  {
    match e
    case OnDeleteSessionButtonClick(session) => s.(session := Some(session))
    case OnGoalStudyHoursChange(hours) => s.(goalStudyHours := hours)
    case OnSubjectCardColorChange(colors) => s.(subjectCardColors := colors)
    case OnSubjectNameChange(name) => s.(subjectName := name)
  }

  /** Editing the name and the goal can happen in either order. */
  lemma NameAndGoalEditsCommute(s: DashboardState, name: string, hours: string)
    ensures Reduce(Reduce(s, OnSubjectNameChange(name)), OnGoalStudyHoursChange(hours))
         == Reduce(Reduce(s, OnGoalStudyHoursChange(hours)), OnSubjectNameChange(name))
  {
  }

  const SavedInCompleted := "Saved in Completed Tasks"
  const SubjectSaved := "Subject Saved Successfully"

  /** The snackbar of the dashboard's `updateTask`: always "Completed". */
  function UpdateTaskEvents(fault: Option<Fault>): (r: seq<SnackBarEvent>)
    ensures |r| == 1 && r[0].ShowSnackBar?
    ensures r == [Show(SavedInCompleted)] <==> fault.None?
    ensures fault.Some? ==> r == [ShowSnackBar(FaultText(fault.value, "Couldn't update task. "), Long)]
  {
    if fault.Some? then [FaultEvent(fault.value, "Couldn't update task. ", Long)]
    else [Show(SavedInCompleted)]
  }

  /**
   * The dashboard lists upcoming tasks only, so the fixed message is right for
   * every task it offers: the toggled task lands among the completed tasks.
   */
  lemma UpdateTaskMessageRightForListedTasks(rows: seq<Task>, nextId: int, task: Task)
    requires task in TaskRepository.UpcomingOf(rows) && task.taskId.Some?
    ensures Toggled(task) in TaskRepository.CompletedOf(TaskDao.Upserted(rows, nextId, Toggled(task)))
    ensures UpdateTaskEvents(None) == [Show(SavedInCompleted)]
  {
    assert Toggled(task) in TaskDao.Upserted(rows, nextId, Toggled(task));
  }

  /** The snackbar of `saveSubject`. */
  function SaveSubjectEvents(fault: Option<Fault>): (r: seq<SnackBarEvent>)
    ensures |r| == 1 && r[0].ShowSnackBar?
    ensures r == [Show(SubjectSaved)] <==> fault.None?
    ensures fault.Some? ==> r == [ShowSnackBar(FaultText(fault.value, "Couldn't save subject. "), Long)]
  {
    if fault.Some? then [FaultEvent(fault.value, "Couldn't save subject. ", Long)]
    else [Show(SubjectSaved)]
  }

  /** The subject `saveSubject` stores: the form's fields and no id, so always a new row. */
  function FormSubject(s: DashboardState, parsedGoal: Option<KFloat>): (subject: Subject)
    ensures subject.subjectId.None?
  {
    SubjectFromForm(s.subjectName, parsedGoal, s.subjectCardColors, None)
  }

  /** The form after a successful save: cleared, with fresh colours. */
  function ClearedForm(s: DashboardState, freshColors: seq<Int32>): (r: DashboardState)
    ensures r.subjectName == "" && r.goalStudyHours == ""
    ensures r.session == s.session
  {
    s.(subjectName := "", goalStudyHours := "", subjectCardColors := freshColors)
  }

  class DashboardViewModel {
    var state: DashboardState
    /** The events emitted on the snackbar flow, oldest first. */
    var events: seq<SnackBarEvent>
    const subjectRepository: SubjectRepository.SubjectRepositoryImpl
    const taskRepository: TaskRepository.TaskRepositoryImpl
    /** SessionRepository is taken to act on the SESSION table directly. */
    const sessionRepository: SessionDao.SessionTable

    /** The repositories share the app's single tables. */
    ghost predicate Valid()
      reads this, subjectRepository, taskRepository
      reads subjectRepository.subjectDao, subjectRepository.taskDao, subjectRepository.sessionDao
    {
      && subjectRepository.Valid()
      && taskRepository.taskDao == subjectRepository.taskDao
      && sessionRepository == subjectRepository.sessionDao
    }

    constructor (initialColors: seq<Int32>, subjectRepository: SubjectRepository.SubjectRepositoryImpl,
                 taskRepository: TaskRepository.TaskRepositoryImpl)
      requires subjectRepository.Valid() && taskRepository.taskDao == subjectRepository.taskDao
      ensures Valid()
      ensures state == InitialState(initialColors) && events == []
      ensures this.subjectRepository == subjectRepository && this.taskRepository == taskRepository
    {
      this.subjectRepository := subjectRepository;
      this.taskRepository := taskRepository;
      this.sessionRepository := subjectRepository.sessionDao;
      state := InitialState(initialColors);
      events := [];
    }

    /**
     * `updateTask`: the task is stored with its completion flipped and
     * "Saved in Completed Tasks" is shown; when the repository throws, the
     * table stays and only the error is shown.
     */
    method UpdateTask(task: Task, fault: Option<Fault>)
      requires Valid()
      modifies this, subjectRepository.taskDao
      ensures Valid() && state == old(state)
      ensures events == old(events) + UpdateTaskEvents(fault)
      ensures fault.None? ==>
        taskRepository.taskDao.rows ==
          TaskDao.Upserted(old(taskRepository.taskDao.rows), old(taskRepository.taskDao.nextId), Toggled(task))
      ensures fault.None? ==>
        taskRepository.taskDao.nextId == TaskDao.NextIdAfter(old(taskRepository.taskDao.nextId), Toggled(task))
      ensures fault.None? && task.taskId.Some? ==>
        taskRepository.GetTaskById(task.taskId.value) == Some(Toggled(task))
      ensures fault.Some? ==> unchanged(subjectRepository.taskDao)
    {
      if fault.None? {
        TaskDao.UpsertThenGetTaskById(taskRepository.taskDao.rows, taskRepository.taskDao.nextId, Toggled(task));
        taskRepository.UpsertTask(Toggled(task));
      }
      events := events + UpdateTaskEvents(fault);
    }

    /**
     * `saveSubject`: the form's subject is added as a new last row, the form
     * is cleared and "saved" is shown; when the repository throws, the table
     * and the form stay and only the error is shown.
     */
    method SaveSubject(parsedGoal: Option<KFloat>, freshColors: seq<Int32>, fault: Option<Fault>)
      requires Valid()
      modifies this, subjectRepository.subjectDao
      ensures Valid()
      ensures events == old(events) + SaveSubjectEvents(fault)
      ensures fault.None? ==>
        && state == ClearedForm(old(state), freshColors)
        && subjectRepository.subjectDao.rows ==
             old(subjectRepository.subjectDao.rows) + [FormSubject(old(state), parsedGoal).(subjectId := Some(old(subjectRepository.subjectDao.nextId)))]
        && subjectRepository.subjectDao.nextId == old(subjectRepository.subjectDao.nextId) + 1
      ensures fault.Some? ==> state == old(state) && unchanged(subjectRepository.subjectDao)
    {
      if fault.None? {
        var subject := FormSubject(state, parsedGoal);
        SubjectDao.UpsertWithoutIdAppends(subjectRepository.subjectDao.rows, subjectRepository.subjectDao.nextId, subject);
        subjectRepository.UpsertSubject(subject);
        state := ClearedForm(state, freshColors);
      }
      events := events + SaveSubjectEvents(fault);
    }

    /**
     * `deleteSession`: nothing at all without a selected session; otherwise
     * the session's row is deleted and a snackbar follows, or, when the
     * repository throws, the table stays and only the error is shown.
     */
    method DeleteSession(fault: Option<Fault>)
      requires Valid()
      modifies this, subjectRepository.sessionDao
      ensures Valid() && state == old(state)
      ensures events == old(events) + DeleteSessionEvents(old(state).session, fault)
      ensures old(state).session.Some? && fault.None? ==>
        sessionRepository.rows == SessionDao.WithoutSession(old(sessionRepository.rows), old(state).session.value)
      ensures !(old(state).session.Some? && fault.None?) ==> unchanged(subjectRepository.sessionDao)
    {
      if state.session.Some? && fault.None? {
        sessionRepository.DeleteSession(state.session.value);
      }
      events := events + DeleteSessionEvents(state.session, fault);
    }

    /** `onEvent`: field events update the state; the commands run. */
    method OnEvent(e: DashboardEvent, parsedGoal: Option<KFloat>, freshColors: seq<Int32>, fault: Option<Fault>)
      requires Valid()
      modifies this, subjectRepository.subjectDao, subjectRepository.taskDao, subjectRepository.sessionDao
      ensures Valid()
      ensures e.IsFieldEvent() ==>
        && state == Reduce(old(state), e) && events == old(events)
        && unchanged(subjectRepository.subjectDao, subjectRepository.taskDao, subjectRepository.sessionDao)
      ensures e.OnTaskIsCompleteChange? ==> state == old(state) && events == old(events) + UpdateTaskEvents(fault)
      ensures e.SaveSubject? ==> events == old(events) + SaveSubjectEvents(fault)
      ensures e.DeleteSession? ==> state == old(state) && events == old(events) + DeleteSessionEvents(old(state).session, fault)
    {
      match e
      case DeleteSession => DeleteSession(fault);
      case OnTaskIsCompleteChange(task) => UpdateTask(task, fault);
      case SaveSubject => SaveSubject(parsedGoal, freshColors, fault);
      case _ => state := Reduce(state, e);
    }
  }
}
