/**
 * presentation/task/TaskViewModel.kt: the task form's state, the events that
 * edit it, and the save, delete and fetch commands. Each launched coroutine is
 * one method; `events` is what the snackbar flow has emitted so far.
 */
module TaskViewModel {
  import opened Wrappers
  import opened Common
  import opened Domain
  import opened ViewModelSupport
  import TaskDao
  import SubjectDao
  import TaskRepository
  import SubjectRepository

  /** TaskState without `subjects`, which the screen's flow fills in. */
  datatype TaskState = TaskState(
    title: string,
    description: string,
    dueDate: Option<int>,
    isTaskComplete: bool,
    priority: Priority,
    relatedSubject: Option<string>,
    subjectId: Option<int>,
    currentTaskId: Option<int>)

  /** `TaskState()` */
  const InitialState := TaskState("", "", None, false, LOW, None, None, None)

  datatype TaskEvent =
    | OnTitleChange(title: string)
    | OnDescriptionChange(description: string)
    | OnDueDateChange(dueDate: Option<int>)
    | OnPriorityChange(priority: Priority)
    | OnRelatedSubjectSelect(subject: Subject)
    | OnIsCompleteChange
    | SaveTask
    | DeleteTask
  {
    /** The events `onEvent` handles by a `copy` of the state. */
    predicate IsFieldEvent() {
      !SaveTask? && !DeleteTask?
    }
  }

  /**
   * The state after a field event: each event writes its own field (a subject
   * selection writes the subject's name and id) and leaves every other field
   * as it was; the completion event flips its flag.
   */
  function Reduce(s: TaskState, e: TaskEvent): (r: TaskState)
    requires e.IsFieldEvent()
    ensures e.OnTitleChange? ==> r.title == e.title && r.(title := s.title) == s
    ensures e.OnDescriptionChange? ==> r.description == e.description && r.(description := s.description) == s
    ensures e.OnDueDateChange? ==> r.dueDate == e.dueDate && r.(dueDate := s.dueDate) == s
    ensures e.OnPriorityChange? ==> r.priority == e.priority && r.(priority := s.priority) == s
    ensures e.OnIsCompleteChange? ==> r.isTaskComplete != s.isTaskComplete && r.(isTaskComplete := s.isTaskComplete) == s
    ensures e.OnRelatedSubjectSelect? ==>
      && r.relatedSubject == Some(e.subject.name) && r.subjectId == e.subject.subjectId
      && r.(relatedSubject := s.relatedSubject, subjectId := s.subjectId) == s
  {
    match e
    case OnTitleChange(title) => s.(title := title)
    case OnDescriptionChange(description) => s.(description := description)
    case OnDueDateChange(dueDate) => s.(dueDate := dueDate)
    case OnPriorityChange(priority) => s.(priority := priority)
    case OnRelatedSubjectSelect(subject) => s.(relatedSubject := Some(subject.name), subjectId := subject.subjectId)
    case OnIsCompleteChange => s.(isTaskComplete := !s.isTaskComplete)
  }

  /** Flipping completion twice restores the state. */
  lemma ToggleTwiceRestores(s: TaskState)
    ensures Reduce(Reduce(s, OnIsCompleteChange), OnIsCompleteChange) == s
  {
  }

  /** Edits of two different fields can be applied in either order. */
  lemma FieldEditsCommute(s: TaskState, title: string, description: string, dueDate: Option<int>, priority: Priority)
    ensures Reduce(Reduce(s, OnTitleChange(title)), OnDescriptionChange(description))
         == Reduce(Reduce(s, OnDescriptionChange(description)), OnTitleChange(title))
    ensures Reduce(Reduce(s, OnDueDateChange(dueDate)), OnPriorityChange(priority))
         == Reduce(Reduce(s, OnPriorityChange(priority)), OnDueDateChange(dueDate))
  {
  }

  const SelectSubject := "Please select subject related to the task"
  const TaskSaved := "Task Saved Successfully"
  const TaskDeleted := "Task Deleted Successfully"
  const NoTaskToDelete := "No Task to delete"

  /** `saveTask`'s guard: a subject has been chosen. */
  predicate CanSave(s: TaskState) {
    s.subjectId.Some? && s.relatedSubject.Some?
  }

  /**
   * The task `saveTask` stores: the form's fields, the priority's stored
   * value, and `now` as the due date when none was picked.
   */
  function BuildTask(s: TaskState, now: int): (t: Task)
    requires CanSave(s)
    ensures t.taskId == s.currentTaskId && t.taskSubjectId == s.subjectId.value
    ensures t.dueDate == (if s.dueDate.Some? then s.dueDate.value else now)
    ensures t.priority == s.priority.Value() && FromInt(t.priority) == s.priority
    ensures t.title == s.title && t.description == s.description
    ensures t.relatedToSubject == s.relatedSubject.value && t.isComplete == s.isTaskComplete
  {
    FromIntValue(s.priority);
    Task(s.title, s.description, s.dueDate.GetOr(now), s.priority.Value(),
         s.relatedSubject.value, s.isTaskComplete, s.subjectId.value, s.currentTaskId)
  }

  /** The snackbar events of `saveTask`. */
  function SaveTaskEvents(s: TaskState, fault: Option<Fault>): (r: seq<SnackBarEvent>)
    ensures 1 <= |r| <= 2 && r[0].ShowSnackBar?
    ensures NavigateUp in r <==> CanSave(s) && fault.None?
    ensures NavigateUp in r ==> r == [Show(TaskSaved), NavigateUp]
    ensures !CanSave(s) ==> r == [Show(SelectSubject)]
    ensures CanSave(s) && fault.Some? ==> r == [ShowSnackBar(FaultText(fault.value, "Couldn't save task. "), Short)]
  {
    if !CanSave(s) then [Show(SelectSubject)]
    else if fault.Some? then [FaultEvent(fault.value, "Couldn't save task. ", Short)]
    else [Show(TaskSaved), NavigateUp]
  }

  /** The snackbar events of `deleteTask`. */
  function DeleteTaskEvents(s: TaskState, fault: Option<Fault>): (r: seq<SnackBarEvent>)
    ensures 1 <= |r| <= 2 && r[0].ShowSnackBar?
    ensures NavigateUp in r <==> s.currentTaskId.Some? && fault.None?
    ensures NavigateUp in r ==> r == [Show(TaskDeleted), NavigateUp]
    ensures s.currentTaskId.None? ==> r == [Show(NoTaskToDelete)]
    ensures s.currentTaskId.Some? && fault.Some? ==> r == [ShowSnackBar(FaultText(fault.value, "Couldn't delete task. "), Long)]
  {
    if s.currentTaskId.None? then [Show(NoTaskToDelete)]
    else if fault.Some? then [FaultEvent(fault.value, "Couldn't delete task. ", Long)]
    else [Show(TaskDeleted), NavigateUp]
  }

  /** The state after `fetchTask` found `task`. */
  function CopyTask(s: TaskState, task: Task): TaskState {
    s.(title := task.title, description := task.description, dueDate := Some(task.dueDate),
       isTaskComplete := task.isComplete, priority := FromInt(task.priority),
       relatedSubject := Some(task.relatedToSubject), subjectId := Some(task.taskSubjectId),
       currentTaskId := task.taskId)
  }

  /**
   * Saving a form whose due date and subject are set and fetching the stored
   * task back gives the same form.
   */
  lemma SaveThenFetchRestoresState(s: TaskState, now: int)
    requires CanSave(s) && s.dueDate.Some?
    ensures CopyTask(s, BuildTask(s, now)) == s
  {
  }

  /**
   * Fetching a task and saving it unchanged stores the same task, provided
   * its priority is one of the three stored values.
   */
  lemma FetchThenSaveRestoresTask(s: TaskState, task: Task, now: int)
    requires 0 <= task.priority <= 2
    ensures CanSave(CopyTask(s, task))
    ensures BuildTask(CopyTask(s, task), now) == task
  {
  }

  /** Any other stored priority is saved back as MEDIUM's value. */
  lemma FetchThenSaveNormalisesPriority(s: TaskState, task: Task, now: int)
    requires !(0 <= task.priority <= 2)
    ensures BuildTask(CopyTask(s, task), now) == task.(priority := MEDIUM.Value())
  {
  }

  class TaskViewModel {
    var state: TaskState
    /** The events emitted on the snackbar flow, oldest first. */
    var events: seq<SnackBarEvent>
    const taskRepository: TaskRepository.TaskRepositoryImpl
    const subjectRepository: SubjectRepository.SubjectRepositoryImpl

    ghost predicate Valid()
      reads this, taskRepository, taskRepository.taskDao
    {
      taskRepository.Valid()
    }

    /** A fresh view-model: the default state, nothing emitted. */
    constructor (taskRepository: TaskRepository.TaskRepositoryImpl, subjectRepository: SubjectRepository.SubjectRepositoryImpl)
      requires taskRepository.Valid()
      ensures Valid()
      ensures state == InitialState && events == []
      ensures this.taskRepository == taskRepository && this.subjectRepository == subjectRepository
    {
      this.taskRepository := taskRepository;
      this.subjectRepository := subjectRepository;
      state := InitialState;
      events := [];
    }

    /**
     * `saveTask`: with no subject chosen, only the reminder; otherwise the
     * built task is upserted and "saved" and NavigateUp follow, or, when the
     * repository throws, the table stays and only the error is shown.
     */
    method SaveTask(now: int, fault: Option<Fault>)
      requires Valid()
      modifies this, taskRepository.taskDao
      ensures Valid() && state == old(state)
      ensures events == old(events) + SaveTaskEvents(old(state), fault)
      ensures CanSave(old(state)) && fault.None? ==>
        && taskRepository.taskDao.rows ==
             TaskDao.Upserted(old(taskRepository.taskDao.rows), old(taskRepository.taskDao.nextId), BuildTask(old(state), now))
        && taskRepository.taskDao.nextId == TaskDao.NextIdAfter(old(taskRepository.taskDao.nextId), BuildTask(old(state), now))
        && var stored := TaskDao.WithGeneratedId(BuildTask(old(state), now), old(taskRepository.taskDao.nextId));
           taskRepository.GetTaskById(stored.taskId.value) == Some(stored)
      ensures !(CanSave(old(state)) && fault.None?) ==> unchanged(taskRepository.taskDao)
    {
      if !CanSave(state) || fault.Some? {
        events := events + SaveTaskEvents(state, fault);
        return;
      }
      var task := BuildTask(state, now);
      TaskDao.UpsertThenGetTaskById(taskRepository.taskDao.rows, taskRepository.taskDao.nextId, task);
      taskRepository.UpsertTask(task);
      events := events + SaveTaskEvents(state, fault);
    }

    /**
     * `deleteTask`: with no current task, only "No Task to delete"; otherwise
     * its row is deleted and "deleted" and NavigateUp follow, or, when the
     * repository throws, the table stays and only the error is shown.
     */
    method DeleteTask(fault: Option<Fault>)
      requires Valid()
      modifies this, taskRepository.taskDao
      ensures Valid() && state == old(state)
      ensures events == old(events) + DeleteTaskEvents(old(state), fault)
      ensures old(state).currentTaskId.Some? && fault.None? ==>
        && taskRepository.taskDao.rows == TaskDao.WithoutTask(old(taskRepository.taskDao.rows), old(state).currentTaskId.value)
        && taskRepository.GetTaskById(old(state).currentTaskId.value) == None
        && taskRepository.taskDao.nextId == old(taskRepository.taskDao.nextId)
      ensures !(old(state).currentTaskId.Some? && fault.None?) ==> unchanged(taskRepository.taskDao)
    {
      if state.currentTaskId.None? || fault.Some? {
        events := events + DeleteTaskEvents(state, fault);
        return;
      }
      taskRepository.DeleteTask(state.currentTaskId.value);
      events := events + DeleteTaskEvents(state, fault);
    }

    /**
     * `fetchTask`: when the screen was opened for a task id and the table has
     * that task, its fields are copied into the form; otherwise nothing changes.
     */
    method FetchTask(navTaskId: Option<int>)
      requires Valid()
      modifies this
      ensures Valid() && events == old(events)
      ensures navTaskId.Some? && taskRepository.GetTaskById(navTaskId.value).Some? ==>
        state == CopyTask(old(state), taskRepository.GetTaskById(navTaskId.value).value)
      ensures !(navTaskId.Some? && taskRepository.GetTaskById(navTaskId.value).Some?) ==> state == old(state)
    {
      if navTaskId.Some? {
        var task := taskRepository.GetTaskById(navTaskId.value);
        if task.Some? {
          state := CopyTask(state, task.value);
        }
      }
    }

    /**
     * `fetchSubject`: when the screen was opened for a subject id and the
     * table has that subject, the form takes it as if it had been selected.
     */
    method FetchSubject(navSubjectId: Option<int>)
      requires Valid()
      modifies this
      ensures Valid() && events == old(events)
      ensures navSubjectId.Some? && subjectRepository.GetSubjectById(navSubjectId.value).Some? ==>
        state == Reduce(old(state), OnRelatedSubjectSelect(subjectRepository.GetSubjectById(navSubjectId.value).value))
      ensures !(navSubjectId.Some? && subjectRepository.GetSubjectById(navSubjectId.value).Some?) ==> state == old(state)
    {
      if navSubjectId.Some? {
        var subject := subjectRepository.GetSubjectById(navSubjectId.value);
        if subject.Some? {
          state := state.(relatedSubject := Some(subject.value.name), subjectId := subject.value.subjectId);
        }
      }
    }

    /** `onEvent`: field events update the state; the two commands run. */
    method OnEvent(e: TaskEvent, now: int, fault: Option<Fault>)
      requires Valid()
      modifies this, taskRepository.taskDao
      ensures Valid()
      ensures e.IsFieldEvent() ==>
        state == Reduce(old(state), e) && events == old(events) && unchanged(taskRepository.taskDao)
      ensures e.SaveTask? ==> state == old(state) && events == old(events) + SaveTaskEvents(old(state), fault)
      ensures e.DeleteTask? ==> state == old(state) && events == old(events) + DeleteTaskEvents(old(state), fault)
    {
      match e
      case SaveTask => SaveTask(now, fault);
      case DeleteTask => DeleteTask(fault);
      case _ => state := Reduce(state, e);
    }
  }
}
