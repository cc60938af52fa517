/**
 * Pieces the three view-models share: the task a completion toggle stores,
 * the subject a subject form stores, and the snackbar a caught exception
 * becomes.
 */
module ViewModelSupport {
  import opened Wrappers
  import opened KotlinText
  import opened Common
  import opened Domain

  /** `task.copy(isComplete = !task.isComplete)` */
  function Toggled(task: Task): (r: Task)
    ensures r.isComplete != task.isComplete
    ensures r.(isComplete := task.isComplete) == task
  {
    task.(isComplete := !task.isComplete)
  }

  lemma ToggledTwice(task: Task)
    ensures Toggled(Toggled(task)) == task
  {
  }

  /**
   * The subject a subject form stores: the goal is the text's `toFloatOrNull()`,
   * 1 hour when it does not parse.
   */
  function SubjectFromForm(name: string, parsedGoal: Option<KFloat>, colors: seq<Int32>, subjectId: Option<int>): (s: Subject)
    ensures parsedGoal.Some? ==> s.goalHours == parsedGoal.value
    ensures parsedGoal.None? ==> s.goalHours == Finite(1.0)
    ensures s.name == name && s.colors == colors && s.subjectId == subjectId
  {
    Subject(name, parsedGoal.GetOr(Finite(1.0)), colors, subjectId)
  }

  /** The snackbar a caught exception becomes, with the duration the catch block gives. */
  function FaultEvent(f: Fault, context: string, duration: SnackbarDuration): (e: SnackBarEvent)
    ensures e.ShowSnackBar? && e.duration == duration
    ensures f.message.Some? ==> e.message == f.message.value
    ensures f.message.None? ==> |e.message| > |context| && e.message[..|context|] == context
  {
    ShowSnackBar(FaultText(f, context), duration)
  }

  const SessionDeleted := "Session Deleted Successfully."

  /**
   * The snackbars `deleteSession` emits, in both the subject and the dashboard
   * view-model: none without a selected session, one otherwise.
   */
  function DeleteSessionEvents(session: Option<Session>, fault: Option<Fault>): (r: seq<SnackBarEvent>)
    ensures session.None? <==> r == []
    ensures session.Some? ==> |r| == 1 && r[0].ShowSnackBar?
    ensures session.Some? ==> (r == [Show(SessionDeleted)] <==> fault.None?)
    ensures session.Some? && fault.Some? ==> r == [ShowSnackBar(FaultText(fault.value, "Couldn't delete session. "), Long)]
  {
    if session.None? then []
    else if fault.Some? then [FaultEvent(fault.value, "Couldn't delete session. ", Long)]
    else [Show(SessionDeleted)]
  }
}
