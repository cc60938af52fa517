/**
 * presentation/components/AddSubjectDialog.kt, the part that is not layout:
 * the checks of the subject name and of the goal study hours, which decide the
 * text under each field, whether it is shown as an error and whether "Save"
 * is enabled. The goal text's `toFloatOrNull()` is passed in as `parsed`.
 */
module AddSubjectDialog {
  import opened Wrappers
  import opened KotlinText

  const BlankName := "Please enter subject name"
  const NameTooShort := "Subject name is too short"
  const NameTooLong := "Subject name is too long"
  const BlankGoal := "Please enter goal study hours"
  const InvalidNumber := "Invalid number"
  const GoalTooSmall := "Please set a minimum of 1 hour"
  const GoalTooLarge := "Please set a maximum of 1000 hours"

  /**
   * `subjectNameError`: null exactly for a name that is not blank and has 2
   * to 20 UTF-16 code units; blankness is checked first.
   */
  function SubjectNameError(name: string): (e: Option<string>)
    ensures e.None? <==> !IsBlank(name) && 2 <= Utf16Length(name) <= 20
    ensures IsBlank(name) ==> e == Some(BlankName)
    ensures !IsBlank(name) && Utf16Length(name) < 2 ==> e == Some(NameTooShort)
    ensures !IsBlank(name) && Utf16Length(name) > 20 ==> e == Some(NameTooLong)
  {
    if IsBlank(name) then Some(BlankName)
    else if Utf16Length(name) < 2 then Some(NameTooShort)
    else if Utf16Length(name) > 20 then Some(NameTooLong)
    else None
  }

  /**
   * `goalStudyHoursError` as written: the two range checks are IEEE
   * comparisons, both false for NaN, so a text that parses to NaN gets no
   * error at all.
   */
  function GoalHoursErrorAsWritten(text: string, parsed: Option<KFloat>): (e: Option<string>)
    ensures e.None? <==>
      && !IsBlank(text) && parsed.Some?
      && (parsed.value.NaN? || (parsed.value.Finite? && 1.0 <= parsed.value.value <= 1000.0))
    ensures IsBlank(text) ==> e == Some(BlankGoal)
    ensures !IsBlank(text) && parsed.None? ==> e == Some(InvalidNumber)
    ensures !IsBlank(text) && parsed.Some? && parsed.value.LessThan(1.0) ==> e == Some(GoalTooSmall)
    ensures !IsBlank(text) && parsed.Some? && parsed.value.GreaterThan(1000.0) ==> e == Some(GoalTooLarge)
  {
    if IsBlank(text) then Some(BlankGoal)
    else if parsed.None? then Some(InvalidNumber)
    else if parsed.value.LessThan(1.0) then Some(GoalTooSmall)
    else if parsed.value.GreaterThan(1000.0) then Some(GoalTooLarge)
    else None
  }

  /** "NaN" parses (to NaN) and then passes both range checks. */
  lemma NaNGoalHoursAccepted()
    ensures GoalHoursErrorAsWritten("NaN", Some(NaN)) == None
  {
    assert !IsWhitespace("NaN"[0]);
  }

  /**
   * `goalStudyHoursError` as evidently intended: NaN is an invalid number.
   * Null exactly when the text is not blank and parses to a value from 1 to
   * 1000 hours. Otherwise: blank, then not a number (NaN included), then
   * below 1, then above 1000, each with its own message.
   */
  function GoalHoursError(text: string, parsed: Option<KFloat>): (e: Option<string>)
    ensures e.None? <==>
      && !IsBlank(text) && parsed.Some? && parsed.value.Finite?
      && 1.0 <= parsed.value.value <= 1000.0
    ensures IsBlank(text) ==> e == Some(BlankGoal)
    ensures !IsBlank(text) && (parsed.None? || parsed.value.NaN?) ==> e == Some(InvalidNumber)
    ensures !IsBlank(text) && parsed.Some? && parsed.value.LessThan(1.0) ==> e == Some(GoalTooSmall)
    ensures !IsBlank(text) && parsed.Some? && parsed.value.GreaterThan(1000.0) ==> e == Some(GoalTooLarge)
  {
    if IsBlank(text) then Some(BlankGoal)
    else if parsed.None? || parsed.value.NaN? then Some(InvalidNumber)
    else if parsed.value.LessThan(1.0) then Some(GoalTooSmall)
    else if parsed.value.GreaterThan(1000.0) then Some(GoalTooLarge)
    else None
  }

  /** The two checks differ on NaN only. */
  lemma GoalHoursErrorDiffersOnNaNOnly(text: string, parsed: Option<KFloat>)
    requires !(parsed.Some? && parsed.value.NaN?)
    ensures GoalHoursError(text, parsed) == GoalHoursErrorAsWritten(text, parsed)
  {
  }

  /** `enabled` on the Save button: both errors are null. */
  predicate SaveEnabled(name: string, goalText: string, parsedGoal: Option<KFloat>)
    ensures SaveEnabled(name, goalText, parsedGoal) <==>
      && !IsBlank(name) && 2 <= Utf16Length(name) <= 20
      && !IsBlank(goalText) && parsedGoal.Some? && parsedGoal.value.Finite?
      && 1.0 <= parsedGoal.value.value <= 1000.0
  {
    SubjectNameError(name).None? && GoalHoursError(goalText, parsedGoal).None?
  }

  /** `isError` of the name field: an error and a text that is not blank. */
  predicate NameFlagged(name: string)
    ensures NameFlagged(name) <==> !IsBlank(name) && (Utf16Length(name) < 2 || Utf16Length(name) > 20)
  {
    SubjectNameError(name).Some? && !IsBlank(name)
  }

  /** `isError` of the goal field: an error and a text that is not blank. */
  predicate GoalFlagged(goalText: string, parsedGoal: Option<KFloat>)
    ensures GoalFlagged(goalText, parsedGoal) <==>
      && !IsBlank(goalText)
      && !(parsedGoal.Some? && parsedGoal.value.Finite? && 1.0 <= parsedGoal.value.value <= 1000.0)
  {
    GoalHoursError(goalText, parsedGoal).Some? && !IsBlank(goalText)
  }

  /** A field shown as an error always goes with a disabled Save button. */
  lemma FlaggedFieldDisablesSave(name: string, goalText: string, parsedGoal: Option<KFloat>)
    requires NameFlagged(name) || GoalFlagged(goalText, parsedGoal)
    ensures !SaveEnabled(name, goalText, parsedGoal)
  {
  }
}
