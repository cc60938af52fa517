/**
 * presentation/task/TaskScreen.kt, the part that is not layout: the check of
 * the task title, which decides the text under the title field, whether the
 * field is shown as an error and whether "Save Task" is enabled.
 */
module TaskScreen {
  import opened Wrappers
  import opened KotlinText

  const BlankTitle := "Please enter task title"
  const TitleTooShort := "Task title is too short"
  const TitleTooLong := "Task title is too long"

  /**
   * `taskTitleError`: null exactly for a title that is not blank and has 4 to
   * 30 UTF-16 code units; a blank title gets the blank message whatever its
   * length, since that check comes first; otherwise a title shorter than 4
   * is too short and one longer than 30 too long.
   */
  function TitleError(title: string): (e: Option<string>)
    ensures e.None? <==> !IsBlank(title) && 4 <= Utf16Length(title) <= 30
    ensures IsBlank(title) ==> e == Some(BlankTitle)
    ensures !IsBlank(title) && Utf16Length(title) < 4 ==> e == Some(TitleTooShort)
    ensures !IsBlank(title) && Utf16Length(title) > 30 ==> e == Some(TitleTooLong)
  {
    if IsBlank(title) then Some(BlankTitle)
    else if Utf16Length(title) < 4 then Some(TitleTooShort)
    else if Utf16Length(title) > 30 then Some(TitleTooLong)
    else None
  }

  /** `enabled = taskTitleError == null` on the Save button. */
  predicate SaveEnabled(title: string)
    ensures SaveEnabled(title) <==> !IsBlank(title) && 4 <= Utf16Length(title) <= 30
  {
    TitleError(title).None?
  }

  /**
   * `isError` of the title field: an error that is not the blank one; an
   * empty or blank title disables Save without marking the field red.
   */
  predicate TitleFlagged(title: string)
    ensures TitleFlagged(title) <==> !IsBlank(title) && (Utf16Length(title) < 4 || Utf16Length(title) > 30)
  {
    TitleError(title).Some? && !IsBlank(title)
  }

  /** A title field shown as an error always goes with a disabled Save button. */
  lemma FlaggedTitleDisablesSave(title: string)
    requires TitleFlagged(title)
    ensures !SaveEnabled(title)
    ensures TitleError(title) == Some(TitleTooShort) || TitleError(title) == Some(TitleTooLong)
  {
  }

  /** Length is counted in UTF-16 code units: two characters above U+FFFF make four. */
  lemma TwoSupplementaryCharactersAreLongEnough()
    ensures TitleError("\U{1F4DA}\U{1F4DD}") == None
  {
    assert !IsWhitespace("\U{1F4DA}\U{1F4DD}"[0]);
    assert Utf16Length("\U{1F4DA}\U{1F4DD}") == 4 by {
      assert "\U{1F4DA}\U{1F4DD}"[1..] == "\U{1F4DD}";
      assert "\U{1F4DD}"[1..] == "";
    }
  }
}
