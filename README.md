# StudySmart core in Dafny

StudySmart is an Android study planner. Users keep **subjects**, each with a name, a goal in study hours and a pair of card colours. Each subject has **tasks**, which carry a due date, a priority and a completion flag, and recorded study **sessions**. Room stores these in three tables. Repositories sit over the tables. Three view-models (task screen, subject screen, dashboard) turn UI events into state updates, repository calls and one-shot snackbar / navigation events.

This project models the logic of that core and proves properties of it:

- **Serialisers and decoders:**
  - The colour-list type converter (`joinToString(",")` and `split(",").map { toInt() }`).
  - `Priority.fromInt`.
  - `Int.pad`.
  - The "current or future" date selector, with the clock passed in.
- **Tables.** The TASK table's DAO is a class over a sequence of rows plus the auto-generated key counter. It has upsert by key, lookup, delete by id and delete by subject. The SUBJECT and SESSION tables are modelled in the same way.
- **Repositories:**
  - The task repository forwards to the DAO and builds the upcoming and completed views: filter, then a stable sort by due date ascending and priority descending.
  - The subject repository implements delete-subject as a three-table cascade.
- **Validators:**
  - The `when` ladders for the task title, the subject name and the goal hours.
  - The Save-enabled and field-error conditions derived from them.
- **View-models.** Each view-model is a class holding its state record and the sequence of emitted events. Every `onEvent` branch and every command (`saveTask`, `deleteTask`, `fetchTask`, `fetchSubject`, `updateTask`, `deleteSubject`, `updateSubject`, `deleteSession`, `saveSubject`) is a method. The command's effect on the tables and the events it emits are stated against pure specification functions.

Kotlin specifics are written out explicitly in `kotlin_text.dfy`:

- 32-bit `Int` range and decimal `toString`/`toInt`.
- `split` keeps empty fields.
- `isBlank` uses JVM whitespace.
- `String.length` counts UTF-16 code units.
- IEEE `Float` comparisons, including NaN.

Inputs the code reads from the platform are parameters:

- The clock (`Instant.now()`, the start of today, the current year).
- The random card colours.
- `toFloatOrNull()` and `Float.toString()`.
- Whether a repository call throws. A `fault: Option<Fault>` carries the exception's message, and on a fault the tables are unchanged.

## Model

All source paths are under `app/src/main/java/com/arunika/studysmart/`.

| member | source | states |
|---|---|---|
| ColorListConverter.Decimals | app/src/main/java/com/arunika/studysmart/data/local/ColorListConverter.kt:10 | one field per colour, the i-th being the colour's decimal `toString` |
| ColorListConverter.FromColorList | app/src/main/java/com/arunika/studysmart/data/local/ColorListConverter.kt:9-11 | for a non-empty list, splitting the text on "," gives back the decimal text of every colour in order, and the text holds exactly \|colors\|-1 commas; the empty list gives "" |
| ColorListConverter.ParseAll | app/src/main/java/com/arunika/studysmart/data/local/ColorListConverter.kt:15 | `map { toInt() }` fails iff some field is not a decimal Int; otherwise the i-th value is the parse of the i-th field |
| ColorListConverter.ToColorList | app/src/main/java/com/arunika/studysmart/data/local/ColorListConverter.kt:14-16 | fails iff some comma-separated field does not parse; otherwise yields one colour per field, commas + 1 |
| ColorListConverter.ParseAllDecimals | app/src/main/java/com/arunika/studysmart/data/local/ColorListConverter.kt:9-16 | parsing the decimal texts of a list gives the list back |
| ColorListConverter.RoundTrip | app/src/main/java/com/arunika/studysmart/data/local/ColorListConverter.kt:9-16 | `toColorList(fromColorList(xs)) == xs` for every non-empty list of 32-bit ints, negative ARGB values included |
| ColorListConverter.EmptyListDoesNotRoundTrip | app/src/main/java/com/arunika/studysmart/data/local/ColorListConverter.kt:9-16 | the empty list is stored as "" and "" fails to read back (one empty field) |
| KotlinText.ParseIntToString | app/src/main/java/com/arunika/studysmart/data/local/ColorListConverter.kt:10-15 | `toInt` of an `Int`'s `toString` is that `Int`, for the whole 32-bit range |
| KotlinText.SplitJoin | app/src/main/java/com/arunika/studysmart/data/local/ColorListConverter.kt:10-15 | splitting a join of comma-free fields gives the fields back |
| KotlinText.IntToString | app/src/main/java/com/arunika/studysmart/data/local/ColorListConverter.kt:10 | `Int.toString()`: non-empty, digits only except a leading '-' for a negative number |
| KotlinText.NatToStringValue | app/src/main/java/com/arunika/studysmart/data/local/ColorListConverter.kt:10 | the digits printed for n read back as n |
| KotlinText.ParseIntAccepts | app/src/main/java/com/arunika/studysmart/data/local/ColorListConverter.kt:15 | `toInt` accepts only an optional sign and at least one digit; a digit string parses to its value iff that value fits in an `Int` |
| KotlinText.Split | app/src/main/java/com/arunika/studysmart/data/local/ColorListConverter.kt:15 | `split(",")` keeps empty fields: one more field than there are commas, and no field contains a comma |
| KotlinText.Utf16Length | app/src/main/java/com/arunika/studysmart/presentation/task/TaskScreen.kt:105-107 | `String.length` counts UTF-16 units: between \|s\| and 2\|s\|, and equal to \|s\| iff no character lies above U+FFFF |
| Common.FirstWithValue | app/src/main/java/com/arunika/studysmart/util/Common.kt:20 | `firstOrNull`: a found priority is in the list with the wanted value; null means no entry has it |
| Common.FromInt | app/src/main/java/com/arunika/studysmart/util/Common.kt:19-21 | 0, 1, 2 decode to the priority with that value; every other integer decodes to MEDIUM |
| Common.FromIntValue | app/src/main/java/com/arunika/studysmart/util/Common.kt:13-20 | decoding a priority's stored value gives the priority back |
| Common.ValuesDistinct | app/src/main/java/com/arunika/studysmart/util/Common.kt:13-16 | the three stored values are distinct |
| Common.Pad | app/src/main/java/com/arunika/studysmart/util/Common.kt:39-41 | length max(2, \|toString\|), ends with `toString`, any prefix is '0' only |
| Common.PadSingleDigit | app/src/main/java/com/arunika/studysmart/util/Common.kt:39-41 | 0..9 pad to '0' followed by the digit |
| Common.PadManyDigits | app/src/main/java/com/arunika/studysmart/util/Common.kt:39-41 | n >= 10 pads to its own `toString` |
| Common.FaultText | app/src/main/java/com/arunika/studysmart/presentation/task/TaskViewModel.kt:134 | an exception's message when it has one, otherwise text starting with the command's context |
| CurrentOrFutureSelectableDates.SelectableDatesUpwardClosed | app/src/main/java/com/arunika/studysmart/util/CurrentOrFutureSelectableDates.kt:10-14 | anything later than a selectable instant is selectable |
| CurrentOrFutureSelectableDates.StartOfTodayIsEarliest | app/src/main/java/com/arunika/studysmart/util/CurrentOrFutureSelectableDates.kt:10-14 | the start of today is selectable and every earlier instant is not |
| CurrentOrFutureSelectableDates.CurrentYearIsEarliest | app/src/main/java/com/arunika/studysmart/util/CurrentOrFutureSelectableDates.kt:16-18 | the current year is selectable, earlier years are not, later years are |
| Tables.Filter | app/src/main/java/com/arunika/studysmart/data/local/TaskDao.kt:27-28 | a `WHERE` selection holds exactly the rows satisfying the condition |
| Tables.FilterPartition | app/src/main/java/com/arunika/studysmart/data/repository/TaskRepositoryImpl.kt:32-42 | filtering by a condition and by its negation splits the rows, as multisets |
| Tables.KeyedRowsDistinct | app/src/main/java/com/arunika/studysmart/data/local/TaskDao.kt:12-16 | under the primary-key invariant every row has a key and no two rows share one |
| Tables.FindBy | app/src/main/java/com/arunika/studysmart/data/local/TaskDao.kt:15-16 | a found row is stored and has the key; none found iff no row has it |
| Tables.UpsertBy | app/src/main/java/com/arunika/studysmart/data/local/TaskDao.kt:12-13 | the upserted row is stored and every other row was stored before |
| Tables.UpsertThenFind | app/src/main/java/com/arunika/studysmart/data/local/TaskDao.kt:12-16 | after an upsert, the row's key finds the row |
| Tables.UpsertKeepsOthers | app/src/main/java/com/arunika/studysmart/data/local/TaskDao.kt:12-16 | an upsert leaves the lookup of every other key unchanged |
| Tables.UpsertKeyed | app/src/main/java/com/arunika/studysmart/data/local/TaskDao.kt:12-13 | an upsert keeps keys unique |
| Tables.UpsertFreshKeyAppends | app/src/main/java/com/arunika/studysmart/data/local/TaskDao.kt:12-13 | a row with an unused key is appended |
| Tables.FilterKeyed | app/src/main/java/com/arunika/studysmart/data/local/TaskDao.kt:18-22 | deleting rows keeps keys unique |
| Tables.FindByAfterFilter | app/src/main/java/com/arunika/studysmart/data/local/TaskDao.kt:18-19 | deleting rows without key id leaves the lookup of id unchanged |
| TaskDao.WithGeneratedId | app/src/main/java/com/arunika/studysmart/data/local/TaskDao.kt:12-13 | the stored row always has a key, keeps the task's own key, and differs from the task in nothing else |
| TaskDao.NextIdAfter | app/src/main/java/com/arunika/studysmart/data/local/TaskDao.kt:12-13 | the key generator moves past every key it has stored |
| TaskDao.UpsertKeepsInvariant | app/src/main/java/com/arunika/studysmart/data/local/TaskDao.kt:12-13 | upsert keeps ids unique and below the next generated key |
| TaskDao.UpsertThenGetTaskById | app/src/main/java/com/arunika/studysmart/data/local/TaskDao.kt:12-16 | after `upsertTask`, `getTaskById` of its id returns it; every other id returns what it did before |
| TaskDao.UpsertWithoutIdAppends | app/src/main/java/com/arunika/studysmart/data/local/TaskDao.kt:12-13 | a task without an id becomes a new last row under the generated id |
| TaskDao.DeleteTaskEffect | app/src/main/java/com/arunika/studysmart/data/local/TaskDao.kt:18-19 | after `deleteTask(id)` the id is not found and every other id finds what it found before |
| TaskDao.DeleteBySubjectKeepsInvariant | app/src/main/java/com/arunika/studysmart/data/local/TaskDao.kt:21-22 | delete by subject keeps the key invariant |
| TaskDao.TaskTable.UpsertTask | app/src/main/java/com/arunika/studysmart/data/local/TaskDao.kt:12-13 | the table becomes the upsert of the task (with a generated id when it has none), invariant kept |
| TaskDao.TaskTable.GetTaskById | app/src/main/java/com/arunika/studysmart/data/local/TaskDao.kt:15-16 | the row with that id, or null iff there is none |
| TaskDao.TaskTable.DeleteTask | app/src/main/java/com/arunika/studysmart/data/local/TaskDao.kt:18-19 | exactly the rows with that id are removed |
| TaskDao.TaskTable.DeleteTasksBySubjectId | app/src/main/java/com/arunika/studysmart/data/local/TaskDao.kt:21-22 | no row of that subject remains and every row of another subject stays |
| TaskDao.TaskTable.GetAllTasks | app/src/main/java/com/arunika/studysmart/data/local/TaskDao.kt:24-25 | every row, in table order; a function of the table, so it changes nothing |
| TaskDao.TaskTable.GetTasksForSubject | app/src/main/java/com/arunika/studysmart/data/local/TaskDao.kt:27-28 | exactly the rows with that subject id |
| SubjectDao.WithGeneratedId | app/src/main/java/com/arunika/studysmart/data/repository/SubjectRepositoryImpl.kt:16-18 | the stored subject always has a key and differs from the given one only by a generated id |
| SubjectDao.NextIdAfter | app/src/main/java/com/arunika/studysmart/data/repository/SubjectRepositoryImpl.kt:16-18 | the key generator moves past every key it has stored |
| SubjectDao.UpsertKeepsInvariant | app/src/main/java/com/arunika/studysmart/data/repository/SubjectRepositoryImpl.kt:16-18 | upsert keeps subject ids unique |
| SubjectDao.UpsertThenGetSubjectById | app/src/main/java/com/arunika/studysmart/data/repository/SubjectRepositoryImpl.kt:16-30 | after an upsert the subject is found under its id; other ids are unaffected |
| SubjectDao.UpsertWithoutIdAppends | app/src/main/java/com/arunika/studysmart/data/repository/SubjectRepositoryImpl.kt:16-18 | a subject without an id becomes a new last row |
| SubjectDao.DeleteSubjectEffect | app/src/main/java/com/arunika/studysmart/data/repository/SubjectRepositoryImpl.kt:33 | after deleting id it is not found; other ids are unaffected |
| SubjectDao.SubjectTable.UpsertSubject | app/src/main/java/com/arunika/studysmart/data/repository/SubjectRepositoryImpl.kt:17 | the table becomes the upsert of the subject, invariant kept |
| SubjectDao.SubjectTable.GetSubjectById | app/src/main/java/com/arunika/studysmart/data/repository/SubjectRepositoryImpl.kt:29 | the subject with that id, or null iff there is none |
| SubjectDao.SubjectTable.DeleteSubject | app/src/main/java/com/arunika/studysmart/data/repository/SubjectRepositoryImpl.kt:33 | exactly the subject with that id is removed |
| SessionDao.DeleteSessionEffect | app/src/main/java/com/arunika/studysmart/presentation/subject/SubjectViewModel.kt:237-238 | deleting a session removes the row with its key and no other; a session without a key removes nothing |
| SessionDao.DeleteBySubjectKeyed | app/src/main/java/com/arunika/studysmart/data/repository/SubjectRepositoryImpl.kt:35 | delete by subject keeps session keys unique |
| SessionDao.SessionTable.DeleteSession | app/src/main/java/com/arunika/studysmart/presentation/subject/SubjectViewModel.kt:238 | exactly the rows with the session's key are removed |
| SessionDao.SessionTable.DeleteSessionsBySubjectId | app/src/main/java/com/arunika/studysmart/data/repository/SubjectRepositoryImpl.kt:35 | no session of that subject remains; every other session stays |
| TaskRepository.Insert | app/src/main/java/com/arunika/studysmart/data/repository/TaskRepositoryImpl.kt:43-46 | inserting adds exactly one occurrence of the task |
| TaskRepository.InsertSorted | app/src/main/java/com/arunika/studysmart/data/repository/TaskRepositoryImpl.kt:43-46 | inserting into a sorted list keeps it sorted |
| TaskRepository.SortedList | app/src/main/java/com/arunika/studysmart/data/repository/TaskRepositoryImpl.kt:43-46 | the result is a permutation of the input, ordered by due date ascending and, on equal dates, by priority descending |
| TaskRepository.SameKeysInsert | app/src/main/java/com/arunika/studysmart/data/repository/TaskRepositoryImpl.kt:43-46 | an inserted task goes in front of the tasks with its own keys |
| TaskRepository.SortedListIsStable | app/src/main/java/com/arunika/studysmart/data/repository/TaskRepositoryImpl.kt:44 | tasks equal on both keys keep their input order |
| TaskRepository.HeadHasOwnKeys | app/src/main/java/com/arunika/studysmart/data/repository/TaskRepositoryImpl.kt:44 | the first task is among the tasks with its own keys |
| TaskRepository.SameKeysCons | app/src/main/java/com/arunika/studysmart/data/repository/TaskRepositoryImpl.kt:44 | the first task is kept among the tasks with given keys exactly when it has those keys |
| TaskRepository.SortedStableHeads | app/src/main/java/com/arunika/studysmart/data/repository/TaskRepositoryImpl.kt:44 | two sorted lists with the same tasks per pair of keys, in the same order, start with the same task |
| TaskRepository.SortedStableUnique | app/src/main/java/com/arunika/studysmart/data/repository/TaskRepositoryImpl.kt:44 | two sorted lists with the same tasks per pair of keys, in the same order, are equal |
| TaskRepository.SortedListIsTheStableSort | app/src/main/java/com/arunika/studysmart/data/repository/TaskRepositoryImpl.kt:43-46 | every stable sort by this comparator (as `sortedWith` is) gives exactly `SortedList` |
| TaskRepository.UpcomingOf | app/src/main/java/com/arunika/studysmart/data/repository/TaskRepositoryImpl.kt:26-30 | sorted, and holds exactly the incomplete tasks, each as often as the table does |
| TaskRepository.CompletedOf | app/src/main/java/com/arunika/studysmart/data/repository/TaskRepositoryImpl.kt:38-42 | sorted, and holds exactly the completed tasks, each as often as the table does |
| TaskRepository.UpcomingCompletedPartition | app/src/main/java/com/arunika/studysmart/data/repository/TaskRepositoryImpl.kt:32-42 | a subject's upcoming and completed lists are disjoint and together hold all of its tasks |
| TaskRepository.TaskRepositoryImpl.UpsertTask | app/src/main/java/com/arunika/studysmart/data/repository/TaskRepositoryImpl.kt:14-16 | exactly the DAO's upsert |
| TaskRepository.TaskRepositoryImpl.GetTaskById | app/src/main/java/com/arunika/studysmart/data/repository/TaskRepositoryImpl.kt:18-20 | exactly the DAO's lookup |
| TaskRepository.TaskRepositoryImpl.DeleteTask | app/src/main/java/com/arunika/studysmart/data/repository/TaskRepositoryImpl.kt:22-24 | exactly the DAO's delete |
| TaskRepository.TaskRepositoryImpl.GetAllUpcomingTasks | app/src/main/java/com/arunika/studysmart/data/repository/TaskRepositoryImpl.kt:26-30 | sorted; a task is listed iff it is in the table and incomplete |
| TaskRepository.TaskRepositoryImpl.GetUpcomingTasksForSubject | app/src/main/java/com/arunika/studysmart/data/repository/TaskRepositoryImpl.kt:32-36 | sorted; exactly the subject's incomplete tasks |
| TaskRepository.TaskRepositoryImpl.GetCompletedTasksForSubject | app/src/main/java/com/arunika/studysmart/data/repository/TaskRepositoryImpl.kt:38-42 | sorted; exactly the subject's completed tasks |
| SubjectRepository.CascadeKeepsNoOrphans | app/src/main/java/com/arunika/studysmart/data/repository/SubjectRepositoryImpl.kt:32-37 | if every task and session belongs to a stored subject, that still holds after the cascade |
| SubjectRepository.SubjectDeleteAloneOrphansTasks | app/src/main/java/com/arunika/studysmart/data/repository/SubjectRepositoryImpl.kt:32-37 | deleting only the subject row would leave a task without its subject |
| SubjectRepository.SubjectRepositoryImpl.UpsertSubject | app/src/main/java/com/arunika/studysmart/data/repository/SubjectRepositoryImpl.kt:16-18 | exactly the DAO's upsert |
| SubjectRepository.SubjectRepositoryImpl.GetSubjectById | app/src/main/java/com/arunika/studysmart/data/repository/SubjectRepositoryImpl.kt:28-30 | exactly the DAO's lookup |
| SubjectRepository.SubjectRepositoryImpl.DeleteSubject | app/src/main/java/com/arunika/studysmart/data/repository/SubjectRepositoryImpl.kt:32-37 | no subject with that id, no task and no session of it remain; rows of other subjects stay; no orphans is preserved |
| TaskScreen.TitleError | app/src/main/java/com/arunika/studysmart/presentation/task/TaskScreen.kt:103-108 | null iff the title is not blank and has 4..30 UTF-16 units; otherwise a blank title gets the blank message whatever its length, a shorter one "too short" and a longer one "too long" |
| TaskScreen.SaveEnabled | app/src/main/java/com/arunika/studysmart/presentation/task/TaskScreen.kt:276 | Save is enabled iff the title is valid |
| TaskScreen.TitleFlagged | app/src/main/java/com/arunika/studysmart/presentation/task/TaskScreen.kt:193 | the field is red iff the title is not blank and too short or too long |
| TaskScreen.FlaggedTitleDisablesSave | app/src/main/java/com/arunika/studysmart/presentation/task/TaskScreen.kt:193 | a red title field means Save is disabled and the error is a length error |
| TaskScreen.TwoSupplementaryCharactersAreLongEnough | app/src/main/java/com/arunika/studysmart/presentation/task/TaskScreen.kt:105 | length counts UTF-16 units: two emoji pass the minimum of 4 |
| AddSubjectDialog.SubjectNameError | app/src/main/java/com/arunika/studysmart/presentation/components/AddSubjectDialog.kt:51-56 | null iff the name is not blank and has 2..20 UTF-16 units; otherwise a blank name gets the blank message, a shorter one "too short" and a longer one "too long" |
| AddSubjectDialog.GoalHoursErrorAsWritten | app/src/main/java/com/arunika/studysmart/presentation/components/AddSubjectDialog.kt:57-63 | as written: null iff not blank, parses, and the value is NaN or in [1, 1000]; blank gets the blank message, an unparseable text "Invalid number", a value below 1 the minimum and above 1000 the maximum message |
| AddSubjectDialog.NaNGoalHoursAccepted | app/src/main/java/com/arunika/studysmart/presentation/components/AddSubjectDialog.kt:57-63 | "NaN" parses to NaN and gets no error |
| AddSubjectDialog.GoalHoursError | app/src/main/java/com/arunika/studysmart/presentation/components/AddSubjectDialog.kt:57-63 | null iff not blank and parses to a finite value in [1, 1000]; blank gets the blank message, an unparseable text or NaN "Invalid number", below 1 the minimum and above 1000 the maximum message |
| AddSubjectDialog.GoalHoursErrorDiffersOnNaNOnly | app/src/main/java/com/arunika/studysmart/presentation/components/AddSubjectDialog.kt:57-63 | the corrected check agrees with the code on every input except NaN |
| AddSubjectDialog.SaveEnabled | app/src/main/java/com/arunika/studysmart/presentation/components/AddSubjectDialog.kt:124 | Save is enabled iff the name is valid and the goal is a finite number of hours in [1, 1000] |
| AddSubjectDialog.NameFlagged | app/src/main/java/com/arunika/studysmart/presentation/components/AddSubjectDialog.kt:98 | the name field is red iff the name is not blank and too short or too long |
| AddSubjectDialog.GoalFlagged | app/src/main/java/com/arunika/studysmart/presentation/components/AddSubjectDialog.kt:111 | the goal field is red iff its text is not blank and not a valid goal |
| AddSubjectDialog.FlaggedFieldDisablesSave | app/src/main/java/com/arunika/studysmart/presentation/components/AddSubjectDialog.kt:124 | a red field means Save is disabled |
| ViewModelSupport.Toggled | app/src/main/java/com/arunika/studysmart/presentation/subject/SubjectViewModel.kt:120-124 | the stored task differs from the given one in its completion flag only, which is flipped |
| ViewModelSupport.ToggledTwice | app/src/main/java/com/arunika/studysmart/presentation/subject/SubjectViewModel.kt:120-124 | toggling twice gives the task back |
| ViewModelSupport.SubjectFromForm | app/src/main/java/com/arunika/studysmart/presentation/subject/SubjectViewModel.kt:193-200 | the form's name, colours and id; the parsed goal, or 1 hour when it does not parse |
| ViewModelSupport.FaultEvent | app/src/main/java/com/arunika/studysmart/presentation/task/TaskViewModel.kt:131-138 | a snackbar with the catch block's duration showing the exception's message, or the context when there is none |
| ViewModelSupport.DeleteSessionEvents | app/src/main/java/com/arunika/studysmart/presentation/subject/SubjectViewModel.kt:234-253 | no event without a selected session; otherwise one snackbar: "deleted" iff no exception, and on an exception a Long one with its message (or "Couldn't delete session. " and the null text) |
| TaskViewModel.Reduce | app/src/main/java/com/arunika/studysmart/presentation/task/TaskViewModel.kt:57-99 | each field event writes its own field(s) and nothing else; the completion event flips its flag |
| TaskViewModel.ToggleTwiceRestores | app/src/main/java/com/arunika/studysmart/presentation/task/TaskViewModel.kt:78-84 | OnIsCompleteChange twice restores the state |
| TaskViewModel.FieldEditsCommute | app/src/main/java/com/arunika/studysmart/presentation/task/TaskViewModel.kt:57-91 | edits of different fields commute |
| TaskViewModel.BuildTask | app/src/main/java/com/arunika/studysmart/presentation/task/TaskViewModel.kt:154-166 | id = currentTaskId, subject id = the chosen subject, due date = the picked one or now, stored priority = the chosen priority's value, and title, description, subject name and completion copied from the form |
| TaskViewModel.SaveTaskEvents | app/src/main/java/com/arunika/studysmart/presentation/task/TaskViewModel.kt:142-184 | no subject gives the reminder only; with a subject, success gives exactly "saved" then NavigateUp, and an exception gives one Short snackbar with its message (or "Couldn't save task. " and the null text) |
| TaskViewModel.DeleteTaskEvents | app/src/main/java/com/arunika/studysmart/presentation/task/TaskViewModel.kt:106-140 | no current task gives "No Task to delete" only; otherwise success gives "deleted" then NavigateUp, and an exception one Long snackbar with its message (or "Couldn't delete task. " and the null text) |
| TaskViewModel.SaveThenFetchRestoresState | app/src/main/java/com/arunika/studysmart/presentation/task/TaskViewModel.kt:154-203 | fetching the task a complete form saves restores the form |
| TaskViewModel.FetchThenSaveRestoresTask | app/src/main/java/com/arunika/studysmart/presentation/task/TaskViewModel.kt:154-203 | saving a fetched task unchanged stores the same task when its priority is 0, 1 or 2 |
| TaskViewModel.FetchThenSaveNormalisesPriority | app/src/main/java/com/arunika/studysmart/presentation/task/TaskViewModel.kt:154-203 | any other stored priority is saved back as 1 (MEDIUM) |
| TaskViewModel.TaskViewModel.constructor | app/src/main/java/com/arunika/studysmart/presentation/task/TaskState.kt:7-17 | the default TaskState, nothing emitted |
| TaskViewModel.TaskViewModel.SaveTask | app/src/main/java/com/arunika/studysmart/presentation/task/TaskViewModel.kt:142-184 | on success the built task is upserted, found under its id afterwards, and the key counter moves past it; otherwise the table is unchanged; events as SaveTaskEvents |
| TaskViewModel.TaskViewModel.DeleteTask | app/src/main/java/com/arunika/studysmart/presentation/task/TaskViewModel.kt:106-140 | on success the current task's row is gone and the key counter is kept; otherwise the table is unchanged; events as DeleteTaskEvents |
| TaskViewModel.TaskViewModel.FetchTask | app/src/main/java/com/arunika/studysmart/presentation/task/TaskViewModel.kt:186-208 | the stored task's fields are copied in (priority via fromInt); unchanged with no id or no such task |
| TaskViewModel.TaskViewModel.FetchSubject | app/src/main/java/com/arunika/studysmart/presentation/task/TaskViewModel.kt:210-224 | the same state change as selecting the stored subject; unchanged when there is none |
| TaskViewModel.TaskViewModel.OnEvent | app/src/main/java/com/arunika/studysmart/presentation/task/TaskViewModel.kt:55-104 | field events change the state as Reduce and touch nothing else; SaveTask and DeleteTask run the commands |
| SubjectViewModel.Reduce | app/src/main/java/com/arunika/studysmart/presentation/subject/SubjectViewModel.kt:68-98 | each field event replaces its own field only |
| SubjectViewModel.FieldEventIdempotent | app/src/main/java/com/arunika/studysmart/presentation/subject/SubjectViewModel.kt:68-98 | a field event applied twice equals applying it once |
| SubjectViewModel.UpdateTaskEvents | app/src/main/java/com/arunika/studysmart/presentation/subject/SubjectViewModel.kt:117-152 | one snackbar: the list the task moves to on success; on an exception a Long one with its message (or "Couldn't update task. " and the null text) |
| SubjectViewModel.UpdateTaskMessageNamesList | app/src/main/java/com/arunika/studysmart/presentation/subject/SubjectViewModel.kt:120-139 | "Saved in Upcoming Tasks" iff the stored task is in the subject's upcoming list, "Completed" iff in its completed list |
| SubjectViewModel.DeleteSubjectEvents | app/src/main/java/com/arunika/studysmart/presentation/subject/SubjectViewModel.kt:154-188 | no subject gives "No Subjects to delete" only; otherwise success gives "deleted" then NavigateUp, and an exception one Long snackbar with its message (or "Couldn't delete subject. " and the null text) |
| SubjectViewModel.UpdateSubjectEvents | app/src/main/java/com/arunika/studysmart/presentation/subject/SubjectViewModel.kt:190-216 | one snackbar: "updated" iff no exception; on an exception a Long one with its message (or "Couldn't update subject. " and the null text) |
| SubjectViewModel.FetchThenUpdateRestoresSubject | app/src/main/java/com/arunika/studysmart/presentation/subject/SubjectViewModel.kt:190-229 | updating a fetched subject without edits stores the same subject, when its goal text parses back to the goal |
| SubjectViewModel.SubjectViewModel.UpdateTask | app/src/main/java/com/arunika/studysmart/presentation/subject/SubjectViewModel.kt:117-152 | the task is upserted with completion flipped, found so afterwards, and the key counter moves past it; unchanged table on an exception |
| SubjectViewModel.SubjectViewModel.DeleteSubject | app/src/main/java/com/arunika/studysmart/presentation/subject/SubjectViewModel.kt:154-188 | on success the cascade has run for the current id, the subject is gone and both key counters are kept; otherwise no table changes |
| SubjectViewModel.SubjectViewModel.UpdateSubject | app/src/main/java/com/arunika/studysmart/presentation/subject/SubjectViewModel.kt:190-216 | the form's subject replaces the stored one under the current id, or is appended when there is no id, and the key counter moves past it; unchanged on an exception |
| SubjectViewModel.SubjectViewModel.FetchSubject | app/src/main/java/com/arunika/studysmart/presentation/subject/SubjectViewModel.kt:218-232 | name, goal text, colours and id are copied from the stored subject; unchanged when missing |
| SubjectViewModel.SubjectViewModel.DeleteSession | app/src/main/java/com/arunika/studysmart/presentation/subject/SubjectViewModel.kt:234-253 | no change and no event without a selected session; on success its row is deleted |
| SubjectViewModel.SubjectViewModel.OnEvent | app/src/main/java/com/arunika/studysmart/presentation/subject/SubjectViewModel.kt:66-115 | field events as Reduce; UpdateProgress leaves the modelled state alone; the other events run the commands |
| DashboardViewModel.Reduce | app/src/main/java/com/arunika/studysmart/presentation/dashboard/DashboardViewModel.kt:71-98 | each field event replaces its own field only |
| DashboardViewModel.NameAndGoalEditsCommute | app/src/main/java/com/arunika/studysmart/presentation/dashboard/DashboardViewModel.kt:78-98 | name and goal edits commute |
| DashboardViewModel.UpdateTaskEvents | app/src/main/java/com/arunika/studysmart/presentation/dashboard/DashboardViewModel.kt:106-132 | one snackbar: "Saved in Completed Tasks" iff no exception, whatever the direction; on an exception a Long one with its message (or "Couldn't update task. " and the null text) |
| DashboardViewModel.UpdateTaskMessageRightForListedTasks | app/src/main/java/com/arunika/studysmart/presentation/dashboard/DashboardViewModel.kt:106-132 | for a task from the dashboard's upcoming list, the toggled task does land among the completed tasks |
| DashboardViewModel.SaveSubjectEvents | app/src/main/java/com/arunika/studysmart/presentation/dashboard/DashboardViewModel.kt:134-168 | one snackbar: "saved" iff no exception; on an exception a Long one with its message (or "Couldn't save subject. " and the null text) |
| DashboardViewModel.FormSubject | app/src/main/java/com/arunika/studysmart/presentation/dashboard/DashboardViewModel.kt:137-143 | the saved subject never has an id |
| DashboardViewModel.ClearedForm | app/src/main/java/com/arunika/studysmart/presentation/dashboard/DashboardViewModel.kt:145-151 | name and goal text are "" afterwards; the selected session is kept |
| DashboardViewModel.DashboardViewModel.UpdateTask | app/src/main/java/com/arunika/studysmart/presentation/dashboard/DashboardViewModel.kt:106-132 | the task is upserted with completion flipped and the key counter moves past it; unchanged table on an exception |
| DashboardViewModel.DashboardViewModel.SaveSubject | app/src/main/java/com/arunika/studysmart/presentation/dashboard/DashboardViewModel.kt:134-168 | on success the subject is a new last row under the next key, the counter goes up by one and the form is cleared; on an exception table and form stay |
| DashboardViewModel.DashboardViewModel.DeleteSession | app/src/main/java/com/arunika/studysmart/presentation/dashboard/DashboardViewModel.kt:170-189 | no change and no event without a selected session; on success its row is deleted |
| DashboardViewModel.DashboardViewModel.OnEvent | app/src/main/java/com/arunika/studysmart/presentation/dashboard/DashboardViewModel.kt:68-104 | field events as Reduce and nothing else; the other events run the commands |

## Left out

- The study-session timer service, service binding, permissions and notifications: StudySessionTimerService and ServiceHelper are not part of this model.
- Compose rendering, dependency injection and the Room database declaration. Each table is a class over a sequence of rows, and row order is the order a plain SELECT returns.
- SubjectDao.kt, SessionDao.kt, SessionRepositoryImpl.kt and the entity declarations are not part of this model. Their behaviour is taken by analogy with TaskDao:
  - upsert by an auto-generated key;
  - lookup and delete by key;
  - delete by subject.
- `getTotalSubjectCount`, `getTotalGoalHours`, `getAllSubjects` and the session queries feed only the screens' flows, so they are left out.
- Coroutines and flows:
  - Each launched block is one sequential method.
  - Each flow is read as a snapshot of its table, which leaves out the `stateIn` lag and `WhileSubscribed`.
  - The state's flow-filled fields (`subjects`, task lists, sessions, totals, progress) are left out.
  - The order in which the two `init` coroutines of TaskViewModel finish is left out. FetchTask and FetchSubject are separate methods.
- Floating point:
  - `toHours`, `UpdateProgress` and the progress ratio are left out.
  - `toFloatOrNull()` and `Float.toString()` are passed in, and a `Float` is an exact real, NaN or an infinity.
- `changeMillisToDateString` and time zones. The clock readings are parameters.
- Random card colours are parameters, unconstrained.
- Exceptions are a `fault` parameter, and the command then leaves every table as it was. A cascade delete that fails half-way (there is no transaction in `deleteSubject`) is not modelled.
- `localizedMessage` is taken to equal `message`, so a null message prints as "null".
- `toInt` accepts only ASCII digits here. Kotlin also accepts other Unicode decimal digits.
- Colours are their ARGB `Int` values (`Color(argb).toArgb()` is taken as the identity).
- AddSubjectDialog.SaveEnabled, AddSubjectDialog.GoalFlagged: use the corrected goal check, which rejects NaN; the code as written enables Save for "NaN" (see Findings).

## Findings

| source | as written | input that shows it | evidently intended | confidence | as-written member | corrected member |
|---|---|---|---|---|---|---|
| app/src/main/java/com/arunika/studysmart/presentation/components/AddSubjectDialog.kt:57-63 | after the blank and parse checks, the goal is rejected only when `toFloat() < 1f` or `> 1000f`; both comparisons are false for NaN | goal text "NaN": `toFloatOrNull()` gives NaN, so no error is shown and Save is enabled; the subject is then stored with a NaN goal | only a finite goal from 1 to 1000 hours is accepted; NaN is an invalid number | medium (not executed) | AddSubjectDialog.GoalHoursErrorAsWritten, AddSubjectDialog.NaNGoalHoursAccepted | AddSubjectDialog.GoalHoursError |
