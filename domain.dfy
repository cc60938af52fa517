/**
 * The three Room entities (Subject, Task, Session). Their Kotlin declarations
 * are not part of this model; the fields are the ones the core reads and
 * writes. A primary key is optional (`Int?`): a row built without one gets an
 * auto-generated key when it is stored.
 */
module Domain {
  import opened Wrappers
  import opened KotlinText

  datatype Subject = Subject(
    name: string,
    goalHours: KFloat,
    /** ARGB colours; a Compose `Color` is identified with its `toArgb()` value. */
    colors: seq<Int32>,
    subjectId: Option<int>)

  datatype Task = Task(
    title: string,
    description: string,
    /** Epoch milliseconds. */
    dueDate: int,
    /** The stored `Priority.value`. */
    priority: int,
    relatedToSubject: string,
    isComplete: bool,
    taskSubjectId: int,
    taskId: Option<int>)

  datatype Session = Session(
    sessionSubjectId: int,
    relatedToSubject: string,
    /** Epoch milliseconds. */
    date: int,
    /** Seconds. */
    duration: int,
    sessionId: Option<int>)
}
