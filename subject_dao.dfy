/**
 * The SUBJECT table behind SubjectRepositoryImpl. SubjectDao.kt is not part of
 * this model: its upsert, lookup by id and delete by id are taken to behave as
 * TaskDao's do, over the subject's auto-generated primary key.
 */
module SubjectDao {
  import opened Wrappers
  import opened Domain
  import opened Tables

  /** The primary key of a subject row. */
  function SubjectKey(s: Subject): Option<int> {
    s.subjectId
  }

  /**
   * The row that storing `subject` writes: a subject without an id gets the
   * key the generator hands out next; nothing else about it changes.
   */
  function WithGeneratedId(subject: Subject, nextId: int): (stored: Subject)
    ensures stored.subjectId.Some? && stored.(subjectId := subject.subjectId) == subject
    ensures subject.subjectId.Some? ==> stored == subject
  {
    if subject.subjectId.Some? then subject else subject.(subjectId := Some(nextId))
  }

  /** The generator never hands out a key at or below one it has seen. */
  function NextIdAfter(nextId: int, subject: Subject): (n: int)
    ensures n >= nextId
    ensures n > WithGeneratedId(subject, nextId).subjectId.value
  {
    match subject.subjectId
    case None => nextId + 1
    case Some(k) => if k >= nextId then k + 1 else nextId
  }

  /** Keys are unique and all below the next generated key. */
  ghost predicate TableInvariant(rows: seq<Subject>, nextId: int) {
    && KeyedRows(rows, SubjectKey)
    && forall s :: s in rows ==> s.subjectId.Some? && s.subjectId.value < nextId
  }

  /** The table after an upsert of `subject`. */
  function Upserted(rows: seq<Subject>, nextId: int, subject: Subject): seq<Subject> {
    UpsertBy(rows, SubjectKey, WithGeneratedId(subject, nextId))
  }

  /** The table after deleting the subject with id `subjectId`. */
  function WithoutSubject(rows: seq<Subject>, subjectId: int): seq<Subject> {
    Filter(rows, (s: Subject) => s.subjectId != Some(subjectId))
  }

  lemma UpsertKeepsInvariant(rows: seq<Subject>, nextId: int, subject: Subject)
    requires TableInvariant(rows, nextId)
    ensures TableInvariant(Upserted(rows, nextId, subject), NextIdAfter(nextId, subject))
  {
    UpsertKeyed(rows, SubjectKey, WithGeneratedId(subject, nextId));
  }

  /**
   * After an upsert the stored subject is found under its key, and every other
   * key finds what it found before.
   */
  lemma UpsertThenGetSubjectById(rows: seq<Subject>, nextId: int, subject: Subject)
    requires TableInvariant(rows, nextId)
    ensures var stored := WithGeneratedId(subject, nextId);
      && FindBy(Upserted(rows, nextId, subject), SubjectKey, stored.subjectId.value) == Some(stored)
      && forall id :: id != stored.subjectId.value ==>
           FindBy(Upserted(rows, nextId, subject), SubjectKey, id) == FindBy(rows, SubjectKey, id)
  {
    var stored := WithGeneratedId(subject, nextId);
    UpsertThenFind(rows, SubjectKey, stored, stored.subjectId.value);
    forall id | id != stored.subjectId.value
      ensures FindBy(Upserted(rows, nextId, subject), SubjectKey, id) == FindBy(rows, SubjectKey, id)
    {
      UpsertKeepsOthers(rows, SubjectKey, stored, id);
    }
  }

  /** A subject without an id becomes a new last row under the generated key. */
  lemma UpsertWithoutIdAppends(rows: seq<Subject>, nextId: int, subject: Subject)
    requires TableInvariant(rows, nextId)
    requires subject.subjectId.None?
    ensures Upserted(rows, nextId, subject) == rows + [subject.(subjectId := Some(nextId))]
  {
    UpsertFreshKeyAppends(rows, SubjectKey, subject.(subjectId := Some(nextId)));
  }

  /**
   * Deleting by id removes that subject and no other: afterwards the id is not
   * found, and every other id finds what it found before.
   */
  lemma DeleteSubjectEffect(rows: seq<Subject>, nextId: int, subjectId: int)
    requires TableInvariant(rows, nextId)
    ensures TableInvariant(WithoutSubject(rows, subjectId), nextId)
    ensures FindBy(WithoutSubject(rows, subjectId), SubjectKey, subjectId) == None
    ensures forall id :: id != subjectId ==>
      FindBy(WithoutSubject(rows, subjectId), SubjectKey, id) == FindBy(rows, SubjectKey, id)
  {
    var keep := (s: Subject) => s.subjectId != Some(subjectId);
    FilterKeyed(rows, SubjectKey, keep);
    forall id | id != subjectId
      ensures FindBy(WithoutSubject(rows, subjectId), SubjectKey, id) == FindBy(rows, SubjectKey, id)
    {
      FindByAfterFilter(rows, SubjectKey, keep, id);
    }
  }

  /** The SUBJECT table and its generator of keys. */
  class SubjectTable {
    var rows: seq<Subject>
    /** The key the generator hands out next. */
    var nextId: int

    ghost predicate Valid()
      reads this
    {
      TableInvariant(rows, nextId)
    }

    constructor ()
      ensures Valid() && rows == []
    {
      rows := [];
      nextId := 1;
    }

    method UpsertSubject(subject: Subject)
      requires Valid()
      modifies this
      ensures Valid()
      ensures rows == Upserted(old(rows), old(nextId), subject)
      ensures nextId == NextIdAfter(old(nextId), subject)
    {
      UpsertKeepsInvariant(rows, nextId, subject);
      rows := Upserted(rows, nextId, subject);
      nextId := NextIdAfter(nextId, subject);
    }

    /** The subject with that id, or null when there is none. */
    function GetSubjectById(subjectId: int): (r: Option<Subject>)
      reads this
      ensures r.Some? ==> r.value in rows && r.value.subjectId == Some(subjectId)
      ensures r.None? <==> forall s :: s in rows ==> s.subjectId != Some(subjectId)
    {
      FindBy(rows, SubjectKey, subjectId)
    }

    method DeleteSubject(subjectId: int)
      requires Valid()
      modifies this
      ensures Valid()
      ensures rows == WithoutSubject(old(rows), subjectId) && nextId == old(nextId)
      ensures forall s :: s in rows <==> s in old(rows) && s.subjectId != Some(subjectId)
    {
      DeleteSubjectEffect(rows, nextId, subjectId);
      rows := WithoutSubject(rows, subjectId);
    }
  }
}
