/**
 * The SESSION table, as far as the modelled code changes it. SessionDao.kt and
 * SessionRepositoryImpl.kt are not part of this model: deleting a session is
 * taken to remove the row with the same primary key (Room's `@Delete`), and
 * deleting by subject to remove every row of that subject.
 */
module SessionDao {
  import opened Wrappers
  import opened Domain
  import opened Tables

  /** The primary key of a session row. */
  function SessionKey(s: Session): Option<int> {
    s.sessionId
  }

  /** The table after `@Delete deleteSession(session)`. */
  function WithoutSession(rows: seq<Session>, session: Session): seq<Session> {
    Filter(rows, (s: Session) => s.sessionId != session.sessionId)
  }

  /** The table after deleting every session of `subjectId`. */
  function WithoutSubject(rows: seq<Session>, subjectId: int): seq<Session> {
    Filter(rows, (s: Session) => s.sessionSubjectId != subjectId)
  }

  /**
   * Deleting a session removes the row with its key and no other row; a
   * session without a key matches no row, so nothing is removed.
   */
  lemma DeleteSessionEffect(rows: seq<Session>, session: Session)
    requires KeyedRows(rows, SessionKey)
    ensures KeyedRows(WithoutSession(rows, session), SessionKey)
    ensures session.sessionId.Some? ==>
      FindBy(WithoutSession(rows, session), SessionKey, session.sessionId.value) == None
    ensures forall id :: Some(id) != session.sessionId ==>
      FindBy(WithoutSession(rows, session), SessionKey, id) == FindBy(rows, SessionKey, id)
    ensures session.sessionId.None? ==> WithoutSession(rows, session) == rows
  {
    var keep := (s: Session) => s.sessionId != session.sessionId;
    FilterKeyed(rows, SessionKey, keep);
    forall id | Some(id) != session.sessionId
      ensures FindBy(WithoutSession(rows, session), SessionKey, id) == FindBy(rows, SessionKey, id)
    {
      FindByAfterFilter(rows, SessionKey, keep, id);
    }
    if session.sessionId.None? {
      KeyedRowsDistinct(rows, SessionKey);
      FilterAllKept(rows, keep);
    }
  }

  /** Filtering with a predicate every row satisfies changes nothing. */
  lemma {:induction false} FilterAllKept(rows: seq<Session>, p: Session -> bool)
    requires forall i :: 0 <= i < |rows| ==> p(rows[i])
    ensures Filter(rows, p) == rows
    decreases |rows|
  {
    if |rows| > 0 {
      FilterAllKept(rows[1..], p);
    }
  }

  lemma DeleteBySubjectKeyed(rows: seq<Session>, subjectId: int)
    requires KeyedRows(rows, SessionKey)
    ensures KeyedRows(WithoutSubject(rows, subjectId), SessionKey)
  {
    FilterKeyed(rows, SessionKey, (s: Session) => s.sessionSubjectId != subjectId);
  }

  /** The SESSION table. */
  class SessionTable {
    var rows: seq<Session>

    ghost predicate Valid()
      reads this
    {
      KeyedRows(rows, SessionKey)
    }

    /** A table holding `initial`; inserting sessions is not part of this model. */
    constructor (initial: seq<Session>)
      requires KeyedRows(initial, SessionKey)
      ensures Valid() && rows == initial
    {
      rows := initial;
    }

    method DeleteSession(session: Session)
      requires Valid()
      modifies this
      ensures Valid()
      ensures rows == WithoutSession(old(rows), session)
      ensures forall s :: s in rows <==> s in old(rows) && s.sessionId != session.sessionId
    {
      DeleteSessionEffect(rows, session);
      rows := WithoutSession(rows, session);
    }

    method DeleteSessionsBySubjectId(subjectId: int)
      requires Valid()
      modifies this
      ensures Valid()
      ensures rows == WithoutSubject(old(rows), subjectId)
      ensures forall s :: s in rows <==> s in old(rows) && s.sessionSubjectId != subjectId
    {
      DeleteBySubjectKeyed(rows, subjectId);
      rows := WithoutSubject(rows, subjectId);
    }
  }
}
