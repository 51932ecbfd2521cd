/** Bearer sessions and their refresh tokens as two row tables, the way the PostgreSQL adapter stores them. */
module BearerRows {
  import opened Common
  import opened Serial

  /** COALESCE(at, now). */
  function Coalesce(at: Option<Time>, now: Time): Option<Time> { if at.Some? then at else Some(now) }

  datatype Session = Session(subject: Id, createdAt: Time, expiresAt: Time, revokedAt: Option<Time>) {
    function Revoked(at: Time): Session { this.(revokedAt := Coalesce(revokedAt, at)) }
  }

  datatype Refresh = Refresh(
    session: Id, createdAt: Time, expiresAt: Time, rotatedAt: Option<Time>, revokedAt: Option<Time>)
  {
    predicate ActiveAt(at: Time) { rotatedAt.None? && revokedAt.None? && at < expiresAt }

    function Revoked(at: Time): Refresh { this.(revokedAt := Coalesce(revokedAt, at)) }
  }

  /** Sessions by identifier and refresh tokens by token hash. */
  datatype Rows = Rows(sessions: map<Id, Session>, tokens: map<Id, Refresh>)

  const EMPTY := Rows(map[], map[])

  datatype Error = Conflict | NotFound | TransactionConflict

  /** A new refresh token has not been rotated or revoked. */
  datatype Issue = Issue(createdAt: Time, expiresAt: Time)

  function New(session: Id, issue: Issue): Refresh {
    Refresh(session, issue.createdAt, issue.expiresAt, None, None)
  }

  /** A session is created together with its first refresh token, and Rotate names the replacement's session. */
  datatype Op =
    | CreateSession(id: Id, session: Session, token: Id, first: Issue)
    | Rotate(current: Id, token: Id, owner: Id, next: Issue, at: Time)
    | RevokeSession(id: Id, at: Time)
    | RevokeAll(subject: Id, at: Time)

  /** `Reused` is ErrReuseDetected, which is returned although the transaction committed. */
  datatype Reply = Nothing | Reused

  type Change = Outcome<Rows, Reply, Error>

  ghost function Step(rows: Rows, op: Op): Change {
    match op
    case CreateSession(id, session, token, first) =>
      if id in rows.sessions || token in rows.tokens then Refused(TransactionConflict)
      else Done(Rows(rows.sessions[id := session], rows.tokens[token := New(id, first)]), Nothing)
    case Rotate(current, token, session, next, at) =>
      if current !in rows.tokens then Refused(NotFound)
      else if !rows.tokens[current].ActiveAt(at) then
        Done(WithRevoked(rows, {rows.tokens[current].session}, at), Reused)
      else if token in rows.tokens then Refused(Conflict)
      else
        var rotated := rows.tokens[current].(rotatedAt := Some(at));
        Done(rows.(tokens := rows.tokens[current := rotated][token := New(session, next)]), Nothing)
    case RevokeSession(id, at) => Done(WithRevoked(rows, {id}, at), Nothing)
    case RevokeAll(subject, at) => Done(WithRevoked(rows, SessionsOf(rows, subject), at), Nothing)
  }

  ghost function SessionsOf(rows: Rows, subject: Id): set<Id> {
    set id | id in rows.sessions && rows.sessions[id].subject == subject
  }

  /** UPDATE ... SET revoked_at = COALESCE(revoked_at, at) on the listed sessions and on all their tokens. */
  function WithRevoked(rows: Rows, ids: set<Id>, at: Time): Rows {
    Rows(map id | id in rows.sessions :: if id in ids then rows.sessions[id].Revoked(at) else rows.sessions[id],
         map token | token in rows.tokens ::
           if rows.tokens[token].session in ids then rows.tokens[token].Revoked(at) else rows.tokens[token])
  }

  // ---------------------------------------------------------------- what no operation undoes

  predicate LaterMark(before: Option<Time>, after: Option<Time>) { before.Some? ==> after == before }

  predicate LaterSession(before: Session, after: Session) {
    after == before.(revokedAt := after.revokedAt) && LaterMark(before.revokedAt, after.revokedAt)
  }

  predicate LaterRefresh(before: Refresh, after: Refresh) {
    && after == before.(rotatedAt := after.rotatedAt, revokedAt := after.revokedAt)
    && LaterMark(before.rotatedAt, after.rotatedAt) && LaterMark(before.revokedAt, after.revokedAt)
  }

  ghost predicate SessionsEvolved(before: map<Id, Session>, after: map<Id, Session>) {
    forall id :: id in before ==> id in after && LaterSession(before[id], after[id])
  }

  ghost predicate TokensEvolved(before: map<Id, Refresh>, after: map<Id, Refresh>) {
    forall token :: token in before ==> token in after && LaterRefresh(before[token], after[token])
  }

  /** Rows are never deleted, and the times they record are kept once set. */
  ghost predicate Evolved(before: Rows, after: Rows) {
    SessionsEvolved(before.sessions, after.sessions) && TokensEvolved(before.tokens, after.tokens)
  }

  lemma EvolvedIsTransitive(a: Rows, b: Rows, c: Rows)
    requires Evolved(a, b) && Evolved(b, c)
    ensures Evolved(a, c)
  {}

  lemma StepEvolves(rows: Rows, op: Op)
    requires Step(rows, op).Done?
    ensures Evolved(rows, Step(rows, op).rows)
  {}
}
