/** Cookie sessions as one row table, the way the PostgreSQL adapter stores them. */
module SessionRows {
  import opened Common
  import opened Serial

  /** The row stored under a token hash, which is also its `token` field. */
  datatype Record = Record(
    id: Id, subject: Id, token: Id, createdAt: Time, expiresAt: Time, extendedAt: Option<Time>, revokedAt: Option<Time>)
  {
    /** Expiry is exclusive. */
    predicate ActiveAt(at: Time) { revokedAt.None? && at < expiresAt }

    /** The last extension, or the creation. */
    function LastExtended(): Time { if extendedAt.Some? then extendedAt.value else createdAt }

    /** COALESCE(revoked_at, at). */
    function Revoked(at: Time): Record { if revokedAt.None? then this.(revokedAt := Some(at)) else this }
  }

  type Rows = map<Id, Record>

  datatype Error = Conflict | NotFound | Inactive | TransactionConflict

  /**
    An extension names its caller's time. After a lost attempt `retry` is what the caller's variable then holds; see
    `RecordedAt`. The row tables always record the caller's time, that is, extend with `retry` None.
  */
  datatype Op =
    | Create(record: Record)
    | Extend(token: Id, at: Time, retry: Option<Time>, expiresAt: Time)
    | Rotate(current: Id, replacement: Record, at: Time)
    | Revoke(token: Id, at: Time)
    | RevokeAll(subject: Id, at: Time)

  datatype Reply = One(record: Record) | Many(records: set<Record>) | Nothing

  const EMPTY: Rows := map[]

  /** INSERT violates a unique constraint. */
  ghost predicate Duplicate(rows: Rows, record: Record) {
    record.token in rows || exists token :: token in rows && rows[token].id == record.id
  }

  /**
    The time an extension records and checks: the caller's at first. On a retry the caller's variable is aliased by the
    record that is being decoded: what it holds is used, unless the record has been extended before, which overwrites it.
  */
  function RecordedAt(at: Time, retry: Option<Time>, stored: Option<Time>): Time {
    if retry.None? then at else if stored.Some? then stored.value else retry.value
  }

  ghost function Step(rows: Rows, op: Op): Outcome<Rows, Reply, Error> {
    match op
    case Create(record) =>
      if Duplicate(rows, record) then Refused(Conflict) else Done(rows[record.token := record], Nothing)
    case Extend(token, at, retry, expiresAt) =>
      if token !in rows then Refused(Inactive)
      else
        var time := RecordedAt(at, retry, rows[token].extendedAt);
        if !rows[token].ActiveAt(time) || rows[token].expiresAt >= expiresAt then Refused(Inactive)
        else
          var extended := rows[token].(extendedAt := Some(time), expiresAt := expiresAt);
          Done(rows[token := extended], One(extended))
    case Rotate(current, replacement, at) =>
      if current !in rows then Refused(NotFound)
      else if !rows[current].ActiveAt(at) then Refused(Inactive)
      else if Duplicate(rows, replacement) then Refused(Conflict)
      else Done(rows[current := rows[current].Revoked(at)][replacement.token := replacement], Nothing)
    case Revoke(token, at) =>
      if token !in rows then Refused(NotFound) else Done(rows[token := rows[token].Revoked(at)], Nothing)
    case RevokeAll(subject, at) =>
      var next := RevokeSubject(rows, subject, at);
      Done(next, Many(set token | token in next && next[token].subject == subject :: next[token]))
  }

  function RevokeSubject(rows: Rows, subject: Id, at: Time): Rows {
    map token | token in rows :: if rows[token].subject == subject then rows[token].Revoked(at) else rows[token]
  }

  // ---------------------------------------------------------------- what no operation undoes

  /**
    A later version of the same row: identity fields never change, the expiry only grows, the first revocation
    time is kept, and a revoked row is frozen.
  */
  predicate LaterRecord(before: Record, after: Record) {
    && after.id == before.id && after.subject == before.subject && after.token == before.token
    && after.createdAt == before.createdAt && before.expiresAt <= after.expiresAt
    && (before.extendedAt.Some? ==> after.extendedAt.Some?)
    && (before.revokedAt.Some? ==> after == before)
  }

  /** Rows are never deleted and evolve only forwards. */
  ghost predicate Evolved(before: Rows, after: Rows) {
    forall token :: token in before ==> token in after && LaterRecord(before[token], after[token])
  }

  lemma EvolvedIsTransitive(a: Rows, b: Rows, c: Rows)
    requires Evolved(a, b) && Evolved(b, c)
    ensures Evolved(a, c)
  {}

  lemma StepEvolves(rows: Rows, op: Op)
    requires Step(rows, op).Done?
    ensures Evolved(rows, Step(rows, op).rows)
  {}
}
