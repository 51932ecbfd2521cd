/** What the log of commits tells about every cookie session, and hence what each operation answers. */
module SessionLog {
  import opened Common
  import opened Serial
  import opened SessionRows
  import opened SessionHistory

  /** The record that the operation stores under the token for the first time. */
  function Opens(op: Op, token: Id): Option<Record> {
    match op
    case Create(record) => if record.token == token then Some(record) else None
    case Rotate(_, replacement, _) => if replacement.token == token then Some(replacement) else None
    case _ => None
  }

  /** The session as it was created, or as it replaced another. */
  function Opened(log: History, token: Id): Option<Record> {
    if |log| == 0 then None
    else if Opens(log[|log| - 1].op, token).Some? then Opens(log[|log| - 1].op, token)
    else Opened(log[..|log| - 1], token)
  }

  /** The expiry that the last extension asked for. */
  function ExpiryTold(log: History, token: Id): Option<Time> {
    if |log| == 0 then None
    else
      var op := log[|log| - 1].op;
      if Opens(op, token).Some? then Some(Opens(op, token).value.expiresAt)
      else if op.Extend? && op.token == token then Some(op.expiresAt)
      else ExpiryTold(log[..|log| - 1], token)
  }

  /**
    The time of the last extension by its caller's clock, except that a retry keeps the time of an earlier extension
    and otherwise has what its caller's variable held.
  */
  function ExtensionTold(log: History, token: Id): Option<Time> {
    if |log| == 0 then None
    else
      var op, before := log[|log| - 1].op, ExtensionTold(log[..|log| - 1], token);
      if Opens(op, token).Some? then Opens(op, token).value.extendedAt
      else if !(op.Extend? && op.token == token) then before
      else if op.retry.None? then Some(op.at)
      else if before.Some? then before
      else op.retry
  }

  /** Commit `n` revokes the session: by its token, with all of its subject's, or because it was replaced. */
  predicate RevokesSession(log: History, n: nat, token: Id)
    requires n < |log|
  {
    match log[n].op
    case Revoke(named, _) => named == token
    case RevokeAll(subject, _) => Opened(log[..n], token).Some? && Opened(log[..n], token).value.subject == subject
    case Rotate(current, _, _) => current == token
    case _ => false
  }

  /** When the session was first revoked. */
  function RevocationTold(log: History, token: Id): Option<Time> {
    if |log| == 0 then None
    else
      var n, before := |log| - 1, RevocationTold(log[..|log| - 1], token);
      if Opens(log[n].op, token).Some? then Opens(log[n].op, token).value.revokedAt
      else if before.None? && Opened(log[..n], token).Some? && RevokesSession(log, n, token) then Some(log[n].op.at)
      else before
  }

  function SessionTold(log: History, token: Id): Option<Record> {
    match Opened(log, token)
    case None => None
    case Some(record) =>
      Some(Record(record.id, record.subject, token, record.createdAt, OrElse(ExpiryTold(log, token), record.expiresAt),
                  ExtensionTold(log, token), RevocationTold(log, token)))
  }

  function RowOf(rows: Rows, token: Id): Option<Record> { if token in rows then Some(rows[token]) else None }

  // ---------------------------------------------------------------- one commit

  /** The commit revokes the session, as the rows before it have it. */
  predicate RevokesRow(rows: Rows, op: Op, token: Id) {
    match op
    case Revoke(named, _) => named == token
    case RevokeAll(subject, _) => token in rows && rows[token].subject == subject
    case Rotate(current, _, _) => current == token
    case _ => false
  }

  lemma StepTells(rows: Rows, op: Op, token: Id)
    requires Step(rows, op).Done?
    ensures Opens(op, token).Some? ==> token !in rows
    ensures op.Extend? && op.token == token ==> token in rows
    ensures RowOf(Step(rows, op).rows, token) ==
      if Opens(op, token).Some? then Opens(op, token)
      else if token !in rows then None
      else if op.Extend? && op.token == token then
        Some(rows[token].(expiresAt := op.expiresAt, extendedAt :=
          if op.retry.None? then Some(op.at) else if rows[token].extendedAt.Some? then rows[token].extendedAt else op.retry))
      else if RevokesRow(rows, op, token) && rows[token].revokedAt.None? then Some(rows[token].(revokedAt := Some(op.at)))
      else Some(rows[token])
  {}

  // ---------------------------------------------------------------- all commits

  ghost predicate Told(log: History) {
    && Replay(Step, EMPTY, log).Some?
    && forall token :: RowOf(Replay(Step, EMPTY, log).value, token) == SessionTold(log, token)
  }

  /**
    Over every history each session is the one that was opened, with the expiry asked for by its last extension, the
    extension time that the extensions leave, and revoked when it first was.
  */
  lemma {:induction false} RowsAreTold(log: History)
    requires Replay(Step, EMPTY, log).Some?
    ensures forall token :: RowOf(Replay(Step, EMPTY, log).value, token) == SessionTold(log, token)
  {
    if |log| > 0 {
      hide Step;
      RowsAreTold(log[..|log| - 1]);
      forall token ensures RowOf(Replay(Step, EMPTY, log).value, token) == SessionTold(log, token) {
        SessionIsTold(log, token);
      }
    }
  }

  lemma SessionIsTold(log: History, token: Id)
    requires |log| > 0 && Told(log[..|log| - 1]) && Replay(Step, EMPTY, log).Some?
    ensures RowOf(Replay(Step, EMPTY, log).value, token) == SessionTold(log, token)
  {
    hide Step;
    var before, op := log[..|log| - 1], log[|log| - 1].op;
    var rows := Replay(Step, EMPTY, before).value;
    StepTells(rows, op, token);
    OpensItsToken(before, token);
    assert RowOf(rows, token) == SessionTold(before, token);
    assert token in rows ==> RevokesSession(log, |log| - 1, token) == RevokesRow(rows, op, token);
  }

  /** A session is stored under its own token, and has an expiry as long as it has a record. */
  lemma {:induction false} OpensItsToken(log: History, token: Id)
    ensures Opened(log, token).Some? ==> Opened(log, token).value.token == token && ExpiryTold(log, token).Some?
  {
    if |log| > 0 { OpensItsToken(log[..|log| - 1], token); }
  }

  // ---------------------------------------------------------------- answers

  /** The token or the identifier of the record is in use. */
  ghost predicate Taken(log: History, record: Record) {
    exists token :: Opened(log, token).Some? && (token == record.token || Opened(log, token).value.id == record.id)
  }

  /** The answer that the log alone calls for. */
  ghost predicate CalledFor(log: History, op: Op, answer: Outcome<Rows, Reply, Error>) {
    match op
    case Create(record) => if Taken(log, record) then answer == Refused(Conflict) else answer.Done? && answer.reply == Nothing
    case Extend(token, at, retry, expiresAt) => ExtensionAnswer(SessionTold(log, token), at, retry, expiresAt, answer)
    case Rotate(current, replacement, at) =>
      if SessionTold(log, current).None? then answer == Refused(NotFound)
      else if SessionTold(log, current).value.revokedAt.Some? || SessionTold(log, current).value.expiresAt <= at
      then answer == Refused(Inactive)
      else if Taken(log, replacement) then answer == Refused(Conflict)
      else answer.Done? && answer.reply == Nothing
    case Revoke(token, _) =>
      if SessionTold(log, token).None? then answer == Refused(NotFound) else answer.Done? && answer.reply == Nothing
    case RevokeAll(subject, at) =>
      answer.Done? && answer.reply.Many? && forall record :: record in answer.reply.records <==> RevokedOf(log, subject, at, record)
  }

  /** An extension needs a session that is active at the time it records, and a later expiry than that has. */
  predicate ExtensionAnswer(told: Option<Record>, at: Time, retry: Option<Time>, expiresAt: Time,
      answer: Outcome<Rows, Reply, Error>) {
    if told.None? then answer == Refused(Inactive)
    else
      var time := if retry.None? then at else if told.value.extendedAt.Some? then told.value.extendedAt.value else retry.value;
      if told.value.revokedAt.Some? || told.value.expiresAt <= time || expiresAt <= told.value.expiresAt
      then answer == Refused(Inactive)
      else answer.Done? && answer.reply == One(told.value.(extendedAt := Some(time), expiresAt := expiresAt))
  }

  /** A session of the subject, as it is once all of them have been revoked at `at`. */
  predicate RevokedOf(log: History, subject: Id, at: Time, record: Record) {
    && SessionTold(log, record.token).Some?
    && var told := SessionTold(log, record.token).value;
    && told.subject == subject && record == told.(revokedAt := Some(OrElse(told.revokedAt, at)))
  }

  lemma TakenAlike(log: History, record: Record)
    requires Told(log)
    ensures Taken(log, record) <==> Duplicate(Replay(Step, EMPTY, log).value, record)
  {
    hide Step, ExpiryTold, ExtensionTold, RevocationTold, Opened;
    var rows := Replay(Step, EMPTY, log).value;
    if token :| Opened(log, token).Some? && (token == record.token || Opened(log, token).value.id == record.id) {
      assert RowOf(rows, token) == SessionTold(log, token);
    }
    assert RowOf(rows, record.token) == SessionTold(log, record.token);
    if token :| token in rows && rows[token].id == record.id {
      assert RowOf(rows, token) == SessionTold(log, token);
    }
  }

  lemma RevokedAlike(log: History, subject: Id, at: Time, record: Record)
    requires Told(log)
    ensures var records := Step(Replay(Step, EMPTY, log).value, RevokeAll(subject, at)).reply.records;
      record in records <==> RevokedOf(log, subject, at, record)
  {
    hide ExpiryTold, ExtensionTold, RevocationTold, Opened, Replay;
    var rows := Replay(Step, EMPTY, log).value;
    var next := RevokeSubject(rows, subject, at);
    assert RowOf(rows, record.token) == SessionTold(log, record.token);
    if RevokedOf(log, subject, at, record) {
      assert next[record.token] == record;
    }
    if token :| token in next && next[token].subject == subject && next[token] == record {
      assert RowOf(rows, token) == SessionTold(log, token);
    }
  }

  /** What every operation answers after any history is told by the log alone. */
  lemma Answers(log: History, op: Op)
    requires Replay(Step, EMPTY, log).Some?
    ensures CalledFor(log, op, Step(Replay(Step, EMPTY, log).value, op))
  {
    hide Opened, ExpiryTold, ExtensionTold, RevocationTold, SessionTold, Taken, Duplicate, Replay, RevokedOf;
    RowsAreTold(log);
    var rows := Replay(Step, EMPTY, log).value;
    match op
    case Create(record) => TakenAlike(log, record);
    case Extend(token, _, _, _) => assert RowOf(rows, token) == SessionTold(log, token);
    case Rotate(current, replacement, _) =>
      assert RowOf(rows, current) == SessionTold(log, current);
      TakenAlike(log, replacement);
    case Revoke(token, _) => assert RowOf(rows, token) == SessionTold(log, token);
    case RevokeAll(subject, at) =>
      forall record
        ensures record in Step(rows, RevokeAll(subject, at)).reply.records <==> RevokedOf(log, subject, at, record)
      {
        RevokedAlike(log, subject, at, record);
      }
  }

  // ---------------------------------------------------------------- well-formed rows

  /** validRecord */
  predicate ValidRecord(record: Record) {
    && !Blank(record.id) && !Blank(record.subject) && record.token != ZERO_HASH && record.createdAt != ZERO_TIME
    && record.expiresAt > record.createdAt
    && (record.revokedAt.Some? ==> record.createdAt <= record.revokedAt.value)
    && (record.extendedAt.Some? ==> record.createdAt <= record.extendedAt.value <= record.expiresAt)
  }

  ghost predicate AllValid(rows: Rows) {
    forall token :: token in rows ==> ValidRecord(rows[token])
  }

  /** The operation stores a well-formed record, if any, and names times no earlier than the creation of what it marks. */
  ghost predicate Timely(rows: Rows, op: Op) {
    && (forall token :: Opens(op, token).Some? ==> ValidRecord(Opens(op, token).value))
    && (op.Extend? && op.token in rows ==>
          rows[op.token].createdAt <= op.at && (op.retry.Some? ==> rows[op.token].createdAt <= op.retry.value))
    && (forall token :: token in rows && RevokesRow(rows, op, token) ==> rows[token].createdAt <= op.at)
  }

  lemma StepKeepsValid(rows: Rows, op: Op)
    requires AllValid(rows) && Timely(rows, op) && Step(rows, op).Done?
    ensures AllValid(Step(rows, op).rows)
  {
    hide RevokesRow, Duplicate, RevokeSubject, Blank;
    forall token | token in Step(rows, op).rows ensures ValidRecord(Step(rows, op).rows[token]) {
      StepTells(rows, op, token);
      assert RowOf(Step(rows, op).rows, token) == Some(Step(rows, op).rows[token]);
    }
  }

  ghost predicate TimelyAt(log: History, n: nat) {
    n < |log| && Replay(Step, EMPTY, log[..n]).Some? && Timely(Replay(Step, EMPTY, log[..n]).value, log[n].op)
  }

  /** Over histories whose commits name times no earlier than the rows they mark, every stored record is well-formed. */
  lemma {:induction false} RecordsStayValid(log: History)
    requires Replay(Step, EMPTY, log).Some? && forall n: nat :: n < |log| ==> TimelyAt(log, n)
    ensures AllValid(Replay(Step, EMPTY, log).value)
  {
    if |log| > 0 {
      var before := log[..|log| - 1];
      forall n: nat | n < |before| ensures TimelyAt(before, n) {
        assert TimelyAt(log, n) && before[..n] == log[..n];
      }
      RecordsStayValid(before);
      assert TimelyAt(log, |log| - 1);
      StepKeepsValid(Replay(Step, EMPTY, before).value, log[|log| - 1].op);
    }
  }

  /** Well-formed, and none from the future. */
  ghost predicate Sane(rows: Rows, clock: Time) {
    AllValid(rows) && forall token :: token in rows ==> rows[token].createdAt <= clock
  }

  lemma SaneLater(rows: Rows, clock: Time, later: Time)
    requires Sane(rows, clock) && clock <= later
    ensures Sane(rows, later)
  {}

  /** What an operation leaves behind, when it stores, if anything, a well-formed record from before `later`. */
  lemma StepStaysSane(rows: Rows, after: Rows, op: Op, r: Result<Reply, Error>, clock: Time, later: Time)
    requires Stepped(Step, rows, after, op, r) && Sane(rows, clock) && clock <= later && Timely(rows, op)
    requires op.Create? ==> op.record.createdAt <= later
    requires op.Rotate? ==> op.replacement.createdAt <= later
    ensures Sane(after, later)
  {
    hide RevokesRow, ValidRecord, RevokeSubject, Duplicate;
    if r.Ok? {
      StepKeepsValid(rows, op);
      forall token | token in after ensures after[token].createdAt <= later {
        StepTells(rows, op, token);
        assert RowOf(after, token) == Some(after[token]);
      }
    }
  }
}
