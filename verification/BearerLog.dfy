/** What the log of commits tells about every bearer session and refresh token, and hence what each operation answers. */
module BearerLog {
  import opened Common
  import opened Serial
  import opened BearerRows
  import opened BearerHistory

  /** The session as it was opened. */
  function Opened(log: History, id: Id): Option<Session> {
    if |log| == 0 then None
    else
      var last := log[|log| - 1];
      if last.op.CreateSession? && last.op.id == id then Some(last.op.session) else Opened(log[..|log| - 1], id)
  }

  /** The session for which a token was issued, and its times. */
  function Introduced(log: History, token: Id): Option<(Id, Issue)> {
    if |log| == 0 then None
    else
      match log[|log| - 1]
      case Entry(CreateSession(id, _, first, issue), _) =>
        if first == token then Some((id, issue)) else Introduced(log[..|log| - 1], token)
      case Entry(Rotate(_, next, owner, issue, _), Nothing) =>
        if next == token then Some((owner, issue)) else Introduced(log[..|log| - 1], token)
      case _ => Introduced(log[..|log| - 1], token)
  }

  /** When a token was exchanged for the next one. */
  function ExchangedAt(log: History, token: Id): Option<Time> {
    if |log| == 0 then None
    else if Exchanges(log[|log| - 1], token) then Some(log[|log| - 1].op.at)
    else ExchangedAt(log[..|log| - 1], token)
  }

  /** Commit `n` revokes the session: by name, with all of its subject's, or because one of its tokens was reused. */
  predicate RevokesSession(log: History, n: nat, id: Id)
    requires n < |log|
  {
    match log[n]
    case Entry(RevokeSession(named, _), _) => named == id
    case Entry(RevokeAll(subject, _), _) => Opened(log[..n], id).Some? && Opened(log[..n], id).value.subject == subject
    case Entry(Rotate(current, _, _, _, _), Reused) =>
      Introduced(log[..n], current).Some? && Introduced(log[..n], current).value.0 == id
    case _ => false
  }

  /** When the session was first revoked. */
  function SessionRevokedAt(log: History, id: Id): Option<Time> {
    if |log| == 0 then None
    else
      var n, before := |log| - 1, SessionRevokedAt(log[..|log| - 1], id);
      if log[n].op.CreateSession? && log[n].op.id == id then log[n].op.session.revokedAt
      else if before.Some? || Opened(log[..n], id).None? || !RevokesSession(log, n, id) then before
      else Some(log[n].op.at)
  }

  /** When the token was first revoked, with its session. */
  function TokenRevokedAt(log: History, token: Id): Option<Time> {
    if |log| == 0 then None
    else
      var n, before := |log| - 1, TokenRevokedAt(log[..|log| - 1], token);
      if before.Some? || Introduced(log[..n], token).None? || !RevokesSession(log, n, Introduced(log[..n], token).value.0)
      then before
      else Some(log[n].op.at)
  }

  function SessionTold(log: History, id: Id): Option<Session> {
    match Opened(log, id)
    case None => None
    case Some(session) => Some(Session(session.subject, session.createdAt, session.expiresAt, SessionRevokedAt(log, id)))
  }

  function TokenTold(log: History, token: Id): Option<Refresh> {
    match Introduced(log, token)
    case None => None
    case Some((id, issue)) =>
      Some(Refresh(id, issue.createdAt, issue.expiresAt, ExchangedAt(log, token), TokenRevokedAt(log, token)))
  }

  function SessionOf(rows: Rows,
      id: Id): Option<Session> { if id in rows.sessions then Some(rows.sessions[id]) else None }

  function TokenOf(rows: Rows,
      token: Id): Option<Refresh> { if token in rows.tokens then Some(rows.tokens[token]) else None }

  // ---------------------------------------------------------------- one commit

  /** The commit revokes the session, as the rows before it have it. */
  predicate RevokesRow(rows: Rows, entry: Entry<Op, Reply>, id: Id) {
    match entry
    case Entry(RevokeSession(named, _), _) => named == id
    case Entry(RevokeAll(subject, _), _) => id in rows.sessions && rows.sessions[id].subject == subject
    case Entry(Rotate(current, _, _, _, _), Reused) => current in rows.tokens && rows.tokens[current].session == id
    case _ => false
  }

  lemma StepTellsSession(rows: Rows, entry: Entry<Op, Reply>, id: Id)
    requires Step(rows, entry.op).Done? && Step(rows, entry.op).reply == entry.reply
    ensures SessionOf(Step(rows, entry.op).rows, id) ==
      if entry.op.CreateSession? && entry.op.id == id then Some(entry.op.session)
      else if id in rows.sessions && RevokesRow(rows, entry, id) && rows.sessions[id].revokedAt.None?
      then Some(rows.sessions[id].(revokedAt := Some(entry.op.at)))
      else SessionOf(rows, id)
    ensures entry.op.CreateSession? ==> entry.op.id !in rows.sessions
  {}

  lemma StepTellsToken(rows: Rows, entry: Entry<Op, Reply>, token: Id)
    requires Step(rows, entry.op).Done? && Step(rows, entry.op).reply == entry.reply
    ensures TokenOf(Step(rows, entry.op).rows, token) ==
      if entry.op.CreateSession? && entry.op.token == token then
        Some(Refresh(entry.op.id, entry.op.first.createdAt, entry.op.first.expiresAt, None, None))
      else if entry.op.Rotate? && entry.reply == Nothing && entry.op.token == token then
        Some(Refresh(entry.op.owner, entry.op.next.createdAt, entry.op.next.expiresAt, None, None))
      else if token !in rows.tokens then None
      else if Exchanges(entry, token) then Some(rows.tokens[token].(rotatedAt := Some(entry.op.at)))
      else if RevokesRow(rows, entry, rows.tokens[token].session) && rows.tokens[token].revokedAt.None? then
        Some(rows.tokens[token].(revokedAt := Some(entry.op.at)))
      else Some(rows.tokens[token])
    ensures entry.op.CreateSession? ==> entry.op.token !in rows.tokens
    ensures entry.op.Rotate? && entry.reply == Nothing ==> entry.op.token !in rows.tokens
    ensures Exchanges(entry, token) ==> token in rows.tokens && rows.tokens[token].rotatedAt.None?
  {}

  // ---------------------------------------------------------------- all commits

  /**
    Over every history each session is the one that was opened, revoked when it first was; and each refresh token is
    the one that was issued, rotated at the very time that its exchange names and revoked when its session first was.
  */
  lemma {:induction false} RowsAreTold(log: History)
    requires Replay(Step, EMPTY, log).Some?
    ensures forall id :: SessionOf(Replay(Step, EMPTY, log).value, id) == SessionTold(log, id)
    ensures forall token :: TokenOf(Replay(Step, EMPTY, log).value, token) == TokenTold(log, token)
  {
    if |log| > 0 {
      hide Step;
      RowsAreTold(log[..|log| - 1]);
      forall id ensures SessionOf(Replay(Step, EMPTY, log).value, id) == SessionTold(log, id) { SessionIsTold(log, id); }
      forall token ensures TokenOf(Replay(Step, EMPTY, log).value, token) == TokenTold(log, token) { TokenIsTold(log, token); }
    }
  }

  ghost predicate Told(log: History) {
    && Replay(Step, EMPTY, log).Some?
    && (forall id :: SessionOf(Replay(Step, EMPTY, log).value, id) == SessionTold(log, id))
    && (forall token :: TokenOf(Replay(Step, EMPTY, log).value, token) == TokenTold(log, token))
  }

  /** The log and the rows before a commit agree on what it revokes. */
  lemma RevokesAlike(log: History, id: Id)
    requires |log| > 0 && Told(log[..|log| - 1])
    ensures RevokesSession(log, |log| - 1, id) == RevokesRow(Replay(Step, EMPTY, log[..|log| - 1]).value, log[|log| - 1], id)
  {
    hide Step, Opened, Introduced, ExchangedAt, SessionRevokedAt, TokenRevokedAt;
    var before, entry := log[..|log| - 1], log[|log| - 1];
    var rows := Replay(Step, EMPTY, before).value;
    assert SessionOf(rows, id) == SessionTold(before, id);
    if entry.op.Rotate? {
      assert TokenOf(rows, entry.op.current) == TokenTold(before, entry.op.current);
    }
  }

  lemma SessionIsTold(log: History, id: Id)
    requires |log| > 0 && Told(log[..|log| - 1]) && Replay(Step, EMPTY, log).Some?
    ensures SessionOf(Replay(Step, EMPTY, log).value, id) == SessionTold(log, id)
  {
    hide Step, Introduced, ExchangedAt, TokenRevokedAt, RevokesSession, RevokesRow, TokenTold;
    var rows := Replay(Step, EMPTY, log[..|log| - 1]).value;
    StepTellsSession(rows, log[|log| - 1], id);
    RevokesAlike(log, id);
    assert SessionOf(rows, id) == SessionTold(log[..|log| - 1], id);
  }

  lemma TokenIsTold(log: History, token: Id)
    requires |log| > 0 && Told(log[..|log| - 1]) && Replay(Step, EMPTY, log).Some?
    ensures TokenOf(Replay(Step, EMPTY, log).value, token) == TokenTold(log, token)
  {
    hide Step, Opened, SessionRevokedAt, RevokesSession, SessionTold;
    var before := log[..|log| - 1];
    var rows := Replay(Step, EMPTY, before).value;
    StepTellsToken(rows, log[|log| - 1], token);
    assert TokenOf(rows, token) == TokenTold(before, token);
    if token in rows.tokens { RevokesAlike(log, rows.tokens[token].session); }
    UntoldIsUntouched(before, token);
  }

  /** A token that was not issued has not been exchanged or revoked. */
  lemma {:induction false} UntoldIsUntouched(log: History, token: Id)
    requires Replay(Step, EMPTY, log).Some?
    ensures Introduced(log, token).None? ==> ExchangedAt(log, token).None? && TokenRevokedAt(log, token).None?
  {
    if |log| > 0 {
      hide Step, RevokesSession;
      UntoldIsUntouched(log[..|log| - 1], token);
      StepTellsToken(Replay(Step, EMPTY, log[..|log| - 1]).value, log[|log| - 1], token);
      RowsAreTold(log[..|log| - 1]);
      assert TokenOf(Replay(Step, EMPTY, log[..|log| - 1]).value, token) == TokenTold(log[..|log| - 1], token);
    }
  }

  // ---------------------------------------------------------------- answers

  /** A token that may be exchanged: issued, not exchanged, not revoked, not expired. */
  predicate MayExchange(log: History, token: Id, at: Time) {
    && Introduced(log, token).Some? && ExchangedAt(log, token).None? && TokenRevokedAt(log, token).None?
    && at < Introduced(log, token).value.1.expiresAt
  }

  /** The answer that the log alone calls for. */
  ghost predicate CalledFor(log: History, op: Op, answer: Change) {
    match op
    case CreateSession(id, _, token, _) =>
      if Opened(log, id).Some? || Introduced(log, token).Some? then answer == Refused(TransactionConflict)
      else answer.Done? && answer.reply == Nothing
    case Rotate(current, token, _, _, at) =>
      if Introduced(log, current).None? then answer == Refused(NotFound)
      else if !MayExchange(log, current, at) then answer.Done? && answer.reply == Reused
      else if Introduced(log, token).Some? then answer == Refused(Conflict)
      else answer.Done? && answer.reply == Nothing
    case _ => answer.Done? && answer.reply == Nothing
  }

  /** What every operation answers after any history is told by the log alone. */
  lemma Answers(log: History, op: Op)
    requires Replay(Step, EMPTY, log).Some?
    ensures CalledFor(log, op, Step(Replay(Step, EMPTY, log).value, op))
  {
    hide Opened, Introduced, ExchangedAt, SessionRevokedAt, TokenRevokedAt, Replay;
    RowsAreTold(log);
    var rows := Replay(Step, EMPTY, log).value;
    match op
    case CreateSession(id, _, token, _) =>
      assert SessionOf(rows, id) == SessionTold(log, id) && TokenOf(rows, token) == TokenTold(log, token);
    case Rotate(current, token, _, _, _) =>
      assert TokenOf(rows, current) == TokenTold(log, current) && TokenOf(rows, token) == TokenTold(log, token);
    case _ =>
  }

  // ---------------------------------------------------------------- well-formed rows

  /** validRecord */
  predicate ValidToken(token: Id, record: Refresh) {
    && !Blank(record.session) && token != ZERO_HASH && record.createdAt != ZERO_TIME
    && record.expiresAt > record.createdAt
    && (record.rotatedAt.Some? ==> record.createdAt <= record.rotatedAt.value)
    && (record.revokedAt.Some? ==> record.createdAt <= record.revokedAt.value)
  }

  ghost predicate AllValid(rows: Rows) {
    forall token :: token in rows.tokens ==> ValidToken(token, rows.tokens[token])
  }

  predicate ValidIssue(session: Id, token: Id, issue: Issue) {
    !Blank(session) && token != ZERO_HASH && issue.createdAt != ZERO_TIME && issue.createdAt < issue.expiresAt
  }

  /** The commit issues a well-formed token, if any, and names a time no earlier than the creation of what it marks. */
  ghost predicate Timely(rows: Rows, entry: Entry<Op, Reply>) {
    match entry
    case Entry(CreateSession(id, _, token, first), _) => ValidIssue(id, token, first)
    case Entry(Rotate(current, token, owner, next, at), Nothing) =>
      ValidIssue(owner, token, next) && (current in rows.tokens ==> rows.tokens[current].createdAt <= at)
    case _ =>
      forall token :: token in rows.tokens && RevokesRow(rows, entry, rows.tokens[token].session) ==>
        rows.tokens[token].createdAt <= entry.op.at
  }

  ghost predicate TimelyAt(log: History, n: nat) {
    n < |log| && Replay(Step, EMPTY, log[..n]).Some? && Timely(Replay(Step, EMPTY, log[..n]).value, log[n])
  }

  ghost predicate AllTimely(log: History) {
    forall n: nat :: n < |log| ==> TimelyAt(log, n)
  }

  lemma StepKeepsValid(rows: Rows, entry: Entry<Op, Reply>)
    requires AllValid(rows) && Timely(rows, entry) && Step(rows, entry.op).Done? && Step(rows, entry.op).reply == entry.reply
    ensures AllValid(Step(rows, entry.op).rows)
  {
    hide Step, RevokesRow;
    var next := Step(rows, entry.op).rows;
    forall token | token in next.tokens ensures ValidToken(token, next.tokens[token]) {
      StepTellsToken(rows, entry, token);
      assert TokenOf(next, token) == Some(next.tokens[token]);
      if token in rows.tokens { OnlyRevocationsRevoke(rows, entry, rows.tokens[token].session); }
    }
  }

  lemma OnlyRevocationsRevoke(rows: Rows, entry: Entry<Op, Reply>, id: Id)
    ensures RevokesRow(rows, entry, id) ==> !entry.op.CreateSession? && !(entry.op.Rotate? && entry.reply == Nothing)
  {}

  /** Over histories whose commits name times no earlier than the rows they mark, every stored token is well-formed. */
  lemma {:induction false} TokensStayValid(log: History)
    requires Replay(Step, EMPTY, log).Some? && AllTimely(log)
    ensures AllValid(Replay(Step, EMPTY, log).value)
  {
    if |log| > 0 {
      var before := log[..|log| - 1];
      forall n: nat | n < |before| ensures TimelyAt(before, n) {
        assert TimelyAt(log, n) && before[..n] == log[..n];
      }
      TokensStayValid(before);
      assert TimelyAt(log, |log| - 1);
      StepKeepsValid(Replay(Step, EMPTY, before).value, log[|log| - 1]);
    }
  }

  /** Well-formed, and none from the future. */
  ghost predicate Sane(rows: Rows, clock: Time) {
    AllValid(rows) && forall token :: token in rows.tokens ==> rows.tokens[token].createdAt <= clock
  }

  lemma SaneLater(rows: Rows, clock: Time, later: Time)
    requires Sane(rows, clock) && clock <= later
    ensures Sane(rows, later)
  {}

  /** What an operation at `at` leaves behind, when it issues, if anything, a well-formed token from before `later`. */
  lemma StepStaysSane(rows: Rows, entry: Entry<Op, Reply>, at: Time, later: Time)
    requires Sane(rows, at) && at <= later && Step(rows, entry.op).Done? && Step(rows, entry.op).reply == entry.reply
    requires entry.op.CreateSession? ==> ValidIssue(entry.op.id, entry.op.token, entry.op.first) && entry.op.first.createdAt <= later
    requires entry.op.Rotate? && entry.reply == Nothing ==>
      ValidIssue(entry.op.owner, entry.op.token, entry.op.next) && entry.op.next.createdAt <= later
    requires !entry.op.CreateSession? ==> at <= entry.op.at
    ensures Timely(rows, entry) && Sane(Step(rows, entry.op).rows, later)
  {
    hide Step, RevokesRow, ValidIssue, ValidToken;
    StepKeepsValid(rows, entry);
    var next := Step(rows, entry.op).rows;
    forall token | token in next.tokens ensures next.tokens[token].createdAt <= later {
      StepTellsToken(rows, entry, token);
      assert TokenOf(next, token) == Some(next.tokens[token]);
    }
  }
}
