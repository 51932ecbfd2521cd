/** The refresh-token manager, the bearer-session manager above it, and the expiry of access tokens. */
module BearerManager {
  import opened Common
  import opened Serial
  import opened BearerRows
  import opened BearerHistory
  import opened BearerStore
  import opened BearerCalls
  import opened BearerLog
  import opened Optimistic
  import Watch

  datatype Failure =
    | InvalidToken | InvalidRecord | NotFound | Inactive | InactiveSession | Conflict | ReuseDetected | Unavailable

  function FailureOf(error: Error): Failure {
    match error
    case Conflict => Failure.Conflict
    case NotFound => Failure.NotFound
    case TransactionConflict => Unavailable
  }

  // ---------------------------------------------------------------- access tokens

  function Truncate(at: Time): Time { at - at % SECOND }

  /**
    The expiry of an access token: the lifetime from now, cut to whole seconds at the session's expiry if that
    comes first. An access token never outlives its session, and none is issued that would be born expired.
  */
  function AccessExpiry(now: Time, lifetime: Time, maximum: Time): (r: Option<Time>)
    requires lifetime > 0
    ensures r.Some? ==> now - SECOND < r.value <= now + lifetime && (maximum != ZERO_TIME ==> r.value <= maximum)
    ensures r.Some? ==> forall second: Time ::
      (second % SECOND == 0 && second <= now - now % SECOND + lifetime && (maximum == ZERO_TIME || second <= maximum)
       ==> second <= r.value)
    ensures r.Some? && (maximum == ZERO_TIME || now - now % SECOND + lifetime <= maximum) ==> r.value == now - now % SECOND + lifetime
    ensures r.None? <==> maximum != ZERO_TIME && maximum < now - now % SECOND + SECOND && maximum < now - now % SECOND + lifetime
  {
    var start := Truncate(now);
    var expiresAt := if maximum != ZERO_TIME && start + lifetime > maximum then Truncate(maximum) else start + lifetime;
    if expiresAt <= start then None else Some(expiresAt)
  }

  lemma TruncateTwice(at: Time)
    ensures Truncate(Truncate(at)) == Truncate(at) && at - SECOND < Truncate(at) <= at
  {}

  /** A signed access token names its subject, its session, and when it was issued and expires. */
  datatype AccessToken = AccessToken(subject: Id, session: Id, issuedAt: Time, expiresAt: Time)

  // ---------------------------------------------------------------- facts about histories

  /** The row that a token had at the start still says which session and expiry it has, and whether it was dead. */
  lemma TokenKept(log: History, start: nat, n: nat, token: Id)
    requires Replay(Step, EMPTY, log).Some? && start <= n <= |log|
    requires Replay(Step, EMPTY, log[..start]).Some? && token in Replay(Step, EMPTY, log[..start]).value.tokens
    ensures Replay(Step, EMPTY, log[..n]).Some? && token in Replay(Step, EMPTY, log[..n]).value.tokens
    ensures LaterRefresh(Replay(Step, EMPTY, log[..start]).value.tokens[token], Replay(Step, EMPTY, log[..n]).value.tokens[token])
  {
    Prefix(Step, EMPTY, log, n);
    assert log[..n][..start] == log[..start];
    LaterRows(log[..n], start);
  }

  /** What an exchange needs of the rows before it. */
  lemma ExchangeNeedsLive(log: History, n: nat, op: Op)
    requires Replay(Step, EMPTY, log).Some? && op.Rotate? && n < |log| && log[n] == Entry(op, Nothing)
    ensures Replay(Step, EMPTY, log[..n]).Some? && op.current in Replay(Step, EMPTY, log[..n]).value.tokens
    ensures Replay(Step, EMPTY, log[..n]).value.tokens[op.current].ActiveAt(op.at)
  {
    Prefix(Step, EMPTY, log, n + 1);
    assert log[..n + 1][..n] == log[..n];
    assert log[..n + 1][..|log[..n + 1]| - 1] == log[..n];
  }

  /** A token that was dead when a call began is not exchanged by it. */
  lemma DeadNotExchanged(log: History, start: nat, n: nat, op: Op, at: Time)
    requires Replay(Step, EMPTY, log).Some? && op.Rotate? && start <= n < |log| && log[n] == Entry(op, Nothing) && at <= op.at
    requires Replay(Step, EMPTY, log[..start]).Some?
    ensures !Dead(Replay(Step, EMPTY, log[..start]).value.tokens, op.current, at)
  {
    hide Step;
    ExchangeNeedsLive(log, n, op);
    if Dead(Replay(Step, EMPTY, log[..start]).value.tokens, op.current, at) {
      TokenKept(log, start, n, op.current);
    }
  }

  /** The token's session is revoked, and so is its whole chain. */
  ghost predicate ChainRevoked(rows: Rows, token: Id) {
    token in rows.tokens && Silenced(rows, rows.tokens[token].session)
  }

  /** Commit `n` was asked for as the managers do. */
  ghost predicate Asked(log: History, n: nat) {
    n < |log| && Replay(Step, EMPTY, log[..n]).Some? && Asks(Replay(Step, EMPTY, log[..n]).value, log[n])
  }

  /** A refresh token as given to the client, with its hash and its record. */
  datatype Issued = Issued(token: string, hash: Id, session: Id, record: Issue)

  lemma Logs(log: History, later: History)
    requires log <= later && Replay(Step, EMPTY, later).Some?
    ensures Replay(Step, EMPTY, log).Some?
    ensures Evolved(Replay(Step, EMPTY, log).value, Replay(Step, EMPTY, later).value)
  {
    assert later[..|log|] == log;
    LaterRows(later, |log|);
  }

  /** An exchange for the session and expiry of the row that was seen is what the managers ask for. */
  lemma ExchangedProperly(log: History, later: History, n: nat, op: Op, current: Refresh, began: Time)
    requires log <= later && Replay(Step, EMPTY, later).Some? && Replay(Step, EMPTY, log).Some? && op.Rotate?
    requires |log| <= n < |later| && later[n] == Entry(op, Nothing) && began <= op.at
    requires op.current in Replay(Step, EMPTY, log).value.tokens && Replay(Step, EMPTY, log).value.tokens[op.current] == current
    requires op.owner == current.session
    ensures !Dead(Replay(Step, EMPTY, log).value.tokens, op.current, began)
    ensures op.next.expiresAt == current.expiresAt ==> Asked(later, n)
  {
    assert later[..|log|] == log;
    TokenKept(later, |log|, n, op.current);
    DeadNotExchanged(later, |log|, n, op, began);
  }

  /** It is timely if the row that was seen is well-formed and from before. */
  lemma ExchangedTimely(log: History, later: History, n: nat, op: Op, current: Refresh)
    requires log <= later && Replay(Step, EMPTY, later).Some? && Replay(Step, EMPTY, log).Some? && op.Rotate?
    requires |log| <= n < |later| && later[n] == Entry(op, Nothing)
    requires op.current in Replay(Step, EMPTY, log).value.tokens && Replay(Step, EMPTY, log).value.tokens[op.current] == current
    requires ValidToken(op.current, current) && op.owner == current.session && current.createdAt <= op.at
    requires op.token != ZERO_HASH && op.next.createdAt != ZERO_TIME && op.next.createdAt <= op.at
    requires op.next.expiresAt == current.expiresAt || op.next.createdAt < op.next.expiresAt
    ensures TimelyAt(later, n)
  {
    hide Step;
    assert later[..|log|] == log;
    TokenKept(later, |log|, n, op.current);
    ExchangeNeedsLive(later, n, op);
  }

  /** Both, of an exchange of a call that began at `began`. */
  lemma ExchangedWell(log: History, later: History, n: nat, op: Op, current: Refresh, began: Time)
    requires log <= later && Replay(Step, EMPTY, later).Some? && Replay(Step, EMPTY, log).Some? && op.Rotate?
    requires |log| <= n < |later| && later[n] == Entry(op, Nothing) && began <= op.next.createdAt <= op.at
    requires op.current in Replay(Step, EMPTY, log).value.tokens && Replay(Step, EMPTY, log).value.tokens[op.current] == current
    requires ValidToken(op.current, current) && op.owner == current.session
    requires op.next.expiresAt == current.expiresAt || op.next.createdAt < op.next.expiresAt
    ensures !Dead(Replay(Step, EMPTY, log).value.tokens, op.current, began)
    ensures op.next.expiresAt == current.expiresAt ==> Asked(later, n)
    ensures SECOND <= began && op.token != ZERO_HASH && current.createdAt <= began ==> TimelyAt(later, n)
  {
    hide Step, Asked, TimelyAt, ValidToken;
    ExchangedProperly(log, later, n, op, current, began);
    if SECOND <= began && op.token != ZERO_HASH && current.createdAt <= began {
      ExchangedTimely(log, later, n, op, current);
    }
  }

  lemma NewIssueIsValid(id: Id, token: Id, created: Time, expiresAt: Time)
    requires !Blank(id) && created < expiresAt
    ensures created != ZERO_TIME && token != ZERO_HASH ==> ValidIssue(id, token, Issue(created, expiresAt))
  {}

  /** A session is created together with its first refresh token, and both end together. */
  lemma CreatedProperly(log: History, op: Op)
    requires Replay(Step, EMPTY, log).Some? && |log| > 0 && log[|log| - 1].op == op
    requires op.CreateSession? && op.session.revokedAt.None? && op.first.expiresAt == op.session.expiresAt
    ensures Asked(log, |log| - 1) && log[|log| - 1].reply == Nothing
    ensures ValidIssue(op.id, op.token, op.first) ==> TimelyAt(log, |log| - 1)
  {
    hide ValidIssue;
    CreationAnswers(Replay(Step, EMPTY, log[..|log| - 1]).value, op);
  }

  lemma CreationAnswers(rows: Rows, op: Op)
    requires op.CreateSession? && Step(rows, op).Done?
    ensures Step(rows, op).reply == Nothing
  {}

  /** A dead token stays dead. */
  lemma DeadStays(log: History, later: History, token: Id, began: Time, at: Time)
    requires log <= later && Replay(Step, EMPTY, later).Some? && began <= at
    ensures Replay(Step, EMPTY, log).Some?
    ensures Dead(Replay(Step, EMPTY, log).value.tokens, token, began) ==> Dead(Replay(Step, EMPTY, later).value.tokens, token, at)
  {
    Logs(log, later);
  }

  /** Without overlapping calls, a refused rotation changes nothing and a live token is refused only for a collision. */
  lemma SteppedRotation(before: Rows, after: Rows, op: Op, r: Result<Reply, Error>)
    requires op.Rotate? && Stepped(Step, before, after, op, r)
    ensures r.Err? ==> after == before
    ensures r.Err? ==> !r.error.TransactionConflict?
    ensures op.current in before.tokens && before.tokens[op.current].ActiveAt(op.at) ==> r == Ok(Nothing) || r == Err(Error.Conflict)
  {}

  /** The rotation names the session and the expiry of the row it replaces. */
  predicate Suits(rows: Rows, op: Op, lifetime: Time)
    requires op.Rotate?
  {
    && op.next.createdAt <= op.at && op.next.createdAt != ZERO_TIME && op.token != ZERO_HASH
    && (op.current in rows.tokens ==>
          && op.owner == rows.tokens[op.current].session
          && op.next.expiresAt == if rows.tokens[op.current].expiresAt == ZERO_TIME then op.next.createdAt + lifetime
                                  else rows.tokens[op.current].expiresAt)
  }

  /** Such a rotation leaves well-formed rows well-formed. */
  lemma RotationStaysSane(rows: Rows, after: Rows, op: Op, r: Result<Reply, Error>, lifetime: Time, at: Time, later: Time)
    requires op.Rotate? && Stepped(Step, rows, after, op, r) && Suits(rows, op, lifetime) && lifetime > 0
    requires Sane(rows, at) && at <= op.at <= later
    ensures Sane(after, later)
  {
    if r.Ok? {
      StepStaysSane(rows, Entry(op, r.value), at, later);
    } else {
      SaneLater(rows, at, later);
    }
  }

  /** Revoking leaves well-formed rows well-formed. */
  lemma RevocationStaysSane(rows: Rows, after: Rows, op: Op, r: Result<Reply, Error>, at: Time, later: Time)
    requires op.RevokeSession? || op.RevokeAll?
    requires Stepped(Step, rows, after, op, r) && Sane(rows, at) && at <= op.at <= later
    ensures r == Ok(Nothing) && Sane(after, later)
  {
    StepStaysSane(rows, Entry(op, Nothing), at, later);
  }

  lemma RevocationSucceeds(rows: Rows, after: Rows, op: Op, r: Result<Reply, Error>)
    requires op.RevokeSession? || op.RevokeAll?
    requires Stepped(Step, rows, after, op, r)
    ensures r == Ok(Nothing)
  {}

  /** Opening a session leaves well-formed rows well-formed. */
  lemma CreationStaysSane(rows: Rows, after: Rows, op: Op, r: Result<Reply, Error>, at: Time, later: Time)
    requires op.CreateSession? && Stepped(Step, rows, after, op, r) && Sane(rows, at) && at <= later
    requires ValidIssue(op.id, op.token, op.first) && op.first.createdAt <= later
    ensures Sane(after, later)
  {
    if r.Ok? {
      StepStaysSane(rows, Entry(op, r.value), at, later);
    } else {
      SaneLater(rows, at, later);
    }
  }

  lemma ExchangedIsDead(log: History, token: Id, at: Time)
    requires Replay(Step, EMPTY, log).Some?
    ensures ExchangedAt(log, token).Some? ==> Dead(Replay(Step, EMPTY, log).value.tokens, token, at)
  {
    hide Step;
    RowsAreTold(log);
    UntoldIsUntouched(log, token);
    assert TokenOf(Replay(Step, EMPTY, log).value, token) == TokenTold(log, token);
  }

  lemma MalformedWasUntimely(log: History, token: Id, clock: Time)
    requires Replay(Step, EMPTY, log).Some? && token in Replay(Step, EMPTY, log).value.tokens
    requires !ValidToken(token, Replay(Step, EMPTY, log).value.tokens[token])
    ensures !AllTimely(log) && !Sane(Replay(Step, EMPTY, log).value, clock)
  {
    if AllTimely(log) { TokensStayValid(log); }
  }

  /** The token is well-formed and not rotated, revoked or expired. */
  predicate Usable(rows: Rows, token: Id, at: Time) {
    token in rows.tokens && ValidToken(token, rows.tokens[token]) && rows.tokens[token].ActiveAt(at)
  }

  /** Revocations of this session, and of all of this subject's, at a time in between. */
  function Revoking(id: Id, from: Time, to: Time): Op -> bool {
    (op: Op) => op.RevokeSession? && op.id == id && from <= op.at <= to
  }

  function RevokingAll(subject: Id, from: Time, to: Time): Op -> bool {
    (op: Op) => op.RevokeAll? && op.subject == subject && from <= op.at <= to
  }

  function Rotating(token: Id, from: Time, to: Time): Op -> bool {
    (op: Op) => op.Rotate? && op.current == token && from <= op.at <= to
  }

  class RefreshManager {
    const store: BearerStore
    const lifetime: Time
    const hash: string -> Option<Id>   // HashToken
    var clock: Time
    ghost var failures: nat            // random values that could not be drawn or were taken, and failed signatures

    ghost predicate Valid()
      reads this, store
    {
      && store.Valid() && store.c == CODE && store.s == SPEC && lifetime > 0
      && Replay(Step, EMPTY, store.log) == Some(RowsOf(store.db))
    }

    constructor (store: BearerStore, lifetime: Time, hash: string -> Option<Id>, clock: Time)
      requires store.Valid() && store.c == CODE && store.s == SPEC && lifetime > 0
      requires Replay(Step, EMPTY, store.log) == Some(RowsOf(store.db))
      ensures Valid() && this.store == store && this.lifetime == lifetime && this.hash == hash && this.clock == clock
    {
      this.store, this.lifetime, this.hash, this.clock, failures := store, lifetime, hash, clock, 0;
    }

    /** Time and the history have moved forwards, and well-formed rows have stayed so. */
    twostate predicate Went()
      reads this, store
    {
      Moved() && (Healthy() ==> Sane(RowsOf(store.db), clock))
    }

    twostate predicate Moved()
      reads this, store
    {
      Valid() && old(store.log) <= store.log && old(clock) <= clock && old(failures) <= failures
    }

    /** Without overlapping calls: the rows were well-formed when the call began, and no token hashes to zero. */
    twostate predicate Healthy()
      reads this, store
    {
      store.quiet && Sane(old(RowsOf(store.db)), old(clock)) && SECOND <= old(clock) && NeverZero()
    }

    ghost predicate NeverZero() { forall raw :: hash(raw) != Some(ZERO_HASH) }

    /** This client has committed nothing, and without overlapping calls nobody has. */
    twostate predicate Still()
      reads this, store
    {
      && store.own == old(store.own)
      && (store.quiet ==> RowsOf(store.db) == RowsOf(old(store.db)) && store.log == old(store.log))
    }

    method Now() returns (at: Time)
      requires Valid()
      modifies this, store
      ensures Went() && Still() && at == clock && failures == old(failures)
    {
      at := clock;
    }

    /** The answer to a token that was dead when the call began. */
    twostate predicate Caught(token: Id, error: Failure)
      reads this, store
    {
      error == ReuseDetected || Out(error) || (error == InvalidRecord && Malformed(token))
    }

    /** The token's row is malformed. Then some commit was not timely, and without overlap one before the call. */
    ghost predicate Malformed(token: Id)
      reads this, store
    {
      token in RowsOf(store.db).tokens && !ValidToken(token, RowsOf(store.db).tokens[token])
    }

    /** The store was lost to contention, or the random source failed or its draw was taken. */
    twostate predicate Out(error: Failure)
      reads this, store
    {
      error == Unavailable && (store.quiet ==> old(failures) < failures)
    }

    method Find(token: Id) returns (r: Option<Refresh>)
      requires Valid()
      modifies this, store
      ensures Went() && store.own == old(store.own) && (store.quiet ==> RowsOf(store.db) == old(RowsOf(store.db)))
      ensures failures == old(failures)
      ensures r == if token in RowsOf(store.db).tokens then Some(RowsOf(store.db).tokens[token]) else None
      ensures Dead(old(RowsOf(store.db)).tokens, token, old(clock)) ==> Dead(RowsOf(store.db).tokens, token, clock)
    {
      hide Lawful;
      var db := Look(store);
      r := if token in db.tokens.value then Some(db.tokens.value[token]) else None;
    }

    /** Resolve validates a token without consuming it. */
    method ResolveToken(raw: string) returns (r: Result<Refresh, Failure>, ghost at: Time)
      requires Valid()
      modifies this, store
      ensures Went() && store.own == old(store.own) && old(clock) <= at <= clock
      ensures store.quiet ==> RowsOf(store.db) == old(RowsOf(store.db))
      ensures r.Ok? || r.error == Inactive ==>
        && hash(raw).Some? && hash(raw).value in RowsOf(store.db).tokens
        && (r.Ok? ==> LaterRefresh(r.value, RowsOf(store.db).tokens[hash(raw).value]) && r.value.ActiveAt(at))
        && (r.Err? ==> Dead(RowsOf(store.db).tokens, hash(raw).value, at))
      ensures hash(raw).Some? && Dead(old(RowsOf(store.db)).tokens, hash(raw).value, old(clock)) ==>
        r.Err? && (r.error == Inactive || (r.error == InvalidRecord && Caught(hash(raw).value, r.error)))
      ensures r != Err(ReuseDetected)
      ensures r == Err(InvalidRecord) ==> hash(raw).Some? && Malformed(hash(raw).value)
      ensures store.quiet && hash(raw).Some? ==>
        var tokens, token := old(RowsOf(store.db)).tokens, hash(raw).value;
        if token !in tokens then r == Err(Failure.NotFound)
        else ValidToken(token, tokens[token]) ==>
          r == if tokens[token].rotatedAt.None? && tokens[token].revokedAt.None? && at < tokens[token].expiresAt
               then Ok(tokens[token]) else Err(Inactive)
    {
      hide ValidToken, Sane, Step, Lawful, Consistent, Replay;
      at := clock;
      if hash(raw).None? {
        return Err(InvalidToken), at;
      }
      var token := hash(raw).value;
      var found := Find(token);
      if found.None? {
        return Err(Failure.NotFound), at;
      }
      ghost var log := store.log;
      if !ValidToken(token, found.value) {
        return Err(InvalidRecord), at;
      }
      var now := Now();
      at := now;
      Logs(log, store.log);
      if !found.value.ActiveAt(now) {
        return Err(Inactive), at;
      }
      return Ok(found.value), at;
    }

    /** A random token, which may fail to be generated or may collide. */
    method NewIssued(session: Id, expiresAt: Time) returns (r: Option<Issued>)
      requires Valid()
      modifies this, store
      ensures Went() && Still() && failures == old(failures) + if r.None? then 1 else 0
      ensures r.Some? ==>
        && hash(r.value.token) == Some(r.value.hash) && r.value.session == session
        && old(clock) <= r.value.record.createdAt <= clock
        && r.value.record.expiresAt == if expiresAt == ZERO_TIME then r.value.record.createdAt + lifetime else expiresAt
    {
      hide Sane;
      var raw: string := *;
      var now := Now();
      match hash(raw) {
        case None =>
          failures := failures + 1;
          return None;
        case Some(hashed) =>
          return Some(Issued(raw, hashed, session, Issue(now, if expiresAt == ZERO_TIME then now + lifetime else expiresAt)));
      }
    }

    method RotateDurably(op: Op) returns (r: Result<Reply, Error>)
      requires Valid() && op.Rotate?
      modifies this, store
      ensures Moved() && clock == old(clock) && failures == old(failures) && store.MadeExactly(op, r)
      ensures Healthy() && Suits(old(RowsOf(store.db)), op, lifetime) && op.at == clock ==> Sane(RowsOf(store.db), clock)
      ensures r == Ok(Reused) ==> ChainRevoked(RowsOf(store.db), op.current)
      ensures Dead(old(RowsOf(store.db)).tokens, op.current, op.at) ==> r == Ok(Reused) || r == Err(TransactionConflict)
      ensures store.quiet ==>
        && (r.Err? ==> RowsOf(store.db) == old(RowsOf(store.db)) && !r.error.TransactionConflict?)
        && (Usable(old(RowsOf(store.db)), op.current, op.at) ==> r == Ok(Nothing) || r == Err(Error.Conflict))
    {
      hide Lawful, Step, Sane, Suits;
      ghost var rows := RowsOf(store.db);
      r := BearerCalls.RotateToken(store, op);
      if store.quiet {
        SteppedRotation(rows, RowsOf(store.db), op, r);
      }
      if Healthy() && Suits(rows, op, lifetime) && op.at == clock {
        RotationStaysSane(rows, RowsOf(store.db), op, r, lifetime, old(clock), clock);
      }
      if r == Ok(Reused) {
        ReuseRevokesChain(store.log, op.current);
      }
    }

    /** Exactly one commit of the call exchanged `token` for `issued`, which keeps the session and the expiry of `row`. */
    twostate predicate Exchanged(n: nat, token: Id, row: Refresh, new issued: Issued, at: Time)
      reads this, store
    {
      && store.Made(n, Op.Rotate(token, issued.hash, issued.session, issued.record, at), Nothing)
      && Replaces(row, issued) && old(clock) <= issued.record.createdAt <= at <= clock
    }

    /** The replacement of a token: same session, same expiry, unless that is unset. */
    predicate Replaces(row: Refresh, issued: Issued) {
      && hash(issued.token) == Some(issued.hash) && issued.session == row.session
      && issued.record.expiresAt == if row.expiresAt == ZERO_TIME then issued.record.createdAt + lifetime else row.expiresAt
    }

    /** What a failed rotation has committed: nothing, or the revocation that answers a reuse. */
    twostate predicate Failed(token: Id, error: Failure)
      reads this, store
    {
      if error == ReuseDetected then
        |store.own| == |old(store.own)| + 1 && store.MadeOnly(Rotating(token, old(clock), clock))
      else
        store.own == old(store.own)
    }

    /** The commit of one attempt. */
    method RotateTo(token: Id, issued: Issued) returns (r: Result<Reply, Error>, ghost at: Time)
      requires Valid() && issued.record.createdAt <= clock && hash(issued.token) == Some(issued.hash)
      requires store.quiet && token in RowsOf(store.db).tokens ==> Replaces(RowsOf(store.db).tokens[token], issued)
      modifies this, store
      ensures Moved() && old(clock) <= at <= clock && failures == old(failures)
      ensures Healthy() && issued.record.createdAt != ZERO_TIME ==> Sane(RowsOf(store.db), clock)
      ensures store.MadeExactly(Op.Rotate(token, issued.hash, issued.session, issued.record, at), r)
      ensures r == Ok(Reused) ==> ChainRevoked(RowsOf(store.db), token)
      ensures Dead(old(RowsOf(store.db)).tokens, token, old(clock)) ==> r == Ok(Reused) || r == Err(TransactionConflict)
      ensures store.quiet ==>
        && (r.Err? ==> RowsOf(store.db) == old(RowsOf(store.db)) && !r.error.TransactionConflict?)
        && (Usable(old(RowsOf(store.db)), token, clock) ==> r == Ok(Nothing) || r == Err(Error.Conflict))
    {
      hide Sane;
      ghost var log := store.log;
      var now := Now();
      DeadStays(log, store.log, token, old(clock), now);
      at := now;
      r := RotateDurably(Op.Rotate(token, issued.hash, issued.session, issued.record, now));
    }

    /** One attempt of Rotate; None if the new token was taken. */
    method RotateOnce(token: Id, current: Refresh)
        returns (r: Option<Result<Issued, Failure>>, ghost n: nat, ghost at: Time)
      requires Valid()
      requires store.quiet && token in RowsOf(store.db).tokens ==>
        RowsOf(store.db).tokens[token].session == current.session && RowsOf(store.db).tokens[token].expiresAt == current.expiresAt
      modifies this, store
      ensures Went()
      ensures r.None? ==> store.own == old(store.own) && failures == old(failures) + 1
      ensures failures <= old(failures) + 1 && (r.Some? && r.value.Err? ==> r.value.error != Failure.Conflict)
      ensures r.Some? && r.value.Err? ==> Failed(token, r.value.error)
      ensures r.Some? && r.value.Ok? ==> Exchanged(n, token, current, r.value.value, at)
      ensures r.Some? && r.value == Err(ReuseDetected) ==> ChainRevoked(RowsOf(store.db), token)
      ensures r.Some? && r.value.Err? && r.value.error != ReuseDetected ==> r.value.error == Failure.NotFound || Out(r.value.error)
      ensures Dead(old(RowsOf(store.db)).tokens, token, old(clock)) ==> r.Some? && r.value.Err? && Caught(token, r.value.error)
      ensures store.quiet ==>
        && (r.None? ==> RowsOf(store.db) == old(RowsOf(store.db)))
        && (Usable(old(RowsOf(store.db)), token, clock) ==> r.None? || r.value.Ok? || Out(r.value.error))
    {
      hide Step, ChainRevoked, Lawful, Consistent, Replay, Sane;
      n, at := 0, clock;
      ghost var log := store.log;
      var issued := NewIssued(current.session, current.expiresAt);
      DeadStays(log, store.log, token, old(clock), clock);
      if issued.None? {
        return Some(Err(Unavailable)), n, at;
      }
      var answer, time := RotateTo(token, issued.value);
      at := time;
      match answer {
        case Err(error) =>
          if error.Conflict? {
            failures := failures + 1;
            return None, n, at;
          }
          return Some(Err(FailureOf(error))), n, at;
        case Ok(Reused) =>
          return Some(Err(ReuseDetected)), n, at;
        case Ok(Nothing) =>
          n := |store.log| - 1;
          return Some(Ok(issued.value)), n, at;
      }
    }

    /**
      Rotate consumes a token once. On success exactly one commit of the call replaced it for the session and the
      expiry that its row has, as the managers ask; ErrReuseDetected means that the session and its whole chain
      are revoked; and a token that was dead when the call began is never exchanged, but its reuse is detected,
      whoever else runs, unless its row is malformed, the store is lost to contention or no token can be drawn. Without
      overlapping calls a well-formed live token is exchanged, unless all three new tokens collide or none can be drawn.
    */
    method RotateToken(raw: string) returns (r: Result<Issued, Failure>, ghost n: nat, ghost at: Time)
      requires Valid()
      modifies this, store
      ensures Went()
      ensures r.Ok? ==> hash(raw).Some? && Rotated(n, hash(raw).value, r.value, at)
      ensures r.Err? ==> if hash(raw).Some? then Failed(hash(raw).value, r.error) else store.own == old(store.own)
      ensures r == Err(ReuseDetected) ==> hash(raw).Some? && ChainRevoked(RowsOf(store.db), hash(raw).value)
      ensures hash(raw).Some? && Dead(old(RowsOf(store.db)).tokens, hash(raw).value, old(clock)) ==>
        r.Err? && Caught(hash(raw).value, r.error)
      ensures r != Err(Inactive)
      ensures hash(raw).Some? && ExchangedAt(old(store.log), hash(raw).value).Some? ==> r.Err? && Caught(hash(raw).value, r.error)
      ensures r == Err(InvalidRecord) ==> !AllTimely(store.log) && !Healthy()
      ensures failures <= old(failures) + 3 && (r == Err(Failure.Conflict) ==> failures == old(failures) + 3)
      ensures store.quiet && hash(raw).Some? && Usable(old(RowsOf(store.db)), hash(raw).value, clock) ==>
        r.Ok? || old(failures) < failures
    {
      hide Sane, Step, Lawful, ChainRevoked, Consistent, Replay, ExchangedAt, AllTimely, TimelyAt, Asked, ValidToken;
      ghost var start := store.log;
      if hash(raw).Some? { ExchangedIsDead(start, hash(raw).value, clock); }
      n, at := 0, clock;
      if hash(raw).None? {
        return Err(InvalidToken), n, at;
      }
      var token := hash(raw).value;
      var found := Find(token);
      if found.None? {
        return Err(Failure.NotFound), n, at;
      }
      if !ValidToken(token, found.value) {
        MalformedWasUntimely(store.log, token, clock);
        return Err(InvalidRecord), n, at;
      }
      ghost var log := store.log;
      r, n, at := RotateLoop(token, found.value);
      Logs(log, store.log);
    }

    /** The exchange, told by the row that the token has; an unset expiry is the one thing the managers do not ask for. */
    twostate predicate Rotated(n: nat, token: Id, new issued: Issued, at: Time)
      reads this, store
    {
      && token in RowsOf(store.db).tokens && Exchanged(n, token, RowsOf(store.db).tokens[token], issued, at)
      && (RowsOf(store.db).tokens[token].expiresAt != ZERO_TIME ==> Asked(store.log, n))
      && (SECOND <= old(clock) && issued.hash != ZERO_HASH && RowsOf(store.db).tokens[token].createdAt <= old(clock) ==>
            TimelyAt(store.log, n))
    }

    method RotateLoop(token: Id, current: Refresh) returns (r: Result<Issued, Failure>, ghost n: nat, ghost at: Time)
      requires Valid() && token in RowsOf(store.db).tokens && RowsOf(store.db).tokens[token] == current && ValidToken(token, current)
      modifies this, store
      ensures Went()
      ensures r.Ok? ==>
        && Exchanged(n, token, current, r.value, at)
        && (current.expiresAt != ZERO_TIME ==> Asked(store.log, n))
        && (SECOND <= old(clock) && r.value.hash != ZERO_HASH && current.createdAt <= old(clock) ==> TimelyAt(store.log, n))
        && !Dead(old(RowsOf(store.db)).tokens, token, old(clock))
      ensures r.Err? ==> Failed(token, r.error)
      ensures r == Err(ReuseDetected) ==> ChainRevoked(RowsOf(store.db), token)
      ensures Dead(old(RowsOf(store.db)).tokens, token, old(clock)) ==> r.Err? && Caught(token, r.error)
      ensures r != Err(Inactive)
      ensures r != Err(InvalidRecord)
      ensures failures <= old(failures) + 3 && (r == Err(Failure.Conflict) ==> failures == old(failures) + 3)
      ensures store.quiet && Usable(old(RowsOf(store.db)), token, clock) ==> r.Ok? || old(failures) < failures
    {
      hide Step, Lawful, ChainRevoked, Sane, TimelyAt, Asked, Consistent, Replay;
      n, at := 0, clock;
      ghost var log := store.log;
      for attempt := 0 to 3
        invariant Went() && store.own == old(store.own)
        invariant store.quiet ==> RowsOf(store.db) == old(RowsOf(store.db))
        invariant Dead(old(RowsOf(store.db)).tokens, token, old(clock)) ==> attempt == 0
        invariant attempt == 0 ==> RowsOf(store.db) == old(RowsOf(store.db)) && clock == old(clock)
        invariant failures == old(failures) + attempt
      {
        var answer;
        answer, n, at := RotateOnce(token, current);
        if answer.Some? {
          if answer.value.Ok? {
            ExchangedWell(log, store.log, n, store.log[n].op, current, old(clock));
          }
          return answer.value, n, at;
        }
      }
      return Err(Failure.Conflict), n, at;
    }

    /** RevokeSessionID revokes a session and all its refresh tokens. */
    method RevokeSessionID(id: Id) returns (error: Option<Failure>)
      requires Valid()
      modifies this, store
      ensures Went() && store.MadeOnly(Revoking(id, old(clock), clock))
      ensures error.None? ==>
        && Killed(old(RowsOf(store.db)), RowsOf(store.db), {id})
        && (TokensOf(old(RowsOf(store.db)), id) != {} ==> Silenced(RowsOf(store.db), id))
      ensures store.quiet ==> if Blank(id) then error == Some(InvalidRecord) else error.None?
    {
      hide Lawful, Sane, Step;
      if Blank(id) {
        if Healthy() { SaneLater(RowsOf(store.db), old(clock), clock); }
        return Some(InvalidRecord);
      }
      ghost var rows, op := RowsOf(store.db), Op.RevokeSession(id, clock);
      var answer := Perform(store, Op.RevokeSession(id, clock));
      if store.quiet {
        RevocationSucceeds(rows, RowsOf(store.db), op, answer);
      }
      if Healthy() {
        RevocationStaysSane(rows, RowsOf(store.db), op, answer, old(clock), clock);
      }
      error := if answer.Err? then Some(FailureOf(answer.error)) else None;
    }

    /** RevokeSession revokes the session of a live token, and only that. */
    method RevokeByToken(raw: string) returns (error: Option<Failure>)
      requires Valid()
      modifies this, store
      ensures Went()
      ensures error.None? ==> hash(raw).Some? && ChainRevoked(RowsOf(store.db), hash(raw).value)
      ensures store.own != old(store.own) ==>
        && hash(raw).Some? && hash(raw).value in RowsOf(store.db).tokens
        && store.MadeOnly(Revoking(RowsOf(store.db).tokens[hash(raw).value].session, old(clock), clock))
      ensures store.quiet && hash(raw).Some? && Usable(old(RowsOf(store.db)), hash(raw).value, clock) ==> error.None?
    {
      hide Sane, Step, Lawful;
      var record, at := ResolveToken(raw);
      if record.Err? {
        return Some(record.error);
      }
      ghost var log := store.log;
      error := RevokeSessionID(record.value.session);
      Logs(log, store.log);
      if error.None? {
        assert hash(raw).value in TokensOf(Replay(Step, EMPTY, log).value, record.value.session);
      }
    }
  }

  // ---------------------------------------------------------------- the bearer manager

  datatype BearerIssued = BearerIssued(
    session: Id, subject: Id, createdAt: Time, expiresAt: Time,
    access: AccessToken, refreshToken: string, refreshExpiresAt: Time)

  /** The claims of an access token whose signature, issuer, audience and times have been checked. */
  datatype Claims = Claims(subject: Id, session: Id, id: string)

  /** What a revocation has killed includes all that existed before, and the session keeps its subject. */
  lemma KilledSince(start: History, log: History, later: History, id: Id)
    requires start <= log <= later && Replay(Step, EMPTY, later).Some?
    ensures Replay(Step, EMPTY, start).Some? && Replay(Step, EMPTY, log).Some?
    ensures var before, mid, after := Replay(Step, EMPTY, start).value, Replay(Step, EMPTY, log).value, Replay(Step, EMPTY, later).value;
      && (Killed(mid, after, {id}) ==> Killed(before, after, {id}))
      && (id in mid.sessions ==> id in after.sessions && after.sessions[id].subject == mid.sessions[id].subject)
  {
    Logs(log, later);
    Logs(start, log);
  }

  /** A session read during a call is still the same, and so is the token's naming of it. */
  lemma SessionStays(start: History, log: History, later: History, id: Id, token: Id)
    requires start <= log <= later && Replay(Step, EMPTY, later).Some?
    ensures Replay(Step, EMPTY, start).Some? && Replay(Step, EMPTY, log).Some?
    ensures var before, mid, after := Replay(Step, EMPTY, start).value, Replay(Step, EMPTY, log).value, Replay(Step, EMPTY, later).value;
      && (id in mid.sessions ==> id in after.sessions && LaterSession(mid.sessions[id], after.sessions[id]))
      && (token in before.tokens ==> token in after.tokens && LaterRefresh(before.tokens[token], after.tokens[token]))
  {
    Logs(log, later);
    Logs(start, log);
  }

  /** Where every commit was asked for as the managers do, a token has the expiry of its session. */
  lemma ExpiresWithSession(log: History, token: Id)
    requires Replay(Step, EMPTY, log).Some? && Disciplined(log) && token in Replay(Step, EMPTY, log).value.tokens
    ensures var rows := Replay(Step, EMPTY, log).value;
      var id := rows.tokens[token].session;
      id in rows.sessions && rows.tokens[token].expiresAt == rows.sessions[id].expiresAt
  {
    OneChain(log, Replay(Step, EMPTY, log).value.tokens[token].session);
  }

  class Manager {
    const refresh: RefreshManager
    const accessLifetime: Time

    ghost predicate Valid()
      reads this, refresh, refresh.store
    {
      refresh.Valid() && 0 < accessLifetime < refresh.lifetime
    }

    constructor (refresh: RefreshManager, accessLifetime: Time)
      requires refresh.Valid() && 0 < accessLifetime < refresh.lifetime
      ensures Valid() && this.refresh == refresh && this.accessLifetime == accessLifetime
    {
      this.refresh, this.accessLifetime := refresh, accessLifetime;
    }

    /** IssueUntil: a signed token for the session, or an error if it would not live. */
    method IssueUntil(subject: Id, session: Id, maximum: Time) returns (r: Result<AccessToken, Failure>)
      requires Valid()
      modifies refresh, refresh.store
      ensures refresh.Went() && refresh.Still() && r != Err(ReuseDetected) && r != Err(Inactive)
      ensures r.Ok? ==> Signed(r.value, subject, session, maximum)
      ensures r == Err(InvalidToken) <==> Blank(subject) || Blank(session)
      ensures r.Err? && r.error != InvalidToken ==>
        || (r.error == Unavailable && old(refresh.failures) < refresh.failures)
        || (r.error == InactiveSession && maximum != ZERO_TIME && maximum < refresh.clock + SECOND)
    {
      hide Sane;
      if Blank(subject) || Blank(session) {
        return Err(InvalidToken);
      }
      if * {
        refresh.failures := refresh.failures + 1;
        return Err(Unavailable);       // the token's own identifier cannot be generated, or signing fails
      }
      var now := refresh.Now();
      TruncateTwice(now);
      match AccessExpiry(now, accessLifetime, maximum) {
        case None => return Err(InactiveSession);
        case Some(expiresAt) => return Ok(AccessToken(subject, session, Truncate(now), expiresAt));
      }
    }

    /** Issued during the call, for at most the configured time and not beyond the maximum. */
    twostate predicate Signed(new access: AccessToken, subject: Id, session: Id, maximum: Time)
      reads refresh
    {
      && access.subject == subject && access.session == session
      && Truncate(access.issuedAt) == access.issuedAt && old(refresh.clock) - SECOND < access.issuedAt <= refresh.clock
      && accessLifetime > 0 && AccessExpiry(access.issuedAt, accessLifetime, maximum) == Some(access.expiresAt)
    }

    /** Create: a session, its first refresh token with the session's expiry, and an access token within it. */
    method Create(subject: Id) returns (r: Result<BearerIssued, Failure>, ghost n: nat)
      requires Valid()
      modifies refresh, refresh.store
      ensures refresh.Went()
      ensures r.Ok? ==> Opened(subject, n, r.value) && old(refresh.clock) - SECOND < r.value.createdAt
      ensures r.Err? ==> refresh.store.own == old(refresh.store.own)
      ensures refresh.store.quiet && !Blank(subject) && refresh.clock + 2 * SECOND <= old(refresh.clock) + refresh.lifetime ==>
        r.Ok? || old(refresh.failures) < refresh.failures
    {
      hide Truncate, AccessExpiry, Asked, Step, Lawful, Consistent, Replay, Sane, ValidIssue, TimelyAt, AllTimely;
      n := 0;
      if Blank(subject) {
        return Err(InvalidRecord), n;
      }
      var id: Id, raw: string := *, *;
      if Blank(id) {
        refresh.failures := refresh.failures + 1;
        return Err(Unavailable), n;    // a UUID is never blank: the identifier cannot be generated
      }
      var now := refresh.Now();
      TruncateTwice(now);
      match refresh.hash(raw) {
        case None =>
          refresh.failures := refresh.failures + 1;
          return Err(Unavailable), n;
        case Some(token) =>
          r, n := CreateAs(subject, id, raw, token, Truncate(now));
      }
    }

    method CreateAs(subject: Id, id: Id, raw: string, token: Id, created: Time) returns (r: Result<BearerIssued, Failure>, ghost n: nat)
      requires Valid() && !Blank(id) && !Blank(subject) && refresh.hash(raw) == Some(token)
      requires Truncate(created) == created <= refresh.clock
      modifies refresh, refresh.store
      ensures refresh.Moved()
      ensures refresh.Healthy() && created != ZERO_TIME ==> Sane(RowsOf(refresh.store.db), refresh.clock)
      ensures r.Ok? ==> Opened(subject, n, r.value) && r.value.createdAt == created
      ensures r.Err? ==> refresh.store.own == old(refresh.store.own)
      ensures refresh.store.quiet && refresh.clock + SECOND <= created + refresh.lifetime ==>
        r.Ok? || old(refresh.failures) < refresh.failures
    {
      hide Truncate, AccessExpiry, Asked, Step, Lawful, Consistent, Replay, Sane, ValidIssue, TimelyAt, AllTimely;
      n := 0;
      var expiresAt := created + refresh.lifetime;
      var access := IssueUntil(subject, id, expiresAt);
      if access.Err? {
        return Err(access.error), n;
      }
      var answer := OpenSession(id, subject, token, created);
      if answer.Err? {
        return Err(FailureOf(answer.error)), n;
      }
      n := |refresh.store.log| - 1;
      return Ok(BearerIssued(id, subject, created, expiresAt, access.value, raw, expiresAt)), n;
    }

    /** The session of Create and its first refresh token. */
    function Opening(id: Id, subject: Id, token: Id, created: Time): Op {
      var expiresAt := created + refresh.lifetime;
      Op.CreateSession(id, Session(subject, created, expiresAt, None), token, Issue(created, expiresAt))
    }

    method OpenSession(id: Id, subject: Id, token: Id, created: Time) returns (r: Result<Reply, Error>)
      requires Valid() && created <= refresh.clock && !Blank(id)
      modifies refresh, refresh.store
      ensures refresh.Moved()
      ensures refresh.Healthy() && token != ZERO_HASH && created != ZERO_TIME ==> Sane(RowsOf(refresh.store.db), refresh.clock)
      ensures if r.Err? then refresh.store.own == old(refresh.store.own)
              else refresh.store.MadeLast(Opening(id, subject, token, created), Nothing) && Asked(refresh.store.log, |refresh.store.log| - 1)
      ensures r.Ok? && token != ZERO_HASH && created != ZERO_TIME ==> TimelyAt(refresh.store.log, |refresh.store.log| - 1)
      ensures r.Err? && refresh.store.quiet ==> old(refresh.failures) < refresh.failures
    {
      hide Lawful, Step, Sane, ValidIssue, Consistent, TimelyAt, Asked;
      NewIssueIsValid(id, token, created, created + refresh.lifetime);
      ghost var rows := RowsOf(refresh.store.db);
      var op := Opening(id, subject, token, created);
      r := Perform(refresh.store, op);
      if r.Ok? {
        CreatedProperly(refresh.store.log, op);
      } else {
        refresh.failures := refresh.failures + 1;    // without overlapping calls, the identifier or the token is taken
      }
      if refresh.Healthy() && token != ZERO_HASH && created != ZERO_TIME {
        CreationStaysSane(rows, RowsOf(refresh.store.db), op, r, old(refresh.clock), refresh.clock);
      }
    }

    /**
      What Create returned was committed as the managers ask, and nothing else was: a session of the subject from
      now, in whole seconds, for the configured lifetime, with a refresh token that expires with it.
    */
    twostate predicate Opened(subject: Id, n: nat, new issued: BearerIssued)
      reads refresh, refresh.store
    {
      && issued.subject == subject && refresh.hash(issued.refreshToken).Some?
      && Truncate(issued.createdAt) == issued.createdAt <= refresh.clock
      && issued.createdAt + refresh.lifetime == issued.expiresAt == issued.refreshExpiresAt
      && var op := Op.CreateSession(issued.session, Session(subject, issued.createdAt, issued.expiresAt, None),
                                    refresh.hash(issued.refreshToken).value, Issue(issued.createdAt, issued.expiresAt));
      && refresh.store.Made(n, op, Nothing) && Asked(refresh.store.log, n)
      && (issued.createdAt != ZERO_TIME && op.token != ZERO_HASH ==> TimelyAt(refresh.store.log, n))
      && Signed(issued.access, subject, issued.session, issued.expiresAt)
    }

    /** ResolveSession: the session as the store has it, if it is active. */
    method ResolveSession(id: Id) returns (r: Result<Session, Failure>)
      requires Valid()
      modifies refresh, refresh.store
      ensures refresh.Went() && refresh.store.own == old(refresh.store.own)
      ensures refresh.store.quiet ==> RowsOf(refresh.store.db) == old(RowsOf(refresh.store.db))
      ensures r.Ok? ==>
        && id in RowsOf(refresh.store.db).sessions && RowsOf(refresh.store.db).sessions[id] == r.value
        && r.value.revokedAt.None? && refresh.clock < r.value.expiresAt
      ensures refresh.store.quiet ==>
        var sessions := old(RowsOf(refresh.store.db)).sessions;
        (r.Ok? <==> id in sessions && sessions[id].revokedAt.None? && refresh.clock < sessions[id].expiresAt)
    {
      hide Lawful, Sane;
      if refresh.Healthy() { SaneLater(RowsOf(refresh.store.db), old(refresh.clock), refresh.clock); }
      var db := Look(refresh.store);
      if id !in db.access.value {
        return Err(Failure.NotFound);
      }
      var session := db.access.value[id];
      if session.revokedAt.Some? || refresh.clock >= session.expiresAt {
        return Err(InactiveSession);
      }
      return Ok(session);
    }

    /** VerifySession: an access token counts only while its durable session is active. */
    method Resolve(claims: Claims) returns (r: Result<Session, Failure>)
      requires Valid()
      modifies refresh, refresh.store
      ensures refresh.Went() && refresh.store.own == old(refresh.store.own)
      ensures r.Ok? ==>
        && claims.session in RowsOf(refresh.store.db).sessions && RowsOf(refresh.store.db).sessions[claims.session] == r.value
        && r.value.revokedAt.None? && r.value.subject == claims.subject && refresh.clock < r.value.expiresAt
      ensures refresh.store.quiet ==>
        var sessions, id := old(RowsOf(refresh.store.db)).sessions, claims.session;
        (r.Ok? <==> !Blank(claims.subject) && !Blank(id) && !Blank(claims.id) && id in sessions
                    && sessions[id].revokedAt.None? && sessions[id].subject == claims.subject
                    && refresh.clock < sessions[id].expiresAt)
    {
      hide Sane;
      if refresh.Healthy() { SaneLater(RowsOf(refresh.store.db), old(refresh.clock), refresh.clock); }
      if Blank(claims.subject) || Blank(claims.session) || Blank(claims.id) {
        return Err(InvalidToken);
      }
      r := ResolveSession(claims.session);
      if r.Err? || r.value.subject != claims.subject {
        return Err(InactiveSession);
      }
    }

    /**
      What Refresh returned: the token was exchanged by exactly one commit, for a token of the same session with the
      expiry that the row has; the answer is that session as the store has it; and the access token is the
      session's and does not outlive it.
    */
    twostate predicate Renewed(n: nat, new token: Option<Id>, new issued: Issued, at: Time, new r: BearerIssued)
      reads refresh, refresh.store
    {
      && token.Some? && refresh.Rotated(n, token.value, issued, at)
      && r.refreshToken == issued.token && r.refreshExpiresAt == issued.record.expiresAt && r.session == issued.session
      && r.session in RowsOf(refresh.store.db).sessions
      && Describes(RowsOf(refresh.store.db).sessions[r.session], r)
      && Signed(r.access, r.subject, r.session, r.expiresAt)
    }

    static predicate Describes(session: Session, r: BearerIssued) {
      r.subject == session.subject && r.createdAt == session.createdAt && r.expiresAt == session.expiresAt
    }

    method RefreshLive(raw: string, session: Id)
        returns (r: Result<BearerIssued, Failure>, ghost n: nat, ghost issued: Issued, ghost at: Time)
      requires Valid() && refresh.hash(raw).Some?
      requires var tokens := RowsOf(refresh.store.db).tokens;
        refresh.hash(raw).value in tokens && tokens[refresh.hash(raw).value].session == session
      modifies refresh, refresh.store
      ensures refresh.Went()
      ensures r.Ok? ==> Renewed(n, refresh.hash(raw), issued, at, r.value)
      ensures r.Err? ==> r.error != Inactive && refresh.Failed(refresh.hash(raw).value, r.error)
      ensures r == Err(ReuseDetected) ==> ChainRevoked(RowsOf(refresh.store.db), refresh.hash(raw).value)
      ensures r == Err(InvalidRecord) ==> !AllTimely(refresh.store.log) && !refresh.Healthy()
      ensures refresh.store.quiet && Usable(old(RowsOf(refresh.store.db)), refresh.hash(raw).value, refresh.clock)
        && Refreshable(old(RowsOf(refresh.store.db)), session, refresh.clock)
        ==> r.Ok? || old(refresh.failures) < refresh.failures
    {
      hide Step, Lawful, Consistent, Asked, ChainRevoked, Replay, Sane, AllTimely;
      n, issued, at := 0, Issued("", "", "", Issue(0, 0)), 0;
      ghost var start := refresh.store.log;
      var live := SignLive(session);
      if live.Err? {
        return Err(live.error), n, issued, at;
      }
      ghost var log := refresh.store.log;
      var durable, access := live.value.0, live.value.1;
      var replacement, m, time := refresh.RotateToken(raw);
      if replacement.Err? {
        return Err(replacement.error), n, issued, at;
      }
      SessionStays(start, log, refresh.store.log, session, refresh.hash(raw).value);
      n, issued, at := m, replacement.value, time;
      return Ok(BearerIssued(session, durable.subject, durable.createdAt, durable.expiresAt,
                             access, replacement.value.token, replacement.value.record.expiresAt)), n, issued, at;
    }

    /** The session is active at `at`, with a second to spare. */
    static predicate Refreshable(rows: Rows, id: Id, at: Time) {
      && id in rows.sessions && rows.sessions[id].revokedAt.None? && at + SECOND <= rows.sessions[id].expiresAt
      && !Blank(rows.sessions[id].subject)
    }

    /** The session, if it is active, and an access token for it. */
    method SignLive(id: Id) returns (r: Result<(Session, AccessToken), Failure>)
      requires Valid()
      modifies refresh, refresh.store
      ensures refresh.Went() && refresh.store.own == old(refresh.store.own) && r != Err(ReuseDetected) && r != Err(Inactive)
      ensures r.Ok? ==>
        && id in RowsOf(refresh.store.db).sessions && LaterSession(r.value.0, RowsOf(refresh.store.db).sessions[id])
        && Signed(r.value.1, r.value.0.subject, id, r.value.0.expiresAt)
      ensures r != Err(InvalidRecord)
      ensures refresh.store.quiet ==> RowsOf(refresh.store.db) == old(RowsOf(refresh.store.db))
      ensures refresh.store.quiet && !Blank(id) && Refreshable(old(RowsOf(refresh.store.db)), id, refresh.clock) ==>
        r.Ok? || old(refresh.failures) < refresh.failures
    {
      hide Step, Lawful, Consistent, Asked, Sane, AccessExpiry;
      var durable := ResolveSession(id);
      if durable.Err? {
        return Err(InactiveSession);
      }
      ghost var log := refresh.store.log;
      var access := IssueUntil(durable.value.subject, id, durable.value.expiresAt);
      if access.Err? {
        return Err(access.error);
      }
      Logs(log, refresh.store.log);
      return Ok((durable.value, access.value));
    }

    /** A token seen dead is rotated only to detect its reuse. */
    method DetectReuse(raw: string) returns (error: Failure)
      requires Valid() && refresh.hash(raw).Some?
      requires Dead(RowsOf(refresh.store.db).tokens, refresh.hash(raw).value, refresh.clock)
      modifies refresh, refresh.store
      ensures refresh.Went() && refresh.Failed(refresh.hash(raw).value, error) && refresh.Caught(refresh.hash(raw).value, error)
      ensures error == ReuseDetected ==> ChainRevoked(RowsOf(refresh.store.db), refresh.hash(raw).value)
      ensures error == InvalidRecord ==> !AllTimely(refresh.store.log) && !refresh.Healthy()
      ensures error != Inactive
    {
      hide Step, Lawful, Consistent, Asked, ChainRevoked, Sane, AllTimely, ValidToken, ExchangedAt, Replay;
      var rotated, _, _ := refresh.RotateToken(raw);
      if rotated.Ok? {
        assert false;                  // it is never exchanged
      }
      error := rotated.error;
    }

    /**
      Refresh. Success means `Renewed`. A token found rotated, revoked or expired never returns tokens: it is then
      rotated only to detect the reuse, which cannot succeed, and ErrReuseDetected means that the session and its
      whole chain are revoked. Of a token that was dead when the call began that is the answer, whoever else runs, but for
      a malformed row, contention or a failing random source; and no row is malformed where commits name timely times, as
      the managers' do without overlap. If every client asks as the managers do, the replacement expires with the session.
    */
    method Refresh(raw: string)
        returns (r: Result<BearerIssued, Failure>, ghost n: nat, ghost issued: Issued, ghost at: Time)
      requires Valid()
      modifies refresh, refresh.store
      ensures refresh.Went()
      ensures r.Ok? ==> Renewed(n, refresh.hash(raw), issued, at, r.value)
      ensures r.Ok? && Disciplined(refresh.store.log) && r.value.expiresAt != ZERO_TIME ==>
        r.value.refreshExpiresAt == r.value.expiresAt
      ensures r.Err? ==>
        if refresh.hash(raw).Some? then refresh.Failed(refresh.hash(raw).value, r.error)
        else refresh.store.own == old(refresh.store.own)
      ensures r == Err(ReuseDetected) ==> refresh.hash(raw).Some? && ChainRevoked(RowsOf(refresh.store.db), refresh.hash(raw).value)
      ensures refresh.hash(raw).Some? && Dead(old(RowsOf(refresh.store.db)).tokens, refresh.hash(raw).value, old(refresh.clock)) ==>
        r.Err? && refresh.Caught(refresh.hash(raw).value, r.error)
      ensures refresh.hash(raw).Some? && ExchangedAt(old(refresh.store.log), refresh.hash(raw).value).Some? ==>
        r.Err? && refresh.Caught(refresh.hash(raw).value, r.error)
      ensures r == Err(InvalidRecord) ==> !AllTimely(refresh.store.log) && !refresh.Healthy()
      ensures r != Err(Inactive)
      ensures refresh.store.quiet && refresh.hash(raw).Some?
        && Usable(old(RowsOf(refresh.store.db)), refresh.hash(raw).value, refresh.clock)
        && Refreshable(old(RowsOf(refresh.store.db)),
                       old(RowsOf(refresh.store.db)).tokens[refresh.hash(raw).value].session, refresh.clock)
        ==> r.Ok? || old(refresh.failures) < refresh.failures
    {
      hide Step, Lawful, Consistent, Asked, ChainRevoked, Disciplined, Sane, AllTimely, ValidToken, ExchangedAt, Replay;
      ghost var start := refresh.store.log;
      if refresh.hash(raw).Some? { ExchangedIsDead(start, refresh.hash(raw).value, refresh.clock); }
      n, issued, at := 0, Issued("", "", "", Issue(0, 0)), 0;
      var current, seen := refresh.ResolveToken(raw);
      if current.Err? {
        if current.error == Inactive {
          var error := DetectReuse(raw);
          return Err(error), n, issued, at;
        }
        if current.error == InvalidRecord {
          MalformedWasUntimely(refresh.store.log, refresh.hash(raw).value, refresh.clock);
        }
        return Err(current.error), n, issued, at;
      }
      r, n, issued, at := RefreshLive(raw, current.value.session);
      if r.Ok? && Disciplined(refresh.store.log) {
        ExpiresWithSession(refresh.store.log, refresh.hash(raw).value);
      }
    }

    /** ListBySubject: the set of the subject is read first, the records after. */
    method Listed(subject: Id) returns (listed: map<Id, Session>)
      requires Valid()
      modifies refresh, refresh.store
      ensures refresh.Went() && refresh.store.own == old(refresh.store.own)
      ensures forall id :: id in listed ==>
        && id in RowsOf(refresh.store.db).sessions && listed[id] == RowsOf(refresh.store.db).sessions[id]
        && listed[id].subject == subject
      ensures SessionsOf(old(RowsOf(refresh.store.db)), subject) <= listed.Keys
      ensures refresh.store.quiet ==> RowsOf(refresh.store.db) == old(RowsOf(refresh.store.db))
    {
      hide Lawful, Sane;
      if refresh.Healthy() { SaneLater(RowsOf(refresh.store.db), old(refresh.clock), refresh.clock); }
      var first := Look(refresh.store);
      var ids := Watch.At(first.bySubject, subject).value;
      assert ids == Watch.Owned(first.access.value, SubjectOf, subject);
      var second := Look(refresh.store);
      listed := map id | id in ids && id in second.access.value :: second.access.value[id];
    }

    /** Active at the clock's time. */
    predicate ActiveNow(session: Session)
      reads refresh
    {
      session.revokedAt.None? && refresh.clock < session.expiresAt
    }

    /**
      List: only the subject's sessions, as the store has them and active, and of those it had at the start every
      one that is still active; without overlapping calls exactly the active ones.
    */
    method List(subject: Id) returns (active: map<Id, Session>)
      requires Valid()
      modifies refresh, refresh.store
      ensures refresh.Went() && refresh.store.own == old(refresh.store.own)
      ensures forall id :: id in SessionsOf(old(RowsOf(refresh.store.db)), subject) ==>
        && id in RowsOf(refresh.store.db).sessions
        && (ActiveNow(RowsOf(refresh.store.db).sessions[id]) ==> id in active)
      ensures refresh.store.quiet ==> forall id ::
        id in active <==>
          && id in old(RowsOf(refresh.store.db)).sessions
          && var session := old(RowsOf(refresh.store.db)).sessions[id];
          session.subject == subject && session.revokedAt.None? && refresh.clock < session.expiresAt
      ensures forall id :: id in active ==>
        && id in RowsOf(refresh.store.db).sessions && active[id] == RowsOf(refresh.store.db).sessions[id]
        && active[id].subject == subject && ActiveNow(active[id])
    {
      var listed := Listed(subject);
      active := map id | id in listed && listed[id].revokedAt.None? && refresh.clock < listed[id].expiresAt :: listed[id];
    }

    /** RevokeByID revokes only a session of the subject. */
    method RevokeByID(subject: Id, id: Id) returns (error: Option<Failure>)
      requires Valid()
      modifies refresh, refresh.store
      ensures refresh.Went() && refresh.store.MadeOnly(Revoking(id, old(refresh.clock), refresh.clock))
      ensures refresh.store.own != old(refresh.store.own) ==>
        id in RowsOf(refresh.store.db).sessions && RowsOf(refresh.store.db).sessions[id].subject == subject
      ensures error.None? ==>
        && id in RowsOf(refresh.store.db).sessions && RowsOf(refresh.store.db).sessions[id].subject == subject
        && RowsOf(refresh.store.db).sessions[id].revokedAt.Some?
        && Killed(old(RowsOf(refresh.store.db)), RowsOf(refresh.store.db), {id})
      ensures refresh.store.quiet && id !in SessionsOf(old(RowsOf(refresh.store.db)), subject) ==>
        error == Some(Failure.NotFound) && RowsOf(refresh.store.db) == old(RowsOf(refresh.store.db))
      ensures refresh.store.quiet && !Blank(id) && id in SessionsOf(old(RowsOf(refresh.store.db)), subject) ==> error.None?
    {
      hide Sane;
      var listed := Listed(subject);
      if id !in listed {
        return Some(Failure.NotFound);
      }
      ghost var log := refresh.store.log;
      error := refresh.RevokeSessionID(id);
      KilledSince(old(refresh.store.log), log, refresh.store.log, id);
    }

    /** RevokeAll revokes every session of the subject and every token of those sessions. */
    method RevokeAll(subject: Id) returns (error: Option<Failure>)
      requires Valid()
      modifies refresh, refresh.store
      ensures refresh.Went() && refresh.store.MadeOnly(RevokingAll(subject, old(refresh.clock), refresh.clock))
      ensures error.None? ==>
        Killed(old(RowsOf(refresh.store.db)), RowsOf(refresh.store.db), SessionsOf(old(RowsOf(refresh.store.db)), subject))
      ensures refresh.store.quiet ==> error.None?
    {
      hide Lawful, Step, Sane;
      ghost var rows, op := RowsOf(refresh.store.db), Op.RevokeAll(subject, refresh.clock);
      var answer := Perform(refresh.store, Op.RevokeAll(subject, refresh.clock));
      if refresh.store.quiet {
        RevocationSucceeds(rows, RowsOf(refresh.store.db), op, answer);
      }
      if refresh.Healthy() {
        RevocationStaysSane(rows, RowsOf(refresh.store.db), op, answer, old(refresh.clock), refresh.clock);
      }
      error := if answer.Err? then Some(FailureOf(answer.error)) else None;
    }
  }
}
