/**
  The cookie-session manager: a durable store in front of which sits a cache with expiring entries. Any cache
  call may fail, and between any two external calls other clients may run.
*/
module SessionManager {
  import opened Common
  import opened Serial
  import opened SessionRows
  import opened SessionHistory
  import opened SessionLog
  import opened SessionStore
  import opened SessionCalls
  import opened Optimistic

  datatype Extension = Extension(extendAfter: Time, absolute: Time)

  datatype Config = Config(lifetime: Time, cached: bool, cacheTTL: Time, extension: Option<Extension>) {
    /** What NewManager demands. */
    predicate Valid() {
      && lifetime > 0 && (cached ==> cacheTTL > 0)
      && (extension.Some? ==> 0 < extension.value.extendAfter < lifetime < extension.value.absolute)
    }

    /** Without an extension policy no session outlives the lifetime it is created with. */
    function Absolute(): Time { if extension.Some? then extension.value.absolute else lifetime }

    /** The expiry asked of the store by an extension at `at`. */
    function Extended(at: Time, createdAt: Time): Time { Min(at + lifetime, createdAt + Absolute()) }

    /** The policy asks for an extension, and it would move the expiry. */
    predicate Due(record: Record, at: Time) {
      && extension.Some? && record.LastExtended() + extension.value.extendAfter <= at
      && record.expiresAt < Extended(at, record.createdAt)
    }

    /** The record after an extension that was due, and as it was otherwise. */
    function Renewed(record: Record, at: Time): Record {
      if Due(record, at) then record.(extendedAt := Some(at), expiresAt := Extended(at, record.createdAt)) else record
    }

    /** What extending a copy of a row, if due, answers when nothing interferes. */
    function Renewal(rows: Rows, copy: Record, at: Time): Result<Record, Failure> {
      if !Due(copy, at) then Ok(copy)
      else if !Extensible(rows, copy.token, at, Extended(at, copy.createdAt)) then Err(Failure.Inactive)
      else
        var extended := rows[copy.token].(extendedAt := Some(at), expiresAt := Extended(at, copy.createdAt));
        if ValidRecord(extended) then Ok(extended) else Err(Failure.InvalidRecord)
    }

    /** And the rows that it leaves. */
    function Refreshed(rows: Rows, copy: Record, at: Time): Rows {
      var expiresAt := Extended(at, copy.createdAt);
      if Due(copy, at) && Extensible(rows, copy.token, at, expiresAt)
      then rows[copy.token := rows[copy.token].(extendedAt := Some(at), expiresAt := expiresAt)]
      else rows
    }

    /** What the row alone answers when nothing interferes. */
    function DurableAnswer(rows: Rows, token: Id, at: Time): Result<Record, Failure> {
      if token !in rows then Err(Failure.NotFound)
      else if !ValidRecord(rows[token]) then Err(Failure.InvalidRecord)
      else if rows[token].revokedAt.Some? || rows[token].expiresAt <= at then Err(Failure.Inactive)
      else Ok(Renewed(rows[token], at))
    }

    function DurableRows(rows: Rows, token: Id, at: Time): Rows {
      if DurableAnswer(rows, token, at).Ok? then rows[token := Renewed(rows[token], at)] else rows
    }
  }

  /** The row is active and expires before what is asked for. */
  predicate Extensible(rows: Rows, token: Id, at: Time, expiresAt: Time) {
    token in rows && rows[token].revokedAt.None? && at < rows[token].expiresAt < expiresAt
  }

  /** Extending a well-formed active row succeeds. */
  lemma RenewalOfRow(config: Config, rows: Rows, record: Record, at: Time)
    requires config.Valid() && record.token in rows && rows[record.token] == record && ValidRecord(record) && record.ActiveAt(at)
    ensures config.Renewal(rows, record, at) == Ok(config.Renewed(record, at))
    ensures config.Renewed(record, at).token == record.token
    ensures config.Refreshed(rows, record, at) == rows[record.token := config.Renewed(record, at)]
  {}

  datatype Failure =
    | InvalidConfig | InvalidToken | InvalidRecord | NotFound | Inactive | Conflict | CacheSync | Unavailable

  datatype Issued = Issued(token: string, record: Record)

  /** A cache entry: the record, when it was set, and when the cache forgets it. */
  datatype CacheEntry = CacheEntry(record: Record, setAt: Time, until: Time)

  function FailureOf(error: Error): Failure {
    match error
    case Conflict => Failure.Conflict
    case NotFound => Failure.NotFound
    case Inactive => Failure.Inactive
    case TransactionConflict => Unavailable
  }

  // ---------------------------------------------------------------- what was seen

  /** After the first `n` commits the durable row of this session was exactly `record`. */
  ghost predicate Saw(log: History, n: nat, record: Record) {
    && n <= |log| && Replay(Step, EMPTY, log[..n]).Some?
    && record.token in Replay(Step, EMPTY, log[..n]).value
    && Replay(Step, EMPTY, log[..n]).value[record.token] == record
  }

  ghost predicate Witnessed(log: History, record: Record) {
    exists n: nat :: Saw(log, n, record)
  }

  lemma SawStays(log: History, later: History, n: nat, record: Record)
    requires Saw(log, n, record) && log <= later
    ensures Saw(later, n, record)
  {
    assert later[..n] == log[..n];
  }

  lemma LaterLog(log: History, later: History)
    requires log <= later && Replay(Step, EMPTY, later).Some?
    ensures Replay(Step, EMPTY, log).Some?
    ensures Evolved(Replay(Step, EMPTY, log).value, Replay(Step, EMPTY, later).value)
  {
    assert later[..|log|] == log;
    LaterRows(later, |log|);
  }

  lemma SawNow(log: History, record: Record)
    requires Replay(Step, EMPTY, log).Some? && record.token in Replay(Step, EMPTY, log).value
    requires Replay(Step, EMPTY, log).value[record.token] == record
    ensures Saw(log, |log|, record)
  {
    assert log[..|log|] == log;
  }

  /** Commit `n` was asked for as a manager with this configuration does. */
  ghost predicate AskedAt(config: Config, log: History, n: nat) {
    && n < |log| && Replay(Step, EMPTY, log[..n]).Some?
    && Asks(config.lifetime, config.Absolute(), Replay(Step, EMPTY, log[..n]).value, log[n].op)
  }

  /** All these commits were. */
  ghost predicate AllAsked(config: Config, log: History, own: seq<nat>) {
    forall i :: 0 <= i < |own| ==> AskedAt(config, log, own[i])
  }

  lemma AskedStays(config: Config, log: History, later: History, own: seq<nat>)
    requires AllAsked(config, log, own) && log <= later
    ensures AllAsked(config, later, own)
  {
    forall i | 0 <= i < |own| ensures AskedAt(config, later, own[i]) {
      assert AskedAt(config, log, own[i]) && later[..own[i]] == log[..own[i]];
    }
  }

  /** One more commit, the last one, of an operation that names its expiry as it should. */
  lemma AskedOnceMore(config: Config, log: History, later: History, own: seq<nat>)
    requires AllAsked(config, log, own) && log <= later && |log| < |later| && Replay(Step, EMPTY, later).Some?
    requires Asks(config.lifetime, config.Absolute(), Replay(Step, EMPTY, later[..|later| - 1]).value, later[|later| - 1].op)
    ensures AllAsked(config, later, own + [|later| - 1])
  {
    AskedStays(config, log, later, own);
    Prefix(Step, EMPTY, later, |later| - 1);
    assert AskedAt(config, later, |later| - 1);
  }

  /** At most one more commit, the last one, of an operation that is asked for properly whatever the rows. */
  lemma AskedOfAll(config: Config, log: History, later: History, own: seq<nat>, next: seq<nat>, op: Op)
    requires AllAsked(config, log, own) && log <= later && Replay(Step, EMPTY, later).Some?
    requires !op.Extend? && Asks(config.lifetime, config.Absolute(), EMPTY, op)
    requires next == own || (|log| < |later| && later[|later| - 1].op == op && next == own + [|later| - 1])
    ensures AllAsked(config, later, next)
  {
    AskedStays(config, log, later, own);
    if next != own {
      AskedOnceMore(config, log, later, own);
    }
  }

  lemma AskedLast(config: Config, log: History, own: seq<nat>, n: nat)
    requires AllAsked(config, log, own) && |own| > 0 && own[|own| - 1] == n
    ensures AskedAt(config, log, n)
  {}

  /** A manager's extension names the expiry that the lifetimes allow, even where it no longer names its own time. */
  lemma ExtensionAsked(config: Config, log: History, record: Record, at: Time, retried: bool, reply: Reply)
    requires ExtendedLast(log, record.token, at, retried, config.Extended(at, record.createdAt), reply)
    requires reply.record.createdAt == record.createdAt
    ensures Asks(config.lifetime, config.Absolute(), Replay(Step, EMPTY, log[..|log| - 1]).value, log[|log| - 1].op)
  {}

  /** The identity of a session never changes. */
  lemma SawSame(log: History, record: Record, row: Record)
    requires Replay(Step, EMPTY, log).Some? && Witnessed(log, record)
    requires row.token == record.token && record.token in Replay(Step, EMPTY, log).value
    requires row == Replay(Step, EMPTY, log).value[record.token]
    ensures row.createdAt == record.createdAt && row.subject == record.subject && row.expiresAt >= record.expiresAt
  {
    var n: nat :| Saw(log, n, record);
    LaterRows(log, n);
  }

  lemma SameCreation(log: History, record: Record, seen: nat)
    requires Saw(log, seen, record) && Replay(Step, EMPTY, log).Some?
    ensures record.token in Replay(Step, EMPTY, log).value
    ensures Replay(Step, EMPTY, log).value[record.token].createdAt == record.createdAt
  {
    LaterRows(log, seen);
  }

  /** The record is a well-formed row, made before `at`. */
  predicate Stored(rows: Rows, record: Record, at: Time) {
    ValidRecord(record) && record.createdAt <= at && record.token in rows && rows[record.token] == record
  }

  lemma ConfirmedRow(earlier: History, log: History, record: Record, seen: nat, at: Time, retried: bool,
      expiresAt: Time, reply: Reply)
    requires Saw(earlier, seen, record) && earlier <= log && Replay(Step, EMPTY, log).Some?
    requires forall token :: token in Replay(Step, EMPTY, log).value ==> Replay(Step, EMPTY, log).value[token].token == token
    requires ExtendedLast(log, record.token, at, retried, expiresAt, reply)
    ensures Saw(log, |log|, reply.record)
    ensures record.token in Replay(Step, EMPTY, log).value && reply.record == Replay(Step, EMPTY, log).value[record.token]
    ensures reply.record.revokedAt.None? && reply.record.expiresAt == expiresAt
    ensures reply.record.token == record.token && reply.record.createdAt == record.createdAt
  {
    ExtendedRow(log, record.token, at, retried, expiresAt, reply);
    SawStays(earlier, log, seen, record);
    SawNow(log, reply.record);
    SawSame(log, record, reply.record);
  }

  /** What a committed extension means for the manager. */
  lemma ExtensionConfirmed(config: Config, earlier: History, log: History, own: seq<nat>, record: Record, seen: nat,
                           at: Time, retried: bool, reply: Reply)
    requires Saw(earlier, seen, record) && earlier <= log && |earlier| < |log| && Replay(Step, EMPTY, log).Some?
    requires forall token :: token in Replay(Step, EMPTY, log).value ==> Replay(Step, EMPTY, log).value[token].token == token
    requires ExtendedLast(log, record.token, at, retried, config.Extended(at, record.createdAt), reply)
    requires AllAsked(config, earlier, own)
    ensures Saw(log, |log|, reply.record) && reply.record.token == record.token && reply.record.createdAt == record.createdAt
    ensures record.token in Replay(Step, EMPTY, log).value && reply.record == Replay(Step, EMPTY, log).value[record.token]
    ensures reply.record.revokedAt.None? && reply.record.expiresAt == config.Extended(at, record.createdAt)
    ensures log[|log| - 1].op.Extend? && log[|log| - 1].op.token == record.token
    ensures AllAsked(config, log, own + [|log| - 1])
  {
    ConfirmedRow(earlier, log, record, seen, at, retried, config.Extended(at, record.createdAt), reply);
    ExtensionAsked(config, log, record, at, retried, reply);
    AskedOnceMore(config, earlier, log, own);
  }

  /** A row found during a call is still there at its end. */
  lemma RowStays(log: History, later: History, token: Id)
    requires log <= later && Replay(Step, EMPTY, later).Some?
    ensures Replay(Step, EMPTY, log).Some?
    ensures token in Replay(Step, EMPTY, log).value ==>
      && token in Replay(Step, EMPTY, later).value
      && SameIdentity(Replay(Step, EMPTY, log).value[token], Replay(Step, EMPTY, later).value[token])
  {
    LaterLog(log, later);
  }

  lemma SaneRow(rows: Rows, clock: Time, token: Id)
    requires Sane(rows, clock) && token in rows
    ensures rows[token].createdAt <= clock
  {}

  predicate Resolvable(rows: Rows, token: Id, at: Time) {
    token in rows && rows[token].ActiveAt(at) && Stored(rows, rows[token], at)
  }

  lemma CreatedRow(log: History, record: Record, reply: Reply)
    requires Replay(Step, EMPTY, log).Some? && CommittedLast(log, Op.Create(record), reply)
    ensures Saw(log, |log|, record) && reply == Nothing
  {
    SawNow(log, record);
  }

  lemma RotatedRow(log: History, op: Op, reply: Reply)
    requires op.Rotate? && Replay(Step, EMPTY, log).Some? && CommittedLast(log, op, reply)
    ensures Saw(log, |log|, op.replacement) && reply == Nothing
  {
    SawNow(log, op.replacement);
  }

  /** One active session of the subject has been replaced by another, and nothing else has changed. */
  ghost predicate RotatedRows(before: Rows, after: Rows, current: Record, replacement: Record, at: Time) {
    && current.token in before && before[current.token] == current && replacement.token !in before
    && replacement.subject == current.subject
    && after == before[current.token := current.(revokedAt := Some(at))][replacement.token := replacement]
    && forall subject :: |Active(after, subject, at)| == |Active(before, subject, at)|
  }

  lemma StepRotates(rows: Rows, after: Rows, r: Result<Reply, Error>, current: Record, replacement: Record, at: Time)
    requires current.token in rows && rows[current.token] == current
    requires replacement.subject == current.subject && replacement.ActiveAt(at)
    requires Stepped(Step, rows, after, Op.Rotate(current.token, replacement, at), r)
    ensures if r.Err? then after == rows else RotatedRows(rows, after, current, replacement, at)
    ensures current.ActiveAt(at) && r.Err? ==> r.error == Error.Conflict
  {
    var op := Op.Rotate(current.token, replacement, at);
    if r.Ok? {
      RotateConserves(rows, op);
      forall subject ensures |Active(after, subject, at)| == |Active(rows, subject, at)| {
        if subject != replacement.subject {
          assert Active(after, subject, at) == Active(rows, subject, at);
        }
      }
    }
  }

  predicate SameIdentity(before: Record, after: Record) {
    after.id == before.id && after.subject == before.subject && after.token == before.token
  }

  lemma ListedStays(first: Rows, second: Rows, rows: Rows, subject: Id, records: seq<Record>, record: Record)
    requires Evolved(first, second) && Evolved(second, rows) && record in records
    requires forall token :: token in first ==> first[token].token == token
    requires multiset(records) == multiset(OfSubject(first, second, subject))
    ensures record.token in rows && SameIdentity(record, rows[record.token])
  {
    assert record in multiset(records);
    var token :| token in first && first[token].subject == subject && token in second && second[token] == record;
  }

  lemma RotatedHas(before: Rows, after: Rows, current: Record, replacement: Record, at: Time)
    requires RotatedRows(before, after, current, replacement, at)
    ensures replacement.token in after && after[replacement.token] == replacement
    ensures current.token in after && after[current.token].revokedAt.Some? && current.token != replacement.token
  {}

  lemma StepCreates(rows: Rows, after: Rows, record: Record, r: Result<Reply, Error>)
    requires Stepped(Step, rows, after, Op.Create(record), r)
    ensures after == if r.Ok? then rows[record.token := record] else rows
    ensures r.Err? ==> r.error == Error.Conflict
  {}

  /** Storing a well-formed record leaves well-formed rows well-formed. */
  lemma CreationStaysSane(rows: Rows, after: Rows, record: Record, r: Result<Reply, Error>, clock: Time, later: Time)
    requires Stepped(Step, rows, after, Op.Create(record), r) && Sane(rows, clock) && clock <= later
    requires ValidRecord(record) && record.createdAt <= later
    ensures Sane(after, later)
  {
    StepStaysSane(rows, after, Op.Create(record), r, clock, later);
  }

  lemma RotationStaysSane(rows: Rows, after: Rows, op: Op, r: Result<Reply, Error>, clock: Time, later: Time)
    requires op.Rotate? && Stepped(Step, rows, after, op, r) && Sane(rows, clock) && clock <= later
    requires ValidRecord(op.replacement) && op.replacement.createdAt <= later
    requires op.current in rows ==> rows[op.current].createdAt <= op.at
    ensures Sane(after, later)
  {
    StepStaysSane(rows, after, op, r, clock, later);
  }

  lemma RevocationStaysSane(rows: Rows, after: Rows, op: Op, r: Result<Reply, Error>, clock: Time, later: Time)
    requires op.Revoke? || op.RevokeAll?
    requires Stepped(Step, rows, after, op, r) && Sane(rows, clock) && clock <= op.at <= later
    ensures Sane(after, later)
  {
    StepStaysSane(rows, after, op, r, clock, later);
  }

  ghost predicate RevokedIn(log: History, token: Id) {
    && Replay(Step, EMPTY, log).Some? && token in Replay(Step, EMPTY, log).value
    && Replay(Step, EMPTY, log).value[token].revokedAt.Some?
  }

  lemma RevokedNow(log: History, token: Id)
    requires Replay(Step, EMPTY, log).Some? && token in Replay(Step, EMPTY, log).value
    requires Replay(Step, EMPTY, log).value[token].revokedAt.Some?
    ensures RevokedIn(log, token)
  {}

  lemma BuriedNow(log: History, cache: map<Id, CacheEntry>, token: Id)
    requires RevokedIn(log, token)
    ensures token !in cache ==> token in BuriedIn(Replay(Step, EMPTY, log).value, cache)
  {}

  lemma RevokedStays(log: History, later: History, token: Id)
    requires RevokedIn(log, token) && log <= later && Replay(Step, EMPTY, later).Some?
    ensures RevokedIn(later, token)
  {
    LaterLog(log, later);
  }

  /** What a RevokeAll that succeeded has revoked since its caller began. */
  lemma AllRevokedSince(start: History, log: History, later: History, subject: Id, records: set<Record>)
    requires start <= log <= later && Replay(Step, EMPTY, later).Some? && Replay(Step, EMPTY, log).Some?
    requires AllRevoked(Replay(Step, EMPTY, log).value, Replay(Step, EMPTY, later).value, subject, records)
    ensures Replay(Step, EMPTY, start).Some?
    ensures forall token :: token in Replay(Step, EMPTY, start).value && Replay(Step, EMPTY, start).value[token].subject == subject ==>
      RevokedIn(later, token)
  {
    LaterLog(start, log);
  }

  /** Every session of the subject is revoked and among the records. */
  ghost predicate AllDead(rows: Rows, subject: Id, records: set<Record>) {
    forall token :: token in rows && rows[token].subject == subject ==>
      rows[token].revokedAt.Some? && rows[token] in records && rows[token].token == token
  }

  lemma StepRevokesAll(rows: Rows, after: Rows, subject: Id, at: Time, r: Result<Reply, Error>)
    requires Stepped(Step, rows, after, Op.RevokeAll(subject, at), r)
    requires forall token :: token in after ==> after[token].token == token
    ensures r.Ok? && r.value.Many? && AllDead(after, subject, r.value.records) && AreRows(after, subject, r.value.records)
    ensures RevokedOnly(rows, after, TokensOf(rows, subject), at, at)
  {}

  /** The records are rows of the subject. */
  ghost predicate AreRows(rows: Rows, subject: Id, records: set<Record>) {
    forall record :: record in records ==> record.subject == subject && record.token in rows && rows[record.token] == record
  }

  lemma ListedSpoilt(rows: Rows, subject: Id, records: seq<Record>, record: Record)
    requires multiset(records) == multiset(OfSubject(rows, rows, subject)) && record in records
    requires !ValidRecord(record) || record.subject != subject
    ensures Spoilt(rows, subject)
  {
    assert record in multiset(records);
  }

  lemma ListedUnspoilt(rows: Rows, subject: Id, records: seq<Record>)
    requires multiset(records) == multiset(OfSubject(rows, rows, subject))
    requires forall record :: record in records ==> ValidRecord(record)
    ensures !Spoilt(rows, subject)
  {
    forall token | token in rows && rows[token].subject == subject ensures ValidRecord(rows[token]) {
      assert rows[token] in OfSubject(rows, rows, subject);
      assert rows[token] in multiset(records);
    }
  }

  /** Revoked, and not cached. */
  ghost function BuriedIn(rows: Rows, cache: map<Id, CacheEntry>): set<Id> {
    set token | token in rows && rows[token].revokedAt.Some? && token !in cache
  }

  lemma BuriedStays(log: History, later: History, cache: map<Id, CacheEntry>)
    requires log <= later && Replay(Step, EMPTY, later).Some?
    ensures Replay(Step, EMPTY, log).Some?
    ensures BuriedIn(Replay(Step, EMPTY, log).value, cache) <= BuriedIn(Replay(Step, EMPTY, later).value, cache)
  {
    LaterLog(log, later);
  }

  lemma BuriedWhenSet(rows: Rows, cache: map<Id, CacheEntry>, token: Id, entry: CacheEntry)
    requires token in rows ==> rows[token].revokedAt.None?
    ensures BuriedIn(rows, cache) <= BuriedIn(rows, cache[token := entry])
  {}

  /** What holds of every cache entry. */
  ghost predicate Sound(config: Config, token: Id, entry: CacheEntry, clock: Time, log: History, rows: Rows,
      quiet: bool) {
    && entry.record.token == token && entry.record.revokedAt.None? && Witnessed(log, entry.record)
    && entry.setAt <= clock && entry.until <= entry.setAt + config.cacheTTL
    && (quiet && token in rows && rows[token].revokedAt.Some? ==> entry.setAt <= rows[token].revokedAt.value)
  }

  /** Entries stay sound as long as, without overlap, nothing set after a revocation is revoked by it. */
  lemma SoundAfter(config: Config, token: Id, entry: CacheEntry, clock: Time, log: History, rows: Rows,
                   laterClock: Time, laterLog: History, laterRows: Rows, quiet: bool)
    requires Sound(config, token, entry, clock, log, rows, quiet) && clock <= laterClock && log <= laterLog
    requires quiet && token in laterRows && laterRows[token].revokedAt.Some? ==>
      (token in rows && rows[token].revokedAt == laterRows[token].revokedAt) || entry.setAt <= laterRows[token].revokedAt.value
    ensures Sound(config, token, entry, laterClock, laterLog, laterRows, quiet)
  {
    var n: nat :| Saw(log, n, entry.record);
    SawStays(log, laterLog, n, entry.record);
  }

  /** A step revokes only at the time it names. */
  lemma StepRevokesAt(rows: Rows, op: Op, at: Time, token: Id)
    requires Timed(op, at) && Step(rows, op).Done? && token in Step(rows, op).rows
    requires Step(rows, op).rows[token].revokedAt.Some?
    ensures (token in rows && rows[token].revokedAt == Step(rows, op).rows[token].revokedAt)
         || (!op.Extend? && Step(rows, op).rows[token].revokedAt == Some(at))
  {}

  /** The operation happens at `at` and introduces only unrevoked records. */
  predicate Timed(op: Op, at: Time) {
    match op
    case Create(record) => record.revokedAt.None?
    case Rotate(_, replacement, time) => time == at && replacement.revokedAt.None?
    case Revoke(_, time) => time == at
    case RevokeAll(_, time) => time == at
    case Extend(_, time, _, _) => time == at
  }

  lemma KeepAllSound(config: Config, cache: map<Id, CacheEntry>, clock: Time, log: History, rows: Rows,
                     laterLog: History, laterRows: Rows, quiet: bool)
    requires forall token :: token in cache ==> Sound(config, token, cache[token], clock, log, rows, quiet)
    requires log <= laterLog && (quiet ==> rows == laterRows)
    ensures forall token :: token in cache ==> Sound(config, token, cache[token], clock, laterLog, laterRows, quiet)
  {
    forall token | token in cache ensures Sound(config, token, cache[token], clock, laterLog, laterRows, quiet) {
      SoundAfter(config, token, cache[token], clock, log, rows, clock, laterLog, laterRows, quiet);
    }
  }

  lemma StepKeepsSound(config: Config, token: Id, entry: CacheEntry, clock: Time, log: History, rows: Rows, op: Op,
      at: Time, laterLog: History)
    requires Sound(config, token, entry, clock, log, rows, true) && log <= laterLog
    requires Timed(op, at) && Step(rows, op).Done? && (entry.setAt <= at || op.Extend?)
    ensures Sound(config, token, entry, clock, laterLog, Step(rows, op).rows, true)
  {
    var next := Step(rows, op).rows;
    if token in next && next[token].revokedAt.Some? {
      StepRevokesAt(rows, op, at, token);
    }
    SoundAfter(config, token, entry, clock, log, rows, clock, laterLog, next, true);
  }

  /** One call of the store, at `at`, keeps every entry sound. */
  lemma CallKeepsSound(config: Config, cache: map<Id, CacheEntry>, clock: Time, log: History, rows: Rows, op: Op, at: Time,
                       laterLog: History, laterRows: Rows, quiet: bool, r: Result<Reply, Error>)
    requires forall token :: token in cache ==> Sound(config, token, cache[token], clock, log, rows, quiet)
    requires log <= laterLog && Timed(op, at) && (quiet ==> Stepped(Step, rows, laterRows, op, r))
    requires quiet ==> op.Extend? || forall token :: token in cache ==> cache[token].setAt <= at
    ensures forall token :: token in cache ==> Sound(config, token, cache[token], clock, laterLog, laterRows, quiet)
  {
    hide Sound;
    forall token | token in cache ensures Sound(config, token, cache[token], clock, laterLog, laterRows, quiet) {
      if quiet && Step(rows, op).Done? {
        StepKeepsSound(config, token, cache[token], clock, log, rows, op, at, laterLog);
      } else {
        CarrySound(config, token, cache[token], clock, log, rows, laterLog, laterRows, quiet);
      }
    }
  }

  lemma CarrySound(config: Config, token: Id, entry: CacheEntry, clock: Time, log: History, rows: Rows,
      laterLog: History, laterRows: Rows, quiet: bool)
    requires Sound(config, token, entry, clock, log, rows, quiet) && log <= laterLog && (quiet ==> rows == laterRows)
    ensures Sound(config, token, entry, clock, laterLog, laterRows, quiet)
  {
    SoundAfter(config, token, entry, clock, log, rows, clock, laterLog, laterRows, quiet);
  }

  lemma SoundWhenSet(config: Config, entry: CacheEntry, clock: Time, ttl: Time, log: History, n: nat, rows: Rows,
      quiet: bool)
    requires entry.setAt == clock && entry.until == clock + ttl && ttl <= config.cacheTTL
    requires Saw(log, n, entry.record) && entry.record.revokedAt.None?
    requires quiet && entry.record.token in rows ==> rows[entry.record.token].revokedAt.None?
    ensures Sound(config, entry.record.token, entry, clock, log, rows, quiet)
  {}

  /** What a sound entry says. */
  lemma SoundEntry(config: Config, token: Id, entry: CacheEntry, clock: Time, log: History, rows: Rows, quiet: bool)
    requires Sound(config, token, entry, clock, log, rows, quiet)
    ensures entry.record.token == token && entry.record.revokedAt.None? && Witnessed(log, entry.record)
    ensures entry.setAt <= clock && entry.until <= entry.setAt + config.cacheTTL
    ensures quiet && token in rows && rows[token].revokedAt.Some? ==> entry.setAt <= rows[token].revokedAt.value
  {}

  /** Without overlapping calls a row is extended exactly if it is active and expires before what is asked for. */
  lemma StepExtends(rows: Rows, after: Rows, token: Id, at: Time, expiresAt: Time, r: Result<Reply, Error>)
    requires Stepped(Step, rows, after, Op.Extend(token, at, None, expiresAt), r)
    ensures
      if Extensible(rows, token, at, expiresAt) then
        var extended := rows[token].(extendedAt := Some(at), expiresAt := expiresAt);
        r == Ok(One(extended)) && after == rows[token := extended]
      else r == Err(Error.Inactive) && after == rows
  {}

  /** Such an extension leaves well-formed rows well-formed. */
  lemma ExtensionStaysSane(rows: Rows, after: Rows, token: Id, at: Time, expiresAt: Time, r: Result<Reply, Error>,
      clock: Time, later: Time)
    requires Stepped(Step, rows, after, Op.Extend(token, at, None, expiresAt), r) && Sane(rows, clock) && clock <= later
    requires token in rows ==> rows[token].createdAt <= at
    ensures Sane(after, later)
  {
    StepStaysSane(rows, after, Op.Extend(token, at, None, expiresAt), r, clock, later);
  }

  /** Without overlapping calls a revocation fails only for want of the session. */
  lemma StepRevokes(rows: Rows, after: Rows, token: Id, at: Time, r: Result<Reply, Error>)
    requires Stepped(Step, rows, after, Op.Revoke(token, at), r)
    ensures if token in rows then r.Ok? else r == Err(Error.NotFound)
    ensures RevokedOnly(rows, after, {token}, at, at)
  {}

  /** Exactly these sessions are revoked, the ones that were not before at a time in between, and nothing else changed. */
  ghost predicate RevokedOnly(before: Rows, after: Rows, tokens: set<Id>, from: Time, to: Time) {
    && after.Keys == before.Keys
    && forall token :: token in before ==>
         if token !in tokens || before[token].revokedAt.Some? then after[token] == before[token]
         else after[token].revokedAt.Some? && from <= after[token].revokedAt.value <= to
              && after[token] == before[token].(revokedAt := after[token].revokedAt)
  }

  lemma RevokedWithin(before: Rows, after: Rows, tokens: set<Id>, at: Time, from: Time, to: Time)
    requires RevokedOnly(before, after, tokens, at, at) && from <= at <= to
    ensures RevokedOnly(before, after, tokens, from, to)
  {}

  lemma RevokedEarlier(before: Rows, after: Rows, tokens: set<Id>, earlier: Time, from: Time, to: Time)
    requires RevokedOnly(before, after, tokens, from, to) && earlier <= from
    ensures RevokedOnly(before, after, tokens, earlier, to)
  {}

  lemma RevokedLater(before: Rows, after: Rows, tokens: set<Id>, from: Time, to: Time, later: Time)
    requires RevokedOnly(before, after, tokens, from, to) && to <= later
    ensures RevokedOnly(before, after, tokens, from, later)
  {}

  ghost function TokensOf(rows: Rows,
      subject: Id): set<Id> { set token | token in rows && rows[token].subject == subject }

  /** Some session of the subject is not well-formed. */
  ghost predicate Spoilt(rows: Rows, subject: Id) {
    exists token :: token in rows && rows[token].subject == subject && !ValidRecord(rows[token])
  }

  lemma SaneIsUnspoilt(rows: Rows, clock: Time, subject: Id)
    requires Sane(rows, clock)
    ensures !Spoilt(rows, subject)
  {}

  lemma NamedByToken(db: Db)
    requires Consistent(db)
    ensures forall token :: token in RowsOf(db) ==> RowsOf(db)[token].token == token
  {}

  /** Where the record returned by Resolve was seen unrevoked. */
  datatype Source = Durable(n: nat) | Cached(entry: CacheEntry)

  /** A cache entry that is found when asked for at `now`, and holds a well-formed record that is active at `at`. */
  predicate Serves(cache: map<Id, CacheEntry>, token: Id, at: Time, now: Time) {
    token in cache && now < cache[token].until && ValidRecord(cache[token].record) && cache[token].record.ActiveAt(at)
  }

  /** The cache does not serve an older version of the row. */
  predicate Current(rows: Rows, cache: map<Id, CacheEntry>, token: Id, at: Time, now: Time)
    requires token in rows
  {
    Serves(cache, token, at, now) ==> cache[token].record == rows[token]
  }

  /** Resolving found what a served cache entry calls for, or what the row does. */
  predicate FromEntry(config: Config, rows: Rows, cache: map<Id, CacheEntry>, token: Id, at: Time,
      r: Result<Record, Failure>, after: Rows)
    requires token in cache
  {
    r == config.Renewal(rows, cache[token].record, at) && after == config.Refreshed(rows, cache[token].record, at)
  }

  /**
    An entry that is served is refused exactly when an extension of it is due and the row is not active, or expires no
    earlier than is asked for.
  */
  lemma EntryRefused(config: Config, rows: Rows, cache: map<Id, CacheEntry>, token: Id, at: Time,
      r: Result<Record, Failure>, after: Rows)
    requires token in cache && cache[token].record.token == token && FromEntry(config, rows, cache, token, at, r, after)
    ensures var copy := cache[token].record;
      r == Err(Failure.Inactive) <==>
        && config.extension.Some? && copy.LastExtended() + config.extension.value.extendAfter <= at
        && copy.expiresAt < Min(at + config.lifetime, copy.createdAt + config.extension.value.absolute)
        && (token !in rows || rows[token].revokedAt.Some? || rows[token].expiresAt <= at
            || Min(at + config.lifetime, copy.createdAt + config.extension.value.absolute) <= rows[token].expiresAt)
  {}

  predicate FromRow(config: Config, rows: Rows, token: Id, at: Time, r: Result<Record, Failure>, after: Rows) {
    r == config.DurableAnswer(rows, token, at) && after == config.DurableRows(rows, token, at)
  }

  /** Where the cache serves nothing older, both are the active row, extended exactly when that is due. */
  lemma RowResolves(config: Config, rows: Rows, cache: map<Id, CacheEntry>, token: Id, at: Time, now: Time,
                    r: Result<Record, Failure>, after: Rows)
    requires config.Valid() && Resolvable(rows, token, at) && rows[token].token == token && Current(rows, cache, token, at, now)
    requires
      || FromRow(config, rows, token, at, r, after)
      || (Serves(cache, token, at, now) && FromEntry(config, rows, cache, token, at, r, after))
    ensures ExtendedWhenDue(config, rows[token], at, r) && after == rows[token := r.value]
  {
    RenewalOfRow(config, rows, rows[token], at);
  }

  /** The record, extended exactly if the policy's time since the last extension is over and the expiry would move. */
  predicate ExtendedWhenDue(config: Config, row: Record, at: Time, r: Result<Record, Failure>) {
    var expiresAt := Min(at + config.lifetime, row.createdAt + config.Absolute());
    r == if config.extension.Some? && row.expiresAt < expiresAt
            && at >= (if row.extendedAt.Some? then row.extendedAt.value else row.createdAt) + config.extension.value.extendAfter
         then Ok(row.(extendedAt := Some(at), expiresAt := expiresAt))
         else Ok(row)
  }

  /** The cache now holds the record, and is otherwise unchanged. */
  predicate Caches(before: map<Id, CacheEntry>, after: map<Id, CacheEntry>, record: Record) {
    record.token in after && after[record.token].record == record && after == before[record.token := after[record.token]]
  }

  class Manager {
    const store: SessionStore
    const config: Config
    const hash: string -> Option<Id>   // HashToken
    var cache: map<Id, CacheEntry>
    var clock: Time
    ghost var made: set<CacheEntry>    // every cache entry that any client has set
    ghost var sets: nat                // how many of them were set by this manager's own calls
    ghost var failures: nat            // random values that this manager could not draw, or that were taken
    ghost var lapses: nat              // cache calls of this manager that failed
    ghost const first: nat             // commits that the store handle had made before

    ghost predicate Valid()
      reads this, store
    {
      && store.Valid() && store.c == CODE && store.s == SPEC && config.Valid()
      && Replay(Step, EMPTY, store.log) == Some(RowsOf(store.db))
      && (!config.cached ==> cache == map[]) && (forall token :: token in cache ==> cache[token] in made)
      && (forall token :: token in cache ==>
            Sound(config, token, cache[token], clock, store.log, RowsOf(store.db), store.quiet))
      && first <= |store.own| && AllAsked(config, store.log, store.own[first..])
    }

    constructor (store: SessionStore, config: Config, hash: string -> Option<Id>, clock: Time)
      requires store.Valid() && store.c == CODE && store.s == SPEC && config.Valid()
      requires Replay(Step, EMPTY, store.log) == Some(RowsOf(store.db))
      ensures Valid() && this.store == store && this.config == config && this.hash == hash && cache == map[]
    {
      this.store, this.config, this.hash, this.clock, cache, made, sets := store, config, hash, clock, map[], {}, 0;
      failures, lapses := 0, 0;
      first := |store.own|;
    }

    lemma SetBefore()
      requires Valid()
      ensures forall token :: token in cache ==> cache[token].setAt <= clock
    {
      hide Lawful, Consistent, AllAsked, Sound, Replay;
      forall token | token in cache ensures cache[token].setAt <= clock {
        SoundEntry(config, token, cache[token], clock, store.log, RowsOf(store.db), store.quiet);
      }
    }

    /** Revoked in the store and absent from the cache. */
    ghost function Buried(): set<Id>
      reads this, store
    {
      BuriedIn(RowsOf(store.db), cache)
    }

    /** Time and the rows have moved forwards; without overlapping calls the dead stay dead. */
    twostate predicate Moved()
      reads this, store
    {
      && Valid() && store.Steady() && old(clock) <= clock && old(sets) <= sets
      && old(failures) <= failures && old(lapses) <= lapses
      && old(made) <= made && (forall entry :: entry in made ==> entry in old(made) || old(clock) <= entry.setAt <= clock)
      && (store.quiet ==> old(Buried()) <= Buried())
    }

    /** The same, and well-formed rows have stayed so. */
    twostate predicate Went()
      reads this, store
    {
      Moved() && (Healthy() ==> Sane(RowsOf(store.db), clock))
    }

    /** Without overlapping calls: the rows were well-formed when the call began, and no token hashes to zero. */
    twostate predicate Healthy()
      reads this, store
    {
      store.quiet && Sane(old(RowsOf(store.db)), old(clock)) && ZERO_TIME < old(clock) && NeverZero()
    }

    ghost predicate NeverZero() { forall raw :: hash(raw) != Some(ZERO_HASH) }

    /** This client has committed nothing and set no cache entry. */
    twostate predicate Idle()
      reads this, store
    {
      sets == old(sets) && store.own == old(store.own)
    }

    /** Without overlapping calls neither the store nor the cache has changed. */
    twostate predicate Still()
      reads this, store
    {
      && Idle()
      && (store.quiet ==>
            && RowsOf(store.db) == RowsOf(old(store.db)) && store.log == old(store.log)
            && cache == old(cache) && made == old(made))
    }

    /** No draw and no cache call of this client has failed. */
    twostate predicate Smooth()
      reads this
    {
      failures == old(failures) && lapses == old(lapses)
    }

    /** The cache holds this record, unless it has none or the record has expired. */
    predicate InCache(record: Record)
      reads this
    {
      config.cached && clock < record.expiresAt ==> record.token in cache && cache[record.token].record == record
    }

    // -------------------------------------------------------------- the world around a call

    /** Other clients run, time passes. */
    method Overlap()
      requires Valid()
      modifies this, store
      ensures Went() && Still() && Smooth()
    {
    }

    method Now() returns (at: Time)
      requires Valid()
      modifies this, store
      ensures Went() && Still() && Smooth() && at == clock
    {
      Overlap();
      at := clock;
    }

    /** A miss, an expired entry and a failure all answer None. */
    method CacheGet(token: Id) returns (r: Option<Record>, ghost entry: CacheEntry)
      requires Valid()
      modifies this, store
      ensures Went() && Still() && failures == old(failures)
      ensures r.Some? ==>
        && token in cache && entry == cache[token] && r.value == entry.record && clock < entry.until
        && entry in made && Sound(config, token, entry, clock, store.log, RowsOf(store.db), store.quiet)
      ensures token !in cache ==> r.None?
      ensures r.None? && lapses == old(lapses) ==> token !in cache || cache[token].until <= clock
    {
      hide Sane;
      Overlap();
      entry := CacheEntry(Record("", "", "", 0, 0, None, None), 0, 0);
      if * {
        lapses := lapses + 1;
        return None, entry;
      }
      if token !in cache || clock >= cache[token].until {
        return None, entry;
      }
      return Some(cache[token].record), cache[token];
    }

    /** May fail with or without effect. */
    method CacheSet(record: Record, ttl: Time, ghost n: nat)
      requires Valid() && config.cached && ttl <= config.cacheTTL
      requires Saw(store.log, n, record) && record.revokedAt.None?
      requires store.quiet && record.token in RowsOf(store.db) ==> RowsOf(store.db)[record.token].revokedAt.None?
      modifies this, store
      ensures Went() && store.own == old(store.own) && failures == old(failures)
      ensures store.quiet ==> RowsOf(store.db) == RowsOf(old(store.db)) && store.log == old(store.log)
      ensures store.quiet ==> cache == old(cache) || SetFor(record, ttl)
      ensures store.quiet && lapses == old(lapses) ==> SetFor(record, ttl)
    {
      hide Step, Lawful, Consistent, Sound, AllAsked, Saw, Evolved, BuriedIn, Replay, Sane;
      Overlap();
      var failed, stored: bool := *, *;
      if failed {
        lapses := lapses + 1;
        if !stored { return; }
      }
      SawStays(old(store.log), store.log, n, record);
      Put(record, ttl, n);
    }

    /** The cache takes the record. */
    method Put(record: Record, ttl: Time, ghost n: nat)
      requires Valid() && config.cached && ttl <= config.cacheTTL
      requires Saw(store.log, n, record) && record.revokedAt.None?
      requires store.quiet && record.token in RowsOf(store.db) ==> RowsOf(store.db)[record.token].revokedAt.None?
      modifies this`cache, this`made, this`sets
      ensures Valid() && (store.quiet ==> old(Buried()) <= Buried())
      ensures sets == old(sets) + 1 && SetFor(record, ttl) && made == old(made) + {cache[record.token]}
    {
      hide Step, Lawful, Consistent, Sound, AllAsked, Saw, Evolved, BuriedIn, Replay, Sane;
      var entry := CacheEntry(record, clock, clock + ttl);
      SoundWhenSet(config, entry, clock, ttl, store.log, n, RowsOf(store.db), store.quiet);
      if store.quiet { BuriedWhenSet(RowsOf(store.db), cache, record.token, entry); }
      cache, made, sets := cache[record.token := entry], made + {entry}, sets + 1;
    }

    /** The record was cached during the call, to be forgotten after `ttl`. */
    twostate predicate SetFor(record: Record, ttl: Time)
      reads this
    {
      && Caches(old(cache), cache, record)
      && old(clock) <= cache[record.token].setAt <= clock && cache[record.token].until == cache[record.token].setAt + ttl
    }

    /** May fail with or without effect. */
    method CacheDelete(token: Id) returns (ok: bool)
      requires Valid()
      modifies this, store
      ensures Went() && Idle() && failures == old(failures)
      ensures store.quiet ==> RowsOf(store.db) == RowsOf(old(store.db)) && store.log == old(store.log)
      ensures store.quiet ==> cache == old(cache) || cache == old(cache) - {token}
      ensures ok ==> token !in cache
      ensures !ok ==> old(lapses) < lapses
    {
      hide Step, Lawful, Consistent, Sound, AllAsked, Saw, Sane;
      Overlap();
      var failed, deleted: bool := *, *;
      if failed {
        lapses := lapses + 1;
        if !deleted { return false; }
      }
      cache := cache - {token};
      return !failed;
    }

    /** Caches a record that has not expired, for the configured time or what is left of its life if that is less. */
    method PopulateCache(record: Record, ghost n: nat)
      requires Valid() && Saw(store.log, n, record) && record.revokedAt.None?
      requires store.quiet && record.token in RowsOf(store.db) ==> RowsOf(store.db)[record.token].revokedAt.None?
      modifies this, store
      ensures Went() && store.own == old(store.own) && failures == old(failures)
      ensures store.quiet ==> RowsOf(store.db) == RowsOf(old(store.db)) && store.log == old(store.log)
      ensures store.quiet ==> cache == old(cache) || (Caches(old(cache), cache, record) && SetBriefly(record))
      ensures store.quiet && lapses == old(lapses) ==> InCache(record)
      ensures store.quiet && lapses == old(lapses) && config.cached && clock < record.expiresAt ==> SetBriefly(record)
      ensures store.quiet && (!config.cached || record.expiresAt <= old(clock)) ==> cache == old(cache)
    {
      hide Step, Lawful, Consistent, Sound, AllAsked, Sane;
      if !config.cached { return; }
      var at := Now();
      var remaining := record.expiresAt - at;
      if remaining <= 0 { return; }
      SawStays(old(store.log), store.log, n, record);
      CacheSet(record, Min(config.cacheTTL, remaining), n);
    }

    /** The entry was made during the call, to live for the configured time or the rest of the record's. */
    twostate predicate SetBriefly(record: Record)
      requires record.token in cache
      reads this
    {
      var entry := cache[record.token];
      && old(clock) <= entry.setAt <= clock
      && (entry.until == entry.setAt + config.cacheTTL
          || (record.expiresAt <= entry.until <= record.expiresAt + (clock - old(clock)) && entry.until <= entry.setAt + config.cacheTTL))
      && (entry.setAt + config.cacheTTL <= record.expiresAt ==> entry.until == entry.setAt + config.cacheTTL)
    }

    method DeleteCached(token: Id) returns (ok: bool)
      requires Valid()
      modifies this, store
      ensures Went() && Idle() && failures == old(failures)
      ensures store.quiet ==> RowsOf(store.db) == RowsOf(old(store.db)) && store.log == old(store.log)
      ensures store.quiet ==> cache == old(cache) || cache == old(cache) - {token}
      ensures ok ==> token !in cache
      ensures !ok ==> old(lapses) < lapses
    {
      hide Sane;
      if !config.cached { return true; }
      ok := CacheDelete(token);
    }

    // -------------------------------------------------------------- calls of the durable store

    /** Create, Rotate, Revoke and RevokeAll, at a time no earlier than any cache entry known without overlap. */
    method Durably(op: Op, ghost at: Time) returns (r: Result<Reply, Error>)
      requires Valid() && !op.Extend? && Timed(op, at) && Asks(config.lifetime, config.Absolute(), EMPTY, op)
      requires store.quiet ==> forall token :: token in cache ==> cache[token].setAt <= at
      modifies this, store
      ensures Moved() && sets == old(sets) && clock == old(clock) && Smooth() && (store.quiet ==> cache == old(cache))
      ensures r.Ok? ==> Answered(old(RowsOf(store.db)), RowsOf(store.db), store.log, op, r.value)
      ensures store.MadeAtMost(op, r) && (r.Ok? && (op.Create? || op.Rotate?) ==> store.MadeLast(op, r.value))
      ensures r.Err? ==> MayFail(op, r.error)
      ensures store.quiet ==> OneStep(store, op, r)
    {
      hide Lawful, Step, Consistent, Sound, AllAsked, BuriedIn, Evolved, Sane, MayFail;
      ghost var rows, earlier, own := RowsOf(store.db), store.log, store.own[first..];
      r := Perform(store, op);
      BuriedStays(earlier, store.log, cache);
      AskedOfAll(config, earlier, store.log, own, store.own[first..], op);
      CallKeepsSound(config, cache, clock, earlier, rows, op, at, store.log, RowsOf(store.db), store.quiet, r);
    }

    method Lookup(token: Id) returns (r: Option<Record>)
      requires Valid()
      modifies this, store
      ensures Went() && Idle() && Smooth() && clock == old(clock)
      ensures store.quiet ==> RowsOf(store.db) == old(RowsOf(store.db)) && cache == old(cache)
      ensures r == if token in RowsOf(store.db) then Some(RowsOf(store.db)[token]) else None
      ensures r.Some? ==> r.value.token == token
    {
      hide Lawful, Step, Consistent, Sound, AllAsked, BuriedIn, Evolved, Sane;
      ghost var rows, earlier := RowsOf(store.db), store.log;
      r := Find(store, token);
      BuriedStays(earlier, store.log, cache);
      AskedStays(config, earlier, store.log, store.own[first..]);
      KeepAllSound(config, cache, clock, earlier, rows, store.log, RowsOf(store.db), store.quiet);
      NamedByToken(store.db);
    }

    /** Extend: on success the row it wrote. */
    method ExtendDurably(record: Record, at: Time, expiresAt: Time, ghost seen: nat) returns (r: Result<Record, Error>)
      requires Valid() && Saw(store.log, seen, record) && expiresAt == config.Extended(at, record.createdAt)
      modifies this, store
      ensures Moved() && sets == old(sets) && clock == old(clock) && Smooth() && (store.quiet ==> cache == old(cache))
      ensures Healthy() && record.createdAt <= at ==> Sane(RowsOf(store.db), clock)
      ensures OwnCommit(store, r.Ok?) && store.MadeOnly(Extending(Some(record.token), at, at))
      ensures r.Ok? ==>
        && Saw(store.log, |store.log|, r.value) && r.value.token == record.token
        && r.value.createdAt == record.createdAt && r.value.expiresAt == expiresAt && r.value.revokedAt.None?
        && record.token in RowsOf(store.db) && RowsOf(store.db)[record.token] == r.value
      ensures store.quiet ==>
        if Extensible(old(RowsOf(store.db)), record.token, at, expiresAt) then
          var extended := old(RowsOf(store.db))[record.token].(extendedAt := Some(at), expiresAt := expiresAt);
          r == Ok(extended) && RowsOf(store.db) == old(RowsOf(store.db))[record.token := extended]
        else r == Err(Error.Inactive) && RowsOf(store.db) == old(RowsOf(store.db))
    {
      hide Lawful, Step, Consistent, Sound, AllAsked, ExtendedLast, Asks, Saw, Witnessed, BuriedIn, Evolved, AskedAt,
           Sane;
      ghost var rows, earlier, own := RowsOf(store.db), store.log, store.own[first..];
      var answer, lost := SessionCalls.Extend(store, record.token, at, expiresAt);
      BuriedStays(earlier, store.log, cache);
      CallKeepsSound(config, cache, clock, earlier, rows, Op.Extend(record.token, at, None, expiresAt), at,
                     store.log, RowsOf(store.db), store.quiet, answer);
      if store.quiet {
        StepExtends(rows, RowsOf(store.db), record.token, at, expiresAt, answer);
      }
      if Healthy() && record.createdAt <= at {
        SameCreation(earlier, record, seen);
        ExtensionStaysSane(rows, RowsOf(store.db), record.token, at, expiresAt, answer, clock, clock);
      }
      NamedByToken(store.db);
      if answer.Err? {
        AskedStays(config, earlier, store.log, own);
        return Err(answer.error);
      }
      r := Ok(answer.value.record);
      ExtensionConfirmed(config, earlier, store.log, own, record, seen, at, lost > 0, answer.value);
      assert store.own[first..] == own + [|store.log| - 1];
    }

    // -------------------------------------------------------------- the manager's methods

    /**
      extendIfDue: either the record comes back as it was and no cache entry was set, or an extension was due and
      the store confirmed it after `n` commits, the last of them this call's own, with the expiry that the
      lifetimes allow. Without overlapping calls the answer and the rows afterwards are exactly what the row calls for.
    */
    method ExtendIfDue(record: Record, at: Time, ghost seen: nat)
      returns (r: Result<Record, Failure>, ghost confirmed: Option<nat>)
      requires Valid() && Saw(store.log, seen, record) && record.ActiveAt(at)
      modifies this, store
      ensures Moved() && store.MadeOnly(Extending(Some(record.token), at, at)) && failures == old(failures)
      ensures Healthy() && ValidRecord(record) ==> Sane(RowsOf(store.db), clock)
      ensures r.Ok? ==> r.value.token == record.token && r.value.ActiveAt(at)
      ensures r.Ok? && confirmed.None? ==> r.value == record && Idle()
      ensures r.Ok? && confirmed.Some? ==> config.Due(record, at) && Confirmed(record, at, r.value, confirmed.value)
      ensures r.Ok? && store.quiet ==>
        if confirmed.None? then RowsOf(store.db) == old(RowsOf(store.db)) && cache == old(cache)
        else record.token in RowsOf(store.db) && RowsOf(store.db)[record.token] == r.value
      ensures store.quiet && Stored(old(RowsOf(store.db)), record, at) ==> r == Ok(config.Renewed(record, at))
      ensures store.quiet ==>
        && r == config.Renewal(old(RowsOf(store.db)), record, at)
        && RowsOf(store.db) == config.Refreshed(old(RowsOf(store.db)), record, at)
      ensures store.quiet && lapses == old(lapses) && r.Ok? && confirmed.Some? ==> InCache(r.value)
    {
      hide Step, Lawful, Consistent, Sound, AllAsked, Saw, BuriedIn, Sane;
      if store.quiet && Stored(RowsOf(store.db), record, at) { RenewalOfRow(config, RowsOf(store.db), record, at); }
      if config.extension.None? {
        return Ok(record), None;
      }
      if at < record.LastExtended() + config.extension.value.extendAfter {
        return Ok(record), None;
      }
      if config.Extended(at, record.createdAt) <= record.expiresAt {
        return Ok(record), None;
      }
      r, confirmed := ExtendNow(record, at, seen);
    }

    /** After `n` commits, the last of them this call's own and asked for properly, the store had the extended row. */
    twostate predicate Confirmed(record: Record, at: Time, new extended: Record, n: nat)
      reads this, store
    {
      && |old(store.log)| < n && Saw(store.log, n, extended) && store.own == old(store.own) + [n - 1]
      && AskedAt(config, store.log, n - 1)
      && extended.createdAt == record.createdAt && extended.expiresAt == config.Extended(at, record.createdAt)
    }

    method ExtendNow(record: Record, at: Time, ghost seen: nat)
      returns (r: Result<Record, Failure>, ghost confirmed: Option<nat>)
      requires Valid() && Saw(store.log, seen, record) && record.ActiveAt(at) && config.Due(record, at)
      modifies this, store
      ensures Moved() && store.MadeOnly(Extending(Some(record.token), at, at)) && failures == old(failures)
      ensures Healthy() && record.createdAt <= at ==> Sane(RowsOf(store.db), clock)
      ensures r.Ok? ==> r.value.token == record.token && r.value.ActiveAt(at)
      ensures r.Ok? && confirmed.None? ==> r.value == record && Idle()
      ensures r.Ok? && confirmed.Some? ==> Confirmed(record, at, r.value, confirmed.value)
      ensures r.Ok? && store.quiet ==>
        confirmed.Some? && record.token in RowsOf(store.db) && RowsOf(store.db)[record.token] == r.value
      ensures store.quiet ==>
        && r == config.Renewal(old(RowsOf(store.db)), record, at)
        && RowsOf(store.db) == config.Refreshed(old(RowsOf(store.db)), record, at)
      ensures store.quiet && lapses == old(lapses) && r.Ok? ==> InCache(r.value)
    {
      hide Step, Lawful, Consistent, Sound, AllAsked, BuriedIn, Evolved, AskedAt, Extending, Saw, Replay, Sane,
           ValidRecord;
      confirmed := None;
      var extended := ExtendDurably(record, at, config.Extended(at, record.createdAt), seen);
      if extended.Err? {
        if extended.error.Inactive? || extended.error.NotFound? {
          var _ := DeleteCached(record.token);
          return Err(FailureOf(extended.error)), None;
        }
        return Ok(record), None;
      }
      if !ValidRecord(extended.value) || extended.value.token != record.token || !extended.value.ActiveAt(at) {
        return Err(Failure.InvalidRecord), None;
      }
      ghost var log := store.log;
      PopulateCache(extended.value, |log|);
      SawStays(log, store.log, |log|, extended.value);
      AskedLast(config, store.log, store.own[first..], |log| - 1);
      confirmed := Some(|log|);
      return Ok(extended.value), confirmed;
    }

    /**
      Resolve. A success at `now` rests on the store having shown the session unrevoked: either during this call,
      or when a cache entry was set, less than CacheTTL ago; and in the second case this call set no entry.
      Without overlapping calls, and whatever cache calls fail: a token that was revoked and dropped from the
      cache does not resolve, and none resolves CacheTTL after its revocation. The answer is then exactly the one that the
      row calls for, or the one that a usable cache entry calls for, which it is if no cache call fails. In particular
      an active well-formed row resolves, extended exactly when that is due, unless an entry serves an older version of it.
    */
    method Resolve(raw: string) returns (r: Result<Record, Failure>, ghost now: Time, ghost source: Source)
      requires Valid()
      modifies this, store
      ensures store.MadeOnly(Extending(hash(raw), now, now))
      ensures Went() && old(clock) <= now <= clock
      ensures r.Ok? ==> hash(raw) == Some(r.value.token) && r.value.ActiveAt(now)
      ensures r.Ok? && source.Durable? ==> |old(store.log)| <= source.n && Saw(store.log, source.n, r.value)
      ensures r.Ok? && source.Cached? ==> FromCache(source.entry, r.value, now) && Idle()
      ensures store.quiet && r.Ok? ==> r.value.token !in old(Buried()) && RevocationYoung(old(RowsOf(store.db)), r.value.token, now)
      ensures hash(raw).None? ==> r == Err(Failure.InvalidToken)
      ensures store.quiet && hash(raw).Some? ==>
        && (FromRow(config, old(RowsOf(store.db)), hash(raw).value, now, r, RowsOf(store.db))
            || (Serves(old(cache), hash(raw).value, now, old(clock))
                && FromEntry(config, old(RowsOf(store.db)), old(cache), hash(raw).value, now, r, RowsOf(store.db))))
        && (lapses == old(lapses) && Serves(old(cache), hash(raw).value, now, clock) ==>
              FromEntry(config, old(RowsOf(store.db)), old(cache), hash(raw).value, now, r, RowsOf(store.db)))
        && (lapses == old(lapses) && r.Ok? ==> InCache(r.value))
      ensures (
        && store.quiet && hash(raw).Some? && Resolvable(old(RowsOf(store.db)), hash(raw).value, now)
        && Current(old(RowsOf(store.db)), old(cache), hash(raw).value, now, old(clock))) ==>
        && ExtendedWhenDue(config, old(RowsOf(store.db))[hash(raw).value], now, r)
        && RowsOf(store.db) == old(RowsOf(store.db))[hash(raw).value := r.value]
    {
      hide Step, Lawful, Consistent, Sound, AllAsked, Saw, Evolved, AskedAt, Extending, Sane, ValidRecord, FromRow,
           FromEntry, ExtendedWhenDue;
      source := Durable(0);
      if hash(raw).None? {
        return Err(Failure.InvalidToken), clock, source;
      }
      var token := hash(raw).value;
      var at := Now();
      now := at;
      ghost var rows := RowsOf(store.db);
      NamedByToken(store.db);
      r, source := ResolveHash(token, at);
      if store.quiet && Resolvable(rows, token, at) && Current(rows, old(cache), token, at, old(clock)) {
        RowResolves(config, rows, old(cache), token, at, old(clock), r, RowsOf(store.db));
      }
    }

    /** The cache first, where there is one, and then the store. */
    method ResolveHash(token: Id, at: Time) returns (r: Result<Record, Failure>, ghost source: Source)
      requires Valid() && at <= clock
      modifies this, store
      ensures Went() && store.MadeOnly(Extending(Some(token), at, at))
      ensures r.Ok? ==> r.value.token == token && r.value.ActiveAt(at)
      ensures r.Ok? && source.Durable? ==> |old(store.log)| <= source.n && Saw(store.log, source.n, r.value)
      ensures r.Ok? && source.Cached? ==> FromCache(source.entry, r.value, at) && Idle()
      ensures store.quiet && r.Ok? ==> token !in old(Buried()) && RevocationYoung(old(RowsOf(store.db)), token, at)
      ensures store.quiet ==>
        && (FromRow(config, old(RowsOf(store.db)), token, at, r, RowsOf(store.db))
            || (Serves(old(cache), token, at, old(clock))
                && FromEntry(config, old(RowsOf(store.db)), old(cache), token, at, r, RowsOf(store.db))))
        && (lapses == old(lapses) && Serves(old(cache), token, at, clock) ==>
              FromEntry(config, old(RowsOf(store.db)), old(cache), token, at, r, RowsOf(store.db)))
        && (lapses == old(lapses) && r.Ok? ==> InCache(r.value))
    {
      hide Step, Lawful, Consistent, Sound, AllAsked, Saw, Evolved, AskedAt, Extending, Sane, ValidRecord, FromRow,
           FromEntry;
      if config.cached {
        var answer, origin := ResolveCached(token, at);
        if answer.Some? {
          return answer.value, origin;
        }
      }
      r, source := ResolveDurably(token, at);
    }

    /** Resolve from a usable cache entry, if there is one. */
    method ResolveCached(token: Id, at: Time) returns (r: Option<Result<Record, Failure>>, ghost source: Source)
      requires Valid() && at <= clock
      modifies this, store
      ensures Went() && store.MadeOnly(Extending(Some(token), at, at)) && (r.None? ==> store.own == old(store.own))
      ensures token !in old(cache) && store.quiet ==> r.None?
      ensures r.None? && store.quiet ==> RowsOf(store.db) == old(RowsOf(store.db))
      ensures r.Some? && r.value.Ok? ==>
        && r.value.value.token == token && r.value.value.ActiveAt(at)
        && (source.Durable? ==> |old(store.log)| <= source.n && Saw(store.log, source.n, r.value.value))
        && (source.Cached? ==> FromCache(source.entry, r.value.value, at) && Idle())
        && (store.quiet ==> RevocationYoung(old(RowsOf(store.db)), token, at))
      ensures store.quiet && r.Some? ==>
        && Serves(old(cache), token, at, old(clock))
        && FromEntry(config, old(RowsOf(store.db)), old(cache), token, at, r.value, RowsOf(store.db))
        && (lapses == old(lapses) && r.value.Ok? ==> InCache(r.value.value))
      ensures store.quiet && r.None? && lapses == old(lapses) ==> !Serves(old(cache), token, at, clock)
    {
      hide Step, Lawful, Consistent, Sound, AllAsked, Evolved, AskedAt, Extending, Saw, BuriedIn, Sane, ValidRecord;
      source := Durable(0);
      var cached, entry := Usable(token, at);
      if cached.None? {
        return None, source;
      }
      ghost var seen: nat :| Saw(store.log, seen, cached.value);
      ghost var log := store.log;
      var extended, confirmed := ExtendIfDue(cached.value, at, seen);
      SawStays(log, store.log, seen, cached.value);
      source := if confirmed.Some? then Durable(confirmed.value) else Cached(entry);
      return Some(extended), source;
    }

    /** A cache entry that is well-formed and active; one that is not active is dropped. */
    method Usable(token: Id, at: Time) returns (r: Option<Record>, ghost entry: CacheEntry)
      requires Valid() && at <= clock
      modifies this, store
      ensures Went() && Idle() && failures == old(failures)
      ensures store.quiet ==> RowsOf(store.db) == old(RowsOf(store.db))
      ensures token !in old(cache) && store.quiet ==> r.None?
      ensures r.Some? ==>
        && r.value.token == token && r.value.ActiveAt(at) && FromCache(entry, r.value, at) && ValidRecord(r.value)
        && (store.quiet ==> RevocationYoung(RowsOf(store.db), token, at))
      ensures store.quiet && r.Some? ==>
        cache == old(cache) && Serves(old(cache), token, at, old(clock)) && r.value == old(cache)[token].record
      ensures store.quiet && r.None? && lapses == old(lapses) ==> !Serves(old(cache), token, at, clock)
    {
      hide Step, Lawful, Consistent, Sound, AllAsked, Evolved, AskedAt, Saw, Sane, ValidRecord;
      var cached;
      cached, entry := CacheGet(token);
      if cached.Some? {
        SoundEntry(config, token, entry, clock, store.log, RowsOf(store.db), store.quiet);
      }
      if cached.None? || !ValidRecord(cached.value) || cached.value.token != token {
        return None, entry;
      }
      if !cached.value.ActiveAt(at) {
        var _ := CacheDelete(token);
        return None, entry;
      }
      return cached, entry;
    }

    /** The entry was set less than CacheTTL before `at`, and holds what the store once showed. */
    ghost predicate FromCache(entry: CacheEntry, record: Record, at: Time)
      reads this, store
    {
      && entry in made && entry.record == record && record.revokedAt.None? && Witnessed(store.log, record)
      && entry.setAt <= clock && at < entry.setAt + config.cacheTTL
    }

    /** How long a stale entry can keep a revoked session alive. */
    predicate RevocationYoung(rows: Rows, token: Id, now: Time) {
      token in rows && rows[token].revokedAt.Some? ==> now < rows[token].revokedAt.value + config.cacheTTL
    }

    /** Resolve past the cache. */
    method ResolveDurably(token: Id, at: Time) returns (r: Result<Record, Failure>, ghost source: Source)
      requires Valid()
      modifies this, store
      ensures Went() && store.MadeOnly(Extending(Some(token), at, at))
      ensures r.Ok? ==>
        && r.value.token == token && r.value.ActiveAt(at)
        && source.Durable? && |old(store.log)| <= source.n && Saw(store.log, source.n, r.value)
      ensures store.quiet ==>
        && (r.Ok? ==> token in old(RowsOf(store.db)) && old(RowsOf(store.db))[token].ActiveAt(at))
        && FromRow(config, old(RowsOf(store.db)), token, at, r, RowsOf(store.db))
        && (lapses == old(lapses) && r.Ok? ==> InCache(r.value))
    {
      hide Step, Lawful, Consistent, Sound, AllAsked, BuriedIn, Saw, AskedAt, Evolved, Sane, ValidRecord;
      source := Durable(0);
      var found := Lookup(token);
      if found.None? {
        return Err(Failure.NotFound), source;
      }
      var record := found.value;
      if !ValidRecord(record) || record.token != token {
        return Err(Failure.InvalidRecord), source;
      }
      if !record.ActiveAt(at) {
        if config.cached { var _ := CacheDelete(token); }
        return Err(Failure.Inactive), source;
      }
      r, source := Admit(record, at);
    }

    /** The durable row is active: extend it if due and cache the outcome. */
    method Admit(record: Record, at: Time) returns (r: Result<Record, Failure>, ghost source: Source)
      requires Valid() && record.ActiveAt(at) && ValidRecord(record)
      requires record.token in RowsOf(store.db) && RowsOf(store.db)[record.token] == record
      modifies this, store
      ensures Went() && store.MadeOnly(Extending(Some(record.token), at, at))
      ensures r.Ok? ==>
        && r.value.token == record.token && r.value.ActiveAt(at)
        && source.Durable? && |old(store.log)| <= source.n && Saw(store.log, source.n, r.value)
      ensures store.quiet ==>
        && r == Ok(config.Renewed(record, at))
        && RowsOf(store.db) == old(RowsOf(store.db))[record.token := r.value]
        && (lapses == old(lapses) ==> InCache(r.value))
    {
      hide Step, Lawful, Consistent, Sound, AllAsked, BuriedIn, Replay, Sane, ValidRecord;
      SawNow(store.log, record);
      RenewalOfRow(config, RowsOf(store.db), record, at);
      ghost var n, log := |store.log|, store.log;
      source := Durable(n);
      ghost var confirmed;
      r, confirmed := ExtendIfDue(record, at, n);
      if r.Err? {
        return;
      }
      SawStays(log, store.log, n, record);
      if confirmed.Some? { n := confirmed.value; }
      source, log := Durable(n), store.log;
      PopulateCache(r.value, n);
      SawStays(log, store.log, n, r.value);
    }

    /** A random identifier and token; the token may fail to be generated or may collide. */
    method NewIssued(subject: Id) returns (r: Option<Issued>)
      requires Valid()
      modifies this, store
      ensures Went() && Still() && lapses == old(lapses) && failures == old(failures) + if r.None? then 1 else 0
      ensures r.Some? ==> Fresh(r.value, subject) && r.value.record.createdAt == clock && !Blank(r.value.record.id)
    {
      hide Step, Lawful, Consistent, Sound, AllAsked, Sane;
      var id: Id, raw: string := *, *;
      var at := Now();
      if Blank(id) || hash(raw).None? {
        failures := failures + 1;
        return None;                   // a UUID is never blank: the random source has failed
      }
      return Some(Issued(raw, Record(id, subject, hash(raw).value, at, at + config.lifetime, None, None)));
    }

    predicate Fresh(issued: Issued, subject: Id) {
      hash(issued.token) == Some(issued.record.token) && issued.record.subject == subject && New(issued.record)
    }

    /** A new session has the configured lifetime, and has been neither extended nor revoked. */
    predicate New(record: Record) {
      && record.expiresAt == record.createdAt + config.lifetime
      && record.extendedAt.None? && record.revokedAt.None?
    }

    /** Drawn at this moment: no token hashes to zero unless some string does. */
    ghost predicate Drawn(record: Record)
      reads this
    {
      && !Blank(record.id) && !Blank(record.subject) && record.createdAt == clock
      && (NeverZero() ==> record.token != ZERO_HASH)
    }

    lemma DrawnIsValid(record: Record)
      requires Drawn(record) && New(record) && config.Valid()
      ensures NeverZero() && ZERO_TIME < clock ==> ValidRecord(record)
    {}

    /** One attempt of Create; None if the identifier or the token was taken. */
    method CreateOnce(subject: Id) returns (r: Option<Result<Issued, Failure>>, ghost n: nat)
      requires Valid() && !Blank(subject)
      modifies this, store
      ensures Went()
      ensures r.Some? && r.value.Ok? ==>
        && Fresh(r.value.value, subject) && old(clock) <= r.value.value.record.createdAt <= clock
        && store.Made(n, Op.Create(r.value.value.record), Nothing)
      ensures r.None? || r.value.Err? ==> store.own == old(store.own)
      ensures failures == old(failures) + if r.Some? && r.value.Ok? then 0 else 1
      ensures r.Some? && r.value.Err? ==> r.value.error == Unavailable
      ensures store.quiet ==> RowsOf(store.db) == After(old(RowsOf(store.db)), r)
      ensures store.quiet && lapses == old(lapses) && r.Some? && r.value.Ok? ==> InCache(r.value.value.record)
    {
      hide Step, Lawful, Consistent, Sound, AllAsked, BuriedIn, Saw, AskedAt, Evolved, Replay, Sane, Blank;
      n := 0;
      var issued := NewIssued(subject);
      if issued.None? {
        return Some(Err(Unavailable)), n;
      }
      var record := issued.value.record;
      var error;
      error, n := StoreNew(record);
      if error.Some? { failures := failures + 1; }       // without overlapping calls, the identifier or the token is taken
      r := match error
        case None => Some(Ok(issued.value))
        case Some(other) => if other.Conflict? then None else Some(Err(Unavailable));
    }

    /** A new session becomes durable, and is then cached. */
    method StoreNew(record: Record) returns (error: Option<Error>, ghost n: nat)
      requires Valid() && New(record) && Drawn(record)
      modifies this, store
      ensures Went() && failures == old(failures)
      ensures if error.None? then store.Made(n, Op.Create(record), Nothing) else store.own == old(store.own)
      ensures error.Some? ==> error.value.Conflict? || error.value.TransactionConflict?
      ensures store.quiet ==>
        RowsOf(store.db) == if error.None? then old(RowsOf(store.db))[record.token := record] else old(RowsOf(store.db))
      ensures store.quiet && lapses == old(lapses) && error.None? ==> InCache(record)
    {
      hide Step, Lawful, Consistent, Sound, AllAsked, BuriedIn, Saw, AskedAt, Evolved, Replay, Sane, Blank;
      n := 0;
      var answer := CreateDurably(record);
      if answer.Err? {
        return Some(answer.error), n;
      }
      n := |store.log| - 1;
      PopulateCache(record, |store.log|);
      return None, n;
    }

    method CreateDurably(record: Record) returns (r: Result<Reply, Error>)
      requires Valid() && New(record) && Drawn(record)
      modifies this, store
      ensures Went() && sets == old(sets) && Smooth() && clock == old(clock)
      ensures r.Ok? ==>
        && Saw(store.log, |store.log|, record) && store.MadeLast(Op.Create(record), Nothing)
      ensures r.Err? ==> store.own == old(store.own) && (r.error.Conflict? || r.error.TransactionConflict?)
      ensures store.quiet ==>
        RowsOf(store.db) == if r.Ok? then old(RowsOf(store.db))[record.token := record] else old(RowsOf(store.db))
    {
      hide Step, Lawful, Consistent, AllAsked, Sane, ValidRecord, Sound, BuriedIn;
      ghost var rows := RowsOf(store.db);
      DrawnIsValid(record);
      SetBefore();
      r := Durably(Op.Create(record), clock);
      if store.quiet {
        StepCreates(rows, RowsOf(store.db), record, r);
      }
      if Healthy() {
        CreationStaysSane(rows, RowsOf(store.db), record, r, clock, clock);
      }
      if r.Ok? {
        CreatedRow(store.log, record, r.value);
      }
    }

    /** The rows with a new session, if one was issued. */
    static function After(rows: Rows, r: Option<Result<Issued, Failure>>): Rows {
      if r.Some? && r.value.Ok? then rows[r.value.value.record.token := r.value.value.record] else rows
    }

    /**
      Create: the session is durable before its token is returned. Without overlapping calls it fails only for a blank
      subject or a failing random source.
    */
    method Create(subject: Id) returns (r: Result<Issued, Failure>, ghost n: nat)
      requires Valid()
      modifies this, store
      ensures Went()
      ensures r.Ok? ==>
        && Fresh(r.value, subject) && old(clock) <= r.value.record.createdAt <= clock
        && store.Made(n, Op.Create(r.value.record), Nothing) && AskedAt(config, store.log, n)
      ensures r.Err? ==> store.own == old(store.own)
      ensures r == Err(Failure.InvalidRecord) <==> Blank(subject)
      ensures r.Err? ==> r.error in {Failure.InvalidRecord, Unavailable, Failure.Conflict}
      ensures store.quiet ==> RowsOf(store.db) == After(old(RowsOf(store.db)), Some(r))
      ensures failures <= old(failures) + 3 && (r == Err(Failure.Conflict) ==> failures == old(failures) + 3)
      ensures !Blank(subject) ==> r.Ok? || old(failures) < failures
      ensures store.quiet && lapses == old(lapses) && r.Ok? ==> InCache(r.value.record)
    {
      hide Step, Lawful, Consistent, Sound, AllAsked, BuriedIn, Sane, Blank, ValidRecord;
      n := 0;
      if Blank(subject) {
        return Err(Failure.InvalidRecord), n;
      }
      for attempt := 0 to 3
        invariant Went() && store.own == old(store.own) && (store.quiet ==> RowsOf(store.db) == old(RowsOf(store.db)))
        invariant failures == old(failures) + attempt
      {
        var answer;
        answer, n := CreateOnce(subject);
        if answer.Some? {
          if answer.value.Ok? { AskedLast(config, store.log, store.own[first..], n); }
          return answer.value, n;
        }
      }
      return Err(Failure.Conflict), n;
    }

    // -------------------------------------------------------------- rotation

    method RotateDurably(current: Record, replacement: Record, at: Time) returns (r: Result<Reply, Error>)
      requires Valid() && New(replacement) && Drawn(replacement) && replacement.subject == current.subject
      requires store.quiet ==> forall token :: token in cache ==> cache[token].setAt <= at
      requires store.quiet ==> current.token in RowsOf(store.db) && RowsOf(store.db)[current.token] == current
      requires replacement.ActiveAt(at) && current.ActiveAt(at)
      modifies this, store
      ensures Moved() && sets == old(sets) && Smooth() && clock == old(clock) && (store.quiet ==> cache == old(cache))
      ensures Healthy() && current.createdAt <= at ==> Sane(RowsOf(store.db), clock)
      ensures r.Ok? ==>
        && Saw(store.log, |store.log|, replacement)
        && store.MadeLast(Op.Rotate(current.token, replacement, at), Nothing)
      ensures r.Err? ==> store.own == old(store.own) && (store.quiet ==> r.error.Conflict?)
      ensures store.quiet ==>
        if r.Err? then RowsOf(store.db) == old(RowsOf(store.db))
        else RotatedRows(old(RowsOf(store.db)), RowsOf(store.db), current, replacement, at)
    {
      hide Step, Lawful, Consistent, Sound, AllAsked, Sane, ValidRecord, BuriedIn;
      ghost var rows := RowsOf(store.db);
      var op := Op.Rotate(current.token, replacement, at);
      DrawnIsValid(replacement);
      r := Durably(op, at);
      if r.Ok? {
        RotatedRow(store.log, op, r.value);
      }
      if store.quiet {
        StepRotates(rows, RowsOf(store.db), r, current, replacement, at);
      }
      if Healthy() && current.createdAt <= at {
        RotationStaysSane(rows, RowsOf(store.db), op, r, clock, clock);
      }
    }

    /** One attempt of Rotate; None if the new identifier or token was taken. */
    method RotateOnce(current: Record, at: Time) returns (r: Option<Result<Issued, Failure>>, ghost n: nat)
      requires Valid() && at <= clock && current.ActiveAt(at) && ValidRecord(current)
      requires store.quiet ==> forall token :: token in cache ==> cache[token].setAt <= at
      requires store.quiet ==> current.token in RowsOf(store.db) && RowsOf(store.db)[current.token] == current
      modifies this, store
      ensures Moved() && (Healthy() && current.createdAt <= at ==> Sane(RowsOf(store.db), clock))
      ensures store.quiet && (r.None? || r.value.Err?) ==>
        RowsOf(store.db) == old(RowsOf(store.db)) && cache == old(cache)
      ensures failures == old(failures) + if r.Some? && r.value.Ok? then 0 else 1
      ensures r.None? || r.value.Err? ==> store.own == old(store.own)
      ensures r.Some? && r.value.Err? ==> r.value.error != CacheSync && r.value.error != Failure.Conflict
      ensures r.Some? && r.value.Ok? ==>
        && Fresh(r.value.value, current.subject)
        && old(clock) <= r.value.value.record.createdAt <= clock
        && store.Made(n, Op.Rotate(current.token, r.value.value.record, at), Nothing)
        && (store.quiet ==> RotatedRows(old(RowsOf(store.db)), RowsOf(store.db), current, r.value.value.record, at))
        && (store.quiet && lapses == old(lapses) ==> InCache(r.value.value.record))
    {
      hide Step, RotatedRows, Lawful, Consistent, Sound, AllAsked, BuriedIn, Saw, AskedAt, Evolved, Replay, Sane, Blank;
      n := 0;
      var issued := NewIssued(current.subject);
      if issued.None? {
        return Some(Err(Unavailable)), n;
      }
      var error;
      error, n := StoreReplacement(current, issued.value.record, at);
      if error.Some? { failures := failures + 1; }       // without overlapping calls, the identifier or the token is taken
      r := match error
        case None => Some(Ok(issued.value))
        case Some(other) => if other.Conflict? then None else Some(Err(FailureOf(other)));
    }

    /** The replacement becomes durable as the old session is revoked, and is then cached. */
    method StoreReplacement(current: Record, replacement: Record, at: Time) returns (error: Option<Error>, ghost n: nat)
      requires Valid() && New(replacement) && Drawn(replacement) && replacement.subject == current.subject
      requires replacement.ActiveAt(at) && current.ActiveAt(at)
      requires store.quiet ==> forall token :: token in cache ==> cache[token].setAt <= at
      requires store.quiet ==> current.token in RowsOf(store.db) && RowsOf(store.db)[current.token] == current
      modifies this, store
      ensures Moved() && (Healthy() && current.createdAt <= at ==> Sane(RowsOf(store.db), clock)) && failures == old(failures)
      ensures if error.None? then store.Made(n, Op.Rotate(current.token, replacement, at), Nothing) else store.own == old(store.own)
      ensures store.quiet ==>
        if error.Some? then RowsOf(store.db) == old(RowsOf(store.db)) && cache == old(cache) && error.value.Conflict?
        else RotatedRows(old(RowsOf(store.db)), RowsOf(store.db), current, replacement, at)
      ensures store.quiet && lapses == old(lapses) && error.None? ==> InCache(replacement)
    {
      hide Step, RotatedRows, Lawful, Consistent, Sound, AllAsked, BuriedIn, Saw, AskedAt, Evolved, Replay, New, Sane,
           Drawn;
      n := 0;
      ghost var rows := RowsOf(store.db);
      var answer := RotateDurably(current, replacement, at);
      if answer.Err? {
        return Some(answer.error), n;
      }
      n := |store.log| - 1;
      if store.quiet {
        RotatedHas(rows, RowsOf(store.db), current, replacement, at);
      }
      PopulateCache(replacement, |store.log|);
      return None, n;
    }

    /**
      Rotate: what is returned was committed as the replacement of the old session at one moment, and the old
      session is revoked from then on. Without overlapping calls the subject has as many active sessions as
      before, and if no error accompanies the new session then the old token is out of the cache too; and a well-formed
      active session is rotated, unless the random source fails.
    */
    method Rotate(raw: string) returns (issued: Option<Issued>, error: Option<Failure>, ghost n: nat, ghost at: Time)
      requires Valid()
      modifies this, store
      ensures Went() && (issued.None? ==> error.Some? && store.own == old(store.own))
      ensures error.Some? && issued.Some? ==> error == Some(CacheSync)
      ensures error == Some(CacheSync) ==> issued.Some? && old(lapses) < lapses
      ensures issued.Some? ==>
        && hash(raw).Some? && hash(raw).value in RowsOf(store.db)
        && Fresh(issued.value, RowsOf(store.db)[hash(raw).value].subject)
        && old(clock) <= issued.value.record.createdAt <= clock && old(clock) <= at <= clock
        && store.Made(n, Op.Rotate(hash(raw).value, issued.value.record, at), Nothing) && AskedAt(config, store.log, n)
      ensures store.quiet && issued.Some? ==>
        && hash(raw).value in old(RowsOf(store.db))
        && RotatedRows(old(RowsOf(store.db)), RowsOf(store.db), old(RowsOf(store.db))[hash(raw).value], issued.value.record, at)
        && (lapses == old(lapses) ==> InCache(issued.value.record))
      ensures store.quiet && issued.None? ==> RowsOf(store.db) == old(RowsOf(store.db))
      ensures store.quiet && error.None? ==> hash(raw).value in Buried()
      ensures hash(raw).None? ==> error == Some(Failure.InvalidToken)
      ensures failures <= old(failures) + 3 && (error == Some(Failure.Conflict) ==> failures == old(failures) + 3)
      ensures store.quiet && hash(raw).Some? ==>
        var rows, token := old(RowsOf(store.db)), hash(raw).value;
        if token !in rows then error == Some(Failure.NotFound)
        else if !ValidRecord(rows[token]) then error == Some(Failure.InvalidRecord)
        else if rows[token].revokedAt.Some? || rows[token].expiresAt <= at then error == Some(Failure.Inactive)
        else issued.Some? || old(failures) < failures
    {
      hide Step, Lawful, Consistent, Sound, AllAsked, Replay, Sane, RotatedRows, ValidRecord, Evolved, BuriedIn, AskedAt;
      issued, n, at := None, 0, clock;
      if hash(raw).None? {
        error := Some(Failure.InvalidToken);
        return;
      }
      var record, time := FindActive(hash(raw).value);
      at := time;
      if record.Err? {
        error := Some(record.error);
        return;
      }
      ghost var log := store.log;
      issued, error, n := RotateActive(record.value, time);
      RowStays(log, store.log, hash(raw).value);
      if issued.Some? { AskedLast(config, store.log, store.own[first..], n); }
    }

    /** The durable record, if it is well-formed and active now. */
    method FindActive(token: Id) returns (r: Result<Record, Failure>, at: Time)
      requires Valid()
      modifies this, store
      ensures Went() && Idle() && Smooth() && old(clock) <= at == clock && (r.Err? ==> r.error != CacheSync && r.error != Failure.Conflict)
      ensures r.Ok? ==> r.value.token == token && r.value.ActiveAt(at) && ValidRecord(r.value)
      ensures r.Ok? ==> token in RowsOf(store.db) && SameIdentity(r.value, RowsOf(store.db)[token])
      ensures store.quiet ==>
        && RowsOf(store.db) == old(RowsOf(store.db))
        && (r.Ok? ==> token in RowsOf(store.db) && RowsOf(store.db)[token] == r.value)
        && (r.Err? ==>
              var rows := old(RowsOf(store.db));
              if token !in rows then r.error == Failure.NotFound
              else if !ValidRecord(rows[token]) then r.error == Failure.InvalidRecord
              else r.error == Failure.Inactive && !rows[token].ActiveAt(at))
    {
      hide Step, Lawful, Consistent, Sound, AllAsked, Sane, ValidRecord, BuriedIn;
      at := clock;
      var found := Lookup(token);
      if found.None? {
        return Err(Failure.NotFound), clock;
      }
      var record := found.value;
      if !ValidRecord(record) || record.token != token {
        return Err(Failure.InvalidRecord), clock;
      }
      ghost var log := store.log;
      at := Now();
      LaterLog(log, store.log);
      if !record.ActiveAt(at) {
        return Err(Failure.Inactive), at;
      }
      return Ok(record), at;
    }

    method RotateActive(record: Record, at: Time) returns (issued: Option<Issued>, error: Option<Failure>, ghost n: nat)
      requires Valid() && at == clock && record.ActiveAt(at) && ValidRecord(record)
      requires store.quiet ==> record.token in RowsOf(store.db) && RowsOf(store.db)[record.token] == record
      modifies this, store
      ensures Went() && (issued.None? ==> error.Some? && store.own == old(store.own) && error != Some(CacheSync))
      ensures error.Some? && issued.Some? ==> error == Some(CacheSync)
      ensures error == Some(CacheSync) ==> old(lapses) < lapses
      ensures issued.Some? ==>
        && Fresh(issued.value, record.subject) && old(clock) <= issued.value.record.createdAt <= clock
        && store.Made(n, Op.Rotate(record.token, issued.value.record, at), Nothing)
        && (store.quiet ==> RotatedRows(old(RowsOf(store.db)), RowsOf(store.db), record, issued.value.record, at))
        && (store.quiet && lapses == old(lapses) ==> InCache(issued.value.record))
      ensures store.quiet && issued.None? ==> RowsOf(store.db) == old(RowsOf(store.db))
      ensures issued.None? ==> old(failures) < failures
      ensures failures <= old(failures) + 3 && (error == Some(Failure.Conflict) ==> failures == old(failures) + 3)
      ensures store.quiet && error.None? ==> record.token in Buried()
    {
      hide Step, RotatedRows, Lawful, Consistent, AllAsked, Sane, Sound, ValidRecord;
      ghost var rows := RowsOf(store.db);
      if Healthy() { SaneRow(rows, clock, record.token); }
      SetBefore();
      var answer;
      answer, n := RotateLoop(record, at);
      if answer.Err? {
        return None, Some(answer.error), n;
      }
      if store.quiet {
        RotatedHas(rows, RowsOf(store.db), record, answer.value.record, at);
      }
      var ok := DeleteCached(record.token);
      return Some(answer.value), (if ok then None else Some(CacheSync)), n;
    }

    method RotateLoop(record: Record, at: Time) returns (r: Result<Issued, Failure>, ghost n: nat)
      requires Valid() && at <= clock && record.ActiveAt(at) && ValidRecord(record)
      requires store.quiet ==> forall token :: token in cache ==> cache[token].setAt <= at
      requires store.quiet ==> record.token in RowsOf(store.db) && RowsOf(store.db)[record.token] == record
      modifies this, store
      ensures Moved() && (Healthy() && record.createdAt <= at ==> Sane(RowsOf(store.db), clock))
      ensures r.Err? ==> store.own == old(store.own) && r.error != CacheSync && old(failures) < failures
      ensures failures <= old(failures) + 3 && (r == Err(Failure.Conflict) ==> failures == old(failures) + 3)
      ensures store.quiet && r.Err? ==> RowsOf(store.db) == old(RowsOf(store.db))
      ensures r.Ok? ==>
        && Fresh(r.value, record.subject) && old(clock) <= r.value.record.createdAt <= clock
        && store.Made(n, Op.Rotate(record.token, r.value.record, at), Nothing)
        && (store.quiet ==> RotatedRows(old(RowsOf(store.db)), RowsOf(store.db), record, r.value.record, at))
        && (store.quiet && lapses == old(lapses) ==> InCache(r.value.record))
    {
      hide Step, RotatedRows, Lawful, Consistent, Sound, AllAsked, BuriedIn, Sane, ValidRecord;
      n := 0;
      for attempt := 0 to 3
        invariant Moved() && store.own == old(store.own)
        invariant Healthy() && record.createdAt <= at ==> Sane(RowsOf(store.db), clock)
        invariant store.quiet ==> RowsOf(store.db) == old(RowsOf(store.db)) && cache == old(cache)
        invariant failures == old(failures) + attempt
      {
        var answer;
        answer, n := RotateOnce(record, at);
        if answer.Some? {
          return answer.value, n;
        }
      }
      return Err(Failure.Conflict), n;
    }

    // -------------------------------------------------------------- revocation

    /** Revocations of this session, at a time in between. */
    static function Revoking(token: Id, from: Time, to: Time): Op -> bool {
      (op: Op) => op.Revoke? && op.token == token && from <= op.at <= to
    }

    static function RevokingAll(subject: Id, from: Time, to: Time): Op -> bool {
      (op: Op) => op.RevokeAll? && op.subject == subject && from <= op.at <= to
    }

    static function Extending(token: Option<Id>, from: Time, to: Time): Op -> bool {
      (op: Op) => op.Extend? && Some(op.token) == token && from <= op.at <= to
    }

    method RevokeDurably(token: Id) returns (r: Result<Reply, Error>)
      requires Valid()
      modifies this, store
      ensures Went() && Smooth() && store.MadeOnly(Revoking(token, old(clock), clock))
      ensures r.Ok? ==> token in RowsOf(store.db) && RowsOf(store.db)[token].revokedAt.Some?
      ensures store.quiet ==>
        && RevokedOnly(old(RowsOf(store.db)), RowsOf(store.db), {token}, old(clock), clock)
        && if token in old(RowsOf(store.db)) then r.Ok? else r == Err(Error.NotFound)
    {
      hide Step, Lawful, Consistent, AllAsked, Replay, Sane, Sound, BuriedIn, Evolved, RevokedOnly;
      ghost var start := clock;
      var at := Now();
      ghost var rows := RowsOf(store.db);
      SetBefore();
      r := Durably(Op.Revoke(token, at), at);
      if store.quiet {
        StepRevokes(rows, RowsOf(store.db), token, at, r);
        RevokedWithin(rows, RowsOf(store.db), {token}, at, start, clock);
      }
      if Healthy() {
        RevocationStaysSane(rows, RowsOf(store.db), Op.Revoke(token, at), r, clock, clock);
      }
    }

    /** Revoke and RevokeByID end alike: revoked in the store, then dropped from the cache. */
    method RevokeToken(token: Id) returns (error: Option<Failure>)
      requires Valid()
      modifies this, store
      ensures Went() && store.MadeOnly(Revoking(token, old(clock), clock))
      ensures store.quiet && error.None? ==> token in Buried()
      ensures error.None? || error == Some(CacheSync) ==> RevokedIn(store.log, token)
      ensures error == Some(CacheSync) ==> old(lapses) < lapses
      ensures store.quiet ==>
        && RevokedOnly(old(RowsOf(store.db)), RowsOf(store.db), {token}, old(clock), clock)
        && if token in old(RowsOf(store.db)) then error.None? || error == Some(CacheSync) else error == Some(Failure.NotFound)
    {
      hide Step, Lawful, Consistent, Sound, AllAsked, Sane, RevokedOnly, BuriedIn, Evolved, RevokedIn;
      ghost var start, rows := clock, RowsOf(store.db);
      var answer := RevokeDurably(token);
      ghost var middle := clock;
      if answer.Err? {
        return Some(FailureOf(answer.error));
      }
      ghost var log := store.log;
      RevokedNow(log, token);
      var ok := DeleteCached(token);
      RevokedStays(log, store.log, token);
      BuriedNow(store.log, cache, token);
      if store.quiet { RevokedLater(rows, RowsOf(store.db), {token}, start, middle, clock); }
      error := if ok then None else Some(CacheSync);
    }

    /**
      Revoke. Without overlapping calls exactly this session is revoked, if there is one; an error then means that there
      is none or that the cache call failed.
    */
    method Revoke(raw: string) returns (error: Option<Failure>)
      requires Valid()
      modifies this, store
      ensures Went()
      ensures if hash(raw).Some? then store.MadeOnly(Revoking(hash(raw).value, old(clock), clock)) else store.own == old(store.own)
      ensures error.None? || error == Some(CacheSync) ==> hash(raw).Some? && RevokedIn(store.log, hash(raw).value)
      ensures error == Some(CacheSync) ==> old(lapses) < lapses
      ensures store.quiet && error.None? ==> hash(raw).value in Buried()
      ensures hash(raw).None? ==> error == Some(Failure.InvalidToken)
      ensures store.quiet && hash(raw).Some? ==>
        && RevokedOnly(old(RowsOf(store.db)), RowsOf(store.db), {hash(raw).value}, old(clock), clock)
        && if hash(raw).value in old(RowsOf(store.db)) then error.None? || error == Some(CacheSync)
           else error == Some(Failure.NotFound)
    {
      hide Sane, RevokedOnly;
      if hash(raw).None? {
        return Some(Failure.InvalidToken);
      }
      error := RevokeToken(hash(raw).value);
    }

    // -------------------------------------------------------------- by subject

    method ListDurably(subject: Id) returns (records: seq<Record>, ghost first: Rows, ghost second: Rows)
      requires Valid()
      modifies this, store
      ensures Went() && Idle() && Smooth() && NewestFirst(records) && Passed(store, first, second)
      ensures Evolved(old(RowsOf(store.db)), first) && Evolved(first, second) && Evolved(second, RowsOf(store.db))
      ensures multiset(records) == multiset(OfSubject(first, second, subject))
      ensures forall token :: token in first ==> first[token].token == token
      ensures store.quiet ==>
        first == old(RowsOf(store.db)) && second == first && RowsOf(store.db) == first && cache == old(cache)
    {
      hide Lawful, Step, Consistent, Sound, AllAsked, BuriedIn, Evolved, Sane;
      ghost var rows, earlier := RowsOf(store.db), store.log;
      records, first, second := ListBySubject(store, subject);
      BuriedStays(earlier, store.log, cache);
      AskedStays(config, earlier, store.log, store.own[this.first..]);
      KeepAllSound(config, cache, clock, earlier, rows, store.log, RowsOf(store.db), store.quiet);
    }

    /**
      List: the subject's sessions, newest first, active or not. Without overlapping calls it fails exactly for a blank
      subject or a malformed row of the subject.
    */
    method List(subject: Id) returns (r: Result<seq<Record>, Failure>, ghost first: Rows, ghost second: Rows)
      requires Valid()
      modifies this, store
      ensures Went() && Idle() && Smooth()
      ensures r.Ok? ==>
        && Passed(store, first, second)
        && NewestFirst(r.value) && multiset(r.value) == multiset(OfSubject(first, second, subject))
        && (forall record :: record in r.value ==> ValidRecord(record) && record.subject == subject)
        && (forall token :: token in first ==> first[token].token == token)
        && Evolved(old(RowsOf(store.db)), first) && Evolved(first, second) && Evolved(second, RowsOf(store.db))
      ensures r.Err? ==> r.error == Failure.InvalidRecord
      ensures Blank(subject) ==> r.Err?
      ensures store.quiet && r.Ok? ==> first == old(RowsOf(store.db)) && second == first
      ensures store.quiet ==> RowsOf(store.db) == old(RowsOf(store.db)) && cache == old(cache)
      ensures store.quiet ==> (r.Err? <==> Blank(subject) || Spoilt(old(RowsOf(store.db)), subject))
    {
      hide Step, Lawful, Consistent, Sound, AllAsked, Sane, ValidRecord, Evolved, Blank, Replay, Spoilt, BuriedIn;
      first, second := map[], map[];
      if Blank(subject) {
        return Err(Failure.InvalidRecord), first, second;
      }
      ghost var rows := RowsOf(store.db);
      var records;
      records, first, second := ListDurably(subject);
      for i := 0 to |records|
        invariant forall j :: 0 <= j < i ==> ValidRecord(records[j]) && records[j].subject == subject
      {
        if !ValidRecord(records[i]) || records[i].subject != subject {
          if store.quiet { ListedSpoilt(rows, subject, records, records[i]); }
          return Err(Failure.InvalidRecord), first, second;
        }
      }
      if store.quiet { ListedUnspoilt(rows, subject, records); }
      return Ok(records), first, second;
    }

    /** RevokeByID revokes a session only if it belongs to the subject. */
    method RevokeByID(subject: Id, id: Id) returns (error: Option<Failure>, ghost token: Id)
      requires Valid()
      modifies this, store
      ensures Went() && store.MadeOnly(Revoking(token, old(clock), clock))
      ensures store.own != old(store.own) ==>
        && token in RowsOf(store.db) && RowsOf(store.db)[token].id == id && RowsOf(store.db)[token].subject == subject
      ensures error.None? || error == Some(CacheSync) ==>
        && RevokedIn(store.log, token)
        && Replay(Step, EMPTY, store.log).value[token].id == id && Replay(Step, EMPTY, store.log).value[token].subject == subject
      ensures error == Some(CacheSync) ==> old(lapses) < lapses
      ensures store.quiet && error.None? ==> token in Buried()
      ensures store.quiet && error == Some(Failure.NotFound) ==>
        forall t :: t in old(RowsOf(store.db)) && old(RowsOf(store.db))[t].subject == subject ==> old(RowsOf(store.db))[t].id != id
      ensures store.quiet ==>
        if Blank(subject) || Blank(id) || Spoilt(old(RowsOf(store.db)), subject) then error == Some(Failure.InvalidRecord)
        else if exists t :: t in old(RowsOf(store.db)) && IsSession(old(RowsOf(store.db))[t], subject, id)
        then error.None? || error == Some(CacheSync)
        else error == Some(Failure.NotFound)
      ensures store.quiet ==>
        if error.None? || error == Some(CacheSync) then RevokedOnly(old(RowsOf(store.db)), RowsOf(store.db), {token}, old(clock), clock)
        else RowsOf(store.db) == old(RowsOf(store.db))
    {
      hide Step, Lawful, Consistent, Sound, AllAsked, Sane, RevokedOnly, Blank, Spoilt, Evolved, BuriedIn,
           ValidRecord, LaterRecord;
      token := "";
      if Blank(subject) || Blank(id) {
        return Some(Failure.InvalidRecord), token;
      }
      ghost var start, rows := clock, RowsOf(store.db);
      var found := FindByID(subject, id);
      if found.Err? {
        return Some(found.error), token;
      }
      token := found.value;
      ghost var log, middle := store.log, clock;
      error := RevokeToken(found.value);
      RowStays(log, store.log, token);
      if store.quiet { RevokedEarlier(rows, RowsOf(store.db), {token}, start, middle, clock); }
    }

    static predicate IsSession(record: Record, subject: Id, id: Id) { record.subject == subject && record.id == id }

    /** The token of the subject's session with this identifier. */
    method FindByID(subject: Id, id: Id) returns (r: Result<Id, Failure>)
      requires Valid() && !Blank(subject)
      modifies this, store
      ensures Went() && Idle() && Smooth()
      ensures r.Err? ==> r.error == Failure.InvalidRecord || r.error == Failure.NotFound
      ensures r.Ok? ==>
        && r.value in RowsOf(store.db) && RowsOf(store.db)[r.value].id == id && RowsOf(store.db)[r.value].subject == subject
      ensures store.quiet ==> RowsOf(store.db) == old(RowsOf(store.db))
      ensures store.quiet && r == Err(Failure.NotFound) ==>
        forall t :: t in RowsOf(store.db) && RowsOf(store.db)[t].subject == subject ==> RowsOf(store.db)[t].id != id
      ensures store.quiet ==> (r == Err(Failure.InvalidRecord) <==> Spoilt(old(RowsOf(store.db)), subject))
    {
      hide Step, Lawful, Consistent, Sound, AllAsked, Sane, Blank, ValidRecord, BuriedIn, Spoilt;
      var records, first, second := List(subject);
      if records.Err? {
        return Err(records.error);
      }
      for i := 0 to |records.value|
        invariant forall j :: 0 <= j < i ==> records.value[j].id != id
      {
        if records.value[i].id == id {
          ListedStays(first, second, RowsOf(store.db), subject, records.value, records.value[i]);
          return Ok(records.value[i].token);
        }
      }
      if store.quiet {
        forall t | t in second && second[t].subject == subject ensures second[t].id != id {
          assert second[t] in OfSubject(first, second, subject);
          assert second[t] in multiset(records.value);
        }
      }
      return Err(Failure.NotFound);
    }

    /**
      RevokeAll: every session of the subject is revoked in the store. Without overlapping calls exactly those are, the
      call fails only for a blank subject, a malformed row or a failed cache call, and no error also means that the cache
      holds none of them, however many earlier deletes failed.
    */
    method RevokeAll(subject: Id) returns (error: Option<Failure>)
      requires Valid()
      modifies this, store
      ensures Went() && store.MadeOnly(RevokingAll(subject, old(clock), clock))
      ensures error.None? || error == Some(CacheSync) ==>
        forall token :: token in old(RowsOf(store.db)) && old(RowsOf(store.db))[token].subject == subject ==>
          RevokedIn(store.log, token)
      ensures store.quiet && error.None? ==>
        forall token :: token in RowsOf(store.db) && RowsOf(store.db)[token].subject == subject ==> token in Buried()
      ensures error == Some(CacheSync) ==> old(lapses) < lapses
      ensures store.quiet ==>
        if Blank(subject) then error == Some(Failure.InvalidRecord) && RowsOf(store.db) == old(RowsOf(store.db))
        else RevokedOnly(old(RowsOf(store.db)), RowsOf(store.db), TokensOf(old(RowsOf(store.db)), subject), old(clock), clock)
      ensures store.quiet && !Blank(subject) ==>
        error.None? || error == Some(CacheSync) || (error == Some(Failure.InvalidRecord) && Spoilt(RowsOf(store.db), subject))
      ensures Healthy() && !Blank(subject) ==> error.None? || error == Some(CacheSync)
    {
      hide Step, Lawful, Consistent, Sound, AllAsked, Sane, RevokedOnly, Blank, ValidRecord, Spoilt, Evolved, RevokedIn;
      if Blank(subject) {
        return Some(Failure.InvalidRecord);
      }
      ghost var before, start := RowsOf(store.db), clock;
      var answer := RevokeAllDurably(subject);
      if answer.Err? {
        return Some(FailureOf(answer.error));
      }
      ghost var rows, log, middle := RowsOf(store.db), store.log, clock;
      error := DropAll(subject, answer.value);
      forall token | RevokedIn(log, token) ensures RevokedIn(store.log, token) { RevokedStays(log, store.log, token); }
      if store.quiet { RevokedLater(before, RowsOf(store.db), TokensOf(before, subject), start, middle, clock); }
      if Healthy() { SaneIsUnspoilt(RowsOf(store.db), clock, subject); }
    }

    method RevokeAllDurably(subject: Id) returns (r: Result<set<Record>, Error>)
      requires Valid()
      modifies this, store
      ensures Went() && Smooth() && store.MadeOnly(RevokingAll(subject, old(clock), clock))
      ensures r.Ok? ==>
        forall token :: token in old(RowsOf(store.db)) && old(RowsOf(store.db))[token].subject == subject ==>
          RevokedIn(store.log, token)
      ensures r.Err? ==> r.error != Error.Conflict && r.error != Error.NotFound
      ensures store.quiet ==>
        && r.Ok? && AllDead(RowsOf(store.db), subject, r.value) && AreRows(RowsOf(store.db), subject, r.value)
        && RevokedOnly(old(RowsOf(store.db)), RowsOf(store.db), TokensOf(old(RowsOf(store.db)), subject), old(clock), clock)
    {
      hide Step, Lawful, AllAsked, BuriedIn, AllRevoked, Evolved, Consistent, RevokedIn, AllDead, Sane, RevokedOnly,
           AreRows, Sound, Replay, TokensOf;
      ghost var start, began := store.log, clock;
      var at := Now();
      ghost var rows, log := RowsOf(store.db), store.log;
      SetBefore();
      var answer := Durably(Op.RevokeAll(subject, at), at);
      if Healthy() {
        RevocationStaysSane(rows, RowsOf(store.db), Op.RevokeAll(subject, at), answer, clock, clock);
      }
      if store.quiet {
        NamedByToken(store.db);
        StepRevokesAll(rows, RowsOf(store.db), subject, at, answer);
        RevokedWithin(rows, RowsOf(store.db), TokensOf(rows, subject), at, began, clock);
      }
      if answer.Err? {
        return Err(answer.error);
      }
      AllRevokedSince(start, log, store.log, subject, answer.value.records);
      return Ok(answer.value.records);
    }

    method DropAll(subject: Id, records: set<Record>) returns (error: Option<Failure>)
      requires Valid()
      modifies this, store
      ensures Went() && Idle() && (error.None? || error == Some(CacheSync) || error == Some(Failure.InvalidRecord))
      ensures failures == old(failures) && (error == Some(CacheSync) ==> old(lapses) < lapses)
      ensures store.quiet ==> RowsOf(store.db) == old(RowsOf(store.db))
      ensures store.quiet && error.None? ==> forall record :: record in records ==> record.token !in cache
      ensures store.quiet && AreRows(old(RowsOf(store.db)), subject, records) && error == Some(Failure.InvalidRecord) ==>
        Spoilt(RowsOf(store.db), subject)
    {
      hide Step, Lawful, Consistent, Sound, AllAsked, Sane, ValidRecord, BuriedIn;
      var failed, left := false, records;
      while left != {}
        invariant Went() && Idle() && left <= records && (store.quiet ==> RowsOf(store.db) == old(RowsOf(store.db)))
        invariant failures == old(failures) && (failed ==> old(lapses) < lapses)
        invariant store.quiet && !failed ==> forall record :: record in records - left ==> record.token !in cache
      {
        var record :| record in left;
        if !ValidRecord(record) || record.subject != subject {
          return Some(Failure.InvalidRecord);
        }
        var ok := DeleteCached(record.token);
        failed, left := failed || !ok, left - {record};
      }
      error := if failed then Some(CacheSync) else None;
    }
  }

  lemma AllAreDisciplined(config: Config, log: History)
    requires forall n: nat :: n < |log| ==> AskedAt(config, log, n)
    ensures Disciplined(config.lifetime, config.Absolute(), log)
  {
    forall n | 0 <= n < |log| && Replay(Step, EMPTY, log[..n]).Some?
      ensures Asks(config.lifetime, config.Absolute(), Replay(Step, EMPTY, log[..n]).value, log[n].op)
    {
      assert AskedAt(config, log, n);
    }
  }

  /**
    If every commit came from managers with this configuration, every session in the store expires at the lifetime after
    a manager last extended (or created) it, or at its absolute lifetime if that is first; and the extension time it
    records says the same except exactly where the last extension kept an older time.
  */
  lemma SessionsSlide(manager: Manager, token: Id)
    requires manager.Valid() && token in RowsOf(manager.store.db)
    requires forall n: nat :: n < |manager.store.log| ==> AskedAt(manager.config, manager.store.log, n)
    ensures var record := RowsOf(manager.store.db)[token];
      && record.expiresAt == manager.config.Extended(OrElse(Asked(manager.store.log, token), record.createdAt), record.createdAt)
      && Bounded(manager.config.lifetime, manager.config.Absolute(), record)
      && (Sliding(manager.config.lifetime, manager.config.Absolute(), record) <==> !LastKeptTime(manager.store.log, token))
  {
    hide Disciplined, AskedAt, LastKeptTime, Asked, Recorded, Bounded, Sliding, Lawful, Sound, AllAsked, Replay, Step,
         Consistent;
    var lifetime, absolute, log := manager.config.lifetime, manager.config.Absolute(), manager.store.log;
    AllAreDisciplined(manager.config, log);
    ExpiryIsSliding(lifetime, absolute, log, token);
  }

  /** NewManager rejects a configuration that is not valid. */
  method NewManager(store: SessionStore, config: Config, hash: string -> Option<Id>, clock: Time)
      returns (r: Result<Manager, Failure>)
    requires store.Valid() && store.c == CODE && store.s == SPEC && Replay(Step, EMPTY, store.log) == Some(RowsOf(store.db))
    ensures r.Err? ==> r.error == InvalidConfig
    ensures r.Ok? <==>
      && config.lifetime > 0 && (config.cached ==> config.cacheTTL > 0)
      && (config.extension.Some? ==>
            var extension := config.extension.value;
            0 < extension.extendAfter < config.lifetime < extension.absolute)
    ensures r.Ok? == config.Valid()
    ensures r.Ok? ==> fresh(r.value) && r.value.Valid() && r.value.store == store && r.value.config == config
  {
    if !config.Valid() {
      return Err(InvalidConfig);
    }
    var manager := new Manager(store, config, hash, clock);
    r := Ok(manager);
  }
}
