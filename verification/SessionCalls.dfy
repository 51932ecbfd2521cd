/** The calls of the Redis session store that are not one plain run of the WATCH loop. */
module SessionCalls {
  import opened Common
  import opened Serial
  import opened Watch
  import opened SessionRows
  import opened SessionHistory
  import opened SessionStore
  import opened Optimistic

  /** Without overlapping calls a call is exactly one step of the row table. */
  twostate predicate OneStep(store: SessionStore, op: Op, new r: Result<Reply, Error>)
    reads store
  {
    Stepped(Step, old(RowsOf(store.db)), RowsOf(store.db), op, r)
  }

  ghost predicate Extended(rows: Rows, token: Id) {
    token in rows && rows[token].extendedAt.Some?
  }

  /** Reads made since `mark` see a session as extended if it was then, and what they see stays true. */
  lemma ExtensionPersists(mark: Db, view: Db, now: Db, token: Id)
    requires Between(CODE, SPEC, mark, view, now)
    ensures Extended(RowsOf(mark), token) && token in RowsOf(view) ==> Extended(RowsOf(view), token)
    ensures Extended(RowsOf(view), token) ==> Extended(RowsOf(now), token)
  {
    var moment := SeenAt(CODE, SPEC, mark, view, now, Sessions);
  }

  /** The time that an extension by a caller at `at` records over a row, on its first attempt or on a later one. */
  function ExtensionTime(at: Time, retried: bool, stored: Option<Time>): Time {
    if retried && stored.Some? then stored.value else at
  }

  /**
    The last commit extended `token` to `expiresAt` for a caller at `at`. It recorded `at` unless it was retried and
    the row it replaced had been extended before, when it kept that row's extension time.
  */
  ghost predicate ExtendedLast(log: History, token: Id, at: Time, retried: bool, expiresAt: Time, reply: Reply) {
    && |log| > 0 && log[|log| - 1].reply == reply
    && var op := log[|log| - 1].op;
    && op.Extend? && op.token == token && op.at == at && op.retry.Some? == retried && op.expiresAt == expiresAt
    && var earlier := Replay(Step, EMPTY, log[..|log| - 1]);
    && earlier.Some? && token in earlier.value
    && var row := earlier.value[token];
    && var time := ExtensionTime(at, retried, row.extendedAt);
    && RecordedAt(at, op.retry, row.extendedAt) == time
    && row.revokedAt.None? && time < row.expiresAt < expiresAt
    && reply == One(row.(extendedAt := Some(time), expiresAt := expiresAt))
  }

  /** The reply of a committed extension is the row it wrote. */
  lemma ExtendedRow(log: History, token: Id, at: Time, retried: bool, expiresAt: Time, reply: Reply)
    requires ExtendedLast(log, token, at, retried, expiresAt, reply) && Replay(Step, EMPTY, log).Some?
    ensures token in Replay(Step, EMPTY, log).value && Replay(Step, EMPTY, log).value[token] == reply.record
  {}

  /** The variable still holds the caller's time, unless the row has been extended, when it does not matter. */
  predicate Holds(at: Time, retry: Option<Time>, extended: bool) {
    retry.Some? && retry.value != at ==> extended
  }

  /** What an attempt commits. */
  lemma CommittedExtension(rows: Rows, earlier: History, log: History, op: Op, reply: Reply)
    requires Replay(SPEC.step, SPEC.start, earlier) == Some(rows) && Replay(SPEC.step, SPEC.start, log).Some?
    requires earlier <= log && |earlier| < |log|
    requires log[|log| - 1] == Entry(op, reply) && op.Extend? && Holds(op.at, op.retry, Extended(rows, op.token))
    ensures ExtendedLast(log, op.token, op.at, op.retry.Some?, op.expiresAt, reply)
  {
    var before := log[..|log| - 1];
    assert before[..|earlier|] == earlier;
    LaterRows(before, |earlier|);
  }

  /** The one commit of a call that succeeded, or none. */
  twostate predicate OwnCommit(store: SessionStore, committed: bool)
    reads store
  {
    if !committed then store.own == old(store.own)
    else |old(store.log)| < |store.log| && store.own == old(store.own) + [|store.log| - 1]
  }

  lemma ExtensionErrors(op: Op, view: Db)
    requires op.Extend?
    ensures Body(op, view).Abort? ==> Body(op, view).error == Inactive
    ensures !Body(op, view).Skip?
  {}

  /** One attempt of Extend; `seen` is the extension time the body decoded, if the attempt was lost. */
  method ExtendOnce(store: SessionStore, token: Id, extendedAt: Time, retry: Option<Time>, expiresAt: Time)
      returns (answer: Option<Result<Reply, Error>>, seen: Option<Time>)
    requires store.Valid() && store.c == CODE && store.s == SPEC
    requires Holds(extendedAt, retry, Extended(RowsOf(store.db), token))
    modifies store
    ensures store.Valid() && Follows(CODE, SPEC, old(store.db), store.db) && old(store.log) <= store.log
    ensures answer.None? ==> store.Idle() && !store.quiet && (seen.Some? ==> Extended(RowsOf(store.db), token))
    ensures answer.None? && retry.Some? && retry.value != extendedAt ==> seen.Some?
    ensures answer.Some? ==> OwnCommit(store, answer.value.Ok?)
    ensures answer.None? ==> store.own == old(store.own)
    ensures store.losses == old(store.losses) + if answer.None? then 1 else 0
    ensures answer.Some? && answer.value.Err? ==> answer.value.error == Inactive
    ensures answer.Some? && answer.value.Ok? ==>
      ExtendedLast(store.log, token, extendedAt, retry.Some?, expiresAt, answer.value.value)
    ensures answer.Some? && store.quiet ==>
      match Step(RowsOf(old(store.db)), Op.Extend(token, extendedAt, retry, expiresAt))
      case Done(rows, reply) => answer.value == Ok(reply) && RowsOf(store.db) == rows
      case Refused(error) => answer.value == Err(error) && store.db == old(store.db)
  {
    hide Lawful, Step, Consistent, ExtendedLast;
    var op := Op.Extend(token, extendedAt, retry, expiresAt);
    var r, view, committed := store.Attempt(op);
    ExtensionErrors(op, view);
    if r.Some? {
      if committed {
        CommittedExtension(RowsOf(old(store.db)), old(store.log), store.log, op, r.value.value);
      }
      return r, None;
    }
    ExtensionPersists(old(store.db), view, store.db, token);
    return None, view.sessions.value[token].extendedAt;
  }

  /**
    Extend, whose transaction body decodes the stored record into a variable that outlives the attempt. Once an
    attempt has been lost, that variable's ExtendedAt points at the caller's `extendedAt`, so decoding a record
    that was extended before overwrites it.
  */
  method Extend(store: SessionStore, token: Id, extendedAt: Time, expiresAt: Time)
      returns (r: Result<Reply, Error>, ghost lost: nat)
    requires store.Valid() && store.c == CODE && store.s == SPEC
    modifies store
    ensures store.Steady() && OwnCommit(store, r.Ok?)
    ensures store.losses == old(store.losses) + lost && lost <= 16
    ensures r.Err? ==> r.error == if lost == 16 then TransactionConflict else Inactive
    ensures r.Ok? ==> lost < 16
    ensures r.Ok? ==> ExtendedLast(store.log, token, extendedAt, lost > 0, expiresAt, r.value)
    ensures store.quiet ==> lost == 0 && OneStep(store, Op.Extend(token, extendedAt, None, expiresAt), r)
  {
    var time, aliased := extendedAt, false;
    lost := 0;
    FollowsReflexive(CODE, SPEC, store.db);
    for attempt := 0 to 16
      invariant store.Idle() && lost == attempt && aliased == (attempt > 0) && store.losses == old(store.losses) + lost
      invariant attempt > 0 ==> !store.quiet
      invariant time != extendedAt ==> aliased && Extended(RowsOf(store.db), token)
    {
      ghost var before := store.db;
      var retry := if aliased then Some(time) else None;
      var answer, seen := ExtendOnce(store, token, extendedAt, retry, expiresAt);
      FollowsTransitive(CODE, SPEC, old(store.db), before, store.db);
      if answer.Some? {
        return answer.value, lost;
      }
      time, aliased, lost := RecordedAt(time, retry, seen), true, lost + 1;
    }
    return Err(TransactionConflict), lost;
  }

  /**
    A committed extension records the caller's time if and only if it committed on the first attempt or the
    row it replaced did not already carry another extension time.
  */
  lemma RecordsOwnTime(log: History, token: Id, at: Time, retried: bool, expiresAt: Time, reply: Reply)
    requires ExtendedLast(log, token, at, retried, expiresAt, reply)
    ensures var stored := Replay(Step, EMPTY, log[..|log| - 1]).value[token].extendedAt;
      reply.record.extendedAt == Some(at) <==> !retried || stored.None? || stored == Some(at)
  {}

  // ---------------------------------------------------------------- the other calls

  /** Every session the subject had when the call began is revoked, and the reply lists its current row. */
  ghost predicate AllRevoked(before: Rows, after: Rows, subject: Id, records: set<Record>) {
    && (forall token :: token in before && before[token].subject == subject ==>
          token in after && after[token].revokedAt.Some? && after[token] in records)
    && (forall record :: record in records ==> record.subject == subject && record.token in after && after[record.token] == record)
  }

  lemma RevokeAllAnswers(rows: Rows, earlier: History, log: History, op: Op, reply: Reply)
    requires op.RevokeAll? && CommittedLast(log, op, reply) && earlier <= log && |earlier| < |log|
    requires Replay(SPEC.step, SPEC.start, earlier) == Some(rows)
    requires Replay(SPEC.step, SPEC.start, log).Some?
    requires forall token :: token in Replay(SPEC.step, SPEC.start, log).value ==> Replay(SPEC.step, SPEC.start, log).value[token].token == token
    ensures reply.Many? && AllRevoked(rows, Replay(SPEC.step, SPEC.start, log).value, op.subject, reply.records)
  {
    var before := log[..|log| - 1];
    assert before[..|earlier|] == earlier;
    LaterRows(before, |earlier|);
  }

  /** Some session of the subject existed at the start, so RevokeAll has something to write. */
  lemma RevokeAllSees(mark: Db, view: Db, now: Db, subject: Id, at: Time, token: Id)
    requires Between(CODE, SPEC, mark, view, now)
    requires token in RowsOf(mark) && RowsOf(mark)[token].subject == subject
    ensures token in Revocations(view.sessions.value, At(view.bySubject, subject).value, at)
  {
    var first := SeenAt(CODE, SPEC, mark, view, now, Sessions);
    var second := SeenAt(CODE, SPEC, mark, view, now, SubjectSet(subject));
    assert At(second.bySubject, subject).value == Owned(RowsOf(second), SubjectOf, subject);
  }

  lemma RevokedSeen(mark: Db, view: Db, now: Db, token: Id)
    requires Between(CODE, SPEC, mark, view, now)
    requires token in RowsOf(view) && RowsOf(view)[token].revokedAt.Some?
    ensures token in RowsOf(now) && RowsOf(now)[token].revokedAt.Some?
  {
    var moment := SeenAt(CODE, SPEC, mark, view, now, Sessions);
  }

  /** What a call that succeeded tells its caller, whoever else runs. */
  ghost predicate Answered(before: Rows, after: Rows, log: History, op: Op, reply: Reply) {
    match op
    case Create(_) => CommittedLast(log, op, reply)
    case Rotate(_, _, _) => CommittedLast(log, op, reply)
    case Extend(token, at, _, expiresAt) => ExtendedLast(log, token, at, false, expiresAt, reply)
    case Revoke(token, _) => token in after && after[token].revokedAt.Some?
    case RevokeAll(subject, _) => reply.Many? && AllRevoked(before, after, subject, reply.records)
  }

  /** The errors that a call can end in. */
  predicate MayFail(op: Op, error: Error) {
    match error
    case TransactionConflict => true
    case Conflict => op.Create? || op.Rotate?
    case NotFound => op.Rotate? || op.Revoke?
    case Inactive => op.Rotate? || op.Extend?
  }

  lemma BodyErrors(op: Op, view: Db)
    ensures Body(op, view).Abort? ==> MayFail(op, Body(op, view).error)
  {}

  /** Create, Rotate, Revoke and RevokeAll. */
  method Perform(store: SessionStore, op: Op) returns (r: Result<Reply, Error>)
    requires store.Valid() && store.c == CODE && store.s == SPEC && !op.Extend?
    modifies store
    ensures store.Steady()
    ensures r.Ok? ==> Answered(old(RowsOf(store.db)), RowsOf(store.db), store.log, op, r.value)
    ensures store.MadeAtMost(op, r) && (r.Ok? && (op.Create? || op.Rotate?) ==> store.MadeLast(op, r.value))
    ensures r.Err? ==> MayFail(op, r.error)
    ensures store.quiet ==> OneStep(store, op, r)
  {
    hide Lawful;
    ghost var before := store.db;
    var answer, view, committed := store.Run(op);
    BodyErrors(op, view);
    r := answer;
    if r.Ok? {
      if op.Revoke? {
        if !committed { RevokedSeen(before, view, store.db, op.token); }
      } else if op.RevokeAll? {
        if committed {
          RevokeAllAnswers(RowsOf(before), old(store.log), store.log, op, r.value);
        } else {
          forall token | token in RowsOf(before) && RowsOf(before)[token].subject == op.subject ensures false {
            RevokeAllSees(before, view, store.db, op.subject, op.at, token);
          }
        }
      }
    }
  }

  /** The rows after the first `n` commits. */
  ghost predicate RowsAt(log: History, n: nat, rows: Rows) {
    n <= |log| && Replay(Step, EMPTY, log[..n]) == Some(rows)
  }

  /** The rows were `first` at a moment of the call, and `second` at a later one. */
  twostate predicate Passed(store: SessionStore, new first: Rows, new second: Rows)
    reads store
  {
    exists i: nat, j: nat :: |old(store.log)| <= i <= j && RowsAt(store.log, i, first) && RowsAt(store.log, j, second)
  }

  /** One read outside any transaction. */
  method Look(store: SessionStore) returns (db: Db)
    requires store.Valid() && store.c == CODE && store.s == SPEC
    modifies store
    ensures store.Steady() && store.own == old(store.own)
    ensures db == store.db && Consistent(db) && Evolved(old(RowsOf(store.db)), RowsOf(db))
    ensures RowsAt(store.log, |store.log|, RowsOf(db))
    ensures store.quiet ==> db == old(store.db)
  {
    store.Others();
    db := store.db;
    assert store.log[..|store.log|] == store.log && Replay(SPEC.step, SPEC.start, store.log) == Some(RowsOf(db));
  }

  /** FindByTokenHash is a single HGET. */
  method Find(store: SessionStore, token: Id) returns (r: Option<Record>)
    requires store.Valid() && store.c == CODE && store.s == SPEC
    modifies store
    ensures store.Steady() && store.own == old(store.own)
    ensures r == if token in RowsOf(store.db) then Some(RowsOf(store.db)[token]) else None
    ensures store.quiet ==> RowsOf(store.db) == old(RowsOf(store.db))
  {
    var db := Look(store);
    r := if token in db.sessions.value then Some(db.sessions.value[token]) else None;
  }

  // ---------------------------------------------------------------- listing

  ghost predicate NewestFirst(records: seq<Record>) {
    forall i, j :: 0 <= i < j < |records| ==> records[i].createdAt >= records[j].createdAt
  }

  function Inserted(records: seq<Record>, record: Record): (r: seq<Record>)
    requires NewestFirst(records)
    ensures NewestFirst(r) && multiset(r) == multiset(records) + multiset{record}
    ensures r[0] == record || (|records| > 0 && r[0] == records[0])
  {
    if |records| == 0 || record.createdAt >= records[0].createdAt then
      [record] + records
    else
      assert records == [records[0]] + records[1..];
      [records[0]] + Inserted(records[1..], record)
  }

  /** slices.SortFunc by creation time, newest first. */
  function Sorted(records: seq<Record>): (r: seq<Record>)
    ensures NewestFirst(r) && multiset(r) == multiset(records)
  {
    if |records| == 0 then [] else
      assert records == [records[0]] + records[1..];
      Inserted(Sorted(records[1..]), records[0])
  }

  /** SMEMBERS: the members in any order. */
  method Members(names: set<Id>) returns (fields: seq<Id>)
    ensures multiset(fields) == multiset(names)
  {
    fields := [];
    var left := names;
    while left != {}
      invariant left <= names && multiset(fields) == multiset(names - left)
    {
      var name :| name in left;
      assert names - (left - {name}) == names - left + {name};
      fields, left := fields + [name], left - {name};
    }
    assert names - left == names;
  }

  function Listings(sessions: map<Id, Record>, fields: seq<Id>, record: Record): nat {
    if record.token in sessions && sessions[record.token] == record then multiset(fields)[record.token] else 0
  }

  /** HMGET: the records found, in the order of the fields. */
  method Found(sessions: map<Id, Record>, fields: seq<Id>) returns (records: seq<Record>)
    requires forall field :: field in sessions ==> sessions[field].token == field
    ensures forall record :: multiset(records)[record] == Listings(sessions, fields, record)
  {
    records := [];
    for i := 0 to |fields|
      invariant forall record :: multiset(records)[record] == Listings(sessions, fields[..i], record)
    {
      assert fields[..i + 1] == fields[..i] + [fields[i]];
      if fields[i] in sessions {
        records := records + [sessions[fields[i]]];
      }
    }
    assert fields[..|fields|] == fields;
  }

  /** The rows, as `second`, of the sessions that the subject had in `first`. */
  ghost function OfSubject(first: Rows, second: Rows, subject: Id): set<Record> {
    set token | token in first && first[token].subject == subject && token in second :: second[token]
  }

  lemma OwnedFields(db: Db, subject: Id, fields: seq<Id>)
    requires Consistent(db) && multiset(fields) == multiset(At(db.bySubject, subject).value)
    ensures forall token :: token in RowsOf(db) ==> RowsOf(db)[token].token == token
    ensures forall token :: multiset(fields)[token] == (if token in RowsOf(db) && RowsOf(db)[token].subject == subject then 1 else 0)
  {
    assert At(db.bySubject, subject).value == Owned(RowsOf(db), SubjectOf, subject);
  }

  lemma ListedExactly(first: Rows, second: Rows, subject: Id, fields: seq<Id>, records: seq<Record>)
    requires forall token :: token in second ==> second[token].token == token
    requires forall token :: multiset(fields)[token] == (if token in first && first[token].subject == subject then 1 else 0)
    requires forall record :: multiset(records)[record] == Listings(second, fields, record)
    ensures multiset(records) == multiset(OfSubject(first, second, subject))
  {
    forall record ensures multiset(records)[record] == multiset(OfSubject(first, second, subject))[record] {
      assert record in OfSubject(first, second, subject) <==>
        record.token in first && first[record.token].subject == subject && record.token in second && second[record.token] == record;
    }
  }

  /**
    ListBySubject reads the subject's set and then the records, outside any transaction. It returns, newest
    first and each once, the rows as they stood at one moment during the call: exactly those of the sessions
    the subject had at an earlier moment of the call.
  */
  method ListBySubject(store: SessionStore, subject: Id)
      returns (records: seq<Record>, ghost first: Rows, ghost second: Rows)
    requires store.Valid() && store.c == CODE && store.s == SPEC
    modifies store
    ensures store.Steady() && store.own == old(store.own) && NewestFirst(records)
    ensures Passed(store, first, second)
    ensures Evolved(old(RowsOf(store.db)), first) && Evolved(first, second) && Evolved(second, RowsOf(store.db))
    ensures forall token :: token in first ==> first[token].token == token
    ensures multiset(records) == multiset(OfSubject(first, second, subject))
    ensures store.quiet ==> first == old(RowsOf(store.db)) && second == first && RowsOf(store.db) == first
  {
    var db := Look(store);
    first := RowsOf(db);
    var fields := Members(At(db.bySubject, subject).value);
    OwnedFields(db, subject, fields);
    ghost var earlier := store.log;
    db := Look(store);
    second := RowsOf(db);
    assert store.log[..|earlier|] == earlier == earlier[..|earlier|];
    assert RowsAt(store.log, |earlier|, first);
    var found := Found(db.sessions.value, fields);
    records := Sorted(found);
    ListedExactly(first, second, subject, fields, records);
  }
}
