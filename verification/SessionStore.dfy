/** The session store of the Redis adapter. */
module SessionStore {
  import opened Common
  import opened Serial
  import opened Watch
  import opened SessionRows
  import opened Optimistic

  datatype Db = Db(
    sessions: Cell<map<Id, Record>>,   // sessions
    ids: Cell<map<Id, Id>>,            // session-ids
    bySubject: Sets<Id>)               // sessions:subject:*

  const EMPTY_DB := Db(Cell(map[], 0), Cell(map[], 0), map[])

  function RowsOf(db: Db): Rows { db.sessions.value }

  datatype Key = Sessions | Ids | SubjectSet(subject: Id)

  datatype Content = OfSessions(map<Id, Record>) | OfIds(map<Id, Id>) | OfSet(set<Id>)

  function Get(db: Db, key: Key): Cell<Content> {
    match key
    case Sessions => Cell(OfSessions(db.sessions.value), db.sessions.version)
    case Ids => Cell(OfIds(db.ids.value), db.ids.version)
    case SubjectSet(subject) => Cell(OfSet(At(db.bySubject, subject).value), At(db.bySubject, subject).version)
  }

  function Watched(op: Op): set<Key> {
    match op
    case Create(record) => {Sessions, Ids, SubjectSet(record.subject)}
    case Extend(_, _, _, _) => {Sessions}
    case Rotate(_, replacement, _) => {Sessions, Ids, SubjectSet(replacement.subject)}
    case Revoke(_, _) => {Sessions}
    case RevokeAll(subject, _) => {Sessions, SubjectSet(subject)}
  }

  // ---------------------------------------------------------------- transaction bodies

  /** The updates of RevokeAll: every session of the set that exists, revoked if it was not. */
  function Revocations(sessions: map<Id, Record>, fields: set<Id>, at: Time): map<Id, Record> {
    map field | field in fields && field in sessions :: sessions[field].Revoked(at)
  }

  /** The records of the listed fields that exist, revoked, in list order. */
  function Revoked(sessions: map<Id, Record>, fields: seq<Id>, at: Time): (records: seq<Record>)
    ensures forall record :: record in records ==> exists field :: field in fields && field in sessions && sessions[field].Revoked(at) == record
    ensures forall field :: field in fields && field in sessions ==> sessions[field].Revoked(at) in records
  {
    if |fields| == 0 then []
    else
      var field, before := fields[|fields| - 1], Revoked(sessions, fields[..|fields| - 1], at);
      if field in sessions then before + [sessions[field].Revoked(at)] else before
  }

  /** The loop that builds those updates and the records to return, in whatever order SMEMBERS lists the set. */
  method CollectRevocations(sessions: map<Id, Record>, fields: seq<Id>, at: Time)
      returns (updates: map<Id, Record>, records: seq<Record>)
    ensures updates == Revocations(sessions, Elements(fields), at)
    ensures records == Revoked(sessions, fields, at)
  {
    updates, records := map[], [];
    for i := 0 to |fields|
      invariant updates == Revocations(sessions, Elements(fields[..i]), at)
      invariant records == Revoked(sessions, fields[..i], at)
    {
      assert fields[..i + 1] == fields[..i] + [fields[i]];
      if fields[i] in sessions {
        var record := sessions[fields[i]].Revoked(at);
        updates, records := updates[fields[i] := record], records + [record];
      }
    }
    assert fields[..|fields|] == fields;
  }

  function Body(op: Op, db: Db): Decision<Reply, Error> {
    var sessions := db.sessions.value;
    match op
    case Create(record) =>
      if record.token in sessions || record.id in db.ids.value then Abort(Conflict) else Commit(Nothing)
    case Extend(token, at, retry, expiresAt) =>
      if token !in sessions then Abort(Inactive)
      else
        var time := RecordedAt(at, retry, sessions[token].extendedAt);
        if sessions[token].revokedAt.Some? || time >= sessions[token].expiresAt || sessions[token].expiresAt >= expiresAt
        then Abort(Inactive)
        else Commit(One(sessions[token].(extendedAt := Some(time), expiresAt := expiresAt)))
    case Rotate(current, replacement, at) =>
      if current !in sessions then Abort(NotFound)
      else if sessions[current].revokedAt.Some? || at >= sessions[current].expiresAt then Abort(Inactive)
      else if replacement.token in sessions then Abort(Conflict)
      else if replacement.id in db.ids.value then Abort(Conflict)
      else Commit(Nothing)
    case Revoke(token, at) =>
      if token !in sessions then Abort(NotFound)
      else if sessions[token].revokedAt.Some? then Skip(Nothing)
      else Commit(Nothing)
    case RevokeAll(subject, at) =>
      var updates := Revocations(sessions, At(db.bySubject, subject).value, at);
      var reply := Many(set field | field in updates :: updates[field]);
      if |updates| == 0 then Skip(reply) else Commit(reply)
  }

  function Write(op: Op, view: Db, db: Db): Db {
    if !Body(op, view).Commit? then db else
    match op
    case Create(record) =>
      db.(sessions := HSet(db.sessions, record.token, record),
          ids := HSet(db.ids, record.id, record.token),
          bySubject := SAdd(db.bySubject, record.subject, record.token))
    case Extend(token, at, retry, expiresAt) =>
      db.(sessions := HSet(db.sessions, token, Body(op, view).reply.record))
    case Rotate(current, replacement, at) =>
      var record := view.sessions.value[current];
      db.(sessions := HSetAll(db.sessions, map[current := record.Revoked(at), replacement.token := replacement]),
          ids := HSet(db.ids, replacement.id, replacement.token),
          bySubject := SAdd(SAdd(db.bySubject, record.subject, current), replacement.subject, replacement.token))
    case Revoke(token, at) =>
      db.(sessions := HSet(db.sessions, token, view.sessions.value[token].Revoked(at)))
    case RevokeAll(subject, at) =>
      db.(sessions := HSetAll(db.sessions, Revocations(view.sessions.value, At(view.bySubject, subject).value, at)))
  }

  // ---------------------------------------------------------------- proofs

  function SubjectOf(record: Record): Id { record.subject }

  /** Token hashes, session IDs and subject sets agree. */
  ghost predicate Consistent(db: Db) {
    && (forall token :: token in db.sessions.value ==>
          && db.sessions.value[token].token == token
          && db.sessions.value[token].id in db.ids.value && db.ids.value[db.sessions.value[token].id] == token)
    && (forall id :: id in db.ids.value ==>
          db.ids.value[id] in db.sessions.value && db.sessions.value[db.ids.value[id]].id == id)
    && Inverse(db.sessions.value, SubjectOf, db.bySubject)
  }

  lemma DependsOnWatched(op: Op, view: Db, db: Db)
    requires forall key :: key in Watched(op) ==> Get(view, key) == Get(db, key)
    ensures Body(op, view) == Body(op, db) && Write(op, view, db) == Write(op, db, db)
  {
    assert Get(view, Sessions) == Get(db, Sessions);
    assert op.Create? || op.Rotate? ==> Get(view, Ids) == Get(db, Ids);
    assert op.RevokeAll? ==> Get(view, SubjectSet(op.subject)) == Get(db, SubjectSet(op.subject));
  }

  /** Revoking any of the sessions keeps the set memberships. */
  lemma InverseOfUpdates(sessions: Rows, sets: Sets<Id>, next: Rows)
    requires Inverse(sessions, SubjectOf, sets) && sessions.Keys == next.Keys
    requires forall token :: token in sessions ==> next[token].subject == sessions[token].subject
    ensures Inverse(next, SubjectOf, sets)
  {
    forall subject ensures At(sets, subject).value == Owned(next, SubjectOf, subject) {
      assert At(sets, subject).value == Owned(sessions, SubjectOf, subject);
      assert Owned(next, SubjectOf, subject) == Owned(sessions, SubjectOf, subject);
    }
  }

  lemma CreateCommits(op: Op, db: Db)
    requires op.Create? && Consistent(db) && Body(op, db).Commit?
    ensures Step(RowsOf(db), op) == Done(RowsOf(Write(op, db, db)), Body(op, db).reply) && Consistent(Write(op, db, db))
  {
    InverseAdd(db.sessions.value, SubjectOf, db.bySubject, op.record.token, op.record);
  }

  lemma RotateCommits(op: Op, db: Db)
    requires op.Rotate? && Consistent(db) && Body(op, db).Commit?
    ensures Step(RowsOf(db), op) == Done(RowsOf(Write(op, db, db)), Body(op, db).reply) && Consistent(Write(op, db, db))
  {
    var record := db.sessions.value[op.current].Revoked(op.at);
    InverseAdd(db.sessions.value, SubjectOf, db.bySubject, op.current, record);
    var revoked := db.sessions.value[op.current := record];
    InverseAdd(revoked, SubjectOf, SAdd(db.bySubject, record.subject, op.current), op.replacement.token, op.replacement);
    assert RowsOf(Write(op, db, db)) == revoked[op.replacement.token := op.replacement];
  }

  lemma ExtendCommits(op: Op, db: Db)
    requires op.Extend? || op.Revoke?
    requires Consistent(db) && Body(op, db).Commit?
    ensures Step(RowsOf(db), op) == Done(RowsOf(Write(op, db, db)), Body(op, db).reply) && Consistent(Write(op, db, db))
  {
    InverseUpdate(db.sessions.value, SubjectOf, db.bySubject, op.token, RowsOf(Write(op, db, db))[op.token]);
  }

  lemma RevokeAllUpdates(op: Op, db: Db)
    requires op.RevokeAll? && Consistent(db)
    ensures var updates := Revocations(db.sessions.value, At(db.bySubject, op.subject).value, op.at);
      && db.sessions.value + updates == RevokeSubject(db.sessions.value, op.subject, op.at)
      && Step(RowsOf(db), op) == Done(db.sessions.value + updates, Many(set field | field in updates :: updates[field]))
  {
    var sessions, next := db.sessions.value, RevokeSubject(db.sessions.value, op.subject, op.at);
    var updates := Revocations(sessions, At(db.bySubject, op.subject).value, op.at);
    assert At(db.bySubject, op.subject).value == Owned(sessions, SubjectOf, op.subject);
    assert sessions + updates == next;
    assert (set token | token in next && next[token].subject == op.subject :: next[token])
        == (set field | field in updates :: updates[field]) by {
      assert forall token :: token in next && next[token].subject == op.subject <==> token in updates;
    }
  }

  lemma RevokeAllCommits(op: Op, db: Db)
    requires op.RevokeAll? && Consistent(db) && Body(op, db).Commit?
    ensures Step(RowsOf(db), op) == Done(RowsOf(Write(op, db, db)), Body(op, db).reply) && Consistent(Write(op, db, db))
  {
    RevokeAllUpdates(op, db);
    InverseOfUpdates(db.sessions.value, db.bySubject, RowsOf(Write(op, db, db)));
  }

  lemma Commits(op: Op, db: Db)
    requires Consistent(db) && Body(op, db).Commit?
    ensures Step(RowsOf(db), op) == Done(RowsOf(Write(op, db, db)), Body(op, db).reply) && Consistent(Write(op, db, db))
  {
    match op
    case Create(_) => CreateCommits(op, db);
    case Rotate(_, _, _) => RotateCommits(op, db);
    case RevokeAll(_, _) => RevokeAllCommits(op, db);
    case _ => ExtendCommits(op, db);
  }

  lemma WriteTicks(op: Op, view: Db, db: Db, key: Key)
    ensures Later(Get(db, key), Get(Write(op, view, db), key))
  {}

  lemma RevokeAllRests(op: Op, db: Db)
    requires op.RevokeAll? && Consistent(db) && Body(op, db).Skip?
    ensures Step(RowsOf(db), op) == Done(RowsOf(db), Body(op, db).reply)
  {
    hide Step;
    RevokeAllUpdates(op, db);
    var updates := Revocations(db.sessions.value, At(db.bySubject, op.subject).value, op.at);
    NoUpdates(db.sessions.value, updates);
  }

  lemma NoUpdates(sessions: Rows, updates: Rows)
    requires |updates| == 0
    ensures sessions + updates == sessions
  {}

  /** A call that writes nothing, decided on the whole database, answers like the row table. */
  lemma Rests(op: Op, db: Db)
    requires Consistent(db) && !Body(op, db).Commit?
    ensures match Body(op, db)
            case Skip(reply) => Step(RowsOf(db), op) == Done(RowsOf(db), reply)
            case Abort(error) => Step(RowsOf(db), op) == Refused(error)
            case Commit(_) => true
  {
    if op.RevokeAll? {
      RevokeAllRests(op, db);
    } else if op.Revoke? && op.token in db.sessions.value {
      assert RowsOf(db)[op.token := RowsOf(db)[op.token]] == RowsOf(db);
    }
  }

  // ---------------------------------------------------------------- the store

  const CODE: Code<Db, Key, Content, Op, Reply, Error> := Code(Get, Watched, Body, Write, TransactionConflict)

  function Unguarded(key: Key): Option<Key> { None }

  function NoNames(db: Db): set<Id> { {} }

  function NoDraws(op: Op): set<Id> { {} }

  ghost const SPEC: Spec<Db, Key, Op, Rows, Reply, Error> :=
    Spec(Consistent, Unguarded, NoNames, NoDraws, RowsOf, Step, EMPTY, Evolved)

  lemma SessionsAreLawful()
    ensures Lawful(CODE, SPEC)
  {
    forall op, view, db | Consistent(db) && Agree(CODE, SPEC, op, view, db) && Body(op, view).Commit?
      ensures CommitsAs(CODE, SPEC, op, Body(op, view).reply, db, Write(op, view, db))
    {
      forall key | key in Watched(op) ensures Get(view, key) == Get(db, key) {
        assert CODE.get(view, key) == CODE.get(db, key);
      }
      DependsOnWatched(op, view, db);
      Commits(op, db);
      forall key ensures Later(CODE.get(db, key), CODE.get(Write(op, view, db), key)) {
        WriteTicks(op, view, db, key);
      }
    }
    forall op, view, db | Consistent(db) && (forall key :: CODE.get(view, key) == CODE.get(db, key))
      ensures RestsAs(SPEC, op, Body(op, view), db)
    {
      forall key | key in Watched(op) ensures Get(view, key) == Get(db, key) {
        assert CODE.get(view, key) == CODE.get(db, key);
      }
      DependsOnWatched(op, view, db);
      if !Body(op, db).Commit? { Rests(op, db); }
    }
    forall a, b, c | Evolved(a, b) && Evolved(b, c) ensures Evolved(a, c) {
      EvolvedIsTransitive(a, b, c);
    }
    forall rows, op | Step(rows, op).Done? ensures Evolved(rows, Step(rows, op).rows) {
      StepEvolves(rows, op);
    }
  }

  type SessionStore = Store<Db, Key, Content, Op, Rows, Reply, Error>

  method New(ghost quiet: bool) returns (store: SessionStore)
    ensures fresh(store) && store.Valid() && store.c == CODE && store.s == SPEC
    ensures store.quiet == quiet && store.log == [] && RowsOf(store.db) == EMPTY
  {
    SessionsAreLawful();
    store := new Store(CODE, SPEC, EMPTY_DB, {}, quiet);
  }
}
