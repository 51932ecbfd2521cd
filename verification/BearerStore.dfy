/** The bearer-session and refresh-token stores of the Redis adapter. */
module BearerStore {
  import opened Common
  import opened Serial
  import opened Watch
  import opened BearerRows
  import opened Optimistic

  datatype Db = Db(
    access: Cell<map<Id, Session>>,    // access-sessions
    bySubject: Sets<Id>,               // access:subject:*
    tokens: Cell<map<Id, Refresh>>,    // refresh-tokens
    bySession: Sets<Id>)               // refresh:session:*

  const EMPTY_DB := Db(Cell(map[], 0), map[], Cell(map[], 0), map[])

  function RowsOf(db: Db): Rows { Rows(db.access.value, db.tokens.value) }

  datatype Key = Access | SubjectSet(subject: Id) | Tokens | SessionSet(session: Id)

  datatype Content = OfSessions(map<Id, Session>) | OfTokens(map<Id, Refresh>) | OfSet(set<Id>)

  function Get(db: Db, key: Key): Cell<Content> {
    match key
    case Access => Cell(OfSessions(db.access.value), db.access.version)
    case SubjectSet(subject) => Cell(OfSet(At(db.bySubject, subject).value), At(db.bySubject, subject).version)
    case Tokens => Cell(OfTokens(db.tokens.value), db.tokens.version)
    case SessionSet(session) => Cell(OfSet(At(db.bySession, session).value), At(db.bySession, session).version)
  }

  /** Rotate and RevokeAll read sets of refresh tokens that they cannot name in WATCH. */
  function Watched(op: Op): set<Key> {
    match op
    case CreateSession(id, session, _, _) => {Access, Tokens, SubjectSet(session.subject), SessionSet(id)}
    case Rotate(_, _, _, _, _) => {Tokens, Access}
    case RevokeSession(id, _) => {Tokens, Access, SessionSet(id)}
    case RevokeAll(subject, _) => {Access, Tokens, SubjectSet(subject)}
  }

  /** A set of refresh tokens is only ever written together with `refresh-tokens`. */
  function GuardedBy(key: Key): Option<Key> {
    if key.SessionSet? then Some(Tokens) else None
  }

  // ---------------------------------------------------------------- transaction bodies

  /** The tokens of the sets, revoked. */
  function TokenUpdates(tokens: map<Id, Refresh>, fields: set<Id>, at: Time): map<Id, Refresh> {
    map field | field in fields && field in tokens :: tokens[field].Revoked(at)
  }

  /** Those that were not revoked before. */
  function NewTokenUpdates(tokens: map<Id, Refresh>, fields: set<Id>, at: Time): map<Id, Refresh> {
    map field | field in fields && field in tokens && tokens[field].revokedAt.None? :: tokens[field].Revoked(at)
  }

  function NewSessionUpdates(sessions: map<Id, Session>, ids: set<Id>, at: Time): map<Id, Session> {
    map id | id in ids && id in sessions && sessions[id].revokedAt.None? :: sessions[id].Revoked(at)
  }

  /** The refresh tokens listed for those of `ids` that have a session. */
  function FieldsOf(db: Db, ids: set<Id>): set<Id> {
    set id, field | id in ids && id in db.access.value && field in At(db.bySession, id).value :: field
  }

  /** The loop of revokeSessionInTransaction, over the set in the order that SMEMBERS lists it. */
  method CollectTokens(tokens: map<Id, Refresh>, fields: seq<Id>, at: Time) returns (updates: map<Id, Refresh>)
    ensures updates == TokenUpdates(tokens, Elements(fields), at)
  {
    updates := map[];
    for i := 0 to |fields|
      invariant updates == TokenUpdates(tokens, Elements(fields[..i]), at)
    {
      assert fields[..i + 1] == fields[..i] + [fields[i]];
      if fields[i] in tokens {
        updates := updates[fields[i] := tokens[fields[i]].Revoked(at)];
      }
    }
    assert fields[..|fields|] == fields;
  }

  /** The listings that SMEMBERS gives of the sets. */
  ghost predicate Lists(db: Db, list: Id -> seq<Id>) {
    forall id :: Elements(list(id)) == At(db.bySession, id).value
  }

  /** The nested loops of RevokeAll: the sessions listed for the subject, and the tokens listed for each of them. */
  method CollectAll(db: Db, ids: seq<Id>, list: Id -> seq<Id>, at: Time)
      returns (accessUpdates: map<Id, Session>, refreshUpdates: map<Id, Refresh>)
    requires Lists(db, list)
    ensures accessUpdates == NewSessionUpdates(db.access.value, Elements(ids), at)
    ensures refreshUpdates == NewTokenUpdates(db.tokens.value, FieldsOf(db, Elements(ids)), at)
  {
    accessUpdates, refreshUpdates := map[], map[];
    for i := 0 to |ids|
      invariant accessUpdates == NewSessionUpdates(db.access.value, Elements(ids[..i]), at)
      invariant refreshUpdates == NewTokenUpdates(db.tokens.value, FieldsOf(db, Elements(ids[..i])), at)
    {
      ghost var before := Elements(ids[..i]);
      assert ids[..i + 1] == ids[..i] + [ids[i]];
      assert Elements(ids[..i + 1]) == before + {ids[i]};
      if ids[i] in db.access.value {
        if db.access.value[ids[i]].revokedAt.None? {
          accessUpdates := accessUpdates[ids[i] := db.access.value[ids[i]].Revoked(at)];
        }
        refreshUpdates := CollectNew(db.tokens.value, list(ids[i]), at, FieldsOf(db, before), refreshUpdates);
        assert FieldsOf(db, before + {ids[i]}) == FieldsOf(db, before) + At(db.bySession, ids[i]).value;
      } else {
        assert FieldsOf(db, before + {ids[i]}) == FieldsOf(db, before);
      }
    }
    assert ids[..|ids|] == ids;
  }

  /** The inner loop. */
  method CollectNew(tokens: map<Id, Refresh>, fields: seq<Id>, at: Time, ghost done: set<Id>, start: map<Id, Refresh>)
      returns (updates: map<Id, Refresh>)
    requires start == NewTokenUpdates(tokens, done, at)
    ensures updates == NewTokenUpdates(tokens, done + Elements(fields), at)
  {
    updates := start;
    assert done + Elements(fields[..0]) == done;
    for i := 0 to |fields|
      invariant updates == NewTokenUpdates(tokens, done + Elements(fields[..i]), at)
    {
      assert fields[..i + 1] == fields[..i] + [fields[i]];
      if fields[i] in tokens && tokens[fields[i]].revokedAt.None? {
        updates := updates[fields[i] := tokens[fields[i]].Revoked(at)];
      }
    }
    assert fields[..|fields|] == fields;
  }

  function Body(op: Op, db: Db): Decision<Reply, Error> {
    var tokens := db.tokens.value;
    match op
    case CreateSession(id, session, token, first) =>
      if id in db.access.value || token in tokens then Abort(TransactionConflict) else Commit(Nothing)
    case Rotate(current, token, session, next, at) =>
      if current !in tokens then Abort(NotFound)
      else if tokens[current].rotatedAt.Some? || tokens[current].revokedAt.Some? || at >= tokens[current].expiresAt then
        Commit(Reused)                 // never an empty pipeline: see ReuseWrites
      else if token in tokens then Abort(Conflict)
      else Commit(Nothing)
    case RevokeSession(id, at) =>
      if RevokesNothing(db, id, at) then Skip(Nothing) else Commit(Nothing)
    case RevokeAll(subject, at) =>
      var ids := At(db.bySubject, subject).value;
      if |NewSessionUpdates(db.access.value, ids, at)| == 0 && |NewTokenUpdates(tokens, FieldsOf(db, ids), at)| == 0
      then Skip(Nothing) else Commit(Nothing)
  }

  /** The pipeline of revokeSessionInTransaction is empty. */
  predicate RevokesNothing(db: Db, id: Id, at: Time) {
    && |TokenUpdates(db.tokens.value, At(db.bySession, id).value, at)| == 0
    && !(id in db.access.value && db.access.value[id].revokedAt.None?)
  }

  function WriteRevocation(view: Db, db: Db, id: Id, at: Time): Db {
    var updates := TokenUpdates(view.tokens.value, At(view.bySession, id).value, at);
    db.(tokens := if |updates| > 0 then HSetAll(db.tokens, updates) else db.tokens,
        access := if id in view.access.value && view.access.value[id].revokedAt.None?
                  then HSet(db.access, id, view.access.value[id].Revoked(at)) else db.access)
  }

  function Write(op: Op, view: Db, db: Db): Db {
    if !Body(op, view).Commit? then db else
    match op
    case CreateSession(id, session, token, first) =>
      db.(access := HSet(db.access, id, session), tokens := HSet(db.tokens, token, New(id, first)),
          bySubject := SAdd(db.bySubject, session.subject, id), bySession := SAdd(db.bySession, id, token))
    case Rotate(current, token, session, next, at) =>
      var record := view.tokens.value[current];
      if Body(op, view).reply.Reused? then WriteRevocation(view, db, record.session, at)
      else
        db.(tokens := HSetAll(db.tokens, map[current := record.(rotatedAt := Some(at)), token := New(session, next)]),
            bySession := SAdd(db.bySession, session, token))
    case RevokeSession(id, at) => WriteRevocation(view, db, id, at)
    case RevokeAll(subject, at) =>
      var ids := At(view.bySubject, subject).value;
      var accessUpdates := NewSessionUpdates(view.access.value, ids, at);
      var refreshUpdates := NewTokenUpdates(view.tokens.value, FieldsOf(view, ids), at);
      db.(access := if |accessUpdates| > 0 then HSetAll(db.access, accessUpdates) else db.access,
          tokens := if |refreshUpdates| > 0 then HSetAll(db.tokens, refreshUpdates) else db.tokens)
  }

  // ---------------------------------------------------------------- proofs

  function SubjectOf(session: Session): Id { session.subject }

  function SessionOf(refresh: Refresh): Id { refresh.session }

  /** The sets are exactly the inverses of the records. */
  ghost predicate Consistent(db: Db) {
    && Inverse(db.access.value, SubjectOf, db.bySubject)
    && Inverse(db.tokens.value, SessionOf, db.bySession)
  }

  /** Agreement on the watched keys and on the sets that they guard. */
  ghost predicate Current(op: Op, view: Db, db: Db) {
    forall key :: key in Watched(op) || (GuardedBy(key).Some? && GuardedBy(key).value in Watched(op)) ==>
      Get(view, key) == Get(db, key)
  }

  lemma DependsOnCurrent(op: Op, view: Db, db: Db)
    requires Current(op, view, db)
    ensures view.tokens == db.tokens && view.access == db.access
    ensures forall session :: At(view.bySession, session) == At(db.bySession, session)
    ensures op.RevokeAll? ==> At(view.bySubject, op.subject) == At(db.bySubject, op.subject)
  {
    assert Get(view, Access) == Get(db, Access) && Get(view, Tokens) == Get(db, Tokens);
    forall session ensures At(view.bySession, session) == At(db.bySession, session) {
      assert GuardedBy(SessionSet(session)) == Some(Tokens);
      assert Get(view, SessionSet(session)) == Get(db, SessionSet(session));
    }
    assert op.RevokeAll? ==> Get(view, SubjectSet(op.subject)) == Get(db, SubjectSet(op.subject));
  }

  lemma SameBody(op: Op, view: Db, db: Db)
    requires Current(op, view, db)
    ensures Body(op, view) == Body(op, db) && Write(op, view, db) == Write(op, db, db)
  {
    DependsOnCurrent(op, view, db);
    if op.RevokeAll? {
      var ids := At(db.bySubject, op.subject).value;
      assert FieldsOf(view, ids) == FieldsOf(db, ids);
    }
  }

  /** Updating records without moving them to another owner keeps the sets. */
  lemma InverseOfUpdates<R>(base: map<Id, R>, owner: R -> Id, sets: Sets<Id>, next: map<Id, R>)
    requires Inverse(base, owner, sets) && base.Keys == next.Keys
    requires forall key :: key in base ==> owner(next[key]) == owner(base[key])
    ensures Inverse(next, owner, sets)
  {
    forall subject ensures At(sets, subject).value == Owned(next, owner, subject) {
      assert At(sets, subject).value == Owned(base, owner, subject);
      assert Owned(next, owner, subject) == Owned(base, owner, subject);
    }
  }

  lemma TokensListed(db: Db, id: Id)
    requires Consistent(db)
    ensures forall token :: token in At(db.bySession, id).value <==> token in db.tokens.value && db.tokens.value[token].session == id
  {
    assert At(db.bySession, id).value == Owned(db.tokens.value, SessionOf, id);
  }

  lemma NoUpdates<K, V>(base: map<K, V>, updates: map<K, V>)
    requires |updates| == 0
    ensures base + updates == base
  {}

  lemma TokensRevoked(rows: Rows, fields: set<Id>, ids: set<Id>, at: Time)
    requires forall token :: token in fields <==> token in rows.tokens && rows.tokens[token].session in ids
    ensures rows.tokens + TokenUpdates(rows.tokens, fields, at) == WithRevoked(rows, ids, at).tokens
    ensures rows.tokens + NewTokenUpdates(rows.tokens, fields, at) == WithRevoked(rows, ids, at).tokens
  {}

  lemma SessionRevoked(db: Db, id: Id, at: Time)
    ensures WithRevoked(RowsOf(db), {id}, at).sessions ==
      (if id in db.access.value && db.access.value[id].revokedAt.None?
       then db.access.value[id := db.access.value[id].Revoked(at)] else db.access.value)
  {}

  /** revokeSessionInTransaction revokes the session and exactly its tokens. */
  lemma RevocationIsStep(db: Db, id: Id, at: Time)
    requires Consistent(db)
    ensures RowsOf(WriteRevocation(db, db, id, at)) == WithRevoked(RowsOf(db), {id}, at)
    ensures RevokesNothing(db, id, at) ==> WithRevoked(RowsOf(db), {id}, at) == RowsOf(db)
  {
    TokensListed(db, id);
    TokensRevoked(RowsOf(db), At(db.bySession, id).value, {id}, at);
    SessionRevoked(db, id, at);
    var updates := TokenUpdates(db.tokens.value, At(db.bySession, id).value, at);
    if |updates| == 0 {
      NoUpdates(db.tokens.value, updates);
    }
  }

  /**
    Rotate reads the token, then the set of its session, then the set's records, each at a later moment. The
    set holds the token itself, so the revocation that answers a reuse has something to write.
  */
  lemma ReuseWrites(first: Db, second: Db, third: Db, current: Id, at: Time)
    requires current in first.tokens.value && Consistent(second)
    requires Evolved(RowsOf(first), RowsOf(second)) && Evolved(RowsOf(second), RowsOf(third))
    ensures current in TokenUpdates(third.tokens.value, At(second.bySession, first.tokens.value[current].session).value, at)
  {
    TokensListed(second, first.tokens.value[current].session);
  }

  lemma RevocationKeepsSets(db: Db, next: Db, ids: set<Id>, at: Time)
    requires Consistent(db) && RowsOf(next) == WithRevoked(RowsOf(db), ids, at)
    requires next.bySubject == db.bySubject && next.bySession == db.bySession
    ensures Consistent(next)
  {
    InverseOfUpdates(db.tokens.value, SessionOf, db.bySession, next.tokens.value);
    InverseOfUpdates(db.access.value, SubjectOf, db.bySubject, next.access.value);
  }

  /** The updates of RevokeAll are exactly the subject's sessions and those sessions' tokens. */
  lemma RevokeAllIsStep(db: Db, subject: Id, at: Time)
    requires Consistent(db)
    ensures var ids := At(db.bySubject, subject).value;
      var accessUpdates, refreshUpdates := NewSessionUpdates(db.access.value, ids, at), NewTokenUpdates(db.tokens.value, FieldsOf(db, ids), at);
      Rows(db.access.value + accessUpdates, db.tokens.value + refreshUpdates)
        == WithRevoked(RowsOf(db), SessionsOf(RowsOf(db), subject), at)
  {
    var ids := At(db.bySubject, subject).value;
    var target := WithRevoked(RowsOf(db), SessionsOf(RowsOf(db), subject), at);
    assert ids == Owned(db.access.value, SubjectOf, subject);
    assert ids == SessionsOf(RowsOf(db), subject);
    assert db.access.value + NewSessionUpdates(db.access.value, ids, at) == target.sessions;
    forall token ensures token in FieldsOf(db, ids) <==> token in db.tokens.value && db.tokens.value[token].session in ids {
      if token in db.tokens.value && db.tokens.value[token].session in ids {
        TokensListed(db, db.tokens.value[token].session);
        assert db.tokens.value[token].session in db.access.value;
      }
      if token in FieldsOf(db, ids) {
        var id :| id in ids && id in db.access.value && token in At(db.bySession, id).value;
        TokensListed(db, id);
      }
    }
    TokensRevoked(RowsOf(db), FieldsOf(db, ids), ids, at);
  }

  lemma CreateCommits(op: Op, db: Db)
    requires op.CreateSession? && Consistent(db) && Body(op, db).Commit?
    ensures Committed(op, db)
  {
    InverseAdd(db.access.value, SubjectOf, db.bySubject, op.id, op.session);
    InverseAdd(db.tokens.value, SessionOf, db.bySession, op.token, New(op.id, op.first));
  }

  /** What EXEC has to establish. */
  ghost predicate Committed(op: Op, db: Db) {
    && Body(op, db).Commit?
    && Step(RowsOf(db), op) == Done(RowsOf(Write(op, db, db)), Body(op, db).reply) && Consistent(Write(op, db, db))
  }

  lemma RotateCommits(op: Op, db: Db)
    requires op.Rotate? && Consistent(db) && Body(op, db).Commit?
    ensures Committed(op, db)
  {
    var record := db.tokens.value[op.current];
    if Body(op, db).reply.Reused? {
      RevocationIsStep(db, record.session, op.at);
      RevocationKeepsSets(db, Write(op, db, db), {record.session}, op.at);
    } else {
      var rotated, replacement := record.(rotatedAt := Some(op.at)), New(op.owner, op.next);
      InverseUpdate(db.tokens.value, SessionOf, db.bySession, op.current, rotated);
      InverseAdd(db.tokens.value[op.current := rotated], SessionOf, db.bySession, op.token, replacement);
      assert RowsOf(Write(op, db, db)).tokens == db.tokens.value[op.current := rotated][op.token := replacement];
    }
  }

  lemma RevokeCommits(op: Op, db: Db)
    requires op.RevokeSession? && Consistent(db) && Body(op, db).Commit?
    ensures Committed(op, db)
  {
    RevocationIsStep(db, op.id, op.at);
    RevocationKeepsSets(db, Write(op, db, db), {op.id}, op.at);
  }

  lemma RevokeAllWrites(op: Op, db: Db)
    requires op.RevokeAll? && Consistent(db)
    ensures Body(op, db).Commit? ==> RowsOf(Write(op, db, db)) == WithRevoked(RowsOf(db), SessionsOf(RowsOf(db), op.subject), op.at)
    ensures Body(op, db).Skip? ==> RowsOf(db) == WithRevoked(RowsOf(db), SessionsOf(RowsOf(db), op.subject), op.at)
  {
    RevokeAllIsStep(db, op.subject, op.at);
    var ids := At(db.bySubject, op.subject).value;
    if |NewSessionUpdates(db.access.value, ids, op.at)| == 0 {
      NoUpdates(db.access.value, NewSessionUpdates(db.access.value, ids, op.at));
    }
    if |NewTokenUpdates(db.tokens.value, FieldsOf(db, ids), op.at)| == 0 {
      NoUpdates(db.tokens.value, NewTokenUpdates(db.tokens.value, FieldsOf(db, ids), op.at));
    }
  }

  lemma RevokeAllCommits(op: Op, db: Db)
    requires op.RevokeAll? && Consistent(db) && Body(op, db).Commit?
    ensures Committed(op, db)
  {
    RevokeAllWrites(op, db);
    RevocationKeepsSets(db, Write(op, db, db), SessionsOf(RowsOf(db), op.subject), op.at);
  }

  lemma Commits(op: Op, db: Db)
    requires Consistent(db) && Body(op, db).Commit?
    ensures Committed(op, db)
  {
    match op
    case CreateSession(_, _, _, _) => CreateCommits(op, db);
    case Rotate(_, _, _, _, _) => RotateCommits(op, db);
    case RevokeSession(_, _) => RevokeCommits(op, db);
    case RevokeAll(_, _) => RevokeAllCommits(op, db);
  }

  /** A call that writes nothing, decided on the whole database, answers like the row tables. */
  lemma Rests(op: Op, db: Db)
    requires Consistent(db)
    ensures RestsAs(SPEC, op, Body(op, db), db)
  {
    match op
    case RevokeSession(id, at) => RevocationIsStep(db, id, at);
    case RevokeAll(_, _) => RevokeAllWrites(op, db);
    case _ =>
  }

  lemma HashesTick(op: Op, view: Db, db: Db)
    ensures Later(db.access, Write(op, view, db).access) && Later(db.tokens, Write(op, view, db).tokens)
  {}

  lemma SubjectsTick(op: Op, view: Db, db: Db, subject: Id)
    ensures Later(At(db.bySubject, subject), At(Write(op, view, db).bySubject, subject))
  {}

  lemma SetsTickWithTokens(op: Op, view: Db, db: Db, session: Id)
    ensures Later(At(db.bySession, session), At(Write(op, view, db).bySession, session))
    ensures db.bySession == Write(op, view, db).bySession || db.tokens.version < Write(op, view, db).tokens.version
  {
    var next := Write(op, view, db);
    if op.RevokeSession? || op.RevokeAll? {
      assert next.bySession == db.bySession;
    } else if op.CreateSession? {
      assert next.bySession == db.bySession || next.bySession == SAdd(db.bySession, op.id, op.token);
    } else {
      assert next.bySession == db.bySession || next.bySession == SAdd(db.bySession, op.owner, op.token);
    }
  }

  /** A pipeline changes no key without changing its version, and no token set without `refresh-tokens`. */
  lemma WriteTicks(op: Op, view: Db, db: Db, key: Key)
    ensures Later(Get(db, key), Get(Write(op, view, db), key))
    ensures key.SessionSet? && db.tokens.version == Write(op, view, db).tokens.version ==>
      Get(db, key).version == Get(Write(op, view, db), key).version
  {
    hide Write;
    match key
    case SubjectSet(subject) => SubjectsTick(op, view, db, subject);
    case SessionSet(session) => SetsTickWithTokens(op, view, db, session);
    case _ => HashesTick(op, view, db);
  }

  // ---------------------------------------------------------------- the store

  const CODE: Code<Db, Key, Content, Op, Reply, Error> := Code(Get, Watched, Body, Write, TransactionConflict)

  function NoNames(db: Db): set<Id> { {} }

  function NoDraws(op: Op): set<Id> { {} }

  ghost const SPEC: Spec<Db, Key, Op, Rows, Reply, Error> :=
    Spec(Consistent, GuardedBy, NoNames, NoDraws, RowsOf, Step, EMPTY, Evolved)

  lemma CommitIsLawful(op: Op, view: Db, db: Db)
    requires Consistent(db) && Agree(CODE, SPEC, op, view, db) && Body(op, view).Commit?
    ensures CommitsAs(CODE, SPEC, op, Body(op, view).reply, db, Write(op, view, db))
  {
    hide Body, Write, Step, Consistent, Watched;
    assert Current(op, view, db) by {
      forall key | key in Watched(op) || (GuardedBy(key).Some? && GuardedBy(key).value in Watched(op))
        ensures Get(view, key) == Get(db, key)
      {
        assert CODE.get(view, key) == CODE.get(db, key);
      }
    }
    SameBody(op, view, db);
    Commits(op, db);
    var next := Write(op, db, db);
    forall key ensures Later(CODE.get(db, key), CODE.get(next, key)) {
      WriteTicks(op, db, db, key);
    }
    forall key | SPEC.guard(key).Some? && Clean(CODE, db, next, SPEC.guard(key).value) ensures Clean(CODE, db, next, key) {
      WriteTicks(op, db, db, key);
    }
  }

  lemma RestIsLawful(op: Op, view: Db, db: Db)
    requires Consistent(db) && (forall key :: CODE.get(view, key) == CODE.get(db, key))
    ensures RestsAs(SPEC, op, Body(op, view), db)
  {
    forall key ensures Get(view, key) == Get(db, key) {
      assert CODE.get(view, key) == CODE.get(db, key);
    }
    SameBody(op, view, db);
    Rests(op, db);
  }

  /**
    The bearer transactions meet the obligations of the WATCH loop although Rotate and RevokeAll read token
    sets they do not watch: those sets change only together with a key they do watch.
  */
  lemma BearerIsLawful()
    ensures Lawful(CODE, SPEC)
  {
    forall op, view, db | SPEC.consistent(db) && Agree(CODE, SPEC, op, view, db) && SPEC.draws(op) !! SPEC.names(db)
                          && CODE.body(op, view).Commit?
      ensures CommitsAs(CODE, SPEC, op, CODE.body(op, view).reply, db, CODE.write(op, view, db))
    {
      CommitIsLawful(op, view, db);
    }
    forall op, view, db | SPEC.consistent(db) && (forall key :: CODE.get(view, key) == CODE.get(db, key))
      ensures RestsAs(SPEC, op, CODE.body(op, view), db)
    {
      RestIsLawful(op, view, db);
    }
    forall a, b, c | SPEC.climbs(a, b) && SPEC.climbs(b, c) ensures SPEC.climbs(a, c) {
      EvolvedIsTransitive(a, b, c);
    }
    forall rows, op | SPEC.step(rows, op).Done? ensures SPEC.climbs(rows, SPEC.step(rows, op).rows) {
      StepEvolves(rows, op);
    }
  }

  type BearerStore = Store<Db, Key, Content, Op, Rows, Reply, Error>

  method Empty(ghost quiet: bool) returns (store: BearerStore)
    ensures fresh(store) && store.Valid() && store.c == CODE && store.s == SPEC
    ensures store.quiet == quiet && store.log == [] && RowsOf(store.db) == EMPTY
  {
    BearerIsLawful();
    store := new Store(CODE, SPEC, EMPTY_DB, {}, quiet);
  }
}
