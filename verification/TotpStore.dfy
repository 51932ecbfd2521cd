/** The TOTP store of the Redis adapter. */
module TotpStore {
  import opened Common
  import opened Serial
  import opened Watch
  import opened TotpRows
  import opened Optimistic

  datatype Db = Db(
    enrollments: Cell<map<Id, Enrollment>>,     // totp-enrollments
    credentials: Cell<map<Id, Credential>>,     // totp-credentials
    recovery: Cell<map<string, Status>>,        // totp-recovery-codes
    bySubject: Sets<string>,                    // totp:recovery:*
    challenges: Cell<map<Digest, Challenge>>)   // totp-challenges

  const EMPTY_DB := Db(Cell(map[], 0), Cell(map[], 0), Cell(map[], 0), map[], Cell(map[], 0))

  // ---------------------------------------------------------------- recovery fields

  /** recoveryField */
  function Field(code: CodeKey): string { code.subject + ":" + code.hash }

  /** A field can be read back, wherever the subject has colons of its own, because the hash has a fixed length. */
  function Parse(field: string): CodeKey {
    if |field| < 65 then CodeKey("", ZERO_HASH) else CodeKey(field[..|field| - 65], field[|field| - 64..])
  }

  lemma FieldIsInjective(code: CodeKey)
    ensures Parse(Field(code)) == code
  {
    assert Field(code)[..|Field(code)| - 65] == code.subject;
    assert Field(code)[|Field(code)| - 64..] == code.hash;
  }

  predicate WellFormed(field: string) { Field(Parse(field)) == field }

  /** The table of codes that the hash of fields stands for. */
  function Codes(recovery: map<string, Status>): map<CodeKey, Status> {
    map code | code in Parsed(recovery.Keys) && Field(code) in recovery :: recovery[Field(code)]
  }

  function Parsed(fields: set<string>): set<CodeKey> { set field | field in fields :: Parse(field) }

  lemma CodesAt(recovery: map<string, Status>, code: CodeKey)
    ensures code in Codes(recovery) <==> Field(code) in recovery
    ensures code in Codes(recovery) ==> Codes(recovery)[code] == recovery[Field(code)]
  {
    FieldIsInjective(code);
    if Field(code) in recovery {
      assert Parse(Field(code)) in Parsed(recovery.Keys);
    }
  }

  function FieldsOf(recovery: map<string, Status>, subject: Id): set<string> {
    set field | field in recovery && Parse(field).subject == subject
  }

  function NewFields(subject: Id, hashes: set<Digest>): set<string> {
    set hash | hash in hashes :: Field(CodeKey(subject, hash))
  }

  function RowsOf(db: Db): Rows {
    Rows(db.enrollments.value, db.credentials.value, Codes(db.recovery.value), db.challenges.value)
  }

  // ---------------------------------------------------------------- keys

  datatype Key = Enrollments | Credentials | Recovery | RecoverySet(subject: Id) | Challenges

  datatype Content =
    | OfEnrollments(map<Id, Enrollment>) | OfCredentials(map<Id, Credential>) | OfRecovery(map<string, Status>)
    | OfSet(set<string>) | OfChallenges(map<Digest, Challenge>)

  function Get(db: Db, key: Key): Cell<Content> {
    match key
    case Enrollments => Cell(OfEnrollments(db.enrollments.value), db.enrollments.version)
    case Credentials => Cell(OfCredentials(db.credentials.value), db.credentials.version)
    case Recovery => Cell(OfRecovery(db.recovery.value), db.recovery.version)
    case RecoverySet(subject) => Cell(OfSet(At(db.bySubject, subject).value), At(db.bySubject, subject).version)
    case Challenges => Cell(OfChallenges(db.challenges.value), db.challenges.version)
  }

  /** CompleteRecovery does not watch the credentials, and BeginEnrollment and CreateChallenge are single commands. */
  function Watched(op: Op): set<Key> {
    match op
    case BeginEnrollment(_, _) => {}
    case Enable(subject, _, _, _) => {Enrollments, Credentials, Recovery, RecoverySet(subject)}
    case Disable(subject, _) => {Credentials, Recovery, RecoverySet(subject)}
    case CreateChallenge(_, _) => {Challenges}
    case CompleteCode(_, _, _) => {Challenges, Credentials}
    case CompleteRecovery(_, _, _) => {Challenges, Recovery}
  }

  // ---------------------------------------------------------------- transaction bodies

  function Body(op: Op, db: Db): Decision<Reply, Error> {
    match op
    case BeginEnrollment(_, _) => Commit(Nothing)
    case Enable(subject, counter, hashes, at) =>
      if subject !in db.enrollments.value then Abort(NotFound)
      else if at >= db.enrollments.value[subject].expiresAt then Abort(InactiveEnrollment)
      else Commit(Nothing)
    case Disable(subject, at) =>
      if subject !in db.credentials.value then Abort(NotFound) else Commit(Nothing)
    case CreateChallenge(token, challenge) =>
      if token in db.challenges.value then Abort(Conflict) else Commit(Nothing)
    case CompleteCode(token, counter, at) =>
      if token !in db.challenges.value || at >= db.challenges.value[token].expiresAt then Abort(InactiveChallenge)
      else
        var subject := db.challenges.value[token].subject;
        if subject !in db.credentials.value then Abort(InvalidCode)
        else if db.credentials.value[subject].disabledAt.Some? then Abort(InvalidCode)
        else if db.credentials.value[subject].counter.Some? && counter <= db.credentials.value[subject].counter.value
        then Abort(InvalidCode)
        else Commit(For(subject))
    case CompleteRecovery(token, hash, at) =>
      if token !in db.challenges.value || at >= db.challenges.value[token].expiresAt then Abort(InactiveChallenge)
      else
        var subject := db.challenges.value[token].subject;
        var field := Field(CodeKey(subject, hash));
        if field !in db.recovery.value || db.recovery.value[field] != Unused then Abort(InvalidCode)
        else Commit(For(subject))
  }

  /** DEL and SADD of a whole set. */
  function Replace(sets: Sets<string>, name: Id, members: set<string>): Sets<string> {
    var cell := At(sets, name);
    if cell.value == {} && members == {} then sets else sets[name := Cell(members, cell.version + 1)]
  }

  function Unuseds(fields: set<string>): map<string, Status> { map field | field in fields :: Unused }

  function Write(op: Op, view: Db, db: Db): Db {
    if !Body(op, view).Commit? then db else
    match op
    case BeginEnrollment(subject, enrollment) =>
      db.(enrollments := HSet(db.enrollments, subject, enrollment))
    case Enable(subject, counter, hashes, at) =>
      var secret := view.enrollments.value[subject].secret;
      var cleared := HDel(db.recovery, At(view.bySubject, subject).value);
      var fields := NewFields(subject, hashes);
      db.(credentials := HSet(db.credentials, subject, Credential(secret, at, Some(counter), None)),
          enrollments := HDel(db.enrollments, {subject}),
          recovery := if fields == {} then cleared else HSetAll(cleared, Unuseds(fields)),
          bySubject := Replace(db.bySubject, subject, fields))
    case Disable(subject, at) =>
      var credential := view.credentials.value[subject];
      var disabledAt := if credential.disabledAt.None? then Some(at) else credential.disabledAt;
      db.(credentials := HSet(db.credentials, subject, credential.(disabledAt := disabledAt)),
          recovery := HDel(db.recovery, At(view.bySubject, subject).value),
          bySubject := Replace(db.bySubject, subject, {}))
    case CreateChallenge(token, challenge) =>
      db.(challenges := HSet(db.challenges, token, challenge))
    case CompleteCode(token, counter, at) =>
      var subject := view.challenges.value[token].subject;
      db.(challenges := HDel(db.challenges, {token}),
          credentials := HSet(db.credentials, subject, view.credentials.value[subject].(counter := Some(counter))))
    case CompleteRecovery(token, hash, at) =>
      db.(challenges := HDel(db.challenges, {token}),
          recovery := HSet(db.recovery, Field(CodeKey(view.challenges.value[token].subject, hash)), Used(at)))
  }

  // ---------------------------------------------------------------- proofs

  /** Every field names a code, and each subject's set lists exactly that subject's fields. */
  ghost predicate Consistent(db: Db) {
    && (forall field :: field in db.recovery.value ==> WellFormed(field))
    && (forall subject :: At(db.bySubject, subject).value == FieldsOf(db.recovery.value, subject))
  }

  ghost predicate AgreeOn(keys: set<Key>, view: Db, db: Db) {
    forall key :: key in keys ==> Get(view, key) == Get(db, key)
  }

  lemma DependsOnWatched(op: Op, view: Db, db: Db)
    requires AgreeOn(Watched(op), view, db)
    ensures Body(op, view) == Body(op, db) && Write(op, view, db) == Write(op, db, db)
  {
    match op
    case BeginEnrollment(_, _) =>
    case Enable(subject, _, _, _) =>
      assert Get(view, Enrollments) == Get(db, Enrollments) && Get(view, RecoverySet(subject)) == Get(db, RecoverySet(subject));
    case Disable(subject, _) =>
      assert Get(view, Credentials) == Get(db, Credentials) && Get(view, RecoverySet(subject)) == Get(db, RecoverySet(subject));
    case CreateChallenge(_, _) =>
      assert Get(view, Challenges) == Get(db, Challenges);
    case CompleteCode(_, _, _) =>
      assert Get(view, Challenges) == Get(db, Challenges) && Get(view, Credentials) == Get(db, Credentials);
    case CompleteRecovery(_, _, _) =>
      assert Get(view, Challenges) == Get(db, Challenges) && Get(view, Recovery) == Get(db, Recovery);
  }

  lemma CodesEqual(recovery: map<string, Status>, codes: map<CodeKey, Status>)
    requires forall code :: code in codes <==> Field(code) in recovery
    requires forall code :: code in codes ==> codes[code] == recovery[Field(code)]
    ensures Codes(recovery) == codes
  {
    forall code ensures code in Codes(recovery) <==> code in codes {
      CodesAt(recovery, code);
    }
    forall code | code in codes ensures Codes(recovery)[code] == codes[code] {
      CodesAt(recovery, code);
    }
  }

  /** Deleting the fields that the subject's set lists deletes exactly that subject's codes. */
  lemma Cleared(recovery: map<string, Status>, subject: Id)
    ensures Codes(recovery - FieldsOf(recovery, subject)) == Without(Codes(recovery), subject)
  {
    var kept := recovery - FieldsOf(recovery, subject);
    forall code ensures code in Without(Codes(recovery), subject) <==> Field(code) in kept {
      CodesAt(recovery, code);
      FieldIsInjective(code);
    }
    forall code | code in Without(Codes(recovery), subject) ensures Without(Codes(recovery), subject)[code] == kept[Field(code)] {
      CodesAt(recovery, code);
    }
    CodesEqual(kept, Without(Codes(recovery), subject));
  }

  lemma NewFieldsAt(subject: Id, hashes: set<Digest>, code: CodeKey)
    ensures Field(code) in NewFields(subject, hashes) <==> code in CodesFor(subject, hashes)
  {
    FieldIsInjective(code);
    if Field(code) in NewFields(subject, hashes) {
      var hash :| hash in hashes && Field(CodeKey(subject, hash)) == Field(code);
      FieldIsInjective(CodeKey(subject, hash));
    }
  }

  lemma Granted(recovery: map<string, Status>, subject: Id, hashes: set<Digest>)
    ensures Codes(recovery + Unuseds(NewFields(subject, hashes))) == Codes(recovery) + Fresh(subject, hashes)
  {
    var next, codes := recovery + Unuseds(NewFields(subject, hashes)), Codes(recovery) + Fresh(subject, hashes);
    forall code ensures (code in codes <==> Field(code) in next) && (code in codes ==> codes[code] == next[Field(code)]) {
      CodesAt(recovery, code);
      NewFieldsAt(subject, hashes, code);
    }
    CodesEqual(next, codes);
  }

  lemma Spent(recovery: map<string, Status>, code: CodeKey, status: Status)
    ensures Codes(recovery[Field(code) := status]) == Codes(recovery)[code := status]
  {
    var next, codes := recovery[Field(code) := status], Codes(recovery)[code := status];
    forall other ensures (other in codes <==> Field(other) in next) && (other in codes ==> codes[other] == next[Field(other)]) {
      CodesAt(recovery, other);
      FieldIsInjective(other);
      FieldIsInjective(code);
    }
    CodesEqual(next, codes);
  }

  /** What EXEC has to establish. */
  ghost predicate Committed(op: Op, db: Db) {
    && Body(op, db).Commit?
    && Step(RowsOf(db), op) == Done(RowsOf(Write(op, db, db)), Body(op, db).reply) && Consistent(Write(op, db, db))
  }

  /** Writing one subject's codes leaves the sets of all others, which share no field with it. */
  lemma SetsReplaced(db: Db, subject: Id, hashes: set<Digest>)
    requires Consistent(db)
    ensures var recovery := db.recovery.value - FieldsOf(db.recovery.value, subject) + Unuseds(NewFields(subject, hashes));
      && (forall field :: field in recovery ==> WellFormed(field))
      && (forall other :: At(Replace(db.bySubject, subject, NewFields(subject, hashes)), other).value == FieldsOf(recovery, other))
  {
    var fields := NewFields(subject, hashes);
    var recovery := db.recovery.value - FieldsOf(db.recovery.value, subject) + Unuseds(fields);
    forall field | field in fields ensures WellFormed(field) && Parse(field).subject == subject {
      var hash :| hash in hashes && Field(CodeKey(subject, hash)) == field;
      FieldIsInjective(CodeKey(subject, hash));
    }
    forall other ensures At(Replace(db.bySubject, subject, fields), other).value == FieldsOf(recovery, other) {
      assert At(db.bySubject, other).value == FieldsOf(db.recovery.value, other);
      if other == subject {
        assert FieldsOf(recovery, other) == fields;
      } else {
        assert FieldsOf(recovery, other) == FieldsOf(db.recovery.value, other);
      }
    }
  }

  lemma EnableCommits(op: Op, db: Db)
    requires op.Enable? && Consistent(db) && Body(op, db).Commit?
    ensures Committed(op, db)
  {
    var mine, fields := FieldsOf(db.recovery.value, op.subject), NewFields(op.subject, op.hashes);
    assert At(db.bySubject, op.subject).value == mine;
    SetsReplaced(db, op.subject, op.hashes);
    Cleared(db.recovery.value, op.subject);
    Granted(db.recovery.value - mine, op.subject, op.hashes);
    EnableWrites(op, db, mine, fields);
  }

  lemma EnableWrites(op: Op, db: Db, mine: set<string>, fields: set<string>)
    requires op.Enable? && Body(op, db).Commit?
    requires At(db.bySubject, op.subject).value == mine && NewFields(op.subject, op.hashes) == fields
    ensures Write(op, db, db).recovery.value == db.recovery.value - mine + Unuseds(fields)
    ensures Write(op, db, db).bySubject == Replace(db.bySubject, op.subject, fields)
  {
    assert HDel(db.recovery, mine).value == db.recovery.value - mine;
    assert fields == {} ==> Unuseds(fields) == map[];
  }

  lemma DisableCommits(op: Op, db: Db)
    requires op.Disable? && Consistent(db) && Body(op, db).Commit?
    ensures Committed(op, db)
  {
    hide Replace, Codes, FieldsOf, WellFormed, Without;
    var mine := FieldsOf(db.recovery.value, op.subject);
    assert At(db.bySubject, op.subject).value == mine;
    SetsReplaced(db, op.subject, {});
    Cleared(db.recovery.value, op.subject);
    DisableWrites(op, db, mine);
  }

  lemma DisableWrites(op: Op, db: Db, mine: set<string>)
    requires op.Disable? && Body(op, db).Commit? && At(db.bySubject, op.subject).value == mine
    ensures NewFields(op.subject, {}) == {} && Unuseds({}) == map[]
    ensures Write(op, db, db).recovery.value == db.recovery.value - mine == db.recovery.value - mine + Unuseds({})
    ensures Write(op, db, db).bySubject == Replace(db.bySubject, op.subject, {})
  {
    assert HDel(db.recovery, mine).value == db.recovery.value - mine;
  }

  lemma RecoveryCommits(op: Op, db: Db)
    requires op.CompleteRecovery? && Consistent(db) && Body(op, db).Commit?
    ensures Committed(op, db)
  {
    var code := CodeKey(db.challenges.value[op.token].subject, op.hash);
    CodesAt(db.recovery.value, code);
    Spent(db.recovery.value, code, Used(op.at));
    var next := db.recovery.value[Field(code) := Used(op.at)];
    forall subject ensures At(db.bySubject, subject).value == FieldsOf(next, subject) {
      assert FieldsOf(next, subject) == FieldsOf(db.recovery.value, subject);
    }
  }

  lemma Commits(op: Op, db: Db)
    requires Consistent(db) && Body(op, db).Commit?
    ensures Committed(op, db)
  {
    match op
    case Enable(_, _, _, _) => EnableCommits(op, db);
    case Disable(_, _) => DisableCommits(op, db);
    case CompleteRecovery(_, _, _) => RecoveryCommits(op, db);
    case _ =>
  }

  lemma Refuses(op: Op, db: Db)
    requires Consistent(db) && Body(op, db).Abort?
    ensures Step(RowsOf(db), op) == Refused(Body(op, db).error)
  {
    if op.CompleteRecovery? && op.token in db.challenges.value {
      CodesAt(db.recovery.value, CodeKey(db.challenges.value[op.token].subject, op.hash));
    }
  }

  lemma HashesTick(op: Op, view: Db, db: Db)
    ensures var next := Write(op, view, db);
      && Later(db.enrollments, next.enrollments) && Later(db.credentials, next.credentials)
      && Later(db.recovery, next.recovery) && Later(db.challenges, next.challenges)
  {}

  lemma SetsTickToo(op: Op, view: Db, db: Db, subject: Id)
    ensures Later(At(db.bySubject, subject), At(Write(op, view, db).bySubject, subject))
  {}

  lemma WriteTicks(op: Op, view: Db, db: Db, key: Key)
    ensures Later(Get(db, key), Get(Write(op, view, db), key))
  {
    hide Write;
    match key
    case RecoverySet(subject) => SetsTickToo(op, view, db, subject);
    case _ => HashesTick(op, view, db);
  }

  // ---------------------------------------------------------------- the store

  const CODE: Optimistic.Code<Db, Key, Content, Op, Reply, Error> := Code(Get, Watched, Body, Write, TransactionConflict)

  function Unguarded(key: Key): Option<Key> { None }

  function NoNames(db: Db): set<Id> { {} }

  function NoDraws(op: Op): set<Id> { {} }

  /** Nothing is claimed about how the tables move. */
  predicate Anyhow(before: Rows, after: Rows) { true }

  ghost const SPEC: Spec<Db, Key, Op, Rows, Reply, Error> :=
    Spec(Consistent, Unguarded, NoNames, NoDraws, RowsOf, Step, EMPTY, Anyhow)

  lemma CommitIsLawful(op: Op, view: Db, db: Db)
    requires Consistent(db) && Agree(CODE, SPEC, op, view, db) && Body(op, view).Commit?
    ensures CommitsAs(CODE, SPEC, op, Body(op, view).reply, db, Write(op, view, db))
  {
    assert AgreeOn(Watched(op), view, db) by {
      forall key | key in Watched(op) ensures Get(view, key) == Get(db, key) {
        assert CODE.get(view, key) == CODE.get(db, key);
      }
    }
    DependsOnWatched(op, view, db);
    Commits(op, db);
    forall key ensures Later(CODE.get(db, key), CODE.get(Write(op, db, db), key)) {
      WriteTicks(op, db, db, key);
    }
  }

  lemma RefusalIsLawful(op: Op, view: Db, db: Db)
    requires Consistent(db) && (forall key :: CODE.get(view, key) == CODE.get(db, key))
    ensures RestsAs(SPEC, op, Body(op, view), db)
  {
    forall key | key in Watched(op) ensures Get(view, key) == Get(db, key) {
      assert CODE.get(view, key) == CODE.get(db, key);
    }
    DependsOnWatched(op, view, db);
    if Body(op, db).Abort? { Refuses(op, db); }
  }

  lemma TotpIsLawful()
    ensures Lawful(CODE, SPEC)
  {
    forall op, view, db | SPEC.consistent(db) && Agree(CODE, SPEC, op, view, db) && SPEC.draws(op) !! SPEC.names(db)
                          && CODE.body(op, view).Commit?
      ensures CommitsAs(CODE, SPEC, op, CODE.body(op, view).reply, db, CODE.write(op, view, db))
    {
      CommitIsLawful(op, view, db);
    }
    forall op, view, db | SPEC.consistent(db) && (forall key :: CODE.get(view, key) == CODE.get(db, key))
      ensures RestsAs(SPEC, op, CODE.body(op, view), db)
    {
      RefusalIsLawful(op, view, db);
    }
  }

  type TotpStore = Store<Db, Key, Content, Op, Rows, Reply, Error>

  method Empty(ghost quiet: bool) returns (store: TotpStore)
    ensures fresh(store) && store.Valid() && store.c == CODE && store.s == SPEC
    ensures store.quiet == quiet && store.log == [] && RowsOf(store.db) == EMPTY
  {
    TotpIsLawful();
    assert Codes(map[]) == map[];
    store := new Store(CODE, SPEC, EMPTY_DB, {}, quiet);
  }
}
