/**
  The account stores of the Redis adapter. A transaction body only reads before its one MULTI block, so it is
  given by the decision it takes from the values it read (`Body`) and by the pipeline it then sends (`Write`).
*/
module AccountStore {
  import opened Common
  import opened Serial
  import opened Watch
  import opened AccountRows
  import opened Optimistic

  /** The records of one purpose by user, and the inverse index from token hash to user. */
  datatype TokenKeys = TokenKeys(records: Cell<map<Id, OneTime>>, owners: Cell<map<Id, Id>>)

  datatype Db = Db(
    users: Cell<map<Id, User>>,              // users
    emails: Cell<map<string, Id>>,           // users:email
    handles: Cell<map<string, Id>>,          // users:handle
    passwords: Cell<map<Id, Password>>,      // passwords
    identities: Cell<map<Id, Google>>,       // google-identities
    googleOf: Sets<Id>,                      // google:subject:*
    passkeys: Cell<map<Id, Passkey>>,        // passkeys
    passkeysOf: Sets<Id>,                    // passkeys:subject:*
    ceremonies: Cell<map<Id, Ceremony>>,     // passkey-ceremonies
    verification: TokenKeys,                 // email-verifications, email-verification-tokens
    reset: TokenKeys)                        // password-resets, password-reset-tokens
  {
    function Tokens(purpose: Purpose): TokenKeys {
      if purpose == Verification then verification else reset
    }

    function WithTokens(purpose: Purpose, keys: TokenKeys): Db {
      if purpose == Verification then this.(verification := keys) else this.(reset := keys)
    }
  }

  const EMPTY_DB := Db(Cell(map[], 0), Cell(map[], 0), Cell(map[], 0), Cell(map[], 0), Cell(map[], 0), map[], Cell(map[], 0),
                       map[], Cell(map[], 0), TokenKeys(Cell(map[], 0), Cell(map[], 0)), TokenKeys(Cell(map[], 0), Cell(map[], 0)))

  function RowsOf(db: Db): Rows {
    Rows(db.users.value, db.passwords.value, db.identities.value, db.passkeys.value, db.ceremonies.value,
         db.verification.records.value, db.reset.records.value)
  }

  // ---------------------------------------------------------------- keys

  /** The keys, as WATCH names them. */
  datatype Key =
    | Users | Emails | Handles | Passwords
    | Identities | GoogleSet(subject: Id)
    | Passkeys | PasskeySet(subject: Id)
    | Ceremonies
    | Records(purpose: Purpose) | Owners(purpose: Purpose)

  datatype Content =
    | OfUsers(map<Id, User>) | OfIndex(map<string, Id>) | OfPasswords(map<Id, Password>) | OfIdentities(map<Id, Google>)
    | OfSet(set<Id>) | OfPasskeys(map<Id, Passkey>) | OfCeremonies(map<Id, Ceremony>) | OfRecords(map<Id, OneTime>)

  function Get(db: Db, key: Key): Cell<Content> {
    match key
    case Users => Cell(OfUsers(db.users.value), db.users.version)
    case Emails => Cell(OfIndex(db.emails.value), db.emails.version)
    case Handles => Cell(OfIndex(db.handles.value), db.handles.version)
    case Passwords => Cell(OfPasswords(db.passwords.value), db.passwords.version)
    case Identities => Cell(OfIdentities(db.identities.value), db.identities.version)
    case GoogleSet(subject) => Cell(OfSet(At(db.googleOf, subject).value), At(db.googleOf, subject).version)
    case Passkeys => Cell(OfPasskeys(db.passkeys.value), db.passkeys.version)
    case PasskeySet(subject) => Cell(OfSet(At(db.passkeysOf, subject).value), At(db.passkeysOf, subject).version)
    case Ceremonies => Cell(OfCeremonies(db.ceremonies.value), db.ceremonies.version)
    case Records(purpose) => Cell(OfRecords(db.Tokens(purpose).records.value), db.Tokens(purpose).records.version)
    case Owners(purpose) => Cell(OfIndex(db.Tokens(purpose).owners.value), db.Tokens(purpose).owners.version)
  }

  /** The WATCH list of each transaction. */
  function Watched(op: Op): set<Key> {
    match op
    case Register(_, _, _, _) => {Users, Emails, Handles, Passwords}
    case AddPassword(_, _, _) => {Users, Passwords}
    case ReplaceHash(_, _, _, _) => {Passwords}
    case RemovePassword(subject, _) => {Users, Passwords, PasskeySet(subject), GoogleSet(subject)}
    case Issue(purpose, _, _) => {Records(purpose), Owners(purpose)}
    case Verify(_, _) => {Records(Verification), Owners(Verification), Users}
    case ResetPassword(_, _, _) => {Records(Purpose.Reset), Owners(Purpose.Reset), Users, Passwords}
    case ResolveIdentity(_, subject, _, _, _) =>
      {Identities, Users, Emails, Handles} + (if subject != "" then {GoogleSet(subject)} else {})
    case Unlink(subject) => {Users, Identities, GoogleSet(subject), Passwords, PasskeySet(subject)}
    case CreateCeremony(_, _) => {Ceremonies}
    case CompleteRegistration(_, subject, _, _, _) => {Ceremonies, Passkeys, Users, PasskeySet(subject)}
    case DeleteCredential(subject, _) => {Passkeys, PasskeySet(subject), Users, Passwords, GoogleSet(subject)}
  }

  // ---------------------------------------------------------------- transaction bodies

  lemma SingleIsUnique(s: set<Id>, x: Id, y: Id)
    requires |s| == 1 && x in s && y in s
    ensures x == y
  {
    assert |s - {x}| == 0;
  }

  function Single(s: set<Id>): (x: Id)
    requires |s| == 1
    ensures s == {x}
  {
    assert s != {};
    assert forall x, y :: x in s && y in s ==> x == y by {
      forall x, y | x in s && y in s ensures x == y { SingleIsUnique(s, x, y); }
    }
    var x :| x in s;
    x
  }

  function Body(op: Op, db: Db): Decision<Reply, Error> {
    match op
    case Register(drawn, email, hash, at) =>
      if email in db.emails.value || drawn.handle in db.handles.value then Abort(Conflict)
      else Commit(UserReply(drawn.id, email))
    case AddPassword(subject, hash, at) =>
      if subject !in db.users.value then Abort(NotFound)
      else if subject in db.passwords.value then Abort(Conflict)
      else Commit(UserReply(subject, db.users.value[subject].email))
    case ReplaceHash(subject, current, replacement, at) =>
      if subject !in db.passwords.value then Abort(Conflict)
      else if db.passwords.value[subject].hash != current then Abort(Conflict)
      else Commit(Nothing)
    case RemovePassword(subject, current) =>
      if subject !in db.users.value then Abort(NotFound)
      else if subject !in db.passwords.value then Abort(NotFound)
      else if db.passwords.value[subject].hash != current then Abort(Conflict)
      else if |At(db.passkeysOf, subject).value| + |At(db.googleOf, subject).value| == 0 then Abort(LastCredential)
      else Commit(Nothing)
    case Issue(purpose, subject, record) =>
      var owners := db.Tokens(purpose).owners.value;
      if record.token in owners && owners[record.token] != subject then Abort(Conflict)
      else Commit(Nothing)
    case Verify(token, at) =>
      if token !in db.verification.owners.value then Abort(NotFound)
      else
        var user := db.verification.owners.value[token];
        if user !in db.verification.records.value || user !in db.users.value then Abort(NotFound)
        else if db.users.value[user].verified || at >= db.verification.records.value[user].expiresAt then Abort(InactiveToken)
        else Commit(UserReply(user, db.users.value[user].email))
    case ResetPassword(token, hash, at) =>
      if token !in db.reset.owners.value then Abort(NotFound)
      else
        var user := db.reset.owners.value[token];
        if user !in db.reset.records.value then Abort(NotFound)
        else if at >= db.reset.records.value[user].expiresAt then Abort(InactiveToken)
        else if user !in db.users.value then Abort(NotFound)
        else Commit(UserReply(user, db.users.value[user].email))
    case ResolveIdentity(provider, subject, email, drawn, at) =>
      if provider in db.identities.value then
        var identity := db.identities.value[provider];
        if subject != "" && identity.user != subject then Abort(Conflict) else Commit(IdReply(identity.user))
      else if subject != "" then
        if subject !in db.users.value then Abort(NotFound)
        else if |At(db.googleOf, subject).value| != 0 then Abort(Conflict)
        else Commit(IdReply(subject))
      else if email in db.emails.value then Abort(LinkRequired)
      else Commit(IdReply(drawn.id))
    case Unlink(subject) =>
      var providers := At(db.googleOf, subject).value;
      if subject !in db.users.value then Abort(NotFound)
      else if |providers| == 0 then Abort(NotFound)
      else if |providers| != 1 then Abort(Conflict)
      else if Single(providers) !in db.identities.value then Abort(NotFound)
      else if db.identities.value[Single(providers)].user != subject then Abort(NotFound)
      else if subject !in db.passwords.value && |At(db.passkeysOf, subject).value| == 0 then Abort(LastCredential)
      else Commit(Nothing)
    case CreateCeremony(token, ceremony) =>
      if token in db.ceremonies.value then Abort(Conflict) else Commit(Nothing)
    case CompleteRegistration(token, subject, credentialId, credential, at) =>
      if !CeremonyOpen(db.ceremonies.value, token, subject, at) then Abort(InactiveCeremony)
      else if subject !in db.users.value then Abort(NotFound)
      else if credentialId in db.passkeys.value then Abort(Conflict)
      else Commit(Nothing)
    case DeleteCredential(subject, credentialId) =>
      if subject !in db.users.value then Abort(NotFound)
      else if credentialId !in db.passkeys.value || db.passkeys.value[credentialId].subject != subject then Abort(NotFound)
      else if |At(db.passkeysOf, subject).value| == 1 && subject !in db.passwords.value
              && |At(db.googleOf, subject).value| == 0 then Abort(LastCredential)
      else Commit(Nothing)
  }

  /** validatePasskeyCeremony for a registration. */
  predicate CeremonyOpen(ceremonies: map<Id, Ceremony>, token: Id, subject: Id, at: Time) {
    && token in ceremonies && ceremonies[token].registration
    && ceremonies[token].subject == subject && at < ceremonies[token].expiresAt
  }

  /** The pipeline built from the values in `view`, applied to the database that EXEC finds. */
  function Write(op: Op, view: Db, db: Db): Db {
    if !Body(op, view).Commit? then db else
    match op
    case Register(drawn, email, hash, at) =>
      db.(users := HSet(db.users, drawn.id, User(email, false, drawn.handle, at)),
          emails := HSet(db.emails, email, drawn.id),
          handles := HSet(db.handles, drawn.handle, drawn.id),
          passwords := HSet(db.passwords, drawn.id, Password(hash, at)))
    case AddPassword(subject, hash, at) =>
      db.(passwords := HSet(db.passwords, subject, Password(hash, at)))
    case ReplaceHash(subject, current, replacement, at) =>
      db.(passwords := HSet(db.passwords, subject, Password(replacement, at)))
    case RemovePassword(subject, current) =>
      db.(passwords := HDel(db.passwords, {subject}))
    case Issue(purpose, subject, record) =>
      var keys := db.Tokens(purpose);
      var previous := view.Tokens(purpose).records.value;
      var owners := if subject in previous then HDel(keys.owners, {previous[subject].token}) else keys.owners;
      db.WithTokens(purpose, TokenKeys(HSet(keys.records, subject, record), HSet(owners, record.token, subject)))
    case Verify(token, at) =>
      var user := view.verification.owners.value[token];
      var record := view.verification.records.value[user];
      db.(users := HSet(db.users, user, view.users.value[user].(verified := true)),
          verification := TokenKeys(HDel(db.verification.records, {user}), HDel(db.verification.owners, {record.token})))
    case ResetPassword(token, hash, at) =>
      var user := view.reset.owners.value[token];
      var record := view.reset.records.value[user];
      db.(passwords := HSet(db.passwords, user, Password(hash, at)),
          reset := TokenKeys(HDel(db.reset.records, {user}), HDel(db.reset.owners, {record.token})))
    case ResolveIdentity(provider, subject, email, drawn, at) =>
      if provider in view.identities.value then
        db.(identities := HSet(db.identities, provider, view.identities.value[provider].(email := email)))
      else if subject != "" then
        db.(identities := HSet(db.identities, provider, Google(subject, email, at)),
            googleOf := SAdd(db.googleOf, subject, provider))
      else
        db.(users := HSet(db.users, drawn.id, User(email, true, drawn.handle, at)),
            emails := HSet(db.emails, email, drawn.id),
            handles := HSet(db.handles, drawn.handle, drawn.id),
            identities := HSet(db.identities, provider, Google(drawn.id, email, at)),
            googleOf := SAdd(db.googleOf, drawn.id, provider))
    case Unlink(subject) =>
      var provider := Single(At(view.googleOf, subject).value);
      db.(identities := HDel(db.identities, {provider}), googleOf := SRem(db.googleOf, subject, provider))
    case CreateCeremony(token, ceremony) =>
      db.(ceremonies := HSet(db.ceremonies, token, ceremony))
    case CompleteRegistration(token, subject, credentialId, credential, at) =>
      db.(ceremonies := HDel(db.ceremonies, {token}),
          passkeys := HSet(db.passkeys, credentialId, Passkey(subject, credential, at)),
          passkeysOf := SAdd(db.passkeysOf, subject, credentialId))
    case DeleteCredential(subject, credentialId) =>
      db.(passkeys := HDel(db.passkeys, {credentialId}), passkeysOf := SRem(db.passkeysOf, subject, credentialId))
  }

  // ---------------------------------------------------------------- consistency

  ghost predicate TokensIndexed(keys: TokenKeys) {
    && (forall user :: user in keys.records.value ==>
          keys.records.value[user].token in keys.owners.value && keys.owners.value[keys.records.value[user].token] == user)
    && (forall token :: token in keys.owners.value ==>
          keys.owners.value[token] in keys.records.value && keys.records.value[keys.owners.value[token]].token == token)
  }

  ghost predicate UsersIndexed(users: map<Id, User>, emails: map<string, Id>, handles: map<string, Id>) {
    && (forall user :: user in users ==>
          && users[user].email in emails && emails[users[user].email] == user
          && users[user].handle in handles && handles[users[user].handle] == user)
    && (forall email :: email in emails ==> emails[email] in users && users[emails[email]].email == email)
    && (forall handle :: handle in handles ==> handles[handle] in users && users[handles[handle]].handle == handle)
  }

  ghost predicate GoogleIndexed(identities: map<Id, Google>, googleOf: Sets<Id>) {
    Inverse(identities, UserOf, googleOf)
  }

  ghost predicate PasskeysIndexed(passkeys: map<Id, Passkey>, passkeysOf: Sets<Id>) {
    Inverse(passkeys, SubjectOf, passkeysOf)
  }

  /** Every secondary index is exactly the inverse of its base hash, and the rows are good. */
  ghost predicate Consistent(db: Db) {
    && UsersIndexed(db.users.value, db.emails.value, db.handles.value)
    && GoogleIndexed(db.identities.value, db.googleOf)
    && PasskeysIndexed(db.passkeys.value, db.passkeysOf)
    && TokensIndexed(db.verification) && TokensIndexed(db.reset)
    && Good(RowsOf(db))
  }

  function Names(db: Db): set<Id> { db.users.value.Keys + db.handles.value.Keys }

  function Draws(op: Op): set<Id> {
    match op
    case Register(drawn, _, _, _) => {drawn.id, drawn.handle}
    case ResolveIdentity(_, _, _, drawn, _) => {drawn.id, drawn.handle}
    case _ => {}
  }

  // ---------------------------------------------------------------- proofs

  ghost predicate AgreeOn(keys: set<Key>, view: Db, db: Db) {
    forall key :: key in keys ==> Get(view, key) == Get(db, key)
  }

  lemma PlainDepends(op: Op, view: Db, db: Db)
    requires op.Register? || op.AddPassword? || op.ReplaceHash? || op.Issue? || op.CreateCeremony? || op.CompleteRegistration?
    requires AgreeOn(Watched(op), view, db)
    ensures Body(op, view) == Body(op, db) && Write(op, view, db) == Write(op, db, db)
  {
    match op
    case Register(_, _, _, _) =>
      assert Get(view, Emails) == Get(db, Emails) && Get(view, Handles) == Get(db, Handles);
    case AddPassword(_, _, _) =>
      assert Get(view, Users) == Get(db, Users) && Get(view, Passwords) == Get(db, Passwords);
    case ReplaceHash(_, _, _, _) =>
      assert Get(view, Passwords) == Get(db, Passwords);
    case Issue(purpose, _, _) =>
      assert Get(view, Records(purpose)) == Get(db, Records(purpose)) && Get(view, Owners(purpose)) == Get(db, Owners(purpose));
    case CreateCeremony(_, _) =>
      assert Get(view, Ceremonies) == Get(db, Ceremonies);
    case CompleteRegistration(_, subject, _, _, _) =>
      assert Get(view, Ceremonies) == Get(db, Ceremonies) && Get(view, Passkeys) == Get(db, Passkeys);
      assert Get(view, Users) == Get(db, Users);
  }

  lemma MethodsDepend(op: Op, view: Db, db: Db)
    requires op.RemovePassword? || op.Unlink? || op.DeleteCredential?
    requires AgreeOn(Watched(op), view, db)
    ensures Body(op, view) == Body(op, db) && Write(op, view, db) == Write(op, db, db)
  {
    MethodsSeen(op, op.subject, view, db);
    assert op.Unlink? ==> Get(view, Identities) == Get(db, Identities);
    assert op.DeleteCredential? ==> Get(view, Passkeys) == Get(db, Passkeys);
  }

  lemma TokensDepend(op: Op, view: Db, db: Db)
    requires op.Verify? || op.ResetPassword?
    requires AgreeOn(Watched(op), view, db)
    ensures Body(op, view) == Body(op, db) && Write(op, view, db) == Write(op, db, db)
  {
    TokensSeen(op, if op.Verify? then Verification else Purpose.Reset, view, db);
  }

  lemma IdentityDepends(op: Op, view: Db, db: Db)
    requires op.ResolveIdentity? && AgreeOn(Watched(op), view, db)
    ensures Body(op, view) == Body(op, db) && Write(op, view, db) == Write(op, db, db)
  {
    IdentitySeen(op, view, db);
  }

  /** A transaction body depends only on the keys it watches. */
  lemma DependsOnWatched(op: Op, view: Db, db: Db)
    requires AgreeOn(Watched(op), view, db)
    ensures Body(op, view) == Body(op, db) && Write(op, view, db) == Write(op, db, db)
  {
    hide Body, Write;
    if op.RemovePassword? || op.Unlink? || op.DeleteCredential? {
      MethodsDepend(op, view, db);
    } else if op.Verify? || op.ResetPassword? {
      TokensDepend(op, view, db);
    } else if op.ResolveIdentity? {
      IdentityDepends(op, view, db);
    } else {
      PlainDepends(op, view, db);
    }
  }

  lemma MethodsSeen(op: Op, subject: Id, view: Db, db: Db)
    requires AgreeOn(Watched(op), view, db)
    requires {Users, Passwords, GoogleSet(subject), PasskeySet(subject)} <= Watched(op)
    ensures view.users == db.users && view.passwords == db.passwords
    ensures At(view.googleOf, subject) == At(db.googleOf, subject) && At(view.passkeysOf, subject) == At(db.passkeysOf, subject)
  {
    assert Get(view, Users) == Get(db, Users) && Get(view, Passwords) == Get(db, Passwords);
    assert Get(view, GoogleSet(subject)) == Get(db, GoogleSet(subject));
    assert Get(view, PasskeySet(subject)) == Get(db, PasskeySet(subject));
  }

  lemma TokensSeen(op: Op, purpose: Purpose, view: Db, db: Db)
    requires AgreeOn(Watched(op), view, db) && {Records(purpose), Owners(purpose), Users} <= Watched(op)
    ensures view.Tokens(purpose) == db.Tokens(purpose) && view.users == db.users
  {
    assert Get(view, Records(purpose)) == Get(db, Records(purpose)) && Get(view, Owners(purpose)) == Get(db, Owners(purpose));
    assert Get(view, Users) == Get(db, Users);
  }

  lemma IdentitySeen(op: Op, view: Db, db: Db)
    requires op.ResolveIdentity? && AgreeOn(Watched(op), view, db)
    ensures view.identities == db.identities && view.users == db.users && view.emails == db.emails
    ensures op.subject != "" ==> At(view.googleOf, op.subject) == At(db.googleOf, op.subject)
  {
    assert Get(view, Identities) == Get(db, Identities) && Get(view, Users) == Get(db, Users) && Get(view, Emails) == Get(db, Emails);
    if op.subject != "" {
      assert GoogleSet(op.subject) in Watched(op);
      assert Get(view, GoogleSet(op.subject)) == Get(db, GoogleSet(op.subject));
    }
  }

  /** What a commit has to establish, apart from `Good`, which the row tables keep by themselves. */
  ghost predicate Committed(op: Op, db: Db, next: Db) {
    && Body(op, db).Commit?
    && Step(RowsOf(db), op) == Done(RowsOf(next), Body(op, db).reply)
    && UsersIndexed(next.users.value, next.emails.value, next.handles.value)
    && GoogleIndexed(next.identities.value, next.googleOf)
    && PasskeysIndexed(next.passkeys.value, next.passkeysOf)
    && TokensIndexed(next.verification) && TokensIndexed(next.reset)
  }

  lemma HolderIsOwner(keys: TokenKeys, token: Id)
    requires TokensIndexed(keys)
    ensures Holder(keys.records.value, token)
         == if token in keys.owners.value then Some(keys.owners.value[token]) else None
  {
    if token in keys.owners.value {
      assert keys.records.value[keys.owners.value[token]].token == token;
    }
  }

  lemma UserAdded(db: Db, id: Id, user: User)
    requires UsersIndexed(db.users.value, db.emails.value, db.handles.value)
    requires user.email !in db.emails.value && user.handle !in db.handles.value && id !in db.users.value
    ensures UsersIndexed(db.users.value[id := user], db.emails.value[user.email := id], db.handles.value[user.handle := id])
    ensures !EmailTaken(RowsOf(db), user.email) && !HandleTaken(RowsOf(db), user.handle)
  {}

  lemma UserVerified(db: Db, id: Id)
    requires UsersIndexed(db.users.value, db.emails.value, db.handles.value) && id in db.users.value
    ensures UsersIndexed(db.users.value[id := db.users.value[id].(verified := true)], db.emails.value, db.handles.value)
  {}

  lemma TokenIssued(keys: TokenKeys, subject: Id, record: OneTime)
    requires TokensIndexed(keys)
    requires record.token in keys.owners.value ==> keys.owners.value[record.token] == subject
    ensures var previous := keys.records.value;
      var owners := if subject in previous then HDel(keys.owners, {previous[subject].token}) else keys.owners;
      TokensIndexed(TokenKeys(HSet(keys.records, subject, record), HSet(owners, record.token, subject)))
    ensures !exists other :: other in keys.records.value && other != subject && keys.records.value[other].token == record.token
  {}

  lemma TokenSpent(keys: TokenKeys, token: Id)
    requires TokensIndexed(keys) && token in keys.owners.value
    ensures var user := keys.owners.value[token];
      && keys.records.value[user].token == token
      && TokensIndexed(TokenKeys(HDel(keys.records, {user}), HDel(keys.owners, {token})))
  {}

  lemma MethodsCounted(db: Db, subject: Id)
    requires Consistent(db)
    ensures At(db.googleOf, subject).value == GoogleOf(db.identities.value, subject)
    ensures At(db.passkeysOf, subject).value == PasskeysOf(db.passkeys.value, subject)
  {}

  lemma RegisterCommits(op: Op, db: Db)
    requires op.Register? && Consistent(db) && Draws(op) !! Names(db) && Body(op, db).Commit?
    ensures Committed(op, db, Write(op, db, db))
  {
    UserAdded(db, op.drawn.id, User(op.email, false, op.drawn.handle, op.at));
  }

  lemma PasswordCommits(op: Op, db: Db)
    requires op.AddPassword? || op.ReplaceHash? || op.RemovePassword?
    requires Consistent(db) && Body(op, db).Commit?
    ensures Committed(op, db, Write(op, db, db))
  {
    MethodsCounted(db, op.subject);
  }

  lemma IssueCommits(op: Op, db: Db)
    requires op.Issue? && Consistent(db) && Body(op, db).Commit?
    ensures Committed(op, db, Write(op, db, db))
  {
    hide UsersIndexed, GoogleIndexed, PasskeysIndexed, TokensIndexed, Good;
    TokenIssued(db.Tokens(op.purpose), op.subject, op.record);
  }

  lemma VerifyCommits(op: Op, db: Db)
    requires op.Verify? && Consistent(db) && Body(op, db).Commit?
    ensures Committed(op, db, Write(op, db, db))
  {
    hide UsersIndexed, GoogleIndexed, PasskeysIndexed, TokensIndexed, Good;
    HolderIsOwner(db.verification, op.token);
    TokenSpent(db.verification, op.token);
    UserVerified(db, db.verification.owners.value[op.token]);
  }

  lemma ResetCommits(op: Op, db: Db)
    requires op.ResetPassword? && Consistent(db) && Body(op, db).Commit?
    ensures Committed(op, db, Write(op, db, db))
  {
    hide UsersIndexed, GoogleIndexed, PasskeysIndexed, TokensIndexed, Good;
    HolderIsOwner(db.reset, op.token);
    TokenSpent(db.reset, op.token);
  }

  lemma ResolveCommits(op: Op, db: Db)
    requires op.ResolveIdentity? && Consistent(db) && Draws(op) !! Names(db) && Body(op, db).Commit?
    ensures Committed(op, db, Write(op, db, db))
  {
    hide TokensIndexed, PasskeysIndexed, Good;
    if op.provider in db.identities.value {
      var identity := db.identities.value[op.provider].(email := op.email);
      InverseUpdate(db.identities.value, UserOf, db.googleOf, op.provider, identity);
    } else if op.subject != "" {
      MethodsCounted(db, op.subject);
      InverseAdd(db.identities.value, UserOf, db.googleOf, op.provider, Google(op.subject, op.email, op.at));
    } else {
      UserAdded(db, op.drawn.id, User(op.email, true, op.drawn.handle, op.at));
      InverseAdd(db.identities.value, UserOf, db.googleOf, op.provider, Google(op.drawn.id, op.email, op.at));
    }
  }

  lemma UnlinkCommits(op: Op, db: Db)
    requires op.Unlink? && Consistent(db) && Body(op, db).Commit?
    ensures Committed(op, db, Write(op, db, db))
  {
    hide TokensIndexed, UsersIndexed, PasskeysIndexed, Good;
    MethodsCounted(db, op.subject);
    InverseRemove(db.identities.value, UserOf, db.googleOf, Single(At(db.googleOf, op.subject).value));
  }

  lemma CeremonyCommits(op: Op, db: Db)
    requires op.CreateCeremony? || op.CompleteRegistration?
    requires Consistent(db) && Body(op, db).Commit?
    ensures Committed(op, db, Write(op, db, db))
  {
    hide TokensIndexed, UsersIndexed, GoogleIndexed, Good;
    if op.CompleteRegistration? {
      InverseAdd(db.passkeys.value, SubjectOf, db.passkeysOf, op.credentialId, Passkey(op.subject, op.credential, op.at));
    }
  }

  lemma DeleteCredentialCommits(op: Op, db: Db)
    requires op.DeleteCredential? && Consistent(db) && Body(op, db).Commit?
    ensures Committed(op, db, Write(op, db, db))
  {
    hide TokensIndexed, UsersIndexed, GoogleIndexed, Good;
    MethodsCounted(db, op.subject);
    InverseRemove(db.passkeys.value, SubjectOf, db.passkeysOf, op.credentialId);
  }

  /** Every commit is one step of the row tables and keeps every index inverse to its base hash. */
  lemma Commits(op: Op, db: Db)
    requires Consistent(db) && Draws(op) !! Names(db) && Body(op, db).Commit?
    ensures Committed(op, db, Write(op, db, db)) && Consistent(Write(op, db, db))
  {
    match op {
      case Register(_, _, _, _) => RegisterCommits(op, db);
      case Issue(_, _, _) => IssueCommits(op, db);
      case Verify(_, _) => VerifyCommits(op, db);
      case ResetPassword(_, _, _) => ResetCommits(op, db);
      case ResolveIdentity(_, _, _, _, _) => ResolveCommits(op, db);
      case Unlink(_) => UnlinkCommits(op, db);
      case CreateCeremony(_, _) => CeremonyCommits(op, db);
      case CompleteRegistration(_, _, _, _, _) => CeremonyCommits(op, db);
      case DeleteCredential(_, _) => DeleteCredentialCommits(op, db);
      case _ => PasswordCommits(op, db);
    }
    StepKeepsGood(RowsOf(db), op);
  }

  lemma PasswordsTick(op: Op, view: Db, db: Db, key: Key)
    requires op.Register? || op.AddPassword? || op.ReplaceHash? || op.RemovePassword?
    ensures Later(Get(db, key), Get(Write(op, view, db), key))
  {}

  lemma TokensTick(op: Op, view: Db, db: Db, key: Key)
    requires op.Issue? || op.Verify? || op.ResetPassword? || op.CreateCeremony?
    ensures Later(Get(db, key), Get(Write(op, view, db), key))
  {}

  lemma ResolveTick(op: Op, view: Db, db: Db, key: Key)
    requires op.ResolveIdentity?
    ensures Later(Get(db, key), Get(Write(op, view, db), key))
  {
    var next := Write(op, view, db);
    if next != db {
      var owner := if op.subject != "" then op.subject else op.drawn.id;
      assert next.googleOf == db.googleOf || next.googleOf == SAdd(db.googleOf, owner, op.provider);
      assert Later(db.users, next.users) && Later(db.emails, next.emails) && Later(db.handles, next.handles);
      assert Later(db.identities, next.identities);
      assert next == db.(users := next.users, emails := next.emails, handles := next.handles,
                         identities := next.identities, googleOf := next.googleOf);
      LinkTicks(db, next, owner, op.provider, key);
    }
  }

  lemma LinkTicks(db: Db, next: Db, owner: Id, provider: Id, key: Key)
    requires Later(db.users, next.users) && Later(db.emails, next.emails) && Later(db.handles, next.handles)
    requires Later(db.identities, next.identities)
    requires next.googleOf == db.googleOf || next.googleOf == SAdd(db.googleOf, owner, provider)
    requires next == db.(users := next.users, emails := next.emails, handles := next.handles,
                         identities := next.identities, googleOf := next.googleOf)
    ensures Later(Get(db, key), Get(next, key))
  {
    if key.GoogleSet? { SetsTick(db.googleOf, owner, provider, key.subject); }
  }

  lemma UnlinkTick(op: Op, view: Db, db: Db, key: Key)
    requires op.Unlink?
    ensures Later(Get(db, key), Get(Write(op, view, db), key))
  {}

  lemma RegistrationTick(op: Op, view: Db, db: Db, key: Key)
    requires op.CompleteRegistration?
    ensures Later(Get(db, key), Get(Write(op, view, db), key))
  {
    if key.PasskeySet? { SetsTick(db.passkeysOf, op.subject, op.credentialId, key.subject); }
  }

  lemma DeletionTick(op: Op, view: Db, db: Db, key: Key)
    requires op.DeleteCredential?
    ensures Later(Get(db, key), Get(Write(op, view, db), key))
  {
    if key.PasskeySet? { SetsTick(db.passkeysOf, op.subject, op.credentialId, key.subject); }
  }

  /** A pipeline changes no key without changing its version. */
  lemma WriteTicks(op: Op, view: Db, db: Db, key: Key)
    ensures Later(Get(db, key), Get(Write(op, view, db), key))
  {
    if op.Register? || op.AddPassword? || op.ReplaceHash? || op.RemovePassword? {
      PasswordsTick(op, view, db, key);
    } else if op.Issue? || op.Verify? || op.ResetPassword? || op.CreateCeremony? {
      TokensTick(op, view, db, key);
    } else if op.ResolveIdentity? {
      ResolveTick(op, view, db, key);
    } else if op.Unlink? {
      UnlinkTick(op, view, db, key);
    } else if op.CompleteRegistration? {
      RegistrationTick(op, view, db, key);
    } else {
      DeletionTick(op, view, db, key);
    }
  }

  lemma WriteNames(op: Op, db: Db)
    ensures Names(Write(op, db, db)) <= Names(db) + Draws(op)
  {}

  lemma TokenRefuses(op: Op, db: Db)
    requires op.Verify? || op.ResetPassword?
    requires Consistent(db) && Body(op, db).Abort?
    ensures Step(RowsOf(db), op) == Refused(Body(op, db).error)
  {
    HolderIsOwner(db.verification, op.token);
    HolderIsOwner(db.reset, op.token);
  }

  lemma RemovePasswordRefuses(op: Op, db: Db)
    requires op.RemovePassword? && Consistent(db) && Body(op, db).Abort?
    ensures Step(RowsOf(db), op) == Refused(Body(op, db).error)
  {
    hide Consistent;
    MethodsCounted(db, op.subject);
  }

  lemma DeleteCredentialRefuses(op: Op, db: Db)
    requires op.DeleteCredential? && Consistent(db) && Body(op, db).Abort?
    ensures Step(RowsOf(db), op) == Refused(Body(op, db).error)
  {
    hide Consistent;
    MethodsCounted(db, op.subject);
  }

  lemma UnlinkRefuses(op: Op, db: Db)
    requires op.Unlink? && Consistent(db) && Body(op, db).Abort?
    ensures Step(RowsOf(db), op) == Refused(Body(op, db).error)
  {
    MethodsCounted(db, op.subject);
    AtMostOneIdentity(db.identities.value, op.subject);
  }

  lemma ResolveRefuses(op: Op, db: Db)
    requires op.ResolveIdentity? && Consistent(db) && Body(op, db).Abort?
    ensures Step(RowsOf(db), op) == Refused(Body(op, db).error)
  {
    if op.provider !in db.identities.value {
      if op.subject != "" {
        MethodsCounted(db, op.subject);
      } else {
        assert db.users.value[db.emails.value[op.email]].email == op.email;
      }
    }
  }

  lemma OthersRefuse(op: Op, db: Db)
    requires op.Register? || op.AddPassword? || op.ReplaceHash? || op.Issue? || op.CreateCeremony? || op.CompleteRegistration?
    requires Consistent(db) && Body(op, db).Abort?
    ensures Step(RowsOf(db), op) == Refused(Body(op, db).error)
  {}

  /** What is refused, decided on the whole database, is what the row tables refuse. */
  lemma Refuses(op: Op, db: Db)
    requires Consistent(db) && Body(op, db).Abort?
    ensures Step(RowsOf(db), op) == Refused(Body(op, db).error)
  {
    hide Body, Step;
    if op.Verify? || op.ResetPassword? {
      TokenRefuses(op, db);
    } else if op.RemovePassword? {
      RemovePasswordRefuses(op, db);
    } else if op.DeleteCredential? {
      DeleteCredentialRefuses(op, db);
    } else if op.Unlink? {
      UnlinkRefuses(op, db);
    } else if op.ResolveIdentity? {
      ResolveRefuses(op, db);
    } else {
      OthersRefuse(op, db);
    }
  }

  // ---------------------------------------------------------------- the store

  const CODE: Code<Db, Key, Content, Op, Reply, Error> := Code(Get, Watched, Body, Write, TransactionConflict)

  function Unguarded(key: Key): Option<Key> { None }

  ghost const SPEC: Spec<Db, Key, Op, Rows, Reply, Error> :=
    Spec(Consistent, Unguarded, Names, Draws, RowsOf, Step, EMPTY, UsersKept)

  lemma CommitIsLawful(op: Op, view: Db, db: Db)
    requires Consistent(db) && Agree(CODE, SPEC, op, view, db) && Draws(op) !! Names(db) && Body(op, view).Commit?
    ensures CommitsAs(CODE, SPEC, op, Body(op, view).reply, db, Write(op, view, db))
  {
    hide Body, Write, Step, Consistent, Watched, Get;
    assert AgreeOn(Watched(op), view, db) by {
      forall key | key in Watched(op) ensures Get(view, key) == Get(db, key) {
        assert CODE.get(view, key) == CODE.get(db, key);
      }
    }
    DependsOnWatched(op, view, db);
    Commits(op, db);
    WriteNames(op, db);
    var next := Write(op, db, db);
    forall key ensures Later(CODE.get(db, key), CODE.get(next, key)) {
      WriteTicks(op, db, db, key);
    }
  }

  lemma SameKeysSameBody(op: Op, view: Db, db: Db)
    requires forall key :: CODE.get(view, key) == CODE.get(db, key)
    ensures Body(op, view) == Body(op, db)
  {
    forall key | key in Watched(op) ensures Get(view, key) == Get(db, key) {
      assert CODE.get(view, key) == CODE.get(db, key);
    }
    DependsOnWatched(op, view, db);
  }

  lemma NeverSkips(op: Op, view: Db)
    ensures !Body(op, view).Skip?
  {}

  lemma RefusalIsLawful(op: Op, view: Db, db: Db)
    requires Consistent(db) && (forall key :: CODE.get(view, key) == CODE.get(db, key))
    ensures RestsAs(SPEC, op, Body(op, view), db)
  {
    hide Body, Step;
    SameKeysSameBody(op, view, db);
    NeverSkips(op, db);
    if Body(op, db).Abort? {
      Refuses(op, db);
    }
  }

  /**
    The account transactions meet the obligations of the WATCH loop, so that under any interleaving the store
    equals the serial replay, on the row tables, of the operations that committed.
  */
  lemma AccountsAreLawful()
    ensures Lawful(CODE, SPEC)
  {
    forall op, view, db | SPEC.consistent(db) && Agree(CODE, SPEC, op, view, db) && SPEC.draws(op) !! SPEC.names(db)
                          && CODE.body(op, view).Commit?
      ensures CommitsAs(CODE, SPEC, op, CODE.body(op, view).reply, db, CODE.write(op, view, db))
    {
      CommitIsLawful(op, view, db);
    }
    forall op, view, db | SPEC.consistent(db) && (forall key :: CODE.get(view, key) == CODE.get(db, key))
      ensures RestsAs(SPEC, op, CODE.body(op, view), db)
    {
      RefusalIsLawful(op, view, db);
    }
    forall a, b, c | SPEC.climbs(a, b) && SPEC.climbs(b, c) ensures SPEC.climbs(a, c) {
      UsersKeptIsTransitive(a, b, c);
    }
    forall rows, op | SPEC.step(rows, op).Done? ensures SPEC.climbs(rows, SPEC.step(rows, op).rows) {
      StepKeepsUsers(rows, op);
    }
  }

  type AccountStore = Store<Db, Key, Content, Op, Rows, Reply, Error>

  method New(ghost drawn: set<Id>, ghost quiet: bool) returns (store: AccountStore)
    ensures fresh(store) && store.Valid() && store.c == CODE && store.s == SPEC
    ensures store.quiet == quiet && store.drawn == drawn && store.log == [] && RowsOf(store.db) == EMPTY
  {
    AccountsAreLawful();
    store := new Store(CODE, SPEC, EMPTY_DB, drawn, quiet);
  }

  /** CreateCeremony is a single HSETNX: however many clients run, it is only refused for a token that is taken. */
  method CreateCeremony(store: AccountStore, token: Id, ceremony: Ceremony) returns (error: Option<Error>)
    requires store.Valid() && store.c == CODE && store.s == SPEC
    modifies store
    ensures store.Steady() && (error.None? || error == Some(Conflict))
    ensures if error.None? then store.MadeLast(Op.CreateCeremony(token, ceremony), Nothing) else store.own == old(store.own)
    ensures store.quiet ==>
      && (error.Some? <==> token in old(RowsOf(store.db)).ceremonies)
      && RowsOf(store.db) == (if error.Some? then old(RowsOf(store.db))
                              else old(RowsOf(store.db)).(ceremonies := old(RowsOf(store.db)).ceremonies[token := ceremony]))
  {
    hide Lawful, Consistent;
    var r, view, committed := store.Command(Op.CreateCeremony(token, ceremony));
    error := if r.Err? then Some(r.error) else None;
  }

  /** In every state of the store, under any interleaving: index agreement and a sign-in method for everyone. */
  lemma StoreInvariant(store: AccountStore)
    requires store.Valid() && store.s == SPEC
    ensures Consistent(store.db)
    ensures Replay(Step, EMPTY, store.log) == Some(RowsOf(store.db))
    ensures forall user :: user in store.db.users.value ==>
      || user in store.db.passwords.value
      || At(store.db.googleOf, user).value != {}
      || At(store.db.passkeysOf, user).value != {}
    ensures forall user :: |At(store.db.googleOf, user).value| <= 1
  {
    forall user ensures |At(store.db.googleOf, user).value| <= 1
      ensures user in store.db.users.value ==>
        || user in store.db.passwords.value
        || At(store.db.googleOf, user).value != {}
        || At(store.db.passkeysOf, user).value != {}
    {
      MethodsCounted(store.db, user);
      AtMostOneIdentity(store.db.identities.value, user);
      assert user in store.db.users.value ==> CanSignIn(RowsOf(store.db), user);
    }
  }
}
