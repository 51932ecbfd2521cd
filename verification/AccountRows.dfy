/**
  Accounts as plain row tables, the way the PostgreSQL adapter stores them: one table per kind of record and
  no secondary indexes. This is the specification that the Redis adapter is proved against.
*/
module AccountRows {
  import opened Common
  import opened Serial
  import Watch

  datatype User = User(email: string, verified: bool, handle: string, createdAt: Time)
  datatype Password = Password(hash: string, updatedAt: Time)
  datatype Google = Google(user: Id, email: string, linkedAt: Time)
  datatype Passkey = Passkey(subject: Id, credential: string, createdAt: Time)
  datatype Ceremony = Ceremony(registration: bool, subject: Id, expiresAt: Time)
  datatype OneTime = OneTime(email: string, token: Id, createdAt: Time, expiresAt: Time)

  /** The two tables of one-time tokens: email verification and password reset. */
  datatype Purpose = Verification | Reset

  datatype Rows = Rows(
    users: map<Id, User>,
    passwords: map<Id, Password>,
    google: map<Id, Google>,
    passkeys: map<Id, Passkey>,
    ceremonies: map<Id, Ceremony>,
    verifications: map<Id, OneTime>,
    resets: map<Id, OneTime>)
  {
    function Tokens(purpose: Purpose): map<Id, OneTime> {
      if purpose == Verification then verifications else resets
    }

    function WithTokens(purpose: Purpose, table: map<Id, OneTime>): Rows {
      if purpose == Verification then this.(verifications := table) else this.(resets := table)
    }
  }

  const EMPTY := Rows(map[], map[], map[], map[], map[], map[], map[])

  datatype Error =
    | Conflict | NotFound | LastCredential | LinkRequired | InactiveToken | InactiveCeremony | TransactionConflict

  /** A new user's identifier and WebAuthn handle, drawn at random by the caller. */
  datatype Drawn = Drawn(id: Id, handle: string)

  datatype Op =
    | Register(drawn: Drawn, email: string, hash: string, at: Time)
    | AddPassword(subject: Id, hash: string, at: Time)
    | ReplaceHash(subject: Id, current: string, replacement: string, at: Time)
    | RemovePassword(subject: Id, current: string)
    | Issue(purpose: Purpose, subject: Id, record: OneTime)
    | Verify(token: Id, at: Time)
    | ResetPassword(token: Id, hash: string, at: Time)
    | ResolveIdentity(provider: Id, subject: Id, email: string, drawn: Drawn, at: Time)
    | Unlink(subject: Id)
    | CreateCeremony(token: Id, ceremony: Ceremony)
    | CompleteRegistration(token: Id, subject: Id, credentialId: Id, credential: string, at: Time)
    | DeleteCredential(subject: Id, credentialId: Id)

  datatype Reply = UserReply(id: Id, email: string) | IdReply(id: Id) | Nothing

  type Change = Outcome<Rows, Reply, Error>

  // ---------------------------------------------------------------- queries

  function UserOf(identity: Google): Id { identity.user }

  function SubjectOf(passkey: Passkey): Id { passkey.subject }

  ghost function GoogleOf(google: map<Id, Google>, subject: Id): set<Id> {
    Watch.Owned(google, UserOf, subject)
  }

  ghost function PasskeysOf(passkeys: map<Id, Passkey>, subject: Id): set<Id> {
    Watch.Owned(passkeys, SubjectOf, subject)
  }

  /** SELECT user_id ... WHERE token_hash = token. */
  ghost function Holder(table: map<Id, OneTime>, token: Id): Option<Id> {
    if exists user :: user in table && table[user].token == token
    then var user :| user in table && table[user].token == token; Some(user)
    else None
  }

  ghost predicate EmailTaken(rows: Rows, email: string) {
    exists user :: user in rows.users && rows.users[user].email == email
  }

  ghost predicate HandleTaken(rows: Rows, handle: string) {
    exists user :: user in rows.users && rows.users[user].handle == handle
  }

  // ---------------------------------------------------------------- operations

  ghost function Step(rows: Rows, op: Op): Change {
    match op
    case Register(drawn, email, hash, at) => StepRegister(rows, drawn, email, hash, at)
    case AddPassword(subject, hash, at) =>
      if subject !in rows.users then Refused(NotFound)
      else if subject in rows.passwords then Refused(Conflict)
      else Done(rows.(passwords := rows.passwords[subject := Password(hash, at)]),
                UserReply(subject, rows.users[subject].email))
    case ReplaceHash(subject, current, replacement, at) =>
      if subject !in rows.passwords || rows.passwords[subject].hash != current then Refused(Conflict)
      else Done(rows.(passwords := rows.passwords[subject := Password(replacement, at)]), Nothing)
    case RemovePassword(subject, current) => StepRemovePassword(rows, subject, current)
    case Issue(purpose, subject, record) => StepIssue(rows, purpose, subject, record)
    case Verify(token, at) => StepVerify(rows, token, at)
    case ResetPassword(token, hash, at) => StepResetPassword(rows, token, hash, at)
    case ResolveIdentity(provider, subject, email, drawn, at) => StepResolve(rows, provider, subject, email, drawn, at)
    case Unlink(subject) => StepUnlink(rows, subject)
    case CreateCeremony(token, ceremony) =>
      if token in rows.ceremonies then Refused(Conflict)
      else Done(rows.(ceremonies := rows.ceremonies[token := ceremony]), Nothing)
    case CompleteRegistration(token, subject, credentialId, credential, at) =>
      StepCompleteRegistration(rows, token, subject, credentialId, credential, at)
    case DeleteCredential(subject, credentialId) => StepDeleteCredential(rows, subject, credentialId)
  }

  ghost function StepRegister(rows: Rows, drawn: Drawn, email: string, hash: string, at: Time): Change {
    if EmailTaken(rows, email) || HandleTaken(rows, drawn.handle) || drawn.id in rows.users then Refused(Conflict)
    else Done(rows.(users := rows.users[drawn.id := User(email, false, drawn.handle, at)],
                    passwords := rows.passwords[drawn.id := Password(hash, at)]),
              UserReply(drawn.id, email))
  }

  ghost function StepRemovePassword(rows: Rows, subject: Id, current: string): Change {
    if subject !in rows.users || subject !in rows.passwords then Refused(NotFound)
    else if rows.passwords[subject].hash != current then Refused(Conflict)
    else if GoogleOf(rows.google, subject) == {} && PasskeysOf(rows.passkeys, subject) == {} then Refused(LastCredential)
    else Done(rows.(passwords := rows.passwords - {subject}), Nothing)
  }

  ghost function StepIssue(rows: Rows, purpose: Purpose, subject: Id, record: OneTime): Change {
    var table := rows.Tokens(purpose);
    if exists other :: other in table && other != subject && table[other].token == record.token then Refused(Conflict)
    else Done(rows.WithTokens(purpose, table[subject := record]), Nothing)
  }

  ghost function StepVerify(rows: Rows, token: Id, at: Time): Change {
    match Holder(rows.verifications, token)
    case None => Refused(NotFound)
    case Some(user) =>
      if user !in rows.users then Refused(NotFound)
      else if rows.users[user].verified || at >= rows.verifications[user].expiresAt then Refused(InactiveToken)
      else Done(rows.(users := rows.users[user := rows.users[user].(verified := true)],
                      verifications := rows.verifications - {user}),
                UserReply(user, rows.users[user].email))
  }

  ghost function StepResetPassword(rows: Rows, token: Id, hash: string, at: Time): Change {
    match Holder(rows.resets, token)
    case None => Refused(NotFound)
    case Some(user) =>
      if at >= rows.resets[user].expiresAt then Refused(InactiveToken)
      else if user !in rows.users then Refused(NotFound)
      else Done(rows.(passwords := rows.passwords[user := Password(hash, at)], resets := rows.resets - {user}),
                UserReply(user, rows.users[user].email))
  }

  ghost function StepResolve(rows: Rows, provider: Id, subject: Id, email: string, drawn: Drawn, at: Time): Change {
    if provider in rows.google then
      var identity := rows.google[provider];
      if subject != "" && identity.user != subject then Refused(Conflict)
      else Done(rows.(google := rows.google[provider := identity.(email := email)]), IdReply(identity.user))
    else if subject != "" then
      if subject !in rows.users then Refused(NotFound)
      else if GoogleOf(rows.google, subject) != {} then Refused(Conflict)
      else Done(rows.(google := rows.google[provider := Google(subject, email, at)]), IdReply(subject))
    else if EmailTaken(rows, email) then Refused(LinkRequired)
    else if HandleTaken(rows, drawn.handle) || drawn.id in rows.users then Refused(LinkRequired)
    else Done(rows.(users := rows.users[drawn.id := User(email, true, drawn.handle, at)],
                    google := rows.google[provider := Google(drawn.id, email, at)]),
              IdReply(drawn.id))
  }

  ghost function StepUnlink(rows: Rows, subject: Id): Change {
    if subject !in rows.users || GoogleOf(rows.google, subject) == {} then Refused(NotFound)
    else if subject !in rows.passwords && PasskeysOf(rows.passkeys, subject) == {} then Refused(LastCredential)
    else Done(rows.(google := rows.google - GoogleOf(rows.google, subject)), Nothing)
  }

  ghost function StepCompleteRegistration(
      rows: Rows, token: Id, subject: Id, credentialId: Id, credential: string, at: Time): Change {
    if token !in rows.ceremonies || !rows.ceremonies[token].registration
       || rows.ceremonies[token].subject != subject || at >= rows.ceremonies[token].expiresAt
    then Refused(InactiveCeremony)
    else if subject !in rows.users then Refused(NotFound)
    else if credentialId in rows.passkeys then Refused(Conflict)
    else Done(rows.(ceremonies := rows.ceremonies - {token},
                    passkeys := rows.passkeys[credentialId := Passkey(subject, credential, at)]),
              Nothing)
  }

  ghost function StepDeleteCredential(rows: Rows, subject: Id, credentialId: Id): Change {
    if subject !in rows.users || credentialId !in rows.passkeys || rows.passkeys[credentialId].subject != subject
    then Refused(NotFound)
    else if |PasskeysOf(rows.passkeys, subject)| == 1 && subject !in rows.passwords && GoogleOf(rows.google, subject) == {}
    then Refused(LastCredential)
    else Done(rows.(passkeys := rows.passkeys - {credentialId}), Nothing)
  }

  /** The PostgreSQL adapter counts the subject's methods before it looks at the credential. */
  ghost function PostgresDelete(rows: Rows, subject: Id, credentialId: Id): Change {
    if subject !in rows.users then Refused(NotFound)
    else if |PasskeysOf(rows.passkeys, subject)| == 1 && subject !in rows.passwords && GoogleOf(rows.google, subject) == {}
    then Refused(LastCredential)
    else if credentialId !in rows.passkeys || rows.passkeys[credentialId].subject != subject then Refused(NotFound)
    else Done(rows.(passkeys := rows.passkeys - {credentialId}), Nothing)
  }

  /**
    The adapters differ exactly when a user whose only method is one passkey names a credential of somebody else:
    then both refuse, with different errors.
  */
  lemma AdaptersDifferOnForeignCredential(rows: Rows, subject: Id, credentialId: Id)
    ensures StepDeleteCredential(rows, subject, credentialId) != PostgresDelete(rows, subject, credentialId) <==>
      && subject in rows.users
      && |PasskeysOf(rows.passkeys, subject)| == 1 && subject !in rows.passwords && GoogleOf(rows.google, subject) == {}
      && credentialId !in PasskeysOf(rows.passkeys, subject)
    ensures StepDeleteCredential(rows, subject, credentialId).Done? <==> PostgresDelete(rows, subject, credentialId).Done?
  {}

  // ---------------------------------------------------------------- sign-in methods

  ghost predicate CanSignIn(rows: Rows, user: Id) {
    || user in rows.passwords
    || GoogleOf(rows.google, user) != {}
    || PasskeysOf(rows.passkeys, user) != {}
  }

  ghost predicate TokensDistinct(table: map<Id, OneTime>) {
    forall u, v :: u in table && v in table && table[u].token == table[v].token ==> u == v
  }

  ghost predicate UsersDistinct(users: map<Id, User>) {
    && (forall u, v :: u in users && v in users && users[u].email == users[v].email ==> u == v)
    && (forall u, v :: u in users && v in users && users[u].handle == users[v].handle ==> u == v)
  }

  ghost predicate OneIdentityEach(google: map<Id, Google>) {
    forall p, q :: p in google && q in google && google[p].user == google[q].user ==> p == q
  }

  lemma AtMostOneIdentity(google: map<Id, Google>, subject: Id)
    requires OneIdentityEach(google)
    ensures |GoogleOf(google, subject)| <= 1
  {
    var mine := GoogleOf(google, subject);
    if mine != {} {
      var p :| p in mine;
      assert mine == {p};
    }
  }

  ghost predicate OwnersExist(rows: Rows) {
    && rows.passwords.Keys <= rows.users.Keys
    && (forall p :: p in rows.google ==> rows.google[p].user in rows.users)
    && (forall c :: c in rows.passkeys ==> rows.passkeys[c].subject in rows.users)
  }

  ghost predicate EveryoneSignsIn(rows: Rows) {
    forall user :: user in rows.users ==> CanSignIn(rows, user)
  }

  /** What every reachable set of account rows satisfies. */
  ghost predicate Good(rows: Rows) {
    && EveryoneSignsIn(rows) && OwnersExist(rows) && OneIdentityEach(rows.google) && UsersDistinct(rows.users)
    && TokensDistinct(rows.verifications) && TokensDistinct(rows.resets)
  }

  /** Removing one of several passkeys leaves another. */
  lemma OtherPasskey(passkeys: map<Id, Passkey>, subject: Id, credentialId: Id)
    requires credentialId in PasskeysOf(passkeys, subject)
    requires |PasskeysOf(passkeys, subject)| != 1
    ensures PasskeysOf(passkeys - {credentialId}, subject) != {}
  {
    var mine := PasskeysOf(passkeys, subject);
    assert |mine - {credentialId}| == |mine| - 1;
    var other :| other in mine - {credentialId};
    assert other in PasskeysOf(passkeys - {credentialId}, subject);
  }

  /** Users keep their methods when no table of methods loses a row of theirs. */
  lemma MethodsKept(rows: Rows, next: Rows, user: Id)
    requires CanSignIn(rows, user)
    requires user in rows.passwords ==> user in next.passwords
    requires GoogleOf(rows.google, user) <= GoogleOf(next.google, user)
    requires PasskeysOf(rows.passkeys, user) <= PasskeysOf(next.passkeys, user)
    ensures CanSignIn(next, user)
  {
    if user !in rows.passwords {
      if p :| p in GoogleOf(rows.google, user) {
        assert p in GoogleOf(next.google, user);
      } else {
        var c :| c in PasskeysOf(rows.passkeys, user);
        assert c in PasskeysOf(next.passkeys, user);
      }
    }
  }

  lemma NewUserIsDistinct(rows: Rows, id: Id, user: User)
    requires UsersDistinct(rows.users) && !EmailTaken(rows, user.email) && !HandleTaken(rows, user.handle)
    ensures UsersDistinct(rows.users[id := user])
  {}

  lemma RegisterKeepsGood(rows: Rows, drawn: Drawn, email: string, hash: string, at: Time)
    requires Good(rows) && StepRegister(rows, drawn, email, hash, at).Done?
    ensures Good(StepRegister(rows, drawn, email, hash, at).rows)
  {
    var next := StepRegister(rows, drawn, email, hash, at).rows;
    NewUserIsDistinct(rows, drawn.id, next.users[drawn.id]);
    forall user | user in rows.users ensures CanSignIn(next, user) {
      MethodsKept(rows, next, user);
    }
  }

  lemma RemovePasswordKeepsGood(rows: Rows, subject: Id, current: string)
    requires Good(rows) && StepRemovePassword(rows, subject, current).Done?
    ensures Good(StepRemovePassword(rows, subject, current).rows)
  {
    var next := StepRemovePassword(rows, subject, current).rows;
    forall user | user in rows.users ensures CanSignIn(next, user) {
      if user != subject { MethodsKept(rows, next, user); }
    }
  }

  lemma ResetKeepsGood(rows: Rows, token: Id, hash: string, at: Time)
    requires Good(rows) && StepResetPassword(rows, token, hash, at).Done?
    ensures Good(StepResetPassword(rows, token, hash, at).rows)
  {
    var next := StepResetPassword(rows, token, hash, at).rows;
    forall user | user in rows.users ensures CanSignIn(next, user) {
      MethodsKept(rows, next, user);
    }
  }

  lemma LinkKeepsGood(rows: Rows, provider: Id, identity: Google)
    requires Good(rows) && identity.user in rows.users
    requires provider in rows.google ==> rows.google[provider].user == identity.user
    requires provider !in rows.google ==> GoogleOf(rows.google, identity.user) == {}
    ensures Good(rows.(google := rows.google[provider := identity]))
  {
    var next := rows.(google := rows.google[provider := identity]);
    forall p | p in rows.google && rows.google[p].user == identity.user ensures p == provider {
      assert p in GoogleOf(rows.google, identity.user);
    }
    NewIdentityIsDistinct(rows.google, provider, identity);
    forall user | user in rows.users ensures CanSignIn(next, user) {
      IdentitiesGrow(rows.google, provider, identity, user);
      MethodsKept(rows, next, user);
    }
  }

  /** The only identity of a new user is the one linked. */
  lemma NewIdentityIsDistinct(google: map<Id, Google>, provider: Id, identity: Google)
    requires OneIdentityEach(google)
    requires forall p :: p in google && p != provider ==> google[p].user != identity.user
    ensures OneIdentityEach(google[provider := identity])
  {}

  /** A link adds to the identities of its user. */
  lemma IdentitiesGrow(google: map<Id, Google>, provider: Id, identity: Google, user: Id)
    requires provider in google ==> google[provider].user == identity.user
    ensures GoogleOf(google, user) <= GoogleOf(google[provider := identity], user)
    ensures provider in GoogleOf(google[provider := identity], identity.user)
  {}

  lemma SignUpKeepsGood(rows: Rows, provider: Id, email: string, drawn: Drawn, at: Time)
    requires Good(rows) && provider !in rows.google && StepResolve(rows, provider, "", email, drawn, at).Done?
    ensures Good(StepResolve(rows, provider, "", email, drawn, at).rows)
  {
    var next := StepResolve(rows, provider, "", email, drawn, at).rows;
    NewUserIsDistinct(rows, drawn.id, next.users[drawn.id]);
    NewIdentityIsDistinct(rows.google, provider, next.google[provider]);
    forall user | user in next.users ensures CanSignIn(next, user) {
      IdentitiesGrow(rows.google, provider, next.google[provider], user);
      if user != drawn.id { MethodsKept(rows, next, user); }
    }
  }

  lemma UnlinkKeepsGood(rows: Rows, subject: Id)
    requires Good(rows) && StepUnlink(rows, subject).Done?
    ensures Good(StepUnlink(rows, subject).rows)
  {
    var next := StepUnlink(rows, subject).rows;
    forall user | user in rows.users ensures CanSignIn(next, user) {
      if user != subject { MethodsKept(rows, next, user); }
    }
  }

  lemma CompleteRegistrationKeepsGood(rows: Rows, token: Id, subject: Id, credentialId: Id, credential: string, at: Time)
    requires Good(rows) && StepCompleteRegistration(rows, token, subject, credentialId, credential, at).Done?
    ensures Good(StepCompleteRegistration(rows, token, subject, credentialId, credential, at).rows)
  {
    var next := StepCompleteRegistration(rows, token, subject, credentialId, credential, at).rows;
    forall user | user in rows.users ensures CanSignIn(next, user) {
      MethodsKept(rows, next, user);
    }
  }

  lemma DeleteCredentialKeepsGood(rows: Rows, subject: Id, credentialId: Id)
    requires Good(rows) && StepDeleteCredential(rows, subject, credentialId).Done?
    ensures Good(StepDeleteCredential(rows, subject, credentialId).rows)
  {
    var next := StepDeleteCredential(rows, subject, credentialId).rows;
    forall user | user in rows.users ensures CanSignIn(next, user) {
      if user != subject {
        MethodsKept(rows, next, user);
      } else if |PasskeysOf(rows.passkeys, subject)| != 1 {
        OtherPasskey(rows.passkeys, subject, credentialId);
      }
    }
  }

  lemma AddPasswordKeepsGood(rows: Rows, subject: Id, password: Password)
    requires Good(rows) && subject in rows.users
    ensures Good(rows.(passwords := rows.passwords[subject := password]))
  {
    forall user | user in rows.users ensures CanSignIn(rows.(passwords := rows.passwords[subject := password]), user) {
      MethodsKept(rows, rows.(passwords := rows.passwords[subject := password]), user);
    }
  }

  lemma CeremonyKeepsGood(rows: Rows, ceremonies: map<Id, Ceremony>)
    requires Good(rows)
    ensures Good(rows.(ceremonies := ceremonies))
  {
    forall user | user in rows.users ensures CanSignIn(rows.(ceremonies := ceremonies), user) {
      MethodsKept(rows, rows.(ceremonies := ceremonies), user);
    }
  }

  lemma IssueKeepsGood(rows: Rows, purpose: Purpose, subject: Id, record: OneTime)
    requires Good(rows) && StepIssue(rows, purpose, subject, record).Done?
    ensures Good(StepIssue(rows, purpose, subject, record).rows)
  {
    var next := StepIssue(rows, purpose, subject, record).rows;
    assert TokensDistinct(next.verifications) && TokensDistinct(next.resets);
    forall user | user in rows.users ensures CanSignIn(next, user) {
      MethodsKept(rows, next, user);
    }
  }

  lemma VerifyKeepsGood(rows: Rows, token: Id, at: Time)
    requires Good(rows) && StepVerify(rows, token, at).Done?
    ensures Good(StepVerify(rows, token, at).rows)
  {
    var next := StepVerify(rows, token, at).rows;
    forall user | user in rows.users ensures CanSignIn(next, user) {
      MethodsKept(rows, next, user);
    }
  }

  /** No committed operation takes a user's last sign-in method or links a second Google identity. */
  lemma StepKeepsGood(rows: Rows, op: Op)
    requires Good(rows) && Step(rows, op).Done?
    ensures Good(Step(rows, op).rows)
  {
    match op
    case Register(drawn, email, hash, at) => RegisterKeepsGood(rows, drawn, email, hash, at);
    case AddPassword(subject, hash, at) => AddPasswordKeepsGood(rows, subject, Password(hash, at));
    case ReplaceHash(subject, _, hash, at) => AddPasswordKeepsGood(rows, subject, Password(hash, at));
    case RemovePassword(subject, current) => RemovePasswordKeepsGood(rows, subject, current);
    case ResetPassword(token, hash, at) => ResetKeepsGood(rows, token, hash, at);
    case ResolveIdentity(provider, subject, email, drawn, at) =>
      if provider in rows.google || subject != "" {
        LinkKeepsGood(rows, provider, Step(rows, op).rows.google[provider]);
      } else {
        SignUpKeepsGood(rows, provider, email, drawn, at);
      }
    case Unlink(subject) => UnlinkKeepsGood(rows, subject);
    case CompleteRegistration(token, subject, id, credential, at) =>
      CompleteRegistrationKeepsGood(rows, token, subject, id, credential, at);
    case DeleteCredential(subject, credentialId) => DeleteCredentialKeepsGood(rows, subject, credentialId);
    case Issue(purpose, subject, record) => IssueKeepsGood(rows, purpose, subject, record);
    case Verify(token, at) => VerifyKeepsGood(rows, token, at);
    case CreateCeremony(token, ceremony) => CeremonyKeepsGood(rows, rows.ceremonies[token := ceremony]);
  }

  /** Users are never deleted, and their email and handle never change. */
  ghost predicate UsersKept(before: Rows, after: Rows) {
    forall user :: user in before.users ==>
      && user in after.users
      && after.users[user].email == before.users[user].email
      && after.users[user].handle == before.users[user].handle
  }

  lemma UsersKeptIsTransitive(a: Rows, b: Rows, c: Rows)
    requires UsersKept(a, b) && UsersKept(b, c)
    ensures UsersKept(a, c)
  {}

  lemma StepKeepsUsers(rows: Rows, op: Op)
    requires Step(rows, op).Done?
    ensures UsersKept(rows, Step(rows, op).rows)
  {
    if op.Unlink? || op.DeleteCredential? || op.CompleteRegistration? {
      assert Step(rows, op).rows.users == rows.users;
    }
  }

  /**
    In every state reachable by committed operations every user has at least one sign-in method and
    at most one Google identity.
  */
  lemma {:induction false} EveryUserCanSignIn(log: seq<Entry<Op, Reply>>)
    requires Replay(Step, EMPTY, log).Some?
    ensures Good(Replay(Step, EMPTY, log).value)
  {
    if |log| > 0 {
      EveryUserCanSignIn(log[..|log| - 1]);
      StepKeepsGood(Replay(Step, EMPTY, log[..|log| - 1]).value, log[|log| - 1].op);
    }
  }

  /** What `Good` says of one user. */
  lemma NobodyIsLockedOut(log: seq<Entry<Op, Reply>>, user: Id)
    requires Replay(Step, EMPTY, log).Some? && user in Replay(Step, EMPTY, log).value.users
    ensures var rows := Replay(Step, EMPTY, log).value;
      && (user in rows.passwords || GoogleOf(rows.google, user) != {} || PasskeysOf(rows.passkeys, user) != {})
      && |GoogleOf(rows.google, user)| <= 1
  {
    EveryUserCanSignIn(log);
    AtMostOneIdentity(Replay(Step, EMPTY, log).value.google, user);
    assert CanSignIn(Replay(Step, EMPTY, log).value, user);
  }
}
