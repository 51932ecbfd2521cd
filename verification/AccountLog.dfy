/** What the log of commits tells about every account record, and hence what each operation answers. */
module AccountLog {
  import opened Common
  import opened Serial
  import opened AccountRows
  import opened AccountHistory

  // ---------------------------------------------------------------- records

  /** The commit signed a new user up with an identity that was not linked before. */
  predicate SignsUp(log: History, n: nat, user: Id)
    requires n < |log|
  {
    && log[n].op.ResolveIdentity? && log[n].op.subject == "" && log[n].op.drawn.id == user
    && GoogleTold(log[..n], log[n].op.provider).None?
  }

  /** A user is the one who registered or signed up; verified by signing up or by redeeming a verification token. */
  function UserTold(log: History, user: Id): Option<User> {
    if |log| == 0 then None
    else
      var n, before := |log| - 1, UserTold(log[..|log| - 1], user);
      var op := log[n].op;
      if op.Register? && op.drawn.id == user then Some(User(op.email, false, op.drawn.handle, op.at))
      else if SignsUp(log, n, user) then Some(User(op.email, true, op.drawn.handle, op.at))
      else if op.Verify? && log[n].reply.UserReply? && log[n].reply.id == user && before.Some? then
        Some(User(before.value.email, true, before.value.handle, before.value.createdAt))
      else before
  }

  /** The password stored last and not removed since. */
  function PasswordTold(log: History, user: Id): Option<Password> {
    if |log| == 0 then None
    else
      var last := log[|log| - 1];
      var before := PasswordTold(log[..|log| - 1], user);
      match last.op
      case Register(drawn, _, hash, at) => if drawn.id == user then Some(Password(hash, at)) else before
      case AddPassword(subject, hash, at) => if subject == user then Some(Password(hash, at)) else before
      case ReplaceHash(subject, _, replacement, at) => if subject == user then Some(Password(replacement, at)) else before
      case RemovePassword(subject, _) => if subject == user then None else before
      case ResetPassword(_, hash, at) =>
        if last.reply.UserReply? && last.reply.id == user then Some(Password(hash, at)) else before
      case _ => before
  }

  /** An identity belongs to whoever linked it first since it was last unlinked, and has the address seen last. */
  function GoogleTold(log: History, provider: Id): Option<Google> {
    if |log| == 0 then None
    else
      var op, before := log[|log| - 1].op, GoogleTold(log[..|log| - 1], provider);
      if op.ResolveIdentity? && op.provider == provider then
        if before.Some? then Some(Google(before.value.user, op.email, before.value.linkedAt))
        else Some(Google(if op.subject == "" then op.drawn.id else op.subject, op.email, op.at))
      else if op.Unlink? && before.Some? && before.value.user == op.subject then None
      else before
  }

  /** A passkey is the one whose registration was completed, until it is deleted. */
  function PasskeyTold(log: History, credentialId: Id): Option<Passkey> {
    if |log| == 0 then None
    else
      match log[|log| - 1].op
      case CompleteRegistration(_, subject, id, credential, at) =>
        if id == credentialId then Some(Passkey(subject, credential, at)) else PasskeyTold(log[..|log| - 1], credentialId)
      case DeleteCredential(_, id) => if id == credentialId then None else PasskeyTold(log[..|log| - 1], credentialId)
      case _ => PasskeyTold(log[..|log| - 1], credentialId)
  }

  /** A ceremony is pending from its creation until a registration consumes it. */
  function CeremonyTold(log: History, token: Id): Option<Ceremony> {
    if |log| == 0 then None
    else
      match log[|log| - 1].op
      case CreateCeremony(created, ceremony) => if created == token then Some(ceremony) else CeremonyTold(log[..|log| - 1], token)
      case CompleteRegistration(consumed, _, _, _, _) =>
        if consumed == token then None else CeremonyTold(log[..|log| - 1], token)
      case _ => CeremonyTold(log[..|log| - 1], token)
  }

  // ---------------------------------------------------------------- one commit

  ghost predicate Follows(rows: Rows, entry: Entry<Op, Reply>) {
    Step(rows, entry.op).Done? && Step(rows, entry.op).reply == entry.reply
  }

  lemma UsersKeptBy(rows: Rows, op: Op)
    requires Step(rows, op).Done? && !op.Register? && !op.Verify? && !op.ResolveIdentity?
    ensures Step(rows, op).rows.users == rows.users
  {}

  lemma GoogleKeptBy(rows: Rows, op: Op)
    requires Step(rows, op).Done? && !op.ResolveIdentity? && !op.Unlink?
    ensures Step(rows, op).rows.google == rows.google
  {}

  lemma PasskeysKeptBy(rows: Rows, op: Op)
    requires Step(rows, op).Done? && !op.CompleteRegistration? && !op.DeleteCredential?
    ensures Step(rows, op).rows.passkeys == rows.passkeys
  {}

  lemma CeremoniesKeptBy(rows: Rows, op: Op)
    requires Step(rows, op).Done? && !op.CompleteRegistration? && !op.CreateCeremony?
    ensures Step(rows, op).rows.ceremonies == rows.ceremonies
  {}

  lemma StepTellsUser(rows: Rows, entry: Entry<Op, Reply>, user: Id)
    requires Follows(rows, entry)
    ensures var op := entry.op;
      Lookup(Step(rows, op).rows.users, user) ==
      if op.Register? && op.drawn.id == user then Some(User(op.email, false, op.drawn.handle, op.at))
      else if op.ResolveIdentity? && op.subject == "" && op.drawn.id == user && op.provider !in rows.google then
        Some(User(op.email, true, op.drawn.handle, op.at))
      else if op.Verify? && entry.reply.UserReply? && entry.reply.id == user && user in rows.users then
        Some(User(rows.users[user].email, true, rows.users[user].handle, rows.users[user].createdAt))
      else Lookup(rows.users, user)
  {
    hide StepRemovePassword, StepIssue, StepResetPassword, StepUnlink, StepCompleteRegistration, StepDeleteCredential,
         EmailTaken, HandleTaken, GoogleOf, Holder;
    if !entry.op.Register? && !entry.op.Verify? && !entry.op.ResolveIdentity? {
      UsersKeptBy(rows, entry.op);
    }
  }

  lemma StepTellsPassword(rows: Rows, entry: Entry<Op, Reply>, user: Id)
    requires Follows(rows, entry)
    ensures var op := entry.op;
      Lookup(Step(rows, op).rows.passwords, user) ==
      if op.Register? && op.drawn.id == user then Some(Password(op.hash, op.at))
      else if op.AddPassword? && op.subject == user then Some(Password(op.hash, op.at))
      else if op.ReplaceHash? && op.subject == user then Some(Password(op.replacement, op.at))
      else if op.RemovePassword? && op.subject == user then None
      else if op.ResetPassword? && entry.reply.UserReply? && entry.reply.id == user then Some(Password(op.hash, op.at))
      else Lookup(rows.passwords, user)
  {
    hide StepVerify, StepIssue, StepResolve, StepUnlink, StepCompleteRegistration, StepDeleteCredential, EmailTaken,
         HandleTaken, GoogleOf, PasskeysOf, Holder;
    if !entry.op.Register? && !entry.op.AddPassword? && !entry.op.ReplaceHash? && !entry.op.RemovePassword?
       && !entry.op.ResetPassword? {
      PasswordsKept(rows, entry.op);
    }
  }

  lemma StepTellsGoogle(rows: Rows, entry: Entry<Op, Reply>, provider: Id)
    requires Follows(rows, entry)
    ensures var op := entry.op;
      Lookup(Step(rows, op).rows.google, provider) ==
      if op.ResolveIdentity? && op.provider == provider then
        Some(if provider in rows.google then Google(rows.google[provider].user, op.email, rows.google[provider].linkedAt)
             else Google(if op.subject == "" then op.drawn.id else op.subject, op.email, op.at))
      else if op.Unlink? && provider in rows.google && rows.google[provider].user == op.subject then None
      else Lookup(rows.google, provider)
  {
    hide StepRegister, StepVerify, StepIssue, StepResetPassword, StepRemovePassword, StepCompleteRegistration,
         StepDeleteCredential, EmailTaken, HandleTaken, PasskeysOf, Holder;
    if !entry.op.ResolveIdentity? && !entry.op.Unlink? {
      GoogleKeptBy(rows, entry.op);
    }
  }

  lemma StepTellsPasskey(rows: Rows, entry: Entry<Op, Reply>, credentialId: Id)
    requires Follows(rows, entry)
    ensures var op := entry.op;
      Lookup(Step(rows, op).rows.passkeys, credentialId) ==
      if op.CompleteRegistration? && op.credentialId == credentialId then Some(Passkey(op.subject, op.credential, op.at))
      else if op.DeleteCredential? && op.credentialId == credentialId then None
      else Lookup(rows.passkeys, credentialId)
  {
    hide StepRegister, StepVerify, StepIssue, StepResetPassword, StepRemovePassword, StepResolve, StepUnlink,
         EmailTaken, HandleTaken, PasskeysOf, Holder;
    if !entry.op.CompleteRegistration? && !entry.op.DeleteCredential? {
      PasskeysKeptBy(rows, entry.op);
    }
  }

  lemma StepTellsCeremony(rows: Rows, entry: Entry<Op, Reply>, token: Id)
    requires Follows(rows, entry)
    ensures var op := entry.op;
      Lookup(Step(rows, op).rows.ceremonies, token) ==
      if op.CreateCeremony? && op.token == token then Some(op.ceremony)
      else if op.CompleteRegistration? && op.token == token then None
      else Lookup(rows.ceremonies, token)
  {
    hide StepRegister, StepVerify, StepIssue, StepResetPassword, StepRemovePassword, StepResolve, StepUnlink,
         StepDeleteCredential;
    if !entry.op.CompleteRegistration? && !entry.op.CreateCeremony? {
      CeremoniesKeptBy(rows, entry.op);
    }
  }

  // ---------------------------------------------------------------- all commits

  /** What the rows say of five records is what the log tells. */
  ghost predicate Told(log: History, user: Id, provider: Id, credentialId: Id, token: Id) {
    && Replay(Step, EMPTY, log).Some?
    && var rows := Replay(Step, EMPTY, log).value;
    && Lookup(rows.users, user) == UserTold(log, user) && Lookup(rows.passwords, user) == PasswordTold(log, user)
    && Lookup(rows.google, provider) == GoogleTold(log, provider)
    && Lookup(rows.passkeys, credentialId) == PasskeyTold(log, credentialId)
    && Lookup(rows.ceremonies, token) == CeremonyTold(log, token)
  }

  /** Over every history each user, password, identity, passkey and pending ceremony is what the log tells. */
  lemma {:induction false} RecordsAreTold(log: History, user: Id, provider: Id, credentialId: Id, token: Id)
    requires Replay(Step, EMPTY, log).Some?
    ensures Told(log, user, provider, credentialId, token)
  {
    if |log| > 0 {
      hide Step;
      var before, last := log[..|log| - 1], log[|log| - 1];
      RecordsAreTold(before, user, provider, credentialId, token);
      var rows := Replay(Step, EMPTY, before).value;
      StepTellsUser(rows, last, user);
      StepTellsPassword(rows, last, user);
      StepTellsGoogle(rows, last, provider);
      StepTellsPasskey(rows, last, credentialId);
      StepTellsCeremony(rows, last, token);
      if last.op.ResolveIdentity? {
        RecordsAreTold(before, user, last.op.provider, credentialId, token);
      }
    }
  }

  // ---------------------------------------------------------------- answers

  ghost predicate HasGoogle(log: History, user: Id) {
    exists provider :: GoogleTold(log, provider).Some? && GoogleTold(log, provider).value.user == user
  }

  ghost predicate HasPasskey(log: History, user: Id) {
    exists id :: PasskeyTold(log, id).Some? && PasskeyTold(log, id).value.subject == user
  }

  /** Some other passkey than this one. */
  ghost predicate HasOtherPasskey(log: History, user: Id, credentialId: Id) {
    exists id :: id != credentialId && PasskeyTold(log, id).Some? && PasskeyTold(log, id).value.subject == user
  }

  ghost predicate Taken(log: History, drawn: Drawn, email: string) {
    || UserTold(log, drawn.id).Some?
    || exists user :: UserTold(log, user).Some?
         && (UserTold(log, user).value.email == email || UserTold(log, user).value.handle == drawn.handle)
  }

  /** The user's latest one-time token is this one. */
  predicate Holds(purpose: Purpose, log: History, user: Id, token: Id) {
    Latest(purpose, log, user).Some? && Latest(purpose, log, user).value.token == token
  }

  /** What redeeming answers, by the user who holds the token and that user's record. */
  ghost predicate RedemptionAnswer(purpose: Purpose, log: History, token: Id, at: Time, answer: Change) {
    && ((forall user :: !Holds(purpose, log, user, token)) ==> answer == Refused(NotFound))
    && forall user :: Holds(purpose, log, user, token) ==>
         var expired := at >= Latest(purpose, log, user).value.expiresAt;
         if UserTold(log, user).None? then answer == Refused(if purpose == Verification || !expired then NotFound else InactiveToken)
         else if expired || (purpose == Verification && UserTold(log, user).value.verified) then answer == Refused(InactiveToken)
         else answer.Done? && answer.reply == UserReply(user, UserTold(log, user).value.email)
  }

  /** What resolving an identity answers. */
  ghost predicate ResolveAnswer(log: History, provider: Id, subject: Id, email: string, drawn: Drawn, answer: Change) {
    if GoogleTold(log, provider).Some? then
      var owner := GoogleTold(log, provider).value.user;
      if subject != "" && subject != owner then answer == Refused(Conflict) else answer.Done? && answer.reply == IdReply(owner)
    else if subject != "" then
      if UserTold(log, subject).None? then answer == Refused(NotFound)
      else if HasGoogle(log, subject) then answer == Refused(Conflict)
      else answer.Done? && answer.reply == IdReply(subject)
    else if Taken(log, drawn, email) then answer == Refused(LinkRequired)
    else answer.Done? && answer.reply == IdReply(drawn.id)
  }

  /** The answer that the log alone calls for. */
  ghost predicate CalledFor(log: History, op: Op, answer: Change) {
    match op
    case Register(drawn, email, _, _) =>
      if Taken(log, drawn, email) then answer == Refused(Conflict)
      else answer.Done? && answer.reply == UserReply(drawn.id, email)
    case AddPassword(subject, _, _) =>
      if UserTold(log, subject).None? then answer == Refused(NotFound)
      else if PasswordTold(log, subject).Some? then answer == Refused(Conflict)
      else answer.Done? && answer.reply == UserReply(subject, UserTold(log, subject).value.email)
    case ReplaceHash(subject, current, _, _) =>
      if PasswordTold(log, subject).Some? && PasswordTold(log, subject).value.hash == current
      then answer.Done? && answer.reply == Nothing else answer == Refused(Conflict)
    case RemovePassword(subject, current) =>
      if UserTold(log, subject).None? || PasswordTold(log, subject).None? then answer == Refused(NotFound)
      else if PasswordTold(log, subject).value.hash != current then answer == Refused(Conflict)
      else if HasGoogle(log, subject) || HasPasskey(log, subject) then answer.Done? && answer.reply == Nothing
      else answer == Refused(LastCredential)
    case Issue(purpose, subject, record) =>
      if exists other :: other != subject && Holds(purpose, log, other, record.token) then answer == Refused(Conflict)
      else answer.Done? && answer.reply == Nothing
    case Verify(token, at) => RedemptionAnswer(Verification, log, token, at, answer)
    case ResetPassword(token, _, at) => RedemptionAnswer(Purpose.Reset, log, token, at, answer)
    case ResolveIdentity(provider, subject, email, drawn, _) => ResolveAnswer(log, provider, subject, email, drawn, answer)
    case Unlink(subject) =>
      if UserTold(log, subject).None? || !HasGoogle(log, subject) then answer == Refused(NotFound)
      else if PasswordTold(log, subject).Some? || HasPasskey(log, subject) then answer.Done? && answer.reply == Nothing
      else answer == Refused(LastCredential)
    case CreateCeremony(token, _) =>
      if CeremonyTold(log, token).Some? then answer == Refused(Conflict) else answer.Done? && answer.reply == Nothing
    case CompleteRegistration(token, subject, id, _, at) =>
      if CeremonyTold(log, token).None? || !CeremonyTold(log, token).value.registration
         || CeremonyTold(log, token).value.subject != subject || at >= CeremonyTold(log, token).value.expiresAt
      then answer == Refused(InactiveCeremony)
      else if UserTold(log, subject).None? then answer == Refused(NotFound)
      else if PasskeyTold(log, id).Some? then answer == Refused(Conflict)
      else answer.Done? && answer.reply == Nothing
    case DeleteCredential(subject, id) =>
      if UserTold(log, subject).None? || PasskeyTold(log, id).None? || PasskeyTold(log, id).value.subject != subject
      then answer == Refused(NotFound)
      else if PasswordTold(log, subject).Some? || HasGoogle(log, subject) || HasOtherPasskey(log, subject, id)
      then answer.Done? && answer.reply == Nothing
      else answer == Refused(LastCredential)
  }

  /** All records at once. */
  ghost predicate AllTold(log: History) {
    && Replay(Step, EMPTY, log).Some?
    && var rows := Replay(Step, EMPTY, log).value;
    && (forall user :: Lookup(rows.users, user) == UserTold(log, user))
    && (forall user :: Lookup(rows.passwords, user) == PasswordTold(log, user))
    && (forall provider :: Lookup(rows.google, provider) == GoogleTold(log, provider))
    && (forall id :: Lookup(rows.passkeys, id) == PasskeyTold(log, id))
    && (forall token :: Lookup(rows.ceremonies, token) == CeremonyTold(log, token))
    && (forall purpose, user :: Lookup(rows.Tokens(purpose), user) == Latest(purpose, log, user))
    && Good(rows)
  }

  lemma EverythingIsTold(log: History)
    requires Replay(Step, EMPTY, log).Some?
    ensures AllTold(log)
  {
    hide Step, Good;
    var rows := Replay(Step, EMPTY, log).value;
    forall user ensures Lookup(rows.users, user) == UserTold(log, user) && Lookup(rows.passwords, user) == PasswordTold(log, user) {
      RecordsAreTold(log, user, "", "", "");
    }
    forall provider ensures Lookup(rows.google, provider) == GoogleTold(log, provider) {
      RecordsAreTold(log, "", provider, "", "");
    }
    forall id ensures Lookup(rows.passkeys, id) == PasskeyTold(log, id) { RecordsAreTold(log, "", "", id, ""); }
    forall token ensures Lookup(rows.ceremonies, token) == CeremonyTold(log, token) { RecordsAreTold(log, "", "", "", token); }
    forall purpose, user ensures Lookup(rows.Tokens(purpose), user) == Latest(purpose, log, user) {
      TokensAreLatest(purpose, log, user);
    }
    EveryUserCanSignIn(log);
  }

  lemma GoogleAlike(log: History, user: Id)
    requires AllTold(log)
    ensures HasGoogle(log, user) <==> GoogleOf(Replay(Step, EMPTY, log).value.google, user) != {}
  {
    hide Step, Good, UserTold, PasswordTold, PasskeyTold, CeremonyTold, Latest, GoogleTold;
    var google := Replay(Step, EMPTY, log).value.google;
    if provider :| provider in GoogleOf(google, user) {
      assert Lookup(google, provider) == GoogleTold(log, provider);
    }
    if HasGoogle(log, user) {
      var provider :| GoogleTold(log, provider).Some? && GoogleTold(log, provider).value.user == user;
      assert Lookup(google, provider) == GoogleTold(log, provider);
      assert provider in GoogleOf(google, user);
    }
  }

  lemma PasskeysAlike(log: History, user: Id)
    requires AllTold(log)
    ensures HasPasskey(log, user) <==> PasskeysOf(Replay(Step, EMPTY, log).value.passkeys, user) != {}
  {
    hide Step, Good, UserTold, PasswordTold, PasskeyTold, CeremonyTold, Latest, GoogleTold;
    var passkeys := Replay(Step, EMPTY, log).value.passkeys;
    if id :| id in PasskeysOf(passkeys, user) {
      assert Lookup(passkeys, id) == PasskeyTold(log, id);
    }
    if HasPasskey(log, user) {
      var id :| PasskeyTold(log, id).Some? && PasskeyTold(log, id).value.subject == user;
      assert Lookup(passkeys, id) == PasskeyTold(log, id);
      assert id in PasskeysOf(passkeys, user);
    }
  }

  lemma OtherPasskeyAlike(log: History, user: Id, credentialId: Id)
    requires AllTold(log) && credentialId in PasskeysOf(Replay(Step, EMPTY, log).value.passkeys, user)
    ensures HasOtherPasskey(log, user, credentialId) <==> |PasskeysOf(Replay(Step, EMPTY, log).value.passkeys, user)| != 1
  {
    hide Step, Good, UserTold, PasswordTold, PasskeyTold, CeremonyTold, Latest, GoogleTold;
    var passkeys := Replay(Step, EMPTY, log).value.passkeys;
    var mine := PasskeysOf(passkeys, user);
    assert |mine - {credentialId}| == |mine| - 1;
    if id :| id in mine - {credentialId} {
      assert Lookup(passkeys, id) == PasskeyTold(log, id);
    }
    if HasOtherPasskey(log, user, credentialId) {
      var id :| id != credentialId && PasskeyTold(log, id).Some? && PasskeyTold(log, id).value.subject == user;
      assert Lookup(passkeys, id) == PasskeyTold(log, id);
      assert id in mine - {credentialId};
    }
  }

  lemma TakenAlike(log: History, drawn: Drawn, email: string)
    requires AllTold(log)
    ensures var rows := Replay(Step, EMPTY, log).value;
      Taken(log, drawn, email) <==> EmailTaken(rows, email) || HandleTaken(rows, drawn.handle) || drawn.id in rows.users
  {
    hide Step, Good, UserTold, PasswordTold, PasskeyTold, CeremonyTold, Latest, GoogleTold;
    var users := Replay(Step, EMPTY, log).value.users;
    assert Lookup(users, drawn.id) == UserTold(log, drawn.id);
    if user :| UserTold(log, user).Some?
               && (UserTold(log, user).value.email == email || UserTold(log, user).value.handle == drawn.handle) {
      assert Lookup(users, user) == UserTold(log, user);
    }
    if user :| user in users && (users[user].email == email || users[user].handle == drawn.handle) {
      assert Lookup(users, user) == UserTold(log, user);
    }
  }

  lemma HeldAlike(purpose: Purpose, log: History, token: Id)
    requires AllTold(log)
    ensures var table := Replay(Step, EMPTY, log).value.Tokens(purpose);
      && (Holder(table, token).None? ==> forall user :: !Holds(purpose, log, user, token))
      && (forall user :: Holds(purpose, log, user, token) ==>
            Holder(table, token) == Some(user) && user in table && Some(table[user]) == Latest(purpose, log, user))
      && (Holder(table, token).Some? ==> Holds(purpose, log, Holder(table, token).value, token))
  {
    hide Step, UserTold, PasswordTold, PasskeyTold, CeremonyTold, Latest, GoogleTold;
    var table := Replay(Step, EMPTY, log).value.Tokens(purpose);
    assert TokensDistinct(table);
    forall user ensures Holds(purpose, log, user, token) <==> user in table && table[user].token == token {
      assert Lookup(table, user) == Latest(purpose, log, user);
    }
    forall user | Holds(purpose, log, user, token)
      ensures Holder(table, token) == Some(user) && user in table && Some(table[user]) == Latest(purpose, log, user)
    {
      assert Lookup(table, user) == Latest(purpose, log, user);
    }
  }

  lemma RedemptionAnswers(log: History, op: Op)
    requires AllTold(log) && (op.Verify? || op.ResetPassword?)
    ensures CalledFor(log, op, Step(Replay(Step, EMPTY, log).value, op))
  {
    hide Good, UserTold, PasswordTold, PasskeyTold, CeremonyTold, Latest, GoogleTold;
    var purpose := if op.Verify? then Verification else Purpose.Reset;
    HeldAlike(purpose, log, op.token);
    var rows := Replay(Step, EMPTY, log).value;
    if Holder(rows.Tokens(purpose), op.token).Some? {
      var user := Holder(rows.Tokens(purpose), op.token).value;
      assert Lookup(rows.users, user) == UserTold(log, user);
    }
  }

  lemma MethodAnswers(log: History, op: Op)
    requires AllTold(log) && (op.RemovePassword? || op.Unlink? || op.DeleteCredential?)
    ensures CalledFor(log, op, Step(Replay(Step, EMPTY, log).value, op))
  {
    hide Good, UserTold, PasswordTold, PasskeyTold, CeremonyTold, Latest, GoogleTold, HasGoogle, HasPasskey,
         HasOtherPasskey;
    var rows := Replay(Step, EMPTY, log).value;
    GoogleAlike(log, op.subject);
    PasskeysAlike(log, op.subject);
    assert Lookup(rows.users, op.subject) == UserTold(log, op.subject);
    assert Lookup(rows.passwords, op.subject) == PasswordTold(log, op.subject);
    if op.DeleteCredential? {
      assert Lookup(rows.passkeys, op.credentialId) == PasskeyTold(log, op.credentialId);
      if op.credentialId in PasskeysOf(rows.passkeys, op.subject) {
        OtherPasskeyAlike(log, op.subject, op.credentialId);
      }
    }
  }

  lemma IdentityAnswers(log: History, op: Op)
    requires AllTold(log) && (op.ResolveIdentity? || op.Register?)
    ensures CalledFor(log, op, Step(Replay(Step, EMPTY, log).value, op))
  {
    hide Good, UserTold, PasswordTold, PasskeyTold, CeremonyTold, Latest, GoogleTold, HasGoogle, Taken;
    var rows := Replay(Step, EMPTY, log).value;
    TakenAlike(log, op.drawn, op.email);
    if op.ResolveIdentity? {
      assert Lookup(rows.google, op.provider) == GoogleTold(log, op.provider);
      assert Lookup(rows.users, op.subject) == UserTold(log, op.subject);
      GoogleAlike(log, op.subject);
    }
  }

  lemma IssueAnswers(log: History, op: Op)
    requires AllTold(log) && op.Issue?
    ensures CalledFor(log, op, Step(Replay(Step, EMPTY, log).value, op))
  {
    hide Good, UserTold, PasswordTold, PasskeyTold, CeremonyTold, Latest, GoogleTold;
    var table := Replay(Step, EMPTY, log).value.Tokens(op.purpose);
    forall other ensures Holds(op.purpose, log, other, op.record.token) <==> other in table && table[other].token == op.record.token {
      assert Lookup(table, other) == Latest(op.purpose, log, other);
    }
  }

  lemma OtherAnswers(log: History, op: Op)
    requires AllTold(log)
    requires op.AddPassword? || op.ReplaceHash? || op.CreateCeremony? || op.CompleteRegistration?
    ensures CalledFor(log, op, Step(Replay(Step, EMPTY, log).value, op))
  {
    hide Good, UserTold, PasswordTold, PasskeyTold, CeremonyTold, Latest, GoogleTold;
    var rows := Replay(Step, EMPTY, log).value;
    if op.CreateCeremony? || op.CompleteRegistration? {
      assert Lookup(rows.ceremonies, op.token) == CeremonyTold(log, op.token);
    }
    if !op.CreateCeremony? {
      assert Lookup(rows.users, op.subject) == UserTold(log, op.subject);
      assert Lookup(rows.passwords, op.subject) == PasswordTold(log, op.subject);
    }
    if op.CompleteRegistration? {
      assert Lookup(rows.passkeys, op.credentialId) == PasskeyTold(log, op.credentialId);
    }
  }

  /** What every operation answers after any history is told by the log alone. */
  lemma Answers(log: History, op: Op)
    requires Replay(Step, EMPTY, log).Some?
    ensures CalledFor(log, op, Step(Replay(Step, EMPTY, log).value, op))
  {
    hide Step, CalledFor, AllTold;
    EverythingIsTold(log);
    match op
    case Verify(_, _) => RedemptionAnswers(log, op);
    case ResetPassword(_, _, _) => RedemptionAnswers(log, op);
    case RemovePassword(_, _) => MethodAnswers(log, op);
    case Unlink(_) => MethodAnswers(log, op);
    case DeleteCredential(_, _) => MethodAnswers(log, op);
    case ResolveIdentity(_, _, _, _, _) => IdentityAnswers(log, op);
    case Register(_, _, _, _) => IdentityAnswers(log, op);
    case Issue(_, _, _) => IssueAnswers(log, op);
    case _ => OtherAnswers(log, op);
  }

  /** The same of a call that was exactly one step. */
  lemma StepAnswers(log: History, rows: Rows, after: Rows, op: Op, r: Result<Reply, Error>)
    requires Replay(Step, EMPTY, log) == Some(rows) && Stepped(Step, rows, after, op, r)
    ensures CalledFor(log, op, if r.Ok? then Done(after, r.value) else Refused(r.error))
  {
    hide CalledFor;
    Answers(log, op);
  }

  // ---------------------------------------------------------------- redemptions

  /** Commit `k` issued this record to the user. */
  predicate IssuedAt(purpose: Purpose, log: History, k: nat, user: Id, record: OneTime) {
    k < |log| && Issues(purpose, log[k].op) && log[k].op.subject == user && log[k].op.record == record
  }

  lemma {:induction false} LatestWasIssued(purpose: Purpose, log: History, user: Id) returns (k: nat)
    requires Latest(purpose, log, user).Some?
    ensures IssuedAt(purpose, log, k, user, Latest(purpose, log, user).value)
  {
    var last := log[|log| - 1];
    if Issues(purpose, last.op) && last.op.subject == user {
      k := |log| - 1;
    } else {
      k := LatestWasIssued(purpose, log[..|log| - 1], user);
    }
  }

  /**
    A commit that redeems a token was for the user it replied, whose latest token it was, issued by an earlier commit
    and not expired at the time the redemption names.
  */
  lemma RedeemsUnexpired(purpose: Purpose, log: History, n: nat) returns (k: nat)
    requires Replay(Step, EMPTY, log).Some? && n < |log| && Redeems(purpose, log[n].op)
    ensures log[n].reply.UserReply?
    ensures var user := log[n].reply.id;
      && Holds(purpose, log[..n], user, log[n].op.token)
      && var record := Latest(purpose, log[..n], user).value;
      && log[n].op.at < record.expiresAt && k < n && IssuedAt(purpose, log, k, user, record)
  {
    hide Step, Latest;
    Prefix(Step, EMPTY, log, n + 1);
    assert log[..n + 1][..|log[..n + 1]| - 1] == log[..n];
    Answers(log[..n], log[n].op);
    var user :| Holds(purpose, log[..n], user, log[n].op.token);
    k := LatestWasIssued(purpose, log[..n], user);
  }
}
