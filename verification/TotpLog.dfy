/** What the log of commits tells about every authenticator-app record, and hence what each operation answers. */
module TotpLog {
  import opened Common
  import opened Serial
  import opened TotpRows
  import opened TotpHistory

  /**
    The credential has the secret of the enrollment that was begun last before it was enabled, the counter that was
    confirmed or accepted last, and the time at which it was first disabled since.
  */
  function CredentialTold(log: History, subject: Id): Option<Credential> {
    if |log| == 0 then None
    else
      var last, earlier := log[|log| - 1], log[..|log| - 1];
      var before := CredentialTold(earlier, subject);
      if Enables(last, subject) && Latest(earlier, subject).Some? then
        Some(Credential(Latest(earlier, subject).value.secret, last.op.at, Some(last.op.counter), None))
      else if before.None? then None
      else if Accepts(last, subject) then Some(before.value.(counter := Some(last.op.counter)))
      else if last.op.Disable? && last.op.subject == subject && before.value.disabledAt.None? then
        Some(before.value.(disabledAt := Some(last.op.at)))
      else before
  }

  /** A recovery code is one of those of the last enabling, unused until a recovery names it, and gone once disabled. */
  function CodeTold(log: History, code: CodeKey): Option<Status> {
    if |log| == 0 then None
    else
      var last, before := log[|log| - 1], CodeTold(log[..|log| - 1], code);
      if Enables(last, code.subject) then if code.hash in last.op.hashes then Some(Unused) else None
      else if last.op.Disable? && last.op.subject == code.subject then None
      else if last.op.CompleteRecovery? && last.op.hash == code.hash && last.reply == For(code.subject) then Some(Used(last.op.at))
      else before
  }

  /** A challenge is pending from its creation until it is completed. */
  function ChallengeTold(log: History, token: Digest): Option<Challenge> {
    if |log| == 0 then None
    else
      var last := log[|log| - 1];
      if last.op.CreateChallenge? && last.op.token == token then Some(last.op.challenge)
      else if Completes(last, token) then None
      else ChallengeTold(log[..|log| - 1], token)
  }

  function Lookup<K, V>(table: map<K, V>, key: K): Option<V> { if key in table then Some(table[key]) else None }

  // ---------------------------------------------------------------- one commit

  lemma StepTellsCredential(rows: Rows, entry: Entry<Op, Reply>, subject: Id)
    requires Step(rows, entry.op).Done? && Step(rows, entry.op).reply == entry.reply
    ensures Enables(entry, subject) ==> subject in rows.enrollments
    ensures Lookup(Step(rows, entry.op).rows.credentials, subject) ==
      if Enables(entry, subject) then
        Some(Credential(rows.enrollments[subject].secret, entry.op.at, Some(entry.op.counter), None))
      else if subject !in rows.credentials then None
      else if Accepts(entry, subject) then Some(rows.credentials[subject].(counter := Some(entry.op.counter)))
      else if entry.op.Disable? && entry.op.subject == subject && rows.credentials[subject].disabledAt.None? then
        Some(rows.credentials[subject].(disabledAt := Some(entry.op.at)))
      else Some(rows.credentials[subject])
  {}

  lemma StepTellsCode(rows: Rows, entry: Entry<Op, Reply>, code: CodeKey)
    requires Step(rows, entry.op).Done? && Step(rows, entry.op).reply == entry.reply
    ensures Lookup(Step(rows, entry.op).rows.codes, code) ==
      if Enables(entry, code.subject) then if code.hash in entry.op.hashes then Some(Unused) else None
      else if entry.op.Disable? && entry.op.subject == code.subject then None
      else if entry.op.CompleteRecovery? && entry.op.hash == code.hash && entry.reply == For(code.subject) then Some(Used(entry.op.at))
      else Lookup(rows.codes, code)
  {}

  lemma StepTellsChallenge(rows: Rows, entry: Entry<Op, Reply>, token: Digest)
    requires Step(rows, entry.op).Done? && Step(rows, entry.op).reply == entry.reply
    ensures Lookup(Step(rows, entry.op).rows.challenges, token) ==
      if entry.op.CreateChallenge? && entry.op.token == token then Some(entry.op.challenge)
      else if Completes(entry, token) then None
      else Lookup(rows.challenges, token)
  {}

  // ---------------------------------------------------------------- all commits

  /** Over every history each credential, recovery code and pending challenge is what the log tells. */
  lemma {:induction false} RecordsAreTold(log: History, subject: Id, code: CodeKey, token: Digest)
    requires Replay(Step, EMPTY, log).Some?
    ensures var rows := Replay(Step, EMPTY, log).value;
      && Lookup(rows.credentials, subject) == CredentialTold(log, subject)
      && Lookup(rows.codes, code) == CodeTold(log, code)
      && Lookup(rows.challenges, token) == ChallengeTold(log, token)
  {
    if |log| > 0 {
      hide Step;
      var before, last := log[..|log| - 1], log[|log| - 1];
      var rows := Replay(Step, EMPTY, before).value;
      RecordsAreTold(before, subject, code, token);
      EnrollmentIsLatest(before, subject);
      StepTellsCredential(rows, last, subject);
      StepTellsCode(rows, last, code);
      StepTellsChallenge(rows, last, token);
    }
  }

  // ---------------------------------------------------------------- answers

  /** The answer that the log alone calls for. */
  predicate CalledFor(log: History, op: Op, answer: Change) {
    match op
    case BeginEnrollment(_, _) => answer.Done? && answer.reply == Nothing
    case Enable(subject, _, _, at) =>
      if Latest(log, subject).None? then answer == Refused(NotFound)
      else if Latest(log, subject).value.expiresAt <= at then answer == Refused(InactiveEnrollment)
      else answer.Done? && answer.reply == Nothing
    case Disable(subject, _) =>
      if CredentialTold(log, subject).None? then answer == Refused(NotFound) else answer.Done? && answer.reply == Nothing
    case CreateChallenge(token, _) =>
      if ChallengeTold(log, token).Some? then answer == Refused(Conflict) else answer.Done? && answer.reply == Nothing
    case CompleteCode(token, counter, at) =>
      if ChallengeTold(log, token).None? || ChallengeTold(log, token).value.expiresAt <= at
      then answer == Refused(InactiveChallenge)
      else
        var subject := ChallengeTold(log, token).value.subject;
        CodeAnswer(CredentialTold(log, subject), counter, subject, answer)
    case CompleteRecovery(token, hash, at) =>
      if ChallengeTold(log, token).None? || ChallengeTold(log, token).value.expiresAt <= at
      then answer == Refused(InactiveChallenge)
      else
        var subject := ChallengeTold(log, token).value.subject;
        if CodeTold(log, CodeKey(subject, hash)) == Some(Unused) then answer.Done? && answer.reply == For(subject)
        else answer == Refused(InvalidCode)
  }

  /** A counter is accepted for an enabled credential whose recorded counter it exceeds. */
  predicate CodeAnswer(credential: Option<Credential>, counter: nat, subject: Id, answer: Change) {
    if credential.None? || credential.value.disabledAt.Some?
       || (credential.value.counter.Some? && credential.value.counter.value >= counter)
    then answer == Refused(InvalidCode)
    else answer.Done? && answer.reply == For(subject)
  }

  /** What every operation answers after any history is told by the log alone. */
  lemma Answers(log: History, op: Op)
    requires Replay(Step, EMPTY, log).Some?
    ensures CalledFor(log, op, Step(Replay(Step, EMPTY, log).value, op))
  {
    hide Latest, CredentialTold, CodeTold, ChallengeTold, Without, Fresh, Replay;
    var rows := Replay(Step, EMPTY, log).value;
    match op
    case BeginEnrollment(_, _) =>
    case Enable(subject, _, _, _) => EnrollmentIsLatest(log, subject);
    case Disable(subject, _) => RecordsAreTold(log, subject, CodeKey("", ZERO_HASH), ZERO_HASH);
    case CreateChallenge(token, _) => RecordsAreTold(log, "", CodeKey("", ZERO_HASH), token);
    case CompleteCode(token, _, _) =>
      RecordsAreTold(log, "", CodeKey("", ZERO_HASH), token);
      if token in rows.challenges {
        RecordsAreTold(log, rows.challenges[token].subject, CodeKey("", ZERO_HASH), token);
      }
    case CompleteRecovery(token, hash, _) =>
      RecordsAreTold(log, "", CodeKey("", ZERO_HASH), token);
      if token in rows.challenges {
        RecordsAreTold(log, "", CodeKey(rows.challenges[token].subject, hash), token);
      }
  }

  // ---------------------------------------------------------------- well-formed rows

  /** validEnrollment */
  predicate ValidEnrollment(enrollment: Enrollment) {
    !Blank(enrollment.secret) && enrollment.createdAt != ZERO_TIME && enrollment.createdAt < enrollment.expiresAt
  }

  /** validCredential */
  predicate ValidCredential(credential: Credential) { !Blank(credential.secret) && credential.enabledAt != ZERO_TIME }

  /** validChallenge */
  predicate ValidChallenge(challenge: Challenge) {
    !Blank(challenge.subject) && challenge.createdAt != ZERO_TIME && challenge.createdAt < challenge.expiresAt
  }

  ghost predicate Sane(rows: Rows) {
    && (forall subject :: subject in rows.enrollments ==> ValidEnrollment(rows.enrollments[subject]))
    && (forall subject :: subject in rows.credentials ==> ValidCredential(rows.credentials[subject]))
    && (forall token :: token in rows.challenges ==> ValidChallenge(rows.challenges[token]))
  }

  /** The operation stores well-formed records only. */
  predicate Proper(op: Op) {
    match op
    case BeginEnrollment(_, enrollment) => ValidEnrollment(enrollment)
    case Enable(_, _, _, at) => at != ZERO_TIME
    case CreateChallenge(_, challenge) => ValidChallenge(challenge)
    case _ => true
  }

  lemma StepStaysSane(rows: Rows, op: Op)
    requires Sane(rows) && Proper(op) && Step(rows, op).Done?
    ensures Sane(Step(rows, op).rows)
  {
    hide Blank, Without, Fresh;
  }

  /** Over histories of operations that store well-formed records only, every record is well-formed. */
  lemma {:induction false} RecordsStaySane(log: History)
    requires Replay(Step, EMPTY, log).Some? && forall n :: 0 <= n < |log| ==> Proper(log[n].op)
    ensures Sane(Replay(Step, EMPTY, log).value)
  {
    if |log| > 0 {
      hide Step, Proper;
      RecordsStaySane(log[..|log| - 1]);
      StepStaysSane(Replay(Step, EMPTY, log[..|log| - 1]).value, log[|log| - 1].op);
    }
  }
}
