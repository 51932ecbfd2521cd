/** Authenticator-app MFA as row tables, the way the PostgreSQL adapter stores it, with pending challenges only. */
module TotpRows {
  import opened Common
  import opened Serial

  /** A 32-byte hash in hexadecimal. */
  type Digest = s: string | |s| == 64 witness ZERO_HASH

  datatype Enrollment = Enrollment(secret: string, createdAt: Time, expiresAt: Time)

  datatype Credential = Credential(secret: string, enabledAt: Time, counter: Option<nat>, disabledAt: Option<Time>)

  datatype Challenge = Challenge(subject: Id, createdAt: Time, expiresAt: Time)

  /** The key of a recovery code. */
  datatype CodeKey = CodeKey(subject: Id, hash: Digest)

  datatype Status = Unused | Used(at: Time)

  datatype Rows = Rows(
    enrollments: map<Id, Enrollment>, credentials: map<Id, Credential>,
    codes: map<CodeKey, Status>, challenges: map<Digest, Challenge>)

  const EMPTY := Rows(map[], map[], map[], map[])

  datatype Error = NotFound | InactiveEnrollment | InactiveChallenge | InvalidCode | Conflict | TransactionConflict

  datatype Op =
    | BeginEnrollment(subject: Id, enrollment: Enrollment)
    | Enable(subject: Id, counter: nat, hashes: set<Digest>, at: Time)
    | Disable(subject: Id, at: Time)
    | CreateChallenge(token: Digest, challenge: Challenge)
    | CompleteCode(token: Digest, counter: nat, at: Time)
    | CompleteRecovery(token: Digest, hash: Digest, at: Time)

  datatype Reply = Nothing | For(subject: Id)

  type Change = Outcome<Rows, Reply, Error>

  predicate Pending(rows: Rows, token: Digest, at: Time) {
    token in rows.challenges && at < rows.challenges[token].expiresAt
  }

  /** DELETE ... WHERE subject_id = subject. */
  function Without(codes: map<CodeKey, Status>, subject: Id): map<CodeKey, Status> {
    map code | code in codes && code.subject != subject :: codes[code]
  }

  function CodesFor(subject: Id, hashes: set<Digest>): set<CodeKey> {
    set hash | hash in hashes :: CodeKey(subject, hash)
  }

  function Fresh(subject: Id, hashes: set<Digest>): map<CodeKey, Status> {
    map code | code in CodesFor(subject, hashes) :: Unused
  }

  function Step(rows: Rows, op: Op): Change {
    match op
    case BeginEnrollment(subject, enrollment) =>
      Done(rows.(enrollments := rows.enrollments[subject := enrollment]), Nothing)
    case Enable(subject, counter, hashes, at) =>
      if subject !in rows.enrollments then Refused(NotFound)
      else if at >= rows.enrollments[subject].expiresAt then Refused(InactiveEnrollment)
      else Done(rows.(enrollments := rows.enrollments - {subject},
                      credentials := rows.credentials[subject :=
                        Credential(rows.enrollments[subject].secret, at, Some(counter), None)],
                      codes := Without(rows.codes, subject) + Fresh(subject, hashes)),
                Nothing)
    case Disable(subject, at) =>
      if subject !in rows.credentials then Refused(NotFound)
      else
        var credential := rows.credentials[subject];
        var disabledAt := if credential.disabledAt.Some? then credential.disabledAt else Some(at);
        Done(rows.(credentials := rows.credentials[subject := credential.(disabledAt := disabledAt)],
                   codes := Without(rows.codes, subject)),
             Nothing)
    case CreateChallenge(token, challenge) =>
      if token in rows.challenges then Refused(Conflict)
      else Done(rows.(challenges := rows.challenges[token := challenge]), Nothing)
    case CompleteCode(token, counter, at) =>
      if !Pending(rows, token, at) then Refused(InactiveChallenge)
      else
        var subject := rows.challenges[token].subject;
        if subject !in rows.credentials || rows.credentials[subject].disabledAt.Some? then Refused(InvalidCode)
        else if rows.credentials[subject].counter.Some? && counter <= rows.credentials[subject].counter.value
        then Refused(InvalidCode)
        else Done(rows.(challenges := rows.challenges - {token},
                        credentials := rows.credentials[subject := rows.credentials[subject].(counter := Some(counter))]),
                  For(subject))
    case CompleteRecovery(token, hash, at) =>
      if !Pending(rows, token, at) then Refused(InactiveChallenge)
      else
        var code := CodeKey(rows.challenges[token].subject, hash);
        if code !in rows.codes || rows.codes[code] != Unused then Refused(InvalidCode)
        else Done(rows.(challenges := rows.challenges - {token}, codes := rows.codes[code := Used(at)]), For(code.subject))
  }
}

/** What holds of authenticator-app MFA over whole histories. */
module TotpHistory {
  import opened Common
  import opened Serial
  import opened TotpRows

  type History = seq<Entry<Op, Reply>>

  // ---------------------------------------------------------------- counters

  predicate Enables(entry: Entry<Op, Reply>, subject: Id) {
    entry.op.Enable? && entry.op.subject == subject
  }

  predicate Accepts(entry: Entry<Op, Reply>, subject: Id) {
    entry.op.CompleteCode? && entry.reply == For(subject)
  }

  /** The counter that was confirmed or accepted last. */
  function LastCounter(log: History, subject: Id): Option<nat> {
    if |log| == 0 then None
    else
      var last := log[|log| - 1];
      if Enables(last, subject) || Accepts(last, subject) then Some(last.op.counter)
      else LastCounter(log[..|log| - 1], subject)
  }

  ghost function Stored(rows: Rows, subject: Id): Option<nat> {
    if subject in rows.credentials then rows.credentials[subject].counter else None
  }

  lemma StepCounts(rows: Rows, entry: Entry<Op, Reply>, subject: Id)
    requires Step(rows, entry.op).Done? && Step(rows, entry.op).reply == entry.reply
    ensures Stored(Step(rows, entry.op).rows, subject) ==
      if Enables(entry, subject) || Accepts(entry, subject) then Some(entry.op.counter) else Stored(rows, subject)
    ensures Accepts(entry, subject) && Stored(rows, subject).Some? ==> Stored(rows, subject).value < entry.op.counter
  {}

  lemma {:induction false} StoresLastCounter(log: History, subject: Id)
    requires Replay(Step, EMPTY, log).Some?
    ensures Stored(Replay(Step, EMPTY, log).value, subject) == LastCounter(log, subject)
  {
    if |log| > 0 {
      StoresLastCounter(log[..|log| - 1], subject);
      StepCounts(Replay(Step, EMPTY, log[..|log| - 1]).value, log[|log| - 1], subject);
    }
  }

  /** No credential is enabled anew between the two commits. */
  predicate SameEnrollment(log: History, subject: Id, i: nat, j: nat) {
    forall k :: i < k < j && k < |log| ==> !Enables(log[k], subject)
  }

  lemma {:induction false} LastCounterGrows(log: History, subject: Id, i: nat, j: nat)
    requires Replay(Step, EMPTY, log).Some? && i < j <= |log|
    requires Enables(log[i], subject) || Accepts(log[i], subject)
    requires SameEnrollment(log, subject, i, j)
    ensures LastCounter(log[..j], subject).Some? && log[i].op.counter <= LastCounter(log[..j], subject).value
  {
    assert log[..j][..j - 1] == log[..j - 1];
    if j - 1 > i {
      LastCounterGrows(log, subject, i, j - 1);
      Prefix(Step, EMPTY, log, j);
      StoresLastCounter(log[..j - 1], subject);
      StepCounts(Replay(Step, EMPTY, log[..j - 1]).value, log[j - 1], subject);
    }
  }

  /**
    Between two enrollments the accepted counters strictly increase and all exceed the one confirmed at
    enrollment, so that no time step is accepted twice.
  */
  lemma CountersIncrease(log: History, subject: Id, i: nat, j: nat)
    requires Replay(Step, EMPTY, log).Some? && i < j < |log|
    requires Enables(log[i], subject) || Accepts(log[i], subject)
    requires Accepts(log[j], subject) && SameEnrollment(log, subject, i, j)
    ensures log[i].op.counter < log[j].op.counter
  {
    LastCounterGrows(log, subject, i, j);
    Prefix(Step, EMPTY, log, j + 1);
    assert log[..j + 1][..j] == log[..j];
    StoresLastCounter(log[..j], subject);
    StepCounts(Replay(Step, EMPTY, log[..j]).value, log[j], subject);
  }

  // ---------------------------------------------------------------- challenges

  predicate Completes(entry: Entry<Op, Reply>, token: Digest) {
    (entry.op.CompleteCode? || entry.op.CompleteRecovery?) && entry.op.token == token
  }

  function Completions(log: History, token: Digest): nat {
    if |log| == 0 then 0
    else Completions(log[..|log| - 1], token) + (if Completes(log[|log| - 1], token) then 1 else 0)
  }

  function Creations(log: History, token: Digest): nat {
    if |log| == 0 then 0
    else
      var op := log[|log| - 1].op;
      Creations(log[..|log| - 1], token) + (if op.CreateChallenge? && op.token == token then 1 else 0)
  }

  /** Every challenge authenticates at most once: completions and the pending challenge make up its creations. */
  lemma {:induction false} ChallengesBalance(log: History, token: Digest)
    requires Replay(Step, EMPTY, log).Some?
    ensures Completions(log, token) + (if token in Replay(Step, EMPTY, log).value.challenges then 1 else 0)
         == Creations(log, token)
  {
    if |log| > 0 {
      ChallengesBalance(log[..|log| - 1], token);
    }
  }

  // ---------------------------------------------------------------- recovery codes

  function Uses(log: History, code: CodeKey): nat {
    if |log| == 0 then 0
    else
      var last := log[|log| - 1];
      Uses(log[..|log| - 1], code)
        + (if last.op.CompleteRecovery? && last.op.hash == code.hash && last.reply == For(code.subject) then 1 else 0)
  }

  function Grants(log: History, code: CodeKey): nat {
    if |log| == 0 then 0
    else
      var op := log[|log| - 1].op;
      Grants(log[..|log| - 1], code) + (if op.Enable? && op.subject == code.subject && code.hash in op.hashes then 1 else 0)
  }

  ghost predicate Usable(rows: Rows, code: CodeKey) { code in rows.codes && rows.codes[code] == Unused }

  lemma StepGrants(rows: Rows, entry: Entry<Op, Reply>, code: CodeKey)
    requires Step(rows, entry.op).Done? && Step(rows, entry.op).reply == entry.reply
    ensures var used := entry.op.CompleteRecovery? && entry.op.hash == code.hash && entry.reply == For(code.subject);
      var granted := entry.op.Enable? && entry.op.subject == code.subject && code.hash in entry.op.hashes;
      && (used ==> Usable(rows, code) && !Usable(Step(rows, entry.op).rows, code))
      && (Usable(Step(rows, entry.op).rows, code) ==> Usable(rows, code) || granted)
  {}

  /** Every recovery code is accepted at most once for each time it is granted; a usable one leaves a use to spare. */
  lemma {:induction false} CodesUsedOnce(log: History, code: CodeKey)
    requires Replay(Step, EMPTY, log).Some?
    ensures Uses(log, code) + (if Usable(Replay(Step, EMPTY, log).value, code) then 1 else 0) <= Grants(log, code)
  {
    if |log| > 0 {
      CodesUsedOnce(log[..|log| - 1], code);
      StepGrants(Replay(Step, EMPTY, log[..|log| - 1]).value, log[|log| - 1], code);
    }
  }

  ghost predicate Enabled(rows: Rows, subject: Id) {
    subject in rows.credentials && rows.credentials[subject].disabledAt.None?
  }

  /**
    In every reachable state recovery codes exist only for an enabled credential. This is why a recovery may be
    completed without reading the credential.
  */
  lemma {:induction false} CodesOnlyWhenEnabled(log: History, code: CodeKey)
    requires Replay(Step, EMPTY, log).Some? && code in Replay(Step, EMPTY, log).value.codes
    ensures Enabled(Replay(Step, EMPTY, log).value, code.subject)
  {
    if |log| > 0 {
      var rows, op := Replay(Step, EMPTY, log[..|log| - 1]).value, log[|log| - 1].op;
      if code in rows.codes {
        CodesOnlyWhenEnabled(log[..|log| - 1], code);
      }
    }
  }

  // ---------------------------------------------------------------- enrollments

  predicate Enrolls(op: Op, subject: Id) {
    (op.BeginEnrollment? || op.Enable?) && op.subject == subject
  }

  /** The enrollment that was begun last, unless one has been enabled since. */
  function Latest(log: History, subject: Id): Option<Enrollment> {
    if |log| == 0 then None
    else
      var op := log[|log| - 1].op;
      if !Enrolls(op, subject) then Latest(log[..|log| - 1], subject)
      else if op.BeginEnrollment? then Some(op.enrollment)
      else None
  }

  ghost function EnrollmentOf(rows: Rows, subject: Id): Option<Enrollment> {
    if subject in rows.enrollments then Some(rows.enrollments[subject]) else None
  }

  /** A subject's enrollment is the one begun last. */
  lemma {:induction false} EnrollmentIsLatest(log: History, subject: Id)
    requires Replay(Step, EMPTY, log).Some?
    ensures EnrollmentOf(Replay(Step, EMPTY, log).value, subject) == Latest(log, subject)
  {
    if |log| > 0 {
      EnrollmentIsLatest(log[..|log| - 1], subject);
    }
  }

  /** After commit `n` the subject's enabled credential has this secret and starts from this counter. */
  ghost predicate TurnedOn(log: History, n: nat, subject: Id, secret: string, counter: nat) {
    && n < |log| && Replay(Step, EMPTY, log[..n + 1]).Some?
    && var credentials := Replay(Step, EMPTY, log[..n + 1]).value.credentials;
    && subject in credentials && credentials[subject].secret == secret && credentials[subject].counter == Some(counter)
    && credentials[subject].disabledAt.None?
  }

  /** What is enabled is the secret of the enrollment begun last, whichever one the caller's code was checked against. */
  lemma EnablesLatest(log: History, n: nat)
    requires Replay(Step, EMPTY, log).Some? && n < |log| && log[n].op.Enable?
    ensures Latest(log[..n], log[n].op.subject).Some?
    ensures TurnedOn(log, n, log[n].op.subject, Latest(log[..n], log[n].op.subject).value.secret, log[n].op.counter)
  {
    Prefix(Step, EMPTY, log, n + 1);
    assert log[..n + 1][..|log[..n + 1]| - 1] == log[..n];
    EnrollmentIsLatest(log[..n], log[n].op.subject);
  }

  predicate Begins(op: Op, subject: Id) { op.BeginEnrollment? && op.subject == subject }

  predicate BeganBetween(log: History, k: nat, n: nat, subject: Id) {
    exists i :: k <= i < n <= |log| && Begins(log[i].op, subject)
  }

  /** An enrollment that is stored was begun since, if any was, and is the one of before otherwise. */
  lemma {:induction false} LatestSince(log: History, k: nat, n: nat, subject: Id)
    requires k <= n <= |log|
    ensures Latest(log[..n], subject).Some? ==>
      if BeganBetween(log, k, n, subject) then
        exists i :: k <= i < n && Begins(log[i].op, subject) && Latest(log[..n], subject).value == log[i].op.enrollment
      else Latest(log[..n], subject) == Latest(log[..k], subject)
  {
    if k < n {
      LatestSince(log, k, n - 1, subject);
      assert log[..n][..n - 1] == log[..n - 1];
      assert BeganBetween(log, k, n, subject) <==> BeganBetween(log, k, n - 1, subject) || Begins(log[n - 1].op, subject);
    }
  }

  /**
    A code was checked against the enrollment of after `k` commits, and commit `n` enables. Every enrollment having a
    secret of its own, the secret that was checked is the one enabled exactly if none was begun in between.
  */
  lemma EnablesChecked(log: History, k: nat, n: nat)
    requires Replay(Step, EMPTY, log).Some? && k <= n < |log| && log[n].op.Enable?
    requires Latest(log[..k], log[n].op.subject).Some?
    requires forall i :: k <= i < n && Begins(log[i].op, log[n].op.subject) ==>
      log[i].op.enrollment.secret != Latest(log[..k], log[n].op.subject).value.secret
    ensures var subject := log[n].op.subject;
      TurnedOn(log, n, subject, Latest(log[..k], subject).value.secret, log[n].op.counter)
      <==> !BeganBetween(log, k, n, subject)
  {
    EnablesLatest(log, n);
    LatestSince(log, k, n, log[n].op.subject);
  }

  /** A second enrollment is begun after a code was checked against the first, and before the first is enabled. */
  const RACED: History := [
    Entry(BeginEnrollment("s", Enrollment("first", 0, 100)), Nothing),
    Entry(BeginEnrollment("s", Enrollment("second", 5, 100)), Nothing),
    Entry(Enable("s", 7, {}, 6), Nothing)]

  /** Then the second secret is enabled, with the counter that the code had for the first. */
  lemma RacedEnrollment()
    ensures Replay(Step, EMPTY, RACED).Some?
    ensures Latest(RACED[..1], "s") == Some(Enrollment("first", 0, 100))
    ensures TurnedOn(RACED, 2, "s", "second", 7)
  {
    assert RACED[..3] == RACED && RACED[..3][..2] == RACED[..2] && RACED[..2][..1] == RACED[..1] && RACED[..1][..0] == [];
    assert Replay(Step, EMPTY, RACED[..1]).Some? && Replay(Step, EMPTY, RACED[..2]).Some?;
    EnablesLatest(RACED, 2);
  }

  // ---------------------------------------------------------------- the secret of a verification

  ghost function SecretOf(rows: Rows, subject: Id): Option<string> {
    if subject in rows.credentials then Some(rows.credentials[subject].secret) else None
  }

  /** The secret of the subject's credential after `n` commits. */
  ghost function SecretAt(log: History, n: nat, subject: Id): Option<string>
    requires n <= |log|
  {
    match Replay(Step, EMPTY, log[..n])
    case None => None
    case Some(rows) => SecretOf(rows, subject)
  }

  predicate EnabledBetween(log: History, k: nat, n: nat, subject: Id) {
    exists i :: k <= i < n <= |log| && Enables(log[i], subject)
  }

  /** Only enabling changes the secret. */
  lemma StepKeepsSecret(rows: Rows, entry: Entry<Op, Reply>, subject: Id)
    requires Step(rows, entry.op).Done? && !Enables(entry, subject)
    ensures SecretOf(Step(rows, entry.op).rows, subject) == SecretOf(rows, subject)
  {}

  lemma CommitKeepsSecret(log: History, n: nat, subject: Id)
    requires Replay(Step, EMPTY, log).Some? && n < |log| && !Enables(log[n], subject)
    ensures SecretAt(log, n + 1, subject) == SecretAt(log, n, subject)
  {
    hide Step, Enables, SecretOf;
    Prefix(Step, EMPTY, log, n + 1);
    assert log[..n + 1][..|log[..n + 1]| - 1] == log[..n];
    StepKeepsSecret(Replay(Step, EMPTY, log[..n]).value, log[n], subject);
  }

  /** The secret was turned on since, if any was, and is the one of before otherwise. */
  lemma {:induction false} SecretSince(log: History, k: nat, n: nat, subject: Id)
    requires Replay(Step, EMPTY, log).Some? && k <= n <= |log|
    ensures
      if EnabledBetween(log, k, n, subject) then
        exists i :: k <= i < n && Enables(log[i], subject) && SecretAt(log, n, subject) == SecretAt(log, i + 1, subject)
      else SecretAt(log, n, subject) == SecretAt(log, k, subject)
  {
    if k < n {
      SecretSince(log, k, n - 1, subject);
      if !Enables(log[n - 1], subject) { CommitKeepsSecret(log, n - 1, subject); }
      assert EnabledBetween(log, k, n, subject) <==> EnabledBetween(log, k, n - 1, subject) || Enables(log[n - 1], subject);
    }
  }

  /**
    A code was checked against the credential of after `k` commits, and commit `n` accepts it. Every enrollment having a
    secret of its own, the secret that was checked is the stored one exactly if none was enabled in between.
  */
  lemma AcceptsChecked(log: History, k: nat, n: nat, subject: Id)
    requires Replay(Step, EMPTY, log).Some? && k <= n <= |log|
    requires forall i :: k <= i < n && Enables(log[i], subject) ==> SecretAt(log, i + 1, subject) != SecretAt(log, k, subject)
    ensures SecretAt(log, n, subject) == SecretAt(log, k, subject) <==> !EnabledBetween(log, k, n, subject)
  {
    SecretSince(log, k, n, subject);
  }

  /** A second enrollment is enabled after a code was checked against the first credential, and before it is accepted. */
  const REPLACED: History := [
    Entry(BeginEnrollment("s", Enrollment("first", 0, 100)), Nothing),
    Entry(Enable("s", 5, {}, 1), Nothing),
    Entry(CreateChallenge(ZERO_HASH, Challenge("s", 2, 100)), Nothing),
    Entry(BeginEnrollment("s", Enrollment("second", 3, 100)), Nothing),
    Entry(Enable("s", 7, {}, 4), Nothing),
    Entry(CompleteCode(ZERO_HASH, 8, 6), For("s"))]

  lemma Next(log: History, n: nat, rows: Rows) returns (next: Rows)
    requires n < |log| && Replay(Step, EMPTY, log[..n]) == Some(rows)
    requires Step(rows, log[n].op).Done? && Step(rows, log[n].op).reply == log[n].reply
    ensures next == Step(rows, log[n].op).rows && Replay(Step, EMPTY, log[..n + 1]) == Some(next)
  {
    next := Step(rows, log[n].op).rows;
    assert log[..n + 1][..n] == log[..n];
  }

  /** Then a code for the first secret is accepted although the second is stored. */
  lemma ReplacedSecret()
    ensures Replay(Step, EMPTY, REPLACED).Some?
    ensures SecretAt(REPLACED, 3, "s") == Some("first") && SecretAt(REPLACED, 5, "s") == Some("second")
    ensures Accepts(REPLACED[5], "s")
  {
    hide Without, Fresh;
    assert REPLACED[..0] == [] && REPLACED[..6] == REPLACED;
    var one := Next(REPLACED, 0, EMPTY);
    assert one.enrollments == map["s" := Enrollment("first", 0, 100)];
    var two := Next(REPLACED, 1, one);
    assert two.credentials == map["s" := Credential("first", 1, Some(5), None)];
    var three := Next(REPLACED, 2, two);
    assert three.challenges == map[ZERO_HASH := Challenge("s", 2, 100)];
    var four := Next(REPLACED, 3, three);
    assert four.enrollments["s"] == Enrollment("second", 3, 100);
    var five := Next(REPLACED, 4, four);
    assert five.credentials["s"] == Credential("second", 4, Some(7), None);
    var six := Next(REPLACED, 5, five);
  }
}
