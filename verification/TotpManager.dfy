/** The authenticator-app manager: time-step arithmetic, recovery codes, challenges. */
module TotpManager {
  import opened Common
  import opened Serial
  import opened TotpRows
  import opened TotpHistory
  import opened TotpLog
  import opened TotpStore
  import opened Optimistic
  import Watch

  datatype Failure =
    | InvalidInput | InvalidRecord | InvalidChallenge | InvalidCode | NotFound | Conflict | Unavailable

  // ---------------------------------------------------------------- time steps

  const PERIOD := 30

  /** Seconds since 1970, from nanoseconds since the zero time. */
  function Unix(at: Time): int { at / SECOND - 62135596800 }

  /** The time step of section 4.2 of RFC 6238. */
  function CurrentCounter(at: Time): int { Unix(at) / PERIOD }

  /** From 1970, 719162 days after the zero time, every 30 seconds begin another time step. */
  lemma CountsFrom1970(seconds: nat, rest: nat)
    requires rest < 1_000_000_000
    ensures CurrentCounter((719162 * 24 * 3600 + seconds) * 1_000_000_000 + rest) == seconds / 30
  {
    assert Unix((62135596800 + seconds) * 1_000_000_000 + rest) == seconds;
  }

  /** The times and time steps of appendix B of RFC 6238. */
  lemma TestVectors()
    ensures forall vector :: vector in [
      (59, 0x1), (1111111109, 0x23523EC), (1111111111, 0x23523ED), (1234567890, 0x273EF07),
      (2000000000, 0x3F940AA), (20000000000, 0x27BC86AA)] ==>
        CurrentCounter((719162 * 24 * 3600 + vector.0) * 1_000_000_000) == vector.1
  {}

  predicate Digits(code: string) { |code| == 6 && forall c :: c in code ==> '0' <= c <= '9' }

  /** One step either side of the current one is tolerated, and nothing before the first step. */
  predicate Near(at: Time, counter: nat) {
    CurrentCounter(at) >= 1 && CurrentCounter(at) - 1 <= counter <= CurrentCounter(at) + 1
  }

  predicate Matches(hotp: (string, nat) -> Option<string>, secret: string, code: string, at: Time, counter: nat) {
    Digits(code) && Near(at, counter) && hotp(secret, counter) == Some(code)
  }

  /** A counter that matches when none of those tried before it does. */
  predicate FirstMatch(hotp: (string, nat) -> Option<string>, secret: string, code: string, at: Time, counter: nat) {
    && Matches(hotp, secret, code, at, counter)
    && (counter != CurrentCounter(at) ==> !Matches(hotp, secret, code, at, CurrentCounter(at)))
    && (counter > CurrentCounter(at) ==> !Matches(hotp, secret, code, at, CurrentCounter(at) - 1))
  }

  /** The secret can be decoded. */
  ghost predicate Decodable(hotp: (string, nat) -> Option<string>, secret: string) {
    forall counter: nat :: hotp(secret, counter).Some?
  }

  lemma FirstIsOne(hotp: (string, nat) -> Option<string>, secret: string, code: string, at: Time, first: nat, other: nat)
    requires FirstMatch(hotp, secret, code, at, first) && FirstMatch(hotp, secret, code, at, other)
    ensures first == other
  {}

  /**
    matchCounter tries the current step, then the previous, then the next, and answers the first that matches;
    `hotp` gives the code of a counter, or None if the secret cannot be decoded.
  */
  method MatchCounter(hotp: (string, nat) -> Option<string>, secret: string, code: string, at: Time)
      returns (r: Option<Option<nat>>)
    ensures r.Some? && r.value.Some? ==> FirstMatch(hotp, secret, code, at, r.value.value)
    ensures r == Some(None) ==> forall counter: nat :: !Matches(hotp, secret, code, at, counter)
    ensures r.None? ==> Digits(code) && exists counter: nat :: Near(at, counter) && hotp(secret, counter).None?
  {
    if |code| != 6 {
      return Some(None);
    }
    for i := 0 to 6
      invariant forall j :: 0 <= j < i ==> '0' <= code[j] <= '9'
    {
      if code[i] < '0' || code[i] > '9' {
        assert code[i] in code && !Digits(code);
        return Some(None);
      }
    }
    var current := CurrentCounter(at);
    if current < 1 {
      return Some(None);
    }
    var counters: seq<nat> := [current, current - 1, current + 1];
    for i := 0 to 3
      invariant forall j :: 0 <= j < i ==> hotp(secret, counters[j]).Some? && hotp(secret, counters[j]) != Some(code)
    {
      assert Near(at, counters[i]);
      match hotp(secret, counters[i]) {
        case None =>
          return None;
        case Some(expected) =>
          if expected == code {
            assert i > 0 ==> hotp(secret, counters[0]) != Some(code);
            assert i > 1 ==> hotp(secret, counters[1]) != Some(code);
            return Some(Some(counters[i]));
          }
      }
    }
    forall counter: nat ensures !Matches(hotp, secret, code, at, counter) {
      assert Near(at, counter) ==> counter == counters[0] || counter == counters[1] || counter == counters[2];
    }
    return Some(None);
  }

  /** A code is accepted at most one step before its own time step begins and one step after it ends. */
  lemma AcceptedNearby(hotp: (string, nat) -> Option<string>, secret: string, code: string, at: Time, counter: nat)
    requires Matches(hotp, secret, code, at, counter)
    ensures PERIOD * (counter - 1) <= Unix(at) < PERIOD * (counter + 2)
  {}

  // ---------------------------------------------------------------- recovery codes

  /**
    generateRecoveryCodes, drawing from a given supply of random codes: exactly `count` codes with distinct
    hashes, or none if the supply runs out.
  */
  method GenerateRecoveryCodes(hash: string -> Digest, count: nat, supply: seq<string>)
      returns (r: Option<seq<string>>, hashes: seq<Digest>)
    ensures r.Some? ==> |r.value| == |hashes| == count
    ensures r.Some? ==> forall i :: 0 <= i < count ==> r.value[i] in supply && hashes[i] == hash(r.value[i])
    ensures r.Some? ==> forall i, j :: 0 <= i < j < count ==> hashes[i] != hashes[j]
    ensures r.None? ==> |set draw | draw in supply :: hash(draw)| < count
  {
    var codes: seq<string>, seen: set<Digest> := [], {};
    hashes := [];
    var next := 0;
    while |codes| < count
      invariant next <= |supply| && |codes| == |hashes| <= count && |seen| == |codes|
      invariant forall i :: 0 <= i < |codes| ==> codes[i] in supply && hashes[i] == hash(codes[i])
      invariant forall i, j :: 0 <= i < j < |hashes| ==> hashes[i] != hashes[j]
      invariant seen == Elements(hashes)
      invariant forall i :: 0 <= i < next ==> hash(supply[i]) in seen
      decreases |supply| - next
    {
      if next == |supply| {
        assert (set draw | draw in supply :: hash(draw)) == seen;
        return None, [];
      }
      var code := supply[next];
      next := next + 1;
      if hash(code) !in seen {
        seen, codes, hashes := seen + {hash(code)}, codes + [code], hashes + [hash(code)];
      }
    }
    return Some(codes), hashes;
  }

  // ---------------------------------------------------------------- calls of the store

  function FailureOf(error: Error): Failure {
    match error
    case NotFound => InvalidChallenge
    case InactiveChallenge => InvalidChallenge
    case InvalidCode => Failure.InvalidCode
    case Conflict => Failure.Conflict
    case InactiveEnrollment => Unavailable
    case TransactionConflict => Unavailable
  }

  /** After `k` commits the subject had exactly this credential, enabled. */
  ghost predicate Saw(log: History, k: nat, subject: Id, credential: Credential) {
    && k <= |log| && Replay(Step, EMPTY, log[..k]).Some?
    && subject in Replay(Step, EMPTY, log[..k]).value.credentials
    && Replay(Step, EMPTY, log[..k]).value.credentials[subject] == credential && credential.disabledAt.None?
  }

  /** After `k` commits the subject had exactly this pending enrollment. */
  ghost predicate SawEnrollment(log: History, k: nat, subject: Id, enrollment: Enrollment) {
    && k <= |log| && Replay(Step, EMPTY, log[..k]).Some?
    && subject in Replay(Step, EMPTY, log[..k]).value.enrollments
    && Replay(Step, EMPTY, log[..k]).value.enrollments[subject] == enrollment
  }

  /** After `k` commits exactly this challenge was pending under the token. */
  ghost predicate SawChallenge(log: History, k: nat, token: Digest, challenge: Challenge) {
    && k <= |log| && Replay(Step, EMPTY, log[..k]).Some?
    && token in Replay(Step, EMPTY, log[..k]).value.challenges
    && Replay(Step, EMPTY, log[..k]).value.challenges[token] == challenge
  }

  lemma EnrollmentStays(log: History, later: History, k: nat, subject: Id, enrollment: Enrollment)
    requires SawEnrollment(log, k, subject, enrollment) && log <= later
    ensures SawEnrollment(later, k, subject, enrollment)
  {
    assert later[..k] == log[..k];
  }

  lemma ChallengeStays(log: History, later: History, k: nat, token: Digest, challenge: Challenge)
    requires SawChallenge(log, k, token, challenge) && log <= later
    ensures SawChallenge(later, k, token, challenge)
  {
    assert later[..k] == log[..k];
  }

  lemma SawStays(log: History, later: History, k: nat, subject: Id, credential: Credential)
    requires Saw(log, k, subject, credential) && log <= later
    ensures Saw(later, k, subject, credential)
  {
    assert later[..k] == log[..k];
  }

  /** Disabled, and without any recovery code. */
  ghost predicate SwitchedOff(rows: Rows, subject: Id) {
    && subject in rows.credentials && rows.credentials[subject].disabledAt.Some?
    && forall code :: code in rows.codes ==> code.subject != subject
  }

  /** What the last commit answered and left behind. */
  lemma LastStep(log: History)
    requires Replay(Step, EMPTY, log).Some? && |log| > 0
    ensures var last := log[|log| - 1];
      && (!last.op.CompleteCode? && !last.op.CompleteRecovery? ==> last.reply == Nothing)
      && (last.op.Disable? ==> SwitchedOff(Replay(Step, EMPTY, log).value, last.op.subject))
  {
    assert Step(Replay(Step, EMPTY, log[..|log| - 1]).value, log[|log| - 1].op)
        == Done(Replay(Step, EMPTY, log).value, log[|log| - 1].reply);
  }

  lemma EnabledSecret(before: Rows, after: Rows, op: Op, r: Result<Reply, Error>)
    requires op.Enable? && Stepped(Step, before, after, op, r) && r.Ok?
    ensures op.subject in before.enrollments && op.subject in after.credentials
    ensures after.credentials[op.subject].secret == before.enrollments[op.subject].secret
  {}

  lemma DistinctCount(hashes: seq<Digest>)
    requires forall i, j :: 0 <= i < j < |hashes| ==> hashes[i] != hashes[j]
    ensures |Elements(hashes)| == |hashes|
  {
    if |hashes| > 0 {
      var init := hashes[..|hashes| - 1];
      DistinctCount(init);
      assert Elements(hashes) == Elements(init) + {hashes[|hashes| - 1]};
    }
  }

  /** Whatever was begun in between has another secret. */
  ghost predicate FreshBetween(log: History, k: nat, n: nat, subject: Id, secret: string) {
    forall i :: k <= i < n <= |log| && Begins(log[i].op, subject) ==> log[i].op.enrollment.secret != secret
  }

  /** Whatever was enabled in between has another secret. */
  ghost predicate NewBetween(log: History, k: nat, n: nat, subject: Id, secret: string) {
    forall i :: k <= i < n <= |log| && Enables(log[i], subject) ==> SecretAt(log, i + 1, subject) != Some(secret)
  }

  datatype Config = Config(enrollmentLifetime: Time, challengeLifetime: Time, recoveryCodeCount: nat)

  /** The commit of an enabling, of an enrollment whose code was checked before. */
  lemma EnabledAsChecked(log: History, k: nat, n: nat, subject: Id, enrollment: Enrollment, counter: nat)
    requires Replay(Step, EMPTY, log).Some? && k <= n < |log| && SawEnrollment(log, k, subject, enrollment)
    requires log[n].op.Enable? && log[n].op.subject == subject && log[n].op.counter == counter
    ensures Latest(log[..n], subject).Some?
    ensures TurnedOn(log, n, subject, Latest(log[..n], subject).value.secret, counter)
    ensures Latest(log[..k], subject) == Some(enrollment)
    ensures FreshBetween(log, k, n, subject, enrollment.secret) ==>
      (TurnedOn(log, n, subject, enrollment.secret, counter) <==> !BeganBetween(log, k, n, subject))
  {
    hide Step, TurnedOn, BeganBetween, Latest;
    EnrollmentIsLatest(log[..k], subject);
    EnablesLatest(log, n);
    if FreshBetween(log, k, n, subject, enrollment.secret) { EnablesChecked(log, k, n); }
  }

  lemma AcceptedWhenReady(before: Rows, after: Rows, token: Digest, counter: nat, at: Time, later: Time,
      r: Result<Reply, Error>)
    requires Stepped(Step, before, after, Op.CompleteCode(token, counter, at), r) && Ready(before, token, later) && at <= later
    ensures token in before.challenges && before.challenges[token].subject in before.credentials
    ensures var subject := before.challenges[token].subject;
      && r.Ok? == (before.credentials[subject].counter.None? || before.credentials[subject].counter.value < counter)
      && (r.Ok? ==> r.value == For(subject))
  {
    StepAccepts(before, after, token, counter, at, r);
  }

  lemma RecoveredWhenReady(before: Rows, after: Rows, token: Digest, hash: Digest, at: Time, later: Time,
      r: Result<Reply, Error>)
    requires Stepped(Step, before, after, Op.CompleteRecovery(token, hash, at), r) && Ready(before, token, later) && at <= later
    ensures token in before.challenges
    ensures var code := CodeKey(before.challenges[token].subject, hash);
      r == if code in before.codes && before.codes[code] == Unused then Ok(For(code.subject)) else Err(Error.InvalidCode)
  {
    StepRecovers(before, after, token, hash, at, r);
  }

  lemma StepEnables(before: Rows, after: Rows, op: Op, r: Result<Reply, Error>)
    requires op.Enable? && Stepped(Step, before, after, op, r)
    ensures op.subject in before.enrollments && op.at < before.enrollments[op.subject].expiresAt ==> r.Ok?
  {}

  lemma StepDisables(before: Rows, after: Rows, op: Op, r: Result<Reply, Error>)
    requires op.Disable? && Stepped(Step, before, after, op, r)
    ensures if op.subject in before.credentials then r.Ok? else r == Err(Error.NotFound)
  {}

  lemma StepBegins(before: Rows, after: Rows, op: Op, r: Result<Reply, Error>)
    requires (op.BeginEnrollment? || op.CreateChallenge?) && Stepped(Step, before, after, op, r)
    ensures r.Ok? || (op.CreateChallenge? && r == Err(Error.Conflict))
  {}

  /** The challenge is pending, and its subject's credential enabled. */
  predicate Ready(rows: Rows, token: Digest, at: Time) {
    && token in rows.challenges && ValidChallenge(rows.challenges[token]) && at < rows.challenges[token].expiresAt
    && var subject := rows.challenges[token].subject;
    && subject in rows.credentials && rows.credentials[subject].disabledAt.None? && ValidCredential(rows.credentials[subject])
  }

  /** It is this challenge, and this credential. */
  predicate Stands(rows: Rows, token: Digest, at: Time, challenge: Challenge, credential: Credential) {
    Ready(rows, token, at) && rows.challenges[token] == challenge && rows.credentials[challenge.subject] == credential
  }

  /** What is ready at one time was so before, with the same records. */
  lemma ReadyEarlier(rows: Rows, token: Digest, at: Time, later: Time)
    requires at <= later && Ready(rows, token, later)
    ensures Ready(rows, token, at)
    ensures forall challenge, credential :: Stands(rows, token, at, challenge, credential) ==> Stands(rows, token, later, challenge, credential)
  {}

  /** What a ready challenge and its subject's credential are. */
  lemma StandsSo(rows: Rows, token: Digest, at: Time, challenge: Challenge, credential: Credential)
    requires Stands(rows, token, at, challenge, credential)
    ensures Ready(rows, token, at) && token in rows.challenges && rows.challenges[token] == challenge
    ensures challenge.subject in rows.credentials && rows.credentials[challenge.subject] == credential
  {}

  /** A counter past the recorded one is accepted. */
  lemma StepAccepts(before: Rows, after: Rows, token: Digest, counter: nat, at: Time, r: Result<Reply, Error>)
    requires Stepped(Step, before, after, Op.CompleteCode(token, counter, at), r) && Ready(before, token, at)
    ensures var subject := before.challenges[token].subject;
      && r.Ok? == (before.credentials[subject].counter.None? || before.credentials[subject].counter.value < counter)
      && (r.Ok? ==> r.value == For(subject))
  {}

  /** A recovery code is accepted exactly if it is unused. */
  lemma StepRecovers(before: Rows, after: Rows, token: Digest, hash: Digest, at: Time, r: Result<Reply, Error>)
    requires Stepped(Step, before, after, Op.CompleteRecovery(token, hash, at), r) && Ready(before, token, at)
    ensures var code := CodeKey(before.challenges[token].subject, hash);
      r == if code in before.codes && before.codes[code] == Unused then Ok(For(code.subject)) else Err(Error.InvalidCode)
  {}

  class Manager {
    const store: TotpStore
    const config: Config
    const hashToken: string -> Option<Digest>
    const hashCode: string -> Digest
    const hotp: (string, nat) -> Option<string>
    var clock: Time
    ghost var failures: nat            // secrets and tokens that could not be drawn, and tokens that were taken

    ghost predicate Valid()
      reads this, store
    {
      && store.Valid() && store.c == CODE && store.s == SPEC
      && Replay(Step, EMPTY, store.log) == Some(RowsOf(store.db))
      && config.enrollmentLifetime > 0 && config.challengeLifetime > 0 && config.recoveryCodeCount > 0
    }

    constructor (store: TotpStore, config: Config, hashToken: string -> Option<Digest>, hashCode: string -> Digest,
                 hotp: (string, nat) -> Option<string>, clock: Time)
      requires store.Valid() && store.c == CODE && store.s == SPEC
      requires Replay(Step, EMPTY, store.log) == Some(RowsOf(store.db))
      requires config.enrollmentLifetime > 0 && config.challengeLifetime > 0 && config.recoveryCodeCount > 0
      ensures Valid() && this.store == store && this.config == config
    {
      this.store, this.config, this.hashToken, this.hashCode, this.hotp, this.clock, failures :=
        store, config, hashToken, hashCode, hotp, clock, 0;
    }

    twostate predicate Moved()
      reads this, store
    {
      Valid() && old(store.log) <= store.log && old(clock) <= clock && old(failures) <= failures
    }

    /** Time and the history have moved forwards, and well-formed rows have stayed so. */
    twostate predicate Went()
      reads this, store
    {
      Moved() && (Healthy() ==> Sane(RowsOf(store.db)))
    }

    /** Without overlapping calls: the rows were well-formed when the call began. */
    twostate predicate Healthy()
      reads this, store
    {
      store.quiet && Sane(old(RowsOf(store.db))) && ZERO_TIME < old(clock)
    }

    method Perform(op: Op) returns (r: Result<Reply, Error>)
      requires Valid()
      modifies this, store
      ensures Moved() && clock == old(clock) && failures == old(failures)
      ensures store.quiet ==> Stepped(Step, old(RowsOf(store.db)), RowsOf(store.db), op, r)
      ensures store.MadeExactly(op, r)
    {
      hide Lawful, Step, Consistent;
      if op.BeginEnrollment? || op.CreateChallenge? {
        var answer, view, committed := store.Command(op);
        r := answer;
      } else {
        var answer, view, committed := store.Run(op);
        r := answer;
      }
    }

    /** A committed operation, as number |log| - 1. */
    method Commit(op: Op) returns (r: Result<Reply, Error>)
      requires Valid()
      modifies this, store
      ensures Moved() && clock == old(clock) && failures == old(failures)
      ensures store.quiet ==> Stepped(Step, old(RowsOf(store.db)), RowsOf(store.db), op, r)
      ensures Healthy() && Proper(op) ==> Sane(RowsOf(store.db))
      ensures store.MadeExactly(op, r)
      ensures r.Ok? && !op.CompleteCode? && !op.CompleteRecovery? ==> r.value == Nothing
      ensures r.Ok? && op.Disable? ==> SwitchedOff(RowsOf(store.db), op.subject)
    {
      hide Step, Sane;
      ghost var rows := RowsOf(store.db);
      r := Perform(op);
      if r.Ok? {
        LastStep(store.log);
        if Healthy() && Proper(op) { StepStaysSane(rows, op); }
      }
    }

    method Look() returns (rows: Rows)
      requires Valid()
      modifies this, store
      ensures Went() && store.own == old(store.own) && failures == old(failures) && clock == old(clock)
      ensures rows == RowsOf(store.db) && (store.quiet ==> rows == old(RowsOf(store.db)))
    {
      store.Others();
      rows := RowsOf(store.db);
    }

    method Now() returns (at: Time)
      requires Valid()
      modifies this, store
      ensures Went() && store.own == old(store.own) && at == clock && failures == old(failures)
      ensures store.quiet ==> RowsOf(store.db) == old(RowsOf(store.db))
    {
      at := clock;
    }

    /**
      BeginEnrollment replaces any earlier enrollment; the secret is drawn at random. Without overlapping calls it fails
      only for blank input or a failing random source.
    */
    method BeginEnrollment(subject: Id, account: string) returns (r: Result<Enrollment, Failure>, ghost n: nat)
      requires Valid()
      modifies this, store
      ensures Went()
      ensures r.Ok? ==>
        && store.Made(n, Op.BeginEnrollment(Trim(subject), r.value), Nothing)
        && r.value.expiresAt == r.value.createdAt + config.enrollmentLifetime && old(clock) <= r.value.createdAt <= clock
      ensures r.Err? ==> store.own == old(store.own)
      ensures r == Err(InvalidInput) <==> Blank(subject) || Blank(account)
      ensures r.Err? ==> r.error == InvalidInput || r.error == Unavailable
      ensures store.quiet && r == Err(Unavailable) ==> old(failures) < failures
    {
      hide Step, Lawful, Replay, Sane, Consistent;
      n := 0;
      if Trim(subject) == "" || Trim(account) == "" {
        return Err(InvalidInput), n;
      }
      var secret: string := *;
      if Blank(secret) {
        failures := failures + 1;
        return Err(Unavailable), n;    // a drawn secret is never blank: the random source has failed
      }
      var now := Now();
      ghost var rows := RowsOf(store.db);
      var enrollment := Enrollment(secret, now, now + config.enrollmentLifetime);
      var answer := Commit(Op.BeginEnrollment(Trim(subject), enrollment));
      if store.quiet { StepBegins(rows, RowsOf(store.db), Op.BeginEnrollment(Trim(subject), enrollment), answer); }
      if answer.Err? {
        return Err(Unavailable), n;
      }
      n := |store.log| - 1;
      return Ok(enrollment), n;
    }

    /** The first half of ConfirmEnrollment: the stored enrollment and the counter that the code matches. */
    method CheckEnrollment(subject: Id, code: string)
        returns (r: Result<nat, Failure>, ghost k: nat, ghost enrollment: Enrollment, at: Time)
      requires Valid()
      modifies this, store
      ensures Went() && store.own == old(store.own) && old(clock) <= at <= clock && failures == old(failures)
      ensures r.Ok? ==>
        && |old(store.log)| <= k && SawEnrollment(store.log, k, subject, enrollment) && ValidEnrollment(enrollment)
        && at < enrollment.expiresAt && FirstMatch(hotp, enrollment.secret, code, at, r.value)
      ensures store.quiet ==>
        && RowsOf(store.db) == old(RowsOf(store.db))
        && (r.Ok? ==> subject in RowsOf(store.db).enrollments && RowsOf(store.db).enrollments[subject] == enrollment)
      ensures store.quiet ==>
        if subject !in old(RowsOf(store.db)).enrollments then r == Err(Failure.InvalidCode)
        else EnrollmentAnswer(old(RowsOf(store.db)).enrollments[subject], code, at, r)
    {
      hide Step, Sane, Lawful, Consistent, Matches, Blank;
      k, enrollment, at := 0, Enrollment("", 0, 0), clock;
      var rows := Look();
      if subject !in rows.enrollments {
        return Err(Failure.InvalidCode), k, enrollment, clock;
      }
      var found := rows.enrollments[subject];
      ghost var log := store.log;
      assert log[..|log|] == log;
      at := Now();
      EnrollmentStays(log, store.log, |log|, subject, found);
      k, enrollment := |log|, found;
      if Blank(found.secret) || found.createdAt == ZERO_TIME || found.expiresAt <= found.createdAt {
        return Err(InvalidRecord), k, enrollment, at;
      }
      if at >= found.expiresAt {
        return Err(Failure.InvalidCode), k, enrollment, at;
      }
      var matched := MatchCounter(hotp, found.secret, code, at);
      if matched.None? {
        return Err(InvalidRecord), k, enrollment, at;
      }
      if matched.value.None? {
        return Err(Failure.InvalidCode), k, enrollment, at;
      }
      return Ok(matched.value.value), k, enrollment, at;
    }

    /** What a stored enrollment answers to a code. */
    ghost predicate EnrollmentAnswer(enrollment: Enrollment, code: string, at: Time, r: Result<nat, Failure>) {
      if !ValidEnrollment(enrollment) then r == Err(InvalidRecord)
      else if at >= enrollment.expiresAt then r == Err(Failure.InvalidCode)
      else MatchAnswer(enrollment.secret, code, at, r)
    }

    /** The counter that the code matches first, if it matches any; a secret that cannot be decoded is invalid. */
    ghost predicate MatchAnswer(secret: string, code: string, at: Time, r: Result<nat, Failure>) {
      match r
      case Ok(counter) => FirstMatch(hotp, secret, code, at, counter)
      case Err(error) =>
        if Decodable(hotp, secret) then
          error == Failure.InvalidCode && forall counter: nat :: !Matches(hotp, secret, code, at, counter)
        else error == InvalidRecord || (error == Failure.InvalidCode && forall counter: nat :: !Matches(hotp, secret, code, at, counter))
    }

    /** The second half: recovery codes and the commit. */
    method EnableWith(subject: Id, counter: nat, supply: seq<string>, at: Time)
        returns (r: Result<seq<string>, Failure>, ghost n: nat)
      requires Valid() && at <= clock
      modifies this, store
      ensures Moved() && failures == old(failures) && (Healthy() && at != ZERO_TIME ==> Sane(RowsOf(store.db)))
      ensures r.Ok? ==>
        && |r.value| == config.recoveryCodeCount == |HashesOf(r.value)|
        && store.Made(n, Op.Enable(subject, counter, HashesOf(r.value), at), Nothing)
      ensures r.Err? ==> store.own == old(store.own)
      ensures r.Ok? && store.quiet ==>
        && subject in old(RowsOf(store.db)).enrollments && subject in RowsOf(store.db).credentials
        && RowsOf(store.db).credentials[subject].secret == old(RowsOf(store.db)).enrollments[subject].secret
      ensures store.quiet && subject in old(RowsOf(store.db)).enrollments && at < old(RowsOf(store.db)).enrollments[subject].expiresAt ==>
        r.Ok? || (r.error == Unavailable && Short(supply))
    {
      hide Step, Lawful, Replay, Sane, Consistent;
      n := 0;
      var codes, hashes := GenerateRecoveryCodes(hashCode, config.recoveryCodeCount, supply);
      if codes.None? {
        return Err(Unavailable), n;
      }
      DistinctCount(hashes);
      assert HashesOf(codes.value) == Elements(hashes);
      var op := Op.Enable(subject, counter, Elements(hashes), at);
      ghost var rows := RowsOf(store.db);
      var answer := Commit(op);
      if store.quiet { StepEnables(rows, RowsOf(store.db), op, answer); }
      if answer.Err? {
        return Err(if answer.error.NotFound? || answer.error.InactiveEnrollment? then Failure.InvalidCode else Unavailable), n;
      }
      if store.quiet {
        EnabledSecret(rows, RowsOf(store.db), op, answer);
      }
      n := |store.log| - 1;
      return Ok(codes.value), n;
    }

    /** The random source does not have as many codes with distinct hashes as are configured. */
    ghost predicate Short(supply: seq<string>) { |set draw | draw in supply :: hashCode(draw)| < config.recoveryCodeCount }

    /**
      ConfirmEnrollment: one commit of the call enables the credential, starting from the counter that the code
      matched first for an unexpired enrollment which the subject had during the call, with exactly as many recovery
      codes, all distinct, as are configured and returned. What is enabled is the secret of the enrollment begun last
      before the commit: secrets being fresh, the one matched exactly if the subject began no other one in between, and
      without overlapping calls always. Then, too, a code that matches is accepted, and one that matches nothing is not.
    */
    method ConfirmEnrollment(subject: Id, code: string, supply: seq<string>)
        returns (r: Result<seq<string>, Failure>, ghost n: nat, ghost k: nat, ghost enrollment: Enrollment, ghost at: Time, ghost counter: nat)
      requires Valid()
      modifies this, store
      ensures Went() && old(clock) <= at <= clock
      ensures r.Ok? ==>
        && |r.value| == config.recoveryCodeCount == |HashesOf(r.value)|
        && |old(store.log)| <= k <= n && SawEnrollment(store.log, k, Trim(subject), enrollment)
        && at < enrollment.expiresAt && FirstMatch(hotp, enrollment.secret, code, at, counter)
        && store.Made(n, Op.Enable(Trim(subject), counter, HashesOf(r.value), at), Nothing)
      ensures r.Ok? ==>
        && Latest(store.log[..n], Trim(subject)).Some?
        && TurnedOn(store.log, n, Trim(subject), Latest(store.log[..n], Trim(subject)).value.secret, counter)
        && Latest(store.log[..k], Trim(subject)) == Some(enrollment)
        && (FreshBetween(store.log, k, n, Trim(subject), enrollment.secret) ==>
              (TurnedOn(store.log, n, Trim(subject), enrollment.secret, counter) <==> !BeganBetween(store.log, k, n, Trim(subject))))
      ensures r.Err? ==> store.own == old(store.own)
      ensures r.Ok? && store.quiet ==>
        Trim(subject) in RowsOf(store.db).credentials && RowsOf(store.db).credentials[Trim(subject)].secret == enrollment.secret
      ensures Trim(subject) == "" ==> r == Err(InvalidInput)
      ensures store.quiet && Trim(subject) != "" ==>
        if Trim(subject) !in old(RowsOf(store.db)).enrollments then r == Err(Failure.InvalidCode)
        else if r == Err(Unavailable) then Short(supply)
        else EnrollmentAnswer(old(RowsOf(store.db)).enrollments[Trim(subject)], code, at, if r.Ok? then Ok(counter) else Err(r.error))
    {
      hide Step, Sane, Lawful, Consistent, FirstMatch, Decodable, TurnedOn, FreshBetween, BeganBetween, Latest;
      n, k, enrollment, at, counter := 0, 0, Enrollment("", 0, 0), clock, 0;
      if Trim(subject) == "" {
        return Err(InvalidInput), n, k, enrollment, at, counter;
      }
      var checked, m, seen, now := CheckEnrollment(Trim(subject), code);
      k, enrollment, at := m, seen, now;
      if checked.Err? {
        return Err(checked.error), n, k, enrollment, at, counter;
      }
      counter := checked.value;
      ghost var log := store.log;
      r, n := EnableWith(Trim(subject), checked.value, supply, now);
      EnrollmentStays(log, store.log, k, Trim(subject), enrollment);
      if r.Ok? {
        EnabledAsChecked(store.log, k, n, Trim(subject), enrollment, counter);
      }
    }

    function HashesOf(codes: seq<string>): set<Digest> { set code | code in codes :: hashCode(code) }

    /** One attempt of BeginChallenge; None if the token was taken. */
    method ChallengeOnce(subject: Id)
        returns (r: Option<Result<string, Failure>>, ghost n: nat, ghost challenge: Challenge)
      requires Valid() && !Blank(subject)
      modifies this, store
      ensures Went()
      ensures r.Some? && r.value.Ok? ==> Begun(n, r.value.value, subject, challenge)
      ensures r.None? || r.value.Err? ==> store.own == old(store.own)
      ensures failures == old(failures) + if r.Some? && r.value.Ok? then 0 else 1
      ensures r.Some? && r.value.Err? ==> r.value.error == Unavailable
    {
      hide Step, Lawful, Replay, Sane, Blank, Consistent;
      var raw: string := *;
      n, challenge := 0, Challenge("", 0, 0);
      match hashToken(raw) {
        case None =>
          failures := failures + 1;
          return Some(Err(Unavailable)), n, challenge;
        case Some(token) =>
          var now := Now();
          ghost var rows := RowsOf(store.db);
          var begun := Challenge(subject, now, now + config.challengeLifetime);
          var answer := Commit(Op.CreateChallenge(token, begun));
          if store.quiet { StepBegins(rows, RowsOf(store.db), Op.CreateChallenge(token, begun), answer); }
          if answer.Err? {
            failures := failures + 1;  // without overlapping calls, the token is taken
            return if answer.error.Conflict? then None else Some(Err(Unavailable)), n, challenge;
          }
          n, challenge := |store.log| - 1, begun;
          return Some(Ok(raw)), n, challenge;
      }
    }

    /** Exactly one commit: the challenge behind the token, for the subject, from now, for the configured lifetime. */
    twostate predicate Begun(n: nat, new raw: string, subject: Id, new challenge: Challenge)
      reads this, store
    {
      && hashToken(raw).Some? && challenge.subject == subject && old(clock) <= challenge.createdAt <= clock
      && challenge.expiresAt == challenge.createdAt + config.challengeLifetime
      && store.Made(n, Op.CreateChallenge(hashToken(raw).value, challenge), Nothing)
    }

    /**
      BeginChallenge: a random token, which may collide. Without overlapping calls it fails only for a blank subject or
      a failing random source.
    */
    method BeginChallenge(subject: Id) returns (r: Result<string, Failure>, ghost n: nat, ghost challenge: Challenge)
      requires Valid()
      modifies this, store
      ensures Went()
      ensures r.Ok? ==> Begun(n, r.value, Trim(subject), challenge)
      ensures r.Err? ==> store.own == old(store.own)
      ensures r == Err(InvalidInput) <==> Blank(subject)
      ensures r.Err? ==> r.error in {InvalidInput, Unavailable, Failure.Conflict}
      ensures failures <= old(failures) + 3 && (r == Err(Failure.Conflict) ==> failures == old(failures) + 3)
      ensures !Blank(subject) ==> r.Ok? || old(failures) < failures
    {
      hide Step, Sane, Lawful, Consistent, Replay, Blank;
      n, challenge := 0, Challenge("", 0, 0);
      if Trim(subject) == "" {
        return Err(InvalidInput), n, challenge;
      }
      TrimmedIsNotBlank(subject);
      for attempt := 0 to 3
        invariant Went() && store.own == old(store.own)
        invariant failures == old(failures) + attempt
      {
        var answer;
        answer, n, challenge := ChallengeOnce(Trim(subject));
        if answer.Some? {
          return answer.value, n, challenge;
        }
      }
      return Err(Failure.Conflict), n, challenge;
    }

    /**
      FindChallenge reads the challenge and then, at a later moment, the credential of its subject: both as the store
      had them during the call, the challenge not yet expired. Without overlapping calls it finds every such pair.
    */
    method FindChallenge(raw: string)
        returns (r: Result<(Digest, Challenge, Credential), Failure>, ghost j: nat, ghost k: nat)
      requires Valid()
      modifies this, store
      ensures Went() && store.own == old(store.own)
      ensures r.Ok? ==>
        && hashToken(raw) == Some(r.value.0) && clock < r.value.1.expiresAt
        && |old(store.log)| <= j <= k && SawChallenge(store.log, j, r.value.0, r.value.1)
        && Saw(store.log, k, r.value.1.subject, r.value.2)
      ensures store.quiet ==> RowsOf(store.db) == old(RowsOf(store.db))
      ensures store.quiet && r.Ok? ==>
        r.value.1.subject in RowsOf(store.db).credentials && RowsOf(store.db).credentials[r.value.1.subject] == r.value.2
      ensures r.Err? ==> r.error == InvalidChallenge || r.error == InvalidRecord
      ensures hashToken(raw).None? ==> r == Err(InvalidChallenge)
      ensures store.quiet && hashToken(raw).Some? ==>
        var rows, token := old(RowsOf(store.db)), hashToken(raw).value;
        if token !in rows.challenges || !Enabled(rows, rows.challenges[token].subject) then r == Err(InvalidChallenge)
        else
          var challenge := rows.challenges[token];
          var credential := rows.credentials[challenge.subject];
          r == if !ValidChallenge(challenge) || !ValidCredential(credential) then Err(InvalidRecord)
               else if clock >= challenge.expiresAt then Err(InvalidChallenge)
               else Ok((token, challenge, credential))
      ensures store.quiet && hashToken(raw).Some? ==>
        if r.Ok? then Stands(old(RowsOf(store.db)), r.value.0, clock, r.value.1, r.value.2)
        else !Ready(old(RowsOf(store.db)), hashToken(raw).value, clock)
      ensures Healthy() && r.Err? ==> r.error == InvalidChallenge
    {
      hide Step, Lawful, Consistent, Blank, Replay;
      j, k := 0, 0;
      if hashToken(raw).None? {
        return Err(InvalidChallenge), j, k;
      }
      var token := hashToken(raw).value;
      var rows := Look();
      if token !in rows.challenges {
        return Err(InvalidChallenge), j, k;
      }
      var challenge := rows.challenges[token];
      ghost var log := store.log;
      assert log[..|log|] == log;
      rows := Look();
      j, k := |log|, |store.log|;
      ChallengeStays(log, store.log, j, token, challenge);
      if challenge.subject !in rows.credentials || rows.credentials[challenge.subject].disabledAt.Some? {
        return Err(InvalidChallenge), j, k;
      }
      var credential := rows.credentials[challenge.subject];
      if Blank(challenge.subject) || challenge.createdAt == ZERO_TIME || challenge.expiresAt <= challenge.createdAt
         || Blank(credential.secret) || credential.enabledAt == ZERO_TIME {
        return Err(InvalidRecord), j, k;
      }
      if clock >= challenge.expiresAt {
        return Err(InvalidChallenge), j, k;
      }
      assert store.log[..|store.log|] == store.log;
      return Ok((token, challenge, credential)), j, k;
    }

    /** Exactly one commit: it consumed the challenge and recorded a counter which `code` matches for the secret seen. */
    twostate predicate Verified(n: nat, token: Digest, subject: Id, seen: Credential, code: string, counter: nat,
        at: Time)
      reads this, store
    {
      && FirstMatch(hotp, seen.secret, code, at, counter) && (seen.counter.Some? ==> seen.counter.value < counter)
      && store.Made(n, Op.CompleteCode(token, counter, at), For(subject))
    }

    /**
      What a ready challenge and its subject's credential answer to a code: yes exactly if the counter that the code
      matches first exceeds the recorded one.
    */
    ghost predicate CodeAnswer(subject: Id, credential: Credential, code: string, at: Time, counter: nat,
        r: Result<Id, Failure>) {
      match r
      case Ok(id) =>
        && id == subject && FirstMatch(hotp, credential.secret, code, at, counter)
        && (credential.counter.Some? ==> credential.counter.value < counter)
      case Err(error) =>
        && (error == Failure.InvalidCode || (error == InvalidRecord && !Decodable(hotp, credential.secret)))
        && (error == Failure.InvalidCode ==>
              forall other: nat :: FirstMatch(hotp, credential.secret, code, at, other) ==>
                credential.counter.Some? && other <= credential.counter.value)
    }

    /** A commit may still be followed by a failure if the challenge it consumed turns out to be another subject's. */
    method VerifyFound(token: Digest, challenge: Challenge, credential: Credential, code: string)
        returns (r: Result<Id, Failure>, ghost n: nat, ghost counter: nat, ghost at: Time)
      requires Valid()
      modifies this, store
      ensures Went() && old(clock) <= at <= clock
      ensures r.Ok? ==> r.value == challenge.subject && Verified(n, token, r.value, credential, code, counter, at)
      ensures r.Ok? && store.quiet ==>
        Stepped(Step, old(RowsOf(store.db)), RowsOf(store.db), Op.CompleteCode(token, counter, at), Ok(For(r.value)))
      ensures r.Err? && r.error != InvalidRecord ==> store.own == old(store.own)
      ensures store.quiet && Stands(old(RowsOf(store.db)), token, clock, challenge, credential) ==>
        CodeAnswer(challenge.subject, credential, code, at, counter, r)
    {
      hide Step, Sane, Lawful, Consistent, Matches, Replay, Ready, Stands;
      n, counter, at := 0, 0, clock;
      var now := Now();
      at := now;
      ghost var rows := RowsOf(store.db);
      var matched := MatchCounter(hotp, credential.secret, code, now);
      if matched.None? {
        return Err(InvalidRecord), n, counter, at;
      }
      if matched.value.None? || (credential.counter.Some? && matched.value.value <= credential.counter.value) {
        if matched.value.Some? { OnlyFirst(credential.secret, code, now, matched.value.value); }
        return Err(Failure.InvalidCode), n, counter, at;
      }
      counter := matched.value.value;
      r, n := CompleteFound(token, challenge.subject, matched.value.value, now);
      if store.quiet && Stands(rows, token, clock, challenge, credential) { StandsSo(rows, token, clock, challenge, credential); }
    }

    method CompleteFound(token: Digest, subject: Id, counter: nat, at: Time) returns (r: Result<Id, Failure>, ghost n: nat)
      requires Valid() && at <= clock
      modifies this, store
      ensures Went()
      ensures r.Ok? ==> r.value == subject && store.Made(n, Op.CompleteCode(token, counter, at), For(r.value))
      ensures r.Ok? && store.quiet ==>
        Stepped(Step, old(RowsOf(store.db)), RowsOf(store.db), Op.CompleteCode(token, counter, at), Ok(For(r.value)))
      ensures r.Err? && r.error != InvalidRecord ==> store.own == old(store.own)
      ensures store.quiet && Ready(old(RowsOf(store.db)), token, clock) && old(RowsOf(store.db)).challenges[token].subject == subject ==>
        var recorded := old(RowsOf(store.db)).credentials[subject].counter;
        r.Ok? == (recorded.None? || recorded.value < counter)
    {
      hide Step, Lawful, Replay, Sane, Consistent, Ready;
      n := 0;
      ghost var rows := RowsOf(store.db);
      var answer := Commit(Op.CompleteCode(token, counter, at));
      if store.quiet && Ready(rows, token, clock) { AcceptedWhenReady(rows, RowsOf(store.db), token, counter, at, clock, answer); }
      if answer.Err? {
        return Err(FailureOf(answer.error)), n;
      }
      if answer.value != For(subject) {
        return Err(InvalidRecord), n;
      }
      n := |store.log| - 1;
      return Ok(subject), n;
    }

    lemma OnlyFirst(secret: string, code: string, at: Time, first: nat)
      requires FirstMatch(hotp, secret, code, at, first)
      ensures forall other: nat :: FirstMatch(hotp, secret, code, at, other) ==> other == first
    {
      forall other: nat | FirstMatch(hotp, secret, code, at, other) ensures other == first {
        FirstIsOne(hotp, secret, code, at, first, other);
      }
    }

    /**
      Verify: success means that one commit of this call consumed the challenge and recorded the counter that the
      code matches first, within a step of a time during the call, for the secret that the subject's enabled credential
      showed during the call: secrets being fresh, the stored one at the commit exactly if the subject enabled no other
      in between. Without overlapping calls the commit is one step from rows with that very credential, and a ready
      challenge is completed exactly if that counter exceeds the recorded one.
    */
    method Verify(raw: string, code: string)
        returns (r: Result<Id, Failure>, ghost n: nat, ghost k: nat, ghost counter: nat, ghost at: Time, ghost seen: Credential)
      requires Valid()
      modifies this, store
      ensures Went() && old(clock) <= at <= clock
      ensures r.Ok? ==>
        && hashToken(raw).Some? && Verified(n, hashToken(raw).value, r.value, seen, code, counter, at)
        && |old(store.log)| <= k <= n && Saw(store.log, k, r.value, seen)
        && (NewBetween(store.log, k, n, r.value, seen.secret) ==>
              (SecretAt(store.log, n, r.value) == Some(seen.secret) <==> !EnabledBetween(store.log, k, n, r.value)))
      ensures r.Ok? && store.quiet ==>
        && r.value in old(RowsOf(store.db)).credentials && old(RowsOf(store.db)).credentials[r.value] == seen
        && Stepped(Step, old(RowsOf(store.db)), RowsOf(store.db),
                   Op.CompleteCode(hashToken(raw).value, counter, at), Ok(For(r.value)))
      ensures r.Err? && r.error != InvalidRecord ==> store.own == old(store.own)
      ensures hashToken(raw).None? ==> r == Err(InvalidChallenge)
      ensures store.quiet && hashToken(raw).Some? && Ready(old(RowsOf(store.db)), hashToken(raw).value, clock) ==>
        var rows := old(RowsOf(store.db));
        var subject := rows.challenges[hashToken(raw).value].subject;
        CodeAnswer(subject, rows.credentials[subject], code, at, counter, r)
      ensures store.quiet && hashToken(raw).Some? && !Ready(old(RowsOf(store.db)), hashToken(raw).value, old(clock)) ==>
        && (r == Err(InvalidChallenge) || r == Err(InvalidRecord)) && (Healthy() ==> r == Err(InvalidChallenge))
        && RowsOf(store.db) == old(RowsOf(store.db))
    {
      hide Step, Lawful, Sane, Consistent, FirstMatch, Decodable, Replay, Blank;
      n, counter, at, seen := 0, 0, clock, Credential("", 0, None, None);
      ghost var rows := RowsOf(store.db);
      ghost var start := clock;
      var found, j, m := FindChallenge(raw);
      k := m;
      ghost var middle := clock;
      if store.quiet && hashToken(raw).Some? && Ready(rows, hashToken(raw).value, middle) {
        ReadyEarlier(rows, hashToken(raw).value, start, middle);
      }
      if found.Err? {
        return Err(found.error), n, k, counter, clock, seen;
      }
      seen := found.value.2;
      ghost var log := store.log;
      r, n, counter, at := VerifyFound(found.value.0, found.value.1, found.value.2, code);
      SawStays(log, store.log, k, found.value.1.subject, seen);
      if r.Ok? && NewBetween(store.log, k, n, r.value, seen.secret) {
        AcceptsChecked(store.log, k, n, r.value);
      }
    }

    /**
      Recover: success means that one commit of this call consumed the recovery code and a challenge of the subject
      that was pending during the call, when the subject's credential was seen enabled. Without overlapping calls a
      ready challenge is completed exactly if the code is one of the subject's and unused.
    */
    method Recover(raw: string, code: string)
        returns (r: Result<Id, Failure>, ghost n: nat, ghost k: nat, ghost at: Time, ghost seen: Credential)
      requires Valid()
      modifies this, store
      ensures Went() && old(clock) <= at <= clock
      ensures r.Ok? ==>
        && hashToken(raw).Some? && Trim(code) != ""
        && store.Made(n, Op.CompleteRecovery(hashToken(raw).value, hashCode(Trim(code)), at), For(r.value))
        && |old(store.log)| <= k <= n && Saw(store.log, k, r.value, seen)
      ensures r.Err? && r.error != InvalidRecord ==> store.own == old(store.own)
      ensures hashToken(raw).None? ==> r == Err(InvalidChallenge)
      ensures store.quiet && hashToken(raw).Some? && Ready(old(RowsOf(store.db)), hashToken(raw).value, clock) ==>
        var rows := old(RowsOf(store.db));
        var key := CodeKey(rows.challenges[hashToken(raw).value].subject, hashCode(Trim(code)));
        r == if Trim(code) != "" && key in rows.codes && rows.codes[key] == Unused then Ok(key.subject) else Err(Failure.InvalidCode)
      ensures store.quiet && hashToken(raw).Some? && !Ready(old(RowsOf(store.db)), hashToken(raw).value, old(clock)) ==>
        && (r == Err(InvalidChallenge) || r == Err(InvalidRecord)) && (Healthy() ==> r == Err(InvalidChallenge))
        && RowsOf(store.db) == old(RowsOf(store.db))
    {
      hide Step, Lawful, Sane, Consistent, Replay, Blank;
      n, at, seen := 0, clock, Credential("", 0, None, None);
      ghost var rows := RowsOf(store.db);
      ghost var start := clock;
      var found, j, m := FindChallenge(raw);
      k := m;
      ghost var middle := clock;
      if store.quiet && hashToken(raw).Some? && Ready(rows, hashToken(raw).value, middle) {
        ReadyEarlier(rows, hashToken(raw).value, start, middle);
      }
      if found.Err? {
        return Err(found.error), n, k, clock, seen;
      }
      if Trim(code) == "" {
        return Err(Failure.InvalidCode), n, k, clock, seen;
      }
      seen := found.value.2;
      ghost var log := store.log;
      r, n, at := RecoverFound(found.value.0, found.value.1.subject, hashCode(Trim(code)));
      SawStays(log, store.log, k, found.value.1.subject, seen);
    }

    method RecoverFound(token: Digest, subject: Id, hash: Digest)
        returns (r: Result<Id, Failure>, ghost n: nat, ghost at: Time)
      requires Valid()
      modifies this, store
      ensures Went() && old(clock) <= at <= clock
      ensures r.Ok? ==> r.value == subject && store.Made(n, Op.CompleteRecovery(token, hash, at), For(r.value))
      ensures r.Err? && r.error != InvalidRecord ==> store.own == old(store.own)
      ensures store.quiet && Ready(old(RowsOf(store.db)), token, clock) && old(RowsOf(store.db)).challenges[token].subject == subject ==>
        var key := CodeKey(subject, hash);
        r == if key in old(RowsOf(store.db)).codes && old(RowsOf(store.db)).codes[key] == Unused then Ok(subject)
             else Err(Failure.InvalidCode)
    {
      hide Step, Lawful, Replay, Sane, Consistent, Ready;
      n := 0;
      var now := Now();
      at := now;
      ghost var rows := RowsOf(store.db);
      var answer := Commit(Op.CompleteRecovery(token, hash, now));
      if store.quiet && Ready(rows, token, clock) { RecoveredWhenReady(rows, RowsOf(store.db), token, hash, now, clock, answer); }
      if answer.Err? {
        return Err(FailureOf(answer.error)), n, at;
      }
      if answer.value != For(subject) {
        return Err(InvalidRecord), n, at;
      }
      n := |store.log| - 1;
      return Ok(subject), n, at;
    }

    /**
      Disable: one commit of the call, after which no recovery code of the subject is left. Without overlapping calls it
      fails only for a blank subject or one without a credential.
    */
    method Disable(subject: Id) returns (error: Option<Failure>, ghost n: nat, ghost at: Time)
      requires Valid()
      modifies this, store
      ensures Went() && old(clock) <= at <= clock
      ensures if error.None? then store.Made(n, Op.Disable(Trim(subject), at), Nothing) else store.own == old(store.own)
      ensures error.None? ==> SwitchedOff(RowsOf(store.db), Trim(subject))
      ensures error == Some(InvalidInput) <==> Trim(subject) == ""
      ensures store.quiet && Trim(subject) != "" ==>
        error == if Trim(subject) in old(RowsOf(store.db)).credentials then None else Some(Failure.NotFound)
    {
      hide Step, Lawful, Replay, Sane, Consistent, SwitchedOff;
      n, at := 0, clock;
      if Trim(subject) == "" {
        return Some(InvalidInput), n, at;
      }
      var now := Now();
      at := now;
      ghost var rows := RowsOf(store.db);
      var answer := Commit(Op.Disable(Trim(subject), now));
      if store.quiet { StepDisables(rows, RowsOf(store.db), Op.Disable(Trim(subject), now), answer); }
      if answer.Err? {
        return Some(if answer.error.NotFound? then Failure.NotFound else Unavailable), n, at;
      }
      n := |store.log| - 1;
      return None, n, at;
    }
  }

  /** In every state of the store a subject's recovery set is empty unless the subject's credential is enabled. */
  lemma RecoverySetsNeedEnabled(store: TotpStore, subject: Id)
    requires store.Valid() && store.c == CODE && store.s == SPEC
    ensures Watch.At(store.db.bySubject, subject).value != {} ==> Enabled(RowsOf(store.db), subject)
  {
    assert Replay(Step, EMPTY, store.log) == Some(RowsOf(store.db));
    if field :| field in Watch.At(store.db.bySubject, subject).value {
      assert field in FieldsOf(store.db.recovery.value, subject) && WellFormed(field);
      CodesAt(store.db.recovery.value, Parse(field));
      CodesOnlyWhenEnabled(store.log, Parse(field));
    }
  }
}
