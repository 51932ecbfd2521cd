/** The email and password manager: logins with conditional rehash and compare-and-swap changes. */
module EmailPassword {
  import opened Common
  import opened Serial
  import opened AccountRows
  import opened AccountHistory
  import opened AccountLog
  import opened AccountStore
  import opened Optimistic

  datatype Failure =
    | InvalidInput | InvalidRecord | InvalidCredentials | PasswordUnchanged | RegistrationUnavailable | LastMethod
    | Unavailable

  datatype Verification = Verification(matches: bool, needsRehash: bool)

  /** The password hasher: `verify` may fail on a malformed hash, `hash` draws a salt and may fail too. */
  datatype Passwords = Passwords(
    verify: (string, string) -> Option<Verification>,   // password, hash
    hash: (string, string) -> Option<string>)           // password, salt

  predicate Verifies(passwords: Passwords, password: string, hash: string) {
    passwords.verify(password, hash).Some? && passwords.verify(password, hash).value.matches
  }

  /** A hash just made verifies its password. */
  ghost predicate Sound(passwords: Passwords) {
    forall password, salt :: passwords.hash(password, salt).Some? ==>
      Verifies(passwords, password, passwords.hash(password, salt).value)
  }

  /** Of the known passwords, `plain` gives the one that a hash verifies, if there is one. */
  ghost predicate Honest(passwords: Passwords, plain: string -> Option<string>, known: set<string>, hashes: set<string>) {
    forall password, hash :: password in known && hash in hashes ==>
      (Verifies(passwords, password, hash) <==> plain(hash) == Some(password))
  }

  /** No two of the known passwords are verified by the same hash. */
  ghost predicate Separate(passwords: Passwords, known: set<string>, hashes: set<string>) {
    forall first, second, hash ::
      (first in known && second in known && hash in hashes
       && Verifies(passwords, first, hash) && Verifies(passwords, second, hash)) ==> first == second
  }

  ghost function PlainOf(passwords: Passwords, known: set<string>, hash: string): Option<string> {
    if exists password :: password in known && Verifies(passwords, password, hash)
    then var password :| password in known && Verifies(passwords, password, hash); Some(password)
    else None
  }

  /** Then the known password that a hash verifies is its plaintext. */
  lemma SeparateIsHonest(passwords: Passwords, known: set<string>, hashes: set<string>)
    requires Separate(passwords, known, hashes)
    ensures Honest(passwords, hash => PlainOf(passwords, known, hash), known, hashes)
  {
    forall password, hash | password in known && hash in hashes
      ensures Verifies(passwords, password, hash) <==> PlainOf(passwords, known, hash) == Some(password)
    {
      var found := PlainOf(passwords, known, hash);
    }
  }

  /** The hash verified the password and asked for a rehash, and the replacement is a new hash of that password. */
  predicate Rehashes(passwords: Passwords, password: string, salt: string, hash: string, replacement: string) {
    passwords.verify(password, hash) == Some(Verification.Verification(true, true)) && passwords.hash(password, salt) == Some(replacement)
  }

  // ---------------------------------------------------------------- calls of the store

  lemma SaysNothing(op: Op, view: Db)
    requires op.ReplaceHash? || op.RemovePassword?
    ensures Body(op, view).Commit? ==> Body(op, view).reply == Nothing
  {}

  /** An account operation through the WATCH loop. */
  method Perform(store: AccountStore, op: Op) returns (r: Result<Reply, Error>)
    requires store.Valid() && store.c == CODE && store.s == SPEC && Draws(op) <= store.drawn
    modifies store
    ensures store.Steady() && store.MadeExactly(op, r)
    ensures r.Ok? && (op.ReplaceHash? || op.RemovePassword?) ==> r.value == Nothing
    ensures store.quiet ==> Stepped(Step, RowsOf(old(store.db)), RowsOf(store.db), op, r)
    ensures store.quiet && Replay(Step, EMPTY, old(store.log)) == Some(RowsOf(old(store.db))) ==>
      CalledFor(old(store.log), op, if r.Ok? then Done(RowsOf(store.db), r.value) else Refused(r.error))
  {
    hide Step, Body, Consistent, Replay, CalledFor;
    ghost var rows, log := RowsOf(store.db), store.log;
    var answer, view, committed := store.Run(op);
    NeverSkips(op, view);
    r := answer;
    if op.ReplaceHash? || op.RemovePassword? {
      SaysNothing(op, view);
    }
    if store.quiet && Replay(Step, EMPTY, log) == Some(rows) {
      StepAnswers(log, rows, RowsOf(store.db), op, r);
    }
  }

  /** One read outside any transaction. */
  method Look(store: AccountStore) returns (db: Db)
    requires store.Valid() && store.c == CODE && store.s == SPEC
    modifies store
    ensures store.Steady() && db == store.db && Consistent(db) && store.own == old(store.own)
    ensures Replay(Step, EMPTY, store.log) == Some(RowsOf(db))
    ensures store.drawn == old(store.drawn) && (store.quiet ==> db == old(store.db))
  {
    hide Step;
    store.Others();
    db := store.db;
  }

  // ---------------------------------------------------------------- the manager

  datatype Found = Found(user: Id, email: string, hash: string)

  ghost predicate IsAccount(rows: Rows, found: Found) {
    && found.user in rows.users && rows.users[found.user].email == found.email
    && found.user in rows.passwords && rows.passwords[found.user].hash == found.hash
  }

  predicate HasEmail(rows: Rows, user: Id, email: string) {
    user in rows.users && rows.users[user].email == email
  }

  /** After `k` commits the user had this password hash. */
  ghost predicate HadHash(log: History, k: nat, user: Id, hash: string) {
    && k <= |log| && Replay(Step, EMPTY, log[..k]).Some?
    && user in Replay(Step, EMPTY, log[..k]).value.passwords
    && Replay(Step, EMPTY, log[..k]).value.passwords[user].hash == hash
  }

  lemma HadStays(log: History, later: History, k: nat, user: Id, hash: string)
    requires HadHash(log, k, user, hash) && log <= later
    ensures HadHash(later, k, user, hash)
  {
    assert later[..k] == log[..k];
  }

  lemma KeepsEmail(log: History, later: History, user: Id)
    requires log <= later && Replay(Step, EMPTY, later).Some?
    ensures Replay(Step, EMPTY, log).Some?
    ensures user in Replay(Step, EMPTY, log).value.users ==>
      && user in Replay(Step, EMPTY, later).value.users
      && Replay(Step, EMPTY, later).value.users[user].email == Replay(Step, EMPTY, log).value.users[user].email
  {
    assert later[..|log|] == log;
    forall a, b, c | UsersKept(a, b) && UsersKept(b, c) ensures UsersKept(a, c) { UsersKeptIsTransitive(a, b, c); }
    forall rows, op | Step(rows, op).Done? ensures UsersKept(rows, Step(rows, op).rows) { StepKeepsUsers(rows, op); }
    Climbs(Step, EMPTY, UsersKept, later, |log|);
  }

  /** The index of addresses is exact: it leads to the one user with the address, if there is one. */
  lemma EmailIndexed(db: Db, email: string)
    requires Consistent(db)
    ensures email in db.emails.value ==> HasEmail(RowsOf(db), db.emails.value[email], email)
    ensures forall found: Found :: IsAccount(RowsOf(db), found) && found.email == email ==>
      email in db.emails.value && found.user == db.emails.value[email]
  {}

  lemma OneAccount(db: Db, account: Found)
    requires Consistent(db) && IsAccount(RowsOf(db), account)
    ensures forall found: Found :: IsAccount(RowsOf(db), found) && found.email == account.email ==> found == account
  {
    EmailIndexed(db, account.email);
  }

  /** A rehash of a hash that is still the account's is not refused. */
  lemma StepRehashes(rows: Rows, after: Rows, found: Found, replacement: string, at: Time, r: Result<Reply, Error>)
    requires Stepped(Step, rows, after, ReplaceHash(found.user, found.hash, replacement, at), r) && IsAccount(rows, found)
    ensures r.Ok?
  {}

  /** Another way to sign in than the password. */
  ghost predicate HasOther(rows: Rows, user: Id) {
    GoogleOf(rows.google, user) != {} || PasskeysOf(rows.passkeys, user) != {}
  }

  lemma StepRemoves(rows: Rows, after: Rows, found: Found, r: Result<Reply, Error>)
    requires Stepped(Step, rows, after, Op.RemovePassword(found.user, found.hash), r) && IsAccount(rows, found)
    ensures if HasOther(rows, found.user) then r.Ok? else r == Err(Error.LastCredential)
  {}

  lemma StepAdds(rows: Rows, after: Rows, user: Id, hash: string, at: Time, r: Result<Reply, Error>)
    requires Stepped(Step, rows, after, Op.AddPassword(user, hash, at), r)
    ensures r.Ok? <==> user in rows.users && user !in rows.passwords
  {}

  lemma StepRegisters(rows: Rows, after: Rows, op: Op, r: Result<Reply, Error>)
    requires op.Register? && Stepped(Step, rows, after, op, r)
    requires op.drawn.id !in rows.users && !HandleTaken(rows, op.drawn.handle)
    ensures if EmailTaken(rows, op.email) then r == Err(Error.Conflict) else r.Ok?
  {}

  /** What was drawn and not used is nobody's. */
  lemma DrawnIsFree(db: Db, drawn: Drawn, unused: set<Id>)
    requires Consistent(db) && {drawn.id, drawn.handle} <= unused && unused !! Names(db)
    ensures drawn.id !in RowsOf(db).users && !HandleTaken(RowsOf(db), drawn.handle)
  {
    assert drawn.handle in unused && drawn.id in unused;
    forall user | user in RowsOf(db).users ensures RowsOf(db).users[user].handle != drawn.handle {
      assert RowsOf(db).users[user].handle in db.handles.value;
    }
  }

  /** What the last commit replied. */
  lemma AddReplies(log: History, op: Op, reply: Reply)
    requires Replay(Step, EMPTY, log).Some? && CommittedLast(log, op, reply) && op.AddPassword?
    ensures var users := Replay(Step, EMPTY, log).value.users;
      op.subject in users && reply == UserReply(op.subject, users[op.subject].email)
  {}

  lemma RegisterReplies(log: History, op: Op, reply: Reply)
    requires Replay(Step, EMPTY, log).Some? && CommittedLast(log, op, reply) && op.Register?
    ensures reply == UserReply(op.drawn.id, op.email)
  {}

  /** The user, the address or the hash is blank. */
  predicate Spoilt(found: Found) { Blank(found.user) || Blank(found.email) || Blank(found.hash) }

  class Manager {
    const store: AccountStore
    const passwords: Passwords
    const normalize: string -> Option<string>   // normalizeAndValidateEmail
    const dummyHash: string
    var clock: Time

    ghost predicate Valid()
      reads this, store
    {
      && store.Valid() && store.c == CODE && store.s == SPEC
      && Replay(Step, EMPTY, store.log) == Some(RowsOf(store.db))
      && Sound(passwords)
    }

    constructor (store: AccountStore, passwords: Passwords, normalize: string -> Option<string>, dummyHash: string, clock: Time)
      requires store.Valid() && store.c == CODE && store.s == SPEC
      requires Replay(Step, EMPTY, store.log) == Some(RowsOf(store.db)) && Sound(passwords)
      ensures Valid() && this.store == store && this.passwords == passwords && this.normalize == normalize
    {
      this.store, this.passwords, this.normalize, this.dummyHash, this.clock := store, passwords, normalize, dummyHash, clock;
    }

    twostate predicate Went()
      reads this, store
    {
      Valid() && old(store.log) <= store.log && old(clock) <= clock
    }

    /** findBySubject reads the user and then, at a later moment, the password. */
    method FindBySubject(user: Id) returns (r: Option<Found>, ghost k: nat)
      requires Valid()
      modifies store
      ensures Went() && store.own == old(store.own) && store.drawn == old(store.drawn)
      ensures r.Some? ==>
        && r.value.user == user && |old(store.log)| <= k && HadHash(store.log, k, user, r.value.hash)
        && IsAccount(RowsOf(store.db), r.value)
      ensures store.quiet ==>
        && RowsOf(store.db) == RowsOf(old(store.db))
        && (r.None? <==> user !in RowsOf(store.db).users || user !in RowsOf(store.db).passwords)
    {
      hide Step, Consistent, Lawful;
      k := |store.log|;
      var first := Look(store);
      if user !in first.users.value {
        return None, k;
      }
      ghost var log := store.log;
      var second := Look(store);
      KeepsEmail(log, store.log, user);
      if user !in second.passwords.value {
        return None, k;
      }
      k := |store.log|;
      assert store.log[..k] == store.log;
      return Some(Found(user, first.users.value[user].email, second.passwords.value[user].hash)), k;
    }

    /** FindByEmail looks the address up first; the record it leads to always has that address. */
    method FindByEmail(email: string) returns (r: Option<Found>, ghost k: nat)
      requires Valid()
      modifies store
      ensures Went() && store.own == old(store.own) && store.drawn == old(store.drawn)
      ensures r.Some? ==>
        && r.value.email == email && IsAccount(RowsOf(store.db), r.value)
        && |old(store.log)| <= k && HadHash(store.log, k, r.value.user, r.value.hash)
      ensures store.quiet ==>
        && RowsOf(store.db) == RowsOf(old(store.db))
        && (r.None? ==> forall found :: IsAccount(RowsOf(store.db), found) ==> found.email != email)
    {
      hide Lawful, Consistent;
      k := 0;
      var db := Look(store);
      EmailIndexed(db, email);
      if email !in db.emails.value {
        return None, k;
      }
      var user := db.emails.value[email];
      ghost var log := store.log;
      r, k := FindBySubject(user);
      if r.Some? {
        KeepsEmail(log, store.log, user);
      }
    }

    predicate Matches(hash: string, password: string) { Verifies(passwords, password, hash) }

    /** What a login does after the lookup. Without overlapping calls it fails only for want of a match or of a salt. */
    method Authenticate(found: Found, password: string, salt: string)
        returns (r: Result<bool, Failure>, ghost n: nat, ghost replacement: string, ghost at: Time)
      requires Valid()
      modifies this, store
      ensures Went() && old(clock) <= at <= clock
      ensures r.Ok? ==> Matches(found.hash, password)
      ensures r == Ok(true) ==>
        && Matches(replacement, password) && Rehashes(passwords, password, salt, found.hash, replacement)
        && store.Made(n, ReplaceHash(found.user, found.hash, replacement, at), Nothing)
      ensures r != Ok(true) ==> store.own == old(store.own)
      ensures !Matches(found.hash, password) ==> r == Err(InvalidCredentials)
      ensures store.quiet && IsAccount(old(RowsOf(store.db)), found) && Matches(found.hash, password) ==>
        if !passwords.verify(password, found.hash).value.needsRehash then r == Ok(false)
        else if passwords.hash(password, salt).None? then r == Err(Unavailable)
        else r == Ok(true)
    {
      hide Step, Consistent, Lawful, Sound, Replay;
      n, replacement, at := 0, "", clock;
      var verified := passwords.verify(password, found.hash);
      if verified.None? || !verified.value.matches {
        return Err(InvalidCredentials), n, replacement, at;
      }
      if !verified.value.needsRehash {
        return Ok(false), n, replacement, at;
      }
      var hashed := passwords.hash(password, salt);
      if hashed.None? {
        return Err(Unavailable), n, replacement, at;
      }
      replacement := hashed.value;
      FreshVerifies(password, salt);
      ghost var rows := RowsOf(store.db);
      var answer := Perform(store, ReplaceHash(found.user, found.hash, hashed.value, clock));
      if store.quiet && IsAccount(rows, found) {
        StepRehashes(rows, RowsOf(store.db), found, hashed.value, clock, answer);
      }
      if answer.Err? {
        return Err(if answer.error.Conflict? || answer.error.NotFound? then InvalidCredentials else Unavailable), n, replacement, at;
      }
      n := |store.log| - 1;
      return Ok(true), n, replacement, at;
    }

    lemma FreshVerifies(password: string, salt: string)
      requires Valid() && passwords.hash(password, salt).Some?
      ensures Matches(passwords.hash(password, salt).value, password)
    {}

    /** What a login answers when nothing interferes: by the account's own hash, if there is one that is not spoilt. */
    ghost predicate LoginAnswer(found: Found, password: string, salt: string, r: Result<(Found, bool), Failure>) {
      if Spoilt(found) then r == Err(InvalidRecord)
      else if !Matches(found.hash, password) then r == Err(InvalidCredentials)
      else if !passwords.verify(password, found.hash).value.needsRehash then r == Ok((found, false))
      else if passwords.hash(password, salt).None? then r == Err(Unavailable)
      else r == Ok((found, true))
    }

    /**
      Login. Success means that the password verifies the hash that the account with this address showed during
      the call; a rehash replaced that very hash by one that the password verifies too; and a login that does not report
      a rehash has written nothing. An unknown address and a wrong password fail alike. Without overlapping calls the
      account answers exactly by its hash, and InvalidRecord is answered for a blank stored field only.
    */
    method Login(email: string, password: string, salt: string)
        returns (r: Result<(Found, bool), Failure>, ghost n: nat, ghost k: nat, ghost replacement: string, ghost at: Time)
      requires Valid()
      modifies this, store
      ensures Went() && old(clock) <= at <= clock
      ensures r.Ok? ==>
        && normalize(email) == Some(r.value.0.email) && Matches(r.value.0.hash, password)
        && HasEmail(RowsOf(store.db), r.value.0.user, r.value.0.email)
        && |old(store.log)| <= k && HadHash(store.log, k, r.value.0.user, r.value.0.hash)
      ensures r.Ok? && r.value.1 ==>
        && Matches(replacement, password) && Rehashes(passwords, password, salt, r.value.0.hash, replacement)
        && store.Made(n, ReplaceHash(r.value.0.user, r.value.0.hash, replacement, at), Nothing)
      ensures r.Err? || !r.value.1 ==> store.own == old(store.own)
      ensures normalize(email).None? ==> r == Err(InvalidCredentials)
      ensures store.quiet && normalize(email).Some? && !Knows(old(RowsOf(store.db)), normalize(email).value, password) ==>
        r == Err(InvalidCredentials) || r == Err(InvalidRecord)
      ensures store.quiet && normalize(email).Some? && r == Err(InvalidCredentials) ==>
        forall found: Found :: IsAccount(old(RowsOf(store.db)), found) && found.email == normalize(email).value ==>
          !Matches(found.hash, password)
      ensures store.quiet && normalize(email).Some? ==>
        && (forall found: Found :: IsAccount(old(RowsOf(store.db)), found) && found.email == normalize(email).value ==>
              LoginAnswer(found, password, salt, r))
        && ((forall found: Found :: IsAccount(old(RowsOf(store.db)), found) ==> found.email != normalize(email).value) ==>
              r == Err(InvalidCredentials))
    {
      hide Step, Consistent, Lawful, Sound, Replay, Verifies;
      n, k, replacement, at := 0, 0, "", clock;
      var found, m := Identify(email);
      k := m;
      if found.Err? {
        return Err(found.error), n, k, replacement, at;
      }
      if found.value.None? {
        var _ := passwords.verify(password, dummyHash);
        return Err(InvalidCredentials), n, k, replacement, at;
      }
      ghost var log := store.log;
      var answer;
      answer, n, replacement, at := Authenticate(found.value.value, password, salt);
      if store.quiet { OneAccount(old(store.db), found.value.value); }
      KeepsEmail(log, store.log, found.value.value.user);
      HadStays(log, store.log, k, found.value.value.user, found.value.value.hash);
      if answer.Err? {
        return Err(answer.error), n, k, replacement, at;
      }
      return Ok((found.value.value, answer.value)), n, k, replacement, at;
    }

    /** The account with this address, if the address is well-formed and known; a blank field is an error. */
    method Identify(email: string) returns (r: Result<Option<Found>, Failure>, ghost k: nat)
      requires Valid()
      modifies store
      ensures Went() && store.own == old(store.own) && store.drawn == old(store.drawn)
      ensures r.Err? ==> r.error == InvalidRecord
      ensures r.Ok? && r.value.Some? ==>
        && normalize(email) == Some(r.value.value.email) && !Spoilt(r.value.value)
        && HasEmail(RowsOf(store.db), r.value.value.user, r.value.value.email)
        && |old(store.log)| <= k && HadHash(store.log, k, r.value.value.user, r.value.value.hash)
      ensures normalize(email).None? ==> r == Ok(None)
      ensures store.quiet ==> RowsOf(store.db) == old(RowsOf(store.db))
      ensures store.quiet && r.Ok? && r.value.Some? ==> IsAccount(old(RowsOf(store.db)), r.value.value)
      ensures store.quiet && r == Ok(None) && normalize(email).Some? ==>
        forall found: Found :: IsAccount(old(RowsOf(store.db)), found) ==> found.email != normalize(email).value
      ensures store.quiet && normalize(email).Some? ==>
        forall found: Found :: IsAccount(old(RowsOf(store.db)), found) && found.email == normalize(email).value ==>
          r == if Spoilt(found) then Err(InvalidRecord) else Ok(Some(found))
      ensures store.quiet && r.Err? ==>
        exists found: Found :: IsAccount(old(RowsOf(store.db)), found) && Some(found.email) == normalize(email) && Spoilt(found)
    {
      hide Step, Consistent, Lawful, Sound, Replay, Blank;
      var found: Option<Found> := None;
      k := 0;
      if normalize(email).Some? {
        found, k := FindByEmail(normalize(email).value);
      }
      if store.quiet && found.Some? { OneAccount(store.db, found.value); }
      if found.Some? && (Blank(found.value.user) || Blank(found.value.email) || Blank(found.value.hash)) {
        return Err(InvalidRecord), k;
      }
      return Ok(found), k;
    }

    /** Some account with this address has this password. */
    ghost predicate Knows(rows: Rows, email: string, password: string)
    {
      exists found: Found :: IsAccount(rows, found) && found.email == email && Matches(found.hash, password)
    }

    /** The account of the user, as the rows have it. */
    ghost function AccountOf(rows: Rows, user: Id): Option<Found> {
      if user in rows.users && user in rows.passwords
      then Some(Found(user, rows.users[user].email, rows.passwords[user].hash))
      else None
    }

    /** The credential of the subject, if the current password verifies it. */
    method VerifyCurrent(subject: Id, current: string) returns (r: Result<Found, Failure>, ghost k: nat)
      requires Valid()
      modifies store
      ensures Went() && store.own == old(store.own) && store.drawn == old(store.drawn)
      ensures r.Ok? ==>
        && r.value.user == subject && Matches(r.value.hash, current) && IsAccount(RowsOf(store.db), r.value)
        && |old(store.log)| <= k && HadHash(store.log, k, subject, r.value.hash)
      ensures store.quiet ==>
        && RowsOf(store.db) == old(RowsOf(store.db))
        && var found := AccountOf(old(RowsOf(store.db)), subject);
        r == if found.None? then Err(InvalidCredentials) else CurrentAnswer(found.value, current)
    {
      hide Step, Consistent, Lawful, Sound, Replay, Blank;
      var found, m := FindBySubject(subject);
      k := m;
      if found.None? {
        return Err(InvalidCredentials), k;
      }
      if Blank(found.value.email) || Blank(found.value.hash) {
        return Err(InvalidRecord), k;
      }
      var verified := passwords.verify(current, found.value.hash);
      if verified.None? || !verified.value.matches {
        return Err(InvalidCredentials), k;
      }
      return Ok(found.value), k;
    }

    /** What the account answers to a password that is to confirm a change. */
    function CurrentAnswer(found: Found, current: string): Result<Found, Failure> {
      if Blank(found.email) || Blank(found.hash) then Err(InvalidRecord)
      else if Matches(found.hash, current) then Ok(found)
      else Err(InvalidCredentials)
    }

    method Swap(found: Found, replacement: string) returns (error: Option<Failure>, ghost n: nat)
      requires Valid()
      modifies this, store
      ensures Went()
      ensures if error.None? then store.Made(n, ReplaceHash(found.user, found.hash, replacement, old(clock)), Nothing)
              else store.own == old(store.own)
      ensures store.quiet && IsAccount(old(RowsOf(store.db)), found) ==> error.None?
    {
      hide Step, Consistent, Lawful, Sound, Replay;
      n := 0;
      ghost var rows := RowsOf(store.db);
      var answer := Perform(store, ReplaceHash(found.user, found.hash, replacement, clock));
      if store.quiet && IsAccount(rows, found) {
        StepRehashes(rows, RowsOf(store.db), found, replacement, clock, answer);
      }
      if answer.Err? {
        return Some(if answer.error.Conflict? || answer.error.NotFound? then InvalidCredentials else Unavailable), n;
      }
      n := |store.log| - 1;
      return None, n;
    }

    /** What changing the password of an account answers when nothing interferes. */
    predicate ChangeAnswer(found: Found, current: string, replacement: string, salt: string, r: Result<Found, Failure>) {
      if CurrentAnswer(found, current).Err? then r == CurrentAnswer(found, current)
      else if passwords.verify(replacement, found.hash).None? then r == Err(Unavailable)
      else if Matches(found.hash, replacement) then r == Err(PasswordUnchanged)
      else if passwords.hash(replacement, salt).None? then r == Err(Unavailable)
      else r == Ok(found)
    }

    /**
      ChangePassword replaces exactly the hash that the current password verified, and only by a hash of the
      new password, which the old hash does not verify. A change overtaken by another change fails; without overlapping
      calls none is.
    */
    method ChangePassword(subject: Id, current: string, replacement: string, salt: string)
        returns (r: Result<Found, Failure>, ghost n: nat, ghost hash: string, ghost at: Time)
      requires Valid()
      modifies this, store
      ensures Went() && old(clock) <= at <= clock
      ensures r.Ok? ==>
        && Matches(r.value.hash, current) && Matches(hash, replacement) && !Matches(r.value.hash, replacement)
        && current != replacement
        && r.value.user == Trim(subject) && HasEmail(RowsOf(store.db), r.value.user, r.value.email)
        && store.Made(n, ReplaceHash(Trim(subject), r.value.hash, hash, at), Nothing)
      ensures r.Err? ==> store.own == old(store.own)
      ensures Trim(subject) == "" || current == "" || replacement == "" ==> r == Err(InvalidInput)
      ensures store.quiet && Trim(subject) != "" && current != "" && replacement != "" ==>
        var found := AccountOf(old(RowsOf(store.db)), Trim(subject));
        if found.None? then r == Err(InvalidCredentials) else ChangeAnswer(found.value, current, replacement, salt, r)
    {
      hide Step, Consistent, Lawful, Sound, Replay, Blank;
      n, hash, at := 0, "", clock;
      if Trim(subject) == "" || current == "" || replacement == "" {
        return Err(InvalidInput), n, hash, at;
      }
      var found, _ := VerifyCurrent(Trim(subject), current);
      if found.Err? {
        return Err(found.error), n, hash, at;
      }
      ghost var log := store.log;
      var same := passwords.verify(replacement, found.value.hash);
      if same.None? {
        return Err(Unavailable), n, hash, at;
      }
      if same.value.matches {
        return Err(PasswordUnchanged), n, hash, at;
      }
      var hashed := passwords.hash(replacement, salt);
      if hashed.None? {
        return Err(Unavailable), n, hash, at;
      }
      FreshVerifies(replacement, salt);
      hash, at := hashed.value, clock;
      var error;
      error, n := Swap(found.value, hashed.value);
      KeepsEmail(log, store.log, Trim(subject));
      r := if error.Some? then Err(error.value) else Ok(found.value);
    }

    /**
      RemovePassword removes exactly the hash that the password verified, and leaves another way to sign in. Without
      overlapping calls it does so whenever there is one.
    */
    method RemovePassword(subject: Id, current: string)
        returns (error: Option<Failure>, ghost n: nat, ghost hash: string)
      requires Valid()
      modifies this, store
      ensures Went()
      ensures error.None? ==>
        && Matches(hash, current)
        && store.Made(n, Op.RemovePassword(Trim(subject), hash), Nothing)
        && Trim(subject) in RowsOf(store.db).users && CanSignIn(RowsOf(store.db), Trim(subject))
      ensures error.Some? ==> store.own == old(store.own)
      ensures Trim(subject) == "" || current == "" ==> error == Some(InvalidInput)
      ensures store.quiet && Trim(subject) != "" && current != "" ==>
        var found := AccountOf(old(RowsOf(store.db)), Trim(subject));
        if found.None? then error == Some(InvalidCredentials)
        else if CurrentAnswer(found.value, current).Err? then error == Some(CurrentAnswer(found.value, current).error)
        else error == if HasOther(old(RowsOf(store.db)), Trim(subject)) then None else Some(LastMethod)
    {
      hide Step, Consistent, Lawful, Sound, Replay, Blank, HasOther, CanSignIn, Verifies;
      n, hash := 0, "";
      if Trim(subject) == "" || current == "" {
        return Some(InvalidInput), n, hash;
      }
      var found, _ := VerifyCurrent(Trim(subject), current);
      if found.Err? {
        return Some(found.error), n, hash;
      }
      hash := found.value.hash;
      ghost var log := store.log;
      error, n := Remove(found.value);
      KeepsEmail(log, store.log, Trim(subject));
    }

    method Remove(found: Found) returns (error: Option<Failure>, ghost n: nat)
      requires Valid()
      modifies this, store
      ensures Went() && (error.Some? ==> store.own == old(store.own))
      ensures error.None? ==>
        && store.Made(n, Op.RemovePassword(found.user, found.hash), Nothing)
        && (found.user in RowsOf(store.db).users ==> CanSignIn(RowsOf(store.db), found.user))
      ensures store.quiet && IsAccount(old(RowsOf(store.db)), found) ==>
        error == if HasOther(old(RowsOf(store.db)), found.user) then None else Some(LastMethod)
    {
      hide Step, Consistent, Lawful, Sound, Replay, HasOther;
      n := 0;
      ghost var rows := RowsOf(store.db);
      var answer := Perform(store, Op.RemovePassword(found.user, found.hash));
      if store.quiet && IsAccount(rows, found) {
        StepRemoves(rows, RowsOf(store.db), found, answer);
      }
      if answer.Err? {
        return Some(if answer.error.LastCredential? then LastMethod
                    else if answer.error.Conflict? || answer.error.NotFound? then InvalidCredentials else Unavailable), n;
      }
      n := |store.log| - 1;
      if found.user in RowsOf(store.db).users {
        NobodyIsLockedOut(store.log, found.user);
      }
      return None, n;
    }

    /**
      AddPassword stores a hash of the password that was given and answers the user. Without overlapping calls it does so
      for every user who has none; a stored address that is blank is reported after the commit.
    */
    method AddPassword(subject: Id, password: string, salt: string)
        returns (r: Result<Reply, Failure>, ghost n: nat, ghost hash: string, ghost at: Time)
      requires Valid()
      modifies this, store
      ensures Went() && old(clock) <= at <= clock
      ensures r.Ok? || r == Err(InvalidRecord) ==>
        && Matches(hash, password) && Trim(subject) in RowsOf(store.db).users
        && var email := RowsOf(store.db).users[Trim(subject)].email;
        && store.Made(n, Op.AddPassword(Trim(subject), hash, at), UserReply(Trim(subject), email))
        && r == if Blank(email) then Err(InvalidRecord) else Ok(UserReply(Trim(subject), email))
      ensures r.Err? && r.error != InvalidRecord ==> store.own == old(store.own)
      ensures Trim(subject) == "" || password == "" ==> r == Err(InvalidInput)
      ensures store.quiet && Trim(subject) != "" && password != "" ==>
        var rows := old(RowsOf(store.db));
        if passwords.hash(password, salt).None? || Trim(subject) !in rows.users || Trim(subject) in rows.passwords
        then r == Err(Unavailable)
        else r.Ok? || r == Err(InvalidRecord)
    {
      hide Step, Consistent, Lawful, Sound, Blank, Replay, Verifies;
      n, hash, at := 0, "", clock;
      if Trim(subject) == "" || password == "" {
        return Err(InvalidInput), n, hash, at;
      }
      var hashed := passwords.hash(password, salt);
      if hashed.None? {
        return Err(Unavailable), n, hash, at;
      }
      hash := hashed.value;
      FreshVerifies(password, salt);
      ghost var rows := RowsOf(store.db);
      var answer := Perform(store, Op.AddPassword(Trim(subject), hashed.value, clock));
      if store.quiet { StepAdds(rows, RowsOf(store.db), Trim(subject), hashed.value, clock, answer); }
      if answer.Err? {
        return Err(Unavailable), n, hash, at;
      }
      n := |store.log| - 1;
      AddReplies(store.log, Op.AddPassword(Trim(subject), hashed.value, clock), answer.value);
      TrimmedIsNotBlank(subject);
      if Blank(answer.value.id) || Blank(answer.value.email) || answer.value.id != Trim(subject) {
        return Err(InvalidRecord), n, hash, at;
      }
      return Ok(answer.value), n, hash, at;
    }

    /**
      Register. The user's identifier and handle are drawn at random by the store. Without overlapping calls it fails
      only for bad input, an address that is taken, or a failing random source.
    */
    method Register(email: string, password: string, salt: string, drawn: Drawn)
        returns (r: Result<Reply, Failure>, ghost n: nat, ghost hash: string, ghost at: Time)
      requires Valid() && {drawn.id, drawn.handle} <= store.drawn
      modifies this, store
      ensures Went() && old(clock) <= at <= clock
      ensures r.Ok? || r == Err(InvalidRecord) ==>
        && normalize(email).Some? && Matches(hash, password)
        && var reply := UserReply(drawn.id, normalize(email).value);
        && store.Made(n, Op.Register(drawn, normalize(email).value, hash, at), reply)
        && r == if Blank(drawn.id) || Blank(normalize(email).value) then Err(InvalidRecord) else Ok(reply)
      ensures r.Err? && r.error != InvalidRecord ==> store.own == old(store.own)
      ensures normalize(email).None? || password == "" ==> r == Err(InvalidInput)
      ensures store.quiet && normalize(email).Some? && password != "" ==>
        if passwords.hash(password, salt).None? then r == Err(Unavailable)
        else if EmailTaken(old(RowsOf(store.db)), normalize(email).value) then r == Err(RegistrationUnavailable)
        else r.Ok? || r == Err(InvalidRecord)
    {
      hide Step, Consistent, Lawful, Sound, Blank, EmailTaken, HandleTaken, Replay, Verifies;
      n, hash, at := 0, "", clock;
      if normalize(email).None? || password == "" {
        return Err(InvalidInput), n, hash, at;
      }
      var hashed := passwords.hash(password, salt);
      if hashed.None? {
        return Err(Unavailable), n, hash, at;
      }
      hash := hashed.value;
      FreshVerifies(password, salt);
      DrawnIsFree(store.db, drawn, store.drawn);
      ghost var rows := RowsOf(store.db);
      var op := Op.Register(drawn, normalize(email).value, hashed.value, clock);
      var answer := Perform(store, op);
      if store.quiet { StepRegisters(rows, RowsOf(store.db), op, answer); }
      if answer.Err? {
        return Err(if answer.error.Conflict? then RegistrationUnavailable else Unavailable), n, hash, at;
      }
      n := |store.log| - 1;
      RegisterReplies(store.log, op, answer.value);
      if Blank(answer.value.id) || Blank(answer.value.email) || answer.value.email != normalize(email).value {
        return Err(InvalidRecord), n, hash, at;
      }
      return Ok(answer.value), n, hash, at;
    }
  }
}
