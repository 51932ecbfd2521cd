/** Stored password hashes over whole account histories, with the password hasher in place. */
module PasswordHistory {
  import opened Common
  import opened Serial
  import opened AccountRows
  import opened AccountHistory
  import EmailPassword
  import Hashes = PasswordHash

  /** The manager's password functions are those of the hasher under this configuration. */
  ghost predicate Backed(passwords: EmailPassword.Passwords, prims: Hashes.Primitives, preferred: Hashes.Algorithm) {
    && (forall password, hash :: passwords.verify(password, hash) == Told(Hashes.Verdict(prims, password, hash, preferred)))
    && (forall password, salt :: passwords.hash(password, salt).Some? ==>
          exists bytes :: |bytes| == Hashes.SALT_LENGTH
            && Hashes.Hash(prims, password, preferred, bytes) == passwords.hash(password, salt))
  }

  function Told(verdict: Option<Hashes.Verification>): Option<EmailPassword.Verification> {
    match verdict
    case None => None
    case Some(v) => Some(EmailPassword.Verification(v.matches, v.needsRehash))
  }

  /** The primitives keep these passwords apart on these hashes: none derives another's key, and bcrypt agrees to one only. */
  ghost predicate KeepsApart(prims: Hashes.Primitives, known: set<string>, hashes: set<string>) {
    forall first, second, hash :: first in known && second in known && first != second && hash in hashes ==>
      DifferOn(prims, first, second, hash)
  }

  ghost predicate DifferOn(prims: Hashes.Primitives, first: string, second: string, hash: string) {
    && (forall p :: Hashes.Means(hash, p) ==> !(Hashes.Derives(prims, first, p) && Hashes.Derives(prims, second, p)))
    && !(prims.bcryptCheck(first, hash).Match? && prims.bcryptCheck(second, hash).Match?)
  }

  /** What the hasher answers of a password, by the hash alone. */
  lemma VerifiesByKey(passwords: EmailPassword.Passwords, prims: Hashes.Primitives, preferred: Hashes.Algorithm,
                      password: string, hash: string)
    requires Backed(passwords, prims, preferred)
    ensures EmailPassword.Verifies(passwords, password, hash) <==>
      || (Hashes.NamesArgon2id(hash) && exists p :: Hashes.Means(hash, p) && Hashes.Derives(prims, password, p))
      || (Hashes.NamesBcrypt(hash) && prims.bcryptCheck(password, hash).Match?)
  {
    hide Hashes.Means;
    Hashes.OneScheme(hash);
    assert passwords.verify(password, hash) == Told(Hashes.Verdict(prims, password, hash, preferred));
    if p :| Hashes.Means(hash, p) {
      forall q | Hashes.Means(hash, q) ensures q == p { Hashes.OneMeaning(hash, p, q); }
      if Hashes.NamesArgon2id(hash) { Hashes.MeaningIsVerdict(prims, password, hash, preferred, p); }
    }
  }

  /** A manager on this hasher is as the email and password manager needs it: a fresh hash verifies its password. */
  lemma BackedIsSound(passwords: EmailPassword.Passwords, prims: Hashes.Primitives, preferred: Hashes.Algorithm)
    requires Backed(passwords, prims, preferred) && Hashes.Shaped(prims)
    ensures EmailPassword.Sound(passwords)
  {
    hide Hashes.Shaped, Hashes.Verdict, Hashes.Hash;
    forall password, salt | passwords.hash(password, salt).Some?
      ensures EmailPassword.Verifies(passwords, password, passwords.hash(password, salt).value)
    {
      var bytes :| |bytes| == Hashes.SALT_LENGTH
        && Hashes.Hash(prims, password, preferred, bytes) == passwords.hash(password, salt);
      Hashes.FreshHashVerifies(prims, password, preferred, bytes);
      var hash := passwords.hash(password, salt).value;
      assert passwords.verify(password, hash) == Told(Hashes.Verdict(prims, password, hash, preferred));
    }
  }

  /**
    Of passwords that the primitives keep apart, each hash verifies the one that is its plaintext and no other. (Of all
    strings this cannot hold, there being more of them than keys.)
  */
  lemma BackedIsHonest(passwords: EmailPassword.Passwords, prims: Hashes.Primitives, preferred: Hashes.Algorithm,
                       known: set<string>, hashes: set<string>)
    requires Backed(passwords, prims, preferred) && KeepsApart(prims, known, hashes)
    ensures EmailPassword.Honest(passwords, hash => EmailPassword.PlainOf(passwords, known, hash), known, hashes)
  {
    hide Hashes.Means, Hashes.Derives, Hashes.NamesArgon2id, Hashes.NamesBcrypt;
    forall first, second, hash |
      first in known && second in known && hash in hashes
      && EmailPassword.Verifies(passwords, first, hash) && EmailPassword.Verifies(passwords, second, hash)
      ensures first == second
    {
      VerifiesByKey(passwords, prims, preferred, first, hash);
      VerifiesByKey(passwords, prims, preferred, second, hash);
      Hashes.OneScheme(hash);
      if first != second {
        assert DifferOn(prims, first, second, hash);
        if p :| Hashes.Means(hash, p) {
          forall q | Hashes.Means(hash, q) ensures q == p { Hashes.OneMeaning(hash, p, q); }
        }
      }
    }
    EmailPassword.SeparateIsHonest(passwords, known, hashes);
  }

  /** The operation replaces a hash by what a login, under some configuration, leaves of it. */
  ghost predicate Rehash(prims: Hashes.Primitives, op: Op) {
    && op.ReplaceHash?
    && exists login: Hashes.Login :: |login.salt| == Hashes.SALT_LENGTH
         && op.replacement == Hashes.AfterLogin(prims, op.current, login)
  }

  /** What a login of the manager commits is such a rehash. */
  lemma LoginsRehash(passwords: EmailPassword.Passwords, prims: Hashes.Primitives, preferred: Hashes.Algorithm,
                     password: string, salt: string, op: Op)
    requires Backed(passwords, prims, preferred) && op.ReplaceHash?
    requires EmailPassword.Rehashes(passwords, password, salt, op.current, op.replacement)
    ensures Rehash(prims, op)
  {
    var bytes :| |bytes| == Hashes.SALT_LENGTH
      && Hashes.Hash(prims, password, preferred, bytes) == passwords.hash(password, salt);
    var login := Hashes.Login(password, preferred, bytes);
    assert passwords.verify(password, op.current) == Told(Hashes.Verdict(prims, password, op.current, preferred));
    assert op.replacement == Hashes.AfterLogin(prims, op.current, login);
  }

  ghost function Stored(rows: Rows, user: Id): Option<string> {
    if user in rows.passwords then Some(rows.passwords[user].hash) else None
  }

  /** The hash stored last for a user by anything but a login's rehash, unless the password was removed since. */
  ghost function Given(prims: Hashes.Primitives, log: History, user: Id): Option<string> {
    if |log| == 0 then None
    else
      var last := log[|log| - 1];
      var before := Given(prims, log[..|log| - 1], user);
      match last.op
      case Register(drawn, _, hash, _) => if drawn.id == user then Some(hash) else before
      case AddPassword(subject, hash, _) => if subject == user then Some(hash) else before
      case ReplaceHash(subject, _, replacement, _) =>
        if subject == user && !Rehash(prims, last.op) then Some(replacement) else before
      case RemovePassword(subject, _) => if subject == user then None else before
      case ResetPassword(_, hash, _) => if last.reply.UserReply? && last.reply.id == user then Some(hash) else before
      case _ => before
  }

  lemma StepStores(rows: Rows, entry: Entry<Op, Reply>, user: Id)
    requires Step(rows, entry.op).Done? && Step(rows, entry.op).reply == entry.reply
    ensures Stored(Step(rows, entry.op).rows, user) ==
      match entry.op
      case Register(drawn, _, hash, _) => if drawn.id == user then Some(hash) else Stored(rows, user)
      case AddPassword(subject, hash, _) => if subject == user then Some(hash) else Stored(rows, user)
      case ReplaceHash(subject, current, replacement, _) =>
        if subject == user then Some(replacement) else Stored(rows, user)
      case RemovePassword(subject, _) => if subject == user then None else Stored(rows, user)
      case ResetPassword(_, hash, _) =>
        if entry.reply.UserReply? && entry.reply.id == user then Some(hash) else Stored(rows, user)
      case _ => Stored(rows, user)
    ensures entry.op.ReplaceHash? && entry.op.subject == user ==> Stored(rows, user) == Some(entry.op.current)
  {
    if !entry.op.Register? && !entry.op.AddPassword? && !entry.op.ReplaceHash? && !entry.op.RemovePassword?
       && !entry.op.ResetPassword? {
      PasswordsKept(rows, entry.op);
    }
  }

  predicate IsArgon2id(hash: Option<string>) {
    hash.Some? && Hashes.Identify(hash.value) == Some(Hashes.Argon2id)
  }

  lemma RehashKeepsArgon2id(prims: Hashes.Primitives, op: Op)
    requires Hashes.Shaped(prims) && Rehash(prims, op) && IsArgon2id(Some(op.current))
    ensures IsArgon2id(Some(op.replacement))
  {
    var login: Hashes.Login :| |login.salt| == Hashes.SALT_LENGTH
      && op.replacement == Hashes.AfterLogin(prims, op.current, login);
    Hashes.LoginKeepsArgon2id(prims, op.current, login);
  }

  /**
    Over every interleaving of account operations and logins under whatever configurations, a password that was given
    an Argon2id hash is stored under an Argon2id hash for as long as it is not changed, reset or removed.
  */
  lemma {:induction false} Argon2idStays(prims: Hashes.Primitives, log: History, user: Id)
    requires Hashes.Shaped(prims) && Replay(Step, EMPTY, log).Some?
    ensures Stored(Replay(Step, EMPTY, log).value, user).Some? <==> Given(prims, log, user).Some?
    ensures IsArgon2id(Given(prims, log, user)) ==> IsArgon2id(Stored(Replay(Step, EMPTY, log).value, user))
  {
    hide Step, Rehash, Hashes.Shaped, Hashes.Identify;
    if |log| > 0 {
      var rows, last := Replay(Step, EMPTY, log[..|log| - 1]).value, log[|log| - 1];
      Argon2idStays(prims, log[..|log| - 1], user);
      StepStores(rows, last, user);
      if last.op.ReplaceHash? && last.op.subject == user && Rehash(prims, last.op) && IsArgon2id(Some(last.op.current)) {
        RehashKeepsArgon2id(prims, last.op);
      }
    }
  }
}
