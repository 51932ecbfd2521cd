/** What holds of accounts over whole histories: one-time tokens and passwords. */
module AccountHistory {
  import opened Common
  import opened Serial
  import opened AccountRows

  type History = seq<Entry<Op, Reply>>

  // ---------------------------------------------------------------- one-time tokens

  predicate Redeems(purpose: Purpose, op: Op) {
    if purpose == Verification then op.Verify? else op.ResetPassword?
  }

  predicate Issues(purpose: Purpose, op: Op) {
    op.Issue? && op.purpose == purpose
  }

  /** The token a user would expect to hold: the last one issued and not yet followed by a redemption. */
  function Latest(purpose: Purpose, log: History, user: Id): Option<OneTime> {
    if |log| == 0 then None
    else
      var last := log[|log| - 1];
      if Issues(purpose, last.op) && last.op.subject == user then Some(last.op.record)
      else if Redeems(purpose, last.op) && last.reply.UserReply? && last.reply.id == user then None
      else Latest(purpose, log[..|log| - 1], user)
  }

  function Lookup<V>(table: map<Id, V>, key: Id): Option<V> {
    if key in table then Some(table[key]) else None
  }

  /**
    The table holds exactly each user's latest unredeemed token, so that reissuing kills the earlier token and
    redeeming leaves none.
  */
  lemma {:induction false} TokensAreLatest(purpose: Purpose, log: History, user: Id)
    requires Replay(Step, EMPTY, log).Some?
    ensures Lookup(Replay(Step, EMPTY, log).value.Tokens(purpose), user) == Latest(purpose, log, user)
  {
    if |log| > 0 {
      TokensAreLatest(purpose, log[..|log| - 1], user);
      StepKeepsLatest(purpose, Replay(Step, EMPTY, log[..|log| - 1]).value, log[|log| - 1], user);
    }
  }

  lemma TokensKept(purpose: Purpose, rows: Rows, op: Op)
    requires !op.Issue? && !op.Verify? && !op.ResetPassword? && Step(rows, op).Done?
    ensures Step(rows, op).rows.Tokens(purpose) == rows.Tokens(purpose)
  {}

  lemma StepKeepsLatest(purpose: Purpose, rows: Rows, entry: Entry<Op, Reply>, user: Id)
    requires Step(rows, entry.op).Done? && Step(rows, entry.op).reply == entry.reply
    ensures Lookup(Step(rows, entry.op).rows.Tokens(purpose), user) ==
      if Issues(purpose, entry.op) && entry.op.subject == user then Some(entry.op.record)
      else if Redeems(purpose, entry.op) && entry.reply.UserReply? && entry.reply.id == user then None
      else Lookup(rows.Tokens(purpose), user)
  {
    hide Step;
    var op := entry.op;
    if op.Issue? {
      IssueKeepsLatest(purpose, rows, entry, user);
    } else if op.Verify? || op.ResetPassword? {
      RedeemKeepsLatest(purpose, rows, entry, user);
    } else {
      TokensKept(purpose, rows, op);
    }
  }

  lemma IssueKeepsLatest(purpose: Purpose, rows: Rows, entry: Entry<Op, Reply>, user: Id)
    requires entry.op.Issue? && Step(rows, entry.op).Done?
    ensures Lookup(Step(rows, entry.op).rows.Tokens(purpose), user) ==
      if Issues(purpose, entry.op) && entry.op.subject == user then Some(entry.op.record) else Lookup(rows.Tokens(purpose), user)
  {}

  lemma RedeemKeepsLatest(purpose: Purpose, rows: Rows, entry: Entry<Op, Reply>, user: Id)
    requires entry.op.Verify? || entry.op.ResetPassword?
    requires Step(rows, entry.op).Done? && Step(rows, entry.op).reply == entry.reply
    ensures Lookup(Step(rows, entry.op).rows.Tokens(purpose), user) ==
      if Redeems(purpose, entry.op) && entry.reply.UserReply? && entry.reply.id == user then None
      else Lookup(rows.Tokens(purpose), user)
  {
    if entry.op.Verify? {
      assert Holder(rows.verifications, entry.op.token) == Some(entry.reply.id);
    } else {
      assert Holder(rows.resets, entry.op.token) == Some(entry.reply.id);
    }
  }

  predicate RedeemsToken(purpose: Purpose, op: Op, token: Id) {
    Redeems(purpose, op) && op.token == token
  }

  function Redemptions(purpose: Purpose, log: History, token: Id): nat {
    if |log| == 0 then 0
    else Redemptions(purpose, log[..|log| - 1], token) + (if RedeemsToken(purpose, log[|log| - 1].op, token) then 1 else 0)
  }

  function Issued(purpose: Purpose, log: History, token: Id): nat {
    if |log| == 0 then 0
    else
      var op := log[|log| - 1].op;
      Issued(purpose, log[..|log| - 1], token) + (if Issues(purpose, op) && op.record.token == token then 1 else 0)
  }

  /** A token that was issued once is redeemed at most once; one that is still held leaves a redemption to spare. */
  lemma {:induction false} RedeemedAtMostOnce(purpose: Purpose, log: History, token: Id)
    requires Replay(Step, EMPTY, log).Some?
    ensures Redemptions(purpose, log, token)
         + (if Holder(Replay(Step, EMPTY, log).value.Tokens(purpose), token).Some? then 1 else 0)
         <= Issued(purpose, log, token)
  {
    if |log| > 0 {
      var rows := Replay(Step, EMPTY, log[..|log| - 1]).value;
      RedeemedAtMostOnce(purpose, log[..|log| - 1], token);
      EveryUserCanSignIn(log[..|log| - 1]);
      StepHolds(purpose, rows, log[|log| - 1].op, token);
    }
  }

  /** Only issuing makes a token held, and redeeming it needs it held and leaves it unheld. */
  lemma StepHolds(purpose: Purpose, rows: Rows, op: Op, token: Id)
    requires Good(rows) && Step(rows, op).Done?
    ensures var before, after := Holder(rows.Tokens(purpose), token), Holder(Step(rows, op).rows.Tokens(purpose), token);
      && (after.Some? ==> before.Some? || (Issues(purpose, op) && op.record.token == token))
      && (RedeemsToken(purpose, op, token) ==> before.Some? && after.None?)
  {
    if op.Issue? {
      IssuedHolds(rows.Tokens(op.purpose), op.subject, op.record, token);
    } else if op.Verify? {
      SpentHolds(rows.verifications, op.token, token);
    } else if op.ResetPassword? {
      SpentHolds(rows.resets, op.token, token);
    } else {
      TokensKept(purpose, rows, op);
    }
  }

  lemma IssuedHolds(table: map<Id, OneTime>, subject: Id, record: OneTime, token: Id)
    ensures Holder(table[subject := record], token).Some? ==> token == record.token || Holder(table, token).Some?
  {
    var next := table[subject := record];
    if user :| user in next && next[user].token == token {
      assert user == subject || (user in table && table[user].token == token);
    }
  }

  lemma SpentHolds(table: map<Id, OneTime>, spent: Id, token: Id)
    requires TokensDistinct(table) && Holder(table, spent).Some?
    ensures var next := table - {Holder(table, spent).value};
      && (Holder(next, token).Some? ==> Holder(table, token).Some?)
      && Holder(next, spent).None?
  {
    var next := table - {Holder(table, spent).value};
    if user :| user in next && next[user].token == token {
      assert user in table && table[user].token == token;
    }
  }

  // ---------------------------------------------------------------- passwords

  /**
    The plaintext last chosen for a user, `plain` giving the one plaintext a hash verifies. Replacing a hash by
    another hash of the same plaintext, as a login may do, is not a choice.
  */
  function Chosen(plain: string -> Option<string>, log: History, user: Id): Option<Option<string>> {
    if |log| == 0 then None
    else
      var last := log[|log| - 1];
      var before := Chosen(plain, log[..|log| - 1], user);
      match last.op
      case Register(drawn, _, hash, _) => if drawn.id == user then Some(plain(hash)) else before
      case AddPassword(subject, hash, _) => if subject == user then Some(plain(hash)) else before
      case ReplaceHash(subject, current, replacement, _) =>
        if subject == user && plain(current) != plain(replacement) then Some(plain(replacement)) else before
      case RemovePassword(subject, _) => if subject == user then None else before
      case ResetPassword(_, hash, _) =>
        if last.reply.UserReply? && last.reply.id == user then Some(plain(hash)) else before
      case _ => before
  }

  ghost function Secret(plain: string -> Option<string>, rows: Rows, user: Id): Option<Option<string>> {
    if user in rows.passwords then Some(plain(rows.passwords[user].hash)) else None
  }

  /**
    Over any interleaving, the plaintext that verifies is the one last chosen: a login's rehash neither changes
    it nor brings back one that was replaced, reset or removed.
  */
  lemma {:induction false} SecretIsLastChosen(plain: string -> Option<string>, log: History, user: Id)
    requires Replay(Step, EMPTY, log).Some?
    ensures Secret(plain, Replay(Step, EMPTY, log).value, user) == Chosen(plain, log, user)
  {
    if |log| > 0 {
      SecretIsLastChosen(plain, log[..|log| - 1], user);
      StepKeepsSecret(plain, Replay(Step, EMPTY, log[..|log| - 1]).value, log[|log| - 1], user);
    }
  }

  lemma PasswordsKept(rows: Rows, op: Op)
    requires Step(rows, op).Done?
    requires op.Issue? || op.Verify? || op.ResolveIdentity? || op.Unlink? || op.CreateCeremony?
          || op.CompleteRegistration? || op.DeleteCredential?
    ensures Step(rows, op).rows.passwords == rows.passwords
  {}

  lemma StepKeepsSecret(plain: string -> Option<string>, rows: Rows, entry: Entry<Op, Reply>, user: Id)
    requires Step(rows, entry.op).Done? && Step(rows, entry.op).reply == entry.reply
    ensures Secret(plain, Step(rows, entry.op).rows, user) ==
      match entry.op
      case Register(drawn, _, hash, _) => if drawn.id == user then Some(plain(hash)) else Secret(plain, rows, user)
      case AddPassword(subject, hash, _) => if subject == user then Some(plain(hash)) else Secret(plain, rows, user)
      case ReplaceHash(subject, current, replacement, _) =>
        if subject == user && plain(current) != plain(replacement) then Some(plain(replacement)) else Secret(plain, rows, user)
      case RemovePassword(subject, _) => if subject == user then None else Secret(plain, rows, user)
      case ResetPassword(_, hash, _) =>
        if entry.reply.UserReply? && entry.reply.id == user then Some(plain(hash)) else Secret(plain, rows, user)
      case _ => Secret(plain, rows, user)
  {
    if !entry.op.Register? && !entry.op.AddPassword? && !entry.op.ReplaceHash? && !entry.op.RemovePassword?
       && !entry.op.ResetPassword? {
      PasswordsKept(rows, entry.op);
    }
  }
}
