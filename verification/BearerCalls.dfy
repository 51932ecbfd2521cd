/** The calls of the bearer stores. */
module BearerCalls {
  import opened Common
  import opened Serial
  import opened Watch
  import opened BearerRows
  import opened BearerHistory
  import opened BearerStore
  import opened Optimistic

  // ---------------------------------------------------------------- rotation

  predicate Dead(tokens: map<Id, Refresh>, token: Id, at: Time) {
    token in tokens && !tokens[token].ActiveAt(at)
  }

  /** Reads made since `mark` see a token as dead if it was then, and what they see stays true. */
  lemma DeathPersists(mark: Db, view: Db, now: Db, token: Id, at: Time)
    requires Between(CODE, SPEC, mark, view, now)
    ensures Dead(mark.tokens.value, token, at) ==> Dead(view.tokens.value, token, at)
    ensures Dead(view.tokens.value, token, at) ==> Dead(now.tokens.value, token, at)
  {
    var moment := SeenAt(CODE, SPEC, mark, view, now, Tokens);
  }

  /** What a body answers about the token is what the token is. */
  lemma BodyAnswers(op: Op, view: Db)
    requires op.Rotate?
    ensures Body(op, view).Abort? ==> Body(op, view).error != TransactionConflict
    ensures !Body(op, view).Skip? && (Dead(view.tokens.value, op.current, op.at) ==> Body(op, view) == Commit(Reused))
    ensures Body(op, view).Commit? ==>
      Body(op, view).reply == if Dead(view.tokens.value, op.current, op.at) then Reused else Nothing
  {}

  /** One attempt of Rotate; `reused` is set by a body that finds the token dead, even if its EXEC is then lost. */
  method RotateOnce(store: BearerStore, op: Op, before: bool)
      returns (answer: Option<Result<Reply, Error>>, reused: bool)
    requires store.Valid() && store.c == CODE && store.s == SPEC && op.Rotate?
    requires before ==> Dead(store.db.tokens.value, op.current, op.at)
    modifies store
    ensures store.Steady() && (reused ==> Dead(store.db.tokens.value, op.current, op.at)) && (before ==> reused)
    ensures answer.None? ==> !store.quiet && store.own == old(store.own)
    ensures store.losses == old(store.losses) + if answer.None? then 1 else 0
    ensures answer.Some? && answer.value.Err? ==> answer.value.error != TransactionConflict
    ensures answer.Some? ==> store.MadeExactly(op, answer.value)
    ensures answer.Some? && answer.value.Ok? ==> answer.value.value == (if reused then Reused else Nothing)
    ensures answer.Some? && Dead(old(RowsOf(store.db)).tokens, op.current, op.at) ==> answer.value == Ok(Reused)
    ensures Dead(old(RowsOf(store.db)).tokens, op.current, op.at) ==> Dead(RowsOf(store.db).tokens, op.current, op.at)
    ensures answer.Some? && store.quiet ==> Stepped(Step, old(RowsOf(store.db)), RowsOf(store.db), op, answer.value)
  {
    hide Lawful, Body, Consistent, Evolved, Dead;
    var r, view, committed := store.Attempt(op);
    BodyAnswers(op, view);
    DeathPersists(old(store.db), view, store.db, op.current, op.at);
    reused := before || Dead(view.tokens.value, op.current, op.at);
    answer := r;
  }

  /**
    Rotate, whose `reused` flag outlives a lost attempt. Because a dead token stays dead, the flag never
    disagrees with the attempt that commits, and the caller gets the reply of the commit. A token that was dead
    when the call began is answered as reused unless every attempt is lost.
  */
  method RotateToken(store: BearerStore, op: Op) returns (r: Result<Reply, Error>)
    requires store.Valid() && store.c == CODE && store.s == SPEC && op.Rotate?
    modifies store
    ensures store.Steady() && store.MadeExactly(op, r)
    ensures store.losses <= old(store.losses) + 16
    ensures store.losses == old(store.losses) + 16 <==> r == Err(TransactionConflict)
    ensures Dead(old(RowsOf(store.db)).tokens, op.current, op.at) ==> r == Ok(Reused) || (r == Err(TransactionConflict) && !store.quiet)
    ensures store.quiet ==> Stepped(Step, old(RowsOf(store.db)), RowsOf(store.db), op, r)
  {
    var reused := false;
    for attempt := 0 to 16
      invariant store.Steady() && store.own == old(store.own) && (attempt > 0 ==> !store.quiet)
      invariant attempt == 0 ==> store.db == old(store.db)
      invariant store.losses == old(store.losses) + attempt
      invariant reused ==> Dead(store.db.tokens.value, op.current, op.at)
      invariant Dead(old(RowsOf(store.db)).tokens, op.current, op.at) ==> Dead(RowsOf(store.db).tokens, op.current, op.at)
      invariant Replay(SPEC.step, SPEC.start, store.log) == Some(RowsOf(store.db))
    {
      var answer;
      answer, reused := RotateOnce(store, op, reused);
      if answer.Some? {
        if answer.value.Err? {
          return answer.value;
        }
        return Ok(if reused then Reused else Nothing);
      }
    }
    return Err(TransactionConflict);
  }

  // ---------------------------------------------------------------- the other calls

  /** The sessions in `ids` that existed, and their tokens, are revoked. */
  ghost predicate Killed(before: Rows, after: Rows, ids: set<Id>) {
    && (forall id :: id in ids && id in before.sessions ==> id in after.sessions && after.sessions[id].revokedAt.Some?)
    && (forall token :: token in before.tokens && before.tokens[token].session in ids ==>
          token in after.tokens && after.tokens[token].revokedAt.Some?)
  }

  /** What a call that succeeded tells its caller, whoever else runs. */
  ghost predicate Answered(before: Rows, after: Rows, log: History, op: Op, reply: Reply) {
    match op
    case CreateSession(_, _, _, _) => CommittedLast(log, op, reply)
    case Rotate(_, _, _, _, _) => CommittedLast(log, op, reply)
    case RevokeSession(id, _) => Killed(before, after, {id}) && (TokensOf(before, id) != {} ==> Silenced(after, id))
    case RevokeAll(subject, _) => Killed(before, after, SessionsOf(before, subject))
  }

  lemma CommittedKills(rows: Rows, earlier: History, log: History, op: Op, reply: Reply)
    requires op.RevokeSession? || op.RevokeAll?
    requires CommittedLast(log, op, reply) && earlier <= log && |earlier| < |log|
    requires Replay(SPEC.step, SPEC.start, earlier) == Some(rows) && Replay(SPEC.step, SPEC.start, log).Some?
    ensures Answered(rows, Replay(SPEC.step, SPEC.start, log).value, log, op, reply)
  {
    var before := log[..|log| - 1];
    assert before[..|earlier|] == earlier;
    LaterRows(before, |earlier|);
  }

  lemma ListedTokenUpdates(view: Db, id: Id, at: Time, token: Id)
    requires token in At(view.bySession, id).value && token in view.tokens.value
    ensures |TokenUpdates(view.tokens.value, At(view.bySession, id).value, at)| > 0
  {
    assert token in TokenUpdates(view.tokens.value, At(view.bySession, id).value, at);
  }

  /** If nothing was left to revoke in what was read, then everything that existed at the start is revoked. */
  lemma NothingLeft(mark: Db, view: Db, now: Db, id: Id, at: Time)
    requires Between(CODE, SPEC, mark, view, now)
    requires RevokesNothing(view, id, at)
    ensures Killed(RowsOf(mark), RowsOf(now), {id}) && TokensOf(RowsOf(mark), id) == {}
  {
    var first := SeenAt(CODE, SPEC, mark, view, now, Access);
    var second := SeenAt(CODE, SPEC, mark, view, now, SessionSet(id));
    var third := SeenAt(CODE, SPEC, mark, view, now, Tokens);
    forall token | token in mark.tokens.value && mark.tokens.value[token].session == id ensures false {
      TokensListed(second, id);
      ListedTokenUpdates(view, id, at, token);
    }
  }

  /** Sessions that the subject had at the start are in the subject's set whenever it is read. */
  lemma StillListed(mark: Db, view: Db, now: Db, subject: Id)
    requires Between(CODE, SPEC, mark, view, now)
    ensures SessionsOf(RowsOf(mark), subject) <= At(view.bySubject, subject).value
  {
    var moment := SeenAt(CODE, SPEC, mark, view, now, SubjectSet(subject));
    assert At(view.bySubject, subject).value == Owned(moment.access.value, SubjectOf, subject);
  }

  /** A token that existed at the start is in its session's set whenever that is read. */
  lemma StillInSet(mark: Db, view: Db, now: Db, token: Id)
    requires Between(CODE, SPEC, mark, view, now) && token in mark.tokens.value
    ensures token in At(view.bySession, mark.tokens.value[token].session).value
  {
    var session := mark.tokens.value[token].session;
    var moment := SeenAt(CODE, SPEC, mark, view, now, SessionSet(session));
    TokensListed(moment, session);
  }

  lemma AllNothingLeft(mark: Db, view: Db, now: Db, op: Op)
    requires Between(CODE, SPEC, mark, view, now)
    requires op.RevokeAll? && Body(op, view).Skip?
    ensures Killed(RowsOf(mark), RowsOf(now), SessionsOf(RowsOf(mark), op.subject))
  {
    hide Between, Consistent;
    var ids := At(view.bySubject, op.subject).value;
    StillListed(mark, view, now, op.subject);
    var access := SeenAt(CODE, SPEC, mark, view, now, Access);
    var tokens := SeenAt(CODE, SPEC, mark, view, now, Tokens);
    forall id | id in SessionsOf(RowsOf(mark), op.subject) ensures RowsOf(now).sessions[id].revokedAt.Some? {
      assert id !in NewSessionUpdates(view.access.value, ids, op.at);
    }
    forall token | token in mark.tokens.value && mark.tokens.value[token].session in SessionsOf(RowsOf(mark), op.subject)
      ensures RowsOf(now).tokens[token].revokedAt.Some?
    {
      StillInSet(mark, view, now, token);
      assert token in FieldsOf(view, ids);
      assert token !in NewTokenUpdates(view.tokens.value, FieldsOf(view, ids), op.at);
    }
  }

  /** CreateSession, Revoke, RevokeSession and RevokeAll. */
  method Perform(store: BearerStore, op: Op) returns (r: Result<Reply, Error>)
    requires store.Valid() && store.c == CODE && store.s == SPEC && !op.Rotate?
    modifies store
    ensures store.Steady()
    ensures r.Ok? ==> Answered(old(RowsOf(store.db)), RowsOf(store.db), store.log, op, r.value)
    ensures store.MadeAtMost(op, r) && (r.Ok? && op.CreateSession? ==> store.MadeLast(op, r.value))
    ensures store.quiet ==> Stepped(Step, old(RowsOf(store.db)), RowsOf(store.db), op, r)
  {
    hide Lawful;
    ghost var before := store.db;
    var answer, view, committed := store.Run(op);
    r := answer;
    if r.Ok? && !op.CreateSession? {
      if committed {
        CommittedKills(RowsOf(before), old(store.log), store.log, op, r.value);
      } else if op.RevokeSession? {
        NothingLeft(before, view, store.db, op.id, op.at);
      } else {
        AllNothingLeft(before, view, store.db, op);
      }
    }
  }

  /** One read outside any transaction. */
  method Look(store: BearerStore) returns (db: Db)
    requires store.Valid() && store.c == CODE && store.s == SPEC
    modifies store
    ensures store.Steady() && store.own == old(store.own)
    ensures db == store.db && Consistent(db) && Evolved(old(RowsOf(store.db)), RowsOf(db))
    ensures store.quiet ==> db == old(store.db)
  {
    store.Others();
    db := store.db;
  }

  /** In every state of the store each session's set of refresh tokens is exactly its rotation chain. */
  lemma SetsAreChains(store: BearerStore, id: Id)
    requires store.Valid() && store.c == CODE && store.s == SPEC && Disciplined(store.log)
    ensures At(store.db.bySession, id).value == Elements(Chain(store.log, id))
    ensures IsChain(RowsOf(store.db), id, Chain(store.log, id)) && FollowSession(RowsOf(store.db), id)
  {
    assert Replay(Step, EMPTY, store.log) == Some(RowsOf(store.db));
    OneChain(store.log, id);
    TokensListed(store.db, id);
    forall token ensures token in At(store.db.bySession, id).value <==> token in Chain(store.log, id) {}
  }
}
