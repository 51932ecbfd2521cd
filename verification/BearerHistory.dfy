/** What holds of bearer sessions over whole histories: rotation chains, reuse and revocation. */
module BearerHistory {
  import opened Common
  import opened Serial
  import opened BearerRows

  type History = seq<Entry<Op, Reply>>

  lemma LaterRows(log: History, n: nat)
    requires Replay(Step, EMPTY, log).Some? && n <= |log|
    ensures Replay(Step, EMPTY, log[..n]).Some?
    ensures Evolved(Replay(Step, EMPTY, log[..n]).value, Replay(Step, EMPTY, log).value)
  {
    forall a, b, c | Evolved(a, b) && Evolved(b, c) ensures Evolved(a, c) { EvolvedIsTransitive(a, b, c); }
    forall rows, op | Step(rows, op).Done? ensures Evolved(rows, Step(rows, op).rows) { StepEvolves(rows, op); }
    Climbs(Step, EMPTY, Evolved, log, n);
  }

  /** A refresh token that is rotated, revoked or expired stays so: no later state has it live again. */
  lemma DeadForever(log: History, n: nat, token: Id, at: Time, later: Time)
    requires Replay(Step, EMPTY, log).Some? && n <= |log| && at <= later
    requires Replay(Step, EMPTY, log[..n]).Some? && token in Replay(Step, EMPTY, log[..n]).value.tokens
    requires !Replay(Step, EMPTY, log[..n]).value.tokens[token].ActiveAt(at)
    ensures token in Replay(Step, EMPTY, log).value.tokens
    ensures !Replay(Step, EMPTY, log).value.tokens[token].ActiveAt(later)
  {
    LaterRows(log, n);
  }

  // ---------------------------------------------------------------- rotation chains

  /** What the bearer and refresh-token managers ask of the store; a rotation answered as reuse issues nothing. */
  predicate Asks(rows: Rows, entry: Entry<Op, Reply>) {
    match entry.op
    case CreateSession(_, session, _, first) => session.revokedAt.None? && first.expiresAt == session.expiresAt
    case Rotate(current, _, owner, next, _) =>
      entry.reply == Nothing && current in rows.tokens ==>
        owner == rows.tokens[current].session && next.expiresAt == rows.tokens[current].expiresAt
    case _ => true
  }

  ghost predicate Disciplined(log: History) {
    forall n :: 0 <= n < |log| && Replay(Step, EMPTY, log[..n]).Some? ==>
      Asks(Replay(Step, EMPTY, log[..n]).value, log[n])
  }

  /** The refresh tokens issued for a session, in the order in which each replaced the one before. */
  function Chain(log: History, id: Id): seq<Id> {
    if |log| == 0 then []
    else Chain(log[..|log| - 1], id) + Link(log[|log| - 1], id)
  }

  /** The token that one commit adds to the chain, if any. */
  function Link(entry: Entry<Op, Reply>, id: Id): seq<Id> {
    match entry.op
    case CreateSession(session, _, token, _) => if session == id then [token] else []
    case Rotate(_, token, owner, _, _) => if owner == id && entry.reply == Nothing then [token] else []
    case _ => []
  }

  ghost function TokensOf(rows: Rows, id: Id): set<Id> {
    set token | token in rows.tokens && rows.tokens[token].session == id
  }

  predicate Distinct(list: seq<Id>) {
    forall i, j :: 0 <= i < j < |list| ==> list[i] != list[j]
  }

  /** The tokens of the session are exactly the chain, whose last link alone has not been rotated. */
  ghost predicate IsChain(rows: Rows, id: Id, chain: seq<Id>) {
    && Distinct(chain)
    && (forall token :: token in chain <==> token in rows.tokens && rows.tokens[token].session == id)
    && (forall i :: 0 <= i < |chain| ==> (rows.tokens[chain[i]].rotatedAt.None? <==> i == |chain| - 1))
  }

  /** Every token of the session has the session's expiry and was revoked when the session was, if ever. */
  ghost predicate FollowSession(rows: Rows, id: Id) {
    && (forall token :: token in rows.tokens && rows.tokens[token].session == id ==>
          && id in rows.sessions
          && rows.tokens[token].expiresAt == rows.sessions[id].expiresAt
          && rows.tokens[token].revokedAt == rows.sessions[id].revokedAt)
  }

  /** One commit keeps a session's tokens following the session. */
  lemma StepKeepsFollowing(rows: Rows, entry: Entry<Op, Reply>, id: Id)
    requires Step(rows, entry.op).Done? && Step(rows, entry.op).reply == entry.reply && Asks(rows, entry)
    requires FollowSession(rows, id) && (id !in rows.sessions ==> TokensOf(rows, id) == {})
    ensures FollowSession(Step(rows, entry.op).rows, id)
  {
    if entry.op.CreateSession? && entry.op.id == id {
      assert forall token :: token in rows.tokens && rows.tokens[token].session == id ==> token in TokensOf(rows, id);
    }
  }

  /** One commit keeps a session's tokens one chain. */
  lemma StepKeepsChain(rows: Rows, entry: Entry<Op, Reply>, id: Id, chain: seq<Id>)
    requires Step(rows, entry.op).Done? && Step(rows, entry.op).reply == entry.reply && Asks(rows, entry)
    requires IsChain(rows, id, chain) && (id in rows.sessions <==> chain != [])
    ensures var next := Step(rows, entry.op).rows;
      && IsChain(next, id, chain + Link(entry, id))
      && (id in next.sessions <==> chain + Link(entry, id) != [])
  {
    var next := Step(rows, entry.op).rows;
    match entry.op
    case CreateSession(session, _, token, _) =>
      if session == id { assert chain == []; }
      assert IsChain(next, id, chain + Link(entry, id));
    case Rotate(current, token, owner, _, at) =>
      if entry.reply == Nothing && owner == id {
        assert current in chain;
        RotateExtends(rows, next, id, chain, current, token);
      } else {
        assert Link(entry, id) == [];
        assert chain + [] == chain;
        if entry.reply == Reused { RevocationKeepsChain(rows, next, id, chain); }
      }
    case _ =>
      assert chain + [] == chain;
      RevocationKeepsChain(rows, next, id, chain);
  }

  /** Marking rows revoked moves no token and rotates none. */
  lemma RevocationKeepsChain(rows: Rows, next: Rows, id: Id, chain: seq<Id>)
    requires IsChain(rows, id, chain) && next.tokens.Keys == rows.tokens.Keys
    requires forall token :: token in rows.tokens ==>
      next.tokens[token].session == rows.tokens[token].session && next.tokens[token].rotatedAt == rows.tokens[token].rotatedAt
    ensures IsChain(next, id, chain)
  {}

  lemma RotateExtends(rows: Rows, next: Rows, id: Id, chain: seq<Id>, current: Id, token: Id)
    requires IsChain(rows, id, chain) && current in chain && token !in rows.tokens && rows.tokens[current].rotatedAt.None?
    requires next.tokens.Keys == rows.tokens.Keys + {token} && next.tokens[current].rotatedAt.Some?
    requires next.tokens[token].session == id && next.tokens[token].rotatedAt.None? && next.tokens[current].session == id
    requires forall other :: other in rows.tokens && other != current ==> next.tokens[other] == rows.tokens[other]
    ensures IsChain(next, id, chain + [token])
  {
    var i :| 0 <= i < |chain| && chain[i] == current;
    assert i == |chain| - 1;
  }

  /**
    In every reachable state the refresh tokens of a session form one rotation chain with at most one live
    token, its end; all carry the session's expiry, and a revoked session has all its tokens revoked.
  */
  lemma {:induction false} OneChain(log: History, id: Id)
    requires Replay(Step, EMPTY, log).Some? && Disciplined(log)
    ensures var rows := Replay(Step, EMPTY, log).value;
      && IsChain(rows, id, Chain(log, id)) && FollowSession(rows, id) && (id in rows.sessions <==> Chain(log, id) != [])
  {
    if |log| > 0 {
      var earlier := log[..|log| - 1];
      forall n | 0 <= n < |earlier| ensures earlier[..n] == log[..n] && earlier[n] == log[n] {}
      OneChain(earlier, id);
      var rows := Replay(Step, EMPTY, earlier).value;
      StepKeepsChain(rows, log[|log| - 1], id, Chain(earlier, id));
      StepKeepsFollowing(rows, log[|log| - 1], id);
    }
  }

  ghost function Live(rows: Rows, id: Id, at: Time): set<Id> {
    set token | token in rows.tokens && rows.tokens[token].session == id && rows.tokens[token].ActiveAt(at)
  }

  /** At most one refresh token of a session is live at any time, and none once the session is revoked. */
  lemma AtMostOneLive(log: History, id: Id, at: Time)
    requires Replay(Step, EMPTY, log).Some? && Disciplined(log)
    ensures var rows := Replay(Step, EMPTY, log).value;
      && |Live(rows, id, at)| <= 1
      && (id in rows.sessions && rows.sessions[id].revokedAt.Some? ==> Live(rows, id, at) == {})
      && (Live(rows, id, at) != {} ==> id in rows.sessions && at < rows.sessions[id].expiresAt)
  {
    OneChain(log, id);
    var rows, chain := Replay(Step, EMPTY, log).value, Chain(log, id);
    if Live(rows, id, at) != {} {
      forall token | token in Live(rows, id, at) ensures token == chain[|chain| - 1] {
        var i :| 0 <= i < |chain| && chain[i] == token;
      }
      assert Live(rows, id, at) == {chain[|chain| - 1]};
    }
  }

  // ---------------------------------------------------------------- exchanges

  predicate Exchanges(entry: Entry<Op, Reply>, token: Id) {
    entry.op.Rotate? && entry.op.current == token && entry.reply == Nothing
  }

  function Exchanged(log: History, token: Id): nat {
    if |log| == 0 then 0
    else Exchanged(log[..|log| - 1], token) + (if Exchanges(log[|log| - 1], token) then 1 else 0)
  }

  /** Each refresh token is exchanged at most once over any run, and is then rotated for good. */
  lemma {:induction false} ExchangedAtMostOnce(log: History, token: Id)
    requires Replay(Step, EMPTY, log).Some?
    ensures Exchanged(log, token) <= 1
    ensures Exchanged(log, token) == 1 ==>
      && token in Replay(Step, EMPTY, log).value.tokens
      && Replay(Step, EMPTY, log).value.tokens[token].rotatedAt.Some?
  {
    if |log| > 0 {
      ExchangedAtMostOnce(log[..|log| - 1], token);
      StepEvolves(Replay(Step, EMPTY, log[..|log| - 1]).value, log[|log| - 1].op);
    }
  }

  /** The session is revoked, and so is every one of its tokens. */
  ghost predicate Silenced(rows: Rows, id: Id) {
    && (id in rows.sessions ==> rows.sessions[id].revokedAt.Some?)
    && forall token :: token in rows.tokens && rows.tokens[token].session == id ==> rows.tokens[token].revokedAt.Some?
  }

  /** ErrReuseDetected was answered: at that commit the token's session and all its tokens were revoked. */
  lemma ReuseRevokesChain(log: History, token: Id)
    requires Replay(Step, EMPTY, log).Some? && |log| > 0
    requires log[|log| - 1].op.Rotate? && log[|log| - 1].op.current == token && log[|log| - 1].reply == Reused
    ensures var rows := Replay(Step, EMPTY, log).value;
      token in rows.tokens && Silenced(rows, rows.tokens[token].session)
  {}

  predicate Hits(rows: Rows, op: Op, id: Id) {
    match op
    case RevokeSession(session, _) => id == session
    case RevokeAll(subject, _) => id in rows.sessions && rows.sessions[id].subject == subject
    case _ => false
  }

  /** Revocation marks exactly the named sessions and their tokens, keeps first revocation times, and touches nothing else. */
  lemma RevocationIsExact(rows: Rows, op: Op)
    requires op.RevokeAll? || op.RevokeSession?
    ensures Step(rows, op).Done?
    ensures var next := Step(rows, op).rows;
      && next.sessions.Keys == rows.sessions.Keys && next.tokens.Keys == rows.tokens.Keys
      && (forall id :: id in rows.sessions && Hits(rows, op, id) ==>
            next.sessions[id].revokedAt == Some(if rows.sessions[id].revokedAt.Some? then rows.sessions[id].revokedAt.value else op.at))
      && (forall id :: id in rows.sessions && !Hits(rows, op, id) ==> next.sessions[id] == rows.sessions[id])
      && (forall token :: token in rows.tokens && Hits(rows, op, rows.tokens[token].session) ==>
            next.tokens[token].revokedAt == Some(if rows.tokens[token].revokedAt.Some? then rows.tokens[token].revokedAt.value else op.at))
      && (forall token :: token in rows.tokens && !Hits(rows, op, rows.tokens[token].session) ==>
            next.tokens[token] == rows.tokens[token])
      && Evolved(rows, next)
  {
    StepEvolves(rows, op);
  }
}
