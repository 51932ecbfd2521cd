/** What holds of sessions over whole histories: sliding expiry, revocation and rotation. */
module SessionHistory {
  import opened Common
  import opened Serial
  import opened SessionRows

  type History = seq<Entry<Op, Reply>>

  lemma {:induction false} LaterRows(log: History, n: nat)
    requires Replay(Step, EMPTY, log).Some? && n <= |log|
    ensures Replay(Step, EMPTY, log[..n]).Some?
    ensures Evolved(Replay(Step, EMPTY, log[..n]).value, Replay(Step, EMPTY, log).value)
  {
    forall a, b, c | Evolved(a, b) && Evolved(b, c) ensures Evolved(a, c) { EvolvedIsTransitive(a, b, c); }
    forall rows, op | Step(rows, op).Done? ensures Evolved(rows, Step(rows, op).rows) { StepEvolves(rows, op); }
    Climbs(Step, EMPTY, Evolved, log, n);
  }

  /** A session revoked at some point of a history is never active again, and its row never changes again. */
  lemma RevokedForever(log: History, n: nat, token: Id)
    requires Replay(Step, EMPTY, log).Some? && n <= |log|
    requires Replay(Step, EMPTY, log[..n]).Some? && token in Replay(Step, EMPTY, log[..n]).value
    requires Replay(Step, EMPTY, log[..n]).value[token].revokedAt.Some?
    ensures token in Replay(Step, EMPTY, log).value
    ensures Replay(Step, EMPTY, log).value[token] == Replay(Step, EMPTY, log[..n]).value[token]
  {
    LaterRows(log, n);
  }

  // ---------------------------------------------------------------- sliding expiry

  function Min(a: int, b: int): int { if a < b then a else b }

  /** The lifetime after the last extension, capped by the absolute lifetime. */
  predicate Sliding(lifetime: Time, absolute: Time, record: Record) {
    record.expiresAt == Min(record.LastExtended() + lifetime, record.createdAt + absolute)
  }

  /**
    What every session manager with these lifetimes asks of its store, from however stale a copy of the record. On a
    retry its variable still holds its own time, unless the session has been extended.
  */
  predicate Asks(lifetime: Time, absolute: Time, rows: Rows, op: Op) {
    match op
    case Create(record) => record.extendedAt.None? && record.expiresAt == record.createdAt + lifetime
    case Rotate(_, record, _) => record.extendedAt.None? && record.expiresAt == record.createdAt + lifetime
    case Extend(token, at, retry, expiresAt) =>
      token in rows ==>
        && expiresAt == Min(at + lifetime, rows[token].createdAt + absolute)
        && (Keeps(rows, op) || RecordedAt(at, retry, rows[token].extendedAt) == at)
    case _ => true
  }

  /** An extension on a retry of a session that has been extended keeps the extension time it finds. */
  predicate Keeps(rows: Rows, op: Op)
    requires op.Extend? && op.token in rows
  {
    op.retry.Some? && rows[op.token].extendedAt.Some?
  }

  ghost predicate Disciplined(lifetime: Time, absolute: Time, log: History) {
    forall n :: 0 <= n < |log| && Replay(Step, EMPTY, log[..n]).Some? ==>
      Asks(lifetime, absolute, Replay(Step, EMPTY, log[..n]).value, log[n].op)
  }

  /** The expiry is no earlier than the rule says and within the absolute lifetime. */
  predicate Bounded(lifetime: Time, absolute: Time, record: Record) {
    Min(record.LastExtended() + lifetime, record.createdAt + absolute) <= record.expiresAt <= record.createdAt + absolute
  }

  /** One extension advances the expiry, and the extension time unless it keeps the one it found. */
  lemma ExtensionAdvances(lifetime: Time, absolute: Time, rows: Rows, op: Op)
    requires op.Extend? && Step(rows, op).Done? && Asks(lifetime, absolute, rows, op)
    requires Bounded(lifetime, absolute, rows[op.token])
    ensures var before, after := rows[op.token], Step(rows, op).rows[op.token];
      && before.expiresAt < after.expiresAt == Min(op.at + lifetime, before.createdAt + absolute)
      && Bounded(lifetime, absolute, after) && after.LastExtended() < after.expiresAt
      && (Sliding(lifetime, absolute, after) <==> !Keeps(rows, op))
      && (if Keeps(rows, op) then after.LastExtended() == before.LastExtended()
          else before.LastExtended() < after.LastExtended() == op.at)
  {}

  /** What one commit does to one session. */
  lemma StepSlides(lifetime: Time, absolute: Time, rows: Rows, op: Op, token: Id)
    requires lifetime <= absolute && Step(rows, op).Done? && Asks(lifetime, absolute, rows, op)
    requires token in rows ==> Bounded(lifetime, absolute, rows[token])
    ensures var next := Step(rows, op).rows;
      if op.Extend? && op.token == token then
        && token in rows && token in next && Bounded(lifetime, absolute, next[token])
        && next[token].createdAt == rows[token].createdAt && next[token].LastExtended() < next[token].expiresAt
        && rows[token].expiresAt < next[token].expiresAt == Min(op.at + lifetime, rows[token].createdAt + absolute)
        && (Sliding(lifetime, absolute, next[token]) <==> !Keeps(rows, op))
        && (if Keeps(rows, op) then next[token].extendedAt == rows[token].extendedAt
            else next[token].extendedAt == Some(op.at) && rows[token].LastExtended() < op.at)
      else if token in rows then
        token in next && next[token].(revokedAt := None) == rows[token].(revokedAt := None)
      else
        token in next ==>
          && next[token].extendedAt.None? && next[token].expiresAt == next[token].createdAt + lifetime
          && Sliding(lifetime, absolute, next[token]) && Bounded(lifetime, absolute, next[token])
  {
    if op.Extend? && op.token == token {
      ExtensionAdvances(lifetime, absolute, rows, op);
    }
  }

  predicate Extends(entry: Entry<Op, Reply>, token: Id) { entry.op.Extend? && entry.op.token == token }

  /** The time at which the session was last extended, by its caller's own clock. */
  function Asked(log: History, token: Id): Option<Time> {
    if |log| == 0 then None
    else if Extends(log[|log| - 1], token) then Some(log[|log| - 1].op.at)
    else Asked(log[..|log| - 1], token)
  }

  /** Commit `n` extended the session, not for the first time, and kept the extension time it found. */
  predicate KeepsTime(log: History, n: nat, token: Id) {
    n < |log| && Extends(log[n], token) && log[n].op.retry.Some? && Asked(log[..n], token).Some?
  }

  /** The time of the last extension that did not keep an older one. */
  function Recorded(log: History, token: Id): Option<Time> {
    if |log| == 0 then None
    else if Extends(log[|log| - 1], token) && !KeepsTime(log, |log| - 1, token) then Some(log[|log| - 1].op.at)
    else Recorded(log[..|log| - 1], token)
  }

  /** The last extension of the session was one that kept an older extension time. */
  predicate LastKeptTime(log: History, token: Id) {
    |log| > 0
    && if Extends(log[|log| - 1], token) then KeepsTime(log, |log| - 1, token) else LastKeptTime(log[..|log| - 1], token)
  }

  function OrElse(time: Option<Time>, other: Time): Time { if time.Some? then time.value else other }

  /**
    Under any mix of extensions, stale or retried, a session expires at the lifetime after it was last extended (or
    created), by the clock of the caller who extended it, or at its absolute lifetime, whichever is first. The
    extension time it records is that of the last extension which did not keep an older one, so that the same rule
    holds of the recorded time if and only if that was the last extension; otherwise the session expires later.
  */
  lemma {:induction false} ExpiryIsSliding(lifetime: Time, absolute: Time, log: History, token: Id)
    requires lifetime <= absolute && Replay(Step, EMPTY, log).Some? && Disciplined(lifetime, absolute, log)
    ensures var rows := Replay(Step, EMPTY, log).value;
      if token !in rows then Asked(log, token).None? && Recorded(log, token).None? && !LastKeptTime(log, token)
      else
        var record := rows[token];
        && record.expiresAt == Min(OrElse(Asked(log, token), record.createdAt) + lifetime, record.createdAt + absolute)
        && record.extendedAt == Recorded(log, token) && (record.extendedAt.Some? <==> Asked(log, token).Some?)
        && (Sliding(lifetime, absolute, record) <==> !LastKeptTime(log, token))
        && Bounded(lifetime, absolute, record) && (lifetime > 0 ==> record.LastExtended() < record.expiresAt)
  {
    hide Step;
    if |log| > 0 {
      DisciplinedPrefix(lifetime, absolute, log, |log| - 1);
      ExpiryIsSliding(lifetime, absolute, log[..|log| - 1], token);
      LastAsks(lifetime, absolute, log);
      StepSlides(lifetime, absolute, Replay(Step, EMPTY, log[..|log| - 1]).value, log[|log| - 1].op, token);
    }
  }

  lemma LastAsks(lifetime: Time, absolute: Time, log: History)
    requires |log| > 0 && Disciplined(lifetime, absolute, log) && Replay(Step, EMPTY, log).Some?
    ensures Asks(lifetime, absolute, Replay(Step, EMPTY, log[..|log| - 1]).value, log[|log| - 1].op)
  {}

  lemma DisciplinedPrefix(lifetime: Time, absolute: Time, log: History, n: nat)
    requires Disciplined(lifetime, absolute, log) && n <= |log|
    ensures Disciplined(lifetime, absolute, log[..n])
  {
    forall k | 0 <= k < n ensures log[..n][..k] == log[..k] && log[..n][k] == log[k] {}
  }

  /**
    In any history the expiry of a session grew between two points exactly if it was extended in between, and
    its extension time advanced exactly if one of those extensions did not keep an older time.
  */
  lemma {:induction false} ExpiryGrowth(lifetime: Time, absolute: Time, log: History, n: nat, token: Id)
    requires lifetime <= absolute && Replay(Step, EMPTY, log).Some? && n <= |log|
    requires Disciplined(lifetime, absolute, log)
    requires Replay(Step, EMPTY, log[..n]).Some? && token in Replay(Step, EMPTY, log[..n]).value
    ensures token in Replay(Step, EMPTY, log).value
    ensures var before, after := Replay(Step, EMPTY, log[..n]).value[token], Replay(Step, EMPTY, log).value[token];
      && before.expiresAt <= after.expiresAt <= after.createdAt + absolute && before.LastExtended() <= after.LastExtended()
      && (before.expiresAt < after.expiresAt <==> exists k :: n <= k < |log| && Extends(log[k], token))
      && (before.LastExtended() < after.LastExtended() <==>
            exists k :: n <= k < |log| && Extends(log[k], token) && !KeepsTime(log, k, token))
  {
    hide Step, Disciplined, Sliding, Asked, Recorded, LastKeptTime;
    if n == |log| {
      assert log[..n] == log;
      ExpiryIsSliding(lifetime, absolute, log, token);
    } else {
      var earlier, last := log[..|log| - 1], log[|log| - 1];
      DisciplinedPrefix(lifetime, absolute, log, |log| - 1);
      assert earlier[..n] == log[..n];
      ExpiryGrowth(lifetime, absolute, earlier, n, token);
      ExpiryIsSliding(lifetime, absolute, earlier, token);
      forall k | n <= k < |earlier|
        ensures earlier[k] == log[k] && KeepsTime(earlier, k, token) == KeepsTime(log, k, token)
      {
        assert earlier[..k] == log[..k];
      }
      StepGrows(lifetime, absolute, log, token);
    }
  }

  /** The last commit of a history, for one session. */
  lemma StepGrows(lifetime: Time, absolute: Time, log: History, token: Id)
    requires |log| > 0 && lifetime <= absolute && Replay(Step, EMPTY, log).Some? && Disciplined(lifetime, absolute, log)
    requires token in Replay(Step, EMPTY, log[..|log| - 1]).value
    ensures token in Replay(Step, EMPTY, log).value
    ensures var before, after := Replay(Step, EMPTY, log[..|log| - 1]).value[token], Replay(Step, EMPTY, log).value[token];
      && before.expiresAt <= after.expiresAt <= after.createdAt + absolute && before.LastExtended() <= after.LastExtended()
      && (before.expiresAt < after.expiresAt <==> Extends(log[|log| - 1], token))
      && (before.LastExtended() < after.LastExtended() <==>
            Extends(log[|log| - 1], token) && !KeepsTime(log, |log| - 1, token))
  {
    hide Step, LastKeptTime, Recorded, Disciplined, Sliding, Asks;
    var earlier, last := log[..|log| - 1], log[|log| - 1];
    DisciplinedPrefix(lifetime, absolute, log, |log| - 1);
    ExpiryIsSliding(lifetime, absolute, earlier, token);
    LastAsks(lifetime, absolute, log);
    StepSlides(lifetime, absolute, Replay(Step, EMPTY, earlier).value, last.op, token);
  }

  /**
    A manager that works from a stale cached copy may ask to extend a session again. The store refuses an active
    session exactly when the row already has its absolute expiry or as late a one as is asked for. If the row obeys the
    sliding rule, the latter means that it was last extended at this very time.
  */
  lemma StaleExtensionRefused(lifetime: Time, absolute: Time, rows: Rows, token: Id, at: Time)
    requires token in rows && rows[token].ActiveAt(at) && Bounded(lifetime, absolute, rows[token])
    ensures var row := rows[token];
      && var refused := Step(rows, Extend(token, at, None, Min(at + lifetime, row.createdAt + absolute))) == Refused(Inactive);
      && (refused <==> row.expiresAt == row.createdAt + absolute || at + lifetime <= row.expiresAt)
      && (Sliding(lifetime, absolute, row) && row.LastExtended() <= at ==>
            (refused <==> row.expiresAt == row.createdAt + absolute || row.LastExtended() == at))
  {}

  /**
    Over histories: an extension of an active session, retried or not, is refused exactly when the session has its
    absolute expiry or has been extended (or created) at this time or later, by the clock of whoever extended it.
  */
  lemma RefusedWhenOvertaken(lifetime: Time, absolute: Time, log: History, op: Op)
    requires 0 < lifetime <= absolute && Replay(Step, EMPTY, log).Some? && Disciplined(lifetime, absolute, log)
    requires op.Extend? && op.token in Replay(Step, EMPTY, log).value
    requires Replay(Step, EMPTY, log).value[op.token].ActiveAt(op.at)
    requires Asks(lifetime, absolute, Replay(Step, EMPTY, log).value, op)
    ensures var rows := Replay(Step, EMPTY, log).value;
      var row := rows[op.token];
      Step(rows, op) == Refused(Inactive)
      <==> row.expiresAt == row.createdAt + absolute || op.at <= OrElse(Asked(log, op.token), row.createdAt)
  {
    hide Disciplined, LastKeptTime, Recorded, Asked, Replay, Sliding;
    ExpiryIsSliding(lifetime, absolute, log, op.token);
  }

  /** A session created at time 0, extended at time 2, and extended again at time 9 by a second attempt. */
  const RETRIED: History := [
    Entry(Create(Record("id", "s", "t", 0, 10, None, None)), Nothing),
    Entry(Extend("t", 2, None, 12), One(Record("id", "s", "t", 0, 12, Some(2), None))),
    Entry(Extend("t", 9, Some(9), 19), One(Record("id", "s", "t", 0, 19, Some(2), None)))]

  /** Of the recorded time the rule does fail: the last extension moves the expiry to 19 and keeps the extension time 2. */
  lemma RetriedExtensionKeepsOldTime()
    ensures Replay(Step, EMPTY, RETRIED) == Some(map["t" := Record("id", "s", "t", 0, 19, Some(2), None)])
    ensures Disciplined(10, 100, RETRIED) && LastKeptTime(RETRIED, "t")
    ensures !Sliding(10, 100, Replay(Step, EMPTY, RETRIED).value["t"])
  {
    assert RETRIED[..2][..1] == RETRIED[..1] && RETRIED[..1][..0] == RETRIED[..0] == [];
    assert RETRIED[..3] == RETRIED;
    var first := map["t" := Record("id", "s", "t", 0, 10, None, None)];
    var second := map["t" := Record("id", "s", "t", 0, 12, Some(2), None)];
    assert Replay(Step, EMPTY, RETRIED[..1]) == Some(first);
    assert Step(first, RETRIED[1].op) == Done(second, RETRIED[1].reply) by {
      assert first["t" := second["t"]] == second;
    }
    assert Replay(Step, EMPTY, RETRIED[..2]) == Some(second);
    assert second["t" := Record("id", "s", "t", 0, 19, Some(2), None)] == map["t" := Record("id", "s", "t", 0, 19, Some(2), None)];
    assert Asked(RETRIED[..2], "t") == Some(2);
  }

  // ---------------------------------------------------------------- rotation

  ghost function Active(rows: Rows, subject: Id, at: Time): set<Id> {
    set token | token in rows && rows[token].subject == subject && rows[token].ActiveAt(at)
  }

  /** Rotation replaces one active session by one active session. */
  lemma RotateConserves(rows: Rows, op: Op)
    requires op.Rotate? && Step(rows, op).Done?
    requires op.replacement.subject == rows[op.current].subject && op.replacement.ActiveAt(op.at)
    ensures |Active(Step(rows, op).rows, op.replacement.subject, op.at)| == |Active(rows, op.replacement.subject, op.at)|
    ensures !Step(rows, op).rows[op.current].ActiveAt(op.at)
    ensures forall subject :: subject != op.replacement.subject ==>
      Active(Step(rows, op).rows, subject, op.at) == Active(rows, subject, op.at)
  {
    var next, subject := Step(rows, op).rows, op.replacement.subject;
    assert op.current != op.replacement.token;
    assert Active(next, subject, op.at) == Active(rows, subject, op.at) - {op.current} + {op.replacement.token};
  }

  function Rotations(log: History, token: Id): nat {
    if |log| == 0 then 0
    else
      var op := log[|log| - 1].op;
      Rotations(log[..|log| - 1], token) + (if op.Rotate? && op.current == token then 1 else 0)
  }

  /** However many callers rotate the same token, at most one wins; and a winner leaves it revoked. */
  lemma {:induction false} RotatedAtMostOnce(log: History, token: Id)
    requires Replay(Step, EMPTY, log).Some?
    ensures Rotations(log, token) <= 1
    ensures Rotations(log, token) == 1 ==>
      && token in Replay(Step, EMPTY, log).value
      && Replay(Step, EMPTY, log).value[token].revokedAt.Some?
  {
    if |log| > 0 {
      RotatedAtMostOnce(log[..|log| - 1], token);
      StepEvolves(Replay(Step, EMPTY, log[..|log| - 1]).value, log[|log| - 1].op);
    }
  }
}
