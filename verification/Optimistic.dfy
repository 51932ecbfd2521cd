/**
  The Redis adapter's transaction loop: WATCH some keys, read, decide, and commit with one MULTI/EXEC that
  takes effect only if no watched key was modified; retry up to 16 times.
*/
module Optimistic {
  import opened Common
  import opened Serial
  import opened Watch

  /** What a transaction body does after its reads: EXEC its writes, return without writing, or fail. */
  datatype Decision<+P, +E> = Commit(reply: P) | Skip(reply: P) | Abort(error: E)

  /**
    The code of a store written against the loop. `D` is the database, `K` its keys, `V` their contents,
    `O` the operations.
  */
  datatype Code<!D, !K, V, !O, P, E> = Code(
    get: (D, K) -> Cell<V>,
    watched: O -> set<K>,
    body: (O, D) -> Decision<P, E>,    // the decision, from the values read
    write: (O, D, D) -> D,             // the pipeline, built from the values read and applied at EXEC
    contention: E)

  /** What the store is meant to do: the row tables it represents and their operations. */
  datatype Spec<!D, !K, !O, !R, P, E> = Spec(
    consistent: D -> bool,
    guard: K -> Option<K>,             // a key that is only ever written together with another one
    names: D -> set<Id>,               // random identifiers in use
    draws: O -> set<Id>,               // random identifiers an operation introduces
    rows: D -> R,
    step: (R, O) -> Outcome<R, P, E>,
    start: R,
    climbs: (R, R) -> bool)            // a preorder that every step climbs

  /** `after` is the database at a later moment: a key whose version is unchanged was not written. */
  ghost predicate Since<D(!new), K(!new), V, O, R, P, E>(c: Code<D, K, V, O, P, E>, s: Spec<D, K, O, R, P, E>,
      before: D, after: D) {
    && (forall key :: Later(c.get(before, key), c.get(after, key)))
    && (forall key :: s.guard(key).Some? && Clean(c, before, after, s.guard(key).value) ==> Clean(c, before, after, key))
  }

  predicate Clean<D, K, V, O, P, E>(c: Code<D, K, V, O, P, E>, mark: D, now: D, key: K) {
    c.get(mark, key).version == c.get(now, key).version
  }

  /** The database has moved on from `before` to `after`. */
  ghost predicate Follows<D(!new), K(!new), V, O, R, P, E>(
      c: Code<D, K, V, O, P, E>, s: Spec<D, K, O, R, P, E>, before: D, after: D) {
    Since(c, s, before, after) && s.climbs(s.rows(before), s.rows(after))
  }

  /** Each key of `view` was read at some moment between `mark` and `now`, not all at the same one. */
  ghost predicate Between<D(!new), K(!new), V, O, R, P, E>(
      c: Code<D, K, V, O, P, E>, s: Spec<D, K, O, R, P, E>, mark: D, view: D, now: D) {
    forall key :: ReadBetween(c, s, mark, view, now, key)
  }

  ghost predicate ReadBetween<D(!new), K(!new), V, O, R, P, E>(
      c: Code<D, K, V, O, P, E>, s: Spec<D, K, O, R, P, E>, mark: D, view: D, now: D, key: K) {
    exists moment :: s.consistent(moment)
      && Follows(c, s, mark, moment) && Follows(c, s, moment, now) && c.get(view, key) == c.get(moment, key)
  }

  /** The view agrees with the database on every key that is watched or guarded by a watched key. */
  ghost predicate Agree<D(!new), K(!new), V, O, R, P, E>(
      c: Code<D, K, V, O, P, E>, s: Spec<D, K, O, R, P, E>, op: O, view: D, db: D) {
    forall key :: key in c.watched(op) || (s.guard(key).Some? && s.guard(key).value in c.watched(op)) ==>
      c.get(view, key) == c.get(db, key)
  }

  /** EXEC takes the database to `next` as one step of the row tables. */
  ghost predicate CommitsAs<D(!new), K(!new), V, O, R, P, E>(
      c: Code<D, K, V, O, P, E>, s: Spec<D, K, O, R, P, E>, op: O, reply: P, db: D, next: D) {
    && s.step(s.rows(db), op) == Done(s.rows(next), reply)
    && s.consistent(next) && Since(c, s, db, next) && s.names(next) <= s.names(db) + s.draws(op)
  }

  /** A decision not to write, taken on the whole database, is what the row tables answer. */
  ghost predicate RestsAs<D, K, O, R, P, E>(s: Spec<D, K, O, R, P, E>, op: O, decision: Decision<P, E>, db: D) {
    match decision
    case Skip(reply) => s.step(s.rows(db), op) == Done(s.rows(db), reply)
    case Abort(error) => s.step(s.rows(db), op) == Refused(error)
    case Commit(_) => true
  }

  /** What has to be proved of every operation for the loop to be serializable. */
  ghost predicate Lawful<D(!new), K(!new), V, O(!new), R(!new), P, E>(c: Code<D, K, V, O, P, E>, s: Spec<D, K, O, R,
      P, E>) {
    && (forall op, view, db ::
          s.consistent(db) && Agree(c, s, op, view, db) && s.draws(op) !! s.names(db) && c.body(op, view).Commit? ==>
            CommitsAs(c, s, op, c.body(op, view).reply, db, c.write(op, view, db)))
    && (forall op, view, db ::
          s.consistent(db) && (forall key :: c.get(view, key) == c.get(db, key)) ==> RestsAs(s, op, c.body(op, view), db))
    && (forall r :: s.climbs(r, r))
    && (forall a, b, c :: s.climbs(a, b) && s.climbs(b, c) ==> s.climbs(a, c))
    && (forall r, op :: s.step(r, op).Done? ==> s.climbs(r, s.step(r, op).rows))
  }

  lemma FollowsTransitive<D(!new), K(!new), V, O(!new), R(!new), P, E>(
      c: Code<D, K, V, O, P, E>, s: Spec<D, K, O, R, P, E>, x: D, y: D, z: D)
    requires Lawful(c, s) && Follows(c, s, x, y) && Follows(c, s, y, z)
    ensures Follows(c, s, x, z)
  {}

  lemma FollowsReflexive<D(!new), K(!new), V, O(!new), R(!new), P, E>(
      c: Code<D, K, V, O, P, E>, s: Spec<D, K, O, R, P, E>, x: D)
    requires Lawful(c, s)
    ensures Follows(c, s, x, x)
  {}

  /** Reads made in a window were made in every larger window. */
  lemma BetweenWider<D(!new), K(!new), V, O(!new), R(!new), P, E>(
      c: Code<D, K, V, O, P, E>, s: Spec<D, K, O, R, P, E>, start: D, mark: D, view: D, now: D, end: D)
    requires Lawful(c, s) && Between(c, s, mark, view, now) && Follows(c, s, start, mark) && Follows(c, s, now, end)
    ensures Between(c, s, start, view, end)
  {
    forall key ensures ReadBetween(c, s, start, view, end, key) {
      assert ReadBetween(c, s, mark, view, now, key);
      var moment :| s.consistent(moment)
        && Follows(c, s, mark, moment) && Follows(c, s, moment, now) && c.get(view, key) == c.get(moment, key);
      FollowsTransitive(c, s, start, mark, moment);
      FollowsTransitive(c, s, moment, now, end);
    }
  }

  /** If EXEC finds every watched key unmodified, all reads are still current, guarded keys included. */
  lemma CleanMeansCurrent<D(!new), K(!new), V, O, R, P, E>(
      c: Code<D, K, V, O, P, E>, s: Spec<D, K, O, R, P, E>, op: O, mark: D, view: D, now: D)
    requires Between(c, s, mark, view, now)
    requires forall key :: key in c.watched(op) ==> Clean(c, mark, now, key)
    ensures Agree(c, s, op, view, now)
  {
    forall key | key in c.watched(op) || (s.guard(key).Some? && s.guard(key).value in c.watched(op))
      ensures c.get(view, key) == c.get(now, key)
    {
      assert ReadBetween(c, s, mark, view, now, key);
      var moment :| s.consistent(moment)
        && Follows(c, s, mark, moment) && Follows(c, s, moment, now) && c.get(view, key) == c.get(moment, key);
      assert Later(c.get(mark, key), c.get(moment, key)) && Later(c.get(moment, key), c.get(now, key));
      if key !in c.watched(op) {
        assert Clean(c, mark, now, s.guard(key).value);
      }
    }
  }

  /** The moment at which a key was read. */
  lemma SeenAt<D(!new), K(!new), V, O, R, P, E>(
      c: Code<D, K, V, O, P, E>, s: Spec<D, K, O, R, P, E>, mark: D, view: D, now: D, key: K) returns (moment: D)
    requires Between(c, s, mark, view, now)
    ensures s.consistent(moment) && Follows(c, s, mark, moment) && Follows(c, s, moment, now)
    ensures c.get(view, key) == c.get(moment, key)
  {
    assert ReadBetween(c, s, mark, view, now, key);
    moment :| s.consistent(moment)
      && Follows(c, s, mark, moment) && Follows(c, s, moment, now) && c.get(view, key) == c.get(moment, key);
  }

  class Store<D(!new), K(==,!new), V(==), O(!new), R(!new), P, E> {
    const c: Code<D, K, V, O, P, E>
    ghost const s: Spec<D, K, O, R, P, E>
    ghost const quiet: bool            // calls do not overlap: no other client runs during a call
    var db: D
    ghost var log: seq<Entry<O, P>>    // committed operations of all clients, in commit order
    ghost var own: seq<nat>            // the numbers of those that this client committed
    ghost var drawn: set<Id>           // random identifiers this client drew and has not used
    ghost var losses: nat              // attempts that this client has lost to contention

    /** The store equals the serial replay of the commits, with the replies their callers got. */
    ghost predicate Valid()
      reads this
    {
      && Lawful(c, s) && s.consistent(db) && drawn !! s.names(db)
      && Replay(s.step, s.start, log) == Some(s.rows(db))
    }

    constructor (c: Code<D, K, V, O, P, E>, ghost s: Spec<D, K, O, R, P, E>, empty: D, ghost drawn: set<Id>, ghost quiet: bool)
      requires Lawful(c, s) && s.consistent(empty) && s.rows(empty) == s.start && drawn !! s.names(empty)
      ensures Valid() && this.c == c && this.s == s && this.quiet == quiet && this.drawn == drawn && db == empty && log == []
    {
      this.c, this.s, this.quiet, this.drawn, db, log, own, losses := c, s, quiet, drawn, empty, [], [], 0;
    }

    /**
      Other clients run any number of operations. Nothing more is known about them than what every method of this
      class promises of its own work.
    */
    method Others()
      requires Valid()
      modifies this
      ensures Idle() && losses == old(losses)
    {
    }

    /** Only other clients ran. */
    twostate predicate Idle()
      reads this
    {
      && Valid() && Follows(c, s, old(db), db) && old(log) <= log && own == old(own) && drawn == old(drawn)
      && (quiet ==> db == old(db) && log == old(log))
    }

    /** The store is still what it was, with a history that goes on from the old one. */
    twostate predicate Steady()
      reads this
    {
      Valid() && old(log) <= log
    }

    /** The reads of one attempt: all that is known is that each key was read at some moment since WATCH. */
    method Read(ghost mark: D) returns (view: D)
      requires Valid() && Follows(c, s, mark, db)
      modifies this
      ensures Idle() && Between(c, s, mark, view, db) && losses == old(losses)
      ensures quiet && mark == db ==> forall key :: c.get(view, key) == c.get(db, key)
    {
      Others();
      view := db;
      FollowsReflexive(c, s, db);
      FollowsTransitive(c, s, mark, old(db), db);
      forall key ensures ReadBetween(c, s, mark, view, db, key) {
        assert c.get(view, key) == c.get(db, key);
      }
    }

    /** What one call, or one attempt that was not lost to contention, has done. */
    twostate predicate Ran(op: O, new r: Result<P, E>, new view: D, committed: bool)
      reads this
    {
      && Valid() && Follows(c, s, old(db), db) && old(log) <= log && Between(c, s, old(db), view, db)
      && (if committed
          then c.body(op, view).Commit? && r == Ok(c.body(op, view).reply)
               && MadeLast(op, c.body(op, view).reply)
          else drawn == old(drawn) && own == old(own)
               && match c.body(op, view)
                  case Skip(reply) => r == Ok(reply)
                  case Abort(error) => r == Err(error)
                  case Commit(_) => r == Err(c.contention) && !quiet)
      && (quiet ==>
            match s.step(s.rows(old(db)), op)
            case Done(rows, reply) => r == Ok(reply) && s.rows(db) == rows
            case Refused(error) => r == Err(error) && db == old(db))
    }

    /** This client committed exactly one operation, as number `n`. */
    twostate predicate Made(n: nat, op: O, new reply: P)
      reads this
    {
      |old(log)| <= n < |log| && log[n] == Entry(op, reply) && own == old(own) + [n]
    }

    /** The same, and the commit is the last of the history. */
    twostate predicate MadeLast(op: O, new reply: P)
      reads this
    {
      |log| > 0 && Made(|log| - 1, op, reply)
    }

    /** A call that succeeded made exactly one commit, the last of the history, and one that failed made none. */
    twostate predicate MadeExactly(op: O, new r: Result<P, E>)
      reads this
    {
      if r.Ok? then MadeLast(op, r.value) else own == old(own)
    }

    /** This client committed at most one operation, and none if the call failed. */
    twostate predicate MadeAtMost(op: O, new r: Result<P, E>)
      reads this
    {
      own == old(own) || (r.Ok? && MadeLast(op, r.value))
    }

    /** This client committed nothing, or one operation of this kind. */
    twostate predicate MadeOnly(kind: O -> bool)
      reads this
    {
      || own == old(own)
      || (|own| == |old(own)| + 1 && own[..|old(own)|] == old(own)
          && var n := own[|old(own)|]; |old(log)| <= n < |log| && kind(log[n].op))
    }

    /** One WATCH, its reads, and one EXEC; None if a watched key was modified in between. */
    method Attempt(op: O) returns (r: Option<Result<P, E>>, view: D, ghost committed: bool)
      requires Valid() && s.draws(op) <= drawn
      modifies this
      ensures r.Some? ==> Ran(op, r.value, view, committed) && (committed <==> c.body(op, view).Commit?)
      ensures r.None? ==> Idle() && Between(c, s, old(db), view, db) && c.body(op, view).Commit? && !committed && !quiet
      ensures losses == old(losses) + if r.None? then 1 else 0
    {
      ghost var mark := db;
      FollowsReflexive(c, s, mark);
      var versions := db;
      var seen := Read(mark);
      view := seen;
      assert quiet ==> RestsAs(s, op, c.body(op, view), db);
      match c.body(op, seen)
      case Abort(error) =>
        return Some(Err(error)), view, false;
      case Skip(reply) =>
        return Some(Ok(reply)), view, false;
      case Commit(reply) =>
        ghost var read := db;
        Others();
        FollowsTransitive(c, s, mark, read, db);
        BetweenWider(c, s, mark, mark, view, read, db);
        if forall key | key in c.watched(op) :: Clean(c, versions, db, key) {
          Exec(op, seen, mark, reply);
          return Some(Ok(reply)), view, true;
        }
        losses := losses + 1;
        return None, view, false;
    }

    /** EXEC with every watched key unmodified: the pipeline takes effect as one serial step. */
    method Exec(op: O, view: D, ghost mark: D, reply: P)
      requires Valid() && s.draws(op) <= drawn
      requires c.body(op, view) == Commit(reply) && Between(c, s, mark, view, db)
      requires forall key :: key in c.watched(op) ==> Clean(c, mark, db, key)
      modifies this
      ensures Valid() && Follows(c, s, old(db), db) && Between(c, s, mark, view, db)
      ensures log == old(log) + [Entry(op, reply)] && own == old(own) + [|old(log)|]
      ensures s.step(s.rows(old(db)), op) == Done(s.rows(db), reply) && losses == old(losses)
    {
      CleanMeansCurrent(c, s, op, mark, view, db);
      assert CommitsAs(c, s, op, reply, db, c.write(op, view, db));
      Append(s.step, s.start, log, Entry(op, reply));
      db := c.write(op, view, db);
      log, own, drawn := log + [Entry(op, reply)], own + [|log|], drawn - s.draws(op);
      FollowsReflexive(c, s, mark);
      BetweenWider(c, s, mark, mark, view, old(db), db);
    }

    /** Up to sixteen attempts; contention is reported only when all of them were lost. */
    method Run(op: O) returns (r: Result<P, E>, ghost view: D, ghost committed: bool)
      requires Valid() && s.draws(op) <= drawn
      modifies this
      ensures Ran(op, r, view, committed)
      ensures losses <= old(losses) + 16
      ensures losses == old(losses) + 16 <==> !committed && c.body(op, view).Commit?
    {
      var last: Option<Result<P, E>> := None;
      view, committed := db, false;
      FollowsReflexive(c, s, db);
      forall key ensures ReadBetween(c, s, db, view, db, key) { assert c.get(view, key) == c.get(db, key); }
      for attempt := 0 to 16
        invariant Idle() && Between(c, s, old(db), view, db)
        invariant attempt > 0 ==> c.body(op, view).Commit? && !quiet
        invariant losses == old(losses) + attempt && !committed
      {
        ghost var before := db;
        var seen: D;
        last, seen, committed := Attempt(op);
        view := seen;
        FollowsReflexive(c, s, db);
        FollowsTransitive(c, s, old(db), before, db);
        BetweenWider(c, s, old(db), before, view, db, db);
        if last.Some? {
          return last.value, view, committed;
        }
      }
      return Err(c.contention), view, false;
    }

    /** A single command that reads and writes at one moment, without WATCH; it is never lost to contention. */
    method Command(op: O) returns (r: Result<P, E>, ghost view: D, ghost committed: bool)
      requires Valid() && s.draws(op) <= drawn
      modifies this
      ensures Ran(op, r, view, committed) && losses == old(losses)
      ensures c.body(op, view).Commit? ==> committed
    {
      Others();
      FollowsReflexive(c, s, db);
      ghost var mark := db;
      view := db;
      forall key ensures ReadBetween(c, s, mark, view, db, key) { assert c.get(view, key) == c.get(db, key); }
      BetweenWider(c, s, old(db), mark, view, db, db);
      assert RestsAs(s, op, c.body(op, view), db);
      match c.body(op, db)
      case Abort(error) =>
        return Err(error), view, false;
      case Skip(reply) =>
        return Ok(reply), view, false;
      case Commit(reply) =>
        Exec(op, db, mark, reply);
        BetweenWider(c, s, old(db), mark, view, db, db);
        return Ok(reply), view, true;
    }
  }
}
