/** Types shared by every part of the model. */
module Common {

  datatype Option<+T> = None | Some(value: T)

  datatype Result<+T, +E> = Ok(value: T) | Err(error: E)

  /** Instants and durations, in nanoseconds. */
  type Time = int

  /** Identifiers (UUIDs, provider subjects, hex-encoded hashes) are strings. */
  type Id = string

  predicate Space(c: char) {
    || '\t' <= c <= '\r' || c == ' ' || c == '\U{85}' || c == '\U{A0}' || c == '\U{1680}' || '\U{2000}' <= c <= '\U{200A}'
    || c == '\U{2028}' || c == '\U{2029}' || c == '\U{202F}' || c == '\U{205F}' || c == '\U{3000}'
  }

  /** strings.TrimSpace leaves nothing. */
  predicate Blank(s: string) { forall c :: c in s ==> Space(c) }

  /** strings.TrimSpace */
  function Trim(s: string): (r: string)
    ensures Blank(s) <==> r == ""
    ensures |r| <= |s|
  {
    if |s| > 0 && Space(s[0]) then Trim(s[1..])
    else if |s| > 0 && Space(s[|s| - 1]) then Trim(s[..|s| - 1])
    else s
  }

  /** Trimming takes away spaces at both ends and leaves none there. */
  lemma {:induction false} TrimmedEnds(s: string) returns (left: string, right: string)
    ensures s == left + Trim(s) + right && Blank(left) && Blank(right)
    ensures Trim(s) != "" ==> !Space(Trim(s)[0]) && !Space(Trim(s)[|Trim(s)| - 1])
  {
    hide Space, Blank;
    NothingIsBlank();
    left, right := "", "";
    if |s| > 0 && Space(s[0]) {
      var outer;
      outer, right := TrimmedEnds(s[1..]);
      left := [s[0]] + outer;
      StillBlank(s[0], outer);
      assert s == [s[0]] + s[1..];
      Regroup([s[0]], outer, Trim(s), right);
    } else if |s| > 0 && Space(s[|s| - 1]) {
      var outer;
      left, outer := TrimmedEnds(s[..|s| - 1]);
      right := outer + [s[|s| - 1]];
      StillBlank(s[|s| - 1], outer);
      assert s == s[..|s| - 1] + [s[|s| - 1]];
      Regroup(left, Trim(s), outer, [s[|s| - 1]]);
    }
  }

  lemma Regroup(a: string, b: string, c: string, d: string)
    ensures a + (b + c + d) == a + b + c + d
    ensures (a + b + c) + d == a + b + (c + d)
  {}

  lemma NothingIsBlank()
    ensures Blank("")
  {}

  lemma StillBlank(c: char, s: string)
    requires Space(c) && Blank(s)
    ensures Blank([c] + s) && Blank(s + [c])
  {}

  /** What is left after trimming is not blank. */
  lemma {:induction false} TrimmedIsNotBlank(s: string)
    ensures Blank(Trim(s)) <==> Blank(s)
  {
    if |s| > 0 && Space(s[0]) {
      TrimmedIsNotBlank(s[1..]);
      assert s == [s[0]] + s[1..];
    } else if |s| > 0 && Space(s[|s| - 1]) {
      TrimmedIsNotBlank(s[..|s| - 1]);
      assert s == s[..|s| - 1] + [s[|s| - 1]];
    }
  }

  /** The all-zero token hash, in hexadecimal. */
  const ZERO_HASH: Id := "0000000000000000000000000000000000000000000000000000000000000000"

  /** The zero time. */
  const ZERO_TIME: Time := 0

  const SECOND: Time := 1_000_000_000

  function Elements<T>(list: seq<T>): set<T> { set x | x in list }
}

/**
  Serial histories: a database is a start value and a step function; a log records the operations
  that committed, each with the reply its caller received.
*/
module Serial {
  import opened Common

  /** One operation either commits, giving new rows and a reply, or is refused and changes nothing. */
  datatype Outcome<+R, +P, +E> = Done(rows: R, reply: P) | Refused(error: E)

  datatype Entry<+O, +P> = Entry(op: O, reply: P)

  /** The rows after running the logged operations one at a time; None if some reply does not match. */
  ghost function Replay<R, O, P, E>(step: (R, O) -> Outcome<R, P, E>, start: R, log: seq<Entry<O, P>>): Option<R>
  {
    if |log| == 0 then Some(start)
    else
      var last := log[|log| - 1];
      match Replay(step, start, log[..|log| - 1])
      case None => None
      case Some(rows) =>
        match step(rows, last.op)
        case Refused(_) => None
        case Done(next, reply) => if reply == last.reply then Some(next) else None
  }

  /** A call that was exactly one step: `after` and `r` are what the step function says. */
  ghost predicate Stepped<R, O, P, E>(step: (R, O) -> Outcome<R, P, E>, before: R, after: R, op: O, r: Result<P, E>) {
    match step(before, op)
    case Done(rows, reply) => r == Ok(reply) && after == rows
    case Refused(error) => r == Err(error) && after == before
  }

  /** `op` was committed last. */
  predicate CommittedLast<O(==), P(==)>(log: seq<Entry<O, P>>, op: O, reply: P) {
    |log| > 0 && log[|log| - 1] == Entry(op, reply)
  }

  lemma Append<R, O, P, E>(step: (R, O) -> Outcome<R, P, E>, start: R, log: seq<Entry<O, P>>, entry: Entry<O, P>)
    requires Replay(step, start, log).Some?
    requires step(Replay(step, start, log).value, entry.op).Done?
    requires step(Replay(step, start, log).value, entry.op).reply == entry.reply
    ensures Replay(step, start, log + [entry]) == Some(step(Replay(step, start, log).value, entry.op).rows)
  {
    assert (log + [entry])[..|log + [entry]| - 1] == log;
  }

  /** Every prefix of a replayable log is replayable. */
  lemma {:induction false} Prefix<R, O, P, E>(step: (R, O) -> Outcome<R, P, E>, start: R, log: seq<Entry<O, P>>, n: nat)
    requires Replay(step, start, log).Some? && n <= |log|
    ensures Replay(step, start, log[..n]).Some?
  {
    if n < |log| {
      Prefix(step, start, log[..|log| - 1], n);
      assert log[..|log| - 1][..n] == log[..n];
    } else {
      assert log[..n] == log;
    }
  }

  /** A preorder that every committed step climbs is climbed by every longer log. */
  lemma {:induction false} Climbs<R(!new), O(!new), P, E>(
      step: (R, O) -> Outcome<R, P, E>, start: R, order: (R, R) -> bool, log: seq<Entry<O, P>>, n: nat)
    requires forall r :: order(r, r)
    requires forall a, b, c :: order(a, b) && order(b, c) ==> order(a, c)
    requires forall r, op :: step(r, op).Done? ==> order(r, step(r, op).rows)
    requires Replay(step, start, log).Some? && n <= |log|
    ensures Replay(step, start, log[..n]).Some?
    ensures order(Replay(step, start, log[..n]).value, Replay(step, start, log).value)
  {
    Prefix(step, start, log, n);
    if n < |log| {
      Climbs(step, start, order, log[..|log| - 1], n);
      assert log[..|log| - 1][..n] == log[..n];
    } else {
      assert log[..n] == log;
    }
  }
}

/**
  Redis keys under WATCH. Each key carries the number of commands that have modified it, which is what
  EXEC compares with the value remembered by WATCH.
*/
module Watch {
  import opened Common

  datatype Cell<+T> = Cell(value: T, version: nat)

  /** `after` is the same key at a later moment: an equal version means nobody wrote in between. */
  ghost predicate Later<T>(before: Cell<T>, after: Cell<T>) {
    && before.version <= after.version
    && (before.version == after.version ==> before.value == after.value)
  }

  /** HSET always modifies the key. */
  function HSet<K, V>(hash: Cell<map<K, V>>, field: K, value: V): Cell<map<K, V>> {
    Cell(hash.value[field := value], hash.version + 1)
  }

  /** HSET of several fields at once. */
  function HSetAll<K, V>(hash: Cell<map<K, V>>, fields: map<K, V>): Cell<map<K, V>> {
    Cell(hash.value + fields, hash.version + 1)
  }

  /** HDEL modifies the key only if one of the fields exists. */
  function HDel<K, V>(hash: Cell<map<K, V>>, fields: set<K>): Cell<map<K, V>> {
    if fields !! hash.value.Keys then hash else Cell(hash.value - fields, hash.version + 1)
  }

  /** Families of set-valued keys such as `passkeys:subject:*`; a missing set is empty. */
  type Sets<E> = map<Id, Cell<set<E>>>

  function At<E>(sets: Sets<E>, name: Id): Cell<set<E>> {
    if name in sets then sets[name] else Cell({}, 0)
  }

  /** SADD modifies the key only if the member is new. */
  function SAdd<E>(sets: Sets<E>, name: Id, member: E): Sets<E> {
    var cell := At(sets, name);
    if member in cell.value then sets else sets[name := Cell(cell.value + {member}, cell.version + 1)]
  }

  /** SREM modifies the key only if the member is present. */
  function SRem<E>(sets: Sets<E>, name: Id, member: E): Sets<E> {
    var cell := At(sets, name);
    if member !in cell.value then sets else sets[name := Cell(cell.value - {member}, cell.version + 1)]
  }

  lemma SetsTick<E>(sets: Sets<E>, name: Id, member: E, other: Id)
    ensures Later(At(sets, other), At(SAdd(sets, name, member), other))
    ensures Later(At(sets, other), At(SRem(sets, name, member), other))
  {}

  // ---------------------------------------------------------------- inverse indexes

  /** The keys of the records that belong to `subject`. */
  ghost function Owned<R>(base: map<Id, R>, owner: R -> Id, subject: Id): set<Id> {
    set key | key in base && owner(base[key]) == subject
  }

  /** The family of sets is exactly the inverse of "record belongs to subject". */
  ghost predicate Inverse<R>(base: map<Id, R>, owner: R -> Id, sets: Sets<Id>) {
    forall subject :: At(sets, subject).value == Owned(base, owner, subject)
  }

  lemma InverseAdd<R>(base: map<Id, R>, owner: R -> Id, sets: Sets<Id>, key: Id, record: R)
    requires Inverse(base, owner, sets)
    requires key in base ==> owner(base[key]) == owner(record)
    ensures Inverse(base[key := record], owner, SAdd(sets, owner(record), key))
  {
    var after := SAdd(sets, owner(record), key);
    forall subject ensures At(after, subject).value == Owned(base[key := record], owner, subject) {
      assert At(sets, subject).value == Owned(base, owner, subject);
      if subject == owner(record) {
        assert Owned(base[key := record], owner, subject) == Owned(base, owner, subject) + {key};
      } else {
        assert Owned(base[key := record], owner, subject) == Owned(base, owner, subject);
      }
    }
  }

  lemma InverseUpdate<R>(base: map<Id, R>, owner: R -> Id, sets: Sets<Id>, key: Id, record: R)
    requires Inverse(base, owner, sets) && key in base && owner(base[key]) == owner(record)
    ensures Inverse(base[key := record], owner, sets)
  {
    InverseAdd(base, owner, sets, key, record);
    assert At(sets, owner(record)).value == Owned(base, owner, owner(record));
  }

  lemma InverseRemove<R>(base: map<Id, R>, owner: R -> Id, sets: Sets<Id>, key: Id)
    requires Inverse(base, owner, sets) && key in base
    ensures Inverse(base - {key}, owner, SRem(sets, owner(base[key]), key))
  {
    var after := SRem(sets, owner(base[key]), key);
    forall subject ensures At(after, subject).value == Owned(base - {key}, owner, subject) {
      assert At(sets, subject).value == Owned(base, owner, subject);
      if subject == owner(base[key]) {
        assert Owned(base - {key}, owner, subject) == Owned(base, owner, subject) - {key};
      } else {
        assert Owned(base - {key}, owner, subject) == Owned(base, owner, subject);
      }
    }
  }
}
