/** Password hash strings: printing, parsing and the choice of algorithm. */
module PasswordHash {
  import opened Common
  import opened Text
  import opened Base64

  datatype Algorithm = Argon2id | Bcrypt

  datatype Parameters = Parameters(memory: nat, iterations: nat, parallelism: nat, salt: Bytes, key: Bytes)

  const VERSION: nat := 19
  const MEMORY: nat := 19 * 1024
  const ITERATIONS: nat := 2
  const PARALLELISM: nat := 1
  const SALT_LENGTH: nat := 16
  const KEY_LENGTH: nat := 32
  const BCRYPT_COST: nat := 12

  const MAXIMUM_LENGTH: nat := 512
  const MAXIMUM_MEMORY: nat := 256 * 1024
  const MAXIMUM_ITERATIONS: nat := 10
  const MAXIMUM_PARALLELISM: nat := 16
  const MAXIMUM_BYTES: nat := 64

  /** At most 256 MiB, ten passes and sixteen lanes. */
  predicate InBounds(memory: nat, iterations: nat, parallelism: nat) {
    0 < memory <= 262144 && 0 < iterations <= 10 && 0 < parallelism <= 16
  }

  predicate Acceptable(p: Parameters) {
    && InBounds(p.memory, p.iterations, p.parallelism)
    && 0 < |p.salt| <= 64 && 0 < |p.key| <= 64
  }

  // ---------------------------------------------------------------- the m, t and p fields

  /** key=number */
  function Field(value: string): Option<(string, nat)> {
    match Cut(value, '=')
    case None => None
    case Some((key, raw)) =>
      if key == "" || raw == "" || ParseUint(raw).None? then None else Some((key, ParseUint(raw).value))
  }

  /** Some field assigns this number to this key. */
  ghost predicate Assigns(values: seq<string>, key: string, number: nat) {
    exists value :: value in values && Field(value) == Some((key, number))
  }

  /** Three fields assign the three parameters, in any order, within bounds. */
  ghost predicate Denotes(values: seq<string>, memory: nat, iterations: nat, parallelism: nat) {
    && |values| == 3 && InBounds(memory, iterations, parallelism)
    && Assigns(values, "m", memory) && Assigns(values, "t", iterations) && Assigns(values, "p", parallelism)
  }

  /** The entries that the first fields have put into the map. */
  ghost predicate Collected(values: seq<string>, parsed: map<string, nat>) {
    && |parsed| == |values|
    && (forall value :: value in values ==>
          Field(value).Some? && Field(value).value.0 in parsed && parsed[Field(value).value.0] == Field(value).value.1)
    && (forall key :: key in parsed ==> Assigns(values, key, parsed[key]))
  }

  lemma StillAssigns(values: seq<string>, value: string, key: string, number: nat)
    requires Assigns(values, key, number) || Field(value) == Some((key, number))
    ensures Assigns(values + [value], key, number)
  {
    var v :| v in values + [value] && Field(v) == Some((key, number));
  }

  lemma OneMore(parsed: map<string, nat>, key: string, number: nat)
    requires key !in parsed
    ensures |parsed[key := number]| == |parsed| + 1
  {
    assert parsed[key := number].Keys == parsed.Keys + {key};
  }

  lemma NoneCollected(values: seq<string>)
    ensures Collected(values[..0], map[])
  {}

  lemma CollectOne(values: seq<string>, parsed: map<string, nat>, value: string)
    requires Collected(values, parsed) && Field(value).Some? && Field(value).value.0 !in parsed
    ensures Collected(values + [value], parsed[Field(value).value.0 := Field(value).value.1])
  {
    hide Field;
    var key, number := Field(value).value.0, Field(value).value.1;
    var next := parsed[key := number];
    OneMore(parsed, key, number);
    forall k | k in next ensures Assigns(values + [value], k, next[k]) {
      StillAssigns(values, value, k, next[k]);
    }
  }

  /** What all three fields denote can be read off the map. */
  lemma AllCollected(values: seq<string>, parsed: map<string, nat>, m: nat, t: nat, p: nat)
    requires |values| == 3 && Collected(values, parsed)
    ensures |parsed| == 3
    ensures Denotes(values, m, t, p) <==>
      && InBounds(m, t, p) && "m" in parsed && "t" in parsed && "p" in parsed
      && parsed["m"] == m && parsed["t"] == t && parsed["p"] == p
  {
    hide Field;
  }

  /** parseArgon2Parameters: the answer is the one triple that the fields denote, whatever their order. */
  method ParseParameters(encoded: string) returns (r: Option<(nat, nat, nat)>)
    ensures r.Some? ==> Denotes(Split(encoded, ','), r.value.0, r.value.1, r.value.2)
    ensures forall m: nat, t: nat, p: nat :: Denotes(Split(encoded, ','), m, t, p) ==> r == Some((m, t, p))
  {
    hide Collected, Assigns;
    var values := Split(encoded, ',');
    if |values| != 3 {
      return None;
    }
    var parsed: map<string, nat> := map[];
    NoneCollected(values);
    for i := 0 to 3
      invariant Collected(values[..i], parsed)
    {
      assert values[..i + 1] == values[..i] + [values[i]];
      match Cut(values[i], '=') {
        case None =>
          BadField(values, i);
          return None;
        case Some((key, raw)) =>
          if key == "" || raw == "" {
            BadField(values, i);
            return None;
          }
          if key in parsed {
            TwiceAssigned(values, i, parsed);
            return None;
          }
          match ParseUint(raw) {
            case None =>
              BadField(values, i);
              return None;
            case Some(number) =>
              CollectOne(values[..i], parsed, values[i]);
              parsed := parsed[key := number];
          }
      }
    }
    assert values[..3] == values;
    forall m: nat, t: nat, p: nat {
      AllCollected(values, parsed, m, t, p);
    }
    if "m" !in parsed || "t" !in parsed || "p" !in parsed || |parsed| != 3 {
      return None;
    }
    var m, t, p := parsed["m"], parsed["t"], parsed["p"];
    if m == 0 || m > MAXIMUM_MEMORY || t == 0 || t > MAXIMUM_ITERATIONS || p == 0 || p > MAXIMUM_PARALLELISM {
      return None;
    }
    return Some((m, t, p));
  }

  /** The three assigning fields are three different ones, so none of the three can be anything else. */
  lemma AllAssign(values: seq<string>, m: nat, t: nat, p: nat, i: nat)
    requires Denotes(values, m, t, p) && i < 3
    ensures Field(values[i]).Some?
    ensures forall j :: 0 <= j < 3 && j != i ==> Field(values[j]).Some? && Field(values[j]).value.0 != Field(values[i]).value.0
  {
    hide Field;
    var a :| 0 <= a < 3 && Field(values[a]) == Some(("m", m));
    var b :| 0 <= b < 3 && Field(values[b]) == Some(("t", t));
    var c :| 0 <= c < 3 && Field(values[c]) == Some(("p", p));
    assert "m" != "t" && "t" != "p" && "m" != "p" by { assert "m"[0] != "t"[0] && "t"[0] != "p"[0] && "m"[0] != "p"[0]; }
    assert i == a || i == b || i == c;
  }

  lemma BadField(values: seq<string>, i: nat)
    requires |values| == 3 && i < 3 && Field(values[i]).None?
    ensures forall m: nat, t: nat, p: nat :: !Denotes(values, m, t, p)
  {
    forall m: nat, t: nat, p: nat ensures !Denotes(values, m, t, p) {
      if Denotes(values, m, t, p) { AllAssign(values, m, t, p, i); }
    }
  }

  lemma TwiceAssigned(values: seq<string>, i: nat, parsed: map<string, nat>)
    requires |values| == 3 && i < 3 && Collected(values[..i], parsed)
    requires Cut(values[i], '=').Some? && Cut(values[i], '=').value.0 in parsed
    ensures forall m: nat, t: nat, p: nat :: !Denotes(values, m, t, p)
  {
    hide Denotes;
    var key := Cut(values[i], '=').value.0;
    var value :| value in values[..i] && Field(value).Some? && Field(value).value.0 == key;
    var j :| 0 <= j < i && values[j] == value;
    forall m: nat, t: nat, p: nat ensures !Denotes(values, m, t, p) {
      if Denotes(values, m, t, p) { AllAssign(values, m, t, p, i); }
    }
  }

  /** Reordering the fields changes nothing. */
  lemma OrderIsIrrelevant(values: seq<string>, others: seq<string>, m: nat, t: nat, p: nat)
    requires multiset(values) == multiset(others)
    ensures Denotes(values, m, t, p) <==> Denotes(others, m, t, p)
  {
    assert |values| == |multiset(values)| == |multiset(others)| == |others|;
    forall value ensures value in values <==> value in others {
      assert value in values <==> value in multiset(values);
    }
  }

  // ---------------------------------------------------------------- the whole string

  function FieldsOf(p: Parameters): seq<string> {
    ["m=" + Decimal(p.memory), "t=" + Decimal(p.iterations), "p=" + Decimal(p.parallelism)]
  }

  /** The hash string with the parameter fields given. */
  function PrintWith(p: Parameters, fields: seq<string>): string {
    Join(["", "argon2id", "v=" + Decimal(VERSION), Join(fields, ','), Encode(Std, p.salt), Encode(Std, p.key)], '$')
  }

  /** The string that hashArgon2id prints. */
  function Print(p: Parameters): string { PrintWith(p, FieldsOf(p)) }

  /** What a hash string says. */
  ghost predicate Means(encoded: string, p: Parameters) {
    && 0 < |encoded| <= 512
    && var parts := Split(encoded, '$');
    && |parts| == 6 && parts[0] == "" && parts[1] == "argon2id"
    && "v=" <= parts[2] && ParseUint(parts[2][2..]) == Some(19)
    && Denotes(Split(parts[3], ','), p.memory, p.iterations, p.parallelism)
    && Decode(Std, parts[4]) == Some(p.salt) && 0 < |p.salt| <= 64
    && Decode(Std, parts[5]) == Some(p.key) && 0 < |p.key| <= 64
  }

  /** parseArgon2id */
  method Parse(encoded: string) returns (r: Option<Parameters>)
    ensures r.Some? ==> Means(encoded, r.value)
    ensures forall p :: Means(encoded, p) ==> r == Some(p)
  {
    if |encoded| == 0 || |encoded| > MAXIMUM_LENGTH {
      return None;
    }
    var parts := Split(encoded, '$');
    if |parts| != 6 || parts[0] != "" || parts[1] != "argon2id" {
      return None;
    }
    if !("v=" <= parts[2]) || ParseUint(parts[2][2..]) != Some(VERSION) {
      return None;
    }
    var values := ParseParameters(parts[3]);
    if values.None? {
      return None;
    }
    var salt, key := Decode(Std, parts[4]), Decode(Std, parts[5]);
    if salt.None? || |salt.value| == 0 || |salt.value| > MAXIMUM_BYTES {
      return None;
    }
    if key.None? || |key.value| == 0 || |key.value| > MAXIMUM_BYTES {
      return None;
    }
    return Some(Parameters(values.value.0, values.value.1, values.value.2, salt.value, key.value));
  }

  // ---------------------------------------------------------------- round trip

  lemma {:induction false} DecimalIsShort(n: nat, k: nat)
    requires 0 < k <= 6 && n < Power(k)
    ensures |Decimal(n)| <= k
  {
    if n >= 10 { DecimalIsShort(n / 10, k - 1); }
  }

  function Power(k: nat): nat { if k == 0 then 1 else 10 * Power(k - 1) }

  lemma FieldOfDecimal(key: string, n: nat)
    requires key != "" && '=' !in key && n <= MAX_UINT32
    ensures Field(key + "=" + Decimal(n)) == Some((key, n))
  {
    CutOfJoin(key, Decimal(n), '=');
    assert key + "=" + Decimal(n) == key + ['='] + Decimal(n);
    ParseOfDecimal(n);
  }

  lemma FieldsDenote(p: Parameters)
    requires InBounds(p.memory, p.iterations, p.parallelism)
    ensures Denotes(FieldsOf(p), p.memory, p.iterations, p.parallelism)
  {
    hide Field;
    var fields := FieldsOf(p);
    FieldOfDecimal("m", p.memory);
    FieldOfDecimal("t", p.iterations);
    FieldOfDecimal("p", p.parallelism);
    assert fields[0] in fields && Field(fields[0]) == Some(("m", p.memory)) by { assert "m" + "=" == "m="; }
    assert fields[1] in fields && Field(fields[1]) == Some(("t", p.iterations)) by { assert "t" + "=" == "t="; }
    assert fields[2] in fields && Field(fields[2]) == Some(("p", p.parallelism)) by { assert "p" + "=" == "p="; }
  }

  lemma FieldIsPlain(key: char, n: nat, k: nat)
    requires key !in {',', '$'} && 0 < k <= 6 && n < Power(k)
    ensures ',' !in [key] + "=" + Decimal(n) && '$' !in [key] + "=" + Decimal(n)
    ensures |[key] + "=" + Decimal(n)| <= k + 2
  {
    DecimalIsShort(n, k);
    assert '$' !in Decimal(n) && ',' !in Decimal(n);
  }

  /** No field contains a separator, and none is long. */
  lemma FieldsArePlain(p: Parameters)
    requires InBounds(p.memory, p.iterations, p.parallelism)
    ensures forall field :: field in FieldsOf(p) ==> ',' !in field && '$' !in field && |field| <= 8
  {
    assert Power(6) == 1_000_000 && Power(2) == 100;
    FieldIsPlain('m', p.memory, 6);
    FieldIsPlain('t', p.iterations, 2);
    FieldIsPlain('p', p.parallelism, 2);
    assert FieldsOf(p)[0] == ['m'] + "=" + Decimal(p.memory);
    assert FieldsOf(p)[1] == ['t'] + "=" + Decimal(p.iterations);
    assert FieldsOf(p)[2] == ['p'] + "=" + Decimal(p.parallelism);
  }

  lemma JoinOfThree(a: string, b: string, c: string)
    ensures |Join([a, b, c], ',')| == |a| + |b| + |c| + 2
  {
    JoinCons(a, [b, c], ',');
    JoinCons(b, [c], ',');
    assert [a] + [b, c] == [a, b, c] && [b] + [c] == [b, c];
  }

  lemma JoinOfSix(a: string, b: string, c: string, d: string, e: string, f: string)
    ensures |Join([a, b, c, d, e, f], '$')| == |a| + |b| + |c| + |d| + |e| + |f| + 5
  {
    assert [a] + [b, c, d, e, f] == [a, b, c, d, e, f] && [b] + [c, d, e, f] == [b, c, d, e, f];
    assert [c] + [d, e, f] == [c, d, e, f] && [d] + [e, f] == [d, e, f] && [e] + [f] == [e, f];
    JoinCons(a, [b, c, d, e, f], '$');
    JoinCons(b, [c, d, e, f], '$');
    JoinCons(c, [d, e, f], '$');
    JoinCons(d, [e, f], '$');
    JoinCons(e, [f], '$');
  }

  /** Reordered fields are still three fields that denote the parameters and contain no separator. */
  lemma FieldsReordered(p: Parameters, fields: seq<string>)
    requires InBounds(p.memory, p.iterations, p.parallelism) && multiset(fields) == multiset(FieldsOf(p))
    ensures Denotes(Split(Join(fields, ','), ','), p.memory, p.iterations, p.parallelism)
    ensures '$' !in Join(fields, ',') && |Join(fields, ',')| <= 26
  {
    hide Denotes, Decimal, Split, FieldsOf;
    FieldsDenote(p);
    ReorderedArePlain(p, fields);
    OrderIsIrrelevant(FieldsOf(p), fields, p.memory, p.iterations, p.parallelism);
    SplitOfJoin(fields, ',');
    JoinAvoids(fields, ',', '$');
    assert fields == [fields[0], fields[1], fields[2]];
    JoinOfThree(fields[0], fields[1], fields[2]);
  }

  lemma ReorderedArePlain(p: Parameters, fields: seq<string>)
    requires InBounds(p.memory, p.iterations, p.parallelism) && multiset(fields) == multiset(FieldsOf(p))
    ensures |fields| == 3 && forall field :: field in fields ==> ',' !in field && '$' !in field && |field| <= 8
  {
    FieldsArePlain(p);
    assert |fields| == |multiset(fields)| == |multiset(FieldsOf(p))| == 3;
    forall field | field in fields ensures field in FieldsOf(p) {
      assert field in multiset(fields);
    }
  }

  lemma PartsOfPrint(p: Parameters, fields: seq<string>)
    requires Acceptable(p) && '$' !in Join(fields, ',') && |Join(fields, ',')| <= 26
    ensures 0 < |PrintWith(p, fields)| <= MAXIMUM_LENGTH
    ensures Split(PrintWith(p, fields), '$') ==
      ["", "argon2id", "v=19", Join(fields, ','), Encode(Std, p.salt), Encode(Std, p.key)]
  {
    EncodedChars(Std, p.salt);
    EncodedChars(Std, p.key);
    assert Decimal(VERSION) == "19" by { assert Decimal(1) == "1"; }
    assert "v=" + Decimal(VERSION) == "v=19";
    var parts := ["", "argon2id", "v=19", Join(fields, ','), Encode(Std, p.salt), Encode(Std, p.key)];
    assert '$' !in "argon2id" && '$' !in "v=19" && '$' !in Encode(Std, p.salt) && '$' !in Encode(Std, p.key);
    SplitOfJoin(parts, '$');
    JoinOfSix("", "argon2id", "v=19", Join(fields, ','), Encode(Std, p.salt), Encode(Std, p.key));
  }

  /**
    Parsing what was printed gives back exactly what was printed, for every salt and key of 1 to 64 bytes and
    all parameters in bounds, and so does parsing it with the m, t and p fields in any other order.
  */
  lemma PrintedMeans(p: Parameters, fields: seq<string>)
    requires Acceptable(p) && multiset(fields) == multiset(FieldsOf(p))
    ensures Means(PrintWith(p, fields), p)
  {
    hide Split, Join, Decode, Decimal, Denotes, PrintWith;
    FieldsReordered(p, fields);
    PartsOfPrint(p, fields);
    DecodeOfEncode(Std, p.salt);
    DecodeOfEncode(Std, p.key);
    assert "v=19"[2..] == "19";
    assert ParseUint("19") == Some(VERSION) by { ParseOfDecimal(VERSION); Nineteen(); }
  }

  lemma Nineteen()
    ensures Decimal(VERSION) == "19"
  {
    assert Decimal(1) == "1";
  }

  /** A hash string has at most one meaning. */
  lemma OneMeaning(encoded: string, p: Parameters, q: Parameters)
    requires Means(encoded, p) && Means(encoded, q)
    ensures p == q
  {
    OnlyOneDenoted(Split(Split(encoded, '$')[3], ','));
  }

  /** Fields denote at most one triple. */
  lemma OnlyOneDenoted(values: seq<string>)
    ensures forall m: nat, t: nat, p: nat, m2: nat, t2: nat, p2: nat ::
      Denotes(values, m, t, p) && Denotes(values, m2, t2, p2) ==> m == m2 && t == t2 && p == p2
  {
    forall m: nat, t: nat, p: nat, m2: nat, t2: nat, p2: nat | Denotes(values, m, t, p) && Denotes(values, m2, t2, p2)
      ensures m == m2 && t == t2 && p == p2
    {
      SameNumber(values, m, t, p, "m", m2);
      SameNumber(values, m, t, p, "t", t2);
      SameNumber(values, m, t, p, "p", p2);
    }
  }

  lemma SameNumber(values: seq<string>, m: nat, t: nat, p: nat, key: string, number: nat)
    requires Denotes(values, m, t, p) && Assigns(values, key, number) && key in {"m", "t", "p"}
    ensures number == if key == "m" then m else if key == "t" then t else p
  {
    hide Field;
    var wanted := if key == "m" then m else if key == "t" then t else p;
    var i :| 0 <= i < 3 && Field(values[i]) == Some((key, number));
    var j :| 0 <= j < 3 && Field(values[j]) == Some((key, wanted));
    AllAssign(values, m, t, p, i);
  }

  // ---------------------------------------------------------------- verification and the choice of algorithm

  datatype Verification = Verification(matches: bool, needsRehash: bool)

  datatype BcryptAnswer = Invalid | Mismatch | Match(cost: nat)

  /** The hash functions, of which only the shape of their answers is known. */
  datatype Primitives = Primitives(
    idKey: (string, Bytes, nat, nat, nat, nat) -> Bytes,   // password, salt, iterations, memory, parallelism, length
    bcryptCheck: (string, string) -> BcryptAnswer,         // password, hash
    bcryptHash: (string, Bytes) -> Option<string>)         // None: the password is too long

  ghost predicate Shaped(prims: Primitives) {
    && (forall password, salt, t, m, p, n: nat :: |prims.idKey(password, salt, t, m, p, n)| == n)
    && (forall password, salt :: prims.bcryptHash(password, salt).Some? ==>
          "$2a$" <= prims.bcryptHash(password, salt).value
          && prims.bcryptCheck(password, prims.bcryptHash(password, salt).value) == Match(BCRYPT_COST))
  }

  function Identify(encoded: string): Option<Algorithm> {
    if "$argon2id$" <= encoded then Some(Argon2id)
    else if "$2a$" <= encoded || "$2b$" <= encoded || "$2y$" <= encoded then Some(Bcrypt)
    else None
  }

  function Judge(prims: Primitives, password: string, p: Parameters): Verification {
    var matches := prims.idKey(password, p.salt, p.iterations, p.memory, p.parallelism, |p.key|) == p.key;
    Verification(matches,
      matches && (p.memory != MEMORY || p.iterations != ITERATIONS || p.parallelism != PARALLELISM
                  || |p.salt| != SALT_LENGTH || |p.key| != KEY_LENGTH))
  }

  function JudgeBcrypt(prims: Primitives, password: string, encoded: string, preferred: Algorithm): Option<Verification> {
    match prims.bcryptCheck(password, encoded)
    case Invalid => None
    case Mismatch => Some(Verification(false, false))
    case Match(cost) => Some(Verification(true, preferred != Bcrypt || cost != BCRYPT_COST))
  }

  /** What VerifyWithAlgorithm answers, by the meaning of the hash string. */
  ghost function Verdict(prims: Primitives, password: string, encoded: string,
      preferred: Algorithm): Option<Verification> {
    match Identify(encoded)
    case None => None
    case Some(Bcrypt) => JudgeBcrypt(prims, password, encoded, preferred)
    case Some(Argon2id) =>
      if exists p :: Means(encoded, p) then
        var p :| Means(encoded, p);
        var judged := Judge(prims, password, p);
        Some(if preferred == Bcrypt then judged.(needsRehash := false) else judged)
      else None
  }

  predicate NamesArgon2id(encoded: string) { "$argon2id$" <= encoded }

  predicate NamesBcrypt(encoded: string) { "$2a$" <= encoded || "$2b$" <= encoded || "$2y$" <= encoded }

  /** The key derived from the password is the one in the hash. */
  ghost predicate Derives(prims: Primitives, password: string, p: Parameters) {
    prims.idKey(password, p.salt, p.iterations, p.memory, p.parallelism, |p.key|) == p.key
  }

  /** The parameters, salt length and key length with which hashes are now made. */
  predicate UpToDate(p: Parameters) {
    p.memory == 19456 && p.iterations == 2 && p.parallelism == 1 && |p.salt| == 16 && |p.key| == 32
  }

  /**
    VerifyWithAlgorithm. A password matches an Argon2id hash exactly if the key that it derives with the hash's own
    parameters and salt is the key of the hash, and a bcrypt hash exactly if bcrypt says so; a hash that means nothing is
    an error. A rehash is asked for only of a password that matches: where Argon2id is preferred, of bcrypt hashes and
    of Argon2id hashes that are not up to date; where bcrypt is, of bcrypt hashes of another cost only.
  */
  method Verify(prims: Primitives, password: string, encoded: string, preferred: Algorithm)
      returns (r: Option<Verification>)
    ensures NamesArgon2id(encoded) ==> (r.Some? <==> exists p :: Means(encoded, p))
    ensures NamesArgon2id(encoded) ==> forall p :: Means(encoded, p) ==>
      && (r.value.matches <==> Derives(prims, password, p))
      && (r.value.needsRehash <==> Derives(prims, password, p) && preferred == Argon2id && !UpToDate(p))
    ensures NamesBcrypt(encoded) ==>
      var answer := prims.bcryptCheck(password, encoded);
      && (r.None? <==> answer.Invalid?)
      && (r.Some? ==> (r.value.matches <==> answer.Match?))
      && (r.Some? ==> (r.value.needsRehash <==> answer.Match? && !(preferred == Bcrypt && answer.cost == 12)))
    ensures !NamesArgon2id(encoded) && !NamesBcrypt(encoded) ==> r.None?
    ensures r == Verdict(prims, password, encoded, preferred)
  {
    OneScheme(encoded);
    match Identify(encoded) {
      case None =>
        return None;
      case Some(Bcrypt) =>
        return JudgeBcrypt(prims, password, encoded, preferred);
      case Some(Argon2id) =>
        var parsed := Parse(encoded);
        if parsed.None? {
          assert forall p :: !Means(encoded, p);
          return None;
        }
        forall p | Means(encoded, p) ensures p == parsed.value { OneMeaning(encoded, p, parsed.value); }
        MeaningIsVerdict(prims, password, encoded, preferred, parsed.value);
        var judged := Judge(prims, password, parsed.value);
        if preferred == Bcrypt {
          judged := judged.(needsRehash := false);
        }
        return Some(judged);
    }
  }

  lemma OneScheme(encoded: string)
    ensures !(NamesArgon2id(encoded) && NamesBcrypt(encoded))
  {
    if NamesArgon2id(encoded) { assert encoded[1] == 'a'; }
    if NamesBcrypt(encoded) { assert encoded[1] == '2'; }
  }

  lemma MeaningIsVerdict(prims: Primitives, password: string, encoded: string, preferred: Algorithm, p: Parameters)
    requires Identify(encoded) == Some(Argon2id) && Means(encoded, p)
    ensures var judged := Judge(prims, password, p);
      Verdict(prims, password, encoded, preferred)
        == Some(if preferred == Bcrypt then judged.(needsRehash := false) else judged)
  {
    hide Means;
    forall q | Means(encoded, q) ensures q == p { OneMeaning(encoded, p, q); }
  }

  /** HashWithAlgorithm, with the salt that was drawn. */
  function Hash(prims: Primitives, password: string, algorithm: Algorithm, salt: Bytes): Option<string> {
    match algorithm
    case Argon2id =>
      var key := prims.idKey(password, salt, ITERATIONS, MEMORY, PARALLELISM, KEY_LENGTH);
      Some(Print(Parameters(MEMORY, ITERATIONS, PARALLELISM, salt, key)))
    case Bcrypt => prims.bcryptHash(password, salt)
  }

  lemma PrintIsArgon2id(p: Parameters)
    ensures Identify(Print(p)) == Some(Argon2id)
  {
    hide Encode, Decimal, FieldsOf, Join;
    var rest := ["v=" + Decimal(VERSION), Join(FieldsOf(p), ','), Encode(Std, p.salt), Encode(Std, p.key)];
    JoinCons("", ["argon2id"] + rest, '$');
    JoinCons("argon2id", rest, '$');
    assert [""] + (["argon2id"] + rest)
        == ["", "argon2id", "v=" + Decimal(VERSION), Join(FieldsOf(p), ','), Encode(Std, p.salt), Encode(Std, p.key)];
    assert Print(p) == "$argon2id$" + Join(rest, '$');
  }

  /** A hash just made verifies its password and needs no rehash under the same configuration. */
  lemma FreshHashVerifies(prims: Primitives, password: string, algorithm: Algorithm, salt: Bytes)
    requires Shaped(prims) && |salt| == SALT_LENGTH && Hash(prims, password, algorithm, salt).Some?
    ensures var encoded := Hash(prims, password, algorithm, salt).value;
      && Identify(encoded) == Some(algorithm)
      && Verdict(prims, password, encoded, algorithm) == Some(Verification(true, false))
  {
    if algorithm == Argon2id {
      var p := Parameters(MEMORY, ITERATIONS, PARALLELISM, salt,
                          prims.idKey(password, salt, ITERATIONS, MEMORY, PARALLELISM, KEY_LENGTH));
      PrintedMeans(p, FieldsOf(p));
      PrintIsArgon2id(p);
      MeaningIsVerdict(prims, password, Print(p), algorithm, p);
    } else {
      assert prims.bcryptHash(password, salt).value[1] == '2';
    }
  }

  /** The hash stored after a login with this password: replaced if verification asks for it. */
  ghost function AfterLogin(prims: Primitives, stored: string, login: Login): string {
    var verdict := Verdict(prims, login.password, stored, login.preferred);
    if verdict.Some? && verdict.value.matches && verdict.value.needsRehash
       && Hash(prims, login.password, login.preferred, login.salt).Some?
    then Hash(prims, login.password, login.preferred, login.salt).value
    else stored
  }

  /** A login attempt under some configuration, with the salt that a rehash would draw. */
  datatype Login = Login(password: string, preferred: Algorithm, salt: Bytes)

  /** A successful login either keeps the hash or replaces it, and then no further rehash is needed. */
  lemma NoFurtherRehash(prims: Primitives, stored: string, login: Login)
    requires Shaped(prims) && |login.salt| == SALT_LENGTH
    requires Verdict(prims, login.password, stored, login.preferred).Some?
    requires Verdict(prims, login.password, stored, login.preferred).value.matches
    requires Verdict(prims, login.password, stored, login.preferred).value.needsRehash ==>
      Hash(prims, login.password, login.preferred, login.salt).Some?
    ensures Verdict(prims, login.password, AfterLogin(prims, stored, login), login.preferred) == Some(Verification(true, false))
  {
    if Verdict(prims, login.password, stored, login.preferred).value.needsRehash {
      FreshHashVerifies(prims, login.password, login.preferred, login.salt);
    }
  }

  ghost function AfterLogins(prims: Primitives, stored: string, logins: seq<Login>): string
    decreases |logins|
  {
    if |logins| == 0 then stored else AfterLogins(prims, AfterLogin(prims, stored, logins[0]), logins[1..])
  }

  lemma LoginKeepsArgon2id(prims: Primitives, stored: string, login: Login)
    requires Shaped(prims) && |login.salt| == SALT_LENGTH && Identify(stored) == Some(Argon2id)
    ensures Identify(AfterLogin(prims, stored, login)) == Some(Argon2id)
  {
    if AfterLogin(prims, stored, login) != stored {
      var p :| Means(stored, p);
      MeaningIsVerdict(prims, login.password, stored, login.preferred, p);
      FreshHashVerifies(prims, login.password, login.preferred, login.salt);
    }
  }

  /** No sequence of logins, under whatever mix of configurations, turns an Argon2id credential into anything else. */
  lemma {:induction false} NeverDowngraded(prims: Primitives, stored: string, logins: seq<Login>)
    requires Shaped(prims) && Identify(stored) == Some(Argon2id)
    requires forall login :: login in logins ==> |login.salt| == SALT_LENGTH
    ensures Identify(AfterLogins(prims, stored, logins)) == Some(Argon2id)
    decreases |logins|
  {
    if |logins| > 0 {
      LoginKeepsArgon2id(prims, stored, logins[0]);
      NeverDowngraded(prims, AfterLogin(prims, stored, logins[0]), logins[1..]);
    }
  }
}
