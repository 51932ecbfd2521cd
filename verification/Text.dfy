/** The string functions of the Go standard library that the codecs use. */
module Text {
  import opened Common

  // ---------------------------------------------------------------- strings.Split, strings.Cut

  function Join(parts: seq<string>, separator: char): string {
    if |parts| == 0 then "" else if |parts| == 1 then parts[0]
    else parts[0] + [separator] + Join(parts[1..], separator)
  }

  /** Splitting and joining are inverse: no part contains the separator, and joining gives the string back. */
  function Split(s: string, separator: char): (parts: seq<string>)
    ensures |parts| > 0 && Join(parts, separator) == s
    ensures forall part :: part in parts ==> separator !in part
  {
    if s == "" then [""]
    else
      var rest := Split(s[1..], separator);
      if s[0] == separator then
        assert ([""] + rest)[1..] == rest;
        [""] + rest
      else
        assert ([[s[0]] + rest[0]] + rest[1..])[1..] == rest[1..];
        [[s[0]] + rest[0]] + rest[1..]
  }

  lemma {:induction false} SplitOfJoin(parts: seq<string>, separator: char)
    requires |parts| > 0 && forall part :: part in parts ==> separator !in part
    ensures Split(Join(parts, separator), separator) == parts
    decreases |Join(parts, separator)|
  {
    var s := Join(parts, separator);
    if parts[0] == "" {
      if |parts| > 1 {
        assert s[1..] == Join(parts[1..], separator);
        SplitOfJoin(parts[1..], separator);
      }
    } else {
      var shorter := [parts[0][1..]] + parts[1..];
      assert parts[0] in parts;
      assert shorter[1..] == parts[1..];
      assert s[1..] == Join(shorter, separator);
      SplitOfJoin(shorter, separator);
      assert s[0] == parts[0][0] && s[0] in parts[0];
      assert [s[0]] + shorter[0] == parts[0];
    }
  }

  lemma JoinCons(first: string, rest: seq<string>, separator: char)
    requires |rest| > 0
    ensures Join([first] + rest, separator) == first + [separator] + Join(rest, separator)
  {
    assert ([first] + rest)[1..] == rest;
  }

  lemma {:induction false} JoinAppend(parts: seq<string>, others: seq<string>, separator: char)
    requires |parts| > 0 && |others| > 0
    ensures Join(parts + others, separator) == Join(parts, separator) + [separator] + Join(others, separator)
  {
    if |parts| == 1 {
      JoinCons(parts[0], others, separator);
      assert parts + others == [parts[0]] + others;
    } else {
      JoinAppend(parts[1..], others, separator);
      assert (parts + others)[1..] == parts[1..] + others;
    }
  }

  /** Two lists joined by a separator split into the parts of both. */
  lemma SplitAppend(s: string, t: string, separator: char)
    ensures Split(s + [separator] + t, separator) == Split(s, separator) + Split(t, separator)
  {
    JoinAppend(Split(s, separator), Split(t, separator), separator);
    SplitOfJoin(Split(s, separator) + Split(t, separator), separator);
  }

  /** Joining introduces no character but the separator. */
  lemma {:induction false} JoinAvoids(parts: seq<string>, separator: char, c: char)
    requires c != separator && forall part :: part in parts ==> c !in part
    ensures c !in Join(parts, separator)
  {
    if |parts| > 1 { JoinAvoids(parts[1..], separator, c); }
  }

  /** strings.Cut around the first separator. */
  function Cut(s: string, separator: char): (r: Option<(string, string)>)
    ensures r.None? <==> separator !in s
    ensures r.Some? ==> s == r.value.0 + [separator] + r.value.1 && separator !in r.value.0
  {
    if s == "" then None
    else if s[0] == separator then Some(("", s[1..]))
    else
      match Cut(s[1..], separator)
      case None => None
      case Some((before, after)) => Some(([s[0]] + before, after))
  }

  lemma {:induction false} CutOfJoin(before: string, after: string, separator: char)
    requires separator !in before
    ensures Cut(before + [separator] + after, separator) == Some((before, after))
  {
    var s := before + [separator] + after;
    if before != "" {
      CutOfJoin(before[1..], after, separator);
      assert s[1..] == before[1..] + [separator] + after;
      assert [before[0]] + before[1..] == before;
    }
  }

  // ---------------------------------------------------------------- strconv.ParseUint and %d

  predicate Digit(c: char) { '0' <= c <= '9' }

  function DigitValue(c: char): nat
    requires Digit(c)
  {
    c as int - '0' as int
  }

  function Decimal(n: nat): (s: string)
    ensures |s| > 0 && forall c :: c in s ==> Digit(c)
  {
    var last := ['0' + (n % 10) as char];
    if n < 10 then last else Decimal(n / 10) + last
  }

  function Value(digits: string): nat
    requires forall c :: c in digits ==> Digit(c)
  {
    if digits == "" then 0
    else
      assert digits[|digits| - 1] in digits;
      Value(digits[..|digits| - 1]) * 10 + DigitValue(digits[|digits| - 1])
  }

  const MAX_UINT32: nat := 0xFFFF_FFFF

  /** ParseUint(s, 10, 32): digits only, leading zeros allowed. */
  function ParseUint(s: string): Option<nat> {
    if s != "" && (forall c :: c in s ==> Digit(c)) && Value(s) <= MAX_UINT32 then Some(Value(s)) else None
  }

  lemma {:induction false} ValueOfDecimal(n: nat)
    ensures Value(Decimal(n)) == n
  {
    var s := Decimal(n);
    if n >= 10 {
      ValueOfDecimal(n / 10);
      assert s[..|s| - 1] == Decimal(n / 10);
    }
  }

  lemma ParseOfDecimal(n: nat)
    requires n <= MAX_UINT32
    ensures ParseUint(Decimal(n)) == Some(n)
  {
    ValueOfDecimal(n);
  }
}
