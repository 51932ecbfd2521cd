/** Base64 without padding (sections 4, 5 and 3.5 of RFC 4648) as Go's strict decoder reads it, and opaque tokens. */
module Base64 {
  import opened Common

  type Byte = b: int | 0 <= b < 256
  type Bytes = seq<Byte>
  type Sextet = v: int | 0 <= v < 64

  /** The two alphabets: RawURLEncoding and RawStdEncoding. */
  datatype Alphabet = Url | Std

  function Char(alphabet: Alphabet, v: Sextet): char {
    if v < 26 then 'A' + v as char
    else if v < 52 then 'a' + (v - 26) as char
    else if v < 62 then '0' + (v - 52) as char
    else if v == 62 then (if alphabet.Url? then '-' else '+')
    else if alphabet.Url? then '_' else '/'
  }

  function SextetOf(alphabet: Alphabet, c: char): Option<Sextet> {
    if 'A' <= c <= 'Z' then Some((c - 'A') as int)
    else if 'a' <= c <= 'z' then Some((c - 'a') as int + 26)
    else if '0' <= c <= '9' then Some((c - '0') as int + 52)
    else if c == (if alphabet.Url? then '-' else '+') then Some(62)
    else if c == (if alphabet.Url? then '_' else '/') then Some(63)
    else None
  }

  lemma CharsAreSextets(alphabet: Alphabet)
    ensures forall v: Sextet :: SextetOf(alphabet, Char(alphabet, v)) == Some(v)
    ensures forall c :: SextetOf(alphabet, c).Some? ==> Char(alphabet, SextetOf(alphabet, c).value) == c
    ensures forall v: Sextet :: Char(alphabet, v) !in {'\r', '\n', '$', ',', '='}
  {}

  // Three bytes as four sextets, and back.

  function V0(b0: Byte): Sextet { b0 / 4 }
  function V1(b0: Byte, b1: Byte): Sextet { b0 % 4 * 16 + b1 / 16 }
  function V2(b1: Byte, b2: Byte): Sextet { b1 % 16 * 4 + b2 / 64 }
  function V3(b2: Byte): Sextet { b2 % 64 }

  function B0(v0: Sextet, v1: Sextet): Byte { v0 * 4 + v1 / 16 }
  function B1(v1: Sextet, v2: Sextet): Byte { v1 % 16 * 16 + v2 / 4 }
  function B2(v2: Sextet, v3: Sextet): Byte { v2 % 4 * 64 + v3 }

  function Encode(alphabet: Alphabet, bytes: Bytes): string {
    if |bytes| == 0 then ""
    else if |bytes| == 1 then [Char(alphabet, V0(bytes[0])), Char(alphabet, V1(bytes[0], 0))]
    else if |bytes| == 2 then
      [Char(alphabet, V0(bytes[0])), Char(alphabet, V1(bytes[0], bytes[1])), Char(alphabet, V2(bytes[1], 0))]
    else
      [Char(alphabet, V0(bytes[0])), Char(alphabet, V1(bytes[0], bytes[1])),
       Char(alphabet, V2(bytes[1], bytes[2])), Char(alphabet, V3(bytes[2]))] + Encode(alphabet, bytes[3..])
  }

  /** The test vectors of section 10 of RFC 4648, without their padding. */
  lemma TestVectors(alphabet: Alphabet)
    ensures Encode(alphabet, []) == "" && Encode(alphabet, [102]) == "Zg" && Encode(alphabet, [102, 111]) == "Zm8"
    ensures Encode(alphabet, [102, 111, 111]) == "Zm9v" && Encode(alphabet, [102, 111, 111, 98]) == "Zm9vYg"
    ensures Encode(alphabet, [102, 111, 111, 98, 97, 114]) == "Zm9vYmFy"
  {
    var foobar: Bytes := [102, 111, 111, 98, 97, 114];
    assert foobar[3..] == [98, 97, 114] && foobar[..4][3..] == [98];
  }

  /** The ends of each stretch of both alphabets. */
  lemma AlphabetEnds()
    ensures Encode(Std, [1, 150, 179]) == Encode(Url, [1, 150, 179]) == "AZaz"
    ensures Encode(Std, [211, 223, 191]) == "09+/" && Encode(Url, [211, 223, 191]) == "09-_"
  {}

  /** The decoder drops carriage returns and line feeds wherever they are. */
  function Strip(s: string): string {
    if s == "" then ""
    else if s[0] == '\r' || s[0] == '\n' then Strip(s[1..])
    else [s[0]] + Strip(s[1..])
  }

  /** Groups of four characters, then two or three whose unused bits must be zero. */
  function DecodeGroups(alphabet: Alphabet, s: string): Option<Bytes> {
    if |s| == 0 then Some([])
    else if |s| == 1 then None
    else
      match (SextetOf(alphabet, s[0]), SextetOf(alphabet, s[1]))
      case (Some(v0), Some(v1)) =>
        if |s| == 2 then (if v1 % 16 != 0 then None else Some([B0(v0, v1)]))
        else (
          match SextetOf(alphabet, s[2])
          case None => None
          case Some(v2) =>
            if |s| == 3 then (if v2 % 4 != 0 then None else Some([B0(v0, v1), B1(v1, v2)]))
            else
              match (SextetOf(alphabet, s[3]), DecodeGroups(alphabet, s[4..]))
              case (Some(v3), Some(rest)) => Some([B0(v0, v1), B1(v1, v2), B2(v2, v3)] + rest)
              case _ => None)
      case _ => None
  }

  /** DecodeString of the strict, unpadded encoding. */
  function Decode(alphabet: Alphabet, s: string): Option<Bytes> { DecodeGroups(alphabet, Strip(s)) }

  lemma {:induction false} EncodedChars(alphabet: Alphabet, bytes: Bytes)
    ensures forall c :: c in Encode(alphabet, bytes) ==> c !in {'\r', '\n', '$', ',', '='}
    ensures |Encode(alphabet, bytes)| == (|bytes| * 4 + 2) / 3
  {
    CharsAreSextets(alphabet);
    if |bytes| >= 3 { EncodedChars(alphabet, bytes[3..]); }
  }

  lemma {:induction false} StripIsIdentity(s: string)
    requires '\r' !in s && '\n' !in s
    ensures Strip(s) == s
  {
    if s != "" { StripIsIdentity(s[1..]); }
  }

  lemma Pack(high: int, low: int, base: int)
    requires base == 4 || base == 16 || base == 64
    requires 0 <= low < base
    ensures (high * base + low) / base == high && (high * base + low) % base == low
  {}

  lemma FirstByte(b0: Byte, b1: Byte)
    ensures B0(V0(b0), V1(b0, b1)) == b0
  {
    Pack(b0 % 4, b1 / 16, 16);
  }

  lemma SecondByte(b0: Byte, b1: Byte, b2: Byte)
    ensures B1(V1(b0, b1), V2(b1, b2)) == b1
  {
    Pack(b0 % 4, b1 / 16, 16);
    Pack(b1 % 16, b2 / 64, 4);
  }

  lemma ThirdByte(b1: Byte, b2: Byte)
    ensures B2(V2(b1, b2), V3(b2)) == b2
  {
    Pack(b1 % 16, b2 / 64, 4);
  }

  lemma UnusedBits(b0: Byte, b1: Byte)
    ensures V1(b0, 0) % 16 == 0 && V2(b1, 0) % 4 == 0
  {
    Pack(b0 % 4, 0, 16);
    Pack(b1 % 16, 0, 4);
  }

  lemma ThreeBytes(b0: Byte, b1: Byte, b2: Byte)
    ensures var v0, v1, v2, v3 := V0(b0), V1(b0, b1), V2(b1, b2), V3(b2);
      && B0(v0, v1) == b0 && B1(v1, v2) == b1 && B2(v2, v3) == b2
      && (b1 == b2 == 0 ==> v1 % 16 == 0) && (b2 == 0 ==> v2 % 4 == 0)
  {
    hide V0, V1, V2, V3, B0, B1, B2;
    FirstByte(b0, b1);
    SecondByte(b0, b1, b2);
    ThirdByte(b1, b2);
    UnusedBits(b0, b1);
  }

  lemma FourSextets(v0: Sextet, v1: Sextet, v2: Sextet, v3: Sextet)
    ensures var b0, b1, b2 := B0(v0, v1), B1(v1, v2), B2(v2, v3);
      && V0(b0) == v0 && V1(b0, b1) == v1 && V2(b1, b2) == v2 && V3(b2) == v3
      && (v1 % 16 == 0 ==> V1(b0, 0) == v1) && (v2 % 4 == 0 ==> V2(b1, 0) == v2)
  {}

  lemma CharOf(alphabet: Alphabet, v: Sextet)
    ensures SextetOf(alphabet, Char(alphabet, v)) == Some(v)
  {}

  lemma SextetIn(alphabet: Alphabet, c: char)
    ensures SextetOf(alphabet, c).Some? ==> Char(alphabet, SextetOf(alphabet, c).value) == c
  {}

  lemma QuadOfBytes(alphabet: Alphabet, bytes: Bytes)
    requires |bytes| >= 3
    ensures var s := Encode(alphabet, bytes);
      && |s| >= 4 && s[4..] == Encode(alphabet, bytes[3..])
      && (DecodeGroups(alphabet, s[4..]).Some? ==>
            DecodeGroups(alphabet, s) == Some(bytes[..3] + DecodeGroups(alphabet, s[4..]).value))
  {
    hide Char, SextetOf, V0, V1, V2, V3, B0, B1, B2;
    var v0, v1, v2, v3 := V0(bytes[0]), V1(bytes[0], bytes[1]), V2(bytes[1], bytes[2]), V3(bytes[2]);
    ThreeBytes(bytes[0], bytes[1], bytes[2]);
    CharOf(alphabet, v0); CharOf(alphabet, v1); CharOf(alphabet, v2); CharOf(alphabet, v3);
    assert bytes[..3] == [bytes[0], bytes[1], bytes[2]];
  }

  lemma TailOfBytes(alphabet: Alphabet, bytes: Bytes)
    requires 1 <= |bytes| <= 2
    ensures DecodeGroups(alphabet, Encode(alphabet, bytes)) == Some(bytes)
  {
    hide Char, SextetOf, V0, V1, V2, V3, B0, B1, B2;
    var b1 := if |bytes| == 2 then bytes[1] else 0;
    ThreeBytes(bytes[0], b1, 0);
    CharOf(alphabet, V0(bytes[0])); CharOf(alphabet, V1(bytes[0], b1)); CharOf(alphabet, V2(b1, 0));
    assert bytes == if |bytes| == 2 then [bytes[0], b1] else [bytes[0]];
  }

  lemma {:induction false} GroupsOfEncode(alphabet: Alphabet, bytes: Bytes)
    ensures DecodeGroups(alphabet, Encode(alphabet, bytes)) == Some(bytes)
  {
    if |bytes| >= 3 {
      QuadOfBytes(alphabet, bytes);
      GroupsOfEncode(alphabet, bytes[3..]);
      assert bytes == bytes[..3] + bytes[3..];
    } else if |bytes| > 0 {
      TailOfBytes(alphabet, bytes);
    }
  }

  /** What is encoded decodes to itself, for every byte string. */
  lemma DecodeOfEncode(alphabet: Alphabet, bytes: Bytes)
    ensures Decode(alphabet, Encode(alphabet, bytes)) == Some(bytes)
  {
    EncodedChars(alphabet, bytes);
    StripIsIdentity(Encode(alphabet, bytes));
    GroupsOfEncode(alphabet, bytes);
  }

  lemma QuadOfGroup(alphabet: Alphabet, s: string)
    requires |s| >= 4 && DecodeGroups(alphabet, s).Some?
    ensures DecodeGroups(alphabet, s[4..]).Some?
    ensures Encode(alphabet, DecodeGroups(alphabet, s).value) == s[..4] + Encode(alphabet, DecodeGroups(alphabet, s[4..]).value)
  {
    hide Char, SextetOf, V0, V1, V2, V3, B0, B1, B2;
    var v0, v1, v2, v3 := SextetOf(alphabet, s[0]).value, SextetOf(alphabet, s[1]).value,
                          SextetOf(alphabet, s[2]).value, SextetOf(alphabet, s[3]).value;
    FourSextets(v0, v1, v2, v3);
    SextetIn(alphabet, s[0]); SextetIn(alphabet, s[1]); SextetIn(alphabet, s[2]); SextetIn(alphabet, s[3]);
    var bytes, rest := DecodeGroups(alphabet, s).value, DecodeGroups(alphabet, s[4..]).value;
    assert bytes == [B0(v0, v1), B1(v1, v2), B2(v2, v3)] + rest;
    assert bytes[3..] == rest;
    assert s[..4] == [s[0], s[1], s[2], s[3]];
  }

  lemma TailOfGroup(alphabet: Alphabet, s: string)
    requires 2 <= |s| <= 3 && DecodeGroups(alphabet, s).Some?
    ensures Encode(alphabet, DecodeGroups(alphabet, s).value) == s
  {
    hide Char, SextetOf, V0, V1, V2, V3, B0, B1, B2;
    var v0, v1 := SextetOf(alphabet, s[0]).value, SextetOf(alphabet, s[1]).value;
    var v2 := if |s| == 3 then SextetOf(alphabet, s[2]).value else 0;
    FourSextets(v0, v1, v2, 0);
    SextetIn(alphabet, s[0]); SextetIn(alphabet, s[1]);
    if |s| == 3 { SextetIn(alphabet, s[2]); }
    assert s == if |s| == 3 then [s[0], s[1], s[2]] else [s[0], s[1]];
  }

  lemma {:induction false} EncodeOfGroups(alphabet: Alphabet, s: string)
    requires DecodeGroups(alphabet, s).Some?
    ensures Encode(alphabet, DecodeGroups(alphabet, s).value) == s
  {
    if |s| >= 4 {
      QuadOfGroup(alphabet, s);
      EncodeOfGroups(alphabet, s[4..]);
      assert s == s[..4] + s[4..];
    } else if |s| >= 2 {
      TailOfGroup(alphabet, s);
    }
  }

  /** What the decoder accepts is the encoding of what it returns, up to line breaks: there is no other slack. */
  lemma EncodeOfDecode(alphabet: Alphabet, s: string)
    requires Decode(alphabet, s).Some?
    ensures Encode(alphabet, Decode(alphabet, s).value) == Strip(s)
  {
    EncodeOfGroups(alphabet, Strip(s));
  }
}

/** Opaque bearer tokens. */
module Token {
  import opened Common
  import opened Base64

  const ENTROPY := 32

  /** HashToken validates the canonical encoding and hashes what it encodes. */
  function HashToken<H>(sha256: Bytes -> H, raw: string): Option<H> {
    match Decode(Url, raw)
    case None => None
    case Some(decoded) =>
      if |decoded| != ENTROPY || Encode(Url, decoded) != raw then None else Some(sha256(decoded))
  }

  /** Generate, from 32 random bytes. */
  function Generate<H>(sha256: Bytes -> H, random: Bytes): (string, H)
    requires |random| == ENTROPY
  {
    (Encode(Url, random), sha256(random))
  }

  predicate Encodes(raw: string, bytes: Bytes) { |bytes| == 32 && Encode(Url, bytes) == raw }

  /** HashToken accepts exactly the unpadded base64url encodings of 32 bytes, and hashes those bytes. */
  lemma AcceptsExactlyEncodings<H>(sha256: Bytes -> H, raw: string)
    ensures HashToken(sha256, raw).Some? <==> exists bytes :: Encodes(raw, bytes)
    ensures forall bytes :: Encodes(raw, bytes) ==> HashToken(sha256, raw) == Some(sha256(bytes))
  {
    forall bytes | Encodes(raw, bytes) ensures HashToken(sha256, raw) == Some(sha256(bytes)) {
      DecodeOfEncode(Url, bytes);
    }
    if HashToken(sha256, raw).Some? {
      assert Encodes(raw, Decode(Url, raw).value);
    }
  }

  /** Accepted strings and 32-byte values correspond one to one. */
  lemma OneTokenPerValue(raw: string, other: string, bytes: Bytes, others: Bytes)
    requires Encodes(raw, bytes) && Encodes(other, others)
    ensures raw == other <==> bytes == others
  {
    DecodeOfEncode(Url, bytes);
    DecodeOfEncode(Url, others);
  }

  /** What Generate hands out always maps back to the hash that it stores. */
  lemma GeneratedIsAccepted<H>(sha256: Bytes -> H, random: Bytes)
    requires |random| == ENTROPY
    ensures var (raw, hash) := Generate(sha256, random);
      HashToken(sha256, raw) == Some(hash) && |raw| == 43
  {
    assert Encodes(Encode(Url, random), random);
    AcceptsExactlyEncodings(sha256, Encode(Url, random));
    EncodedChars(Url, random);
  }

  /** The comparison with the encoding matters: the decoder alone takes a token with a line break added. */
  lemma LineBreaksAreRefused<H>(sha256: Bytes -> H, bytes: Bytes)
    requires |bytes| == ENTROPY
    ensures var raw := Encode(Url, bytes) + "\n";
      Decode(Url, raw) == Some(bytes) && HashToken(sha256, raw) == None
  {
    var raw := Encode(Url, bytes) + "\n";
    EncodedChars(Url, bytes);
    StripAppended(Encode(Url, bytes));
    GroupsOfEncode(Url, bytes);
    assert raw != Encode(Url, bytes);
  }

  lemma {:induction false} StripAppended(s: string)
    requires '\r' !in s && '\n' !in s
    ensures Strip(s + "\n") == s
  {
    if s != "" {
      assert (s + "\n")[1..] == s[1..] + "\n";
      StripAppended(s[1..]);
    }
  }
}
