/**
 The text form of Argon2 password hashes, and password checks against it.  The key
 derivation function is a parameter.
 */
module Argon2 {
  import opened Options
  import opened Text
  import opened Bytes
  import opened Decimal
  import Base64

  const ARGON2I := "argon2i"
  const ARGON2D := "argon2d"
  const ARGON2ID := "argon2id"
  const VERSION := 0x13

  datatype Hash = Hash(
    algorithm: string, version: int, hashed: seq<byte>, salt: seq<byte>, iterations: int, parallelism: int, memory: int)

  predicate Known(algorithm: string) {
    algorithm == ARGON2I || algorithm == ARGON2D || algorithm == ARGON2ID
  }

  // The fields are 64-bit integers.
  predicate InRange(h: Hash) {
    IsInt64(h.version) && IsInt64(h.iterations) && IsInt64(h.parallelism) && IsInt64(h.memory)
  }

  function Parameters(h: Hash): seq<string> {
    ["t=" + Itoa(h.iterations), "m=" + Itoa(h.memory), "p=" + Itoa(h.parallelism)]
  }

  function Fields(h: Hash): seq<string> {
    [h.algorithm, "v=" + Itoa(h.version), Join(Parameters(h), ','), Base64.Encode(h.salt), Base64.Encode(h.hashed)]
  }

  function ToArgon2String(h: Hash): string {
    "$" + Join(Fields(h), '$')
  }

  // The value after the first piece with the given prefix.
  function Find(parts: seq<string>, prefix: string): Option<int> {
    if parts == [] then None
    else if HasPrefix(parts[0], prefix) then Atoi(parts[0][|prefix|..])
    else Find(parts[1..], prefix)
  }

  function Parameter(parameters: string, prefix: string): Option<int> {
    Find(Split(parameters, ','), prefix)
  }

  method ParseParameter(parameters: string, prefix: string) returns (r: Option<int>)
    ensures r == Parameter(parameters, prefix)
  {
    var parts := Split(parameters, ',');
    for i := 0 to |parts|
      invariant Find(parts, prefix) == Find(parts[i..], prefix)
    {
      assert parts[i..][1..] == parts[i + 1..];
      if HasPrefix(parts[i], prefix) {
        return Atoi(parts[i][|prefix|..]);
      }
    }
    return None;
  }

  function FromFields(parts: seq<string>): Option<Hash>
    requires |parts| >= 5
  {
    var algorithm := Trim(parts[0]);
    if !Known(algorithm) || !HasPrefix(parts[1], "v=") then None
    else
      var version, memory := Atoi(parts[1][2..]), Parameter(parts[2], "m=");
      var iterations, parallelism := Parameter(parts[2], "t="), Parameter(parts[2], "p=");
      var salt, hashed := Base64.Decode(parts[3]), Base64.Decode(parts[4]);
      if version.None? || memory.None? || iterations.None? || parallelism.None? || salt.None? || hashed.None? then None
      else Some(Hash(algorithm, version.value, hashed.value, salt.value,
                     iterations.value, parallelism.value, memory.value))
  }

  function FromArgon2String(s: string): Option<Hash> {
    if !HasPrefix(s, "$") then None
    else
      var parts := Split(s[1..], '$');
      if |parts| < 5 then None else FromFields(parts)
  }

  // The text that a hash is stored as.
  lemma PrintedExactly(h: Hash)
    ensures ToArgon2String(h)
            == "$" + (h.algorithm + "$" + (("v=" + Itoa(h.version)) + "$" + (PrintedParameters(h) + "$"
               + (Base64.Encode(h.salt) + "$" + Base64.Encode(h.hashed)))))
  {
    var f := Fields(h);
    ParametersPrinted(h);
    JoinTwo(f[4], f[3], '$');
    JoinNext(f[2], [f[3], f[4]], '$');
    JoinNext(f[1], [f[2]] + [f[3], f[4]], '$');
    JoinNext(f[0], [f[1]] + ([f[2]] + [f[3], f[4]]), '$');
    assert f == [f[0]] + ([f[1]] + ([f[2]] + [f[3], f[4]]));
  }

  function PrintedParameters(h: Hash): string {
    ("t=" + Itoa(h.iterations)) + "," + (("m=" + Itoa(h.memory)) + "," + ("p=" + Itoa(h.parallelism)))
  }

  lemma ParametersPrinted(h: Hash)
    ensures Join(Parameters(h), ',') == PrintedParameters(h)
  {
    var p := Parameters(h);
    JoinTwo(p[2], p[1], ',');
    JoinNext(p[0], [p[1], p[2]], ',');
    assert p == [p[0]] + [p[1], p[2]];
  }

  lemma JoinNext(x: string, rest: seq<string>, sep: char)
    requires rest != []
    ensures Join([x] + rest, sep) == x + [sep] + Join(rest, sep)
  {
    assert ([x] + rest)[1..] == rest;
  }

  lemma JoinTwo(last: string, x: string, sep: char)
    ensures Join([x, last], sep) == x + [sep] + last
  {
    assert [x, last][1..] == [last];
  }

  // ---------- The round trip ----------

  predicate Lacks(s: string, c: char) {
    c !in s
  }

  lemma ItoaLacks(i: int, prefix: string, c: char)
    requires !IsDigit(c) && c != '-' && c !in prefix
    ensures Lacks(prefix + Itoa(i), c)
  {
    ItoaChars(i);
  }

  lemma ParametersBack(h: Hash)
    requires InRange(h)
    ensures var text := Join(Parameters(h), ',');
            && Parameter(text, "t=") == Some(h.iterations)
            && Parameter(text, "m=") == Some(h.memory)
            && Parameter(text, "p=") == Some(h.parallelism)
  {
    var parts := Parameters(h);
    ItoaLacks(h.iterations, "t=", ',');
    ItoaLacks(h.memory, "m=", ',');
    ItoaLacks(h.parallelism, "p=", ',');
    assert forall i | 0 <= i < |parts| :: Lacks(parts[i], ',');
    SplitJoin(parts, ',');
    AtoiItoa(h.iterations);
    AtoiItoa(h.memory);
    AtoiItoa(h.parallelism);
    FindThird(Itoa(h.iterations), Itoa(h.memory), Itoa(h.parallelism));
  }

  lemma FindThird(t: string, m: string, p: string)
    ensures var parts := ["t=" + t, "m=" + m, "p=" + p];
            Find(parts, "t=") == Atoi(t) && Find(parts, "m=") == Atoi(m) && Find(parts, "p=") == Atoi(p)
  {
    var parts := ["t=" + t, "m=" + m, "p=" + p];
    assert parts[0][2..] == t && parts[1][2..] == m && parts[2][2..] == p;
    assert parts[0][0] == 't' && parts[1][0] == 'm' && parts[2][0] == 'p';
    assert parts[1..][0] == parts[1] && parts[1..][1..][0] == parts[2];
    assert "m="[0] == 'm' && "p="[0] == 'p' && "t="[0] == 't';
    assert HasPrefix(parts[0], "t=") && HasPrefix(parts[1], "m=") && HasPrefix(parts[2], "p=");
    assert parts[1..][1..] == parts[2..];
    assert Find(parts, "p=") == Find(parts[1..], "p=") == Find(parts[2..], "p=");
  }

  lemma EncodedLacks(b: seq<byte>, c: char)
    requires Base64.Decode6(c).None?
    ensures Lacks(Base64.Encode(b), c)
  {
    forall i | 0 <= i < |Base64.Encode(b)| ensures Base64.Encode(b)[i] != c {
      Base64.EncodeChars(b, i);
    }
  }

  lemma JoinLacks(parts: seq<string>, sep: char, c: char)
    requires sep != c && forall i | 0 <= i < |parts| :: Lacks(parts[i], c)
    ensures Lacks(Join(parts, sep), c)
  {
  }

  lemma FieldsLackDollar(h: Hash)
    requires Known(h.algorithm)
    ensures forall i | 0 <= i < |Fields(h)| :: Lacks(Fields(h)[i], '$')
  {
    ItoaLacks(h.version, "v=", '$');
    ItoaLacks(h.iterations, "t=", '$');
    ItoaLacks(h.memory, "m=", '$');
    ItoaLacks(h.parallelism, "p=", '$');
    var ps := Parameters(h);
    assert forall i | 0 <= i < |ps| :: Lacks(ps[i], '$');
    JoinLacks(ps, ',', '$');
    EncodedLacks(h.salt, '$');
    EncodedLacks(h.hashed, '$');
  }

  lemma KnownTrimmed(algorithm: string)
    requires Known(algorithm)
    ensures Trim(algorithm) == algorithm
  {
    TrimResult(algorithm);
  }

  lemma VersionBack(version: int)
    requires IsInt64(version)
    ensures var text := "v=" + Itoa(version); HasPrefix(text, "v=") && Atoi(text[2..]) == Some(version)
  {
    AtoiItoa(version);
    assert ("v=" + Itoa(version))[2..] == Itoa(version);
  }

  lemma FieldsBack(h: Hash)
    requires Known(h.algorithm) && InRange(h)
    ensures FromFields(Fields(h)) == Some(h)
  {
    assert Trim(h.algorithm) == h.algorithm by { KnownTrimmed(h.algorithm); }
    VersionBack(h.version);
    ParametersBack(h);
    Base64.DecodeEncode(h.salt);
    Base64.DecodeEncode(h.hashed);
  }

  // Parsing a printed hash gives it back if and only if its algorithm is known.
  lemma RoundTrip(h: Hash)
    requires InRange(h)
    ensures FromArgon2String(ToArgon2String(h)) == Some(h) <==> Known(h.algorithm)
  {
    var s := ToArgon2String(h);
    assert s[1..] == Join(Fields(h), '$');
    if Known(h.algorithm) {
      FieldsLackDollar(h);
      assert forall i | 0 <= i < |Fields(h)| :: '$' !in Fields(h)[i] by {
        assert forall i | 0 <= i < |Fields(h)| :: Lacks(Fields(h)[i], '$');
      }
      SplitJoin(Fields(h), '$');
      FieldsBack(h);
    }
  }

  // ---------- Passwords ----------

  // Password, salt, iterations, memory, parallelism and key length to the digest.
  type Kdf = (string, seq<byte>, int, int, int, int) -> seq<byte>

  datatype Hasher = Hasher(memory: int, iterations: int, parallelism: int, keyLength: int) {
    // The fields are unsigned 32-bit and 8-bit integers.
    predicate Valid() {
      0 <= memory < 0x1_0000_0000 && 0 <= iterations < 0x1_0000_0000 && 0 <= parallelism < 0x100
    }
  }

  function HashInternal(kdf: Kdf, version: int, parallelism: int, iterations: int, memory: int, keyLength: int,
                        password: string, salt: seq<byte>): Hash
  {
    Hash(ARGON2ID, version, kdf(password, salt, iterations, memory, parallelism, keyLength), salt,
         iterations, parallelism, memory)
  }

  function HashPassword(kdf: Kdf, r: Hasher, password: string, salt: seq<byte>): string {
    ToArgon2String(HashInternal(kdf, VERSION, r.parallelism, r.iterations, r.memory, r.keyLength, password, salt))
  }

  // The numbers that were read are cut down to 8 and 32 bits before they are used.
  predicate Compare(kdf: Kdf, r: Hasher, stored: string, password: string) {
    var h := FromArgon2String(stored);
    && h.Some?
    && HashInternal(kdf, h.value.version, h.value.parallelism % 0x100, h.value.iterations % 0x1_0000_0000,
                    h.value.memory % 0x1_0000_0000, r.keyLength, password, h.value.salt) == h.value
  }

  // The hash derives from the password, and its numbers fit.
  predicate DerivedFrom(kdf: Kdf, r: Hasher, h: Hash, password: string) {
    && h.algorithm == ARGON2ID && 0 <= h.parallelism < 0x100
    && 0 <= h.iterations < 0x1_0000_0000 && 0 <= h.memory < 0x1_0000_0000
    && kdf(password, h.salt, h.iterations, h.memory, h.parallelism, r.keyLength) == h.hashed
  }

  lemma Derived(kdf: Kdf, r: Hasher, h: Hash, password: string)
    ensures HashInternal(kdf, h.version, h.parallelism % 0x100, h.iterations % 0x1_0000_0000, h.memory % 0x1_0000_0000,
                         r.keyLength, password, h.salt) == h
            <==> DerivedFrom(kdf, r, h, password)
  {
  }

  // Any stored text at all is accepted for exactly the passwords that derive the hash it
  // reads as, and only when that is an argon2id hash whose numbers fit.
  lemma StoredExactly(kdf: Kdf, r: Hasher, stored: string, password: string)
    ensures Compare(kdf, r, stored, password)
            <==> FromArgon2String(stored).Some? && DerivedFrom(kdf, r, FromArgon2String(stored).value, password)
  {
    var h := FromArgon2String(stored);
    if h.Some? {
      Derived(kdf, r, h.value, password);
    }
  }

  // So it is with a printed hash.
  lemma ComparedExactly(kdf: Kdf, r: Hasher, h: Hash, password: string)
    requires Known(h.algorithm) && InRange(h)
    ensures Compare(kdf, r, ToArgon2String(h), password)
            <==> DerivedFrom(kdf, r, h, password)
  {
    RoundTrip(h);
    StoredExactly(kdf, r, ToArgon2String(h), password);
  }

  // The password that was hashed is accepted, and another one only on a collision.
  lemma PasswordAccepted(kdf: Kdf, r: Hasher, password: string, other: string, salt: seq<byte>)
    requires r.Valid()
    ensures Compare(kdf, r, HashPassword(kdf, r, password, salt), password)
    ensures Compare(kdf, r, HashPassword(kdf, r, password, salt), other)
            <==> kdf(other, salt, r.iterations, r.memory, r.parallelism, r.keyLength)
                 == kdf(password, salt, r.iterations, r.memory, r.parallelism, r.keyLength)
  {
    var h := HashInternal(kdf, VERSION, r.parallelism, r.iterations, r.memory, r.keyLength, password, salt);
    ComparedExactly(kdf, r, h, password);
    ComparedExactly(kdf, r, h, other);
  }
}
