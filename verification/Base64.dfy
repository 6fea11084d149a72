/** Unpadded standard base64 (sections 3.2 and 4 of RFC 4648). */
module Base64 {
  import opened Options
  import opened Bytes

  type sextet = x: int | 0 <= x < 64

  // ---------- Bytes and 6-bit groups ----------

  function Group(x: byte, y: byte, z: byte): (v: seq<sextet>)
    ensures |v| == 4
  {
    [x / 4, x % 4 * 16 + y / 16, y % 16 * 4 + z / 64, z % 64]
  }

  function Sextets(b: seq<byte>): seq<sextet> {
    if |b| == 0 then []
    else if |b| == 1 then [b[0] / 4, b[0] % 4 * 16]
    else if |b| == 2 then [b[0] / 4, b[0] % 4 * 16 + b[1] / 16, b[1] % 16 * 4]
    else Group(b[0], b[1], b[2]) + Sextets(b[3..])
  }

  // The bytes that neighbouring groups stand for.
  function First(v: int, w: int): int { v * 4 + w / 16 }
  function Second(v: int, w: int): int { v % 16 * 16 + w / 4 }
  function Third(v: int, w: int): int { v % 4 * 64 + w }

  // A lone last group is an error; unused trailing bits are not checked.
  function Octets(v: seq<sextet>): Option<seq<byte>> {
    if |v| == 0 then Some([])
    else if |v| == 1 then None
    else if |v| == 2 then Some([First(v[0], v[1])])
    else if |v| == 3 then Some([First(v[0], v[1]), Second(v[1], v[2])])
    else
      var rest := Octets(v[4..]);
      if rest.None? then None
      else Some([First(v[0], v[1]), Second(v[1], v[2]), Third(v[2], v[3])] + rest.value)
  }

  lemma Regroup(x: byte, y: byte, z: byte)
    ensures First(x / 4, x % 4 * 16 + y / 16) == x
    ensures Second(x % 4 * 16 + y / 16, y % 16 * 4 + z / 64) == y
    ensures Third(y % 16 * 4 + z / 64, z % 64) == z
  {
  }

  lemma OctetsOfFour(v: seq<sextet>, rest: seq<sextet>)
    requires |v| == 4 && Octets(rest).Some?
    ensures Octets(v + rest) == Some([First(v[0], v[1]), Second(v[1], v[2]), Third(v[2], v[3])] + Octets(rest).value)
  {
    assert (v + rest)[4..] == rest;
  }

  lemma OneByte(x: byte)
    ensures Octets(Sextets([x])) == Some([x])
  {
    Regroup(x, 0, 0);
  }

  lemma TwoBytes(x: byte, y: byte)
    ensures Octets(Sextets([x, y])) == Some([x, y])
  {
    Regroup(x, y, 0);
  }

  lemma SextetsOfThree(x: byte, y: byte, z: byte, rest: seq<byte>)
    ensures Sextets([x, y, z] + rest) == Group(x, y, z) + Sextets(rest)
  {
    assert ([x, y, z] + rest)[3..] == rest;
  }

  lemma GroupOctets(x: byte, y: byte, z: byte)
    ensures var v := Group(x, y, z); First(v[0], v[1]) == x && Second(v[1], v[2]) == y && Third(v[2], v[3]) == z
  {
    Regroup(x, y, z);
  }

  lemma ThreeBytes(x: byte, y: byte, z: byte, rest: seq<byte>)
    requires Octets(Sextets(rest)) == Some(rest)
    ensures Octets(Sextets([x, y, z] + rest)) == Some([x, y, z] + rest)
  {
    SextetsOfThree(x, y, z, rest);
    OctetsOfFour(Group(x, y, z), Sextets(rest));
    GroupOctets(x, y, z);
  }

  lemma {:induction false} OctetsOfSextets(b: seq<byte>)
    ensures Octets(Sextets(b)) == Some(b)
  {
    if |b| == 1 {
      assert b == [b[0]];
      OneByte(b[0]);
    } else if |b| == 2 {
      assert b == [b[0], b[1]];
      TwoBytes(b[0], b[1]);
    } else if |b| >= 3 {
      assert b == [b[0], b[1], b[2]] + b[3..];
      OctetsOfSextets(b[3..]);
      ThreeBytes(b[0], b[1], b[2], b[3..]);
    }
  }

  // ---------- The alphabet ----------

  function Encode6(v: sextet): char {
    if v < 26 then 'A' + v as char
    else if v < 52 then 'a' + (v - 26) as char
    else if v < 62 then '0' + (v - 52) as char
    else if v == 62 then '+' else '/'
  }

  function Decode6(c: char): Option<sextet> {
    if 'A' <= c <= 'Z' then Some((c - 'A') as int)
    else if 'a' <= c <= 'z' then Some((c - 'a') as int + 26)
    else if '0' <= c <= '9' then Some((c - '0') as int + 52)
    else if c == '+' then Some(62) else if c == '/' then Some(63) else None
  }

  lemma Decode6Encode6(v: sextet)
    ensures Decode6(Encode6(v)) == Some(v)
  {
  }

  function Print(v: seq<sextet>): string {
    seq(|v|, i requires 0 <= i < |v| => Encode6(v[i]))
  }

  // Line breaks are ignored; any other character outside the alphabet is an error.
  function Read(s: string): Option<seq<sextet>> {
    if s == "" then Some([])
    else
      var rest := Read(s[..|s| - 1]);
      var c := s[|s| - 1];
      if rest.None? || c == '\r' || c == '\n' then rest
      else
        var v := Decode6(c);
        if v.None? then None else Some(rest.value + [v.value])
  }

  lemma {:induction false} ReadPrint(v: seq<sextet>)
    ensures Read(Print(v)) == Some(v)
  {
    if v != [] {
      var n := |v| - 1;
      ReadPrint(v[..n]);
      Decode6Encode6(v[n]);
      assert Print(v)[..n] == Print(v[..n]);
      assert v == v[..n] + [v[n]];
    }
  }

  function Encode(b: seq<byte>): string {
    Print(Sextets(b))
  }

  function Decode(s: string): Option<seq<byte>> {
    var v := Read(s);
    if v.None? then None else Octets(v.value)
  }

  lemma DecodeEncode(b: seq<byte>)
    ensures Decode(Encode(b)) == Some(b)
  {
    ReadPrint(Sextets(b));
    OctetsOfSextets(b);
  }

  // Encoded text consists of characters of the alphabet.
  lemma EncodeChars(b: seq<byte>, i: nat)
    requires i < |Encode(b)|
    ensures Decode6(Encode(b)[i]).Some?
  {
    Decode6Encode6(Sextets(b)[i]);
  }

  // ---------- What the groups denote ----------

  // The number that digits denote in base 64, and bytes in base 256, after `acc`.
  function InBase64(v: seq<sextet>, acc: int): int {
    if v == [] then acc else InBase64(v[1..], 64 * acc + v[0])
  }

  function InBase256(b: seq<byte>, acc: int): int {
    if b == [] then acc else InBase256(b[1..], 256 * acc + b[0])
  }

  lemma NextDigit(x: sextet, rest: seq<sextet>, acc: int)
    ensures InBase64([x] + rest, acc) == InBase64(rest, 64 * acc + x)
  {
    assert ([x] + rest)[1..] == rest;
  }

  lemma NextByte(x: byte, rest: seq<byte>, acc: int)
    ensures InBase256([x] + rest, acc) == InBase256(rest, 256 * acc + x)
  {
    assert ([x] + rest)[1..] == rest;
  }

  lemma GroupDenotes(x: byte, y: byte, z: byte, rest: seq<sextet>, acc: int)
    ensures InBase64(Group(x, y, z) + rest, acc) == InBase64(rest, 256 * (256 * (256 * acc + x) + y) + z)
  {
    var v := Group(x, y, z);
    assert v + rest == [v[0]] + ([v[1]] + ([v[2]] + ([v[3]] + rest)));
    NextDigit(v[0], [v[1]] + ([v[2]] + ([v[3]] + rest)), acc);
    var one := 64 * acc + v[0];
    NextDigit(v[1], [v[2]] + ([v[3]] + rest), one);
    var two := 64 * one + v[1];
    assert two == 16 * (256 * acc + x) + y / 16;
    NextDigit(v[2], [v[3]] + rest, two);
    var three := 64 * two + v[2];
    assert three == 4 * (256 * (256 * acc + x) + y) + z / 64;
    NextDigit(v[3], rest, three);
  }

  lemma ThreeDenote(b: seq<byte>, acc: int)
    requires |b| >= 3
    ensures InBase256(b, acc) == InBase256(b[3..], 256 * (256 * (256 * acc + b[0]) + b[1]) + b[2])
  {
    assert b == [b[0]] + ([b[1]] + ([b[2]] + b[3..]));
    NextByte(b[0], [b[1]] + ([b[2]] + b[3..]), acc);
    NextByte(b[1], [b[2]] + b[3..], 256 * acc + b[0]);
    NextByte(b[2], b[3..], 256 * (256 * acc + b[0]) + b[1]);
  }

  lemma OneDenotes(x: byte, acc: int)
    ensures InBase64(Sextets([x]), acc) == 16 * InBase256([x], acc)
  {
    var v := Sextets([x]);
    assert v == [v[0]] + ([v[1]] + []) && [x] == [x] + [];
    NextDigit(v[0], [v[1]] + [], acc);
    NextDigit(v[1], [], 64 * acc + v[0]);
    NextByte(x, [], acc);
  }

  lemma TwoDenote(x: byte, y: byte, acc: int)
    ensures InBase64(Sextets([x, y]), acc) == 4 * InBase256([x, y], acc)
  {
    var v := Sextets([x, y]);
    assert v == [v[0]] + ([v[1]] + ([v[2]] + [])) && [x, y] == [x] + ([y] + []);
    NextDigit(v[0], [v[1]] + ([v[2]] + []), acc);
    var one := 64 * acc + v[0];
    NextDigit(v[1], [v[2]] + [], one);
    var two := 64 * one + v[1];
    assert two == 16 * (256 * acc + x) + y / 16;
    NextDigit(v[2], [], two);
    NextByte(x, [y] + [], acc);
    NextByte(y, [], 256 * acc + x);
  }

  // The zero bits that fill up the last group count for this much.
  function Filling(n: nat): int {
    if n % 3 == 1 then 16 else if n % 3 == 2 then 4 else 1
  }

  // The groups are those of the bits of the bytes, most significant first, filled up with
  // zeros at the end.
  lemma {:induction false} SextetsDenote(b: seq<byte>, acc: int)
    ensures InBase64(Sextets(b), acc) == Filling(|b|) * InBase256(b, acc)
    decreases |b|
  {
    if |b| == 1 {
      assert b == [b[0]];
      OneDenotes(b[0], acc);
    } else if |b| == 2 {
      assert b == [b[0], b[1]];
      TwoDenote(b[0], b[1], acc);
    } else if |b| >= 3 {
      GroupDenotes(b[0], b[1], b[2], Sextets(b[3..]), acc);
      SextetsDenote(b[3..], 256 * (256 * (256 * acc + b[0]) + b[1]) + b[2]);
      ThreeDenote(b, acc);
      assert Filling(|b| - 3) == Filling(|b|);
    }
  }
}
