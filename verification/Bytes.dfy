/** Bytes, bits and big-endian numbers. */
module Bytes {
  type byte = x: int | 0 <= x < 256

  function Pow2(n: nat): (r: nat)
    ensures r >= 1
  {
    if n == 0 then 1 else 2 * Pow2(n - 1)
  }

  function ShiftRight(x: nat, k: nat): nat {
    if k == 0 then x else ShiftRight(x, k - 1) / 2
  }

  // Bit `i` of a byte string, the most significant bit of the first byte being bit 0.
  predicate BitAt(raw: seq<byte>, i: nat)
    requires i < 8 * |raw|
  {
    ShiftRight(raw[i / 8], 7 - i % 8) % 2 == 1
  }

  function Bits(raw: seq<byte>): (bits: seq<bool>)
    ensures |bits| == 8 * |raw| && forall i | 0 <= i < |bits| :: bits[i] == BitAt(raw, i)
  {
    seq(8 * |raw|, i requires 0 <= i < 8 * |raw| => BitAt(raw, i))
  }

  // The number that a byte string denotes in network byte order.
  function BigEndian(raw: seq<byte>): nat {
    if raw == [] then 0 else 256 * BigEndian(raw[..|raw| - 1]) + raw[|raw| - 1]
  }

  // The number that a bit string denotes, most significant bit first.
  function Number(bits: seq<bool>): nat {
    if bits == [] then 0
    else 2 * Number(bits[..|bits| - 1]) + if bits[|bits| - 1] then 1 else 0
  }

  lemma NumberSnoc(bits: seq<bool>, b: bool)
    ensures Number(bits + [b]) == 2 * Number(bits) + if b then 1 else 0
  {
    assert (bits + [b])[..|bits|] == bits;
  }

  lemma {:induction false} NumberInjective(a: seq<bool>, b: seq<bool>)
    requires |a| == |b| && Number(a) == Number(b)
    ensures a == b
  {
    if a != [] {
      var n := |a| - 1;
      NumberInjective(a[..n], b[..n]);
      assert a == a[..n] + [a[n]] && b == b[..n] + [b[n]];
    }
  }

  // Dropping trailing bits divides by a power of two.
  lemma {:induction false} NumberTake(bits: seq<bool>, n: nat)
    requires n <= |bits|
    ensures Number(bits[..n]) == Number(bits) / Pow2(|bits| - n)
    decreases |bits|
  {
    if n == |bits| {
      assert bits[..n] == bits;
    } else {
      var front := bits[..|bits| - 1];
      NumberTake(front, n);
      assert front[..n] == bits[..n];
      HalfThenDivide(Number(bits), Pow2(|front| - n));
    }
  }

  lemma Distribute(a: int, b: int, d: int)
    ensures (a - b) * d == a * d - b * d
  {
  }

  lemma AtLeast(a: int, d: int)
    requires a >= 1 && d > 0
    ensures a * d >= d
  {
    Distribute(a, 1, d);
    assert (a - 1) * d >= 0;
  }

  lemma DivideUnique(x: int, d: int, q: int, r: int)
    requires d > 0 && x == q * d + r && 0 <= r < d
    ensures x / d == q
  {
    var q' := x / d;
    assert x == q' * d + x % d;
    Distribute(q, q', d);
    Distribute(q', q, d);
    if q > q' {
      AtLeast(q - q', d);
    } else if q < q' {
      AtLeast(q' - q, d);
    }
  }

  lemma HalfThenDivide(x: nat, d: nat)
    requires d > 0
    ensures x / 2 / d == x / (2 * d)
  {
    var h := x / 2;
    var q, r := h / d, h % d;
    assert h == q * d + r;
    assert q * (2 * d) == 2 * (q * d);
    DivideUnique(x, 2 * d, q, 2 * r + x % 2);
  }

  lemma {:induction false} ShiftBound(x: nat, n: nat, k: nat)
    requires x < Pow2(n) && k <= n
    ensures ShiftRight(x, k) < Pow2(n - k)
  {
    if k > 0 {
      ShiftBound(x, n, k - 1);
    }
  }

  // The first bits of a byte are the byte shifted right.
  lemma {:induction false} ByteBits(x: byte, k: nat)
    requires k <= 8
    ensures Number(Bits([x])[..k]) == ShiftRight(x, 8 - k)
  {
    if k == 0 {
      assert Pow2(8) == 256;
      ShiftBound(x, 8, 8);
    } else {
      ByteBits(x, k - 1);
      var bits := Bits([x]);
      assert bits[..k] == bits[..k - 1] + [bits[k - 1]];
      NumberSnoc(bits[..k - 1], bits[k - 1]);
      FirstBits(x, k - 1);
    }
  }

  lemma FirstBits(x: byte, k: nat)
    requires k < 8
    ensures Bits([x])[k] == BitAt([x], k) && k / 8 == 0 && k % 8 == k
  {
  }

  lemma ByteNumber(x: byte)
    ensures Number(Bits([x])) == x
  {
    ByteBits(x, 8);
    assert Bits([x])[..8] == Bits([x]);
  }

  lemma DoubleProduct(x: int, y: int)
    ensures x * (2 * y) == 2 * (x * y)
  {
  }

  lemma {:induction false} NumberConcat(a: seq<bool>, b: seq<bool>)
    ensures Number(a + b) == Number(a) * Pow2(|b|) + Number(b)
  {
    if b == [] {
      assert a + b == a;
    } else {
      var n := |b| - 1;
      NumberConcat(a, b[..n]);
      assert a + b == (a + b[..n]) + [b[n]];
      NumberSnoc(a + b[..n], b[n]);
      assert b == b[..n] + [b[n]];
      NumberSnoc(b[..n], b[n]);
      DoubleProduct(Number(a), Pow2(n));
    }
  }

  lemma BitsSplit(raw: seq<byte>)
    requires raw != []
    ensures Bits(raw) == Bits(raw[..|raw| - 1]) + Bits([raw[|raw| - 1]])
  {
    var n := |raw| - 1;
    var split := Bits(raw[..n]) + Bits([raw[n]]);
    forall i | 0 <= i < 8 * |raw| ensures Bits(raw)[i] == split[i] {
      if i >= 8 * n {
        assert i / 8 == n && i % 8 == (i - 8 * n) % 8 && (i - 8 * n) / 8 == 0;
      }
    }
  }

  // The bits of a byte string, read as a number, give its big-endian value.
  lemma {:induction false} BitsDenote(raw: seq<byte>)
    ensures Number(Bits(raw)) == BigEndian(raw)
  {
    if raw != [] {
      var n := |raw| - 1;
      BitsDenote(raw[..n]);
      ByteNumber(raw[n]);
      BitsSplit(raw);
      NumberConcat(Bits(raw[..n]), Bits([raw[n]]));
      assert Pow2(8) == 256;
    }
  }
}
