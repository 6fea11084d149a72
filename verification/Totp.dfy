/**
 Time-based one-time passwords.  The keyed hash is a parameter that yields a digest of
 the length of its algorithm.
 */
module Totp {
  import opened Options
  import opened Text
  import opened Bytes
  import opened Decimal
  import opened Integers

  datatype Algorithm = SHA1 | SHA256 | SHA512

  function DigestLength(a: Algorithm): nat {
    match a
    case SHA1 => 20
    case SHA256 => 32
    case SHA512 => 64
  }

  ghost predicate WellSized(mac: (Algorithm, seq<byte>, seq<byte>) -> seq<byte>) {
    forall a, key, msg :: |mac(a, key, msg)| == DigestLength(a)
  }

  function ZeroDigest(a: Algorithm, key: seq<byte>, msg: seq<byte>): seq<byte> {
    seq(DigestLength(a), _ => 0)
  }

  type Mac = mac: (Algorithm, seq<byte>, seq<byte>) -> seq<byte> | WellSized(mac) witness ZeroDigest

  // ---------- Codes ----------

  // A number in network byte order.
  function ToBytes(n: nat, k: nat): (b: seq<byte>)
    ensures |b| == k
  {
    if k == 0 then [] else ToBytes(n / 256, k - 1) + [n % 256]
  }

  function Pow256(k: nat): nat {
    if k == 0 then 1 else 256 * Pow256(k - 1)
  }

  lemma {:induction false} ToBytesDenotes(n: nat, k: nat)
    requires n < Pow256(k)
    ensures BigEndian(ToBytes(n, k)) == n
  {
    if k > 0 {
      ToBytesDenotes(n / 256, k - 1);
      assert ToBytes(n, k)[..k - 1] == ToBytes(n / 256, k - 1);
    }
  }

  function Word(a: int, b: int, c: int, d: int): int {
    a * 0x100_0000 + b * 0x1_0000 + c * 0x100 + d
  }

  // Dynamic truncation: four bytes at the offset that the last byte gives, without the
  // sign bit.
  function Truncate(sum: seq<byte>): (r: nat)
    requires |sum| >= 20
    ensures r < 0x8000_0000
  {
    var offset := sum[|sum| - 1] % 16;
    Word(sum[offset] % 128, sum[offset + 1], sum[offset + 2], sum[offset + 3])
  }

  // It is the low 31 bits of the big-endian number there (section 5.3 of RFC 4226).
  lemma TruncateMeans(sum: seq<byte>)
    requires |sum| >= 20
    ensures var offset := sum[|sum| - 1] % 16;
            offset + 4 <= |sum| && Truncate(sum) == BigEndian(sum[offset..offset + 4]) % 0x8000_0000
  {
    var offset := sum[|sum| - 1] % 16;
    var four := sum[offset..offset + 4];
    FourBytes(four);
  }

  lemma FourBytes(b: seq<byte>)
    requires |b| == 4
    ensures BigEndian(b) == Word(b[0], b[1], b[2], b[3])
  {
    assert b[..3][..2] == b[..2] && b[..2][..1] == b[..1] && b[..1][..0] == [];
    assert BigEndian(b[..1]) == b[0];
    assert BigEndian(b[..2]) == 256 * BigEndian(b[..1]) + b[1];
    assert BigEndian(b[..3]) == 256 * BigEndian(b[..2]) + b[2];
  }

  function Pow10(d: nat): (r: nat)
    ensures r >= 1
  {
    if d == 0 then 1 else 10 * Pow10(d - 1)
  }

  function Zeros(k: nat): string {
    seq(k, _ => '0')
  }

  // A numeral of the given width, padded with zeros on the left.
  function Padded(n: nat, width: nat): string {
    var s := Itoa(n);
    if |s| < width then Zeros(width - |s|) + s else s
  }

  lemma {:induction false} DigitsFit(n: nat, d: nat)
    requires d >= 1 && n < Pow10(d)
    ensures |Digits(n)| <= d
  {
    if n >= 10 {
      DigitsFit(n / 10, d - 1);
    }
  }

  lemma {:induction false} ValuePadded(k: nat, s: string)
    requires forall i | 0 <= i < |s| :: IsDigit(s[i])
    ensures Value(Zeros(k) + s) == Value(s)
    decreases |s| + k
  {
    var t := Zeros(k) + s;
    if s != "" {
      assert t[..|t| - 1] == Zeros(k) + s[..|s| - 1];
      ValuePadded(k, s[..|s| - 1]);
    } else if k > 0 {
      assert t[..k - 1] == Zeros(k - 1) + s;
      ValuePadded(k - 1, s);
    }
  }

  lemma DigitsLength(n: nat, width: nat)
    requires width >= 1 && n < Pow10(width)
    ensures Itoa(n) == Digits(n) && |Itoa(n)| <= width && Value(Itoa(n)) == n
  {
    DigitsFit(n, width);
    ValueOfDigits(n);
  }

  lemma WithZeros(s: string, width: nat)
    requires AllDigits(s) && |s| <= width
    ensures var t := if |s| < width then Zeros(width - |s|) + s else s;
            |t| == width && AllDigits(t) && Value(t) == Value(s)
  {
    ValuePadded(width - |s|, s);
  }

  // A padded numeral has exactly the width and denotes the number.
  lemma PaddedMeans(n: nat, width: nat)
    requires width >= 1 && n < Pow10(width)
    ensures |Padded(n, width)| == width && AllDigits(Padded(n, width)) && Value(Padded(n, width)) == n
  {
    DigitsLength(n, width);
    WithZeros(Itoa(n), width);
  }

  function GenerateCode(mac: Mac, secret: seq<byte>, counter: int, digits: int, a: Algorithm): Option<string>
  {
    if counter < 0 || digits <= 0 || digits > 9 then None
    else Some(Padded(Truncate(mac(a, secret, ToBytes(counter, 8))) % Pow10(digits), digits))
  }

  // Every generated code has the wanted number of decimal digits, which denote the
  // truncated digest modulo that power of ten.
  lemma CodeMeans(mac: Mac, secret: seq<byte>, counter: nat, digits: int, a: Algorithm)
    requires 1 <= digits <= 9
    ensures var code := GenerateCode(mac, secret, counter, digits, a);
            && code.Some? && |code.value| == digits && AllDigits(code.value)
            && Value(code.value) == Truncate(mac(a, secret, ToBytes(counter, 8))) % Pow10(digits)
  {
    PaddedMeans(Truncate(mac(a, secret, ToBytes(counter, 8))) % Pow10(digits), digits);
  }

  // ---------- Validation ----------

  datatype Manager = Manager(seed: seq<byte>, window: nat, digits: int, period: int, algorithm: Algorithm) {
    // What the constructor checks, for a period of at least a second.
    predicate Valid() {
      6 <= digits <= 8 && period >= 1
    }
  }

  function StepAt(m: Manager, now: int): int
    requires m.Valid()
  {
    Quotient(now, m.period)
  }

  // The code for a time step.
  function CodeAt(mac: Mac, m: Manager, step: int): Option<string>
  {
    GenerateCode(mac, m.seed, step, m.digits, m.algorithm)
  }

  // The codes of a manager by their time step.
  function Codes(mac: Mac, m: Manager): int -> Option<string> {
    step => CodeAt(mac, m, step)
  }

  // The text is the code of a step within the window of the given step, and the window
  // does not reach before the beginning of time.
  ghost predicate Matches(codes: int -> Option<string>, window: nat, text: string, step: int) {
    && step >= window
    && exists c :: step - window <= c <= step + window && codes(c) == Some(text)
  }

  ghost predicate Accepts(mac: Mac, m: Manager, code: string, now: int)
    requires m.Valid()
  {
    |Trim(code)| == m.digits && Matches(Codes(mac, m), m.window, Trim(code), StepAt(m, now))
  }

  method ValidateCode(mac: Mac, m: Manager, code: string, now: int) returns (ok: bool)
    requires m.Valid()
    ensures ok <==> Accepts(mac, m, code, now)
  {
    var text := Trim(code);
    if |text| != m.digits {
      return false;
    }
    var step := Quotient(now, m.period);
    ok := SearchWindow(Codes(mac, m), m.window, text, step);
  }

  // A code cannot be made before the beginning of time, which ends the search.
  method SearchWindow(codes: int -> Option<string>, window: nat, text: string, step: int) returns (ok: bool)
    requires forall c :: codes(c).None? <==> c < 0
    ensures ok <==> Matches(codes, window, text, step)
  {
    var offset := 0 - window;
    while offset <= window
      invariant 0 <= offset + window && offset <= window + 1
      invariant forall c | step - window <= c < step + offset :: codes(c) != Some(text)
      invariant offset > 0 - window ==> step >= window
    {
      var candidate := codes(step + offset);
      if candidate.None? {
        return false;
      }
      if candidate.value == text {
        return true;
      }
      offset := offset + 1;
    }
    return false;
  }

  lemma TimesAtLeast(k: int, p: int)
    requires p >= 1 && k >= 1
    ensures k * p >= p
  {
    assert (k - 1) * p >= 0;
  }

  // Times no more than `w` periods apart are no more than `w` steps apart.
  lemma StepsApart(a: nat, b: nat, w: nat, p: int)
    requires p >= 1 && a <= b + w * p
    ensures a / p <= b / p + w
  {
    var q, r := a / p, b / p;
    assert a == q * p + a % p && b == r * p + b % p;
    var k := q - r - w;
    assert k * p == q * p - r * p - w * p;
    if k >= 1 {
      TimesAtLeast(k, p);
    }
  }

  // Codes hold digits only, so trimming leaves them alone.
  lemma CodeTrimmed(mac: Mac, m: Manager, step: nat)
    requires m.Valid()
    ensures var code := CodeAt(mac, m, step); code.Some? && |code.value| == m.digits && Trim(code.value) == code.value
  {
    CodeMeans(mac, m.seed, step, m.digits, m.algorithm);
    DigitsTrimmed(CodeAt(mac, m, step).value);
  }

  lemma DigitsTrimmed(s: string)
    requires s != "" && AllDigits(s)
    ensures Trim(s) == s
  {
    assert IsDigit(s[0]) && IsDigit(s[|s| - 1]);
    assert TrimLeft(s) == s;
    assert TrimRight(s) == s;
  }

  // Two times are a whole window after the epoch exactly when their step is.
  lemma StepReaches(now: nat, w: nat, p: int)
    requires p >= 1
    ensures now / p >= w <==> now >= w * p
  {
    var q := now / p;
    assert now == q * p + now % p;
    assert (q - w) * p == q * p - w * p;
    if q >= w {
      assert (q - w) * p >= 0;
    } else {
      TimesAtLeast(w - q, p);
    }
  }

  // A code made at one time is accepted at another no more than the window away,
  // exactly when a whole window has passed since the epoch (sections 4.2 and 5.2 of
  // RFC 6238).
  lemma WindowAccepts(mac: Mac, m: Manager, made: nat, now: nat)
    requires m.Valid()
    requires made <= now + m.window * m.period && now <= made + m.window * m.period
    ensures var code := CodeAt(mac, m, StepAt(m, made));
            code.Some? && (Accepts(mac, m, code.value, now) <==> now >= m.window * m.period)
  {
    StepsApart(made, now, m.window, m.period);
    StepsApart(now, made, m.window, m.period);
    StepReaches(now, m.window, m.period);
    StepAccepted(mac, m, StepAt(m, made), StepAt(m, now));
  }

  lemma StepAccepted(mac: Mac, m: Manager, made: nat, step: int)
    requires m.Valid() && step - m.window <= made <= step + m.window
    ensures var code := CodeAt(mac, m, made);
            && code.Some? && Trim(code.value) == code.value && |code.value| == m.digits
            && (Matches(Codes(mac, m), m.window, code.value, step) <==> step >= m.window)
  {
    CodeTrimmed(mac, m, made);
    MatchesOwn(Codes(mac, m), m.window, made, step);
  }

  lemma MatchesOwn(codes: int -> Option<string>, window: nat, made: nat, step: int)
    requires step - window <= made <= step + window && codes(made).Some?
    ensures Matches(codes, window, codes(made).value, step) <==> step >= window
  {
  }

  // ---------- Acceptance by the digits ----------

  // The number of a one-time password of so many digits, from a digest (section 5.3 of
  // RFC 4226).
  function OneTime(sum: seq<byte>, digits: nat): nat
    requires |sum| >= 20
  {
    var offset := sum[|sum| - 1] % 16;
    BigEndian(sum[offset..offset + 4]) % 0x8000_0000 % Pow10(digits)
  }

  lemma {:induction false} ValueInjective(a: string, b: string)
    requires |a| == |b| && (forall i | 0 <= i < |a| :: IsDigit(a[i])) && (forall i | 0 <= i < |b| :: IsDigit(b[i]))
    requires Value(a) == Value(b)
    ensures a == b
  {
    if a != "" {
      var n := |a| - 1;
      var x, y := Value(a[..n]), Value(b[..n]);
      assert 10 * x + DigitValue(a[n]) == 10 * y + DigitValue(b[n]);
      assert x == y;
      ValueInjective(a[..n], b[..n]);
      assert a == a[..n] + [a[n]] && b == b[..n] + [b[n]];
    }
  }

  // The digits denote that number for the keyed hash of the step under the manager's own
  // seed and algorithm.
  predicate Shows(mac: Mac, m: Manager, text: string, step: nat)
    requires m.Valid()
  {
    AllDigits(text) && Value(text) == OneTime(mac(m.algorithm, m.seed, ToBytes(step, 8)), m.digits)
  }

  lemma OneTimeMeans(sum: seq<byte>, digits: nat)
    requires |sum| >= 20
    ensures Truncate(sum) % Pow10(digits) == OneTime(sum, digits)
  {
    TruncateMeans(sum);
  }

  lemma SameDigits(text: string, code: string)
    requires |text| == |code| && AllDigits(code)
    ensures text == code <==> AllDigits(text) && Value(text) == Value(code)
  {
    if AllDigits(text) && Value(text) == Value(code) {
      ValueInjective(text, code);
    }
  }

  // A text of the right length is the code of a step exactly when its digits do.
  lemma CodeExactly(mac: Mac, m: Manager, step: nat, text: string)
    requires m.Valid() && |text| == m.digits
    ensures CodeAt(mac, m, step) == Some(text) <==> Shows(mac, m, text, step)
  {
    CodeMeans(mac, m.seed, step, m.digits, m.algorithm);
    OneTimeMeans(mac(m.algorithm, m.seed, ToBytes(step, 8)), m.digits);
    SameDigits(text, CodeAt(mac, m, step).value);
  }

  lemma MatchesExactly(mac: Mac, m: Manager, text: string, step: nat)
    requires m.Valid() && |text| == m.digits && step >= m.window
    ensures Matches(Codes(mac, m), m.window, text, step)
            <==> exists c: nat :: step - m.window <= c <= step + m.window && Shows(mac, m, text, c)
  {
    var codes := Codes(mac, m);
    if c :| step - m.window <= c <= step + m.window && codes(c) == Some(text) {
      CodeExactly(mac, m, c, text);
    }
    if c: nat :| step - m.window <= c <= step + m.window && Shows(mac, m, text, c) {
      CodeExactly(mac, m, c, text);
      assert codes(c) == Some(text);
    }
  }

  // Accepted are exactly the texts of the right number of digits, with space around them
  // or not, whose digits do so for a step within the window of the present one, once a
  // whole window has passed since the epoch.
  lemma AcceptedExactly(mac: Mac, m: Manager, code: string, now: nat)
    requires m.Valid()
    ensures Accepts(mac, m, code, now)
            <==> && |Trim(code)| == m.digits && now >= m.window * m.period
                 && var step := now / m.period;
                    exists c: nat :: step - m.window <= c <= step + m.window && Shows(mac, m, Trim(code), c)
  {
    StepReaches(now, m.window, m.period);
    if |Trim(code)| == m.digits && now / m.period >= m.window {
      MatchesExactly(mac, m, Trim(code), now / m.period);
    }
  }
}
