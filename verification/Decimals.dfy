/** Unsigned integers in decimal, the way serde_json writes them: no sign, no
    leading zero, and nothing that marks where the digits end. */
module Decimals {
  import opened Bytes

  const ZERO: byte := '0' as byte

  predicate IsDigit(b: byte) {
    '0' as byte <= b <= '9' as byte
  }

  predicate AllDigits(s: bytes) {
    forall i | 0 <= i < |s| :: IsDigit(s[i])
  }

  /** What the decimal reader accepts: digits, and a leading zero only alone. */
  predicate Canonical(s: bytes) {
    |s| > 0 && AllDigits(s) && (s[0] == ZERO ==> |s| == 1)
  }

  function Digit(n: nat): (b: byte)
    requires n < 10
    ensures IsDigit(b)
  {
    (48 + n) as byte
  }

  function Decimal(n: nat): (s: bytes)
    ensures Canonical(s)
    ensures n > 0 ==> s[0] != ZERO
  {
    if n < 10 then [Digit(n)] else Decimal(n / 10) + [Digit(n % 10)]
  }

  function Value(s: bytes): nat
    requires AllDigits(s)
  {
    if s == [] then 0 else 10 * Value(s[..|s| - 1]) + (s[|s| - 1] as int - 48)
  }

  lemma {:induction false} ValueOfDecimal(n: nat)
    ensures Value(Decimal(n)) == n
  {
    if n < 10 {
      assert Decimal(n)[..0] == [];
    } else {
      var s := Decimal(n / 10);
      ValueOfDecimal(n / 10);
      assert (s + [Digit(n % 10)])[..|s|] == s;
    }
  }

  lemma DecimalInjective(a: nat, b: nat)
    requires Decimal(a) == Decimal(b)
    ensures a == b
  {
    ValueOfDecimal(a);
    ValueOfDecimal(b);
  }

  lemma {:induction false} DecimalOfValue(s: bytes)
    requires Canonical(s)
    ensures Decimal(Value(s)) == s
    ensures s[0] != ZERO ==> Value(s) > 0
  {
    var t := s[..|s| - 1];
    var d := s[|s| - 1] as int - 48;
    if |s| == 1 {
      assert t == [];
    } else {
      assert t[0] == s[0];
      DecimalOfValue(t);
      assert Value(s) == 10 * Value(t) + d;
      assert Value(s) / 10 == Value(t) && Value(s) % 10 == d;
      assert s == t + [s[|s| - 1]];
    }
  }

  /** How many leading bytes of `s` are digits. */
  function DigitRun(s: bytes): (k: nat)
    ensures k <= |s|
    ensures AllDigits(s[..k])
    ensures k < |s| ==> !IsDigit(s[k])
  {
    if s == [] || !IsDigit(s[0]) then 0
    else
      var k := DigitRun(s[1..]);
      assert s[..k + 1] == [s[0]] + s[1..][..k];
      k + 1
  }

  lemma DigitRunOfConcat(d: bytes, rest: bytes)
    requires AllDigits(d)
    requires rest == [] || !IsDigit(rest[0])
    ensures DigitRun(d + rest) == |d|
  {
    assert forall i | 0 <= i < |d| :: (d + rest)[i] == d[i];
    assert rest != [] ==> (d + rest)[|d|] == rest[0];
  }

  function Pow10(k: nat): (p: nat)
    ensures p > 0
  {
    if k == 0 then 1 else 10 * Pow10(k - 1)
  }

  lemma MulPow10(v: nat, k: nat)
    requires k > 0
    ensures v * Pow10(k) == 10 * (v * Pow10(k - 1))
  {
  }

  lemma {:induction false} ValueOfConcat(a: bytes, b: bytes)
    requires AllDigits(a) && AllDigits(b)
    ensures AllDigits(a + b)
    ensures Value(a + b) == Value(a) * Pow10(|b|) + Value(b)
  {
    if b == [] {
      assert a + b == a;
    } else {
      var b' := b[..|b| - 1];
      ValueOfConcat(a, b');
      assert (a + b)[..|a + b| - 1] == a + b';
      MulPow10(Value(a), |b|);
    }
  }
}
