/**
 * `itoB(n, bits)` from src/assembler.js: the `bits` low binary digits of a
 * non-negative integer, most significant digit first, as a string of
 * '0' and '1'. Values that do not fit are truncated silently.
 */
module Binary {

  function Pow2(k: nat): (r: nat)
    ensures r >= 1
  {
    if k == 0 then 1 else 2 * Pow2(k - 1)
  }

  predicate IsBitString(s: string) {
    forall i :: 0 <= i < |s| ==> s[i] == '0' || s[i] == '1'
  }

  function BitChar(b: nat): char
    requires b < 2
  {
    if b == 0 then '0' else '1'
  }

  /** The value of a string of binary digits, most significant first. */
  function FromBits(s: string): (v: nat)
    requires IsBitString(s)
    ensures v < Pow2(|s|)
  {
    if s == [] then 0
    else 2 * FromBits(s[..|s| - 1]) + (if s[|s| - 1] == '1' then 1 else 0)
  }

  /** What `itoB(n, k)` returns for a non-negative integer `n`. */
  function Bits(n: nat, k: nat): (r: string)
    ensures |r| == k && IsBitString(r)
  {
    if k == 0 then "" else Bits(n / 2, k - 1) + [BitChar(n % 2)]
  }

  /** The loop of `itoB`: prepend `tmp % 2`, halve `tmp`, `bits` times. */
  method ItoB(n: nat, bits: nat) returns (bn: string)
    ensures bn == Bits(n, bits)
  {
    var tmp := n;
    bn := "";
    var i := 0;
    while i < bits
      invariant 0 <= i <= bits
      invariant Bits(n, bits) == Bits(tmp, bits - i) + bn
    {
      bn := [BitChar(tmp % 2)] + bn;
      tmp := tmp / 2;
      i := i + 1;
    }
  }

  lemma ModDouble(n: nat, m: nat)
    requires m >= 1
    ensures 2 * ((n / 2) % m) + n % 2 == n % (2 * m)
  {
    var q, b := (n / 2) / m, (n / 2) % m;
    assert n / 2 == q * m + b;
    assert n == (2 * m) * q + (2 * b + n % 2);
    assert 0 <= 2 * b + n % 2 < 2 * m;
    ModUnique(n, 2 * m, q, 2 * b + n % 2);
  }

  lemma {:induction false} MulStep(d: nat, a: nat, b: nat)
    ensures a < b ==> d * a + d <= d * b
    decreases b
  {
    if a < b && a + 1 < b {
      MulStep(d, a, b - 1);
      assert d * (b - 1) == d * b - d;
    }
  }

  /** Euclidean division has only one quotient and remainder. */
  lemma ModUnique(x: nat, d: nat, q: nat, r: nat)
    requires d >= 1 && x == d * q + r && r < d
    ensures x % d == r
  {
    var k := x / d;
    assert x == d * k + x % d;
    MulStep(d, q, k);
    MulStep(d, k, q);
  }

  /** itoB keeps exactly the value modulo 2^k. */
  lemma {:induction false} BitsValue(n: nat, k: nat)
    ensures FromBits(Bits(n, k)) == n % Pow2(k)
  {
    if k > 0 {
      var s := Bits(n, k);
      assert s[..k - 1] == Bits(n / 2, k - 1);
      BitsValue(n / 2, k - 1);
      ModDouble(n, Pow2(k - 1));
    }
  }

  /** For a value that fits in `k` bits, the string decodes back to it. */
  lemma BitsRoundTrip(n: nat, k: nat)
    requires n < Pow2(k)
    ensures FromBits(Bits(n, k)) == n
  {
    BitsValue(n, k);
  }

  /** Every `k`-digit binary string is what itoB gives for its own value. */
  lemma {:induction false} FromBitsRoundTrip(s: string)
    requires IsBitString(s)
    ensures Bits(FromBits(s), |s|) == s
  {
    if s != [] {
      var p := s[..|s| - 1];
      FromBitsRoundTrip(p);
      var v := FromBits(s);
      assert v / 2 == FromBits(p);
      assert s == p + [s[|s| - 1]];
    }
  }

  /** Zero is all zero digits, at any width. */
  lemma {:induction false} BitsZero(k: nat)
    ensures forall i :: 0 <= i < k ==> Bits(0, k)[i] == '0'
  {
    if k > 0 {
      BitsZero(k - 1);
    }
  }

  /** `@21` assembles with the 15-bit pattern of 21. */
  lemma TwentyOne()
    ensures Bits(21, 15) == "000000000010101"
  {
    BitsZero(10);
    var zeros := Bits(0, 10);
    assert zeros == "0000000000";
    assert Bits(1, 11) == zeros + "1";
    assert Bits(2, 12) == zeros + "10";
    assert Bits(5, 13) == zeros + "101";
    assert Bits(10, 14) == zeros + "1010";
    assert Bits(21, 15) == zeros + "10101";
  }
}
