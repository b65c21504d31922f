/** Unsigned 64-bit arithmetic on integers: wrap-around, bitwise and, low masks. */
module Words {
  const WORD_BITS: nat := 64
  const WORD_SIZE: nat := 0x1_0000_0000_0000_0000

  type Word = x: nat | x < WORD_SIZE

  function Pow2(k: nat): (r: nat)
    ensures r > 0
  {
    if k == 0 then 1 else 2 * Pow2(k - 1)
  }

  /** `a & b` on words, bit by bit. */
  function And(a: nat, b: nat): (r: nat)
    ensures r <= a && r <= b
  {
    if a == 0 || b == 0 then 0
    else (a % 2) * (b % 2) + 2 * And(a / 2, b / 2)
  }

  /** Number of bits needed to write n, as bits.Len. */
  function BitLen(n: nat): nat {
    if n == 0 then 0 else 1 + BitLen(n / 2)
  }

  lemma {:induction false} BitLenBrackets(n: nat)
    requires n > 0
    ensures BitLen(n) > 0 && Pow2(BitLen(n) - 1) <= n < Pow2(BitLen(n))
  {
    if n > 1 {
      BitLenBrackets(n / 2);
    }
  }

  /** Masking with k one-bits keeps exactly the remainder modulo 2^k. */
  lemma {:induction false} AndLowMask(a: nat, k: nat)
    ensures And(a, Pow2(k) - 1) == a % Pow2(k)
  {
    if a == 0 {
      ModIs(0, Pow2(k), 0, 0);
    } else if k > 0 {
      var m, p := Pow2(k - 1), Pow2(k);
      assert p == 2 * m;
      AndLowMask(a / 2, k - 1);
      calc {
        And(a, p - 1);
        { AndOdd(a, m); }
        a % 2 + 2 * And(a / 2, m - 1);
        a % 2 + 2 * ((a / 2) % m);
        { HalfMod(a, m); }
        a % p;
      }
    }
  }

  lemma AndOdd(a: nat, m: nat)
    requires a > 0 && m > 0
    ensures And(a, 2 * m - 1) == a % 2 + 2 * And(a / 2, m - 1)
  {
    var b := 2 * m - 1;
    assert b / 2 == m - 1 && b % 2 == 1;
  }

  lemma HalfMod(a: nat, m: nat)
    requires m > 0
    ensures a % (2 * m) == a % 2 + 2 * ((a / 2) % m)
  {
    var q, r := (a / 2) / m, (a / 2) % m;
    assert a == 2 * (q * m + r) + a % 2;
    assert a == q * (2 * m) + (2 * r + a % 2);
    ModIs(a, 2 * m, q, 2 * r + a % 2);
  }

  /** A quotient and a small remainder determine the modulus. */
  lemma ModIs(a: int, m: int, q: int, r: int)
    requires m > 0 && a == q * m + r && 0 <= r < m
    ensures a % m == r
  {
    var q', r' := a / m, a % m;
    assert (q - q') * m == r' - r;
    if q > q' { assert (q - q') * m >= m by { MulLe(1, q - q', m); } }
    if q < q' { assert (q' - q) * m >= m by { MulLe(1, q' - q, m); } }
  }

  lemma MulLe(a: int, b: int, m: int)
    requires a <= b && m >= 0
    ensures a * m <= b * m
  {
  }

  lemma {:induction false} Pow2Divides(k: nat, n: nat)
    requires k <= n
    ensures Pow2(n) == Pow2(k) * Pow2(n - k)
  {
    if k < n {
      Pow2Divides(k, n - 1);
      assert Pow2(n) == 2 * (Pow2(k) * Pow2(n - 1 - k)) == Pow2(k) * (2 * Pow2(n - 1 - k));
    }
  }

  lemma {:induction false} Pow2Monotone(k: nat, n: nat)
    requires k <= n
    ensures Pow2(k) <= Pow2(n)
  {
    if k < n {
      Pow2Monotone(k, n - 1);
    }
  }

  lemma WordSizeIsPow2()
    ensures Pow2(WORD_BITS) == WORD_SIZE
  {
    assert Pow2(8) == 0x100;
    Pow2Divides(8, 16);
    Pow2Divides(16, 32);
    Pow2Divides(32, 64);
  }

  /** Reducing modulo a multiple of m first does not change the remainder modulo m. */
  lemma ModOfMod(a: nat, m: nat, q: nat, s: nat)
    requires m > 0 && s > 0 && s == q * m
    ensures (a % s) % m == a % m
  {
    var x, r := a / s, a % s;
    assert a == x * s + r;
    assert x * s == (x * q) * m;
    var y := r / m;
    assert (x * q + y) * m == (x * q) * m + y * m;
    ModIs(a, m, x * q + y, r % m);
  }

  lemma WordSizeSplits(k: nat)
    requires k <= WORD_BITS
    ensures WORD_SIZE == Pow2(WORD_BITS - k) * Pow2(k)
  {
    WordSizeIsPow2();
    Pow2Divides(k, WORD_BITS);
  }

  function Wrap(a: nat): Word {
    a % WORD_SIZE
  }

  /** Wrapping at 64 bits is invisible modulo any 2^k with k at most 64. */
  lemma WrapKeepsLowBits(a: nat, k: nat)
    requires k <= WORD_BITS
    ensures Wrap(a) % Pow2(k) == a % Pow2(k)
  {
    WordSizeSplits(k);
    ModOfMod(a, Pow2(k), Pow2(WORD_BITS - k), WORD_SIZE);
  }
}
