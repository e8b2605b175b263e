/**
 * Sums and residues modulo a positive modulus, as used for the partial
 * product `Ni = (ΣPj·ΣQj + ΣHj) mod Pp`. Dafny's `%` with a positive
 * divisor is never negative, as `BigInteger.mod` is.
 */
module Modular {
  import opened BGWTypes

  /** The left fold `reduce(0, add)` over `xs`. */
  function Sum(xs: seq<int>): int {
    if xs == [] then 0 else Sum(xs[..|xs| - 1]) + xs[|xs| - 1]
  }

  /** The same fold, reducing modulo `p` after every addition. */
  function SumMod(xs: seq<int>, p: Modulus): (r: int)
    ensures 0 <= r < p
  {
    if xs == [] then 0 else (SumMod(xs[..|xs| - 1], p) + xs[|xs| - 1]) % p
  }

  lemma MulAtLeast(p: Modulus, d: int)
    requires d >= 1
    ensures p * d >= p
  {
    var e := d - 1;
    assert p * d == p * e + p;
    assert p * e >= 0;
  }

  /** Division with remainder is unique. */
  lemma ModUnique(n: int, p: Modulus, q: int, r: int)
    requires 0 <= r < p
    requires n == p * q + r
    ensures n % p == r
  {
    var q', r' := n / p, n % p;
    assert n == p * q' + r';
    var d := q - q';
    assert p * d == r' - r;
    if d >= 1 {
      MulAtLeast(p, d);
    } else if d <= -1 {
      assert p * (-d) == r - r';
      MulAtLeast(p, -d);
    }
  }

  /** Adding a multiple of `p` does not change the residue. */
  lemma ModShift(p: Modulus, k: int, x: int)
    ensures (p * k + x) % p == x % p
  {
    var q, r := x / p, x % p;
    assert p * k + x == p * (k + q) + r;
    ModUnique(p * k + x, p, k + q, r);
  }

  lemma ModAdd(a: int, b: int, p: Modulus)
    ensures (a + b) % p == (a % p + b % p) % p
  {
    var qa, qb := a / p, b / p;
    assert a + b == p * (qa + qb) + (a % p + b % p);
    ModShift(p, qa + qb, a % p + b % p);
  }

  lemma ModMul(a: int, b: int, p: Modulus)
    ensures (a * b) % p == ((a % p) * (b % p)) % p
  {
    var qa, ra, qb, rb := a / p, a % p, b / p, b % p;
    calc {
      a * b;
      (p * qa + ra) * (p * qb + rb);
      p * (qa * (p * qb + rb) + ra * qb) + ra * rb;
    }
    ModShift(p, qa * (p * qb + rb) + ra * qb, ra * rb);
  }

  /** Reducing after every addition gives the residue of the plain sum. */
  lemma {:induction false} SumModIsResidueOfSum(xs: seq<int>, p: Modulus)
    ensures SumMod(xs, p) == Sum(xs) % p
  {
    if xs != [] {
      var init, last := xs[..|xs| - 1], xs[|xs| - 1];
      SumModIsResidueOfSum(init, p);
      var s, m := Sum(init), SumMod(init, p);
      assert m == s % p;
      ModAdd(s, last, p);
      ModAdd(m, last, p);
      ModUnique(m, p, 0, m);
      assert SumMod(xs, p) == (m + last) % p;
      assert Sum(xs) == s + last;
    }
  }

  /**
   * `(a·b + c) mod p` depends only on the residues of `a`, `b` and `c`:
   * any representatives, reduced or not, give the same result.
   */
  lemma ResiduesDetermineProductSum(a: int, b: int, c: int, a': int, b': int, c': int, p: Modulus)
    requires a % p == a' % p && b % p == b' % p && c % p == c' % p
    ensures (a * b + c) % p == (a' * b' + c') % p
  {
    ModAdd(a * b, c, p);
    ModAdd(a' * b', c', p);
    ModMul(a, b, p);
    ModMul(a', b', p);
  }
}
