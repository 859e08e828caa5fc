/** Congruence modulo p, and what a prime p adds to it. */
module Modular {

  /** `a` and `b` leave the same remainder. */
  predicate Cong(p: nat, a: int, b: int)
    requires p > 0
  {
    (a - b) % p == 0
  }

  ghost predicate IsPrime(p: nat) {
    p >= 2 && forall d :: 2 <= d < p ==> p % d != 0
  }

  lemma UniqueRemainder(p: nat, a: int, q: int, r: int)
    requires p > 0 && 0 <= r < p && a == p * q + r
    ensures a % p == r && a / p == q
  {
    var q', r' := a / p, a % p;
    assert a == p * q' + r';
    assert p * (q - q') == r' - r by { assert p * (q - q') == p * q - p * q'; }
    if q > q' {
      MulGrows(p, q - q');
    } else if q < q' {
      assert p * (q' - q) == r - r' by { assert p * (q' - q) == p * q' - p * q; }
      MulGrows(p, q' - q);
    }
  }

  lemma MulGrows(p: nat, k: int)
    requires k >= 1
    ensures p * k >= p
  {
    assert p * k == p + p * (k - 1);
    assert p * (k - 1) >= 0;
  }

  /** The way in: a difference that is a multiple of p. */
  lemma CongBy(p: nat, a: int, b: int, k: int)
    requires p > 0 && a - b == k * p
    ensures Cong(p, a, b)
  {
    UniqueRemainder(p, k * p, k, 0);
  }

  /** The way out: the multiple a congruence stands for. */
  lemma CongWitness(p: nat, a: int, b: int) returns (k: int)
    requires p > 0 && Cong(p, a, b)
    ensures a - b == k * p
  {
    k := (a - b) / p;
    assert a - b == p * k + (a - b) % p;
  }

  lemma CongMod(p: nat, a: int)
    requires p > 0
    ensures Cong(p, a % p, a) && Cong(p, a, a % p)
  {
    var q := a / p;
    assert a == p * q + a % p;
    CongBy(p, a, a % p, q);
    CongBy(p, a % p, a, -q);
  }

  lemma CongSym(p: nat, a: int, b: int)
    requires p > 0 && Cong(p, a, b)
    ensures Cong(p, b, a)
  {
    var k := CongWitness(p, a, b);
    CongBy(p, b, a, -k);
  }

  lemma CongTrans(p: nat, a: int, b: int, c: int)
    requires p > 0 && Cong(p, a, b) && Cong(p, b, c)
    ensures Cong(p, a, c)
  {
    var k := CongWitness(p, a, b);
    var l := CongWitness(p, b, c);
    assert (k + l) * p == k * p + l * p;
    CongBy(p, a, c, k + l);
  }

  lemma CongAdd(p: nat, a: int, b: int, c: int, d: int)
    requires p > 0 && Cong(p, a, b) && Cong(p, c, d)
    ensures Cong(p, a + c, b + d) && Cong(p, a - c, b - d)
  {
    var k := CongWitness(p, a, b);
    var l := CongWitness(p, c, d);
    assert (k + l) * p == k * p + l * p;
    assert (k - l) * p == k * p - l * p;
    CongBy(p, a + c, b + d, k + l);
    CongBy(p, a - c, b - d, k - l);
  }

  lemma CongMul(p: nat, a: int, b: int, c: int, d: int)
    requires p > 0 && Cong(p, a, b) && Cong(p, c, d)
    ensures Cong(p, a * c, b * d)
  {
    var k := CongWitness(p, a, b);
    var l := CongWitness(p, c, d);
    calc {
      a * c - b * d;
      (a - b) * c + b * (c - d);
      (k * p) * c + b * (l * p);
      (k * c + b * l) * p;
    }
    CongBy(p, a * c, b * d, k * c + b * l);
  }

  /** Congruent remainders are equal. */
  lemma CongEqual(p: nat, a: int, b: int)
    requires p > 0 && 0 <= a < p && 0 <= b < p && Cong(p, a, b)
    ensures a == b
  {
    CongSym(p, a, b);
    if a >= b {
      UniqueRemainder(p, a - b, 0, a - b);
    } else {
      UniqueRemainder(p, b - a, 0, b - a);
    }
  }

  /** Euclid's lemma below p, by descent on `a`: p % a annihilates b too. */
  lemma RemainderTimes(p: int, a: int, b: int, q: int, r: int, m: int)
    requires p == a * q + r && a * b == m * p
    ensures r * b == (b - q * m) * p
  {
    var aq, qm := a * q, q * m;
    assert (p - aq) * b == p * b - aq * b;
    assert aq * b == q * (a * b);
    assert q * (m * p) == qm * p;
    assert (b - qm) * p == p * b - qm * p;
  }

  lemma {:induction false} NoZeroDivisors(p: nat, a: nat, b: nat)
    requires IsPrime(p) && 0 < a < p && 0 < b < p
    ensures (a * b) % p != 0
    decreases a
  {
    if (a * b) % p == 0 {
      if a == 1 {
        UniqueRemainder(p, b, 0, b);
      } else {
        var q, r := p / a, p % a;
        assert p == a * q + r;
        var m := CongWitness(p, a * b, 0);
        RemainderTimes(p, a, b, q, r, m);
        CongBy(p, r * b, 0, b - q * m);
        NoZeroDivisors(p, r, b);
      }
    }
  }

  lemma ProductZero(p: nat, a: int, b: int)
    requires IsPrime(p) && Cong(p, a * b, 0)
    ensures Cong(p, a, 0) || Cong(p, b, 0)
  {
    if a % p != 0 && b % p != 0 {
      CongMod(p, a);
      CongMod(p, b);
      CongMul(p, a % p, a, b % p, b);
      CongTrans(p, (a % p) * (b % p), a * b, 0);
      NoZeroDivisors(p, a % p, b % p);
      assert false;
    }
  }

  lemma Cancel(p: nat, c: int, a: int, b: int)
    requires IsPrime(p) && !Cong(p, c, 0) && Cong(p, c * a, c * b)
    ensures Cong(p, a, b)
  {
    assert c * a - c * b == c * (a - b);
    ProductZero(p, c, a - b);
  }

  /** A square has no third root: what makes the choice of sign a choice of two. */
  lemma SquareRoots(p: nat, a: int, b: int)
    requires IsPrime(p) && Cong(p, a * a, b * b)
    ensures Cong(p, a, b) || Cong(p, a, -b)
  {
    assert a * a - b * b == (a - b) * (a + b);
    ProductZero(p, a - b, a + b);
  }

  function Pow(x: int, e: nat): int {
    if e == 0 then 1 else x * Pow(x, e - 1)
  }

  lemma {:induction false} PowAdd(x: int, d: nat, e: nat)
    ensures Pow(x, d + e) == Pow(x, d) * Pow(x, e)
    decreases d
  {
    if d > 0 {
      PowAdd(x, d - 1, e);
      assert x * (Pow(x, d - 1) * Pow(x, e)) == x * Pow(x, d - 1) * Pow(x, e);
    }
  }

  lemma {:induction false} PowMulBase(x: int, y: int, e: nat)
    ensures Pow(x * y, e) == Pow(x, e) * Pow(y, e)
  {
    if e > 0 {
      PowMulBase(x, y, e - 1);
      Interleave(x, y, Pow(x, e - 1), Pow(y, e - 1));
    }
  }

  lemma Interleave(x: int, y: int, u: int, v: int)
    ensures (x * y) * (u * v) == (x * u) * (y * v)
  {
    assert (x * y) * (u * v) == x * (y * (u * v));
    assert y * (u * v) == u * (y * v);
    assert x * (u * (y * v)) == (x * u) * (y * v);
  }

  lemma {:induction false} PowCong(p: nat, x: int, y: int, e: nat)
    requires p > 0 && Cong(p, x, y)
    ensures Cong(p, Pow(x, e), Pow(y, e))
  {
    if e > 0 {
      PowCong(p, x, y, e - 1);
      CongMul(p, x, y, Pow(x, e - 1), Pow(y, e - 1));
    }
  }

  lemma {:induction false} PowOne(e: nat)
    ensures Pow(1, e) == 1
  {
    if e > 0 { PowOne(e - 1); }
  }
}
