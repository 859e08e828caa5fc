/** Two theorems on a prime p that the point codec's square root stands on:
    x^(p-1) = 1 for x not 0, and 2^((p-1)/2) = -1 when p is 5 modulo 8. */
module Fermat {
  import opened Modular

  ghost function Pick<T>(s: set<T>): (x: T)
    requires s != {}
    ensures x in s
  {
    var x :| x in s; x
  }

  ghost function Product(s: set<int>): int {
    if s == {} then 1 else Pick(s) * Product(s - {Pick(s)})
  }

  /** The product does not depend on which element is taken out first. */
  lemma {:induction false} ProductTake(s: set<int>, x: int)
    requires x in s
    ensures Product(s) == x * Product(s - {x})
    decreases |s|
  {
    var y := Pick(s);
    if y != x {
      ProductTake(s - {y}, x);
      ProductTake(s - {x}, y);
      assert s - {y} - {x} == s - {x} - {y};
      Swap(y, x, Product(s - {x} - {y}));
    }
  }

  lemma Swap(a: int, b: int, c: int)
    ensures a * (b * c) == b * (a * c)
  {
    assert a * (b * c) == (a * b) * c == (b * a) * c == b * (a * c);
  }

  ghost function Units(p: nat): (s: set<int>)
    ensures forall x :: x in s <==> 1 <= x < p
  {
    if p <= 1 then {} else Units(p - 1) + {p - 1}
  }

  lemma {:induction false} UnitsCount(p: nat)
    ensures |Units(p)| == if p == 0 then 0 else p - 1
  {
    if p > 1 { UnitsCount(p - 1); }
  }

  ghost function Scaled(p: nat, a: int, s: set<int>): set<int>
    requires p > 0
  {
    set x | x in s :: (a * x) % p
  }

  lemma ScaleInjective(p: nat, a: int, x: int, y: int)
    requires IsPrime(p) && !Cong(p, a, 0) && x in Units(p) && y in Units(p)
    requires (a * x) % p == (a * y) % p
    ensures x == y
  {
    CongMod(p, a * x);
    CongMod(p, a * y);
    CongTrans(p, a * x, (a * x) % p, a * y);
    Cancel(p, a, x, y);
    CongEqual(p, x, y);
  }

  lemma ScaledInUnits(p: nat, a: int, x: int)
    requires IsPrime(p) && !Cong(p, a, 0) && x in Units(p)
    ensures (a * x) % p in Units(p)
  {
    if (a * x) % p == 0 {
      ProductZero(p, a, x);
      CongEqual(p, x, 0);
    }
  }

  lemma ScaledTake(p: nat, a: int, s: set<int>, x: int)
    requires IsPrime(p) && !Cong(p, a, 0) && x in s && s <= Units(p)
    ensures var y := (a * x) % p;
            y in Scaled(p, a, s) && Scaled(p, a, s) - {y} == Scaled(p, a, s - {x})
  {
    var y := (a * x) % p;
    forall z | z in s - {x} ensures (a * z) % p != y {
      if (a * z) % p == y { ScaleInjective(p, a, z, x); }
    }
    assert s == (s - {x}) + {x};
  }

  /** Scaling a set of units keeps its size. */
  lemma {:induction false} ScaledSize(p: nat, a: int, s: set<int>)
    requires IsPrime(p) && !Cong(p, a, 0) && s <= Units(p)
    ensures |Scaled(p, a, s)| == |s|
    decreases |s|
  {
    if s == {} {
      assert Scaled(p, a, s) == {};
    } else {
      var x := Pick(s);
      hide Cong, IsPrime, Units, Scaled;
      ScaledSize(p, a, s - {x});
      ScaledTake(p, a, s, x);
    }
  }

  lemma PowNext(a: int, n: nat)
    ensures Pow(a, n + 1) == a * Pow(a, n)
  {}

  lemma ScaledEmpty(p: nat, a: int)
    requires p > 0
    ensures Cong(p, Product(Scaled(p, a, {})), Pow(a, 0) * Product({}))
  {
    assert Scaled(p, a, {}) == {};
    CongBy(p, 1, 1, 0);
  }

  /** It multiplies its product by a power of a. */
  lemma {:induction false} ScaledProduct(p: nat, a: int, s: set<int>)
    requires IsPrime(p) && !Cong(p, a, 0) && s <= Units(p)
    ensures Cong(p, Product(Scaled(p, a, s)), Pow(a, |s|) * Product(s))
    decreases |s|
  {
    if s == {} {
      ScaledEmpty(p, a);
    } else {
      var x := Pick(s);
      var t := s - {x};
      hide *;
      ScaledProduct(p, a, t);
      ScaledTake(p, a, s, x);
      ProductTake(Scaled(p, a, s), (a * x) % p);
      ProductTake(s, x);
      PowNext(a, |t|);
      ScaledStep(p, a, x, Product(Scaled(p, a, t)), Pow(a, |t|), Product(t));
    }
  }

  lemma ScaledStep(p: nat, a: int, x: int, prod: int, pow: int, rest: int)
    requires p > 0 && Cong(p, prod, pow * rest)
    ensures Cong(p, ((a * x) % p) * prod, (a * pow) * (x * rest))
  {
    hide *;
    CongMod(p, a * x);
    CongMul(p, (a * x) % p, a * x, prod, pow * rest);
    Interleave(a, x, pow, rest);
  }

  lemma {:induction false} UnitProductNonzero(p: nat, s: set<int>)
    requires IsPrime(p) && s <= Units(p)
    ensures !Cong(p, Product(s), 0)
    decreases |s|
  {
    if s == {} {
      if Cong(p, 1, 0) { CongEqual(p, 1, 0); }
    } else {
      var x := Pick(s);
      ProductTake(s, x);
      UnitProductNonzero(p, s - {x});
      if Cong(p, Product(s), 0) {
        ProductZero(p, x, Product(s - {x}));
        CongEqual(p, x, 0);
      }
    }
  }

  /** Fermat's little theorem. */
  lemma FermatLittle(p: nat, a: int)
    requires IsPrime(p) && !Cong(p, a, 0)
    ensures Cong(p, Pow(a, p - 1), 1)
  {
    hide *;
    var u := Units(p);
    var z := Product(u);
    assert p >= 2 by { PrimeAtLeastTwo(p); }
    UnitsCount(p);
    ScaledProduct(p, a, u);
    ScalePermutes(p, a);
    UnitProductNonzero(p, u);
    CancelOne(p, z, Pow(a, p - 1));
  }

  lemma PrimeAtLeastTwo(p: nat)
    requires IsPrime(p)
    ensures p >= 2
  {}

  lemma CancelOne(p: nat, c: int, a: int)
    requires IsPrime(p) && !Cong(p, c, 0) && Cong(p, c, a * c)
    ensures Cong(p, a, 1)
  {
    assert c == c * 1 && a * c == c * a;
    Cancel(p, c, 1, a);
    CongSym(p, 1, a);
  }

  /** Scaling by a permutes the units. */
  lemma ScalePermutes(p: nat, a: int)
    requires IsPrime(p) && !Cong(p, a, 0)
    ensures Scaled(p, a, Units(p)) == Units(p)
  {
    var u := Units(p);
    ScaledSize(p, a, u);
    ScaledWithin(p, a, u);
    hide *;
    SameSizeSubset(Scaled(p, a, u), u);
  }

  lemma ScaledWithin(p: nat, a: int, s: set<int>)
    requires IsPrime(p) && !Cong(p, a, 0) && s <= Units(p)
    ensures Scaled(p, a, s) <= Units(p)
  {
    hide Cong, IsPrime, Units;
    forall x | x in s ensures (a * x) % p in Units(p) { ScaledInUnits(p, a, x); }
  }

  lemma SameSizeSubset(s: set<int>, t: set<int>)
    requires s <= t && |s| == |t|
    ensures s == t
  {
    assert |t - s| == |t| - |s|;
  }

  /** The inverse `pow(x, p - 2, p)` is one. */
  lemma InverseByPower(p: nat, x: int)
    requires IsPrime(p) && !Cong(p, x, 0)
    ensures Cong(p, x * (Pow(x, p - 2) % p), 1)
  {
    FermatLittle(p, x);
    assert Pow(x, p - 1) == x * Pow(x, p - 2);
    CongMod(p, Pow(x, p - 2));
    CongMul(p, x, x, Pow(x, p - 2) % p, Pow(x, p - 2));
    CongTrans(p, x * (Pow(x, p - 2) % p), Pow(x, p - 1), 1);
  }

  // 2^((p-1)/2): the even numbers below p are 2^h h!, and those above h are
  // minus the odd numbers below it.

  ghost function Evens(m: nat): int { if m == 0 then 1 else 2 * m * Evens(m - 1) }
  ghost function Odds(m: nat): int { if m == 0 then 1 else (2 * m - 1) * Odds(m - 1) }
  ghost function Factorial(m: nat): int { if m == 0 then 1 else m * Factorial(m - 1) }
  ghost function Mirrored(p: nat, m: nat): int { if m == 0 then 1 else (p - (2 * m - 1)) * Mirrored(p, m - 1) }

  ghost function Alternating(m: nat): int { if m % 2 == 0 then 1 else -1 }

  lemma {:induction false} EvensAreScaledFactorial(m: nat)
    ensures Evens(m) == Pow(2, m) * Factorial(m)
  {
    if m > 0 {
      EvensAreScaledFactorial(m - 1);
      Interleave(2, m, Pow(2, m - 1), Factorial(m - 1));
    }
  }

  lemma FactorialTwo(m: nat)
    requires m > 0
    ensures Factorial(2 * m) == (2 * m) * ((2 * m - 1) * Factorial(2 * (m - 1)))
  {
    assert Factorial(2 * m - 1) == (2 * m - 1) * Factorial(2 * (m - 1));
  }

  lemma PairStep(m: nat)
    requires m > 0
    ensures Evens(m) == (2 * m) * Evens(m - 1) && Odds(m) == (2 * m - 1) * Odds(m - 1)
  {}

  lemma {:induction false} FactorialSplits(m: nat)
    ensures Factorial(2 * m) == Evens(m) * Odds(m)
  {
    if m > 0 {
      FactorialSplits(m - 1);
      FactorialTwo(m);
      PairStep(m);
      hide *;
      PairTimes(2 * m, 2 * m - 1, Evens(m - 1), Odds(m - 1), Factorial(2 * (m - 1)));
    }
  }

  lemma PairTimes(x: int, y: int, e: int, o: int, f: int)
    requires f == e * o
    ensures x * (y * f) == (x * e) * (y * o)
  {
    Interleave(x, y, e, o);
    assert x * (y * f) == (x * y) * f;
  }

  lemma {:induction false} TopEvensMirror(p: nat, h: nat, t: nat)
    requires p == 2 * h + 1 && t <= h
    ensures Evens(h) == Evens(h - t) * Mirrored(p, t)
  {
    if t > 0 {
      hide Evens, Mirrored;
      var n := h - t + 1;
      TopEvensMirror(p, h, t - 1);
      PairStep(n);
      MirroredStep(p, t);
      hide *;
      Shift(2 * n, Evens(n - 1), Mirrored(p, t - 1));
    } else {
      assert Mirrored(p, 0) == 1;
    }
  }

  lemma MirroredStep(p: nat, t: nat)
    requires t > 0
    ensures Mirrored(p, t) == (p - (2 * t - 1)) * Mirrored(p, t - 1)
  {}

  lemma Shift(x: int, e: int, f: int)
    ensures (x * e) * f == e * (x * f)
  {
    assert x * e == e * x;
  }

  lemma SignStep(m: nat)
    requires m > 0
    ensures Alternating(m) == -1 * Alternating(m - 1)
  {}

  lemma {:induction false} MirrorIsNegatedOdds(p: nat, m: nat)
    requires p > 0
    ensures Cong(p, Mirrored(p, m), Alternating(m) * Odds(m))
  {
    if m == 0 {
      CongBy(p, 1, 1, 0);
    } else {
      hide *;
      MirrorIsNegatedOdds(p, m - 1);
      PairStep(m);
      MirroredStep(p, m);
      SignStep(m);
      NegatedStep(p, 2 * m - 1, Alternating(m - 1), Odds(m - 1), Mirrored(p, m - 1));
    }
  }

  lemma NegatedStep(p: nat, o: int, sign: int, odds: int, mirrored: int)
    requires p > 0 && Cong(p, mirrored, sign * odds)
    ensures Cong(p, (p - o) * mirrored, (-1 * sign) * (o * odds))
  {
    hide *;
    CongBy(p, p - o, -1 * o, 1);
    CongMul(p, p - o, -1 * o, mirrored, sign * odds);
    Interleave(-1, o, sign, odds);
  }

  lemma {:induction false} FactorialNonzero(p: nat, m: nat)
    requires IsPrime(p) && m < p
    ensures !Cong(p, Factorial(m), 0)
  {
    if m == 0 {
      if Cong(p, 1, 0) { CongEqual(p, 1, 0); }
    } else {
      FactorialNonzero(p, m - 1);
      if Cong(p, Factorial(m), 0) {
        ProductZero(p, m, Factorial(m - 1));
        CongEqual(p, m, 0);
      }
    }
  }

  /** 2 has no square root modulo a prime that is 5 modulo 8. */
  lemma TwoIsNonResidue(p: nat)
    requires IsPrime(p) && p % 8 == 5
    ensures Cong(p, Pow(2, (p - 1) / 2), -1)
  {
    var h := (p - 1) / 2;
    var m := h / 2;
    assert p == 2 * h + 1 && h == 2 * m && m % 2 == 1 && Alternating(m) == -1;
    hide *;
    EvensAreScaledFactorial(h);
    TopEvensMirror(p, h, m);
    MirrorIsNegatedOdds(p, m);
    FactorialSplits(m);
    CongBy(p, Evens(m), Evens(m), 0);
    CongMul(p, Evens(m), Evens(m), Mirrored(p, m), -1 * Odds(m));
    FactorialNonzero(p, h);
    Negate(Evens(m), Odds(m));
    Commute(Pow(2, h), Factorial(h));
    Cancel(p, Factorial(h), Pow(2, h), -1);
  }

  lemma Negate(a: int, b: int)
    ensures a * (-1 * b) == (a * b) * -1
  {}

  lemma Commute(a: int, b: int)
    ensures a * b == b * a
  {}
}
