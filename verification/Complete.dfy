/** D is no square, so the addition formula has no exceptions: no denominator of
    it vanishes on the curve, the curve is closed under it, and every point that
    decodes is on the curve. That D is none is read off a root of 2 D, since 2 is none. */
module Complete {
  import opened Bytes
  import opened Modular
  import opened Fermat
  import opened SquareRoot
  import opened Ed25519
  import opened PointCodec

  /** A field in which twice d is a square. */
  ghost predicate Whole(c: Curve) {
    Field(c) && !Cong(c.p, c.d, 0) && exists s :: RootOfTwice(c, s)
  }

  ghost predicate RootOfTwice(c: Curve, s: int) { Cong(c.p, s * s, 2 * c.d) }

  lemma CongRefl(p: nat, a: int)
    requires p > 0
    ensures Cong(p, a, a)
  {
    CongBy(p, a, a, 0);
  }

  // Twice a square is a square only of 0.

  lemma HalfOfSquare(p: nat, x: int)
    requires IsPrime(p) && p % 8 == 5 && !Cong(p, x, 0)
    ensures Cong(p, Pow(x * x, (p - 1) / 2), 1)
  {
    hide *;
    Quarter(p);
    var h := (p - 1) / 2;
    PowMulBase(x, x, h);
    PowAdd(x, h, h);
    FermatLittle(p, x);
  }

  lemma TwoNotZero(p: nat)
    requires p % 8 == 5
    ensures !Cong(p, 2, 0) && !Cong(p, 1, -1)
  {
    assert p >= 5;
    hide *;
    if Cong(p, 2, 0) { CongEqual(p, 2, 0); }
    if Cong(p, 1, -1) {
      CongRefl(p, 1);
      CongAdd(p, 1, -1, 1, 1);
      CongEqual(p, 2, 0);
    }
  }

  lemma TwiceASquare(p: nat, a: int, z: int)
    requires IsPrime(p) && p % 8 == 5 && Cong(p, a * a, 2 * (z * z))
    ensures Cong(p, z, 0)
  {
    hide *;
    var h := (p - 1) / 2;
    TwoNotZero(p);
    if !Cong(p, z, 0) {
      if Cong(p, a, 0) {
        CongMul(p, a, 0, a, 0);
        CongSym(p, a * a, 2 * (z * z));
        CongTrans(p, 2 * (z * z), a * a, 0 * 0);
        ProductZero(p, 2, z * z);
        ProductZero(p, z, z);
      }
      HalfOfSquare(p, a);
      HalfOfSquare(p, z);
      PowCong(p, a * a, 2 * (z * z), h);
      PowMulBase(2, z * z, h);
      TwoIsNonResidue(p);
      CongMul(p, Pow(2, h), -1, Pow(z * z, h), 1);
      CongSym(p, Pow(a * a, h), 1);
      CongTrans(p, 1, Pow(a * a, h), Pow(2 * (z * z), h));
      CongTrans(p, 1, Pow(2 * (z * z), h), -1 * 1);
    }
  }

  /** No square is d times a square, but 0. */
  lemma NoSquareMultiple(p: nat, d: int, s: int, w: int, z: int)
    requires IsPrime(p) && p % 8 == 5 && Cong(p, s * s, 2 * d) && !Cong(p, d, 0) && Cong(p, z * z, d * (w * w))
    ensures Cong(p, w, 0)
  {
    hide *;
    Interleave(s, w, s, w);
    CongRefl(p, w * w);
    CongMul(p, s * s, 2 * d, w * w, w * w);
    assert 2 * d * (w * w) == 2 * (d * (w * w));
    CongSym(p, z * z, d * (w * w));
    CongRefl(p, 2);
    CongMul(p, 2, 2, d * (w * w), z * z);
    CongTrans(p, (s * w) * (s * w), 2 * (d * (w * w)), 2 * (z * z));
    TwiceASquare(p, s * w, z);
    CongMul(p, z, 0, z, 0);
    CongTrans(p, d * (w * w), z * z, 0 * 0);
    ProductZero(p, d, w * w);
    ProductZero(p, w, w);
  }

  // What decodes is a point.

  lemma NoPole(p: nat, d: int, s: int, y: int)
    requires IsPrime(p) && p % 8 == 5 && Cong(p, s * s, 2 * d) && !Cong(p, d, 0)
    ensures !Cong(p, d * (y * y) + 1, 0)
  {
    hide *;
    if Cong(p, d * (y * y) + 1, 0) {
      RootOfMinusOne(p);
      var i := Pow(2, (p - 1) / 4);
      CongRefl(p, 1);
      CongAdd(p, d * (y * y) + 1, 0, 1, 1);
      CongSym(p, d * (y * y), -1);
      CongTrans(p, i * i, -1, d * (y * y));
      NoSquareMultiple(p, d, s, y, i);
      CongMul(p, y, 0, y, 0);
      CongScale(p, d, y * y);
      CongAdd(p, d * (y * y) + 1, 0, d * (y * y), 0);
      TwoNotZero(p);
      CongScale(p, 2, 1);
    }
  }

  /** Every 32 bytes that decode are a point of the curve. */
  lemma DecodedIsPoint(c: Curve, b: seq<byte>)
    requires Whole(c) && PointDecode(c, b).Some?
    ensures OnCurve(c, PointDecode(c, b).value)
  {
    var s :| RootOfTwice(c, s);
    hide Cong, IsPrime, Inv, Pow256, RecoverX, FromLE, OnCurve, PointDecode;
    DecodedOnCurve(c, b);
    NoPole(c.p, c.d, s, PointDecode(c, b).value.y);
  }

  // No denominator vanishes: with i a root of -1, a product d x1 x2 y1 y2 of 1 or -1
  // would make i x1 + y1 or i x1 - y1, up to sign, a root of d times a square.

  lemma Expand(i: int, x: int, t: int, y: int)
    ensures (i * x + t * y) * (i * x + t * y) == (i * i) * (x * x) + 2 * ((i * t) * (x * y)) + (t * t) * (y * y)
  {
    var a, b := i * x, t * y;
    assert (a + b) * (a + b) == a * a + 2 * (a * b) + b * b;
    Interleave(i, x, i, x);
    Interleave(i, x, t, y);
    Interleave(t, y, t, y);
  }

  lemma Once(one: int, a: int)
    requires one == 1
    ensures one * a == a
  {}

  lemma ConjugateSum(p: nat, ii: int, xx: int, yy: int, m: int, n: int)
    requires p > 0 && Cong(p, ii, -1) && Cong(p, yy - xx, n)
    ensures Cong(p, ii * xx + m + yy, n + m)
  {
    hide *;
    CongRefl(p, xx);
    CongMul(p, ii, -1, xx, xx);
    CongRefl(p, m + yy);
    CongAdd(p, ii * xx, -1 * xx, m + yy, m + yy);
    CongRefl(p, m);
    CongAdd(p, yy - xx, n, m, m);
    CongTrans(p, ii * xx + (m + yy), -1 * xx + (m + yy), n + m);
  }

  /** The square of i x + t y, on a point where y y - x x is n. */
  lemma Conjugate(p: nat, i: int, x: int, t: int, y: int, n: int)
    requires p > 0 && Cong(p, i * i, -1) && t * t == 1 && Cong(p, y * y - x * x, n)
    ensures Cong(p, (i * x + t * y) * (i * x + t * y), n + 2 * ((i * t) * (x * y)))
  {
    hide *;
    Expand(i, x, t, y);
    Once(t * t, y * y);
    ConjugateSum(p, i * i, x * x, y * y, 2 * ((i * t) * (x * y)), n);
  }

  /** With a = d m m, b = d n n and k = d m n: a n = k m, and a b = k k. */
  lemma Products(d: int, m: int, n: int)
    ensures var a, b, k := d * (m * m), d * (n * n), d * (m * n);
            a * n == k * m && a * b == k * k
  {
    assert (m * m) * n == (m * n) * m;
    assert d * (m * m) * n == d * ((m * m) * n);
    assert d * (m * n) * m == d * ((m * n) * m);
    Interleave(d, m * m, d, n * n);
    Interleave(d, m * n, d, m * n);
    Interleave(m, m, n, n);
  }

  lemma MultipleSum(p: nat, avv: int, a: int, kk: int, ckm: int, r: int, zz: int)
    requires p > 0 && Cong(p, avv, a + kk + 2 * ckm) && Cong(p, kk, 1) && Cong(p, ckm, r) && Cong(p, zz, 1 + a + 2 * r)
    ensures Cong(p, zz, avv)
  {
    hide *;
    CongRefl(p, a);
    CongAdd(p, a, a, kk, 1);
    CongAdd(p, ckm, r, ckm, r);
    CongAdd(p, a + kk, a + 1, ckm + ckm, r + r);
    CongTrans(p, avv, a + kk + 2 * ckm, 1 + a + 2 * r);
    CongSym(p, avv, 1 + a + 2 * r);
    CongTrans(p, zz, 1 + a + 2 * r, avv);
  }

  /** If k is e, 1 or -1, then i x1 + t e y1 squared is d times m (i x2 + t y2) squared. */
  lemma Multiple(p: nat, d: int, m: int, n: int, c: int, zz: int, v: int, e: int)
    requires p > 0 && (e == 1 || e == -1) && Cong(p, d * (m * n), e)
    requires Cong(p, zz, 1 + d * (m * m) + 2 * ((c * e) * m))
    requires Cong(p, v * v, 1 + d * (n * n) + 2 * (c * n))
    ensures Cong(p, zz, d * ((m * v) * (m * v)))
  {
    assert e * e == 1;
    Products(d, m, n);
    Interleave(m, v, m, v);
    assert d * ((m * m) * (v * v)) == d * (m * m) * (v * v);
    hide *;
    var a, b, k := d * (m * m), d * (n * n), d * (m * n);
    CongRefl(p, a);
    CongMul(p, a, a, v * v, 1 + b + 2 * (c * n));
    Spread(a, b, c, n);
    CongMul(p, k, e, k, e);
    CongRefl(p, c * m);
    CongMul(p, k, e, c * m, c * m);
    Third(k, c, m);
    Third(e, c, m);
    MultipleSum(p, a * (v * v), a, k * k, c * (k * m), (c * e) * m, zz);
  }

  lemma Third(k: int, c: int, m: int)
    ensures k * (c * m) == c * (k * m) == (c * k) * m
  {}

  lemma Spread(a: int, b: int, c: int, n: int)
    ensures a * (1 + b + 2 * (c * n)) == a + a * b + 2 * (c * (a * n))
  {
    assert a * (c * n) == c * (a * n);
    assert a * (1 + b + 2 * (c * n)) == a + a * b + 2 * (a * (c * n));
  }

  /** A point's y y - x x, with m = x y. */
  lemma CurveForm(p: nat, d: int, x: int, y: int)
    requires p > 0 && Cong(p, y * y - x * x, 1 + d * (x * x) * (y * y))
    ensures Cong(p, y * y - x * x, 1 + d * ((x * y) * (x * y)))
  {
    Interleave(x, y, x, y);
    assert d * (x * x) * (y * y) == d * ((x * x) * (y * y));
  }

  /** One of the two conjugates: m (i x2 + t y2) is 0. */
  lemma ConjugateZero(p: nat, d: int, s: int, i: int, x1: int, y1: int, x2: int, y2: int, e: int, t: int)
    requires IsPrime(p) && p % 8 == 5 && Cong(p, s * s, 2 * d) && !Cong(p, d, 0) && Cong(p, i * i, -1)
    requires Cong(p, y1 * y1 - x1 * x1, 1 + d * ((x1 * y1) * (x1 * y1)))
    requires Cong(p, y2 * y2 - x2 * x2, 1 + d * ((x2 * y2) * (x2 * y2)))
    requires (e == 1 || e == -1) && (t == 1 || t == -1) && Cong(p, d * ((x1 * y1) * (x2 * y2)), e)
    ensures Cong(p, (x1 * y1) * (i * x2 + t * y2), 0)
  {
    assert t * t == 1 && (t * e) * (t * e) == 1;
    assert i * (t * e) == (i * t) * e;
    hide *;
    var m, n, z, v := x1 * y1, x2 * y2, i * x1 + (t * e) * y1, i * x2 + t * y2;
    Conjugate(p, i, x1, t * e, y1, 1 + d * (m * m));
    Conjugate(p, i, x2, t, y2, 1 + d * (n * n));
    Multiple(p, d, m, n, i * t, z * z, v, e);
    NoSquareMultiple(p, d, s, m * v, z);
  }

  /** The product in the denominators is neither 1 nor -1. */
  lemma NotOne(p: nat, d: int, s: int, x1: int, y1: int, x2: int, y2: int, e: int)
    requires IsPrime(p) && p % 8 == 5 && Cong(p, s * s, 2 * d) && !Cong(p, d, 0) && (e == 1 || e == -1)
    requires Cong(p, y1 * y1 - x1 * x1, 1 + d * ((x1 * y1) * (x1 * y1)))
    requires Cong(p, y2 * y2 - x2 * x2, 1 + d * ((x2 * y2) * (x2 * y2)))
    ensures !Cong(p, d * ((x1 * y1) * (x2 * y2)), e)
  {
    hide *;
    var m, n := x1 * y1, x2 * y2;
    if Cong(p, d * (m * n), e) {
      RootOfMinusOne(p);
      var i := Pow(2, (p - 1) / 4);
      UnitNotZero(p, d * (m * n), e);
      ConjugateZero(p, d, s, i, x1, y1, x2, y2, e, 1);
      ConjugateZero(p, d, s, i, x1, y1, x2, y2, e, -1);
      ProductZero(p, m, i * x2 + 1 * y2);
      ProductZero(p, m, i * x2 + -1 * y2);
      if Cong(p, m, 0) {
        VanishLeft(p, d, m, n);
      } else {
        CongAdd(p, i * x2 + 1 * y2, 0, i * x2 + -1 * y2, 0);
        assert (i * x2 + 1 * y2) - (i * x2 + -1 * y2) == 2 * y2;
        ProductZero(p, 2, y2);
        TwoNotZero(p);
        CongScale(p, x2, y2);
        VanishRight(p, d, m, n);
      }
    }
  }

  lemma UnitNotZero(p: nat, k: int, e: int)
    requires p % 8 == 5 && Cong(p, k, e) && (e == 1 || e == -1)
    ensures !Cong(p, k, 0)
  {
    TwoNotZero(p);
    assert 2 * e * e == 2;
    hide *;
    if Cong(p, k, 0) {
      CongSym(p, k, e);
      CongTrans(p, e, k, 0);
      CongScale(p, 2 * e, e);
    }
  }

  lemma VanishLeft(p: nat, d: int, m: int, n: int)
    requires p > 0 && Cong(p, m, 0)
    ensures Cong(p, d * (m * n), 0)
  {
    hide *;
    CongScale(p, n, m);
    assert n * m == m * n;
    CongScale(p, d, m * n);
  }

  lemma VanishRight(p: nat, d: int, m: int, n: int)
    requires p > 0 && Cong(p, n, 0)
    ensures Cong(p, d * (m * n), 0)
  {
    hide *;
    CongScale(p, m, n);
    CongScale(p, d, m * n);
  }

  // The curve is closed. With m = x1 y1, n = x2 y2, the numerators X and Y of the sum,
  // g = 1 + k and h = 1 - k:  Y Y g g - X X h h = g g h h + d X X Y Y.

  lemma SquareOf(a: int, b: int)
    ensures (a + b) * (a + b) == a * a + 2 * (a * b) + b * b
  {}

  /** The numerators' squares, from the four products they are sums of. */
  lemma NumeratorSquares(a: int, b: int, e: int, f: int, mn: int, s1: int, r1: int, s2: int, r2: int)
    requires a * a == s1 * r2 && b * b == s2 * r1 && e * e == r1 * r2 && f * f == s1 * s2 && a * b == mn && e * f == mn
    ensures (e + f) * (e + f) - (a + b) * (a + b) == (r1 - s1) * (r2 - s2)
    ensures (a + b) * (a + b) + (e + f) * (e + f) == (s1 + r1) * (s2 + r2) + 4 * mn
  {
    SquareOf(a, b);
    SquareOf(e, f);
    assert (r1 - s1) * (r2 - s2) == r1 * r2 - r1 * s2 - s1 * r2 + s1 * s2;
    assert (s1 + r1) * (s2 + r2) == s1 * s2 + s1 * r2 + r1 * s2 + r1 * r2;
  }

  lemma NumeratorProduct(a: int, b: int, e: int, f: int, m: int, n: int, s1: int, r1: int, s2: int, r2: int)
    requires a * e == m * r2 && a * f == n * s1 && b * e == n * r1 && b * f == m * s2
    ensures (a + b) * (e + f) == m * (s2 + r2) + n * (s1 + r1)
  {
    assert (a + b) * (e + f) == a * e + a * f + b * e + b * f;
    assert m * (s2 + r2) == m * s2 + m * r2 && n * (s1 + r1) == n * s1 + n * r1;
  }

  lemma Numerators(x1: int, y1: int, x2: int, y2: int)
    ensures var x, y := x1 * y2 + x2 * y1, y1 * y2 + x1 * x2;
            && y * y - x * x == (y1 * y1 - x1 * x1) * (y2 * y2 - x2 * x2)
            && x * x + y * y == (x1 * x1 + y1 * y1) * (x2 * x2 + y2 * y2) + 4 * ((x1 * y1) * (x2 * y2))
            && x * y == (x1 * y1) * (x2 * x2 + y2 * y2) + (x2 * y2) * (x1 * x1 + y1 * y1)
  {
    var m, n := x1 * y1, x2 * y2;
    Interleave(x1, y2, x1, y2);
    Interleave(x2, y1, x2, y1);
    Interleave(y1, y2, y1, y2);
    Interleave(x1, x2, x1, x2);
    Four(x1, y2, x2, y1);
    Four(y1, y2, x1, x2);
    hide *;
    NumeratorSquares(x1 * y2, x2 * y1, y1 * y2, x1 * x2, m * n, x1 * x1, y1 * y1, x2 * x2, y2 * y2);
    Interleave(x1, y2, y1, y2);
    Interleave(x1, y2, x1, x2);
    Interleave(x2, y1, y2, y1);
    assert y2 * x2 == n && y2 * y1 == y1 * y2;
    Interleave(x2, y1, x2, x1);
    assert y1 * x1 == m && x2 * x1 == x1 * x2;
    assert (x1 * x1) * n == n * (x1 * x1) && (x2 * x2) * m == m * (x2 * x2);
    NumeratorProduct(x1 * y2, x2 * y1, y1 * y2, x1 * x2, m, n, x1 * x1, y1 * y1, x2 * x2, y2 * y2);
  }

  /** Both products of the cross terms are (x1 y1) (x2 y2). */
  lemma Four(a: int, b: int, c: int, d: int)
    ensures (a * b) * (c * d) == (a * d) * (c * b) == (c * a) * (d * b)
  {
    Interleave(a, b, c, d);
    assert (a * b) * (c * d) == (a * b) * (d * c);
    Interleave(a, b, d, c);
    assert (a * d) * (b * c) == (a * d) * (c * b);
    assert (a * c) * (b * d) == (c * a) * (d * b);
  }

  lemma Spread2(xx: int, yy: int, k: int, kk: int)
    ensures yy * (1 + 2 * k + kk) - xx * (1 - 2 * k + kk) == (yy - xx) * (1 + kk) + 2 * (k * (xx + yy))
  {
    assert yy * (1 + 2 * k + kk) == yy + 2 * (k * yy) + kk * yy;
    assert xx * (1 - 2 * k + kk) == xx - 2 * (k * xx) + kk * xx;
    assert (yy - xx) * (1 + kk) == yy - xx + kk * yy - kk * xx;
    assert k * (xx + yy) == k * xx + k * yy;
  }

  /** d (m v + n u)^2, with a = d m m, b = d n n and k = d m n. */
  lemma Spread3(d: int, m: int, n: int, u: int, v: int)
    ensures d * ((m * v + n * u) * (m * v + n * u))
         == d * (m * m) * (v * v) + 2 * (d * (m * n) * (u * v)) + d * (n * n) * (u * u)
  {
    SquareOf(m * v, n * u);
    Interleave(m, v, m, v);
    Interleave(n, u, n, u);
    Interleave(m, v, n, u);
    hide *;
    assert (m * n) * (v * u) == (m * n) * (u * v);
    var a, b, c := (m * m) * (v * v), (m * n) * (u * v), (n * n) * (u * u);
    assert d * (a + 2 * b + c) == d * a + 2 * (d * b) + d * c;
    assert d * ((m * m) * (v * v)) == d * (m * m) * (v * v);
    assert d * ((m * n) * (u * v)) == d * (m * n) * (u * v);
    assert d * ((n * n) * (u * u)) == d * (n * n) * (u * u);
  }

  /** (s + r)^2 = (r - s)^2 + 4 s r. */
  lemma SumAndDifference(s: int, r: int, mm: int)
    requires s * r == mm
    ensures (s + r) * (s + r) == (r - s) * (r - s) + 4 * mm
  {
    SquareOf(s, r);
    SquareOf(r, -s);
    assert r * -s == -(s * r) && -s * -s == s * s;
  }

  lemma Gather(a: int, b: int, kmn: int, mm: int, nn: int, w1: int, w2: int, v1: int, v2: int)
    requires v2 == w2 + 4 * nn && v1 == w1 + 4 * mm && a * nn == kmn && b * mm == kmn
    ensures a * v2 + b * v1 == a * w2 + b * w1 + 8 * kmn
  {
    assert a * (w2 + 4 * nn) == a * w2 + 4 * (a * nn);
    assert b * (w1 + 4 * mm) == b * w1 + 4 * (b * mm);
  }

  /** d m m n n, each way. */
  lemma Shared(d: int, m: int, n: int)
    ensures d * (m * m) * (n * n) == d * (m * n) * (m * n) && d * (n * n) * (m * m) == d * (m * n) * (m * n)
  {
    Interleave(m, m, n, n);
    assert d * (m * m) * (n * n) == d * ((m * m) * (n * n));
    assert d * (n * n) * (m * m) == d * ((m * m) * (n * n));
    assert d * (m * n) * (m * n) == d * ((m * n) * (m * n));
  }

  lemma Assemble(lhs: int, dxxyy: int, n12: int, kk: int, k: int, ss: int, uv: int, mn: int, av: int, bv: int,
                 aw: int, bw: int)
    requires lhs == n12 * (1 + kk) + 2 * (k * ss) && ss == uv + 4 * mn
    requires dxxyy == av + 2 * (k * uv) + bv && av + bv == aw + bw + 8 * (k * mn)
    ensures lhs - dxxyy == n12 * (1 + kk) - aw - bw
  {
    assert k * (uv + 4 * mn) == k * uv + 4 * (k * mn);
  }

  /** The two sides' difference, in the points' own differences of squares. */
  lemma Difference(d: int, x1: int, y1: int, x2: int, y2: int)
    ensures var x, y, k := x1 * y2 + x2 * y1, y1 * y2 + x1 * x2, d * ((x1 * y1) * (x2 * y2));
            var n1, n2 := y1 * y1 - x1 * x1, y2 * y2 - x2 * x2;
            (y * y) * (1 + 2 * k + k * k) - (x * x) * (1 - 2 * k + k * k) - d * ((x * x) * (y * y))
            == n1 * n2 * (1 + k * k) - d * ((x1 * y1) * (x1 * y1)) * (n2 * n2) - d * ((x2 * y2) * (x2 * y2)) * (n1 * n1)
  {
    hide *;
    var x, y, m, n := x1 * y2 + x2 * y1, y1 * y2 + x1 * x2, x1 * y1, x2 * y2;
    var k, a, b := d * (m * n), d * (m * m), d * (n * n);
    var n1, n2, u1, u2 := y1 * y1 - x1 * x1, y2 * y2 - x2 * x2, x1 * x1 + y1 * y1, x2 * x2 + y2 * y2;
    Numerators(x1, y1, x2, y2);
    Spread2(x * x, y * y, k, k * k);
    Interleave(x, x, y, y);
    Spread3(d, m, n, u1, u2);
    Interleave(x1, x1, y1, y1);
    Interleave(x2, x2, y2, y2);
    SumAndDifference(x1 * x1, y1 * y1, m * m);
    SumAndDifference(x2 * x2, y2 * y2, n * n);
    Shared(d, m, n);
    Gather(a, b, k * (m * n), m * m, n * n, n1 * n1, n2 * n2, u1 * u1, u2 * u2);
    Assemble((y * y) * (1 + 2 * k + k * k) - (x * x) * (1 - 2 * k + k * k), d * ((x * x) * (y * y)), n1 * n2, k * k, k,
             x * x + y * y, u1 * u2, m * n, a * (u2 * u2), b * (u1 * u1), a * (n2 * n2), b * (n1 * n1));
  }

  /** The polynomial the curve equations turn the difference into. */
  lemma Balance(a: int, b: int)
    ensures (1 + a) * (1 + b) * (1 + a * b) - a * ((1 + b) * (1 + b)) - b * ((1 + a) * (1 + a)) ==
            (1 - a * b) * (1 - a * b)
  {
    var c := a * b;
    assert b * a == c;
    OnePlus(a, b);
    SpreadSum(a, b, c);
    SpreadSquare(a, b);
    SpreadSquare(b, a);
    assert (1 - c) * (1 - c) == 1 - 2 * c + c * c;
  }

  lemma OnePlus(a: int, b: int)
    ensures (1 + a) * (1 + b) == 1 + a + b + a * b
  {}

  lemma SpreadSum(a: int, b: int, c: int)
    ensures (1 + a + b + c) * (1 + c) == 1 + a + b + 2 * c + a * c + b * c + c * c
  {
    var s := 1 + a + b + c;
    assert s * (1 + c) == s + s * c;
    assert s * c == c + a * c + b * c + c * c;
  }

  lemma SpreadSquare(a: int, b: int)
    ensures a * ((1 + b) * (1 + b)) == a + 2 * (a * b) + b * (a * b)
  {
    var bb := b * b;
    OnePlus(b, b);
    assert a * (1 + 2 * b + bb) == a + a * (2 * b) + a * bb;
    assert a * (2 * b) == 2 * (a * b) && a * bb == b * (a * b);
  }

  /** g g h h is (1 - k k)^2. */
  lemma Denominators(k: int)
    ensures (1 + 2 * k + k * k) * (1 - 2 * k + k * k) == (1 - k * k) * (1 - k * k)
    ensures (1 + k) * (1 + k) == 1 + 2 * k + k * k && (1 - k) * (1 - k) == 1 - 2 * k + k * k
  {
    var c := k * k;
    assert (2 * k) * (2 * k) == 4 * c;
    var t := 1 + c;
    assert (t + 2 * k) * (t - 2 * k) == t * t - (2 * k) * (2 * k);
    assert t * t == 1 + 2 * c + c * c;
    assert (1 - c) * (1 - c) == 1 - 2 * c + c * c;
  }

  /** On the curve that difference is (1 - a b)^2. */
  lemma Balanced(p: nat, a: int, b: int, n1: int, n2: int)
    requires p > 0 && Cong(p, n1, 1 + a) && Cong(p, n2, 1 + b)
    ensures Cong(p, n1 * n2 * (1 + a * b) - a * (n2 * n2) - b * (n1 * n1), (1 - a * b) * (1 - a * b))
  {
    Balance(a, b);
    hide *;
    CongMul(p, n1, 1 + a, n2, 1 + b);
    CongMul(p, n1, 1 + a, n1, 1 + a);
    CongMul(p, n2, 1 + b, n2, 1 + b);
    CongRefl(p, 1 + a * b);
    CongRefl(p, a);
    CongRefl(p, b);
    CongMul(p, n1 * n2, (1 + a) * (1 + b), 1 + a * b, 1 + a * b);
    CongMul(p, a, a, n2 * n2, (1 + b) * (1 + b));
    CongMul(p, b, b, n1 * n1, (1 + a) * (1 + a));
    CongAdd(p, n1 * n2 * (1 + a * b), (1 + a) * (1 + b) * (1 + a * b), a * (n2 * n2), a * ((1 + b) * (1 + b)));
    CongAdd(p, n1 * n2 * (1 + a * b) - a * (n2 * n2), (1 + a) * (1 + b) * (1 + a * b) - a * ((1 + b) * (1 + b)),
            b * (n1 * n1), b * ((1 + a) * (1 + a)));
  }

  /** So the numerators and the denominators are in the curve's equation. */
  lemma Cleared(p: nat, d: int, x1: int, y1: int, x2: int, y2: int)
    requires p > 0
    requires Cong(p, y1 * y1 - x1 * x1, 1 + d * ((x1 * y1) * (x1 * y1)))
    requires Cong(p, y2 * y2 - x2 * x2, 1 + d * ((x2 * y2) * (x2 * y2)))
    ensures var x, y, k := x1 * y2 + x2 * y1, y1 * y2 + x1 * x2, d * ((x1 * y1) * (x2 * y2));
            var g, h := (1 + k) * (1 + k), (1 - k) * (1 - k);
            Cong(p, (y * y) * g - (x * x) * h, g * h + d * ((x * x) * (y * y)))
  {
    hide *;
    var x, y, m, n := x1 * y2 + x2 * y1, y1 * y2 + x1 * x2, x1 * y1, x2 * y2;
    var k, a, b := d * (m * n), d * (m * m), d * (n * n);
    Difference(d, x1, y1, x2, y2);
    Products(d, m, n);
    Denominators(k);
    Balanced(p, a, b, y1 * y1 - x1 * x1, y2 * y2 - x2 * x2);
    var w := d * ((x * x) * (y * y));
    CongRefl(p, w);
    CongAdd(p, (y * y) * (1 + 2 * k + k * k) - (x * x) * (1 - 2 * k + k * k) - w, (1 - k * k) * (1 - k * k), w, w);
  }

  /** Dividing by the denominators. */
  lemma Quotients(p: nat, d: int, xx: int, yy: int, g: int, h: int, u: int, v: int)
    requires p > 0 && Cong(p, g * u, 1) && Cong(p, h * v, 1) && Cong(p, yy * g - xx * h, g * h + d * (xx * yy))
    ensures Cong(p, yy * v - xx * u, 1 + d * ((xx * u) * (yy * v)))
  {
    hide *;
    var t := u * v;
    CongRefl(p, t);
    CongMul(p, yy * g - xx * h, g * h + d * (xx * yy), t, t);
    QuotientLeft(xx, yy, g, h, u, v);
    QuotientRight(d, xx, yy, g, h, u, v);
    QuotientSum(p, yy * v, g * u, xx * u, h * v, d * ((xx * u) * (yy * v)));
  }

  lemma QuotientLeft(xx: int, yy: int, g: int, h: int, u: int, v: int)
    ensures (yy * g - xx * h) * (u * v) == (yy * v) * (g * u) - (xx * u) * (h * v)
  {
    Four3(yy, g, u, v);
    Four3(xx, h, v, u);
    TimesOver(yy * g, xx * h, u * v);
    assert v * u == u * v;
  }

  lemma QuotientRight(d: int, xx: int, yy: int, g: int, h: int, u: int, v: int)
    ensures (g * h + d * (xx * yy)) * (u * v) == (g * u) * (h * v) + d * ((xx * u) * (yy * v))
  {
    Interleave(g, h, u, v);
    Interleave(xx, yy, u, v);
    TimesOver(g * h, -(d * (xx * yy)), u * v);
    Regroup3(d, xx * yy, u * v);
  }

  lemma TimesOver(a: int, b: int, t: int)
    ensures (a - b) * t == a * t - b * t
  {}

  lemma Regroup3(d: int, m: int, t: int)
    ensures (d * m) * t == d * (m * t) && -(d * m) * t == -(d * (m * t))
  {}

  lemma Four3(a: int, g: int, u: int, v: int)
    ensures a * g * (u * v) == (a * v) * (g * u)
  {
    assert u * v == v * u;
    Interleave(a, g, v, u);
  }

  lemma QuotientSum(p: nat, b: int, gu: int, a: int, hv: int, w: int)
    requires p > 0 && Cong(p, gu, 1) && Cong(p, hv, 1) && Cong(p, b * gu - a * hv, gu * hv + w)
    ensures Cong(p, b - a, 1 + w)
  {
    hide *;
    CongRefl(p, a);
    CongRefl(p, b);
    CongRefl(p, w);
    CongMul(p, b, b, gu, 1);
    CongMul(p, a, a, hv, 1);
    CongMul(p, gu, 1, hv, 1);
    CongAdd(p, b * gu, b, a * hv, a);
    CongAdd(p, gu * hv, 1, w, w);
    CongSym(p, b * gu - a * hv, b - a);
    CongTrans(p, b - a, b * gu - a * hv, gu * hv + w);
    CongTrans(p, b - a, gu * hv + w, 1 + w);
  }

  /** The reduced product the script computes is the product. */
  lemma ScriptProduct(p: nat, d: int, x1: int, x2: int, y1: int, y2: int)
    requires p > 0
    ensures Cong(p, d * x1 * x2 * y1 * y2 % p, d * ((x1 * y1) * (x2 * y2)))
  {
    Interleave(x1, y1, x2, y2);
    assert (x1 * x2) * (y1 * y2) == x1 * x2 * y1 * y2;
    assert d * x1 * x2 * y1 * y2 == d * (x1 * x2 * y1 * y2);
    hide *;
    CongMod(p, d * x1 * x2 * y1 * y2);
  }

  ghost function ProductOf(c: Curve, a: Point, b: Point): int { c.d * a.x * b.x * a.y * b.y % c.p }

  lemma ProductIs(c: Curve, a: Point, b: Point)
    ensures Cong(c.p, ProductOf(c, a, b), c.d * ((a.x * a.y) * (b.x * b.y)))
  {
    ScriptProduct(c.p, c.d, a.x, b.x, a.y, b.y);
    hide Cong;
  }

  /** Neither denominator of the sum of two points is 0. */
  lemma NoDenominator(c: Curve, a: Point, b: Point)
    requires Whole(c) && OnCurve(c, a) && OnCurve(c, b)
    ensures !Cong(c.p, 1 + ProductOf(c, a, b), 0) && !Cong(c.p, 1 - ProductOf(c, a, b), 0)
  {
    var s :| RootOfTwice(c, s);
    var p, k := c.p, ProductOf(c, a, b);
    ScriptProduct(p, c.d, a.x, b.x, a.y, b.y);
    hide Cong, IsPrime, Pow256;
    CurveForm(p, c.d, a.x, a.y);
    CurveForm(p, c.d, b.x, b.y);
    NotOne(p, c.d, s, a.x, a.y, b.x, b.y, 1);
    NotOne(p, c.d, s, a.x, a.y, b.x, b.y, -1);
    hide *;
    NotShifted(p, k, c.d * ((a.x * a.y) * (b.x * b.y)));
  }

  lemma NotShifted(p: nat, k: int, m: int)
    requires p > 0 && Cong(p, k, m) && !Cong(p, m, 1) && !Cong(p, m, -1)
    ensures !Cong(p, 1 + k, 0) && !Cong(p, 1 - k, 0)
  {
    hide *;
    CongSym(p, k, m);
    if Cong(p, 1 + k, 0) {
      CongRefl(p, 1);
      CongAdd(p, 1 + k, 0, 1, 1);
      CongTrans(p, m, k, -1);
    }
    if Cong(p, 1 - k, 0) {
      CongRefl(p, 1);
      CongAdd(p, 1, 1, 1 - k, 0);
      CongTrans(p, m, k, 1);
    }
  }

  /** A denominator near k is inverted by what inverts the script's. */
  lemma NearInverse(p: nat, k: int, m: int, i: int, j: int)
    requires p > 0 && Cong(p, k, m) && Cong(p, (1 + k) * i, 1) && Cong(p, (1 - k) * j, 1)
    ensures Cong(p, ((1 + m) * (1 + m)) * (i * i), 1) && Cong(p, ((1 - m) * (1 - m)) * (j * j), 1)
  {
    hide *;
    CongSym(p, k, m);
    CongRefl(p, 1);
    CongAdd(p, 1, 1, m, k);
    CongRefl(p, i);
    CongRefl(p, j);
    CongMul(p, 1 + m, 1 + k, i, i);
    CongMul(p, 1 - m, 1 - k, j, j);
    CongTrans(p, (1 + m) * i, (1 + k) * i, 1);
    CongTrans(p, (1 - m) * j, (1 - k) * j, 1);
    CongMul(p, (1 + m) * i, 1, (1 + m) * i, 1);
    CongMul(p, (1 - m) * j, 1, (1 - m) * j, 1);
    Interleave(1 + m, i, 1 + m, i);
    Interleave(1 - m, j, 1 - m, j);
  }

  /** The curve's equation for x = n i and y = o j, reduced. */
  lemma ReducedPoint(p: nat, d: int, n: int, i: int, o: int, j: int)
    requires p > 0
    requires Cong(p, (o * o) * (j * j) - (n * n) * (i * i), 1 + d * (((n * n) * (i * i)) * ((o * o) * (j * j))))
    ensures var x, y := n * i % p, o * j % p;
            Cong(p, y * y - x * x, 1 + d * (x * x) * (y * y))
  {
    var x, y := n * i % p, o * j % p;
    assert d * (x * x) * (y * y) == d * ((x * x) * (y * y));
    Interleave(n, i, n, i);
    Interleave(o, j, o, j);
    hide *;
    var xx, yy := (n * n) * (i * i), (o * o) * (j * j);
    CongMod(p, n * i);
    CongMod(p, o * j);
    CongMul(p, x, n * i, x, n * i);
    CongMul(p, y, o * j, y, o * j);
    CongAdd(p, y * y, yy, x * x, xx);
    CongTrans(p, y * y - x * x, yy - xx, 1 + d * (xx * yy));
    CongMul(p, x * x, xx, y * y, yy);
    CongRefl(p, d);
    CongMul(p, d, d, (x * x) * (y * y), xx * yy);
    CongRefl(p, 1);
    CongAdd(p, 1, 1, d * ((x * x) * (y * y)), d * (xx * yy));
    CongSym(p, 1 + d * ((x * x) * (y * y)), 1 + d * (xx * yy));
    CongTrans(p, y * y - x * x, 1 + d * (xx * yy), 1 + d * ((x * x) * (y * y)));
  }

  lemma AddUnfolds(c: Curve, a: Point, b: Point)
    ensures var p, k := c.p, ProductOf(c, a, b);
            Add(c, a, b) == Point((a.x * b.y + b.x * a.y) * (Pow(1 + k, p - 2) % p) % p,
                                  (a.y * b.y + a.x * b.x) * (Pow(1 - k, p - 2) % p) % p)
  {
    hide Pow;
  }

  lemma FormOf(c: Curve, a: Point)
    requires Field(c) && OnCurve(c, a)
    ensures IsPrime(c.p) && Cong(c.p, a.y * a.y - a.x * a.x, 1 + c.d * ((a.x * a.y) * (a.x * a.y)))
  {
    hide Cong, IsPrime, Pow256;
    CurveForm(c.p, c.d, a.x, a.y);
  }

  lemma IsOnCurve(c: Curve, pt: Point)
    requires Reduced(c, pt) && Cong(c.p, pt.y * pt.y - pt.x * pt.x, 1 + c.d * (pt.x * pt.x) * (pt.y * pt.y))
    ensures OnCurve(c, pt)
  {
    hide Cong;
  }

  /** The sum of two points is a point. */
  lemma ClosedUnderAdd(c: Curve, a: Point, b: Point)
    requires Whole(c) && OnCurve(c, a) && OnCurve(c, b)
    ensures OnCurve(c, Add(c, a, b))
  {
    hide *;
    var p, k := c.p, ProductOf(c, a, b);
    ProductIs(c, a, b);
    AddUnfolds(c, a, b);
    NoDenominator(c, a, b);
    WholeIsField(c);
    FormOf(c, a);
    FormOf(c, b);
    Cleared(p, c.d, a.x, a.y, b.x, b.y);
    SumOnCurve(p, c.d, k, c.d * ((a.x * a.y) * (b.x * b.y)), a.x * b.y + b.x * a.y, a.y * b.y + a.x * b.x,
               Pow(1 + k, p - 2) % p, Pow(1 - k, p - 2) % p);
    IsOnCurve(c, Add(c, a, b));
  }

  lemma WholeIsField(c: Curve)
    requires Whole(c)
    ensures Field(c)
  {
    hide Field;
  }

  lemma SumOnCurve(p: nat, d: int, k: int, m: int, n: int, o: int, i: int, j: int)
    requires p >= 2 && IsPrime(p) && !Cong(p, 1 + k, 0) && !Cong(p, 1 - k, 0) && Cong(p, k, m)
    requires i == Pow(1 + k, p - 2) % p && j == Pow(1 - k, p - 2) % p
    requires var g, h := (1 + m) * (1 + m), (1 - m) * (1 - m);
             Cong(p, (o * o) * g - (n * n) * h, g * h + d * ((n * n) * (o * o)))
    ensures var x, y := n * i % p, o * j % p;
            Cong(p, y * y - x * x, 1 + d * (x * x) * (y * y))
  {
    hide *;
    InverseByPower(p, 1 + k);
    InverseByPower(p, 1 - k);
    NearInverse(p, k, m, i, j);
    Quotients(p, d, n * n, o * o, (1 + m) * (1 + m), (1 - m) * (1 - m), i * i, j * j);
    ReducedPoint(p, d, n, i, o, j);
  }
}
