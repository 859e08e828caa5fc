/** The square root of section 5.1.3 of RFC 8032: for a prime p that is 5
    modulo 8, x2^((p+3)/8), corrected by 2^((p-1)/4) when it squares to -x2. */
module SquareRoot {
  import opened Modular
  import opened Fermat

  lemma QuarterOf(p: nat, q: nat)
    requires p == 8 * q + 5
    ensures (p - 1) / 2 == 4 * q + 2 && (p - 1) / 4 == 2 * q + 1 && (p + 3) / 8 == q + 1
  {}

  lemma Quarter(p: nat)
    requires p % 8 == 5
    ensures (p - 1) / 2 + (p - 1) / 2 == p - 1
    ensures (p - 1) / 4 + (p - 1) / 4 == (p - 1) / 2
    ensures (p + 3) / 8 + (p + 3) / 8 == 1 + (p - 1) / 4
  {
    QuarterOf(p, p / 8);
  }

  lemma HalfPower(p: nat, x: int)
    requires IsPrime(p) && p % 8 == 5 && !Cong(p, x, 0)
    ensures Cong(p, Pow(x, (p - 1) / 2), 1) || Cong(p, Pow(x, (p - 1) / 2), -1)
  {
    hide *;
    Quarter(p);
    var h := (p - 1) / 2;
    FermatLittle(p, x);
    PowAdd(x, h, h);
    SquareRoots(p, Pow(x, h), 1);
  }

  /** The candidate squares to x2 times the quadratic character of its root x. */
  lemma CandidateSquare(p: nat, x: int, x2: int)
    requires p % 8 == 5 && Cong(p, x2, x * x)
    ensures var c := Pow(x2, (p + 3) / 8); Cong(p, c * c, x2 * Pow(x, (p - 1) / 2))
  {
    var c, q := Pow(x2, (p + 3) / 8), (p - 1) / 4;
    assert Pow(x2, 1) == x2;
    hide *;
    Quarter(p);
    PowAdd(x2, (p + 3) / 8, (p + 3) / 8);
    PowAdd(x2, 1, q);
    PowCong(p, x2, x * x, q);
    PowMulBase(x, x, q);
    PowAdd(x, q, q);
    CongBy(p, x2, x2, 0);
    CongMul(p, x2, x2, Pow(x2, q), Pow(x, (p - 1) / 2));
  }

  /** 2^((p-1)/4) is a square root of -1. */
  lemma RootOfMinusOne(p: nat)
    requires IsPrime(p) && p % 8 == 5
    ensures var i := Pow(2, (p - 1) / 4); Cong(p, i * i, -1)
  {
    hide *;
    var q := (p - 1) / 4;
    Quarter(p);
    PowAdd(2, q, q);
    TwoIsNonResidue(p);
  }

  /** Multiplying by a root of -1 turns a root of -x2 into a root of x2. */
  lemma Corrected(p: nat, c: int, i: int, x2: int)
    requires p > 0 && Cong(p, c * c, -x2) && Cong(p, i * i, -1)
    ensures Cong(p, (c * i) * (c * i), x2)
  {
    hide *;
    CongMul(p, c * c, -x2, i * i, -1);
    Interleave(c, i, c, i);
    assert -x2 * -1 == x2;
  }

  /** One of the two candidates squares to x2, whenever x2 has a root at all. */
  lemma RootFound(p: nat, x: int, x2: int)
    requires IsPrime(p) && p % 8 == 5 && Cong(p, x2, x * x) && !Cong(p, x, 0)
    ensures var c, i := Pow(x2, (p + 3) / 8), Pow(2, (p - 1) / 4);
            Cong(p, c * c, x2) || Cong(p, (c * i) * (c * i), x2)
  {
    hide *;
    var c, i, s := Pow(x2, (p + 3) / 8), Pow(2, (p - 1) / 4), Pow(x, (p - 1) / 2);
    CandidateSquare(p, x, x2);
    HalfPower(p, x);
    CongBy(p, x2, x2, 0);
    if Cong(p, s, 1) {
      CongMul(p, x2, x2, s, 1);
      CongTrans(p, c * c, x2 * s, x2 * 1);
    } else {
      CongMul(p, x2, x2, s, -1);
      CongTrans(p, c * c, x2 * s, x2 * -1);
      assert x2 * -1 == -x2;
      RootOfMinusOne(p);
      Corrected(p, c, i, x2);
    }
  }
}
