/** The point codec of section 5.1.3 of RFC 8032, both round trips. */
module PointCodec {
  import opened Bytes
  import opened Modular
  import opened Fermat
  import opened SquareRoot
  import opened Ed25519

  // First direction: an accepted encoding is the canonical one.

  lemma RootInRange(p: nat, x: int, x2: int, sign: int)
    requires p % 2 == 1 && 0 <= x < p && 0 < x2 < p && 0 <= sign < 2 && Cong(p, x * x, x2)
    ensures var r := if x % 2 != sign then p - x else x;
            0 <= r < p && r % 2 == sign && Cong(p, r * r, x2)
  {
    hide *;
    if x == 0 { CongEqual(p, 0, x2); }
    if x % 2 != sign {
      FlipParity(p, x);
      MirrorSquare(p, x);
      CongTrans(p, (p - x) * (p - x), x * x, x2);
    }
  }

  lemma FlipParity(p: nat, x: int)
    requires p % 2 == 1
    ensures (p - x) % 2 == 1 - x % 2
  {}

  lemma MirrorSquare(p: nat, x: int)
    requires p > 0
    ensures Cong(p, (p - x) * (p - x), x * x)
  {
    assert (p - x) * (p - x) - x * x == (p - 2 * x) * p;
    CongBy(p, (p - x) * (p - x), x * x, p - 2 * x);
  }

  lemma SignBit(t: nat, y: nat, sign: nat)
    requires y < t && sign < 2
    ensures var v := y + sign * t; v < 2 * t && v % t == y && v / t % 2 == sign
  {
    UniqueRemainder(t, y + sign * t, sign, y);
  }

  lemma SplitSign(t: nat, v: nat)
    requires 0 < t && v < 2 * t
    ensures v % t + (v / t % 2) * t == v
  {
    if v < t { UniqueRemainder(t, v, 0, v); } else { UniqueRemainder(t, v, 1, v - t); }
  }

  lemma RecoveredRange(c: Curve, y: int, sign: int)
    requires c.p % 2 == 1 && RecoverX(c, y, sign).Some? && 0 <= sign < 2
    ensures var x := RecoverX(c, y, sign).value; 0 <= x < c.p && x % 2 == sign && Cong(c.p, x * x, XSquared(c, y))
  {
    var x2 := XSquared(c, y);
    if x2 != 0 {
      var r := Pow(x2, (c.p + 3) / 8) % c.p;
      var x := if !Cong(c.p, r * r, x2) then r * (Pow(2, (c.p - 1) / 4) % c.p) % c.p else r;
      hide *;
      RootInRange(c.p, x, x2, sign);
    }
  }

  /** Decoding then encoding gives back the 32 bytes, for every accepted string. */
  lemma EncDecode(c: Curve, b: seq<byte>)
    requires c.p % 2 == 1 && 2 * c.half == Pow256(32)
    requires |b| == 32 && PointDecode(c, b).Some?
    ensures var pt := PointDecode(c, b).value; 0 <= pt.y < c.half && Enc(c, pt) == b
  {
    var v := FromLE(b);
    ToFromLE(b);
    hide RecoverX, XSquared, FromLE, ToLE, Pow256;
    RecoveredRange(c, v % c.half, v / c.half % 2);
    SplitSign(c.half, v);
  }

  // Second direction: every curve point decodes from its encoding.

  /** With w = x*x and u = y*y of a curve point, D*u + 1 is never 0: it would
      make u = 1 and then D = -1, that is 121666 = 121665. */
  lemma DenominatorNonzero(p: nat, d: int, w: int, u: int)
    requires p >= 2 && Cong(p, u - w, 1 + d * w * u) && Cong(p, 121666 * d, -121665)
    ensures !Cong(p, d * u + 1, 0)
  {
    ClearW(d, w, u);
    if Cong(p, d * u + 1, 0) {
      assert (d * u + 1) - d * (u - 1) == d + 1;
      hide *;
      MinusOneQuotient(p, d, w, u - 1, d * u + 1, u - w, 1 + d * w * u);
    }
  }

  lemma MinusOneQuotient(p: nat, d: int, w: int, n: int, v: int, lhs: int, rhs: int)
    requires p >= 2 && Cong(p, 121666 * d, -121665)
    requires Cong(p, lhs, rhs) && lhs - rhs + w * v == n && v - d * n == d + 1
    ensures !Cong(p, v, 0)
  {
    hide *;
    if Cong(p, v, 0) {
      CongScale(p, w, v);
      CongAdd(p, lhs, rhs, w * v, 0);
      CongBy(p, rhs, rhs, 0);
      CongAdd(p, lhs + w * v, rhs + 0, rhs, rhs);
      assert Cong(p, n, 0);
      CongScale(p, d, n);
      CongAdd(p, v, 0, d * n, 0);
      CongScale(p, 121666, d + 1);
      CongAdd(p, 121666 * (d + 1), 0, 121666 * d, -121665);
      assert Cong(p, 121666, 121665);
      CongBy(p, 121665, 121665, 0);
      CongAdd(p, 121666, 121665, 121665, 121665);
      CongEqual(p, 1, 0);
    }
  }

  lemma CongScale(p: nat, c: int, a: int)
    requires p > 0 && Cong(p, a, 0)
    ensures Cong(p, c * a, 0)
  {
    hide *;
    CongBy(p, c, c, 0);
    CongMul(p, c, c, a, 0);
  }

  lemma ClearW(d: int, w: int, u: int)
    ensures (u - w) - (1 + d * w * u) + w * (d * u + 1) == u - 1
  {
    assert w * (d * u + 1) == w * (d * u) + w && w * (d * u) == d * w * u;
  }

  /** x*x = (y*y - 1)/(D*y*y + 1) is the curve equation, when the quotient exists. */
  lemma CurveByQuotient(p: nat, d: int, w: int, u: int, i: int)
    requires p > 0 && Cong(p, (d * u + 1) * i, 1)
    ensures Cong(p, u - w, 1 + d * w * u) <==> Cong(p, w, (u - 1) * i)
  {
    ClearW(d, w, u);
    hide *;
    QuotientForm(p, u - w, 1 + d * w * u, w, d * u + 1, i, u - 1);
  }

  lemma QuotientForm(p: nat, lhs: int, rhs: int, w: int, v: int, i: int, n: int)
    requires p > 0 && Cong(p, v * i, 1) && lhs - rhs + w * v == n
    ensures Cong(p, lhs, rhs) <==> Cong(p, w, n * i)
  {
    hide *;
    if Cong(p, lhs, rhs) {
      var a := CongWitness(p, lhs, rhs);
      CongBy(p, n, w * v, a);
      Divide(p, w, v, i, n);
    }
    if Cong(p, w, n * i) {
      assert v * i == i * v;
      Divide(p, n, i, v, w);
      var a := CongWitness(p, n, w * v);
      CongBy(p, lhs, rhs, a);
    }
  }

  lemma Divide(p: nat, w: int, v: int, i: int, n: int)
    requires p > 0 && Cong(p, v * i, 1) && Cong(p, n, w * v)
    ensures Cong(p, w, n * i)
  {
    hide *;
    CongBy(p, i, i, 0);
    CongMul(p, n, w * v, i, i);
    CongBy(p, w, w, 0);
    CongMul(p, w, w, v * i, 1);
    assert (w * v) * i == w * (v * i);
    CongTrans(p, n * i, w * (v * i), w);
    CongSym(p, n * i, w);
  }

  lemma QuotientIsSquare(c: Curve, pt: Point)
    requires Field(c) && OnCurve(c, pt)
    ensures Cong(c.p, XSquared(c, pt.y), pt.x * pt.x)
  {
    hide Cong, IsPrime, Inv, Pow256;
    QuotientOnCurve(c.p, c.d, pt.x * pt.x, pt.y * pt.y);
  }

  lemma QuotientOnCurve(p: nat, d: int, w: int, u: int)
    requires p >= 2 && IsPrime(p) && Cong(p, u - w, 1 + d * w * u) && Cong(p, 121666 * d, -121665)
    ensures Cong(p, ((u - 1) * Inv(p, d * u + 1)) % p, w)
  {
    var i := Inv(p, d * u + 1);
    assert i == Pow(d * u + 1, p - 2) % p;
    hide *;
    DenominatorNonzero(p, d, w, u);
    InverseByPower(p, d * u + 1);
    CurveByQuotient(p, d, w, u, i);
    CongSym(p, w, (u - 1) * i);
    CongMod(p, (u - 1) * i);
    CongTrans(p, ((u - 1) * i) % p, (u - 1) * i, w);
  }

  /** The reduction and the correction keep whichever candidate is a root. */
  lemma ChosenRoot(p: nat, c: int, i: int, x2: int)
    requires p > 0 && (Cong(p, c * c, x2) || Cong(p, (c * i) * (c * i), x2))
    ensures var r := c % p;
            var x := if !Cong(p, r * r, x2) then r * (i % p) % p else r;
            0 <= x < p && Cong(p, x * x, x2)
  {
    hide *;
    var r := c % p;
    var x := if !Cong(p, r * r, x2) then r * (i % p) % p else r;
    CongMod(p, c);
    if Cong(p, c * c, x2) {
      CongMul(p, r, c, r, c);
      CongTrans(p, r * r, c * c, x2);
    } else if !Cong(p, r * r, x2) {
      CongMod(p, i);
      CongMul(p, r, c, i % p, i);
      CongMod(p, r * (i % p));
      CongTrans(p, x, r * (i % p), c * i);
      CongMul(p, x, c * i, x, c * i);
      CongTrans(p, x * x, (c * i) * (c * i), x2);
    }
  }

  /** Of the two roots, the parity names one. */
  lemma ParityPicks(p: nat, x: int, r: int)
    requires IsPrime(p) && p % 2 == 1 && 0 < x < p && 0 <= r < p && Cong(p, r * r, x * x)
    ensures (if r % 2 != x % 2 then p - r else r) == x
  {
    hide *;
    SquareRoots(p, r, x);
    FlipParity(p, r);
    if Cong(p, r, x) {
      CongEqual(p, r, x);
    } else {
      CongBy(p, -x, p - x, -1);
      CongTrans(p, r, -x, p - x);
      CongEqual(p, r, p - x);
    }
  }

  lemma NonzeroSquare(p: nat, x: int, x2: int)
    requires IsPrime(p) && 0 < x < p && Cong(p, x2, x * x)
    ensures x2 != 0
  {
    hide *;
    if x2 == 0 {
      CongSym(p, 0, x * x);
      ProductZero(p, x, x);
      CongEqual(p, x, 0);
    }
  }

  /** Every curve point's x is recovered from its y and parity. */
  lemma RecoverComplete(c: Curve, pt: Point)
    requires Field(c) && OnCurve(c, pt)
    ensures RecoverX(c, pt.y, pt.x % 2) == Some(pt.x)
  {
    var p, x, x2 := c.p, pt.x, XSquared(c, pt.y);
    hide *;
    FieldFacts(c, pt);
    QuotientIsSquare(c, pt);
    RecoverUnfolds(c, pt.y, x % 2);
    if x == 0 {
      CongEqual(p, x2, 0);
    } else {
      RootPicked(p, x, x2);
    }
  }

  lemma FieldFacts(c: Curve, pt: Point)
    requires Field(c) && OnCurve(c, pt)
    ensures IsPrime(c.p) && c.p % 8 == 5 && 0 <= pt.x < c.p && 0 <= pt.y < c.p
  {
    hide IsPrime, Cong, Pow256;
  }

  lemma RecoverUnfolds(c: Curve, y: int, sign: int)
    requires y < c.p
    ensures XSquared(c, y) == 0 && sign == 0 ==> RecoverX(c, y, sign) == Some(0)
    ensures var x2 := XSquared(c, y);
            var r := Pow(x2, (c.p + 3) / 8) % c.p;
            var x := if !Cong(c.p, r * r, x2) then r * (Pow(2, (c.p - 1) / 4) % c.p) % c.p else r;
            x2 != 0 && Cong(c.p, x * x, x2) ==> RecoverX(c, y, sign) == Some(if x % 2 != sign then c.p - x else x)
  {
    hide XSquared, Cong, Pow;
  }

  /** Lines 47 to 55, on the square of a nonzero x: the answer is x. */
  lemma RootPicked(p: nat, x: int, x2: int)
    requires IsPrime(p) && p % 8 == 5 && 0 < x < p && Cong(p, x2, x * x)
    ensures x2 != 0
    ensures var r := Pow(x2, (p + 3) / 8) % p;
            var y := if !Cong(p, r * r, x2) then r * (Pow(2, (p - 1) / 4) % p) % p else r;
            Cong(p, y * y, x2) && (if y % 2 != x % 2 then p - y else y) == x
  {
    assert p % 2 == 1;
    hide *;
    NonzeroSquare(p, x, x2);
    if Cong(p, x, 0) { CongEqual(p, x, 0); }
    RootFound(p, x, x2);
    ChosenRoot(p, Pow(x2, (p + 3) / 8), Pow(2, (p - 1) / 4), x2);
    var r := Pow(x2, (p + 3) / 8) % p;
    var y := if !Cong(p, r * r, x2) then r * (Pow(2, (p - 1) / 4) % p) % p else r;
    CongTrans(p, y * y, x2, x * x);
    ParityPicks(p, x, y);
  }

  /** Encoding then decoding gives back the point, for every point of the curve. */
  lemma DecodeEnc(c: Curve, pt: Point)
    requires Field(c) && OnCurve(c, pt)
    ensures 0 <= pt.y < c.half && PointDecode(c, Enc(c, pt)) == Some(pt)
  {
    hide RecoverX, ToLE, FromLE, Pow256, Cong, IsPrime;
    RecoverComplete(c, pt);
    SignBit(c.half, pt.y, pt.x % 2);
    FromToLE(pt.y + (pt.x % 2) * c.half, 32);
  }

  /** What decodes is on the curve exactly when the quotient it was read from exists. */
  lemma DecodedOnCurve(c: Curve, b: seq<byte>)
    requires Field(c) && PointDecode(c, b).Some?
    ensures var pt := PointDecode(c, b).value;
            OnCurve(c, pt) <==> !Cong(c.p, c.d * (pt.y * pt.y) + 1, 0)
  {
    hide Cong, IsPrime, Inv, Pow256, RecoverX, FromLE;
    var v := FromLE(b);
    var pt := PointDecode(c, b).value;
    assert c.p % 2 == 1;
    RecoveredRange(c, v % c.half, v / c.half % 2);
    CurveOrPole(c.p, c.d, pt.x * pt.x, pt.y * pt.y);
  }

  lemma CurveOrPole(p: nat, d: int, w: int, u: int)
    requires p >= 2 && IsPrime(p) && Cong(p, 121666 * d, -121665) && Cong(p, w, ((u - 1) * Inv(p, d * u + 1)) % p)
    ensures Cong(p, u - w, 1 + d * w * u) <==> !Cong(p, d * u + 1, 0)
  {
    var i := Inv(p, d * u + 1);
    assert i == Pow(d * u + 1, p - 2) % p;
    hide *;
    if Cong(p, u - w, 1 + d * w * u) {
      DenominatorNonzero(p, d, w, u);
    }
    if !Cong(p, d * u + 1, 0) {
      InverseByPower(p, d * u + 1);
      CongMod(p, (u - 1) * i);
      CongTrans(p, w, ((u - 1) * i) % p, (u - 1) * i);
      CurveByQuotient(p, d, w, u, i);
    }
  }
}
