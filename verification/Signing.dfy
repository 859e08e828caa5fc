/** Double-and-add is repeated addition, and what is signed verifies. */
module Signing {
  import opened Bytes
  import opened Modular
  import opened Ed25519
  import opened PointCodec
  import opened Complete

  /** The hypothesis on the addition: it associates. That the curve is closed under it is proved (`ClosedUnderAdd`). */
  ghost predicate Associative(c: Curve) {
    forall a, b, e {:trigger Add(c, Add(c, a, b), e)} :: OnCurve(c, a) && OnCurve(c, b) && OnCurve(c, e) ==>
      Add(c, Add(c, a, b), e) == Add(c, a, Add(c, b, e))
  }

  ghost predicate GroupLaw(c: Curve) { Whole(c) && Associative(c) }

  /** e-fold addition, one at a time. */
  ghost function Times(c: Curve, pt: Point, e: nat): Point {
    if e == 0 then Identity else Add(c, Times(c, pt, e - 1), pt)
  }

  lemma Closed(c: Curve, a: Point, b: Point)
    requires GroupLaw(c) && OnCurve(c, a) && OnCurve(c, b)
    ensures OnCurve(c, Add(c, a, b))
  {
    hide Add, OnCurve, Whole, Associative;
    ClosedUnderAdd(c, a, b);
  }

  lemma Associates(c: Curve, a: Point, b: Point, e: Point)
    requires GroupLaw(c) && OnCurve(c, a) && OnCurve(c, b) && OnCurve(c, e)
    ensures Add(c, Add(c, a, b), e) == Add(c, a, Add(c, b, e))
  {
    hide Add, OnCurve, Whole;
  }

  lemma Commutes(c: Curve, a: Point, b: Point)
    ensures Add(c, a, b) == Add(c, b, a)
  {
    FiveFold(c.d, a.x, b.x, a.y, b.y);
    assert a.x * b.y + b.x * a.y == b.x * a.y + a.x * b.y;
    assert a.y * b.y + a.x * b.x == b.y * a.y + b.x * a.x;
    hide Inv;
  }

  lemma FiveFold(d: int, x: int, z: int, y: int, w: int)
    ensures d * x * z * y * w == d * z * x * w * y
  {
    assert d * x * z == d * z * x;
    var k := d * x * z;
    assert k * y * w == k * w * y;
  }

  lemma IdentityOnCurve(c: Curve)
    ensures OnCurve(c, Identity)
  {
    CongBy(c.p, 1, 1, 0);
  }

  lemma IdentityLaw(c: Curve, a: Point)
    requires OnCurve(c, a)
    ensures Add(c, a, Identity) == a && Add(c, Identity, a) == a
  {
    Commutes(c, a, Identity);
    PowOne(c.p - 2);
    UniqueRemainder(c.p, 1, 0, 1);
    UniqueRemainder(c.p, a.x, 0, a.x);
    UniqueRemainder(c.p, a.y, 0, a.y);
    UniqueRemainder(c.p, 0, 0, 0);
    assert c.d * a.x * 0 * a.y * 1 == 0;
    assert Inv(c.p, 1) == 1;
  }

  lemma {:induction false} TimesOnCurve(c: Curve, pt: Point, e: nat)
    requires GroupLaw(c) && OnCurve(c, pt)
    ensures OnCurve(c, Times(c, pt, e))
  {
    hide GroupLaw, OnCurve, Add;
    if e == 0 {
      IdentityOnCurve(c);
    } else {
      TimesOnCurve(c, pt, e - 1);
      Closed(c, Times(c, pt, e - 1), pt);
    }
  }

  lemma {:induction false} TimesAdd(c: Curve, pt: Point, m: nat, n: nat)
    requires GroupLaw(c) && OnCurve(c, pt)
    ensures Times(c, pt, m + n) == Add(c, Times(c, pt, m), Times(c, pt, n))
    decreases n
  {
    hide GroupLaw, OnCurve, Add;
    TimesOnCurve(c, pt, m);
    if n == 0 {
      IdentityLaw(c, Times(c, pt, m));
    } else {
      TimesAdd(c, pt, m, n - 1);
      TimesOnCurve(c, pt, n - 1);
      Associates(c, Times(c, pt, m), Times(c, pt, n - 1), pt);
    }
  }

  lemma {:induction false} TimesTimes(c: Curve, pt: Point, m: nat, n: nat)
    requires GroupLaw(c) && OnCurve(c, pt)
    ensures Times(c, Times(c, pt, m), n) == Times(c, pt, m * n)
    decreases n
  {
    hide GroupLaw, OnCurve, Add;
    if n > 0 {
      TimesTimes(c, pt, m, n - 1);
      TimesAdd(c, pt, m * (n - 1), m);
      assert m * (n - 1) + m == m * n;
    }
  }

  lemma TimesDouble(c: Curve, pt: Point, n: nat)
    requires GroupLaw(c) && OnCurve(c, pt)
    ensures Times(c, Add(c, pt, pt), n) == Times(c, pt, 2 * n)
  {
    hide GroupLaw, OnCurve, Add;
    IdentityLaw(c, pt);
    TimesTwo(c, pt);
    hide *;
    TimesTimes(c, pt, 2, n);
  }

  lemma TimesTwo(c: Curve, pt: Point)
    requires Add(c, Identity, pt) == pt
    ensures Times(c, pt, 2) == Add(c, pt, pt)
  {
    hide Add;
    assert Times(c, pt, 1) == Add(c, Times(c, pt, 0), pt) == pt;
  }

  lemma {:induction false} DoubleAddAccumulates(c: Curve, r: Point, pt: Point, e: nat)
    requires GroupLaw(c) && OnCurve(c, r) && OnCurve(c, pt)
    ensures DoubleAdd(c, r, pt, e) == Add(c, r, Times(c, pt, e))
    decreases e
  {
    hide GroupLaw, OnCurve, Add;
    if e == 0 {
      IdentityLaw(c, r);
    } else {
      var r' := if e % 2 == 1 then Add(c, r, pt) else r;
      var h := e / 2;
      Closed(c, r, pt);
      Closed(c, pt, pt);
      DoubleAddAccumulates(c, r', Add(c, pt, pt), h);
      TimesDouble(c, pt, h);
      if e % 2 == 1 {
        assert e == 2 * h + 1;
        TimesOnCurve(c, pt, 2 * h);
        Associates(c, r, pt, Times(c, pt, 2 * h));
        Commutes(c, pt, Times(c, pt, 2 * h));
      }
    }
  }

  /** Double-and-add is e-fold addition, for every e and every curve point. */
  lemma MulIsRepeatedAdd(c: Curve, pt: Point, e: nat)
    requires GroupLaw(c) && OnCurve(c, pt)
    ensures MulPoint(c, pt, e) == Times(c, pt, e) && OnCurve(c, MulPoint(c, pt, e))
  {
    hide GroupLaw, OnCurve, Add, Times, DoubleAdd;
    IdentityOnCurve(c);
    DoubleAddAccumulates(c, Identity, pt, e);
    TimesOnCurve(c, pt, e);
    IdentityLaw(c, Times(c, pt, e));
  }

  lemma TimesPeriod(c: Curve, pt: Point, q: nat, n: nat, r: nat)
    requires GroupLaw(c) && OnCurve(c, pt) && Times(c, pt, c.order) == Identity
    requires n == c.order * q
    ensures Times(c, pt, n + r) == Times(c, pt, r)
  {
    hide *;
    TimesTimes(c, pt, c.order, q);
    IdentityTimes(c, q);
    TimesAdd(c, pt, n, r);
    TimesOnCurve(c, pt, r);
    IdentityLaw(c, Times(c, pt, r));
  }

  /** Multiples of a point of order L repeat with period L. */
  lemma TimesModOrder(c: Curve, pt: Point, n: nat)
    requires GroupLaw(c) && OnCurve(c, pt) && Times(c, pt, c.order) == Identity
    ensures Times(c, pt, n % c.order) == Times(c, pt, n)
  {
    hide *;
    var q, r := n / c.order, n % c.order;
    assert n - r == c.order * q;
    TimesPeriod(c, pt, q, n - r, r);
  }

  lemma {:induction false} IdentityTimes(c: Curve, n: nat)
    ensures Times(c, Identity, n) == Identity
  {
    hide Add, OnCurve;
    if n > 0 {
      IdentityTimes(c, n - 1);
      IdentityOnCurve(c);
      IdentityLaw(c, Identity);
    }
  }

  // Sign and verify. SHA-512 is any function to 64 bytes.

  ghost predicate Digest(hash: seq<byte> -> seq<byte>) {
    forall m :: |hash(m)| == 64
  }

  /** The clamped scalar and the prefix: bits 0 to 2 and 255 cleared, bit 254 set. */
  function SecretExpand(c: Curve, hash: seq<byte> -> seq<byte>, sk: seq<byte>): (r: (nat, seq<byte>))
    requires Digest(hash)
  {
    var h := hash(sk);
    var top := c.half / 2;
    (FromLE(h[..32]) % top / 8 * 8 + top, h[32..])
  }

  function PublicKey(c: Curve, hash: seq<byte> -> seq<byte>, sk: seq<byte>): seq<byte>
    requires Digest(hash)
  {
    Enc(c, MulPoint(c, c.base, SecretExpand(c, hash, sk).0))
  }

  function Sign(c: Curve, hash: seq<byte> -> seq<byte>, sk: seq<byte>, msg: seq<byte>): seq<byte>
    requires Digest(hash)
  {
    var (a, prefix) := SecretExpand(c, hash, sk);
    var key := Enc(c, MulPoint(c, c.base, a));
    var r := FromLE(hash(prefix + msg)) % c.order;
    var point := Enc(c, MulPoint(c, c.base, r));
    var k := FromLE(hash(point + key + msg)) % c.order;
    point + ToLE((r + k * a) % c.order, 32)
  }

  predicate Verify(c: Curve, hash: seq<byte> -> seq<byte>, public: seq<byte>, msg: seq<byte>, sig: seq<byte>)
    requires Digest(hash)
  {
    if |sig| != 64 || |public| != 32 then false else
      match (PointDecode(c, sig[..32]), PointDecode(c, public))
      case (Some(r), Some(a)) =>
        var s := FromLE(sig[32..]);
        var k := FromLE(hash(sig[..32] + public + msg)) % c.order;
        s < c.order && MulPoint(c, c.base, s) == Add(c, r, MulPoint(c, a, k))
      case _ => false
  }

  /** The verification equation: (r + k a mod L) B = r B + k (a B). */
  lemma ScalarsAgree(c: Curve, a: nat, r: nat, k: nat)
    requires GroupLaw(c) && OnCurve(c, c.base) && Times(c, c.base, c.order) == Identity
    ensures MulPoint(c, c.base, (r + k * a) % c.order)
         == Add(c, MulPoint(c, c.base, r), MulPoint(c, MulPoint(c, c.base, a), k))
  {
    hide *;
    SumOfScalars(c, a, r, k, k * a);
  }

  lemma SumOfScalars(c: Curve, a: nat, r: nat, k: nat, ka: nat)
    requires GroupLaw(c) && OnCurve(c, c.base) && Times(c, c.base, c.order) == Identity
    requires ka == a * k
    ensures MulPoint(c, c.base, (r + ka) % c.order)
         == Add(c, MulPoint(c, c.base, r), MulPoint(c, MulPoint(c, c.base, a), k))
  {
    hide *;
    var b, n := c.base, (r + ka) % c.order;
    MulIsRepeatedAdd(c, b, a);
    MulIsRepeatedAdd(c, b, r);
    MulIsRepeatedAdd(c, MulPoint(c, b, a), k);
    MulIsRepeatedAdd(c, b, n);
    TimesModOrder(c, b, r + ka);
    TimesTimes(c, b, a, k);
    TimesAdd(c, b, r, ka);
  }

  lemma OrderFits(c: Curve)
    requires Field(c) && c.order <= 2 * c.half
    ensures c.order <= Pow256(32)
  {
    hide IsPrime, Cong, Pow256;
  }

  /** A key and a pair of halves that meet the equation are accepted. */
  lemma VerifyBy(c: Curve, hash: seq<byte> -> seq<byte>, public: seq<byte>, msg: seq<byte>, point: seq<byte>,
                 s: nat, a: Point, r: Point)
    requires Digest(hash) && |point| == 32 && |public| == 32 && s < c.order && s < Pow256(32)
    requires PointDecode(c, point) == Some(r) && PointDecode(c, public) == Some(a)
    requires MulPoint(c, c.base, s) ==
             Add(c, r, MulPoint(c, a, FromLE(hash(point + public + msg)) % c.order))
    ensures Verify(c, hash, public, msg, point + ToLE(s, 32))
  {
    FromToLE(s, 32);
    hide FromLE, ToLE, MulPoint, Add, PointDecode, Pow256, Digest;
    var sig := point + ToLE(s, 32);
    assert sig[..32] == point && sig[32..] == ToLE(s, 32);
  }

  /** A point multiplied, and its code. */
  lemma Multiple(c: Curve, e: nat)
    requires Field(c) && GroupLaw(c) && OnCurve(c, c.base)
    ensures var pt := MulPoint(c, c.base, e);
            |Enc(c, pt)| == 32 && PointDecode(c, Enc(c, pt)) == Some(pt)
  {
    assert |Enc(c, MulPoint(c, c.base, e))| == 32 by { hide MulPoint, GroupLaw, Field, OnCurve; }
    hide *;
    MulIsRepeatedAdd(c, c.base, e);
    DecodeEnc(c, MulPoint(c, c.base, e));
  }

  /** Every signature made is a signature accepted, for every key and message. */
  lemma SignVerifies(c: Curve, hash: seq<byte> -> seq<byte>, sk: seq<byte>, msg: seq<byte>)
    requires Digest(hash) && Field(c) && c.order <= 2 * c.half
    requires GroupLaw(c) && OnCurve(c, c.base) && Times(c, c.base, c.order) == Identity
    ensures Verify(c, hash, PublicKey(c, hash, sk), msg, Sign(c, hash, sk, msg))
  {
    hide GroupLaw, Field, OnCurve, Add, Times, MulPoint, Enc, FromLE, ToLE, SecretExpand;
    var (a, prefix) := SecretExpand(c, hash, sk);
    var key, r := Enc(c, MulPoint(c, c.base, a)), FromLE(hash(prefix + msg)) % c.order;
    var point := Enc(c, MulPoint(c, c.base, r));
    var k := FromLE(hash(point + key + msg)) % c.order;
    var s := (r + k * a) % c.order;
    assert key == PublicKey(c, hash, sk) && point + ToLE(s, 32) == Sign(c, hash, sk, msg);
    hide *;
    OrderFits(c);
    Multiple(c, a);
    Multiple(c, r);
    ScalarsAgree(c, a, r, k);
    VerifyBy(c, hash, key, msg, point, s, MulPoint(c, c.base, a), MulPoint(c, c.base, r));
  }
}
