/** What a signature is: exactly what `verify` accepts, the only one `sign` can
    make, and the scalar it is made with (sections 5.1.5 to 5.1.7 of RFC 8032). */
module Verifying {
  import opened Bytes
  import opened Modular
  import opened Ed25519
  import opened PointCodec
  import opened Complete
  import opened Signing

  // Decoding, from the points' side.

  /** 32 bytes decode to the point whose code they are, and no other bytes do. */
  lemma DecodesTo(c: Curve, b: seq<byte>, pt: Point)
    requires Whole(c) && |b| == 32
    ensures PointDecode(c, b) == Some(pt) <==> OnCurve(c, pt) && Enc(c, pt) == b
  {
    hide IsPrime, Cong, Pow256, PointDecode, Enc, RootOfTwice;
    if PointDecode(c, b) == Some(pt) {
      DecodedIsPoint(c, b);
      EncDecode(c, b);
    }
    if OnCurve(c, pt) { DecodeEnc(c, pt); }
  }

  /** s B = r + H(R, A, M) a, in e-fold addition: R and A the codes of r and a. */
  ghost predicate Equation(c: Curve, hash: seq<byte> -> seq<byte>, msg: seq<byte>, a: Point, r: Point, s: nat)
    requires OnCurve(c, a) && OnCurve(c, r)
  {
    Times(c, c.base, s) == Add(c, r, Times(c, a, FromLE(hash(Enc(c, r) + Enc(c, a) + msg)) % c.order))
  }

  /** A key and a signature are the codes of two points and of a scalar below the order that solve it. */
  ghost predicate Solves(c: Curve, hash: seq<byte> -> seq<byte>, public: seq<byte>, msg: seq<byte>, sig: seq<byte>,
                         a: Point, r: Point, s: nat)
  {
    && OnCurve(c, a) && OnCurve(c, r) && public == Enc(c, a) && sig == Enc(c, r) + ToLE(s, 32)
    && s < c.order && Equation(c, hash, msg, a, r, s)
  }

  /** What the constants have to satisfy for signatures to mean something. */
  ghost predicate Sound(c: Curve) {
    GroupLaw(c) && OnCurve(c, c.base) && c.order <= 2 * c.half
  }

  lemma SecondHalf(c: Curve, sig: seq<byte>, point: seq<byte>, s: nat)
    requires Field(c) && c.order <= 2 * c.half && |point| == 32 && s < c.order
    ensures sig == point + ToLE(s, 32) <==> |sig| == 64 && sig[..32] == point && FromLE(sig[32..]) == s
  {
    OrderFits(c);
    hide Field, Pow256, FromLE, ToLE;
    FromToLE(s, 32);
    if |sig| == 64 {
      ToFromLE(sig[32..]);
      assert sig == sig[..32] + sig[32..];
    }
    var both := point + ToLE(s, 32);
    assert both[..32] == point && both[32..] == ToLE(s, 32);
  }

  lemma EncLength(c: Curve, pt: Point)
    requires OnCurve(c, pt)
    ensures |Enc(c, pt)| == 32
  {}

  lemma SolvesVerifies(c: Curve, hash: seq<byte> -> seq<byte>, public: seq<byte>, msg: seq<byte>, sig: seq<byte>,
                       a: Point, r: Point, s: nat)
    requires Digest(hash) && Sound(c) && Solves(c, hash, public, msg, sig, a, r, s)
    ensures Verify(c, hash, public, msg, sig)
  {
    EncLength(c, a);
    EncLength(c, r);
    hide OnCurve, Whole, Associative, Times, Add, Enc, Digest, FromLE, ToLE;
    DecodesTo(c, public, a);
    DecodesTo(c, Enc(c, r), r);
    SecondHalf(c, sig, Enc(c, r), s) by { WholeIsField(c); }
    MulIsRepeatedAdd(c, c.base, s);
    MulIsRepeatedAdd(c, a, FromLE(hash(Enc(c, r) + public + msg)) % c.order);
    hide PointDecode, MulPoint;
  }

  lemma WholeIsField(c: Curve)
    requires GroupLaw(c)
    ensures Field(c)
  {
    hide Field, Associative;
  }

  lemma VerifySolves(c: Curve, hash: seq<byte> -> seq<byte>, public: seq<byte>, msg: seq<byte>, sig: seq<byte>)
    returns (a: Point, r: Point, s: nat)
    requires Digest(hash) && Sound(c) && Verify(c, hash, public, msg, sig)
    ensures Solves(c, hash, public, msg, sig, a, r, s)
  {
    hide OnCurve, Whole, Associative, Times, Add, Enc, Digest, FromLE, ToLE, PointDecode, MulPoint;
    a, r, s := PointDecode(c, public).value, PointDecode(c, sig[..32]).value, FromLE(sig[32..]);
    DecodesTo(c, public, a);
    DecodesTo(c, sig[..32], r);
    SecondHalf(c, sig, sig[..32], s) by { WholeIsField(c); }
    MulIsRepeatedAdd(c, c.base, s);
    MulIsRepeatedAdd(c, a, FromLE(hash(sig[..32] + public + msg)) % c.order);
  }

  /** Exactly the signatures that solve the equation are accepted. */
  lemma VerifyIff(c: Curve, hash: seq<byte> -> seq<byte>, public: seq<byte>, msg: seq<byte>, sig: seq<byte>)
    requires Digest(hash) && Sound(c)
    ensures Verify(c, hash, public, msg, sig) <==> exists a, r, s :: Solves(c, hash, public, msg, sig, a, r, s)
  {
    hide *;
    if Verify(c, hash, public, msg, sig) {
      var a, r, s := VerifySolves(c, hash, public, msg, sig);
    }
    if a, r, s :| Solves(c, hash, public, msg, sig, a, r, s) {
      SolvesVerifies(c, hash, public, msg, sig, a, r, s);
    }
  }

  // The order.

  /** No smaller multiple of B than the L-th is the identity. */
  ghost predicate ExactOrder(c: Curve) {
    && Times(c, c.base, c.order) == Identity
    && forall e :: 0 < e < c.order ==> Times(c, c.base, e) != Identity
  }

  /** Which it is when the order is prime and B is not the identity. */
  lemma PrimeIsExact(c: Curve)
    requires Sound(c) && IsPrime(c.order) && Times(c, c.base, c.order) == Identity && c.base != Identity
    ensures ExactOrder(c)
  {
    hide GroupLaw, OnCurve, Times, IsPrime;
    forall e | 0 < e < c.order ensures Times(c, c.base, e) != Identity { NoSmaller(c, e); }
  }

  lemma {:induction false} NoSmaller(c: Curve, e: nat)
    requires Sound(c) && IsPrime(c.order) && Times(c, c.base, c.order) == Identity && c.base != Identity
    requires 0 < e < c.order
    ensures Times(c, c.base, e) != Identity
    decreases e
  {
    hide *;
    if e == 1 {
      TimesOnce(c, c.base) by { SoundParts(c); }
    } else {
      var q, r := c.order / e, c.order % e;
      assert r != 0 by { PrimeRemainder(c.order, e); }
      assert c.order == e * q + r;
      NoSmaller(c, r) by { SoundParts(c); }
      if Times(c, c.base, e) == Identity {
        RemainderToo(c, c.base, e, q, r) by { SoundParts(c); }
      }
    }
  }

  lemma SoundParts(c: Curve)
    requires Sound(c)
    ensures GroupLaw(c) && OnCurve(c, c.base)
  {
    hide GroupLaw, OnCurve;
  }

  lemma PrimeRemainder(p: nat, e: nat)
    requires IsPrime(p) && 1 < e < p
    ensures p % e != 0
  {}

  lemma RemainderToo(c: Curve, pt: Point, e: nat, q: nat, r: nat)
    requires GroupLaw(c) && OnCurve(c, pt) && Times(c, pt, e) == Identity && Times(c, pt, e * q + r) == Identity
    ensures Times(c, pt, r) == Identity
  {
    hide *;
    TimesTimes(c, pt, e, q);
    IdentityTimes(c, q);
    TimesAdd(c, pt, e * q, r);
    TimesOnCurve(c, pt, r);
    IdentityLaw(c, Times(c, pt, r));
  }

  lemma TimesOnce(c: Curve, pt: Point)
    requires GroupLaw(c) && OnCurve(c, pt)
    ensures Times(c, pt, 1) == pt
  {
    hide GroupLaw, Add, OnCurve;
    IdentityLaw(c, pt);
    assert Times(c, pt, 1) == Add(c, Times(c, pt, 0), pt);
  }

  /** Scalars below the order are told apart by their multiples. */
  lemma MultiplesDiffer(c: Curve, s: nat, t: nat)
    requires Sound(c) && ExactOrder(c) && s < t < c.order
    ensures Times(c, c.base, s) != Times(c, c.base, t)
  {
    hide GroupLaw, OnCurve, Add, Times;
    if Times(c, c.base, s) == Times(c, c.base, t) {
      TimesAdd(c, c.base, c.order - s, s);
      TimesAdd(c, c.base, c.order - s, t);
      TimesModOrder(c, c.base, c.order - s + t);
      OnceRound(c.order, t - s);
    }
  }

  lemma OnceRound(n: nat, k: nat)
    requires 0 < n && k < n
    ensures (n + k) % n == k
  {
    assert n + k == n * 1 + k;
  }

  /** Two accepted signatures of one key and message with the same first half are one. */
  lemma OneSecondHalf(c: Curve, hash: seq<byte> -> seq<byte>, public: seq<byte>, msg: seq<byte>,
                      one: seq<byte>, other: seq<byte>)
    requires Digest(hash) && Sound(c) && ExactOrder(c)
    requires Verify(c, hash, public, msg, one) && Verify(c, hash, public, msg, other)
    requires one[..32] == other[..32]
    ensures one == other
  {
    hide *;
    var a, r, s := VerifySolves(c, hash, public, msg, one);
    var b, q, t := VerifySolves(c, hash, public, msg, other);
    SameHalves(c, hash, public, msg, one, other, a, r, s, b, q, t);
    if s < t { MultiplesDiffer(c, s, t); }
    if t < s { MultiplesDiffer(c, t, s); }
  }

  lemma SameHalves(c: Curve, hash: seq<byte> -> seq<byte>, public: seq<byte>, msg: seq<byte>,
                   one: seq<byte>, other: seq<byte>, a: Point, r: Point, s: nat, b: Point, q: Point, t: nat)
    requires Sound(c) && Solves(c, hash, public, msg, one, a, r, s) && Solves(c, hash, public, msg, other, b, q, t)
    requires one[..32] == other[..32]
    ensures Times(c, c.base, s) == Times(c, c.base, t) && s < c.order && t < c.order && (s == t ==> one == other)
  {
    EncLength(c, a);
    EncLength(c, r);
    EncLength(c, q);
    hide OnCurve, Whole, Associative, Times, Add, Enc, FromLE, ToLE, PointDecode;
    DecodesTo(c, public, a);
    DecodesTo(c, public, b);
    assert one[..32] == Enc(c, r) && other[..32] == Enc(c, q);
    DecodesTo(c, one[..32], r);
    DecodesTo(c, one[..32], q);
  }

  // Signing.

  /** The first half `sign` gives: the code of r B, r hashed from the secret's second half and the message. */
  ghost function Nonce(c: Curve, hash: seq<byte> -> seq<byte>, sk: seq<byte>, msg: seq<byte>): Point
    requires Digest(hash)
  {
    Times(c, c.base, FromLE(hash(hash(sk)[32..] + msg)) % c.order)
  }

  lemma SignStarts(c: Curve, hash: seq<byte> -> seq<byte>, sk: seq<byte>, msg: seq<byte>)
    requires Digest(hash) && Sound(c)
    ensures OnCurve(c, Nonce(c, hash, sk, msg))
    ensures |Sign(c, hash, sk, msg)| == 64 && Sign(c, hash, sk, msg)[..32] == Enc(c, Nonce(c, hash, sk, msg))
  {
    hide OnCurve, Whole, Associative, Times, Add, Enc, FromLE, ToLE, MulPoint;
    var r := FromLE(hash(hash(sk)[32..] + msg)) % c.order;
    MulIsRepeatedAdd(c, c.base, r);
    EncLength(c, MulPoint(c, c.base, r));
    assert SecretExpand(c, hash, sk).1 == hash(sk)[32..];
    hide SecretExpand;
  }

  /** The signature made is the only one accepted that starts with that half. */
  lemma SignIsTheOne(c: Curve, hash: seq<byte> -> seq<byte>, sk: seq<byte>, msg: seq<byte>, sig: seq<byte>)
    requires Digest(hash) && Sound(c) && ExactOrder(c)
    ensures OnCurve(c, Nonce(c, hash, sk, msg))
    ensures sig == Sign(c, hash, sk, msg) <==>
            |sig| >= 32 && sig[..32] == Enc(c, Nonce(c, hash, sk, msg))
            && Verify(c, hash, PublicKey(c, hash, sk), msg, sig)
  {
    WholeIsField(c);
    SignStarts(c, hash, sk, msg);
    hide Whole, Associative, OnCurve, Field, Times, Sign, PublicKey, Verify, Enc, Nonce;
    SignVerifies(c, hash, sk, msg);
    var made := Sign(c, hash, sk, msg);
    if |sig| >= 32 && sig[..32] == made[..32] && Verify(c, hash, PublicKey(c, hash, sk), msg, sig) {
      OneSecondHalf(c, hash, PublicKey(c, hash, sk), msg, sig, made);
    }
  }

  /** The public key is the code of a B. */
  lemma KeyIsMultiple(c: Curve, hash: seq<byte> -> seq<byte>, sk: seq<byte>)
    requires Digest(hash) && Sound(c)
    ensures var pt := Times(c, c.base, SecretExpand(c, hash, sk).0);
            OnCurve(c, pt) && PublicKey(c, hash, sk) == Enc(c, pt)
  {
    hide OnCurve, Whole, Associative, Times, Add, Enc, MulPoint, SecretExpand;
    MulIsRepeatedAdd(c, c.base, SecretExpand(c, hash, sk).0);
  }

  // The secret scalar.

  lemma {:induction false} FromLEAppend(s: seq<byte>, t: byte)
    ensures FromLE(s + [t]) == FromLE(s) + Pow256(|s|) * t
  {
    if s == [] {
      assert [] + [t] == [t] && [t][1..] == [];
    } else {
      FromLEAppend(s[1..], t);
      assert (s + [t])[1..] == s[1..] + [t];
      var low, high := FromLE(s[1..]), Pow256(|s| - 1) * t;
      assert Pow256(|s|) * t == 256 * high;
    }
  }

  /** A number by its first byte, its middle and its last. */
  lemma ByEnds(first: byte, mid: seq<byte>, last: byte)
    requires |mid| == 30
    ensures FromLE([first] + mid + [last]) == first + 256 * FromLE(mid) + Pow256(31) * last
  {
    FromLEAppend([first] + mid, last);
    assert ([first] + mid)[1..] == mid;
  }

  /** With w = 256 k, top = 64 w and last = 64 q + r. */
  lemma ClampSplit(w: nat, k: nat, top: nat, last: nat, q: nat, r: nat)
    requires w == 256 * k && top == 64 * w && last == 64 * q + r
    ensures w * last == q * top + 256 * (k * r) && w * (r + 64) == 256 * (k * r) + top
  {
    assert w * last == w * (64 * q) + w * r by { assert w * (64 * q + r) == w * (64 * q) + w * r; }
    assert w * (64 * q) == q * top;
    assert w * r == 256 * (k * r);
    assert w * (r + 64) == w * r + w * 64;
  }

  lemma Below(k: nat, r: nat)
    requires r < 64
    ensures k * r <= 63 * k
  {
    assert k * r + k * (63 - r) == k * 63;
  }

  lemma Eighths(first: nat, n: nat)
    ensures (first + 8 * n) / 8 * 8 == first / 8 * 8 + 8 * n
  {}

  lemma ClampRest(first: nat, mid: nat, k: nat, q: nat, kr: nat, qtop: nat, top: nat)
    requires first < 256 && mid < k && top == 16384 * k && kr <= 63 * k && qtop == q * top
    ensures (first + 256 * mid + (qtop + 256 * kr)) % top / 8 * 8 == first / 8 * 8 + 256 * mid + 256 * kr
  {
    var rest := first + 256 * mid + 256 * kr;
    assert qtop == top * q;
    UniqueRemainder(top, rest + qtop, q, rest);
    Eighths(first, 32 * mid + 32 * kr);
  }

  lemma ClampArithmetic(first: nat, mid: nat, last: nat, k: nat, top: nat)
    requires first < 256 && last < 256 && mid < k && top == 64 * (256 * k)
    ensures var w := 256 * k;
            (first + 256 * mid + w * last) % top / 8 * 8 + top == first / 8 * 8 + 256 * mid + w * (last % 64 + 64)
  {
    var w, q, r := 256 * k, last / 64, last % 64;
    ClampSplit(w, k, top, last, q, r);
    Below(k, r);
    ClampRest(first, mid, k, q, k * r, q * top, top);
  }

  lemma PowWidth()
    ensures Pow256(32) == 256 * Pow256(31) && Pow256(31) == 256 * Pow256(30)
  {}

  lemma WidthIs(c: Curve)
    requires Field(c)
    ensures c.half / 2 == 64 * Pow256(31) && Pow256(31) == 256 * Pow256(30)
  {
    hide IsPrime, Cong, Pow256;
    PowWidth();
  }

  lemma ScalarIs(c: Curve, hash: seq<byte> -> seq<byte>, sk: seq<byte>)
    requires Digest(hash)
    ensures |hash(sk)| == 64
    ensures SecretExpand(c, hash, sk).0 == FromLE(hash(sk)[..32]) % (c.half / 2) / 8 * 8 + c.half / 2
  {
    hide FromLE;
  }

  /** 32 bytes, clamped as a number and byte by byte. */
  lemma ClampBytes(s: seq<byte>, top: nat)
    requires |s| == 32 && top > 0 && top == 64 * Pow256(31) && Pow256(31) == 256 * Pow256(30)
    ensures FromLE(s) % top / 8 * 8 + top == FromLE([s[0] / 8 * 8] + s[1..31] + [s[31] % 64 + 64])
  {
    hide *;
    var mid := s[1..31];
    assert s == [s[0]] + mid + [s[31]];
    ToFromLE(mid);
    ByEnds(s[0], mid, s[31]);
    ByEnds(s[0] / 8 * 8, mid, s[31] % 64 + 64);
    ClampArithmetic(s[0], FromLE(mid), s[31], Pow256(30), top);
  }

  /** The scalar's bytes are the hash's first 32, with the low three bits of the first and the top bit of the last
      cleared and the bit below that set. */
  lemma Clamped(c: Curve, hash: seq<byte> -> seq<byte>, sk: seq<byte>)
    requires Digest(hash) && Field(c)
    ensures |hash(sk)| == 64
    ensures var h, b := hash(sk), ToLE(SecretExpand(c, hash, sk).0, 32);
            && FromLE(b) == SecretExpand(c, hash, sk).0 && b[0] == h[0] / 8 * 8 && b[31] == h[31] % 64 + 64
            && forall i :: 0 < i < 31 ==> b[i] == h[i]
  {
    hide *;
    ScalarIs(c, hash, sk);
    WidthIs(c);
    var s := hash(sk)[..32];
    ClampBytes(s, c.half / 2);
    ToFromLE([s[0] / 8 * 8] + s[1..31] + [s[31] % 64 + 64]);
  }
}
