/** The script's own constants meet what the codec and the signer ask of them,
    given that P is prime: D and B are identified by what they satisfy. */
module Parameters {
  import opened Bytes
  import opened Modular
  import opened Fermat
  import opened Ed25519
  import opened PointCodec
  import opened Complete
  import opened Signing
  import opened Verifying

  const D_VALUE: nat := 0x52036cee2b6ffe738cc740797779e89800700a4d4141d8ab75eb4dca135978a3
  const B_X: nat := 0x216936d3cd6e53fec0a4e231fdd6dc5c692cc7609525a7b2c9562d608f25d51a
  const B_Y: nat := 0x6666666666666666666666666666666666666666666666666666666666666658

  /** n times the inverse of m, reduced, is the one remainder r with m r = n. */
  lemma QuotientUnique(p: nat, n: int, m: int, r: nat)
    requires IsPrime(p) && 0 < m < p && r < p && Cong(p, m * r, n)
    ensures (n * (Pow(m, p - 2) % p)) % p == r
  {
    PrimeAtLeastTwo(p);
    var i := Pow(m, p - 2) % p;
    hide *;
    if Cong(p, m, 0) { CongEqual(p, m, 0); }
    InverseByPower(p, m);
    CongBy(p, n, n, 0);
    CongMul(p, n, n, m * i, 1);
    Swap(m, n, i);
    CongMod(p, n * i);
    CongBy(p, m, m, 0);
    CongMul(p, m, m, (n * i) % p, n * i);
    CongTrans(p, m * ((n * i) % p), n * (m * i), n);
    CongSym(p, m * r, n);
    CongTrans(p, m * ((n * i) % p), n, m * r);
    Cancel(p, m, (n * i) % p, r);
    CongEqual(p, (n * i) % p, r);
  }

  lemma Residues()
    ensures P % 8 == 5 && D_VALUE < P && B_X < P && B_Y < P && B_X % 2 == 0
    ensures Cong(P, 121666 * D_VALUE, -121665) && Cong(P, 5 * B_Y, 4)
  {
    assert 121666 * D_VALUE + 121665 == 77955 * P;
    CongBy(P, 121666 * D_VALUE, -121665, 77955);
    assert 5 * B_Y - 4 == 4 * P;
    CongBy(P, 5 * B_Y, 4, 4);
  }

  lemma Width()
    ensures Pow256(32) == 4 * TWO254
  {
    assert Pow256(8) == 0x1_0000_0000_0000_0000;
    assert Pow256(14) == 0x1_0000_0000_0000_0000_0000_0000_0000;
    assert Pow256(20) == 0x1_0000_0000_0000_0000_0000_0000_0000_0000_0000_0000;
    assert Pow256(26) == 0x1_0000_0000_0000_0000_0000_0000_0000_0000_0000_0000_0000_0000_0000;
  }

  lemma BaseEquation()
    ensures Cong(P, B_Y * B_Y - B_X * B_X, 1 + D_VALUE * (B_X * B_X) * (B_Y * B_Y))
  {
    // The quotient, in 256-bit digits.
    var w := 4 * TWO254;
    var q3 := 0x0072705895b7fd68a9fa7924f5dbf66a83342931bfa505f5c01a65246a2283b5;
    var q2 := 0xbdefac6a6f236898302e8ed7c7df683605c40a4c5bad89dcf0c8e913ecc5b282;
    var q1 := 0xa35cfc55550db4be5e6bd6246e4a4ea2054904f5e4438fa42b0e56e116ea5951;
    var q0 := 0xcfeb87ecfc5b550744d2c0fca4a89ec707de8b3c9a756eb80e7ec260dc2fda59;
    var q := -(((q3 * w + q2) * w + q1) * w + q0);
    assert B_Y * B_Y - B_X * B_X - (1 + D_VALUE * (B_X * B_X) * (B_Y * B_Y)) == q * P;
    CongBy(P, B_Y * B_Y - B_X * B_X, 1 + D_VALUE * (B_X * B_X) * (B_Y * B_Y), q);
  }

  /** The constants other than B. */
  function Plain(): Curve {
    Constants(P, D_VALUE, 2 * TWO254, L, Identity)
  }

  lemma PlainField()
    requires IsPrime(P)
    ensures Field(Plain()) && OnCurve(Plain(), Point(B_X, B_Y))
  {
    hide IsPrime, Cong, Pow256;
    Residues();
    Width();
    BaseEquation();
  }

  /** D, B and their equations: the script's constants are a field and a point of its curve. */
  lemma BaseOnCurve()
    requires IsPrime(P)
    ensures Edwards25519() == Plain().(base := Point(B_X, B_Y))
    ensures Field(Edwards25519()) && OnCurve(Edwards25519(), Edwards25519().base)
  {
    hide IsPrime, Cong, Pow256, Pow, RecoverX;
    Residues();
    QuotientUnique(P, -121665, 121666, D_VALUE);
    QuotientUnique(P, 4, 5, B_Y);
    PlainField();
    RecoverComplete(Plain(), Point(B_X, B_Y));
  }

  /** A root of 2 D. */
  const ROOT_2D: nat := 0x7aace324fd0ac68910cb40c6304ab6b7dbb63fe1a1c15dad5c477a1b914298b0

  lemma DoubleIsSquare()
    ensures Cong(P, ROOT_2D * ROOT_2D, 2 * D_VALUE) && !Cong(P, D_VALUE, 0)
  {
    var q := 0x75927a8288d9d39d5adb04204c82526a0e9b90dacfcd8304db7c1cd9c5f0eb62;
    assert ROOT_2D * ROOT_2D - 2 * D_VALUE == q * P;
    CongBy(P, ROOT_2D * ROOT_2D, 2 * D_VALUE, q);
    if Cong(P, D_VALUE, 0) { CongEqual(P, D_VALUE, 0); }
  }

  /** D is no square: the addition has no exceptions on this curve. */
  lemma EdwardsWhole()
    requires IsPrime(P)
    ensures Whole(Edwards25519())
  {
    hide IsPrime, Cong, Pow256, Pow, RecoverX, Edwards25519;
    BaseOnCurve();
    DoubleIsSquare();
    assert RootOfTwice(Edwards25519(), ROOT_2D);
  }

  /** Every 32 bytes the script decodes are a point of its curve, and its sums of points are. */
  lemma Ed25519Points(a: seq<byte>, b: seq<byte>)
    requires IsPrime(P) && PointDecode(Edwards25519(), a).Some? && PointDecode(Edwards25519(), b).Some?
    ensures var c := Edwards25519();
            var s, t := PointDecode(c, a).value, PointDecode(c, b).value;
            OnCurve(c, s) && OnCurve(c, t) && OnCurve(c, Add(c, s, t))
  {
    hide *;
    var c := Edwards25519();
    EdwardsWhole();
    DecodedIsPoint(c, a);
    DecodedIsPoint(c, b);
    ClosedUnderAdd(c, PointDecode(c, a).value, PointDecode(c, b).value);
  }

  /** Sign then verify, on the script's constants: what is assumed is that P is
      prime, that the addition associates, and B's order. */
  lemma Ed25519SignVerifies(hash: seq<byte> -> seq<byte>, sk: seq<byte>, msg: seq<byte>)
    requires Digest(hash) && IsPrime(P) && Associative(Edwards25519())
    requires Times(Edwards25519(), Edwards25519().base, L) == Identity
    ensures Verify(Edwards25519(), hash, PublicKey(Edwards25519(), hash, sk), msg, Sign(Edwards25519(), hash, sk, msg))
  {
    hide *;
    BaseOnCurve();
    OrderBelow();
    EdwardsWhole();
    HasGroupLaw(Edwards25519());
    SignVerifies(Edwards25519(), hash, sk, msg);
  }

  /** What is assumed of the curve beyond P's primality. */
  ghost predicate Assumed() {
    Associative(Edwards25519()) && Times(Edwards25519(), Edwards25519().base, L) == Identity
  }

  lemma Ed25519Sound()
    requires IsPrime(P) && Assumed()
    ensures Sound(Edwards25519()) && Edwards25519().order == L && Edwards25519().base != Identity
  {
    hide IsPrime, Associative, Whole, OnCurve, Edwards25519, Field, Times, Add;
    BaseOnCurve();
    OrderBelow();
    EdwardsWhole();
  }

  /** `verify` on the script's constants accepts exactly the solutions of the equation. */
  lemma Ed25519VerifyIff(hash: seq<byte> -> seq<byte>, public: seq<byte>, msg: seq<byte>, sig: seq<byte>)
    requires Digest(hash) && IsPrime(P) && Assumed()
    ensures Verify(Edwards25519(), hash, public, msg, sig) <==>
            exists a, r, s :: Solves(Edwards25519(), hash, public, msg, sig, a, r, s)
  {
    hide *;
    Ed25519Sound();
    VerifyIff(Edwards25519(), hash, public, msg, sig);
  }

  /** And `sign` makes the only one that starts with the nonce's code. */
  lemma Ed25519SignIsTheOne(hash: seq<byte> -> seq<byte>, sk: seq<byte>, msg: seq<byte>, sig: seq<byte>)
    requires Digest(hash) && IsPrime(P) && IsPrime(L) && Assumed()
    ensures OnCurve(Edwards25519(), Nonce(Edwards25519(), hash, sk, msg))
    ensures sig == Sign(Edwards25519(), hash, sk, msg) <==>
            |sig| >= 32 && sig[..32] == Enc(Edwards25519(), Nonce(Edwards25519(), hash, sk, msg))
            && Verify(Edwards25519(), hash, PublicKey(Edwards25519(), hash, sk), msg, sig)
  {
    hide *;
    Ed25519Sound();
    PrimeIsExact(Edwards25519()) by { AtOrder(); }
    SignIsTheOne(Edwards25519(), hash, sk, msg, sig);
  }

  lemma AtOrder()
    requires Assumed()
    ensures Times(Edwards25519(), Edwards25519().base, L) == Identity
  {
    hide Times, Edwards25519, Associative;
  }

  lemma HasGroupLaw(c: Curve)
    requires Whole(c) && Associative(c)
    ensures GroupLaw(c)
  {
    hide Whole, Associative;
  }

  lemma OrderBelow()
    requires Edwards25519() == Plain().(base := Point(B_X, B_Y))
    ensures Edwards25519().order == L <= 2 * Edwards25519().half
  {
    hide Edwards25519;
  }
}
