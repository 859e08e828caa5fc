/** The affine Ed25519 reference: addition, double-and-add, the point codec
    (section 5.1.3 of RFC 8032) and sign/verify (sections 5.1.6 and 5.1.7). The
    script's constants are one record, so that the laws are proved from what
    they satisfy and not from their digits; `Edwards25519()` is that record. */
module Ed25519 {
  import opened Bytes
  import opened Modular

  datatype Point = Point(x: int, y: int)

  const Identity := Point(0, 1)

  /** P, D, 2^255, L and B. */
  datatype Constants = Constants(p: nat, d: int, half: nat, order: nat, base: Point)

  type Curve = c: Constants | 2 <= c.p <= c.half && c.order > 0
    witness Constants(5, 1, 8, 1, Point(0, 1))

  const TWO254: nat := 0x4000000000000000000000000000000000000000000000000000000000000000
  const P: nat := 2 * TWO254 - 19
  const L: nat := 0x1000000000000000000000000000000000000000000000000000000000000000
                  + 27742317777372353535851937790883648493

  /** B's x is recovered from y = 4/5; the `None` arm is never taken (`BaseOnCurve`). */
  function Edwards25519(): Curve {
    var c := Constants(P, -121665 * Inv(P, 121666) % P, 2 * TWO254, L, Identity);
    var y := 4 * Inv(P, 5) % P;
    c.(base := match RecoverX(c, y, 0) case Some(x) => Point(x, y) case None => Identity)
  }

  function Inv(p: nat, x: int): (r: nat)
    requires p >= 2
    ensures r < p
  {
    Pow(x, p - 2) % p
  }

  predicate Reduced(c: Curve, pt: Point) {
    0 <= pt.x < c.p && 0 <= pt.y < c.p
  }

  function Add(c: Curve, a: Point, b: Point): (r: Point)
    ensures Reduced(c, r)
  {
    var k := c.d * a.x * b.x * a.y * b.y % c.p;
    Point((a.x * b.y + b.x * a.y) * Inv(c.p, 1 + k) % c.p, (a.y * b.y + a.x * b.x) * Inv(c.p, 1 - k) % c.p)
  }

  /** What the double-and-add loop does from accumulator `r`. */
  function DoubleAdd(c: Curve, r: Point, pt: Point, e: nat): (s: Point)
    ensures Reduced(c, r) ==> Reduced(c, s)
    decreases e
  {
    if e == 0 then r
    else DoubleAdd(c, if e % 2 == 1 then Add(c, r, pt) else r, Add(c, pt, pt), e / 2)
  }

  function MulPoint(c: Curve, pt: Point, e: nat): (s: Point)
    ensures Reduced(c, s)
  {
    DoubleAdd(c, Identity, pt, e)
  }

  method Mul(c: Curve, pt: Point, e: int) returns (r: Point)
    ensures r == MulPoint(c, pt, if e < 0 then 0 else e)
  {
    r := Identity;
    var q, n := pt, e;
    while n > 0
      invariant n >= 0 || n == e
      invariant DoubleAdd(c, r, q, if n < 0 then 0 else n) == MulPoint(c, pt, if e < 0 then 0 else e)
    {
      if n % 2 == 1 { r := Add(c, r, q); }
      q := Add(c, q, q);
      n := n / 2;
    }
  }

  function XSquared(c: Curve, y: int): (r: nat)
    ensures r < c.p
  {
    (y * y - 1) * Inv(c.p, c.d * (y * y) + 1) % c.p
  }

  function RecoverX(c: Curve, y: int, sign: int): Option<int> {
    if y >= c.p then None else
      var x2 := XSquared(c, y);
      if x2 == 0 then if sign != 0 then None else Some(0) else
        var r := Pow(x2, (c.p + 3) / 8) % c.p;
        var x := if !Cong(c.p, r * r, x2) then r * (Pow(2, (c.p - 1) / 4) % c.p) % c.p else r;
        if !Cong(c.p, x * x, x2) then None
        else Some(if x % 2 != sign then c.p - x else x)
  }

  function Enc(c: Curve, pt: Point): seq<byte>
    requires 0 <= pt.y < c.half
  {
    ToLE(pt.y + (pt.x % 2) * c.half, 32)
  }

  function PointDecode(c: Curve, b: seq<byte>): Option<Point> {
    var v := FromLE(b);
    var y := v % c.half;
    if y >= c.p then None else
      match RecoverX(c, y, v / c.half % 2)
      case None => None
      case Some(x) => Some(Point(x, y))
  }

  ghost predicate OnCurve(c: Curve, pt: Point) {
    Reduced(c, pt) &&
    Cong(c.p, pt.y * pt.y - pt.x * pt.x, 1 + c.d * (pt.x * pt.x) * (pt.y * pt.y))
  }

  /** What the codec needs of the constants. */
  ghost predicate Field(c: Curve) {
    && IsPrime(c.p)
    && c.p % 8 == 5
    && 2 * c.half == Pow256(32)
    && Cong(c.p, 121666 * c.d, -121665)
  }
}
