/** The checksum that seals an exFAT entry set (scripts/exfatimg.py, set_checksum;
    section 6.3.3 of the exFAT specification). */
module SetSeal {
  import opened Bytes

  /** A 16-bit rotation to the right, and a byte added. */
  function Turn(total: nat, b: byte): (r: nat)
    requires total < 65536
    ensures r < 65536
  {
    (total % 2 * 32768 + total / 2 + b as int) % 65536
  }

  /** Bitwise or, of unbounded integers. */
  function Or(a: nat, b: nat): nat {
    if a == 0 && b == 0 then 0 else (if a % 2 == 1 || b % 2 == 1 then 1 else 0) + 2 * Or(a / 2, b / 2)
  }

  function Shl(a: nat, n: nat): nat { if n == 0 then a else 2 * Shl(a, n - 1) }

  lemma {:induction false} OrZero(a: nat)
    ensures Or(a, 0) == a
  {
    if a > 0 { OrZero(a / 2); }
  }

  lemma OrHalf(x: nat, b: nat)
    ensures Or(2 * x, b) == 2 * Or(x, b / 2) + b % 2
  {}

  lemma {:induction false} OrDisjoint(a: nat, b: nat, n: nat)
    requires b < Shl(1, n)
    ensures Or(Shl(a, n), b) == Shl(a, n) + b
    decreases n
  {
    if n == 0 {
      OrZero(a);
    } else {
      OrDisjoint(a, b / 2, n - 1);
      OrHalf(Shl(a, n - 1), b);
    }
  }

  lemma Shl15(a: nat)
    ensures Shl(a, 15) == 32768 * a
  {
    assert Shl(a, 1) == 2 * Shl(a, 0) == 2 * a;
    assert Shl(a, 2) == 4 * a;
    assert Shl(a, 4) == 16 * a;
    assert Shl(a, 6) == 64 * a;
    assert Shl(a, 8) == 256 * a;
    assert Shl(a, 10) == 1024 * a;
    assert Shl(a, 12) == 4096 * a;
    assert Shl(a, 14) == 16384 * a;
  }

  /** The step as written: a shift left, a shift right, an or, and the mask. */
  function ShiftStep(total: nat, b: byte): nat { (Or(Shl(total, 15), total / 2) + b as int) % 65536 }

  lemma Dropped(k: nat, x: nat)
    ensures (65536 * k + x) % 65536 == x % 65536
  {}

  lemma ShiftIsTurn(total: nat, b: byte)
    requires total < 65536
    ensures ShiftStep(total, b) == Turn(total, b)
  {
    Shl15(total);
    Shl15(1);
    hide Shl, Or;
    OrDisjoint(total, total / 2, 15);
    Dropped(total / 2, total % 2 * 32768 + total / 2 + b as int);
  }

  predicate Skipped(i: int) { i == 2 || i == 3 }

  function Checksum(s: seq<byte>): (r: nat)
    ensures r < 65536
  {
    if s == [] then 0 else
      var i := |s| - 1;
      if Skipped(i) then Checksum(s[..i]) else Turn(Checksum(s[..i]), s[i])
  }

  method SetChecksum(s: seq<byte>) returns (total: nat)
    ensures total == Checksum(s)
  {
    total := 0;
    for i := 0 to |s|
      invariant total < 65536 && total == Checksum(s[..i])
    {
      assert s[..i + 1][..i] == s[..i];
      if !Skipped(i) {
        ShiftIsTurn(total, s[i]);
        total := ShiftStep(total, s[i]);
      }
    }
    assert s[..|s|] == s;
  }

  // Two sums that say where it starts, and which way and how far it turns.

  lemma TurnZero(total: nat)
    requires total < 65536
    ensures Turn(total, 0) == if total % 2 == 0 then total / 2 else 32768 + total / 2
  {}

  /** A set of zeros sums to zero. */
  lemma {:induction false} ChecksumZeros(s: seq<byte>)
    requires forall i :: 0 <= i < |s| ==> s[i] == 0
    ensures Checksum(s) == 0
    decreases |s|
  {
    if s != [] {
      ChecksumZeros(s[..|s| - 1]);
      TurnZero(0);
      hide Turn;
    }
  }

  /** One byte after zeros sums to itself, and each zero after it halves the sum, the bit that drops out at the top. */
  lemma ChecksumOne(s: seq<byte>, b: byte)
    requires |s| >= 4 && forall i :: 0 <= i < |s| ==> s[i] == 0
    ensures Checksum(s + [b]) == b
    ensures Checksum(s + [b, 0]) == if b % 2 == 0 then b / 2 else 32768 + b / 2
  {
    ChecksumZeros(s);
    TurnFromZero(b);
    TurnZero(b);
    hide Turn;
    ChecksumMore(s, b);
    ChecksumMore(s + [b], 0);
    assert s + [b] + [0] == s + [b, 0];
  }

  lemma TurnFromZero(b: byte)
    ensures Turn(0, b) == b
  {}

  lemma ChecksumMore(s: seq<byte>, b: byte)
    requires |s| >= 4
    ensures Checksum(s + [b]) == Turn(Checksum(s), b)
  {
    hide Turn;
    assert (s + [b])[..|s|] == s;
  }

  /** The stored checksum is not summed. */
  lemma {:induction false} ChecksumSkips(s: seq<byte>, t: seq<byte>)
    requires |s| == |t| && forall i :: 0 <= i < |s| && !Skipped(i) ==> s[i] == t[i]
    ensures Checksum(s) == Checksum(t)
    decreases |s|
  {
    if s != [] { ChecksumSkips(s[..|s| - 1], t[..|t| - 1]); }
  }

  lemma RotateBack(p: nat)
    requires p < 65536
    ensures var r := p % 2 * 32768 + p / 2;
            r < 65536 && p == r % 32768 * 2 + r / 32768
  {}

  lemma AddBack(r: nat, b: byte)
    requires r < 65536
    ensures (r + b) % 65536 == if r + b < 65536 then r + b else r + b - 65536
  {}

  lemma TurnInjective(p: nat, q: nat, b: byte, c: byte)
    requires p < 65536 && q < 65536
    ensures p != q ==> Turn(p, b) != Turn(q, b)
    ensures b != c ==> Turn(p, b) != Turn(p, c)
  {
    RotateBack(p);
    RotateBack(q);
    var x, y := p % 2 * 32768 + p / 2, q % 2 * 32768 + q / 2;
    AddBack(x, b);
    AddBack(y, b);
    AddBack(x, c);
  }

  /** One changed byte always changes the sum. */
  lemma {:induction false} ChecksumDetects(s: seq<byte>, t: seq<byte>, k: nat)
    requires |s| == |t| && k < |s| && !Skipped(k) && s[k] != t[k]
    requires forall i :: 0 <= i < |s| && !Skipped(i) && i != k ==> s[i] == t[i]
    ensures Checksum(s) != Checksum(t)
    decreases |s|
  {
    var n := |s| - 1;
    var p, q := s[..n], t[..n];
    if k == n { ChecksumSkips(p, q); } else { ChecksumDetects(p, q, k); }
    TurnInjective(Checksum(p), Checksum(q), s[n], t[n]);
  }

  function Seal(s: seq<byte>): (r: seq<byte>)
    requires |s| >= 4
    ensures |r| == |s|
  {
    s[2 := Checksum(s) % 256][3 := Checksum(s) / 256]
  }

  ghost predicate Sealed(s: seq<byte>) { |s| >= 4 && s[2] as int + 256 * s[3] as int == Checksum(s) }

  lemma Halves(c: nat, lo: byte, hi: byte)
    ensures c % 256 + 256 * (c / 256) == c
    ensures lo as int + 256 * hi as int == c ==> lo == c % 256 && hi == c / 256
  {}

  /** Sealing seals, and does so once. */
  lemma SealFixed(s: seq<byte>)
    requires |s| >= 4
    ensures Sealed(Seal(s)) && Seal(Seal(s)) == Seal(s)
    ensures forall i :: 0 <= i < |s| && i != 2 && i != 3 ==> Seal(s)[i] == s[i]
    ensures Sealed(s) <==> Seal(s) == s
  {
    ChecksumSkips(s, Seal(s));
    hide Checksum;
    Halves(Checksum(s), s[2], s[3]);
    assert Seal(Seal(s)) == Seal(s);
    if Sealed(s) { assert Seal(s) == s; }
  }

  /** A sealed set with any one byte changed, the seal's own included, is not sealed. */
  lemma SealDetects(s: seq<byte>, t: seq<byte>, k: nat)
    requires Sealed(s) && |t| == |s| && k < |s| && s[k] != t[k]
    requires forall i :: 0 <= i < |s| && i != k ==> s[i] == t[i]
    ensures !Sealed(t)
  {
    if Skipped(k) { ChecksumSkips(s, t); } else { ChecksumDetects(s, t, k); }
  }
}
