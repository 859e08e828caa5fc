/** Bytes and little-endian words, as `struct` and `int.to_bytes` write them. */
module Bytes {
  type byte = x: int | 0 <= x < 256

  datatype Option<+T> = None | Some(value: T)

  function Pow256(n: nat): nat {
    if n == 0 then 1 else 256 * Pow256(n - 1)
  }

  function ToLE(v: nat, n: nat): (s: seq<byte>)
    ensures |s| == n
  {
    if n == 0 then [] else [v % 256] + ToLE(v / 256, n - 1)
  }

  function FromLE(s: seq<byte>): nat {
    if s == [] then 0 else s[0] + 256 * FromLE(s[1..])
  }

  lemma {:induction false} FromToLE(v: nat, n: nat)
    requires v < Pow256(n)
    ensures FromLE(ToLE(v, n)) == v
  {
    if n > 0 {
      FromToLE(v / 256, n - 1);
      assert ToLE(v, n)[1..] == ToLE(v / 256, n - 1);
    }
  }

  lemma Word32Back(v: nat)
    requires v < 0x1_0000_0000
    ensures FromLE(ToLE(v, 4)) == v
  {
    assert Pow256(4) == 0x1_0000_0000;
    FromToLE(v, 4);
  }

  lemma Word64Back(v: nat)
    requires v < 0x1_0000_0000_0000_0000
    ensures FromLE(ToLE(v, 8)) == v
  {
    assert Pow256(4) == 0x1_0000_0000;
    FromToLE(v, 8);
  }

  lemma {:induction false} ToFromLE(s: seq<byte>)
    ensures FromLE(s) < Pow256(|s|)
    ensures ToLE(FromLE(s), |s|) == s
  {
    if s != [] {
      ToFromLE(s[1..]);
      var v := FromLE(s);
      assert v % 256 == s[0] && v / 256 == FromLE(s[1..]);
      assert [s[0]] + s[1..] == s;
    }
  }
}
