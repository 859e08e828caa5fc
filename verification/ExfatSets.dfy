/** exFAT directory entry sets (scripts/exfatimg.py): building one, walking a
    directory's, and rewriting a Stream entry in place. A name is its UTF-16LE
    bytes: the conversion from and to text is not modelled. */
module ExfatSets {
  import opened Bytes
  import opened SetSeal

  const FILE := 0x85
  const STREAM := 0xC0
  const NAME := 0xC1

  datatype File = File(name: seq<byte>, first: nat, size: nat) {
    /** What a set can hold: 255 units of name, a 32-bit cluster, 64-bit lengths. */
    predicate Fits() { |name| <= 510 && first < 0x1_0000_0000 && size < 0x1_0000_0000_0000_0000 }

    /** Name entries, fifteen units each. */
    function Names(): nat { (|name| / 2 + 14) / 15 }

    function Bytes(): nat { 64 + 32 * Names() }
  }

  datatype Set = Set(offset: nat, count: nat, name: seq<byte>, data: seq<byte>)

  datatype Extent = Extent(first: nat, size: nat, valid: nat, chained: bool)

  /** `t` written over `s` at `at`. */
  function Put(s: seq<byte>, at: nat, t: seq<byte>): (r: seq<byte>)
    ensures |r| == |s|
  {
    seq(|s|, i requires 0 <= i < |s| => if at <= i < at + |t| then t[i - at] else s[i])
  }

  // Building: sections 7.4, 7.6 and 7.7 of the exFAT specification.

  /** a to z made upper case, in UTF-16LE. */
  function Upper(name: seq<byte>, i: nat): byte
    requires i < |name|
  {
    if i % 2 == 0 && i + 1 < |name| && name[i + 1] == 0 && 97 <= name[i] <= 122 then name[i] - 32 else name[i]
  }

  /** The hash of the first n bytes of the folded name. */
  function NameHash(name: seq<byte>, n: nat): (h: nat)
    requires n <= |name|
    ensures h < 65536
  {
    if n == 0 then 0 else Turn(NameHash(name, n - 1), Upper(name, n - 1))
  }

  /** Byte o of name entry e. */
  function NameByte(name: seq<byte>, e: nat, o: nat): byte {
    if o == 0 then NAME else if 2 <= o && 30 * e + o - 2 < |name| then name[30 * e + o - 2] else 0
  }

  function HeadByte(f: File, i: nat): byte
    requires f.Fits()
  {
    if i == 0 then FILE else if i == 1 then 1 + f.Names() else if i == 32 then STREAM else if i == 33 then 1
    else if i == 35 then |f.name| / 2
    else if 36 <= i < 38 then ToLE(NameHash(f.name, |f.name|), 2)[i - 36]
    else if 40 <= i < 48 then ToLE(f.size, 8)[i - 40]
    else if 52 <= i < 56 then ToLE(f.first, 4)[i - 52]
    else if 56 <= i < 64 then ToLE(f.size, 8)[i - 56]
    else 0
  }

  function Unsealed(f: File): (s: seq<byte>)
    requires f.Fits()
    ensures |s| == f.Bytes()
  {
    seq(f.Bytes(), i requires 0 <= i < f.Bytes() =>
      if i < 64 then HeadByte(f, i) else NameByte(f.name, (i - 64) / 32, (i - 64) % 32))
  }

  /** A file's entry set, sealed. */
  function EntrySet(f: File): (s: seq<byte>)
    requires f.Fits()
    ensures |s| == f.Bytes()
  {
    Seal(Unsealed(f))
  }

  method PackInto(a: array<byte>, at: nat, v: nat, n: nat)
    requires at + n <= a.Length
    modifies a
    ensures forall i :: 0 <= i < a.Length ==> a[i] == if at <= i < at + n then ToLE(v, n)[i - at] else old(a[i])
  {
    var t := ToLE(v, n);
    for j := 0 to n
      invariant forall i :: 0 <= i < a.Length ==> a[i] == if at <= i < at + j then t[i - at] else old(a[i])
    {
      a[at + j] := t[j];
    }
  }

  /** None for what a byte or a word cannot hold, which raises. */
  method BuildEntrySet(f: File) returns (r: Option<seq<byte>>)
    requires |f.name| % 2 == 0
    ensures r == if f.Fits() then Some(EntrySet(f)) else None
  {
    var n := f.name;
    var units := |n| / 2;
    var k := (units + 14) / 15;
    if units > 255 || f.first >= 0x1_0000_0000 || f.size >= 0x1_0000_0000_0000_0000 { return None; }
    var s := new byte[32 * (2 + k)](_ => 0);
    Head(s, f);
    for e := 0 to k
      invariant forall i :: 0 <= i < 64 ==> s[i] == HeadByte(f, i)
      invariant forall i :: 64 <= i < 64 + 32 * e ==> s[i] == NameByte(n, (i - 64) / 32, (i - 64) % 32)
      invariant forall i :: 64 + 32 * e <= i < s.Length ==> s[i] == 0
    {
      NameEntry(s, n, e);
      forall i | 64 + 32 * e <= i < 96 + 32 * e
        ensures s[i] == NameByte(n, (i - 64) / 32, (i - 64) % 32)
      {
        Slot(e, i - 64 - 32 * e);
      }
    }
    assert s[..] == Unsealed(f);
    var c := SetChecksum(s[..]);
    s[2], s[3] := c % 256, c / 256;
    assert s[..] == EntrySet(f);
    r := Some(s[..]);
  }

  lemma Slot(e: nat, o: nat)
    requires o < 32
    ensures (32 * e + o) / 32 == e && (32 * e + o) % 32 == o
  {}

  method HashName(n: seq<byte>) returns (h: nat)
    ensures h == NameHash(n, |n|)
  {
    h := 0;
    for i := 0 to |n|
      invariant h < 65536 && h == NameHash(n, i)
    {
      ShiftIsTurn(h, Upper(n, i));
      h := ShiftStep(h, Upper(n, i));
    }
  }

  /** The File and Stream entries. */
  method Head(s: array<byte>, f: File)
    requires f.Fits() && s.Length == f.Bytes() && forall i :: 0 <= i < s.Length ==> s[i] == 0
    modifies s
    ensures forall i :: 0 <= i < 64 ==> s[i] == HeadByte(f, i)
    ensures forall i :: 64 <= i < s.Length ==> s[i] == 0
  {
    hide ToLE, NameHash;
    s[0], s[1] := FILE, 1 + f.Names();
    s[32], s[33], s[35] := STREAM, 1, |f.name| / 2;
    var h := HashName(f.name);
    PackInto(s, 36, h, 2);
    PackInto(s, 40, f.size, 8);
    PackInto(s, 52, f.first, 4);
    PackInto(s, 56, f.size, 8);
  }

  /** Name entry e: its chunk of the name, over zeros. */
  method NameEntry(s: array<byte>, n: seq<byte>, e: nat)
    requires 96 + 32 * e <= s.Length
    requires forall i :: 64 + 32 * e <= i < 96 + 32 * e ==> s[i] == 0
    modifies s
    ensures forall i :: 0 <= i < s.Length && !(64 + 32 * e <= i < 96 + 32 * e) ==> s[i] == old(s[i])
    ensures forall i :: 64 + 32 * e <= i < 96 + 32 * e ==> s[i] == NameByte(n, e, i - 64 - 32 * e)
  {
    var at := 64 + 32 * e;
    s[at] := NAME;
    var j := 0;
    while j < 30 && 30 * e + j < |n|
      invariant 0 <= j <= 30 && (j > 0 ==> 30 * e + j <= |n|)
      invariant forall i :: 0 <= i < s.Length && !(at <= i < at + 32) ==> s[i] == old(s[i])
      invariant forall i :: at <= i < at + 2 + j ==> s[i] == NameByte(n, e, i - at)
      invariant forall i :: at + 2 + j <= i < at + 32 ==> s[i] == 0
    {
      s[at + 2 + j] := n[30 * e + j];
      j := j + 1;
    }
  }

  /** A name of all zero bytes hashes to zero, whatever its length. */
  lemma {:induction false} HashZeros(name: seq<byte>, n: nat)
    requires n <= |name| && forall i :: 0 <= i < |name| ==> name[i] == 0
    ensures NameHash(name, n) == 0
    decreases n
  {
    hide Turn;
    if n > 0 {
      HashZeros(name, n - 1);
      TurnZero(0);
    }
  }

  /** No more name entries than the name needs, at fifteen units each. */
  lemma NamesLeast(f: File, n: nat)
    ensures |f.name| / 2 <= 15 * f.Names()
    ensures |f.name| / 2 <= 15 * n ==> f.Names() <= n
  {}

  /** A UTF-16 unit of a name. */
  function Unit(name: seq<byte>, u: nat): nat
    requires 2 * u + 1 < |name|
  {
    name[2 * u] as int + 256 * name[2 * u + 1] as int
  }

  /** Two units fold alike exactly when they are the same, or the two cases of one ASCII letter. */
  lemma UnitsFold(a: seq<byte>, b: seq<byte>, u: nat)
    requires 2 * u + 1 < |a| && 2 * u + 1 < |b|
    ensures Upper(a, 2 * u) == Upper(b, 2 * u) && Upper(a, 2 * u + 1) == Upper(b, 2 * u + 1) <==>
            var x, y := Unit(a, u), Unit(b, u);
            x == y || (0x61 <= x <= 0x7A && y == x - 32) || (0x61 <= y <= 0x7A && x == y - 32)
  {
    var i := 2 * u;
    assert i % 2 == 0 && (i + 1) % 2 == 1;
    assert Upper(a, i + 1) == a[i + 1] && Upper(b, i + 1) == b[i + 1];
  }

  /** The fold is to upper case: a unit that is no lower-case ASCII letter stays itself. */
  lemma UnitStays(name: seq<byte>, u: nat)
    requires 2 * u + 1 < |name| && !(0x61 <= Unit(name, u) <= 0x7A)
    ensures Upper(name, 2 * u) == name[2 * u] && Upper(name, 2 * u + 1) == name[2 * u + 1]
  {
    assert (2 * u) % 2 == 0 && (2 * u + 1) % 2 == 1;
  }

  /** Two names that fold alike hash alike: a lookup that ignores ASCII case can trust the hash. */
  lemma {:induction false} HashFolds(a: seq<byte>, b: seq<byte>, n: nat)
    requires |a| == |b| && n <= |a| && forall i :: 0 <= i < n ==> Upper(a, i) == Upper(b, i)
    ensures NameHash(a, n) == NameHash(b, n)
    decreases n
  {
    if n > 0 { HashFolds(a, b, n - 1); }
  }

  /** And one that differs in one folded byte does not. */
  lemma {:induction false} HashTells(a: seq<byte>, b: seq<byte>, n: nat, k: nat)
    requires |a| == |b| && k < n <= |a| && Upper(a, k) != Upper(b, k)
    requires forall i :: 0 <= i < n && i != k ==> Upper(a, i) == Upper(b, i)
    ensures NameHash(a, n) != NameHash(b, n)
    decreases n
  {
    if k == n - 1 { HashFolds(a, b, n - 1); } else { HashTells(a, b, n - 1, k); }
    TurnInjective(NameHash(a, n - 1), NameHash(b, n - 1), Upper(a, n - 1), Upper(b, n - 1));
  }
}
