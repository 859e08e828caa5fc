/** Walking a directory's entry sets, and rewriting one where it stands
    (scripts/exfatimg.py: sets, extent, restream). */
module ExfatWalk {
  import opened Bytes
  import opened SetSeal
  import opened ExfatSets

  // The walk.

  /** The name entries' bytes from offset k, joined. */
  function Joined(s: seq<byte>, k: nat): seq<byte>
    decreases |s| - k
  {
    if k + 32 > |s| then [] else (if s[k] == NAME then s[k + 2..k + 32] else []) + Joined(s, k + 32)
  }

  function Cut(s: seq<byte>, n: nat): seq<byte> { if n <= |s| then s[..n] else s }

  function NameOf(s: seq<byte>): seq<byte>
    requires |s| >= 64
  {
    if s[32] == STREAM then Cut(Joined(s, 64), 2 * s[35] as int) else []
  }

  /** The set that starts at i: the length its File entry claims. */
  function End(d: seq<byte>, i: nat): nat
    requires i + 32 <= |d|
  {
    i + 32 * (d[i + 1] as int + 1)
  }

  function SetAt(d: seq<byte>, i: nat): Set
    requires i + 32 <= |d| && d[i + 1] > 0 && End(d, i) <= |d|
  {
    Set(i, d[i + 1] as int + 1, NameOf(d[i..End(d, i)]), d[i..End(d, i)])
  }

  function SetsFrom(d: seq<byte>, i: nat): seq<Set>
    decreases |d| - i
  {
    if i + 32 > |d| || d[i] == 0 then []
    else if d[i] != FILE || d[i + 1] == 0 then SetsFrom(d, i + 32)
    else if End(d, i) > |d| then []
    else [SetAt(d, i)] + SetsFrom(d, End(d, i))
  }

  method ReadName(s: seq<byte>) returns (name: seq<byte>)
    requires |s| >= 64
    ensures name == NameOf(s)
  {
    if s[32] != STREAM { return []; }
    var raw := [];
    var k := 64;
    while k + 32 <= |s|
      invariant k >= 64 && raw + Joined(s, k) == Joined(s, 64)
      decreases |s| - k
    {
      if s[k] == NAME { raw := raw + s[k + 2..k + 32]; }
      k := k + 32;
    }
    name := Cut(raw, 2 * s[35] as int);
  }

  lemma WalkStep(d: seq<byte>, i: nat)
    requires i + 32 <= |d| && d[i] == FILE && d[i + 1] > 0 && End(d, i) <= |d|
    ensures SetsFrom(d, i) == [SetAt(d, i)] + SetsFrom(d, End(d, i))
  {}

  lemma SkipStep(d: seq<byte>, i: nat)
    requires i + 32 <= |d| && d[i] != 0 && (d[i] != FILE || d[i + 1] == 0)
    ensures SetsFrom(d, i) == SetsFrom(d, i + 32)
  {}

  /** What the walk finds from i, after what it found before. */
  ghost predicate Onward(d: seq<byte>, found: seq<Set>, i: nat) { found + SetsFrom(d, i) == SetsFrom(d, 0) }

  lemma SkipOn(d: seq<byte>, found: seq<Set>, i: nat)
    requires Onward(d, found, i) && i + 32 <= |d| && d[i] != 0 && (d[i] != FILE || d[i + 1] == 0)
    ensures Onward(d, found, i + 32)
  {
    SkipStep(d, i);
  }

  lemma TakeOn(d: seq<byte>, found: seq<Set>, i: nat)
    requires Onward(d, found, i) && i + 32 <= |d| && d[i] == FILE && d[i + 1] > 0 && End(d, i) <= |d|
    ensures Onward(d, found + [SetAt(d, i)], End(d, i))
  {
    WalkStep(d, i);
    hide SetsFrom, SetAt;
    assert found + ([SetAt(d, i)] + SetsFrom(d, End(d, i))) == found + [SetAt(d, i)] + SetsFrom(d, End(d, i));
  }

  /** It stops short of an entry, at an end slot, or at a set that claims too much. */
  lemma StopOn(d: seq<byte>, found: seq<Set>, i: nat)
    requires Onward(d, found, i)
    requires i + 32 > |d| || d[i] == 0 || (d[i] == FILE && d[i + 1] > 0 && End(d, i) > |d|)
    ensures found == SetsFrom(d, 0)
  {
    assert found + [] == found;
  }

  lemma StartOn(d: seq<byte>)
    ensures Onward(d, [], 0)
  {}

  method Sets(d: seq<byte>) returns (found: seq<Set>)
    ensures found == SetsFrom(d, 0)
  {
    hide SetsFrom, NameOf, Onward;
    found := [];
    var i := 0;
    StartOn(d);
    while i + 32 <= |d| && d[i] != 0
      invariant Onward(d, found, i)
      decreases |d| - i
    {
      if d[i] != FILE || d[i + 1] == 0 {
        SkipOn(d, found, i);
        i := i + 32;
        continue;
      }
      var count := d[i + 1] as int + 1;
      var end := i + 32 * count;
      if end > |d| { break; }
      var data := d[i..end];
      var name := ReadName(data);
      TakeOn(d, found, i);
      found := found + [Set(i, count, name, data)];
      i := end;
    }
    StopOn(d, found, i);
  }

  /** None for a set whose second entry is not a Stream, which raises. */
  function ExtentOf(s: Set): Option<Extent>
    requires |s.data| >= 64
  {
    if s.data[32] != STREAM then None else
      Some(Extent(FromLE(s.data[52..56]), FromLE(s.data[56..64]), FromLE(s.data[40..48]), s.data[33] / 2 % 2 == 0))
  }

  // What was built is what is found.

  function Directory(files: seq<File>): seq<byte>
    requires forall f :: f in files ==> f.Fits()
  {
    if files == [] then [] else EntrySet(files[0]) + Directory(files[1..])
  }

  function Listed(files: seq<File>, at: nat): seq<Set>
    requires forall f :: f in files ==> f.Fits()
  {
    if files == [] then [] else
      [Set(at, 2 + files[0].Names(), files[0].name, EntrySet(files[0]))] + Listed(files[1..], at + files[0].Bytes())
  }

  lemma NameEntryBytes(f: File, e: nat, o: nat)
    requires f.Fits() && e < f.Names() && o < 32
    ensures EntrySet(f)[64 + 32 * e + o] == NameByte(f.name, e, o)
  {
    hide Checksum, HeadByte, NameByte;
    Slot(e, o);
    assert 64 + 32 * e + o < f.Bytes();
    assert Unsealed(f)[64 + 32 * e + o] == NameByte(f.name, e, o);
  }

  lemma JoinStep(s: seq<byte>, k: nat)
    requires k + 32 <= |s| && s[k] == NAME
    ensures Joined(s, k) == s[k + 2..k + 32] + Joined(s, k + 32)
  {}

  /** `s` holds `name` in n name entries. */
  ghost predicate Spells(s: seq<byte>, name: seq<byte>, n: nat) {
    |s| == 64 + 32 * n && forall e, o :: 0 <= e < n && 0 <= o < 32 ==> s[64 + 32 * e + o] == NameByte(name, e, o)
  }

  /** From name entry e on, the joined bytes are the rest of the name and padding. */
  lemma {:induction false} JoinedRest(s: seq<byte>, name: seq<byte>, n: nat, e: nat)
    requires Spells(s, name, n) && e <= n
    ensures var j := Joined(s, 64 + 32 * e);
            |j| == 30 * (n - e) && forall i :: 0 <= i < |j| && 30 * e + i < |name| ==> j[i] == name[30 * e + i]
    decreases n - e
  {
    var k := 64 + 32 * e;
    if e < n {
      JoinedRest(s, name, n, e + 1);
      assert s[k + 0] == NameByte(name, e, 0);
      JoinStep(s, k);
      hide Joined;
      var j, r := Joined(s, k), Joined(s, k + 32);
      assert forall o :: 2 <= o < 32 ==> s[64 + 32 * e + o] == NameByte(name, e, o);
      assert forall i :: 0 <= i < 30 ==> j[i] == s[k + (i + 2)] == NameByte(name, e, i + 2);
      assert forall i :: 30 <= i < |j| ==> j[i] == r[i - 30];
    }
  }

  lemma SetSpells(f: File)
    requires f.Fits()
    ensures Spells(EntrySet(f), f.name, f.Names())
  {
    hide EntrySet, NameByte;
    forall e, o | 0 <= e < f.Names() && 0 <= o < 32 ensures EntrySet(f)[64 + 32 * e + o] == NameByte(f.name, e, o) {
      NameEntryBytes(f, e, o);
    }
  }

  lemma HeadsBack(f: File)
    requires f.Fits()
    ensures EntrySet(f)[0] == FILE && EntrySet(f)[1] == 1 + f.Names()
    ensures EntrySet(f)[32] == STREAM && EntrySet(f)[35] == |f.name| / 2
  {
    hide EntrySet;
    HeadBack(f, 0);
    HeadBack(f, 1);
    HeadBack(f, 32);
    HeadBack(f, 35);
  }

  /** The types of the entries, and the flag that says the clusters are in the FAT. */
  lemma EntryTypes(f: File, e: nat)
    requires f.Fits() && e < f.Names()
    ensures var s := EntrySet(f);
            s[0] == 0x85 && s[32] == 0xC0 && s[33] == 1 && s[64 + 32 * e] == 0xC1 && |s| == 64 + 32 * f.Names()
  {
    hide EntrySet;
    HeadBack(f, 0);
    HeadBack(f, 32);
    HeadBack(f, 33);
    NameEntryBytes(f, e, 0);
  }

  lemma CutBack(j: seq<byte>, name: seq<byte>)
    requires |name| <= |j| && forall i :: 0 <= i < |j| && i < |name| ==> j[i] == name[i]
    ensures Cut(j, |name|) == name
  {}

  lemma NameBack(f: File)
    requires f.Fits() && |f.name| % 2 == 0
    ensures EntrySet(f)[0] == FILE && EntrySet(f)[1] == 1 + f.Names() && NameOf(EntrySet(f)) == f.name
  {
    hide Joined, EntrySet, Spells, Cut;
    SetSpells(f);
    HeadsBack(f);
    JoinedRest(EntrySet(f), f.name, f.Names(), 0);
    CutBack(Joined(EntrySet(f), 64), f.name);
  }

  lemma HeadBack(f: File, i: nat)
    requires f.Fits() && i < 64 && !Skipped(i)
    ensures EntrySet(f)[i] == HeadByte(f, i)
  {
    hide Checksum, HeadByte, NameByte;
    assert Unsealed(f)[i] == HeadByte(f, i);
  }

  lemma FieldBack(f: File, at: nat, t: seq<byte>)
    requires f.Fits() && 4 <= at && at + |t| <= 64 && forall i :: 0 <= i < |t| ==> HeadByte(f, at + i) == t[i]
    ensures EntrySet(f)[at..at + |t|] == t
  {
    hide HeadByte, EntrySet;
    forall i | 0 <= i < |t| ensures EntrySet(f)[at + i] == t[i] { HeadBack(f, at + i); }
  }

  lemma ExtentBack(f: File, at: nat, n: nat, name: seq<byte>)
    requires f.Fits()
    ensures ExtentOf(Set(at, n, name, EntrySet(f))) == Some(Extent(f.first, f.size, f.size, true))
  {
    hide EntrySet, NameHash, ToLE, FromLE, Pow256;
    HeadBack(f, 32);
    HeadBack(f, 33);
    FieldBack(f, 52, ToLE(f.first, 4));
    FieldBack(f, 56, ToLE(f.size, 8));
    FieldBack(f, 40, ToLE(f.size, 8));
    Word32Back(f.first);
    Word64Back(f.size);
  }

  /** The stored NameHash is the folded name's. */
  lemma HashBack(f: File)
    requires f.Fits()
    ensures FromLE(EntrySet(f)[36..38]) == NameHash(f.name, |f.name|)
  {
    var h := NameHash(f.name, |f.name|);
    assert Pow256(2) == 65536;
    FromToLE(h, 2);
    hide EntrySet, NameHash, ToLE, FromLE, Pow256;
    FieldBack(f, 36, ToLE(h, 2));
  }

  /** The walk finds exactly the sets laid down, before an end slot or the end. */
  lemma {:induction false} WalkFinds(files: seq<File>, pre: seq<byte>, tail: seq<byte>)
    requires forall f :: f in files ==> f.Fits() && |f.name| % 2 == 0
    requires |tail| < 32 || tail[0] == 0
    ensures SetsFrom(pre + Directory(files) + tail, |pre|) == Listed(files, |pre|)
    decreases |files|
  {
    hide EntrySet, NameOf, SetsFrom, Listed, Directory;
    if files == [] {
      WalkNone(files, pre, tail);
    } else {
      var f, s, rest := files[0], EntrySet(files[0]), Directory(files[1..]);
      DirectoryStep(files);
      ListedStep(files, |pre|);
      NameBack(f);
      WalkFinds(files[1..], pre + s, tail);
      Regroup(pre, s, rest, tail);
      WalkStep(pre + Directory(files) + tail, |pre|);
    }
  }

  lemma WalkNone(files: seq<File>, pre: seq<byte>, tail: seq<byte>)
    requires files == [] && (|tail| < 32 || tail[0] == 0)
    ensures SetsFrom(pre + Directory(files) + tail, |pre|) == Listed(files, |pre|)
  {}

  lemma DirectoryStep(files: seq<File>)
    requires files != [] && forall f :: f in files ==> f.Fits()
    ensures Directory(files) == EntrySet(files[0]) + Directory(files[1..])
  {}

  lemma Regroup(pre: seq<byte>, s: seq<byte>, rest: seq<byte>, tail: seq<byte>)
    requires |s| >= 2
    ensures var d := pre + (s + rest) + tail;
            d == (pre + s) + rest + tail && d[|pre|..|pre| + |s|] == s && d[|pre|] == s[0] && d[|pre| + 1] == s[1]
  {
    assert pre + (s + rest) + tail == (pre + s) + rest + tail;
  }

  lemma ListedStep(files: seq<File>, at: nat)
    requires files != [] && forall f :: f in files ==> f.Fits()
    ensures Listed(files, at) ==
            [Set(at, 2 + files[0].Names(), files[0].name, EntrySet(files[0]))] +
            Listed(files[1..], at + files[0].Bytes())
  {}

  /** Every name and every extent comes back, and every set is sealed. */
  lemma {:induction false} ListedAs(files: seq<File>, at: nat, n: nat)
    requires n < |files| && forall f :: f in files ==> f.Fits()
    ensures |Listed(files, at)| == |files|
    ensures var s := Listed(files, at)[n];
            && s.name == files[n].name && |s.data| >= 64 && Sealed(s.data)
            && ExtentOf(s) == Some(Extent(files[n].first, files[n].size, files[n].size, true))
    decreases n
  {
    if n == 0 {
      var f := files[0];
      ExtentBack(f, at, 2 + f.Names(), f.name);
      SealFixed(Unsealed(f));
      ListedLength(files, at);
    } else {
      ListedAs(files[1..], at + files[0].Bytes(), n - 1);
    }
  }

  lemma {:induction false} ListedLength(files: seq<File>, at: nat)
    requires forall f :: f in files ==> f.Fits()
    ensures |Listed(files, at)| == |files|
    decreases |files|
  {
    if files != [] { ListedLength(files[1..], at + files[0].Bytes()); }
  }

  /** For any files, the directory of them lists them. */
  lemma DirectoryRoundTrip(files: seq<File>, tail: seq<byte>, n: nat)
    requires forall f :: f in files ==> f.Fits() && |f.name| % 2 == 0
    requires (|tail| < 32 || tail[0] == 0) && n < |files|
    ensures var found := SetsFrom(Directory(files) + tail, 0);
            && |found| == |files| && found[n].name == files[n].name && |found[n].data| >= 64 && Sealed(found[n].data)
            && ExtentOf(found[n]) == Some(Extent(files[n].first, files[n].size, files[n].size, true))
  {
    hide *;
    WalkFinds(files, [], tail);
    assert [] + Directory(files) + tail == Directory(files) + tail;
    ListedAs(files, 0, n);
  }

  // Rewriting a Stream entry.

  /** What may be asked for: None leaves a field as it is. */
  datatype Change = Change(flags: Option<byte>, first: Option<nat>, size: Option<nat>) {
    predicate Fits() {
      && (first.Some? ==> first.value < 0x1_0000_0000)
      && (size.Some? ==> size.value < 0x1_0000_0000_0000_0000)
    }
  }

  function ChangedByte(s: seq<byte>, c: Change, i: nat): byte
    requires i < |s|
  {
    if i == 33 && c.flags.Some? then c.flags.value
    else if 52 <= i < 56 && c.first.Some? then ToLE(c.first.value, 4)[i - 52]
    else if 40 <= i < 48 && c.size.Some? then ToLE(c.size.value, 8)[i - 40]
    else if 56 <= i < 64 && c.size.Some? then ToLE(c.size.value, 8)[i - 56]
    else s[i]
  }

  /** The set's own bytes, changed. */
  function Changed(s: seq<byte>, c: Change): (r: seq<byte>)
    ensures |r| == |s|
  {
    seq(|s|, i requires 0 <= i < |s| => ChangedByte(s, c, i))
  }

  function Restreamed(d: seq<byte>, at: nat, n: nat, c: Change): (r: seq<byte>)
    requires 2 <= n && at + 32 * n <= |d|
    ensures |r| == |d|
  {
    Put(d, at, Seal(Changed(d[at..at + 32 * n], c)))
  }

  /** In place: the chosen set's bytes become their changed, sealed form, and no others do. */
  method Restream(d: array<byte>, s: Set, c: Change) returns (r: Set)
    requires 2 <= s.count && s.offset + 32 * s.count <= d.Length && c.Fits()
    modifies d
    ensures d[..] == Restreamed(old(d[..]), s.offset, s.count, c)
    ensures r == s.(data := Seal(Changed(old(d[s.offset..s.offset + 32 * s.count]), c)))
  {
    var lo, hi := s.offset, s.offset + 32 * s.count;
    hide Changed, Checksum, ChangedByte, Put, Seal, Restreamed, Fielded;
    ghost var was := d[..];
    ChangeFields(d, lo, c);
    ghost var mid := d[..];
    assert d[lo..hi] == mid[lo..hi];
    SealedAt(was, mid, lo, s.count, c);
    var sum := SetChecksum(d[lo..hi]);
    d[lo + 2], d[lo + 3] := sum % 256, sum / 256;
    assert d[..] == mid[lo + 2 := sum % 256][lo + 3 := sum / 256];
    assert d[lo..hi] == d[..][lo..hi];
    r := s.(data := d[lo..hi]);
    assert was[lo..hi] == old(d[lo..hi]);
  }

  /** `now` is `was` with the fields of the set at `lo` changed. */
  ghost predicate Fielded(was: seq<byte>, now: seq<byte>, lo: nat, c: Change) {
    && lo + 64 <= |was| == |now|
    && (forall i :: 0 <= i < |was| && !(lo <= i < lo + 64) ==> now[i] == was[i])
    && forall i :: lo <= i < lo + 64 ==> now[i] == ChangedByte(was[lo..lo + 64], c, i - lo)
  }

  lemma FieldsChanged(was: seq<byte>, mid: seq<byte>, lo: nat, n: nat, c: Change)
    requires 2 <= n && lo + 32 * n <= |was| && Fielded(was, mid, lo, c)
    ensures mid[lo..lo + 32 * n] == Changed(was[lo..lo + 32 * n], c)
  {
    hide ToLE;
    var s := was[lo..lo + 32 * n];
    forall i | 0 <= i < |s| ensures mid[lo + i] == ChangedByte(s, c, i) {
      assert s[i] == was[lo + i];
      if i < 64 { assert was[lo..lo + 64][i] == was[lo + i]; }
    }
  }

  lemma SealedAt(was: seq<byte>, mid: seq<byte>, lo: nat, n: nat, c: Change)
    requires 2 <= n && lo + 32 * n <= |was| && Fielded(was, mid, lo, c)
    ensures var sum := Checksum(mid[lo..lo + 32 * n]);
            var fin := mid[lo + 2 := sum % 256][lo + 3 := sum / 256];
            fin == Restreamed(was, lo, n, c) && fin[lo..lo + 32 * n] == Seal(Changed(was[lo..lo + 32 * n], c))
  {
    FieldsChanged(was, mid, lo, n, c);
    hide Changed, Checksum, ChangedByte;
    var t := mid[lo..lo + 32 * n];
    var sum := Checksum(t);
    var fin := mid[lo + 2 := sum % 256][lo + 3 := sum / 256];
    assert fin[lo..lo + 32 * n] == Seal(t);
    assert forall i :: lo <= i < lo + 32 * n ==> fin[i] == fin[lo..lo + 32 * n][i - lo];
    assert fin == Put(was, lo, Seal(t));
  }

  method ChangeFields(d: array<byte>, lo: nat, c: Change)
    requires lo + 64 <= d.Length && c.Fits()
    modifies d
    ensures Fielded(old(d[..]), d[..], lo, c)
  {
    hide ToLE;
    var at := lo + 32;
    if c.flags.Some? { d[at + 1] := c.flags.value; }
    if c.first.Some? { PackInto(d, at + 20, c.first.value, 4); }
    if c.size.Some? {
      PackInto(d, at + 8, c.size.value, 8);
      PackInto(d, at + 24, c.size.value, 8);
    }
  }

  /** Where the walk's k-th set lies. */
  lemma {:induction false} Within(d: seq<byte>, i: nat, k: nat)
    requires k < |SetsFrom(d, i)|
    ensures var s := SetsFrom(d, i)[k];
            && i <= s.offset && 2 <= s.count && s.offset + 32 * s.count <= |d|
            && s.data == d[s.offset..s.offset + 32 * s.count] && s.name == NameOf(s.data)
    decreases |d| - i
  {
    hide NameOf;
    if d[i] != FILE || d[i + 1] == 0 {
      Within(d, i + 32, k);
    } else if k > 0 {
      Within(d, End(d, i), k - 1);
    }
  }

  /** The walk from i depends only on the bytes from i. */
  lemma {:induction false} SameFrom(d: seq<byte>, e: seq<byte>, i: nat)
    requires |d| == |e| && forall j :: i <= j < |d| ==> d[j] == e[j]
    ensures SetsFrom(d, i) == SetsFrom(e, i)
    decreases |d| - i
  {
    if i + 32 <= |d| && d[i] != 0 && (d[i] != FILE || d[i + 1] == 0) {
      assert e[i] == d[i] && e[i + 1] == d[i + 1];
      SkipStep(d, i);
      SkipStep(e, i);
      hide SetsFrom, NameOf;
      SameFrom(d, e, i + 32);
    } else if i + 32 <= |d| && d[i] == FILE && End(d, i) <= |d| {
      assert e[i] == d[i] && e[i + 1] == d[i + 1];
      WalkStep(d, i);
      WalkStep(e, i);
      hide SetsFrom, NameOf;
      SameFrom(d, e, End(d, i));
      assert d[i..End(d, i)] == e[i..End(d, i)];
    } else {
      assert i + 32 <= |d| ==> e[i] == d[i] && e[i + 1] == d[i + 1];
      hide NameOf;
    }
  }

  lemma PutParts(d: seq<byte>, at: nat, t: seq<byte>)
    requires at + |t| <= |d|
    ensures var e := Put(d, at, t);
            && (forall j :: 0 <= j < at || at + |t| <= j < |d| ==> e[j] == d[j])
            && e[at..at + |t|] == t && forall j :: 0 <= j < |t| ==> e[at + j] == t[j]
  {}

  lemma ReplacedFirst(d: seq<byte>, i: nat, t: seq<byte>)
    requires i + 32 <= |d| && d[i] == FILE && d[i + 1] > 0 && End(d, i) <= |d|
    requires |t| == End(d, i) - i && t[0] == d[i] && t[1] == d[i + 1] && NameOf(t) == NameOf(d[i..End(d, i)])
    ensures SetsFrom(Put(d, i, t), i) == [SetAt(d, i).(data := t)] + SetsFrom(d, End(d, i))
  {
    var e := Put(d, i, t);
    PutParts(d, i, t);
    SameFrom(d, e, End(d, i));
    hide SetsFrom, NameOf, Put;
    assert e[i + 0] == t[0] && e[i + 1] == t[1];
    WalkStep(e, i);
  }

  lemma ReplacedRest(d: seq<byte>, i: nat, at: nat, t: seq<byte>)
    requires i + 32 <= |d| && d[i] == FILE && d[i + 1] > 0 && End(d, i) <= at && at + |t| <= |d|
    ensures SetsFrom(Put(d, at, t), i) == [SetAt(d, i)] + SetsFrom(Put(d, at, t), End(d, i))
  {
    var e := Put(d, at, t);
    PutParts(d, at, t);
    hide SetsFrom, NameOf, Put;
    assert e[i..End(d, i)] == d[i..End(d, i)];
    WalkStep(e, i);
  }

  lemma Later(x: Set, rest: seq<Set>, k: nat, y: Set)
    requires 0 < k <= |rest|
    ensures ([x] + rest)[k := y] == [x] + rest[k - 1 := y]
  {}

  lemma ReplacedSkip(d: seq<byte>, i: nat, at: nat, t: seq<byte>)
    requires i + 32 <= |d| && d[i] != 0 && (d[i] != FILE || d[i + 1] == 0) && i + 32 <= at && at + |t| <= |d|
    ensures SetsFrom(Put(d, at, t), i) == SetsFrom(Put(d, at, t), i + 32)
  {
    PutParts(d, at, t);
    hide SetsFrom, Put;
    SkipStep(Put(d, at, t), i);
  }

  lemma StepIs(d: seq<byte>, i: nat)
    requires SetsFrom(d, i) != []
    ensures i + 32 <= |d| && d[i] != 0
    ensures if d[i] != FILE || d[i + 1] == 0 then SetsFrom(d, i) == SetsFrom(d, i + 32) else
              End(d, i) <= |d| && SetsFrom(d, i) == [SetAt(d, i)] + SetsFrom(d, End(d, i))
  {
    hide SetAt;
  }

  /** A set rewritten with its entry count and name unchanged is the only one the walk sees change. */
  lemma {:induction false} Replaced(d: seq<byte>, i: nat, k: nat, t: seq<byte>)
    requires k < |SetsFrom(d, i)|
    requires var s := SetsFrom(d, i)[k];
             |t| == |s.data| >= 64 && t[0] == s.data[0] && t[1] == s.data[1] && NameOf(t) == s.name
    ensures var all := SetsFrom(d, i);
            SetsFrom(Put(d, all[k].offset, t), i) == all[k := all[k].(data := t)]
    decreases |d| - i
  {
    hide SetsFrom, NameOf, Put;
    var all := SetsFrom(d, i);
    var at := all[k].offset;
    Within(d, i, k);
    StepIs(d, i);
    if d[i] != FILE || d[i + 1] == 0 {
      Within(d, i + 32, k);
      Replaced(d, i + 32, k, t);
      ReplacedSkip(d, i, at, t);
    } else if k == 0 {
      ReplacedFirst(d, i, t);
    } else {
      var x, rest := SetAt(d, i), SetsFrom(d, End(d, i));
      hide SetAt;
      Within(d, End(d, i), k - 1);
      Replaced(d, End(d, i), k - 1, t);
      ReplacedRest(d, i, at, t);
      Later(x, rest, k, all[k].(data := t));
    }
  }

  lemma JoinedIs(s: seq<byte>, k: nat)
    ensures Joined(s, k) == if k + 32 > |s| then [] else
                              (if s[k] == NAME then s[k + 2..k + 32] else []) + Joined(s, k + 32)
  {}

  lemma {:induction false} SameJoined(s: seq<byte>, t: seq<byte>, k: nat)
    requires |s| == |t| && forall i :: k <= i < |s| ==> s[i] == t[i]
    ensures Joined(s, k) == Joined(t, k)
    decreases |s| - k
  {
    JoinedIs(s, k);
    JoinedIs(t, k);
    hide Joined;
    if k + 32 <= |s| {
      SameJoined(s, t, k + 32);
      assert s[k + 2..k + 32] == t[k + 2..k + 32];
    }
  }

  /** A change touches neither the entry types, nor the counts, nor the name. */
  lemma ChangeKeeps(s: seq<byte>, c: Change)
    requires |s| >= 64
    ensures var t := Seal(Changed(s, c));
            |t| == |s| && t[0] == s[0] && t[1] == s[1] && t[32] == s[32] && Sealed(t) && NameOf(t) == NameOf(s)
  {
    var t := Seal(Changed(s, c));
    SealFixed(Changed(s, c));
    hide Checksum;
    assert forall i :: 64 <= i < |s| ==> t[i] == s[i];
    SameJoined(s, t, 64);
  }

  function OrElse<T>(o: Option<T>, otherwise: T): T { if o.Some? then o.value else otherwise }

  /** The walk sees the chosen set changed and sealed, and every other one, and
      its own name, as they were. */
  lemma RestreamOnly(d: seq<byte>, k: nat, c: Change)
    requires k < |SetsFrom(d, 0)|
    ensures var all := SetsFrom(d, 0);
            && 2 <= all[k].count && all[k].offset + 32 * all[k].count <= |d| && |all[k].data| >= 64
            && var t := Seal(Changed(all[k].data, c));
               && SetsFrom(Restreamed(d, all[k].offset, all[k].count, c), 0) == all[k := all[k].(data := t)]
               && Sealed(t) && NameOf(t) == all[k].name
  {
    hide SetsFrom, NameOf, Changed, Seal, Put, Sealed;
    Within(d, 0, k);
    var s := SetsFrom(d, 0)[k];
    ChangeKeeps(s.data, c);
    Replaced(d, 0, k, Seal(Changed(s.data, c)));
  }

  /** Its extent is what was asked for, and what it was where nothing was. */
  lemma ChangedExtent(s: Set, c: Change)
    requires |s.data| >= 64 && c.Fits() && ExtentOf(s).Some?
    ensures var was := ExtentOf(s).value;
            ExtentOf(s.(data := Seal(Changed(s.data, c)))) ==
            Some(Extent(OrElse(c.first, was.first), OrElse(c.size, was.size), OrElse(c.size, was.valid),
                        if c.flags.Some? then c.flags.value / 2 % 2 == 0 else was.chained))
  {
    hide Seal, Changed, ToLE, FromLE, Pow256;
    FieldChanged(s.data, c, 52, if c.first.Some? then ToLE(c.first.value, 4) else s.data[52..56]);
    FieldChanged(s.data, c, 56, if c.size.Some? then ToLE(c.size.value, 8) else s.data[56..64]);
    FieldChanged(s.data, c, 40, if c.size.Some? then ToLE(c.size.value, 8) else s.data[40..48]);
    ByteChanged(s.data, c, 32);
    ByteChanged(s.data, c, 33);
    if c.first.Some? { Word32Back(c.first.value); }
    if c.size.Some? { Word64Back(c.size.value); }
  }

  lemma ByteChanged(s: seq<byte>, c: Change, i: nat)
    requires |s| >= 64 && 4 <= i < |s|
    ensures Seal(Changed(s, c))[i] == ChangedByte(s, c, i)
  {
    hide Checksum, ChangedByte;
  }

  lemma FieldChanged(s: seq<byte>, c: Change, at: nat, t: seq<byte>)
    requires |s| >= 64 && 4 <= at && at + |t| <= 64
    requires forall i :: 0 <= i < |t| ==> ChangedByte(s, c, at + i) == t[i]
    ensures Seal(Changed(s, c))[at..at + |t|] == t
  {
    hide Seal, Changed, ChangedByte;
    forall i | 0 <= i < |t| ensures Seal(Changed(s, c))[at + i] == t[i] { ByteChanged(s, c, at + i); }
  }
}
