/** MBR disks (scripts/mbrdisk.py, scripts/disksig.py): laying partitions out,
    reading the table back, and signing. */
module MbrDisk {
  import opened Bytes

  const TABLE := 446
  const SIG_OFFSET := 440
  const ESP_TYPE := 0x0C
  const EXT2_TYPE := 0x83
  const WORD := 0x1_0000_0000

  datatype Part = Part(ptype: byte, data: seq<byte>, bootable: bool)

  datatype Entry = Entry(number: nat, ptype: byte, start: nat, sectors: nat)

  function Sectors(data: seq<byte>): nat { (|data| + 511) / 512 }

  /** 1 MiB alignment, in sectors. */
  function AlignUp(lba: nat): nat { (lba + 2047) / 2048 * 2048 }

  /** Where partition i starts; for i past the last, the disk's length. */
  function Start(parts: seq<Part>, i: nat): nat
    requires i <= |parts|
  {
    if i == 0 then 2048 else AlignUp(Start(parts, i - 1) + Sectors(parts[i - 1].data))
  }

  /** What four 32-bit entries can describe. */
  predicate Fits(parts: seq<Part>) {
    |parts| <= 4 && forall i :: 0 <= i < |parts| ==> Start(parts, i) < WORD && Sectors(parts[i].data) < WORD
  }

  // The layout.

  lemma AlignedUp(lba: nat)
    ensures AlignUp(lba) % 2048 == 0 && lba <= AlignUp(lba) < lba + 2048
  {}

  lemma Covers(data: seq<byte>)
    ensures |data| <= 512 * Sectors(data) < |data| + 512
  {}

  /** Aligned, and clear of the MBR and of every partition before. */
  lemma {:induction false} Apart(parts: seq<Part>, i: nat, j: nat)
    requires i <= j <= |parts|
    ensures 2048 <= Start(parts, i) <= Start(parts, j) && Start(parts, j) % 2048 == 0
    ensures i < j ==> Start(parts, i) + Sectors(parts[i].data) <= Start(parts, j)
    ensures i < j ==> 512 * Start(parts, i) + |parts[i].data| <= 512 * Start(parts, j)
    decreases j
  {
    if i < j {
      AlignedUp(Start(parts, j - 1) + Sectors(parts[j - 1].data));
      Apart(parts, i, j - 1);
      Covers(parts[i].data);
    } else if j > 0 {
      AlignedUp(Start(parts, j - 1) + Sectors(parts[j - 1].data));
      Apart(parts, j - 1, j - 1);
    }
  }

  function EntryBytes(p: Part, start: nat): (s: seq<byte>)
    ensures |s| == 16
  {
    [if p.bootable then 0x80 else 0, 0xFF, 0xFF, 0xFF, p.ptype, 0xFF, 0xFF, 0xFF]
    + ToLE(start, 4) + ToLE(Sectors(p.data), 4)
  }

  ghost predicate At(disk: seq<byte>, at: nat, s: seq<byte>) {
    at + |s| <= |disk| && forall k :: 0 <= k < |s| ==> disk[at + k] == s[k]
  }

  /** Whether byte b belongs to a partition of the first n. */
  ghost predicate Held(parts: seq<Part>, n: nat, b: nat)
    requires n <= |parts|
  {
    exists i :: 0 <= i < n && 512 * Start(parts, i) <= b < 512 * Start(parts, i) + |parts[i].data|
  }

  ghost predicate Tabled(disk: seq<byte>, parts: seq<Part>, n: nat)
    requires n <= |parts| <= 4
  {
    forall i :: 0 <= i < n ==> At(disk, TABLE + 16 * i, EntryBytes(parts[i], Start(parts, i)))
  }

  ghost predicate Stored(disk: seq<byte>, parts: seq<Part>, n: nat)
    requires n <= |parts|
  {
    forall i :: 0 <= i < n ==> At(disk, 512 * Start(parts, i), parts[i].data)
  }

  ghost predicate Cleared(disk: seq<byte>, parts: seq<Part>, n: nat)
    requires n <= |parts|
  {
    forall b :: 0 <= b < |disk| && !(TABLE <= b < TABLE + 16 * n) && !Held(parts, n, b) ==> disk[b] == 0
  }

  /** The first n partitions are on the disk, in the table and in their place, and nothing else is. */
  ghost predicate Laid(disk: seq<byte>, parts: seq<Part>, n: nat)
    requires n <= |parts| <= 4
  {
    |disk| == 512 * Start(parts, |parts|) && Tabled(disk, parts, n) && Stored(disk, parts, n) && Cleared(disk, parts, n)
  }

  /** `now` is `was` with `s` written at `lo`. */
  ghost predicate Patched(was: seq<byte>, now: seq<byte>, lo: nat, s: seq<byte>) {
    && |now| == |was| && lo + |s| <= |was|
    && forall b :: 0 <= b < |was| ==> now[b] == if lo <= b < lo + |s| then s[b - lo] else was[b]
  }

  lemma PatchedAt(was: seq<byte>, now: seq<byte>, lo: nat, s: seq<byte>)
    requires Patched(was, now, lo, s)
    ensures At(now, lo, s)
  {}

  lemma PatchedKeeps(was: seq<byte>, now: seq<byte>, lo: nat, s: seq<byte>, at: nat, t: seq<byte>)
    requires Patched(was, now, lo, s) && At(was, at, t) && (at + |t| <= lo || lo + |s| <= at)
    ensures At(now, at, t)
  {}

  lemma TableStep(was: seq<byte>, mid: seq<byte>, now: seq<byte>, parts: seq<Part>, i: nat)
    requires i < |parts| <= 4 && Tabled(was, parts, i)
    requires Patched(was, mid, TABLE + 16 * i, EntryBytes(parts[i], Start(parts, i)))
    requires Patched(mid, now, 512 * Start(parts, i), parts[i].data)
    ensures Tabled(now, parts, i + 1)
  {
    hide At, Patched, EntryBytes, Start;
    Apart(parts, i, i);
    forall j | 0 <= j < i + 1 ensures At(now, TABLE + 16 * j, EntryBytes(parts[j], Start(parts, j))) {
      var e := EntryBytes(parts[j], Start(parts, j));
      if j < i {
        PatchedKeeps(was, mid, TABLE + 16 * i, EntryBytes(parts[i], Start(parts, i)), TABLE + 16 * j, e);
      } else {
        PatchedAt(was, mid, TABLE + 16 * i, e);
      }
      PatchedKeeps(mid, now, 512 * Start(parts, i), parts[i].data, TABLE + 16 * j, e);
    }
  }

  lemma StoreStep(was: seq<byte>, mid: seq<byte>, now: seq<byte>, parts: seq<Part>, i: nat)
    requires i < |parts| <= 4 && Stored(was, parts, i)
    requires Patched(was, mid, TABLE + 16 * i, EntryBytes(parts[i], Start(parts, i)))
    requires Patched(mid, now, 512 * Start(parts, i), parts[i].data)
    ensures Stored(now, parts, i + 1)
  {
    hide At, Patched, EntryBytes, Start;
    forall j | 0 <= j < i + 1 ensures At(now, 512 * Start(parts, j), parts[j].data) {
      Apart(parts, j, i);
      if j < i {
        PatchedKeeps(was, mid, TABLE + 16 * i, EntryBytes(parts[i], Start(parts, i)), 512 * Start(parts, j),
                     parts[j].data);
        PatchedKeeps(mid, now, 512 * Start(parts, i), parts[i].data, 512 * Start(parts, j), parts[j].data);
      } else {
        PatchedAt(mid, now, 512 * Start(parts, i), parts[i].data);
      }
    }
  }

  lemma ClearStep(was: seq<byte>, mid: seq<byte>, now: seq<byte>, parts: seq<Part>, i: nat)
    requires i < |parts| <= 4 && Cleared(was, parts, i)
    requires Patched(was, mid, TABLE + 16 * i, EntryBytes(parts[i], Start(parts, i)))
    requires Patched(mid, now, 512 * Start(parts, i), parts[i].data)
    ensures Cleared(now, parts, i + 1)
  {
    hide EntryBytes, Start;
    forall b | 0 <= b < |now| && !(TABLE <= b < TABLE + 16 * (i + 1)) && !Held(parts, i + 1, b) ensures now[b] == 0 {
      assert !(512 * Start(parts, i) <= b < 512 * Start(parts, i) + |parts[i].data|);
      assert !Held(parts, i, b);
    }
  }

  method CopyInto(a: array<byte>, at: nat, s: seq<byte>)
    requires at + |s| <= a.Length
    modifies a
    ensures Patched(old(a[..]), a[..], at, s)
  {
    for k := 0 to |s|
      invariant forall b :: 0 <= b < a.Length ==> a[b] == if at <= b < at + k then s[b - at] else old(a[b])
    {
      a[at + k] := s[k];
    }
  }

  /** Partition i: its entry, then its payload. */
  method Place(disk: array<byte>, parts: seq<Part>, i: nat, start: nat)
    requires i < |parts| <= 4 && start == Start(parts, i) && Laid(disk[..], parts, i)
    modifies disk
    ensures Laid(disk[..], parts, i + 1)
  {
    hide Tabled, Stored, Cleared, Patched, EntryBytes;
    ghost var was := disk[..];
    Apart(parts, i, |parts|);
    Apart(parts, 0, |parts|);
    CopyInto(disk, TABLE + 16 * i, EntryBytes(parts[i], start));
    ghost var mid := disk[..];
    CopyInto(disk, 512 * start, parts[i].data);
    TableStep(was, mid, disk[..], parts, i);
    StoreStep(was, mid, disk[..], parts, i);
    ClearStep(was, mid, disk[..], parts, i);
  }

  /** Where each partition goes, and how long the disk is; None past four, or past what an entry can hold. */
  method LayOut(parts: seq<Part>) returns (starts: Option<seq<nat>>, lba: nat)
    ensures starts.Some? <==> Fits(parts)
    ensures starts.Some? ==> |starts.value| == |parts| && lba == Start(parts, |parts|)
                             && forall j :: 0 <= j < |parts| ==> starts.value[j] == Start(parts, j)
  {
    hide AlignUp, Sectors;
    lba := 2048;
    if |parts| > 4 { return None, lba; }
    var s: seq<nat> := [];
    for i := 0 to |parts|
      invariant |s| == i && lba == Start(parts, i)
      invariant forall j :: 0 <= j < i ==> s[j] == Start(parts, j) < WORD && Sectors(parts[j].data) < WORD
    {
      var sectors := Sectors(parts[i].data);
      if lba >= WORD || sectors >= WORD { return None, lba; }
      s := s + [lba];
      lba := AlignUp(lba + sectors);
    }
    starts := Some(s);
  }

  /** The bytes an assembled disk has at the end of its first sector. */
  function Marked(disk: seq<byte>): (r: seq<byte>)
    requires |disk| >= 512
    ensures |r| == |disk|
  {
    disk[510 := 0x55][511 := 0xAA]
  }

  /** The disk of these partitions, signed with what the digest gives. */
  ghost predicate IsAssembled(disk: seq<byte>, parts: seq<Part>, digest: seq<byte> -> seq<byte>) {
    exists bare :: AssembledFrom(disk, bare, parts, digest)
  }

  ghost predicate AssembledFrom(disk: seq<byte>, bare: seq<byte>, parts: seq<Part>, digest: seq<byte> -> seq<byte>) {
    && |parts| <= 4 && Laid(bare, parts, |parts|) && |bare| >= 512
    && |digest(Signed(Marked(bare), 0))| >= 4 && disk == Signed(Marked(bare), SignatureFor(digest, Marked(bare)))
  }

  /** Laid out, marked, and signed from its own bytes; None when LayOut gives none. */
  method Assemble(parts: seq<Part>, digest: seq<byte> -> seq<byte>) returns (r: Option<seq<byte>>)
    requires forall d :: |digest(d)| >= 4
    ensures r.Some? <==> Fits(parts)
    ensures r.Some? ==> IsAssembled(r.value, parts, digest)
  {
    var starts, lba := LayOut(parts);
    if starts.None? { return None; }
    Apart(parts, 0, |parts|);
    var disk := new byte[lba * 512](_ => 0);
    assert Laid(disk[..], parts, 0);
    hide Laid, Start, Fits, SignatureFor, ToLE;
    for i := 0 to |parts|
      invariant Laid(disk[..], parts, i)
    {
      Place(disk, parts, i, starts.value[i]);
    }
    ghost var bare := disk[..];
    disk[510], disk[511] := 0x55, 0xAA;
    assert disk[..] == Marked(bare);
    var sig := SignatureFor(digest, disk[..]);
    CopyInto(disk, SIG_OFFSET, ToLE(sig, 4));
    r := Some(disk[..]);
    assert r.value == Signed(Marked(bare), sig);
    assert AssembledFrom(r.value, bare, parts, digest);
  }

  /** An assembled disk's second sector is blank, so it is never taken for a GPT's and always signed. */
  lemma NeverGpt(bare: seq<byte>, parts: seq<Part>)
    requires |parts| <= 4 && Laid(bare, parts, |parts|) && |bare| >= 1024
    ensures Marked(bare)[512] == 0
  {
    forall i | 0 <= i < |parts| ensures 512 * Start(parts, i) > 512 { Apart(parts, i, i); }
    hide Start;
    assert !Held(parts, |parts|, 512);
  }

  // Reading it back.

  function TypeAt(s: seq<byte>, i: nat): byte
    requires i < 4 && |s| >= 512
  {
    s[TABLE + 16 * i + 4]
  }

  function EntryAt(s: seq<byte>, i: nat): Entry
    requires i < 4 && |s| >= 512
  {
    var e := TABLE + 16 * i;
    Entry(i + 1, s[e + 4], FromLE(s[e + 8..e + 12]), FromLE(s[e + 12..e + 16]))
  }

  /** Entries i on, or None at a GPT's protective one. */
  function EntriesFrom(s: seq<byte>, i: nat): Option<seq<Entry>>
    requires i <= 4 && |s| >= 512
    decreases 4 - i
  {
    if i == 4 then Some([])
    else if TypeAt(s, i) == 0xEE then None
    else Prepend(if TypeAt(s, i) != 0 && EntryAt(s, i).sectors != 0 then [EntryAt(s, i)] else [], EntriesFrom(s, i + 1))
  }

  function Prepend(a: seq<Entry>, o: Option<seq<Entry>>): Option<seq<Entry>> {
    match o
    case None => None
    case Some(rest) => Some(a + rest)
  }

  lemma Prepends(a: seq<Entry>, b: seq<Entry>, o: Option<seq<Entry>>)
    ensures Prepend([], o) == o && Prepend(a, Prepend(b, o)) == Prepend(a + b, o)
  {
    if o.Some? { assert [] + o.value == o.value && a + (b + o.value) == (a + b) + o.value; }
  }

  function EntriesOf(s: seq<byte>): Option<seq<Entry>> {
    if |s| < 512 || s[510] != 0x55 || s[511] != 0xAA then None else EntriesFrom(s, 0)
  }

  method Entries(s: seq<byte>) returns (r: Option<seq<Entry>>)
    ensures r == EntriesOf(s)
  {
    if |s| < 512 || s[510] != 0x55 || s[511] != 0xAA { return None; }
    var parts: seq<Entry> := [];
    Prepends([], [], EntriesFrom(s, 0));
    for i := 0 to 4
      invariant EntriesFrom(s, 0) == Prepend(parts, EntriesFrom(s, i))
    {
      var e := EntryAt(s, i);
      if TypeAt(s, i) == 0xEE { return None; }
      var used := if TypeAt(s, i) != 0 && e.sectors != 0 then [e] else [];
      Prepends(parts, used, EntriesFrom(s, i + 1));
      parts := parts + used;
    }
    assert parts + [] == parts;
    r := Some(parts);
  }

  /** What the table should say: the partitions from i on that are used, or None if one is of type 0xEE. */
  function Expected(parts: seq<Part>, i: nat): Option<seq<Entry>>
    requires i <= |parts|
    decreases |parts| - i
  {
    if i == |parts| then Some([])
    else if parts[i].ptype == 0xEE then None
    else
      var e := Entry(i + 1, parts[i].ptype, Start(parts, i), Sectors(parts[i].data));
      Prepend(if parts[i].ptype != 0 && parts[i].data != [] then [e] else [], Expected(parts, i + 1))
  }

  lemma EntryBack(s: seq<byte>, i: nat, p: Part, start: nat)
    requires i < 4 && |s| >= 512 && At(s, TABLE + 16 * i, EntryBytes(p, start))
    requires start < WORD && Sectors(p.data) < WORD
    ensures TypeAt(s, i) == p.ptype && EntryAt(s, i) == Entry(i + 1, p.ptype, start, Sectors(p.data))
  {
    var e, b := TABLE + 16 * i, EntryBytes(p, start);
    hide ToLE, FromLE, Pow256, Sectors;
    assert s[e + 4] == b[4];
    assert s[e + 8..e + 12] == ToLE(start, 4) by {
      assert forall k :: 0 <= k < 4 ==> s[e + (8 + k)] == b[8 + k] == ToLE(start, 4)[k];
    }
    assert s[e + 12..e + 16] == ToLE(Sectors(p.data), 4) by {
      assert forall k :: 0 <= k < 4 ==> s[e + (12 + k)] == b[12 + k] == ToLE(Sectors(p.data), 4)[k];
    }
    Word32Back(start);
    Word32Back(Sectors(p.data));
  }

  /** Bytes a partition may not lie on: everything before the first megabyte. */
  lemma NotHeld(parts: seq<Part>, n: nat, b: nat)
    requires n <= |parts| && b < 512
    ensures !Held(parts, n, b)
  {
    forall i | 0 <= i < n ensures 512 * Start(parts, i) > b { Apart(parts, i, i); }
  }

  lemma SlotBack(bare: seq<byte>, parts: seq<Part>, i: nat)
    requires Fits(parts) && Laid(bare, parts, |parts|) && |bare| >= 512 && i < 4
    ensures i < |parts| ==>
              TypeAt(bare, i) == parts[i].ptype
              && EntryAt(bare, i) == Entry(i + 1, parts[i].ptype, Start(parts, i), Sectors(parts[i].data))
    ensures i >= |parts| ==> TypeAt(bare, i) == 0
  {
    hide Start, EntryBytes, EntryAt, Stored, At, Held, Sectors;
    if i < |parts| {
      assert At(bare, TABLE + 16 * i, EntryBytes(parts[i], Start(parts, i)));
      EntryBack(bare, i, parts[i], Start(parts, i));
    } else {
      NotHeld(parts, |parts|, TABLE + 16 * i + 4);
    }
  }

  lemma {:induction false} TableBack(bare: seq<byte>, parts: seq<Part>, i: nat)
    requires Fits(parts) && Laid(bare, parts, |parts|) && |bare| >= 512 && i <= 4
    ensures EntriesFrom(bare, i) == if i <= |parts| then Expected(parts, i) else Some([])
    decreases 4 - i
  {
    hide Laid, TypeAt, EntryAt, Start, Sectors, Prepend;
    if i < 4 {
      TableBack(bare, parts, i + 1);
      SlotBack(bare, parts, i);
      Prepends([], [], EntriesFrom(bare, i + 1));
      if i < |parts| { Covers(parts[i].data); }
    }
  }

  /** Bytes outside the table do not change what it says. */
  lemma {:induction false} SameTable(s: seq<byte>, t: seq<byte>, i: nat)
    requires |s| >= 512 && |t| >= 512 && i <= 4 && s[TABLE..510] == t[TABLE..510]
    ensures EntriesFrom(s, i) == EntriesFrom(t, i)
    decreases 4 - i
  {
    if i < 4 {
      SameTable(s, t, i + 1);
      hide EntriesFrom, FromLE;
      var e := TABLE + 16 * i;
      assert forall k :: TABLE <= k < 510 ==> s[k] == s[TABLE..510][k - TABLE] == t[k];
      assert s[e + 8..e + 12] == t[e + 8..e + 12] && s[e + 12..e + 16] == t[e + 12..e + 16];
    }
  }

  lemma EntriesBare(bare: seq<byte>, parts: seq<Part>)
    requires Fits(parts) && Laid(bare, parts, |parts|) && |bare| >= 512
    ensures EntriesOf(Marked(bare)) == Expected(parts, 0)
  {
    TableBack(bare, parts, 0);
    assert bare[TABLE..510] == Marked(bare)[TABLE..510];
    SameTable(bare, Marked(bare), 0);
  }

  lemma BootByte(disk: seq<byte>, at: nat, p: Part, start: nat)
    requires At(disk, at, EntryBytes(p, start))
    ensures disk[at] == if p.bootable then 0x80 else 0
    ensures forall k :: at < k < at + 8 && k != at + 4 ==> disk[k] == 0xFF
  {
    hide ToLE, Sectors;
    var b := EntryBytes(p, start);
    assert disk[at + 0] == b[0];
    forall k | at < k < at + 8 && k != at + 4 ensures disk[k] == 0xFF { assert disk[at + (k - at)] == b[k - at]; }
  }

  lemma BootBare(bare: seq<byte>, parts: seq<Part>, i: nat)
    requires |parts| <= 4 && Laid(bare, parts, |parts|) && |bare| >= 512 && i < |parts|
    ensures var e := TABLE + 16 * i;
            && Marked(bare)[e] == (if parts[i].bootable then 0x80 else 0)
            && forall k :: e < k < e + 8 && k != e + 4 ==> Marked(bare)[k] == 0xFF
  {
    hide Start, EntryBytes, Stored, Cleared, At;
    assert At(bare, TABLE + 16 * i, EntryBytes(parts[i], Start(parts, i)));
    BootByte(bare, TABLE + 16 * i, parts[i], Start(parts, i));
  }

  lemma PayloadBare(bare: seq<byte>, parts: seq<Part>, i: nat)
    requires |parts| <= 4 && Laid(bare, parts, |parts|) && |bare| >= 512 && i < |parts|
    ensures Holds(Marked(bare), parts, i)
  {
    Apart(parts, i, |parts|);
    hide Start;
    assert At(bare, 512 * Start(parts, i), parts[i].data);
  }

  // Signing.

  function Signed(disk: seq<byte>, sig: nat): (r: seq<byte>)
    requires |disk| >= 512
    ensures |r| == |disk|
  {
    disk[..SIG_OFFSET] + ToLE(sig, 4) + disk[SIG_OFFSET + 4..]
  }

  function SignatureOf(disk: seq<byte>): nat
    requires |disk| >= 512
  {
    FromLE(disk[SIG_OFFSET..SIG_OFFSET + 4])
  }

  /** The signature a digest gives: of the disk with its signature blanked, 0 made 1. */
  function SignatureFor(digest: seq<byte> -> seq<byte>, disk: seq<byte>): nat
    requires |disk| >= 512 && |digest(Signed(disk, 0))| >= 4
  {
    var v := FromLE(digest(Signed(disk, 0))[..4]);
    if v == 0 then 1 else v
  }

  /** Signing changes no entry and no payload, is read back, and a disk signed
      from its own bytes is still signed from its own bytes. */
  lemma SigningKeeps(disk: seq<byte>, sig: nat)
    requires |disk| >= 512 && sig < WORD
    ensures EntriesOf(Signed(disk, sig)) == EntriesOf(disk) && SignatureOf(Signed(disk, sig)) == sig
    ensures Signed(disk, sig)[512..] == disk[512..]
    ensures forall v :: Signed(Signed(disk, sig), v) == Signed(disk, v)
  {
    var t := Signed(disk, sig);
    hide ToLE, EntriesFrom, FromLE;
    assert forall k :: SIG_OFFSET + 4 <= k < |disk| ==> t[k] == disk[k];
    assert t[TABLE..510] == disk[TABLE..510];
    SameTable(t, disk, 0);
    assert t[SIG_OFFSET..SIG_OFFSET + 4] == ToLE(sig, 4);
    Word32Back(sig);
    assert t[..SIG_OFFSET] == disk[..SIG_OFFSET] && t[SIG_OFFSET + 4..] == disk[SIG_OFFSET + 4..];
  }

  lemma SignatureFixed(digest: seq<byte> -> seq<byte>, disk: seq<byte>, sig: nat)
    requires |disk| >= 512 && sig < WORD && |digest(Signed(disk, 0))| >= 4
    ensures Signed(Signed(disk, sig), 0) == Signed(disk, 0)
    ensures SignatureFor(digest, Signed(disk, sig)) == SignatureFor(digest, disk)
  {
    SigningKeeps(disk, sig);
  }

  lemma SignatureFits(digest: seq<byte> -> seq<byte>, disk: seq<byte>)
    requires |disk| >= 512 && |digest(Signed(disk, 0))| >= 4
    ensures 0 < SignatureFor(digest, disk) < WORD
  {
    var d := digest(Signed(disk, 0))[..4];
    ToFromLE(d);
    assert Pow256(4) == WORD;
  }

  // What an assembled disk says.

  /** Its table is exactly what was laid out, and its signature what its bytes give. */
  lemma EntriesBack(disk: seq<byte>, parts: seq<Part>, digest: seq<byte> -> seq<byte>)
    requires Fits(parts) && IsAssembled(disk, parts, digest)
    ensures |disk| >= 512 && EntriesOf(disk) == Expected(parts, 0)
    ensures |digest(Signed(disk, 0))| >= 4 && SignatureOf(disk) == SignatureFor(digest, disk) != 0
  {
    var bare :| AssembledFrom(disk, bare, parts, digest);
    var sig := SignatureFor(digest, Marked(bare));
    hide Laid, Signed, SignatureFor, EntriesOf, Expected, Fits;
    EntriesBare(bare, parts);
    SignatureFits(digest, Marked(bare));
    SigningKeeps(Marked(bare), sig);
    SignatureFixed(digest, Marked(bare), sig);
  }

  /** Only a partition laid out bootable is marked so, and its CHS fields say nothing. */
  lemma BootBack(disk: seq<byte>, parts: seq<Part>, digest: seq<byte> -> seq<byte>, i: nat)
    requires IsAssembled(disk, parts, digest) && i < |parts| <= 4
    ensures var e := TABLE + 16 * i;
            && |disk| >= 512 && disk[e] == (if parts[i].bootable then 0x80 else 0)
            && forall k :: e < k < e + 8 && k != e + 4 ==> disk[k] == 0xFF
  {
    var bare :| AssembledFrom(disk, bare, parts, digest);
    BootBare(bare, parts, i);
    SignedPast(Marked(bare), SignatureFor(digest, Marked(bare)));
    hide Laid, Signed, SignatureFor, Marked;
  }

  lemma SignedPast(disk: seq<byte>, sig: nat)
    requires |disk| >= 512
    ensures forall k :: SIG_OFFSET + 4 <= k < |disk| ==> Signed(disk, sig)[k] == disk[k]
  {}

  lemma SignedSlice(disk: seq<byte>, sig: nat, lo: nat, hi: nat)
    requires |disk| >= 512 && SIG_OFFSET + 4 <= lo <= hi <= |disk|
    ensures Signed(disk, sig)[lo..hi] == disk[lo..hi]
  {
    SignedPast(disk, sig);
    hide Signed;
  }

  ghost predicate Holds(disk: seq<byte>, parts: seq<Part>, i: nat)
    requires i < |parts|
  {
    var at := 512 * Start(parts, i);
    512 <= at && at + |parts[i].data| <= |disk| && disk[at..at + |parts[i].data|] == parts[i].data
  }

  lemma SignedHolds(disk: seq<byte>, parts: seq<Part>, sig: nat, i: nat)
    requires i < |parts| && |disk| >= 512 && Holds(disk, parts, i)
    ensures Holds(Signed(disk, sig), parts, i)
  {
    hide Signed, Start;
    SignedSlice(disk, sig, 512 * Start(parts, i), 512 * Start(parts, i) + |parts[i].data|);
  }

  /** Each payload is where its entry says, past the MBR and inside the disk. */
  lemma PayloadBack(disk: seq<byte>, parts: seq<Part>, digest: seq<byte> -> seq<byte>, i: nat)
    requires IsAssembled(disk, parts, digest) && i < |parts| <= 4
    ensures Holds(disk, parts, i)
  {
    var bare :| AssembledFrom(disk, bare, parts, digest);
    hide Laid, Signed, SignatureFor, Marked, Holds;
    PayloadBare(bare, parts, i);
    SignedHolds(Marked(bare), parts, SignatureFor(digest, Marked(bare)), i);
  }

  // The one-disk layout.

  function OneDisk(esp: seq<byte>, root: seq<byte>): seq<Part> {
    [Part(ESP_TYPE, esp, true), Part(EXT2_TYPE, root, false)]
  }

  function Numbered(parts: seq<Entry>, n: nat): Option<Entry> {
    if parts == [] then None
    else if parts[|parts| - 1].number == n then Some(parts[|parts| - 1])
    else Numbered(parts[..|parts| - 1], n)
  }

  function IsOneDisk(parts: Option<seq<Entry>>): Option<(Entry, Entry)> {
    if parts.None? || parts.value == [] then None else
      var esp, root := Numbered(parts.value, 1), Numbered(parts.value, 2);
      if esp.Some? && root.Some? && esp.value.ptype in {0x0B, 0x0C, 0xEF} && root.value.ptype == EXT2_TYPE
      then Some((esp.value, root.value)) else None
  }

  function OneDiskTable(esp: seq<byte>, root: seq<byte>): seq<Entry> {
    (if esp != [] then [Entry(1, ESP_TYPE, 2048, Sectors(esp))] else [])
    + if root != [] then [Entry(2, EXT2_TYPE, Start(OneDisk(esp, root), 1), Sectors(root))] else []
  }

  lemma OneDiskExpected(esp: seq<byte>, root: seq<byte>)
    ensures Expected(OneDisk(esp, root), 0) == Some(OneDiskTable(esp, root))
  {
    var parts := OneDisk(esp, root);
    assert Start(parts, 0) == 2048;
    hide Start, Sectors;
    var b := if root != [] then [Entry(2, EXT2_TYPE, Start(parts, 1), Sectors(root))] else [];
    assert Expected(parts, 2) == Some([]);
    assert b + [] == b;
    assert Expected(parts, 1) == Prepend(b, Some([]));
  }

  lemma Recognised(esp: seq<byte>, root: seq<byte>)
    ensures IsOneDisk(Some(OneDiskTable(esp, root))).Some? <==> esp != [] && root != []
    ensures esp != [] && root != [] ==>
              IsOneDisk(Some(OneDiskTable(esp, root))) ==
              Some((Entry(1, ESP_TYPE, 2048, Sectors(esp)),
                    Entry(2, EXT2_TYPE, Start(OneDisk(esp, root), 1), Sectors(root))))
  {
    hide Start, Sectors;
    var t := OneDiskTable(esp, root);
    if esp != [] && root != [] {
      assert t[..1] == [Entry(1, ESP_TYPE, 2048, Sectors(esp))];
      assert Numbered(t, 2) == Some(t[1]) && Numbered(t, 1) == Numbered(t[..1], 1) == Some(t[0]);
    } else {
      assert |t| <= 1;
      assert Numbered(t, 1).None? || Numbered(t, 2).None?;
    }
  }

  /** An assembled disk of that layout is recognised exactly when neither payload is empty, with both where they are. */
  lemma OneDiskRecognised(disk: seq<byte>, esp: seq<byte>, root: seq<byte>, digest: seq<byte> -> seq<byte>)
    requires Fits(OneDisk(esp, root)) && IsAssembled(disk, OneDisk(esp, root), digest)
    ensures var r := IsOneDisk(EntriesOf(disk));
            && (r.Some? <==> esp != [] && root != [])
            && (r.Some? ==> r.value == (Entry(1, ESP_TYPE, 2048, Sectors(esp)),
                                        Entry(2, EXT2_TYPE, Start(OneDisk(esp, root), 1), Sectors(root))))
  {
    hide Start, Sectors, IsAssembled, EntriesOf, Fits, IsOneDisk, Expected, OneDiskTable;
    EntriesBack(disk, OneDisk(esp, root), digest);
    OneDiskExpected(esp, root);
    Recognised(esp, root);
  }
}
