/** The same disks byte by byte: where `assemble` puts each field, what `entries`
    makes of any sector, and what `is_one_disk` takes (scripts/mbrdisk.py,
    scripts/disksig.py, scripts/bootstick.py). */
module MbrBytes {
  import opened Bytes
  import opened MbrDisk

  /** The first partition is at 1 MiB, and each after it at the first 1 MiB boundary the one before leaves. */
  lemma StartLeast(parts: seq<Part>, i: nat, lba: nat)
    requires i < |parts|
    ensures Start(parts, 0) == 2048
    ensures var end := 512 * Start(parts, i) + |parts[i].data|;
            && Start(parts, i + 1) % 2048 == 0 && end <= 512 * Start(parts, i + 1)
            && (lba % 2048 == 0 && end <= 512 * lba ==> Start(parts, i + 1) <= lba)
  {
    var end := Start(parts, i) + Sectors(parts[i].data);
    assert Start(parts, i + 1) == AlignUp(end);
    Covers(parts[i].data);
    AlignedUp(end);
    hide Start, AlignUp, Sectors;
    if lba % 2048 == 0 && 512 * Start(parts, i) + |parts[i].data| <= 512 * lba {
      LeastMultiple(end, AlignUp(end), lba);
    }
  }

  lemma LeastMultiple(end: nat, up: nat, lba: nat)
    requires up % 2048 == 0 && lba % 2048 == 0 && up < end + 2048 && end <= lba
    ensures up <= lba
  {}

  /** Entry i of the table, in its sixteen bytes. */
  ghost predicate Says(disk: seq<byte>, i: nat, p: Part, start: nat, sectors: nat)
    requires |disk| >= 512 && i < 4
  {
    var e := 446 + 16 * i;
    && disk[e] == (if p.bootable then 0x80 else 0) && disk[e + 1] == disk[e + 2] == disk[e + 3] == 0xFF
    && disk[e + 4] == p.ptype && disk[e + 5] == disk[e + 6] == disk[e + 7] == 0xFF
    && FromLE(disk[e + 8..e + 12]) == start && FromLE(disk[e + 12..e + 16]) == sectors
  }

  /** An assembled disk's table says of each partition its type, its boot mark, and where it lies. */
  lemma AssembledSays(disk: seq<byte>, parts: seq<Part>, digest: seq<byte> -> seq<byte>, i: nat)
    requires Fits(parts) && IsAssembled(disk, parts, digest) && i < |parts|
    ensures |disk| == 512 * Start(parts, |parts|) && |disk| >= 512 && disk[510] == 0x55 && disk[511] == 0xAA
    ensures i < 4 && Says(disk, i, parts[i], Start(parts, i), Sectors(parts[i].data))
  {
    var bare :| AssembledFrom(disk, bare, parts, digest);
    assert |bare| == 512 * Start(parts, |parts|);
    MarkedSigned(bare, disk, SignatureFor(digest, Marked(bare)));
    hide Signed, SignatureFor, Start, Sectors, Says, Laid, Marked, AssembledFrom;
    SaysBare(bare, parts, i);
    SaysSame(bare, disk, i, parts[i], Start(parts, i), Sectors(parts[i].data));
  }

  lemma MarkedSigned(bare: seq<byte>, disk: seq<byte>, sig: nat)
    requires |bare| >= 512 && disk == Signed(Marked(bare), sig)
    ensures |disk| == |bare| && disk[510] == 0x55 && disk[511] == 0xAA
    ensures forall k :: 446 <= k < 510 ==> disk[k] == bare[k]
  {
    SignedPast(Marked(bare), sig);
    hide Signed;
  }

  lemma SaysBare(bare: seq<byte>, parts: seq<Part>, i: nat)
    requires Fits(parts) && Laid(bare, parts, |parts|) && |bare| >= 512 && i < |parts|
    ensures i < 4 && Says(bare, i, parts[i], Start(parts, i), Sectors(parts[i].data))
  {
    SlotBack(bare, parts, i);
    assert At(bare, TABLE + 16 * i, EntryBytes(parts[i], Start(parts, i)));
    BootByte(bare, TABLE + 16 * i, parts[i], Start(parts, i));
    hide Laid, Start, Sectors, ToLE, FromLE, At, EntryBytes, Fits;
  }

  lemma SaysSame(s: seq<byte>, t: seq<byte>, i: nat, p: Part, start: nat, sectors: nat)
    requires |s| == |t| >= 512 && i < 4 && Says(s, i, p, start, sectors)
    requires forall k :: 446 <= k < 510 ==> t[k] == s[k]
    ensures Says(t, i, p, start, sectors)
  {
    hide FromLE;
    var e := 446 + 16 * i;
    assert t[e + 8..e + 12] == s[e + 8..e + 12] && t[e + 12..e + 16] == s[e + 12..e + 16];
  }

  /** And every byte that is no entry's, no payload's, no mark and no signature is zero. */
  lemma AssembledElse(disk: seq<byte>, parts: seq<Part>, digest: seq<byte> -> seq<byte>, b: nat)
    requires Fits(parts) && IsAssembled(disk, parts, digest) && b < |disk|
    requires !(440 <= b < 444) && !(446 <= b < 446 + 16 * |parts|) && b != 510 && b != 511
    requires forall i :: 0 <= i < |parts| ==>
               !(512 * Start(parts, i) <= b < 512 * Start(parts, i) + |parts[i].data|)
    ensures disk[b] == 0
  {
    var bare :| AssembledFrom(disk, bare, parts, digest);
    var sig := SignatureFor(digest, Marked(bare));
    SignedElse(Marked(bare), sig, b);
    hide Signed, SignatureFor, Start, Sectors, ToLE, FromLE, Tabled, Stored;
    assert !Held(parts, |parts|, b);
  }

  lemma SignedElse(disk: seq<byte>, sig: nat, b: nat)
    requires |disk| >= 512 && b < |disk| && !(440 <= b < 444)
    ensures Signed(disk, sig)[b] == disk[b]
  {}

  /** Its signature is the first four bytes of the digest of the disk with bytes 440 to 443 zero, 0 made 1. */
  lemma AssembledSigned(disk: seq<byte>, parts: seq<Part>, digest: seq<byte> -> seq<byte>)
    requires Fits(parts) && IsAssembled(disk, parts, digest)
    ensures |disk| >= 512
    ensures var d := digest(disk[440 := 0][441 := 0][442 := 0][443 := 0]);
            && |d| >= 4
            && FromLE(disk[440..444]) == if FromLE(d[..4]) == 0 then 1 else FromLE(d[..4])
  {
    EntriesBack(disk, parts, digest);
    ZeroSigned(disk);
    hide Signed, FromLE, EntriesOf, Fits, IsAssembled;
  }

  lemma FourZeros()
    ensures ToLE(0, 4) == [0, 0, 0, 0]
  {}

  lemma ZeroSigned(disk: seq<byte>)
    requires |disk| >= 512
    ensures Signed(disk, 0) == disk[440 := 0][441 := 0][442 := 0][443 := 0]
  {
    FourZeros();
    hide ToLE;
    var z := disk[440 := 0][441 := 0][442 := 0][443 := 0];
    assert z[..440] == disk[..440] && z[444..] == disk[444..] && z[440..444] == [0, 0, 0, 0];
    assert z == z[..440] + z[440..444] + z[444..];
  }

  // Any sector.

  /** What slot i holds. */
  function Slot(s: seq<byte>, i: nat): Entry
    requires i < 4 && |s| >= 512
  {
    var e := 446 + 16 * i;
    Entry(i + 1, s[e + 4], FromLE(s[e + 8..e + 12]), FromLE(s[e + 12..e + 16]))
  }

  ghost predicate Used(s: seq<byte>, i: nat)
    requires i < 4 && |s| >= 512
  {
    Slot(s, i).ptype != 0 && Slot(s, i).sectors != 0
  }

  ghost predicate IsMbr(s: seq<byte>) {
    && |s| >= 512 && s[510] == 0x55 && s[511] == 0xAA
    && s[450] != 0xEE && s[466] != 0xEE && s[482] != 0xEE && s[498] != 0xEE
  }

  lemma SlotIs(s: seq<byte>, i: nat)
    requires i < 4 && |s| >= 512
    ensures EntryAt(s, i) == Slot(s, i) && TypeAt(s, i) == s[450 + 16 * i]
  {
    hide FromLE;
  }

  function Kept(s: seq<byte>, i: nat): seq<Entry>
    requires i < 4 && |s| >= 512
  {
    if Slot(s, i).ptype != 0 && Slot(s, i).sectors != 0 then [Slot(s, i)] else []
  }

  lemma EntriesStep(s: seq<byte>, i: nat)
    requires i < 4 && |s| >= 512
    ensures EntriesFrom(s, i) == if s[450 + 16 * i] == 0xEE then None else Prepend(Kept(s, i), EntriesFrom(s, i + 1))
  {
    SlotIs(s, i);
    hide FromLE, Slot, Prepend;
    assert Slot(s, i).ptype == TypeAt(s, i) by { SlotIs(s, i); }
  }

  /** The used slots in their order, when no slot is a GPT's. */
  lemma EntriesAre(s: seq<byte>)
    ensures EntriesOf(s) == if IsMbr(s) then Some(Kept(s, 0) + Kept(s, 1) + Kept(s, 2) + Kept(s, 3)) else None
  {
    if |s| >= 512 {
      EntriesStep(s, 0);
      EntriesStep(s, 1);
      EntriesStep(s, 2);
      EntriesStep(s, 3);
      assert EntriesFrom(s, 4) == Some([]);
      hide EntriesFrom, Kept, Slot, FromLE;
      var a, b, c, d := Kept(s, 0), Kept(s, 1), Kept(s, 2), Kept(s, 3);
      assert a + (b + (c + (d + []))) == a + b + c + d;
    }
  }

  lemma {:induction false} LastNumbered(a: seq<Entry>, b: seq<Entry>, n: nat)
    ensures Numbered(a + b, n) == if Numbered(b, n).Some? then Numbered(b, n) else Numbered(a, n)
    decreases |b|
  {
    if b == [] {
      assert a + b == a;
    } else {
      assert (a + b)[..|a + b| - 1] == a + b[..|b| - 1];
      LastNumbered(a, b[..|b| - 1], n);
    }
  }

  lemma KeptNumbered(s: seq<byte>, i: nat, n: nat)
    requires i < 4 && |s| >= 512
    ensures Numbered(Kept(s, i), n) == if n == i + 1 && Used(s, i) then Some(Slot(s, i)) else None
  {
    hide FromLE;
    if Used(s, i) { assert Kept(s, i)[..0] == []; }
  }

  lemma NumberedIs(s: seq<byte>, n: nat)
    requires |s| >= 512 && 1 <= n <= 2
    ensures Numbered(Kept(s, 0) + Kept(s, 1) + Kept(s, 2) + Kept(s, 3), n) ==
            if Used(s, n - 1) then Some(Slot(s, n - 1)) else None
  {
    hide *;
    var a, b, c, d := Kept(s, 0), Kept(s, 1), Kept(s, 2), Kept(s, 3);
    LastNumbered(a, b, n);
    LastNumbered(a + b, c, n);
    LastNumbered(a + b + c, d, n);
    KeptNumbered(s, 0, n);
    KeptNumbered(s, 1, n);
    KeptNumbered(s, 2, n);
    KeptNumbered(s, 3, n);
  }

  /** The layout is recognised exactly when the sector is an MBR whose first slot is a FAT's of some length and whose
      second is ext2's, whatever the other two are. */
  lemma OneDiskIff(s: seq<byte>)
    ensures IsOneDisk(EntriesOf(s)) ==
            if IsMbr(s) && Used(s, 0) && Used(s, 1) && s[450] in {0x0B, 0x0C, 0xEF} && s[466] == 0x83
            then Some((Slot(s, 0), Slot(s, 1))) else None
  {
    EntriesAre(s);
    if IsMbr(s) {
      var t := Kept(s, 0) + Kept(s, 1) + Kept(s, 2) + Kept(s, 3);
      assert Slot(s, 0).ptype == s[450] && Slot(s, 1).ptype == s[466];
      hide EntriesOf, Slot, Kept, Used, Numbered;
      NumberedIs(s, 1);
      NumberedIs(s, 2);
      if t == [] { NoneNumbered(1); }
    }
  }

  lemma NoneNumbered(n: nat)
    ensures Numbered([], n).None?
  {}
}
