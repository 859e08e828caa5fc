/** The model as the rig runs it: fields updated in place, each method proved
    against the batch's specification. An AssertionError is a false answer. */
module AllocModel {
  import opened Bytes
  import B = AllocBatch

  function Sectors(log: seq<B.Write>): seq<int> {
    seq(|log|, i requires 0 <= i < |log| => log[i].sector)
  }

  lemma SectorsAppend(log: seq<B.Write>, w: B.Write)
    ensures Sectors(log + [w]) == Sectors(log) + [w.sector]
  {}

  lemma SectorsDirSets(log: seq<B.Write>, sets: seq<int>)
    ensures Sectors(log + B.DirSets(sets)) == Sectors(log) + sets
  {}

  class Model {
    const fatLba: int
    const bitmapLba: int
    var writes: seq<int>
    var bitmapReads: seq<int>
    var fat: Option<int>
    var fatDirty: bool
    var links: set<int>
    var taken: set<int>
    var onDisk: set<int>
    var entries: set<int>
    var entriesOnDisk: set<int>
    var scanFrom: int
    var bits: Option<int>
    var bitsDirty: bool
    var bitsHeld: set<int>
    ghost var log: seq<B.Write>
    ghost var cache: map<int, Option<int>>
    ghost var disk: B.Disk

    ghost function View(): B.State
      reads this
    {
      B.State(fatLba, bitmapLba, log, bitmapReads, fat, fatDirty, links, taken, onDisk, entries, entriesOnDisk, cache,
              scanFrom, bits, bitsDirty, bitsHeld, disk)
    }

    /** `writes` is the log's sectors, and the held sectors are in order. */
    ghost predicate Valid()
      reads this
    {
      writes == Sectors(log) && B.Inv(View())
    }

    /** Enough to go on with: `Valid` without what holds between whole steps only. */
    ghost predicate Ready()
      reads this
    {
      writes == Sectors(log) && (fatDirty ==> fat.Some?) && (bitsDirty ==> bits.Some?)
    }

    constructor (fatLba: int, bitmapLba: int, hint: int)
      ensures Valid() && View() == B.Init(fatLba, bitmapLba, hint)
    {
      this.fatLba, this.bitmapLba := fatLba, bitmapLba;
      writes, bitmapReads := [], [];
      fat, fatDirty, links := None, false, {};
      taken, onDisk, entries, entriesOnDisk := {}, {}, {}, {};
      scanFrom := hint;
      bits, bitsDirty, bitsHeld := None, false, {};
      log, cache, disk := [], map[], B.Disk({}, map[]);
    }

    method Begin()
      requires Valid() && B.Settled(View())
      modifies this
      ensures Valid() && View() == B.Begin(old(View()))
    {
      bits, bitsDirty, bitsHeld := None, false, {};
    }

    method WriteBits()
      requires writes == Sectors(log) && (bitsDirty ==> bits.Some?)
      modifies `writes, `onDisk, `bitsDirty, `log, `disk
      ensures writes == Sectors(log) && View() == B.WriteBits(old(View()))
    {
      if bitsDirty {
        writes := writes + [bits.value];
        onDisk := onDisk + bitsHeld;
        bitsDirty := false;
        SectorsAppend(log, B.Bits(bits.value, bitsHeld));
        log := log + [B.Bits(bits.value, bitsHeld)];
        disk := disk.(bits := disk.bits + bitsHeld);
      }
    }

    method FlushFat() returns (ok: bool)
      requires writes == Sectors(log) && fat.Some? && (bitsDirty ==> bits.Some?)
      modifies `writes, `onDisk, `bitsDirty, `log, `disk, `entriesOnDisk, `fatDirty, `links, `entries, `cache
      ensures ok == B.FlushFat(old(View())).Ok?
      ensures ok ==> writes == Sectors(log) && View() == B.FlushFat(old(View())).value
    {
      hide Sectors, B.CommitFat;
      WriteBits();
      ok := CommitFat();
    }

    method CommitFat() returns (ok: bool)
      requires writes == Sectors(log) && fat.Some?
      modifies `writes, `log, `disk, `entriesOnDisk, `fatDirty, `links, `entries, `cache
      ensures ok == B.CommitFat(old(View())).Ok?
      ensures ok ==> writes == Sectors(log) && View() == B.CommitFat(old(View())).value
    {
      hide Sectors, B.EarlyLinks;
      var missing := links * taken - onDisk;
      var early := B.EarlyLinks(fatLba, links * taken, fat, entriesOnDisk);
      if missing != {} || early != {} {
        return false;
      }
      SectorsAppend(log, B.Fat(fat.value, cache));
      writes := writes + [fat.value];
      log := log + [B.Fat(fat.value, cache)];
      disk := disk.(fat := disk.fat + cache);
      entriesOnDisk := entriesOnDisk + entries;
      fatDirty, links, entries := false, {}, {};
      cache := map[];
      ok := true;
    }

    method Touch(c: int) returns (ok: bool)
      requires Ready()
      modifies this
      ensures ok == B.Touch(old(View()), c).Ok?
      ensures ok ==> writes == Sectors(log) && View() == B.Touch(old(View()), c).value
    {
      hide Sectors, B.FlushFat;
      var s := fatLba + c * 4 / 512;
      if fatDirty && fat != Some(s) {
        ok := FlushFat();
        if !ok { return false; }
      }
      fat := Some(s);
      ok := true;
    }

    method SetEntry(c: int, v: Option<int>) returns (ok: bool)
      requires Ready()
      modifies this
      ensures ok == B.SetEntry(old(View()), c, v).Ok?
      ensures ok ==> writes == Sectors(log) && View() == B.SetEntry(old(View()), c, v).value
    {
      hide Sectors, B.Touch;
      ok := Touch(c);
      if !ok { return false; }
      fatDirty := true;
      entries := entries + {c};
      if v.Some? { links := links + {v.value}; }
      cache := cache[c := v];
    }

    /** The scan from the hint's bitmap sector to `last`: each sector it enters is read, the one it leaves written. */
    method ScanTo(last: int)
      requires Valid() && scanFrom / 512 <= last
      modifies this
      ensures Valid() && View() == B.Scan(old(View()), old(scanFrom) / 512, last)
    {
      hide Sectors, B.Inv;
      ghost var s0 := View();
      var sec := scanFrom / 512;
      while sec <= last
        invariant Valid() && sec <= last + 1 && bitmapLba == s0.bitmapLba
        invariant B.Scan(View(), sec, last) == B.Scan(s0, s0.scanFrom / 512, last)
      {
        B.EnterKeeps(View(), bitmapLba + sec);
        EnterSector(bitmapLba + sec);
        sec := sec + 1;
      }
    }

    method EnterSector(s: int)
      requires Valid()
      modifies this
      ensures Valid() && View() == B.Enter(old(View()), s)
    {
      hide Sectors;
      B.EnterKeeps(View(), s);
      if bits != Some(s) {
        WriteBits();
        bits, bitsHeld := Some(s), {};
        bitmapReads := bitmapReads + [s];
      }
    }

    /** A find behind the hint, or a cluster linked ahead of its allocation, is refused; nothing else is. */
    method Alloc(c: int) returns (ok: bool)
      requires Valid()
      modifies this
      ensures ok == (old(scanFrom) <= (c - 2) / 8 && !B.LinkedAhead(old(View()), c))
      ensures ok ==> Valid() && B.Alloc(old(View()), c) == B.Ok(View())
    {
      hide Sectors, B.SetEntry, B.Scan, B.LinkedAhead, B.Pending;
      ghost var s0 := View();
      B.AllocKeeps(s0, c);
      var target := (c - 2) / 8;
      if target < scanFrom { return false; }
      assert scanFrom / 512 <= target / 512;
      ScanTo(target / 512);
      B.ScanKeeps(s0, s0.scanFrom / 512, target / 512);
      assert Ready() && bits.Some?;
      hide B.Inv, B.HoldBit, B.Take;
      TakeBit(c);
      ok := SetEntry(c, Some(c));
    }

    method TakeBit(c: int)
      requires Ready() && bits.Some?
      modifies `bitsHeld, `taken, `bitsDirty, `scanFrom
      ensures Ready() && View() == B.Take(B.HoldBit(old(View()), c), c)
    {
      hide Sectors;
      bitsHeld := bitsHeld + {c};
      taken := taken + {c};
      bitsDirty := true;
      scanFrom := (c - 2) / 8;
    }

    method End(sets: seq<int>) returns (ok: bool)
      requires Valid()
      modifies this
      ensures ok && Valid() && B.Settled(View()) && B.End(old(View()), sets) == B.Ok(View())
    {
      ghost var s0 := View();
      if fatDirty {
        B.FlushKeeps(s0);
        ok := FlushFat();
      } else {
        B.WriteBitsKeeps(s0);
        WriteBits();
        ok := true;
      }
      ghost var f := View();
      hide Sectors;
      SectorsDirSets(log, sets);
      writes := writes + sets;
      log := log + B.DirSets(sets);
      B.SameButLog(f, View());
    }
  }
}
