/** Which sectors the batch writes, and when: each write is of the sector its bits
    or entries belong in, and none is made that the operations do not ask for. */
module BatchWrites {
  import opened Bytes
  import opened AllocBatch

  // Where.

  /** A bitmap sector holds 4096 clusters' bits, from cluster 2; a FAT sector 128 entries. */
  ghost predicate InPlace(fatLba: int, bitmapLba: int, w: Write) {
    match w
    case Bits(sector, held) => forall c :: c in held ==> sector == bitmapLba + (c - 2) / 4096
    case Fat(sector, entries) => forall e :: e in entries ==> sector == fatLba + e / 128
    case DirSet(_) => true
  }

  /** So far, and with what is held. */
  ghost predicate Placed(s: State) {
    && (forall i :: 0 <= i < |s.log| ==> InPlace(s.fatLba, s.bitmapLba, s.log[i]))
    && (forall c :: c in s.bitsHeld ==> s.bits == Some(s.bitmapLba + (c - 2) / 4096))
    && (forall e :: e in s.cache ==> s.fat == Some(s.fatLba + e / 128))
    && (!s.fatDirty ==> s.cache == map[])
  }

  lemma WriteBitsPlaced(s: State)
    requires Placed(s)
    ensures Placed(WriteBits(s))
  {}

  lemma FlushPlaced(s: State)
    requires Placed(s) && FlushFat(s).Ok?
    ensures Placed(FlushFat(s).value) && FlushFat(s).value.cache == map[]
  {
    WriteBitsPlaced(s);
    hide WriteBits;
  }

  lemma FatSector(s: State, c: int)
    ensures s.FSec(c) == s.fatLba + c / 128
  {
    Scaled(c);
  }

  lemma Scaled(c: int)
    ensures c * 4 / 512 == c / 128
  {}

  lemma TouchPlaced(s: State, c: int)
    requires Placed(s) && Touch(s, c).Ok?
    ensures var t := Touch(s, c).value;
            Placed(t) && t.fat == Some(t.fatLba + c / 128)
  {
    FatSector(s, c);
    if s.fatDirty && s.fat != Some(s.FSec(c)) { FlushPlaced(s); }
    hide FlushFat, InPlace;
  }

  lemma SetPlaced(s: State, c: int, v: Option<int>)
    requires Placed(s) && SetEntry(s, c, v).Ok?
    ensures Placed(SetEntry(s, c, v).value)
  {
    TouchPlaced(s, c);
    hide Touch, InPlace;
  }

  lemma EnterPlaced(s: State, sec: int)
    requires Placed(s)
    ensures Placed(Enter(s, sec)) && Enter(s, sec).bits == Some(sec)
  {
    WriteBitsPlaced(s);
  }

  lemma {:induction false} ScanPlaced(s: State, lo: int, hi: int)
    requires Placed(s)
    ensures var t := Scan(s, lo, hi);
            Placed(t) && (lo <= hi ==> t.bits == Some(t.bitmapLba + hi))
    decreases hi - lo
  {
    hide Placed, Enter;
    if lo <= hi {
      EnterPlaced(s, s.bitmapLba + lo);
      EnterBase(s, s.bitmapLba + lo);
      ScanPlaced(Enter(s, s.bitmapLba + lo), lo + 1, hi);
    }
  }

  lemma EnterBase(s: State, sec: int)
    ensures Enter(s, sec).bitmapLba == s.bitmapLba
  {}

  lemma ByteSector(c: int)
    ensures Find(c) / 512 == (c - 2) / 4096
  {}

  lemma AllocPlaced(s: State, c: int)
    requires Placed(s) && Alloc(s, c).Ok?
    ensures Placed(Alloc(s, c).value)
  {
    assert s.scanFrom / 512 <= Find(c) / 512;
    ByteSector(c);
    ScanPlaced(s, s.scanFrom / 512, Find(c) / 512);
    hide Scan, SetEntry, InPlace, Find;
    var t := Take(HoldBit(Scan(s, s.scanFrom / 512, Find(c) / 512), c), c);
    SetPlaced(t, c, Some(c));
  }

  lemma StepPlaced(s: State, op: Op)
    requires Placed(s) && Step(s, op).Ok?
    ensures Placed(Step(s, op).value)
  {
    hide Placed, Touch, SetEntry, Alloc;
    match op
    case TouchOp(c) => TouchPlaced(s, c);
    case SetOp(c, v) => SetPlaced(s, c, v);
    case AllocOp(c) => AllocPlaced(s, c);
  }

  lemma {:induction false} StepsPlaced(s: State, ops: seq<Op>)
    requires Placed(s) && Steps(s, ops).Ok?
    ensures Placed(Steps(s, ops).value)
    decreases |ops|
  {
    hide Placed, Step;
    if ops != [] {
      StepsPlaced(s, ops[..|ops| - 1]);
      StepPlaced(Steps(s, ops[..|ops| - 1]).value, ops[|ops| - 1]);
    }
  }

  lemma EndPlaced(s: State, sectors: seq<int>)
    requires Placed(s) && End(s, sectors).Ok?
    ensures Placed(End(s, sectors).value)
  {
    if s.fatDirty { FlushPlaced(s); } else { WriteBitsPlaced(s); }
    hide FlushFat, WriteBits;
  }

  lemma ServePlaced(s: State, r: Request)
    requires Placed(s) && Serve(s, r).Ok?
    ensures Placed(Serve(s, r).value)
  {
    assert Placed(Begin(s));
    hide Placed, End;
    StepsPlaced(Begin(s), r.ops);
    EndPlaced(Steps(Begin(s), r.ops).value, r.sets);
  }

  lemma {:induction false} RunPlaced(s: State, rs: seq<Request>)
    requires Placed(s) && Run(s, rs).Ok?
    ensures Placed(Run(s, rs).value)
    decreases |rs|
  {
    hide Placed, Serve;
    if rs != [] {
      RunPlaced(s, rs[..|rs| - 1]);
      ServePlaced(Run(s, rs[..|rs| - 1]).value, rs[|rs| - 1]);
    }
  }

  lemma {:induction false} RunBase(s: State, rs: seq<Request>)
    requires Run(s, rs).Ok?
    ensures Run(s, rs).value.fatLba == s.fatLba && Run(s, rs).value.bitmapLba == s.bitmapLba
    decreases |rs|
  {
    hide Serve;
    if rs != [] {
      RunBase(s, rs[..|rs| - 1]);
      ServeBase(Run(s, rs[..|rs| - 1]).value, rs[|rs| - 1]);
    }
  }

  lemma {:induction false} ScanBase(s: State, lo: int, hi: int)
    ensures Scan(s, lo, hi).fatLba == s.fatLba && Scan(s, lo, hi).bitmapLba == s.bitmapLba
    decreases hi - lo
  {
    if lo <= hi { ScanBase(Enter(s, s.bitmapLba + lo), lo + 1, hi); }
  }

  lemma StepBase(s: State, op: Op)
    requires Step(s, op).Ok?
    ensures Step(s, op).value.fatLba == s.fatLba && Step(s, op).value.bitmapLba == s.bitmapLba
  {
    if op.AllocOp? { ScanBase(s, s.scanFrom / 512, Find(op.c) / 512); hide Scan; }
  }

  lemma {:induction false} StepsBase(s: State, ops: seq<Op>)
    requires Steps(s, ops).Ok?
    ensures Steps(s, ops).value.fatLba == s.fatLba && Steps(s, ops).value.bitmapLba == s.bitmapLba
    decreases |ops|
  {
    hide Step;
    if ops != [] {
      StepsBase(s, ops[..|ops| - 1]);
      StepBase(Steps(s, ops[..|ops| - 1]).value, ops[|ops| - 1]);
    }
  }

  lemma ServeBase(s: State, r: Request)
    requires Serve(s, r).Ok?
    ensures Serve(s, r).value.fatLba == s.fatLba && Serve(s, r).value.bitmapLba == s.bitmapLba
  {
    StepsBase(Begin(s), r.ops);
    hide Steps;
  }

  /** Over every run: each write is of the one sector of all it holds. */
  lemma WritesInPlace(fatLba: int, bitmapLba: int, hint: int, rs: seq<Request>, i: nat)
    requires Run(Init(fatLba, bitmapLba, hint), rs).Ok?
    requires i < |Run(Init(fatLba, bitmapLba, hint), rs).value.log|
    ensures InPlace(fatLba, bitmapLba, Run(Init(fatLba, bitmapLba, hint), rs).value.log[i])
  {
    var s := Init(fatLba, bitmapLba, hint);
    assert Placed(s);
    RunPlaced(s, rs);
    RunBase(s, rs);
    hide Run, InPlace;
  }

  // When: the FAT.

  predicate Sets(op: Op) { !op.TouchOp? }

  function SectorOf(fatLba: int, op: Op): int { fatLba + op.c / 128 }

  /** An entry was set in this sector, and no other sector asked for since. */
  ghost predicate StillOpen(fatLba: int, ops: seq<Op>, sector: int) {
    exists i :: 0 <= i < |ops| && Sets(ops[i]) && forall k :: i <= k < |ops| ==> SectorOf(fatLba, ops[k]) == sector
  }

  /** The FAT writes the operations ask for: one for each stretch of them on one sector that sets an entry. */
  ghost function FatWrites(fatLba: int, ops: seq<Op>): seq<int> {
    if ops == [] then [] else
      var front, op := ops[..|ops| - 1], ops[|ops| - 1];
      FatWrites(fatLba, front) +
      if Sets(op) && !StillOpen(fatLba, front, SectorOf(fatLba, op)) then [SectorOf(fatLba, op)] else []
  }

  /** The FAT sectors a log writes, in order. */
  function FatSectors(log: seq<Write>): seq<int> {
    if log == [] then [] else
      FatSectors(log[..|log| - 1]) + if log[|log| - 1].Fat? then [log[|log| - 1].sector] else []
  }

  lemma FatSectorsMore(log: seq<Write>, w: Write)
    ensures FatSectors(log + [w]) == FatSectors(log) + if w.Fat? then [w.sector] else []
  {
    assert (log + [w])[..|log|] == log;
  }

  lemma {:induction false} FatSectorsConcat(a: seq<Write>, b: seq<Write>)
    ensures FatSectors(a + b) == FatSectors(a) + FatSectors(b)
    decreases |b|
  {
    if b == [] {
      assert a + b == a;
    } else {
      FatSectorsConcat(a, b[..|b| - 1]);
      assert (a + b)[..|a + b| - 1] == a + b[..|b| - 1];
    }
  }

  lemma {:induction false} NoFatSectors(log: seq<Write>)
    requires forall i :: 0 <= i < |log| ==> !log[i].Fat?
    ensures FatSectors(log) == []
  {
    if log != [] { NoFatSectors(log[..|log| - 1]); }
  }

  /** In the middle of a request: the FAT sectors written since its start, after `from`, and the one held to be. */
  ghost predicate OnSchedule(s: State, from: seq<int>, ops: seq<Op>) {
    && Written(s) == from + FatWrites(s.fatLba, ops)
    && (s.fatDirty <==> ops != [] && StillOpen(s.fatLba, ops, SectorOf(s.fatLba, ops[|ops| - 1])))
    && (ops != [] ==> s.fat == Some(SectorOf(s.fatLba, ops[|ops| - 1])))
  }

  /** The FAT sectors written, and the held one if it is to be. */
  function Written(s: State): seq<int> {
    FatSectors(s.log) + if s.fatDirty && s.fat.Some? then [s.fat.value] else []
  }

  lemma OpenMore(fatLba: int, ops: seq<Op>, op: Op, sector: int)
    ensures StillOpen(fatLba, ops + [op], sector) <==>
            SectorOf(fatLba, op) == sector && (Sets(op) || StillOpen(fatLba, ops, sector))
  {
    var all := ops + [op];
    if StillOpen(fatLba, ops, sector) && SectorOf(fatLba, op) == sector {
      var i :| 0 <= i < |ops| && Sets(ops[i]) && forall k :: i <= k < |ops| ==> SectorOf(fatLba, ops[k]) == sector;
      assert Sets(all[i]) && forall k :: i <= k < |all| ==> SectorOf(fatLba, all[k]) == sector;
    }
    if Sets(op) && SectorOf(fatLba, op) == sector { assert Sets(all[|ops|]); }
    if StillOpen(fatLba, all, sector) {
      var i :| 0 <= i < |all| && Sets(all[i]) && forall k :: i <= k < |all| ==> SectorOf(fatLba, all[k]) == sector;
      assert SectorOf(fatLba, all[|ops|]) == sector;
      if i < |ops| {
        assert Sets(ops[i]) && forall k :: i <= k < |ops| ==> SectorOf(fatLba, ops[k]) == SectorOf(fatLba, all[k]);
      }
    }
  }

  lemma OpenLast(fatLba: int, ops: seq<Op>, sector: int)
    requires StillOpen(fatLba, ops, sector)
    ensures ops != [] && SectorOf(fatLba, ops[|ops| - 1]) == sector
  {}

  lemma WritesMore(fatLba: int, ops: seq<Op>, op: Op)
    ensures FatWrites(fatLba, ops + [op]) ==
            FatWrites(fatLba, ops) +
            if Sets(op) && !StillOpen(fatLba, ops, SectorOf(fatLba, op)) then [SectorOf(fatLba, op)] else []
  {
    assert (ops + [op])[..|ops|] == ops;
  }

  lemma BitsNoFat(s: State)
    ensures FatSectors(WriteBits(s).log) == FatSectors(s.log)
  {
    if s.bitsDirty && s.bits.Some? { FatSectorsMore(s.log, Bits(s.bits.value, s.bitsHeld)); }
  }

  lemma FlushWrites(s: State)
    requires FlushFat(s).Ok?
    ensures var f := FlushFat(s).value;
            s.fat.Some? && FatSectors(f.log) == FatSectors(s.log) + [s.fat.value] && !f.fatDirty && f.fatLba == s.fatLba
  {
    BitsNoFat(s);
    FatSectorsMore(WriteBits(s).log, Fat(s.fat.value, s.cache));
    hide FatSectors;
  }

  /** A sector asked for: one written if another was open, and this one is held. */
  lemma TouchWrites(s: State, c: int)
    requires Touch(s, c).Ok?
    ensures var t := Touch(s, c).value;
            && t.fatLba == s.fatLba && t.fat == Some(s.fatLba + c / 128)
            && t.fatDirty == (s.fatDirty && s.fat == Some(s.fatLba + c / 128))
            && FatSectors(t.log) ==
               FatSectors(s.log) + if s.fatDirty && s.fat.Some? && s.fat != t.fat then [s.fat.value] else []
  {
    FatSector(s, c);
    if s.fatDirty && s.fat != Some(s.FSec(c)) { FlushWrites(s); }
    hide FatSectors, FlushFat;
    assert FatSectors(s.log) + [] == FatSectors(s.log);
  }

  lemma TouchScheduled(s: State, from: seq<int>, ops: seq<Op>, op: Op, t: State)
    requires OnSchedule(s, from, ops) && Touch(s, op.c) == Ok(t)
    ensures t.fatLba == s.fatLba && t.fat == Some(SectorOf(s.fatLba, op))
    ensures Written(t) == from + FatWrites(s.fatLba, ops)
    ensures t.fatDirty <==> StillOpen(s.fatLba, ops, SectorOf(s.fatLba, op))
  {
    TouchWrites(s, op.c);
    if StillOpen(s.fatLba, ops, SectorOf(s.fatLba, op)) { OpenLast(s.fatLba, ops, SectorOf(s.fatLba, op)); }
    hide FatSectors, Touch, FatWrites, StillOpen;
  }

  lemma TouchOnSchedule(s: State, from: seq<int>, ops: seq<Op>, c: int)
    requires OnSchedule(s, from, ops) && Touch(s, c).Ok?
    ensures OnSchedule(Touch(s, c).value, from, ops + [TouchOp(c)])
  {
    var op := TouchOp(c);
    var t := Touch(s, c).value;
    TouchScheduled(s, from, ops, op, t);
    OpenMore(s.fatLba, ops, op, SectorOf(s.fatLba, op));
    WritesMore(s.fatLba, ops, op);
    assert (ops + [op])[|ops|] == op;
    hide FatSectors, Touch, FatWrites, StillOpen, Written;
    assert FatWrites(s.fatLba, ops) + [] == FatWrites(s.fatLba, ops);
  }

  lemma SetOnSchedule(s: State, from: seq<int>, ops: seq<Op>, op: Op, v: Option<int>)
    requires OnSchedule(s, from, ops) && Sets(op) && SetEntry(s, op.c, v).Ok?
    ensures OnSchedule(SetEntry(s, op.c, v).value, from, ops + [op])
  {
    var t := Touch(s, op.c).value;
    TouchScheduled(s, from, ops, op, t);
    OpenMore(s.fatLba, ops, op, SectorOf(s.fatLba, op));
    WritesMore(s.fatLba, ops, op);
    assert (ops + [op])[|ops|] == op;
    PutWrites(t, op.c, v);
    hide FatSectors, Touch, FatWrites, StillOpen, Written;
    Joined(from, FatWrites(s.fatLba, ops), if t.fatDirty then [] else [SectorOf(s.fatLba, op)]);
  }

  lemma Joined(a: seq<int>, b: seq<int>, c: seq<int>)
    ensures (a + b) + c == a + (b + c)
  {}

  lemma PutWrites(t: State, c: int, v: Option<int>)
    requires t.fat.Some?
    ensures var u := Put(t, c, v);
            && u.fatLba == t.fatLba && u.fat == t.fat && u.fatDirty
            && Written(u) == Written(t) + if t.fatDirty then [] else [t.fat.value]
  {
    hide FatSectors;
  }

  lemma EnterNoFat(s: State, sec: int)
    ensures var t := Enter(s, sec);
            FatSectors(t.log) == FatSectors(s.log) && t.fat == s.fat && t.fatDirty == s.fatDirty && t.fatLba == s.fatLba
  {
    BitsNoFat(s);
    hide FatSectors;
  }

  lemma {:induction false} ScanNoFat(s: State, lo: int, hi: int)
    ensures var t := Scan(s, lo, hi);
            FatSectors(t.log) == FatSectors(s.log) && t.fat == s.fat && t.fatDirty == s.fatDirty && t.fatLba == s.fatLba
    decreases hi - lo
  {
    hide Enter, FatSectors;
    if lo <= hi {
      EnterNoFat(s, s.bitmapLba + lo);
      ScanNoFat(Enter(s, s.bitmapLba + lo), lo + 1, hi);
    }
  }

  lemma StepOnSchedule(s: State, from: seq<int>, ops: seq<Op>, op: Op)
    requires OnSchedule(s, from, ops) && Step(s, op).Ok?
    ensures OnSchedule(Step(s, op).value, from, ops + [op])
  {
    hide OnSchedule, Touch, SetEntry;
    match op
    case TouchOp(c) => TouchOnSchedule(s, from, ops, c);
    case SetOp(c, v) => SetOnSchedule(s, from, ops, op, v);
    case AllocOp(c) =>
      var t := Scan(s, s.scanFrom / 512, Find(c) / 512);
      ScanNoFat(s, s.scanFrom / 512, Find(c) / 512);
      var u := Take(HoldBit(t, c), c);
      SameFatSide(s, u, from, ops);
      SetOnSchedule(u, from, ops, op, Some(c));
  }

  lemma SameFatSide(s: State, t: State, from: seq<int>, ops: seq<Op>)
    requires OnSchedule(s, from, ops) && FatSectors(t.log) == FatSectors(s.log)
    requires t.fat == s.fat && t.fatDirty == s.fatDirty && t.fatLba == s.fatLba
    ensures OnSchedule(t, from, ops)
  {
    hide FatSectors, FatWrites, StillOpen;
  }

  lemma {:induction false} StepsOnSchedule(s: State, from: seq<int>, ops: seq<Op>)
    requires OnSchedule(s, from, []) && Steps(s, ops).Ok?
    ensures OnSchedule(Steps(s, ops).value, from, ops)
    decreases |ops|
  {
    hide OnSchedule, Step;
    if ops != [] {
      var front, op := ops[..|ops| - 1], ops[|ops| - 1];
      StepsOnSchedule(s, from, front);
      StepOnSchedule(Steps(s, front).value, from, front, op);
      assert front + [op] == ops;
    }
  }

  lemma EndWrites(s: State, sets: seq<int>)
    requires End(s, sets).Ok?
    ensures FatSectors(End(s, sets).value.log) == Written(s)
  {
    var f := if s.fatDirty then FlushFat(s).value else WriteBits(s);
    if s.fatDirty { FlushWrites(s); } else { BitsNoFat(s); }
    FatSectorsConcat(f.log, DirSets(sets));
    NoFatSectors(DirSets(sets));
    hide FatSectors, FlushFat, WriteBits;
    assert FatSectors(f.log) + [] == FatSectors(f.log) && FatSectors(s.log) + [] == FatSectors(s.log);
  }

  /** A request writes the FAT sectors its operations ask for, in their order, and no others. */
  lemma RequestFatWrites(s: State, r: Request)
    requires !s.fatDirty && Serve(s, r).Ok?
    ensures FatSectors(Serve(s, r).value.log) == FatSectors(s.log) + FatWrites(s.fatLba, r.ops)
  {
    var b, from := Begin(s), FatSectors(s.log);
    assert OnSchedule(b, from, []) by {
      hide FatSectors;
      assert from + [] == from && FatWrites(b.fatLba, []) == [];
    }
    hide Steps, End, FatSectors, FatWrites, StillOpen;
    StepsOnSchedule(b, from, r.ops);
    StepsBase(b, r.ops);
    EndWrites(Steps(b, r.ops).value, r.sets);
  }

  // When: the bitmap.

  ghost predicate NoFatAfter(log: seq<Write>, i: int) { forall k :: i < k < |log| && 0 <= k ==> !log[k].Fat? }

  /** From `n` on, bitmap writes with no FAT write between them are of rising sectors, so none is made twice. */
  ghost predicate Rising(log: seq<Write>, n: nat) {
    forall i, j :: n <= i < j < |log| && log[i].Bits? && log[j].Bits? && NoFatAfter(log[..j], i) ==>
      log[i].sector < log[j].sector
  }

  /** Every bitmap write from `n` on puts a bit on the disk that was not there. */
  ghost predicate Adds(log: seq<Write>, n: nat) {
    forall i :: n <= i < |log| && log[i].Bits? ==> exists c :: c in log[i].held && c !in After(log[..i]).bits
  }

  /** Since the last FAT write, only sectors before the held one were written. */
  ghost predicate Ahead(s: State, n: nat) {
    forall i :: n <= i < |s.log| && s.log[i].Bits? && NoFatAfter(s.log, i) ==>
      s.bits.Some? && s.log[i].sector < s.bits.value
  }

  ghost predicate Thrifty(s: State, n: nat) {
    && n <= |s.log| && Rising(s.log, n) && Adds(s.log, n) && Ahead(s, n)
    && s.disk == After(s.log)
    && (s.bitsDirty ==> s.bits.Some? && exists c :: c in s.bitsHeld && c !in s.disk.bits)
  }

  /** The held sector is the hint's. */
  ghost predicate Following(s: State) { s.bits.Some? ==> s.bits == Some(s.bitmapLba + s.scanFrom / 512) }

  lemma RisingMore(log: seq<Write>, w: Write, n: nat)
    requires Rising(log, n) && n <= |log|
    requires w.Bits? ==> forall i :: n <= i < |log| && log[i].Bits? && NoFatAfter(log, i) ==> log[i].sector < w.sector
    ensures Rising(log + [w], n)
  {
    var all := log + [w];
    assert all[..|log|] == log;
    forall i, j | n <= i < j < |all| && all[i].Bits? && all[j].Bits? && NoFatAfter(all[..j], i)
      ensures all[i].sector < all[j].sector
    {
      assert all[i] == log[i];
      if j < |log| { assert all[..j] == log[..j] && all[j] == log[j]; }
    }
  }

  lemma AddsMore(log: seq<Write>, w: Write, n: nat)
    requires Adds(log, n) && (w.Bits? ==> exists c :: c in w.held && c !in After(log).bits)
    ensures Adds(log + [w], n)
  {
    hide After;
    var all := log + [w];
    assert all[..|log|] == log;
    forall i | n <= i < |all| && all[i].Bits? ensures exists c :: c in all[i].held && c !in After(all[..i]).bits {
      if i < |log| { assert all[..i] == log[..i] && all[i] == log[i]; }
    }
  }

  lemma NoFatMore(log: seq<Write>, w: Write, i: int)
    requires 0 <= i < |log|
    ensures NoFatAfter(log + [w], i) <==> NoFatAfter(log, i) && !w.Fat?
  {
    var all := log + [w];
    assert all[|log|] == w && forall k :: 0 <= k < |log| ==> all[k] == log[k];
  }

  /** The log, one write longer. */
  lemma LogThrifty(s: State, t: State, w: Write, n: nat)
    requires Thrifty(s, n) && t.log == s.log + [w]
    requires w.Bits? ==> s.bits.Some? && w == Bits(s.bits.value, s.bitsHeld) && s.bitsDirty
    ensures n <= |t.log| && Rising(t.log, n) && Adds(t.log, n)
    ensures After(t.log) == match w
                            case Bits(_, held) => s.disk.(bits := s.disk.bits + held)
                            case Fat(_, entries) => s.disk.(fat := s.disk.fat + entries)
                            case DirSet(_) => s.disk
  {
    hide After, Rising, Adds;
    AfterAppend(s.log, w);
    RisingMore(s.log, w, n);
    AddsMore(s.log, w, n);
  }

  /** The held bitmap sector written: nothing since the last FAT write is past it. */
  lemma BitsThrifty(s: State, n: nat)
    requires Thrifty(s, n)
    ensures var w := WriteBits(s);
            && n <= |w.log| && Rising(w.log, n) && Adds(w.log, n) && w.disk == After(w.log)
            && forall i :: n <= i < |w.log| && w.log[i].Bits? && NoFatAfter(w.log, i) ==>
                 s.bits.Some? && w.log[i].sector <= s.bits.value
  {
    if s.bitsDirty {
      var b := Bits(s.bits.value, s.bitsHeld);
      LogThrifty(s, WriteBits(s), b, n);
      hide After, Rising, Adds;
      forall i | n <= i < |s.log| && NoFatAfter(s.log + [b], i) ensures NoFatAfter(s.log, i) {
        NoFatMore(s.log, b, i);
      }
    }
  }

  lemma EnterThrifty(s: State, sec: int, n: nat)
    requires Thrifty(s, n) && (s.bits.Some? ==> s.bits.value <= sec)
    ensures var t := Enter(s, sec);
            Thrifty(t, n) && t.bits == Some(sec) && t.bitmapLba == s.bitmapLba
  {
    if s.bits != Some(sec) {
      BitsThrifty(s, n);
      EnterIs(s, sec);
      hide Rising, Adds, After, NoFatAfter, Enter, WriteBits;
    }
  }

  lemma EnterIs(s: State, sec: int)
    requires s.bits != Some(sec) && (s.bitsDirty ==> s.bits.Some?)
    ensures var w, t := WriteBits(s), Enter(s, sec);
            t.log == w.log && t.disk == w.disk && !t.bitsDirty && t.bits == Some(sec) && t.bitmapLba == s.bitmapLba
  {}

  lemma {:induction false} ScanThrifty(s: State, lo: int, hi: int, n: nat)
    requires Thrifty(s, n) && lo <= hi && (s.bits.Some? ==> s.bits.value <= s.bitmapLba + lo)
    ensures var t := Scan(s, lo, hi);
            Thrifty(t, n) && t.bits == Some(s.bitmapLba + hi) && t.bitmapLba == s.bitmapLba
    decreases hi - lo
  {
    hide Thrifty, Enter;
    var t := Enter(s, s.bitmapLba + lo);
    EnterThrifty(s, s.bitmapLba + lo, n);
    if lo < hi { ScanThrifty(t, lo + 1, hi, n); } else { assert Scan(t, lo + 1, hi) == t; }
  }

  lemma HoldThrifty(s: State, c: int, n: nat)
    requires Thrifty(s, n) && s.bits.Some? && c !in s.disk.bits
    ensures Thrifty(Take(HoldBit(s, c), c), n)
  {
    hide Rising, Adds, After;
    assert c in HoldBit(s, c).bitsHeld;
  }

  lemma FlushThrifty(s: State, n: nat)
    requires Thrifty(s, n) && FlushFat(s).Ok?
    ensures Thrifty(FlushFat(s).value, n) && FlushFat(s).value.bits == s.bits
  {
    BitsThrifty(s, n);
    FlushIs(s);
    hide Rising, Adds, After, WriteBits, FlushFat, NoFatAfter;
    var w, f := WriteBits(s), FlushFat(s).value;
    var write := Fat(w.fat.value, w.cache);
    AfterAppend(w.log, write);
    RisingMore(w.log, write, n);
    AddsMore(w.log, write, n);
    forall i | 0 <= i < |w.log| ensures !NoFatAfter(f.log, i) { NoFatMore(w.log, write, i); }
  }

  lemma FlushIs(s: State)
    requires FlushFat(s).Ok? && (s.bitsDirty ==> s.bits.Some?)
    ensures var w, f := WriteBits(s), FlushFat(s).value;
            && w.fat.Some? && f.log == w.log + [Fat(w.fat.value, w.cache)] && !f.bitsDirty && f.bits == s.bits
            && f.disk == w.disk.(fat := w.disk.fat + w.cache)
  {}

  lemma TouchThrifty(s: State, c: int, n: nat)
    requires Thrifty(s, n) && Touch(s, c).Ok?
    ensures Thrifty(Touch(s, c).value, n) && Touch(s, c).value.bits == s.bits
  {
    if s.fatDirty && s.fat != Some(s.FSec(c)) { FlushThrifty(s, n); }
    hide Rising, Adds, After, FlushFat;
  }

  lemma SetThrifty(s: State, c: int, v: Option<int>, n: nat)
    requires Thrifty(s, n) && SetEntry(s, c, v).Ok?
    ensures Thrifty(SetEntry(s, c, v).value, n) && SetEntry(s, c, v).value.bits == s.bits
  {
    TouchThrifty(s, c, n);
    hide Rising, Adds, After, Touch;
  }

  lemma AllocThrifty(s: State, c: int, n: nat)
    requires Inv(s) && Thrifty(s, n) && Following(s) && Alloc(s, c).Ok? && c !in Pending(s).bits
    ensures Thrifty(Alloc(s, c).value, n) && Following(Alloc(s, c).value)
  {
    var lo, hi := s.scanFrom / 512, Find(c) / 512;
    assert lo <= hi;
    var t := Scan(s, lo, hi);
    ScanKeeps(s, lo, hi);
    ScanThrifty(s, lo, hi, n);
    AllocKeeps(s, c);
    assert c !in t.disk.bits;
    assert Find(c) == (c - 2) / 8;
    hide Inv, Thrifty, Scan, SetEntry, Pending, Find;
    HoldThrifty(t, c, n);
    SetThrifty(Take(HoldBit(t, c), c), c, Some(c), n);
  }

  lemma StepThrifty(s: State, op: Op, n: nat)
    requires Inv(s) && Thrifty(s, n) && Following(s) && Step(s, op).Ok? && (op.AllocOp? ==> op.c !in Pending(s).bits)
    ensures Thrifty(Step(s, op).value, n) && Following(Step(s, op).value)
  {
    hide Inv, Thrifty, Touch, SetEntry, Alloc, Pending;
    match op
    case TouchOp(c) =>
      TouchKeeps(s, c);
      TouchThrifty(s, c, n);
    case SetOp(c, v) =>
      SetKeeps(s, c, v);
      SetThrifty(s, c, v, n);
    case AllocOp(c) =>
      AllocThrifty(s, c, n);
  }

  lemma {:induction false} BitsMeant(ops: seq<Op>)
    ensures MeantOps(Disk({}, map[]), ops).bits == Taken(ops) <= Linked(ops)
    decreases |ops|
  {
    if ops != [] { BitsMeant(ops[..|ops| - 1]); }
  }

  lemma NewCluster(s: State, hint: int, ops: seq<Op>, op: Op)
    requires Served(s, hint, ops) && Orderly(hint, ops + [op])
    ensures Inv(s) && (op.AllocOp? ==> op.c !in Pending(s).bits)
  {
    Appended(hint, ops, op);
    BitsMeant(ops);
    hide Inv, Pending, MeantOps, Taken, Linked, Orderly, Hint, Recorded;
  }

  lemma {:induction false} StepsThrifty(s: State, hint: int, before: seq<Op>, ops: seq<Op>, n: nat)
    requires Served(s, hint, before) && Orderly(hint, before + ops) && Thrifty(s, n) && Following(s)
    ensures Steps(s, ops).Ok? && Thrifty(Steps(s, ops).value, n) && Following(Steps(s, ops).value)
    decreases |ops|
  {
    hide Served, Thrifty, Following, Step, Orderly;
    StepsServe(s, hint, before, ops);
    if ops != [] {
      var front, op := ops[..|ops| - 1], ops[|ops| - 1];
      assert before + ops == (before + front) + [op];
      OrderlyPrefix(hint, before + front, [op]);
      StepsServe(s, hint, before, front);
      StepsThrifty(s, hint, before, front, n);
      NewCluster(Steps(s, front).value, hint, before + front, op);
      StepThrifty(Steps(s, front).value, op, n);
    }
  }

  lemma {:induction false} DirSetsThrifty(s: State, sets: seq<int>, n: nat)
    requires Rising(s.log, n) && Adds(s.log, n) && n <= |s.log|
    ensures Rising(s.log + DirSets(sets), n) && Adds(s.log + DirSets(sets), n)
    decreases |sets|
  {
    hide Rising, Adds;
    if sets == [] {
      assert s.log + DirSets(sets) == s.log;
    } else {
      var front, w := sets[..|sets| - 1], DirSet(sets[|sets| - 1]);
      DirSetsThrifty(s, front, n);
      assert s.log + DirSets(sets) == s.log + DirSets(front) + [w];
      RisingMore(s.log + DirSets(front), w, n);
      AddsMore(s.log + DirSets(front), w, n);
    }
  }

  lemma EndThrifty(s: State, sets: seq<int>, n: nat)
    requires Thrifty(s, n) && End(s, sets).Ok?
    ensures Rising(End(s, sets).value.log, n) && Adds(End(s, sets).value.log, n)
  {
    var f := if s.fatDirty then FlushFat(s).value else WriteBits(s);
    if s.fatDirty { FlushThrifty(s, n); } else { BitsThrifty(s, n); }
    hide Rising, Adds, FlushFat, WriteBits, After;
    DirSetsThrifty(f, sets, n);
  }

  lemma StartThrifty(s: State)
    requires s.disk == After(s.log)
    ensures Thrifty(Begin(s), |s.log|) && Following(Begin(s))
  {
    hide After;
  }

  /** And bitmap sectors no oftener than it must: each write adds a bit, and between two FAT writes
      no sector is written twice. */
  lemma RequestBitWrites(s: State, hint: int, before: seq<Op>, r: Request)
    requires Served(s, hint, before) && Settled(s) && Orderly(hint, before + r.ops)
    ensures Serve(s, r).Ok? && Rising(Serve(s, r).value.log, |s.log|) && Adds(Serve(s, r).value.log, |s.log|)
  {
    StartThrifty(s);
    hide Served, Steps, End, Settled, Thrifty, Following, Rising, Adds, Begin, Orderly;
    BeginServes(s, hint, before);
    StepsThrifty(Begin(s), hint, before, r.ops, |s.log|);
    StepsServe(Begin(s), hint, before, r.ops);
    EndServes(Steps(Begin(s), r.ops).value, hint, before + r.ops, r.sets);
    EndThrifty(Steps(Begin(s), r.ops).value, r.sets, |s.log|);
  }
}
