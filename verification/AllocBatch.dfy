/** A FAT batch: one FAT sector and one bitmap sector held in memory, written
    out under two ordering rules (scripts/test-alloc-batch.py, class Model). */
module AllocBatch {
  import opened Bytes

  /** One sector write and what it puts on the disk. */
  datatype Write =
    | Bits(sector: int, held: set<int>)
    | Fat(sector: int, entries: map<int, Option<int>>)
    | DirSet(sector: int)

  datatype Result<+T> = Raised | Ok(value: T) {
    predicate IsFailure() { Raised? }
    function PropagateFailure<U>(): Result<U> requires Raised? { Raised }
    function Extract(): T requires Ok? { value }
  }

  datatype Disk = Disk(bits: set<int>, fat: map<int, Option<int>>)

  /** The model's fields; `log` is `seq` with each write's contents and `disk` their sum (`DiskIsLog`),
      `cache` what the held FAT sector has been given. */
  datatype State = State(
    fatLba: int, bitmapLba: int, log: seq<Write>, bitmapReads: seq<int>,
    fat: Option<int>, fatDirty: bool, links: set<int>, taken: set<int>, onDisk: set<int>,
    entries: set<int>, entriesOnDisk: set<int>, cache: map<int, Option<int>>, scanFrom: int,
    bits: Option<int>, bitsDirty: bool, bitsHeld: set<int>, disk: Disk)
  {
    function FSec(c: int): int { fatLba + c * 4 / 512 }
    function BSec(b: int): int { bitmapLba + b / 512 }
  }

  function Init(fatLba: int, bitmapLba: int, hint: int): State {
    State(fatLba, bitmapLba, [], [], None, false, {}, {}, {}, {}, {}, map[], hint, None, false, {},
          Disk({}, map[]))
  }

  function Begin(s: State): State {
    s.(bits := None, bitsDirty := false, bitsHeld := {})
  }

  function WriteBits(s: State): State {
    if !s.bitsDirty || s.bits.None? then s else
      s.(log := s.log + [Bits(s.bits.value, s.bitsHeld)], onDisk := s.onDisk + s.bitsHeld, bitsDirty := false,
         disk := s.disk.(bits := s.disk.bits + s.bitsHeld))
  }

  /** Links to clusters whose bit is not on the disk. */
  function Missing(s: State): set<int> {
    s.links * s.taken - s.onDisk
  }

  /** Links to clusters allocated here whose own entry is in another sector and not on the disk. */
  function Early(s: State): set<int> {
    EarlyLinks(s.fatLba, s.links * s.taken, s.fat, s.entriesOnDisk)
  }

  function EarlyLinks(fatLba: int, targets: set<int>, fat: Option<int>, entriesOnDisk: set<int>): set<int> {
    set t | t in targets && Some(fatLba + t * 4 / 512) != fat && t !in entriesOnDisk
  }

  /** The held FAT sector written, once the bits are: both rules asserted first. */
  function CommitFat(w: State): Result<State> {
    if Missing(w) != {} || Early(w) != {} || w.fat.None? then Raised
    else Ok(w.(log := w.log + [Fat(w.fat.value, w.cache)], entriesOnDisk := w.entriesOnDisk + w.entries,
               fatDirty := false, links := {}, entries := {}, cache := map[],
               disk := w.disk.(fat := w.disk.fat + w.cache)))
  }

  function FlushFat(s: State): Result<State> {
    CommitFat(WriteBits(s))
  }

  function Touch(s: State, c: int): Result<State> {
    var f :- if s.fatDirty && s.fat != Some(s.FSec(c)) then FlushFat(s) else Ok(s);
    Ok(f.(fat := Some(s.FSec(c))))
  }

  /** An entry put in the held sector. */
  function Put(s: State, c: int, v: Option<int>): State {
    s.(fatDirty := true, entries := s.entries + {c}, cache := s.cache[c := v],
       links := if v.Some? then s.links + {v.value} else s.links)
  }

  function SetEntry(s: State, c: int, v: Option<int>): Result<State> {
    var t :- Touch(s, c);
    Ok(Put(t, c, v))
  }

  /** One sector of the scan. */
  function Enter(s: State, sec: int): State {
    if s.bits == Some(sec) then s
    else WriteBits(s).(bits := Some(sec), bitsHeld := {}, bitmapReads := s.bitmapReads + [sec])
  }

  /** The scan over bitmap sectors `lo` to `hi`, reading each one it enters. */
  function Scan(s: State, lo: int, hi: int): State
    decreases hi - lo
  {
    if lo > hi then s else Scan(Enter(s, s.bitmapLba + lo), lo + 1, hi)
  }

  function Find(c: int): int { (c - 2) / 8 }

  /** c's bit set in the held bitmap sector. */
  function HoldBit(s: State, c: int): State {
    s.(bitsHeld := s.bitsHeld + {c}, bitsDirty := true, scanFrom := Find(c))
  }

  function Take(s: State, c: int): State {
    s.(taken := s.taken + {c})
  }

  function Alloc(s: State, c: int): Result<State> {
    if Find(c) < s.scanFrom then Raised
    else SetEntry(Take(HoldBit(Scan(s, s.scanFrom / 512, Find(c) / 512), c), c), c, Some(c))
  }

  function DirSets(sectors: seq<int>): seq<Write> {
    seq(|sectors|, i requires 0 <= i < |sectors| => DirSet(sectors[i]))
  }

  function End(s: State, sectors: seq<int>): Result<State> {
    var f :- if s.fatDirty then FlushFat(s) else Ok(WriteBits(s));
    Ok(f.(log := f.log + DirSets(sectors)))
  }

  datatype Op = TouchOp(c: int) | SetOp(c: int, v: Option<int>) | AllocOp(c: int)

  datatype Request = Request(ops: seq<Op>, sets: seq<int>)

  function Step(s: State, op: Op): Result<State> {
    match op
    case TouchOp(c) => Touch(s, c)
    case SetOp(c, v) => SetEntry(s, c, v)
    case AllocOp(c) => Alloc(s, c)
  }

  function Steps(s: State, ops: seq<Op>): Result<State> {
    if ops == [] then Ok(s) else
      var t :- Steps(s, ops[..|ops| - 1]);
      Step(t, ops[|ops| - 1])
  }

  function Serve(s: State, r: Request): Result<State> {
    var t :- Steps(Begin(s), r.ops);
    End(t, r.sets)
  }

  function Run(s: State, rs: seq<Request>): Result<State> {
    if rs == [] then Ok(s) else
      var t :- Run(s, rs[..|rs| - 1]);
      Serve(t, rs[|rs| - 1])
  }

  /** The disk after the writes of `log`, in order. */
  function After(log: seq<Write>): Disk {
    if log == [] then Disk({}, map[]) else
      var d := After(log[..|log| - 1]);
      match log[|log| - 1]
      case Bits(_, held) => d.(bits := d.bits + held)
      case Fat(_, entries) => d.(fat := d.fat + entries)
      case DirSet(_) => d
  }

  /** Every link on the disk to a cluster of `alloc` has its bit and its target's own entry on the disk. */
  ghost predicate Consistent(d: Disk, alloc: set<int>) {
    forall p :: p in d.fat && d.fat[p].Some? && d.fat[p].value in alloc ==>
      d.fat[p].value in d.bits && d.fat[p].value in d.fat
  }

  /** ... after every prefix of the writes. */
  ghost predicate CrashSafe(log: seq<Write>, alloc: set<int>) {
    forall k :: 0 <= k <= |log| ==> Consistent(After(log[..k]), alloc)
  }

  // What every step keeps.

  /** The held FAT sector: its entries are its own, and its links name entries in it or on the disk. */
  ghost predicate HeldFat(s: State) {
    && (!s.fatDirty ==> s.links == {} && s.entries == {})
    && (s.fatDirty ==> s.fat.Some?)
    && s.entries == s.cache.Keys
    && (forall e :: e in s.entries ==> s.fat == Some(s.FSec(e)))
    && (forall e :: e in s.cache && s.cache[e].Some? ==> s.cache[e].value in s.links)
    && (forall t :: t in s.links && t in s.taken ==> Some(s.FSec(t)) == s.fat || t in s.entriesOnDisk)
    && s.taken <= s.entries + s.entriesOnDisk
  }

  /** The held bitmap sector: every bit taken is in it or on the disk. */
  ghost predicate HeldBits(s: State) {
    && (s.bitsDirty ==> s.bits.Some?)
    && (!s.bitsDirty ==> s.bitsHeld <= s.onDisk)
    && s.taken <= s.onDisk + s.bitsHeld
  }

  ghost predicate Inv(s: State) {
    && HeldFat(s)
    && HeldBits(s)
    && s.onDisk == s.disk.bits
    && s.entriesOnDisk == s.disk.fat.Keys
  }

  /** What the disk will hold once both sectors are written: the bits and entries given so far, none lost. */
  ghost function Pending(s: State): Disk {
    Disk(s.disk.bits + s.bitsHeld, s.disk.fat + s.cache)
  }

  /** The parts of the state that a write-out of the held sectors leaves alone. */
  ghost predicate SameBooks(s: State, t: State) {
    t.taken == s.taken && t.scanFrom == s.scanFrom && t.fatLba == s.fatLba && t.bitmapLba == s.bitmapLba
  }

  lemma WriteBitsKeeps(s: State)
    requires Inv(s)
    ensures var w := WriteBits(s);
            Inv(w) && !w.bitsDirty && w.taken <= w.onDisk && Pending(w) == Pending(s)
            && w == s.(log := w.log, onDisk := w.onDisk, bitsDirty := false, disk := w.disk) && w.disk.fat == s.disk.fat
  {}

  /** A flush never raises: the bits go first, and a link's target is in this sector or on the disk. */
  lemma FlushOk(s: State)
    requires Inv(s) && s.fatDirty
    ensures FlushFat(s).Ok?
  {
    WriteBitsKeeps(s);
    var w := WriteBits(s);
    assert Missing(w) == {} && Early(w) == {};
  }

  lemma FlushKeeps(s: State)
    requires Inv(s) && s.fatDirty
    ensures FlushFat(s).Ok?
    ensures var f := FlushFat(s).value;
            Inv(f) && !f.fatDirty && !f.bitsDirty && Pending(f) == Pending(s) == f.disk && SameBooks(s, f)
            && f.links == {} && f.bits == s.bits && f.bitsHeld == s.bitsHeld && f.bitmapReads == s.bitmapReads
  {
    FlushOk(s);
    WriteBitsKeeps(s);
    hide WriteBits, Missing, Early;
    var w, f := WriteBits(s), FlushFat(s).value;
    assert f.cache == map[] && f.disk.fat == w.disk.fat + s.cache;
    assert f.disk.fat + f.cache == f.disk.fat;
  }

  lemma TouchKeeps(s: State, c: int)
    requires Inv(s)
    ensures Touch(s, c).Ok?
    ensures var t := Touch(s, c).value;
            Inv(t) && t.fat == Some(s.FSec(c)) && Pending(t) == Pending(s) && SameBooks(s, t)
            && t.links <= s.links && t.bits == s.bits && t.bitsHeld == s.bitsHeld && t.bitmapReads == s.bitmapReads
  {
    if s.fatDirty && s.fat != Some(s.FSec(c)) { FlushKeeps(s); }
  }

  lemma PutKeeps(s: State, c: int, v: Option<int>)
    requires Inv(s) && s.fat == Some(s.FSec(c))
    ensures Inv(Put(s, c, v)) && Pending(Put(s, c, v)) == Pending(s).(fat := Pending(s).fat[c := v])
  {
    assert s.disk.fat + s.cache[c := v] == (s.disk.fat + s.cache)[c := v];
  }

  lemma SetKeeps(s: State, c: int, v: Option<int>)
    requires Inv(s)
    ensures SetEntry(s, c, v).Ok?
    ensures var t := SetEntry(s, c, v).value;
            Inv(t) && SameBooks(s, t) && t.bits == s.bits && t.bitmapReads == s.bitmapReads
            && Pending(t) == Pending(s).(fat := Pending(s).fat[c := v])
            && t.links <= s.links + (if v.Some? then {v.value} else {})
            && t.fat == Some(s.FSec(c)) && c in t.entries && t.bitsHeld == s.bitsHeld
  {
    hide Touch, Inv, Pending;
    TouchKeeps(s, c);
    PutKeeps(Touch(s, c).value, c, v);
  }

  /** What the bitmap side may change without the FAT side noticing. */
  ghost predicate SameFat(s: State, t: State) {
    SameBooks(s, t) && t.fat == s.fat && t.fatDirty == s.fatDirty && t.links == s.links
    && t.entries == s.entries && t.entriesOnDisk == s.entriesOnDisk
  }

  lemma EnterKeeps(s: State, sec: int)
    requires Inv(s)
    ensures var t := Enter(s, sec);
            Inv(t) && Pending(t) == Pending(s) && SameFat(s, t) && t.bits == Some(sec)
  {
    WriteBitsKeeps(s);
  }

  lemma {:induction false} ScanKeeps(s: State, lo: int, hi: int)
    requires Inv(s)
    ensures var t := Scan(s, lo, hi);
            Inv(t) && Pending(t) == Pending(s) && SameFat(s, t) && (lo <= hi ==> t.bits == Some(s.bitmapLba + hi))
    decreases hi - lo
  {
    hide Inv, Pending, Enter;
    if lo <= hi {
      EnterKeeps(s, s.bitmapLba + lo);
      ScanKeeps(Enter(s, s.bitmapLba + lo), lo + 1, hi);
    }
  }

  /** A link to c is waiting in another sector and c has no entry yet: the link would reach the disk first. */
  predicate LinkedAhead(s: State, c: int) {
    s.fatDirty && s.fat != Some(s.FSec(c)) && c in s.links && c !in s.entriesOnDisk
  }

  /** Taking c as its bit is held changes a flush by that one assertion only. */
  lemma FlushTaking(s: State, c: int)
    requires Inv(s) && s.fatDirty && s.bitsDirty && c in s.bitsHeld && s.fat != Some(s.FSec(c))
    ensures var f := FlushFat(Take(s, c));
            (f.Ok? <==> !LinkedAhead(s, c)) &&
            (f.Ok? ==> f == Ok(Take(FlushFat(s).value, c)))
  {
    FlushKeeps(s);
    WriteBitsKeeps(s);
    var u := Take(s, c);
    var w := WriteBits(u);
    assert w == WriteBits(s).(taken := u.taken);
    assert Missing(w) == {};
    if LinkedAhead(s, c) {
      assert c in Early(w);
    } else {
      assert Early(w) == {};
    }
  }

  /** The entry of a cluster just taken, set through the cache. */
  lemma SetTaking(s: State, c: int)
    requires Inv(s) && s.bitsDirty && c in s.bitsHeld
    ensures var r := SetEntry(Take(s, c), c, Some(c));
            (r.Ok? <==> !LinkedAhead(s, c)) &&
            (r.Ok? ==> r == Ok(Take(SetEntry(s, c, Some(c)).value, c)))
  {
    SetKeeps(s, c, Some(c));
    if s.fatDirty && s.fat != Some(s.FSec(c)) { FlushTaking(s, c); hide FlushFat; }
  }

  /** An allocation raises exactly when its find is behind the hint or a link to it is ahead of it. */
  lemma AllocKeeps(s: State, c: int)
    requires Inv(s)
    ensures Alloc(s, c).Ok? <==> s.scanFrom <= (c - 2) / 8 && !LinkedAhead(s, c)
    ensures Alloc(s, c).Ok? ==>
              var t := Alloc(s, c).value;
              && Inv(t) && t.taken == s.taken + {c} && t.scanFrom == (c - 2) / 8
              && t.fatLba == s.fatLba && t.bitmapLba == s.bitmapLba
              && Pending(t) == Disk(Pending(s).bits + {c}, Pending(s).fat[c := Some(c)])
              && t.links <= s.links + {c}
              && var scanned := Scan(s, s.scanFrom / 512, Find(c) / 512);
                 t.bits == scanned.bits && t.bitmapReads == scanned.bitmapReads
  {
    if s.scanFrom <= Find(c) {
      ScanHolds(s, c);
      hide Inv, Pending, Scan, SetEntry, HoldBit;
      var u := HoldBit(Scan(s, s.scanFrom / 512, Find(c) / 512), c);
      SetTaking(u, c);
      SetKeeps(u, c, Some(c));
      if !LinkedAhead(u, c) { TakeKeeps(SetEntry(u, c, Some(c)).value, c); }
    }
  }

  /** The scan and the bit it finds, before the entry is set. */
  lemma ScanHolds(s: State, c: int)
    requires Inv(s) && s.scanFrom <= Find(c)
    ensures var t := Scan(s, s.scanFrom / 512, Find(c) / 512);
            var u := HoldBit(t, c);
            && Inv(u) && Pending(u) == Pending(s).(bits := Pending(s).bits + {c})
            && LinkedAhead(u, c) == LinkedAhead(s, c) && u.taken == s.taken && u.links == s.links
            && u.scanFrom == Find(c) && u.fatLba == s.fatLba && u.bitmapLba == s.bitmapLba
            && u.bitsDirty && c in u.bitsHeld && u.bits == t.bits && u.bitmapReads == t.bitmapReads
  {
    var t := Scan(s, s.scanFrom / 512, Find(c) / 512);
    assert s.scanFrom / 512 <= Find(c) / 512 by { hide *; }
    ScanKeeps(s, s.scanFrom / 512, Find(c) / 512);
    HoldBitKeeps(t, c);
    HoldBitFields(t, c);
    AheadSame(s, HoldBit(t, c), c);
    hide *;
  }

  lemma AheadSame(s: State, t: State, c: int)
    requires s.fatDirty == t.fatDirty && s.fat == t.fat && s.fatLba == t.fatLba && s.links == t.links
    requires s.entriesOnDisk == t.entriesOnDisk
    ensures LinkedAhead(s, c) == LinkedAhead(t, c)
  {}

  lemma HoldBitFields(s: State, c: int)
    ensures var t := HoldBit(s, c);
            && t.taken == s.taken && t.links == s.links && t.scanFrom == Find(c)
            && t.fatLba == s.fatLba && t.bitmapLba == s.bitmapLba && t.bitsDirty && c in t.bitsHeld
            && t.bits == s.bits && t.bitmapReads == s.bitmapReads && t.fatDirty == s.fatDirty && t.fat == s.fat
            && t.entriesOnDisk == s.entriesOnDisk
  {}

  lemma HoldBitKeeps(s: State, c: int)
    requires Inv(s) && s.bits.Some?
    ensures var t := HoldBit(s, c);
            Inv(t) && Pending(t) == Pending(s).(bits := Pending(s).bits + {c})
  {}

  lemma TakeKeeps(s: State, c: int)
    requires Inv(s) && s.fat == Some(s.FSec(c)) && c in s.entries && c in s.bitsHeld + s.onDisk
    ensures Inv(Take(s, c)) && Pending(Take(s, c)) == Pending(s)
  {}

  // Whole runs.

  /** The disk a run means: every entry and bit written at once, nothing held. */
  function Meant(d: Disk, op: Op): Disk {
    match op
    case TouchOp(_) => d
    case SetOp(c, v) => d.(fat := d.fat[c := v])
    case AllocOp(c) => Disk(d.bits + {c}, d.fat[c := Some(c)])
  }

  function MeantOps(d: Disk, ops: seq<Op>): Disk {
    if ops == [] then d else Meant(MeantOps(d, ops[..|ops| - 1]), ops[|ops| - 1])
  }

  /** All the operations of `rs`, in order. */
  function AllOps(rs: seq<Request>): seq<Op> {
    if rs == [] then [] else AllOps(rs[..|rs| - 1]) + rs[|rs| - 1].ops
  }

  /** The clusters linked to so far. */
  function Linked(ops: seq<Op>): set<int> {
    if ops == [] then {} else
      Linked(ops[..|ops| - 1]) +
      match ops[|ops| - 1]
      case TouchOp(_) => {}
      case SetOp(_, v) => if v.Some? then {v.value} else {}
      case AllocOp(c) => {c}
  }

  function Hint(hint: int, ops: seq<Op>): int {
    if ops == [] then hint else
      match ops[|ops| - 1]
      case AllocOp(c) => Find(c)
      case _ => Hint(hint, ops[..|ops| - 1])
  }

  /** Finds never go back, and a cluster is allocated before anything links to it. */
  predicate Orderly(hint: int, ops: seq<Op>) {
    ops == [] ||
    (Orderly(hint, ops[..|ops| - 1]) &&
     match ops[|ops| - 1]
     case AllocOp(c) => Hint(hint, ops[..|ops| - 1]) <= Find(c) && c !in Linked(ops[..|ops| - 1])
     case _ => true)
  }

  function Taken(ops: seq<Op>): set<int> {
    if ops == [] then {} else
      Taken(ops[..|ops| - 1]) + match ops[|ops| - 1] case AllocOp(c) => {c} case _ => {}
  }

  /** The state that serving `ops` has led to. */
  ghost predicate Tracks(s: State, hint: int, ops: seq<Op>) {
    && Inv(s)
    && Pending(s) == MeantOps(Disk({}, map[]), ops)
    && s.taken == Taken(ops)
    && s.scanFrom == Hint(hint, ops)
    && s.links <= Linked(ops)
  }

  /** The histories of a run, one operation longer. */
  lemma Appended(hint: int, ops: seq<Op>, op: Op)
    ensures var all := ops + [op];
            && MeantOps(Disk({}, map[]), all) == Meant(MeantOps(Disk({}, map[]), ops), op)
            && Taken(all) == Taken(ops) + (if op.AllocOp? then {op.c} else {})
            && Linked(all) == Linked(ops) + (match op
                                             case TouchOp(_) => {}
                                             case SetOp(_, v) => if v.Some? then {v.value} else {}
                                             case AllocOp(c) => {c})
            && Hint(hint, all) == (if op.AllocOp? then Find(op.c) else Hint(hint, ops))
            && Orderly(hint, all) == (Orderly(hint, ops) &&
                                      (op.AllocOp? ==> Hint(hint, ops) <= Find(op.c) && op.c !in Linked(ops)))
  {
    var all := ops + [op];
    assert all[..|all| - 1] == ops && all[|all| - 1] == op;
  }

  lemma StepTracks(s: State, hint: int, ops: seq<Op>, op: Op)
    requires Tracks(s, hint, ops) && Orderly(hint, ops + [op])
    ensures Step(s, op).Ok? && Tracks(Step(s, op).value, hint, ops + [op])
  {
    Appended(hint, ops, op);
    hide Inv, Pending, Touch, SetEntry, Alloc, MeantOps, Taken, Linked, Hint, Orderly;
    match op
    case TouchOp(c) => TouchKeeps(s, c);
    case SetOp(c, v) => SetKeeps(s, c, v);
    case AllocOp(c) => AllocKeeps(s, c);
  }

  // The writes, prefix by prefix.

  /** Every link ever written is one of `known`. */
  ghost predicate LinksIn(log: seq<Write>, known: set<int>) {
    forall i, e :: 0 <= i < |log| && log[i].Fat? && e in log[i].entries && log[i].entries[e].Some? ==>
      log[i].entries[e].value in known
  }

  /** The log adds up to the disk, is safe at every prefix, and holds no link outside `known`. */
  ghost predicate Recorded(s: State, known: set<int>) {
    s.disk == After(s.log) && CrashSafe(s.log, s.taken) && LinksIn(s.log, known)
  }

  lemma {:induction false} AfterLinks(log: seq<Write>, known: set<int>)
    requires LinksIn(log, known)
    ensures forall p :: p in After(log).fat && After(log).fat[p].Some? ==> After(log).fat[p].value in known
  {
    if log != [] {
      var front := log[..|log| - 1];
      assert forall i :: 0 <= i < |front| ==> front[i] == log[i];
      AfterLinks(front, known);
    }
  }

  lemma CrashSafeAppend(log: seq<Write>, w: Write, alloc: set<int>)
    requires CrashSafe(log, alloc) && Consistent(After(log + [w]), alloc)
    ensures CrashSafe(log + [w], alloc)
  {
    hide After, Consistent;
    var next := log + [w];
    forall k | 0 <= k <= |next| ensures Consistent(After(next[..k]), alloc) {
      if k <= |log| {
        assert next[..k] == log[..k];
      } else {
        assert next[..k] == next;
      }
    }
  }

  lemma AfterAppend(log: seq<Write>, w: Write)
    ensures var d := After(log);
            After(log + [w]) == match w
                                case Bits(_, held) => d.(bits := d.bits + held)
                                case Fat(_, entries) => d.(fat := d.fat + entries)
                                case DirSet(_) => d
  {
    assert (log + [w])[..|log + [w]| - 1] == log;
  }

  lemma LastSafe(log: seq<Write>, alloc: set<int>)
    requires CrashSafe(log, alloc)
    ensures Consistent(After(log), alloc)
  {
    assert log[..|log|] == log;
  }

  lemma WriteBitsRecords(s: State, known: set<int>)
    requires Recorded(s, known)
    ensures Recorded(WriteBits(s), known)
  {
    if s.bitsDirty && s.bits.Some? {
      var w := Bits(s.bits.value, s.bitsHeld);
      AfterAppend(s.log, w);
      LastSafe(s.log, s.taken);
      hide After;
      CrashSafeAppend(s.log, w, s.taken);
    }
  }

  /** A flush puts links on the disk whose targets are there already or go in the same write. */
  lemma FlushRecords(s: State, known: set<int>)
    requires Inv(s) && s.fatDirty && Recorded(s, known) && s.links <= known
    ensures FlushFat(s).Ok? && Recorded(FlushFat(s).value, known)
  {
    FlushOk(s);
    WriteBitsKeeps(s);
    WriteBitsRecords(s, known);
    var w := WriteBits(s);
    hide After, WriteBits, CrashSafe, Missing, Early;
    var write := Fat(s.fat.value, s.cache);
    AfterAppend(w.log, write);
    LastSafe(w.log, w.taken);
    assert Consistent(After(w.log + [write]), w.taken);
    CrashSafeAppend(w.log, write, w.taken);
  }

  lemma TouchRecords(s: State, c: int, known: set<int>)
    requires Inv(s) && Recorded(s, known) && s.links <= known
    ensures Touch(s, c).Ok? && Recorded(Touch(s, c).value, known)
  {
    hide After, Recorded;
    TouchKeeps(s, c);
    if s.fatDirty && s.fat != Some(s.FSec(c)) { FlushRecords(s, known); }
    RecordedBy(if s.fatDirty && s.fat != Some(s.FSec(c)) then FlushFat(s).value else s, Touch(s, c).value, known);
  }

  /** Only the log, the disk and the clusters taken matter to the record. */
  lemma RecordedBy(s: State, t: State, known: set<int>)
    requires Recorded(s, known) && t.log == s.log && t.disk == s.disk && t.taken == s.taken
    ensures Recorded(t, known)
  {}

  lemma RecordedMore(s: State, known: set<int>, more: set<int>)
    requires Recorded(s, known) && known <= more
    ensures Recorded(s, more)
  {
    hide After, CrashSafe;
  }

  /** A cluster nothing has linked to yet can be taken without touching the past. */
  lemma TakeRecords(s: State, c: int, known: set<int>)
    requires Recorded(s, known) && c !in known
    ensures Recorded(Take(s, c), known)
  {
    forall k | 0 <= k <= |s.log| ensures Consistent(After(s.log[..k]), s.taken + {c}) {
      var front := s.log[..k];
      assert forall i :: 0 <= i < |front| ==> front[i] == s.log[i];
      AfterLinks(front, known);
    }
  }

  lemma {:induction false} ScanRecords(s: State, lo: int, hi: int, known: set<int>)
    requires Recorded(s, known)
    ensures Recorded(Scan(s, lo, hi), known)
    decreases hi - lo
  {
    hide After, Recorded;
    if lo <= hi {
      var t := Enter(s, s.bitmapLba + lo);
      WriteBitsRecords(s, known);
      RecordedBy(if s.bits == Some(s.bitmapLba + lo) then s else WriteBits(s), t, known);
      ScanRecords(t, lo + 1, hi, known);
    }
  }

  lemma StepRecords(s: State, op: Op, known: set<int>)
    requires Inv(s) && Recorded(s, known) && s.links <= known && Step(s, op).Ok?
    requires op.AllocOp? ==> op.c !in known
    ensures Recorded(Step(s, op).value, known)
  {
    match op
    case TouchOp(c) =>
      TouchRecords(s, c, known);
    case SetOp(c, v) =>
      TouchRecords(s, c, known);
      hide Recorded, Inv;
      RecordedBy(Touch(s, c).value, Step(s, op).value, known);
    case AllocOp(c) =>
      var t := Scan(s, s.scanFrom / 512, Find(c) / 512);
      AllocKeeps(s, c);
      assert s.scanFrom / 512 <= Find(c) / 512;
      ScanKeeps(s, s.scanFrom / 512, Find(c) / 512);
      HoldBitKeeps(t, c);
      hide Recorded, Inv, Scan;
      ScanRecords(s, s.scanFrom / 512, Find(c) / 512, known);
      var u := HoldBit(t, c);
      RecordedBy(t, u, known);
      SetTaking(u, c);
      TouchRecords(u, c, known);
      TakeRecords(Touch(u, c).value, c, known);
      SetKeeps(u, c, Some(c));
      RecordedBy(Take(Touch(u, c).value, c), Step(s, op).value, known);
  }

  /** Everything a run keeps, in the middle of a request. */
  ghost predicate Served(s: State, hint: int, ops: seq<Op>) {
    Tracks(s, hint, ops) && Recorded(s, Linked(ops))
  }

  lemma {:induction false} StepsServe(s: State, hint: int, before: seq<Op>, ops: seq<Op>)
    requires Served(s, hint, before) && Orderly(hint, before + ops)
    ensures Steps(s, ops).Ok? && Served(Steps(s, ops).value, hint, before + ops)
    decreases |ops|
  {
    hide Inv, Pending, Recorded;
    if ops == [] {
      assert before + ops == before;
    } else {
      var front, op := ops[..|ops| - 1], ops[|ops| - 1];
      var done := before + front;
      assert before + ops == done + [op];
      assert (before + ops)[..|before + ops| - 1] == done;
      StepsServe(s, hint, before, front);
      var t := Steps(s, front).value;
      StepTracks(t, hint, done, op);
      StepRecords(t, op, Linked(done));
      RecordedMore(Step(t, op).value, Linked(done), Linked(done + [op]));
    }
  }

  /** Between requests nothing is held. */
  ghost predicate Settled(s: State) {
    !s.fatDirty && !s.bitsDirty
  }

  lemma SettledDisk(s: State)
    requires Inv(s) && Settled(s)
    ensures s.disk == Pending(s)
  {
    assert s.cache == map[];
    assert s.disk.fat + s.cache == s.disk.fat;
  }

  lemma BeginServes(s: State, hint: int, ops: seq<Op>)
    requires Served(s, hint, ops) && Settled(s)
    ensures Served(Begin(s), hint, ops)
  {
    hide After, CrashSafe, LinksIn;
  }

  lemma {:induction false} DirSetsRecord(s: State, sectors: seq<int>, known: set<int>)
    requires Recorded(s, known)
    ensures Recorded(s.(log := s.log + DirSets(sectors)), known)
    decreases |sectors|
  {
    if sectors == [] {
      assert s.log + DirSets(sectors) == s.log;
    } else {
      var front, last := sectors[..|sectors| - 1], sectors[|sectors| - 1];
      var t := s.(log := s.log + DirSets(front));
      DirSetsRecord(s, front, known);
      assert s.log + DirSets(sectors) == t.log + [DirSet(last)];
      AfterAppend(t.log, DirSet(last));
      LastSafe(t.log, t.taken);
      hide After;
      CrashSafeAppend(t.log, DirSet(last), t.taken);
    }
  }

  lemma EndServes(s: State, hint: int, ops: seq<Op>, sectors: seq<int>)
    requires Served(s, hint, ops)
    ensures End(s, sectors).Ok? && Served(End(s, sectors).value, hint, ops) && Settled(End(s, sectors).value)
  {
    var known := Linked(ops);
    var f := if s.fatDirty then FlushFat(s).value else WriteBits(s);
    if s.fatDirty {
      FlushKeeps(s);
      FlushRecords(s, known);
    } else {
      WriteBitsKeeps(s);
      WriteBitsRecords(s, known);
    }
    hide Recorded, FlushFat, WriteBits, HeldFat, HeldBits;
    DirSetsRecord(f, sectors, known);
    SameButLog(f, End(s, sectors).value);
  }

  lemma SameButLog(s: State, t: State)
    requires Inv(s) && t == s.(log := t.log)
    ensures Inv(t) && Pending(t) == Pending(s)
  {}

  lemma {:induction false} RunServes(fatLba: int, bitmapLba: int, hint: int, rs: seq<Request>)
    requires Orderly(hint, AllOps(rs))
    ensures var r := Run(Init(fatLba, bitmapLba, hint), rs);
            r.Ok? && Served(r.value, hint, AllOps(rs)) && Settled(r.value)
    decreases |rs|
  {
    var s := Init(fatLba, bitmapLba, hint);
    if rs != [] {
      var front, last := rs[..|rs| - 1], rs[|rs| - 1];
      OrderlyPrefix(hint, AllOps(front), last.ops);
      RunServes(fatLba, bitmapLba, hint, front);
      var t := Run(s, front).value;
      hide Served, Settled, End, Steps, Init;
      BeginServes(t, hint, AllOps(front));
      StepsServe(Begin(t), hint, AllOps(front), last.ops);
      EndServes(Steps(Begin(t), last.ops).value, hint, AllOps(rs), last.sets);
    }
  }

  lemma {:induction false} OrderlyPrefix(hint: int, ops: seq<Op>, more: seq<Op>)
    requires Orderly(hint, ops + more)
    ensures Orderly(hint, ops)
    decreases |more|
  {
    if more == [] {
      assert ops + more == ops;
    } else {
      assert (ops + more)[..|ops + more| - 1] == ops + more[..|more| - 1];
      OrderlyPrefix(hint, ops, more[..|more| - 1]);
    }
  }

  /** The batch, for any number of requests whose clusters are allocated before
      they are linked and whose finds go forward: no assertion fires; the disk
      ends as if every entry and bit had been written at once; and after every
      prefix of the writes, each link on it to a cluster the run allocates has
      its bit and its target's entry there. */
  lemma BatchIsCrashSafe(fatLba: int, bitmapLba: int, hint: int, rs: seq<Request>)
    requires Orderly(hint, AllOps(rs))
    ensures var r := Run(Init(fatLba, bitmapLba, hint), rs);
            && r.Ok?
            && After(r.value.log) == MeantOps(Disk({}, map[]), AllOps(rs))
            && CrashSafe(r.value.log, Taken(AllOps(rs)))
  {
    RunServes(fatLba, bitmapLba, hint, rs);
    var s := Run(Init(fatLba, bitmapLba, hint), rs).value;
    hide After, MeantOps, CrashSafe;
    SettledDisk(s);
  }
}
