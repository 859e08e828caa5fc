/** The batch's promises about one request: what it reads, in what order it
    writes, and the two request shapes the rig builds. */
module BatchRequests {
  import opened Bytes
  import opened AllocBatch

  /** The sectors lo to hi, each once. */
  function Each(lo: int, hi: int): (r: seq<int>)
    decreases hi - lo
    ensures |r| == if lo <= hi then hi - lo + 1 else 0
    ensures forall i :: 0 <= i < |r| ==> r[i] == lo + i
  {
    if lo > hi then [] else Each(lo, hi - 1) + [hi]
  }

  lemma EnterReads(s: State, sec: int)
    ensures var t := Enter(s, sec);
            t.bits == Some(sec) && t.bitmapLba == s.bitmapLba
            && t.bitmapReads == if s.bits == Some(sec) then s.bitmapReads else s.bitmapReads + [sec]
  {}

  lemma EachCons(m: seq<int>, lo: int, hi: int)
    requires lo <= hi
    ensures m + [lo] + Each(lo + 1, hi) == m + Each(lo, hi)
  {
    assert [lo] + Each(lo + 1, hi) == Each(lo, hi);
  }

  lemma EachNone(lo: int, hi: int, m: seq<int>)
    requires lo > hi
    ensures m + Each(lo, hi) == m
  {}

  lemma ScanStep(s: State, lo: int, hi: int)
    requires lo <= hi
    ensures var t := Enter(s, s.bitmapLba + lo);
            Scan(s, lo, hi) == if lo < hi then Scan(t, lo + 1, hi) else t
  {
    hide Enter;
  }

  lemma {:induction false} ScanReads(s: State, lo: int, hi: int)
    requires lo <= hi && (s.bits.None? || s.bits == Some(s.bitmapLba + lo) || s.bits == Some(s.bitmapLba + lo - 1))
    ensures Scan(s, lo, hi).bitmapReads ==
            s.bitmapReads + if s.bits == Some(s.bitmapLba + lo) then Each(s.bitmapLba + lo + 1, s.bitmapLba + hi)
                            else Each(s.bitmapLba + lo, s.bitmapLba + hi)
    decreases hi - lo
  {
    var sec := s.bitmapLba + lo;
    var t := Enter(s, sec);
    EnterReads(s, sec);
    ScanStep(s, lo, hi);
    hide *;
    EachCons(s.bitmapReads, sec, s.bitmapLba + hi);
    if lo < hi { ScanReads(t, lo + 1, hi); } else { EachNone(sec + 1, s.bitmapLba + hi, t.bitmapReads); }
  }

  /** From `s0`, a request's start: no allocation yet, or every sector from the hint's to the last find's read once. */
  ghost predicate ReadsFrom(s0: State, s: State) {
    s.bitmapLba == s0.bitmapLba &&
    if s.bits.None? then s.bitmapReads == s0.bitmapReads && s.scanFrom == s0.scanFrom
    else s0.scanFrom <= s.scanFrom && s.bits == Some(s.BSec(s.scanFrom))
         && s.bitmapReads == s0.bitmapReads + Each(s0.BSec(s0.scanFrom), s.BSec(s.scanFrom))
  }

  lemma AllocReads(s0: State, s: State, c: int)
    requires ReadsFrom(s0, s) && s.scanFrom <= Find(c)
    ensures Scan(s, s.scanFrom / 512, Find(c) / 512).bitmapReads ==
            s0.bitmapReads + Each(s0.BSec(s0.scanFrom), s.BSec(Find(c)))
  {
    var lo, hi := s.scanFrom / 512, Find(c) / 512;
    var first, last, found := s0.BSec(s0.scanFrom), s.BSec(s.scanFrom), s.BSec(Find(c));
    assert last == s.bitmapLba + lo && found == s.bitmapLba + hi;
    assert s.bits.None? ==> s.bitmapReads == s0.bitmapReads && first == last;
    assert s.bits.Some? ==> s.bits == Some(last) && s.bitmapReads == s0.bitmapReads + Each(first, last);
    hide *;
    assert lo <= hi;
    ScanReads(s, lo, hi);
    if s.bits.Some? {
      assert first <= last by { SectorsRise(s0, s); }
      EachJoin(s0.bitmapReads, first, last, found);
    }
  }

  lemma SectorsRise(s: State, t: State)
    requires s.bitmapLba == t.bitmapLba && s.scanFrom <= t.scanFrom
    ensures s.BSec(s.scanFrom) <= t.BSec(t.scanFrom)
  {}

  lemma EachJoin(m: seq<int>, first: int, last: int, found: int)
    requires first <= last <= found
    ensures m + Each(first, last) + Each(last + 1, found) == m + Each(first, found)
  {
    assert Each(first, last) + Each(last + 1, found) == Each(first, found);
  }

  lemma StepReads(s0: State, s: State, op: Op)
    requires Inv(s) && ReadsFrom(s0, s) && Step(s, op).Ok?
    ensures ReadsFrom(s0, Step(s, op).value) && (op.AllocOp? ==> Step(s, op).value.bits.Some?)
  {
    hide Inv, Touch, SetEntry, Alloc, Each;
    match op
    case TouchOp(c) => TouchKeeps(s, c);
    case SetOp(c, v) => SetKeeps(s, c, v);
    case AllocOp(c) =>
      AllocKeeps(s, c);
      assert s.scanFrom / 512 <= Find(c) / 512;
      ScanKeeps(s, s.scanFrom / 512, Find(c) / 512);
      AllocReads(s0, s, c);
  }

  lemma {:induction false} StepsRead(s0: State, hint: int, before: seq<Op>, ops: seq<Op>)
    requires Served(s0, hint, before) && Orderly(hint, before + ops) && s0.bits.None?
    ensures Steps(s0, ops).Ok?
    ensures var s := Steps(s0, ops).value;
            ReadsFrom(s0, s) && (s.bits.Some? <==> exists i :: 0 <= i < |ops| && ops[i].AllocOp?)
    decreases |ops|
  {
    hide Inv, Served, Step;
    StepsServe(s0, hint, before, ops);
    if ops != [] {
      var front, op := ops[..|ops| - 1], ops[|ops| - 1];
      assert before + ops == (before + front) + [op];
      OrderlyPrefix(hint, before + front, [op]);
      StepsRead(s0, hint, before, front);
      StepsServe(s0, hint, before, front);
      var t := Steps(s0, front).value;
      ServedInv(t, hint, before + front);
      StepReads(s0, t, op);
      if op.AllocOp? { assert ops[|ops| - 1].AllocOp?; } else { OthersKeepBits(t, op); }
      assert forall i :: 0 <= i < |front| ==> front[i] == ops[i];
    }
  }

  lemma ServedInv(s: State, hint: int, ops: seq<Op>)
    requires Served(s, hint, ops)
    ensures Inv(s)
  {
    hide Inv;
  }

  lemma OthersKeepBits(s: State, op: Op)
    requires Inv(s) && !op.AllocOp?
    ensures Step(s, op).Ok? && Step(s, op).value.bits == s.bits
  {
    match op
    case TouchOp(c) => TouchKeeps(s, c);
    case SetOp(c, v) => SetKeeps(s, c, v);
  }

  /** The last allocation of a request. */
  predicate LastAlloc(ops: seq<Op>, i: nat) {
    i < |ops| && ops[i].AllocOp? && forall k :: i < k < |ops| ==> !ops[k].AllocOp?
  }

  lemma {:induction false} HintIs(hint: int, before: seq<Op>, ops: seq<Op>, i: nat)
    requires LastAlloc(ops, i)
    ensures Hint(hint, before + ops) == (ops[i].c - 2) / 8
    decreases |ops|
  {
    var all := before + ops;
    if i < |ops| - 1 {
      HintIs(hint, before, ops[..|ops| - 1], i);
      assert all[..|all| - 1] == before + ops[..|ops| - 1] && all[|all| - 1] == ops[|ops| - 1];
    } else {
      assert all[|all| - 1] == ops[i];
    }
  }

  lemma ServedHint(s: State, hint: int, ops: seq<Op>)
    requires Served(s, hint, ops)
    ensures s.scanFrom == Hint(hint, ops)
  {
    hide Inv, Pending, MeantOps, Recorded;
  }

  lemma SpanRead(s: State, hint: int, before: seq<Op>, r: Request)
    requires Served(s, hint, before) && Settled(s) && Orderly(hint, before + r.ops)
    ensures Serve(s, r).Ok?
    ensures var t := Serve(s, r).value;
            && t.scanFrom == Hint(hint, before + r.ops)
            && t.bitmapReads == s.bitmapReads +
               if exists i :: 0 <= i < |r.ops| && r.ops[i].AllocOp?
               then Each(s.bitmapLba + s.scanFrom / 512, s.bitmapLba + t.scanFrom / 512) else []
  {
    hide Served, Steps, End, Inv, Each, Orderly, Hint;
    BeginServes(s, hint, before);
    StepsServe(Begin(s), hint, before, r.ops);
    StepsRead(Begin(s), hint, before, r.ops);
    var m := Steps(Begin(s), r.ops).value;
    ServedInv(m, hint, before + r.ops);
    ServedHint(m, hint, before + r.ops);
    EndServes(m, hint, before + r.ops, r.sets);
    EndReads(m, r.sets);
  }

  /** A request that allocates reads each bitmap sector from the hint's to its last
      cluster's exactly once, however many clusters it takes; another reads none. */
  lemma RequestReads(s: State, hint: int, before: seq<Op>, r: Request)
    requires Served(s, hint, before) && Settled(s) && Orderly(hint, before + r.ops)
    ensures Serve(s, r).Ok?
    ensures (forall i :: 0 <= i < |r.ops| ==> !r.ops[i].AllocOp?) ==> Serve(s, r).value.bitmapReads == s.bitmapReads
    ensures forall i: nat :: LastAlloc(r.ops, i) ==>
              && Serve(s, r).value.scanFrom == (r.ops[i].c - 2) / 8
              && Serve(s, r).value.bitmapReads ==
                 s.bitmapReads + Each(s.bitmapLba + s.scanFrom / 512, s.bitmapLba + (r.ops[i].c - 2) / 4096)
  {
    hide *;
    SpanRead(s, hint, before, r);
    var t := Serve(s, r).value;
    forall i: nat | LastAlloc(r.ops, i)
      ensures i < |r.ops| && r.ops[i].AllocOp? && t.scanFrom == (r.ops[i].c - 2) / 8
      ensures t.scanFrom / 512 == (r.ops[i].c - 2) / 4096
    {
      LastIs(r.ops, i);
      HintIs(hint, before, r.ops, i);
      EighthOf(r.ops[i].c - 2);
    }
  }

  lemma LastIs(ops: seq<Op>, i: nat)
    requires LastAlloc(ops, i)
    ensures i < |ops| && ops[i].AllocOp?
  {}

  lemma EighthOf(c: int)
    ensures c / 8 / 512 == c / 4096
  {}

  lemma EndReads(s: State, sets: seq<int>)
    requires Inv(s)
    ensures End(s, sets).Ok? && End(s, sets).value.bitmapReads == s.bitmapReads
         && End(s, sets).value.scanFrom == s.scanFrom
  {
    if s.fatDirty { FlushKeeps(s); } else { WriteBitsKeeps(s); }
  }

  // The order of a request's writes.

  /** `t`'s log is `s`'s and then bitmap and FAT writes only. */
  ghost predicate Extends(s: State, t: State) {
    s.log <= t.log && forall i :: |s.log| <= i < |t.log| ==> !t.log[i].DirSet?
  }

  lemma FlushExtends(s: State)
    requires FlushFat(s).Ok?
    ensures Extends(s, FlushFat(s).value)
  {}

  lemma {:induction false} ScanExtends(s: State, lo: int, hi: int)
    ensures Extends(s, Scan(s, lo, hi))
    decreases hi - lo
  {
    if lo <= hi { ScanExtends(Enter(s, s.bitmapLba + lo), lo + 1, hi); }
  }

  lemma SetExtends(s: State, c: int, v: Option<int>)
    requires SetEntry(s, c, v).Ok?
    ensures Extends(s, SetEntry(s, c, v).value) && Extends(s, Touch(s, c).value)
  {
    if s.fatDirty && s.fat != Some(s.FSec(c)) { FlushExtends(s); hide FlushFat; }
  }

  lemma StepExtends(s: State, op: Op)
    requires Step(s, op).Ok?
    ensures Extends(s, Step(s, op).value)
  {
    match op
    case TouchOp(c) => SetExtends(s, c, None);
    case SetOp(c, v) => SetExtends(s, c, v);
    case AllocOp(c) =>
      var t := Scan(s, s.scanFrom / 512, Find(c) / 512);
      ScanExtends(s, s.scanFrom / 512, Find(c) / 512);
      SetExtends(Take(HoldBit(t, c), c), c, Some(c));
      hide Scan, SetEntry;
  }

  lemma {:induction false} StepsExtend(s: State, ops: seq<Op>)
    requires Steps(s, ops).Ok?
    ensures Extends(s, Steps(s, ops).value)
    decreases |ops|
  {
    hide Step;
    if ops != [] {
      StepsExtend(s, ops[..|ops| - 1]);
      StepExtends(Steps(s, ops[..|ops| - 1]).value, ops[|ops| - 1]);
    }
  }

  /** The directory-set sectors come after all of the request's FAT and bitmap writes. */
  lemma SetsComeLast(s: State, r: Request)
    requires Serve(s, r).Ok?
    ensures exists f: State :: Extends(s, f) && Serve(s, r).value.log == f.log + DirSets(r.sets)
  {
    var m := Steps(Begin(s), r.ops).value;
    StepsExtend(Begin(s), r.ops);
    var f := if m.fatDirty then FlushFat(m).value else WriteBits(m);
    if m.fatDirty { FlushExtends(m); }
    assert Extends(m, f);
    assert Extends(s, f) && Serve(s, r).value.log == f.log + DirSets(r.sets);
  }

  // The two requests the rig builds.

  /** A gap fill: the head allocated, then each step asks the last entry, allocates and links. */
  function GapFill(chain: seq<int>): seq<Op> {
    if chain == [] then []
    else if |chain| == 1 then [AllocOp(chain[0])]
    else
      var prev, c := chain[|chain| - 2], chain[|chain| - 1];
      GapFill(chain[..|chain| - 1]) + [TouchOp(prev), AllocOp(c), SetOp(prev, Some(c))]
  }

  /** A contiguous run linked cluster to cluster, its last entry an end of chain. */
  function LinkRun(first: int, n: nat): seq<Op> {
    if n == 0 then [] else RunLinks(first, n - 1) + [SetOp(first + n - 1, None)]
  }

  function RunLinks(first: int, n: nat): seq<Op> {
    if n == 0 then [] else RunLinks(first, n - 1) + [SetOp(first + n - 1, Some(first + n))]
  }

  /** An append to that run: its last entry asked, one cluster allocated and linked. */
  function FirstAppend(first: int, n: nat, c: int): seq<Op>
    requires n > 0
  {
    LinkRun(first, n) + [TouchOp(first + n - 1), AllocOp(c), SetOp(first + n - 1, Some(c))]
  }

  /** The gap fill, operation by operation. */
  lemma {:induction false} GapFillAt(chain: seq<int>, i: nat)
    requires i + 1 < |chain|
    ensures var ops := GapFill(chain);
            && |ops| == 3 * |chain| - 2 && ops[0] == AllocOp(chain[0])
            && ops[3 * i + 1..3 * i + 4] ==
               [TouchOp(chain[i]), AllocOp(chain[i + 1]), SetOp(chain[i], Some(chain[i + 1]))]
    decreases |chain|
  {
    var front := chain[..|chain| - 1];
    if |chain| == 2 {
      assert GapFill(front) == [AllocOp(chain[0])];
    } else if i + 2 < |chain| {
      GapFillAt(front, i);
      assert GapFill(chain)[3 * i + 1..3 * i + 4] == GapFill(front)[3 * i + 1..3 * i + 4];
    } else {
      GapFillAt(front, 0);
    }
  }

  /** The run's links, entry by entry. */
  lemma {:induction false} LinkRunAt(first: int, n: nat, i: nat)
    requires i < n
    ensures |LinkRun(first, n)| == n
    ensures LinkRun(first, n)[i] == SetOp(first + i, if i + 1 < n then Some(first + i + 1) else None)
  {
    if i < n - 1 { RunLinksAt(first, n - 1, i); } else if n > 1 { RunLinksAt(first, n - 1, 0); }
  }

  lemma {:induction false} RunLinksAt(first: int, n: nat, i: nat)
    requires i < n
    ensures |RunLinks(first, n)| == n && RunLinks(first, n)[i] == SetOp(first + i, Some(first + i + 1))
    decreases n
  {
    if i < n - 1 { RunLinksAt(first, n - 1, i); } else if n > 1 { RunLinksAt(first, n - 1, 0); }
  }

  predicate Fresh(hint: int, chain: seq<int>) {
    (forall i, j :: 0 <= i < j < |chain| ==> chain[i] != chain[j]) &&
    (chain != [] ==> hint <= Find(chain[0])) &&
    (forall i :: 0 < i < |chain| ==> Find(chain[i - 1]) <= Find(chain[i]))
  }

  lemma {:induction false} GapFillOrderly(hint: int, chain: seq<int>)
    requires chain != [] && Fresh(hint, chain)
    ensures var ops := GapFill(chain);
            && Orderly(hint, ops) && (forall c :: c in Linked(ops) ==> c in chain)
            && Hint(hint, ops) == Find(chain[|chain| - 1])
    decreases |chain|
  {
    if |chain| == 1 {
      Appended(hint, [], AllocOp(chain[0]));
      assert [] + [AllocOp(chain[0])] == GapFill(chain);
    } else {
      var front, prev, c := chain[..|chain| - 1], chain[|chain| - 2], chain[|chain| - 1];
      FreshFront(hint, front, c);
      assert chain == front + [c];
      hide Orderly, Linked, Hint, Find, Fresh;
      GapFillOrderly(hint, front);
      LinkOrderly(hint, GapFill(front), prev, c);
    }
  }

  lemma FreshFront(hint: int, front: seq<int>, c: int)
    requires front != [] && Fresh(hint, front + [c])
    ensures Fresh(hint, front) && c !in front && Find(front[|front| - 1]) <= Find(c)
  {
    hide Find;
    var chain := front + [c];
    assert forall i :: 0 <= i < |front| ==> front[i] == chain[i];
    assert chain[|front|] == c && Find(chain[|front| - 1]) <= Find(chain[|front|]);
  }

  /** One step of either request keeps the order, when c is new and found forward. */
  lemma LinkOrderly(hint: int, ops: seq<Op>, prev: int, c: int)
    requires Orderly(hint, ops) && Hint(hint, ops) <= Find(c) && c !in Linked(ops)
    ensures var all := ops + [TouchOp(prev), AllocOp(c), SetOp(prev, Some(c))];
            Orderly(hint, all) && Linked(all) == Linked(ops) + {c} && Hint(hint, all) == Find(c)
  {
    hide Orderly, Linked, Hint, Find;
    var a := ops + [TouchOp(prev)];
    var b := a + [AllocOp(c)];
    Appended(hint, ops, TouchOp(prev));
    Appended(hint, a, AllocOp(c));
    Appended(hint, b, SetOp(prev, Some(c)));
    assert ops + [TouchOp(prev), AllocOp(c), SetOp(prev, Some(c))] == b + [SetOp(prev, Some(c))];
  }

  lemma {:induction false} RunLinksOrderly(hint: int, ops: seq<Op>, first: int, n: nat)
    requires Orderly(hint, ops)
    ensures var all := ops + RunLinks(first, n);
            && Orderly(hint, all) && Hint(hint, all) == Hint(hint, ops)
            && forall c :: c in Linked(all) ==> c in Linked(ops) || first < c <= first + n
    decreases n
  {
    hide Orderly, Linked, Hint, Find;
    if n == 0 {
      assert ops + RunLinks(first, 0) == ops;
    } else {
      RunLinksOrderly(hint, ops, first, n - 1);
      var op := SetOp(first + n - 1, Some(first + n));
      Appended(hint, ops + RunLinks(first, n - 1), op);
      assert ops + RunLinks(first, n) == ops + RunLinks(first, n - 1) + [op];
    }
  }

  lemma BuildOrderly(hint: int, chain: seq<int>, first: int, n: nat, c: int)
    requires chain != [] && Fresh(hint, chain + [c]) && n > 0 && !(first < c < first + n)
    ensures Orderly(hint, GapFill(chain) + FirstAppend(first, n, c))
  {
    hide Orderly, Linked, Hint, Find, RunLinks, GapFill, Fresh;
    FreshFront(hint, chain, c);
    GapFillOrderly(hint, chain);
    RunLinksOrderly(hint, GapFill(chain), first, n - 1);
    var linked := GapFill(chain) + RunLinks(first, n - 1);
    var ended := linked + [SetOp(first + n - 1, None)];
    Appended(hint, linked, SetOp(first + n - 1, None));
    LinkOrderly(hint, ended, first + n - 1, c);
    assert GapFill(chain) + FirstAppend(first, n, c)
        == ended + [TouchOp(first + n - 1), AllocOp(c), SetOp(first + n - 1, Some(c))];
  }

  lemma TwoRequests(a: Request, b: Request)
    ensures AllOps([a, b]) == a.ops + b.ops
  {
    assert [a, b][..1] == [a] && [a][..0] == [];
    assert AllOps([a]) == [] + a.ops == a.ops;
  }

  /** The rig's two requests, for every chain of new clusters found forward,
      every run and every new cluster outside both: the model never refuses
      them, and their writes are crash safe. */
  lemma BuildIsCrashSafe(fatLba: int, bitmapLba: int, hint: int, chain: seq<int>, first: int, n: nat, c: int,
                         gSets: seq<int>, cSets: seq<int>)
    requires chain != [] && Fresh(hint, chain + [c]) && n > 0 && !(first < c < first + n)
    ensures var rs := [Request(GapFill(chain), gSets), Request(FirstAppend(first, n, c), cSets)];
            var r := Run(Init(fatLba, bitmapLba, hint), rs);
            && r.Ok?
            && After(r.value.log) == MeantOps(Disk({}, map[]), AllOps(rs))
            && CrashSafe(r.value.log, Taken(AllOps(rs)))
  {
    hide *;
    var rs := [Request(GapFill(chain), gSets), Request(FirstAppend(first, n, c), cSets)];
    TwoRequests(rs[0], rs[1]);
    BuildOrderly(hint, chain, first, n, c);
    BatchIsCrashSafe(fatLba, bitmapLba, hint, rs);
  }

  /** Why the order matters: linked first and allocated after, from another FAT
      sector, the flush would put the link on the disk before its entry. */
  lemma LinkBeforeAllocRaises(s: State, p: int, c: int)
    requires Inv(s) && s.FSec(p) != s.FSec(c) && c !in Pending(s).fat
    ensures Steps(s, [SetOp(p, Some(c)), AllocOp(c)]).Raised?
  {
    var a, b := SetOp(p, Some(c)), AllocOp(c);
    assert [a, b][..1] == [a] && [a][..0] == [];
    SetKeeps(s, p, Some(c));
    var t := SetEntry(s, p, Some(c)).value;
    assert c in t.links && t.fatDirty && c !in Pending(t).fat;
    hide SetEntry, Alloc, HeldFat, HeldBits;
    AllocKeeps(t, c);
    assert Steps(s, [a]) == Ok(t);
  }
}
