/** FAT32 chains and entries (scripts/fat32img.py, class Fat32). A FAT copy has
    `count` 32-bit entries, of which an image that ends early holds only the first. */
module Fat32Chain {
  import opened Bytes

  const BAD_CLUSTER := 0x0FFF_FFF7
  const LINK := 0x1000_0000

  /** The image from the start of a FAT copy on, in 32-bit words. */
  type Fat = seq<nat>

  /** One past the last cluster: the data sectors over the cluster size plus 2,
      never past what a FAT copy describes nor as far as the bad-cluster mark. */
  function ClusterEnd(dataSectors: int, spc: nat, count: nat): (end: int)
    requires spc > 0
    ensures end <= count && end <= BAD_CLUSTER
  {
    var byData := dataSectors / spc + 2;
    var byFat := if byData <= count then byData else count;
    if byFat <= BAD_CLUSTER then byFat else BAD_CLUSTER
  }

  /** So a cluster is of the heap exactly when its last sector is inside the volume, its entry is in the FAT, and its
      number is none of the marks. */
  lemma InHeapIff(c: nat, dataSectors: int, spc: nat, count: nat)
    requires spc > 0
    ensures InHeap(c, ClusterEnd(dataSectors, spc, count)) <==>
            2 <= c < count && c < 0x0FFF_FFF7 && (c - 1) * spc <= dataSectors
  {
    var q, r := dataSectors / spc, dataSectors % spc;
    assert dataSectors == q * spc + r;
    if c - 1 <= q { Times(c - 1, q, spc); } else { Times(q + 1, c - 1, spc); assert (q + 1) * spc == q * spc + spc; }
  }

  lemma Times(a: int, b: int, n: nat)
    requires a <= b
    ensures a * n <= b * n
  {
    assert (b - a) * n == b * n - a * n;
    assert (b - a) * n >= 0;
  }

  predicate InHeap(c: nat, end: int) { 2 <= c < end }

  /** A cluster's entry, its low 28 bits. */
  function Entry(fat: Fat, c: nat): nat
    requires c < |fat|
  {
    fat[c] % LINK
  }

  /** The n-th cluster from `first`, following links while they are in the table. */
  function Nth(fat: Fat, first: nat, n: nat): nat {
    if n == 0 then first else
      var c := Nth(fat, first, n - 1);
      if c < |fat| then Entry(fat, c) else 0
  }

  /** Whether the walk takes n steps inside the heap. */
  ghost predicate Goes(fat: Fat, end: int, first: nat, n: nat) {
    n > 0 ==> forall i :: 0 <= i <= n ==> InHeap(Nth(fat, first, i), end)
  }

  /** The walk comes back to a cluster it has been at. */
  ghost predicate Cycles(fat: Fat, end: int, first: nat) {
    exists i, j :: 0 <= i < j && Goes(fat, end, first, j) && Nth(fat, first, i) == Nth(fat, first, j)
  }

  ghost predicate Distinct(s: seq<nat>) { forall i, j :: 0 <= i < j < |s| ==> s[i] != s[j] }

  /** Distinct heap clusters are fewer than the entries of a FAT copy. */
  lemma {:induction false} Pigeonhole(s: seq<nat>, end: nat)
    requires Distinct(s) && forall i :: 0 <= i < |s| ==> InHeap(s[i], end)
    ensures |s| <= if end <= 2 then 0 else end - 2
    decreases end
  {
    if end <= 2 {
      assert s != [] ==> InHeap(s[0], end);
    } else if k :| 0 <= k < |s| && s[k] == end - 1 {
      Pigeonhole(s[..k] + s[k + 1..], end - 1);
    } else {
      Pigeonhole(s, end - 1);
    }
  }

  /** Once round, round for ever. */
  lemma {:induction false} Around(fat: Fat, end: int, first: nat, i: nat, j: nat, n: nat)
    requires i < j && Goes(fat, end, first, j) && Nth(fat, first, i) == Nth(fat, first, j)
    ensures exists k :: 0 <= k < j && Nth(fat, first, k) == Nth(fat, first, n)
    decreases n
  {
    if n >= j {
      Around(fat, end, first, i, j, n - 1);
      var k :| 0 <= k < j && Nth(fat, first, k) == Nth(fat, first, n - 1);
      assert Nth(fat, first, k + 1) == Nth(fat, first, n);
      if k + 1 == j { assert Nth(fat, first, i) == Nth(fat, first, n); }
    } else {
      assert Nth(fat, first, n) == Nth(fat, first, n);
    }
  }

  lemma CyclesGoOn(fat: Fat, end: int, first: nat, n: nat)
    requires Cycles(fat, end, first)
    ensures Goes(fat, end, first, n)
  {
    var i, j :| 0 <= i < j && Goes(fat, end, first, j) && Nth(fat, first, i) == Nth(fat, first, j);
    forall m | 0 <= m <= n ensures InHeap(Nth(fat, first, m), end) {
      Around(fat, end, first, i, j, m);
    }
  }

  /** The walk comes, in the heap, to a cluster whose entry is past the end of the image. */
  ghost predicate RunsShort(fat: Fat, end: int, first: nat) {
    exists n :: 0 <= n && Goes(fat, end, first, n) && InHeap(Nth(fat, first, n), end) && Nth(fat, first, n) >= |fat|
  }

  lemma NeverBoth(fat: Fat, end: int, first: nat)
    ensures !Cycles(fat, end, first) || !RunsShort(fat, end, first)
  {
    if Cycles(fat, end, first) {
      forall n | 0 <= n ensures Nth(fat, first, n) < |fat| {
        CyclesGoOn(fat, end, first, n + 1);
        assert InHeap(Nth(fat, first, n + 1), end);
      }
    }
  }

  datatype Chained = Chained(clusters: seq<nat>) | Loop | Short

  /** Both errors are exact: a loop when the walk cycles, a short read when it needs an entry
      the image does not hold. Otherwise the chain is the walk, without repeats, up to the
      first link outside the heap. */
  method Chain(fat: Fat, count: nat, end: int, first: nat) returns (r: Chained)
    requires end <= count
    ensures r.Loop? <==> Cycles(fat, end, first)
    ensures r.Short? <==> RunsShort(fat, end, first)
    ensures r.Chained? ==>
              IsChain(fat, end, first, r.clusters)
  {
    var out := [first];
    Started(fat, end, first);
    hide Nth, Goes, Cycles, RunsShort, Distinct, Entry;
    NeverBoth(fat, end, first);
    while InHeap(out[|out| - 1], end)
      invariant 0 < |out| && (|out| <= count || |out| == 1)
      invariant forall i :: 0 <= i < |out| ==> out[i] == Nth(fat, first, i)
      invariant Goes(fat, end, first, |out| - 1)
      decreases count + 1 - |out|
    {
      var last := out[|out| - 1];
      Onward(fat, end, first, |out| - 1);
      if last >= |fat| { return Short; }
      var next := Entry(fat, last);
      if !InHeap(next, end) { break; }
      if |out| == count {
        TooLong(fat, end, first, out);
        return Loop;
      }
      out := out + [next];
    }
    Stopped(fat, end, first, |out|);
    NoCycleDistinct(fat, end, first, out);
    r := Chained(out);
  }

  lemma Started(fat: Fat, end: int, first: nat)
    ensures Nth(fat, first, 0) == first && Goes(fat, end, first, 0)
  {}

  /** From the n-th cluster, in the heap: past the image, out of the heap, or on. */
  lemma Onward(fat: Fat, end: int, first: nat, n: nat)
    requires Goes(fat, end, first, n) && InHeap(Nth(fat, first, n), end)
    ensures var c := Nth(fat, first, n);
            if c >= |fat| then RunsShort(fat, end, first) else
              Nth(fat, first, n + 1) == Entry(fat, c) && (InHeap(Entry(fat, c), end) ==> Goes(fat, end, first, n + 1))
  {
    var c := Nth(fat, first, n);
    if c < |fat| { assert Nth(fat, first, n + 1) == Entry(fat, c); }
  }

  lemma NoFurther(fat: Fat, end: int, first: nat, m: nat, n: nat)
    requires !Goes(fat, end, first, m) && m <= n
    ensures !Goes(fat, end, first, n)
  {}

  lemma Stopped(fat: Fat, end: int, first: nat, m: nat)
    requires m > 0 && Goes(fat, end, first, m - 1)
    requires var last := Nth(fat, first, m - 1);
             InHeap(last, end) ==> last < |fat| && !InHeap(Entry(fat, last), end)
    ensures !Goes(fat, end, first, m) && !Cycles(fat, end, first) && !RunsShort(fat, end, first)
  {
    var last := Nth(fat, first, m - 1);
    assert InHeap(last, end) ==> Nth(fat, first, m) == Entry(fat, last);
    assert !Goes(fat, end, first, m);
    if Cycles(fat, end, first) { CyclesGoOn(fat, end, first, m); }
    forall n | m <= n ensures !Goes(fat, end, first, n) { NoFurther(fat, end, first, m, n); }
    forall n | 0 <= n < m - 1 ensures Nth(fat, first, n) < |fat| { assert InHeap(Nth(fat, first, n + 1), end); }
  }

  lemma TooLong(fat: Fat, end: int, first: nat, out: seq<nat>)
    requires end <= |out| && Goes(fat, end, first, |out|) && 0 < |out|
    requires forall i :: 0 <= i < |out| ==> out[i] == Nth(fat, first, i)
    ensures Cycles(fat, end, first)
  {
    if Distinct(out) {
      Pigeonhole(out, if end < 0 then 0 else end);
    } else {
      var i, j :| 0 <= i < j < |out| && out[i] == out[j];
      assert Goes(fat, end, first, j) && Nth(fat, first, i) == Nth(fat, first, j);
    }
  }

  lemma NoCycleDistinct(fat: Fat, end: int, first: nat, out: seq<nat>)
    requires !Cycles(fat, end, first) && out != [] && Goes(fat, end, first, |out| - 1)
    requires forall i :: 0 <= i < |out| ==> out[i] == Nth(fat, first, i)
    ensures Distinct(out)
  {
    forall i, j | 0 <= i < j < |out| ensures out[i] != out[j] {
      assert Goes(fat, end, first, j);
    }
  }

  // Writing an entry.

  /** The top four bits kept. */
  function Merged(was: nat, value: nat): nat { was / LINK * LINK + value % LINK }

  /** Where cluster c's entry is in copy k, in 32-bit words from the first copy. */
  function Place(count: nat, k: nat, c: nat): nat { k * count + c }

  lemma PlacesRise(count: nat, k: nat, l: nat, c: nat)
    requires c < count && k < l
    ensures Place(count, k, c) < Place(count, l, c)
  {
    MulRises(count, k, l);
  }

  lemma {:induction false} MulRises(n: nat, k: nat, l: nat)
    requires 0 < n && k < l
    ensures k * n < l * n
    decreases l
  {
    if k + 1 < l { MulRises(n, k, l - 1); }
    assert l * n == (l - 1) * n + n;
  }

  /** `now` is `was` with the entry of c set to `value` in the first n copies of the list, where the volume has them. */
  ghost predicate SetIn(was: seq<nat>, now: seq<nat>, count: nat, copies: seq<nat>, n: nat, c: nat, value: nat)
    requires n <= |copies|
  {
    && |now| == |was|
    && (forall m :: 0 <= m < n && Place(count, copies[m], c) < |was| ==>
          now[Place(count, copies[m], c)] == Merged(was[Place(count, copies[m], c)], value))
    && forall i :: 0 <= i < |was| && (forall m :: 0 <= m < n ==> i != Place(count, copies[m], c)) ==> now[i] == was[i]
  }

  class Fat32 {
    const dataSectors: int
    const spc: nat
    const count: nat
    const nfats: nat
    const mirrored: bool
    const live: nat
    /** The volume from its first FAT on: the copies, and whatever is after them. */
    var words: seq<nat>

    /** From the geometry and the flags: with bit 7 set the copy in bits 0 to 3 is live; else the
        first is, and all are kept alike. */
    constructor (words: seq<nat>, dataSectors: int, spc: nat, count: nat, nfats: nat, flags: nat)
      ensures this.words == words && this.dataSectors == dataSectors && this.spc == spc
      ensures this.count == count && this.nfats == nfats
      ensures mirrored == (flags / 128 % 2 == 0) && live == if flags / 128 % 2 == 0 then 0 else flags % 16
    {
      this.words, this.dataSectors, this.spc, this.count, this.nfats := words, dataSectors, spc, count, nfats;
      mirrored := flags / 128 % 2 == 0;
      live := if flags / 128 % 2 == 0 then 0 else flags % 16;
    }

    /** The image from copy k on. */
    function CopyOf(k: nat): Fat
      reads this
    {
      if k * count <= |words| then words[k * count..] else []
    }

    /** The chain through a copy, the live one by default. */
    method ChainOf(first: nat, copy: Option<nat>) returns (r: Chained)
      requires spc > 0
      ensures var fat := CopyOf(if copy.Some? then copy.value else live);
              var end := ClusterEnd(dataSectors, spc, count);
              && (r.Loop? <==> Cycles(fat, end, first)) && (r.Short? <==> RunsShort(fat, end, first))
              && (r.Chained? ==> IsChain(fat, end, first, r.clusters))
    {
      var fat := CopyOf(if copy.Some? then copy.value else live);
      r := Chain(fat, count, ClusterEnd(dataSectors, spc, count), first);
    }

    /** Every copy when mirrored, the live one alone when not. */
    function Copies(): (r: seq<nat>)
      ensures forall m, l :: 0 <= m < l < |r| ==> r[m] < r[l]
      ensures if mirrored then |r| == nfats && forall k :: 0 <= k < nfats ==> r[k] == k else r == [live]
    {
      if mirrored then seq(nfats, k requires 0 <= k < nfats => k) else [live]
    }

    /** False where it raises: for a cluster past the FAT, with nothing written, or at
        the first copy past the end of the volume, with the ones before it written. */
    method SetEntry(c: nat, value: nat) returns (ok: bool)
      modifies this`words
      ensures ok <==> c < count && if mirrored then forall k :: 0 <= k < nfats ==> Place(count, k, c) < |words|
                                   else Place(count, live, c) < |words|
      ensures if c < count then SetIn(old(words), words, count, Copies(), |Copies()|, c, value) else words == old(words)
    {
      if c >= count { return false; }
      hide SetIn, Place;
      var copies := Copies();
      ok := SetCopies(copies, c, value);
      assert if mirrored then forall k :: 0 <= k < nfats ==> copies[k] == k else copies[0] == live;
      assert mirrored ==> forall k :: 0 <= k < nfats ==> Place(count, copies[k], c) == Place(count, k, c);
      if mirrored && ok {
        forall k | 0 <= k < nfats ensures Place(count, k, c) < |words| { assert copies[k] == k; }
      }
    }

    method SetCopies(copies: seq<nat>, c: nat, value: nat) returns (ok: bool)
      requires c < count && forall m, l :: 0 <= m < l < |copies| ==> copies[m] < copies[l]
      modifies this`words
      ensures |words| == old(|words|) && SetIn(old(words), words, count, copies, |copies|, c, value)
      ensures ok <==> forall m :: 0 <= m < |copies| ==> Place(count, copies[m], c) < |words|
    {
      for n := 0 to |copies|
        invariant |words| == old(|words|) && SetIn(old(words), words, count, copies, n, c, value)
        invariant forall m :: 0 <= m < n ==> Place(count, copies[m], c) < |words|
      {
        var at := Place(count, copies[n], c);
        forall m | 0 <= m < n ensures Place(count, copies[m], c) < at { PlacesRise(count, copies[m], copies[n], c); }
        if at >= |words| {
          PastTheEnd(old(words), words, count, copies, n, c, value);
          return false;
        }
        words := words[at := Merged(words[at], value)];
      }
      ok := true;
    }
  }

  /** The chain a walk makes: without repeats, up to the first link outside the heap. */
  ghost predicate IsChain(fat: Fat, end: int, first: nat, out: seq<nat>) {
    && out != [] && Distinct(out) && (forall i :: 0 <= i < |out| ==> out[i] == Nth(fat, first, i))
    && Goes(fat, end, first, |out| - 1) && !Goes(fat, end, first, |out|)
  }

  /** What a written entry reads as in each copy written, and that no other word changed. */
  lemma EntrySet(was: seq<nat>, now: seq<nat>, count: nat, copies: seq<nat>, c: nat, value: nat, k: nat)
    requires c < count && SetIn(was, now, count, copies, |copies|, c, value) && k in copies && k * count + c < |was|
    ensures now[k * count + c] % 0x1000_0000 == value % 0x1000_0000
    ensures now[k * count + c] / 0x1000_0000 == was[k * count + c] / 0x1000_0000
    ensures k * count <= |now| && c < |now[k * count..]| && Entry(now[k * count..], c) == value % 0x1000_0000
  {
    var m :| 0 <= m < |copies| && copies[m] == k;
    assert Place(count, copies[m], c) == k * count + c;
    MergedBack(was[k * count + c], value);
    hide Merged;
  }

  /** Copies after one past the end are past it too. */
  lemma PastTheEnd(was: seq<nat>, now: seq<nat>, count: nat, copies: seq<nat>, n: nat, c: nat, value: nat)
    requires c < count && n < |copies| && (forall m, l :: 0 <= m < l < |copies| ==> copies[m] < copies[l])
    requires Place(count, copies[n], c) >= |was| && SetIn(was, now, count, copies, n, c, value)
    ensures SetIn(was, now, count, copies, |copies|, c, value)
  {
    forall m | n <= m < |copies| ensures Place(count, copies[m], c) >= |was| {
      if m > n { PlacesRise(count, copies[n], copies[m], c); }
    }
  }

  /** The entry written is read back, under the bits that were there. */
  lemma MergedBack(was: nat, value: nat)
    ensures Merged(was, value) % 0x1000_0000 == value % 0x1000_0000
    ensures Merged(was, value) / 0x1000_0000 == was / 0x1000_0000
  {}

  /** Every other entry is as it was, and a chain that never comes to the changed cluster is the same chain. */
  lemma {:induction false} OffThePath(fat: Fat, c: nat, v: nat, first: nat, n: nat)
    requires c < |fat| && forall i :: 0 <= i < n ==> Nth(fat, first, i) != c
    ensures Nth(fat[c := v], first, n) == Nth(fat, first, n)
    decreases n
  {
    if n > 0 { OffThePath(fat, c, v, first, n - 1); }
  }
}
