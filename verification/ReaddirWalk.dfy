/** The client's walk over a listing's pages (scripts/np9p_server.py, self_test): the
    next page starts as many lines on as the last one had line feeds. */
module ReaddirWalk {
  import opened Bytes
  import opened Readdir

  /** The line feeds in a page: what `count` counts. */
  function Feeds(t: Text): nat {
    if t == [] then 0 else (if t[0] == LF then 1 else 0) + Feeds(t[1..])
  }

  datatype Ended = Done | Refused | Unfinished

  datatype Walked = Walked(got: Text, ended: Ended)

  /** What `turns` pages from `start` bring. */
  function WalkFrom(ls: seq<Text>, want: nat, start: nat, turns: nat): Walked
    decreases turns
  {
    if turns == 0 then Walked([], Unfinished) else
      match Page(ls, start, want)
      case None => Walked([], Refused)
      case Some(page) =>
        if page == [] then Walked([], Done) else
          var rest := WalkFrom(ls, want, start + Feeds(page), turns - 1);
          Walked(page + rest.got, rest.ended)
  }

  method Walk(out: Text, want: nat, turns: nat) returns (r: Walked)
    ensures r == WalkFrom(SplitLines(out), want, 0, turns)
  {
    var got: Text, start: nat := [], 0;
    ghost var ls := SplitLines(out);
    RestFirst(ls, want, turns);
    hide *;
    for i := 0 to turns
      invariant Rest(ls, want, turns, got, start, turns - i)
    {
      var page := ReaddirPage(out, start, want);
      RestNext(ls, want, turns, got, start, turns - i);
      if page.None? { return Walked(got, Refused); }
      if page.value == [] { return Walked(got, Done); }
      got := got + page.value;
      start := start + Feeds(page.value);
    }
    RestNext(ls, want, turns, got, start, 0);
    r := Walked(got, Unfinished);
  }

  /** What is left to walk, after what it had already brought, makes the whole walk. */
  ghost predicate Rest(ls: seq<Text>, want: nat, turns: nat, got: Text, start: nat, left: nat) {
    var w := WalkFrom(ls, want, start, left);
    Walked(got + w.got, w.ended) == WalkFrom(ls, want, 0, turns)
  }

  lemma RestFirst(ls: seq<Text>, want: nat, turns: nat)
    ensures Rest(ls, want, turns, [], 0, turns)
  {
    assert forall t: Text :: [] + t == t;
  }

  lemma RestNext(ls: seq<Text>, want: nat, turns: nat, got: Text, start: nat, left: nat)
    requires Rest(ls, want, turns, got, start, left)
    ensures var all, p := WalkFrom(ls, want, 0, turns), Page(ls, start, want);
            if left == 0 then all == Walked(got, Unfinished)
            else if p.None? then all == Walked(got, Refused)
            else if p.value == [] then all == Walked(got, Done)
            else Rest(ls, want, turns, got + p.value, start + Feeds(p.value), left - 1)
  {
    var p, w := Page(ls, start, want), WalkFrom(ls, want, start, left);
    assert Walked(got + w.got, w.ended) == WalkFrom(ls, want, 0, turns);
    TurnStep(ls, want, start, left);
    hide Page, Feeds, WalkFrom;
    if left == 0 || p.None? || p.value == [] {
      assert got + w.got == got;
    } else {
      var rest := WalkFrom(ls, want, start + Feeds(p.value), left - 1).got;
      assert got + (p.value + rest) == (got + p.value) + rest;
    }
  }

  lemma TurnStep(ls: seq<Text>, want: nat, start: nat, left: nat)
    ensures var w, p := WalkFrom(ls, want, start, left), Page(ls, start, want);
            if left == 0 then w == Walked([], Unfinished)
            else if p.None? then w == Walked([], Refused)
            else if p.value == [] then w == Walked([], Done)
            else var rest := WalkFrom(ls, want, start + Feeds(p.value), left - 1);
              w == Walked(p.value + rest.got, rest.ended)
  {
    hide Page, Feeds;
  }

  // Lines and line feeds.

  lemma {:induction false} FeedsAppend(a: Text, b: Text)
    ensures Feeds(a + b) == Feeds(a) + Feeds(b)
    decreases |a|
  {
    if a == [] {
      assert a + b == b;
    } else {
      assert (a + b)[1..] == a[1..] + b;
      FeedsAppend(a[1..], b);
    }
  }

  lemma {:induction false} NoFeeds(t: Text)
    requires forall i :: 0 <= i < |t| ==> t[i] != LF
    ensures Feeds(t) == 0
  {
    if t != [] { NoFeeds(t[1..]); }
  }

  /** A line has one break, its last byte; `Fed` when that is a line feed. */
  ghost predicate IsLine(l: Text) { l != [] && forall i :: 0 <= i < |l| - 1 ==> l[i] != LF }

  predicate Fed(l: Text) { l != [] && l[|l| - 1] == LF }

  lemma LineFeeds(l: Text)
    requires IsLine(l)
    ensures Feeds(l) == if Fed(l) then 1 else 0
  {
    var front, last := l[..|l| - 1], [l[|l| - 1]];
    NoFeeds(front);
    assert l == front + last && last[1..] == [];
    FeedsAppend(front, last);
  }

  lemma {:induction false} LinesOf(b: Text, i: nat)
    requires i < |SplitLines(b)|
    ensures IsLine(SplitLines(b)[i])
    decreases i
  {
    var n := LineLength(b);
    if i > 0 {
      LinesOf(b[n..], i - 1);
    } else {
      forall k | 0 <= k < n - 1 ensures b[k] != LF { UnbrokenBefore(b, k); }
    }
  }

  lemma SplitIs(b: Text)
    requires b != []
    ensures SplitLines(b) == [b[..LineLength(b)]] + SplitLines(b[LineLength(b)..])
  {}

  lemma {:induction false} SplitBack(b: Text)
    ensures Concat(SplitLines(b)) == b
    decreases |b|
  {
    if b != [] {
      var n := LineLength(b);
      SplitBack(b[n..]);
      SplitIs(b);
      hide LineLength, SplitLines;
      assert SplitLines(b)[1..] == SplitLines(b[n..]);
      assert b == b[..n] + b[n..];
    }
  }

  /** A page's line feeds are at most its lines, and as many exactly when each is fed. */
  lemma {:induction false} PageFeeds(ls: seq<Text>)
    requires forall i :: 0 <= i < |ls| ==> IsLine(ls[i])
    ensures Feeds(Concat(ls)) <= |ls|
    ensures Feeds(Concat(ls)) == |ls| <==> forall i :: 0 <= i < |ls| ==> Fed(ls[i])
    decreases |ls|
  {
    if ls != [] {
      LineFeeds(ls[0]);
      FeedsAppend(ls[0], Concat(ls[1..]));
      PageFeeds(ls[1..]);
      assert forall i :: 0 < i < |ls| ==> ls[i] == ls[1..][i - 1];
    }
  }

  // The walk.

  lemma {:induction false} FitAll(ls: seq<Text>, want: nat, i: nat)
    requires i < Fit(ls, want)
    ensures |ls[i]| <= want
    decreases i
  {
    if i > 0 { FitAll(ls[1..], want - |ls[0]|, i - 1); }
  }

  /** A page that is served: its lines, which is not empty, and what is left after it. */
  lemma PageIs(ls: seq<Text>, start: nat, want: nat)
    requires start < |ls| && (forall i :: 0 <= i < |ls| ==> IsLine(ls[i])) && Page(ls, start, want).Some?
    ensures var k := Fit(ls[start..], want);
            && 0 < k && start + k <= |ls| && Page(ls, start, want) == Some(Concat(ls[start..start + k]))
            && Concat(ls[start..start + k]) != []
            && (forall i :: start <= i < start + k ==> |ls[i]| <= want)
            && Concat(ls[start..]) == Concat(ls[start..start + k]) + Concat(ls[start + k..])
  {
    var k := Fit(ls[start..], want);
    var page := ls[start..start + k];
    assert page[0] == ls[start] && Concat(page) == page[0] + Concat(page[1..]);
    forall i | start <= i < start + k ensures |ls[i]| <= want { FitAll(ls[start..], want, i - start); }
    assert page + ls[start + k..] == ls[start..];
    ConcatAppend(page, ls[start + k..]);
  }

  /** How long the listing is from line i. */
  function Size(ls: seq<Text>, i: nat): nat
    requires i <= |ls|
  {
    |Concat(ls[i..])|
  }

  lemma WalkTurn(ls: seq<Text>, want: nat, start: nat, turns: nat, page: Text)
    requires turns > 0 && Page(ls, start, want) == Some(page) && page != []
    ensures var rest := WalkFrom(ls, want, start + Feeds(page), turns - 1);
            WalkFrom(ls, want, start, turns) == Walked(page + rest.got, rest.ended)
  {}

  /** A line that fits, or from which the walk is not refused, has a page. */
  lemma HasPage(ls: seq<Text>, want: nat, start: nat, turns: nat)
    requires start < |ls| && turns > 0
    requires WalkFrom(ls, want, start, turns).ended != Refused || |ls[start]| <= want
    ensures Page(ls, start, want).Some?
  {
    assert ls[start..][0] == ls[start];
  }

  /** One turn from a line there is: its page, and the walk from as many lines on as it has line feeds. */
  lemma TurnIs(ls: seq<Text>, want: nat, start: nat, turns: nat) returns (k: nat, next: nat)
    requires start < |ls| && turns > 0 && (forall i :: 0 <= i < |ls| ==> IsLine(ls[i]))
    requires WalkFrom(ls, want, start, turns).ended != Refused || |ls[start]| <= want
    ensures 0 < k <= |ls| - start && start <= next <= start + k
    ensures next == start + k <==> forall i :: start <= i < start + k ==> Fed(ls[i])
    ensures forall i :: start <= i < start + k ==> |ls[i]| <= want
    ensures var rest := WalkFrom(ls, want, next, turns - 1);
            WalkFrom(ls, want, start, turns) == Walked(Concat(ls[start..start + k]) + rest.got, rest.ended)
    ensures Size(ls, start) == |Concat(ls[start..start + k])| + Size(ls, start + k)
  {
    hide Fit, Feeds, IsLine, Concat, Fed, WalkFrom, Page;
    HasPage(ls, want, start, turns);
    PageIs(ls, start, want);
    k := Fit(ls[start..], want);
    var page := ls[start..start + k];
    PageFeeds(page);
    WalkTurn(ls, want, start, turns, Concat(page));
    next := start + Feeds(Concat(page));
    assert forall i :: start <= i < start + k ==> ls[i] == page[i - start];
    assert forall i :: 0 <= i < k ==> page[i] == ls[start + i];
  }

  /** With every line fed, the walk brings exactly the lines before the first that is too long, in a turn more than
      there are of them at most. */
  lemma {:induction false} WalkUpTo(ls: seq<Text>, want: nat, start: nat, k: nat, turns: nat)
    requires start <= k <= |ls| && turns > k - start && (forall i :: 0 <= i < |ls| ==> IsLine(ls[i]) && Fed(ls[i]))
    requires (forall i :: start <= i < k ==> |ls[i]| <= want) && (k < |ls| ==> |ls[k]| > want)
    ensures WalkFrom(ls, want, start, turns) == Walked(Concat(ls[start..k]), if k == |ls| then Done else Refused)
    decreases turns
  {
    hide WalkFrom, IsLine, Fed, Concat;
    if start < k {
      var n, next := TurnIs(ls, want, start, turns);
      WalkUpTo(ls, want, next, k, turns - 1);
      assert ls[start..start + n] + ls[start + n..k] == ls[start..k];
      ConcatAppend(ls[start..start + n], ls[start + n..k]);
    } else {
      assert ls[start..k] == [];
      ConcatNone();
      WalkStops(ls, want, start, turns);
    }
  }

  lemma ConcatNone()
    ensures Concat([]) == []
  {}

  /** At the end the walk is done, and at a line too long it is refused, with nothing more. */
  lemma WalkStops(ls: seq<Text>, want: nat, start: nat, turns: nat)
    requires start <= |ls| && turns > 0 && (start < |ls| ==> |ls[start]| > want)
    ensures WalkFrom(ls, want, start, turns) == Walked([], if start == |ls| then Done else Refused)
  {
    if start < |ls| { assert ls[start..][0] == ls[start]; }
  }

  lemma {:induction false} LongerFrom(ls: seq<Text>, i: nat, j: nat)
    requires i <= j <= |ls| && forall k :: 0 <= k < |ls| ==> IsLine(ls[k])
    ensures Size(ls, i) >= Size(ls, j) + (j - i)
    decreases j - i
  {
    if i < j {
      assert ls[i..][0] == ls[i] && ls[i..][1..] == ls[i + 1..];
      LongerFrom(ls, i + 1, j);
    }
  }

  /** A walk that gets to the end has brought at least everything, and more than that if a line was not fed. */
  lemma {:induction false} WalkAtLeast(ls: seq<Text>, want: nat, start: nat, turns: nat)
    requires start <= |ls| && (forall i :: 0 <= i < |ls| ==> IsLine(ls[i]))
    requires WalkFrom(ls, want, start, turns).ended == Done
    ensures var got := WalkFrom(ls, want, start, turns).got;
            && |got| >= Size(ls, start)
            && (|got| == Size(ls, start) ==> forall i :: start <= i < |ls| ==> Fed(ls[i]) && |ls[i]| <= want)
    decreases turns
  {
    assert turns > 0;
    if start < |ls| {
      hide WalkFrom, IsLine, Fed, Concat, Size;
      var k, next := TurnIs(ls, want, start, turns);
      WalkAtLeast(ls, want, next, turns - 1);
      LongerFrom(ls, next, start + k);
    } else {
      assert ls[start..] == [];
    }
  }

  // Which names those are.

  /** No CR but before an LF. */
  ghost predicate NoBareCr(b: Text) { forall i :: 0 <= i < |b| ==> CrFed(b, i) }

  predicate CrFed(b: Text, i: nat)
    requires i < |b|
  {
    b[i] == CR ==> i + 1 < |b| && b[i + 1] == LF
  }

  /** A name whose line has none: a CR comes before an LF, or last in a file's name, before the line's own. */
  predicate LfOnly(e: DirEntry) { forall i :: 0 <= i < |e.name| ==> NameFed(e, i) }

  predicate NameFed(e: DirEntry, i: nat)
    requires i < |e.name|
  {
    e.name[i] == CR ==> if i + 1 < |e.name| then e.name[i + 1] == LF else !e.isDir
  }

  lemma LineAt(e: DirEntry, i: nat)
    requires LfOnly(e) && i < |Line(e)|
    ensures CrFed(Line(e), i)
  {
    var l := Line(e);
    if i < |e.name| {
      assert l[i] == e.name[i] && NameFed(e, i);
      if i + 1 < |e.name| {
        assert l[i + 1] == e.name[i + 1];
      } else {
        assert l[i + 1] == if e.isDir then SLASH else LF;
      }
    } else {
      assert l[i] == SLASH || l[i] == LF;
    }
  }

  lemma LineLfOnly(e: DirEntry)
    ensures NoBareCr(Line(e)) <==> LfOnly(e)
  {
    var l := Line(e);
    assert forall i :: 0 <= i < |e.name| ==> l[i] == e.name[i];
    if NoBareCr(l) {
      forall i | 0 <= i < |e.name| ensures NameFed(e, i) {
        assert CrFed(l, i);
        if i + 1 < |e.name| { assert l[i + 1] == e.name[i + 1]; }
      }
    }
    if LfOnly(e) {
      forall i | 0 <= i < |l| ensures CrFed(l, i) { LineAt(e, i); }
    }
  }

  /** Two texts, the first ended by a line feed, have a bare CR exactly when one of them has. */
  lemma BareAppend(a: Text, b: Text)
    requires a != [] && a[|a| - 1] == LF
    ensures NoBareCr(a + b) <==> NoBareCr(a) && NoBareCr(b)
  {
    var t := a + b;
    assert forall i :: 0 <= i < |a| ==> CrFed(t, i) == CrFed(a, i);
    assert forall i :: 0 <= i < |b| ==> CrFed(t, |a| + i) == CrFed(b, i);
    if NoBareCr(a) && NoBareCr(b) {
      forall i | 0 <= i < |t| ensures CrFed(t, i) {
        if i < |a| { assert CrFed(a, i); } else { assert CrFed(b, i - |a|); }
      }
    }
  }

  lemma {:induction false} ListingBare(es: seq<DirEntry>)
    ensures NoBareCr(Listing(es)) <==> forall e :: e in es ==> LfOnly(e)
    ensures es != [] ==> Listing(es) != [] && Listing(es)[|Listing(es)| - 1] == LF
    decreases |es|
  {
    if es != [] {
      var e, rest := es[0], es[1..];
      assert Lines(es)[1..] == Lines(rest);
      assert Listing(es) == Line(e) + Listing(rest);
      ListingBare(rest);
      LineLfOnly(e);
      BareAppend(Line(e), Listing(rest));
      assert forall x :: x in es <==> x == e || x in rest;
    }
  }

  ghost predicate AllFed(b: Text) { forall l :: l in SplitLines(b) ==> Fed(l) }

  lemma AllFedStep(b: Text)
    requires b != []
    ensures var n := LineLength(b);
            AllFed(b) <==> Fed(b[..n]) && AllFed(b[n..])
  {
    SplitIs(b);
    hide SplitLines, LineLength, Fed;
    var n := LineLength(b);
    assert forall x :: x in SplitLines(b) <==> x == b[..n] || x in SplitLines(b[n..]);
  }

  lemma FedLine(b: Text)
    requires b != [] && b[LineLength(b) - 1] == LF
    ensures NoBareCr(b[..LineLength(b)])
  {
    hide LineLength;
    var l := b[..LineLength(b)];
    forall i | 0 <= i < |l| ensures CrFed(l, i) {
      if i + 1 < |l| {
        UnbrokenBefore(b, i);
        assert l[i] == b[i] && l[i + 1] == b[i + 1];
      }
    }
  }

  /** A first line is fed exactly when it has no bare CR, and then has none before its end. */
  lemma FirstFed(b: Text)
    requires b != [] && b[|b| - 1] == LF
    ensures var n := LineLength(b);
            && (Fed(b[..n]) ==> NoBareCr(b[..n]))
            && (!Fed(b[..n]) ==> !NoBareCr(b))
  {
    hide LineLength;
    var n := LineLength(b);
    LineEnds(b);
    if b[n - 1] == LF { FedLine(b); } else { assert !CrFed(b, n - 1); }
  }

  /** Every line of a text that ends in a line feed is fed exactly when it has no bare CR. */
  lemma {:induction false} FedIff(b: Text)
    requires b == [] || b[|b| - 1] == LF
    ensures AllFed(b) <==> NoBareCr(b)
    decreases |b|
  {
    if b != [] {
      var n := LineLength(b);
      AllFedStep(b);
      FirstFed(b);
      hide *;
      FedIff(b[n..]);
      assert b == b[..n] + b[n..];
      if Fed(b[..n]) { BareAppend(b[..n], b[n..]); }
    }
  }

  /** A first line ends in LF, or in a CR with no LF after it. */
  lemma {:induction false} LineEnds(b: Text)
    requires b != [] && b[|b| - 1] == LF
    ensures var n := LineLength(b);
            b[n - 1] == LF || (b[n - 1] == CR && n < |b| && b[n] != LF)
    decreases |b|
  {
    if !(b[0] == LF || |b| == 1) && b[0] != CR { LineEnds(b[1..]); }
  }

  lemma WalkWhole(ls: seq<Text>, want: nat)
    requires forall i :: 0 <= i < |ls| ==> IsLine(ls[i])
    ensures (exists turns :: WalkFrom(ls, want, 0, turns) == Walked(Concat(ls), Done)) <==>
            forall i :: 0 <= i < |ls| ==> Fed(ls[i]) && |ls[i]| <= want
  {
    hide WalkFrom, IsLine, Fed, Concat;
    assert ls[0..] == ls && ls[0..|ls|] == ls;
    if forall i :: 0 <= i < |ls| ==> Fed(ls[i]) && |ls[i]| <= want {
      WalkUpTo(ls, want, 0, |ls|, |ls| + 1);
    }
    if turns :| WalkFrom(ls, want, 0, turns) == Walked(Concat(ls), Done) {
      WalkAtLeast(ls, want, 0, turns);
      assert Size(ls, 0) == |Concat(ls)|;
    }
  }

  /** For any directory and any window: some number of turns brings the listing and ends, if and
      only if no name has a CR that is not before a line feed, and no line is longer than the window. */
  lemma WalkExact(es: seq<DirEntry>, want: nat)
    ensures (exists turns :: WalkFrom(SplitLines(Listing(es)), want, 0, turns) == Walked(Listing(es), Done)) <==>
            (forall e :: e in es ==> LfOnly(e)) && forall l :: l in SplitLines(Listing(es)) ==> |l| <= want
  {
    hide SplitLines, LfOnly, NoBareCr, IsLine, Fed, WalkFrom;
    var out := Listing(es);
    var ls := SplitLines(out);
    ListingBare(es);
    FedIff(out);
    SplitBack(out);
    forall i | 0 <= i < |ls| ensures IsLine(ls[i]) { LinesOf(out, i); }
    hide Listing;
    WalkWhole(ls, want);
    assert forall i :: 0 <= i < |ls| ==> ls[i] in ls;
  }

  /** With clean names the lines are the entries: each is delivered once and in order, or the walk is refused at the
      first entry longer than the window. */
  lemma CleanWalk(es: seq<DirEntry>, want: nat, turns: nat) returns (k: nat)
    requires (forall e :: e in es ==> Clean(e)) && turns > |es|
    ensures var r := WalkFrom(SplitLines(Listing(es)), want, 0, turns);
            && k <= |es| && r == Walked(Listing(es[..k]), if k == |es| then Done else Refused)
            && (forall i :: 0 <= i < k ==> |Line(es[i])| <= want) && (k < |es| ==> |Line(es[k])| > want)
  {
    SplitListing(es);
    var ls := Lines(es);
    forall i | 0 <= i < |ls| ensures IsLine(ls[i]) && Fed(ls[i]) {
      assert ls[i] in ls;
      LinesOf(Listing(es), i);
    }
    hide SplitLines, WalkFrom, IsLine, Fed, Line;
    k := 0;
    while k < |es| && |Line(es[k])| <= want
      invariant k <= |es| && forall i :: 0 <= i < k ==> |Line(es[i])| <= want
    {
      k := k + 1;
    }
    assert ls[0..k] == Lines(es[..k]);
    hide Lines, Concat;
    WalkUpTo(ls, want, 0, k, turns);
  }

  /** An empty page is only ever the end. */
  lemma EndsOnly(out: Text, start: nat, want: nat)
    requires Page(SplitLines(out), start, want) == Some([])
    ensures start >= |SplitLines(out)|
  {
    var ls := SplitLines(out);
    if start < |ls| {
      forall i | 0 <= i < |ls| ensures IsLine(ls[i]) { LinesOf(out, i); }
      hide SplitLines;
      PageIs(ls, start, want);
    }
  }
}
