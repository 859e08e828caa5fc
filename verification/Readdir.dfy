/** NP_READDIR: a directory's listing, one line an entry, served a page at a time. */
module Readdir {
  import opened Bytes

  type Text = seq<byte>

  const LF: byte := 10
  const CR: byte := 13
  const SLASH: byte := 47

  datatype DirEntry = DirEntry(name: Text, isDir: bool)

  function Line(e: DirEntry): Text {
    e.name + if e.isDir then [SLASH, LF] else [LF]
  }

  function Lines(es: seq<DirEntry>): (ls: seq<Text>)
    ensures |ls| == |es|
  {
    seq(|es|, i requires 0 <= i < |es| => Line(es[i]))
  }

  function Concat(ls: seq<Text>): Text {
    if ls == [] then [] else ls[0] + Concat(ls[1..])
  }

  function Listing(es: seq<DirEntry>): Text { Concat(Lines(es)) }

  /** A line is its entry's alone, while no name ends in a slash. */
  lemma LineTells(e: DirEntry, f: DirEntry)
    requires Line(e) == Line(f)
    requires e.name != [] && e.name[|e.name| - 1] != 47 && f.name != [] && f.name[|f.name| - 1] != 47
    ensures e == f
  {
    var l := Line(e);
    assert l[|l| - 1] == LF;
    assert e.isDir <==> l[|l| - 2] == 47;
    assert f.isDir <==> l[|l| - 2] == 47;
    var n := |l| - if e.isDir then 2 else 1;
    assert e.name == l[..n] == f.name;
  }

  /** The length of b's first line, its break included: LF, CR, or CR LF. */
  function LineLength(b: Text): (n: nat)
    requires b != []
    ensures 0 < n <= |b|
  {
    if b[0] == LF || |b| == 1 then 1
    else if b[0] == CR then if b[1] == LF then 2 else 1
    else 1 + LineLength(b[1..])
  }

  /** `splitlines(keepends=True)`. */
  function SplitLines(b: Text): seq<Text>
    decreases |b|
  {
    if b == [] then [] else [b[..LineLength(b)]] + SplitLines(b[LineLength(b)..])
  }

  /** A name the line format can hold: no break, but for a file's final CR. */
  predicate Clean(e: DirEntry) {
    forall i :: 0 <= i < |e.name| ==>
      e.name[i] != LF && (e.name[i] == CR ==> !e.isDir && i == |e.name| - 1)
  }

  /** The first line of `l + rest`, where `l` has no break before its end. */
  lemma {:induction false} FirstLine(l: Text, rest: Text)
    requires l != [] && l[|l| - 1] == LF
    requires forall i :: 0 <= i < |l| - 1 ==> l[i] != LF && (l[i] == CR ==> i == |l| - 2)
    ensures LineLength(l + rest) == |l|
    decreases |l|
  {
    if |l| > 1 {
      var b := l + rest;
      assert b[0] == l[0] && b[1] == l[1];
      if l[0] != CR {
        assert b[1..] == l[1..] + rest;
        FirstLine(l[1..], rest);
      }
    }
  }

  /** A line that splits off whole has no break inside it. */
  lemma {:induction false} UnbrokenBefore(b: Text, i: nat)
    requires b != [] && i + 1 < LineLength(b)
    ensures b[i] != LF && (b[i] == CR ==> i + 2 == LineLength(b) && b[i + 1] == LF)
    decreases i
  {
    if i > 0 { UnbrokenBefore(b[1..], i - 1); }
  }

  lemma CleanLine(e: DirEntry, rest: Text)
    ensures LineLength(Line(e) + rest) == |Line(e)| <==> Clean(e)
  {
    var l := Line(e);
    assert forall i :: 0 <= i < |e.name| ==> l[i] == e.name[i];
    if Clean(e) { FirstLine(l, rest); }
    if LineLength(l + rest) == |l| {
      forall i | 0 <= i < |e.name|
        ensures e.name[i] != LF && (e.name[i] == CR ==> !e.isDir && i == |e.name| - 1)
      {
        assert (l + rest)[i] == e.name[i];
        UnbrokenBefore(l + rest, i);
      }
    }
  }

  /** The listing splits back into its entries' lines exactly when every name is clean. */
  lemma {:induction false} SplitListing(es: seq<DirEntry>)
    ensures SplitLines(Listing(es)) == Lines(es) <==> forall e :: e in es ==> Clean(e)
    decreases |es|
  {
    if es != [] {
      var e, rest := es[0], es[1..];
      assert Lines(es)[1..] == Lines(rest);
      var b := Listing(es);
      assert b == Line(e) + Listing(rest);
      CleanLine(e, Listing(rest));
      SplitListing(rest);
      assert forall x :: x in es <==> x == e || x in rest;
      if Clean(e) {
        assert b[..LineLength(b)] == Line(e) && b[LineLength(b)..] == Listing(rest);
        assert SplitLines(b)[1..] == SplitLines(Listing(rest));
      } else {
        assert SplitLines(b)[0] == b[..LineLength(b)] && Lines(es)[0] == Line(e);
        assert |SplitLines(b)[0]| != |Lines(es)[0]|;
      }
      assert Lines(es) == [Line(e)] + Lines(rest);
    }
  }

  // Pages.

  /** How many lines, from the first, fit in `want` bytes together. */
  function Fit(ls: seq<Text>, want: nat): (k: nat)
    ensures k <= |ls|
  {
    if ls == [] || |ls[0]| > want then 0 else 1 + Fit(ls[1..], want - |ls[0]|)
  }

  /** One page: whole lines from `start`; None when the first does not fit, since an empty page is the end. */
  function Page(ls: seq<Text>, start: nat, want: nat): Option<Text> {
    if start >= |ls| then Some([]) else
      var k := Fit(ls[start..], want);
      if k == 0 then None else Some(Concat(ls[start..start + k]))
  }

  lemma {:induction false} ConcatAppend(a: seq<Text>, b: seq<Text>)
    ensures Concat(a + b) == Concat(a) + Concat(b)
    decreases |a|
  {
    if a == [] {
      assert a + b == b;
    } else {
      ConcatAppend(a[1..], b);
      assert (a + b)[1..] == a[1..] + b;
      assert (a + b)[0] == a[0];
    }
  }

  method ReaddirPage(out: Text, start: nat, want: nat) returns (r: Option<Text>)
    ensures r == Page(SplitLines(out), start, want)
  {
    var ls := SplitLines(out);
    hide SplitLines, Fit, Concat;
    if start >= |ls| { return Some([]); }
    var page: Text := [];
    var i := start;
    PageNone(ls, start);
    while i < |ls|
      invariant start <= i <= |ls|
      invariant page == Concat(ls[start..i]) && |page| <= want
      invariant Fit(ls[start..], want) == (i - start) + Fit(ls[i..], want - |page|)
      invariant i > start ==> page != []
    {
      LineNonempty(out, i);
      PageNext(ls, start, i, want - |page|);
      if |page| + |ls[i]| > want {
        return if page != [] then Some(page) else None;
      }
      page := page + ls[i];
      i := i + 1;
    }
    FitNone(want - |page|);
    assert ls[i..] == [];
    r := Some(page);
  }

  lemma PageNone(ls: seq<Text>, start: nat)
    requires start <= |ls|
    ensures Concat(ls[start..start]) == []
  {}

  lemma FitNone(left: nat)
    ensures Fit([], left) == 0
  {}

  /** Line i, added to a page or left out of it. */
  lemma PageNext(ls: seq<Text>, start: nat, i: nat, left: nat)
    requires start <= i < |ls|
    ensures Concat(ls[start..i + 1]) == Concat(ls[start..i]) + ls[i]
    ensures Fit(ls[i..], left) == if |ls[i]| > left then 0 else 1 + Fit(ls[i + 1..], left - |ls[i]|)
  {
    var rest := ls[i..];
    FitStep(rest, left);
    hide Fit;
    assert rest[0] == ls[i] && rest[1..] == ls[i + 1..];
    ConcatAppend(ls[start..i], [ls[i]]);
    assert ls[start..i] + [ls[i]] == ls[start..i + 1];
    ConcatOne(ls[i]);
    hide Concat;
  }

  lemma FitStep(ls: seq<Text>, left: nat)
    requires ls != []
    ensures Fit(ls, left) == if |ls[0]| > left then 0 else 1 + Fit(ls[1..], left - |ls[0]|)
  {}

  lemma ConcatOne(l: Text)
    ensures Concat([l]) == l
  {
    assert [l][1..] == [] && l + [] == l;
  }

  lemma {:induction false} LineNonempty(b: Text, i: nat)
    requires i < |SplitLines(b)|
    ensures SplitLines(b)[i] != []
    decreases i
  {
    if i > 0 { LineNonempty(b[LineLength(b)..], i - 1); }
  }
}
