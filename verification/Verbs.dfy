/** What each verb answers, frame in and answer out: the client's frame through the
    server's dispatch (scripts/np9p_server.py, serve_np). */
module Verbs {
  import opened Bytes
  import opened Readdir
  import opened ReaddirWalk
  import opened Np
  import opened ReadLoop

  /** The verbs that would change the tree: 3 to 9, 11, 13, 14 and 17 from the base. */
  predicate WouldChange(verb: nat) {
    0x103 <= verb <= 0x109 || verb == 0x10B || verb == 0x10D || verb == 0x10E || verb == 0x111
  }

  /** Every verb the protocol has: 0 to 19 from the base, and the session's. */
  predicate Known(verb: nat) { 0x100 <= verb <= 0x113 || verb == 0x121 }

  /** A frame for a verb that names a path. */
  function Asking(verb: nat, p: Text, a1: nat, a2: nat): Text { BuildFrame(verb, |p|, a1, a2, p) }

  lemma AskingParsed(verb: nat, p: Text, a1: nat, a2: nat)
    requires Fits(verb) && Fits(|p|) && Fits(a1) && Fits(a2)
    ensures var b := Asking(verb, p, a1, a2);
            |b| >= HDR && Parse(b) == Request(verb, |p|, a1, a2, p) && p[..Min(|p|, |p|)] == p
  {
    ParseBuilt(verb, |p|, a1, a2, p);
    hide BuildFrame, Parse;
  }

  /** The tree is read-only: every verb that would change it is refused for that, whatever it names. */
  lemma ReadOnly(x: Export, fids: Fids, name: Text, verb: nat, a0: nat, a1: nat, a2: nat, payload: Text)
    requires WouldChange(verb) && Fits(a0) && Fits(a1) && Fits(a2)
    ensures ServeNp(x, fids, BuildFrame(verb, a0, a1, a2, payload), name) == Answer(fids, 0xFFFF_FFFF_FFFF_FFE2, [])
  {
    ParseBuilt(verb, a0, a1, a2, payload);
    hide BuildFrame, Parse;
  }

  /** A verb of no list is said to be none, a message shorter than its header is an error, and a session is 0. */
  lemma NoSuchVerb(x: Export, fids: Fids, name: Text, verb: nat, a0: nat, a1: nat, a2: nat, payload: Text, short: Text)
    requires !Known(verb) && Fits(verb) && Fits(a0) && Fits(a1) && Fits(a2) && |short| < 48
    ensures ServeNp(x, fids, BuildFrame(verb, a0, a1, a2, payload), name) == Answer(fids, 0xFFFF_FFFF_FFFF_FFD8, [])
    ensures ServeNp(x, fids, BuildFrame(0x121, a0, a1, a2, payload), name) == Answer(fids, 0, [])
    ensures ServeNp(x, fids, short, name) == Answer(fids, 0xFFFF_FFFF_FFFF_FFFF, [])
  {
    ParseBuilt(verb, a0, a1, a2, payload);
    ParseBuilt(0x121, a0, a1, a2, payload);
    hide BuildFrame, Parse;
  }

  /** NP_STAT: 27 bytes, the size and a flag for a directory, zeros after them; or no such path. */
  lemma StatAnswers(x: Export, fids: Fids, name: Text, p: Text)
    requires Fits(|p|) && (p in x.files ==> Fits(|x.files[p]|))
    ensures var a := ServeNp(x, fids, Asking(0x10C, p, 0, 0), name);
            if !x.Exists(p) then a == Answer(fids, 0xFFFF_FFFF_FFFF_FFFD, []) else
              && a.Answer? && a.fids == fids && a.status == |a.data| == 27
              && FromLE(a.data[..8]) == (if p in x.dirs then 0 else |x.files[p]|)
              && FromLE(a.data[8..12]) == (if p in x.dirs then 1 else 0)
              && forall i :: 12 <= i < 27 ==> a.data[i] == 0
  {
    AskingParsed(0x10C, p, 0, 0);
    if x.Exists(p) { StatTells(x, fids, p); }
    hide Asking, Parse, FromLE, ToLE;
  }

  /** NP_READ and NP_READ_AT: the file's bytes from a1, a2 of them or to its end; a file only. */
  lemma ReadAnswers(x: Export, fids: Fids, name: Text, verb: nat, p: Text, off: nat, want: nat)
    requires (verb == 0x102 || verb == 0x10A) && Fits(|p|) && Fits(off) && Fits(want)
    ensures var a := ServeNp(x, fids, Asking(verb, p, off, want), name);
            if p !in x.files then a == Answer(fids, 0xFFFF_FFFF_FFFF_FFFD, []) else
              && a.Answer? && a.fids == fids && a.status == |a.data| <= want
              && (off + |a.data| <= |x.files[p]| || a.data == [])
              && (forall i :: 0 <= i < |a.data| ==> a.data[i] == x.files[p][off + i])
              && (|a.data| < want ==> off + |a.data| >= |x.files[p]|)
  {
    AskingParsed(verb, p, off, want);
    hide Asking, Parse;
  }

  /** NP_READ_FILE: the first a1 bytes of the file, under the size of the whole. */
  lemma ReadFileAnswers(x: Export, fids: Fids, name: Text, p: Text, want: nat, a2: nat)
    requires Fits(|p|) && Fits(want) && Fits(a2)
    ensures var a := ServeNp(x, fids, Asking(0x101, p, want, a2), name);
            if p !in x.files then a == Answer(fids, 0xFFFF_FFFF_FFFF_FFFD, []) else
              && a.Answer? && a.fids == fids && a.status == |x.files[p]| && a.data <= x.files[p]
              && |a.data| == if want <= |x.files[p]| then want else |x.files[p]|
  {
    AskingParsed(0x101, p, want, a2);
    hide Asking, Parse;
  }

  // The fid verbs.

  /** NP_OPEN carries its flags first and its path's length second. */
  lemma OpenAnswers(x: Export, fids: Fids, name: Text, flags: nat, p: Text, a2: nat)
    requires Fits(flags) && Fits(|p|) && Fits(a2)
    ensures var a := ServeNp(x, fids, BuildFrame(0x10F, flags, |p|, a2, p), name);
            var slot := exists n :: 3 <= n < 11 && n !in fids;
            && a.Answer? && a.data == []
            && (a.status < 0xFFFF_FFFF_FFFF_FFC0 <==>
                slot && x.Exists(p) && (flags == 1 || (flags == 5 && p !in x.dirs)))
            && (a.status < 0xFFFF_FFFF_FFFF_FFC0 ==>
                  && a.fids == fids[a.status as int := Fid(p, name)] && a.status !in fids && 3 <= a.status < 11
                  && forall n :: 3 <= n < a.status ==> n in fids)
            && (a.status >= 0xFFFF_FFFF_FFFF_FFC0 ==> a.fids == fids)
  {
    ParseBuilt(0x10F, flags, |p|, a2, p);
    assert p[..Min(|p|, |p|)] == p;
    OpenGranted(x, fids, flags, p, name);
    hide BuildFrame, Parse, Open;
    OpenIs(x, fids, flags, p, name);
  }

  lemma OpenIs(x: Export, fids: Fids, flags: nat, p: Text, name: Text)
    ensures var a := Open(x, fids, flags, p, name);
            a.data == [] && (a.status < 0xFFFF_FFFF_FFFF_FFC0 ==> a.fids != fids)
  {}

  /** A fid verb of a number not open is an error, and of another user's ends the server. */
  lemma FidRefused(x: Export, fids: Fids, name: Text, verb: nat, fid: nat, a1: nat, a2: nat, payload: Text)
    requires (verb == 0x110 || verb == 0x112 || verb == 0x113) && Fits(fid) && Fits(a1) && Fits(a2)
    ensures var a := ServeNp(x, fids, BuildFrame(verb, fid, a1, a2, payload), name);
            && (fid !in fids ==> a == Answer(fids, 0xFFFF_FFFF_FFFF_FFFF, []))
            && (fid in fids && fids[fid].opener != name ==> a == Raised(fids))
            && (fid in fids && fids[fid].opener == name ==> a.Answer?)
  {
    ParseBuilt(verb, fid, a1, a2, payload);
    hide BuildFrame, Parse;
  }

  /** Its opener's NP_CLUNK answers 0 and frees that number alone. */
  lemma ClunkAnswers(x: Export, fids: Fids, name: Text, fid: nat, a1: nat, a2: nat, payload: Text)
    requires Fits(fid) && Fits(a1) && Fits(a2) && fid in fids && fids[fid].opener == name
    ensures var a := ServeNp(x, fids, BuildFrame(0x113, fid, a1, a2, payload), name);
            && a.Answer? && a.status == 0 && a.data == [] && fid !in a.fids
            && forall n :: n != fid ==> (n in a.fids <==> n in fids) && (n in fids ==> a.fids[n] == fids[n])
  {
    ParseBuilt(0x113, fid, a1, a2, payload);
    hide BuildFrame, Parse;
  }

  /** Its opener's NP_FSTAT is NP_STAT of the path, and NP_PREAD the file's bytes from a1; of a directory neither. */
  lemma OpenerReads(x: Export, fids: Fids, name: Text, fid: nat, off: nat, want: nat)
    requires Fits(fid) && Fits(off) && Fits(want) && fid in fids && fids[fid].opener == name
    requires Fits(|fids[fid].path|) && x.Exists(fids[fid].path)
    ensures var p := fids[fid].path;
            && ServeNp(x, fids, BuildFrame(0x112, fid, 0, 0, []), name) ==
               ServeNp(x, fids, Asking(0x10C, p, 0, 0), name)
            && ServeNp(x, fids, BuildFrame(0x110, fid, off, want, []), name) ==
               if p in x.dirs then Answer(fids, 0xFFFF_FFFF_FFFF_FFFC, [])
               else ServeNp(x, fids, Asking(0x10A, p, off, want), name)
  {
    var p := fids[fid].path;
    ParseBuilt(0x112, fid, 0, 0, []);
    ParseBuilt(0x110, fid, off, want, []);
    AskingParsed(0x10C, p, 0, 0);
    AskingParsed(0x10A, p, off, want);
    hide BuildFrame, Parse, Asking, StatBytes;
  }

  // NP_READDIR.

  /** Lines `start` to `start + k` are the most that fit. */
  ghost predicate Most(ls: seq<Text>, start: nat, k: nat, want: nat) {
    && start + k <= |ls| && |Concat(ls[start..start + k])| <= want
    && (start + k < |ls| ==> |Concat(ls[start..start + k + 1])| > want)
  }

  lemma {:induction false} FitMost(ls: seq<Text>, want: nat)
    ensures Most(ls, 0, Fit(ls, want), want)
    decreases |ls|
  {
    var k := Fit(ls, want);
    if ls == [] {
    } else if |ls[0]| > want {
      ConcatOne(ls[0]);
      assert ls[0..1] == [ls[0]] && ls[0..0] == [];
    } else {
      FitMost(ls[1..], want - |ls[0]|);
      FirstOff(ls, k);
      if k < |ls| { FirstOff(ls, k + 1); }
    }
  }

  lemma FirstOff(ls: seq<Text>, k: nat)
    requires 0 < k <= |ls|
    ensures |Concat(ls[0..k])| == |ls[0]| + |Concat(ls[1..][0..k - 1])|
  {
    assert ls[0..k][0] == ls[0] && ls[0..k][1..] == ls[1..][0..k - 1];
  }

  /** A page is exactly the most lines that fit, and none is a refusal. */
  lemma PageMost(ls: seq<Text>, start: nat, want: nat) returns (k: nat)
    requires start < |ls|
    ensures Most(ls, start, k, want)
    ensures Page(ls, start, want) == if k == 0 then None else Some(Concat(ls[start..start + k]))
  {
    var rest := ls[start..];
    k := Fit(rest, want);
    FitMost(rest, want);
    hide Fit, Concat;
    assert rest[0..k] == ls[start..start + k];
    if k < |rest| { assert rest[0..k + 1] == ls[start..start + k + 1]; }
  }

  /** A directory's page: as many whole entries from a2 on as fit in a1 bytes; an error when the first does not, an
      empty answer past the end; and no directory is not found. */
  lemma ReaddirAnswers(x: Export, fids: Fids, name: Text, p: Text, want: nat, start: nat) returns (k: nat)
    requires Fits(|p|) && Fits(want) && Fits(start)
    requires p in x.dirs ==> forall e :: e in x.dirs[p] ==> Clean(e)
    ensures var a := ServeNp(x, fids, Asking(0x100, p, want, start), name);
            if p !in x.dirs then a == Answer(fids, 0xFFFF_FFFF_FFFF_FFFD, [])
            else if start >= |x.dirs[p]| then a == Answer(fids, 0, [])
            else
              var es := x.dirs[p];
              && start + k <= |es| && |Listing(es[start..start + k])| <= want
              && (start + k < |es| ==> |Listing(es[start..start + k + 1])| > want)
              && a == if k == 0 then Answer(fids, 0xFFFF_FFFF_FFFF_FFFF, [])
                      else Answer(fids, |Listing(es[start..start + k])|, Listing(es[start..start + k]))
  {
    hide *;
    k := 0;
    if p in x.dirs {
      var es := x.dirs[p];
      TurnVia(x, fids, name, p, want, start);
      SplitListing(es);
      if start < |es| {
        k := PageMost(Lines(es), start, want);
        MostListed(es, start, k, want);
      } else {
        PageEnds(Lines(es), start, want);
      }
    } else {
      NotADirectory(x, fids, name, p, want, start);
    }
  }

  lemma MostListed(es: seq<DirEntry>, start: nat, k: nat, want: nat)
    requires Most(Lines(es), start, k, want)
    ensures start + k <= |es| && Listing(es[start..start + k]) == Concat(Lines(es)[start..start + k])
    ensures |Listing(es[start..start + k])| <= want
    ensures start + k < |es| ==> |Listing(es[start..start + k + 1])| > want
  {
    hide Listing, Lines, Concat;
    LinesSlice(es, start, start + k);
    if start + k < |es| { LinesSlice(es, start, start + k + 1); }
  }

  lemma NotADirectory(x: Export, fids: Fids, name: Text, p: Text, want: nat, start: nat)
    requires Fits(|p|) && Fits(want) && Fits(start) && p !in x.dirs
    ensures ServeNp(x, fids, Asking(0x100, p, want, start), name) == Answer(fids, 0xFFFF_FFFF_FFFF_FFFD, [])
  {
    AskingParsed(0x100, p, want, start);
    hide Asking, Parse;
  }

  lemma LinesSlice(es: seq<DirEntry>, i: nat, j: nat)
    requires i <= j <= |es|
    ensures Listing(es[i..j]) == Concat(Lines(es)[i..j])
  {
    assert Lines(es[i..j]) == Lines(es)[i..j];
  }

  lemma PageEnds(ls: seq<Text>, start: nat, want: nat)
    requires start >= |ls|
    ensures Page(ls, start, want) == Some([])
  {}

  /** The walk over frames: refused when the status is not the page's length, done on an empty page. */
  function WalkVia(x: Export, fids: Fids, name: Text, p: Text, want: nat, start: nat, turns: nat): Walked
    decreases turns
  {
    if turns == 0 then Walked([], Unfinished) else
      var a := ServeNp(x, fids, Asking(0x100, p, want, start), name);
      if a.Raised? || a.status != |a.data| then Walked([], Refused)
      else if a.data == [] then Walked([], Done)
      else
        var rest := WalkVia(x, fids, name, p, want, start + Feeds(a.data), turns - 1);
        Walked(a.data + rest.got, rest.ended)
  }

  lemma {:induction false} LinesFew(b: Text)
    ensures |SplitLines(b)| <= |b|
    decreases |b|
  {
    if b != [] { LinesFew(b[LineLength(b)..]); }
  }

  /** The turn a frame asks for is the page from its line. */
  lemma TurnVia(x: Export, fids: Fids, name: Text, p: Text, want: nat, start: nat)
    requires Fits(|p|) && Fits(want) && Fits(start) && p in x.dirs
    ensures ServeNp(x, fids, Asking(0x100, p, want, start), name) ==
            match Page(SplitLines(Listing(x.dirs[p])), start, want)
            case None => Answer(fids, 0xFFFF_FFFF_FFFF_FFFF, [])
            case Some(page) => Answer(fids, |page|, page)
  {
    AskingParsed(0x100, p, want, start);
    hide Asking, Parse, SplitLines, Listing, Page;
  }

  /** The page after one starts at a line or at the end. */
  lemma NextStart(out: Text, start: nat, want: nat)
    requires start <= |SplitLines(out)| && Page(SplitLines(out), start, want).Some?
    ensures start + Feeds(Page(SplitLines(out), start, want).value) <= |SplitLines(out)|
  {
    var ls := SplitLines(out);
    forall i | 0 <= i < |ls| ensures IsLine(ls[i]) { LinesOf(out, i); }
    hide *;
    if start < |ls| {
      FewFeeds(ls, start, want);
    } else {
      PageEnds(ls, start, want);
      NoFeeds([]);
    }
  }

  lemma FewFeeds(ls: seq<Text>, start: nat, want: nat)
    requires start < |ls| && (forall i :: 0 <= i < |ls| ==> IsLine(ls[i])) && Page(ls, start, want).Some?
    ensures start + Feeds(Page(ls, start, want).value) <= |ls|
  {
    hide *;
    PageIs(ls, start, want);
    var k := Fit(ls[start..], want);
    var page := ls[start..start + k];
    assert forall i :: 0 <= i < k ==> page[i] == ls[start + i];
    PageFeeds(page);
  }

  lemma ViaStep(x: Export, fids: Fids, name: Text, p: Text, want: nat, start: nat, turns: nat, page: Option<Text>)
    requires ServeNp(x, fids, Asking(0x100, p, want, start), name) ==
             match page case None => Answer(fids, 0xFFFF_FFFF_FFFF_FFFF, []) case Some(t) => Answer(fids, |t|, t)
    ensures var w := WalkVia(x, fids, name, p, want, start, turns);
            if turns == 0 then w == Walked([], Unfinished)
            else if page.None? then w == Walked([], Refused)
            else if page.value == [] then w == Walked([], Done)
            else var rest := WalkVia(x, fids, name, p, want, start + Feeds(page.value), turns - 1);
              w == Walked(page.value + rest.got, rest.ended)
  {
    hide ServeNp, Asking, Feeds;
  }

  lemma {:induction false} ViaIsWalk(x: Export, fids: Fids, name: Text, p: Text, want: nat, start: nat, turns: nat)
    requires Fits(|p|) && Fits(want) && p in x.dirs && Fits(|Listing(x.dirs[p])|)
    requires start <= |SplitLines(Listing(x.dirs[p]))|
    ensures WalkVia(x, fids, name, p, want, start, turns) ==
            WalkFrom(SplitLines(Listing(x.dirs[p])), want, start, turns)
    decreases turns
  {
    hide *;
    var out := Listing(x.dirs[p]);
    var ls := SplitLines(out);
    var page := Page(ls, start, want);
    LinesFew(out);
    FitsBelow(start, |out|);
    TurnVia(x, fids, name, p, want, start);
    ViaStep(x, fids, name, p, want, start, turns, page);
    TurnStep(ls, want, start, turns);
    if turns > 0 && page.Some? && page.value != [] {
      NextStart(out, start, want);
      ViaIsWalk(x, fids, name, p, want, start + Feeds(page.value), turns - 1);
    }
  }

  lemma FitsBelow(v: nat, w: nat)
    requires v <= w && Fits(w)
    ensures Fits(v)
  {}

  /** Through frames, some number of turns brings the listing and ends, if and only if no name has a CR that is not
      before a line feed and no line is longer than the window. */
  lemma ListsThroughFrames(x: Export, fids: Fids, name: Text, p: Text, want: nat)
    requires Fits(|p|) && Fits(want) && p in x.dirs && Fits(|Listing(x.dirs[p])|)
    ensures (exists turns :: WalkVia(x, fids, name, p, want, 0, turns) == Walked(Listing(x.dirs[p]), Done)) <==>
            (forall e :: e in x.dirs[p] ==> LfOnly(e))
            && forall l :: l in SplitLines(Listing(x.dirs[p])) ==> |l| <= want
  {
    var es := x.dirs[p];
    hide *;
    WalkExact(es, want);
    var out := Listing(es);
    if turns: nat :| WalkVia(x, fids, name, p, want, 0, turns) == Walked(out, Done) {
      ViaIsWalk(x, fids, name, p, want, 0, turns);
    }
    if turns: nat :| WalkFrom(SplitLines(out), want, 0, turns) == Walked(out, Done) {
      ViaIsWalk(x, fids, name, p, want, 0, turns);
    }
  }
}
