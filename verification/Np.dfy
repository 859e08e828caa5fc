/** The export's verbs (scripts/np9p_server.py, serve_np): a read-only tree and
    one table of fids, each bound to the user that opened it. */
module Np {
  import opened Bytes
  import opened Readdir

  const HDR := 48
  const FS_ERROR := 0xFFFF_FFFF_FFFF_FFFF
  const FS_ERR_NOT_FOUND := 0xFFFF_FFFF_FFFF_FFFD
  const FS_ERR_NOT_A_FILE := 0xFFFF_FFFF_FFFF_FFFC
  const FS_ERR_ALREADY_EXISTS := 0xFFFF_FFFF_FFFF_FFF9
  const FS_ERR_READ_ONLY := 0xFFFF_FFFF_FFFF_FFE2
  const FS_ERR_AUTH := 0xFFFF_FFFF_FFFF_FFE1
  const FS_ERR_NO_SUCH_VERB := 0xFFFF_FFFF_FFFF_FFD8

  const NP_READDIR := 0x100
  const NP_READ_FILE := 0x101
  const NP_READ := 0x102
  const NP_READ_AT := 0x10A
  const NP_STAT := 0x10C
  const NP_OPEN := 0x10F
  const NP_PREAD := 0x110
  const NP_FSTAT := 0x112
  const NP_CLUNK := 0x113
  const NP_SESSION := 0x121
  const MUTATING: set<int> := {0x103, 0x104, 0x105, 0x106, 0x107, 0x108, 0x109, 0x10B, 0x10D, 0x10E, 0x111}

  const FID_BASE := 3
  const MAX_FIDS := 8

  /** The served tree: what DIRS and FILES map. */
  datatype Export = Export(dirs: map<Text, seq<DirEntry>>, files: map<Text, Text>) {
    predicate Exists(p: Text) { p in files || p in dirs }
  }

  datatype Fid = Fid(path: Text, opener: Text)

  type Fids = map<int, Fid>

  /** A reply, or an exception that leaves none. */
  datatype Answer = Answer(fids: Fids, status: nat, data: Text) | Raised(fids: Fids)

  datatype Request = Request(verb: nat, a0: nat, a1: nat, a2: nat, payload: Text)

  function Word(b: Text, at: nat): nat
    requires at + 8 <= |b|
  {
    FromLE(b[at..at + 8])
  }

  /** [verb][tree][a0][a1][a2][a3][payload], each word little-endian. */
  function Parse(b: Text): Request
    requires |b| >= HDR
  {
    Request(Word(b, 0), Word(b, 16), Word(b, 24), Word(b, 32), b[HDR..])
  }

  function Min(a: nat, b: nat): nat { if a <= b then a else b }

  /** `s[off:off + want]`, as Python slices. */
  function Slice(s: Text, off: nat, want: nat): Text {
    if off >= |s| then [] else s[off..Min(off + want, |s|)]
  }

  function StatInfo(x: Export, p: Text): Option<Text> {
    if p in x.dirs then Some(StatBytes(0, 1))
    else if p in x.files then Some(StatBytes(|x.files[p]|, 0))
    else None
  }

  /** Size, flags, and every other byte zero: 27 in all. */
  function StatBytes(size: nat, flags: nat): (s: Text)
    ensures |s| == 27
  {
    ToLE(size, 8) + ToLE(flags, 4) + seq(15, _ => 0)
  }

  predicate Has(flags: nat, bit: nat)
    requires bit > 0
  {
    flags / bit % 2 == 1
  }

  /** Everything before the last `/`, the root for none. */
  function Parent(p: Text): Text {
    var at := LastSlash(p);
    if at <= 0 then [47] else p[..at]
  }

  function LastSlash(p: Text): (k: int)
    ensures -1 <= k < |p|
  {
    if p == [] then -1 else if p[|p| - 1] == 47 then |p| - 1 else LastSlash(p[..|p| - 1])
  }

  /** The lowest number not in the table, or -1. */
  function FreeFid(fids: Fids, from: int): (n: int)
    ensures n == -1 || (from <= n < FID_BASE + MAX_FIDS && n !in fids)
    decreases FID_BASE + MAX_FIDS - from
  {
    if from >= FID_BASE + MAX_FIDS then -1 else if from !in fids then from else FreeFid(fids, from + 1)
  }

  function Refuse(fids: Fids, status: nat): (a: Answer)
    ensures a.Answer?
  {
    Answer(fids, status, [])
  }

  /** The NP_OPEN ladder, rung by rung. */
  function Open(x: Export, fids: Fids, flags: nat, p: Text, name: Text): (a: Answer)
    ensures a.Answer?
  {
    if !Has(flags, 1) && !Has(flags, 2) then Refuse(fids, FS_ERROR)
    else if (Has(flags, 16) && !Has(flags, 4)) || flags >= 32 then Refuse(fids, FS_ERROR)
    else if Has(flags, 16) && x.Exists(p) then Refuse(fids, FS_ERR_ALREADY_EXISTS)
    else if p in x.dirs && (Has(flags, 2) || Has(flags, 8) || Has(flags, 4)) then Refuse(fids, FS_ERR_NOT_A_FILE)
    else if Has(flags, 2) || Has(flags, 8) || (Has(flags, 4) && !x.Exists(p)) then
      if !Has(flags, 2) && !Has(flags, 8) && Parent(p) !in x.dirs then Refuse(fids, FS_ERR_NOT_FOUND)
      else Refuse(fids, FS_ERR_READ_ONLY)
    else if !x.Exists(p) then Refuse(fids, FS_ERR_NOT_FOUND)
    else
      var free := FreeFid(fids, FID_BASE);
      if free == -1 then Refuse(fids, FS_ERROR) else Answer(fids[free := Fid(p, name)], free, [])
  }

  /** The fid verbs: no path, `a0` is the fid. The refusal of another user's names a
      status this server does not define, so it raises. */
  function FidOp(x: Export, fids: Fids, r: Request, name: Text): Answer {
    if r.a0 !in fids then Refuse(fids, FS_ERROR)
    else
      var f := fids[r.a0];
      if f.opener != name then Raised(fids)
      else if r.verb == NP_CLUNK then Answer(fids - {r.a0 as int}, 0, [])
      else if r.verb == NP_FSTAT then Stat(x, fids, f.path)
      else if f.path in x.dirs || f.path !in x.files then Refuse(fids, FS_ERR_NOT_A_FILE)
      else
        var data := x.files[f.path];
        if r.a1 >= |data| then Answer(fids, 0, [])
        else Answer(fids, |Slice(data, r.a1, r.a2)|, Slice(data, r.a1, r.a2))
  }

  function Stat(x: Export, fids: Fids, p: Text): (a: Answer)
    ensures a.Answer?
  {
    match StatInfo(x, p)
    case None => Refuse(fids, FS_ERR_NOT_FOUND)
    case Some(info) => Answer(fids, 27, info)
  }

  predicate FidVerb(verb: nat) { verb == NP_PREAD || verb == NP_FSTAT || verb == NP_CLUNK }

  function PathVerb(x: Export, fids: Fids, r: Request): (a: Answer)
    ensures a.Answer?
  {
    var p := r.payload[..Min(r.a0, |r.payload|)];
    if r.verb == NP_READDIR then
      if p !in x.dirs then Refuse(fids, FS_ERR_NOT_FOUND)
      else match Page(SplitLines(Listing(x.dirs[p])), r.a2, r.a1)
           case None => Refuse(fids, FS_ERROR)
           case Some(page) => Answer(fids, |page|, page)
    else if r.verb == NP_STAT then Stat(x, fids, p)
    else if r.verb == NP_READ || r.verb == NP_READ_AT then
      if p !in x.files then Refuse(fids, FS_ERR_NOT_FOUND)
      else Answer(fids, |Slice(x.files[p], r.a1, r.a2)|, Slice(x.files[p], r.a1, r.a2))
    else if r.verb == NP_READ_FILE then
      if p !in x.files then Refuse(fids, FS_ERR_NOT_FOUND)
      else Answer(fids, |x.files[p]|, Slice(x.files[p], 0, r.a1))
    else if r.verb in MUTATING then Refuse(fids, FS_ERR_READ_ONLY)
    else Refuse(fids, FS_ERR_NO_SUCH_VERB)
  }

  /** One NP message served as `name`. */
  function ServeNp(x: Export, fids: Fids, body: Text, name: Text): (a: Answer)
    ensures a.Raised? ==> a.fids == fids
  {
    if |body| < HDR then Refuse(fids, FS_ERROR) else
      var r := Parse(body);
      if r.verb == NP_SESSION then Answer(fids, 0, [])
      else if r.verb == NP_OPEN then Open(x, fids, r.a0, r.payload[..Min(r.a1, |r.payload|)], name)
      else if FidVerb(r.verb) then FidOp(x, fids, r, name)
      else PathVerb(x, fids, r)
  }

  /** The server's side of it, the fid table updated in place. Nothing catches an
      exception: it ends the process, and the table with it. */
  class Exporter {
    const tree: Export
    var fids: Fids
    var up: bool

    constructor (tree: Export)
      ensures this.tree == tree && fids == map[] && up
    {
      this.tree := tree;
      fids, up := map[], true;
    }

    method Serve(body: Text, name: Text) returns (answer: Answer)
      requires up
      modifies this
      ensures answer == ServeNp(tree, old(fids), body, name) && fids == answer.fids && up == answer.Answer?
    {
      if |body| < HDR { return Answer(fids, FS_ERROR, []); }
      var r := Parse(body);
      if r.verb == NP_SESSION { return Answer(fids, 0, []); }
      if r.verb == NP_OPEN {
        var status := OpenFid(r.a0, r.payload[..Min(r.a1, |r.payload|)], name);
        return Answer(fids, status, []);
      }
      if FidVerb(r.verb) {
        answer := ServeFid(r, name);
        return;
      }
      var p := r.payload[..Min(r.a0, |r.payload|)];
      var status, data := ServePath(r, p);
      answer := Answer(fids, status, data);
    }

    /** The fid verbs. */
    method ServeFid(r: Request, name: Text) returns (answer: Answer)
      requires up && FidVerb(r.verb)
      modifies this
      ensures answer == FidOp(tree, old(fids), r, name) && fids == answer.fids && up == answer.Answer?
    {
      if r.a0 !in fids { return Answer(fids, FS_ERROR, []); }
      var f := fids[r.a0];
      if f.opener != name {
        up := false;
        return Raised(fids);
      }
      if r.verb == NP_CLUNK {
        fids := fids - {r.a0 as int};
        return Answer(fids, 0, []);
      }
      if r.verb == NP_FSTAT {
        var info := StatInfo(tree, f.path);
        if info.None? { return Answer(fids, FS_ERR_NOT_FOUND, []); }
        return Answer(fids, 27, info.value);
      }
      if f.path in tree.dirs || f.path !in tree.files { return Answer(fids, FS_ERR_NOT_A_FILE, []); }
      var data := tree.files[f.path];
      if r.a1 >= |data| { return Answer(fids, 0, []); }
      var chunk := data[r.a1..Min(r.a1 + r.a2, |data|)];
      answer := Answer(fids, |chunk|, chunk);
    }

    /** The verbs that name a path. */
    method ServePath(r: Request, p: Text) returns (status: nat, data: Text)
      requires p == r.payload[..Min(r.a0, |r.payload|)]
      ensures Answer(fids, status, data) == PathVerb(tree, fids, r)
    {
      if r.verb == NP_READDIR {
        if p !in tree.dirs { return FS_ERR_NOT_FOUND, []; }
        var page := ReaddirPage(Listing(tree.dirs[p]), r.a2, r.a1);
        if page.None? { return FS_ERROR, []; }
        return |page.value|, page.value;
      }
      if r.verb == NP_STAT {
        var info := StatInfo(tree, p);
        if info.None? { return FS_ERR_NOT_FOUND, []; }
        return 27, info.value;
      }
      if r.verb == NP_READ || r.verb == NP_READ_AT || r.verb == NP_READ_FILE {
        if p !in tree.files { return FS_ERR_NOT_FOUND, []; }
        var file := tree.files[p];
        if r.verb == NP_READ_FILE { return |file|, file[..Min(r.a1, |file|)]; }
        var chunk := Slice(file, r.a1, r.a2);
        return |chunk|, chunk;
      }
      if r.verb in MUTATING { return FS_ERR_READ_ONLY, []; }
      status, data := FS_ERR_NO_SUCH_VERB, [];
    }

    method OpenFid(flags: nat, p: Text, name: Text) returns (status: nat)
      modifies this`fids
      ensures Answer(fids, status, []) == Open(tree, old(fids), flags, p, name)
    {
      var write := Has(flags, 2) || Has(flags, 8);
      if !Has(flags, 1) && !Has(flags, 2) { return FS_ERROR; }
      if (Has(flags, 16) && !Has(flags, 4)) || flags >= 32 { return FS_ERROR; }
      if Has(flags, 16) && tree.Exists(p) { return FS_ERR_ALREADY_EXISTS; }
      if p in tree.dirs && (write || Has(flags, 4)) { return FS_ERR_NOT_A_FILE; }
      if write || (Has(flags, 4) && !tree.Exists(p)) {
        if !write && Parent(p) !in tree.dirs { return FS_ERR_NOT_FOUND; }
        return FS_ERR_READ_ONLY;
      }
      if !tree.Exists(p) { return FS_ERR_NOT_FOUND; }
      var n := FID_BASE;
      while n < FID_BASE + MAX_FIDS && n in fids
        invariant FID_BASE <= n <= FID_BASE + MAX_FIDS
        invariant FreeFid(fids, n) == FreeFid(fids, FID_BASE)
      {
        n := n + 1;
      }
      if n == FID_BASE + MAX_FIDS { return FS_ERROR; }
      fids := fids[n := Fid(p, name)];
      status := n;
    }
  }

  // What the table keeps, over every history.

  /** Numbers 3 to 10, and every fid on a path of the tree. */
  ghost predicate Tidy(x: Export, fids: Fids) {
    forall n :: n in fids ==> FID_BASE <= n < FID_BASE + MAX_FIDS && x.Exists(fids[n].path)
  }

  datatype Call = Call(body: Text, name: Text)

  /** The table after a history of calls; None when one of them raised, and the server with its table is gone. */
  function After(x: Export, fids: Fids, calls: seq<Call>): Option<Fids> {
    if calls == [] then Some(fids) else
      var c := calls[|calls| - 1];
      match After(x, fids, calls[..|calls| - 1])
      case None => None
      case Some(t) => Left(ServeNp(x, t, c.body, c.name))
  }

  function Left(a: Answer): Option<Fids> { if a.Raised? then None else Some(a.fids) }

  lemma ServeTidy(x: Export, fids: Fids, body: Text, name: Text)
    requires Tidy(x, fids)
    ensures Tidy(x, ServeNp(x, fids, body, name).fids)
  {}

  lemma {:induction false} HistoryTidy(x: Export, calls: seq<Call>)
    ensures After(x, map[], calls).Some? ==> Tidy(x, After(x, map[], calls).value)
    decreases |calls|
  {
    if After(x, map[], calls).Some? && calls != [] {
      HistoryTidy(x, calls[..|calls| - 1]);
      var c := calls[|calls| - 1];
      ServeTidy(x, After(x, map[], calls[..|calls| - 1]).value, c.body, c.name);
    }
  }

  lemma {:induction false} FreeFidFinds(fids: Fids, from: int)
    requires 0 <= from <= FID_BASE + MAX_FIDS
    ensures FreeFid(fids, from) == -1 <==> forall n :: from <= n < FID_BASE + MAX_FIDS ==> n in fids
    ensures FreeFid(fids, from) != -1 ==> forall n :: from <= n < FreeFid(fids, from) ==> n in fids
    decreases FID_BASE + MAX_FIDS - from
  {
    if from < FID_BASE + MAX_FIDS && from in fids { FreeFidFinds(fids, from + 1); }
  }

  /** An open is granted exactly when a slot is free, the path exists, and the
      flags are READ, or READ and CREATE on a file; then it is the lowest slot's. */
  lemma OpenGranted(x: Export, fids: Fids, flags: nat, p: Text, name: Text)
    ensures var a := Open(x, fids, flags, p, name);
            var slot := exists n :: FID_BASE <= n < FID_BASE + MAX_FIDS && n !in fids;
            && (a.fids != fids <==> slot && x.Exists(p) && (flags == 1 || (flags == 5 && p !in x.dirs)))
            && (a.fids != fids ==> a.fids == fids[a.status as int := Fid(p, name)] && a.status !in fids
                                   && FID_BASE <= a.status < FID_BASE + MAX_FIDS
                                   && forall n :: FID_BASE <= n < a.status ==> n in fids)
            && (a.fids == fids ==> a.status >= 0xFFFF_FFFF_FFFF_FFC0)
  {
    FreeFidFinds(fids, FID_BASE);
    FlagBits(flags);
  }

  lemma FlagBits(flags: nat)
    ensures (flags == 1 || flags == 5) <==>
            flags < 32 && Has(flags, 1) && !Has(flags, 2) && !Has(flags, 8) && !Has(flags, 16)
  {}

  /** What each refusal of an open means, of the flags, the path and the table alone: a directory or an existing name is
      said to be one before the tree is said to be read-only. */
  lemma OpenRefused(x: Export, fids: Fids, flags: nat, p: Text, name: Text)
    ensures var st := Open(x, fids, flags, p, name).status;
            var formed := flags < 32 && (Has(flags, 1) || Has(flags, 2)) && (Has(flags, 16) ==> Has(flags, 4));
            var write := Has(flags, 2) || Has(flags, 8);
            var full := forall n :: FID_BASE <= n < FID_BASE + MAX_FIDS ==> n in fids;
            && (st == 0xFFFF_FFFF_FFFF_FFF9 <==> formed && Has(flags, 16) && x.Exists(p))
            && (st == 0xFFFF_FFFF_FFFF_FFFC <==> formed && !Has(flags, 16) && p in x.dirs && (write || Has(flags, 4)))
            && (st == 0xFFFF_FFFF_FFFF_FFFD <==>
                formed && !write && !x.Exists(p) && (Has(flags, 4) ==> Parent(p) !in x.dirs))
            && (st == 0xFFFF_FFFF_FFFF_FFE2 <==>
                formed && p !in x.dirs && (Has(flags, 16) ==> !x.Exists(p))
                && (write || (Has(flags, 4) && !x.Exists(p) && Parent(p) in x.dirs)))
            && (st == 0xFFFF_FFFF_FFFF_FFFF <==>
                !formed || (full && x.Exists(p) && (flags == 1 || (flags == 5 && p !in x.dirs))))
  {
    FreeFidFinds(fids, FID_BASE);
    FlagBits(flags);
    hide FreeFid;
  }

  /** The parent is what is before the last slash past the first byte, and the root where there is none. */
  lemma ParentIs(p: Text, k: nat)
    ensures (forall i :: 0 < i < |p| ==> p[i] != 47) ==> Parent(p) == [47]
    ensures 0 < k < |p| && p[k] == 47 && (forall i :: k < i < |p| ==> p[i] != 47) ==> Parent(p) == p[..k]
  {
    LastSlashIs(p);
    hide LastSlash;
  }

  lemma {:induction false} LastSlashIs(p: Text)
    ensures var k := LastSlash(p);
            (k >= 0 ==> p[k] == 47) && forall i :: k < i < |p| ==> p[i] != 47
  {
    if p != [] && p[|p| - 1] != 47 { LastSlashIs(p[..|p| - 1]); }
  }

  /** What one message can do to number n: bind it, by an open answered n; free it, by its
      opener's clunk; nothing else. */
  lemma TableChange(x: Export, fids: Fids, body: Text, name: Text, n: int)
    ensures var a := ServeNp(x, fids, body, name);
            && (n !in fids && n in a.fids ==>
                  |body| >= HDR && Parse(body).verb == NP_OPEN && a.Answer? && a.status == n
                  && a.fids[n].opener == name)
            && (n in fids && n !in a.fids ==>
                  |body| >= HDR && Parse(body).verb == NP_CLUNK && Parse(body).a0 == n && fids[n].opener == name)
            && (n in fids && n in a.fids ==> a.fids[n] == fids[n])
  {}

  /** A fid verb on a fid another user opened. */
  predicate NotYours(fids: Fids, body: Text, name: Text) {
    && |body| >= HDR && FidVerb(Parse(body).verb)
    && Parse(body).a0 in fids && fids[Parse(body).a0].opener != name
  }

  /** It is exactly what raises. */
  lemma RaisesIff(x: Export, fids: Fids, body: Text, name: Text)
    ensures ServeNp(x, fids, body, name).Raised? <==> NotYours(fids, body, name)
  {}

  /** Call i of a history finds the server up and is on another user's fid. */
  ghost predicate AsksAnothers(x: Export, fids: Fids, calls: seq<Call>, i: nat)
    requires i < |calls|
  {
    var t := After(x, fids, calls[..i]);
    t.Some? && NotYours(t.value, calls[i].body, calls[i].name)
  }

  /** So the server is gone after a history exactly when some call of it was, at its turn, on another user's fid. */
  lemma {:induction false} StopsIff(x: Export, fids: Fids, calls: seq<Call>)
    ensures After(x, fids, calls).None? <==> exists i :: 0 <= i < |calls| && AsksAnothers(x, fids, calls, i)
    decreases |calls|
  {
    hide ServeNp, NotYours;
    if calls != [] {
      var last := |calls| - 1;
      var front := calls[..last];
      StopsIff(x, fids, front);
      assert forall i :: 0 <= i < last ==> front[..i] == calls[..i] && front[i] == calls[i];
      assert forall i :: 0 <= i < last ==> AsksAnothers(x, fids, front, i) == AsksAnothers(x, fids, calls, i);
      if After(x, fids, front).Some? {
        RaisesIff(x, After(x, fids, front).value, calls[last].body, calls[last].name);
        assert AsksAnothers(x, fids, calls, last) <==> After(x, fids, calls).None?;
      }
    }
  }

  /** While it is up, other users' calls leave a fid as its opener left it, and none of them named it. */
  lemma {:induction false} OthersKeepTheirs(x: Export, fids: Fids, calls: seq<Call>, n: int)
    requires n in fids && forall i :: 0 <= i < |calls| ==> calls[i].name != fids[n].opener
    requires After(x, fids, calls).Some?
    ensures var t := After(x, fids, calls).value;
            n in t && t[n] == fids[n]
    ensures forall i :: 0 <= i < |calls| && |calls[i].body| >= HDR && FidVerb(Parse(calls[i].body).verb) ==>
              Parse(calls[i].body).a0 != n
    decreases |calls|
  {
    hide ServeNp, Parse;
    if calls != [] {
      var last := |calls| - 1;
      OthersKeepTheirs(x, fids, calls[..last], n);
      var t, c := After(x, fids, calls[..last]).value, calls[last];
      TableChange(x, t, c.body, c.name, n);
      RaisesIff(x, t, c.body, c.name);
      assert forall i :: 0 <= i < last ==> calls[..last][i] == calls[i];
    }
  }

  /** Call i of a history is an open answered n. */
  ghost predicate OpensAs(x: Export, fids: Fids, calls: seq<Call>, i: nat, n: int)
    requires i < |calls|
  {
    var t, c := After(x, fids, calls[..i]), calls[i];
    && t.Some? && |c.body| >= HDR && Parse(c.body).verb == NP_OPEN
    && var a := ServeNp(x, t.value, c.body, c.name); a.Answer? && a.status == n
  }

  /** A number not in the table comes back only through an open answered with it. */
  lemma {:induction false} Reopened(x: Export, fids: Fids, calls: seq<Call>, n: int)
    requires n !in fids && After(x, fids, calls).Some? && n in After(x, fids, calls).value
    ensures exists i :: 0 <= i < |calls| && OpensAs(x, fids, calls, i, n)
    decreases |calls|
  {
    var last := |calls| - 1;
    var front, c := calls[..last], calls[last];
    if n in After(x, fids, front).value {
      Reopened(x, fids, front, n);
      var i :| 0 <= i < |front| && OpensAs(x, fids, front, i, n);
      assert calls[..i] == front[..i] && calls[i] == front[i];
      assert OpensAs(x, fids, calls, i, n);
    } else {
      TableChange(x, After(x, fids, front).value, c.body, c.name, n);
      hide ServeNp;
      assert calls[..last] == front;
      assert OpensAs(x, fids, calls, last, n);
    }
  }

  /** Until then every verb on it is refused. */
  lemma ClunkedRefused(x: Export, fids: Fids, calls: seq<Call>, n: int, body: Text, name: Text)
    requires n !in fids && |body| >= HDR && FidVerb(Parse(body).verb) && Parse(body).a0 == n
    requires After(x, fids, calls).Some? && forall i :: 0 <= i < |calls| ==> !OpensAs(x, fids, calls, i, n)
    ensures var t := After(x, fids, calls).value;
            ServeNp(x, t, body, name) == Answer(t, FS_ERROR, [])
  {
    if n in After(x, fids, calls).value { Reopened(x, fids, calls, n); }
  }

  /** NP_FSTAT through a fid is NP_STAT of the path it was opened on. */
  lemma FstatIsStat(x: Export, fids: Fids, fstat: Text, stat: Text, name: Text)
    requires |fstat| >= HDR && Parse(fstat).verb == NP_FSTAT && Parse(fstat).a0 in fids
    requires fids[Parse(fstat).a0].opener == name
    requires |stat| >= HDR && Parse(stat).verb == NP_STAT
    requires Parse(stat).payload[..Min(Parse(stat).a0, |Parse(stat).payload|)] == fids[Parse(fstat).a0].path
    ensures ServeNp(x, fids, fstat, name) == ServeNp(x, fids, stat, name)
  {}

  /** What NP_STAT tells of a file and of a directory. */
  lemma StatTells(x: Export, fids: Fids, p: Text)
    requires x.Exists(p) && (p in x.files ==> |x.files[p]| < 0x1_0000_0000_0000_0000)
    ensures var a := Stat(x, fids, p);
            && a.status == |a.data| == 27 && a.fids == fids
            && FromLE(a.data[8..12]) == (if p in x.dirs then 1 else 0)
            && FromLE(a.data[..8]) == (if p in x.dirs then 0 else |x.files[p]|)
            && forall i :: 12 <= i < 27 ==> a.data[i] == 0
  {
    var size, flags := if p in x.dirs then 0 else |x.files[p]|, if p in x.dirs then 1 else 0;
    assert Pow256(4) == 0x1_0000_0000;
    FromToLE(size, 8);
    FromToLE(flags, 4);
    hide ToLE, FromLE;
    var s := StatBytes(size, flags);
    assert s[..8] == ToLE(size, 8) && s[8..12] == ToLE(flags, 4);
    assert forall i :: 12 <= i < 27 ==> s[i] == 0;
  }

  /** NP_READ_FILE carries what NP_READ_AT does from the start, and always tells the whole size. */
  lemma ReadFileIsRead(x: Export, fids: Fids, whole: Text, part: Text, name: Text)
    requires |whole| >= HDR && Parse(whole).verb == NP_READ_FILE
    requires |part| >= HDR && Parse(part) == Parse(whole).(verb := NP_READ_AT, a1 := 0, a2 := Parse(whole).a1)
    ensures var r, q := ServeNp(x, fids, whole, name), ServeNp(x, fids, part, name);
            var p := Parse(whole).payload[..Min(Parse(whole).a0, |Parse(whole).payload|)];
            && r.data == q.data && r.fids == q.fids == fids
            && (r.status == q.status <==> p !in x.files || |x.files[p]| <= Parse(whole).a1)
            && (p in x.files ==> r.status == |x.files[p]|)
  {
    hide FromLE;
  }
}
