/** The client's frame builder and its rising-offset read loop, over the
    export's NP_PREAD and NP_READ_AT (scripts/np9p_client.py). */
module ReadLoop {
  import opened Bytes
  import opened Readdir
  import opened Np

  const CHUNK := 512
  const MAX_CHUNKS := 64
  const ERR_BAND_FLOOR := 0xFFFF_FFFF_FFFF_FFC0

  /** [verb][tree][a0..a3][payload]. */
  function BuildFrame(verb: nat, a0: nat, a1: nat, a2: nat, payload: Text): Text {
    ToLE(verb, 8) + ToLE(0, 8) + ToLE(a0, 8) + ToLE(a1, 8) + ToLE(a2, 8) + ToLE(0, 8) + payload
  }

  predicate Fits(v: nat) { v < 0x1_0000_0000_0000_0000 }

  /** Six eight-byte words and a payload, cut back apart. */
  lemma Cut(a: Text, b: Text, c: Text, d: Text, e: Text, f: Text, rest: Text)
    requires |a| == |b| == |c| == |d| == |e| == |f| == 8
    ensures var t := a + b + c + d + e + f + rest;
            && |t| == 48 + |rest| && t[48..] == rest
            && t[0..8] == a && t[16..24] == c && t[24..32] == d && t[32..40] == e
  {
  }

  /** The server reads the words the client wrote, whichever verb they belong to. */
  lemma ParseBuilt(verb: nat, a0: nat, a1: nat, a2: nat, payload: Text)
    requires Fits(verb) && Fits(a0) && Fits(a1) && Fits(a2)
    ensures var b := BuildFrame(verb, a0, a1, a2, payload);
            |b| >= HDR && Parse(b) == Request(verb, a0, a1, a2, payload)
  {
    hide ToLE, FromLE, Pow256;
    Word64Back(verb);
    Word64Back(a0);
    Word64Back(a1);
    Word64Back(a2);
    Cut(ToLE(verb, 8), ToLE(0, 8), ToLE(a0, 8), ToLE(a1, 8), ToLE(a2, 8), ToLE(0, 8), payload);
  }

  /** (bytes, whether the end was seen). */
  datatype Read = Read(got: Text, eof: bool)

  function ReadFrom(fetch: nat -> (nat, Text), got: Text, left: nat): Read
    decreases left
  {
    if left == 0 then Read(got, false) else
      var (st, chunk) := fetch(|got|);
      if st >= ERR_BAND_FLOOR || st != |chunk| then Read(got, false)
      else if st == 0 then Read(got, true)
      else ReadFrom(fetch, got + chunk, left - 1)
  }

  method ReadToEof(fetch: nat -> (nat, Text)) returns (r: Read)
    ensures r == ReadFrom(fetch, [], MAX_CHUNKS)
  {
    var got: Text := [];
    for i := 0 to MAX_CHUNKS
      invariant ReadFrom(fetch, got, MAX_CHUNKS - i) == ReadFrom(fetch, [], MAX_CHUNKS)
    {
      var (st, chunk) := fetch(|got|);
      if st >= ERR_BAND_FLOOR || st != |chunk| { return Read(got, false); }
      if st == 0 { return Read(got, true); }
      got := got + chunk;
    }
    r := Read(got, false);
  }

  /** What stopped the loop: an empty answer at the end of what it got; an error, or a status that is not the chunk's
      length; or the fetches running out. */
  lemma {:induction false} StoppedBy(fetch: nat -> (nat, Text), got: Text, left: nat) returns (used: nat)
    ensures var r := ReadFrom(fetch, got, left);
            var (st, chunk) := fetch(|r.got|);
            && got <= r.got && used <= left
            && (r.eof <==> used < left && st == 0 && chunk == [])
            && (!r.eof <==> used == left || st >= 0xFFFF_FFFF_FFFF_FFC0 || st != |chunk|)
    decreases left
  {
    used := 0;
    if left > 0 {
      var (st, chunk) := fetch(|got|);
      if st < ERR_BAND_FLOOR && st == |chunk| && st != 0 {
        var more := StoppedBy(fetch, got + chunk, left - 1);
        used := more + 1;
      }
    }
  }

  /** What a server may answer for `file`: some of the bytes asked for while there are any, then none. */
  ghost predicate Legal(fetch: nat -> (nat, Text), file: Text) {
    forall off: nat :: var (st, chunk) := fetch(off);
      st == |chunk| < ERR_BAND_FLOOR &&
      if off >= |file| then chunk == [] else 0 < |chunk| <= |file| - off && chunk == file[off..off + |chunk|]
  }

  /** Short reads are continued from: what comes back is the file so far, and the
      whole of it when the end was seen, which a file under `left` bytes always reaches. */
  lemma {:induction false} LegalReads(fetch: nat -> (nat, Text), file: Text, got: Text, left: nat)
    requires Legal(fetch, file) && got <= file
    ensures var r := ReadFrom(fetch, got, left);
            got <= r.got <= file && (r.eof ==> r.got == file) && (|file| - |got| < left ==> r.eof)
    decreases left
  {
    if left > 0 {
      var (st, chunk) := fetch(|got|);
      if st != 0 {
        assert got + chunk == file[..|got| + |chunk|];
        LegalReads(fetch, file, got + chunk, left - 1);
      }
    }
  }

  /** With full chunks the end is seen exactly when the file fits one fetch fewer than there are. */
  lemma {:induction false} FullChunks(fetch: nat -> (nat, Text), file: Text, got: Text, left: nat)
    requires got <= file
    requires forall off: nat :: fetch(off) == (|Slice(file, off, CHUNK)|, Slice(file, off, CHUNK))
    ensures ReadFrom(fetch, got, left).eof <==> left > 0 && |file| - |got| <= (left - 1) * CHUNK
    decreases left
  {
    if left > 0 {
      var (st, chunk) := fetch(|got|);
      if st != 0 {
        assert got + chunk <= file;
        FullChunks(fetch, file, got + chunk, left - 1);
      }
    }
  }

  lemma WholeFile(fetch: nat -> (nat, Text), file: Text)
    requires forall off: nat :: fetch(off) == (|Slice(file, off, CHUNK)|, Slice(file, off, CHUNK))
    ensures var r := ReadFrom(fetch, [], MAX_CHUNKS);
            r.got <= file && r.eof == (|file| <= 63 * CHUNK) && (r.eof ==> r.got == file)
  {
    assert Legal(fetch, file);
    LegalReads(fetch, file, [], MAX_CHUNKS);
    FullChunks(fetch, file, [], MAX_CHUNKS);
  }

  // The two fetchers, through the export.

  /** No reply ends the loop as an error does. */
  function Reply(a: Answer): (nat, Text) { if a.Raised? then (FS_ERROR, []) else (a.status, a.data) }

  function PreadFetch(x: Export, fids: Fids, name: Text, fid: nat, off: nat): (nat, Text) {
    Reply(ServeNp(x, fids, BuildFrame(NP_PREAD, fid, off, CHUNK, []), name))
  }

  function ReadAtFetch(x: Export, fids: Fids, name: Text, p: Text, off: nat): (nat, Text) {
    Reply(ServeNp(x, fids, BuildFrame(NP_READ_AT, |p|, off, CHUNK, p), name))
  }

  /** At every offset a frame can carry, the two answer alike: the bytes of the file there. */
  lemma PreadIsReadAt(x: Export, fids: Fids, name: Text, fid: nat, p: Text, off: nat)
    requires Fits(fid) && Fits(off) && Fits(|p|)
    requires fid in fids && fids[fid] == Fid(p, name) && p in x.files && p !in x.dirs
    ensures var s := Slice(x.files[p], off, CHUNK);
            PreadFetch(x, fids, name, fid, off) == (|s|, s) == ReadAtFetch(x, fids, name, p, off)
  {
    ParseBuilt(NP_PREAD, fid, off, CHUNK, []);
    ParseBuilt(NP_READ_AT, |p|, off, CHUNK, p);
    hide BuildFrame, Parse;
    assert p[..Min(|p|, |p|)] == p;
  }

  /** The file through the fid, read to its end, is the file by its path and the
      file itself, exactly for the files of at most 63 chunks. */
  lemma FidReadsFile(x: Export, fids: Fids, name: Text, fid: nat, p: Text)
    requires Fits(fid) && Fits(|p|)
    requires fid in fids && fids[fid] == Fid(p, name) && p in x.files && p !in x.dirs && Fits(|x.files[p]|)
    ensures var file := x.files[p];
            var viaFid :=
              ReadFrom(off => if Fits(off) then PreadFetch(x, fids, name, fid, off) else (0, []), [], MAX_CHUNKS);
            var viaPath :=
              ReadFrom(off => if Fits(off) then ReadAtFetch(x, fids, name, p, off) else (0, []), [], MAX_CHUNKS);
            && viaFid.eof == viaPath.eof == (|file| <= 63 * CHUNK)
            && viaFid.got <= file && viaPath.got <= file
            && (viaFid.eof ==> viaFid.got == viaPath.got == file)
  {
    var file := x.files[p];
    var f := off => if Fits(off) then PreadFetch(x, fids, name, fid, off) else (0, []);
    var g := off => if Fits(off) then ReadAtFetch(x, fids, name, p, off) else (0, []);
    hide PreadFetch, ReadAtFetch;
    forall off: nat
      ensures f(off) == (|Slice(file, off, CHUNK)|, Slice(file, off, CHUNK))
      ensures g(off) == (|Slice(file, off, CHUNK)|, Slice(file, off, CHUNK))
    {
      if Fits(off) { PreadIsReadAt(x, fids, name, fid, p, off); }
    }
    WholeFile(f, file);
    WholeFile(g, file);
  }

  /** The first number is 3. */
  lemma FirstOpen(x: Export, p: Text, one: Text)
    requires x.Exists(p) && Fits(|p|)
    ensures ServeNp(x, map[], BuildFrame(NP_OPEN, 1, |p|, 0, p), one) == Answer(map[3 := Fid(p, one)], 3, [])
  {
    ParseBuilt(NP_OPEN, 1, |p|, 0, p);
    hide BuildFrame, Parse;
    assert p[..Min(|p|, |p|)] == p;
    assert FreeFid(map[], FID_BASE) == 3;
  }

  /** From an empty table: one user opens a path, another asks what the fid is of, and the server is gone. */
  lemma AnotherAsks(x: Export, p: Text, one: Text, other: Text)
    requires x.Exists(p) && Fits(|p|) && one != other
    ensures var open := Call(BuildFrame(NP_OPEN, 1, |p|, 0, p), one);
            var ask := Call(BuildFrame(NP_FSTAT, 3, 0, 0, []), other);
            After(x, map[], [open]) == Some(map[3 := Fid(p, one)]) && After(x, map[], [open, ask]) == None
  {
    var open := Call(BuildFrame(NP_OPEN, 1, |p|, 0, p), one);
    var ask := Call(BuildFrame(NP_FSTAT, 3, 0, 0, []), other);
    FirstOpen(x, p, one);
    ParseBuilt(NP_FSTAT, 3, 0, 0, []);
    assert [open, ask][..1] == [open] && [open][..0] == [];
    RaisesIff(x, map[3 := Fid(p, one)], ask.body, other);
    hide ServeNp, BuildFrame, Parse;
    assert After(x, map[], [open]) == Some(map[3 := Fid(p, one)]);
  }
}
