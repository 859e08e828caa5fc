/** One keyed session, both ends (scripts/np9p_server.py, class Keyed;
    scripts/np9p_client.py, class Session). The tag is taken as an ideal MAC: it
    is equal to another exactly when key, sequence number and data are, and the
    key schedule is taken as injective in what it hashes. */
module Keyed {
  import opened Bytes
  import opened Readdir
  import opened Np

  const NP_AUTH_MAGIC_KEYED := 0x4155_5448_4E50_3034
  const TAG_LEN := 32
  const MAX_DECLARED_REPLY := 64 * 1024

  /** An X25519 public key: of a client or export that keeps its secret, or of anyone else. */
  datatype Eph = Own(id: nat) | Foreign(n: nat)

  /** One half of the derived key, named by the inputs of the schedule and the direction. */
  datatype Key = Key(client: Eph, host: Eph, nonce: nat, toExport: bool)

  datatype Tag = Mac(key: Key, num: nat, data: Text) | Junk(bits: Text)

  /** [magic][seq][tag][message], or a body shorter than that header. */
  datatype Frame = Short | Frame(magic: nat, num: nat, tag: Tag, msg: Text)

  /** [len][tag][inner]. */
  datatype Reply = Reply(tag: Tag, inner: Text)

  /** A keyed session at the export. */
  datatype Held = Held(c2s: Key, s2c: Key, name: Text, num: nat)

  /** `wire` is None for closing without a reply, `raised` for an exception that ends the export. */
  datatype Served = Served(fids: Fids, num: nat, wire: Option<Reply>, raised: bool)

  function Inner(status: nat, data: Text): Text { ToLE(status, 8) + data }

  predicate IsSession(msg: Text) { |msg| >= 8 && Word(msg, 0) == NP_SESSION }

  /** What an accepted message does: an in-session NP_SESSION is 0 without a
      payload and nothing with one, anything else is served as `name`. */
  function Perform(x: Export, fids: Fids, msg: Text, name: Text): (r: Option<Answer>)
    ensures r.Some? && r.value.Raised? ==> r.value.fids == fids
  {
    if IsSession(msg) then
      if |msg| > HDR then None else Some(Answer(fids, 0, []))
    else Some(ServeNp(x, fids, msg, name))
  }

  predicate Accepts(h: Held, f: Frame) {
    f.Frame? && f.magic == NP_AUTH_MAGIC_KEYED && f.num == h.num + 1 && f.tag == Mac(h.c2s, f.num, f.msg)
  }

  function Answered(key: Key, num: nat, a: Answer): Reply
    requires a.Answer?
  {
    Reply(Mac(key, num, Inner(a.status, a.data)), Inner(a.status, a.data))
  }

  function ServeKeyed(x: Export, fids: Fids, h: Held, f: Frame): Served {
    if !Accepts(h, f) then Served(fids, h.num, None, false) else
      match Perform(x, fids, f.msg, h.name)
      case None => Served(fids, f.num, None, false)
      case Some(Raised(_)) => Served(fids, f.num, None, true)
      case Some(Answer(t, status, data)) =>
        Served(t, f.num, Some(Answered(h.s2c, f.num, Answer(t, status, data))), false)
  }

  class KeyedSession {
    const c2s: Key
    const s2c: Key
    const name: Text
    var num: nat

    constructor (c2s: Key, s2c: Key, name: Text)
      ensures this.c2s == c2s && this.s2c == s2c && this.name == name && num == 0
    {
      this.c2s, this.s2c, this.name, this.num := c2s, s2c, name, 0;
    }

    function State(): Held
      reads this
    {
      Held(c2s, s2c, name, num)
    }

    method Serve(host: Exporter, body: Frame) returns (reply: Option<Reply>)
      requires host.up
      modifies this`num, host
      ensures Served(host.fids, num, reply, !host.up) == ServeKeyed(host.tree, old(host.fids), old(State()), body)
    {
      if body.Short? { return None; }
      if body.magic != NP_AUTH_MAGIC_KEYED || body.num != num + 1 { return None; }
      if body.tag != Mac(c2s, body.num, body.msg) { return None; }
      num := body.num;
      var a := Answer(host.fids, 0, []);
      if IsSession(body.msg) {
        if |body.msg| > HDR { return None; }
      } else {
        a := host.Serve(body.msg, name);
        if a.Raised? { return None; }
      }
      var inner := Inner(a.status, a.data);
      reply := Some(Reply(Mac(s2c, body.num, inner), inner));
    }
  }

  // The client.

  /** Whether a reply is taken for the answer to request `num`. */
  predicate Takes(key: Key, num: nat, r: Reply) {
    8 <= |r.inner| && TAG_LEN + |r.inner| <= MAX_DECLARED_REPLY && r.tag == Mac(key, num, r.inner)
  }

  function Decoded(inner: Text): (nat, Text)
    requires |inner| >= 8
  {
    (FromLE(inner[..8]), inner[8..])
  }

  /** A client's operations on one session: what it sent, the reply each operation
      returned by its number, and whether one is under way. */
  datatype Ops = Ops(sent: seq<Text>, got: map<nat, Text>, waiting: bool, closed: bool)

  function RequestFrame(key: Key, o: Ops, msg: Text): Frame {
    Frame(NP_AUTH_MAGIC_KEYED, |o.sent| + 1, Mac(key, |o.sent| + 1, msg), msg)
  }

  function Asks(o: Ops, msg: Text): Ops { o.(sent := o.sent + [msg], waiting := true) }

  /** A reply read: the operation's, or the end of the session. */
  function Hears(key: Key, o: Ops, r: Reply): Ops {
    if Takes(key, |o.sent|, r) then o.(got := o.got[|o.sent| := r.inner], waiting := false)
    else o.(waiting := false, closed := true)
  }

  /** No reply read: the operation raises, and the session stays as it is, its number spent. */
  function GivesUp(o: Ops): Ops { o.(waiting := false) }

  class ClientSession {
    const c2s: Key
    const s2c: Key
    var num: nat
    var closed: bool
    ghost var ops: Ops

    ghost predicate Valid()
      reads this
    {
      num == |ops.sent| && closed == ops.closed && !ops.waiting
    }

    constructor (c2s: Key, s2c: Key)
      ensures this.c2s == c2s && this.s2c == s2c && Valid() && ops == Ops([], map[], false, false)
    {
      this.c2s, this.s2c, num, closed := c2s, s2c, 0, false;
      ops := Ops([], map[], false, false);
    }

    /** One operation: the frame that goes out, and with the reply that is read, if
        one is, what it returns. Without one it raises. */
    method Operate(msg: Text, reply: Option<Reply>) returns (f: Frame, r: Option<(nat, Text)>)
      requires Valid() && !closed
      modifies this
      ensures Valid() && f == RequestFrame(c2s, old(ops), msg)
      ensures ops == if reply.Some? then Hears(s2c, Asks(old(ops), msg), reply.value) else GivesUp(Asks(old(ops), msg))
      ensures r.Some? == reply.Some?
      ensures r.Some? && !closed ==> num in ops.got && |ops.got[num]| >= 8 && r.value == Decoded(ops.got[num])
      ensures r.Some? && closed ==> r.value == (FS_ERR_AUTH, []) && ops.got == old(ops.got)
    {
      num := num + 1;
      f := Frame(NP_AUTH_MAGIC_KEYED, num, Mac(c2s, num, msg), msg);
      ops := Asks(ops, msg);
      if reply.None? {
        ops := GivesUp(ops);
        return f, None;
      }
      ops := Hears(s2c, ops, reply.value);
      var inner := reply.value.inner;
      var flen := TAG_LEN + |inner|;
      if flen > MAX_DECLARED_REPLY || flen < TAG_LEN + 8 {
        closed := true;
        return f, Some((FS_ERR_AUTH, []));
      }
      if reply.value.tag != Mac(s2c, num, inner) {
        closed := true;
        return f, Some((FS_ERR_AUTH, []));
      }
      r := Some((FromLE(inner[..8]), inner[8..]));
    }
  }

  lemma InnerBack(status: nat, data: Text)
    requires status < 0x1_0000_0000_0000_0000
    ensures |Inner(status, data)| >= 8 && Decoded(Inner(status, data)) == (status, data)
  {
    Word64Back(status);
    hide ToLE, FromLE;
    assert Inner(status, data)[..8] == ToLE(status, 8);
  }

  /** The two ends of one session agree: the export takes the next request the
      client sends, and the client takes its answer, unless it is too long to take. */
  lemma Agree(x: Export, fids: Fids, c2s: Key, s2c: Key, name: Text, o: Ops, msg: Text)
    ensures var s := ServeKeyed(x, fids, Held(c2s, s2c, name, |o.sent|), RequestFrame(c2s, o, msg));
            && s.num == |o.sent| + 1
            && (s.raised <==> !IsSession(msg) && NotYours(fids, msg, name))
            && (s.wire.None? <==> s.raised || (IsSession(msg) && |msg| > HDR))
            && (s.wire.Some? ==>
                  Hears(s2c, Asks(o, msg), s.wire.value).closed ==
                  (o.closed || |s.wire.value.inner| > MAX_DECLARED_REPLY - TAG_LEN))
  {
    var a := Perform(x, fids, msg, name);
    RaisesIff(x, fids, msg, name);
    if a.Some? && a.value.Answer? { assert |ToLE(a.value.status, 8)| == 8; }
  }

  /** A reply to an earlier operation is never taken for a later one's. */
  lemma LateReply(key: Key, o: Ops, num: nat, inner: Text)
    requires num != |o.sent|
    ensures Hears(key, o, Reply(Mac(key, num, inner), inner)) == o.(waiting := false, closed := true)
  {}
}
