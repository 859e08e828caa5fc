/** One accepted connection of the export (scripts/np9p_server.py,
    serve_connection): a request and a reply, or a session, keyed when its first
    frame offered a key. Checking a signature and the key exchange are parameters. */
module Connection {
  import opened Bytes
  import opened Readdir
  import opened Np
  import opened Keyed

  const NP_AUTH_MAGIC_SIGNED := 0x4155_5448_4E50_3033
  const NAME_OFF := 24
  const KEY_OFF := 56
  const SIG_OFF := 88
  const HDR_SIGNED := 152
  const EPHEMERAL_LEN := 32

  /** Who may sign, whose root claims are honoured, and what a signature check answers. */
  datatype Policy = Policy(authorized: map<Text, Text>, rootClaims: set<Text>, rootPeers: set<Text>,
                           unkeyed: bool, signed: (Text, Text, Text) -> bool)

  /** What the key exchange with the offered ephemeral gives. */
  datatype Exchange = Exchange(c2s: Key, s2c: Key, eph: Text)

  datatype Body = Bare(bytes: Text) | Marked(frame: Frame)

  /** A frame read, and the exchange that keying with it gives: None for an all-zero shared secret. */
  datatype Arrival = Arrival(body: Body, exchange: Option<Exchange>)

  datatype Sender = Sender(msg: Text, nonce: Text, name: Text, peer: Text)

  datatype Wire = Denied | Sealed(nonce: Text, status: nat, data: Text) | Tagged(reply: Reply)

  /** The fid table after a frame, what was sent, None for closing without a reply, and whether the request raised. */
  datatype Turn = Turn(fids: Fids, wire: Option<Wire>, raised: bool)

  /** Refused with an RST; ended by an exception, and the export with it; or closed. */
  datatype Ended = Refused | Crashed | Closed

  function Claimed(name: Text): Text {
    if name == [] || name[0] == 0 then [] else [name[0]] + Claimed(name[1..])
  }

  predicate Squashed(p: Policy, name: Text, peer: Text) {
    Claimed(name) in p.rootClaims && peer !in p.rootPeers
  }

  predicate IsSigned(b: Body) {
    b.Bare? && |b.bytes| >= 8 && Word(b.bytes, 0) == NP_AUTH_MAGIC_SIGNED
  }

  /** The sender of a frame whose key is authorized and whose signature verifies. */
  function Verified(p: Policy, domain: Text, b: Body): Option<Sender> {
    if !IsSigned(b) || |b.bytes| < HDR_SIGNED then None else
      var nonce, name := b.bytes[8..NAME_OFF], b.bytes[NAME_OFF..KEY_OFF];
      var pub, sig, msg := b.bytes[KEY_OFF..SIG_OFF], b.bytes[SIG_OFF..HDR_SIGNED], b.bytes[HDR_SIGNED..];
      if pub !in p.authorized || !p.signed(pub, domain + nonce + name + msg, sig) then None
      else Some(Sender(msg, nonce, name, p.authorized[pub]))
  }

  /** The verb inside a signed frame, verified or not. */
  function VerbOf(b: Body): Option<nat> {
    if IsSigned(b) && |b.bytes| >= HDR_SIGNED + 8 then Some(Word(b.bytes, HDR_SIGNED)) else None
  }

  predicate OffersKey(b: Body) {
    VerbOf(b) == Some(NP_SESSION) && |b.bytes| == HDR_SIGNED + HDR + EPHEMERAL_LEN
  }

  function StatusOf(w: Wire): nat {
    match w
    case Denied => FS_ERR_AUTH
    case Sealed(_, status, _) => status
    case Tagged(r) => if |r.inner| >= 8 then FromLE(r.inner[..8]) else FS_ERROR
  }

  /** A signed request on its own. */
  function ServeRequest(p: Policy, domain: Text, x: Export, fids: Fids, b: Body): Turn {
    match Verified(p, domain, b)
    case None => Turn(fids, Some(Denied), false)
    case Some(s) =>
      if Squashed(p, s.name, s.peer) then Turn(fids, Some(Sealed(s.nonce, FS_ERR_AUTH, [])), false) else
        var a := ServeNp(x, fids, s.msg, s.name);
        Turn(a.fids, if a.Raised? then None else Some(Sealed(s.nonce, a.status, a.data)), a.Raised?)
  }

  // What each frame of a connection gets, said of the frames alone: the first
  // decides whether the connection is keyed, and as whom; nothing later does.

  /** The keyed session a first frame opens. */
  function Keys(p: Policy, domain: Text, a: Arrival): Option<Held> {
    if !OffersKey(a.body) || p.unkeyed then None else
      match Verified(p, domain, a.body)
      case None => None
      case Some(s) =>
        if Squashed(p, s.name, s.peer) || a.exchange.None? then None
        else Some(Held(a.exchange.value.c2s, a.exchange.value.s2c, s.name, 0))
  }

  function OpenKeyed(p: Policy, domain: Text, fids: Fids, a: Arrival): Turn {
    match Verified(p, domain, a.body)
    case None => Turn(fids, Some(Denied), false)
    case Some(s) =>
      if Squashed(p, s.name, s.peer) then Turn(fids, Some(Sealed(s.nonce, FS_ERR_AUTH, [])), false)
      else if a.exchange.None? then Turn(fids, None, false)
      else Turn(fids, Some(Sealed(s.nonce, 0, a.exchange.value.eph)), false)
  }

  function AsFrame(b: Body): Frame { if b.Marked? then b.frame else Short }

  /** The n-th frame on a connection keyed by its first: the session's n-th request. */
  function KeyedTurn(x: Export, fids: Fids, h: Held, n: nat, b: Body): Turn
    requires n > 0
  {
    var s := ServeKeyed(x, fids, h.(num := n - 1), AsFrame(b));
    Turn(s.fids, if s.wire.None? then None else Some(Tagged(s.wire.value)), s.raised)
  }

  function TurnAt(p: Policy, domain: Text, x: Export, fids: Fids, frames: seq<Arrival>, n: nat): Turn
    requires n < |frames|
  {
    var b := frames[n].body;
    if n > 0 && Keys(p, domain, frames[0]).Some? then KeyedTurn(x, fids, Keys(p, domain, frames[0]).value, n, b)
    else if b.Marked? then Turn(fids, Some(Denied), false)
    else if OffersKey(b) && !p.unkeyed then
      if n > 0 then Turn(fids, None, false) else OpenKeyed(p, domain, fids, frames[n])
    else ServeRequest(p, domain, x, fids, b)
  }

  /** The table the frames before the n-th leave. */
  function Before(p: Policy, domain: Text, x: Export, fids: Fids, frames: seq<Arrival>, n: nat): Fids
    requires n <= |frames|
  {
    if n == 0 then fids else TurnAt(p, domain, x, Before(p, domain, x, fids, frames, n - 1), frames, n - 1).fids
  }

  /** Whether the first frame opened a session: an NP_SESSION answered 0. */
  predicate Opened(p: Policy, domain: Text, x: Export, fids: Fids, frames: seq<Arrival>)
    requires frames != []
  {
    var t := TurnAt(p, domain, x, fids, frames, 0);
    VerbOf(frames[0].body) == Some(NP_SESSION) && t.wire.Some? && StatusOf(t.wire.value) == 0
  }

  /** What was sent is what the frames alone determine. */
  ghost predicate Follows(p: Policy, domain: Text, x: Export, fids: Fids, frames: seq<Arrival>, sent: seq<Wire>) {
    && |sent| <= |frames|
    && forall n :: 0 <= n < |sent| ==>
         TurnAt(p, domain, x, Before(p, domain, x, fids, frames, n), frames, n).wire == Some(sent[n])
  }

  /** The loop, with the state it keeps, sends what the frames alone determine: it
      ends at the first frame refused or raising, after one reply when no session was opened,
      or when the peer sends no more. */
  method ServeConnection(p: Policy, domain: Text, host: Exporter, frames: seq<Arrival>)
    returns (sent: seq<Wire>, ended: Ended)
    requires host.up
    modifies host
    ensures Follows(p, domain, host.tree, old(host.fids), frames, sent)
    ensures host.fids == Before(p, domain, host.tree, old(host.fids), frames, |sent|)
    ensures |sent| > 1 ==> Opened(p, domain, host.tree, old(host.fids), frames)
    ensures ended != Closed ==>
            |sent| < |frames| && (sent != [] ==> Opened(p, domain, host.tree, old(host.fids), frames))
            && TurnAt(p, domain, host.tree, host.fids, frames, |sent|) == Turn(host.fids, None, ended == Crashed)
    ensures ended == Closed ==>
            |sent| == |frames| || (|sent| == 1 && !Opened(p, domain, host.tree, old(host.fids), frames))
    ensures host.up <==> ended != Crashed
  {
    hide ServeNp, Perform, ServeRequest, Verified, Squashed, VerbOf;
    sent := [];
    var session, first, keyed: KeyedSession? := false, true, null;
    ghost var fids := host.fids;
    while |sent| < |frames|
      invariant host.up && Follows(p, domain, host.tree, fids, frames, sent)
      invariant host.fids == Before(p, domain, host.tree, fids, frames, |sent|)
      invariant first == (sent == []) && session == !first
      invariant session ==> Opened(p, domain, host.tree, fids, frames)
      invariant keyed == null <==> first || Keys(p, domain, frames[0]).None?
      invariant keyed != null ==> fresh(keyed) && keyed.State() == Keys(p, domain, frames[0]).value.(num := |sent| - 1)
      decreases |frames| - |sent|
    {
      var a := frames[|sent|];
      var reply: Wire;
      if keyed != null {
        var r := keyed.Serve(host, AsFrame(a.body));
        if r.None? { return sent, if host.up then Refused else Crashed; }
        reply := Tagged(r.value);
      } else if a.body.Marked? {
        reply := Denied;
      } else if OffersKey(a.body) && !p.unkeyed {
        if !first { return sent, Refused; }
        var answer;
        answer, keyed := OpenSession(p, domain, a, host.fids);
        if answer.None? { return sent, Refused; }
        reply := answer.value;
        if keyed != null { session := true; }
      } else {
        var answer := Request(p, domain, host, a.body);
        if answer.None? { return sent, Crashed; }
        reply := answer.value;
        if VerbOf(a.body) == Some(NP_SESSION) && StatusOf(reply) == 0 { session := true; }
      }
      first := false;
      sent := sent + [reply];
      if !session { break; }
    }
    ended := Closed;
  }

  /** A key offered in a first frame: the reply, None to close, and the session if one is keyed. */
  method OpenSession(p: Policy, domain: Text, a: Arrival, ghost fids: Fids)
    returns (reply: Option<Wire>, keyed: KeyedSession?)
    requires OffersKey(a.body) && !p.unkeyed
    ensures reply == OpenKeyed(p, domain, fids, a).wire
    ensures keyed == null <==> Keys(p, domain, a).None?
    ensures keyed != null ==> fresh(keyed) && keyed.State() == Keys(p, domain, a).value
    ensures keyed == null <==> (reply.Some? ==> StatusOf(reply.value) != 0)
  {
    var v := Verified(p, domain, a.body);
    if v.None? { return Some(Denied), null; }
    if Squashed(p, v.value.name, v.value.peer) { return Some(Sealed(v.value.nonce, FS_ERR_AUTH, [])), null; }
    if a.exchange.None? { return None, null; }
    reply := Some(Sealed(v.value.nonce, 0, a.exchange.value.eph));
    keyed := new KeyedSession(a.exchange.value.c2s, a.exchange.value.s2c, v.value.name);
  }

  method Request(p: Policy, domain: Text, host: Exporter, b: Body) returns (reply: Option<Wire>)
    requires host.up
    modifies host
    ensures Turn(host.fids, reply, !host.up) == ServeRequest(p, domain, host.tree, old(host.fids), b)
    ensures reply.None? <==> !host.up
    ensures reply.None? ==> host.fids == old(host.fids)
  {
    var v := Verified(p, domain, b);
    if v.None? { return Some(Denied); }
    if Squashed(p, v.value.name, v.value.peer) { return Some(Sealed(v.value.nonce, FS_ERR_AUTH, [])); }
    var a := host.Serve(v.value.msg, v.value.name);
    reply := if a.Raised? then None else Some(Sealed(v.value.nonce, a.status, a.data));
  }

  // Who a connection acts for.

  /** An authorized peer's own claim, not a root claim it may not make. */
  predicate Entitled(p: Policy, domain: Text, b: Body, name: Text) {
    match Verified(p, domain, b)
    case None => false
    case Some(s) => s.name == name && s.peer in p.authorized.Values && !Squashed(p, name, s.peer)
  }

  /** The message frame n has performed, and as whom. */
  function Actor(p: Policy, domain: Text, frames: seq<Arrival>, n: nat): Option<(Text, Text)>
    requires n < |frames|
  {
    var b := frames[n].body;
    if n > 0 && Keys(p, domain, frames[0]).Some? then
      var h := Keys(p, domain, frames[0]).value;
      if Accepts(h.(num := n - 1), AsFrame(b)) && !IsSession(b.frame.msg) then Some((b.frame.msg, h.name)) else None
    else
      match Verified(p, domain, b)
      case None => None
      case Some(s) =>
        if Squashed(p, s.name, s.peer) || (OffersKey(b) && !p.unkeyed) then None else Some((s.msg, s.name))
  }

  /** Status and result as they went out. */
  predicate Carries(w: Wire, status: nat, data: Text) {
    match w
    case Denied => false
    case Sealed(_, st, d) => st == status && d == data
    case Tagged(r) => r.inner == Inner(status, data)
  }

  /** Every frame either has one message performed, as the user of a frame its sender was entitled to sign, this one
      or the first, or changes nothing and is closed on, refused, or told its session is open. */
  lemma ActsFor(p: Policy, domain: Text, x: Export, fids: Fids, frames: seq<Arrival>, n: nat)
    requires n < |frames|
    ensures var t := TurnAt(p, domain, x, fids, frames, n);
            match Actor(p, domain, frames, n)
            case Some((msg, name)) =>
              var a := ServeNp(x, fids, msg, name);
              && t.fids == a.fids && (t.wire.None? <==> a.Raised?) && t.raised == a.Raised?
              && (a.Answer? ==> Carries(t.wire.value, a.status, a.data))
              && (Entitled(p, domain, frames[n].body, name)
                  || (n > 0 && OffersKey(frames[0].body) && Entitled(p, domain, frames[0].body, name)))
            case None =>
              && t.fids == fids && !t.raised
              && (t.wire.None? || StatusOf(t.wire.value) == FS_ERR_AUTH
                  || (n == 0 && OffersKey(frames[0].body)) || Carries(t.wire.value, 0, []))
  {
    hide ServeNp;
    if Verified(p, domain, frames[n].body).Some? { PeerKnown(p, domain, frames[n].body); }
    if Verified(p, domain, frames[0].body).Some? { PeerKnown(p, domain, frames[0].body); }
  }

  lemma PeerKnown(p: Policy, domain: Text, b: Body)
    requires Verified(p, domain, b).Some?
    ensures Verified(p, domain, b).value.peer in p.authorized.Values
  {
    assert b.bytes[KEY_OFF..SIG_OFF] in p.authorized;
  }

  /** A second frame is answered only after an NP_SESSION its sender was entitled to sign was answered 0, and the
      connection is keyed exactly when that frame offered a key and the export keys. */
  lemma OpenedBy(p: Policy, domain: Text, x: Export, fids: Fids, frames: seq<Arrival>)
    requires frames != [] && Opened(p, domain, x, fids, frames)
    ensures var v := Verified(p, domain, frames[0].body);
            v.Some? && Entitled(p, domain, frames[0].body, v.value.name)
    ensures Keys(p, domain, frames[0]).Some? <==> OffersKey(frames[0].body) && !p.unkeyed
  {
    hide ServeNp;
    if Verified(p, domain, frames[0].body).Some? { PeerKnown(p, domain, frames[0].body); }
  }

  /** Once keyed, always keyed, under the same keys: every answered frame after the
      first carried the next number and the tag of its own message. */
  lemma KeyedThroughout(p: Policy, domain: Text, x: Export, fids: Fids, frames: seq<Arrival>, sent: seq<Wire>, n: nat)
    requires Follows(p, domain, x, fids, frames, sent) && 0 < n < |sent| && Keys(p, domain, frames[0]).Some?
    ensures var e := frames[0].exchange;
            var b := frames[n].body;
            && e.Some? && b.Marked? && b.frame.Frame? && b.frame.num == n
            && b.frame.tag == Mac(e.value.c2s, n, b.frame.msg)
            && sent[n].Tagged? && sent[n].reply.tag == Mac(e.value.s2c, n, sent[n].reply.inner)
  {
    hide ServeNp, Perform, Verified;
    assert TurnAt(p, domain, x, Before(p, domain, x, fids, frames, n), frames, n).wire == Some(sent[n]);
  }

  /** A key offered on any later frame, or a keyed frame before any key, is never served. */
  lemma KeyingIsFirst(p: Policy, domain: Text, x: Export, fids: Fids, frames: seq<Arrival>, n: nat)
    requires n < |frames| && !p.unkeyed
    ensures var t := TurnAt(p, domain, x, fids, frames, n);
            && (n > 0 && OffersKey(frames[n].body) ==> t == Turn(fids, None, false))
            && (frames[n].body.Marked? && (n == 0 || Keys(p, domain, frames[0]).None?) ==>
                  t == Turn(fids, Some(Denied), false))
  {}

  // The same, from the bytes of the frames and the policy alone.

  /** The signed form, its key authorized and its signature over nonce, name and message good. */
  ghost predicate WellSigned(p: Policy, domain: Text, b: Body) {
    && b.Bare? && |b.bytes| >= 152 && FromLE(b.bytes[0..8]) == 0x4155_5448_4E50_3033
    && b.bytes[56..88] in p.authorized
    && p.signed(b.bytes[56..88], domain + b.bytes[8..24] + b.bytes[24..56] + b.bytes[152..], b.bytes[88..152])
  }

  /** Everything before the first NUL is `k` bytes. */
  ghost predicate UpToNul(name: Text, k: nat) {
    k <= |name| && (forall i :: 0 <= i < k ==> name[i] != 0) && (k < |name| ==> name[k] == 0)
  }

  /** The name claimed is no root name, or the key's peer may claim one. */
  ghost predicate MayClaim(p: Policy, name: Text, pub: Text)
    requires pub in p.authorized
  {
    forall k: nat :: UpToNul(name, k) ==> name[..k] !in p.rootClaims || p.authorized[pub] in p.rootPeers
  }

  ghost predicate Honoured(p: Policy, domain: Text, b: Body) {
    WellSigned(p, domain, b) && MayClaim(p, b.bytes[24..56], b.bytes[56..88])
  }

  /** A signed NP_SESSION carrying 32 bytes after its header. */
  ghost predicate AsksForKey(b: Body) {
    b.Bare? && |b.bytes| == 232 && FromLE(b.bytes[0..8]) == 0x4155_5448_4E50_3033 && FromLE(b.bytes[152..160]) == 0x121
  }

  ghost predicate KeyedBy(p: Policy, domain: Text, a: Arrival) {
    !p.unkeyed && AsksForKey(a.body) && Honoured(p, domain, a.body) && a.exchange.Some?
  }

  /** Frame n is a request signed on its own, for `msg` as `name`. */
  ghost predicate OnItsOwn(p: Policy, domain: Text, frames: seq<Arrival>, n: nat, msg: Text, name: Text)
    requires n < |frames|
  {
    var b := frames[n].body;
    && !(n > 0 && KeyedBy(p, domain, frames[0])) && Honoured(p, domain, b) && (AsksForKey(b) ==> p.unkeyed)
    && msg == b.bytes[152..] && name == b.bytes[24..56]
  }

  /** Frame n is the n-th request of the session the first frame keyed, for `msg` as the name in that frame. */
  ghost predicate InSession(p: Policy, domain: Text, frames: seq<Arrival>, n: nat, msg: Text, name: Text)
    requires n < |frames|
  {
    && n > 0 && KeyedBy(p, domain, frames[0])
    && frames[n].body == Marked(Frame(NP_AUTH_MAGIC_KEYED, n, Mac(frames[0].exchange.value.c2s, n, msg), msg))
    && !(|msg| >= 8 && FromLE(msg[0..8]) == 0x121)
    && name == frames[0].body.bytes[24..56]
  }

  lemma {:induction false} ClaimedIs(name: Text)
    ensures UpToNul(name, |Claimed(name)|) && Claimed(name) == name[..|Claimed(name)|]
    decreases |name|
  {
    if name != [] && name[0] != 0 { ClaimedIs(name[1..]); }
  }

  lemma UpToNulOnce(name: Text, j: nat, k: nat)
    requires UpToNul(name, j) && UpToNul(name, k)
    ensures j == k
  {}

  lemma SquashedIs(p: Policy, name: Text, pub: Text)
    requires pub in p.authorized
    ensures Squashed(p, name, p.authorized[pub]) <==> !MayClaim(p, name, pub)
  {
    ClaimedIs(name);
    hide Claimed, UpToNul;
    forall k: nat | UpToNul(name, k) ensures k == |Claimed(name)| { UpToNulOnce(name, k, |Claimed(name)|); }
  }

  lemma VerifiedIs(p: Policy, domain: Text, b: Body)
    ensures Verified(p, domain, b) ==
            if WellSigned(p, domain, b)
            then Some(Sender(b.bytes[152..], b.bytes[8..24], b.bytes[24..56], p.authorized[b.bytes[56..88]])) else None
  {
    hide FromLE;
  }

  lemma OffersIs(b: Body)
    ensures OffersKey(b) == AsksForKey(b)
  {
    hide FromLE;
  }

  /** The sender of a frame, if it is one to act for. */
  lemma HonouredIs(p: Policy, domain: Text, b: Body)
    ensures Honoured(p, domain, b) <==>
            Verified(p, domain, b).Some?
            && !Squashed(p, Verified(p, domain, b).value.name, Verified(p, domain, b).value.peer)
  {
    VerifiedIs(p, domain, b);
    hide Verified, Squashed, MayClaim;
    if WellSigned(p, domain, b) { SquashedIs(p, b.bytes[24..56], b.bytes[56..88]); }
  }

  lemma KeysIs(p: Policy, domain: Text, a: Arrival)
    ensures Keys(p, domain, a) ==
            if KeyedBy(p, domain, a)
            then Some(Held(a.exchange.value.c2s, a.exchange.value.s2c, a.body.bytes[24..56], 0)) else None
  {
    OffersIs(a.body);
    HonouredIs(p, domain, a.body);
    VerifiedIs(p, domain, a.body);
    hide Verified, Squashed, MayClaim, OffersKey, AsksForKey;
  }

  lemma ActorIs(p: Policy, domain: Text, frames: seq<Arrival>, n: nat, msg: Text, name: Text)
    requires n < |frames|
    ensures Actor(p, domain, frames, n) == Some((msg, name)) <==>
            OnItsOwn(p, domain, frames, n, msg, name) || InSession(p, domain, frames, n, msg, name)
  {
    var b := frames[n].body;
    KeysIs(p, domain, frames[0]);
    OffersIs(b);
    HonouredIs(p, domain, b);
    VerifiedIs(p, domain, b);
    hide Keys, Verified, Squashed, MayClaim, OffersKey, AsksForKey, KeyedBy, FromLE;
    SessionIs(msg);
  }

  lemma SessionIs(msg: Text)
    ensures IsSession(msg) <==> |msg| >= 8 && FromLE(msg[0..8]) == 0x121
  {
    hide FromLE;
  }

  /** A frame that is either, and no other, has its message performed, under the name that was signed for; the
      answer goes back sealed over the frame's own nonce, or tagged under the session's number. */
  lemma PerformedIff(p: Policy, domain: Text, x: Export, fids: Fids, frames: seq<Arrival>, n: nat, msg: Text,
                     name: Text)
    requires n < |frames|
    requires OnItsOwn(p, domain, frames, n, msg, name) || InSession(p, domain, frames, n, msg, name)
    ensures var a, t := ServeNp(x, fids, msg, name), TurnAt(p, domain, x, fids, frames, n);
            && t.fids == a.fids && t.raised == a.Raised? && (a.Raised? ==> t.wire == None)
            && (a.Answer? && OnItsOwn(p, domain, frames, n, msg, name) ==>
                  t.wire == Some(Sealed(frames[n].body.bytes[8..24], a.status, a.data)))
            && (a.Answer? && InSession(p, domain, frames, n, msg, name) ==>
                  var inner := Inner(a.status, a.data);
                  t.wire == Some(Tagged(Reply(Mac(frames[0].exchange.value.s2c, n, inner), inner))))
  {
    var b := frames[n].body;
    KeysIs(p, domain, frames[0]);
    OffersIs(b);
    HonouredIs(p, domain, b);
    VerifiedIs(p, domain, b);
    hide Keys, Verified, Squashed, MayClaim, OffersKey, AsksForKey, KeyedBy, WellSigned, FromLE, ServeNp, Inner;
    SessionIs(msg);
  }

  /** A frame that is neither changes nothing, and is refused, closed on, or only told that a session is open. */
  lemma NothingElse(p: Policy, domain: Text, x: Export, fids: Fids, frames: seq<Arrival>, n: nat)
    requires n < |frames|
    requires forall msg, name ::
               !OnItsOwn(p, domain, frames, n, msg, name) && !InSession(p, domain, frames, n, msg, name)
    ensures var t := TurnAt(p, domain, x, fids, frames, n);
            && t.fids == fids && !t.raised
            && (t.wire.None? || StatusOf(t.wire.value) == FS_ERR_AUTH
                || (n == 0 && KeyedBy(p, domain, frames[0])
                    && t.wire == Some(Sealed(frames[0].body.bytes[8..24], 0, frames[0].exchange.value.eph)))
                || (n > 0 && KeyedBy(p, domain, frames[0]) && Carries(t.wire.value, 0, [])))
  {
    var b := frames[n].body;
    KeysIs(p, domain, frames[0]);
    OffersIs(b);
    HonouredIs(p, domain, b);
    VerifiedIs(p, domain, b);
    forall msg, name ensures Actor(p, domain, frames, n) != Some((msg, name)) {
      ActorIs(p, domain, frames, n, msg, name);
    }
    hide Keys, Verified, Squashed, MayClaim, OffersKey, AsksForKey, WellSigned, FromLE, ServeNp;
    if Actor(p, domain, frames, n).Some? { assert false; }
  }

  /** A session opens exactly for a first frame to be honoured that is an NP_SESSION: keyed when it asks for a
      key, the export keys and the exchange is good; unkeyed when it is long enough and asks for none that is given. */
  lemma OpenedIff(p: Policy, domain: Text, x: Export, fids: Fids, frames: seq<Arrival>)
    requires frames != []
    ensures Opened(p, domain, x, fids, frames) <==>
            var b := frames[0].body;
            && Honoured(p, domain, b) && |b.bytes| >= 200 && FromLE(b.bytes[152..160]) == 0x121
            && (AsksForKey(b) && !p.unkeyed ==> frames[0].exchange.Some?)
  {
    var b := frames[0].body;
    KeysIs(p, domain, frames[0]);
    OffersIs(b);
    HonouredIs(p, domain, b);
    VerifiedIs(p, domain, b);
    hide Keys, Verified, Squashed, MayClaim, OffersKey, FromLE, PathVerb, FidOp, Open, Parent;
    if b.Bare? && |b.bytes| >= 160 { assert b.bytes[152..][0..8] == b.bytes[152..160]; }
  }
}
