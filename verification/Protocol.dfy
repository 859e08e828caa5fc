/** Any number of clients and keyed sessions of one export, over a network that
    may drop, repeat, reorder, replace and invent frames, and make any tag whose
    key it could derive. Every action a run can take is one of `Action`. */
module Protocol {
  import opened Bytes
  import opened Readdir
  import opened Np
  import opened Keyed

  /** Client i's ephemeral is Own(i). `name` is the user its own opening frame claims. */
  datatype Client = Client(name: Text, nonce: nat, session: Option<nat>, ops: Ops)

  /** Session j's ephemeral is Own(j). `runs` says where in the log its requests are, in order. */
  datatype Session = Session(offer: Eph, nonce: nat, name: Text, runs: seq<nat>, open: bool)

  /** A request the export performed: of a keyed session, or signed on its own. */
  datatype Event = Event(session: nat, num: nat, name: Text, msg: Text) | Plain(name: Text, msg: Text)

  /** `tables` are the fid tables before the first event, after it, and so on; `up` whether the export still runs. */
  datatype World = World(clients: seq<Client>, sessions: seq<Session>, log: seq<Event>, tables: seq<Fids>,
                         wire: set<Tag>, up: bool)

  datatype Action =
    | Begin(name: Text, nonce: nat)
    | Open(offer: Eph, nonce: nat, name: Text)
    | Adopt(i: nat, j: nat)
    | Send(i: nat, msg: Text)
    | ToExport(j: nat, frame: Frame)
    | ToClient(i: nat, reply: Reply)
    | GiveUp(i: nat)
    | Unkeyed(name: Text, msg: Text)

  const START := World([], [], [], [map[]], {}, true)
  const IDLE := Ops([], map[], false, false)

  function ClientKey(i: nat, c: Client, toExport: bool): Key
    requires c.session.Some?
  {
    Key(Own(i), Own(c.session.value), c.nonce, toExport)
  }

  function SessionKey(j: nat, s: Session, toExport: bool): Key { Key(s.offer, Own(j), s.nonce, toExport) }

  function HeldBy(j: nat, s: Session): Held {
    Held(SessionKey(j, s, true), SessionKey(j, s, false), s.name, |s.runs|)
  }

  /** A tag the network can put on the wire: seen there, no tag at all, or under a key one of
      whose secrets is not kept. */
  predicate Available(w: World, t: Tag) {
    t.Junk? || t in w.wire || t.key.client.Foreign? || t.key.host.Foreign?
  }

  function Last(w: World): Fids
    requires w.tables != []
  {
    w.tables[|w.tables| - 1]
  }

  /** What an event answers: nothing for a key offered again. */
  function AnswerTo(x: Export, fids: Fids, e: Event): Option<Answer> {
    match e
    case Plain(name, msg) => Some(ServeNp(x, fids, msg, name))
    case Event(_, _, name, msg) => Perform(x, fids, msg, name)
  }

  predicate Raises(x: Export, fids: Fids, e: Event) { AnswerTo(x, fids, e).Some? && AnswerTo(x, fids, e).value.Raised? }

  /** The table after an event. */
  function Next(x: Export, fids: Fids, e: Event): Fids {
    if AnswerTo(x, fids, e).Some? then AnswerTo(x, fids, e).value.fids else fids
  }

  function Log(x: Export, w: World, e: Event): World
    requires w.tables != []
  {
    w.(log := w.log + [e], tables := w.tables + [Next(x, Last(w), e)], up := w.up && !Raises(x, Last(w), e))
  }

  function Sends(w: World, i: nat, msg: Text): World
    requires i < |w.clients| && w.clients[i].session.Some?
  {
    var c := w.clients[i];
    w.(clients := w.clients[i := c.(ops := Asks(c.ops, msg))],
       wire := w.wire + {RequestFrame(ClientKey(i, c, true), c.ops, msg).tag})
  }

  /** A frame given to a session: refused, which closes it, or performed and answered. */
  function Serves(x: Export, w: World, j: nat, f: Frame): World
    requires j < |w.sessions| && w.tables != []
  {
    var s := w.sessions[j];
    var out := ServeKeyed(x, Last(w), HeldBy(j, s), f);
    var live := out.wire.Some?;
    if !Accepts(HeldBy(j, s), f) then w.(sessions := w.sessions[j := s.(open := false)])
    else
      Log(x, w, Event(j, f.num, s.name, f.msg)).(
        sessions := w.sessions[j := s.(runs := s.runs + [|w.log|], open := live)],
        wire := if live then w.wire + {out.wire.value.tag} else w.wire)
  }

  function Receives(w: World, i: nat, r: Reply): World
    requires i < |w.clients| && w.clients[i].session.Some?
  {
    var c := w.clients[i];
    w.(clients := w.clients[i := c.(ops := Hears(ClientKey(i, c, false), c.ops, r))])
  }

  /** Whether client i may begin an operation, or has one under way. */
  predicate Ready(w: World, i: nat) {
    i < |w.clients| && w.clients[i].session.Some? && !w.clients[i].ops.closed && !w.clients[i].ops.waiting
  }

  predicate Waits(w: World, i: nat) {
    i < |w.clients| && w.clients[i].session.Some? && !w.clients[i].ops.closed && w.clients[i].ops.waiting
  }

  /** One action; one that cannot happen changes nothing. An ephemeral of a client is offered only once it is made,
      and the export's is taken only from a reply signed over the client's nonce. */
  function Step(x: Export, w: World, a: Action): World
    requires w.tables != []
  {
    match a
    case Begin(name, nonce) => w.(clients := w.clients + [Client(name, nonce, None, IDLE)])
    case Open(offer, nonce, name) =>
      if !w.up || (offer.Own? && offer.id >= |w.clients|) then w
      else w.(sessions := w.sessions + [Session(offer, nonce, name, [], true)])
    case Adopt(i, j) =>
      if i < |w.clients| && j < |w.sessions| && w.clients[i].session.None? && w.clients[i].nonce == w.sessions[j].nonce
      then w.(clients := w.clients[i := w.clients[i].(session := Some(j))]) else w
    case Send(i, msg) => if Ready(w, i) then Sends(w, i, msg) else w
    case ToExport(j, f) =>
      if w.up && j < |w.sessions| && w.sessions[j].open && (f.Frame? ==> Available(w, f.tag))
      then Serves(x, w, j, f) else w
    case ToClient(i, r) => if Waits(w, i) && Available(w, r.tag) then Receives(w, i, r) else w
    case GiveUp(i) =>
      if Waits(w, i) then w.(clients := w.clients[i := w.clients[i].(ops := GivesUp(w.clients[i].ops))]) else w
    case Unkeyed(name, msg) => if w.up then Log(x, w, Plain(name, msg)) else w
  }

  /** The world after a run. */
  function After(x: Export, run: seq<Action>): (w: World)
    ensures w.tables != []
    decreases |run|
  {
    if run == [] then START else Step(x, After(x, run[..|run| - 1]), run[|run| - 1])
  }

  // What every action keeps.

  /** The tables are the log, played. */
  ghost predicate Played(x: Export, log: seq<Event>, tables: seq<Fids>) {
    && |tables| == |log| + 1 && tables[0] == map[]
    && forall n :: 0 <= n < |log| ==> tables[n + 1] == Next(x, tables[n], log[n])
  }

  /** The export is up until an event raises, and performs nothing after it. */
  ghost predicate Standing(x: Export, log: seq<Event>, tables: seq<Fids>, up: bool)
    requires |tables| == |log| + 1
  {
    && (!up ==> log != [])
    && forall n :: 0 <= n < |log| ==> (Raises(x, tables[n], log[n]) <==> !up && n == |log| - 1)
  }

  ghost predicate Steady(clients: seq<Client>, sessions: seq<Session>) {
    forall i :: 0 <= i < |clients| ==> SteadyClient(clients[i], sessions)
  }

  ghost predicate SteadyClient(c: Client, sessions: seq<Session>) {
    && (forall k :: k in c.ops.got ==> 1 <= k <= |c.ops.sent|)
    && (c.session.None? ==> c.ops == IDLE)
    && (c.ops.waiting ==> c.ops.sent != [] && |c.ops.sent| !in c.ops.got)
    && (c.session.Some? ==> c.session.value < |sessions| && sessions[c.session.value].nonce == c.nonce)
  }

  /** The log and the sessions' run lists are one another's inverse, and rise together. */
  ghost predicate Filed(sessions: seq<Session>, log: seq<Event>) {
    && (forall j :: 0 <= j < |sessions| ==> FiledSession(j, sessions[j], log))
    && forall n :: 0 <= n < |log| && log[n].Event? ==> FiledEvent(n, log[n], sessions)
  }

  ghost predicate FiledSession(j: nat, s: Session, log: seq<Event>) {
    && (forall k :: 0 <= k < |s.runs| ==>
          s.runs[k] < |log| && log[s.runs[k]] == Event(j, k + 1, s.name, log[s.runs[k]].msg))
    && forall k, l :: 0 <= k < l < |s.runs| ==> s.runs[k] < s.runs[l]
  }

  ghost predicate FiledEvent(n: nat, e: Event, sessions: seq<Session>)
    requires e.Event?
  {
    && e.session < |sessions| && 1 <= e.num <= |sessions[e.session].runs|
    && sessions[e.session].runs[e.num - 1] == n
  }

  /** What an honest end put on the wire: request `num` of its client, or the answer to run `num` of its session. */
  ghost predicate Genuine(x: Export, w: World, t: Tag) {
    t.Mac? && if t.key.toExport then Asked(w.clients, t) else Answers(x, w.sessions, w.log, w.tables, t)
  }

  ghost predicate Asked(clients: seq<Client>, t: Tag)
    requires t.Mac?
  {
    && t.key.client.Own? && t.key.client.id < |clients|
    && var c := clients[t.key.client.id];
       c.session.Some? && t.key == ClientKey(t.key.client.id, c, true)
       && 1 <= t.num <= |c.ops.sent| && t.data == c.ops.sent[t.num - 1]
  }

  ghost predicate Answers(x: Export, sessions: seq<Session>, log: seq<Event>, tables: seq<Fids>, t: Tag)
    requires t.Mac?
  {
    && t.key.host.Own? && t.key.host.id < |sessions|
    && var s := sessions[t.key.host.id];
       t.key == SessionKey(t.key.host.id, s, false) && 1 <= t.num <= |s.runs|
       && AnswerAt(x, log, tables, s.runs[t.num - 1], t.data)
  }

  /** `inner` is the answer to the event at `n`, performed where it stands in the log. */
  ghost predicate AnswerAt(x: Export, log: seq<Event>, tables: seq<Fids>, n: nat, inner: Text) {
    && n < |log| && n < |tables|
    && var a := Perform(x, tables[n], log[n].msg, log[n].name);
       a.Some? && a.value.Answer? && inner == Inner(a.value.status, a.value.data)
  }

  ghost predicate Truthful(x: Export, w: World) { forall t :: t in w.wire ==> Genuine(x, w, t) }

  /** What a session offered by client i performed is what client i sent it. */
  ghost predicate Heard(clients: seq<Client>, sessions: seq<Session>, log: seq<Event>) {
    forall j :: 0 <= j < |sessions| && sessions[j].offer.Own? ==> HeardFrom(clients, j, sessions[j], log)
  }

  ghost predicate HeardFrom(clients: seq<Client>, j: nat, s: Session, log: seq<Event>)
    requires s.offer.Own?
  {
    && s.offer.id < |clients|
    && forall k :: 0 <= k < |s.runs| ==> HeardAt(clients[s.offer.id], j, s, log, k)
  }

  ghost predicate HeardAt(c: Client, j: nat, s: Session, log: seq<Event>, k: nat)
    requires k < |s.runs|
  {
    && c.session == Some(j) && c.nonce == s.nonce && k < |c.ops.sent|
    && s.runs[k] < |log| && log[s.runs[k]].msg == c.ops.sent[k]
  }

  /** What client i's operations returned are its session's answers. */
  ghost predicate Returned(x: Export, w: World) {
    forall i :: 0 <= i < |w.clients| ==> ReturnedTo(x, i, w.clients[i], w.sessions, w.log, w.tables)
  }

  ghost predicate ReturnedTo(x: Export, i: nat, c: Client, sessions: seq<Session>, log: seq<Event>, tables: seq<Fids>) {
    forall k :: k in c.ops.got ==> ReturnedAt(x, i, c, sessions, log, tables, k)
  }

  ghost predicate ReturnedAt(x: Export, i: nat, c: Client, sessions: seq<Session>, log: seq<Event>,
                             tables: seq<Fids>, k: nat)
    requires k in c.ops.got
  {
    && c.session.Some? && c.session.value < |sessions|
    && var s := sessions[c.session.value];
       s.offer == Own(i) && 1 <= k <= |s.runs| && |c.ops.got[k]| >= 8
       && AnswerAt(x, log, tables, s.runs[k - 1], c.ops.got[k])
  }

  ghost predicate Inv(x: Export, w: World) {
    && Played(x, w.log, w.tables) && Standing(x, w.log, w.tables, w.up)
    && Steady(w.clients, w.sessions) && Filed(w.sessions, w.log)
    && Truthful(x, w) && Heard(w.clients, w.sessions, w.log) && Returned(x, w)
  }

  // Nothing is taken back: every action only adds, and what was said of the past still holds.

  ghost predicate LaterClient(c: Client, d: Client) {
    && d.nonce == c.nonce && c.ops.sent <= d.ops.sent && (c.session.Some? ==> d.session == c.session)
    && forall k :: k in c.ops.got ==> k in d.ops.got && d.ops.got[k] == c.ops.got[k]
  }

  ghost predicate LaterSession(s: Session, t: Session) {
    t.offer == s.offer && t.nonce == s.nonce && t.name == s.name && s.runs <= t.runs
  }

  ghost predicate Grows(w: World, v: World) {
    && |w.clients| <= |v.clients| && (forall i :: 0 <= i < |w.clients| ==> LaterClient(w.clients[i], v.clients[i]))
    && |w.sessions| <= |v.sessions|
    && (forall j :: 0 <= j < |w.sessions| ==> LaterSession(w.sessions[j], v.sessions[j]))
    && w.log <= v.log && w.tables <= v.tables
  }

  lemma AnswerStays(x: Export, w: World, v: World, n: nat, inner: Text)
    requires Grows(w, v) && AnswerAt(x, w.log, w.tables, n, inner)
    ensures AnswerAt(x, v.log, v.tables, n, inner)
  {
    assert v.log[n] == w.log[n] && v.tables[n] == w.tables[n];
  }

  lemma GenuineStays(x: Export, w: World, v: World, t: Tag)
    requires Grows(w, v) && Genuine(x, w, t)
    ensures Genuine(x, v, t)
  {
    hide AnswerAt;
    if t.key.toExport {
      assert LaterClient(w.clients[t.key.client.id], v.clients[t.key.client.id]);
    } else {
      assert LaterSession(w.sessions[t.key.host.id], v.sessions[t.key.host.id]);
      AnswerStays(x, w, v, w.sessions[t.key.host.id].runs[t.num - 1], t.data);
    }
  }

  lemma HeardStays(w: World, v: World, j: nat, k: nat)
    requires Grows(w, v) && j < |w.sessions| && w.sessions[j].offer.Own? && k < |w.sessions[j].runs|
    requires HeardFrom(w.clients, j, w.sessions[j], w.log)
    ensures HeardAt(v.clients[v.sessions[j].offer.id], j, v.sessions[j], v.log, k)
  {
    var i := w.sessions[j].offer.id;
    assert HeardAt(w.clients[i], j, w.sessions[j], w.log, k);
    assert LaterClient(w.clients[i], v.clients[i]) && LaterSession(w.sessions[j], v.sessions[j]);
    assert v.log[w.sessions[j].runs[k]] == w.log[w.sessions[j].runs[k]];
  }

  lemma ReturnedStays(x: Export, w: World, v: World, i: nat, k: nat)
    requires Grows(w, v) && i < |w.clients| && k in w.clients[i].ops.got
    requires ReturnedAt(x, i, w.clients[i], w.sessions, w.log, w.tables, k)
    ensures ReturnedAt(x, i, v.clients[i], v.sessions, v.log, v.tables, k)
  {
    var c, d := w.clients[i], v.clients[i];
    assert LaterClient(c, d) && d.ops.got[k] == c.ops.got[k];
    assert LaterSession(w.sessions[c.session.value], v.sessions[c.session.value]);
    AnswerStays(x, w, v, w.sessions[c.session.value].runs[k - 1], c.ops.got[k]);
  }

  lemma FiledStays(w: World, v: World, n: nat)
    requires Grows(w, v) && n < |w.log| && w.log[n].Event? && FiledEvent(n, w.log[n], w.sessions)
    ensures v.log[n] == w.log[n] && FiledEvent(n, v.log[n], v.sessions)
  {
    assert LaterSession(w.sessions[w.log[n].session], v.sessions[w.log[n].session]);
  }

  ghost predicate SoundRuns(w: World, v: World) {
    && (forall j :: 0 <= j < |v.sessions| && v.sessions[j].offer.Own? ==> v.sessions[j].offer.id < |v.clients|)
    && forall j, k :: 0 <= j < |v.sessions| && v.sessions[j].offer.Own? && 0 <= k < |v.sessions[j].runs|
                      && (j < |w.sessions| ==> k >= |w.sessions[j].runs|) ==>
         HeardAt(v.clients[v.sessions[j].offer.id], j, v.sessions[j], v.log, k)
  }

  /** What an action has to say of what it adds. */
  ghost predicate Sound(x: Export, w: World, v: World) {
    && Played(x, v.log, v.tables) && Standing(x, v.log, v.tables, v.up)
    && Steady(v.clients, v.sessions) && Filed(v.sessions, v.log)
    && (forall t :: t in v.wire && t !in w.wire ==> Genuine(x, v, t))
    && SoundRuns(w, v)
    && (forall i, k :: 0 <= i < |v.clients| && k in v.clients[i].ops.got
                       && (i < |w.clients| ==> k !in w.clients[i].ops.got) ==>
          ReturnedAt(x, i, v.clients[i], v.sessions, v.log, v.tables, k))
  }

  lemma GrowthKeeps(x: Export, w: World, v: World)
    requires Inv(x, w) && Grows(w, v) && Sound(x, w, v)
    ensures Inv(x, v)
  {
    hide Genuine, HeardAt, ReturnedAt, Played, Standing, Steady, Filed;
    forall t | t in v.wire ensures Genuine(x, v, t) {
      if t in w.wire { GenuineStays(x, w, v, t); }
    }
    forall j, k | 0 <= j < |v.sessions| && v.sessions[j].offer.Own? && 0 <= k < |v.sessions[j].runs|
      ensures HeardAt(v.clients[v.sessions[j].offer.id], j, v.sessions[j], v.log, k)
    {
      if j < |w.sessions| && k < |w.sessions[j].runs| {
        assert LaterSession(w.sessions[j], v.sessions[j]);
        HeardStays(w, v, j, k);
      }
    }
    forall i, k | 0 <= i < |v.clients| && k in v.clients[i].ops.got
      ensures ReturnedAt(x, i, v.clients[i], v.sessions, v.log, v.tables, k)
    {
      if i < |w.clients| && k in w.clients[i].ops.got { ReturnedStays(x, w, v, i, k); }
    }
  }

  // One lemma an action.

  lemma BeginKeeps(x: Export, w: World, c: Client)
    requires Inv(x, w) && c == Client(c.name, c.nonce, None, IDLE)
    ensures Inv(x, w.(clients := w.clients + [c]))
  {
    hide AnswerAt, HeardAt, ReturnedAt, Next, Raises;
    GrowthKeeps(x, w, w.(clients := w.clients + [c]));
  }

  lemma OpenKeeps(x: Export, w: World, s: Session)
    requires Inv(x, w) && s.runs == [] && (s.offer.Own? ==> s.offer.id < |w.clients|)
    ensures Inv(x, w.(sessions := w.sessions + [s]))
  {
    hide AnswerAt, HeardAt, ReturnedAt, Next, Raises;
    var v := w.(sessions := w.sessions + [s]);
    assert Filed(v.sessions, w.log) by {
      forall n | 0 <= n < |w.log| && w.log[n].Event? ensures FiledEvent(n, w.log[n], v.sessions) {
        FiledStays(w, v, n);
      }
    }
    assert Steady(w.clients, v.sessions) by {
      forall i | 0 <= i < |w.clients| ensures SteadyClient(w.clients[i], v.sessions) {
        assert SteadyClient(w.clients[i], w.sessions);
      }
    }
    GrowthKeeps(x, w, v);
  }

  /** A client that keeps its past changes nothing but itself. */
  lemma ClientKeeps(x: Export, w: World, i: nat, c: Client)
    requires Inv(x, w) && i < |w.clients| && LaterClient(w.clients[i], c) && SteadyClient(c, w.sessions)
    requires forall k :: k in c.ops.got && k !in w.clients[i].ops.got ==>
               ReturnedAt(x, i, c, w.sessions, w.log, w.tables, k)
    ensures Inv(x, w.(clients := w.clients[i := c]))
  {
    hide AnswerAt, HeardAt, ReturnedAt, Next, Raises;
    GrowthKeeps(x, w, w.(clients := w.clients[i := c]));
  }

  lemma AdoptKeeps(x: Export, w: World, i: nat, j: nat)
    requires Inv(x, w) && i < |w.clients| && j < |w.sessions|
    requires w.clients[i].session.None? && w.clients[i].nonce == w.sessions[j].nonce
    ensures Inv(x, w.(clients := w.clients[i := w.clients[i].(session := Some(j))]))
  {
    hide AnswerAt, HeardAt, ReturnedAt, Next, Raises;
    assert SteadyClient(w.clients[i], w.sessions);
    ClientKeeps(x, w, i, w.clients[i].(session := Some(j)));
  }

  lemma SendKeeps(x: Export, w: World, i: nat, msg: Text)
    requires Inv(x, w) && Ready(w, i)
    ensures Inv(x, Sends(w, i, msg))
  {
    hide AnswerAt, HeardAt, ReturnedAt, Next, Raises;
    assert SteadyClient(w.clients[i], w.sessions);
    GrowthKeeps(x, w, Sends(w, i, msg));
  }

  /** A reply the client takes is its session's answer to the request under way. */
  lemma TakenIsAnswer(x: Export, w: World, i: nat, r: Reply)
    requires Inv(x, w) && Waits(w, i) && Available(w, r.tag)
    requires Takes(ClientKey(i, w.clients[i], false), |w.clients[i].ops.sent|, r)
    ensures var c := Receives(w, i, r).clients[i];
            ReturnedAt(x, i, c, w.sessions, w.log, w.tables, |c.ops.sent|)
  {
    hide AnswerAt, Played, Standing, Filed, Heard, Returned, Steady;
    assert Genuine(x, w, r.tag);
  }

  lemma HearingSteady(c: Client, sessions: seq<Session>, key: Key, r: Reply)
    requires SteadyClient(c, sessions) && c.session.Some? && c.ops.waiting
    ensures var d := c.(ops := Hears(key, c.ops, r));
            && SteadyClient(d, sessions) && LaterClient(c, d)
            && forall k :: k in d.ops.got && k !in c.ops.got ==> Takes(key, |c.ops.sent|, r) && k == |c.ops.sent|
  {
    hide Takes;
  }

  lemma ReceiveKeeps(x: Export, w: World, i: nat, r: Reply)
    requires Inv(x, w) && Waits(w, i) && Available(w, r.tag)
    ensures Inv(x, Receives(w, i, r))
  {
    var c := w.clients[i];
    var key := ClientKey(i, c, false);
    assert SteadyClient(c, w.sessions);
    HearingSteady(c, w.sessions, key, r);
    if Takes(key, |c.ops.sent|, r) { TakenIsAnswer(x, w, i, r); }
    hide Inv, ReturnedAt, Available, Takes, SteadyClient, LaterClient, Hears;
    ClientKeeps(x, w, i, c.(ops := Hears(key, c.ops, r)));
  }

  /** An operation that got no reply leaves its number spent, and the next one free to go. */
  lemma GiveUpKeeps(x: Export, w: World, i: nat)
    requires Inv(x, w) && Waits(w, i)
    ensures Inv(x, w.(clients := w.clients[i := w.clients[i].(ops := GivesUp(w.clients[i].ops))]))
  {
    hide AnswerAt, HeardAt, ReturnedAt, Next, Raises;
    assert SteadyClient(w.clients[i], w.sessions);
    ClientKeeps(x, w, i, w.clients[i].(ops := GivesUp(w.clients[i].ops)));
  }

  lemma PlayedMore(x: Export, log: seq<Event>, tables: seq<Fids>, e: Event, t: Fids)
    requires Played(x, log, tables) && t == Next(x, tables[|log|], e)
    ensures Played(x, log + [e], tables + [t])
  {
    hide Next;
    forall n | 0 <= n < |log| + 1 ensures (tables + [t])[n + 1] == Next(x, (tables + [t])[n], (log + [e])[n]) {
      if n < |log| { assert tables[n + 1] == Next(x, tables[n], log[n]); }
    }
  }

  lemma StandingMore(x: Export, log: seq<Event>, tables: seq<Fids>, e: Event, t: Fids)
    requires |tables| == |log| + 1 && Standing(x, log, tables, true)
    ensures Standing(x, log + [e], tables + [t], !Raises(x, tables[|log|], e))
  {
    hide Raises;
    forall n | 0 <= n < |log| ensures !Raises(x, (tables + [t])[n], (log + [e])[n]) {
      assert (tables + [t])[n] == tables[n] && (log + [e])[n] == log[n];
    }
  }

  lemma LogKeeps(x: Export, w: World, e: Event)
    requires Played(x, w.log, w.tables) && Standing(x, w.log, w.tables, w.up) && w.up
    ensures var v := Log(x, w, e);
            Played(x, v.log, v.tables) && Standing(x, v.log, v.tables, v.up)
  {
    hide Next, Raises, Standing;
    PlayedMore(x, w.log, w.tables, e, Next(x, Last(w), e));
    StandingMore(x, w.log, w.tables, e, Next(x, Last(w), e));
  }

  lemma PlainKeeps(x: Export, w: World, e: Event)
    requires Inv(x, w) && w.up && e.Plain?
    ensures Inv(x, Log(x, w, e))
  {
    hide AnswerAt, HeardAt, ReturnedAt, Next, Raises;
    LogKeeps(x, w, e);
    var v := Log(x, w, e);
    assert Filed(w.sessions, v.log) by {
      assert forall j :: 0 <= j < |w.sessions| ==> FiledSession(j, w.sessions[j], w.log);
      forall n | 0 <= n < |v.log| && v.log[n].Event? ensures FiledEvent(n, v.log[n], w.sessions) {
        FiledStays(w, v, n);
      }
    }
    GrowthKeeps(x, w, v);
  }

  /** An accepted frame adds one event, and one run to the session it came to. */
  lemma ServesAt(x: Export, w: World, j: nat, f: Frame)
    requires w.tables != [] && j < |w.sessions| && Accepts(HeldBy(j, w.sessions[j]), f)
    ensures var s, v := w.sessions[j], Serves(x, w, j, f);
            && f.num == |s.runs| + 1 && v.clients == w.clients && |v.sessions| == |w.sessions|
            && v.sessions == w.sessions[j := s.(runs := s.runs + [|w.log|], open := v.sessions[j].open)]
            && v.log == w.log + [Event(j, f.num, s.name, f.msg)]
  {
    hide Next, Raises, ServeKeyed;
  }

  lemma FiledAfter(x: Export, w: World, j: nat, f: Frame)
    requires Inv(x, w) && w.up && j < |w.sessions| && Accepts(HeldBy(j, w.sessions[j]), f)
    ensures Filed(Serves(x, w, j, f).sessions, Serves(x, w, j, f).log)
  {
    ServesAt(x, w, j, f);
    hide Serves, Accepts, Standing, Steady, Truthful, Heard, Returned;
    var v := Serves(x, w, j, f);
    FiledMore(w.sessions, w.log, j, v.sessions[j], v.log[|w.log|]);
  }

  lemma FiledMore(sessions: seq<Session>, log: seq<Event>, j: nat, t: Session, e: Event)
    requires Filed(sessions, log) && j < |sessions| && t.runs == sessions[j].runs + [|log|]
    requires t.name == sessions[j].name && e == Event(j, |t.runs|, t.name, e.msg)
    ensures Filed(sessions[j := t], log + [e])
  {
    var after := sessions[j := t];
    hide FiledSession, FiledEvent;
    forall l | 0 <= l < |after| ensures FiledSession(l, after[l], log + [e]) {
      assert FiledSession(l, sessions[l], log);
      if l == j { RunFiled(j, sessions[j], t, log, e); } else { SessionFiled(l, sessions[l], log, e); }
    }
    forall n | 0 <= n < |log| + 1 && (log + [e])[n].Event? ensures FiledEvent(n, (log + [e])[n], after) {
      if n < |log| {
        assert (log + [e])[n] == log[n] && FiledEvent(n, log[n], sessions);
        EventFiled(n, log[n], sessions, j, t, |log|);
      } else {
        LastFiled(sessions, j, t, e, |log|);
      }
    }
  }

  lemma SessionFiled(l: nat, s: Session, log: seq<Event>, e: Event)
    requires FiledSession(l, s, log)
    ensures FiledSession(l, s, log + [e])
  {
    assert forall n :: 0 <= n < |log| ==> (log + [e])[n] == log[n];
  }

  lemma RunFiled(j: nat, s: Session, t: Session, log: seq<Event>, e: Event)
    requires FiledSession(j, s, log) && t.runs == s.runs + [|log|]
    requires t.name == s.name && e == Event(j, |t.runs|, t.name, e.msg)
    ensures FiledSession(j, t, log + [e])
  {
    assert forall n :: 0 <= n < |log| ==> (log + [e])[n] == log[n];
  }

  lemma EventFiled(n: nat, e: Event, sessions: seq<Session>, j: nat, t: Session, at: nat)
    requires e.Event? && FiledEvent(n, e, sessions) && j < |sessions| && t.runs == sessions[j].runs + [at]
    ensures FiledEvent(n, e, sessions[j := t])
  {}

  lemma LastFiled(sessions: seq<Session>, j: nat, t: Session, e: Event, at: nat)
    requires j < |sessions| && t.runs == sessions[j].runs + [at] && e == Event(j, |t.runs|, t.name, e.msg)
    ensures FiledEvent(at, e, sessions[j := t])
  {}

  lemma AnsweredAfter(x: Export, w: World, j: nat, f: Frame)
    requires Inv(x, w) && w.up && j < |w.sessions| && Accepts(HeldBy(j, w.sessions[j]), f)
    ensures var v := Serves(x, w, j, f);
            && Played(x, v.log, v.tables) && Standing(x, v.log, v.tables, v.up)
            && forall t :: t in v.wire && t !in w.wire ==> Genuine(x, v, t)
  {
    var v := Serves(x, w, j, f);
    LogKeeps(x, w, Event(j, f.num, w.sessions[j].name, f.msg));
    assert v.tables[|w.log|] == Last(w);
    hide ServeNp, Perform, Next, Raises, Truthful, Returned, Heard, Filed, Standing, Played;
  }

  /** A frame a session accepts is the next request of the client that offered its key. */
  lemma HeardAfter(x: Export, w: World, j: nat, f: Frame)
    requires Inv(x, w) && w.up && j < |w.sessions| && Accepts(HeldBy(j, w.sessions[j]), f) && Available(w, f.tag)
    requires w.sessions[j].offer.Own?
    ensures var v := Serves(x, w, j, f);
            v.sessions[j].offer.id < |w.clients|
            && HeardAt(w.clients[v.sessions[j].offer.id], j, v.sessions[j], v.log, |w.sessions[j].runs|)
  {
    hide AnswerAt, Next, ServeNp, Perform;
    assert Genuine(x, w, f.tag);
  }

  lemma AcceptedGrows(x: Export, w: World, j: nat, f: Frame)
    requires Inv(x, w) && w.up && j < |w.sessions| && Accepts(HeldBy(j, w.sessions[j]), f)
    ensures var v := Serves(x, w, j, f);
            Grows(w, v) && Steady(v.clients, v.sessions) && v.clients == w.clients
  {
    hide Next, Perform, Truthful, Heard, Returned, Filed, Standing;
    var v := Serves(x, w, j, f);
    forall i | 0 <= i < |w.clients| ensures SteadyClient(w.clients[i], v.sessions) {
      assert SteadyClient(w.clients[i], w.sessions);
    }
  }

  lemma AcceptedRuns(x: Export, w: World, j: nat, f: Frame)
    requires Inv(x, w) && w.up && j < |w.sessions| && Accepts(HeldBy(j, w.sessions[j]), f) && Available(w, f.tag)
    ensures SoundRuns(w, Serves(x, w, j, f))
  {
    if w.sessions[j].offer.Own? { HeardAfter(x, w, j, f); }
    ServesAt(x, w, j, f);
    hide Serves, Accepts, Available, Standing, Steady, Filed, Truthful, Returned, HeardFrom, HeardAt, SoundRuns;
    OffersKnown(w);
    RunsMore(w, Serves(x, w, j, f), j);
  }

  lemma OffersKnown(w: World)
    requires Heard(w.clients, w.sessions, w.log)
    ensures forall j :: 0 <= j < |w.sessions| && w.sessions[j].offer.Own? ==> w.sessions[j].offer.id < |w.clients|
  {
    hide HeardAt;
  }

  lemma RunsMore(w: World, v: World, j: nat)
    requires j < |w.sessions| && v.clients == w.clients && |v.sessions| == |w.sessions|
    requires v.sessions[j].runs == w.sessions[j].runs + [|w.log|] && v.sessions[j].offer == w.sessions[j].offer
    requires forall l :: 0 <= l < |w.sessions| && l != j ==> v.sessions[l] == w.sessions[l]
    requires forall l :: 0 <= l < |w.sessions| && w.sessions[l].offer.Own? ==> w.sessions[l].offer.id < |w.clients|
    requires w.sessions[j].offer.Own? ==>
               HeardAt(w.clients[w.sessions[j].offer.id], j, v.sessions[j], v.log, |w.sessions[j].runs|)
    ensures SoundRuns(w, v)
  {
    hide HeardAt;
  }

  lemma AcceptedKeeps(x: Export, w: World, j: nat, f: Frame)
    requires Inv(x, w) && w.up && j < |w.sessions| && Accepts(HeldBy(j, w.sessions[j]), f) && Available(w, f.tag)
    ensures Inv(x, Serves(x, w, j, f))
  {
    AcceptedGrows(x, w, j, f);
    FiledAfter(x, w, j, f);
    AnsweredAfter(x, w, j, f);
    AcceptedRuns(x, w, j, f);
    hide *;
    GrowthKeeps(x, w, Serves(x, w, j, f)) by {
      assert Sound(x, w, Serves(x, w, j, f)) by { SoundServes(x, w, Serves(x, w, j, f)); }
    }
  }

  lemma SoundServes(x: Export, w: World, v: World)
    requires Played(x, v.log, v.tables) && Standing(x, v.log, v.tables, v.up) && v.clients == w.clients
    requires Steady(v.clients, v.sessions) && Filed(v.sessions, v.log) && SoundRuns(w, v)
    requires forall t :: t in v.wire && t !in w.wire ==> Genuine(x, v, t)
    ensures Sound(x, w, v)
  {}

  lemma RefusedKeeps(x: Export, w: World, j: nat)
    requires Inv(x, w) && j < |w.sessions|
    ensures Inv(x, w.(sessions := w.sessions[j := w.sessions[j].(open := false)]))
  {
    hide AnswerAt, Next, Raises;
    var v := w.(sessions := w.sessions[j := w.sessions[j].(open := false)]);
    assert Filed(v.sessions, v.log) by {
      assert forall l :: 0 <= l < |w.sessions| ==> FiledSession(l, w.sessions[l], w.log);
      forall n | 0 <= n < |v.log| && v.log[n].Event? ensures FiledEvent(n, v.log[n], v.sessions) {
        FiledStays(w, v, n);
      }
    }
    GrowthKeeps(x, w, v);
  }

  lemma StepKeeps(x: Export, w: World, a: Action)
    requires Inv(x, w)
    ensures Inv(x, Step(x, w, a))
  {
    hide Inv;
    match a
    case Begin(name, nonce) => BeginKeeps(x, w, Client(name, nonce, None, IDLE));
    case Open(offer, nonce, name) =>
      if w.up && !(offer.Own? && offer.id >= |w.clients|) { OpenKeeps(x, w, Session(offer, nonce, name, [], true)); }
    case Adopt(i, j) =>
      if i < |w.clients| && j < |w.sessions| && w.clients[i].session.None?
         && w.clients[i].nonce == w.sessions[j].nonce
      {
        AdoptKeeps(x, w, i, j);
      }
    case Send(i, msg) => if Ready(w, i) { SendKeeps(x, w, i, msg); }
    case ToExport(j, f) =>
      if w.up && j < |w.sessions| && (f.Frame? ==> Available(w, f.tag)) {
        if Accepts(HeldBy(j, w.sessions[j]), f) { AcceptedKeeps(x, w, j, f); } else { RefusedKeeps(x, w, j); }
      }
    case ToClient(i, r) => if Waits(w, i) && Available(w, r.tag) { ReceiveKeeps(x, w, i, r); }
    case GiveUp(i) => if Waits(w, i) { GiveUpKeeps(x, w, i); }
    case Unkeyed(name, msg) => if w.up { PlainKeeps(x, w, Plain(name, msg)); }
  }

  lemma {:induction false} RunKeeps(x: Export, run: seq<Action>)
    ensures Inv(x, After(x, run))
    decreases |run|
  {
    if run != [] {
      RunKeeps(x, run[..|run| - 1]);
      StepKeeps(x, After(x, run[..|run| - 1]), run[|run| - 1]);
    }
  }

  // The promises, of every run.

  /** The event at n was performed by session j, under a key client i offered. */
  ghost predicate For(w: World, n: nat, j: nat, i: nat) {
    n < |w.log| && w.log[n].Event? && w.log[n].session == j && j < |w.sessions| && w.sessions[j].offer == Own(i)
  }

  /** Everything performed under a key a client offered is what that client sent, to the one session it adopted. */
  lemma PerformedIsSent(x: Export, run: seq<Action>, n: nat, j: nat, i: nat)
    requires For(After(x, run), n, j, i)
    ensures var w := After(x, run);
            var e := w.log[n];
            && i < |w.clients| && w.clients[i].session == Some(j) && w.clients[i].nonce == w.sessions[j].nonce
            && e.name == w.sessions[j].name
            && 1 <= e.num <= |w.clients[i].ops.sent| && e.msg == w.clients[i].ops.sent[e.num - 1]
  {
    RunKeeps(x, run);
    var w := After(x, run);
    hide After, Played, Standing, Truthful, Returned;
    var s, e := w.sessions[j], w.log[n];
    assert FiledEvent(n, e, w.sessions) && FiledSession(j, s, w.log) && HeardFrom(w.clients, j, s, w.log);
    assert HeardAt(w.clients[i], j, s, w.log, e.num - 1);
  }

  /** In the order it was sent, and nothing twice. */
  lemma PerformedOnce(x: Export, run: seq<Action>, n: nat, m: nat, j: nat)
    requires var w := After(x, run);
             && n < |w.log| && w.log[n].Event? && w.log[n].session == j
             && m < |w.log| && w.log[m].Event? && w.log[m].session == j
    ensures var w := After(x, run);
            (w.log[m].num < w.log[n].num <==> m < n) && (w.log[m].num == w.log[n].num <==> m == n)
  {
    RunKeeps(x, run);
    var w := After(x, run);
    hide After, Played, Standing, Truthful, Returned, Heard;
    assert FiledEvent(n, w.log[n], w.sessions) && FiledEvent(m, w.log[m], w.sessions);
    assert FiledSession(j, w.sessions[j], w.log);
  }

  /** And nothing skipped: what was sent before it was performed before it. */
  lemma NothingSkipped(x: Export, run: seq<Action>, n: nat, j: nat, i: nat, k: nat) returns (m: nat)
    requires For(After(x, run), n, j, i) && k + 1 < After(x, run).log[n].num
    ensures var w := After(x, run);
            m < n && i < |w.clients| && k < |w.clients[i].ops.sent|
            && w.log[m] == Event(j, k + 1, w.sessions[j].name, w.clients[i].ops.sent[k])
  {
    RunKeeps(x, run);
    var w := After(x, run);
    hide After, Played, Standing, Truthful, Returned;
    var s := w.sessions[j];
    assert FiledEvent(n, w.log[n], w.sessions) && FiledSession(j, s, w.log) && HeardFrom(w.clients, j, s, w.log);
    assert HeardAt(w.clients[i], j, s, w.log, k);
    m := s.runs[k];
  }

  /** Two sessions never both perform for one client. */
  lemma OneSession(x: Export, run: seq<Action>, n: nat, m: nat)
    requires var w := After(x, run);
             && n < |w.log| && w.log[n].Event? && w.log[n].session < |w.sessions|
             && m < |w.log| && w.log[m].Event? && w.log[m].session < |w.sessions|
             && w.sessions[w.log[n].session].offer.Own?
             && w.sessions[w.log[n].session].offer == w.sessions[w.log[m].session].offer
    ensures After(x, run).log[n].session == After(x, run).log[m].session
  {
    var w := After(x, run);
    var i := w.sessions[w.log[n].session].offer.id;
    hide After;
    PerformedIsSent(x, run, n, w.log[n].session, i);
    PerformedIsSent(x, run, m, w.log[m].session, i);
  }

  /** What operation k returned is the export's answer to that very request, performed once, on the fid table the
      requests before it left, as the user the session was opened as; whatever became of the operations before it. */
  lemma ReturnedIsAnswer(x: Export, run: seq<Action>, i: nat, k: nat)
    requires i < |After(x, run).clients| && k in After(x, run).clients[i].ops.got
    ensures var w := After(x, run);
            var c := w.clients[i];
            && 1 <= k <= |c.ops.sent| && c.session.Some? && c.session.value < |w.sessions| && |c.ops.got[k]| >= 8
            && exists n :: 0 <= n < |w.log|
                 && w.log[n] == Event(c.session.value, k, w.sessions[c.session.value].name, c.ops.sent[k - 1])
                 && AnswerAt(x, w.log, w.tables, n, c.ops.got[k])
  {
    RunKeeps(x, run);
    var w := After(x, run);
    hide After, AnswerAt, Played, Standing, Truthful;
    var c := w.clients[i];
    assert ReturnedTo(x, i, c, w.sessions, w.log, w.tables);
    assert ReturnedAt(x, i, c, w.sessions, w.log, w.tables, k);
    var j := c.session.value;
    assert FiledSession(j, w.sessions[j], w.log) && HeardFrom(w.clients, j, w.sessions[j], w.log);
    assert HeardAt(c, j, w.sessions[j], w.log, k - 1);
    assert w.log[w.sessions[j].runs[k - 1]] == Event(j, k, w.sessions[j].name, c.ops.sent[k - 1]);
  }

  /** So the caller has the status and the data the export answered, while the status is one a frame can hold. */
  lemma ReturnedDecodes(x: Export, run: seq<Action>, i: nat, k: nat) returns (n: nat)
    requires i < |After(x, run).clients| && k in After(x, run).clients[i].ops.got
    ensures var w := After(x, run);
            var c := w.clients[i];
            && 1 <= k <= |c.ops.sent| && c.session.Some? && |c.ops.got[k]| >= 8
            && n < |w.log| && n < |w.tables| && w.log[n].Event? && w.log[n].session == c.session.value
            && w.log[n].num == k && w.log[n].msg == c.ops.sent[k - 1]
            && var a := Perform(x, w.tables[n], w.log[n].msg, w.log[n].name);
               a.Some? && a.value.Answer? &&
               (a.value.status < 0x1_0000_0000_0000_0000 ==> Decoded(c.ops.got[k]) == (a.value.status, a.value.data))
  {
    ReturnedIsAnswer(x, run, i, k);
    var w := After(x, run);
    hide After, Perform, Inner, Decoded;
    var c := w.clients[i];
    n :| 0 <= n < |w.log|
         && w.log[n] == Event(c.session.value, k, w.sessions[c.session.value].name, c.ops.sent[k - 1])
         && AnswerAt(x, w.log, w.tables, n, c.ops.got[k]);
    var a := Perform(x, w.tables[n], w.log[n].msg, w.log[n].name).value;
    if a.status < 0x1_0000_0000_0000_0000 { InnerBack(a.status, a.data); }
  }

  /** The export is down exactly when the last request it performed was on another user's fid; no other ever was. */
  lemma DownIff(x: Export, run: seq<Action>, n: nat)
    requires n < |After(x, run).log|
    ensures var w := After(x, run);
            && |w.tables| == |w.log| + 1
            && ((!w.up && n == |w.log| - 1) <==>
                (w.log[n].Event? ==> !IsSession(w.log[n].msg)) && NotYours(w.tables[n], w.log[n].msg, w.log[n].name))
  {
    RunKeeps(x, run);
    var w := After(x, run);
    hide After, ServeNp, NotYours, Truthful, Returned, Heard, Filed;
    RaisesIff(x, w.tables[n], w.log[n].msg, w.log[n].name);
  }

  // Which action opened a session.

  ghost predicate SameOpening(s: Session, t: Session) { t.offer == s.offer && t.nonce == s.nonce && t.name == s.name }

  /** Action m of the run is the one that makes session j. */
  ghost predicate Opens(x: Export, run: seq<Action>, m: nat, j: nat) {
    m < |run| && |After(x, run[..m]).sessions| == j && |After(x, run[..m + 1]).sessions| == j + 1
  }

  lemma StepSessions(x: Export, w: World, a: Action)
    requires w.tables != []
    ensures var v := Step(x, w, a);
            && |w.sessions| <= |v.sessions| <= |w.sessions| + 1
            && (forall j :: 0 <= j < |w.sessions| ==> SameOpening(w.sessions[j], v.sessions[j]))
            && (|v.sessions| > |w.sessions| ==>
                  a.Open? && v.sessions[|w.sessions|] == Session(a.offer, a.nonce, a.name, [], true))
  {
    hide ServeKeyed, Accepts, Next, Raises, Hears, Available;
  }

  /** A session opened stays as it was opened. */
  lemma {:induction false} OpeningStays(x: Export, run: seq<Action>, m: nat)
    requires m <= |run|
    ensures var was, now := After(x, run[..m]).sessions, After(x, run).sessions;
            |was| <= |now| && forall j :: 0 <= j < |was| ==> SameOpening(was[j], now[j])
    decreases |run|
  {
    if m == |run| {
      assert run[..m] == run;
    } else {
      var front := run[..|run| - 1];
      assert front[..m] == run[..m];
      OpeningStays(x, front, m);
      StepSessions(x, After(x, front), run[|run| - 1]);
      assert After(x, run) == Step(x, After(x, front), run[|run| - 1]);
      hide After, Step;
    }
  }

  /** What opened a session is what the session is. */
  lemma OpensIs(x: Export, run: seq<Action>, m: nat, j: nat)
    requires Opens(x, run, m, j)
    ensures j < |After(x, run).sessions|
    ensures var s := After(x, run).sessions[j];
            run[m] == Open(s.offer, s.nonce, s.name)
  {
    var was, upto := run[..m], run[..m + 1];
    assert upto == was + [run[m]];
    Then(x, was, run[m]);
    hide After, Step;
    StepSessions(x, After(x, was), run[m]);
    OpeningStays(x, run, m + 1);
    assert SameOpening(After(x, upto).sessions[j], After(x, run).sessions[j]);
  }

  lemma OpensOnce(x: Export, run: seq<Action>, m: nat, l: nat, j: nat)
    requires Opens(x, run, m, j) && m < l <= |run|
    ensures |After(x, run[..l]).sessions| > j
  {
    hide After;
    assert run[..l][..m + 1] == run[..m + 1];
    OpeningStays(x, run[..l], m + 1);
  }

  lemma {:induction false} SessionOpened(x: Export, run: seq<Action>, j: nat) returns (m: nat)
    requires j < |After(x, run).sessions|
    ensures Opens(x, run, m, j)
    decreases |run|
  {
    hide *;
    NoneOpen(x, run);
    var front, a := run[..|run| - 1], run[|run| - 1];
    assert run == front + [a];
    Then(x, front, a);
    StepSessions(x, After(x, front), a);
    if j < |After(x, front).sessions| {
      m := SessionOpened(x, front, j);
      OpensStill(x, front, a, m, j);
    } else {
      m := |front|;
      OpensLast(x, front, a);
    }
  }

  lemma OpensStill(x: Export, front: seq<Action>, a: Action, m: nat, j: nat)
    requires Opens(x, front, m, j)
    ensures Opens(x, front + [a], m, j)
  {
    hide After;
    var run := front + [a];
    assert front[..m] == run[..m] && front[..m + 1] == run[..m + 1];
  }

  lemma OpensLast(x: Export, front: seq<Action>, a: Action)
    requires |After(x, front + [a]).sessions| == |After(x, front).sessions| + 1
    ensures Opens(x, front + [a], |front|, |After(x, front).sessions|)
  {
    hide After;
    var run := front + [a];
    assert run[..|front|] == front && run[..|front| + 1] == run;
  }

  lemma NoneOpen(x: Export, run: seq<Action>)
    ensures run == [] ==> After(x, run).sessions == []
  {}

  /** The user performed for is the one the client claims if and only if the one action that opened its session
      is an opening frame of that client: its key, its nonce, its name. */
  lemma PerformedAs(x: Export, run: seq<Action>, n: nat, j: nat, i: nat) returns (m: nat)
    requires For(After(x, run), n, j, i)
    ensures Opens(x, run, m, j) && forall l: nat :: Opens(x, run, l, j) ==> l == m
    ensures var w := After(x, run);
            && i < |w.clients|
            && (w.log[n].name == w.clients[i].name <==> run[m] == Open(Own(i), w.clients[i].nonce, w.clients[i].name))
  {
    PerformedIsSent(x, run, n, j, i);
    hide After;
    m := SessionOpened(x, run, j);
    forall l: nat | Opens(x, run, l, j) ensures l == m {
      if l < m { OpensOnce(x, run, l, m, j); }
      if m < l { OpensOnce(x, run, m, l, j); }
    }
    OpensIs(x, run, m, j);
  }

  /** Client i and the session it adopted, with nothing under way. */
  ghost predicate Level(w: World, i: nat, j: nat) {
    && w.up && j < |w.sessions| && Ready(w, i)
    && var c, s := w.clients[i], w.sessions[j];
       c.session == Some(j) && s.offer == Own(i) && s.nonce == c.nonce && s.open && |s.runs| == |c.ops.sent|
  }

  /** And an undisturbed exchange does return: the request goes, is performed, and its answer is taken. */
  lemma Exchange(x: Export, w: World, i: nat, j: nat, msg: Text)
    requires w.tables != [] && Level(w, i, j)
    requires var a := Perform(x, Last(w), msg, w.sessions[j].name);
             a.Some? && a.value.Answer? && TAG_LEN + |Inner(a.value.status, a.value.data)| <= MAX_DECLARED_REPLY
    ensures var a := Perform(x, Last(w), msg, w.sessions[j].name).value;
            var c := w.clients[i];
            var w1 := Step(x, w, Send(i, msg));
            var w2 := Step(x, w1, ToExport(j, RequestFrame(ClientKey(i, c, true), c.ops, msg)));
            var w3 := Step(x, w2, ToClient(i, Answered(ClientKey(i, c, false), |c.ops.sent| + 1, a)));
            && Level(w3, i, j) && w3.clients[i].ops.sent == c.ops.sent + [msg]
            && w3.clients[i].ops.got == c.ops.got[|c.ops.sent| + 1 := Inner(a.status, a.data)] && Last(w3) == a.fids
  {
    hide ServeNp, Perform;
    var a := Perform(x, Last(w), msg, w.sessions[j].name).value;
    assert |ToLE(a.status, 8)| == 8;
  }

  /** Nor does a dropped reply end the session: the operation gives up, the ends are level again, and the next exchange
      is as good as the first, under the next number. */
  lemma GoesOn(x: Export, w: World, i: nat, j: nat, msg: Text)
    requires w.tables != [] && Level(w, i, j)
    requires var a := Perform(x, Last(w), msg, w.sessions[j].name);
             a.Some? && a.value.Answer?
    ensures var c := w.clients[i];
            var w1 := Step(x, w, Send(i, msg));
            var w2 := Step(x, w1, ToExport(j, RequestFrame(ClientKey(i, c, true), c.ops, msg)));
            var w3 := Step(x, w2, GiveUp(i));
            && Level(w3, i, j) && w3.clients[i].ops.sent == c.ops.sent + [msg] && w3.clients[i].ops.got == c.ops.got
            && Last(w3) == Perform(x, Last(w), msg, w.sessions[j].name).value.fids
  {
    hide ServeNp, Perform;
  }

  lemma Then(x: Export, run: seq<Action>, a: Action)
    ensures After(x, run + [a]) == Step(x, After(x, run), a)
  {
    assert (run + [a])[..|run|] == run;
  }

  /** One client that has adopted one session, opened by a frame over its nonce and its key. */
  function Adopted(mine: Text, theirs: Text, nonce: nat): World {
    World([Client(mine, nonce, Some(0), IDLE)], [Session(Own(0), nonce, theirs, [], true)], [], [map[]], {}, true)
  }

  lemma AdoptedSteps(x: Export, mine: Text, theirs: Text, nonce: nat)
    ensures var w := Adopted(mine, theirs, nonce);
            var w1 := w.(clients := [Client(mine, nonce, None, IDLE)], sessions := []);
            && Step(x, START, Begin(mine, nonce)) == w1
            && Step(x, w1, Open(Own(0), nonce, theirs)) == w1.(sessions := w.sessions)
            && Step(x, w1.(sessions := w.sessions), Adopt(0, 0)) == w
  {
    hide Serves, Log, Sends, Receives;
    var c, s := Client(mine, nonce, None, IDLE), Session(Own(0), nonce, theirs, [], true);
    assert [] + [c] == [c] && [] + [s] == [s] && [c][0 := c.(session := Some(0))] == [c.(session := Some(0))];
  }

  lemma AdoptedRun(x: Export, mine: Text, theirs: Text, nonce: nat) returns (run: seq<Action>)
    ensures After(x, run) == Adopted(mine, theirs, nonce)
  {
    var r0: seq<Action> := [];
    assert After(x, r0) == START;
    AdoptedSteps(x, mine, theirs, nonce);
    hide After, Step, Adopted;
    Then(x, r0, Begin(mine, nonce));
    var r1 := r0 + [Begin(mine, nonce)];
    Then(x, r1, Open(Own(0), nonce, theirs));
    var r2 := r1 + [Open(Own(0), nonce, theirs)];
    Then(x, r2, Adopt(0, 0));
    run := r2 + [Adopt(0, 0)];
  }

  lemma FirstRequest(x: Export, mine: Text, theirs: Text, nonce: nat, msg: Text)
    ensures var w := Adopted(mine, theirs, nonce);
            var f := RequestFrame(ClientKey(0, w.clients[0], true), IDLE, msg);
            var v := Step(x, Step(x, w, Send(0, msg)), ToExport(0, f));
            |v.clients| == 1 && v.clients[0].name == mine && For(v, 0, 0, 0) && v.log[0].name == theirs
  {
    hide ServeNp, Perform, Next, Raises;
  }

  /** A run in which they differ: the session the client adopts was opened, over its nonce and
      its key, by another frame. */
  lemma OpenedByAnother(x: Export, mine: Text, theirs: Text, nonce: nat, msg: Text) returns (run: seq<Action>)
    requires mine != theirs
    ensures var w := After(x, run);
            |w.clients| == 1 && w.clients[0].name == mine && For(w, 0, 0, 0) && w.log[0].name == theirs
  {
    var r := AdoptedRun(x, mine, theirs, nonce);
    var f := RequestFrame(ClientKey(0, Adopted(mine, theirs, nonce).clients[0], true), IDLE, msg);
    FirstRequest(x, mine, theirs, nonce, msg);
    hide After, Step, For;
    Then(x, r, Send(0, msg));
    Then(x, r + [Send(0, msg)], ToExport(0, f));
    run := r + [Send(0, msg)] + [ToExport(0, f)];
  }
}
