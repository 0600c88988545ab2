/** The router: the server and an outbox for every client it has messages for (src/signaling/router.rs). */
module Router {
  import opened Bytes
  import opened SignalTypes
  import opened Presence
  import opened Rooms
  import opened ServerEngine
  import opened ServerCode

  type Boxes = map<ClientId, seq<Msg>>

  /** What waits for a client; no box is an empty one. */
  function Queue(b: Boxes, c: ClientId): seq<Msg> {
    if c in b then b[c] else []
  }

  function Put(b: Boxes, o: Out): Boxes {
    b[o.target := Queue(b, o.target) + [o.msg]]
  }

  function PutAll(b: Boxes, out: seq<Out>): Boxes {
    if out == [] then b else Put(PutAll(b, out[..|out| - 1]), out[|out| - 1])
  }

  lemma {:induction false} PutAllQueue(b: Boxes, out: seq<Out>, c: ClientId)
    ensures Queue(PutAll(b, out), c) == Queue(b, c) + To(out, c)
    ensures c !in b && To(out, c) == [] ==> c !in PutAll(b, out)
  {
    if out == [] {
      assert Queue(b, c) + [] == Queue(b, c);
    } else {
      PutAllQueue(b, out[..|out| - 1], c);
    }
  }

  // ---------- Calls and what they do ----------

  /** The server's state and the boxes. */
  datatype Hub = Hub(engine: Engine, boxes: Boxes)

  const IDLE := Hub(FIRST, map[])

  /**
   A call of the router. Where the server walks hash maps, the call carries what came out: the list of messages
   it returned and, for a client that goes, the report of the sessions it left.
   */
  datatype Op =
    | Register(client: ClientId)
    | Handle(from: ClientId, msg: Msg, world: World, out: seq<Out>)
    | Unregister(client: ClientId, left: seq<Left>, out: seq<Out>)
    | Take(client: ClientId)
    | DrainAll

  /** What c is told when client leaves: notices and the update, if the client was logged in. */
  function Parting(e: Engine, left: seq<Left>, client: ClientId, c: ClientId): seq<Msg> {
    if client in e.online.userOf then
      LeftNotices(left, e.online.userOf[client], c) + Broadcast(LogOut(e.online, client), c)
    else []
  }

  /** What the server says to c in a call. */
  function Told(e: Engine, op: Op, c: ClientId): seq<Msg> {
    if op.Handle? then Reply(e, op.from, op.msg, op.world, c)
    else if op.Unregister? then Parting(e, op.left, op.client, c)
    else []
  }

  /** The list and the report that the call carries are ones the server can have returned. */
  ghost predicate Possible(e: Engine, op: Op) {
    && (op.Handle? || op.Unregister? ==> forall c :: To(op.out, c) == Told(e, op, c))
    && (op.Unregister? ==> Reported(op.left, e.rooms, op.client, RoomsOf(e.rooms, op.client)))
  }

  function Apply(h: Hub, op: Op): Hub {
    match op
    case Register(c) => if c in h.boxes then h else h.(boxes := h.boxes[c := []])
    case Handle(from, msg, w, out) => Hub(Next(h.engine, Received(from, msg, w)), PutAll(h.boxes, out))
    case Unregister(c, _, out) => Hub(Next(h.engine, Disconnected(c)), PutAll(h.boxes - {c}, out))
    case Take(c) => h.(boxes := h.boxes - {c})
    case DrainAll => h.(boxes := map[])
  }

  class Router {
    const server: Server
    var outboxes: Boxes

    function View(): Hub
      reads this, server, server.presence, server.sessions
    {
      Hub(server.State(), outboxes)
    }

    constructor ()
      ensures View() == IDLE
      ensures fresh(server) && fresh(server.presence) && fresh(server.sessions)
    {
      server := new Server();
      outboxes := map[];
    }

    method RegisterClient(c: ClientId)
      modifies this
      ensures View() == Apply(old(View()), Op.Register(c))
    {
      if c !in outboxes {
        outboxes := outboxes[c := []];
      }
    }

    method EnqueueAll(out: seq<Out>)
      modifies this
      ensures outboxes == PutAll(old(outboxes), out)
    {
      for i := 0 to |out|
        invariant outboxes == PutAll(old(outboxes), out[..i])
      {
        assert out[..i + 1][..i] == out[..i];
        var o := out[i];
        outboxes := outboxes[o.target := (if o.target in outboxes then outboxes[o.target] else []) + [o.msg]];
      }
      assert out[..|out|] == out;
    }

    /** Hands the message to the server and queues what it says, client by client. */
    method HandleFromClient(from: ClientId, msg: Msg, w: World) returns (ghost op: Op)
      requires Inv(server.State())
      modifies this, server, server.presence, server.sessions
      ensures op.Handle? && op.from == from && op.msg == msg && op.world == w
      ensures Possible(old(server.State()), op) && View() == Apply(old(View()), op)
    {
      var out := server.Handle(from, msg, w);
      op := Handle(from, msg, w, out);
      EnqueueAll(out);
    }

    /** Drops the client's box, lets the server clean up, and queues the notices and the update. */
    method UnregisterClient(client: ClientId) returns (ghost op: Op)
      modifies this, server.presence, server.sessions
      ensures op.Unregister? && op.client == client
      ensures Possible(old(server.State()), op) && View() == Apply(old(View()), op)
    {
      ghost var e := server.State();
      outboxes := outboxes - {client};
      var out;
      ghost var left;
      out, left := server.HandleDisconnect(client);
      op := Unregister(client, left, out);
      forall c ensures To(out, c) == Told(e, op, c) {
      }
      EnqueueAll(out);
    }

    method TakeOutgoingFor(c: ClientId) returns (msgs: seq<Msg>)
      modifies this
      ensures msgs == Queue(old(outboxes), c) && View() == Apply(old(View()), Take(c))
    {
      msgs := if c in outboxes then outboxes[c] else [];
      outboxes := outboxes - {c};
    }

    /** Empties every box; the messages of each client stay in order. */
    method DrainAllOutgoing() returns (result: seq<Out>)
      modifies this
      ensures View() == Apply(old(View()), DrainAll)
      ensures forall c :: To(result, c) == Queue(old(outboxes), c)
    {
      result := [];
      ghost var all, done: set<ClientId> := outboxes, {};
      while outboxes.Keys != {}
        invariant outboxes == all - done && Emptied(result, all, done)
      {
        var c :| c in outboxes.Keys;
        var more := Addressed(c, outboxes[c]);
        EmptiedMore(result, more, all, done, c);
        result := result + more;
        outboxes := outboxes - {c};
        done := done + {c};
      }
      forall c ensures To(result, c) == Queue(all, c) {
        assert c in done || c !in all;
      }
    }
  }

  /** The result holds exactly the boxes of the given clients. */
  ghost predicate Emptied(result: seq<Out>, all: Boxes, done: set<ClientId>) {
    forall c :: To(result, c) == if c in done then Queue(all, c) else []
  }

  lemma EmptiedMore(result: seq<Out>, more: seq<Out>, all: Boxes, done: set<ClientId>, c: ClientId)
    requires Emptied(result, all, done) && c in all && c !in done
    requires forall d :: To(more, d) == if d == c then all[c] else []
    ensures Emptied(result + more, all, done + {c})
  {
    forall d ensures To(result + more, d) == if d in done + {c} then Queue(all, d) else [] {
      ToConcat(result, more, d);
      Regroup(To(result, d), To(more, d), []);
      assert d == c ==> To(result, d) == [];
    }
  }

  /** Messages as addressed to one client. */
  method Addressed(c: ClientId, msgs: seq<Msg>) returns (out: seq<Out>)
    ensures forall d :: To(out, d) == if d == c then msgs else []
  {
    out := [];
    for i := 0 to |msgs|
      invariant forall d :: To(out, d) == if d == c then msgs[..i] else []
    {
      assert msgs[..i + 1] == msgs[..i] + [msgs[i]];
      out := Joined(out, Single(c, msgs[i]));
    }
    assert msgs[..|msgs|] == msgs;
  }

  lemma PartingSelf(e: Engine, left: seq<Left>, client: ClientId)
    requires Reported(left, e.rooms, client, RoomsOf(e.rooms, client))
    ensures Parting(e, left, client, client) == []
  {
    if client in e.online.userOf {
      NoticesToSelf(left, e.online.userOf[client], client);
    }
  }

  // ---------- Runs ----------

  function HubAfter(ops: seq<Op>): Hub {
    if ops == [] then IDLE else Apply(HubAfter(ops[..|ops| - 1]), ops[|ops| - 1])
  }

  /** What the server gets to see of a run. */
  function Events(ops: seq<Op>): seq<Event> {
    if ops == [] then []
    else
      var n := |ops| - 1;
      Events(ops[..n]) +
      if ops[n].Handle? then [Received(ops[n].from, ops[n].msg, ops[n].world)]
      else if ops[n].Unregister? then [Disconnected(ops[n].client)]
      else []
  }

  /** The server's state after the calls; it depends on the events alone. */
  function EngineAfter(ops: seq<Op>): Engine {
    After(Events(ops))
  }

  ghost predicate LegalRun(ops: seq<Op>) {
    forall k :: 0 <= k < |ops| ==> Possible(EngineAfter(ops[..k]), ops[k])
  }

  lemma LegalBefore(ops: seq<Op>, n: nat)
    requires LegalRun(ops) && n + 1 == |ops|
    ensures LegalRun(ops[..n]) && Possible(EngineAfter(ops[..n]), ops[n])
  {
    forall k | 0 <= k < n ensures Possible(EngineAfter(ops[..n][..k]), ops[..n][k]) {
      assert ops[..n][..k] == ops[..k];
    }
  }

  lemma AfterSnoc(events: seq<Event>, ev: Event)
    ensures After(events + [ev]) == Next(After(events), ev)
  {
    assert (events + [ev])[..|events|] == events;
  }

  lemma {:induction false} HubEngine(ops: seq<Op>)
    ensures HubAfter(ops).engine == EngineAfter(ops)
  {
    if ops != [] {
      var n := |ops| - 1;
      HubEngine(ops[..n]);
      match ops[n]
      case Handle(from, msg, w, _) => AfterSnoc(Events(ops[..n]), Received(from, msg, w));
      case Unregister(c, _, _) => AfterSnoc(Events(ops[..n]), Disconnected(c));
      case _ => assert Events(ops[..n]) + [] == Events(ops[..n]);
    }
  }

  /** Everything that the server addressed to c since c was last unregistered. */
  function AddressedTo(ops: seq<Op>, c: ClientId): seq<Msg> {
    if ops == [] then []
    else
      var n := |ops| - 1;
      (if ops[n].Unregister? && ops[n].client == c then [] else AddressedTo(ops[..n], c)) +
      Told(EngineAfter(ops[..n]), ops[n], c)
  }

  /** Everything handed out for c since c was last unregistered. */
  function HandedOut(ops: seq<Op>, c: ClientId): seq<Msg> {
    if ops == [] then []
    else
      var n := |ops| - 1;
      var before := HandedOut(ops[..n], c);
      match ops[n]
      case Unregister(d, _, _) => if d == c then [] else before
      case Take(d) => if d == c then before + Queue(HubAfter(ops[..n]).boxes, c) else before
      case DrainAll => before + Queue(HubAfter(ops[..n]).boxes, c)
      case _ => before
  }

  /** A call's effect on one queue. */
  lemma QueueStep(h: Hub, op: Op, c: ClientId)
    requires Possible(h.engine, op)
    ensures Queue(Apply(h, op).boxes, c) ==
      if op.Handle? || (op.Unregister? && op.client != c) then Queue(h.boxes, c) + Told(h.engine, op, c)
      else if op.DrainAll? || (op.Take? && op.client == c) || op.Unregister? then []
      else Queue(h.boxes, c)
    ensures op.Unregister? ==> Told(h.engine, op, op.client) == [] && op.client !in Apply(h, op).boxes
  {
    if op.Handle? {
      PutAllQueue(h.boxes, op.out, c);
    } else if op.Unregister? {
      PutAllQueue(h.boxes - {op.client}, op.out, c);
      PutAllQueue(h.boxes - {op.client}, op.out, op.client);
      PartingSelf(h.engine, op.left, op.client);
    }
  }

  /**
   In every run, what has been handed out for a client, followed by what still waits for it, is exactly what
   the server addressed to it since it was last unregistered, in order.
   */
  lemma {:induction false} MailConserved(ops: seq<Op>, c: ClientId)
    requires LegalRun(ops)
    ensures HandedOut(ops, c) + Queue(HubAfter(ops).boxes, c) == AddressedTo(ops, c)
  {
    if ops != [] {
      var n := |ops| - 1;
      LegalBefore(ops, n);
      MailConserved(ops[..n], c);
      HubEngine(ops[..n]);
      var h := HubAfter(ops[..n]);
      QueueStep(h, ops[n], c);
      Regroup(HandedOut(ops[..n], c), Queue(h.boxes, c), Told(h.engine, ops[n], c));
    }
  }

  lemma Regroup(a: seq<Msg>, b: seq<Msg>, c: seq<Msg>)
    ensures a + (b + c) == a + b + c && a + b + [] == a + b && [] + [] + c == c
    ensures a + [] == a && [] + b == b
  {
  }

  // ---------- A client goes ----------

  /** The client is in no session, under no presence key, and has no box. */
  predicate Gone(h: Hub, client: ClientId) {
    client !in h.boxes && client !in h.engine.online.userOf && RoomsOf(h.engine.rooms, client) == {}
  }

  /** How many notices that the user left the session wait for c. */
  function Notices(h: Hub, c: ClientId, id: string, user: string): nat {
    multiset(Queue(h.boxes, c))[PeerLeft(id, user)]
  }

  lemma PartingCount(e: Engine, left: seq<Left>, client: ClientId, c: ClientId, id: string)
    requires client in e.online.userOf && c != client && Reported(left, e.rooms, client, RoomsOf(e.rooms, client))
    ensures multiset(Parting(e, left, client, c))[PeerLeft(id, e.online.userOf[client])] ==
      if id in RoomsOf(e.rooms, client) && id in RoomsOf(e.rooms, c) then 1 else 0
  {
    var user := e.online.userOf[client];
    OneNoticeEach(left, e.rooms, client, user, c, id);
    assert multiset(Broadcast(LogOut(e.online, client), c))[PeerLeft(id, user)] == 0;
  }

  lemma NoNameLeft(p: Online, client: ClientId)
    requires Inverse(p)
    ensures forall u <- LogOut(p, client).clientOf :: LogOut(p, client).clientOf[u] != client
  {
    forall u | u in LogOut(p, client).clientOf ensures p.clientOf[u] != client {
      assert !Stale(p, u);
    }
  }

  /**
   At any point of any run, unregistering a client that is logged in leaves it in no session, under no
   presence key and without a box (and no name resolves to it, if nobody logged in twice); every other queue
   keeps what it held and gains one notice for each session that its client shared with the one that left, and
   no other such notice.
   */
  lemma UnregisterTells(ops: seq<Op>, client: ClientId, left: seq<Left>, out: seq<Out>, c: ClientId, id: string)
    requires LegalRun(ops) && Possible(EngineAfter(ops), Unregister(client, left, out)) && CounterHolds(Events(ops))
    ensures var h, h' := HubAfter(ops), HubAfter(ops + [Unregister(client, left, out)]);
      && Gone(h', client)
      && (NoRelogin(Events(ops)) ==> forall u <- h'.engine.online.clientOf :: h'.engine.online.clientOf[u] != client)
      && (client !in h.engine.online.userOf && c != client ==> Queue(h'.boxes, c) == Queue(h.boxes, c))
      && (client in h.engine.online.userOf && c != client ==>
            && Queue(h.boxes, c) <= Queue(h'.boxes, c)
            && var user := h.engine.online.userOf[client];
               Notices(h', c, id, user) == Notices(h, c, id, user) +
                 if id in RoomsOf(h.engine.rooms, client) && id in RoomsOf(h.engine.rooms, c) then 1 else 0)
  {
    var op := Unregister(client, left, out);
    var h := HubAfter(ops);
    assert (ops + [op])[..|ops|] == ops;
    HubEngine(ops);
    RunKeeps(Events(ops));
    InverseIff(Events(ops));
    if NoRelogin(Events(ops)) {
      NoNameLeft(h.engine.online, client);
    }
    QueueStep(h, op, c);
    LeaveKeeps(h.engine.rooms, client);
    if client in h.engine.online.userOf && c != client {
      PartingCount(h.engine, left, client, c, id);
    }
  }

  // ---------- Who has mail ----------

  /** While no name is stale, the server writes only to the sender and to clients that are logged in. */
  lemma OnlyToOnline(e: Engine, from: ClientId, msg: Msg, w: World, c: ClientId)
    requires Inv(e) && Inverse(e.online)
    requires Reply(e, from, msg, w, c) != []
    ensures c == from || c in e.online.userOf
  {
    if msg.Join? {
      JoinToOnline(e, from, msg.sessionCode, c);
    } else if Signal(msg) {
      SignalToOnline(e, from, msg, c);
    }
  }

  lemma JoinToOnline(e: Engine, from: ClientId, code: string, c: ClientId)
    requires MembersOnline(e) && JoinReply(e, from, code, c) != []
    ensures c == from || c in e.online.userOf
  {
    if from in e.online.userOf {
      EnterMembers(e.rooms, code, from, e.online.userOf.Keys);
    }
  }

  lemma SignalToOnline(e: Engine, from: ClientId, msg: Msg, c: ClientId)
    requires Signal(msg) && Inverse(e.online) && SignalReply(e, from, msg, c) != []
    ensures c in e.online.userOf
  {
    assert msg.to in e.online.clientOf ==> !Stale(e.online, msg.to);
  }

  lemma {:induction false} NoticesToOnline(left: seq<Left>, user: string, t: Table, all: set<ClientId>, c: ClientId)
    requires MembersIn(t, all)
    requires forall i :: 0 <= i < |left| ==> left[i].id in t.byId && left[i].remaining <= t.byId[left[i].id].members
    requires LeftNotices(left, user, c) != []
    ensures c in all
  {
    var n := |left| - 1;
    if c !in left[n].remaining {
      NoticesToOnline(left[..n], user, t, all, c);
    }
  }

  lemma PartingToOnline(e: Engine, left: seq<Left>, client: ClientId, c: ClientId)
    requires MembersOnline(e) && Reported(left, e.rooms, client, RoomsOf(e.rooms, client))
    requires Parting(e, left, client, c) != []
    ensures c in e.online.userOf
  {
    var user := e.online.userOf[client];
    if LeftNotices(left, user, c) != [] {
      NoticesToOnline(left, user, e.rooms, e.online.userOf.Keys, c);
    }
  }

  /** Whether c has sent a message since it was last unregistered. */
  predicate Active(ops: seq<Op>, c: ClientId) {
    ops != [] &&
    var last, before := ops[|ops| - 1], Active(ops[..|ops| - 1], c);
    if last.Unregister? && last.client == c then false else before || (last.Handle? && last.from == c)
  }

  /** No event brings anyone online but the one who sent it. */
  lemma OnlyOwnLogin(e: Engine, ev: Event, c: ClientId)
    requires c in Next(e, ev).online.userOf
    ensures c in e.online.userOf || (ev.Received? && ev.from == c)
    ensures ev.Disconnected? ==> ev.client != c
  {
  }

  /**
   The call passes a signal on under a name that resolves to c. If c is not logged in, the name is stale: it was
   left behind when c logged in under another.
   */
  predicate Strays(e: Engine, op: Op, c: ClientId) {
    && op.Handle? && Signal(op.msg) && op.from in e.online.userOf
    && op.msg.to in e.online.clientOf && e.online.clientOf[op.msg.to] == c
  }

  /** To a client that is not logged in and did not write, the server answers nothing but a signal gone astray. */
  lemma ReplyToAbsentIff(e: Engine, op: Op, c: ClientId)
    requires Inv(e) && op.Handle? && c != op.from && c !in e.online.userOf
    ensures Told(e, op, c) != [] <==> Strays(e, op, c)
  {
    if op.msg.Join? && JoinReply(e, op.from, op.msg.sessionCode, c) != [] {
      JoinToOnline(e, op.from, op.msg.sessionCode, c);
    } else if Signal(op.msg) {
      SignalToAbsent(e, op.from, op.msg, c);
    }
  }

  lemma SignalToAbsent(e: Engine, from: ClientId, msg: Msg, c: ClientId)
    requires Signal(msg) && c !in e.online.userOf
    ensures SignalReply(e, from, msg, c) != [] <==>
      from in e.online.userOf && msg.to in e.online.clientOf && e.online.clientOf[msg.to] == c
  {
    assert Broadcast(OnSignal(e, from, msg).online, c) == [];
  }

  lemma ToldToAbsentIff(e: Engine, op: Op, c: ClientId)
    requires Inv(e) && Possible(e, op) && c !in e.online.userOf && !(op.Handle? && op.from == c)
    ensures Told(e, op, c) != [] <==> Strays(e, op, c)
  {
    if op.Handle? {
      ReplyToAbsentIff(e, op, c);
    } else if op.Unregister? && Told(e, op, c) != [] {
      PartingToOnline(e, op.left, op.client, c);
    }
  }

  /** Whether a signal has gone astray to c since c was last unregistered. */
  predicate Strayed(ops: seq<Op>, c: ClientId) {
    ops != [] &&
    var n := |ops| - 1;
    if ops[n].Unregister? && ops[n].client == c then false
    else Strayed(ops[..n], c) || Strays(EngineAfter(ops[..n]), ops[n], c)
  }

  lemma CounterBefore(ops: seq<Op>, n: nat)
    requires CounterHolds(Events(ops)) && n + 1 == |ops|
    ensures CounterHolds(Events(ops[..n]))
  {
    EventsBefore(ops, n);
    CounterPrefix(Events(ops), Events(ops[..n]));
  }

  lemma EventsBefore(ops: seq<Op>, n: nat)
    requires n + 1 == |ops|
    ensures Events(ops[..n]) <= Events(ops)
  {
  }

  lemma EngineStep(ops: seq<Op>, n: nat)
    requires n + 1 == |ops|
    ensures EngineAfter(ops) ==
      if ops[n].Handle? then Next(EngineAfter(ops[..n]), Received(ops[n].from, ops[n].msg, ops[n].world))
      else if ops[n].Unregister? then Next(EngineAfter(ops[..n]), Disconnected(ops[n].client))
      else EngineAfter(ops[..n])
  {
    HubEngine(ops);
    HubEngine(ops[..n]);
  }

  /** Whoever is logged in has written since it was last unregistered. */
  lemma {:induction false} OnlineIsActive(ops: seq<Op>, c: ClientId)
    requires c in EngineAfter(ops).online.userOf
    ensures Active(ops, c)
  {
    if ops != [] {
      var n := |ops| - 1;
      var e, op := EngineAfter(ops[..n]), ops[n];
      EngineStep(ops, n);
      if op.Handle? {
        OnlyOwnLogin(e, Received(op.from, op.msg, op.world), c);
      } else if op.Unregister? {
        OnlyOwnLogin(e, Disconnected(op.client), c);
      }
      if c in e.online.userOf {
        OnlineIsActive(ops[..n], c);
      }
    }
  }

  /**
   In every run, a client that has not written since it was last unregistered is not logged in, and mail is
   addressed to it exactly if a signal went astray to it since then.
   */
  lemma {:induction false} AbsentMailIff(ops: seq<Op>, c: ClientId)
    requires LegalRun(ops) && CounterHolds(Events(ops)) && !Active(ops, c)
    ensures c !in EngineAfter(ops).online.userOf
    ensures AddressedTo(ops, c) != [] <==> Strayed(ops, c)
  {
    if c in EngineAfter(ops).online.userOf {
      OnlineIsActive(ops, c);
    }
    if ops != [] {
      var n := |ops| - 1;
      LegalBefore(ops, n);
      CounterBefore(ops, n);
      if ops[n].Unregister? && ops[n].client == c {
        PartingSelf(EngineAfter(ops[..n]), ops[n].left, c);
      } else {
        AbsentMailIff(ops[..n], c);
        RunKeeps(Events(ops[..n]));
        ToldToAbsentIff(EngineAfter(ops[..n]), ops[n], c);
      }
    }
  }

  lemma NoReloginBefore(ops: seq<Op>, n: nat)
    requires NoRelogin(Events(ops)) && n + 1 == |ops|
    ensures NoRelogin(Events(ops[..n]))
  {
    EventsBefore(ops, n);
    NoReloginPrefix(Events(ops), Events(ops[..n]));
  }

  /** Where nobody logs in twice, no signal goes astray to a client that has not written since it was unregistered. */
  lemma {:induction false} NoneStrays(ops: seq<Op>, c: ClientId)
    requires NoRelogin(Events(ops)) && !Active(ops, c)
    ensures !Strayed(ops, c)
  {
    if ops != [] && !(ops[|ops| - 1].Unregister? && ops[|ops| - 1].client == c) {
      var n := |ops| - 1;
      var e := EngineAfter(ops[..n]);
      NoReloginBefore(ops, n);
      NoneStrays(ops[..n], c);
      InverseIff(Events(ops[..n]));
      if Strays(e, ops[n], c) {
        assert !Stale(e.online, ops[n].msg.to);
        OnlineIsActive(ops[..n], c);
      }
    }
  }

  /**
   So in every run in which nobody logs in twice, a client that went away is not logged in, is addressed
   nothing and has no mail waiting, until it writes again.
   */
  lemma MailNeedsActivity(ops: seq<Op>, c: ClientId)
    requires LegalRun(ops) && CounterHolds(Events(ops)) && NoRelogin(Events(ops)) && !Active(ops, c)
    ensures c !in EngineAfter(ops).online.userOf && AddressedTo(ops, c) == [] && Queue(HubAfter(ops).boxes, c) == []
  {
    AbsentMailIff(ops, c);
    NoneStrays(ops, c);
    MailConserved(ops, c);
  }

  // ---------- Mail for a client that has gone ----------

  /** A login while nobody else is online, with what the server returns for it. */
  function LoneLogin(e: Engine, c: ClientId, user: string, pw: string, w: World): Op {
    var update := PeersOnline(PeersOf(LogIn(e.online, c, user), user));
    Handle(c, Login(user, pw), w, Joined(Single(c, LoginOk(user)), Single(c, update)))
  }

  lemma LoneLoginPossible(e: Engine, c: ClientId, user: string, pw: string, w: World)
    requires w.auth.Granted? && user !in e.online.clientOf && e.online.userOf.Keys <= {c}
    ensures Possible(e, LoneLogin(e, c, user, pw, w))
  {
    var op := LoneLogin(e, c, user, pw, w);
    forall d ensures To(op.out, d) == Told(e, op, d) {
      assert Broadcast(LogIn(e.online, c, user), d) == Only(c, d, PeersOnline(PeersOf(LogIn(e.online, c, user), user)));
    }
  }

  lemma LegalSnoc(ops: seq<Op>, op: Op)
    requires LegalRun(ops) && Possible(EngineAfter(ops), op)
    ensures LegalRun(ops + [op])
  {
    forall k | 0 <= k < |ops| + 1 ensures Possible(EngineAfter((ops + [op])[..k]), (ops + [op])[k]) {
      if k < |ops| {
        assert (ops + [op])[..k] == ops[..k];
      } else {
        assert (ops + [op])[..k] == ops;
      }
    }
  }

  lemma EngineSnoc(ops: seq<Op>, op: Op)
    ensures EngineAfter(ops + [op]) ==
      if op.Handle? then Next(EngineAfter(ops), Received(op.from, op.msg, op.world))
      else if op.Unregister? then Next(EngineAfter(ops), Disconnected(op.client))
      else EngineAfter(ops)
  {
    assert (ops + [op])[..|ops|] == ops;
    EngineStep(ops + [op], |ops|);
  }

  /** The client has not written since it was last unregistered, and nothing waits for it. */
  predicate Quiet(ops: seq<Op>, c: ClientId) {
    !Active(ops, c) && Queue(HubAfter(ops).boxes, c) == []
  }

  lemma SnocStep(ops: seq<Op>, op: Op, c: ClientId)
    requires LegalRun(ops) && Possible(EngineAfter(ops), op)
    ensures LegalRun(ops + [op]) && HubAfter(ops + [op]) == Apply(HubAfter(ops), op)
    ensures Queue(HubAfter(ops + [op]).boxes, c) ==
      if op.Handle? || (op.Unregister? && op.client != c)
      then Queue(HubAfter(ops).boxes, c) + Told(EngineAfter(ops), op, c)
      else if op.DrainAll? || (op.Take? && op.client == c) || op.Unregister? then []
      else Queue(HubAfter(ops).boxes, c)
    ensures Active(ops + [op], c) <==>
      !(op.Unregister? && op.client == c) && (Active(ops, c) || (op.Handle? && op.from == c))
  {
    assert (ops + [op])[..|ops|] == ops;
    LegalSnoc(ops, op);
    HubEngine(ops);
    QueueStep(HubAfter(ops), op, c);
  }

  lemma LoginStep(ops: seq<Op>, e: Engine, c: ClientId, user: string, w: World, other: ClientId) returns (more: seq<Op>)
    requires LegalRun(ops) && EngineAfter(ops) == e && other != c
    requires w.auth.Granted? && user !in e.online.clientOf && e.online.userOf.Keys <= {c}
    ensures LegalRun(more) && EngineAfter(more) == e.(online := LogIn(e.online, c, user))
    ensures Quiet(ops, other) ==> Quiet(more, other)
  {
    var op := LoneLogin(e, c, user, "", w);
    LoneLoginPossible(e, c, user, "", w);
    SnocStep(ops, op, other);
    EngineSnoc(ops, op);
    more := ops + [op];
  }

  lemma GoesStep(ops: seq<Op>, p: Online, c: ClientId) returns (more: seq<Op>)
    requires LegalRun(ops) && EngineAfter(ops) == Engine(p, NO_ROOMS, 1) && p.userOf.Keys == {c}
    ensures LegalRun(more) && EngineAfter(more) == Engine(LogOut(p, c), NO_ROOMS, 1) && Quiet(more, c)
  {
    var e, op := Engine(p, NO_ROOMS, 1), Unregister(c, [], []);
    assert RoomsOf(e.rooms, c) == {};
    forall d ensures To(op.out, d) == Told(e, op, d) {
    }
    SnocStep(ops, op, c);
    EngineSnoc(ops, op);
    assert Leave(NO_ROOMS, c) == NO_ROOMS;
    more := ops + [op];
  }

  lemma TwoNames(c: ClientId, first: string, second: string)
    requires first != second
    ensures var p := LogIn(LogIn(NOBODY, c, first), c, second);
      p.userOf.Keys == {c} && LogOut(p, c) == Online(map[first := c], map[], {})
  {
  }

  /** The client logs in under two names and is unregistered; the first name still resolves to it. */
  lemma LeavesName(c: ClientId, first: string, second: string, w: World, other: ClientId) returns (ops: seq<Op>)
    requires first != second && w.auth.Granted? && other != c
    ensures LegalRun(ops) && Quiet(ops, c)
    ensures EngineAfter(ops) == Engine(Online(map[first := c], map[], {}), NO_ROOMS, 1)
  {
    var e1 := FIRST.(online := LogIn(NOBODY, c, first));
    var r1 := LoginStep([], FIRST, c, first, w, other);
    var r2 := LoginStep(r1, e1, c, second, w, other);
    TwoNames(c, first, second);
    ops := GoesStep(r2, LogIn(LogIn(NOBODY, c, first), c, second), c);
  }

  lemma OfferStep(ops: seq<Op>, e: Engine, c: ClientId, d: ClientId, first: string, user: string, w: World)
    returns (more: seq<Op>, offer: Msg)
    requires LegalRun(ops) && EngineAfter(ops) == e && c != d && Quiet(ops, c)
    requires e.online.clientOf == map[first := c, user := d] && e.online.userOf == map[d := user] && user != first
    ensures LegalRun(more) && !Active(more, c) && Strayed(more, c) && Queue(HubAfter(more).boxes, c) == [offer]
    ensures EngineAfter(more) == e
  {
    var op := OfferOp(c, d, first, user, w);
    offer := Stamped(op.msg, user);
    OfferPossible(e, c, d, first, user, w);
    SnocStep(ops, op, c);
    EngineSnoc(ops, op);
    more := ops + [op];
    assert more[..|ops|] == ops;
  }

  /** An offer to a name that resolves to c, with what the server returns for it. */
  function OfferOp(c: ClientId, d: ClientId, name: string, user: string, w: World): Op {
    Handle(d, Offer(0, "", name, []), w, Single(c, Offer(0, user, name, [])))
  }

  lemma OfferPossible(e: Engine, c: ClientId, d: ClientId, first: string, user: string, w: World)
    requires e.online.clientOf == map[first := c, user := d] && e.online.userOf == map[d := user] && user != first
    ensures var op := OfferOp(c, d, first, user, w);
      && Possible(e, op) && Strays(e, op, c)
      && Told(e, op, c) == [Stamped(op.msg, user)] && Next(e, Received(d, op.msg, w)) == e
  {
    var op := OfferOp(c, d, first, user, w);
    forall x ensures To(op.out, x) == Told(e, op, x) {
    }
  }

  /**
   A client that has gone can get mail without having written again: it logs in under two names and goes, and then
   anyone who logs in sends an offer to the first name.
   */
  lemma GoneGetsMail(c: ClientId, d: ClientId, first: string, second: string, user: string, w: World)
    returns (ops: seq<Op>, offer: Msg)
    requires c != d && first != second && user != first && w.auth.Granted?
    ensures LegalRun(ops) && !Active(ops, c) && c !in EngineAfter(ops).online.userOf
    ensures Strayed(ops, c) && Queue(HubAfter(ops).boxes, c) == [offer]
  {
    var r0 := LeavesName(c, first, second, w, d);
    var e0 := Engine(Online(map[first := c], map[], {}), NO_ROOMS, 1);
    var r1 := LoginStep(r0, e0, d, user, w, c);
    ops, offer := OfferStep(r1, e0.(online := LogIn(e0.online, d, user)), c, d, first, user, w);
  }
}
