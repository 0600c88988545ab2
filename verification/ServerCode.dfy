/** What the signaling server answers, and the handlers that compute it. */
module ServerCode {
  import opened Bytes
  import opened SignalTypes
  import opened Presence
  import opened Rooms
  import opened SessionCodes
  import opened ServerEngine

  // ---------- Replies, client by client ----------

  function Only(from: ClientId, c: ClientId, m: Msg): seq<Msg> {
    if c == from then [m] else []
  }

  /** The update that every logged-in client gets. */
  function Broadcast(p: Online, c: ClientId): seq<Msg> {
    if c in p.userOf then [PeersOnline(PeersOf(p, p.userOf[c]))] else []
  }

  function LoginReply(e: Engine, from: ClientId, user: string, auth: Auth, c: ClientId): seq<Msg> {
    if auth.BadCredentials? then Only(from, c, LoginErr(3))
    else if auth.AuthFails? then Only(from, c, LoginErr(4))
    else if user in e.online.clientOf then Only(from, c, LoginErr(1))
    else Only(from, c, LoginOk(user)) + Broadcast(LogIn(e.online, from, user), c)
  }

  function CreateReply(e: Engine, from: ClientId, capacity: byte, draws: seq<u32>, c: ClientId): seq<Msg> {
    if from !in e.online.userOf then Only(from, c, JoinErr(10))
    else
      var r := NewRoom(e, from, capacity, draws);
      Only(from, c, Created(r.id, r.code))
  }

  function JoinReply(e: Engine, from: ClientId, code: string, c: ClientId): seq<Msg> {
    if from !in e.online.userOf then Only(from, c, JoinErr(10))
    else
      var (t, r) := Enter(e.rooms, code, from);
      match r
      case Ok(id) =>
        if c == from then [JoinOk(id)]
        else if id in t.byId && c in t.byId[id].members then [PeerJoined(id, e.online.userOf[from])]
        else []
      case Err(NotFound) => Only(from, c, JoinErr(20))
      case Err(Full) => Only(from, c, JoinErr(21))
      case Err(Panics) => []
  }

  /** The messages are, client by client, the replies to a join. */
  ghost predicate JoinSays(out: seq<Out>, e: Engine, from: ClientId, code: string) {
    forall c :: To(out, c) == JoinReply(e, from, code, c)
  }

  lemma JoinRefused(out: seq<Out>, e: Engine, from: ClientId, code: string, error: JoinError)
    requires from in e.online.userOf && Enter(e.rooms, code, from).1 == Err(error) && !error.Panics?
    requires forall c :: To(out, c) == Only(from, c, JoinErr(if error.NotFound? then 20 else 21))
    ensures JoinSays(out, e, from, code)
  {
  }

  lemma JoinAnnounced(out: seq<Out>, e: Engine, from: ClientId, code: string, id: string)
    requires from in e.online.userOf && Enter(e.rooms, code, from).1 == Ok(id)
    requires id in Enter(e.rooms, code, from).0.byId
    requires Announces(out, from, id, e.online.userOf[from], Enter(e.rooms, code, from).0.byId[id].members)
    ensures JoinSays(out, e, from, code)
  {
  }

  /** The one who joined is told, and everyone else who is in. */
  ghost predicate Announces(out: seq<Out>, from: ClientId, id: string, user: string, members: set<ClientId>) {
    forall c :: To(out, c) == if c == from then [JoinOk(id)] else if c in members then [PeerJoined(id, user)] else []
  }

  predicate Signal(msg: Msg) {
    msg.Offer? || msg.Answer? || msg.Candidate? || msg.Ack? || msg.Bye?
  }

  /** The message as it is passed on: under the sender's own name. */
  function Stamped(msg: Msg, user: string): Msg
    requires Signal(msg)
  {
    msg.(from := user)
  }

  function SignalReply(e: Engine, from: ClientId, msg: Msg, c: ClientId): seq<Msg>
    requires Signal(msg)
  {
    if from !in e.online.userOf then []
    else
      var toC := msg.to in e.online.clientOf && e.online.clientOf[msg.to] == c;
      var passed := if toC then [Stamped(msg, e.online.userOf[from])] else [];
      passed + if msg.Answer? || msg.Bye? then Broadcast(OnSignal(e, from, msg).online, c) else []
  }

  function ListReply(e: Engine, from: ClientId, c: ClientId): seq<Msg> {
    Only(from, c, PeersOnline(if from in e.online.userOf then PeersOf(e.online, e.online.userOf[from]) else {}))
  }

  /** The messages that the server sends to c when it handles a message. */
  function Reply(e: Engine, from: ClientId, msg: Msg, w: World, c: ClientId): seq<Msg> {
    match msg
    case Login(user, _) => LoginReply(e, from, user, w.auth, c)
    case Register(user, _) =>
      Only(from, c, if w.register.Some? then RegisterErr(w.register.value) else RegisterOk(user))
    case ListPeers => ListReply(e, from, c)
    case CreateSession(capacity) => CreateReply(e, from, capacity, w.draws, c)
    case Join(code) => JoinReply(e, from, code, c)
    case Ping(nonce) => Only(from, c, Pong(nonce))
    case _ => if Signal(msg) then SignalReply(e, from, msg, c) else []
  }

  /** The notices to c that a user has left sessions, in the order of the report. */
  function LeftNotices(left: seq<Left>, user: string, c: ClientId): seq<Msg> {
    if left == [] then []
    else
      var n := |left| - 1;
      LeftNotices(left[..n], user, c) + if c in left[n].remaining then [PeerLeft(left[n].id, user)] else []
  }

  /** Every client gets its notices, and then the update if it is logged in. */
  ghost predicate Noticed(out: seq<Out>, left: seq<Left>, user: string, p: Online) {
    forall c :: To(out, c) == LeftNotices(left, user, c) + Broadcast(p, c)
  }

  /** The report names no session twice. */
  predicate DistinctIds(left: seq<Left>) {
    forall i, j :: 0 <= i < j < |left| ==> left[i].id != left[j].id
  }

  predicate Names(left: seq<Left>, id: string, c: ClientId) {
    exists i :: 0 <= i < |left| && left[i].id == id && c in left[i].remaining
  }

  lemma {:induction false} NoticeCount(left: seq<Left>, user: string, c: ClientId, id: string)
    requires DistinctIds(left)
    ensures multiset(LeftNotices(left, user, c))[PeerLeft(id, user)] == if Names(left, id, c) then 1 else 0
  {
    if left != [] {
      var n := |left| - 1;
      NoticeCount(left[..n], user, c, id);
      assert forall i :: 0 <= i < n ==> left[..n][i] == left[i];
      assert Names(left, id, c) <==> Names(left[..n], id, c) || (left[n].id == id && c in left[n].remaining);
    }
  }

  /** Someone who shared sessions with the client that left gets exactly one notice for each of them. */
  lemma OneNoticeEach(left: seq<Left>, t: Table, client: ClientId, user: string, c: ClientId, id: string)
    requires Reported(left, t, client, RoomsOf(t, client))
    ensures multiset(LeftNotices(left, user, c))[PeerLeft(id, user)] ==
      if id in RoomsOf(t, client) && id in RoomsOf(t, c) && c != client then 1 else 0
  {
    NoticeCount(left, user, c, id);
    if id in RoomsOf(t, client) {
      var i :| 0 <= i < |left| && left[i].id == id;
      assert c in left[i].remaining <==> c in t.byId[id].members && c != client;
    }
  }

  lemma {:induction false} NoticesToSelf(left: seq<Left>, user: string, c: ClientId)
    requires forall i :: 0 <= i < |left| ==> c !in left[i].remaining
    ensures LeftNotices(left, user, c) == []
  {
    if left != [] {
      NoticesToSelf(left[..|left| - 1], user, c);
    }
  }

  // ---------- Filling a session ----------

  /** The state after the clients have asked to join, one after the other. */
  function JoinAll(e: Engine, code: string, clients: seq<ClientId>, w: World): Engine {
    if clients == [] then e
    else
      var n := |clients| - 1;
      Next(JoinAll(e, code, clients[..n], w), Received(clients[n], Join(code), w))
  }

  /** Different clients, all of them logged in, and none of them the given one. */
  predicate Others(e: Engine, c: ClientId, clients: seq<ClientId>) {
    && (forall i :: 0 <= i < |clients| ==> clients[i] != c && clients[i] in e.online.userOf)
    && (forall i, j :: 0 <= i < j < |clients| ==> clients[i] != clients[j])
  }

  /** The creator and some others. */
  function Team(c: ClientId, clients: seq<ClientId>): set<ClientId> {
    if clients == [] then {c} else Team(c, clients[..|clients| - 1]) + {clients[|clients| - 1]}
  }

  lemma {:induction false} TeamIs(c: ClientId, clients: seq<ClientId>)
    ensures Team(c, clients) == {c} + set d | d in clients
  {
    if clients != [] {
      TeamIs(c, clients[..|clients| - 1]);
    }
  }

  /** How many of the first k that ask get a seat beside the creator. */
  function Seated(capacity: byte, k: nat): nat {
    if k + 1 <= capacity then k else if capacity == 0 then 0 else capacity - 1
  }

  lemma {:induction false} TeamSize(e: Engine, c: ClientId, clients: seq<ClientId>)
    requires Others(e, c, clients)
    ensures |Team(c, clients)| == |clients| + 1
  {
    if clients != [] {
      var n := |clients| - 1;
      TeamSize(e, c, clients[..n]);
      TeamIs(c, clients[..n]);
      assert clients[n] !in Team(c, clients[..n]);
    }
  }

  lemma SeatedStep(capacity: byte, n: nat)
    ensures if n + 1 < capacity then Seated(capacity, n) == n && Seated(capacity, n + 1) == n + 1
            else Seated(capacity, n + 1) == Seated(capacity, n) && Seated(capacity, n) + 1 >= capacity
    ensures Seated(capacity, n) <= n
  {
  }

  /** The session behind the code has the creator and the given clients as members. */
  predicate Holds(e: Engine, code: string, id: string, capacity: byte, members: set<ClientId>) {
    && Consistent(e.rooms) && code in e.rooms.byCode && e.rooms.byCode[code] == id && id in e.rooms.byId
    && e.rooms.byId[id].capacity == capacity && e.rooms.byId[id].members == members
  }

  lemma CreateHolds(e: Engine, c: ClientId, capacity: byte, w: World)
    requires Inv(e) && c in e.online.userOf && InRange(e, Received(c, CreateSession(capacity), w))
    ensures var r := NewRoom(e, c, capacity, w.draws);
      var e' := Next(e, Received(c, CreateSession(capacity), w));
      Holds(e', r.code, r.id, capacity, {c}) && e'.online == e.online
  {
    NextKeeps(e, Received(c, CreateSession(capacity), w));
  }

  /** What one more request does, and what the one who asks is told. */
  lemma OneJoins(e: Engine, code: string, id: string, capacity: byte, members: set<ClientId>, d: ClientId, w: World)
    requires Holds(e, code, id, capacity, members) && d in e.online.userOf
    ensures var e' := Next(e, Received(d, Join(code), w));
      && e'.online == e.online
      && Holds(e', code, id, capacity, if |members| < capacity then members + {d} else members)
      && Reply(e, d, Join(code), w, d) == [if |members| < capacity then JoinOk(id) else JoinErr(21)]
      && forall c ::
           c != d ==>
             Reply(e, d, Join(code), w, c) ==
             if |members| < capacity && c in members then [PeerJoined(id, e.online.userOf[d])] else []
  {
    EnterIff(e.rooms, code, d);
  }

  /** The k-th client that asks, in a state e, gets a seat exactly if one is left. */
  predicate Answered(e: Engine, d: ClientId, code: string, w: World, id: string, capacity: byte, k: nat) {
    Reply(e, d, Join(code), w, d) == [if k + 1 < capacity then JoinOk(id) else JoinErr(21)]
  }

  /** All are logged in, and the first k have asked. */
  predicate Filled(e: Engine, c: ClientId, code: string, id: string, capacity: byte, clients: seq<ClientId>, k: nat)
    requires k <= |clients|
  {
    Others(e, c, clients) && Holds(e, code, id, capacity, Team(c, clients[..Seated(capacity, k)]))
  }

  lemma JoinAllSnoc(e: Engine, code: string, clients: seq<ClientId>, w: World, k: nat)
    requires k < |clients|
    ensures JoinAll(e, code, clients[..k + 1], w) ==
      Next(JoinAll(e, code, clients[..k], w), Received(clients[k], Join(code), w))
  {
    assert clients[..k + 1][..k] == clients[..k];
  }

  lemma JoinStep(e: Engine, c: ClientId, code: string, id: string, capacity: byte, clients: seq<ClientId>, w: World,
                 k: nat)
    requires k < |clients| && Filled(e, c, code, id, capacity, clients, k)
    ensures Filled(Next(e, Received(clients[k], Join(code), w)), c, code, id, capacity, clients, k + 1)
    ensures Answered(e, clients[k], code, w, id, capacity, k)
  {
    var s := Seated(capacity, k);
    SeatedStep(capacity, k);
    TeamSize(e, c, clients[..s]);
    OneJoins(e, code, id, capacity, Team(c, clients[..s]), clients[k], w);
    if k + 1 < capacity {
      assert clients[..k + 1][..k] == clients[..k];
    }
  }

  lemma {:induction false} AllJoin(e: Engine, c: ClientId, code: string, id: string, capacity: byte,
                                   clients: seq<ClientId>, w: World, k: nat)
    requires Holds(e, code, id, capacity, {c}) && Others(e, c, clients) && k <= |clients|
    ensures Filled(JoinAll(e, code, clients[..k], w), c, code, id, capacity, clients, k)
  {
    if k > 0 {
      AllJoin(e, c, code, id, capacity, clients, w, k - 1);
      JoinAllSnoc(e, code, clients, w, k - 1);
      JoinStep(JoinAll(e, code, clients[..k - 1], w), c, code, id, capacity, clients, w, k - 1);
    }
  }

  /**
   From any state of the server in which they are all logged in: a client creates a session, and others ask to join
   by its code. As long as there are seats each of them gets JoinOk and is a member; from then on each gets the error
   for a full session. In the end the members are the creator and the first that asked, up to the capacity.
   */
  lemma SeatsFill(e: Engine, c: ClientId, capacity: byte, clients: seq<ClientId>, w: World, k: nat)
    requires Inv(e) && c in e.online.userOf && InRange(e, Received(c, CreateSession(capacity), w))
    requires Others(e, c, clients) && k < |clients|
    ensures var r := NewRoom(e, c, capacity, w.draws);
      var e0 := Next(e, Received(c, CreateSession(capacity), w));
      && Reply(e, c, CreateSession(capacity), w, c) == [Created(r.id, r.code)]
      && Answered(JoinAll(e0, r.code, clients[..k], w), clients[k], r.code, w, r.id, capacity, k)
      && Holds(JoinAll(e0, r.code, clients, w), r.code, r.id, capacity,
               {c} + set d | d in clients[..Seated(capacity, |clients|)])
  {
    var r := NewRoom(e, c, capacity, w.draws);
    var e0 := Next(e, Received(c, CreateSession(capacity), w));
    CreateHolds(e, c, capacity, w);
    AllJoin(e0, c, r.code, r.id, capacity, clients, w, k);
    JoinStep(JoinAll(e0, r.code, clients[..k], w), c, r.code, r.id, capacity, clients, w, k);
    AllJoin(e0, c, r.code, r.id, capacity, clients, w, |clients|);
    assert clients[..|clients|] == clients;
    TeamIs(c, clients[..Seated(capacity, |clients|)]);
  }

  // ---------- The handlers ----------

  class Server {
    const presence: PresenceTable
    const sessions: SessionTable
    var nextSessionId: u64

    function State(): Engine
      reads this, presence, sessions
    {
      Engine(presence.State(), sessions.State(), nextSessionId)
    }

    constructor ()
      ensures State() == FIRST && fresh(presence) && fresh(sessions)
    {
      presence := new PresenceTable();
      sessions := new SessionTable();
      nextSessionId := 1;
    }

    method BroadcastPeerListUpdate() returns (out: seq<Out>)
      ensures forall c :: To(out, c) == Broadcast(presence.State(), c)
    {
      out := [];
      var todo := presence.clientToUser.Keys;
      ghost var p := presence.State();
      while todo != {}
        invariant todo <= p.userOf.Keys
        invariant forall c :: To(out, c) == if c in todo then [] else Broadcast(p, c)
      {
        var client :| client in todo;
        var o := Out(client, PeersOnline(PeersOf(presence.State(), presence.clientToUser[client])));
        forall c ensures To(out + [o], c) == if c in todo - {client} then [] else Broadcast(p, c) {
          ToSnoc(out, o, c);
        }
        out := out + [o];
        todo := todo - {client};
      }
    }

    method HandleLogin(client: ClientId, user: string, auth: Auth) returns (out: seq<Out>)
      modifies presence
      ensures State() == OnLogin(old(State()), client, user, auth)
      ensures forall c :: To(out, c) == LoginReply(old(State()), client, user, auth, c)
    {
      if !auth.Granted? {
        return Single(client, LoginErr(if auth.BadCredentials? then 3 else 4));
      }
      if user in presence.userToClient {
        return Single(client, LoginErr(1));
      }
      var _ := presence.Login(client, user);
      var first := Single(client, LoginOk(user));
      var update := BroadcastPeerListUpdate();
      out := Joined(first, update);
    }

    method HandleListPeers(client: ClientId) returns (out: seq<Out>)
      ensures forall c :: To(out, c) == ListReply(State(), client, c)
    {
      if client !in presence.clientToUser {
        return Single(client, PeersOnline({}));
      }
      return Single(client, PeersOnline(PeersOf(presence.State(), presence.clientToUser[client])));
    }

    method HandleCreateSession(client: ClientId, capacity: byte, draws: seq<u32>) returns (out: seq<Out>)
      requires Inv(State())
      modifies this, sessions
      ensures State() == OnCreate(old(State()), client, capacity, draws)
      ensures forall c :: To(out, c) == CreateReply(old(State()), client, capacity, draws, c)
    {
      if client !in presence.clientToUser {
        return Single(client, JoinErr(10));
      }
      FewCodes(State());
      var id := Id(nextSessionId);
      nextSessionId := Inc(nextSessionId);
      var code;
      code, nextSessionId := AllocSessionCode(sessions.byCode.Keys, nextSessionId, draws);
      sessions.InsertRoom(Room(id, code, capacity, {client}));
      return Single(client, Created(id, code));
    }

    method HandleJoin(client: ClientId, code: string) returns (out: seq<Out>)
      requires Inv(State())
      modifies sessions
      ensures State() == OnJoin(old(State()), client, code)
      ensures JoinSays(out, old(State()), client, code)
    {
      if client !in presence.clientToUser {
        return Single(client, JoinErr(10));
      }
      ghost var e := State();
      var user := presence.clientToUser[client];
      EnterKeeps(sessions.State(), code, client);
      var joined := sessions.JoinByCode(code, client);
      if joined.Err? {
        out := Single(client, JoinErr(if joined.error.NotFound? then 20 else 21));
        JoinRefused(out, e, client, code, joined.error);
        return;
      }
      out := AnnounceJoin(client, joined.value, user, sessions.byId[joined.value].members);
      JoinAnnounced(out, e, client, code, joined.value);
    }

    method AnnounceJoin(client: ClientId, id: string, user: string, members: set<ClientId>) returns (out: seq<Out>)
      ensures Announces(out, client, id, user, members)
    {
      var first := Single(client, JoinOk(id));
      var others := NotifyMembers(members - {client}, PeerJoined(id, user));
      out := Joined(first, others);
    }

    method ForwardSignaling(from: ClientId, msg: Msg) returns (out: seq<Out>)
      requires Signal(msg)
      modifies presence
      ensures State() == OnSignal(old(State()), from, msg)
      ensures forall c :: To(out, c) == SignalReply(old(State()), from, msg, c)
    {
      if from !in presence.clientToUser {
        return [];
      }
      var user := presence.clientToUser[from];
      var changed := msg.Answer? || msg.Bye?;
      if changed {
        presence.SetBusy(user, msg.Answer?);
        presence.SetBusy(msg.to, msg.Answer?);
      }
      var passed := [];
      if msg.to in presence.userToClient {
        passed := Single(presence.userToClient[msg.to], Stamped(msg, user));
      }
      if changed {
        var update := BroadcastPeerListUpdate();
        out := Joined(passed, update);
      } else {
        out := passed;
      }
    }

    /** Answers a message from a client. */
    method Handle(from: ClientId, msg: Msg, w: World) returns (out: seq<Out>)
      requires Inv(State())
      modifies this, presence, sessions
      ensures State() == Next(old(State()), Received(from, msg, w))
      ensures forall c :: To(out, c) == Reply(old(State()), from, msg, w, c)
    {
      if Signal(msg) {
        out := ForwardSignaling(from, msg);
      } else if msg.Login? {
        out := HandleLogin(from, msg.username, w.auth);
      } else if msg.CreateSession? {
        out := HandleCreateSession(from, msg.capacity, w.draws);
      } else if msg.Join? {
        out := HandleJoin(from, msg.sessionCode);
      } else {
        out := HandleQuery(from, msg, w);
      }
    }

    /** Messages that leave the server as it is. */
    method HandleQuery(from: ClientId, msg: Msg, w: World) returns (out: seq<Out>)
      requires !Signal(msg) && !msg.Login? && !msg.CreateSession? && !msg.Join?
      ensures forall c :: To(out, c) == Reply(State(), from, msg, w, c)
    {
      if msg.Register? {
        out := Single(from, if w.register.Some? then RegisterErr(w.register.value) else RegisterOk(msg.username));
      } else if msg.ListPeers? {
        out := HandleListPeers(from);
      } else if msg.Ping? {
        out := Single(from, Pong(msg.nonce));
      } else {
        out := [];
      }
    }

    /** Cleans up after a client; left is the report of the sessions it was in. */
    method HandleDisconnect(client: ClientId) returns (out: seq<Out>, ghost left: seq<Left>)
      modifies presence, sessions
      ensures State() == OnDisconnect(old(State()), client)
      ensures Reported(left, old(sessions.State()), client, RoomsOf(old(sessions.State()), client))
      ensures client !in old(presence.clientToUser) ==> out == []
      ensures client in old(presence.clientToUser) ==>
        Noticed(out, left, old(presence.clientToUser)[client], presence.State())
    {
      out := [];
      var user := presence.Logout(client);
      var gone := sessions.LeaveAll(client);
      left := gone;
      if user.Some? {
        for i := 0 to |gone|
          invariant State() == OnDisconnect(old(State()), client)
          invariant forall c :: To(out, c) == LeftNotices(gone[..i], user.value, c)
        {
          var notices := NotifyMembers(gone[i].remaining, PeerLeft(gone[i].id, user.value));
          assert gone[..i + 1][..i] == gone[..i];
          out := Joined(out, notices);
        }
        assert gone[..|gone|] == gone;
        var update := BroadcastPeerListUpdate();
        out := Joined(out, update);
      }
    }
  }

  function Single(target: ClientId, m: Msg): (out: seq<Out>)
    ensures forall c :: To(out, c) == Only(target, c, m)
  {
    var out := [Out(target, m)];
    assert forall c :: To(out, c) == Only(target, c, m) by {
      forall c ensures To(out, c) == Only(target, c, m) {
        ToSnoc([], Out(target, m), c);
        assert [] + out == out;
      }
    }
    out
  }

  function Joined(a: seq<Out>, b: seq<Out>): (out: seq<Out>)
    ensures forall c :: To(out, c) == To(a, c) + To(b, c)
  {
    assert forall c :: To(a + b, c) == To(a, c) + To(b, c) by {
      forall c ensures To(a + b, c) == To(a, c) + To(b, c) {
        ToConcat(a, b, c);
      }
    }
    a + b
  }

  /** The same message to each of a set of clients. */
  method NotifyMembers(members: set<ClientId>, m: Msg) returns (out: seq<Out>)
    ensures forall c :: To(out, c) == if c in members then [m] else []
  {
    out := [];
    var todo := members;
    while todo != {}
      invariant todo <= members
      invariant forall c :: To(out, c) == if c in members - todo then [m] else []
    {
      var member :| member in todo;
      out := Joined(out, Single(member, m));
      todo := todo - {member};
    }
  }
}
