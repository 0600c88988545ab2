/**
 The server's state in terms of its past alone: who is logged in, who is busy and who is in a session follows from
 what clients asked and were told (src/signaling/server_engine.rs, src/signaling/presence.rs).
 */
module ServerRuns {
  import opened Bytes
  import opened SignalTypes
  import opened Presence
  import opened Rooms
  import opened SessionCodes
  import opened ServerEngine
  import opened ServerCode

  // ---------- Names ----------

  /** The event logs its client in: the client is told so. */
  predicate ToldLogin(e: Engine, ev: Event) {
    && ev.Received? && ev.msg.Login?
    && LoginOk(ev.msg.username) in Reply(e, ev.from, ev.msg, ev.world, ev.from)
  }

  /** The name under which a client was last told that it is logged in, unless it has disconnected since. */
  function NameOf(events: seq<Event>, c: ClientId): Option<string> {
    if events == [] then None
    else
      var (before, ev) := (events[..|events| - 1], events[|events| - 1]);
      if ev == Disconnected(c) then None
      else if ToldLogin(After(before), ev) && ev.from == c then Some(ev.msg.username)
      else NameOf(before, c)
  }

  /** The client that was last told it has the name, unless it has disconnected under that name since. */
  function HolderOf(events: seq<Event>, user: string): Option<ClientId> {
    if events == [] then None
    else
      var (before, ev) := (events[..|events| - 1], events[|events| - 1]);
      if ev.Disconnected? && NameOf(before, ev.client) == Some(user) then None
      else if ToldLogin(After(before), ev) && ev.msg.username == user then Some(ev.from)
      else HolderOf(before, user)
  }

  /** A user was last named, as sender or addressee, in an answer and not in a bye, and has not disconnected since. */
  predicate InCall(events: seq<Event>, user: string) {
    if events == [] then false
    else
      var (before, ev) := (events[..|events| - 1], events[|events| - 1]);
      if ev.Disconnected? && NameOf(before, ev.client) == Some(user) then false
      else if Settles(before, ev, user) then ev.msg.Answer?
      else InCall(before, user)
  }

  /** An answer or a bye from or to the user, by a client that is logged in. */
  predicate Settles(before: seq<Event>, ev: Event, user: string) {
    && ev.Received? && (ev.msg.Answer? || ev.msg.Bye?) && NameOf(before, ev.from).Some?
    && (NameOf(before, ev.from) == Some(user) || ev.msg.to == user)
  }

  function Lookup<K, V>(m: map<K, V>, k: K): Option<V> {
    if k in m then Some(m[k]) else None
  }

  lemma LoginTold(e: Engine, ev: Event)
    requires ev.Received? && ev.msg.Login?
    ensures ToldLogin(e, ev) <==> ev.world.auth.Granted? && ev.msg.username !in e.online.clientOf
  {
  }

  /** What one event does to the presence maps. */
  lemma PresenceStep(e: Engine, ev: Event)
    ensures Next(e, ev).online.clientOf ==
      if ev.Disconnected? && ev.client in e.online.userOf then e.online.clientOf - {e.online.userOf[ev.client]}
      else if ToldLogin(e, ev) then e.online.clientOf[ev.msg.username := ev.from]
      else e.online.clientOf
    ensures Next(e, ev).online.userOf ==
      if ev.Disconnected? then e.online.userOf - {ev.client}
      else if ToldLogin(e, ev) then e.online.userOf[ev.from := ev.msg.username]
      else e.online.userOf
  {
    NextIs(e, ev);
    if ev.Received? && ev.msg.Login? {
      LoginTold(e, ev);
    }
  }

  /** A client is logged in exactly as it was told. */
  lemma {:induction false} NameIs(events: seq<Event>, c: ClientId)
    ensures Lookup(After(events).online.userOf, c) == NameOf(events, c)
  {
    if events != [] {
      var n := |events| - 1;
      NameIs(events[..n], c);
      PresenceStep(After(events[..n]), events[n]);
    }
  }

  /** A name resolves exactly to the client that was told it has it. */
  lemma {:induction false} HolderIs(events: seq<Event>, user: string)
    ensures Lookup(After(events).online.clientOf, user) == HolderOf(events, user)
  {
    if events != [] {
      var n := |events| - 1;
      HolderIs(events[..n], user);
      PresenceStep(After(events[..n]), events[n]);
      if events[n].Disconnected? {
        NameIs(events[..n], events[n].client);
      }
    }
  }

  lemma BusyStep(e: Engine, ev: Event, user: string)
    ensures user in Next(e, ev).online.busy <==>
      if ev.Disconnected? then user in e.online.busy && Lookup(e.online.userOf, ev.client) != Some(user)
      else if (ev.msg.Answer? || ev.msg.Bye?) && ev.from in e.online.userOf &&
              (e.online.userOf[ev.from] == user || ev.msg.to == user)
           then ev.msg.Answer?
      else user in e.online.busy
  {
    NextIs(e, ev);
  }

  /** A user counts as busy exactly if its last answer or bye was an answer. */
  lemma {:induction false} BusyIs(events: seq<Event>, user: string)
    ensures user in After(events).online.busy <==> InCall(events, user)
  {
    if events != [] {
      var n := |events| - 1;
      BusyIs(events[..n], user);
      BusyStep(After(events[..n]), events[n], user);
      NameIs(events[..n], if events[n].Disconnected? then events[n].client else events[n].from);
    }
  }

  // ---------- What clients are shown ----------

  /** Someone else who has a name, with what they are doing. */
  predicate Listed(events: seq<Event>, user: string, p: Peer) {
    && HolderOf(events, p.name).Some? && p.name != user
    && p.status == if InCall(events, p.name) then Busy else Available
  }

  /** The list shows exactly those. */
  ghost predicate Shows(peers: set<Peer>, events: seq<Event>, user: string) {
    forall p: Peer :: p in peers <==> Listed(events, user, p)
  }

  lemma PeersShown(events: seq<Event>, user: string)
    ensures Shows(PeersOf(After(events).online, user), events, user)
  {
    forall p: Peer ensures p in PeersOf(After(events).online, user) <==> Listed(events, user, p) {
      HolderIs(events, p.name);
      BusyIs(events, p.name);
    }
  }

  /** A client that asks for the list, or is sent an update, is shown everyone else; before it has a name, nobody. */
  lemma ListShown(events: seq<Event>, c: ClientId, w: World) returns (peers: set<Peer>)
    ensures Reply(After(events), c, ListPeers, w, c) == [PeersOnline(peers)]
    ensures Broadcast(After(events).online, c) == if NameOf(events, c).Some? then [PeersOnline(peers)] else []
    ensures if NameOf(events, c).Some? then Shows(peers, events, NameOf(events, c).value) else peers == {}
  {
    NameIs(events, c);
    if NameOf(events, c).Some? {
      peers := PeersOf(After(events).online, NameOf(events, c).value);
      PeersShown(events, NameOf(events, c).value);
    } else {
      peers := {};
    }
  }

  /** What c gets: the signal under its sender's name if c is the addressee, and the list if it has changed. */
  function Passed(name: Option<string>, holder: Option<ClientId>, msg: Msg, p: Online, c: ClientId): seq<Msg>
    requires Signal(msg)
  {
    if name.None? then []
    else (if holder == Some(c) then [msg.(from := name.value)] else []) +
         (if msg.Answer? || msg.Bye? then Broadcast(p, c) else [])
  }

  lemma SignalPasses(e: Engine, from: ClientId, msg: Msg, c: ClientId)
    requires Signal(msg)
    ensures SignalReply(e, from, msg, c) ==
      Passed(Lookup(e.online.userOf, from), Lookup(e.online.clientOf, msg.to), msg, OnSignal(e, from, msg).online, c)
  {
  }

  lemma ReplyPasses(e: Engine, from: ClientId, msg: Msg, w: World, c: ClientId)
    requires Signal(msg)
    ensures Reply(e, from, msg, w, c) == SignalReply(e, from, msg, c)
  {
  }

  lemma AfterSignal(events: seq<Event>, from: ClientId, msg: Msg, w: World)
    requires Signal(msg)
    ensures After(events + [Received(from, msg, w)]) == OnSignal(After(events), from, msg)
  {
    assert (events + [Received(from, msg, w)])[..|events|] == events;
    NextIs(After(events), Received(from, msg, w));
  }

  /**
   What a signal leads to: it reaches the client that has the name it is addressed to, and nobody else, under the name
   of its sender and otherwise unchanged. An answer or a bye also sends everyone the list as it is then. A sender
   without a name reaches nobody.
   */
  lemma SignalReaches(events: seq<Event>, from: ClientId, msg: Msg, w: World, c: ClientId)
    requires Signal(msg)
    ensures Reply(After(events), from, msg, w, c) ==
      Passed(NameOf(events, from), HolderOf(events, msg.to), msg, After(events + [Received(from, msg, w)]).online, c)
  {
    NameIs(events, from);
    HolderIs(events, msg.to);
    AfterSignal(events, from, msg, w);
    ReplyPasses(After(events), from, msg, w, c);
    SignalPasses(After(events), from, msg, c);
  }

  /** A login is answered by the name being free, or by what is wrong. */
  lemma LoginAnswered(events: seq<Event>, c: ClientId, user: string, pw: string, w: World)
    ensures var reply := Reply(After(events), c, Login(user, pw), w, c);
      && |reply| > 0
      && reply[0] ==
         if w.auth.BadCredentials? then LoginErr(3)
         else if w.auth.AuthFails? then LoginErr(4)
         else if HolderOf(events, user).Some? then LoginErr(1)
         else LoginOk(user)
  {
    HolderIs(events, user);
  }

  /** Someone who answers a name that nobody has makes whoever logs in under it next start out busy. */
  lemma BornBusy(c: ClientId, d: ClientId, caller: string, callee: string, pw: string, txn: u64, sdp: seq<byte>,
                 w: World) returns (run: seq<Event>)
    requires c != d && caller != callee && w.auth.Granted?
    ensures run == [Received(c, Login(caller, pw), w), Received(c, Answer(txn, caller, callee, sdp), w),
                    Received(d, Login(callee, pw), w)]
    ensures HolderOf(run, callee) == Some(d) && InCall(run, callee)
  {
    var (x, y, z) := (Received(c, Login(caller, pw), w), Received(c, Answer(txn, caller, callee, sdp), w),
                      Received(d, Login(callee, pw), w));
    run := [x, y, z];
    assert run[..2] == [x, y] && [x, y][..1] == [x] && [x][..0] == [];
    assert After([]) == FIRST;
    LoginTold(FIRST, x);
    assert NameOf([x], c) == Some(caller);
    assert Settles([x], y, callee) && InCall([x, y], callee);
    HolderIs([x], callee);
    HolderIs([x, y], callee);
    assert HolderOf([x], callee) == None;
    assert HolderOf([x, y], callee) == None;
    LoginTold(After([x, y]), z);
  }

  // ---------- Members ----------

  /** The session a client is told it is in now: its own, or one it asked to join. */
  function Entered(reply: seq<Msg>): Option<string> {
    if |reply| == 1 && reply[0].Created? then Some(reply[0].sessionId)
    else if |reply| == 1 && reply[0].JoinOk? then Some(reply[0].sessionId)
    else None
  }

  function ToldEntered(e: Engine, ev: Event): Option<string> {
    if ev.Received? then Entered(Reply(e, ev.from, ev.msg, ev.world, ev.from)) else None
  }

  /** The client was told that it is in the session, and has not disconnected since. */
  predicate MemberOf(events: seq<Event>, id: string, c: ClientId) {
    if events == [] then false
    else
      var (before, ev) := (events[..|events| - 1], events[|events| - 1]);
      if ev == Disconnected(c) then false
      else if ToldEntered(After(before), ev) == Some(id) && ev.from == c then true
      else MemberOf(before, id, c)
  }

  predicate InRoom(t: Table, id: string, c: ClientId) {
    id in t.byId && c in t.byId[id].members
  }

  lemma CreateTold(e: Engine, ev: Event)
    requires ev.Received? && ev.msg.CreateSession?
    ensures ToldEntered(e, ev) == if ev.from in e.online.userOf then Some(Id(e.nextId)) else None
    ensures ev.from in e.online.userOf ==>
      var r := NewRoom(e, ev.from, ev.msg.capacity, ev.world.draws);
      r.id == Id(e.nextId) && r.members == {ev.from} && Next(e, ev).rooms == Insert(e.rooms, r)
    ensures ev.from !in e.online.userOf ==> Next(e, ev).rooms == e.rooms
  {
    NextIs(e, ev);
  }

  lemma CreateEnters(e: Engine, ev: Event, id: string, c: ClientId)
    requires Inv(e) && ev.Received? && ev.msg.CreateSession?
    ensures InRoom(Next(e, ev).rooms, id, c) <==>
      InRoom(e.rooms, id, c) || (ToldEntered(e, ev) == Some(id) && ev.from == c)
  {
    CreateTold(e, ev);
    if ev.from in e.online.userOf {
      CreateFresh(e, ev.from, ev.msg.capacity, ev.world.draws);
    }
  }

  lemma EnterRoom(t: Table, code: string, d: ClientId, id: string, c: ClientId)
    requires Consistent(t)
    ensures var (t', r) := Enter(t, code, d);
      InRoom(t', id, c) <==> InRoom(t, id, c) || (r == Ok(id) && c == d)
  {
    EnterIff(t, code, d);
  }

  lemma JoinTold(e: Engine, ev: Event, r: Result<string, JoinError>)
    requires ev.Received? && ev.msg.Join? && r == Enter(e.rooms, ev.msg.sessionCode, ev.from).1
    ensures ToldEntered(e, ev) == if ev.from in e.online.userOf && r.Ok? then Some(r.value) else None
  {
  }

  lemma JoinEnters(e: Engine, ev: Event, id: string, c: ClientId)
    requires Inv(e) && ev.Received? && ev.msg.Join?
    ensures InRoom(Next(e, ev).rooms, id, c) <==>
      InRoom(e.rooms, id, c) || (ToldEntered(e, ev) == Some(id) && ev.from == c)
  {
    JoinTold(e, ev, Enter(e.rooms, ev.msg.sessionCode, ev.from).1);
    EnterRoom(e.rooms, ev.msg.sessionCode, ev.from, id, c);
    NextIs(e, ev);
  }

  lemma OthersEnterNone(e: Engine, ev: Event)
    requires ev.Received? && !ev.msg.CreateSession? && !ev.msg.Join?
    ensures ToldEntered(e, ev) == None && Next(e, ev).rooms == e.rooms
  {
    NextIs(e, ev);
  }

  lemma LeaveLeaves(t: Table, gone: ClientId, id: string, c: ClientId)
    ensures InRoom(Leave(t, gone), id, c) <==> InRoom(t, id, c) && c != gone
  {
    if InRoom(t, id, c) && c != gone {
      assert c in t.byId[id].members - {gone};
    }
  }

  /** The members of a session are exactly the clients that were told so and are still connected. */
  lemma {:induction false} MembersAre(events: seq<Event>, id: string, c: ClientId)
    requires CounterHolds(events)
    ensures InRoom(After(events).rooms, id, c) <==> MemberOf(events, id, c)
  {
    if events != [] {
      var n := |events| - 1;
      var (e, ev) := (After(events[..n]), events[n]);
      CounterPrefix(events, events[..n]);
      MembersAre(events[..n], id, c);
      RunKeeps(events[..n]);
      if ev.Disconnected? {
        LeaveLeaves(e.rooms, ev.client, id, c);
      } else if ev.msg.CreateSession? {
        CreateEnters(e, ev, id, c);
      } else if ev.msg.Join? {
        JoinEnters(e, ev, id, c);
      } else {
        OthersEnterNone(e, ev);
      }
    }
  }
}
