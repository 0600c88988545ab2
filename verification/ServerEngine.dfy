/**
 The signaling server's state machine (src/signaling/server_engine.rs). Random draws and the answers of the
 authentication backend come with each event.
 */
module ServerEngine {
  import opened Bytes
  import opened SignalTypes
  import opened Presence
  import opened Rooms
  import opened SessionCodes

  datatype Auth = Granted | BadCredentials | AuthFails

  /** What the world answers while one message is handled; register is the error code, if registration fails. */
  datatype World = World(auth: Auth, register: Option<u16>, draws: seq<u32>)

  datatype Event = Received(from: ClientId, msg: Msg, world: World) | Disconnected(client: ClientId)

  datatype Engine = Engine(online: Online, rooms: Table, nextId: u64)

  const FIRST := Engine(NOBODY, NO_ROOMS, 1)

  // ---------- State ----------

  function OnLogin(e: Engine, c: ClientId, user: string, auth: Auth): Engine {
    if auth.Granted? && user !in e.online.clientOf then e.(online := LogIn(e.online, c, user)) else e
  }

  /** How far creating a session advances the counter. */
  function Spent(e: Engine, draws: seq<u32>): nat {
    1 + Advance(e.rooms.byCode.Keys, Inc(e.nextId), draws)
  }

  function NewRoom(e: Engine, c: ClientId, capacity: byte, draws: seq<u32>): Room {
    Room(Id(e.nextId), Alloc(e.rooms.byCode.Keys, Inc(e.nextId), draws), capacity, {c})
  }

  function OnCreate(e: Engine, c: ClientId, capacity: byte, draws: seq<u32>): Engine {
    if c !in e.online.userOf then e
    else e.(rooms := Insert(e.rooms, NewRoom(e, c, capacity, draws)),
            nextId := Later(Inc(e.nextId), Advance(e.rooms.byCode.Keys, Inc(e.nextId), draws)))
  }

  function OnJoin(e: Engine, c: ClientId, code: string): Engine {
    if c in e.online.userOf then e.(rooms := Enter(e.rooms, code, c).0) else e
  }

  /** Answer and Bye set the status of both ends. */
  function OnSignal(e: Engine, c: ClientId, msg: Msg): Engine {
    if c in e.online.userOf && (msg.Answer? || msg.Bye?) then
      e.(online := MarkBusy(MarkBusy(e.online, e.online.userOf[c], msg.Answer?), msg.to, msg.Answer?))
    else e
  }

  function OnDisconnect(e: Engine, c: ClientId): Engine {
    e.(online := LogOut(e.online, c), rooms := Leave(e.rooms, c))
  }

  function Next(e: Engine, ev: Event): Engine {
    match ev
    case Disconnected(c) => OnDisconnect(e, c)
    case Received(c, Login(user, _), w) => OnLogin(e, c, user, w.auth)
    case Received(c, CreateSession(capacity), w) => OnCreate(e, c, capacity, w.draws)
    case Received(c, Join(code), _) => OnJoin(e, c, code)
    case Received(c, msg, _) => OnSignal(e, c, msg)
  }

  function After(events: seq<Event>): Engine {
    if events == [] then FIRST else Next(After(events[..|events| - 1]), events[|events| - 1])
  }

  // ---------- The invariant ----------

  /** Every member of every session is logged in. */
  predicate MembersOnline(e: Engine) {
    MembersIn(e.rooms, e.online.userOf.Keys)
  }

  /** Every live session has an id issued before. */
  predicate Issued(e: Engine) {
    forall id <- e.rooms.byId :: exists n: nat :: n < e.nextId && id == Id(n)
  }

  predicate Inv(e: Engine) {
    Agrees(e.online) && Consistent(e.rooms) && Populated(e.rooms) && MembersOnline(e) && Issued(e)
  }

  /** The event does not run the counter over its end. */
  predicate InRange(e: Engine, ev: Event) {
    ev.Received? && ev.msg.CreateSession? && ev.from in e.online.userOf ==> e.nextId + Spent(e, ev.world.draws) < WORD
  }

  predicate CounterHolds(events: seq<Event>) {
    forall k :: 0 <= k < |events| ==> InRange(After(events[..k]), events[k])
  }

  // ---------- Fewer sessions than numbers issued ----------

  function IdsBelow(n: nat): set<string> {
    if n == 0 then {} else IdsBelow(n - 1) + {Id(n - 1)}
  }

  lemma {:induction false} IdsBelowSize(n: nat)
    ensures |IdsBelow(n)| <= n
  {
    if n > 0 {
      IdsBelowSize(n - 1);
    }
  }

  lemma {:induction false} IdBelow(n: nat, k: nat)
    requires k < n
    ensures Id(k) in IdsBelow(n)
  {
    if k < n - 1 {
      IdBelow(n - 1, k);
    }
  }

  lemma SmallImage(byCode: map<string, string>, codes: set<string>, ids: set<string>)
    requires codes <= byCode.Keys && forall c <- codes :: byCode[c] in ids
    requires forall c, d :: c in codes && d in codes && byCode[c] == byCode[d] ==> c == d
    ensures |codes| <= |ids|
    decreases |codes|
  {
    if codes != {} {
      var c :| c in codes;
      SmallImage(byCode, codes - {c}, ids - {byCode[c]});
    }
  }

  lemma FewCodes(e: Engine)
    requires Consistent(e.rooms) && Issued(e)
    ensures |e.rooms.byCode.Keys| <= e.nextId < WORD
  {
    IdsBelowSize(e.nextId);
    var t := e.rooms;
    forall c | c in t.byCode.Keys ensures t.byCode[c] in IdsBelow(e.nextId) {
      assert t.byCode[c] in t.byId;
      var n: nat :| n < e.nextId && t.byCode[c] == Id(n);
      IdBelow(e.nextId, n);
    }
    SmallImage(t.byCode, t.byCode.Keys, IdsBelow(e.nextId));
  }

  // ---------- Preservation ----------

  lemma LoginKeeps(e: Engine, c: ClientId, user: string, auth: Auth)
    requires Inv(e)
    ensures Inv(OnLogin(e, c, user, auth))
  {
    if user !in e.online.clientOf {
      LogInKeeps(e.online, c, user);
    }
  }

  /** The id and the code of a new session are not those of any live one. */
  lemma CreateFresh(e: Engine, c: ClientId, capacity: byte, draws: seq<u32>)
    requires Inv(e)
    ensures var r := NewRoom(e, c, capacity, draws); r.id !in e.rooms.byId && r.code !in e.rooms.byCode
  {
    FewCodes(e);
    AllocFresh(e.rooms.byCode.Keys, Inc(e.nextId), draws);
    if Id(e.nextId) in e.rooms.byId {
      var n: nat :| n < e.nextId && Id(e.nextId) == Id(n);
      IdInjective(e.nextId, n);
    }
  }

  lemma CounterGrows(e: Engine, draws: seq<u32>)
    requires e.nextId + Spent(e, draws) < WORD
    ensures Later(Inc(e.nextId), Advance(e.rooms.byCode.Keys, Inc(e.nextId), draws)) == e.nextId + Spent(e, draws)
  {
    LaterValue(Inc(e.nextId), Advance(e.rooms.byCode.Keys, Inc(e.nextId), draws));
  }

  lemma CreateKeeps(e: Engine, c: ClientId, capacity: byte, draws: seq<u32>)
    requires Inv(e) && e.nextId + Spent(e, draws) < WORD
    ensures Inv(OnCreate(e, c, capacity, draws))
  {
    if c in e.online.userOf {
      var r := NewRoom(e, c, capacity, draws);
      CreateFresh(e, c, capacity, draws);
      CounterGrows(e, draws);
      InsertKeeps(e.rooms, r);
      IssuedInsert(e, r, e.nextId + Spent(e, draws));
    }
  }

  lemma IssuedInsert(e: Engine, r: Room, next: u64)
    requires Issued(e) && MembersOnline(e) && r.id == Id(e.nextId) && e.nextId < next
    requires r.members <= e.online.userOf.Keys
    ensures var e' := e.(rooms := Insert(e.rooms, r), nextId := next); Issued(e') && MembersOnline(e')
  {
    var e' := e.(rooms := Insert(e.rooms, r), nextId := next);
    forall id | id in e'.rooms.byId ensures exists n: nat :: n < next && id == Id(n) {
      if id == r.id {
        assert e.nextId < next && id == Id(e.nextId);
      } else {
        var n: nat :| n < e.nextId && id == Id(n);
        assert n < next;
      }
    }
  }

  lemma JoinKeeps(e: Engine, c: ClientId, code: string)
    requires Inv(e)
    ensures Inv(OnJoin(e, c, code))
  {
    if c in e.online.userOf {
      EnterKeeps(e.rooms, code, c);
      EnterMembers(e.rooms, code, c, e.online.userOf.Keys);
      SameIds(e, Enter(e.rooms, code, c).0);
    }
  }

  lemma SameIds(e: Engine, t: Table)
    requires Issued(e) && t.byId.Keys == e.rooms.byId.Keys
    ensures Issued(e.(rooms := t))
  {
  }

  lemma SignalKeeps(e: Engine, c: ClientId, msg: Msg)
    requires Inv(e)
    ensures Inv(OnSignal(e, c, msg))
  {
    var e' := OnSignal(e, c, msg);
    assert e'.rooms == e.rooms && e'.nextId == e.nextId;
    assert e'.online.clientOf == e.online.clientOf && e'.online.userOf == e.online.userOf;
  }

  lemma DisconnectKeeps(e: Engine, c: ClientId)
    requires Inv(e)
    ensures Inv(OnDisconnect(e, c))
  {
    LogOutKeeps(e.online, c);
    LeaveKeeps(e.rooms, c);
  }

  lemma NextKeeps(e: Engine, ev: Event)
    requires Inv(e) && InRange(e, ev)
    ensures Inv(Next(e, ev))
  {
    NextIs(e, ev);
    if ev.Disconnected? {
      DisconnectKeeps(e, ev.client);
    } else if ev.msg.Login? {
      LoginKeeps(e, ev.from, ev.msg.username, ev.world.auth);
    } else if ev.msg.CreateSession? {
      if ev.from in e.online.userOf {
        CreateKeeps(e, ev.from, ev.msg.capacity, ev.world.draws);
      }
    } else if ev.msg.Join? {
      JoinKeeps(e, ev.from, ev.msg.sessionCode);
    } else {
      SignalKeeps(e, ev.from, ev.msg);
    }
  }

  lemma NextIs(e: Engine, ev: Event)
    ensures Next(e, ev) ==
      if ev.Disconnected? then OnDisconnect(e, ev.client)
      else if ev.msg.Login? then OnLogin(e, ev.from, ev.msg.username, ev.world.auth)
      else if ev.msg.CreateSession? then OnCreate(e, ev.from, ev.msg.capacity, ev.world.draws)
      else if ev.msg.Join? then OnJoin(e, ev.from, ev.msg.sessionCode)
      else OnSignal(e, ev.from, ev.msg)
  {
  }

  lemma CounterPrefix(events: seq<Event>, before: seq<Event>)
    requires CounterHolds(events) && before <= events
    ensures CounterHolds(before)
  {
    forall k | 0 <= k < |before| ensures InRange(After(before[..k]), before[k]) {
      assert before[..k] == events[..k] && before[k] == events[k];
    }
  }

  /** No two clients have the same user. */
  predicate Injective(userOf: map<ClientId, string>) {
    forall c, d :: c in userOf && d in userOf && userOf[c] == userOf[d] ==> c == d
  }

  /** The invariant holds in every run in which the counter does not run over. */
  lemma {:induction false} RunKeeps(events: seq<Event>)
    requires CounterHolds(events)
    ensures Inv(After(events))
    ensures Injective(After(events).online.userOf)
  {
    if events != [] {
      var n := |events| - 1;
      CounterPrefix(events, events[..n]);
      RunKeeps(events[..n]);
      NextKeeps(After(events[..n]), events[n]);
    }
  }

  // ---------- Logging in twice ----------

  /** The event logs a client in that already is, under another name. */
  predicate Relogin(e: Engine, ev: Event) {
    && ev.Received? && ev.msg.Login? && ev.world.auth.Granted?
    && ev.msg.username !in e.online.clientOf && ev.from in e.online.userOf
  }

  lemma NextInverse(e: Engine, ev: Event)
    requires Agrees(e.online)
    ensures Agrees(Next(e, ev).online)
    ensures Inverse(Next(e, ev).online) <==> Inverse(e.online) && !Relogin(e, ev)
    ensures forall u :: Stale(e.online, u) ==> Stale(Next(e, ev).online, u)
  {
    match ev
    case Disconnected(c) => LogOutKeeps(e.online, c);
    case Received(c, Login(user, _), w) =>
      if user !in e.online.clientOf {
        LogInKeeps(e.online, c, user);
      }
    case Received(c, msg, _) => SameMaps(e.online, Next(e, ev).online);
  }

  lemma SameMaps(p: Online, q: Online)
    requires p.clientOf == q.clientOf && p.userOf == q.userOf
    ensures Agrees(p) == Agrees(q) && Inverse(p) == Inverse(q) && forall u :: Stale(p, u) == Stale(q, u)
  {
  }

  predicate ReloginAt(events: seq<Event>, k: nat)
    requires k < |events|
  {
    Relogin(After(events[..k]), events[k])
  }

  predicate NoRelogin(events: seq<Event>) {
    forall k :: 0 <= k < |events| ==> !ReloginAt(events, k)
  }

  lemma NoReloginPrefix(events: seq<Event>, before: seq<Event>)
    requires NoRelogin(events) && before <= events
    ensures NoRelogin(before)
  {
    forall k | 0 <= k < |before| ensures !ReloginAt(before, k) {
      assert before[..k] == events[..k] && before[k] == events[k] && !ReloginAt(events, k);
    }
  }

  lemma NoReloginSnoc(events: seq<Event>, n: nat)
    requires n + 1 == |events|
    ensures NoRelogin(events) <==> NoRelogin(events[..n]) && !ReloginAt(events, n)
  {
    forall k | 0 <= k < n ensures ReloginAt(events[..n], k) == ReloginAt(events, k) {
      assert events[..n][..k] == events[..k];
    }
  }

  /** After any run, the presence maps are inverses of each other exactly if no client logged in twice. */
  lemma {:induction false} InverseIff(events: seq<Event>)
    ensures Agrees(After(events).online)
    ensures Inverse(After(events).online) <==> NoRelogin(events)
  {
    if events != [] {
      var n := |events| - 1;
      InverseIff(events[..n]);
      NextInverse(After(events[..n]), events[n]);
      NoReloginSnoc(events, n);
    }
  }

  /** A name left behind by a second login resolves to a client that is not it, for good; nobody can log in under it. */
  lemma {:induction false} StaleForever(events: seq<Event>, k: nat, user: string)
    requires k <= |events| && Stale(After(events[..k]).online, user)
    ensures Stale(After(events).online, user)
    ensures forall c, w: World :: OnLogin(After(events), c, user, w.auth) == After(events)
  {
    if k == |events| {
      assert events[..k] == events;
    } else {
      var n := |events| - 1;
      assert events[..n][..k] == events[..k];
      StaleForever(events[..n], k, user);
      InverseIff(events[..n]);
      NextInverse(After(events[..n]), events[n]);
    }
  }

  /**
   Any client that logs in under one name and then under another leaves the first one stale, even after it
   has disconnected: the name resolves to it and nobody can have it.
   */
  lemma ReloginLeavesStale(c: ClientId, first: string, second: string, pw: string, w: World) returns (run: seq<Event>)
    requires first != second && w.auth.Granted?
    ensures run == [Received(c, Login(first, pw), w), Received(c, Login(second, pw), w), Disconnected(c)]
    ensures !NoRelogin(run) && c !in After(run).online.userOf
    ensures Stale(After(run).online, first) && After(run).online.clientOf[first] == c
  {
    var a, b := Received(c, Login(first, pw), w), Received(c, Login(second, pw), w);
    run := [a, b, Disconnected(c)];
    assert run[..2] == [a, b] && run[..1] == [a] && [a, b][..1] == [a] && [a][..0] == [];
    assert After([a]) == Next(FIRST, a);
    assert After([a, b]) == Next(After([a]), b);
    assert ReloginAt(run, 1);
  }
}
