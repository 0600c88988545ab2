/** The table of sessions and their members (src/signaling/sessions.rs). */
module Rooms {
  import opened Bytes
  import opened SignalTypes

  datatype Room = Room(id: string, code: string, capacity: byte, members: set<ClientId>)

  datatype Table = Table(byId: map<string, Room>, byCode: map<string, string>)

  const NO_ROOMS := Table(map[], map[])

  /** Why a join fails; the server panics if a code leads to a session that does not exist. */
  datatype JoinError = NotFound | Full | Panics

  /** The two maps describe the same sessions. */
  predicate Consistent(t: Table) {
    && (forall id <- t.byId :: t.byId[id].id == id && t.byId[id].code in t.byCode && t.byCode[t.byId[id].code] == id)
    && (forall code <- t.byCode :: t.byCode[code] in t.byId && t.byId[t.byCode[code]].code == code)
  }

  /** No session is empty or holds more than its capacity, except that its creator is always in. */
  predicate Populated(t: Table) {
    forall id <- t.byId ::
      var r := t.byId[id]; r.members != {} && |r.members| <= if r.capacity == 0 then 1 else r.capacity
  }

  function Insert(t: Table, r: Room): Table {
    Table(t.byId[r.id := r], t.byCode[r.code := r.id])
  }

  function Enter(t: Table, code: string, c: ClientId): (Table, Result<string, JoinError>) {
    if code !in t.byCode then (t, Err(NotFound))
    else if t.byCode[code] !in t.byId then (t, Err(Panics))
    else
      var id := t.byCode[code];
      var r := t.byId[id];
      if |r.members| >= r.capacity then (t, Err(Full))
      else (t.(byId := t.byId[id := r.(members := r.members + {c})]), Ok(id))
  }

  function Without(r: Room, c: ClientId): Room {
    r.(members := r.members - {c})
  }

  /** The table once c has left every session and empty ones are gone. */
  function Leave(t: Table, c: ClientId): Table {
    var byId := map id | id in t.byId && t.byId[id].members - {c} != {} :: Without(t.byId[id], c);
    Table(byId, map code | code in t.byCode && t.byCode[code] in byId :: t.byCode[code])
  }

  /** The sessions c is in. */
  function RoomsOf(t: Table, c: ClientId): set<string> {
    set id | id in t.byId && c in t.byId[id].members
  }

  lemma InsertKeeps(t: Table, r: Room)
    requires Consistent(t) && Populated(t) && r.id !in t.byId && r.code !in t.byCode && |r.members| == 1
    ensures Consistent(Insert(t, r)) && Populated(Insert(t, r))
  {
  }

  lemma EnterKeeps(t: Table, code: string, c: ClientId)
    requires Consistent(t) && Populated(t)
    ensures Consistent(Enter(t, code, c).0) && Populated(Enter(t, code, c).0)
    ensures Enter(t, code, c).1 != Err(Panics)
  {
  }

  /** The client is one more member of the session, and nothing else has changed. */
  predicate Gains(t: Table, t': Table, id: string, c: ClientId) {
    && t'.byCode == t.byCode && t'.byId.Keys == t.byId.Keys && id in t.byId
    && t'.byId[id] == t.byId[id].(members := t.byId[id].members + {c})
    && forall other <- t.byId :: other != id ==> t'.byId[other] == t.byId[other]
  }

  /**
   When a join succeeds: a code that is not known is not found; a known one leads to its session, which is full exactly
   if it has as many members as seats, and gains the client otherwise. A refusal changes nothing.
   */
  lemma EnterIff(t: Table, code: string, c: ClientId)
    requires Consistent(t)
    ensures var (t', r) := Enter(t, code, c);
      && (r == Err(NotFound) <==> code !in t.byCode) && (r.Err? ==> t' == t)
      && (code in t.byCode ==>
            var id := t.byCode[code];
            && (r == Err(Full) <==> |t.byId[id].members| >= t.byId[id].capacity)
            && (|t.byId[id].members| < t.byId[id].capacity ==> r == Ok(id) && Gains(t, t', id, c)))
  {
  }

  /** Every member of every session is among the given clients. */
  predicate MembersIn(t: Table, all: set<ClientId>) {
    forall id <- t.byId :: t.byId[id].members <= all
  }

  lemma EnterMembers(t: Table, code: string, c: ClientId, all: set<ClientId>)
    requires MembersIn(t, all) && c in all
    ensures var t' := Enter(t, code, c).0; MembersIn(t', all) && t'.byId.Keys == t.byId.Keys
  {
  }

  lemma LeaveKeeps(t: Table, c: ClientId)
    requires Consistent(t) && Populated(t)
    ensures Consistent(Leave(t, c)) && Populated(Leave(t, c)) && RoomsOf(Leave(t, c), c) == {}
  {
    forall id | id in Leave(t, c).byId ensures |Leave(t, c).byId[id].members| <= |t.byId[id].members| {
      Fewer(t.byId[id].members, c);
    }
  }

  lemma Fewer(s: set<ClientId>, c: ClientId)
    ensures |s - {c}| <= |s|
  {
    if c in s {
      assert s == (s - {c}) + {c};
    } else {
      assert s - {c} == s;
    }
  }

  /** One entry of what leaving reports: a session and who remains in it. */
  datatype Left = Left(id: string, remaining: set<ClientId>)

  /** The report names each of the given sessions exactly once, with its members other than c. */
  predicate Reported(left: seq<Left>, t: Table, c: ClientId, ids: set<string>) {
    && (forall i, j :: 0 <= i < j < |left| ==> left[i].id != left[j].id)
    && (forall i :: 0 <= i < |left| ==>
          left[i].id in ids && left[i].id in t.byId && left[i].remaining == t.byId[left[i].id].members - {c})
    && (forall id <- ids :: exists i :: 0 <= i < |left| && left[i].id == id)
  }

  lemma ReportedSnoc(left: seq<Left>, t: Table, c: ClientId, ids: set<string>, id: string)
    requires Reported(left, t, c, ids) && id in t.byId && id !in ids
    ensures Reported(left + [Left(id, t.byId[id].members - {c})], t, c, ids + {id})
  {
    var left' := left + [Left(id, t.byId[id].members - {c})];
    forall k | k in ids + {id} ensures exists i :: 0 <= i < |left'| && left'[i].id == k {
      if k == id {
        assert left'[|left|].id == k;
      } else {
        var i :| 0 <= i < |left| && left[i].id == k;
        assert left'[i].id == k;
      }
    }
  }

  /** The rooms once c has left the given ones. */
  function LeftSome(t: Table, c: ClientId, ids: set<string>): map<string, Room> {
    map id | id in t.byId :: if id in ids then Without(t.byId[id], c) else t.byId[id]
  }

  lemma LeftAll(t: Table, c: ClientId)
    ensures var m := LeftSome(t, c, RoomsOf(t, c));
      (map id | id in m && m[id].members != {} :: m[id]) == Leave(t, c).byId
  {
    forall id | id in t.byId ensures LeftSome(t, c, RoomsOf(t, c))[id] == Without(t.byId[id], c) {
      if c !in t.byId[id].members {
        assert t.byId[id].members - {c} == t.byId[id].members;
      }
    }
  }

  class SessionTable {
    var byId: map<string, Room>
    var byCode: map<string, string>

    function State(): Table
      reads this
    {
      Table(byId, byCode)
    }

    constructor ()
      ensures State() == NO_ROOMS
    {
      byId, byCode := map[], map[];
    }

    method InsertRoom(r: Room)
      modifies this
      ensures State() == Insert(old(State()), r)
    {
      byCode := byCode[r.code := r.id];
      byId := byId[r.id := r];
    }

    /** Looking a code's session up cannot fail: the tables are consistent. */
    method JoinByCode(code: string, c: ClientId) returns (r: Result<string, JoinError>)
      requires Consistent(State())
      modifies this
      ensures (State(), r) == Enter(old(State()), code, c)
    {
      if code !in byCode {
        return Err(NotFound);
      }
      var id := byCode[code];
      var room := byId[id];
      if |room.members| >= room.capacity {
        return Err(Full);
      }
      byId := byId[id := room.(members := room.members + {c})];
      return Ok(id);
    }

    method LeaveAll(c: ClientId) returns (left: seq<Left>)
      modifies this
      ensures State() == Leave(old(State()), c)
      ensures Reported(left, old(State()), c, RoomsOf(old(State()), c))
    {
      ghost var t := State();
      var todo := set id | id in byId && c in byId[id].members;
      left := [];
      ghost var done: set<string> := {};
      assert byId == LeftSome(t, c, {});
      while todo != {}
        invariant byCode == t.byCode && byId == LeftSome(t, c, done)
        invariant todo !! done && todo + done == RoomsOf(t, c)
        invariant Reported(left, t, c, done)
      {
        var id :| id in todo;
        var room := byId[id];
        ReportedSnoc(left, t, c, done, id);
        byId := byId[id := room.(members := room.members - {c})];
        left := left + [Left(id, room.members - {c})];
        todo := todo - {id};
        done := done + {id};
      }
      LeftAll(t, c);
      byId := map id | id in byId && byId[id].members != {} :: byId[id];
      byCode := map code | code in byCode && byCode[code] in byId :: byCode[code];
    }
  }
}
