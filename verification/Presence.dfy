/** Which clients are logged in as which users (src/signaling/presence.rs). */
module Presence {
  import opened Bytes
  import opened SignalTypes

  datatype Online = Online(clientOf: map<string, ClientId>, userOf: map<ClientId, string>, busy: set<string>)

  const NOBODY := Online(map[], map[], {})

  function LogIn(p: Online, c: ClientId, user: string): Online {
    p.(clientOf := p.clientOf[user := c], userOf := p.userOf[c := user])
  }

  function LogOut(p: Online, c: ClientId): Online {
    if c in p.userOf then Online(p.clientOf - {p.userOf[c]}, p.userOf - {c}, p.busy - {p.userOf[c]}) else p
  }

  function MarkBusy(p: Online, user: string, busy: bool): Online {
    p.(busy := if busy then p.busy + {user} else p.busy - {user})
  }

  function StatusOf(p: Online, user: string): Status {
    if user in p.busy then Busy else Available
  }

  /** Everyone online but the given user. */
  function PeersOf(p: Online, user: string): set<Peer> {
    set u | u in p.clientOf && u != user :: Peer(u, StatusOf(p, u))
  }

  class PresenceTable {
    var userToClient: map<string, ClientId>
    var clientToUser: map<ClientId, string>
    var busyUsers: set<string>

    function State(): Online
      reads this
    {
      Online(userToClient, clientToUser, busyUsers)
    }

    constructor ()
      ensures State() == NOBODY
    {
      userToClient, clientToUser, busyUsers := map[], map[], {};
    }

    method Login(c: ClientId, user: string) returns (previous: Option<ClientId>)
      modifies this
      ensures State() == LogIn(old(State()), c, user)
      ensures previous == if user in old(userToClient) then Some(old(userToClient)[user]) else None
    {
      previous := if user in userToClient then Some(userToClient[user]) else None;
      userToClient := userToClient[user := c];
      clientToUser := clientToUser[c := user];
    }

    method Logout(c: ClientId) returns (user: Option<string>)
      modifies this
      ensures State() == LogOut(old(State()), c)
      ensures user == if c in old(clientToUser) then Some(old(clientToUser)[c]) else None
    {
      if c in clientToUser {
        var name := clientToUser[c];
        clientToUser := clientToUser - {c};
        userToClient := userToClient - {name};
        busyUsers := busyUsers - {name};
        user := Some(name);
      } else {
        user := None;
      }
    }

    method SetBusy(user: string, busy: bool)
      modifies this
      ensures State() == MarkBusy(old(State()), user, busy)
    {
      if busy {
        busyUsers := busyUsers + {user};
      } else {
        busyUsers := busyUsers - {user};
      }
    }
  }

  // ---------- How the two maps stand to each other ----------

  /** Every logged-in client is the one its user resolves to; so no two clients share a user. */
  predicate Agrees(p: Online) {
    forall c <- p.userOf :: p.userOf[c] in p.clientOf && p.clientOf[p.userOf[c]] == c
  }

  /** A user name that still resolves to a client which is not logged in under it. */
  predicate Stale(p: Online, user: string) {
    user in p.clientOf && !(p.clientOf[user] in p.userOf && p.userOf[p.clientOf[user]] == user)
  }

  /** The two maps are inverses of each other. */
  predicate Inverse(p: Online) {
    Agrees(p) && forall user <- p.clientOf :: !Stale(p, user)
  }

  /** A login of a user that is not known yet keeps agreement; whoever was stale stays so. */
  lemma LogInKeeps(p: Online, c: ClientId, user: string)
    requires Agrees(p) && user !in p.clientOf
    ensures Agrees(LogIn(p, c, user))
    ensures forall u :: Stale(p, u) ==> Stale(LogIn(p, c, user), u)
    ensures Inverse(LogIn(p, c, user)) <==> Inverse(p) && c !in p.userOf
  {
    var q := LogIn(p, c, user);
    if c in p.userOf {
      assert Stale(q, p.userOf[c]);
    }
    forall u | Stale(p, u) ensures Stale(q, u) {
      assert u != user;
    }
    if Inverse(p) && c !in p.userOf {
      forall u | u in q.clientOf ensures !Stale(q, u) {
        assert u != user ==> u in p.clientOf && !Stale(p, u);
      }
    }
    if Inverse(q) {
      forall u | u in p.clientOf ensures !Stale(p, u) {
        assert u in q.clientOf && !Stale(q, u);
      }
    }
  }

  lemma LogOutKeeps(p: Online, c: ClientId)
    requires Agrees(p)
    ensures Agrees(LogOut(p, c))
    ensures forall u :: Stale(p, u) ==> Stale(LogOut(p, c), u)
    ensures Inverse(LogOut(p, c)) <==> Inverse(p)
  {
    var q := LogOut(p, c);
    forall u | Stale(p, u) ensures Stale(q, u) {
    }
    if Inverse(p) {
      forall u | u in q.clientOf ensures !Stale(q, u) {
        assert u in p.clientOf && !Stale(p, u);
      }
    }
    if Inverse(q) {
      forall u | u in p.clientOf ensures !Stale(p, u) {
        assert u in q.clientOf ==> !Stale(q, u);
      }
    }
  }
}
