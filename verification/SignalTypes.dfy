/** Messages between signaling clients and the server. */
module SignalTypes {
  import opened Bytes

  type ClientId = u64

  datatype Status = Available | Busy

  datatype Peer = Peer(name: string, status: Status)

  /** The peers of a PeersOnline message come out of a hash map, so they are a set. */
  datatype Msg =
    | Hello(clientVersion: string)
    | Login(username: string, password: string)
    | LoginOk(username: string)
    | LoginErr(code: u16)
    | Register(username: string, password: string)
    | RegisterOk(username: string)
    | RegisterErr(code: u16)
    | ListPeers
    | PeersOnline(peers: set<Peer>)
    | CreateSession(capacity: byte)
    | Created(sessionId: string, sessionCode: string)
    | Join(sessionCode: string)
    | JoinOk(sessionId: string)
    | JoinErr(code: u16)
    | PeerJoined(sessionId: string, username: string)
    | PeerLeft(sessionId: string, username: string)
    | Offer(txn: u64, from: string, to: string, sdp: seq<byte>)
    | Answer(txn: u64, from: string, to: string, sdp: seq<byte>)
    | Candidate(from: string, to: string, mid: string, mlineIndex: u16, cand: seq<byte>)
    | Ack(from: string, to: string, txn: u64)
    | Bye(from: string, to: string, reason: Option<string>)
    | Ping(nonce: u64)
    | Pong(nonce: u64)

  /** A message the server wants to send. */
  datatype Out = Out(target: ClientId, msg: Msg)

  /** The messages addressed to one client, in order. */
  function To(out: seq<Out>, c: ClientId): seq<Msg> {
    if out == [] then []
    else
      var o := out[|out| - 1];
      To(out[..|out| - 1], c) + if o.target == c then [o.msg] else []
  }

  lemma ToSnoc(out: seq<Out>, o: Out, c: ClientId)
    ensures To(out + [o], c) == To(out, c) + if o.target == c then [o.msg] else []
  {
    assert (out + [o])[..|out|] == out;
  }

  lemma {:induction false} ToConcat(a: seq<Out>, b: seq<Out>, c: ClientId)
    ensures To(a + b, c) == To(a, c) + To(b, c)
  {
    if b == [] {
      assert a + b == a;
    } else {
      var n := |b| - 1;
      ToConcat(a, b[..n], c);
      assert a + b == (a + b[..n]) + [b[n]];
      ToSnoc(a + b[..n], b[n], c);
    }
  }
}
