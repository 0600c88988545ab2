/**
 One side of a session (src/core/session.rs): the message handler, the handshake driver thread and
 the close driver threads. Each handled message and each driver iteration is one atomic step.
 */
module Session {
  import opened Bytes
  import opened AppProtocol

  /**
   The atomics of a started session, whether its handshake driver is still looping, and how many close
   drivers are. A peer token of 0 means that none is known.
   */
  datatype Node = Node(
    local: u64,
    peer: u64,
    run: bool,
    established: bool,
    gotSyn: bool,
    sentSynAck: bool,
    weClose: bool,
    peerCloses: bool,
    closeDone: bool,
    driving: bool,
    closers: nat
  )

  /** The state that `start` leaves behind. */
  function Started(token: u64): Node {
    Node(token, 0, true, false, false, false, false, false, false, true, 0)
  }

  datatype Event =
    | Idle
    | Receive(msg: AppMsg)
    | Drive          // the handshake driver sends
    | DriverStops    // it leaves its loop, on timeout or because the guard fails
    | RequestClose
    | CloseDrive     // a close driver sends
    | CloserStops    // it leaves its loop, on timeout or because the guard fails

  /** Whether the event can happen at n; heard holds what the peer has ever sent. */
  predicate Enabled(n: Node, e: Event, heard: set<AppMsg>) {
    match e
    case Receive(m) => m in heard
    case Drive => n.driving && n.run && !n.established
    case DriverStops => n.driving
    case CloseDrive => n.closers > 0 && n.run && !n.closeDone
    case CloserStops => n.closers > 0
    case _ => true
  }

  /** The state after handling m, and what is sent in reply. */
  function Handle(n: Node, m: AppMsg): (r: (Node, seq<AppMsg>)) {
    match m
    case Syn(their) =>
      if n.established then (n, [])
      else if their < n.local then (n.(peer := their, gotSyn := true), [])
      else (n.(peer := their, gotSyn := true, sentSynAck := true), [SynAck(their, n.local)])
    case SynAck(your, mine) =>
      if n.established || your != n.local then (n, [])
      else (n.(peer := mine, established := true, gotSyn := false, sentSynAck := false), [Ack(mine)])
    case Ack(your) =>
      if n.established || your != n.local then (n, [])
      else (n.(established := true, gotSyn := false, sentSynAck := false), [])
    case Fin(their) =>
      (n.(peer := their, established := false, peerCloses := true), [FinAck(their, n.local)])
    case FinAck(your, mine) =>
      (n, if your == n.local then [FinAck2(mine)] else [])
    case FinAck2(your) =>
      (if your == n.local then n.(established := false, closeDone := true) else n, [])
  }

  /** The state after an enabled event, and what is sent. */
  function Apply(n: Node, e: Event): (r: (Node, seq<AppMsg>)) {
    match e
    case Idle => (n, [])
    case Receive(m) => Handle(n, m)
    case Drive =>
      var again := if n.gotSyn && n.sentSynAck && n.peer != 0 then [SynAck(n.peer, n.local), Ack(n.peer)] else [];
      (n, [Syn(n.local)] + again)
    case DriverStops => (n.(driving := false), [])
    case RequestClose => (n.(weClose := true, established := false, closers := n.closers + 1), [])
    case CloseDrive =>
      var echo := if n.peer != 0 then [FinAck(n.peer, n.local)] else [];
      (n, [Fin(n.local)] + echo)
    case CloserStops => (if n.closers > 0 then n.(closers := n.closers - 1, run := false) else n, [])
  }

  class Session {
    var tokenLocal: u64
    var tokenPeer: u64
    var runFlag: bool
    var established: bool
    var hsGotSyn: bool
    var hsSentSynAck: bool
    var weInitiatedClose: bool
    var peerInitiatedClose: bool
    var closeDone: bool
    var driving: bool
    var closers: nat

    function State(): Node
      reads this
    {
      Node(tokenLocal, tokenPeer, runFlag, established, hsGotSyn, hsSentSynAck,
           weInitiatedClose, peerInitiatedClose, closeDone, driving, closers)
    }

    /** Starts a session; token is the random draw. */
    constructor Start(token: u64)
      ensures State() == Started(token)
    {
      tokenLocal, tokenPeer := token, 0;
      established, weInitiatedClose, peerInitiatedClose, closeDone := false, false, false, false;
      runFlag := true;
      hsGotSyn, hsSentSynAck := false, false;
      driving, closers := true, 0;
    }

    method HandleAppMsg(msg: AppMsg) returns (sent: seq<AppMsg>)
      modifies this
      ensures (State(), sent) == Handle(old(State()), msg)
    {
      sent := [];
      match msg {
        case Syn(their) =>
          if established {
            return;
          }
          tokenPeer := their;
          if their > tokenLocal {
            sent := [SynAck(their, tokenLocal)];
            hsGotSyn := true;
            hsSentSynAck := true;
          } else if their < tokenLocal {
            hsGotSyn := true;
          } else {
            sent := [SynAck(their, tokenLocal)];
            hsGotSyn := true;
            hsSentSynAck := true;
          }
        case SynAck(your, mine) =>
          if established {
            return;
          }
          if your == tokenLocal {
            tokenPeer := mine;
            sent := [Ack(mine)];
            established := true;
            hsSentSynAck := false;
            hsGotSyn := false;
          }
        case Ack(your) =>
          if established {
            return;
          }
          if your == tokenLocal {
            established := true;
            hsSentSynAck := false;
            hsGotSyn := false;
          }
        case Fin(their) =>
          peerInitiatedClose := true;
          established := false;
          tokenPeer := their;
          sent := [FinAck(their, tokenLocal)];
        case FinAck(your, mine) =>
          if your == tokenLocal {
            sent := [FinAck2(mine)];
          }
        case FinAck2(your) =>
          if your == tokenLocal {
            established := false;
            closeDone := true;
          }
      }
    }

    /** One iteration of the handshake driver's loop; sending is due when its resend timer has run out. */
    method DriverIteration(timedOut: bool, due: bool) returns (sent: seq<AppMsg>)
      requires driving
      modifies this
      ensures (State(), sent) ==
        if !runFlag || old(established) || timedOut then Apply(old(State()), DriverStops)
        else Apply(old(State()), if due then Drive else Idle)
    {
      sent := [];
      if !(runFlag && !established) || timedOut {
        driving := false;
        return;
      }
      if due {
        var again := [];
        if hsGotSyn && hsSentSynAck {
          var their := tokenPeer;
          if their != 0 {
            again := [SynAck(their, tokenLocal), Ack(their)];
          }
        }
        sent := [Syn(tokenLocal)] + again;
      }
    }

    method RequestCloseCall()
      modifies this
      ensures State() == Apply(old(State()), RequestClose).0
    {
      weInitiatedClose := true;
      established := false;
      closers := closers + 1;
    }

    /** One iteration of a close driver's loop. */
    method CloserIteration(timedOut: bool, due: bool) returns (sent: seq<AppMsg>)
      requires closers > 0
      modifies this
      ensures (State(), sent) ==
        if !old(runFlag) || closeDone || timedOut then Apply(old(State()), CloserStops)
        else Apply(old(State()), if due then CloseDrive else Idle)
    {
      sent := [];
      if !(runFlag && !closeDone) || timedOut {
        runFlag := false;
        closers := closers - 1;
        return;
      }
      if due {
        var their, echo := tokenPeer, [];
        if their != 0 {
          echo := [FinAck(their, tokenLocal)];
        }
        sent := [Fin(tokenLocal)] + echo;
      }
    }
  }
}
