/**
 Two sessions over a network that loses, repeats and reorders: what a side has ever sent may reach the
 other any number of times, in any order, or never.
 */
module Handshake {
  import opened Bytes
  import opened AppProtocol
  import opened Session

  datatype Side = Low | High

  datatype Action = Action(side: Side, event: Event)

  datatype System = System(low: Node, high: Node, fromLow: set<AppMsg>, fromHigh: set<AppMsg>)

  function MessagesIn(s: seq<AppMsg>): (e: set<AppMsg>) {
    set m | m in s
  }

  function Init(l: u64, h: u64): System {
    System(Started(l), Started(h), {}, {})
  }

  /** One event at one side; one that is not enabled does nothing. */
  function Act(n: Node, e: Event, heard: set<AppMsg>): (Node, seq<AppMsg>) {
    if Enabled(n, e, heard) then Apply(n, e) else (n, [])
  }

  function Step(s: System, a: Action): System {
    match a.side
    case Low =>
      var (n, out) := Act(s.low, a.event, s.fromHigh);
      s.(low := n, fromLow := s.fromLow + MessagesIn(out))
    case High =>
      var (n, out) := Act(s.high, a.event, s.fromLow);
      s.(high := n, fromHigh := s.fromHigh + MessagesIn(out))
  }

  /** The system after a run. */
  function After(l: u64, h: u64, run: seq<Action>): System {
    if run == [] then Init(l, h) else Step(After(l, h, run[..|run| - 1]), run[|run| - 1])
  }

  // ---------- The invariant ----------

  /**
   What holds of a side with token x, whose peer has token y, in every reachable state: whom it believes
   in, what it can have sent, and what each message it sent is evidence of.
   */
  predicate Sound(n: Node, x: u64, y: u64, sent: set<AppMsg>) {
    Flags(n, x, y) && forall m <- sent :: Legal(m, n, x, y)
  }

  predicate Flags(n: Node, x: u64, y: u64) {
    && n.local == x
    && n.peer in {0, y}
    && (n.sentSynAck ==> x < y && n.peer == y)
    && (n.closers > 0 ==> n.weClose)
    && (n.peerCloses ==> n.peer == y)
  }

  predicate Legal(m: AppMsg, n: Node, x: u64, y: u64) {
    match m
    case Syn(t) => t == x
    case SynAck(your, mine) => your == y && mine == x && x < y && n.peer == y
    case Ack(your) => your == y && n.peer == y
    case Fin(t) => t == x && n.weClose
    case FinAck(your, mine) => your == y && mine == x && n.peer == y
    case FinAck2(your) => your == y
  }

  /** What a side's messages and flags say about the peer. */
  predicate Justified(n: Node, x: u64, y: u64, sent: set<AppMsg>, heard: set<AppMsg>) {
    && (n.peerCloses ==> Fin(y) in heard)
    && (FinAck(y, x) in sent ==> n.weClose || Fin(y) in heard)
    && (FinAck2(y) in sent ==> FinAck(x, y) in heard)
    && (n.closeDone ==> FinAck2(x) in heard)
    && (x > y && Ack(y) in sent ==> SynAck(x, y) in heard)
    && (x < y && n.established ==> Ack(x) in heard)
  }

  predicate Inv(s: System, l: u64, h: u64) {
    && Sound(s.low, l, h, s.fromLow) && Sound(s.high, h, l, s.fromHigh)
    && Justified(s.low, l, h, s.fromLow, s.fromHigh) && Justified(s.high, h, l, s.fromHigh, s.fromLow)
  }

  /** What an event may assume: a message received is one the peer could legally have sent. */
  predicate Possible(n: Node, x: u64, y: u64, e: Event) {
    match e
    case Receive(Syn(t)) => t == y
    case Receive(SynAck(your, mine)) => your == x && mine == y && y < x
    case Receive(Fin(t)) => t == y
    case Receive(FinAck(your, mine)) => your == x && mine == y
    case Drive => true
    case CloseDrive => n.closers > 0
    case _ => true
  }

  lemma OnlyPossible(n: Node, x: u64, y: u64, heard: set<AppMsg>, peer: Node, e: Event)
    requires Sound(peer, y, x, heard) && Enabled(n, e, heard)
    ensures Possible(n, x, y, e)
  {
    assert e.Receive? ==> Legal(e.msg, peer, y, x);
  }

  /** The flags stay sound, a peer token once right stays right, and a close once requested stays requested. */
  predicate Advances(n: Node, n': Node, x: u64, y: u64) {
    Flags(n', x, y) && (n.peer == y ==> n'.peer == y) && (n.weClose ==> n'.weClose)
  }

  lemma HandleFlags(n: Node, x: u64, y: u64, m: AppMsg)
    requires x != y && x != 0 && y != 0 && Flags(n, x, y) && Possible(n, x, y, Receive(m))
    ensures Advances(n, Handle(n, m).0, x, y)
  {
  }

  lemma EventFlags(n: Node, x: u64, y: u64, e: Event)
    requires x != y && x != 0 && y != 0 && Flags(n, x, y) && Possible(n, x, y, e)
    ensures Advances(n, Apply(n, e).0, x, y)
  {
    if e.Receive? {
      HandleFlags(n, x, y, e.msg);
    }
  }

  lemma EventSends(n: Node, x: u64, y: u64, e: Event)
    requires x != y && x != 0 && y != 0 && Flags(n, x, y) && Possible(n, x, y, e)
    ensures var (n', out) := Apply(n, e); forall m <- out :: Legal(m, n', x, y)
  {
  }

  lemma HandleJustified(n: Node, x: u64, y: u64, sent: set<AppMsg>, heard: set<AppMsg>, m: AppMsg)
    requires x != y && x != 0 && y != 0 && Flags(n, x, y) && Possible(n, x, y, Receive(m))
    requires Justified(n, x, y, sent, heard) && m in heard
    ensures var (n', out) := Handle(n, m); Justified(n', x, y, sent + MessagesIn(out), heard)
  {
  }

  lemma EventJustified(n: Node, x: u64, y: u64, sent: set<AppMsg>, heard: set<AppMsg>, e: Event)
    requires x != y && x != 0 && y != 0 && Flags(n, x, y) && Possible(n, x, y, e)
    requires Justified(n, x, y, sent, heard) && Enabled(n, e, heard)
    ensures var (n', out) := Apply(n, e); Justified(n', x, y, sent + MessagesIn(out), heard)
  {
    if e.Receive? {
      HandleJustified(n, x, y, sent, heard, e.msg);
    }
  }

  /** Every reply and every driver iteration of one side keeps it sound and justified. */
  lemma SideStep(n: Node, x: u64, y: u64, sent: set<AppMsg>, heard: set<AppMsg>, peer: Node, e: Event)
    requires x != y && x != 0 && y != 0
    requires Sound(n, x, y, sent) && Justified(n, x, y, sent, heard)
    requires Sound(peer, y, x, heard)
    ensures var (n', out) := Act(n, e, heard);
      Sound(n', x, y, sent + MessagesIn(out)) && Justified(n', x, y, sent + MessagesIn(out), heard)
  {
    if Enabled(n, e, heard) {
      OnlyPossible(n, x, y, heard, peer, e);
      EventFlags(n, x, y, e);
      EventSends(n, x, y, e);
      EventJustified(n, x, y, sent, heard, e);
    } else {
      assert sent + MessagesIn([]) == sent;
    }
  }

  lemma StepKeeps(s: System, l: u64, h: u64, a: Action)
    requires 0 < l < h && Inv(s, l, h)
    ensures Inv(Step(s, a), l, h)
  {
    match a.side
    case Low =>
      SideStep(s.low, l, h, s.fromLow, s.fromHigh, s.high, a.event);
    case High =>
      SideStep(s.high, h, l, s.fromHigh, s.fromLow, s.low, a.event);
  }

  lemma {:induction false} Reachable(l: u64, h: u64, run: seq<Action>)
    requires 0 < l < h
    ensures Inv(After(l, h, run), l, h)
  {
    if run != [] {
      Reachable(l, h, run[..|run| - 1]);
      StepKeeps(After(l, h, run[..|run| - 1]), l, h, run[|run| - 1]);
    }
  }

  // ---------- Agreement ----------

  /** In no run does the side with the higher token send a SYN-ACK. */
  lemma HigherNeverSendsSynAck(l: u64, h: u64, run: seq<Action>)
    requires 0 < l < h
    ensures forall m <- After(l, h, run).fromHigh :: !m.SynAck?
  {
    Reachable(l, h, run);
  }

  /** The higher side acknowledges only in the step that establishes it. */
  lemma AckEstablishes(s: System, l: u64, h: u64, a: Action)
    requires 0 < l < h && Inv(s, l, h)
    requires Ack(l) !in s.fromHigh && Ack(l) in Step(s, a).fromHigh
    ensures Step(s, a).high.established
  {
    assert !s.high.sentSynAck;
  }

  lemma {:induction false} AckedWasEstablished(l: u64, h: u64, run: seq<Action>) returns (j: nat)
    requires 0 < l < h && Ack(l) in After(l, h, run).fromHigh
    ensures j <= |run| && After(l, h, run[..j]).high.established
  {
    var before := run[..|run| - 1];
    Reachable(l, h, before);
    if Ack(l) in After(l, h, before).fromHigh {
      j := AckedWasEstablished(l, h, before);
      assert before[..j] == run[..j];
    } else {
      AckEstablishes(After(l, h, before), l, h, run[|run| - 1]);
      j := |run|;
      assert run[..j] == run;
    }
  }

  lemma LowEventNeedsAck(n: Node, l: u64, h: u64, e: Event)
    requires l < h && Flags(n, l, h) && Possible(n, l, h, e)
    requires !n.established && Apply(n, e).0.established
    ensures e == Receive(Ack(l))
  {
  }

  /** The lower side becomes established only by an acknowledgement that was already on the network. */
  lemma LowNeedsAck(s: System, l: u64, h: u64, a: Action)
    requires 0 < l < h && Inv(s, l, h)
    requires !s.low.established && Step(s, a).low.established
    ensures Ack(l) in s.fromHigh
  {
    OnlyPossible(s.low, l, h, s.fromHigh, s.high, a.event);
    LowEventNeedsAck(s.low, l, h, a.event);
  }

  lemma {:induction false} EarlierAck(l: u64, h: u64, run: seq<Action>) returns (k: nat)
    requires 0 < l < h && After(l, h, run).low.established
    ensures k < |run| && Ack(l) in After(l, h, run[..k]).fromHigh
  {
    var before := run[..|run| - 1];
    Reachable(l, h, before);
    if After(l, h, before).low.established {
      k := EarlierAck(l, h, before);
      assert before[..k] == run[..k];
    } else {
      LowNeedsAck(After(l, h, before), l, h, run[|run| - 1]);
      k := |run| - 1;
    }
  }

  lemma {:induction false} PeersKept(l: u64, h: u64, run: seq<Action>, k: nat)
    requires 0 < l < h && k <= |run|
    ensures After(l, h, run[..k]).low.peer == h ==> After(l, h, run).low.peer == h
    ensures After(l, h, run[..k]).high.peer == l ==> After(l, h, run).high.peer == l
  {
    if k == |run| {
      assert run[..k] == run;
    } else {
      var before, last := run[..|run| - 1], run[|run| - 1];
      assert before[..k] == run[..k];
      PeersKept(l, h, before, k);
      Reachable(l, h, before);
      StepPeers(After(l, h, before), l, h, last);
    }
  }

  lemma StepPeers(s: System, l: u64, h: u64, a: Action)
    requires 0 < l < h && Inv(s, l, h)
    ensures s.low.peer == h ==> Step(s, a).low.peer == h
    ensures s.high.peer == l ==> Step(s, a).high.peer == l
  {
    match a.side
    case Low =>
      if Enabled(s.low, a.event, s.fromHigh) {
        OnlyPossible(s.low, l, h, s.fromHigh, s.high, a.event);
        EventFlags(s.low, l, h, a.event);
      }
    case High =>
      if Enabled(s.high, a.event, s.fromLow) {
        OnlyPossible(s.high, h, l, s.fromLow, s.low, a.event);
        EventFlags(s.high, h, l, a.event);
      }
  }

  lemma AckMeansAgreement(s: System, l: u64, h: u64)
    requires 0 < l < h && Inv(s, l, h) && Ack(l) in s.fromHigh
    ensures s.low.peer == h && s.high.peer == l
  {
    assert Legal(Ack(l), s.high, h, l);
    assert Legal(SynAck(h, l), s.low, l, h);
  }

  /**
   If the lower side is established at any point of a run, the higher side was established strictly
   before that point, and from then on each side holds the other's token.
   */
  lemma Agreement(l: u64, h: u64, run: seq<Action>, k: nat) returns (j: nat)
    requires 0 < l < h && k <= |run| && After(l, h, run[..k]).low.established
    ensures j < k && After(l, h, run[..j]).high.established
    ensures After(l, h, run[..k]).low.peer == After(l, h, run).low.peer == h
    ensures After(l, h, run[..k]).high.peer == After(l, h, run).high.peer == l
  {
    var upto := run[..k];
    var i := EarlierAck(l, h, upto);
    j := AckedWasEstablished(l, h, upto[..i]);
    assert upto[..i][..j] == run[..j];
    Reachable(l, h, upto[..i]);
    AckMeansAgreement(After(l, h, upto[..i]), l, h);
    PeersKept(l, h, upto, i);
    PeersKept(l, h, run, k);
  }

  // ---------- Close ----------

  predicate CloseExplained(n: Node, peer: Node, y: u64) {
    && (n.closeDone ==> n.peer == y && (n.weClose || peer.weClose))
    && (n.peerCloses ==> n.peer == y && peer.weClose)
  }

  lemma SideClose(n: Node, x: u64, y: u64, sent: set<AppMsg>, heard: set<AppMsg>, peer: Node)
    requires Sound(n, x, y, sent) && Justified(n, x, y, sent, heard)
    requires Sound(peer, y, x, heard) && Justified(peer, y, x, heard, sent)
    ensures CloseExplained(n, peer, y)
  {
    assert FinAck(y, x) in sent ==> Legal(FinAck(y, x), n, x, y);
    assert Fin(y) in heard ==> Legal(Fin(y), peer, y, x);
  }

  /**
   In every run, a side that has marked its close done holds the peer's token and one of the two asked
   for the close; a side that believes its peer asked is right.
   */
  lemma CloseCausality(l: u64, h: u64, run: seq<Action>)
    requires 0 < l < h
    ensures var s := After(l, h, run); CloseExplained(s.low, s.high, h) && CloseExplained(s.high, s.low, l)
  {
    Reachable(l, h, run);
    var s := After(l, h, run);
    SideClose(s.low, l, h, s.fromLow, s.fromHigh, s.high);
    SideClose(s.high, h, l, s.fromHigh, s.fromLow, s.low);
  }

  // ---------- Established without a token ----------

  /** Whether handling the event gives n the peer's token. */
  predicate Learns(n: Node, e: Event) {
    e.Receive? &&
    (e.msg.Fin? || (!n.established && (e.msg.Syn? || (e.msg.SynAck? && e.msg.your == n.local))))
  }

  lemma EventLearns(n: Node, x: u64, y: u64, e: Event)
    requires x != y && x != 0 && y != 0 && Flags(n, x, y) && Possible(n, x, y, e)
    ensures Apply(n, e).0.peer == (if Learns(n, e) then y else n.peer)
  {
  }

  lemma AfterSnoc(l: u64, h: u64, run: seq<Action>, a: Action)
    ensures After(l, h, run + [a]) == Step(After(l, h, run), a)
  {
    assert (run + [a])[..|run|] == run;
  }

  /** The lower side has answered a SYN and retransmitted: an ACK is on the way; the higher one heard nothing. */
  lemma AckRun(l: u64, h: u64) returns (run: seq<Action>)
    requires 0 < l < h
    ensures var s := After(l, h, run);
      s.low == Started(l).(peer := h, gotSyn := true, sentSynAck := true) && s.high == Started(h) && Ack(h) in s.fromLow
  {
    var a0, a1, a2 := Action(High, Drive), Action(Low, Receive(Syn(h))), Action(Low, Drive);
    AfterSnoc(l, h, [], a0);
    AfterSnoc(l, h, [] + [a0], a1);
    AfterSnoc(l, h, [] + [a0] + [a1], a2);
    assert Syn(h) in After(l, h, [] + [a0]).fromHigh;
    var s := After(l, h, [] + [a0] + [a1]);
    assert s.low.sentSynAck && s.low.peer == h;
    assert Ack(h) in MessagesIn(Apply(s.low, Drive).1);
    run := [] + [a0] + [a1] + [a2];
  }

  /**
   The higher side can be established while its peer token is still 0: a retransmitted ACK reaches it
   first. By Agreement the lower side is then not established.
   */
  lemma EstablishedWithoutToken(l: u64, h: u64) returns (run: seq<Action>)
    requires 0 < l < h
    ensures var s := After(l, h, run); s.high.established && s.high.peer == 0 && !s.low.established
  {
    var before := AckRun(l, h);
    var a := Action(High, Receive(Ack(h)));
    AfterSnoc(l, h, before, a);
    run := before + [a];
  }

  // ---------- Established again after the close ----------

  function NodeOf(s: System, side: Side): Node {
    if side.Low? then s.low else s.high
  }

  function HeardBy(s: System, side: Side): set<AppMsg> {
    if side.Low? then s.fromHigh else s.fromLow
  }

  /** The action is an event that happens at the side. */
  predicate Happens(s: System, a: Action, side: Side) {
    a.side == side && Enabled(NodeOf(s, side), a.event, HeardBy(s, side))
  }

  /** The event is an acknowledgement of n's token. */
  predicate Acknowledges(n: Node, e: Event) {
    e.Receive? && (e.msg.Ack? || e.msg.SynAck?) && e.msg.your == n.local
  }

  /** The event ends the established state: a close request, a FIN, or the last message of a close. */
  predicate Ends(n: Node, e: Event) {
    e.RequestClose? || (e.Receive? && (e.msg.Fin? || (e.msg.FinAck2? && e.msg.your == n.local)))
  }

  /** How established and closeDone move from n to n', if the event is e. */
  predicate Opens(n: Node, n': Node, e: Event) {
    && (n'.established <==> !Ends(n, e) && (n.established || Acknowledges(n, e)))
    && (n'.closeDone <==> n.closeDone || (e.Receive? && e.msg.FinAck2? && e.msg.your == n.local))
  }

  lemma HandshakeOpens(n: Node, m: AppMsg)
    requires m.Syn? || m.SynAck? || m.Ack?
    ensures Opens(n, Handle(n, m).0, Receive(m))
  {
  }

  lemma CloseOpens(n: Node, m: AppMsg)
    requires m.Fin? || m.FinAck? || m.FinAck2?
    ensures Opens(n, Handle(n, m).0, Receive(m))
  {
  }

  lemma EventOpens(n: Node, e: Event)
    ensures Opens(n, Apply(n, e).0, e)
  {
    if e.Receive? {
      if e.msg.Syn? || e.msg.SynAck? || e.msg.Ack? {
        HandshakeOpens(n, e.msg);
      } else {
        CloseOpens(n, e.msg);
      }
    }
  }

  lemma StepAt(s: System, a: Action, side: Side)
    ensures NodeOf(Step(s, a), side) ==
      if Happens(s, a, side) then Apply(NodeOf(s, side), a.event).0 else NodeOf(s, side)
  {
  }

  /** At step i the side handles an acknowledgement although its close is done. */
  predicate ReopensAt(l: u64, h: u64, run: seq<Action>, i: nat, side: Side)
    requires i < |run|
  {
    var s := After(l, h, run[..i]);
    Happens(s, run[i], side) && NodeOf(s, side).closeDone && Acknowledges(NodeOf(s, side), run[i].event)
  }

  predicate EndsAt(l: u64, h: u64, run: seq<Action>, i: nat, side: Side)
    requires i < |run|
  {
    var s := After(l, h, run[..i]);
    Happens(s, run[i], side) && Ends(NodeOf(s, side), run[i].event)
  }

  lemma EndsBefore(l: u64, h: u64, run: seq<Action>, n: nat, j: nat, side: Side)
    requires j < n <= |run|
    ensures EndsAt(l, h, run[..n], j, side) == EndsAt(l, h, run, j, side)
  {
    assert run[..n][..j] == run[..j];
  }

  /** Such an acknowledgement was handled at step i, and nothing has ended the established state since. */
  predicate ReopenedBy(l: u64, h: u64, run: seq<Action>, i: nat, side: Side)
    requires i < |run|
  {
    ReopensAt(l, h, run, i, side) && forall j :: i < j < |run| ==> !EndsAt(l, h, run, j, side)
  }

  predicate Reopened(l: u64, h: u64, run: seq<Action>, side: Side) {
    exists i :: 0 <= i < |run| && ReopenedBy(l, h, run, i, side)
  }

  lemma ReopenedBySnoc(l: u64, h: u64, run: seq<Action>, n: nat, i: nat, side: Side)
    requires n + 1 == |run| && i < n
    ensures ReopenedBy(l, h, run, i, side) <==> ReopenedBy(l, h, run[..n], i, side) && !EndsAt(l, h, run, n, side)
  {
    forall j | 0 <= j < n ensures EndsAt(l, h, run[..n], j, side) == EndsAt(l, h, run, j, side) {
      EndsBefore(l, h, run, n, j, side);
    }
    assert run[..n][..i] == run[..i];
  }

  lemma ReopenedSnoc(l: u64, h: u64, run: seq<Action>, n: nat, side: Side)
    requires n + 1 == |run|
    ensures Reopened(l, h, run, side) <==>
      ReopensAt(l, h, run, n, side) || (Reopened(l, h, run[..n], side) && !EndsAt(l, h, run, n, side))
  {
    if Reopened(l, h, run, side) {
      var i :| 0 <= i < |run| && ReopenedBy(l, h, run, i, side);
      if i < n {
        ReopenedBySnoc(l, h, run, n, i, side);
      }
    }
    if ReopensAt(l, h, run, n, side) {
      assert ReopenedBy(l, h, run, n, side);
    }
    if Reopened(l, h, run[..n], side) && !EndsAt(l, h, run, n, side) {
      var i :| 0 <= i < n && ReopenedBy(l, h, run[..n], i, side);
      ReopenedBySnoc(l, h, run, n, i, side);
    }
  }

  /**
   A side whose close is done is established again exactly if it has since handled a SYN-ACK or ACK for its token,
   and no close request, FIN or FIN-ACK2 after that.
   */
  lemma {:induction false} ReopenedIff(l: u64, h: u64, run: seq<Action>, side: Side)
    ensures var n := NodeOf(After(l, h, run), side); n.closeDone && n.established <==> Reopened(l, h, run, side)
  {
    if run != [] {
      var n := |run| - 1;
      var s := After(l, h, run[..n]);
      ReopenedIff(l, h, run[..n], side);
      ReopenedSnoc(l, h, run, n, side);
      StepAt(s, run[n], side);
      EventOpens(NodeOf(s, side), run[n].event);
    }
  }

  /** From there the lower side asks for a close, and its FIN is on the way too. */
  lemma ClosingRun(l: u64, h: u64) returns (run: seq<Action>)
    requires 0 < l < h
    ensures var s := After(l, h, run);
      s.low.local == l && s.high == Started(h) && Ack(h) in s.fromLow && Fin(l) in s.fromLow
  {
    var r0 := AckRun(l, h);
    var ask, drive := Action(Low, RequestClose), Action(Low, CloseDrive);
    AfterSnoc(l, h, r0, ask);
    AfterSnoc(l, h, r0 + [ask], drive);
    assert Fin(l) in MessagesIn(Apply(After(l, h, r0 + [ask]).low, CloseDrive).1);
    run := r0 + [ask] + [drive];
  }

  /** A close that is done does not stay so: a late copy of the ACK establishes the side once more. */
  lemma EstablishedAfterClose(l: u64, h: u64) returns (run: seq<Action>)
    requires 0 < l < h
    ensures var n := After(l, h, run).high; n.closeDone && n.established
  {
    var r0 := ClosingRun(l, h);
    var b0, b1 := Action(High, Receive(Fin(l))), Action(Low, Receive(FinAck(l, h)));
    var b2, b3 := Action(High, Receive(FinAck2(h))), Action(High, Receive(Ack(h)));
    AfterSnoc(l, h, r0, b0);
    AfterSnoc(l, h, r0 + [b0], b1);
    AfterSnoc(l, h, r0 + [b0] + [b1], b2);
    AfterSnoc(l, h, r0 + [b0] + [b1] + [b2], b3);
    assert FinAck(l, h) in After(l, h, r0 + [b0]).fromHigh;
    assert FinAck2(h) in After(l, h, r0 + [b0] + [b1]).fromLow;
    assert After(l, h, r0 + [b0] + [b1] + [b2]).high.closeDone;
    run := r0 + [b0] + [b1] + [b2] + [b3];
  }

  // ---------- What is sent, and what the flags mean, by events ----------

  function SentBy(s: System, side: Side): set<AppMsg> {
    if side.Low? then s.fromLow else s.fromHigh
  }

  /** At step i something happens at the side that p describes, given the side's state at that point. */
  predicate EverAt(l: u64, h: u64, run: seq<Action>, i: nat, side: Side, p: (Node, Event) -> bool)
    requires i < |run|
  {
    var s := After(l, h, run[..i]);
    Happens(s, run[i], side) && p(NodeOf(s, side), run[i].event)
  }

  predicate Ever(l: u64, h: u64, run: seq<Action>, side: Side, p: (Node, Event) -> bool) {
    exists i :: 0 <= i < |run| && EverAt(l, h, run, i, side, p)
  }

  lemma EverSnoc(l: u64, h: u64, run: seq<Action>, n: nat, side: Side, p: (Node, Event) -> bool)
    requires n + 1 == |run|
    ensures Ever(l, h, run, side, p) <==> Ever(l, h, run[..n], side, p) || EverAt(l, h, run, n, side, p)
  {
    forall i | 0 <= i < n ensures EverAt(l, h, run[..n], i, side, p) == EverAt(l, h, run, i, side, p) {
      assert run[..n][..i] == run[..i];
    }
  }

  /** When an event makes a side send a message: a reply to what it handles, or a round of one of its drivers. */
  predicate Says(n: Node, e: Event, m: AppMsg) {
    match m
    case Syn(t) => t == n.local && e.Drive?
    case SynAck(your, mine) =>
      && mine == n.local
      && ((e == Receive(Syn(your)) && !n.established && your >= n.local) || (Repeats(n, e) && your == n.peer))
    case Ack(your) =>
      || (e == Receive(SynAck(n.local, your)) && !n.established)
      || (Repeats(n, e) && your == n.peer)
    case Fin(t) => t == n.local && e.CloseDrive?
    case FinAck(your, mine) =>
      mine == n.local && (e == Receive(Fin(your)) || (e.CloseDrive? && n.peer != 0 && your == n.peer))
    case FinAck2(your) => e == Receive(FinAck(n.local, your))
  }

  /** A round of the handshake driver that repeats the replies to a SYN. */
  predicate Repeats(n: Node, e: Event) {
    e.Drive? && n.gotSyn && n.sentSynAck && n.peer != 0
  }

  lemma RepliesSaid(n: Node, msg: AppMsg, m: AppMsg)
    ensures m in Handle(n, msg).1 <==> Says(n, Receive(msg), m)
  {
    match msg
    case Syn(their) =>
    case SynAck(your, mine) =>
    case Ack(your) =>
    case Fin(their) =>
    case FinAck(your, mine) =>
    case FinAck2(your) =>
  }

  lemma EventSaid(n: Node, e: Event, m: AppMsg)
    ensures m in Apply(n, e).1 <==> Says(n, e, m)
  {
    if e.Receive? {
      RepliesSaid(n, e.msg, m);
    }
  }

  function Saying(m: AppMsg): (Node, Event) -> bool {
    (n: Node, e: Event) => Says(n, e, m)
  }

  lemma StepSaid(s: System, a: Action, side: Side, m: AppMsg)
    ensures m in SentBy(Step(s, a), side) <==>
      m in SentBy(s, side) || (Happens(s, a, side) && Says(NodeOf(s, side), a.event, m))
  {
    EventSaid(NodeOf(s, side), a.event, m);
  }

  /** In every run, a side has sent a message exactly if some event made it do so. */
  lemma {:induction false} SentIff(l: u64, h: u64, run: seq<Action>, side: Side, m: AppMsg)
    ensures m in SentBy(After(l, h, run), side) <==> Ever(l, h, run, side, Saying(m))
  {
    if run != [] {
      var n := |run| - 1;
      SentIff(l, h, run[..n], side, m);
      EverSnoc(l, h, run, n, side, Saying(m));
      StepSaid(After(l, h, run[..n]), run[n], side, m);
    }
  }

  function Handling(m: AppMsg): (Node, Event) -> bool {
    (n: Node, e: Event) => e == Receive(m)
  }

  function HandlingUnestablished(m: AppMsg): (Node, Event) -> bool {
    (n: Node, e: Event) => e == Receive(m) && !n.established
  }

  function Asking(): (Node, Event) -> bool {
    (n: Node, e: Event) => e.RequestClose?
  }

  function ClosingRound(): (Node, Event) -> bool {
    (n: Node, e: Event) => e.CloseDrive? && n.peer != 0
  }

  lemma SameEver(l: u64, h: u64, run: seq<Action>, side: Side, p: (Node, Event) -> bool, q: (Node, Event) -> bool)
    requires forall i :: 0 <= i < |run| ==> EverAt(l, h, run, i, side, p) == EverAt(l, h, run, i, side, q)
    ensures Ever(l, h, run, side, p) <==> Ever(l, h, run, side, q)
  {
    if Ever(l, h, run, side, p) {
      var i :| 0 <= i < |run| && EverAt(l, h, run, i, side, p);
      assert EverAt(l, h, run, i, side, q);
    }
    if Ever(l, h, run, side, q) {
      var i :| 0 <= i < |run| && EverAt(l, h, run, i, side, q);
      assert EverAt(l, h, run, i, side, p);
    }
  }

  lemma TokensKept(l: u64, h: u64, run: seq<Action>)
    requires 0 < l < h
    ensures After(l, h, run).low.local == l && After(l, h, run).high.local == h
  {
    Reachable(l, h, run);
  }

  /** The higher side has acknowledged exactly if it handled the SYN-ACK of the lower one while not established. */
  lemma AckIff(l: u64, h: u64, run: seq<Action>)
    requires 0 < l < h
    ensures Ack(l) in After(l, h, run).fromHigh <==> Ever(l, h, run, High, HandlingUnestablished(SynAck(h, l)))
  {
    SentIff(l, h, run, High, Ack(l));
    forall i | 0 <= i < |run|
      ensures EverAt(l, h, run, i, High, Saying(Ack(l))) ==
              EverAt(l, h, run, i, High, HandlingUnestablished(SynAck(h, l)))
    {
      Reachable(l, h, run[..i]);
    }
    SameEver(l, h, run, High, Saying(Ack(l)), HandlingUnestablished(SynAck(h, l)));
  }

  /** Whether the lower side ever handled the SYN of the higher one while not established. */
  predicate SynHandled(l: u64, h: u64, run: seq<Action>) {
    Ever(l, h, run, Low, HandlingUnestablished(Syn(h)))
  }

  lemma SynFlag(n: Node, e: Event)
    ensures Apply(n, e).0.sentSynAck ==>
      n.sentSynAck || (e.Receive? && e.msg.Syn? && !n.established && e.msg.token >= n.local)
  {
    if e.Receive? {
      SynReplyFlag(n, e.msg);
    }
  }

  lemma SynReplyFlag(n: Node, m: AppMsg)
    ensures Handle(n, m).0.sentSynAck ==> n.sentSynAck || (m.Syn? && !n.established && m.token >= n.local)
  {
  }

  lemma {:induction false} FlagMeansSyn(l: u64, h: u64, run: seq<Action>)
    requires 0 < l < h && After(l, h, run).low.sentSynAck
    ensures SynHandled(l, h, run)
  {
    if run != [] {
      var n := |run| - 1;
      var s := After(l, h, run[..n]);
      Reachable(l, h, run[..n]);
      StepAt(s, run[n], Low);
      SynFlag(s.low, run[n].event);
      EverSnoc(l, h, run, n, Low, HandlingUnestablished(Syn(h)));
      if s.low.sentSynAck {
        FlagMeansSyn(l, h, run[..n]);
      } else {
        OnlyPossible(s.low, l, h, s.fromHigh, s.high, run[n].event);
      }
    }
  }

  lemma {:induction false} EverLater(l: u64, h: u64, run: seq<Action>, k: nat, side: Side, p: (Node, Event) -> bool)
    requires k <= |run| && Ever(l, h, run[..k], side, p)
    ensures Ever(l, h, run, side, p)
  {
    var i :| 0 <= i < k && EverAt(l, h, run[..k], i, side, p);
    assert run[..k][..i] == run[..i];
    assert EverAt(l, h, run, i, side, p);
  }

  /** The lower side has sent its SYN-ACK exactly if it handled the SYN of the higher one while not established. */
  lemma SynAckIff(l: u64, h: u64, run: seq<Action>)
    requires 0 < l < h
    ensures SynAck(h, l) in After(l, h, run).fromLow <==> SynHandled(l, h, run)
  {
    SentIff(l, h, run, Low, SynAck(h, l));
    TokensKept(l, h, run);
    if Ever(l, h, run, Low, Saying(SynAck(h, l))) {
      var i :| 0 <= i < |run| && EverAt(l, h, run, i, Low, Saying(SynAck(h, l)));
      if EverAt(l, h, run, i, Low, HandlingUnestablished(Syn(h))) {
        assert SynHandled(l, h, run);
      } else {
        FlagMeansSyn(l, h, run[..i]);
        EverLater(l, h, run, i, Low, HandlingUnestablished(Syn(h)));
      }
    }
    if SynHandled(l, h, run) {
      var i :| 0 <= i < |run| && EverAt(l, h, run, i, Low, HandlingUnestablished(Syn(h)));
      TokensKept(l, h, run[..i]);
      assert EverAt(l, h, run, i, Low, Saying(SynAck(h, l)));
    }
  }

  function TokenOf(l: u64, h: u64, side: Side): u64 {
    if side.Low? then l else h
  }

  function PeerOf(l: u64, h: u64, side: Side): u64 {
    if side.Low? then h else l
  }

  /** A FIN-ACK was sent exactly if the peer's FIN was handled or a close round came when the peer was known; a FIN-ACK2
      exactly if a FIN-ACK for the side's token was handled. */
  lemma FinRepliesIff(l: u64, h: u64, run: seq<Action>, side: Side)
    requires 0 < l < h
    ensures var (x, y, sent) := (TokenOf(l, h, side), PeerOf(l, h, side), SentBy(After(l, h, run), side));
      && (FinAck(y, x) in sent <==>
            Ever(l, h, run, side, Handling(Fin(y))) || Ever(l, h, run, side, ClosingRound()))
      && (FinAck2(y) in sent <==> Ever(l, h, run, side, Handling(FinAck(x, y))))
  {
    FinAckIff(l, h, run, side);
    FinAck2Iff(l, h, run, side);
  }

  lemma FinAckIff(l: u64, h: u64, run: seq<Action>, side: Side)
    requires 0 < l < h
    ensures var (x, y, sent) := (TokenOf(l, h, side), PeerOf(l, h, side), SentBy(After(l, h, run), side));
      FinAck(y, x) in sent <==> Ever(l, h, run, side, Handling(Fin(y))) || Ever(l, h, run, side, ClosingRound())
  {
    var (x, y) := (TokenOf(l, h, side), PeerOf(l, h, side));
    SentIff(l, h, run, side, FinAck(y, x));
    forall i | 0 <= i < |run|
      ensures EverAt(l, h, run, i, side, Saying(FinAck(y, x))) ==
              (EverAt(l, h, run, i, side, Handling(Fin(y))) || EverAt(l, h, run, i, side, ClosingRound()))
    {
      FinAckAt(l, h, run, i, side);
    }
    EitherEver(l, h, run, side, Saying(FinAck(y, x)), Handling(Fin(y)), ClosingRound());
  }

  lemma FinAckSaid(n: Node, e: Event, x: u64, y: u64)
    requires n.local == x && n.peer in {0, y}
    ensures Says(n, e, FinAck(y, x)) <==> e == Receive(Fin(y)) || (e.CloseDrive? && n.peer != 0)
  {
  }

  lemma FinAckAt(l: u64, h: u64, run: seq<Action>, i: nat, side: Side)
    requires 0 < l < h && i < |run|
    ensures var (x, y) := (TokenOf(l, h, side), PeerOf(l, h, side));
      EverAt(l, h, run, i, side, Saying(FinAck(y, x))) <==>
      EverAt(l, h, run, i, side, Handling(Fin(y))) || EverAt(l, h, run, i, side, ClosingRound())
  {
    var s := After(l, h, run[..i]);
    Reachable(l, h, run[..i]);
    FinAckSaid(NodeOf(s, side), run[i].event, TokenOf(l, h, side), PeerOf(l, h, side));
  }

  lemma FinAck2Iff(l: u64, h: u64, run: seq<Action>, side: Side)
    requires 0 < l < h
    ensures var (x, y, sent) := (TokenOf(l, h, side), PeerOf(l, h, side), SentBy(After(l, h, run), side));
      FinAck2(y) in sent <==> Ever(l, h, run, side, Handling(FinAck(x, y)))
  {
    var (x, y) := (TokenOf(l, h, side), PeerOf(l, h, side));
    SentIff(l, h, run, side, FinAck2(y));
    forall i | 0 <= i < |run|
      ensures EverAt(l, h, run, i, side, Saying(FinAck2(y))) == EverAt(l, h, run, i, side, Handling(FinAck(x, y)))
    {
      TokensKept(l, h, run[..i]);
    }
    SameEver(l, h, run, side, Saying(FinAck2(y)), Handling(FinAck(x, y)));
  }

  lemma EitherEver(l: u64, h: u64, run: seq<Action>, side: Side, p: (Node, Event) -> bool, q: (Node, Event) -> bool,
                   r: (Node, Event) -> bool)
    requires forall i :: 0 <= i < |run| ==>
      (EverAt(l, h, run, i, side, p) == (EverAt(l, h, run, i, side, q) || EverAt(l, h, run, i, side, r)))
    ensures Ever(l, h, run, side, p) <==> Ever(l, h, run, side, q) || Ever(l, h, run, side, r)
  {
    if Ever(l, h, run, side, p) {
      var i :| 0 <= i < |run| && EverAt(l, h, run, i, side, p);
      assert EverAt(l, h, run, i, side, q) || EverAt(l, h, run, i, side, r);
    }
    if Ever(l, h, run, side, q) {
      var i :| 0 <= i < |run| && EverAt(l, h, run, i, side, q);
      assert EverAt(l, h, run, i, side, p);
    }
    if Ever(l, h, run, side, r) {
      var i :| 0 <= i < |run| && EverAt(l, h, run, i, side, r);
      assert EverAt(l, h, run, i, side, p);
    }
  }

  /** The peer's token, by side, at any point. */
  predicate Knows(s: System, l: u64, h: u64, side: Side) {
    NodeOf(s, side).peer == PeerOf(l, h, side)
  }

  function Learning(): (Node, Event) -> bool {
    (n: Node, e: Event) => Learns(n, e)
  }

  /** How the close flags move from n to n', if the event is e. */
  predicate Closes(n: Node, n': Node, e: Event) {
    && (n'.closeDone <==> n.closeDone || e == Receive(FinAck2(n.local)))
    && (n'.peerCloses <==> n.peerCloses || (e.Receive? && e.msg.Fin?))
    && (n'.weClose <==> n.weClose || e.RequestClose?)
  }

  lemma HandshakeCloses(n: Node, m: AppMsg)
    requires m.Syn? || m.SynAck? || m.Ack?
    ensures Closes(n, Handle(n, m).0, Receive(m))
  {
  }

  lemma CloseCloses(n: Node, m: AppMsg)
    requires m.Fin? || m.FinAck? || m.FinAck2?
    ensures Closes(n, Handle(n, m).0, Receive(m))
  {
  }

  lemma EventCloses(n: Node, e: Event)
    ensures Closes(n, Apply(n, e).0, e)
  {
    if e.Receive? {
      if e.msg.Syn? || e.msg.SynAck? || e.msg.Ack? {
        HandshakeCloses(n, e.msg);
      } else {
        CloseCloses(n, e.msg);
      }
    }
  }

  lemma StepKnows(s: System, l: u64, h: u64, a: Action, side: Side)
    requires 0 < l < h && Inv(s, l, h)
    ensures Knows(Step(s, a), l, h, side) <==>
      Knows(s, l, h, side) || (Happens(s, a, side) && Learns(NodeOf(s, side), a.event))
  {
    StepAt(s, a, side);
    if Happens(s, a, side) {
      if side.Low? {
        OnlyPossible(s.low, l, h, s.fromHigh, s.high, a.event);
        EventLearns(s.low, l, h, a.event);
      } else {
        OnlyPossible(s.high, h, l, s.fromLow, s.low, a.event);
        EventLearns(s.high, h, l, a.event);
      }
    }
  }

  /** In every run, each side knows its peer exactly if some handled message carried the token. */
  lemma {:induction false} KnowsPeerIff(l: u64, h: u64, run: seq<Action>, side: Side)
    requires 0 < l < h
    ensures Knows(After(l, h, run), l, h, side) <==> Ever(l, h, run, side, Learning())
  {
    if run != [] {
      var n := |run| - 1;
      Reachable(l, h, run[..n]);
      KnowsPeerIff(l, h, run[..n], side);
      EverSnoc(l, h, run, n, side, Learning());
      StepKnows(After(l, h, run[..n]), l, h, run[n], side);
    }
  }

  /** The close flags of a side, by events. */
  ghost predicate CloseFlags(l: u64, h: u64, run: seq<Action>, side: Side) {
    var n := NodeOf(After(l, h, run), side);
    && (n.closeDone <==> Ever(l, h, run, side, Handling(FinAck2(TokenOf(l, h, side)))))
    && (n.peerCloses <==> Ever(l, h, run, side, Handling(Fin(PeerOf(l, h, side)))))
    && (n.weClose <==> Ever(l, h, run, side, Asking()))
  }

  lemma CloseStep(s: System, l: u64, h: u64, a: Action, side: Side)
    requires 0 < l < h && Inv(s, l, h)
    ensures var (n, n', e) := (NodeOf(s, side), NodeOf(Step(s, a), side), a.event);
      && (n'.closeDone <==> n.closeDone || (Happens(s, a, side) && e == Receive(FinAck2(TokenOf(l, h, side)))))
      && (n'.peerCloses <==> n.peerCloses || (Happens(s, a, side) && e == Receive(Fin(PeerOf(l, h, side)))))
      && (n'.weClose <==> n.weClose || (Happens(s, a, side) && e.RequestClose?))
  {
    StepAt(s, a, side);
    if Happens(s, a, side) {
      EventCloses(NodeOf(s, side), a.event);
      if side.Low? {
        OnlyPossible(s.low, l, h, s.fromHigh, s.high, a.event);
      } else {
        OnlyPossible(s.high, h, l, s.fromLow, s.low, a.event);
      }
    }
  }

  /** In every run, a side's close is done exactly if it handled a FIN-ACK2 for its token; it believes that the peer
      closes exactly if it handled the peer's FIN, and that it closes itself exactly if it was asked to. */
  lemma {:induction false} CloseFlagsIff(l: u64, h: u64, run: seq<Action>, side: Side)
    requires 0 < l < h
    ensures CloseFlags(l, h, run, side)
  {
    if run != [] {
      var n := |run| - 1;
      Reachable(l, h, run[..n]);
      CloseFlagsIff(l, h, run[..n], side);
      EverSnoc(l, h, run, n, side, Handling(FinAck2(TokenOf(l, h, side))));
      EverSnoc(l, h, run, n, side, Handling(Fin(PeerOf(l, h, side))));
      EverSnoc(l, h, run, n, side, Asking());
      CloseStep(After(l, h, run[..n]), l, h, run[n], side);
    }
  }

  /** At step i the side handles an acknowledgement of its token, and nothing has ended the established state since. */
  predicate OpenedBy(l: u64, h: u64, run: seq<Action>, i: nat, side: Side)
    requires i < |run|
  {
    EverAt(l, h, run, i, side, Acknowledging()) && forall j :: i < j < |run| ==> !EndsAt(l, h, run, j, side)
  }

  function Acknowledging(): (Node, Event) -> bool {
    (n: Node, e: Event) => Acknowledges(n, e)
  }

  predicate Opened(l: u64, h: u64, run: seq<Action>, side: Side) {
    exists i :: 0 <= i < |run| && OpenedBy(l, h, run, i, side)
  }

  lemma OpenedBySnoc(l: u64, h: u64, run: seq<Action>, n: nat, i: nat, side: Side)
    requires n + 1 == |run| && i < n
    ensures OpenedBy(l, h, run, i, side) <==> OpenedBy(l, h, run[..n], i, side) && !EndsAt(l, h, run, n, side)
  {
    forall j | 0 <= j < n ensures EndsAt(l, h, run[..n], j, side) == EndsAt(l, h, run, j, side) {
      EndsBefore(l, h, run, n, j, side);
    }
    assert run[..n][..i] == run[..i];
  }

  lemma OpenedSnoc(l: u64, h: u64, run: seq<Action>, n: nat, side: Side)
    requires n + 1 == |run|
    ensures Opened(l, h, run, side) <==>
      EverAt(l, h, run, n, side, Acknowledging()) || (Opened(l, h, run[..n], side) && !EndsAt(l, h, run, n, side))
  {
    if Opened(l, h, run, side) {
      var i :| 0 <= i < |run| && OpenedBy(l, h, run, i, side);
      if i < n {
        OpenedBySnoc(l, h, run, n, i, side);
      }
    }
    if EverAt(l, h, run, n, side, Acknowledging()) {
      assert OpenedBy(l, h, run, n, side);
    }
    if Opened(l, h, run[..n], side) && !EndsAt(l, h, run, n, side) {
      var i :| 0 <= i < n && OpenedBy(l, h, run[..n], i, side);
      OpenedBySnoc(l, h, run, n, i, side);
    }
  }

  /** In every run, a side is established exactly if it handled a SYN-ACK or ACK for its token, and no close request,
      FIN or FIN-ACK2 after that. */
  lemma {:induction false} EstablishedIff(l: u64, h: u64, run: seq<Action>, side: Side)
    ensures NodeOf(After(l, h, run), side).established <==> Opened(l, h, run, side)
  {
    if run != [] {
      var n := |run| - 1;
      var s := After(l, h, run[..n]);
      EstablishedIff(l, h, run[..n], side);
      OpenedSnoc(l, h, run, n, side);
      StepAt(s, run[n], side);
      EventOpens(NodeOf(s, side), run[n].event);
    }
  }

  // ---------- Runs that get there ----------

  /** The state once both sides are established, each with the other's token. */
  predicate BothUp(s: System, l: u64, h: u64) {
    && s.low.established && s.low.peer == h && s.high.established && s.high.peer == l
    && s.low.local == l && s.high.local == h && s.low.run && s.high.run && !s.low.closeDone && !s.high.closeDone
  }

  /** The higher side has sent its SYN and the lower one has answered. */
  lemma AnsweredRun(l: u64, h: u64) returns (run: seq<Action>)
    requires 0 < l < h
    ensures var s := After(l, h, run);
      && s.low == Started(l).(peer := h, gotSyn := true, sentSynAck := true) && s.high == Started(h)
      && SynAck(h, l) in s.fromLow
  {
    var a0, a1 := Action(High, Drive), Action(Low, Receive(Syn(h)));
    AfterSnoc(l, h, [], a0);
    AfterSnoc(l, h, [] + [a0], a1);
    assert Syn(h) in After(l, h, [] + [a0]).fromHigh;
    run := [] + [a0] + [a1];
  }

  /** For any two tokens there is a run in which both sides get established. */
  lemma BothEstablished(l: u64, h: u64) returns (run: seq<Action>)
    requires 0 < l < h
    ensures BothUp(After(l, h, run), l, h)
  {
    var r0 := AnsweredRun(l, h);
    var a, b := Action(High, Receive(SynAck(h, l))), Action(Low, Receive(Ack(l)));
    AfterSnoc(l, h, r0, a);
    AfterSnoc(l, h, r0 + [a], b);
    assert Ack(l) in After(l, h, r0 + [a]).fromHigh;
    run := r0 + [a] + [b];
  }

  /** From there one side asks for a close: its FIN and FIN-ACK are on the way. */
  lemma FinRun(l: u64, h: u64) returns (run: seq<Action>)
    requires 0 < l < h
    ensures var s := After(l, h, run);
      s.low.local == l && s.high.local == h && Fin(l) in s.fromLow && FinAck(h, l) in s.fromLow
  {
    var r0 := BothEstablished(l, h);
    var ask, drive := Action(Low, RequestClose), Action(Low, CloseDrive);
    AfterSnoc(l, h, r0, ask);
    AfterSnoc(l, h, r0 + [ask], drive);
    var sent := Apply(After(l, h, r0 + [ask]).low, CloseDrive).1;
    assert Fin(l) in MessagesIn(sent) && FinAck(h, l) in MessagesIn(sent);
    run := r0 + [ask] + [drive];
  }

  /** Each side has answered the other's FIN-ACK. */
  lemma LastWordsRun(l: u64, h: u64) returns (run: seq<Action>)
    requires 0 < l < h
    ensures var s := After(l, h, run);
      s.low.local == l && s.high.local == h && FinAck2(h) in s.fromLow && FinAck2(l) in s.fromHigh
  {
    var r0 := FinRun(l, h);
    var a, b := Action(High, Receive(Fin(l))), Action(High, Receive(FinAck(h, l)));
    var c := Action(Low, Receive(FinAck(l, h)));
    AfterSnoc(l, h, r0, a);
    AfterSnoc(l, h, r0 + [a], b);
    assert FinAck(l, h) in After(l, h, r0 + [a]).fromHigh;
    AfterSnoc(l, h, r0 + [a] + [b], c);
    assert FinAck2(l) in After(l, h, r0 + [a] + [b]).fromHigh;
    run := r0 + [a] + [b] + [c];
  }

  /** And for any two tokens there is one in which, after that, both sides mark the close done. */
  lemma BothClosed(l: u64, h: u64) returns (run: seq<Action>)
    requires 0 < l < h
    ensures var s := After(l, h, run); s.low.closeDone && s.high.closeDone && !s.low.established && !s.high.established
  {
    var r0 := LastWordsRun(l, h);
    var a, b := Action(High, Receive(FinAck2(h))), Action(Low, Receive(FinAck2(l)));
    AfterSnoc(l, h, r0, a);
    AfterSnoc(l, h, r0 + [a], b);
    run := r0 + [a] + [b];
  }
}
