/**
 The same two sessions with datagrams on the network instead of messages: what is sent is the text form,
 and what arrives is routed by its first byte and parsed. Every such run is a run of Handshake.
 */
module SessionWire {
  import opened Bytes
  import opened AppProtocol
  import opened Session
  import opened Handshake

  /** An action at one side: a datagram arrives, or something that needs no datagram happens. */
  datatype WireEvent = Datagram(bytes: seq<byte>) | Local(event: Event)

  datatype WireAction = WireAction(side: Side, event: WireEvent)

  datatype WireSystem = WireSystem(low: Node, high: Node, fromLow: set<seq<byte>>, fromHigh: set<seq<byte>>)

  function WireInit(l: u64, h: u64): WireSystem {
    WireSystem(Started(l), Started(h), {}, {})
  }

  function Datagrams(out: seq<AppMsg>): set<seq<byte>> {
    set m | m in out :: Encode(m)
  }

  predicate Readable(b: seq<byte>) {
    Classify(b).App? && Classify(b).msg.Some?
  }

  /** The messages that a network of datagrams holds. */
  function Messages(net: set<seq<byte>>): set<AppMsg> {
    set b | b in net && Readable(b) :: Classify(b).msg.value
  }

  /** What the event means to the session: only datagrams that were sent arrive, and only messages matter. */
  function Meaning(e: WireEvent, heard: set<seq<byte>>): (event: Event)
    ensures event.Receive? ==> event.msg in Messages(heard)
  {
    match e
    case Local(event) => if event.Receive? then Idle else event
    case Datagram(b) =>
      if b in heard && Readable(b) then Receive(Classify(b).msg.value) else Idle
  }

  function WireStep(s: WireSystem, a: WireAction): WireSystem {
    match a.side
    case Low =>
      var (n, out) := Act(s.low, Meaning(a.event, s.fromHigh), Messages(s.fromHigh));
      s.(low := n, fromLow := s.fromLow + Datagrams(out))
    case High =>
      var (n, out) := Act(s.high, Meaning(a.event, s.fromLow), Messages(s.fromLow));
      s.(high := n, fromHigh := s.fromHigh + Datagrams(out))
  }

  function WireAfter(l: u64, h: u64, run: seq<WireAction>): WireSystem {
    if run == [] then WireInit(l, h) else WireStep(WireAfter(l, h, run[..|run| - 1]), run[|run| - 1])
  }

  // ---------- Abstraction ----------

  function Abstract(s: WireSystem): System {
    System(s.low, s.high, Messages(s.fromLow), Messages(s.fromHigh))
  }

  lemma MessagesSent(net: set<seq<byte>>, out: seq<AppMsg>)
    ensures Messages(net + Datagrams(out)) == Messages(net) + MessagesIn(out)
  {
    forall m: AppMsg ensures Classify(Encode(m)) == App(Some(m)) {
      Delivered(m);
    }
    forall m | m in MessagesIn(out) ensures m in Messages(net + Datagrams(out)) {
      assert Encode(m) in net + Datagrams(out);
    }
  }

  function Lift(s: WireSystem, a: WireAction): Action {
    Action(a.side, Meaning(a.event, if a.side.Low? then s.fromHigh else s.fromLow))
  }

  lemma StepRefines(s: WireSystem, a: WireAction)
    ensures Abstract(WireStep(s, a)) == Step(Abstract(s), Lift(s, a))
  {
    match a.side
    case Low => MessagesSent(s.fromLow, Act(s.low, Meaning(a.event, s.fromHigh), Messages(s.fromHigh)).1);
    case High => MessagesSent(s.fromHigh, Act(s.high, Meaning(a.event, s.fromLow), Messages(s.fromLow)).1);
  }

  function LiftRun(l: u64, h: u64, run: seq<WireAction>): (r: seq<Action>)
    ensures |r| == |run|
  {
    if run == [] then []
    else LiftRun(l, h, run[..|run| - 1]) + [Lift(WireAfter(l, h, run[..|run| - 1]), run[|run| - 1])]
  }

  /** Read as messages, a run over datagrams is step for step a run over messages. */
  lemma {:induction false} RunRefines(l: u64, h: u64, run: seq<WireAction>)
    ensures Abstract(WireAfter(l, h, run)) == After(l, h, LiftRun(l, h, run))
  {
    if run != [] {
      var before := run[..|run| - 1];
      RunRefines(l, h, before);
      StepRefines(WireAfter(l, h, before), run[|run| - 1]);
      assert LiftRun(l, h, run)[..|run| - 1] == LiftRun(l, h, before);
    }
  }

  lemma {:induction false} LiftPrefix(l: u64, h: u64, run: seq<WireAction>, k: nat)
    requires k <= |run|
    ensures LiftRun(l, h, run)[..k] == LiftRun(l, h, run[..k])
  {
    if k == |run| {
      assert run[..k] == run;
    } else {
      LiftPrefix(l, h, run[..|run| - 1], k);
      assert run[..|run| - 1][..k] == run[..k];
    }
  }

  /** Everything on the network is the text form of a message. */
  ghost predicate AllText(net: set<seq<byte>>) {
    forall b <- net :: exists m :: b == Encode(m)
  }

  lemma TextOf(net: set<seq<byte>>, m: AppMsg)
    requires AllText(net) && m in Messages(net)
    ensures Encode(m) in net && Readable(Encode(m)) && Classify(Encode(m)).msg.value == m
  {
    var b :| b in net && Readable(b) && Classify(b).msg.value == m;
    var m' :| b == Encode(m');
    Delivered(m');
  }

  lemma {:induction false} NetsAreText(l: u64, h: u64, run: seq<WireAction>)
    ensures AllText(WireAfter(l, h, run).fromLow) && AllText(WireAfter(l, h, run).fromHigh)
  {
    if run != [] {
      NetsAreText(l, h, run[..|run| - 1]);
    }
  }

  /** The action on datagrams that does what an action on messages does. */
  function Lower(s: WireSystem, a: Action): WireAction {
    var heard := if a.side.Low? then s.fromHigh else s.fromLow;
    WireAction(a.side,
               if a.event.Receive? then
                 if a.event.msg in Messages(heard) then Datagram(Encode(a.event.msg)) else Local(Idle)
               else Local(a.event))
  }

  lemma LowerMeans(s: WireSystem, a: Action)
    requires AllText(s.fromLow) && AllText(s.fromHigh)
    ensures Step(Abstract(s), Lift(s, Lower(s, a))) == Step(Abstract(s), a)
  {
    var heard := if a.side.Low? then s.fromHigh else s.fromLow;
    if a.event.Receive? && a.event.msg in Messages(heard) {
      TextOf(heard, a.event.msg);
    }
  }

  /** Conversely, every run over messages is one over datagrams, so that what is possible there is possible here. */
  lemma {:induction false} RunRealised(l: u64, h: u64, run: seq<Action>) returns (wire: seq<WireAction>)
    ensures |wire| == |run| && Abstract(WireAfter(l, h, wire)) == After(l, h, run)
  {
    if run == [] {
      wire := [];
    } else {
      var n := |run| - 1;
      var before := RunRealised(l, h, run[..n]);
      var s := WireAfter(l, h, before);
      NetsAreText(l, h, before);
      wire := before + [Lower(s, run[n])];
      assert wire[..n] == before;
      StepRefines(s, Lower(s, run[n]));
      LowerMeans(s, run[n]);
    }
  }

  /** Over datagrams too, both sides can get established with each other's token, and then both close. */
  lemma WireReaches(l: u64, h: u64) returns (up: seq<WireAction>, closed: seq<WireAction>)
    requires 0 < l < h
    ensures var s := WireAfter(l, h, up);
      s.low.established && s.low.peer == h && s.high.established && s.high.peer == l
    ensures var s := WireAfter(l, h, closed); s.low.closeDone && s.high.closeDone
  {
    var run := BothEstablished(l, h);
    up := RunRealised(l, h, run);
    run := BothClosed(l, h);
    closed := RunRealised(l, h, run);
  }

  /** Handshake agreement and close causality for the sessions as they run over datagrams. */
  lemma WireAgreement(l: u64, h: u64, run: seq<WireAction>, k: nat) returns (j: nat)
    requires 0 < l < h && k <= |run| && WireAfter(l, h, run[..k]).low.established
    ensures j < k && WireAfter(l, h, run[..j]).high.established
    ensures WireAfter(l, h, run).low.peer == h && WireAfter(l, h, run).high.peer == l
  {
    var lifted := LiftRun(l, h, run);
    LiftPrefix(l, h, run, k);
    RunRefines(l, h, run[..k]);
    RunRefines(l, h, run);
    j := Agreement(l, h, lifted, k);
    LiftPrefix(l, h, run, j);
    RunRefines(l, h, run[..j]);
  }

  lemma WireCloseCausality(l: u64, h: u64, run: seq<WireAction>)
    requires 0 < l < h
    ensures var s := WireAfter(l, h, run); CloseExplained(s.low, s.high, h) && CloseExplained(s.high, s.low, l)
  {
    RunRefines(l, h, run);
    CloseCausality(l, h, LiftRun(l, h, run));
  }
}
