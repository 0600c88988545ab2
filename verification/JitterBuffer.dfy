/**
 The jitter buffer of a receive stream (src/rtp_session/rtp_recv_stream.rs): packets wait under their
 sequence number until the number before them has been emitted or given up.
 */
module JitterBuffer {
  import opened Bytes
  import opened Rtp
  import Stats = RxTracker

  /** A waiting packet and the number of its arrival, which stands for its arrival time. */
  datatype Buffered = Buffered(packet: RtpPacket, at: nat)

  type Buffer = map<u16, Buffered>

  datatype Stream = Stream(remoteSsrc: Option<u32>, buffer: Buffer, nextSeq: Option<u16>)

  function Succ(seqNo: u16): u16 {
    (seqNo as int + 1) % 0x1_0000
  }

  lemma {:induction false} LeastOf(s: set<u16>) returns (k: u16)
    requires s != {}
    ensures k in s && forall j :: j in s ==> k <= j
    decreases |s|
  {
    k :| k in s;
    var rest := s - {k};
    if rest != {} {
      var m := LeastOf(rest);
      assert forall j :: j in s ==> j in rest || j == k;
      k := if k <= m then k else m;
    } else {
      assert s == {k};
    }
  }

  lemma MinExists(b: Buffer)
    requires b.Keys != {}
    ensures exists k :: k in b && forall j :: j in b ==> k <= j
  {
    var k := LeastOf(b.Keys);
    assert k in b;
  }

  /** The numerically smallest key, which an ordered map yields first. */
  function MinKey(b: Buffer): (k: u16)
    requires b.Keys != {}
    ensures k in b && forall j :: j in b ==> k <= j
  {
    MinExists(b);
    var k :| k in b && forall j :: j in b ==> k <= j;
    k
  }

  /** Whether the first waiting packet has waited too long; late says which arrivals have. */
  predicate Overdue(b: Buffer, late: nat -> bool) {
    b.Keys != {} && late(b[MinKey(b)].at)
  }

  /** What draining emits, what it leaves, and the number it then waits for. */
  datatype Drained = Drained(emitted: seq<Buffered>, buffer: Buffer, nextSeq: u16)

  function Drain(b: Buffer, next: u16, late: nat -> bool): Drained
    decreases |b.Keys|, if next in b then 0 else 1
  {
    if next in b then
      assert (b - {next}).Keys == b.Keys - {next};
      var d := Drain(b - {next}, Succ(next), late);
      d.(emitted := [b[next]] + d.emitted)
    else if Overdue(b, late) then Drain(b, MinKey(b), late)
    else Drained([], b, next)
  }

  predicate Accepts(s: Stream, p: RtpPacket) {
    s.remoteSsrc.Some? ==> s.remoteSsrc.value == p.header.ssrc
  }

  /** The statistics after a packet arrives: they are taken before duplicates are found. */
  function Observed(t: Stats.Tracker, s: Stream, p: RtpPacket): Stats.Tracker {
    if Accepts(s, p) then Stats.OnRtp(t, p.header.seqNo) else t
  }

  /** The stream after a packet arrives, and what it emits. */
  function Receive(s: Stream, p: RtpPacket, at: nat, late: nat -> bool): (Stream, seq<Buffered>) {
    if s.remoteSsrc.Some? && s.remoteSsrc.value != p.header.ssrc then (s, [])
    else
      var seqNo := p.header.seqNo;
      var ssrc := Some(p.header.ssrc);
      var b := s.buffer[seqNo := Buffered(p, at)];
      if seqNo in s.buffer then (Stream(ssrc, b, s.nextSeq), [])
      else
        var d := Drain(b, if s.nextSeq.Some? then s.nextSeq.value else seqNo, late);
        (Stream(ssrc, d.buffer, Some(d.nextSeq)), d.emitted)
  }

  class RtpRecvStream {
    const rx: Stats.RxTracker
    var remoteSsrc: Option<u32>
    var jitterBuffer: Buffer
    var nextSeq: Option<u16>

    function State(): Stream
      reads this
    {
      Stream(remoteSsrc, jitterBuffer, nextSeq)
    }

    constructor (ssrc: Option<u32>)
      ensures State() == Stream(ssrc, map[], None) && rx.State() == Stats.START
    {
      rx := new Stats.RxTracker();
      remoteSsrc, jitterBuffer, nextSeq := ssrc, map[], None;
    }

    /** `arrival` is the time of arrival in units of the codec clock. */
    method ReceiveRtpPacket(p: RtpPacket, at: nat, arrival: u32, late: nat -> bool) returns (emitted: seq<Buffered>)
      modifies this, rx, rx.seqext
      ensures (State(), emitted) == Receive(old(State()), p, at, late)
      ensures rx.State() == Observed(old(rx.State()), old(State()), p)
      ensures rx.Clock() ==
        if Accepts(old(State()), p) then Stats.OnTransit(old(rx.Clock()), p.header.timestamp, arrival)
        else old(rx.Clock())
    {
      emitted := [];
      if remoteSsrc.Some? {
        if remoteSsrc.value != p.header.ssrc {
          return;
        }
      } else {
        remoteSsrc := Some(p.header.ssrc);
      }
      rx.OnRtpPacket(p.header.seqNo, p.header.timestamp, arrival);
      var seqNo := p.header.seqNo;
      var duplicate := seqNo in jitterBuffer;
      jitterBuffer := jitterBuffer[seqNo := Buffered(p, at)];
      if duplicate {
        return;
      }
      if nextSeq.None? {
        nextSeq := Some(seqNo);
      }
      emitted := ProcessBuffer(late);
    }

    method ProcessBuffer(late: nat -> bool) returns (emitted: seq<Buffered>)
      modifies this
      ensures remoteSsrc == old(remoteSsrc)
      ensures old(nextSeq).None? ==> State() == old(State()) && emitted == []
      ensures old(nextSeq).Some? ==> nextSeq.Some?
      ensures old(nextSeq).Some? ==>
        Drained(emitted, jitterBuffer, nextSeq.value) == Drain(old(jitterBuffer), old(nextSeq).value, late)
    {
      emitted := [];
      if nextSeq.None? {
        return;
      }
      var next := nextSeq.value;
      ghost var whole := Drain(jitterBuffer, next, late);
      while next in jitterBuffer || Overdue(jitterBuffer, late)
        invariant remoteSsrc == old(remoteSsrc) && nextSeq == old(nextSeq)
        invariant var d := Drain(jitterBuffer, next, late); whole == d.(emitted := emitted + d.emitted)
        decreases |jitterBuffer.Keys|, if next in jitterBuffer then 0 else 1
      {
        if next in jitterBuffer {
          var buffered := jitterBuffer[next];
          assert (jitterBuffer - {next}).Keys == jitterBuffer.Keys - {next};
          ghost var rest := Drain(jitterBuffer - {next}, Succ(next), late).emitted;
          assert emitted + ([buffered] + rest) == emitted + [buffered] + rest;
          jitterBuffer := jitterBuffer - {next};
          emitted := emitted + [buffered];
          next := Succ(next);
        } else {
          next := MinKey(jitterBuffer);
        }
      }
      assert emitted + [] == emitted;
      nextSeq := Some(next);
    }
  }

  // ---------- Draining ----------

  /** Every packet waits under its own sequence number. */
  predicate Keyed(b: Buffer) {
    forall k <- b :: b[k].packet.header.seqNo == k
  }

  function Elements(s: seq<Buffered>): set<Buffered> {
    set x | x in s
  }

  predicate Distinct(s: seq<Buffered>) {
    forall i, j :: 0 <= i < j < |s| ==> s[i] != s[j]
  }

  /** The packets of the first two lists are those of the third, each in exactly one place. */
  predicate Splits(emitted: seq<Buffered>, left: set<Buffered>, all: set<Buffered>) {
    Distinct(emitted) && Elements(emitted) !! left && Elements(emitted) + left == all
  }

  lemma RemoveKey(b: Buffer, k: u16)
    requires Keyed(b) && k in b
    ensures Keyed(b - {k}) && b.Values == (b - {k}).Values + {b[k]} && b[k] !in (b - {k}).Values
  {
    forall v | v in b.Values ensures v in (b - {k}).Values + {b[k]} {
      var j :| j in b && b[j] == v;
      if j != k {
        assert (b - {k})[j] == v;
      }
    }
  }

  lemma SplitsCons(x: Buffered, emitted: seq<Buffered>, left: set<Buffered>, all: set<Buffered>)
    requires Splits(emitted, left, all) && x !in all
    ensures Splits([x] + emitted, left, all + {x})
  {
    assert Elements([x] + emitted) == Elements(emitted) + {x};
    assert forall i :: 0 <= i < |emitted| ==> emitted[i] in Elements(emitted);
  }

  /**
   Draining ends, under any pattern of timeouts, with the awaited number absent; each packet is emitted
   once or left.
   */
  lemma {:induction false} DrainConserves(b: Buffer, next: u16, late: nat -> bool)
    requires Keyed(b)
    ensures var d := Drain(b, next, late);
      Keyed(d.buffer) && d.nextSeq !in d.buffer && Splits(d.emitted, d.buffer.Values, b.Values)
    decreases |b.Keys|, if next in b then 0 else 1
  {
    if next in b {
      RemoveKey(b, next);
      assert (b - {next}).Keys == b.Keys - {next};
      DrainConserves(b - {next}, Succ(next), late);
      var d := Drain(b - {next}, Succ(next), late);
      SplitsCons(b[next], d.emitted, d.buffer.Values, (b - {next}).Values);
    } else if Overdue(b, late) {
      DrainConserves(b, MinKey(b), late);
    }
  }

  // ---------- What draining emits ----------

  /** What is left of the buffer once the given packets are out. */
  function Remaining(b: Buffer, out: seq<Buffered>): Buffer {
    b - set x | x in out :: x.packet.header.seqNo
  }

  /** The number that is awaited then: the one after the last packet, or the first one awaited. */
  function Awaited(next: u16, out: seq<Buffered>): u16 {
    if out == [] then next else Succ(out[|out| - 1].packet.header.seqNo)
  }

  /** The packet that comes out next: the awaited one, or else the first one waiting if it has waited too long. */
  predicate Due(b: Buffer, next: u16, late: nat -> bool, x: Buffered) {
    if next in b then x == b[next] else Overdue(b, late) && x == b[MinKey(b)]
  }

  predicate DueAt(b: Buffer, next: u16, late: nat -> bool, out: seq<Buffered>, k: nat)
    requires k < |out|
  {
    Due(Remaining(b, out[..k]), Awaited(next, out[..k]), late, out[k])
  }

  /** Every packet that came out was due in its turn, and nothing is due any more. */
  ghost predicate Explained(b: Buffer, next: u16, late: nat -> bool, d: Drained) {
    && (forall k :: 0 <= k < |d.emitted| ==> DueAt(b, next, late, d.emitted, k))
    && d.buffer == Remaining(b, d.emitted) && d.nextSeq == Awaited(next, d.emitted)
    && d.nextSeq !in d.buffer && !Overdue(d.buffer, late)
  }

  lemma DueLater(b: Buffer, next: u16, late: nat -> bool, x: Buffered, out: seq<Buffered>, k: nat)
    requires k < |out| && x.packet.header.seqNo == next && DueAt(b - {next}, Succ(next), late, out, k)
    ensures DueAt(b, next, late, [x] + out, k + 1)
  {
    RemainingCons(b, x, out[..k]);
    assert ([x] + out)[..k + 1] == [x] + out[..k];
  }

  lemma RemainingCons(b: Buffer, x: Buffered, out: seq<Buffered>)
    ensures Remaining(b, [x] + out) == Remaining(b - {x.packet.header.seqNo}, out)
  {
    var k := x.packet.header.seqNo;
    assert (set y | y in [x] + out :: y.packet.header.seqNo) == {k} + (set y | y in out :: y.packet.header.seqNo);
  }

  lemma ExplainedCons(b: Buffer, next: u16, late: nat -> bool, d: Drained)
    requires Keyed(b) && next in b && Explained(b - {next}, Succ(next), late, d)
    ensures Explained(b, next, late, d.(emitted := [b[next]] + d.emitted))
  {
    var (x, out) := (b[next], d.emitted);
    forall k | 0 <= k < |out| + 1 ensures DueAt(b, next, late, [x] + out, k) {
      if k == 0 {
        assert ([x] + out)[..0] == [] && Remaining(b, []) == b;
      } else {
        DueLater(b, next, late, x, out, k - 1);
      }
    }
    RemainingCons(b, x, out);
  }

  lemma ExplainedSkip(b: Buffer, next: u16, late: nat -> bool, d: Drained)
    requires Keyed(b) && next !in b && Overdue(b, late) && Explained(b, MinKey(b), late, d)
    ensures Explained(b, next, late, d)
  {
    var out := d.emitted;
    assert Remaining(b, []) == b;
    assert out != [];
    forall k | 0 <= k < |out| ensures DueAt(b, next, late, out, k) {
      assert DueAt(b, MinKey(b), late, out, k);
      if k == 0 {
        assert out[..0] == [];
      }
    }
  }

  /**
   Draining, under any pattern of timeouts: packet by packet it emits the awaited one, or skips to the first one waiting
   if that has waited too long, and it stops only when neither is there. So afterwards the buffer is empty or its first
   packet is not late.
   */
  lemma {:induction false} DrainExplained(b: Buffer, next: u16, late: nat -> bool)
    requires Keyed(b)
    ensures Explained(b, next, late, Drain(b, next, late))
    decreases |b.Keys|, if next in b then 0 else 1
  {
    if next in b {
      DrainStep(b, next, late);
      RemoveKey(b, next);
      DrainExplained(b - {next}, Succ(next), late);
      ExplainedCons(b, next, late, Drain(b - {next}, Succ(next), late));
    } else if Overdue(b, late) {
      DrainExplained(b, MinKey(b), late);
      ExplainedSkip(b, next, late, Drain(b, MinKey(b), late));
    } else {
      assert Remaining(b, []) == b;
    }
  }

  lemma SameMin(b: Buffer, k: u16)
    requires k in b && b.Keys != {} && MinKey(b) != k
    ensures (b - {k}).Keys != {} && MinKey(b - {k}) == MinKey(b) && (b - {k})[MinKey(b)] == b[MinKey(b)]
  {
    assert MinKey(b) in b - {k};
  }

  /** A packet that waits first and too long comes out. */
  lemma {:induction false} LateComesOut(b: Buffer, next: u16, late: nat -> bool)
    requires Overdue(b, late)
    ensures b[MinKey(b)] in Drain(b, next, late).emitted
    decreases |b.Keys|, if next in b then 0 else 1
  {
    if next in b {
      DrainStep(b, next, late);
      if MinKey(b) != next {
        SameMin(b, next);
        LateComesOut(b - {next}, Succ(next), late);
      }
    } else {
      LateComesOut(b, MinKey(b), late);
    }
  }

  /** Nothing comes out if the awaited number is absent and the first packet is not late. */
  lemma NothingDue(b: Buffer, next: u16, late: nat -> bool)
    requires next !in b && !Overdue(b, late)
    ensures Drain(b, next, late) == Drained([], b, next)
  {
  }

  // ---------- Conservation over a run ----------

  /** One arrival: the packet, and which earlier arrivals have by then waited too long. */
  datatype Arrival = Arrival(packet: RtpPacket, late: nat -> bool)

  /** A run's observations: what it accepted, emitted, and dropped because a later arrival took its place. */
  datatype History = History(
    stream: Stream, accepted: seq<Buffered>, emitted: seq<Buffered>, overwritten: seq<Buffered>)

  function Observe(h: History, a: Arrival, at: nat): History {
    var (s, out) := Receive(h.stream, a.packet, at, a.late);
    var seqNo := a.packet.header.seqNo;
    var accepted := h.accepted + [Buffered(a.packet, at)];
    if !Accepts(h.stream, a.packet) then h
    else if seqNo in h.stream.buffer then History(s, accepted, h.emitted, h.overwritten + [h.stream.buffer[seqNo]])
    else History(s, accepted, h.emitted + out, h.overwritten)
  }

  function Run(ssrc: Option<u32>, arrivals: seq<Arrival>): History {
    if arrivals == [] then History(Stream(ssrc, map[], None), [], [], [])
    else Observe(Run(ssrc, arrivals[..|arrivals| - 1]), arrivals[|arrivals| - 1], |arrivals| - 1)
  }

  /** Every accepted packet is in exactly one place: emitted once, still waiting, or overwritten once. */
  predicate Conserved(h: History) {
    && Distinct(h.accepted) && Distinct(h.emitted) && Distinct(h.overwritten)
    && Elements(h.emitted) !! h.stream.buffer.Values
    && Elements(h.emitted) !! Elements(h.overwritten)
    && h.stream.buffer.Values !! Elements(h.overwritten)
    && Elements(h.emitted) + h.stream.buffer.Values + Elements(h.overwritten) == Elements(h.accepted)
  }

  /** What holds of every history of n arrivals. */
  predicate Sound(h: History, n: nat) {
    && Keyed(h.stream.buffer) && Conserved(h)
    && (forall x <- h.accepted :: x.at < n)
    && (h.stream.nextSeq.Some? ==> h.stream.nextSeq.value !in h.stream.buffer)
    && (h.stream.nextSeq.None? ==> h.stream.buffer == map[])
  }

  lemma InsertNew(b: Buffer, x: Buffered)
    requires Keyed(b) && x.packet.header.seqNo !in b
    ensures var b' := b[x.packet.header.seqNo := x]; Keyed(b') && b'.Values == b.Values + {x}
  {
    var k := x.packet.header.seqNo;
    var b' := b[k := x];
    assert b'[k] == x;
    forall v | v in b.Values ensures v in b'.Values {
      var j :| j in b && b[j] == v;
      assert b'[j] == v;
    }
  }

  lemma InsertOver(b: Buffer, x: Buffered)
    requires Keyed(b) && x.packet.header.seqNo in b
    ensures var k := x.packet.header.seqNo; var b' := b[k := x]; Keyed(b') && b'.Values == b.Values - {b[k]} + {x}
  {
    var k := x.packet.header.seqNo;
    RemoveKey(b, k);
    InsertNew(b - {k}, x);
    assert b[k := x] == (b - {k})[k := x];
  }

  lemma Snoc(s: seq<Buffered>, x: Buffered)
    requires Distinct(s) && x !in Elements(s)
    ensures Distinct(s + [x]) && Elements(s + [x]) == Elements(s) + {x}
  {
    assert forall i :: 0 <= i < |s| ==> s[i] in Elements(s);
  }

  lemma Concat(s: seq<Buffered>, t: seq<Buffered>)
    requires Distinct(s) && Distinct(t) && Elements(s) !! Elements(t)
    ensures Distinct(s + t) && Elements(s + t) == Elements(s) + Elements(t)
  {
    assert forall i :: 0 <= i < |s| ==> s[i] in Elements(s);
    assert forall i :: 0 <= i < |t| ==> t[i] in Elements(t);
  }

  lemma ConservedOverwrite(h: History, s: Stream, x: Buffered, gone: Buffered)
    requires Conserved(h) && x !in Elements(h.accepted)
    requires gone in h.stream.buffer.Values && s.buffer.Values == h.stream.buffer.Values - {gone} + {x}
    ensures Conserved(History(s, h.accepted + [x], h.emitted, h.overwritten + [gone]))
  {
    Snoc(h.accepted, x);
    Snoc(h.overwritten, gone);
  }

  lemma ConservedDrain(h: History, s: Stream, x: Buffered, out: seq<Buffered>)
    requires Conserved(h) && x !in Elements(h.accepted)
    requires Splits(out, s.buffer.Values, h.stream.buffer.Values + {x})
    ensures Conserved(History(s, h.accepted + [x], h.emitted + out, h.overwritten))
  {
    Snoc(h.accepted, x);
    Concat(h.emitted, out);
  }

  lemma ObserveKeeps(h: History, a: Arrival, n: nat)
    requires Sound(h, n)
    ensures Sound(Observe(h, a, n), n + 1)
  {
    var x, b := Buffered(a.packet, n), h.stream.buffer;
    var k := a.packet.header.seqNo;
    if Accepts(h.stream, a.packet) {
      assert x !in Elements(h.accepted);
      var s := Receive(h.stream, a.packet, n, a.late).0;
      if k in b {
        InsertOver(b, x);
        ConservedOverwrite(h, s, x, b[k]);
      } else {
        var next := if h.stream.nextSeq.Some? then h.stream.nextSeq.value else k;
        InsertNew(b, x);
        DrainConserves(b[k := x], next, a.late);
        ConservedDrain(h, s, x, Drain(b[k := x], next, a.late).emitted);
      }
    }
  }

  /**
   Over any run, under any pattern of timeouts, every packet accepted for the stream is exactly one of
   emitted once, still buffered, or overwritten; the awaited number is never in the buffer.
   */
  lemma {:induction false} RunConserves(ssrc: Option<u32>, arrivals: seq<Arrival>)
    ensures Sound(Run(ssrc, arrivals), |arrivals|)
  {
    if arrivals != [] {
      RunConserves(ssrc, arrivals[..|arrivals| - 1]);
      ObserveKeeps(Run(ssrc, arrivals[..|arrivals| - 1]), arrivals[|arrivals| - 1], |arrivals| - 1);
    }
  }

  /** The arrival is one of the stream, under a number that no packet waits under. */
  predicate TakenIn(h: History, a: Arrival) {
    Accepts(h.stream, a.packet) && a.packet.header.seqNo !in h.stream.buffer
  }

  /** From h to h' the packet is put in and everything due comes out. */
  ghost predicate Settles(h: History, h': History, a: Arrival, n: nat) {
    && h.emitted <= h'.emitted && h'.stream.nextSeq.Some? && !Overdue(h'.stream.buffer, a.late)
    && var k := a.packet.header.seqNo;
       Explained(h.stream.buffer[k := Buffered(a.packet, n)],
                 if h.stream.nextSeq.Some? then h.stream.nextSeq.value else k, a.late,
                 Drained(h'.emitted[|h.emitted|..], h'.stream.buffer, h'.stream.nextSeq.value))
  }

  /**
   Whenever a packet is taken in, in any run: what comes out is explained packet by packet, and afterwards the buffer is
   empty or its first packet is not late, so that a lost packet holds up the stream no longer than the timeout.
   */
  lemma RunSettles(ssrc: Option<u32>, arrivals: seq<Arrival>, n: nat)
    requires n < |arrivals| && TakenIn(Run(ssrc, arrivals[..n]), arrivals[n])
    ensures Settles(Run(ssrc, arrivals[..n]), Run(ssrc, arrivals[..n + 1]), arrivals[n], n)
  {
    var (h, a) := (Run(ssrc, arrivals[..n]), arrivals[n]);
    var k := a.packet.header.seqNo;
    var b := h.stream.buffer[k := Buffered(a.packet, n)];
    var next := if h.stream.nextSeq.Some? then h.stream.nextSeq.value else k;
    assert arrivals[..n + 1][..n] == arrivals[..n];
    RunConserves(ssrc, arrivals[..n]);
    InsertNew(h.stream.buffer, Buffered(a.packet, n));
    DrainExplained(b, next, a.late);
    assert (h.emitted + Drain(b, next, a.late).emitted)[|h.emitted|..] == Drain(b, next, a.late).emitted;
  }

  /** The statistics after a run. */
  function Statistics(ssrc: Option<u32>, arrivals: seq<Arrival>): Stats.Tracker {
    if arrivals == [] then Stats.START
    else
      var n := |arrivals| - 1;
      Observed(Statistics(ssrc, arrivals[..n]), Run(ssrc, arrivals[..n]).stream, arrivals[n].packet)
  }

  /** The accepted packets as the statistics see them: by sequence number. */
  function AsEvents(accepted: seq<Buffered>): seq<Stats.Event> {
    seq(|accepted|, i requires 0 <= i < |accepted| => Stats.Packet(accepted[i].packet.header.seqNo))
  }

  lemma StatisticsStep(accepted: seq<Buffered>, x: Buffered)
    ensures Stats.Play(AsEvents(accepted + [x])) == Stats.OnRtp(Stats.Play(AsEvents(accepted)), x.packet.header.seqNo)
  {
    assert AsEvents(accepted + [x]) == AsEvents(accepted) + [Stats.Packet(x.packet.header.seqNo)];
    Stats.PlayPacket(AsEvents(accepted), x.packet.header.seqNo);
  }

  /**
   Over any run the statistics are those of all accepted packets, whether emitted, waiting or overwritten: a
   repeat counts as one more packet received.
   */
  lemma {:induction false} StatisticsOfAccepted(ssrc: Option<u32>, arrivals: seq<Arrival>)
    ensures Statistics(ssrc, arrivals) == Stats.Play(AsEvents(Run(ssrc, arrivals).accepted))
  {
    if arrivals == [] {
      assert AsEvents([]) == [];
    } else {
      var n := |arrivals| - 1;
      StatisticsOfAccepted(ssrc, arrivals[..n]);
      if Accepts(Run(ssrc, arrivals[..n]).stream, arrivals[n].packet) {
        StatisticsStep(Run(ssrc, arrivals[..n]).accepted, Buffered(arrivals[n].packet, n));
      }
    }
  }

  /** A packet that was overwritten gave way to a later arrival with the same sequence number. */
  predicate Replaced(h: History) {
    forall gone <- h.overwritten ::
      exists x :: x in h.accepted && x.at > gone.at && x.packet.header.seqNo == gone.packet.header.seqNo
  }

  lemma {:induction false} RunReplaces(ssrc: Option<u32>, arrivals: seq<Arrival>)
    ensures Replaced(Run(ssrc, arrivals))
  {
    if arrivals != [] {
      var h, a, n := Run(ssrc, arrivals[..|arrivals| - 1]), arrivals[|arrivals| - 1], |arrivals| - 1;
      RunReplaces(ssrc, arrivals[..n]);
      RunConserves(ssrc, arrivals[..n]);
      ReplacedStep(h, a, n);
    }
  }

  lemma ReplacedStep(h: History, a: Arrival, n: nat)
    requires Sound(h, n) && Replaced(h)
    ensures Replaced(Observe(h, a, n))
  {
    var h' := Observe(h, a, n);
    var x, k := Buffered(a.packet, n), a.packet.header.seqNo;
    forall gone | gone in h'.overwritten
      ensures exists x :: x in h'.accepted && x.at > gone.at && x.packet.header.seqNo == gone.packet.header.seqNo
    {
      if gone in h.overwritten {
        var y :| y in h.accepted && y.at > gone.at && y.packet.header.seqNo == gone.packet.header.seqNo;
        assert y in h'.accepted;
      } else {
        assert gone == h.stream.buffer[k];
        assert gone in h.stream.buffer.Values;
        assert gone in Elements(h.accepted);
        assert x in h'.accepted;
      }
    }
  }

  // ---------- Sorting ----------

  /** A numbered stream of packets: position i carries the sequence number start + i, modulo 2^16. */
  datatype Source = Source(start: u16, ssrc: u32, packetAt: nat -> RtpPacket) {
    function Seq(i: nat): u16 {
      packetAt(i).header.seqNo
    }

    ghost predicate Valid() {
      forall i: nat :: packetAt(i).header.seqNo == (start + i) % 0x1_0000 && packetAt(i).header.ssrc == ssrc
    }
  }

  /** Exactly the positions in waiting, all from m on and less than 2^16 beyond it, are in the buffer. */
  ghost predicate Holds(src: Source, b: Buffer, waiting: set<nat>, m: nat) {
    && (forall i <- waiting :: m <= i < m + 0x1_0000)
    && (forall i <- waiting :: src.Seq(i) in b && b[src.Seq(i)].packet == src.packetAt(i))
    && (forall k <- b :: exists i :: i in waiting && src.Seq(i) == k)
  }

  lemma SameSeq(src: Source, i: nat, j: nat)
    requires src.Valid() && i <= j < i + 0x1_0000 && src.Seq(i) == src.Seq(j)
    ensures i == j
  {
  }

  lemma SeqInBuffer(src: Source, b: Buffer, waiting: set<nat>, m: nat, i: nat)
    requires src.Valid() && Holds(src, b, waiting, m) && m <= i < m + 0x1_0000
    ensures src.Seq(i) in b <==> i in waiting
  {
    if src.Seq(i) in b {
      var j :| j in waiting && src.Seq(j) == src.Seq(i);
      SameSeq(src, if i <= j then i else j, if i <= j then j else i);
    }
  }

  lemma HoldsNext(src: Source, b: Buffer, waiting: set<nat>, m: nat)
    requires src.Valid() && Holds(src, b, waiting, m) && m in waiting
    ensures Holds(src, b - {src.Seq(m)}, waiting - {m}, m + 1)
  {
    var b' := b - {src.Seq(m)};
    forall i | i in waiting - {m} ensures src.Seq(i) in b' && b'[src.Seq(i)].packet == src.packetAt(i) {
      if src.Seq(i) == src.Seq(m) {
        SameSeq(src, m, i);
      }
    }
    forall k | k in b' ensures exists i :: i in waiting - {m} && src.Seq(i) == k {
      var i :| i in waiting && src.Seq(i) == k;
      assert i in waiting - {m};
    }
  }

  lemma HoldsInsert(src: Source, b: Buffer, waiting: set<nat>, m: nat, i: nat, at: nat)
    requires src.Valid() && Holds(src, b, waiting, m) && m <= i < m + 0x1_0000 && i !in waiting
    ensures src.Seq(i) !in b && Holds(src, b[src.Seq(i) := Buffered(src.packetAt(i), at)], waiting + {i}, m)
  {
    SeqInBuffer(src, b, waiting, m, i);
    var b' := b[src.Seq(i) := Buffered(src.packetAt(i), at)];
    forall k | k in b' ensures exists j :: j in waiting + {i} && src.Seq(j) == k {
      if k == src.Seq(i) {
        assert i in waiting + {i};
      } else {
        var j :| j in waiting && src.Seq(j) == k;
        assert j in waiting + {i};
      }
    }
  }

  lemma SuccSeq(src: Source, m: nat)
    requires src.Valid()
    ensures Succ(src.Seq(m)) == src.Seq(m + 1)
  {
  }

  function Packets(s: seq<Buffered>): seq<RtpPacket> {
    seq(|s|, i requires 0 <= i < |s| => s[i].packet)
  }

  /** The packets at positions from lo up to hi. */
  function Range(src: Source, lo: nat, hi: nat): seq<RtpPacket>
    requires lo <= hi
  {
    seq(hi - lo, i requires 0 <= i < hi - lo => src.packetAt(lo + i))
  }

  /** The positions from n on. */
  function From(waiting: set<nat>, n: nat): set<nat> {
    set i | i in waiting && i >= n
  }

  lemma RangeCons(src: Source, x: Buffered, rest: seq<Buffered>, m: nat, n: nat)
    requires m < n && x.packet == src.packetAt(m) && Packets(rest) == Range(src, m + 1, n)
    ensures Packets([x] + rest) == Range(src, m, n)
  {
    assert Packets([x] + rest) == [x.packet] + Packets(rest);
    assert Range(src, m, n) == [src.packetAt(m)] + Range(src, m + 1, n);
  }

  lemma DrainStep(b: Buffer, k: u16, late: nat -> bool)
    requires k in b
    ensures var d := Drain(b - {k}, Succ(k), late); Drain(b, k, late) == d.(emitted := [b[k]] + d.emitted)
    ensures |(b - {k}).Keys| < |b.Keys|
  {
    assert (b - {k}).Keys == b.Keys - {k};
  }

  lemma DrainStops(b: Buffer, k: u16, late: nat -> bool)
    requires k !in b && forall i :: !late(i)
    ensures Drain(b, k, late) == Drained([], b, k)
  {
  }

  /** What draining at position m did: it emitted every position up to n, and n is the first gap. */
  ghost predicate InOrder(src: Source, d: Drained, waiting: set<nat>, m: nat, n: nat) {
    && m <= n && n !in waiting && (forall i :: m <= i < n ==> i in waiting)
    && d.nextSeq == src.Seq(n) && Packets(d.emitted) == Range(src, m, n)
    && Holds(src, d.buffer, From(waiting, n), n)
  }

  lemma InOrderCons(src: Source, d: Drained, waiting: set<nat>, m: nat, n: nat, x: Buffered)
    requires m in waiting && x.packet == src.packetAt(m) && InOrder(src, d, waiting - {m}, m + 1, n)
    ensures InOrder(src, d.(emitted := [x] + d.emitted), waiting, m, n)
  {
    RangeCons(src, x, d.emitted, m, n);
    assert From(waiting - {m}, n) == From(waiting, n);
    forall i | m <= i < n ensures i in waiting {
      assert i == m || i in waiting - {m};
    }
  }

  lemma InOrderMore(src: Source, b: Buffer, waiting: set<nat>, m: nat, late: nat -> bool, n: nat)
    requires src.Valid() && Holds(src, b, waiting, m) && m in waiting
    requires InOrder(src, Drain(b - {src.Seq(m)}, src.Seq(m + 1), late), waiting - {m}, m + 1, n)
    ensures InOrder(src, Drain(b, src.Seq(m), late), waiting, m, n)
  {
    var k := src.Seq(m);
    SuccSeq(src, m);
    DrainStep(b, k, late);
    InOrderCons(src, Drain(b - {k}, Succ(k), late), waiting, m, n, b[k]);
  }

  lemma InOrderStops(src: Source, b: Buffer, waiting: set<nat>, m: nat, late: nat -> bool)
    requires src.Valid() && m !in waiting && Holds(src, b, waiting, m) && forall i :: !late(i)
    ensures InOrder(src, Drain(b, src.Seq(m), late), waiting, m, m)
  {
    SeqInBuffer(src, b, waiting, m, m);
    DrainStops(b, src.Seq(m), late);
    assert From(waiting, m) == waiting;
    assert Packets([]) == Range(src, m, m);
  }

  lemma FewerKeys(src: Source, b: Buffer, waiting: set<nat>, m: nat)
    requires src.Valid() && Holds(src, b, waiting, m) && m in waiting
    ensures |(b - {src.Seq(m)}).Keys| < |b.Keys|
  {
    assert (b - {src.Seq(m)}).Keys == b.Keys - {src.Seq(m)};
  }

  /** Without timeouts, draining at position m emits the waiting positions from m up to the first gap. */
  lemma {:induction false} DrainInOrder(src: Source, b: Buffer, waiting: set<nat>, m: nat, late: nat -> bool)
    returns (n: nat)
    requires src.Valid() && Holds(src, b, waiting, m) && forall i :: !late(i)
    ensures InOrder(src, Drain(b, src.Seq(m), late), waiting, m, n)
    decreases |b.Keys|
  {
    if m in waiting {
      HoldsNext(src, b, waiting, m);
      FewerKeys(src, b, waiting, m);
      n := DrainInOrder(src, b - {src.Seq(m)}, waiting - {m}, m + 1, late);
      InOrderMore(src, b, waiting, m, late, n);
    } else {
      n := m;
      InOrderStops(src, b, waiting, m, late);
    }
  }

  function Never(): nat -> bool {
    _ => false
  }

  /** The positions in the given order, arriving with no timeout. */
  function Arrivals(src: Source, order: seq<nat>): seq<Arrival> {
    seq(|order|, i requires 0 <= i < |order| => Arrival(src.packetAt(order[i]), Never()))
  }

  /**
   Orders the buffer can sort: the lowest position comes first, none comes twice, and none comes while a
   position 2^16 or more before it is still missing.
   */
  ghost predicate Sortable(order: seq<nat>) {
    && (order != [] ==> order[0] == 0)
    && (forall i, j :: 0 <= i < j < |order| ==> order[i] != order[j])
    && (forall k, i: nat :: 0 <= k < |order| && i + 0x1_0000 <= order[k] ==> i in order[..k])
  }

  function Positions(order: seq<nat>): set<nat> {
    set i | i in order
  }

  /** After some arrivals: every position up to n has been emitted in order, and n is still missing. */
  ghost predicate SortedUpTo(src: Source, h: History, arrived: set<nat>, n: nat) {
    && h.stream.remoteSsrc == Some(src.ssrc) && h.stream.nextSeq == Some(src.Seq(n))
    && n !in arrived && (forall i: nat :: i < n ==> i in arrived)
    && Packets(h.emitted) == Range(src, 0, n)
    && Holds(src, h.stream.buffer, From(arrived, n), n)
  }

  lemma AppendRange(src: Source, a: seq<Buffered>, b: seq<Buffered>, m: nat, n: nat)
    requires m <= n && Packets(a) == Range(src, 0, m) && Packets(b) == Range(src, m, n)
    ensures Packets(a + b) == Range(src, 0, n)
  {
    assert Packets(a + b) == Packets(a) + Packets(b);
    assert Range(src, 0, n) == Range(src, 0, m) + Range(src, m, n);
  }

  lemma SortedStep(src: Source, h: History, arrived: set<nat>, m: nat, i: nat, at: nat) returns (n: nat)
    requires src.Valid() && SortedUpTo(src, h, arrived, m) && i !in arrived && i < m + 0x1_0000
    ensures SortedUpTo(src, Observe(h, Arrival(src.packetAt(i), Never()), at), arrived + {i}, n)
  {
    var waiting, b := From(arrived, m), h.stream.buffer;
    HoldsInsert(src, b, waiting, m, i, at);
    var b' := b[src.Seq(i) := Buffered(src.packetAt(i), at)];
    n := DrainInOrder(src, b', waiting + {i}, m, Never());
    AppendRange(src, h.emitted, Drain(b', src.Seq(m), Never()).emitted, m, n);
    assert From(waiting + {i}, n) == From(arrived + {i}, n);
  }

  lemma SortedFirst(src: Source, ssrc: Option<u32>) returns (n: nat)
    requires src.Valid() && (ssrc.Some? ==> ssrc.value == src.ssrc)
    ensures var first := Observe(History(Stream(ssrc, map[], None), [], [], []), Arrival(src.packetAt(0), Never()), 0);
      SortedUpTo(src, first, {0}, n)
  {
    var h := History(Stream(Some(src.ssrc), map[], Some(src.Seq(0))), [], [], []);
    assert Packets([]) == [] == Range(src, 0, 0);
    n := SortedStep(src, h, {}, 0, 0, 0);
    assert {} + {0} == {0};
  }

  /** Any sortable order of arrivals is emitted in sequence, across wrap-around, up to the first missing position. */
  lemma {:induction false} SortsPrefix(src: Source, ssrc: Option<u32>, order: seq<nat>) returns (n: nat)
    requires src.Valid() && (ssrc.Some? ==> ssrc.value == src.ssrc) && Sortable(order) && order != []
    ensures SortedUpTo(src, Run(ssrc, Arrivals(src, order)), Positions(order), n)
    decreases |order|
  {
    var k := |order| - 1;
    var before := order[..k];
    RunSnoc(src, ssrc, order, k);
    if k == 0 {
      n := SortedFirst(src, ssrc);
      assert Positions(order) == {0};
    } else {
      SortablePrefix(order, k);
      var m := SortsPrefix(src, ssrc, before);
      InWindow(order, k, m);
      n := SortedStep(src, Run(ssrc, Arrivals(src, before)), Positions(before), m, order[k], k);
      assert Positions(order) == Positions(before) + {order[k]};
    }
  }

  lemma RunSnoc(src: Source, ssrc: Option<u32>, order: seq<nat>, k: nat)
    requires k + 1 == |order|
    ensures Run(ssrc, Arrivals(src, order)) ==
      Observe(Run(ssrc, Arrivals(src, order[..k])), Arrival(src.packetAt(order[k]), Never()), k)
  {
    assert Arrivals(src, order)[..k] == Arrivals(src, order[..k]);
  }

  lemma SortablePrefix(order: seq<nat>, k: nat)
    requires Sortable(order) && k + 1 == |order|
    ensures Sortable(order[..k])
  {
    assert forall j :: 0 <= j < k ==> order[..k][..j] == order[..j];
  }

  lemma InWindow(order: seq<nat>, k: nat, m: nat)
    requires Sortable(order) && k + 1 == |order| && m !in Positions(order[..k])
    ensures order[k] < m + 0x1_0000 && order[k] !in Positions(order[..k])
  {
  }

  ghost predicate Permutation(order: seq<nat>) {
    && (forall i, j :: 0 <= i < j < |order| ==> order[i] != order[j])
    && (forall i: nat :: i in order <==> i < |order|)
  }

  /**
   Up to 65536 consecutive packets, arriving in any order that begins with the lowest and without a timeout,
   are emitted exactly once each and in sequence; nothing is left waiting.
   */
  lemma Sorts(src: Source, ssrc: Option<u32>, order: seq<nat>)
    requires src.Valid() && (ssrc.Some? ==> ssrc.value == src.ssrc)
    requires Permutation(order) && 0 < |order| <= 0x1_0000 && order[0] == 0
    ensures var h := Run(ssrc, Arrivals(src, order));
      Packets(h.emitted) == Range(src, 0, |order|) && h.stream.buffer == map[]
  {
    assert forall k :: 0 <= k < |order| ==> order[k] in order;
    var n := SortsPrefix(src, ssrc, order);
    assert n !in Positions(order) && forall i: nat :: i < n ==> i in Positions(order);
    assert n >= |order|;
    assert |order| !in Positions(order);
    assert From(Positions(order), n) == {};
  }
}
