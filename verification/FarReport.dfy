/**
 A report block from end to end: a receiver takes in packets and sender reports, its block goes over the wire, and
 the sender reads the state of its stream and the round trip out of it.
 */
module FarReport {
  import opened Bytes
  import opened RtcpTypes
  import opened RtcpReport
  import opened RxTracker
  import TxTracker

  // ---------- Times ----------

  /** Times count units of 2^-32 s; these are the two words of one, the upper wrapping. */
  function Seconds(t: nat): u32 {
    t / WORD % WORD
  }

  function Fraction32(t: nat): u32 {
    t % WORD
  }

  /** Whole units of 1/65536 s. */
  function Ticks(t: nat): nat {
    t / CYCLE
  }

  lemma SplitTime(t: nat, days: nat, secs: nat, upper: nat, lower: nat)
    requires t == ((days * CYCLE + secs) * CYCLE + upper) * CYCLE + lower
    requires secs < CYCLE && upper < CYCLE && lower < CYCLE
    ensures t % WORD / CYCLE == upper && t / WORD % CYCLE == secs && t / CYCLE % WORD == secs * CYCLE + upper
  {
    WordParts(t, days * CYCLE + secs, upper, lower);
    assert t / WORD == days * CYCLE + secs;
    WordRemainder(t / CYCLE, days, secs * CYCLE + upper);
  }

  lemma WordParts(t: nat, high: nat, upper: nat, lower: nat)
    requires t == (high * CYCLE + upper) * CYCLE + lower && upper < CYCLE && lower < CYCLE
    ensures t / WORD == high && t % WORD == upper * CYCLE + lower && t / CYCLE == high * CYCLE + upper
  {
  }

  lemma LowOfLow(x: nat)
    ensures x % WORD % CYCLE == x % CYCLE
  {
  }

  /** The compact form of a time is its middle 32 bits. */
  lemma CompactIs(t: nat)
    ensures Compact(Seconds(t), Fraction32(t)) == Ticks(t) % WORD
  {
    var secs := t / CYCLE / CYCLE;
    LowOfLow(t / WORD);
    SplitTime(t, secs / CYCLE, secs % CYCLE, t / CYCLE % CYCLE, t % CYCLE);
  }

  // ---------- The receiver ----------

  /**
   A packet at a true position arrives, with its timestamp and its time of arrival in units of the codec clock; a
   sender report arrives, with the time it was sent by the sender's clock and the time now by the receiver's; or a
   report block is built.
   */
  datatype Input = Heard(pos: nat, rtpTs: u32, arrival: u32) | SrHeard(sent: nat, arrived: nat) | Asked

  function TrackerAfter(run: seq<Input>): Tracker {
    if run == [] then START
    else
      var t := TrackerAfter(run[..|run| - 1]);
      match run[|run| - 1]
      case Heard(pos, _, _) => OnRtp(t, pos % CYCLE)
      case SrHeard(_, _) => t
      case Asked => AfterReport(t)
  }

  function ClockAfter(run: seq<Input>): Times {
    if run == [] then NO_TIMES
    else
      var t := ClockAfter(run[..|run| - 1]);
      match run[|run| - 1]
      case Heard(_, rtpTs, arrival) => OnTransit(t, rtpTs, arrival)
      case SrHeard(sent, arrived) =>
        OnSr(t, Seconds(sent), Fraction32(sent), Seconds(arrived), Fraction32(arrived))
      case Asked => t
  }

  function Events(run: seq<Input>): seq<Event> {
    if run == [] then []
    else
      Events(run[..|run| - 1]) +
      match run[|run| - 1]
      case Heard(pos, _, _) => [Packet(pos)]
      case SrHeard(_, _) => []
      case Asked => [Reported]
  }

  /** The true positions of the packets heard. */
  function Positions(run: seq<Input>): seq<nat> {
    if run == [] then []
    else Positions(run[..|run| - 1]) + if run[|run| - 1].Heard? then [run[|run| - 1].pos] else []
  }

  function Timing(run: seq<Input>): seq<Timed> {
    if run == [] then []
    else
      var last := run[|run| - 1];
      Timing(run[..|run| - 1]) + if last.Heard? then [Timed(last.rtpTs, last.arrival)] else []
  }

  /** The last sender report heard. */
  function LastSr(run: seq<Input>): (sr: Option<Input>)
    ensures sr.Some? ==> sr.value.SrHeard?
  {
    if run == [] then None
    else if run[|run| - 1].SrHeard? then Some(run[|run| - 1])
    else LastSr(run[..|run| - 1])
  }

  lemma SnocEvents(es: seq<Event>, e: Event)
    ensures Play(es + [e]) == if e.Packet? then OnRtp(Play(es), e.pos % CYCLE) else AfterReport(Play(es))
    ensures Received(es + [e]) == Received(es) + if e.Packet? then [e.pos] else []
  {
    assert (es + [e])[..|es|] == es;
  }

  lemma {:induction false} TrackerIs(run: seq<Input>)
    ensures TrackerAfter(run) == Play(Events(run)) && Received(Events(run)) == Positions(run)
  {
    if run != [] {
      var n := |run| - 1;
      TrackerIs(run[..n]);
      var es := Events(run[..n]);
      match run[n]
      case Heard(pos, _, _) => SnocEvents(es, Packet(pos));
      case SrHeard(_, _) => assert es + [] == es && Positions(run[..n]) + [] == Positions(run[..n]);
      case Asked => SnocEvents(es, Reported);
    }
  }

  lemma SnocTiming(ps: seq<Timed>, p: Timed)
    ensures TimesAfter(ps + [p]) == OnTransit(TimesAfter(ps), p.rtpTs, p.arrival)
  {
    assert (ps + [p])[..|ps|] == ps;
  }

  /** The jitter is that of the packets alone. */
  lemma {:induction false} JitterIs(run: seq<Input>)
    ensures ClockAfter(run).jitter == TimesAfter(Timing(run)).jitter
    ensures ClockAfter(run).lastTransit == TimesAfter(Timing(run)).lastTransit
  {
    if run != [] {
      var n := |run| - 1;
      JitterIs(run[..n]);
      var ps := Timing(run[..n]);
      if run[n].Heard? {
        SnocTiming(ps, Timed(run[n].rtpTs, run[n].arrival));
      } else {
        assert ps + [] == ps;
      }
    }
  }

  /** The times kept are those of the last sender report. */
  predicate SrKept(t: Times, sr: Option<Input>)
    requires sr.Some? ==> sr.value.SrHeard?
  {
    if sr.None? then t.lastSr.None? && t.srArrival.None?
    else t.lastSr == Some(Ticks(sr.value.sent) % WORD) && t.srArrival == Some(Ticks(sr.value.arrived) % WORD)
  }

  lemma {:induction false} SrIs(run: seq<Input>)
    ensures SrKept(ClockAfter(run), LastSr(run))
  {
    if run != [] {
      var n := |run| - 1;
      SrIs(run[..n]);
      if run[n].SrHeard? {
        CompactIs(run[n].sent);
        CompactIs(run[n].arrived);
      }
    }
  }

  // ---------- What the far end reads ----------

  /** The block that the far end reads, built at the given time by the receiver's clock. */
  function Read(run: seq<Input>, ssrc: u32, now: nat): ReportBlock {
    BlockAt(BlockBytes(BlockOf(ssrc, TrackerAfter(run), ClockAfter(run), Compact(Seconds(now), Fraction32(now)))), 0)
  }

  lemma ReadIs(run: seq<Input>, ssrc: u32, now: nat)
    ensures var (b, t) := (Read(run, ssrc, now), ClockAfter(run));
      var timed := t.lastSr.Some? && t.srArrival.Some?;
      && b.ssrc == ssrc && b.fractionLost == BuildReport(TrackerAfter(run)).fractionLost
      && b.highestSeq == TrackerAfter(run).highest && b.jitter == t.jitter
      && b.lsr == (if timed then t.lastSr.value else 0)
      && b.dlsr == if timed then (Compact(Seconds(now), Fraction32(now)) - t.srArrival.value) % WORD else 0
  {
    var b := BlockOf(ssrc, TrackerAfter(run), ClockAfter(run), Compact(Seconds(now), Fraction32(now)));
    BlockDecoded(BlockBytes(b), 0, b);
  }

  /** How long the last sender report has been held, in units of 1/65536 s. */
  function Held(arrived: nat, now: nat): int {
    Ticks(now) as int - Ticks(arrived)
  }

  lemma ModDifference(a: nat, b: nat)
    ensures (a % WORD - b % WORD) % WORD == (a - b) % WORD
  {
    assert a - b == a % WORD - b % WORD + WORD * (a / WORD - b / WORD);
  }

  /** The times in the block: those of the last sender report, or zeros. */
  lemma ReadTimes(run: seq<Input>, ssrc: u32, now: nat)
    ensures var (b, sr) := (Read(run, ssrc, now), LastSr(run));
      if sr.None? then b.lsr == 0 && b.dlsr == 0
      else b.lsr == Ticks(sr.value.sent) % WORD && b.dlsr == Held(sr.value.arrived, now) % WORD
  {
    ReadIs(run, ssrc, now);
    SrIs(run);
    CompactIs(now);
    if LastSr(run).Some? {
      ModDifference(Ticks(now), Ticks(LastSr(run).value.arrived));
    }
  }

  /**
   After any run of packets, sender reports and report blocks, the far end reads the stream's SSRC, the largest
   position heard, the jitter of the packets, and of the last sender report when it was sent and how long it has
   been held.
   */
  lemma FarReads(run: seq<Input>, ssrc: u32, now: nat)
    requires Positions(run) != [] && Tracked(Positions(run)) && |Positions(run)| < WORD
    ensures var (b, sr) := (Read(run, ssrc, now), LastSr(run));
      && b.ssrc == ssrc && b.highestSeq == Max(Positions(run)) && b.jitter == TimesAfter(Timing(run)).jitter
      && if sr.None? then b.lsr == 0 && b.dlsr == 0
         else b.lsr == Ticks(sr.value.sent) % WORD && b.dlsr == Held(sr.value.arrived, now) % WORD
  {
    TrackerIs(run);
    RunCounts(Events(run));
    JitterIs(run);
    ReadIs(run, ssrc, now);
    ReadTimes(run, ssrc, now);
  }

  // ---------- The round trip ----------

  /** From the sending of the report to the arrival of the block, less the time the far end held it. */
  function Trip(sent: nat, arrived: nat, now: nat, back: nat): int {
    Ticks(back) as int - Ticks(sent) - Held(arrived, now)
  }

  /** The sender's state after its own report and the far end's block on it. */
  function Exchange(s: TxTracker.Sender, sent: nat, b: ReportBlock, back: nat): TxTracker.Sender {
    TxTracker.OnBlock(TxTracker.Marked(s, Seconds(sent), Fraction32(sent)), b,
                      TxTracker.ToCompact(Seconds(back), Fraction32(back)))
  }

  lemma ThreeResidues(a: nat, b: nat, c: int)
    ensures (a % WORD - b % WORD - c % WORD) % WORD == (a - b - c) % WORD
  {
    assert a - b - c == a % WORD - b % WORD - c % WORD + WORD * (a / WORD - b / WORD - c / WORD);
  }

  /** The block answers the report that was sent at this time. */
  predicate Measured(run: seq<Input>, sent: nat, now: nat) {
    var sr := LastSr(run);
    sr.Some? && Ticks(sr.value.sent) % WORD == Ticks(sent) % WORD != 0 && Held(sr.value.arrived, now) % WORD != 0
  }

  /**
   The sender, whatever it knew before, computes a round trip exactly if the last sender report its peer heard is the
   one it sent last, neither at tick 0 nor answered within the tick of its arrival, all modulo 2^32 ticks. It is then
   the time from sending to arrival less the time held, by clocks that need not agree, in milliseconds rounded down.
   Otherwise the one known before stays.
   */
  lemma RoundTripIff(s: TxTracker.Sender, run: seq<Input>, ssrc: u32, sent: nat, now: nat, back: nat)
    ensures var (rtt, sr) := (Exchange(s, sent, Read(run, ssrc, now), back).rtt, LastSr(run));
      if Measured(run, sent, now)
      then rtt == Some(Trip(sent, sr.value.arrived, now, back) % WORD * 1000 / 65536)
      else rtt == s.rtt
  {
    ReadTimes(run, ssrc, now);
    CompactIs(sent);
    CompactIs(back);
    if Measured(run, sent, now) {
      ThreeResidues(Ticks(back), Ticks(sent), Held(LastSr(run).value.arrived, now));
    }
  }

  lemma NotHeld(run: seq<Input>, sent: nat, now: nat)
    requires LastSr(run).Some? && now == LastSr(run).value.arrived
    ensures !Measured(run, sent, now)
  {
  }

  /** A report that is answered in the instant of its arrival gives no round trip, whatever was heard before. */
  lemma AnsweredAtOnce(s: TxTracker.Sender, run: seq<Input>, ssrc: u32, sent: nat, now: nat, back: nat)
    requires LastSr(run).Some? && now == LastSr(run).value.arrived
    ensures Exchange(s, sent, Read(run, ssrc, now), back).rtt == s.rtt
  {
    NotHeld(run, sent, now);
    RoundTripIff(s, run, ssrc, sent, now, back);
  }
}
