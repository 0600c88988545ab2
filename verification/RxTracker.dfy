/**
 Extended sequence numbers and loss statistics of a receive stream (src/rtp_session/seq_ext.rs and
 src/rtp_session/rx_tracker.rs; appendices A.1 and A.3 of RFC 3550).
 */
module RxTracker {
  import opened Bytes
  import Bits
  import opened RtcpTypes
  import RtcpReport

  const WORD := 0x1_0000_0000
  const CYCLE := 0x1_0000

  // ---------- Extended sequence numbers ----------

  datatype Ext = Ext(cycles: u32, last: u16)

  const FRESH := Ext(0, 0)

  /** Whether the update takes the new number for a wrap. */
  predicate Wraps(last: u16, seqNo: u16) {
    seqNo < last && last - seqNo > 0x8000
  }

  function Extend(e: Ext, seqNo: u16): Ext {
    Ext(if Wraps(e.last, seqNo) then (e.cycles as int + CYCLE) % WORD else e.cycles, seqNo)
  }

  /** The extended number. */
  function Number(e: Ext): nat {
    Bits.Or(e.cycles, e.last)
  }

  /** Where the cycle count is a multiple of 2^16, the bitwise or is a sum. */
  lemma NumberIsSum(e: Ext)
    requires e.cycles % CYCLE == 0
    ensures Number(e) == e.cycles + e.last
  {
    Bits.Pow2Words();
    Bits.OrIsSum(e.cycles / CYCLE, 16, e.last);
    assert e.cycles == e.cycles / CYCLE * CYCLE;
  }

  class SeqExt {
    var cycles: u32
    var last: u16

    function State(): Ext
      reads this
    {
      Ext(cycles, last)
    }

    constructor ()
      ensures State() == FRESH
    {
      cycles, last := 0, 0;
    }

    method Update(seqNo: u16) returns (ext: nat)
      modifies this
      ensures State() == Extend(old(State()), seqNo) && ext == Number(State())
    {
      if seqNo < last && (last - seqNo) % CYCLE > 0x8000 {
        cycles := (cycles as int + CYCLE) % WORD;
      }
      last := seqNo;
      ext := Bits.Or(cycles, seqNo);
    }
  }

  /** The state that extends the packet at true position p correctly. */
  function At(p: nat): Ext {
    Ext(p / CYCLE % CYCLE * CYCLE, p % CYCLE)
  }

  lemma NumberAt(p: nat)
    ensures Number(At(p)) == p % WORD
  {
    WholeCycle(p / CYCLE % CYCLE);
    NumberIsSum(At(p));
    SplitWord(p, p / CYCLE / CYCLE, p / CYCLE % CYCLE, p % CYCLE);
  }

  lemma WholeCycle(c: nat)
    ensures c * CYCLE % CYCLE == 0
  {
  }

  lemma SplitWord(p: nat, hi: nat, mid: nat, lo: nat)
    requires p == (hi * CYCLE + mid) * CYCLE + lo && mid < CYCLE && lo < CYCLE
    ensures p % WORD == mid * CYCLE + lo
  {
    assert p == hi * WORD + (mid * CYCLE + lo);
    WordRemainder(p, hi, mid * CYCLE + lo);
  }

  /** The cycle of a position, as far as a 32-bit number can tell cycles apart. */
  function Cycle(p: nat): (c: nat)
    ensures c < CYCLE
  {
    p / CYCLE % CYCLE
  }

  /**
   Steps between true positions that are followed: within a cycle not back by more than 2^15, or into the next
   cycle by less than 2^15. Cycles count modulo 2^16, as the numbers have 32 bits.
   */
  predicate Followed(p: nat, q: nat) {
    || (Cycle(q) == Cycle(p) && q % CYCLE >= p % CYCLE - 0x8000)
    || (Cycle(q) == (Cycle(p) + 1) % CYCLE && q % CYCLE + CYCLE < p % CYCLE + 0x8000)
  }

  lemma NextCycle(a: nat)
    requires a < CYCLE
    ensures (a * CYCLE + CYCLE) % WORD == (a + 1) % CYCLE * CYCLE
  {
    if a + 1 == CYCLE {
      assert a * CYCLE + CYCLE == WORD;
    }
  }

  /** One update is exact exactly on followed steps. */
  lemma ExtendExactIff(p: nat, q: nat)
    ensures Extend(At(p), q % CYCLE) == At(q) <==> Followed(p, q)
  {
    NextCycle(Cycle(p));
  }

  /** A step by its length: back inside a cycle by at most 2^15, on inside it, or into the next by less than 2^15. */
  predicate Short(p: nat, q: nat) {
    (q / CYCLE == p / CYCLE && q - p >= -0x8000) || (q / CYCLE == p / CYCLE + 1 && q - p < 0x8000)
  }

  predicate Below31Bits(p: nat, q: nat) {
    -0x8000_0000 < q - p < 0x8000_0000
  }

  /** For steps of less than 2^31, being followed is a matter of length. */
  lemma FollowedIff(p: nat, q: nat)
    requires Below31Bits(p, q)
    ensures Followed(p, q) <==> Short(p, q)
  {
    var (a, b) := (p / CYCLE, q / CYCLE);
    assert p == a * CYCLE + p % CYCLE && q == b * CYCLE + q % CYCLE;
    assert -0x8001 < b - a < 0x8001;
    SameCycle(a, b);
    SameCycle(a + 1, b);
    NextModulo(a);
  }

  lemma SameCycle(a: nat, b: nat)
    requires -0x9000 < b - a < 0x9000
    ensures a % CYCLE == b % CYCLE <==> a == b
  {
  }

  lemma NextModulo(a: nat)
    ensures (a % CYCLE + 1) % CYCLE == (a + 1) % CYCLE
  {
  }

  // ---------- Runs of positions ----------

  /** The state after the packets at the given true positions. */
  function ExtAfter(ps: seq<nat>): Ext {
    if ps == [] then FRESH else Extend(ExtAfter(ps[..|ps| - 1]), ps[|ps| - 1] % CYCLE)
  }

  /** In every run the cycle count stays a multiple of 2^16, so that or-ing the number into it adds it. */
  lemma {:induction false} WholeCycles(ps: seq<nat>)
    ensures var e := ExtAfter(ps); e.cycles % CYCLE == 0 && Bits.Or(e.cycles, e.last) == e.cycles + e.last < WORD
  {
    if ps != [] {
      WholeCycles(ps[..|ps| - 1]);
      NextMultiple(ExtAfter(ps[..|ps| - 1]).cycles);
    }
    NumberIsSum(ExtAfter(ps));
    Topmost(ExtAfter(ps).cycles);
  }

  lemma Topmost(c: u32)
    requires c % CYCLE == 0
    ensures c <= WORD - CYCLE
  {
  }

  lemma NextMultiple(c: u32)
    requires c % CYCLE == 0
    ensures (c + CYCLE) % WORD % CYCLE == 0
  {
    var k := c / CYCLE;
    assert c == k * CYCLE;
    NextCycle(k);
    assert (k + 1) % CYCLE * CYCLE % CYCLE == 0;
  }

  /** A run whose first packet lies in the first cycle and whose every step is followed. */
  predicate Steady(ps: seq<nat>) {
    (ps != [] ==> ps[0] < CYCLE) && forall i :: 0 < i < |ps| ==> Followed(ps[i - 1], ps[i])
  }

  lemma FirstExact(p: nat)
    ensures Extend(FRESH, p % CYCLE) == At(p) <==> Cycle(p) == 0
  {
  }

  /** Every packet of the run got its true extended number. */
  predicate AllExact(ps: seq<nat>) {
    forall k :: 0 < k <= |ps| ==> ExactAt(ps, k)
  }

  predicate ExactAt(ps: seq<nat>, k: nat)
    requires 0 < k <= |ps|
  {
    ExtAfter(ps[..k]) == At(ps[k - 1])
  }

  lemma AllExactSnoc(ps: seq<nat>, n: nat)
    requires n + 1 == |ps|
    ensures AllExact(ps) <==> AllExact(ps[..n]) && ExactAt(ps, n + 1)
  {
    forall k | 0 < k <= n ensures ExactAt(ps[..n], k) == ExactAt(ps, k) {
      assert ps[..n][..k] == ps[..k];
    }
  }

  lemma SteadySnoc(ps: seq<nat>, n: nat)
    requires n + 1 == |ps| && n > 0
    ensures Steady(ps) <==> Steady(ps[..n]) && Followed(ps[n - 1], ps[n])
  {
    assert forall i :: 0 <= i < n ==> ps[..n][i] == ps[i];
  }

  lemma LastExact(ps: seq<nat>, n: nat)
    requires n + 1 == |ps| && n > 0 && ExactAt(ps[..n], n)
    ensures ExactAt(ps, n + 1) <==> Followed(ps[n - 1], ps[n])
  {
    assert ps[..n + 1] == ps && ps[..n][..n] == ps[..n];
    ExtendExactIff(ps[n - 1], ps[n]);
  }

  /** In a run, every extended number is exact exactly if every step is followed. */
  lemma {:induction false} RunExactIff(ps: seq<nat>)
    requires ps != [] ==> ps[0] < CYCLE
    ensures AllExact(ps) <==> Steady(ps)
  {
    if |ps| == 1 {
      FirstExact(ps[0]);
      assert ps[..1] == ps && ps[..0] == [] && Cycle(ps[0]) == 0;
      assert ExtAfter(ps) == Extend(ExtAfter(ps[..0]), ps[0] % CYCLE);
      assert ExactAt(ps, 1);
    } else if ps != [] {
      var n := |ps| - 1;
      RunExactIff(ps[..n]);
      AllExactSnoc(ps, n);
      SteadySnoc(ps, n);
      if AllExact(ps[..n]) {
        LastExact(ps, n);
      }
    }
  }

  predicate AllShort(ps: seq<nat>) {
    forall i :: 0 < i < |ps| ==> Short(ps[i - 1], ps[i])
  }

  /** The same by step lengths: every extended number is exact exactly if every step is short. */
  lemma RunByLengthIff(ps: seq<nat>)
    requires ps != [] ==> ps[0] < CYCLE
    requires forall i :: 0 < i < |ps| ==> Below31Bits(ps[i - 1], ps[i])
    ensures AllExact(ps) <==> AllShort(ps)
  {
    RunExactIff(ps);
    forall i | 0 < i < |ps| ensures Followed(ps[i - 1], ps[i]) <==> Short(ps[i - 1], ps[i]) {
      FollowedIff(ps[i - 1], ps[i]);
    }
  }

  /** A step back of more than 2^15 inside one cycle is taken for a wrap. */
  lemma BackTooFar()
    ensures Number(ExtAfter([40000, 0])) == CYCLE && !Steady([40000, 0])
  {
    var ps: seq<nat> := [40000, 0];
    assert ps[..1] == [40000] && [40000][..0] == [];
    assert ExtAfter([40000]) == Ext(0, 40000);
    assert ExtAfter(ps) == Ext(CYCLE, 0);
    NumberIsSum(ExtAfter(ps));
  }

  // ---------- Loss statistics ----------

  /** The counters of a tracker; jitter and sender-report times are kept apart. */
  datatype Tracker = Tracker(
    ext: Ext, base: Option<u32>, highest: u32, received: u32, expectedPrev: u32, receivedPrev: u32)

  const START := Tracker(FRESH, None, 0, 0, 0, 0)

  /** `wrapping_add(1)` on 32 bits. */
  function Inc(x: u32): u32 {
    if x == WORD - 1 then 0 else x + 1
  }

  /** Counts a packet that got extended number n. */
  function Count(t: Tracker, ext: Ext, n: u32): Tracker {
    Tracker(ext, Some(Origin(t, n)), if n > t.highest then n else t.highest, Inc(t.received),
            t.expectedPrev, t.receivedPrev)
  }

  /** The first extended number, or a default if there is none yet. */
  function Origin(t: Tracker, default: u32): u32 {
    if t.base.Some? then t.base.value else default
  }

  function OnRtp(t: Tracker, seqNo: u16): Tracker {
    var ext := Extend(t.ext, seqNo);
    Count(t, ext, Number(ext) % WORD)
  }

  function SatSub(a: nat, b: nat): nat {
    if a < b then 0 else a - b
  }

  /** How far the highest number lies beyond the first. */
  function Span(t: Tracker): u32 {
    SatSub(t.highest, Origin(t, 0))
  }

  /** Packets expected so far; before any packet this is 1. */
  function Expected(t: Tracker): u32 {
    Inc(Span(t))
  }

  /** What one report says about loss: the deltas of the interval and the fields they lead to. */
  datatype Report = Report(expDelta: u32, recDelta: u32, lostDelta: u32, fractionLost: byte, cumulativeLost: i32)

  /** Expected minus received. */
  function Lost(t: Tracker): int {
    Expected(t) as int - t.received
  }

  function BuildReport(t: Tracker): Report {
    var (e, r) := (SatSub(Expected(t), t.expectedPrev), SatSub(t.received, t.receivedPrev));
    var l := SatSub(e, r);
    Report(e, r, l, if e == 0 then 0 else l * 256 % WORD / e % 256, Lost(t) % 0x100_0000)
  }

  function AfterReport(t: Tracker): Tracker {
    t.(expectedPrev := Expected(t), receivedPrev := t.received)
  }

  // ---------- Times ----------

  /** Interarrival jitter with the transit time it was last taken from, and the last sender report with its arrival. */
  datatype Times = Times(jitter: u32, lastTransit: Option<u32>, lastSr: Option<u32>, srArrival: Option<u32>)

  const NO_TIMES := Times(0, None, None, None)

  function AbsDiff(a: nat, b: nat): nat {
    if a < b then b - a else a - b
  }

  /** `arrival.wrapping_sub(rtp_ts)` on 32 bits. */
  function Transit(rtpTs: u32, arrival: u32): u32 {
    (arrival - rtpTs) % WORD
  }

  function Smoothed(jitter: u32, variation: nat): u32 {
    (jitter + SatSub(variation, jitter) / 16) % WORD
  }

  function OnTransit(t: Times, rtpTs: u32, arrival: u32): Times {
    var transit := Transit(rtpTs, arrival);
    t.(jitter := if t.lastTransit.None? then t.jitter else Smoothed(t.jitter, AbsDiff(transit, t.lastTransit.value)),
       lastTransit := Some(transit))
  }

  /** The middle 32 bits of a time of 32.32 bits. */
  function Compact(secs: u32, frac: u32): u32 {
    secs % CYCLE * CYCLE + frac / CYCLE
  }

  function OnSr(t: Times, secs: u32, frac: u32, nowSecs: u32, nowFrac: u32): Times {
    t.(lastSr := Some(Compact(secs, frac)), srArrival := Some(Compact(nowSecs, nowFrac)))
  }

  /** The whole report block; now is the compact time at which it is built. */
  function BlockOf(ssrc: u32, t: Tracker, times: Times, now: u32): ReportBlock {
    var timed := times.lastSr.Some? && times.srArrival.Some?;
    ReportBlock(ssrc, BuildReport(t).fractionLost, BuildReport(t).cumulativeLost, t.highest, times.jitter,
                if timed then times.lastSr.value else 0, if timed then (now - times.srArrival.value) % WORD else 0)
  }

  class RxTracker {
    const seqext: SeqExt
    var baseExtSeq: Option<u32>
    var highestExtSeq: u32
    var receivedUnique: u32
    var expectedPrev: u32
    var receivedPrev: u32
    var jitter: u32
    var lastTransit: Option<u32>
    var lastSrCompact: Option<u32>
    var lastSrArrivalCompact: Option<u32>

    function State(): Tracker
      reads this, seqext
    {
      Tracker(seqext.State(), baseExtSeq, highestExtSeq, receivedUnique, expectedPrev, receivedPrev)
    }

    function Clock(): Times
      reads this
    {
      Times(jitter, lastTransit, lastSrCompact, lastSrArrivalCompact)
    }

    constructor ()
      ensures State() == START && Clock() == NO_TIMES && fresh(seqext)
    {
      seqext := new SeqExt();
      baseExtSeq, highestExtSeq, receivedUnique, expectedPrev, receivedPrev := None, 0, 0, 0, 0;
      jitter, lastTransit, lastSrCompact, lastSrArrivalCompact := 0, None, None, None;
    }

    method OnRtpPacket(seqNo: u16, rtpTs: u32, arrival: u32)
      modifies this, seqext
      ensures State() == OnRtp(old(State()), seqNo) && Clock() == OnTransit(old(Clock()), rtpTs, arrival)
    {
      var n := seqext.Update(seqNo);
      var ext := n % WORD;
      if baseExtSeq.None? {
        baseExtSeq := Some(ext);
      }
      if ext > highestExtSeq {
        highestExtSeq := ext;
      }
      receivedUnique := Inc(receivedUnique);
      TrackJitter(rtpTs, arrival);
    }

    method TrackJitter(rtpTs: u32, arrival: u32)
      modifies this`jitter, this`lastTransit
      ensures Clock() == OnTransit(old(Clock()), rtpTs, arrival)
    {
      var transit := Transit(rtpTs, arrival);
      if lastTransit.Some? {
        var d := AbsDiff(transit, lastTransit.value);
        jitter := (jitter + SatSub(d, jitter) / 16) % WORD;
      }
      lastTransit := Some(transit);
    }

    method OnSrReceived(secs: u32, frac: u32, nowSecs: u32, nowFrac: u32)
      modifies this`lastSrCompact, this`lastSrArrivalCompact
      ensures Clock() == OnSr(old(Clock()), secs, frac, nowSecs, nowFrac)
    {
      lastSrCompact := Some(Compact(secs, frac));
      lastSrArrivalCompact := Some(Compact(nowSecs, nowFrac));
    }

    method BuildReportBlock(ssrc: u32, now: u32) returns (b: ReportBlock)
      modifies this`expectedPrev, this`receivedPrev
      ensures b == BlockOf(ssrc, old(State()), old(Clock()), now) && State() == AfterReport(old(State()))
    {
      var base := if baseExtSeq.Some? then baseExtSeq.value else 0;
      var expectedTotal := Inc(SatSub(highestExtSeq, base));
      var cumulative := expectedTotal as int - receivedUnique;
      var expDelta := SatSub(expectedTotal, expectedPrev);
      var recDelta := SatSub(receivedUnique, receivedPrev);
      var lostDelta := SatSub(expDelta, recDelta);
      var fraction := if expDelta == 0 then 0 else lostDelta * 256 % WORD / expDelta % 256;
      expectedPrev := expectedTotal;
      receivedPrev := receivedUnique;
      var lsr, dlsr := 0, 0;
      if lastSrCompact.Some? && lastSrArrivalCompact.Some? {
        lsr, dlsr := lastSrCompact.value, (now - lastSrArrivalCompact.value) % WORD;
      }
      return ReportBlock(ssrc, fraction, cumulative % 0x100_0000, highestExtSeq, jitter, lsr, dlsr);
    }
  }

  /** Packets by their timestamp and the time of arrival, in units of the codec clock. */
  datatype Timed = Timed(rtpTs: u32, arrival: u32)

  function TimesAfter(ps: seq<Timed>): Times {
    if ps == [] then NO_TIMES
    else OnTransit(TimesAfter(ps[..|ps| - 1]), ps[|ps| - 1].rtpTs, ps[|ps| - 1].arrival)
  }

  /** How much the transit times of two packets differ. */
  function Variation(a: Timed, b: Timed): nat {
    AbsDiff(Transit(a.rtpTs, a.arrival), Transit(b.rtpTs, b.arrival))
  }

  lemma SmoothedIs(jitter: u32, variation: u32)
    ensures Smoothed(jitter, variation) == jitter + SatSub(variation, jitter) / 16
  {
  }

  lemma OneMore(ps: seq<Timed>, a: Timed, b: Timed)
    ensures TimesAfter(ps + [a] + [b]).jitter == Smoothed(TimesAfter(ps + [a]).jitter, Variation(a, b))
  {
    assert (ps + [a] + [b])[..|ps| + 1] == ps + [a] && (ps + [a])[..|ps|] == ps;
  }

  lemma JitterSmoothed(ps: seq<Timed>, n: nat)
    requires |ps| == n + 1 && n > 0
    ensures TimesAfter(ps).jitter == Smoothed(TimesAfter(ps[..n]).jitter, Variation(ps[n - 1], ps[n]))
  {
    assert ps == ps[..n - 1] + [ps[n - 1]] + [ps[n]] && ps[..n] == ps[..n - 1] + [ps[n - 1]];
    OneMore(ps[..n - 1], ps[n - 1], ps[n]);
  }

  /** One more packet raises the jitter by a sixteenth of what its variation exceeds it by, and never lowers it. */
  lemma JitterStep(ps: seq<Timed>, n: nat)
    requires |ps| == n + 1 && n > 0
    ensures var (was, v) := (TimesAfter(ps[..n]).jitter, Variation(ps[n - 1], ps[n]));
      TimesAfter(ps).jitter == was + SatSub(v, was) / 16
  {
    JitterSmoothed(ps, n);
    SmoothedIs(TimesAfter(ps[..n]).jitter, Variation(ps[n - 1], ps[n]));
  }

  /**
   Over any run the jitter only grows, however smooth the arrivals become, and it stays within the largest
   variation seen.
   */
  lemma {:induction false} JitterOnlyGrows(ps: seq<Timed>, k: nat, bound: nat)
    requires k <= |ps| && forall i :: 0 < i < |ps| ==> Variation(ps[i - 1], ps[i]) <= bound
    ensures TimesAfter(ps[..k]).jitter <= TimesAfter(ps).jitter <= bound
  {
    if k == |ps| {
      assert ps[..k] == ps;
    }
    if |ps| >= 2 {
      var n := |ps| - 1;
      JitterOnlyGrows(ps[..n], if k <= n then k else n, bound);
      JitterStep(ps, n);
      if k <= n {
        assert ps[..n][..k] == ps[..k];
      }
    }
  }

  /** The jitter of appendix A.8 of RFC 3550, rounded down: it moves a sixteenth of the way to the variation. */
  function Decayed(jitter: nat, variation: nat): nat {
    (15 * jitter + variation) / 16
  }

  function RfcJitter(ps: seq<Timed>): nat {
    if |ps| < 2 then 0
    else
      var n := |ps| - 1;
      Decayed(RfcJitter(ps[..n]), Variation(ps[n - 1], ps[n]))
  }

  /** One step is that of the RFC exactly if the variation is not below the jitter. */
  lemma SmoothedIffDecayed(jitter: u32, variation: u32)
    ensures Smoothed(jitter, variation) >= Decayed(jitter, variation)
    ensures Smoothed(jitter, variation) == Decayed(jitter, variation) <==> variation >= jitter
  {
    SmoothedIs(jitter, variation);
    if variation >= jitter {
      assert 15 * jitter + variation == 16 * jitter + (variation - jitter);
    }
  }

  /** The jitter after k packets is that of the RFC. */
  predicate JitterRight(ps: seq<Timed>, k: nat)
    requires k <= |ps|
  {
    TimesAfter(ps[..k]).jitter == RfcJitter(ps[..k])
  }

  /** The variation of packet i is not below the jitter held before it. */
  predicate NotBelow(ps: seq<Timed>, i: nat)
    requires 0 < i < |ps|
  {
    Variation(ps[i - 1], ps[i]) >= TimesAfter(ps[..i]).jitter
  }

  predicate AllRight(ps: seq<Timed>) {
    forall k :: 0 <= k <= |ps| ==> JitterRight(ps, k)
  }

  predicate NoneBelow(ps: seq<Timed>) {
    forall i :: 0 < i < |ps| ==> NotBelow(ps, i)
  }

  lemma AllRightSnoc(ps: seq<Timed>, n: nat)
    requires n + 1 == |ps|
    ensures AllRight(ps) <==> AllRight(ps[..n]) && JitterRight(ps, n + 1)
  {
    forall k | 0 <= k <= n ensures JitterRight(ps[..n], k) == JitterRight(ps, k) {
      assert ps[..n][..k] == ps[..k];
    }
  }

  lemma NoneBelowSnoc(ps: seq<Timed>, n: nat)
    requires n + 1 == |ps| && n > 0
    ensures NoneBelow(ps) <==> NoneBelow(ps[..n]) && NotBelow(ps, n)
  {
    forall i | 0 < i < n ensures NotBelow(ps[..n], i) == NotBelow(ps, i) {
      assert ps[..n][..i] == ps[..i];
    }
  }

  lemma LastRight(ps: seq<Timed>, n: nat)
    requires n + 1 == |ps| && n > 0 && JitterRight(ps[..n], n)
    ensures JitterRight(ps, n + 1) <==> NotBelow(ps, n)
  {
    assert ps[..n + 1] == ps && ps[..n][..n] == ps[..n];
    JitterSmoothed(ps, n);
    SmoothedIffDecayed(TimesAfter(ps[..n]).jitter, Variation(ps[n - 1], ps[n]));
  }

  /**
   In any run, every jitter is that of the RFC exactly if no packet's variation is below the jitter held before it.
   */
  lemma {:induction false} JitterRightIff(ps: seq<Timed>)
    ensures AllRight(ps) <==> NoneBelow(ps)
  {
    if |ps| >= 2 {
      var n := |ps| - 1;
      JitterRightIff(ps[..n]);
      AllRightSnoc(ps, n);
      NoneBelowSnoc(ps, n);
      if AllRight(ps[..n]) {
        assert JitterRight(ps[..n], n);
        LastRight(ps, n);
      }
    } else {
      forall k | 0 <= k <= |ps| ensures JitterRight(ps, k) {
        assert |ps[..k]| < 2;
      }
    }
  }

  lemma DecayedMonotone(a: nat, b: nat, variation: nat)
    requires a <= b
    ensures Decayed(a, variation) <= Decayed(b, variation)
  {
  }

  /** In any run the jitter is at least that of the RFC. */
  lemma {:induction false} JitterNotBelowRfc(ps: seq<Timed>)
    ensures RfcJitter(ps) <= TimesAfter(ps).jitter
  {
    if |ps| >= 2 {
      var n := |ps| - 1;
      var (was, v) := (TimesAfter(ps[..n]).jitter, Variation(ps[n - 1], ps[n]));
      JitterNotBelowRfc(ps[..n]);
      JitterSmoothed(ps, n);
      SmoothedIffDecayed(was, v);
      DecayedMonotone(RfcJitter(ps[..n]), was, v);
    }
  }

  /** A late packet and a smooth one after it: the jitter stays at 10, where the RFC lets it fall to 9. */
  lemma JitterDoesNotDecay()
    ensures var ps := [Timed(0, 0), Timed(0, 160), Timed(0, 160)];
      TimesAfter(ps[..2]).jitter == 10 && TimesAfter(ps).jitter == 10 && RfcJitter(ps) == 9
  {
    var ps := [Timed(0, 0), Timed(0, 160), Timed(0, 160)];
    assert ps[..2] == [Timed(0, 0), Timed(0, 160)] && ps[..2][..1] == [Timed(0, 0)];
    assert [Timed(0, 0)][..0] == [];
    assert TimesAfter([Timed(0, 0)]).jitter == 0;
    JitterSmoothed(ps[..2], 1);
    JitterSmoothed(ps, 2);
    assert RfcJitter(ps[..2]) == 10;
  }

  // ---------- Runs of packets and reports ----------

  /** A packet at a true position arrives, or a report is built. */
  datatype Event = Packet(pos: nat) | Reported

  function Play(es: seq<Event>): Tracker {
    if es == [] then START
    else
      var t := Play(es[..|es| - 1]);
      match es[|es| - 1]
      case Packet(pos) => OnRtp(t, pos % CYCLE)
      case Reported => AfterReport(t)
  }

  lemma PlayPacket(es: seq<Event>, seqNo: u16)
    ensures Play(es + [Packet(seqNo)]) == OnRtp(Play(es), seqNo)
  {
    assert (es + [Packet(seqNo)])[..|es|] == es;
    SmallModulo(seqNo, CYCLE);
  }

  function Reports(es: seq<Event>): seq<Report> {
    if es == [] then []
    else
      var n := |es| - 1;
      Reports(es[..n]) + if es[n].Reported? then [BuildReport(Play(es[..n]))] else []
  }

  function Received(es: seq<Event>): (ps: seq<nat>) {
    if es == [] then []
    else
      var n := |es| - 1;
      Received(es[..n]) + if es[n].Packet? then [es[n].pos] else []
  }

  /** The packets can be counted in 32 bits, and so can the numbers they span. */
  predicate Countable(es: seq<Event>) {
    |Received(es)| < WORD && Span(Play(es)) < WORD - 1
  }

  /** How the counters of a run stand to each other. */
  predicate Balanced(t: Tracker, n: nat) {
    && t.received == n && t.receivedPrev <= t.received && t.expectedPrev <= Expected(t)
    && (t.base.None? ==> n == 0 && t.expectedPrev <= 1)
    && (t.base.Some? ==> n > 0)
    && (t.base.Some? && t.expectedPrev < Expected(t) ==> t.receivedPrev < t.received)
  }

  predicate Based(t: Tracker) {
    if t.base.Some? then t.base.value <= t.highest else t.highest == 0
  }

  lemma CountBased(t: Tracker, ext: Ext, n: u32)
    requires Based(t)
    ensures Based(Count(t, ext, n)) && Span(t) <= Span(Count(t, ext, n))
  {
  }

  lemma {:induction false} RunBased(es: seq<Event>)
    ensures Based(Play(es))
  {
    if es != [] {
      RunBased(es[..|es| - 1]);
    }
  }

  lemma CountBalanced(t: Tracker, ext: Ext, n: u32, k: nat)
    requires Based(t) && Balanced(t, k) && k + 1 < WORD && Span(Count(t, ext, n)) < WORD - 1
    ensures Balanced(Count(t, ext, n), k + 1)
  {
    CountBased(t, ext, n);
  }

  lemma {:induction false} RunBalanced(es: seq<Event>)
    requires Countable(es)
    ensures Balanced(Play(es), |Received(es)|)
  {
    if es != [] {
      var n := |es| - 1;
      var t := Play(es[..n]);
      RunBased(es[..n]);
      match es[n]
      case Packet(pos) =>
        var ext := Extend(t.ext, pos % CYCLE);
        CountBased(t, ext, Number(ext) % WORD);
        RunBalanced(es[..n]);
        CountBalanced(t, ext, Number(ext) % WORD, |Received(es[..n])|);
      case Reported =>
        RunBalanced(es[..n]);
    }
  }

  // ---------- Interval loss ----------

  lemma Multiples(q: nat, e: nat)
    ensures q >= 256 ==> q * e >= 256 * e
  {
    if q >= 256 {
      assert q * e == 256 * e + (q - 256) * e;
    }
  }

  lemma QuotientBelow(x: nat, e: nat, q: nat)
    requires e > 0 && q == x / e && x < 256 * e
    ensures q < 256
  {
    assert x == q * e + x % e;
    Multiples(q, e);
  }

  lemma SmallModulo(x: nat, m: nat)
    requires x < m
    ensures x % m == x
  {
  }

  lemma Fraction(l: nat, e: nat)
    requires l < e < 0x100_0000
    ensures l * 256 % WORD / e % 256 == l * 256 / e
  {
    var x := l * 256;
    SmallModulo(x, WORD);
    QuotientBelow(x, e, x / e);
    SmallModulo(x / e, 256);
  }

  lemma {:induction false} BaseIff(es: seq<Event>)
    ensures Play(es).base.Some? <==> Received(es) != []
  {
    if es != [] {
      BaseIff(es[..|es| - 1]);
    }
  }

  lemma {:induction false} PrevIff(es: seq<Event>)
    requires Countable(es)
    ensures Play(es).expectedPrev != 0 <==> Reports(es) != []
  {
    if es != [] {
      var n := |es| - 1;
      CountableBefore(es, n);
      PrevIff(es[..n]);
    }
  }

  /**
   In every run, a report loses strictly less than it expected, unless it expected nothing, exactly if a packet
   or a report came before it; its fraction is the exact quotient exactly if a packet did. Before any packet,
   the first report expects one packet and loses it, and its fraction wraps to 0.
   */
  lemma ReportBelowExpectedIff(es: seq<Event>)
    requires Countable(es)
    ensures var r := BuildReport(Play(es));
      && (r.lostDelta < r.expDelta || r.expDelta == 0 <==> Received(es) != [] || Reports(es) != [])
      && (0 < r.expDelta < 0x100_0000 ==>
            (r.fractionLost == r.lostDelta * 256 / r.expDelta <==> Received(es) != []))
  {
    RunBalanced(es);
    RunBased(es);
    BaseIff(es);
    PrevIff(es);
    var r := BuildReport(Play(es));
    if Play(es).base.Some? && 0 < r.expDelta < 0x100_0000 {
      Fraction(r.lostDelta, r.expDelta);
    }
  }

  function SumExpected(rs: seq<Report>): nat {
    if rs == [] then 0 else SumExpected(rs[..|rs| - 1]) + rs[|rs| - 1].expDelta
  }

  function SumReceived(rs: seq<Report>): nat {
    if rs == [] then 0 else SumReceived(rs[..|rs| - 1]) + rs[|rs| - 1].recDelta
  }

  lemma {:induction false} CountableBefore(es: seq<Event>, n: nat)
    requires Countable(es) && n + 1 == |es|
    ensures Countable(es[..n])
  {
    var t := Play(es[..n]);
    RunBased(es[..n]);
    if es[n].Packet? {
      var ext := Extend(t.ext, es[n].pos % CYCLE);
      CountBased(t, ext, Number(ext) % WORD);
    }
  }

  lemma ReportsSnoc(es: seq<Event>, n: nat)
    requires n + 1 == |es|
    ensures es[n].Packet? ==> Reports(es) == Reports(es[..n])
    ensures es[n].Reported? ==> |Reports(es)| > 0 && Reports(es)[..|Reports(es)| - 1] == Reports(es[..n]) &&
                                Reports(es)[|Reports(es)| - 1] == BuildReport(Play(es[..n]))
  {
  }

  lemma {:induction false} ExpectedTelescopes(es: seq<Event>)
    requires Countable(es)
    ensures SumExpected(Reports(es)) == Play(es).expectedPrev
  {
    if es != [] {
      var n := |es| - 1;
      CountableBefore(es, n);
      ExpectedTelescopes(es[..n]);
      RunBalanced(es[..n]);
      ReportsSnoc(es, n);
    }
  }

  lemma {:induction false} ReceivedTelescopes(es: seq<Event>)
    requires Countable(es)
    ensures SumReceived(Reports(es)) == Play(es).receivedPrev
  {
    if es != [] {
      var n := |es| - 1;
      CountableBefore(es, n);
      ReceivedTelescopes(es[..n]);
      RunBalanced(es[..n]);
      ReportsSnoc(es, n);
    }
  }

  /** The interval deltas of all reports add up to the totals at the last of them. */
  lemma Telescopes(es: seq<Event>)
    requires Countable(es)
    ensures SumExpected(Reports(es)) == Play(es).expectedPrev && SumReceived(Reports(es)) == Play(es).receivedPrev
  {
    ExpectedTelescopes(es);
    ReceivedTelescopes(es);
  }

  // ---------- Total loss ----------

  function Max(ps: seq<nat>): (m: nat)
    requires ps != []
    ensures m in ps && forall p :: p in ps ==> p <= m
  {
    if |ps| == 1 then ps[0]
    else
      var m := Max(ps[..|ps| - 1]);
      assert forall p :: p in ps ==> p in ps[..|ps| - 1] || p == ps[|ps| - 1];
      if ps[|ps| - 1] > m then ps[|ps| - 1] else m
  }

  /** Positions a 32-bit number can hold, each of which was given its true extended number. */
  predicate Tracked(ps: seq<nat>) {
    Steady(ps) && forall p :: p in ps ==> p < WORD
  }

  lemma {:induction false} RunExt(es: seq<Event>)
    ensures Play(es).ext == ExtAfter(Received(es))
  {
    if es != [] {
      var n := |es| - 1;
      RunExt(es[..n]);
      var ps := Received(es[..n]);
      if es[n].Packet? {
        assert (ps + [es[n].pos])[..|ps|] == ps;
      } else {
        assert ps + [] == ps;
      }
    }
  }

  /** Base, highest and received are the first position, the largest and their number. */
  predicate Counts(t: Tracker, ps: seq<nat>) {
    if ps == [] then t.base.None? && t.highest == 0 && t.received == 0
    else t.base == Some(ps[0]) && t.highest == Max(ps) && t.received == |ps|
  }

  lemma CountCounts(t: Tracker, ps: seq<nat>, ext: Ext, p: u32)
    requires Counts(t, ps) && |ps| + 1 < WORD
    ensures Counts(Count(t, ext, p), ps + [p])
  {
    assert (ps + [p])[..|ps|] == ps;
  }

  lemma LastNumber(ps: seq<nat>, p: nat)
    requires Tracked(ps + [p])
    ensures Number(ExtAfter(ps + [p])) == p
  {
    var all := ps + [p];
    RunExactIff(all);
    assert ExactAt(all, |all|) && all[..|all|] == all;
    NumberAt(p);
    assert p in all;
    SmallModulo(p, WORD);
  }

  lemma TrackedPrefix(ps: seq<nat>, p: nat)
    requires Tracked(ps + [p])
    ensures Tracked(ps)
  {
    var all := ps + [p];
    assert forall i :: 0 <= i < |ps| ==> ps[i] == all[i];
    assert forall q :: q in ps ==> q in all;
  }

  lemma {:induction false} RunCounts(es: seq<Event>)
    requires Tracked(Received(es)) && |Received(es)| < WORD
    ensures Counts(Play(es), Received(es))
  {
    if es != [] {
      var n := |es| - 1;
      var ps := Received(es[..n]);
      if es[n].Packet? {
        var p := es[n].pos;
        TrackedPrefix(ps, p);
        RunCounts(es[..n]);
        RunExt(es);
        LastNumber(ps, p);
        assert p in ps + [p];
        SmallModulo(p, WORD);
        CountCounts(Play(es[..n]), ps, Play(es).ext, p);
      } else {
        assert ps + [] == ps;
        RunCounts(es[..n]);
      }
    }
  }

  /** The n numbers from lo on. */
  function Interval(lo: nat, n: nat): (s: set<nat>)
    ensures |s| == n && forall i :: i in s <==> lo <= i < lo + n
  {
    if n == 0 then {} else Interval(lo, n - 1) + {lo + n - 1}
  }

  /** The distinct positions received, from the first one on. */
  function Seen(ps: seq<nat>): set<nat>
    requires ps != []
  {
    set p | p in ps && p >= ps[0]
  }

  /** Positions from the first to the highest that never arrived. */
  function Missing(ps: seq<nat>): set<nat>
    requires ps != []
  {
    assert ps[0] in ps;
    Interval(ps[0], Max(ps) - ps[0] + 1) - Seen(ps)
  }

  lemma MissingSize(ps: seq<nat>)
    requires ps != []
    ensures |Missing(ps)| + |Seen(ps)| == Max(ps) - ps[0] + 1 && ps[0] <= Max(ps)
  {
    assert ps[0] in ps;
    var all := Interval(ps[0], Max(ps) - ps[0] + 1);
    assert Seen(ps) <= all;
    assert all == Missing(ps) + Seen(ps);
  }

  /**
   The loss count of any run of packets and reports is the number of positions missing between the first and
   the highest, less the packets that were repeats or came from before the first.
   */
  lemma LossCountsMissing(es: seq<Event>)
    requires Tracked(Received(es)) && Received(es) != [] && Countable(es)
    ensures Lost(Play(es)) == |Missing(Received(es))| - Surplus(Received(es))
  {
    RunCounts(es);
    MissingSize(Received(es));
  }

  /** The loss count that the far end reads out of a report block. */
  function FarLoss(b: ReportBlock): int {
    RtcpReport.BlockAt(RtcpReport.BlockBytes(b), 0).cumulativeLost
  }

  lemma FarLossIs(ssrc: u32, t: Tracker, times: Times, now: u32)
    ensures var low := Lost(t) % 0x100_0000;
      FarLoss(BlockOf(ssrc, t, times, now)) == if low > 0x7F_FFFF then 0x7F_FFFF else low
  {
    var b := BlockOf(ssrc, t, times, now);
    RtcpReport.BlockDecoded(RtcpReport.BlockBytes(b), 0, b);
  }

  lemma MaskedLoss(x: int)
    ensures 0 <= x < 0x100_0000 ==> x % 0x100_0000 == x
    ensures -0x80_0000 <= x < 0 ==> x % 0x100_0000 == x + 0x100_0000
  {
  }

  /** Packets that were repeats or came from before the first. */
  function Surplus(ps: seq<nat>): nat
    requires ps != []
  {
    SeenFew(ps);
    |ps| - |Seen(ps)|
  }

  lemma SeenFew(ps: seq<nat>)
    requires ps != []
    ensures |Seen(ps)| <= |ps|
  {
    Distinct(ps);
    Smaller(Seen(ps), PositionSet(ps));
  }

  function PositionSet(ps: seq<nat>): set<nat> {
    set p | p in ps
  }

  lemma {:induction false} Distinct(ps: seq<nat>)
    ensures |PositionSet(ps)| <= |ps|
  {
    if ps != [] {
      var n := |ps| - 1;
      Distinct(ps[..n]);
      assert PositionSet(ps) == PositionSet(ps[..n]) + {ps[n]};
    }
  }

  lemma Smaller(a: set<nat>, b: set<nat>)
    requires a <= b
    ensures |a| <= |b|
  {
    assert b == a + (b - a);
  }

  /**
   After any run of packets and reports, the far end reads the true loss count exactly if at least as many
   positions are missing as packets were surplus, and at most 2^23 - 1 more. With fewer missing it reads the
   largest possible loss.
   */
  lemma LossOnWireIff(es: seq<Event>, ssrc: u32, times: Times, now: u32)
    requires Tracked(Received(es)) && Received(es) != [] && Countable(es)
    ensures var (ps, far) := (Received(es), FarLoss(BlockOf(ssrc, Play(es), times, now)));
      var (missing, surplus) := (|Missing(ps)|, Surplus(ps));
      && (far == missing - surplus <==> surplus <= missing <= surplus + 0x7F_FFFF)
      && (surplus - 0x80_0000 <= missing < surplus ==> far == 0x7F_FFFF)
  {
    LossCountsMissing(es);
    FarLossIs(ssrc, Play(es), times, now);
    MaskedLoss(Lost(Play(es)));
  }

  /** A packet and its repeat, with nothing lost: the far end reads a loss of 2^23 - 1. */
  lemma RepeatReadsAsLoss(pos: nat, ssrc: u32, times: Times, now: u32)
    requires pos < CYCLE
    ensures var es := [Packet(pos), Packet(pos)];
      Missing(Received(es)) == {} && FarLoss(BlockOf(ssrc, Play(es), times, now)) == 0x7F_FFFF
  {
    var es := [Packet(pos), Packet(pos)];
    assert es[..1] == [Packet(pos)] && es[..1][..0] == [];
    assert Received(es[..1]) == [pos];
    assert Received(es) == [pos, pos];
    TwiceTracked(pos);
    RunCounts(es);
    TwiceSeen(pos);
    LossOnWireIff(es, ssrc, times, now);
  }

  lemma TwiceTracked(pos: nat)
    requires pos < CYCLE
    ensures Tracked([pos, pos])
  {
    assert Followed(pos, pos);
  }

  lemma TwiceSeen(pos: nat)
    ensures Missing([pos, pos]) == {} && Surplus([pos, pos]) == 1
  {
    var ps := [pos, pos];
    assert ps[..1] == [pos];
    assert Max(ps) == pos;
    assert Seen(ps) == {pos};
  }
}
