/**
 What a sender keeps of the reports about its stream, and the round trip it computes from them
 (src/rtp_session/tx_tracker.rs; section 6.4.1 of RFC 3550).
 */
module TxTracker {
  import opened Bytes
  import Bits
  import opened RtcpTypes

  const WORD := 0x1_0000_0000
  const CYCLE := 0x1_0000

  /** `(msw << 16) | (lsw >> 16)` on 32 bits. */
  function ToCompact(msw: u32, lsw: u32): (c: u32)
    ensures c == msw % CYCLE * CYCLE + lsw / CYCLE
  {
    ShiftedWord(msw);
    Bits.Pow2Words();
    Bits.OrIsSum(msw % CYCLE, 16, lsw / CYCLE);
    Bits.Or(msw * CYCLE % WORD, lsw / CYCLE)
  }

  lemma ShiftedWord(x: u32)
    ensures x * CYCLE % WORD == x % CYCLE * CYCLE
  {
    WordRemainder(x * CYCLE, x / CYCLE, x % CYCLE * CYCLE);
  }

  /** The last sender report, what the far end said last, and the last round trip in milliseconds. */
  datatype Sender = Sender(
    lastSr: u32, fractionLost: byte, cumulativeLost: i32, highest: u32, jitter: u32, rtt: Option<u32>)

  const QUIET := Sender(0, 0, 0, 0, 0, None)

  function Marked(s: Sender, msw: u32, lsw: u32): Sender {
    s.(lastSr := ToCompact(msw, lsw))
  }

  /** The block answers the last sender report, and says how long that was held. */
  predicate Answers(b: ReportBlock, lastSr: u32) {
    b.lsr != 0 && b.dlsr != 0 && b.lsr == lastSr
  }

  /** Units of 1/65536 s in milliseconds, rounded down. */
  function Millis(units: u32): u32 {
    units * 1000 / CYCLE
  }

  function OnBlock(s: Sender, b: ReportBlock, arrival: u32): Sender {
    Sender(s.lastSr, b.fractionLost, b.cumulativeLost, b.highestSeq, b.jitter,
           if Answers(b, s.lastSr) then Some(Millis((arrival - b.lsr - b.dlsr) % WORD)) else s.rtt)
  }

  class TxTracker {
    var lastSrNtpCompact: u32
    var remoteFractionLost: byte
    var remoteCumLost: i32
    var remoteHighestExtSeq: u32
    var remoteJitter: u32
    var rttMs: Option<u32>

    function State(): Sender
      reads this
    {
      Sender(lastSrNtpCompact, remoteFractionLost, remoteCumLost, remoteHighestExtSeq, remoteJitter, rttMs)
    }

    constructor ()
      ensures State() == QUIET
    {
      lastSrNtpCompact, remoteFractionLost, remoteCumLost, remoteHighestExtSeq, remoteJitter := 0, 0, 0, 0, 0;
      rttMs := None;
    }

    method MarkSrSent(msw: u32, lsw: u32)
      modifies this`lastSrNtpCompact
      ensures State() == Marked(old(State()), msw, lsw)
    {
      lastSrNtpCompact := ToCompact(msw, lsw);
    }

    method OnReportBlock(rb: ReportBlock, arrival: u32)
      modifies this
      ensures State() == OnBlock(old(State()), rb, arrival)
    {
      remoteFractionLost, remoteCumLost := rb.fractionLost, rb.cumulativeLost;
      remoteHighestExtSeq, remoteJitter := rb.highestSeq, rb.jitter;
      if rb.lsr != 0 && rb.dlsr != 0 && lastSrNtpCompact != 0 && rb.lsr == lastSrNtpCompact {
        var units := ((arrival - rb.lsr) % WORD - rb.dlsr) % WORD;
        DifferenceTwice(arrival, rb.lsr, rb.dlsr);
        rttMs := Some(units * 1000 / CYCLE);
      }
    }
  }

  lemma DifferenceTwice(a: u32, b: u32, c: u32)
    ensures ((a - b) % WORD - c) % WORD == (a - b - c) % WORD
  {
  }
}
