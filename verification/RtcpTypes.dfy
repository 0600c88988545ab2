/** RTCP packets as values (section 6 of RFC 3550, section 6 of RFC 4585). */
module RtcpTypes {
  import opened Bytes

  type i32 = x: int | -0x8000_0000 <= x < 0x8000_0000

  datatype ReportBlock = ReportBlock(
    ssrc: u32, fractionLost: byte, cumulativeLost: i32, highestSeq: u32, jitter: u32, lsr: u32, dlsr: u32)

  datatype SenderInfo = SenderInfo(ntpHigh: u32, ntpLow: u32, rtpTs: u32, packetCount: u32, octetCount: u32)

  datatype SdesItem =
    | Cname(text: string)
    | Name(text: string)
    | Email(text: string)
    | Phone(text: string)
    | Loc(text: string)
    | Tool(text: string)
    | Note(text: string)
    | Priv(data: seq<byte>)
    | Unknown(code: byte, data: seq<byte>)

  datatype SdesChunk = SdesChunk(ssrc: u32, items: seq<SdesItem>)

  datatype NackEntry = NackEntry(pid: u16, blp: u16)

  type Four = s: seq<byte> | |s| == 4 witness [0, 0, 0, 0]

  datatype RtcpPacket =
    | Sr(ssrc: u32, info: SenderInfo, reports: seq<ReportBlock>, profileExt: seq<byte>)
    | Rr(ssrc: u32, reports: seq<ReportBlock>, profileExt: seq<byte>)
    | Sdes(chunks: seq<SdesChunk>)
    | Bye(sources: seq<u32>, reason: Option<string>)
    | App(subtype: byte, name: Four, ssrc: u32, data: seq<byte>)
    | Nack(senderSsrc: u32, mediaSsrc: u32, entries: seq<NackEntry>)
    | Pli(senderSsrc: u32, mediaSsrc: u32)

  datatype RtcpError =
    | TooShort
    | BadVersion(version: byte)
    | PaddingTooShort
    | UnknownPacketType(pt: byte)
    | Truncated
    | Invalid
    | SdesItemTooShort
    | SdesItemTooLong
    | TooManyReportBlocks(n: nat)
    | TooManyByeSources(n: nat)

  /** n rounded up to a multiple of four. */
  function Aligned(n: nat): (m: nat)
    ensures n <= m < n + 4 && m % 4 == 0
  {
    (n + 3) / 4 * 4
  }

  /** The padding that the encoders and decoders compute. */
  function PadOf(n: nat): (p: nat)
    ensures n + p == Aligned(n)
  {
    (4 - n % 4) % 4
  }

  lemma AlignedSum(m: nat, n: nat)
    requires m % 4 == 0 && n % 4 == 0
    ensures (m + n) % 4 == 0
  {
  }
}
