/**
 Compound RTCP packets: the common header, the seven kinds of packet behind it, and the list of packets
 that fills a datagram (section 6 of RFC 3550, section 6 of RFC 4585).
 */
module Rtcp {
  import opened Bytes
  import opened RtcpTypes
  import opened RtcpFrame
  import opened RtcpReport
  import opened RtcpSdes
  import opened RtcpPackets

  const PT_SR: byte := 200
  const PT_RR: byte := 201
  const PT_SDES: byte := 202
  const PT_BYE: byte := 203
  const PT_APP: byte := 204
  const PT_RTPFB: byte := 205
  const PT_PSFB: byte := 206

  // ---------- One packet ----------

  /** What the encoder of each kind of packet puts into a frame. */
  function ContentOf(p: RtcpPacket): Result<Content, RtcpError> {
    match p
    case Sr(ssrc, info, reports, ext) => SrContent(ssrc, info, reports, ext)
    case Rr(ssrc, reports, ext) => Ok(Content(|reports|, PT_RR, RrBody(ssrc, reports, ext)))
    case Sdes(chunks) => SdesContent(chunks)
    case Bye(sources, reason) => ByeContent(sources, reason)
    case App(subtype, name, ssrc, data) => Ok(Content(subtype, PT_APP, AppBody(name, ssrc, data)))
    case Nack(sender, media, entries) => Ok(Content(1, PT_RTPFB, FeedbackBody(sender, media, entries)))
    case Pli(sender, media) => Ok(Content(1, PT_PSFB, FeedbackBody(sender, media, [])))
  }

  function SrContent(ssrc: u32, info: SenderInfo, reports: seq<ReportBlock>, ext: seq<byte>)
    : Result<Content, RtcpError>
  {
    if |reports| > 31 then Err(TooManyReportBlocks(|reports|))
    else Ok(Content(|reports|, PT_SR, SrBody(ssrc, info, reports, ext)))
  }

  function SdesContent(chunks: seq<SdesChunk>): Result<Content, RtcpError> {
    if AllFit(chunks) then Ok(Content(|chunks|, PT_SDES, ChunksBytes(chunks))) else Err(SdesItemTooLong)
  }

  function ByeContent(sources: seq<u32>, reason: Option<string>): Result<Content, RtcpError> {
    if |sources| >= 31 then Err(TooManyByeSources(|sources|))
    else Ok(Content(|sources|, PT_BYE, ByeBody(sources, reason)))
  }

  function DecodeSdes(payload: seq<byte>): Result<RtcpPacket, RtcpError> {
    var chunks := DecodeChunks(payload);
    if chunks.Err? then Err(chunks.error) else Ok(Sdes(chunks.value))
  }

  /** The dispatch over packet types. */
  function DecodeBody(pt: byte, count: byte, payload: seq<byte>): Result<RtcpPacket, RtcpError> {
    if pt == PT_SR then DecodeSr(count, payload)
    else if pt == PT_RR then DecodeRr(count, payload)
    else if pt == PT_SDES then DecodeSdes(payload)
    else if pt == PT_BYE then DecodeBye(count, payload)
    else if pt == PT_APP then DecodeApp(count, payload)
    else if pt == PT_RTPFB then DecodeNack(count, payload)
    else if pt == PT_PSFB then DecodePli(count, payload)
    else Err(UnknownPacketType(pt))
  }

  // ---------- Well-formed packets ----------

  predicate Shaped(p: RtcpPacket) {
    match p
    case Sr(_, _, reports, ext) => InRange(reports) && |ext| % 4 == 0
    case Rr(_, reports, ext) => |reports| <= 31 && InRange(reports) && |ext| % 4 == 0
    case Sdes(chunks) => AllTyped(chunks)
    case Bye(_, reason) => ReasonFits(reason)
    case App(subtype, _, _, data) => subtype < 32 && |data| % 4 == 0
    case Nack(_, _, _) => true
    case Pli(_, _) => true
  }

  /** The packet encodes, means what it says, and its length fits the header. */
  predicate WellFormed(p: RtcpPacket) {
    var c := ContentOf(p);
    c.Ok? && Shaped(p) && LengthWords(c.value.body) < 0x1_0000
  }

  /** A body that was encoded decodes to the packet it came from exactly if the packet is shaped. */
  predicate Exact(p: RtcpPacket) {
    var c := ContentOf(p);
    c.Ok? ==> (DecodeBody(c.value.pt, c.value.count % 32, c.value.body + Zeros(c.value.body)) == Ok(p) <==> Shaped(p))
  }

  lemma {:induction false} SrIff(p: RtcpPacket, body: seq<byte>)
    requires p.Sr? && body == SrBody(p.ssrc, p.info, p.reports, p.profileExt)
    ensures DecodeSr(|p.reports|, body + Zeros(body)) == Ok(p) <==> Shaped(p)
  {
    SrDecoded(p.ssrc, p.info, p.reports, p.profileExt, Zeros(body));
    ClampedIff(p.reports);
    ZerosIff(body, 6 + 6 * |p.reports|, p.profileExt);
  }

  lemma {:induction false} SrExact(p: RtcpPacket)
    requires p.Sr?
    ensures Exact(p)
  {
    if |p.reports| <= 31 {
      Below32(|p.reports|);
      SrIff(p, SrBody(p.ssrc, p.info, p.reports, p.profileExt));
    }
  }

  lemma {:induction false} RrIff(p: RtcpPacket, body: seq<byte>)
    requires p.Rr? && |p.reports| <= 31 && body == RrBody(p.ssrc, p.reports, p.profileExt)
    ensures DecodeRr(|p.reports|, body + Zeros(body)) == Ok(p) <==> Shaped(p)
  {
    RrDecoded(p.ssrc, p.reports, p.profileExt, Zeros(body));
    ClampedIff(p.reports);
    ZerosIff(body, 1 + 6 * |p.reports|, p.profileExt);
  }

  lemma {:induction false} RrExact(p: RtcpPacket)
    requires p.Rr?
    ensures Exact(p)
  {
    var body := RrBody(p.ssrc, p.reports, p.profileExt);
    if |p.reports| <= 31 {
      Below32(|p.reports|);
      RrIff(p, body);
    } else {
      FewerReports(|p.reports| % 32, body + Zeros(body), p);
    }
  }

  lemma {:induction false} FewerReports(rc: nat, payload: seq<byte>, p: RtcpPacket)
    requires p.Rr? && rc < |p.reports|
    ensures DecodeRr(rc, payload) != Ok(p)
  {
  }

  lemma {:induction false} SdesExact(p: RtcpPacket)
    requires p.Sdes?
    ensures Exact(p)
  {
    if AllFit(p.chunks) {
      var body := ChunksBytes(p.chunks);
      NoZeros(body);
      if AllTyped(p.chunks) {
        ChunksDecoded(p.chunks);
      } else if DecodeChunks(body) == Ok(p.chunks) {
        ChunksDecodedOnlyIf(p.chunks);
      }
    }
  }

  lemma {:induction false} ByeIff(p: RtcpPacket, body: seq<byte>)
    requires p.Bye? && body == ByeBody(p.sources, p.reason)
    ensures DecodeBye(|p.sources|, body) == Ok(p) <==> Shaped(p)
  {
    ByeDecoded(p.sources, p.reason);
    ReasonDecoded(p.reason);
  }

  /** Exactness, from what the packet is encoded to and what that decodes to. */
  lemma {:induction false} ExactBy(
    p: RtcpPacket, c: Content, count: byte, payload: seq<byte>, r: Result<RtcpPacket, RtcpError>)
    requires ContentOf(p) == Ok(c) && c.count % 32 == count && c.body + Zeros(c.body) == payload
    requires DecodeBody(c.pt, count, payload) == r && (r == Ok(p) <==> Shaped(p))
    ensures Exact(p)
  {
  }

  lemma {:induction false} ByeCodec(p: RtcpPacket, n: byte, payload: seq<byte>)
    requires p.Bye?
    ensures ContentOf(p) == ByeContent(p.sources, p.reason) && DecodeBody(PT_BYE, n, payload) == DecodeBye(n, payload)
  {
  }

  lemma {:induction false} ByeExact(p: RtcpPacket)
    requires p.Bye?
    ensures Exact(p)
  {
    var (n, body) := (|p.sources|, ByeBody(p.sources, p.reason));
    if n < 31 {
      Below32(n);
      NoZeros(body);
      ByeIff(p, body);
      ByeCodec(p, n, body);
      ExactBy(p, Content(n, PT_BYE, body), n, body, DecodeBye(n, body));
    } else {
      ByeCodec(p, 0, []);
    }
  }

  lemma {:induction false} AppExact(p: RtcpPacket)
    requires p.App?
    ensures Exact(p)
  {
    var body := AppBody(p.name, p.ssrc, p.data);
    AppDecoded(p.subtype % 32, p.name, p.ssrc, p.data, Zeros(body));
    ZerosIff(body, 2, p.data);
  }

  lemma {:induction false} FeedbackExact(p: RtcpPacket)
    requires p.Nack? || p.Pli?
    ensures Exact(p)
  {
    var body := FeedbackBody(p.senderSsrc, p.mediaSsrc, if p.Nack? then p.entries else []);
    NoZeros(body);
    Below32(1);
    if p.Nack? {
      NackDecoded(p.senderSsrc, p.mediaSsrc, p.entries);
    } else {
      PliDecoded(p.senderSsrc, p.mediaSsrc);
    }
  }

  lemma {:induction false} AllExact(p: RtcpPacket)
    ensures Exact(p)
  {
    match p
    case Sr(_, _, _, _) => SrExact(p);
    case Rr(_, _, _) => RrExact(p);
    case Sdes(_) => SdesExact(p);
    case Bye(_, _) => ByeExact(p);
    case App(_, _, _, _) => AppExact(p);
    case Nack(_, _, _) => FeedbackExact(p);
    case Pli(_, _) => FeedbackExact(p);
  }

  // ---------- Main results ----------

  /** The seven kinds of packet, as the framing sees them. */
  function Packets(): Codec {
    Codec(ContentOf, DecodeBody)
  }

  lemma {:induction false} FaithfulIff(p: RtcpPacket)
    ensures Faithful(Packets(), p) <==> WellFormed(p)
  {
    AllExact(p);
  }

  /** A packet that encodes comes back alone and unchanged exactly if it is well formed. */
  lemma {:induction false} PacketRoundTripIff(p: RtcpPacket)
    requires EncodeOne(Packets(), p).Ok?
    ensures DecodeCompound(Packets(), EncodeOne(Packets(), p).value) == Ok([p]) <==> WellFormed(p)
  {
    RoundTripIff(Packets(), p);
    FaithfulIff(p);
  }

  /** Encoding then decoding any non-empty list of well-formed packets gives the list back. */
  lemma WellFormedRoundTrip(ps: seq<RtcpPacket>)
    requires ps != [] && forall p <- ps :: WellFormed(p)
    ensures EncodeCompound(Packets(), ps).Ok?
    ensures DecodeCompound(Packets(), EncodeCompound(Packets(), ps).value) == Ok(ps)
  {
    forall p | p in ps ensures Faithful(Packets(), p) {
      FaithfulIff(p);
    }
    CompoundRoundTrip(Packets(), ps);
  }

  // ---------- The code ----------

  method EncodeSrInto(buf: seq<byte>, ssrc: u32, info: SenderInfo, reports: seq<ReportBlock>, ext: seq<byte>)
      returns (r: Result<seq<byte>, RtcpError>)
    ensures r == if |reports| > 31 then Err(TooManyReportBlocks(|reports|))
                 else Ok(buf + Frame(Content(|reports|, PT_SR, SrBody(ssrc, info, reports, ext))))
  {
    if |reports| > 31 {
      return Err(TooManyReportBlocks(|reports|));
    }
    var out := buf + [0x80 + |reports| % 32, PT_SR, 0, 0];
    ghost var h := out;
    out := out + Be32(ssrc);
    out := out + Be32s(InfoWords(info));
    out := AppendBlocks(out, reports);
    out := out + ext;
    assert out == h + (Be32(ssrc) + (Be32s(InfoWords(info)) + (Blocks(reports) + ext)));
    out := Finish(out, buf, Content(|reports|, PT_SR, SrBody(ssrc, info, reports, ext)));
    return Ok(out);
  }

  method EncodeRrInto(buf: seq<byte>, ssrc: u32, reports: seq<ReportBlock>, ext: seq<byte>) returns (out: seq<byte>)
    ensures out == buf + Frame(Content(|reports|, PT_RR, RrBody(ssrc, reports, ext)))
  {
    out := buf + [0x80 + |reports| % 32, PT_RR, 0, 0];
    ghost var h := out;
    out := out + Be32(ssrc);
    out := AppendBlocks(out, reports);
    out := out + ext;
    assert out == h + (Be32(ssrc) + (Blocks(reports) + ext));
    out := Finish(out, buf, Content(|reports|, PT_RR, RrBody(ssrc, reports, ext)));
  }

  method EncodeSdesInto(buf: seq<byte>, chunks: seq<SdesChunk>) returns (r: Result<seq<byte>, RtcpError>)
    ensures r == if AllFit(chunks) then Ok(buf + Frame(Content(|chunks|, PT_SDES, ChunksBytes(chunks))))
                 else Err(SdesItemTooLong)
  {
    var out := buf + [0x80 + |chunks| % 32, PT_SDES, 0, 0];
    r := AppendChunks(out, chunks);
    if r.Ok? {
      out := Finish(r.value, buf, Content(|chunks|, PT_SDES, ChunksBytes(chunks)));
      r := Ok(out);
    }
  }

  method EncodeByeInto(buf: seq<byte>, sources: seq<u32>, reason: Option<string>)
      returns (r: Result<seq<byte>, RtcpError>)
    ensures r == if |sources| >= 31 then Err(TooManyByeSources(|sources|))
                 else Ok(buf + Frame(Content(|sources|, PT_BYE, ByeBody(sources, reason))))
  {
    if |sources| >= 31 {
      return Err(TooManyByeSources(|sources|));
    }
    var out := buf + [0x80 + |sources| % 32, PT_BYE, 0, 0];
    out := AppendBye(out, sources, reason);
    out := Finish(out, buf, Content(|sources|, PT_BYE, ByeBody(sources, reason)));
    return Ok(out);
  }

  method EncodeAppInto(buf: seq<byte>, subtype: byte, name: Four, ssrc: u32, data: seq<byte>) returns (out: seq<byte>)
    ensures out == buf + Frame(Content(subtype, PT_APP, AppBody(name, ssrc, data)))
  {
    out := buf + [0x80 + subtype % 32, PT_APP, 0, 0];
    ghost var h := out;
    out := out + Be32(ssrc);
    out := out + name;
    out := out + data;
    assert out == h + (Be32(ssrc) + (name + data));
    out := Finish(out, buf, Content(subtype, PT_APP, AppBody(name, ssrc, data)));
  }

  /** Generic NACK, and picture loss with no entries; both carry format 1. */
  method EncodeFeedbackInto(buf: seq<byte>, pt: byte, sender: u32, media: u32, entries: seq<NackEntry>)
      returns (out: seq<byte>)
    ensures out == buf + Frame(Content(1, pt, FeedbackBody(sender, media, entries)))
  {
    out := buf + [0x80 + 1 % 32, pt, 0, 0];
    out := AppendNack(out, sender, media, entries);
    out := Finish(out, buf, Content(1, pt, FeedbackBody(sender, media, entries)));
  }

  method EncodeOneInto(buf: seq<byte>, p: RtcpPacket) returns (r: Result<seq<byte>, RtcpError>)
    ensures r == Append(buf, EncodeOne(Packets(), p))
  {
    match p {
      case Sr(ssrc, info, reports, ext) =>
        r := EncodeSrInto(buf, ssrc, info, reports, ext);
      case Rr(ssrc, reports, ext) =>
        var out := EncodeRrInto(buf, ssrc, reports, ext);
        r := Ok(out);
      case Sdes(chunks) =>
        r := EncodeSdesInto(buf, chunks);
      case Bye(sources, reason) =>
        r := EncodeByeInto(buf, sources, reason);
      case App(subtype, name, ssrc, data) =>
        var out := EncodeAppInto(buf, subtype, name, ssrc, data);
        r := Ok(out);
      case Nack(sender, media, entries) =>
        var out := EncodeFeedbackInto(buf, PT_RTPFB, sender, media, entries);
        r := Ok(out);
      case Pli(sender, media) =>
        var out := EncodeFeedbackInto(buf, PT_PSFB, sender, media, []);
        r := Ok(out);
    }
  }

  method ReadBody(pt: byte, count: byte, payload: seq<byte>) returns (r: Result<RtcpPacket, RtcpError>)
    ensures r == DecodeBody(pt, count, payload)
  {
    match pt {
      case 200 => r := ReadSr(count, payload);
      case 201 => r := ReadRr(count, payload);
      case 202 =>
        var chunks := ReadSdes(payload);
        r := if chunks.Err? then Err(chunks.error) else Ok(Sdes(chunks.value));
      case 203 => r := ReadBye(count, payload);
      case 204 => r := DecodeApp(count, payload);
      case 205 => r := ReadNack(count, payload);
      case 206 => r := DecodePli(count, payload);
      case _ => r := Err(UnknownPacketType(pt));
    }
  }

  /** One round of the decoding loop: the packet at the front and the bytes it takes. */
  method ReadFirst(rest: seq<byte>) returns (r: Result<(RtcpPacket, nat), RtcpError>)
    requires |rest| >= 4
    ensures RoundIs(Packets(), rest, r)
  {
    var version := rest[0] / 64;
    if version != 2 {
      return Err(BadVersion(version));
    }
    var total: nat := (U16At(rest, 2) as int + 1) * 4;
    if |rest| < total {
      return Err(TooShort);
    }
    var payload := rest[4..total];
    if rest[0] / 32 % 2 != 0 {
      if payload == [] {
        return Err(PaddingTooShort);
      }
      var pad := payload[|payload| - 1];
      if pad == 0 || pad > |payload| {
        return Err(PaddingTooShort);
      }
      payload := payload[..|payload| - pad];
    }
    var p := ReadBody(rest[1], rest[0] % 32, payload);
    return Located(p, total);
  }

  /** The same at an offset, for what the loop has read so far. */
  method ReadAt(buf: seq<byte>, idx: nat, ghost out: seq<RtcpPacket>) returns (r: Result<(RtcpPacket, nat), RtcpError>)
    requires idx + 4 <= |buf| && UpTo(Packets(), buf, out, idx)
    ensures if r.Err? then DecodesTo(Packets(), buf, Err(r.error))
            else 0 < r.value.1 && idx + r.value.1 <= |buf| && UpTo(Packets(), buf, out + [r.value.0], idx + r.value.1)
  {
    r := ReadFirst(buf[idx..]);
    LoopStep(Packets(), buf, idx, out, r);
  }

  method DecodeCompoundLoop(buf: seq<byte>) returns (r: Result<seq<RtcpPacket>, RtcpError>)
    ensures DecodesTo(Packets(), buf, r)
  {
    if |buf| < 4 {
      return Err(TooShort);
    }
    var out, idx := [], 0;
    LoopStarts(Packets(), buf);
    while idx + 4 <= |buf|
      invariant idx <= |buf| && UpTo(Packets(), buf, out, idx)
    {
      var first := ReadAt(buf, idx, out);
      if first.Err? {
        return Err(first.error);
      }
      var (pkt, total) := first.value;
      out := out + [pkt];
      idx := idx + total;
    }
    LoopEnds(Packets(), buf, idx, out);
    if idx != |buf| {
      return Err(TooShort);
    }
    return Ok(out);
  }

  method EncodeCompoundLoop(ps: seq<RtcpPacket>) returns (r: Result<seq<byte>, RtcpError>)
    ensures r == EncodeCompound(Packets(), ps)
  {
    var out := [];
    EncodingStarts(Packets(), ps);
    for i := 0 to |ps|
      invariant EncodesTo(Packets(), ps, out, i)
    {
      EncodingStep(Packets(), ps, out, i);
      r := EncodeOneInto(out, ps[i]);
      if r.Err? {
        return r;
      }
      out := r.value;
    }
    EncodingEnds(Packets(), ps, out);
    return Ok(out);
  }
}
