/**
 The outbound RTP streams of a session: how payloads are numbered, protected under one shared SRTP context,
 and counted.
 */
module SendStream {
  import opened Bytes
  import opened Srtp
  import opened SrtpStream
  import Rtp

  datatype Frame = Frame(payload: seq<byte>, timestamp: u32, marker: bool)

  /** What one stream counts. */
  datatype Numbers = Numbers(seqNo: u16, timestamp: u32, packetCount: u32, octetCount: u32)

  /** Keys, SSRC, and how a call's RTP packet is built from its sequence number. */
  datatype Config = Config(c: Crypto, k: SessionKeys, ssrc: u32, build: (u16, Frame) -> seq<byte>) {

    /** The builder puts the sequence number and the SSRC where SRTP reads them. */
    ghost predicate Valid() {
      forall seqNo, f :: Addressed(build(seqNo, f), seqNo, ssrc)
    }
  }

  function PacketFor(ssrc: u32, payloadType: byte, seqNo: u16, f: Frame): Rtp.RtpPacket {
    Rtp.Simple(payloadType, f.marker, seqNo, f.timestamp, ssrc, f.payload)
  }

  function RtpConfig(c: Crypto, k: SessionKeys, ssrc: u32, payloadType: byte): Config {
    Config(c, k, ssrc, (seqNo: u16, f: Frame) => Rtp.Encode(PacketFor(ssrc, payloadType, seqNo, f)).value)
  }

  /** The numbers once the socket has taken a packet. */
  function Counted(n: Numbers, f: Frame): Numbers {
    Numbers((n.seqNo + 1) % 0x1_0000, f.timestamp, (n.packetCount + 1) % 0x1_0000_0000,
            (n.octetCount + |f.payload| % 0x1_0000_0000) % 0x1_0000_0000)
  }

  /** The numbers after a call. Neither encoding nor protection can fail here, so only the socket decides
      whether they advance. */
  function CallNumbers(n: Numbers, f: Frame, sent: bool): Numbers {
    if sent then Counted(n, f) else n
  }

  /** The SRTP context after a call, whether or not the socket took the packet. */
  function CallCtx(ctx: Ctx, ssrc: u32, seqNo: u16): Ctx {
    ctx.Store(ssrc, ctx.NextRoc(ssrc, seqNo), seqNo)
  }

  /** The protected packet a call hands to the socket. */
  function CallWire(cfg: Config, ctx: Ctx, seqNo: u16, f: Frame): seq<byte> {
    Protect(cfg.c, cfg.k, ctx, cfg.ssrc, cfg.build(seqNo, f)).packet
  }

  class RtpSendStream {
    const localSsrc: u32
    const payloadType: byte
    const srtp: SrtpContext
    var seqNo: u16
    var timestamp: u32
    var packetCount: u32
    var octetCount: u32

    function View(): Numbers
      reads this
    {
      Numbers(seqNo, timestamp, packetCount, octetCount)
    }

    function Cfg(): Config {
      RtpConfig(srtp.crypto, srtp.keys, localSsrc, payloadType)
    }

    constructor (localSsrc: u32, payloadType: byte, srtp: SrtpContext, seqNo: u16, timestamp: u32)
      ensures this.localSsrc == localSsrc && this.srtp == srtp
      ensures Cfg() == RtpConfig(srtp.crypto, srtp.keys, localSsrc, payloadType)
      ensures View() == Numbers(seqNo, timestamp, 0, 0)
    {
      this.localSsrc, this.payloadType, this.srtp := localSsrc, payloadType, srtp;
      this.seqNo, this.timestamp, packetCount, octetCount := seqNo, timestamp, 0, 0;
    }

    method ProtectPayload(payload: seq<byte>, timestamp: u32, marker: bool) returns (wire: seq<byte>)
      modifies srtp
      ensures srtp.View() == CallCtx(old(srtp.View()), localSsrc, seqNo)
      ensures wire == CallWire(Cfg(), old(srtp.View()), seqNo, Frame(payload, timestamp, marker))
    {
      RtpConfigValid(srtp.crypto, srtp.keys, localSsrc, payloadType);
      ProtectBuilt(Cfg(), srtp.View(), seqNo, Frame(payload, timestamp, marker));
      var encoded := Rtp.EncodePacket(Rtp.Simple(payloadType, marker, seqNo, timestamp, localSsrc, payload));
      var srtpError;
      wire, srtpError := srtp.ProtectPacket(localSsrc, encoded.value);
    }

    /** `socketOk` stands for the result of the socket's send; `wire` is what it was given. */
    method SendRtpPayload(payload: seq<byte>, timestamp: u32, marker: bool, socketOk: bool)
      returns (sent: bool, wire: seq<byte>)
      modifies this, srtp
      ensures View() == CallNumbers(old(View()), Frame(payload, timestamp, marker), socketOk)
      ensures srtp.View() == CallCtx(old(srtp.View()), localSsrc, old(seqNo))
      ensures sent == socketOk
      ensures wire == CallWire(Cfg(), old(srtp.View()), old(seqNo), Frame(payload, timestamp, marker))
    {
      wire := ProtectPayload(payload, timestamp, marker);
      sent := socketOk;
      if socketOk {
        CountSent(|payload|, timestamp);
      }
    }

    /** The numbers after the socket has taken a packet. */
    method CountSent(octets: nat, timestamp: u32)
      modifies this
      ensures seqNo == (old(seqNo) + 1) % 0x1_0000 && packetCount == (old(packetCount) + 1) % 0x1_0000_0000
      ensures octetCount == (old(octetCount) + octets % 0x1_0000_0000) % 0x1_0000_0000 && this.timestamp == timestamp
    {
      seqNo := (seqNo + 1) % 0x1_0000;
      packetCount := (packetCount + 1) % 0x1_0000_0000;
      octetCount := (octetCount + octets % 0x1_0000_0000) % 0x1_0000_0000;
      this.timestamp := timestamp;
    }
  }

  // ---- the streams of a session ---------------------------------------------------

  /** A stream is added, with its random first number and timestamp, or a payload is sent on one; `sent` tells
      whether the socket took the packet. */
  datatype Op = Add(ssrc: u32, start: u16, ts: u32) | Send(ssrc: u32, frame: Frame, sent: bool)

  /** The streams, and the SRTP context that all of them use. */
  datatype Bank = Bank(streams: map<u32, Numbers>, ctx: Ctx)

  const NO_STREAMS := Bank(map[], FRESH)

  function Do(b: Bank, op: Op): Bank {
    match op
    case Add(ssrc, start, ts) => b.(streams := b.streams[ssrc := Numbers(start, ts, 0, 0)])
    case Send(ssrc, f, sent) =>
      if ssrc !in b.streams then b
      else Bank(b.streams[ssrc := CallNumbers(b.streams[ssrc], f, sent)], CallCtx(b.ctx, ssrc, b.streams[ssrc].seqNo))
  }

  function DoAll(b: Bank, ops: seq<Op>): Bank {
    if ops == [] then b else Do(DoAll(b, ops[..|ops| - 1]), ops[|ops| - 1])
  }

  /** The session after any interleaving of calls. */
  function After(ops: seq<Op>): Bank {
    DoAll(NO_STREAMS, ops)
  }

  datatype Chunk = Chunk(bytes: seq<byte>, marker: bool)

  class RtpSession {
    const srtpOutbound: SrtpContext
    var sendStreams: map<u32, RtpSendStream>

    /** Every stream is kept under its SSRC and protects with the one context. */
    ghost predicate Valid()
      reads this
    {
      forall ssrc <- sendStreams :: sendStreams[ssrc].localSsrc == ssrc && sendStreams[ssrc].srtp == srtpOutbound
    }

    ghost function View(): Bank
      reads this, srtpOutbound, sendStreams.Values
    {
      Bank(map ssrc | ssrc in sendStreams :: sendStreams[ssrc].View(), srtpOutbound.View())
    }

    constructor (crypto: Crypto, keys: SessionKeys)
      ensures Valid() && View() == NO_STREAMS
    {
      srtpOutbound := new SrtpContext(crypto, keys);
      sendStreams := map[];
    }

    /** `start` and `ts` are the random draws of a new stream. */
    method AddSendStream(ssrc: u32, payloadType: byte, start: u16, ts: u32)
      requires Valid()
      modifies this
      ensures Valid() && View() == Do(old(View()), Add(ssrc, start, ts))
    {
      var stream := new RtpSendStream(ssrc, payloadType, srtpOutbound, start, ts);
      sendStreams := sendStreams[ssrc := stream];
    }

    /** Sends one chunk on a stream that exists. */
    method SendChunk(ssrc: u32, chunk: Chunk, timestamp: u32, socketOk: bool)
      requires Valid() && ssrc in sendStreams
      modifies srtpOutbound, sendStreams.Values
      ensures Valid() && View() == Do(old(View()), SendOf(ssrc, chunk, timestamp, socketOk))
    {
      var stream := sendStreams[ssrc];
      ghost var was := View();
      var _, _ := stream.SendRtpPayload(chunk.bytes, timestamp, chunk.marker, socketOk);
      assert forall other <- sendStreams :: other != ssrc ==> sendStreams[other] != stream;
      DoSend(was, View(), ssrc, Frame(chunk.bytes, timestamp, chunk.marker), socketOk);
    }

    /** Sends the chunks of a frame until the socket refuses one; `socket` answers for each. The result is false if
        the stream is missing or a send failed. */
    method SendRtpChunksForFrame(ssrc: u32, chunks: seq<Chunk>, timestamp: u32, socket: nat -> bool)
      returns (ok: bool, ghost ops: seq<Op>)
      requires Valid()
      modifies srtpOutbound, sendStreams.Values
      ensures Valid() && View() == DoAll(old(View()), ops)
      ensures if ssrc in sendStreams then ok == Attempt(ops, ssrc, chunks, timestamp, socket) else !ok && ops == []
      ensures !ok && ssrc in sendStreams ==> Cut(ops, ssrc, chunks, timestamp, socket)
    {
      ops := [];
      if ssrc !in sendStreams {
        return false, [];
      }
      ghost var before := View();
      for i := 0 to |chunks|
        invariant Valid() && View() == DoAll(before, ops)
        invariant |ops| == i && Attempt(ops, ssrc, chunks[..i], timestamp, socket)
      {
        var taken := socket(i);
        SendChunk(ssrc, chunks[i], timestamp, taken);
        DoAllSnoc(before, ops, SendOf(ssrc, chunks[i], timestamp, taken));
        AttemptSnoc(ops, ssrc, chunks, timestamp, socket, i);
        ops := ops + [SendOf(ssrc, chunks[i], timestamp, taken)];
        if !taken {
          return false, ops;
        }
      }
      assert chunks[..|chunks|] == chunks;
      ok := true;
    }
  }

  function SendOf(ssrc: u32, chunk: Chunk, timestamp: u32, sent: bool): Op {
    Send(ssrc, Frame(chunk.bytes, timestamp, chunk.marker), sent)
  }

  /** Every chunk is sent, and the socket takes all of them. */
  predicate Attempt(ops: seq<Op>, ssrc: u32, chunks: seq<Chunk>, timestamp: u32, socket: nat -> bool) {
    |ops| == |chunks| && forall i :: 0 <= i < |ops| ==> socket(i) && ops[i] == SendOf(ssrc, chunks[i], timestamp, true)
  }

  /** Chunks are sent up to and including the first that the socket refuses. */
  predicate Cut(ops: seq<Op>, ssrc: u32, chunks: seq<Chunk>, timestamp: u32, socket: nat -> bool) {
    && 0 < |ops| <= |chunks|
    && var n := |ops| - 1;
       && Attempt(ops[..n], ssrc, chunks[..n], timestamp, socket)
       && !socket(n) && ops[n] == SendOf(ssrc, chunks[n], timestamp, false)
  }

  lemma AttemptSnoc(ops: seq<Op>, ssrc: u32, chunks: seq<Chunk>, timestamp: u32, socket: nat -> bool, i: nat)
    requires i < |chunks| && Attempt(ops, ssrc, chunks[..i], timestamp, socket)
    ensures var all := ops + [SendOf(ssrc, chunks[i], timestamp, socket(i))];
      if socket(i) then Attempt(all, ssrc, chunks[..i + 1], timestamp, socket)
      else Cut(all, ssrc, chunks, timestamp, socket) && !Attempt(all, ssrc, chunks, timestamp, socket)
  {
    var all := ops + [SendOf(ssrc, chunks[i], timestamp, socket(i))];
    assert all[..i] == ops;
  }

  lemma DoSend(b: Bank, b': Bank, ssrc: u32, f: Frame, sent: bool)
    requires ssrc in b.streams && b'.streams.Keys == b.streams.Keys
    requires b'.ctx == CallCtx(b.ctx, ssrc, b.streams[ssrc].seqNo)
    requires forall s <- b.streams ::
      b'.streams[s] == if s == ssrc then CallNumbers(b.streams[ssrc], f, sent) else b.streams[s]
    ensures b' == Do(b, Send(ssrc, f, sent))
  {
    assert b'.streams == b.streams[ssrc := CallNumbers(b.streams[ssrc], f, sent)];
  }

  lemma DoAllSnoc(b: Bank, ops: seq<Op>, op: Op)
    ensures DoAll(b, ops + [op]) == Do(DoAll(b, ops), op)
  {
    assert (ops + [op])[..|ops|] == ops;
  }

  /** The bytes are an RTP packet with the given numbers and exactly the frame's payload, timestamp and marker. */
  predicate Carries(plain: seq<byte>, ssrc: u32, payloadType: byte, seqNo: u16, f: Frame) {
    Rtp.Decode(plain) ==
    Ok(Rtp.RtpPacket(Rtp.RtpHeader(2, false, false, f.marker, payloadType, seqNo, f.timestamp, ssrc, [], None),
                     f.payload, 0))
  }

  /** What a call builds carries its frame; of the payload type only seven bits fit. */
  lemma BuiltCarries(c: Crypto, k: SessionKeys, ssrc: u32, payloadType: byte, seqNo: u16, f: Frame)
    ensures Carries(RtpConfig(c, k, ssrc, payloadType).build(seqNo, f), ssrc, payloadType % 128, seqNo, f)
  {
    var pkt := PacketFor(ssrc, payloadType, seqNo, f);
    var masked := pkt.(header := pkt.header.(payloadType := payloadType % 128));
    assert Rtp.Encode(masked) == Rtp.Encode(pkt);
    Rtp.DecodeUndoesEncode(masked);
  }

  /** Opened under the call's own counter, the packet a call hands to the socket carries the call's frame. */
  lemma WireCarries(c: Crypto, k: SessionKeys, ssrc: u32, payloadType: byte, ctx: Ctx, seqNo: u16, f: Frame)
    ensures var wire := CallWire(RtpConfig(c, k, ssrc, payloadType), ctx, seqNo, f);
            && |wire| >= 22
            && var (plain, error) := Open(c, k, ctx.NextRoc(ssrc, seqNo), wire);
               error.None? && Carries(plain, ssrc, payloadType % 128, seqNo, f)
  {
    var cfg := RtpConfig(c, k, ssrc, payloadType);
    RtpConfigValid(c, k, ssrc, payloadType);
    ProtectBuilt(cfg, ctx, seqNo, f);
    PlainAddressed(cfg, seqNo, f);
    OpenSeal(c, k, ssrc, ctx.NextRoc(ssrc, seqNo), cfg.build(seqNo, f));
    BuiltCarries(c, k, ssrc, payloadType, seqNo, f);
  }

  /** The stream's RTP packets always encode, with the twelve fixed bytes as header. */
  lemma RtpPacketAddressed(ssrc: u32, payloadType: byte, seqNo: u16, f: Frame)
    ensures Rtp.Encode(PacketFor(ssrc, payloadType, seqNo, f)).Ok?
    ensures Addressed(Rtp.Encode(PacketFor(ssrc, payloadType, seqNo, f)).value, seqNo, ssrc)
  {
    var pkt := PacketFor(ssrc, payloadType, seqNo, f);
    var masked := pkt.(header := pkt.header.(payloadType := payloadType % 128));
    assert Rtp.Encode(masked) == Rtp.Encode(pkt);
    Rtp.DecodeUndoesEncode(masked);
    HeaderLenIsPayloadStart(Rtp.Encode(pkt).value);
  }

  lemma RtpConfigValid(c: Crypto, k: SessionKeys, ssrc: u32, payloadType: byte)
    ensures RtpConfig(c, k, ssrc, payloadType).Valid()
  {
    forall seqNo, f ensures Addressed(RtpConfig(c, k, ssrc, payloadType).build(seqNo, f), seqNo, ssrc) {
      RtpPacketAddressed(ssrc, payloadType, seqNo, f);
    }
  }

  lemma ProtectBuilt(cfg: Config, ctx: Ctx, seqNo: u16, f: Frame)
    requires cfg.Valid()
    ensures var plain, roc := cfg.build(seqNo, f), ctx.NextRoc(cfg.ssrc, seqNo);
            HeaderLen(plain).Ok? &&
            Protect(cfg.c, cfg.k, ctx, cfg.ssrc, plain) ==
            Effect(ctx.Store(cfg.ssrc, roc, seqNo), Seal(cfg.c, cfg.k, cfg.ssrc, roc, seqNo, plain), None)
  {
    assert Addressed(cfg.build(seqNo, f), seqNo, cfg.ssrc);
  }

  lemma AddMod(a: nat, b: nat)
    ensures (a + b % 0x1_0000_0000) % 0x1_0000_0000 == (a + b) % 0x1_0000_0000
    ensures (a % 0x1_0000_0000 + b) % 0x1_0000_0000 == (a + b) % 0x1_0000_0000
  {
    var (x, y) := (a + b % 0x1_0000_0000, a % 0x1_0000_0000 + b);
    WordRemainder(a + b, x / 0x1_0000_0000 + b / 0x1_0000_0000, x % 0x1_0000_0000);
    WordRemainder(a + b, y / 0x1_0000_0000 + a / 0x1_0000_0000, y % 0x1_0000_0000);
  }

  // ---- the index of a call ---------------------------------------------------------

  /** The index that the counter rule gives to a number, after a packet with index `used`. */
  function Follow(used: Option<nat>, seqNo: u16): nat {
    if used.None? then seqNo
    else
      var u := used.value;
      var wrapped := seqNo < u % 0x1_0000 && u % 0x1_0000 - seqNo > 1000;
      (if wrapped then u / 0x1_0000 + 1 else u / 0x1_0000) * 0x1_0000 + seqNo
  }

  /** What the calls on one SSRC come to: the index the last one used, the one the next will use if there is a
      stream, and the last one that the socket took. */
  datatype Line = Line(used: Option<nat>, next: Option<nat>, top: Option<nat>)

  function LineStep(t: Line, op: Op, ssrc: u32): Line {
    if op.ssrc != ssrc then t
    else if op.Add? then t.(next := Some(Follow(t.used, op.start)))
    else if t.next.None? then t
    else Line(t.next, if op.sent then Some(t.next.value + 1) else t.next, if op.sent then t.next else t.top)
  }

  /** Computed from the calls on the SSRC alone, with unbounded indices. */
  function Trace(ops: seq<Op>, ssrc: u32): Line {
    if ops == [] then Line(None, None, None) else LineStep(Trace(ops[..|ops| - 1], ssrc), ops[|ops| - 1], ssrc)
  }

  /** The state of a session as one SSRC sees it. */
  ghost predicate Matches(b: Bank, ssrc: u32, t: Line) {
    && (t.next.Some? <==> ssrc in b.streams)
    && (t.next.Some? ==> b.streams[ssrc].seqNo == t.next.value % 0x1_0000 &&
                         t.next.value == Follow(t.used, b.streams[ssrc].seqNo))
    && (ssrc in b.ctx.lastSeqs <==> t.used.Some?)
    && (t.used.Some? ==> t.used.value < INDEX_LIMIT && b.ctx.lastSeqs[ssrc] == t.used.value % 0x1_0000 &&
                         b.ctx.RocOf(ssrc) == t.used.value / 0x1_0000)
  }

  predicate Fits(t: Line) {
    t.next.Some? ==> t.next.value < INDEX_LIMIT
  }

  /** No call on the SSRC runs past the 48 bits of an index. */
  predicate InLimit(ops: seq<Op>, ssrc: u32) {
    forall k :: 0 <= k < |ops| ==> FitsAt(ops, ssrc, k)
  }

  predicate FitsAt(ops: seq<Op>, ssrc: u32, k: nat)
    requires k <= |ops|
  {
    Fits(Trace(ops[..k], ssrc))
  }

  lemma InLimitPrefix(ops: seq<Op>, ssrc: u32, n: nat)
    requires InLimit(ops, ssrc) && n <= |ops|
    ensures InLimit(ops[..n], ssrc)
  {
    forall k | 0 <= k < n ensures FitsAt(ops[..n], ssrc, k) {
      assert FitsAt(ops, ssrc, k) && ops[..n][..k] == ops[..k];
    }
  }

  lemma FollowSplit(used: Option<nat>, seqNo: u16)
    ensures Follow(used, seqNo) % 0x1_0000 == seqNo
    ensures used.None? ==> Follow(used, seqNo) / 0x1_0000 == 0
    ensures used.Some? ==>
      var u := used.value;
      Follow(used, seqNo) / 0x1_0000 ==
        if seqNo < u % 0x1_0000 && u % 0x1_0000 - seqNo > 1000 then u / 0x1_0000 + 1 else u / 0x1_0000
  {
  }

  /** The same number again gives the same index, the next number the next index. */
  lemma FollowSteps(u: nat)
    ensures Follow(Some(u), u % 0x1_0000) == u && Follow(Some(u), (u + 1) % 0x1_0000) == u + 1
  {
    var q, r := u / 0x1_0000, u % 0x1_0000;
    assert u == q * 0x1_0000 + r;
    if r == 0xFFFF {
      assert (u + 1) == (q + 1) * 0x1_0000;
      assert (u + 1) % 0x1_0000 == 0;
    } else {
      assert (u + 1) % 0x1_0000 == r + 1;
    }
  }

  /** The index a call on the SSRC would use now, as the code computes it. */
  function OwnIndex(b: Bank, ssrc: u32): (index: u64)
    requires ssrc in b.streams
    ensures index < INDEX_LIMIT
  {
    Index(b.ctx.NextRoc(ssrc, b.streams[ssrc].seqNo), b.streams[ssrc].seqNo)
  }

  lemma OwnIndexExact(b: Bank, ssrc: u32, t: Line)
    requires Matches(b, ssrc, t) && t.next.Some? && t.next.value < INDEX_LIMIT
    ensures b.ctx.NextRoc(ssrc, b.streams[ssrc].seqNo) == t.next.value / 0x1_0000 && OwnIndex(b, ssrc) == t.next.value
  {
    FollowSplit(t.used, b.streams[ssrc].seqNo);
  }

  lemma SendMatches(b: Bank, ssrc: u32, t: Line, f: Frame, sent: bool)
    requires Matches(b, ssrc, t) && Fits(t)
    ensures Matches(Do(b, Send(ssrc, f, sent)), ssrc, LineStep(t, Send(ssrc, f, sent), ssrc))
  {
    if t.next.Some? {
      OwnIndexExact(b, ssrc, t);
      FollowSteps(t.next.value);
    }
  }

  lemma DoMatches(b: Bank, ssrc: u32, t: Line, op: Op)
    requires Matches(b, ssrc, t) && Fits(t)
    ensures Matches(Do(b, op), ssrc, LineStep(t, op, ssrc))
  {
    if op.Send? && op.ssrc == ssrc {
      SendMatches(b, ssrc, t, op.frame, op.sent);
    } else if op.ssrc == ssrc {
      FollowSplit(t.used, op.start);
    }
  }

  lemma {:induction false} RunMatches(ops: seq<Op>, ssrc: u32)
    requires InLimit(ops, ssrc)
    ensures Matches(After(ops), ssrc, Trace(ops, ssrc))
  {
    if ops != [] {
      var n := |ops| - 1;
      InLimitPrefix(ops, ssrc, n);
      RunMatches(ops[..n], ssrc);
      assert FitsAt(ops, ssrc, n);
      DoMatches(After(ops[..n]), ssrc, Trace(ops[..n], ssrc), ops[n]);
    }
  }

  /** The calls on one SSRC. */
  function Mine(ops: seq<Op>, ssrc: u32): seq<Op> {
    if ops == [] then []
    else Mine(ops[..|ops| - 1], ssrc) + if ops[|ops| - 1].ssrc == ssrc then [ops[|ops| - 1]] else []
  }

  lemma {:induction false} TraceMine(ops: seq<Op>, ssrc: u32)
    ensures Trace(Mine(ops, ssrc), ssrc) == Trace(ops, ssrc)
  {
    if ops != [] {
      var n := |ops| - 1;
      var before := Mine(ops[..n], ssrc);
      TraceMine(ops[..n], ssrc);
      if ops[n].ssrc == ssrc {
        assert (before + [ops[n]])[..|before|] == before;
      } else {
        assert before + [] == before;
      }
    }
  }

  lemma {:induction false} InLimitMine(ops: seq<Op>, ssrc: u32)
    requires InLimit(ops, ssrc)
    ensures InLimit(Mine(ops, ssrc), ssrc)
  {
    if ops != [] {
      var n := |ops| - 1;
      var mine, before := Mine(ops, ssrc), Mine(ops[..n], ssrc);
      InLimitPrefix(ops, ssrc, n);
      InLimitMine(ops[..n], ssrc);
      TraceMine(ops[..n], ssrc);
      forall k | 0 <= k < |mine| ensures FitsAt(mine, ssrc, k) {
        if k < |before| {
          assert FitsAt(before, ssrc, k) && mine[..k] == before[..k];
        } else {
          assert FitsAt(ops, ssrc, n) && mine[..k] == before;
        }
      }
    }
  }

  /** Other streams on the same context do not matter: a call uses the index it would use if its stream were alone. */
  lemma OthersInvisible(ops: seq<Op>, ssrc: u32)
    requires InLimit(ops, ssrc) && FitsAt(ops, ssrc, |ops|)
    ensures ssrc in After(ops).streams <==> ssrc in After(Mine(ops, ssrc)).streams
    ensures ssrc in After(ops).streams ==> OwnIndex(After(ops), ssrc) == OwnIndex(After(Mine(ops, ssrc)), ssrc)
  {
    var t := Trace(ops, ssrc);
    RunMatches(ops, ssrc);
    InLimitMine(ops, ssrc);
    RunMatches(Mine(ops, ssrc), ssrc);
    TraceMine(ops, ssrc);
    assert ops[..|ops|] == ops;
    if t.next.Some? {
      OwnIndexExact(After(ops), ssrc, t);
      OwnIndexExact(After(Mine(ops, ssrc)), ssrc, t);
    }
  }

  // ---- counts ----------------------------------------------------------------------

  /** Sends on the SSRC that completed since its stream was added. */
  function Completed(ops: seq<Op>, ssrc: u32): nat {
    if ops == [] then 0
    else
      var n := |ops| - 1;
      if ops[n].ssrc != ssrc then Completed(ops[..n], ssrc)
      else if ops[n].Add? then 0
      else Completed(ops[..n], ssrc) + if CompletesAt(ops, n) then 1 else 0
  }

  function Octets(ops: seq<Op>, ssrc: u32): nat {
    if ops == [] then 0
    else
      var n := |ops| - 1;
      if ops[n].ssrc != ssrc then Octets(ops[..n], ssrc)
      else if ops[n].Add? then 0
      else Octets(ops[..n], ssrc) + if CompletesAt(ops, n) then |ops[n].frame.payload| else 0
  }

  /** The k-th call is a send on a stream that exists. */
  predicate SendsAt(ops: seq<Op>, k: nat)
    requires k < |ops|
  {
    ops[k].Send? && Trace(ops[..k], ops[k].ssrc).next.Some?
  }

  predicate CompletesAt(ops: seq<Op>, k: nat)
    requires k < |ops|
  {
    SendsAt(ops, k) && ops[k].sent
  }

  lemma {:induction false} LiveIff(ops: seq<Op>, ssrc: u32)
    ensures ssrc in After(ops).streams <==> Trace(ops, ssrc).next.Some?
  {
    if ops != [] {
      LiveIff(ops[..|ops| - 1], ssrc);
      LiveIff(ops[..|ops| - 1], ops[|ops| - 1].ssrc);
    }
  }

  predicate CountsRight(n: Numbers, packets: nat, octets: nat) {
    n.packetCount == packets % 0x1_0000_0000 && n.octetCount == octets % 0x1_0000_0000
  }

  lemma CountedRight(n: Numbers, packets: nat, octets: nat, f: Frame)
    requires CountsRight(n, packets, octets)
    ensures CountsRight(Counted(n, f), packets + 1, octets + |f.payload|)
  {
    AddMod(packets, 1);
    AddMod(octets, |f.payload|);
    AddMod(n.octetCount, |f.payload|);
  }

  /** Packet and octet counts of a stream's sender reports: the totals since it was added, as 32-bit counters. */
  lemma {:induction false} AfterCounts(ops: seq<Op>, ssrc: u32)
    requires ssrc in After(ops).streams
    ensures CountsRight(After(ops).streams[ssrc], Completed(ops, ssrc), Octets(ops, ssrc))
  {
    var n := |ops| - 1;
    LiveIff(ops[..n], ssrc);
    if ssrc in After(ops[..n]).streams {
      AfterCounts(ops[..n], ssrc);
      if ops[n].ssrc == ssrc && ops[n].Send? && ops[n].sent {
        CountedRight(After(ops[..n]).streams[ssrc], Completed(ops[..n], ssrc), Octets(ops[..n], ssrc), ops[n].frame);
      }
    }
  }

  // ---- no IV is used twice ---------------------------------------------------------------

  /** The IV of the k-th call, from the session's state at that point. */
  function CallIv(salt: Salt, ops: seq<Op>, k: nat): seq<byte>
    requires k < |ops| && SendsAt(ops, k)
  {
    LiveIff(ops[..k], ops[k].ssrc);
    Iv(salt, ops[k].ssrc, OwnIndex(After(ops[..k]), ops[k].ssrc))
  }

  lemma CallIvIs(salt: Salt, ops: seq<Op>, k: nat)
    requires k < |ops| && SendsAt(ops, k) && InLimit(ops, ops[k].ssrc)
    ensures Trace(ops[..k], ops[k].ssrc).next.value < INDEX_LIMIT
    ensures CallIv(salt, ops, k) == Iv(salt, ops[k].ssrc, Trace(ops[..k], ops[k].ssrc).next.value)
  {
    InLimitPrefix(ops, ops[k].ssrc, k);
    RunMatches(ops[..k], ops[k].ssrc);
    assert FitsAt(ops, ops[k].ssrc, k);
    OwnIndexExact(After(ops[..k]), ops[k].ssrc, Trace(ops[..k], ops[k].ssrc));
  }

  /** Two calls share an IV exactly if they use one index of one SSRC. */
  lemma SharedIff(salt: Salt, ops: seq<Op>, a: nat, b: nat)
    requires a < |ops| && b < |ops| && SendsAt(ops, a) && SendsAt(ops, b)
    requires InLimit(ops, ops[a].ssrc) && InLimit(ops, ops[b].ssrc)
    ensures CallIv(salt, ops, a) == CallIv(salt, ops, b) <==>
            ops[a].ssrc == ops[b].ssrc && Trace(ops[..a], ops[a].ssrc).next == Trace(ops[..b], ops[b].ssrc).next
  {
    CallIvIs(salt, ops, a);
    CallIvIs(salt, ops, b);
    var (i, j) := (Trace(ops[..a], ops[a].ssrc).next.value, Trace(ops[..b], ops[b].ssrc).next.value);
    IvInjective(salt, ops[a].ssrc, i, ops[b].ssrc, j);
  }

  predicate Readded(ops: seq<Op>, ssrc: u32, a: nat, b: nat)
    requires a <= b <= |ops|
  {
    exists i :: a <= i < b && ops[i].Add? && ops[i].ssrc == ssrc
  }

  predicate Idle(ops: seq<Op>, ssrc: u32, a: nat, b: nat)
    requires a <= b <= |ops|
  {
    forall i :: a <= i < b && ops[i].Send? && ops[i].ssrc == ssrc ==> !ops[i].sent
  }

  lemma {:induction false} NextBetween(ops: seq<Op>, ssrc: u32, a: nat, b: nat)
    requires a <= b <= |ops| && !Readded(ops, ssrc, a, b) && Trace(ops[..a], ssrc).next.Some?
    ensures var (t, t') := (Trace(ops[..a], ssrc), Trace(ops[..b], ssrc));
      && t'.next.Some? && t.next.value <= t'.next.value
      && (t.next == t'.next <==> Idle(ops, ssrc, a, b))
    decreases b
  {
    if a < b {
      assert !Readded(ops, ssrc, a, b - 1);
      NextBetween(ops, ssrc, a, b - 1);
      assert ops[..b][..b - 1] == ops[..b - 1];
      var op := ops[b - 1];
      assert Idle(ops, ssrc, a, b) <==> Idle(ops, ssrc, a, b - 1) && !(op.Send? && op.ssrc == ssrc && op.sent);
    }
  }

  /** Whatever other streams do, two calls use one IV exactly if they are on one stream, with no completed send
      on it from the first to the second (the stream not being replaced in between). */
  lemma IvReuseIff(salt: Salt, ops: seq<Op>, a: nat, b: nat)
    requires a <= b < |ops| && SendsAt(ops, a) && SendsAt(ops, b) && !Readded(ops, ops[a].ssrc, a, b)
    requires InLimit(ops, ops[a].ssrc) && InLimit(ops, ops[b].ssrc)
    ensures CallIv(salt, ops, a) == CallIv(salt, ops, b) <==> ops[a].ssrc == ops[b].ssrc && Idle(ops, ops[a].ssrc, a, b)
  {
    SharedIff(salt, ops, a, b);
    NextBetween(ops, ops[a].ssrc, a, b);
  }

  // ---- streams that are replaced -----------------------------------------------------------

  /** A stream that is added under a used SSRC starts beyond every index completed there. */
  predicate Ahead(t: Line, start: u16) {
    t.top.Some? ==> Follow(t.used, start) > t.top.value
  }

  predicate AheadAt(ops: seq<Op>, k: nat)
    requires k < |ops|
  {
    ops[k].Add? ==> Ahead(Trace(ops[..k], ops[k].ssrc), ops[k].start)
  }

  /** Every stream added starts ahead; one with an SSRC of its own always does. */
  predicate Orderly(ops: seq<Op>) {
    forall k :: 0 <= k < |ops| ==> AheadAt(ops, k)
  }

  /** By the numbers: after a completed send, a start is behind exactly if it is the last number or up to 1000 below. */
  lemma AheadIff(t: Line, start: u16)
    requires t.used.Some? && t.top == t.used
    ensures var last := t.used.value % 0x1_0000; !Ahead(t, start) <==> start <= last <= start + 1000
  {
    var q, r := t.used.value / 0x1_0000, t.used.value % 0x1_0000;
    assert t.used.value == q * 0x1_0000 + r;
    NumberOrder(q, r, start);
  }

  lemma NumberOrder(q: nat, r: u16, start: u16)
    ensures q * 0x1_0000 + start > q * 0x1_0000 + r <==> start > r
    ensures (q + 1) * 0x1_0000 + start > q * 0x1_0000 + r
  {
  }

  /** The next index lies beyond the last one completed. */
  predicate Rising(t: Line) {
    t.next.Some? && t.top.Some? ==> t.top.value < t.next.value
  }

  /** The last completed index only grows, and the next one stays beyond it. */
  lemma {:induction false} TopGrows(ops: seq<Op>, ssrc: u32, a: nat, b: nat)
    requires Orderly(ops) && a <= b <= |ops|
    ensures Rising(Trace(ops[..b], ssrc))
    ensures var (t, t') := (Trace(ops[..a], ssrc), Trace(ops[..b], ssrc));
      t.top.Some? ==> t'.top.Some? && t.top.value <= t'.top.value
    decreases b
  {
    if b > 0 {
      var n := b - 1;
      TopGrows(ops, ssrc, if a < b then a else n, n);
      assert ops[..b][..n] == ops[..n];
      assert AheadAt(ops, n);
    }
  }

  /** In every orderly interleaving of streams on one context, a completed send shares its IV with no later call. */
  lemma NoIvReuse(salt: Salt, ops: seq<Op>, a: nat, b: nat)
    requires a < b < |ops| && CompletesAt(ops, a) && SendsAt(ops, b) && Orderly(ops)
    requires InLimit(ops, ops[a].ssrc) && InLimit(ops, ops[b].ssrc)
    ensures CallIv(salt, ops, a) != CallIv(salt, ops, b)
  {
    SharedIff(salt, ops, a, b);
    var ssrc := ops[a].ssrc;
    TopGrows(ops, ssrc, a + 1, b);
    assert ops[..a + 1][..a] == ops[..a];
    assert Trace(ops[..a + 1], ssrc).top == Trace(ops[..a], ssrc).next;
  }

  lemma {:induction false} TopCall(ops: seq<Op>, ssrc: u32) returns (a: nat)
    requires Trace(ops, ssrc).top.Some?
    ensures a < |ops| && CompletesAt(ops, a) && ops[a].ssrc == ssrc
    ensures Trace(ops[..a], ssrc).next == Trace(ops, ssrc).top
  {
    var n := |ops| - 1;
    if ops[n].ssrc == ssrc && CompletesAt(ops, n) {
      a := n;
    } else {
      a := TopCall(ops[..n], ssrc);
      assert ops[..n][..a] == ops[..a];
    }
  }

  /** The calls go on with n completed sends on one stream. */
  function Continued(ops: seq<Op>, op: Op, n: nat): (run: seq<Op>)
    ensures |run| == |ops| + n
  {
    if n == 0 then ops else Continued(ops, op, n - 1) + [op]
  }

  lemma {:induction false} ContinuedStarts(ops: seq<Op>, op: Op, n: nat, a: nat)
    requires a < |ops|
    ensures Continued(ops, op, n)[a] == ops[a] && Continued(ops, op, n)[..a] == ops[..a]
  {
    if n > 0 {
      ContinuedStarts(ops, op, n - 1, a);
      assert Continued(ops, op, n)[..a] == Continued(ops, op, n - 1)[..a];
    }
  }

  lemma TraceSnoc(ops: seq<Op>, op: Op, ssrc: u32)
    ensures Trace(ops + [op], ssrc) == LineStep(Trace(ops, ssrc), op, ssrc)
  {
    assert (ops + [op])[..|ops|] == ops;
  }

  lemma InLimitSnoc(ops: seq<Op>, op: Op, ssrc: u32)
    requires InLimit(ops, ssrc) && Fits(Trace(ops, ssrc))
    ensures InLimit(ops + [op], ssrc)
  {
    forall k | 0 <= k < |ops| + 1 ensures FitsAt(ops + [op], ssrc, k) {
      if k < |ops| {
        assert FitsAt(ops, ssrc, k) && (ops + [op])[..k] == ops[..k];
      } else {
        assert (ops + [op])[..k] == ops;
      }
    }
  }

  /** The next call on the SSRC uses the given index. */
  predicate NextAt(ops: seq<Op>, ssrc: u32, index: nat) {
    InLimit(ops, ssrc) && Trace(ops, ssrc).next == Some(index)
  }

  lemma SendStep(ops: seq<Op>, op: Op, index: nat)
    requires op.Send? && op.sent && NextAt(ops, op.ssrc, index) && index < INDEX_LIMIT
    ensures NextAt(ops + [op], op.ssrc, index + 1)
  {
    TraceSnoc(ops, op, op.ssrc);
    InLimitSnoc(ops, op, op.ssrc);
  }

  lemma {:induction false} ContinuedTrace(ops: seq<Op>, op: Op, n: nat, base: nat)
    requires op.Send? && op.sent && NextAt(ops, op.ssrc, base) && base + n <= INDEX_LIMIT
    ensures NextAt(Continued(ops, op, n), op.ssrc, base + n)
  {
    if n > 0 {
      ContinuedTrace(ops, op, n - 1, base);
      SendStep(Continued(ops, op, n - 1), op, base + n - 1);
    }
  }

  lemma LastCall(ops: seq<Op>, op: Op, m: nat, base: nat)
    requires op.Send? && op.sent && NextAt(ops, op.ssrc, base) && base + m < INDEX_LIMIT
    ensures var run := Continued(ops, op, m + 1);
      && InLimit(run, op.ssrc) && run[|ops| + m] == op && CompletesAt(run, |ops| + m)
      && Trace(run[..|ops| + m], op.ssrc).next == Some(base + m)
  {
    var before := Continued(ops, op, m);
    ContinuedTrace(ops, op, m, base);
    SendStep(before, op, base + m);
    assert (before + [op])[..|ops| + m] == before;
  }

  lemma SameIndexShares(salt: Salt, ops: seq<Op>, a: nat, b: nat, ssrc: u32)
    requires a < |ops| && b < |ops| && SendsAt(ops, a) && SendsAt(ops, b) && ops[a].ssrc == ops[b].ssrc == ssrc
    requires InLimit(ops, ssrc) && Trace(ops[..a], ssrc).next == Trace(ops[..b], ssrc).next
    ensures CallIv(salt, ops, a) == CallIv(salt, ops, b)
  {
    SharedIff(salt, ops, a, b);
  }

  /** Going on from a stream whose next index is not beyond a completed one meets the IV of that one again. */
  lemma MeetsAgain(salt: Salt, ops: seq<Op>, op: Op, a: nat, base: nat, m: nat)
    requires op.Send? && op.sent && NextAt(ops, op.ssrc, base)
    requires a < |ops| && CompletesAt(ops, a) && ops[a].ssrc == op.ssrc
    requires Trace(ops[..a], op.ssrc).next == Some(base + m)
    ensures var run := Continued(ops, op, m + 1);
      && InLimit(run, op.ssrc) && CompletesAt(run, a) && CompletesAt(run, |ops| + m)
      && CallIv(salt, run, a) == CallIv(salt, run, |ops| + m)
  {
    assert FitsAt(ops, op.ssrc, a);
    LastCall(ops, op, m, base);
    ContinuedStarts(ops, op, m + 1, a);
    SameIndexShares(salt, Continued(ops, op, m + 1), a, |ops| + m, op.ssrc);
  }

  /** A stream that does not start ahead has a completed index before it, m sends away. */
  lemma BehindStart(ops: seq<Op>, added: Op) returns (a: nat, base: nat, m: nat)
    requires added.Add? && InLimit(ops, added.ssrc) && Fits(Trace(ops, added.ssrc))
    requires !Ahead(Trace(ops, added.ssrc), added.start)
    ensures NextAt(ops + [added], added.ssrc, base)
    ensures a < |ops| && CompletesAt(ops, a) && ops[a].ssrc == added.ssrc
    ensures Trace(ops[..a], added.ssrc).next == Some(base + m)
  {
    var t := Trace(ops, added.ssrc);
    a := TopCall(ops, added.ssrc);
    TraceSnoc(ops, added, added.ssrc);
    InLimitSnoc(ops, added, added.ssrc);
    base := Follow(t.used, added.start);
    m := t.top.value - base;
  }

  /** Starting ahead is also necessary: if a stream is replaced by one that does not, going on sending on it brings a
      completed send under an IV that a completed send has used. */
  lemma BehindReuses(salt: Salt, ops: seq<Op>, added: Op, f: Frame) returns (run: seq<Op>, a: nat, b: nat)
    requires added.Add? && InLimit(ops, added.ssrc) && Fits(Trace(ops, added.ssrc))
    requires !Ahead(Trace(ops, added.ssrc), added.start)
    ensures b > |ops| && run == Continued(ops + [added], Send(added.ssrc, f, true), b - |ops|)
    ensures InLimit(run, added.ssrc)
    ensures a < |ops| && CompletesAt(run, a) && CompletesAt(run, b) && CallIv(salt, run, a) == CallIv(salt, run, b)
  {
    var all, op := ops + [added], Send(added.ssrc, f, true);
    var base, m;
    a, base, m := BehindStart(ops, added);
    assert all[..a] == ops[..a] && all[a] == ops[a];
    MeetsAgain(salt, all, op, a, base, m);
    b, run := |all| + m, Continued(all, op, m + 1);
  }

  // ---- the packets on the wire are an SRTP stream --------------------------------

  /** A packet protected under a given 48-bit index. */
  function SealAt(cfg: Config, index: nat, plain: seq<byte>): seq<byte>
    requires index < INDEX_LIMIT && HeaderLen(plain).Ok?
  {
    Seal(cfg.c, cfg.k, cfg.ssrc, index / 0x1_0000, index % 0x1_0000, plain)
  }

  lemma WireSealed(cfg: Config, b: Bank, t: Line, f: Frame)
    requires cfg.Valid() && Matches(b, cfg.ssrc, t) && t.next.Some? && t.next.value < INDEX_LIMIT
    ensures var seqNo := b.streams[cfg.ssrc].seqNo;
            seqNo == t.next.value % 0x1_0000 && HeaderLen(cfg.build(seqNo, f)).Ok? &&
            CallWire(cfg, b.ctx, seqNo, f) == SealAt(cfg, t.next.value, cfg.build(seqNo, f))
  {
    OwnIndexExact(b, cfg.ssrc, t);
    ProtectBuilt(cfg, b.ctx, b.streams[cfg.ssrc].seqNo, f);
  }

  /** The stream of the SSRC is added by the at-th call and never replaced. */
  predicate AddedOnce(ops: seq<Op>, ssrc: u32, start: u16, at: nat) {
    && at < |ops| && ops[at].Add? && ops[at].ssrc == ssrc && ops[at].start == start
    && forall i :: 0 <= i < |ops| && i != at && ops[i].ssrc == ssrc ==> !ops[i].Add?
  }

  lemma {:induction false} NeverAdded(ops: seq<Op>, ssrc: u32)
    requires forall i :: 0 <= i < |ops| && ops[i].ssrc == ssrc ==> !ops[i].Add?
    ensures Trace(ops, ssrc) == Line(None, None, None)
  {
    if ops != [] {
      NeverAdded(ops[..|ops| - 1], ssrc);
    }
  }

  lemma {:induction false} NextIs(ops: seq<Op>, ssrc: u32, start: u16, at: nat)
    requires AddedOnce(ops, ssrc, start, at)
    ensures Trace(ops, ssrc).next == Some(start + Completed(ops, ssrc))
  {
    var n := |ops| - 1;
    if at == n {
      NeverAdded(ops[..n], ssrc);
    } else {
      NextIs(ops[..n], ssrc, start, at);
    }
  }

  /** Whatever sends failed and whatever other streams did, a call protects its packet under the start number plus
      the sends that its stream completed. */
  lemma CallIndex(cfg: Config, ops: seq<Op>, start: u16, at: nat, f: Frame)
    requires cfg.Valid() && AddedOnce(ops, cfg.ssrc, start, at)
    requires InLimit(ops, cfg.ssrc) && start + Completed(ops, cfg.ssrc) < INDEX_LIMIT
    ensures var (b, index) := (After(ops), start + Completed(ops, cfg.ssrc));
            cfg.ssrc in b.streams &&
            var seqNo := b.streams[cfg.ssrc].seqNo;
            seqNo == index % 0x1_0000 && HeaderLen(cfg.build(seqNo, f)).Ok? &&
            CallWire(cfg, b.ctx, seqNo, f) == SealAt(cfg, index, cfg.build(seqNo, f))
  {
    RunMatches(ops, cfg.ssrc);
    NextIs(ops, cfg.ssrc, start, at);
    WireSealed(cfg, After(ops), Trace(ops, cfg.ssrc), f);
  }

  /** The call whose packet is the n-th that the socket takes of the stream. */
  function NthSent(ops: seq<Op>, ssrc: u32, n: nat): (j: nat)
    requires n < Completed(ops, ssrc)
    ensures j < |ops| && CompletesAt(ops, j) && ops[j].ssrc == ssrc && Completed(ops[..j], ssrc) == n
  {
    var last := |ops| - 1;
    if n < Completed(ops[..last], ssrc) then
      var j := NthSent(ops[..last], ssrc, n);
      assert ops[..last][..j] == ops[..j];
      j
    else last
  }

  /** The n-th completed send as an RTP packet, numbered from `start` without gaps. */
  function PlainOf(cfg: Config, start: u16, ops: seq<Op>, n: nat): seq<byte>
    requires n < Completed(ops, cfg.ssrc)
  {
    cfg.build((start + n) % 0x1_0000, ops[NthSent(ops, cfg.ssrc, n)].frame)
  }

  function StreamOf(cfg: Config, start: u16, ops: seq<Op>): Stream {
    var count := Completed(ops, cfg.ssrc);
    Stream(cfg.c, cfg.k, cfg.ssrc, start, seq(count, n requires 0 <= n < count => PlainOf(cfg, start, ops, n)))
  }

  lemma StreamWellFormed(cfg: Config, start: u16, ops: seq<Op>)
    requires cfg.Valid() && start + Completed(ops, cfg.ssrc) <= INDEX_LIMIT
    ensures StreamOf(cfg, start, ops).WellFormed()
  {
    var s := StreamOf(cfg, start, ops);
    forall n: nat | n < |s.plain| ensures s.NumberedAt(n) {
      PlainAt(cfg, start, ops, n);
    }
  }

  lemma PlainAt(cfg: Config, start: u16, ops: seq<Op>, n: nat)
    requires cfg.Valid() && n < Completed(ops, cfg.ssrc)
    ensures StreamOf(cfg, start, ops).NumberedAt(n)
  {
    assert StreamOf(cfg, start, ops).plain[n] == PlainOf(cfg, start, ops, n);
    PlainAddressed(cfg, (start + n) % 0x1_0000, ops[NthSent(ops, cfg.ssrc, n)].frame);
  }

  lemma PlainAddressed(cfg: Config, seqNo: u16, f: Frame)
    requires cfg.Valid()
    ensures Addressed(cfg.build(seqNo, f), seqNo, cfg.ssrc)
  {
  }

  lemma AddedBefore(ops: seq<Op>, ssrc: u32, start: u16, at: nat, j: nat)
    requires AddedOnce(ops, ssrc, start, at) && j <= |ops| && Trace(ops[..j], ssrc).next.Some?
    ensures AddedOnce(ops[..j], ssrc, start, at)
  {
    if j <= at {
      NeverAdded(ops[..j], ssrc);
    }
  }

  /** The n-th packet of the stream, sealed. */
  lemma NthWire(cfg: Config, start: u16, ops: seq<Op>, n: nat)
    requires cfg.Valid() && start + Completed(ops, cfg.ssrc) <= INDEX_LIMIT && n < Completed(ops, cfg.ssrc)
    ensures StreamOf(cfg, start, ops).WellFormed() && HeaderLen(PlainOf(cfg, start, ops, n)).Ok?
    ensures StreamOf(cfg, start, ops).Wire(n) == SealAt(cfg, start + n, PlainOf(cfg, start, ops, n))
  {
    StreamWellFormed(cfg, start, ops);
    WireIs(cfg, StreamOf(cfg, start, ops), n, PlainOf(cfg, start, ops, n));
  }

  lemma WireIs(cfg: Config, s: Stream, n: nat, plain: seq<byte>)
    requires s.c == cfg.c && s.k == cfg.k && s.ssrc == cfg.ssrc && s.start + n < INDEX_LIMIT
    requires n < |s.plain| && s.plain[n] == plain && s.NumberedAt(n)
    ensures HeaderLen(plain).Ok? && s.Wire(n) == SealAt(cfg, s.start + n, plain)
  {
  }

  /** Among any other streams, the n-th packet that the socket takes of a stream is the n-th packet of the protected
      stream that a receiver expects. */
  lemma TransmittedIsStream(cfg: Config, ops: seq<Op>, start: u16, at: nat, n: nat)
    requires cfg.Valid() && AddedOnce(ops, cfg.ssrc, start, at) && n < Completed(ops, cfg.ssrc)
    requires InLimit(ops, cfg.ssrc) && start + Completed(ops, cfg.ssrc) <= INDEX_LIMIT
    ensures var s, j := StreamOf(cfg, start, ops), NthSent(ops, cfg.ssrc, n);
            var b := After(ops[..j]);
            s.WellFormed() && cfg.ssrc in b.streams &&
            CallWire(cfg, b.ctx, b.streams[cfg.ssrc].seqNo, ops[j].frame) == s.Wire(n)
  {
    NthWire(cfg, start, ops, n);
    var j := NthSent(ops, cfg.ssrc, n);
    AddedBefore(ops, cfg.ssrc, start, at, j);
    InLimitPrefix(ops, cfg.ssrc, j);
    CallIndex(cfg, ops[..j], start, at, ops[j].frame);
  }

  /** The packet of the n-th completed send of a stream, as a receiver that accepts it decodes it. */
  ghost predicate Delivers(s: Stream, ds: seq<Delivery>, payloadType: byte, n: nat, wire: seq<byte>, f: Frame)
    requires s.WellFormed() && InStream(s, ds)
  {
    var e := Unprotect(s.c, s.k, Receiver(s, ds), wire);
    e.error.None? && Carries(e.packet, s.ssrc, payloadType % 128, (s.start + n) % 0x1_0000, f)
  }

  lemma PlainCarries(c: Crypto, k: SessionKeys, ssrc: u32, payloadType: byte, start: u16, ops: seq<Op>, n: nat)
    requires n < Completed(ops, ssrc)
    ensures var s := StreamOf(RtpConfig(c, k, ssrc, payloadType), start, ops);
      Carries(s.plain[n], ssrc, payloadType % 128, (start + n) % 0x1_0000, ops[NthSent(ops, ssrc, n)].frame)
  {
    var cfg := RtpConfig(c, k, ssrc, payloadType);
    assert StreamOf(cfg, start, ops).plain[n] == PlainOf(cfg, start, ops, n);
    BuiltCarries(c, k, ssrc, payloadType, (start + n) % 0x1_0000, ops[NthSent(ops, ssrc, n)].frame);
  }

  /** The receiver is ready for the n-th packet: it is in reach, new and not too old. */
  ghost predicate Ready(s: Stream, ds: seq<Delivery>, n: nat) {
    && s.WellFormed() && Admissible(s, ds) && n < |s.plain|
    && InReach(Accepted(s, ds), s.start + n) && Acceptable(Accepted(s, ds), s.start + n)
  }

  /** The wire bytes are the n-th packet of the stream, which carries the frame. */
  ghost predicate Sourced(s: Stream, payloadType: byte, n: nat, wire: seq<byte>, f: Frame) {
    && s.WellFormed() && n < |s.plain| && wire == s.Wire(n)
    && Carries(s.plain[n], s.ssrc, payloadType % 128, (s.start + n) % 0x1_0000, f)
  }

  lemma DeliveredCarries(s: Stream, ds: seq<Delivery>, payloadType: byte, n: nat, wire: seq<byte>, f: Frame)
    requires Ready(s, ds, n) && Sourced(s, payloadType, n, wire, f)
    ensures Delivers(s, ds, payloadType, n, wire, f)
  {
    EndToEnd(s, ds, n);
  }

  /** The wire bytes of the n-th completed send on the SSRC. */
  function NthWireOf(cfg: Config, ops: seq<Op>, n: nat): seq<byte>
    requires n < Completed(ops, cfg.ssrc)
  {
    var j := NthSent(ops, cfg.ssrc, n);
    LiveIff(ops[..j], cfg.ssrc);
    var b := After(ops[..j]);
    CallWire(cfg, b.ctx, b.streams[cfg.ssrc].seqNo, ops[j].frame)
  }

  lemma NthWireIs(cfg: Config, ops: seq<Op>, start: u16, at: nat, n: nat, s: Stream)
    requires cfg.Valid() && AddedOnce(ops, cfg.ssrc, start, at) && n < Completed(ops, cfg.ssrc)
    requires InLimit(ops, cfg.ssrc) && start + Completed(ops, cfg.ssrc) <= INDEX_LIMIT && s == StreamOf(cfg, start, ops)
    ensures s.WellFormed() && NthWireOf(cfg, ops, n) == s.Wire(n)
  {
    TransmittedIsStream(cfg, ops, start, at, n);
  }

  lemma NthSourced(cfg: Config, payloadType: byte, ops: seq<Op>, start: u16, at: nat, n: nat, s: Stream)
    returns (wire: seq<byte>, f: Frame)
    requires cfg == RtpConfig(cfg.c, cfg.k, cfg.ssrc, payloadType) && s == StreamOf(cfg, start, ops)
    requires AddedOnce(ops, cfg.ssrc, start, at) && n < Completed(ops, cfg.ssrc)
    requires InLimit(ops, cfg.ssrc) && start + Completed(ops, cfg.ssrc) <= INDEX_LIMIT
    ensures wire == NthWireOf(cfg, ops, n) && f == ops[NthSent(ops, cfg.ssrc, n)].frame
    ensures Sourced(s, payloadType, n, wire, f)
  {
    RtpConfigValid(cfg.c, cfg.k, cfg.ssrc, payloadType);
    NthWireIs(cfg, ops, start, at, n, s);
    PlainCarries(cfg.c, cfg.k, cfg.ssrc, payloadType, start, ops, n);
    wire, f := NthWireOf(cfg, ops, n), ops[NthSent(ops, cfg.ssrc, n)].frame;
  }

  /** From payload to payload: among any other streams and over any admissible traffic, the receiver that accepts the
      packet of the n-th completed send decodes exactly that call's payload, marker and timestamp, under its own number,
      SSRC and payload type. */
  lemma PayloadArrives(cfg: Config, payloadType: byte, ops: seq<Op>, start: u16, at: nat, n: nat, s: Stream,
                       ds: seq<Delivery>)
    requires cfg == RtpConfig(cfg.c, cfg.k, cfg.ssrc, payloadType) && s == StreamOf(cfg, start, ops)
    requires AddedOnce(ops, cfg.ssrc, start, at) && n < Completed(ops, cfg.ssrc)
    requires InLimit(ops, cfg.ssrc) && start + Completed(ops, cfg.ssrc) <= INDEX_LIMIT && Ready(s, ds, n)
    ensures Delivers(s, ds, payloadType, n, NthWireOf(cfg, ops, n), ops[NthSent(ops, cfg.ssrc, n)].frame)
  {
    var wire, f := NthSourced(cfg, payloadType, ops, start, at, n, s);
    DeliveredCarries(s, ds, payloadType, n, wire, f);
  }
}
