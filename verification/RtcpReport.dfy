/** Report blocks, sender information, and the bodies of sender and receiver reports. */
module RtcpReport {
  import opened Bytes
  import opened RtcpTypes

  const LOST_MIN := -0x80_0000
  const LOST_MAX := 0x7F_FFFF

  // ---------- Report block ----------

  function Clamp(lost: i32): (c: i32)
    ensures LOST_MIN <= c <= LOST_MAX
  {
    if lost < LOST_MIN then LOST_MIN else if lost > LOST_MAX then LOST_MAX else lost
  }

  /** The low 24 bits in two's complement. */
  function Low24(x: i32): (r: nat)
    ensures r < 0x100_0000
  {
    x % 0x100_0000
  }

  function SignExtend(raw: nat): (x: i32)
    requires raw < 0x100_0000
    ensures LOST_MIN <= x <= LOST_MAX
  {
    if raw >= 0x80_0000 then raw - 0x100_0000 else raw
  }

  function Be24(x: nat): (s: seq<byte>)
    requires x < 0x100_0000
    ensures |s| == 3
  {
    [x / 0x1_0000, x / 0x100 % 0x100, x % 0x100]
  }

  function U24At(s: seq<byte>, i: nat): (x: nat)
    requires i + 3 <= |s|
    ensures x < 0x100_0000
  {
    s[i] as int * 0x1_0000 + s[i + 1] as int * 0x100 + s[i + 2]
  }

  function BlockBytes(b: ReportBlock): (s: seq<byte>)
    ensures |s| == 24
  {
    Be32(b.ssrc) +
    ([b.fractionLost] + (Be24(Low24(Clamp(b.cumulativeLost))) + Be32s([b.highestSeq, b.jitter, b.lsr, b.dlsr])))
  }

  /** The block at offset i, as the decoder reads it. */
  function BlockAt(s: seq<byte>, i: nat): ReportBlock
    requires i + 24 <= |s|
  {
    ReportBlock(U32At(s, i), s[i + 4], SignExtend(U24At(s, i + 5)),
                U32At(s, i + 8), U32At(s, i + 12), U32At(s, i + 16), U32At(s, i + 20))
  }

  /** What survives encoding: everything, with the loss count clamped to 24 bits. */
  function Clamped(b: ReportBlock): ReportBlock {
    b.(cumulativeLost := Clamp(b.cumulativeLost))
  }

  lemma Be24At(s: seq<byte>, i: nat, x: nat)
    requires x < 0x100_0000 && At(s, i, Be24(x))
    ensures U24At(s, i) == x
  {
    AtElement(s, i, Be24(x), 0);
    AtElement(s, i, Be24(x), 1);
    AtElement(s, i, Be24(x), 2);
    var y := x / 0x100;
    assert x == y * 0x100 + x % 0x100 && y == y / 0x100 * 0x100 + y % 0x100 && y / 0x100 == x / 0x1_0000;
  }

  lemma SignExtendLow24(x: i32)
    requires LOST_MIN <= x <= LOST_MAX
    ensures SignExtend(Low24(x)) == x
  {
    if x < 0 {
      assert x + 0x100_0000 == 1 * 0x100_0000 + x && x % 0x100_0000 == x + 0x100_0000;
    }
  }

  lemma FourWords(s: seq<byte>, i: nat, a: u32, b: u32, c: u32, d: u32)
    requires At(s, i, Be32s([a, b, c, d]))
    ensures U32At(s, i) == a && U32At(s, i + 4) == b && U32At(s, i + 8) == c && U32At(s, i + 12) == d
  {
    var words := [a, b, c, d];
    Be32sAt(s, i, words);
    WordsAt(s, i, 4);
    var read := U32sAt(s, i, 4);
    assert read == words;
    assert read[0] == a && read[1] == b && read[2] == c && read[3] == d;
  }

  lemma BlockDecoded(s: seq<byte>, i: nat, b: ReportBlock)
    requires At(s, i, BlockBytes(b))
    ensures BlockAt(s, i) == Clamped(b)
  {
    var lost, words := Be24(Low24(Clamp(b.cumulativeLost))), [b.highestSeq, b.jitter, b.lsr, b.dlsr];
    AtConcat(s, i, Be32(b.ssrc), [b.fractionLost] + (lost + Be32s(words)));
    AtConcat(s, i + 4, [b.fractionLost], lost + Be32s(words));
    AtConcat(s, i + 5, lost, Be32s(words));
    Be32At(s, i, b.ssrc);
    AtElement(s, i + 4, [b.fractionLost], 0);
    Be24At(s, i + 5, Low24(Clamp(b.cumulativeLost)));
    SignExtendLow24(Clamp(b.cumulativeLost));
    FourWords(s, i + 8, b.highestSeq, b.jitter, b.lsr, b.dlsr);
  }

  // ---------- Lists of blocks ----------

  function Blocks(bs: seq<ReportBlock>): (s: seq<byte>)
    ensures |s| == 24 * |bs|
  {
    if bs == [] then [] else Blocks(bs[..|bs| - 1]) + BlockBytes(bs[|bs| - 1])
  }

  function BlocksAt(s: seq<byte>, i: nat, n: nat): (bs: seq<ReportBlock>)
    requires i + 24 * n <= |s|
    ensures |bs| == n
  {
    if n == 0 then [] else BlocksAt(s, i, n - 1) + [BlockAt(s, i + 24 * (n - 1))]
  }

  function ClampedAll(bs: seq<ReportBlock>): (cs: seq<ReportBlock>)
    ensures |cs| == |bs| && forall k :: 0 <= k < |bs| ==> cs[k] == Clamped(bs[k])
  {
    seq(|bs|, k requires 0 <= k < |bs| => Clamped(bs[k]))
  }

  predicate InRange(bs: seq<ReportBlock>) {
    forall k :: 0 <= k < |bs| ==> LOST_MIN <= bs[k].cumulativeLost <= LOST_MAX
  }

  lemma {:induction false} BlocksDecoded(s: seq<byte>, i: nat, bs: seq<ReportBlock>)
    requires At(s, i, Blocks(bs))
    ensures BlocksAt(s, i, |bs|) == ClampedAll(bs)
  {
    if bs != [] {
      var n := |bs| - 1;
      AtConcat(s, i, Blocks(bs[..n]), BlockBytes(bs[n]));
      BlocksDecoded(s, i, bs[..n]);
      BlockDecoded(s, i + 24 * n, bs[n]);
    }
  }

  lemma ClampedIff(bs: seq<ReportBlock>)
    ensures ClampedAll(bs) == bs <==> InRange(bs)
  {
    if ClampedAll(bs) == bs {
      assert forall k :: 0 <= k < |bs| ==> bs[k] == ClampedAll(bs)[k];
    } else {
      var k :| 0 <= k < |bs| && ClampedAll(bs)[k] != bs[k];
    }
  }

  /** The loop that appends report blocks. */
  method AppendBlocks(buf: seq<byte>, reports: seq<ReportBlock>) returns (out: seq<byte>)
    ensures out == buf + Blocks(reports)
  {
    out := buf;
    for i := 0 to |reports|
      invariant out == buf + Blocks(reports[..i])
    {
      assert reports[..i + 1][..i] == reports[..i];
      out := AppendBlock(out, reports[i]);
      assert out == buf + Blocks(reports[..i + 1]);
    }
    assert reports[..|reports|] == reports;
  }

  method AppendBlock(buf: seq<byte>, b: ReportBlock) returns (out: seq<byte>)
    ensures out == buf + BlockBytes(b)
  {
    out := buf + Be32(b.ssrc);
    out := out + [b.fractionLost];
    var lost := Low24(Clamp(b.cumulativeLost));
    out := out + [lost / 0x1_0000 % 0x100];
    out := out + [lost / 0x100 % 0x100];
    out := out + [lost % 0x100];
    var words := [b.highestSeq, b.jitter, b.lsr, b.dlsr];
    out := out + Be32s(words);
    assert out == buf + (Be32(b.ssrc) + ([b.fractionLost] + (Be24(lost) + Be32s(words))));
  }

  /** The loop that reads rc report blocks from offset start on. */
  method ReadBlocks(payload: seq<byte>, start: nat, rc: nat) returns (r: Result<seq<ReportBlock>, RtcpError>)
    requires start <= |payload|
    ensures r == if |payload| < start + 24 * rc then Err(Truncated) else Ok(BlocksAt(payload, start, rc))
  {
    var reports, idx := [], start;
    for k := 0 to rc
      invariant idx == start + 24 * k <= |payload| && reports == BlocksAt(payload, start, k)
    {
      if |payload| < idx + 24 {
        return Err(Truncated);
      }
      reports := reports + [BlockAt(payload, idx)];
      idx := idx + 24;
    }
    return Ok(reports);
  }

  // ---------- Sender information ----------

  function InfoWords(x: SenderInfo): seq<u32> {
    [x.ntpHigh, x.ntpLow, x.rtpTs, x.packetCount, x.octetCount]
  }

  function InfoAt(s: seq<byte>, i: nat): SenderInfo
    requires i + 20 <= |s|
  {
    SenderInfo(U32At(s, i), U32At(s, i + 4), U32At(s, i + 8), U32At(s, i + 12), U32At(s, i + 16))
  }

  lemma InfoDecoded(s: seq<byte>, i: nat, x: SenderInfo)
    requires At(s, i, Be32s(InfoWords(x)))
    ensures InfoAt(s, i) == x
  {
    var w := InfoWords(x);
    Be32sAt(s, i, w);
    WordsAt(s, i, 5);
    assert U32sAt(s, i, 5) == w;
    assert U32At(s, i + 4 * 0) == w[0] && U32At(s, i + 4 * 1) == w[1] && U32At(s, i + 4 * 2) == w[2];
    assert U32At(s, i + 4 * 3) == w[3] && U32At(s, i + 4 * 4) == w[4];
  }

  // ---------- Bodies ----------

  function SrBody(ssrc: u32, info: SenderInfo, reports: seq<ReportBlock>, ext: seq<byte>): seq<byte> {
    Be32(ssrc) + (Be32s(InfoWords(info)) + (Blocks(reports) + ext))
  }

  function RrBody(ssrc: u32, reports: seq<ReportBlock>, ext: seq<byte>): seq<byte> {
    Be32(ssrc) + (Blocks(reports) + ext)
  }

  function DecodeSr(rc: nat, payload: seq<byte>): Result<RtcpPacket, RtcpError> {
    if |payload| < 24 then Err(TooShort)
    else if |payload| < 24 + 24 * rc then Err(Truncated)
    else Ok(Sr(U32At(payload, 0), InfoAt(payload, 4), BlocksAt(payload, 24, rc), payload[24 + 24 * rc..]))
  }

  function DecodeRr(rc: nat, payload: seq<byte>): Result<RtcpPacket, RtcpError> {
    if |payload| < 4 then Err(TooShort)
    else if |payload| < 4 + 24 * rc then Err(Truncated)
    else Ok(Rr(U32At(payload, 0), BlocksAt(payload, 4, rc), payload[4 + 24 * rc..]))
  }

  method ReadSr(rc: nat, payload: seq<byte>) returns (r: Result<RtcpPacket, RtcpError>)
    ensures r == DecodeSr(rc, payload)
  {
    if |payload| < 24 {
      return Err(TooShort);
    }
    var blocks := ReadBlocks(payload, 24, rc);
    if blocks.Err? {
      return Err(blocks.error);
    }
    return Ok(Sr(U32At(payload, 0), InfoAt(payload, 4), blocks.value, payload[24 + 24 * rc..]));
  }

  method ReadRr(rc: nat, payload: seq<byte>) returns (r: Result<RtcpPacket, RtcpError>)
    ensures r == DecodeRr(rc, payload)
  {
    if |payload| < 4 {
      return Err(TooShort);
    }
    var blocks := ReadBlocks(payload, 4, rc);
    if blocks.Err? {
      return Err(blocks.error);
    }
    return Ok(Rr(U32At(payload, 0), blocks.value, payload[4 + 24 * rc..]));
  }

  lemma {:induction false} SrDecodedAt(
    s: seq<byte>, ssrc: u32, info: SenderInfo, reports: seq<ReportBlock>, tail: seq<byte>)
    requires At(s, 0, Be32(ssrc)) && At(s, 4, Be32s(InfoWords(info))) && At(s, 24, Blocks(reports))
    requires 24 + 24 * |reports| <= |s| && s[24 + 24 * |reports|..] == tail
    ensures DecodeSr(|reports|, s) == Ok(Sr(ssrc, info, ClampedAll(reports), tail))
  {
    Be32At(s, 0, ssrc);
    InfoDecoded(s, 4, info);
    BlocksDecoded(s, 24, reports);
  }

  /** A sender report read back: the loss counts come back clamped, the extension with its padding. */
  lemma {:induction false} SrDecoded(
    ssrc: u32, info: SenderInfo, reports: seq<ReportBlock>, ext: seq<byte>, pad: seq<byte>)
    ensures DecodeSr(|reports|, SrBody(ssrc, info, reports, ext) + pad) ==
      Ok(Sr(ssrc, info, ClampedAll(reports), ext + pad))
  {
    var (a, b, c) := (Be32(ssrc), Be32s(InfoWords(info)), Blocks(reports));
    var s := a + (b + (c + (ext + pad)));
    assert SrBody(ssrc, info, reports, ext) + pad == s;
    AtParts(a, b, c + (ext + pad));
    AtConcat(s, 24, c, ext + pad);
    SrDecodedAt(s, ssrc, info, reports, ext + pad);
  }

  lemma {:induction false} RrDecodedAt(s: seq<byte>, ssrc: u32, reports: seq<ReportBlock>, tail: seq<byte>)
    requires At(s, 0, Be32(ssrc)) && At(s, 4, Blocks(reports))
    requires 4 + 24 * |reports| <= |s| && s[4 + 24 * |reports|..] == tail
    ensures DecodeRr(|reports|, s) == Ok(Rr(ssrc, ClampedAll(reports), tail))
  {
    Be32At(s, 0, ssrc);
    BlocksDecoded(s, 4, reports);
  }

  lemma {:induction false} RrDecoded(ssrc: u32, reports: seq<ReportBlock>, ext: seq<byte>, pad: seq<byte>)
    ensures DecodeRr(|reports|, RrBody(ssrc, reports, ext) + pad) == Ok(Rr(ssrc, ClampedAll(reports), ext + pad))
  {
    var (a, b) := (Be32(ssrc), Blocks(reports));
    var s := a + (b + (ext + pad));
    assert RrBody(ssrc, reports, ext) + pad == s;
    AtParts(a, b, ext + pad);
    RrDecodedAt(s, ssrc, reports, ext + pad);
  }
}
