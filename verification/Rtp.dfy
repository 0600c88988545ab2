/**
 RTP packets and their wire format (section 5.1 of RFC 3550).
 */
module Rtp {
  import opened Bytes

  const RTP_VERSION := 2

  datatype HeaderExtension = HeaderExtension(profile: u16, data: seq<byte>)

  datatype RtpHeader = RtpHeader(
    version: byte, padding: bool, extension: bool, marker: bool, payloadType: byte,
    seqNo: u16, timestamp: u32, ssrc: u32, csrcs: seq<u32>, ext: Option<HeaderExtension>)

  /** `payload` excludes the trailing padding, of which `paddingBytes` is the count. */
  datatype RtpPacket = RtpPacket(header: RtpHeader, payload: seq<byte>, paddingBytes: byte)

  datatype RtpError =
    | TooShort
    | BadVersion(version: byte)
    | CsrcCountMismatch(expected: nat, bufLeft: nat)
    | HeaderExtensionTooShort
    | HeaderExtensionTooLong
    | PaddingTooShort

  function Simple(payloadType: byte, marker: bool, seqNo: u16, ts: u32, ssrc: u32, payload: seq<byte>): RtpPacket {
    RtpPacket(RtpHeader(RTP_VERSION, false, false, marker, payloadType, seqNo, ts, ssrc, [], None), payload, 0)
  }

  // ---- encoding ----------------------------------------------------------

  function Flag(b: bool): int {
    if b then 1 else 0
  }

  function FlagByte(version: byte, hasPad: bool, hasExt: bool, csrcs: nat): byte {
    version % 4 * 64 + Flag(hasPad) * 32 + Flag(hasExt) * 16 + csrcs % 16
  }

  /** The twelve fixed bytes; the P and X bits and the CSRC count come from the content, not the flags. */
  function FixedBytes(h: RtpHeader, hasPad: bool): (s: seq<byte>)
    ensures |s| == 12
  {
    [FlagByte(h.version, hasPad, h.ext.Some?, |h.csrcs|), Flag(h.marker) * 128 + h.payloadType % 128]
    + (Be16(h.seqNo) + (Be32(h.timestamp) + Be32(h.ssrc)))
  }

  /** Words of extension data, as the source's cast to 32 bits leaves them. */
  function ExtWords(data: seq<byte>): u32 {
    (|data| + 3) / 4 % 0x1_0000_0000
  }

  function ExtBytes(ext: HeaderExtension): seq<byte>
    requires ExtWords(ext.data) < 0x1_0000
  {
    Be16(ext.profile) + (Be16(ExtWords(ext.data)) + (ext.data + Repeat(0, (4 - |ext.data| % 4) % 4)))
  }

  function Trailer(paddingBytes: byte): seq<byte> {
    if paddingBytes == 0 then [] else Repeat(0, paddingBytes - 1) + [paddingBytes]
  }

  predicate ExtTooLong(h: RtpHeader) {
    h.ext.Some? && ExtWords(h.ext.value.data) >= 0x1_0000
  }

  function ExtPart(h: RtpHeader): seq<byte>
    requires !ExtTooLong(h)
  {
    if h.ext.Some? then ExtBytes(h.ext.value) else []
  }

  /** Everything after the CSRC list. */
  function Tail(p: RtpPacket): seq<byte>
    requires !ExtTooLong(p.header)
  {
    ExtPart(p.header) + (p.payload + Trailer(p.paddingBytes))
  }

  function Encode(p: RtpPacket): Result<seq<byte>, RtpError> {
    if ExtTooLong(p.header) then Err(HeaderExtensionTooLong)
    else Ok(FixedBytes(p.header, p.paddingBytes > 0) + (Be32s(p.header.csrcs) + Tail(p)))
  }

  method EncodePacket(p: RtpPacket) returns (r: Result<seq<byte>, RtpError>)
    ensures r == Encode(p)
  {
    var h := p.header;
    var out := EncodeFixed(h, p.paddingBytes > 0);
    ghost var fixed := FixedBytes(h, p.paddingBytes > 0);
    for i := 0 to |h.csrcs|
      invariant out == fixed + Be32s(h.csrcs[..i])
    {
      assert h.csrcs[..i + 1][..i] == h.csrcs[..i];
      out := out + Be32(h.csrcs[i]);
    }
    assert h.csrcs[..|h.csrcs|] == h.csrcs;
    r := AppendTail(out, p);
    if r.Ok? { assert r.value == fixed + (Be32s(h.csrcs) + Tail(p)); }
  }

  method AppendTail(buf: seq<byte>, p: RtpPacket) returns (r: Result<seq<byte>, RtpError>)
    ensures r == if ExtTooLong(p.header) then Err(HeaderExtensionTooLong) else Ok(buf + Tail(p))
  {
    var out := buf;
    if p.header.ext.Some? {
      var withExt := AppendExtension(out, p.header.ext.value);
      if withExt.Err? {
        return withExt;
      }
      out := withExt.value;
    }
    out := out + p.payload;
    out := AppendTrailer(out, p.paddingBytes);
    assert out == buf + Tail(p);
    return Ok(out);
  }

  method EncodeFixed(h: RtpHeader, hasPad: bool) returns (out: seq<byte>)
    ensures out == FixedBytes(h, hasPad)
  {
    var cc := |h.csrcs| % 16;
    var vpxcc := h.version % 4 * 64 + Flag(hasPad) * 32 + Flag(h.ext.Some?) * 16 + cc;
    assert vpxcc == FlagByte(h.version, hasPad, h.ext.Some?, |h.csrcs|);
    var mPt := Flag(h.marker) * 128 + h.payloadType % 128;
    out := [vpxcc];
    out := out + [mPt];
    out := out + Be16(h.seqNo);
    out := out + Be32(h.timestamp);
    out := out + Be32(h.ssrc);
  }

  method AppendExtension(buf: seq<byte>, ext: HeaderExtension) returns (r: Result<seq<byte>, RtpError>)
    ensures r == if ExtWords(ext.data) >= 0x1_0000 then Err(HeaderExtensionTooLong) else Ok(buf + ExtBytes(ext))
  {
    var words := ExtWords(ext.data);
    if words > 0xFFFF {
      return Err(HeaderExtensionTooLong);
    }
    var out := buf + Be16(ext.profile);
    out := out + Be16(words);
    out := out + ext.data;
    var pad := (4 - |ext.data| % 4) % 4;
    if pad != 0 {
      out := out + Repeat(0, pad);
    }
    assert out == buf + ExtBytes(ext);
    return Ok(out);
  }

  method AppendTrailer(buf: seq<byte>, paddingBytes: byte) returns (out: seq<byte>)
    ensures out == buf + Trailer(paddingBytes)
  {
    out := buf;
    if paddingBytes > 0 {
      if paddingBytes > 1 {
        out := out + Repeat(0, paddingBytes - 1);
      }
      out := out + [paddingBytes];
    }
  }

  // ---- decoding ----------------------------------------------------------

  /** The fixed header fields, before the CSRC list and the extension are read. */
  function FixedFields(b: seq<byte>): RtpHeader
    requires |b| >= 12
  {
    RtpHeader(b[0] / 64, b[0] / 32 % 2 == 1, b[0] / 16 % 2 == 1, b[1] / 128 != 0, b[1] % 128,
              U16At(b, 2), U32At(b, 4), U32At(b, 8), [], None)
  }

  /** The extension at offset `idx`, if the X bit announces one. */
  function DecodeExt(buf: seq<byte>, idx: nat, extension: bool): (r: Result<Option<HeaderExtension>, RtpError>)
    requires idx <= |buf|
    ensures r.Ok? ==> idx + ExtSize(r.value) <= |buf|
  {
    if !extension then Ok(None)
    else if |buf| < idx + 4 then Err(HeaderExtensionTooShort)
    else
      var len := U16At(buf, idx + 2) * 4;
      if |buf| < idx + 4 + len then Err(HeaderExtensionTooShort)
      else Ok(Some(HeaderExtension(U16At(buf, idx), buf[idx + 4..idx + 4 + len])))
  }

  function ExtSize(ext: Option<HeaderExtension>): nat {
    if ext.Some? then 4 + |ext.value.data| else 0
  }

  /** Payload and padding count of what follows the header. */
  function DecodeBody(buf: seq<byte>, idx: nat, padding: bool): Result<(seq<byte>, byte), RtpError>
    requires idx <= |buf|
  {
    if !padding then Ok((buf[idx..], 0))
    else if |buf| == idx then Err(PaddingTooShort)
    else
      var pad := buf[|buf| - 1];
      if pad == 0 || pad > |buf| - idx then Err(PaddingTooShort)
      else Ok((buf[idx..|buf| - pad], pad))
  }

  /** Extension, payload and padding, once the fixed fields and CSRCs are known. */
  function DecodeTail(h: RtpHeader, buf: seq<byte>, idx: nat): Result<RtpPacket, RtpError>
    requires idx <= |buf|
  {
    var ext := DecodeExt(buf, idx, h.extension);
    if ext.Err? then Err(ext.error)
    else
      var body := DecodeBody(buf, idx + ExtSize(ext.value), h.padding);
      if body.Err? then Err(body.error)
      else Ok(RtpPacket(h.(ext := ext.value), body.value.0, body.value.1))
  }

  function Decode(buf: seq<byte>): Result<RtpPacket, RtpError> {
    if |buf| < 12 then Err(TooShort)
    else if buf[0] / 64 != RTP_VERSION then Err(BadVersion(buf[0] / 64))
    else
      var cc := buf[0] % 16;
      if |buf| < 12 + cc * 4 then Err(CsrcCountMismatch(cc, |buf| - 12))
      else DecodeTail(FixedFields(buf).(csrcs := U32sAt(buf, 12, cc)), buf, 12 + cc * 4)
  }

  method DecodePacket(buf: seq<byte>) returns (r: Result<RtpPacket, RtpError>)
    ensures r == Decode(buf)
  {
    if |buf| < 12 {
      return Err(TooShort);
    }
    var version := buf[0] / 64;
    if version != RTP_VERSION {
      return Err(BadVersion(version));
    }
    var cc := buf[0] % 16;
    var idx: int := 12;
    if |buf| < idx + cc * 4 {
      return Err(CsrcCountMismatch(cc, |buf| - idx));
    }
    var csrcs: seq<u32> := [];
    for i := 0 to cc
      invariant idx == 12 + 4 * i && csrcs == U32sAt(buf, 12, i)
    {
      csrcs := csrcs + [U32At(buf, idx)];
      idx := idx + 4;
    }
    r := DecodeFrom(FixedFields(buf).(csrcs := csrcs), buf, idx);
  }

  /** The rest of the decoder, from offset `start` on. */
  method DecodeFrom(header: RtpHeader, buf: seq<byte>, start: nat) returns (r: Result<RtpPacket, RtpError>)
    requires start <= |buf|
    ensures r == DecodeTail(header, buf, start)
  {
    var idx: int := start;
    var ext: Option<HeaderExtension> := None;
    if header.extension {
      if |buf| < idx + 4 {
        return Err(HeaderExtensionTooShort);
      }
      var profile := U16At(buf, idx);
      var extLen: int := U16At(buf, idx + 2) as int * 4;
      idx := idx + 4;
      if |buf| < idx + extLen {
        return Err(HeaderExtensionTooShort);
      }
      ext := Some(HeaderExtension(profile, buf[idx..idx + extLen]));
      idx := idx + extLen;
    }
    var payloadEnd := |buf|;
    var paddingBytes: byte := 0;
    if header.padding {
      if payloadEnd == idx {
        return Err(PaddingTooShort);
      }
      var pad := buf[payloadEnd - 1];
      if pad == 0 || pad > payloadEnd - idx {
        return Err(PaddingTooShort);
      }
      paddingBytes := pad;
      payloadEnd := payloadEnd - pad;
    }
    assert buf[idx..|buf|] == buf[idx..];
    return Ok(RtpPacket(header.(ext := ext), buf[idx..payloadEnd], paddingBytes));
  }

  // ---- decode undoes encode, on exactly the packets in normal form --------

  /** Flags agree with the content, and every field fits the bits it has on the wire. */
  predicate NormalForm(p: RtpPacket) {
    var h := p.header;
    && h.version == RTP_VERSION && h.payloadType < 128 && |h.csrcs| < 16
    && (h.padding <==> p.paddingBytes > 0)
    && (h.extension <==> h.ext.Some?)
    && (h.ext.Some? ==> |h.ext.value.data| % 4 == 0 && |h.ext.value.data| / 4 < 0x1_0000)
  }

  lemma FlagByteBits(hasPad: bool, hasExt: bool, csrcs: nat)
    requires csrcs < 16
    ensures var b := FlagByte(RTP_VERSION, hasPad, hasExt, csrcs);
            b / 64 == RTP_VERSION && (b / 32 % 2 == 1 <==> hasPad) && (b / 16 % 2 == 1 <==> hasExt) && b % 16 == csrcs
  {
    assert FlagByte(RTP_VERSION, hasPad, hasExt, csrcs) == 128 + Flag(hasPad) * 32 + Flag(hasExt) * 16 + csrcs;
  }

  lemma FlagByteOfBits(b: byte)
    ensures FlagByte(b / 64, b / 32 % 2 == 1, b / 16 % 2 == 1, b % 16) == b
  {
  }

  lemma FixedRoundTrip(h: RtpHeader, buf: seq<byte>)
    requires h.version == RTP_VERSION && h.payloadType < 128 && |h.csrcs| < 16
    requires h.extension <==> h.ext.Some?
    requires At(buf, 0, FixedBytes(h, h.padding))
    ensures FixedFields(buf) == h.(csrcs := [], ext := None)
    ensures buf[0] % 16 == |h.csrcs|
  {
    var b := FixedBytes(h, h.padding);
    AtConcat(buf, 0, b[..2], Be16(h.seqNo) + (Be32(h.timestamp) + Be32(h.ssrc)));
    AtConcat(buf, 2, Be16(h.seqNo), Be32(h.timestamp) + Be32(h.ssrc));
    AtConcat(buf, 4, Be32(h.timestamp), Be32(h.ssrc));
    FlagByteBits(h.padding, h.extension, |h.csrcs|);
    AtElement(buf, 0, b, 0);
    AtElement(buf, 0, b, 1);
    Be16At(buf, 2, h.seqNo);
    Be32At(buf, 4, h.timestamp);
    Be32At(buf, 8, h.ssrc);
  }

  lemma ExtRoundTrip(ext: HeaderExtension, buf: seq<byte>, idx: nat)
    requires |ext.data| % 4 == 0 && |ext.data| / 4 < 0x1_0000
    requires At(buf, idx, ExtBytes(ext))
    ensures |ExtBytes(ext)| == 4 + |ext.data|
    ensures DecodeExt(buf, idx, true) == Ok(Some(ext))
  {
    var words := |ext.data| / 4;
    WholeWords(|ext.data|, words);
    ExtParts(buf, idx, Be16(ext.profile), Be16(words), ext.data, Repeat(0, 0));
    Be16At(buf, idx, ext.profile);
    Be16At(buf, idx + 2, words);
  }

  lemma ExtParts(buf: seq<byte>, idx: nat, profile: seq<byte>, words: seq<byte>, data: seq<byte>, none: seq<byte>)
    requires |profile| == |words| == 2 && none == [] && At(buf, idx, profile + (words + (data + none)))
    ensures At(buf, idx, profile) && At(buf, idx + 2, words) && At(buf, idx + 4, data)
  {
    assert data + none == data;
    AtConcat(buf, idx, profile, words + data);
    AtConcat(buf, idx + 2, words, data);
  }

  lemma BodyRoundTrip(payload: seq<byte>, paddingBytes: byte, buf: seq<byte>, idx: nat)
    requires At(buf, idx, payload + Trailer(paddingBytes)) && |buf| == idx + |payload| + |Trailer(paddingBytes)|
    ensures DecodeBody(buf, idx, paddingBytes > 0) == Ok((payload, paddingBytes))
  {
    AtConcat(buf, idx, payload, Trailer(paddingBytes));
    if paddingBytes > 0 {
      AtElement(buf, idx + |payload|, Trailer(paddingBytes), paddingBytes - 1);
    } else {
      assert buf[idx..] == buf[idx..idx + |payload|];
    }
  }

  lemma TailRoundTrip(p: RtpPacket, buf: seq<byte>, idx: nat)
    requires NormalForm(p) && At(buf, idx, Tail(p)) && |buf| == idx + |Tail(p)|
    ensures DecodeTail(p.header.(ext := None), buf, idx) == Ok(p)
  {
    var h, body := p.header, p.payload + Trailer(p.paddingBytes);
    AtConcat(buf, idx, ExtPart(h), body);
    ExtPartRoundTrip(h, buf, idx);
    BodyRoundTrip(p.payload, p.paddingBytes, buf, idx + ExtSize(h.ext));
    TailFromParts(p, buf, idx);
  }

  lemma ExtPartRoundTrip(h: RtpHeader, buf: seq<byte>, idx: nat)
    requires h.extension <==> h.ext.Some?
    requires h.ext.Some? ==> |h.ext.value.data| % 4 == 0 && |h.ext.value.data| / 4 < 0x1_0000
    requires !ExtTooLong(h) && At(buf, idx, ExtPart(h))
    ensures |ExtPart(h)| == ExtSize(h.ext) && DecodeExt(buf, idx, h.extension) == Ok(h.ext)
  {
    if h.ext.Some? { ExtRoundTrip(h.ext.value, buf, idx); }
  }

  lemma TailFromParts(p: RtpPacket, buf: seq<byte>, idx: nat)
    requires idx + ExtSize(p.header.ext) <= |buf| && (p.header.padding <==> p.paddingBytes > 0)
    requires DecodeExt(buf, idx, p.header.extension) == Ok(p.header.ext)
    requires DecodeBody(buf, idx + ExtSize(p.header.ext), p.paddingBytes > 0) == Ok((p.payload, p.paddingBytes))
    ensures DecodeTail(p.header.(ext := None), buf, idx) == Ok(p)
  {
  }

  lemma DecodeFromParts(p: RtpPacket, buf: seq<byte>)
    requires NormalForm(p) && |buf| >= 12 + 4 * |p.header.csrcs|
    requires FixedFields(buf) == p.header.(csrcs := [], ext := None) && buf[0] % 16 == |p.header.csrcs|
    requires U32sAt(buf, 12, |p.header.csrcs|) == p.header.csrcs
    requires DecodeTail(p.header.(ext := None), buf, 12 + 4 * |p.header.csrcs|) == Ok(p)
    ensures Decode(buf) == Ok(p)
  {
  }

  lemma DecodeUndoesEncode(p: RtpPacket)
    requires NormalForm(p)
    ensures Encode(p).Ok? && Decode(Encode(p).value) == Ok(p)
  {
    var h := p.header;
    var fixed, csrcs, tail := FixedBytes(h, h.padding), Be32s(h.csrcs), Tail(p);
    EncodeNormal(p);
    AtParts(fixed, csrcs, tail);
    PartsDecode(p, fixed + (csrcs + tail));
  }

  lemma EncodeNormal(p: RtpPacket)
    requires NormalForm(p)
    ensures Encode(p) == Ok(FixedBytes(p.header, p.header.padding) + (Be32s(p.header.csrcs) + Tail(p)))
  {
  }

  lemma PartsDecode(p: RtpPacket, buf: seq<byte>)
    requires NormalForm(p) && At(buf, 0, FixedBytes(p.header, p.header.padding)) && At(buf, 12, Be32s(p.header.csrcs))
    requires At(buf, 12 + 4 * |p.header.csrcs|, Tail(p)) && |buf| == 12 + 4 * |p.header.csrcs| + |Tail(p)|
    ensures Decode(buf) == Ok(p)
  {
    var h := p.header;
    FixedRoundTrip(h, buf);
    Be32sAt(buf, 12, h.csrcs);
    TailRoundTrip(p, buf, 12 + 4 * |h.csrcs|);
    DecodeFromParts(p, buf);
  }

  /** Whatever `decode` accepts is in normal form. */
  lemma DecodeIsNormal(buf: seq<byte>)
    ensures Decode(buf).Ok? ==> NormalForm(Decode(buf).value)
  {
  }

  /** The round trip holds for a packet if and only if it is in normal form. */
  lemma RoundTripIffNormal(p: RtpPacket)
    ensures NormalForm(p) <==> Encode(p).Ok? && Decode(Encode(p).value) == Ok(p)
  {
    if NormalForm(p) { DecodeUndoesEncode(p); }
    else if Encode(p).Ok? { DecodeIsNormal(Encode(p).value); }
  }

  // ---- encode undoes decode, up to the filler inside the padding -----------

  /** Offset of the payload in an accepted buffer. */
  function PayloadStart(h: RtpHeader): nat {
    12 + 4 * |h.csrcs| + ExtSize(h.ext)
  }

  lemma FixedEncoded(buf: seq<byte>, h: RtpHeader)
    requires |buf| >= 12 && h.(csrcs := [], ext := None) == FixedFields(buf)
    requires |h.csrcs| == buf[0] % 16 && (h.extension <==> h.ext.Some?)
    ensures At(buf, 0, FixedBytes(h, h.padding))
  {
    FlagByteOfBits(buf[0]);
    FixedLayout(buf);
  }

  lemma FixedLayout(buf: seq<byte>)
    requires |buf| >= 12
    ensures At(buf, 0, [buf[0], buf[1]] + (Be16(U16At(buf, 2)) + (Be32(U32At(buf, 4)) + Be32(U32At(buf, 8)))))
  {
    var seqNo, timestamp, ssrc := Be16(U16At(buf, 2)), Be32(U32At(buf, 4)), Be32(U32At(buf, 8));
    U16Encoded(buf, 2);
    U32Encoded(buf, 4);
    U32Encoded(buf, 8);
    FourParts(buf, [buf[0], buf[1]], seqNo, timestamp, ssrc);
  }

  lemma FourParts(buf: seq<byte>, a: seq<byte>, b: seq<byte>, c: seq<byte>, d: seq<byte>)
    requires At(buf, 0, a) && At(buf, |a|, b) && At(buf, |a| + |b|, c) && At(buf, |a| + |b| + |c|, d)
    ensures At(buf, 0, a + (b + (c + d)))
  {
    AtConcat(buf, |a| + |b|, c, d);
    AtConcat(buf, |a|, b, c + d);
    AtConcat(buf, 0, a, b + (c + d));
  }

  lemma ExtEncoded(buf: seq<byte>, idx: nat)
    requires idx <= |buf| && DecodeExt(buf, idx, true).Ok?
    ensures var ext := DecodeExt(buf, idx, true).value.value;
            ExtWords(ext.data) < 0x1_0000 && At(buf, idx, ExtBytes(ext)) && |ExtBytes(ext)| == 4 + |ext.data|
  {
    var ext, words := DecodeExt(buf, idx, true).value.value, U16At(buf, idx + 2);
    U16Encoded(buf, idx);
    U16Encoded(buf, idx + 2);
    WholeWords(|ext.data|, words);
    ExtLayout(buf, idx, Be16(ext.profile), Be16(words), ext.data, Repeat(0, 0));
  }

  lemma WholeWords(n: nat, words: u16)
    requires n == 4 * words
    ensures (n + 3) / 4 % 0x1_0000_0000 == words && (4 - n % 4) % 4 == 0
  {
  }

  lemma ExtLayout(buf: seq<byte>, idx: nat, profile: seq<byte>, words: seq<byte>, data: seq<byte>, none: seq<byte>)
    requires |profile| == |words| == 2 && none == []
    requires At(buf, idx, profile) && At(buf, idx + 2, words) && At(buf, idx + 4, data)
    ensures At(buf, idx, profile + (words + (data + none)))
  {
    assert data + none == data;
    AtConcat(buf, idx + 2, words, data);
    AtConcat(buf, idx, profile, words + data);
  }

  /** The payload `decode` returns starts where the header ends. */
  lemma TailOfAccepted(h: RtpHeader, buf: seq<byte>, idx: nat)
    requires idx <= |buf| && DecodeTail(h, buf, idx).Ok?
    ensures var p := DecodeTail(h, buf, idx).value;
            p.header == h.(ext := p.header.ext) && (p.header.ext.Some? <==> h.extension) &&
            idx + ExtSize(p.header.ext) + |p.payload| + p.paddingBytes == |buf| &&
            At(buf, idx + ExtSize(p.header.ext), p.payload) &&
            (p.header.ext.Some? ==> DecodeExt(buf, idx, true) == Ok(p.header.ext))
  {
  }

  /** The header and payload of an accepted buffer stand encoded at its front. */
  lemma HeadOfAccepted(buf: seq<byte>)
    requires Decode(buf).Ok?
    ensures var h := Decode(buf).value.header;
            At(buf, 0, FixedBytes(h, h.padding)) && At(buf, 12, Be32s(h.csrcs))
  {
    var cc := buf[0] % 16;
    var h := FixedFields(buf).(csrcs := U32sAt(buf, 12, cc));
    TailOfAccepted(h, buf, 12 + 4 * cc);
    FixedEncoded(buf, Decode(buf).value.header);
    U32sEncoded(buf, 12, cc);
  }

  lemma PayloadOfAccepted(buf: seq<byte>)
    requires Decode(buf).Ok?
    ensures var p := Decode(buf).value; var h := p.header;
            !ExtTooLong(h) && PayloadStart(h) + |p.payload| + p.paddingBytes == |buf| &&
            At(buf, 12 + 4 * |h.csrcs|, ExtPart(h)) && |ExtPart(h)| == ExtSize(h.ext) &&
            At(buf, PayloadStart(h), p.payload)
  {
    var cc := buf[0] % 16;
    var h := FixedFields(buf).(csrcs := U32sAt(buf, 12, cc));
    TailOfAccepted(h, buf, 12 + 4 * cc);
    if h.extension { ExtEncoded(buf, 12 + 4 * cc); }
  }

  lemma JoinParts(buf: seq<byte>, a: seq<byte>, b: seq<byte>, c: seq<byte>, d: seq<byte>, e: seq<byte>)
    requires At(buf, 0, a) && At(buf, |a|, b) && At(buf, |a| + |b|, c) && At(buf, |a| + |b| + |c|, d)
    ensures a + (b + (c + (d + e))) == buf[..|a| + |b| + |c| + |d|] + e
  {
    AtConcat(buf, |a| + |b|, c, d);
    AtConcat(buf, |a|, b, c + d);
    AtConcat(buf, 0, a, b + (c + d));
    assert a + (b + (c + (d + e))) == (a + (b + (c + d))) + e;
  }

  /** Re-encoding an accepted buffer gives it back, with the padding filler set to zero. */
  lemma EncodeUndoesDecode(buf: seq<byte>)
    requires Decode(buf).Ok?
    ensures var p := Decode(buf).value;
            Encode(p) == Ok(buf[..|buf| - p.paddingBytes] + Trailer(p.paddingBytes))
  {
    HeadOfAccepted(buf);
    PayloadOfAccepted(buf);
    DecodeIsNormal(buf);
    var p := Decode(buf).value;
    var h := p.header;
    JoinParts(buf, FixedBytes(h, h.padding), Be32s(h.csrcs), ExtPart(h), p.payload, Trailer(p.paddingBytes));
  }
}
