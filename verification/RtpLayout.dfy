/** What stands where in an encoded RTP packet (section 5.1 of RFC 3550). */
module RtpLayout {
  import AppProtocol
  import opened Bytes
  import opened Rtp

  /** The twelve fixed bytes; padding and extension are announced where there are any, whatever the flags say. */
  predicate FixedLaid(p: RtpPacket, s: seq<byte>) {
    var h := p.header;
    && |s| >= 12
    && s[0] == h.version % 4 * 64 + (if p.paddingBytes > 0 then 32 else 0) + (if h.ext.Some? then 16 else 0) +
               |h.csrcs| % 16
    && s[1] == (if h.marker then 128 else 0) + h.payloadType % 128
    && s[2] as int * 256 + s[3] == h.seqNo && U32At(s, 4) == h.timestamp && U32At(s, 8) == h.ssrc
  }

  predicate SourcesLaid(s: seq<byte>, csrcs: seq<u32>) {
    12 + 4 * |csrcs| <= |s| && forall k :: 0 <= k < |csrcs| ==> U32At(s, 12 + 4 * k) == csrcs[k]
  }

  predicate ZeroFrom(s: seq<byte>, i: nat, j: nat) {
    j <= |s| && forall x :: i <= x < j ==> s[x] == 0
  }

  /** The extension with its data filled up to whole words. */
  function ExtensionSize(ext: Option<HeaderExtension>): nat {
    if ext.Some? then 4 + (|ext.value.data| + 3) / 4 * 4 else 0
  }

  /** Profile, number of words, data and zeros. */
  predicate ExtensionLaid(s: seq<byte>, i: nat, ext: HeaderExtension) {
    var n := |ext.data|;
    && i + 4 + n <= |s| && U16At(s, i) == ext.profile && U16At(s, i + 2) == (n + 3) / 4 % 0x1_0000_0000
    && s[i + 4..i + 4 + n] == ext.data && ZeroFrom(s, i + 4 + n, i + 4 + (n + 3) / 4 * 4)
  }

  /** The payload, and behind it zeros with the number of padding bytes as the last of them. */
  predicate PayloadLaid(s: seq<byte>, i: nat, payload: seq<byte>, pad: byte) {
    && |s| == i + |payload| + pad && s[i..i + |payload|] == payload
    && ZeroFrom(s, i + |payload|, if pad > 0 then |s| - 1 else |s|) && (pad > 0 ==> s[|s| - 1] == pad)
  }

  predicate Laid(p: RtpPacket, s: seq<byte>) {
    var h := p.header;
    var i := 12 + 4 * |h.csrcs|;
    && FixedLaid(p, s) && SourcesLaid(s, h.csrcs) && (h.ext.Some? ==> ExtensionLaid(s, i, h.ext.value))
    && PayloadLaid(s, i + ExtensionSize(h.ext), p.payload, p.paddingBytes)
  }

  lemma HeaderLaid(p: RtpPacket, s: seq<byte>)
    requires At(s, 0, FixedBytes(p.header, p.paddingBytes > 0))
    ensures FixedLaid(p, s)
  {
    var h := p.header;
    var b := FixedBytes(h, p.paddingBytes > 0);
    AtConcat(s, 0, b[..2], Be16(h.seqNo) + (Be32(h.timestamp) + Be32(h.ssrc)));
    AtConcat(s, 2, Be16(h.seqNo), Be32(h.timestamp) + Be32(h.ssrc));
    AtConcat(s, 4, Be32(h.timestamp), Be32(h.ssrc));
    AtElement(s, 0, b, 0);
    AtElement(s, 0, b, 1);
    Be16At(s, 2, h.seqNo);
    Be32At(s, 4, h.timestamp);
    Be32At(s, 8, h.ssrc);
  }

  lemma CsrcsLaid(s: seq<byte>, csrcs: seq<u32>)
    requires At(s, 12, Be32s(csrcs))
    ensures SourcesLaid(s, csrcs)
  {
    Be32sAt(s, 12, csrcs);
    WordsAt(s, 12, |csrcs|);
  }

  lemma ZerosLaid(s: seq<byte>, i: nat, n: nat)
    requires At(s, i, Repeat(0, n))
    ensures ZeroFrom(s, i, i + n)
  {
    forall x | i <= x < i + n ensures s[x] == 0 {
      AtElement(s, i, Repeat(0, n), x - i);
    }
  }

  lemma RoundUp(n: nat)
    ensures n + (4 - n % 4) % 4 == (n + 3) / 4 * 4
  {
  }

  lemma OneExtensionLaid(s: seq<byte>, i: nat, ext: HeaderExtension)
    requires ExtWords(ext.data) < 0x1_0000 && At(s, i, ExtBytes(ext))
    ensures ExtensionLaid(s, i, ext)
  {
    var (n, words) := (|ext.data|, ExtWords(ext.data));
    var fill := Repeat(0, (4 - n % 4) % 4);
    AtConcat(s, i, Be16(ext.profile), Be16(words) + (ext.data + fill));
    AtConcat(s, i + 2, Be16(words), ext.data + fill);
    AtConcat(s, i + 4, ext.data, fill);
    Be16At(s, i, ext.profile);
    Be16At(s, i + 2, words);
    RoundUp(n);
    ZerosLaid(s, i + 4 + n, (4 - n % 4) % 4);
  }

  lemma ExtensionBytes(ext: HeaderExtension)
    requires ExtWords(ext.data) < 0x1_0000
    ensures |ExtBytes(ext)| == 4 + (|ext.data| + 3) / 4 * 4
  {
    RoundUp(|ext.data|);
  }

  lemma PayloadThenPad(s: seq<byte>, i: nat, payload: seq<byte>, pad: byte)
    requires At(s, i, payload + Trailer(pad)) && |s| == i + |payload| + |Trailer(pad)|
    ensures PayloadLaid(s, i, payload, pad)
  {
    AtConcat(s, i, payload, Trailer(pad));
    if pad > 0 {
      var j := i + |payload|;
      AtConcat(s, j, Repeat(0, pad - 1), [pad]);
      ZerosLaid(s, j, pad - 1);
      AtElement(s, j + pad - 1, [pad], 0);
    }
  }

  lemma TailLaid(p: RtpPacket, s: seq<byte>, i: nat)
    requires !ExtTooLong(p.header) && At(s, i, Tail(p)) && |s| == i + |Tail(p)|
    ensures p.header.ext.Some? ==> ExtensionLaid(s, i, p.header.ext.value)
    ensures PayloadLaid(s, i + ExtensionSize(p.header.ext), p.payload, p.paddingBytes)
  {
    var (ext, body) := (ExtPart(p.header), p.payload + Trailer(p.paddingBytes));
    AtConcat(s, i, ext, body);
    if p.header.ext.Some? {
      OneExtensionLaid(s, i, p.header.ext.value);
      ExtensionBytes(p.header.ext.value);
    }
    assert |ext| == ExtensionSize(p.header.ext);
    PayloadThenPad(s, i + |ext|, p.payload, p.paddingBytes);
  }

  lemma PartsLaid(p: RtpPacket, s: seq<byte>, i: nat)
    requires !ExtTooLong(p.header) && i == 12 + 4 * |p.header.csrcs|
    requires At(s, 0, FixedBytes(p.header, p.paddingBytes > 0)) && At(s, 12, Be32s(p.header.csrcs))
    requires At(s, i, Tail(p)) && |s| == i + |Tail(p)|
    ensures Laid(p, s)
  {
    HeaderLaid(p, s);
    CsrcsLaid(s, p.header.csrcs);
    TailLaid(p, s, i);
  }

  /** Every packet that encodes stands on the wire as the standard has it, field by field. */
  lemma EncodedLaid(p: RtpPacket)
    requires Encode(p).Ok?
    ensures Laid(p, Encode(p).value)
  {
    var (fixed, csrcs, tail) := (FixedBytes(p.header, p.paddingBytes > 0), Be32s(p.header.csrcs), Tail(p));
    AtParts(fixed, csrcs, tail);
    PartsLaid(p, fixed + (csrcs + tail), 12 + 4 * |p.header.csrcs|);
  }

  /** Whoever receives it takes a packet of version 2 for media. */
  lemma TakenForMedia(p: RtpPacket)
    requires Encode(p).Ok? && p.header.version == 2
    ensures AppProtocol.Classify(Encode(p).value) == AppProtocol.Media
  {
    EncodedLaid(p);
  }
}
