/** The bodies of BYE, APP, generic NACK and picture-loss packets. */
module RtcpPackets {
  import opened Bytes
  import opened RtcpTypes
  import Utf8

  // ---------- BYE ----------

  /** The text with its length in front; a length that does not fit a byte is written as 0. */
  function Prefixed(text: seq<byte>): (s: seq<byte>)
    ensures |s| == Aligned(1 + |text|)
    ensures s[0] == if |text| <= 255 then |text| else 0
    ensures s[1..1 + s[0] as int] == if |text| <= 255 then text else []
  {
    [if |text| <= 255 then |text| else 0] + (text + Repeat(0, PadOf(1 + |text|)))
  }

  function ReasonBytes(reason: Option<string>): (s: seq<byte>)
    ensures |s| % 4 == 0 && (s == [] <==> reason.None?)
  {
    if reason.None? then [] else Prefixed(Utf8.Encode(reason.value))
  }

  function ByeBody(sources: seq<u32>, reason: Option<string>): (s: seq<byte>)
    ensures |s| % 4 == 0
  {
    AlignedSum(4 * |sources|, |ReasonBytes(reason)|);
    Be32s(sources) + ReasonBytes(reason)
  }

  function DecodeReason(b: seq<byte>): Result<Option<string>, RtcpError> {
    if b == [] then Ok(None)
    else if |b| < 1 + b[0] as int then Err(Truncated)
    else Ok(Some(Utf8.DecodeLossy(b[1..1 + b[0] as int])))
  }

  function DecodeBye(sc: nat, payload: seq<byte>): Result<RtcpPacket, RtcpError> {
    if |payload| < sc * 4 then Err(Truncated)
    else
      var reason := DecodeReason(payload[sc * 4..]);
      if reason.Err? then Err(reason.error) else Ok(Bye(U32sAt(payload, 0, sc), reason.value))
  }

  predicate ReasonFits(reason: Option<string>) {
    reason.Some? ==> |Utf8.Encode(reason.value)| <= 255
  }

  /** A reason of at most 255 bytes comes back; a longer one comes back empty. */
  lemma ReasonDecoded(reason: Option<string>)
    ensures DecodeReason(ReasonBytes(reason)) == Ok(if ReasonFits(reason) then reason else Some(""))
    ensures !ReasonFits(reason) ==> reason != Some("")
  {
    if reason.Some? {
      Utf8.RoundTrip(reason.value);
    }
  }

  lemma ByeDecoded(sources: seq<u32>, reason: Option<string>)
    ensures DecodeBye(|sources|, ByeBody(sources, reason)) ==
      Ok(Bye(sources, if ReasonFits(reason) then reason else Some("")))
  {
    var (a, b) := (Be32s(sources), ReasonBytes(reason));
    assert At(a + b, 0, a);
    Be32sAt(a + b, 0, sources);
    assert (a + b)[|sources| * 4..] == b;
    ReasonDecoded(reason);
  }

  method AppendSources(buf: seq<byte>, sources: seq<u32>) returns (out: seq<byte>)
    ensures out == buf + Be32s(sources)
  {
    out := buf;
    for k := 0 to |sources|
      invariant out == buf + Be32s(sources[..k])
    {
      assert sources[..k + 1][..k] == sources[..k];
      out := out + Be32(sources[k]);
    }
    assert sources[..|sources|] == sources;
  }

  method AppendReason(buf: seq<byte>, reason: Option<string>) returns (out: seq<byte>)
    ensures out == buf + ReasonBytes(reason)
  {
    if reason.Some? {
      out := AppendText(buf, Utf8.Encode(reason.value));
    } else {
      out := buf;
    }
  }

  method AppendBye(buf: seq<byte>, sources: seq<u32>, reason: Option<string>) returns (out: seq<byte>)
    ensures out == buf + ByeBody(sources, reason)
  {
    out := AppendSources(buf, sources);
    out := AppendReason(out, reason);
  }

  method AppendText(buf: seq<byte>, text: seq<byte>) returns (out: seq<byte>)
    ensures out == buf + Prefixed(text)
  {
    out := buf + [if |text| <= 255 then |text| else 0];
    out := out + text;
    out := out + Repeat(0, PadOf(1 + |text|));
  }

  method ReadBye(sc: nat, payload: seq<byte>) returns (r: Result<RtcpPacket, RtcpError>)
    ensures r == DecodeBye(sc, payload)
  {
    if |payload| < sc * 4 {
      return Err(Truncated);
    }
    var sources, idx := [], 0;
    for k := 0 to sc
      invariant idx == 4 * k && sources == U32sAt(payload, 0, k)
    {
      sources := sources + [U32At(payload, idx)];
      idx := idx + 4;
    }
    var reason := None;
    if |payload| > idx {
      var len := payload[idx] as int;
      if |payload| < idx + 1 + len {
        return Err(Truncated);
      }
      assert payload[idx..][1..1 + len] == payload[idx + 1..idx + 1 + len];
      reason := Some(Utf8.DecodeLossy(payload[idx + 1..idx + 1 + len]));
    }
    return Ok(Bye(sources, reason));
  }

  // ---------- APP ----------

  function AppBody(name: Four, ssrc: u32, data: seq<byte>): seq<byte> {
    Be32(ssrc) + (name + data)
  }

  function DecodeApp(subtype: byte, payload: seq<byte>): Result<RtcpPacket, RtcpError> {
    if |payload| < 8 then Err(TooShort)
    else Ok(App(subtype, payload[4..8], U32At(payload, 0), payload[8..]))
  }

  lemma AppDecoded(subtype: byte, name: Four, ssrc: u32, data: seq<byte>, pad: seq<byte>)
    ensures DecodeApp(subtype, AppBody(name, ssrc, data) + pad) == Ok(App(subtype, name, ssrc, data + pad))
  {
    var s := Be32(ssrc) + (name + (data + pad));
    assert AppBody(name, ssrc, data) + pad == s;
    AtParts(Be32(ssrc), name, data + pad);
    Be32At(s, 0, ssrc);
    assert s[8..] == data + pad;
  }

  // ---------- Generic NACK ----------

  function Entries(es: seq<NackEntry>): (s: seq<byte>)
    ensures |s| == 4 * |es|
  {
    if es == [] then [] else Entries(es[..|es| - 1]) + (Be16(es[|es| - 1].pid) + Be16(es[|es| - 1].blp))
  }

  function EntriesAt(s: seq<byte>, i: nat, n: nat): (es: seq<NackEntry>)
    requires i + 4 * n <= |s|
    ensures |es| == n
  {
    if n == 0 then []
    else EntriesAt(s, i, n - 1) + [NackEntry(U16At(s, i + 4 * (n - 1)), U16At(s, i + 4 * (n - 1) + 2))]
  }

  lemma {:induction false} EntriesDecoded(s: seq<byte>, i: nat, es: seq<NackEntry>)
    requires At(s, i, Entries(es))
    ensures EntriesAt(s, i, |es|) == es
  {
    if es != [] {
      var n, e := |es| - 1, es[|es| - 1];
      AtConcat(s, i, Entries(es[..n]), Be16(e.pid) + Be16(e.blp));
      AtConcat(s, i + 4 * n, Be16(e.pid), Be16(e.blp));
      EntriesDecoded(s, i, es[..n]);
      Be16At(s, i + 4 * n, e.pid);
      Be16At(s, i + 4 * n + 2, e.blp);
    }
  }

  function FeedbackBody(sender: u32, media: u32, entries: seq<NackEntry>): (s: seq<byte>)
    ensures |s| == 8 + 4 * |entries|
  {
    Be32(sender) + (Be32(media) + Entries(entries))
  }

  function DecodeNack(fmt: nat, payload: seq<byte>): Result<RtcpPacket, RtcpError> {
    if |payload| < 8 then Err(TooShort)
    else if fmt != 1 then Err(Invalid)
    else if |payload| % 4 != 0 then Err(Truncated)
    else Ok(Nack(U32At(payload, 0), U32At(payload, 4), EntriesAt(payload, 8, (|payload| - 8) / 4)))
  }

  function DecodePli(fmt: nat, payload: seq<byte>): Result<RtcpPacket, RtcpError> {
    if |payload| < 8 then Err(TooShort)
    else if fmt != 1 then Err(Invalid)
    else Ok(Pli(U32At(payload, 0), U32At(payload, 4)))
  }

  lemma {:induction false} FeedbackAt(sender: u32, media: u32, entries: seq<NackEntry>)
    ensures var s := FeedbackBody(sender, media, entries);
      U32At(s, 0) == sender && U32At(s, 4) == media && EntriesAt(s, 8, |entries|) == entries
  {
    var s := FeedbackBody(sender, media, entries);
    AtParts(Be32(sender), Be32(media), Entries(entries));
    Be32At(s, 0, sender);
    Be32At(s, 4, media);
    EntriesDecoded(s, 8, entries);
  }

  lemma {:induction false} NackDecoded(sender: u32, media: u32, entries: seq<NackEntry>)
    ensures DecodeNack(1, FeedbackBody(sender, media, entries)) == Ok(Nack(sender, media, entries))
  {
    FeedbackAt(sender, media, entries);
  }

  lemma PliDecoded(sender: u32, media: u32)
    ensures DecodePli(1, FeedbackBody(sender, media, [])) == Ok(Pli(sender, media))
  {
    FeedbackAt(sender, media, []);
  }

  method AppendNack(buf: seq<byte>, sender: u32, media: u32, entries: seq<NackEntry>) returns (out: seq<byte>)
    ensures out == buf + FeedbackBody(sender, media, entries)
  {
    out := buf + Be32(sender);
    out := out + Be32(media);
    ghost var start := out;
    for k := 0 to |entries|
      invariant out == start + Entries(entries[..k])
    {
      assert entries[..k + 1][..k] == entries[..k];
      out := out + (Be16(entries[k].pid) + Be16(entries[k].blp));
    }
    assert entries[..|entries|] == entries;
    assert out == buf + (Be32(sender) + (Be32(media) + Entries(entries)));
  }

  method ReadNack(fmt: nat, payload: seq<byte>) returns (r: Result<RtcpPacket, RtcpError>)
    ensures r == DecodeNack(fmt, payload)
  {
    if |payload| < 8 {
      return Err(TooShort);
    }
    var sender, media := U32At(payload, 0), U32At(payload, 4);
    if fmt != 1 {
      return Err(Invalid);
    }
    var entries, idx := [], 8;
    while idx + 4 <= |payload|
      invariant idx == 8 + 4 * |entries| <= |payload| && entries == EntriesAt(payload, 8, |entries|)
    {
      entries := entries + [NackEntry(U16At(payload, idx), U16At(payload, idx + 2))];
      idx := idx + 4;
    }
    if idx != |payload| {
      return Err(Truncated);
    }
    return Ok(Nack(sender, media, entries));
  }
}
