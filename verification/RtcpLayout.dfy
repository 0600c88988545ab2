/**
 What stands where in an encoded RTCP packet, byte by byte (section 6 of RFC 3550, section 6 of RFC 4585). The round
 trips tie encoders and decoders to each other; this ties both to the numbers of the standard.
 */
module RtcpLayout {
  import AppProtocol
  import opened Bytes
  import opened RtcpTypes
  import opened RtcpFrame
  import opened RtcpReport
  import opened RtcpSdes
  import opened RtcpPackets
  import opened Rtcp
  import Utf8

  // ---------- The common header ----------

  /** The packet type of each kind. */
  function TypeNumber(p: RtcpPacket): byte {
    match p
    case Sr(_, _, _, _) => 200
    case Rr(_, _, _) => 201
    case Sdes(_) => 202
    case Bye(_, _) => 203
    case App(_, _, _, _) => 204
    case Nack(_, _, _) => 205
    case Pli(_, _) => 206
  }

  /** What the five bits of the first byte count or say. */
  function CountField(p: RtcpPacket): nat {
    match p
    case Sr(_, _, reports, _) => |reports|
    case Rr(_, reports, _) => |reports|
    case Sdes(chunks) => |chunks|
    case Bye(sources, _) => |sources|
    case App(subtype, _, _, _) => subtype
    case Nack(_, _, _) => 1
    case Pli(_, _) => 1
  }

  /** Version 2 without padding, the count, the type, and the length in words less one. */
  predicate HeaderLaid(p: RtcpPacket, wire: seq<byte>) {
    && |wire| >= 4 && |wire| % 4 == 0
    && wire[0] == 128 + CountField(p) % 32 && wire[1] == TypeNumber(p)
    && wire[2] as int * 256 + wire[3] == (|wire| / 4 - 1) % 65536
  }

  /** The encoded packet is its header, its body, and zeros up to a whole number of words. */
  predicate Framed(p: RtcpPacket, wire: seq<byte>, body: seq<byte>) {
    && HeaderLaid(p, wire) && 4 + |body| <= |wire| < 4 + |body| + 4 && wire[4..4 + |body|] == body
    && forall i :: 4 + |body| <= i < |wire| ==> wire[i] == 0
  }

  lemma ContentHeader(p: RtcpPacket)
    requires ContentOf(p).Ok?
    ensures ContentOf(p).value.count == CountField(p) && ContentOf(p).value.pt == TypeNumber(p)
  {
  }

  lemma FrameLaid(p: RtcpPacket, c: Content)
    requires c.count == CountField(p) && c.pt == TypeNumber(p)
    ensures Framed(p, Frame(c), c.body)
  {
    var b := Frame(c);
    FrameHeader(c, []);
    assert b + [] == b;
    assert U16At(b, 2) == LengthWords(c.body) % 0x1_0000;
    var tail := c.body + Zeros(c.body);
    assert b[4..|b|] == tail;
    assert forall i :: 0 <= i < |tail| ==> b[4 + i] == tail[i];
  }

  /** Every packet that encodes has the header of the standard, with the numbers of its kind. */
  lemma EncodedFramed(p: RtcpPacket)
    requires EncodeOne(Packets(), p).Ok?
    ensures Framed(p, EncodeOne(Packets(), p).value, ContentOf(p).value.body)
  {
    ContentHeader(p);
    FrameLaid(p, ContentOf(p).value);
  }

  // ---------- Reports ----------

  /** A report block: loss is 24 bits in two's complement, clamped to what they hold. */
  predicate BlockLaid(s: seq<byte>, i: nat, b: ReportBlock) {
    && i + 24 <= |s| && U32At(s, i) == b.ssrc && s[i + 4] == b.fractionLost
    && s[i + 5] as int * 65536 + s[i + 6] as int * 256 + s[i + 7] ==
       (if b.cumulativeLost < -8388608 then -8388608
        else if b.cumulativeLost > 8388607 then 8388607
        else b.cumulativeLost) % 16777216
    && U32At(s, i + 8) == b.highestSeq && U32At(s, i + 12) == b.jitter
    && U32At(s, i + 16) == b.lsr && U32At(s, i + 20) == b.dlsr
  }

  lemma OneBlockLaid(s: seq<byte>, i: nat, b: ReportBlock)
    requires At(s, i, BlockBytes(b))
    ensures BlockLaid(s, i, b)
  {
    BlockDecoded(s, i, b);
    var lost, words := Be24(Low24(Clamp(b.cumulativeLost))), [b.highestSeq, b.jitter, b.lsr, b.dlsr];
    AtConcat(s, i, Be32(b.ssrc), [b.fractionLost] + (lost + Be32s(words)));
    AtConcat(s, i + 4, [b.fractionLost], lost + Be32s(words));
    AtConcat(s, i + 5, lost, Be32s(words));
    Be24At(s, i + 5, Low24(Clamp(b.cumulativeLost)));
  }

  predicate BlocksLaid(s: seq<byte>, i: nat, bs: seq<ReportBlock>) {
    forall k, j :: 0 <= k < |bs| && j == i + 24 * k ==> BlockLaid(s, j, bs[k])
  }

  lemma {:induction false} KthBlockLaid(s: seq<byte>, i: nat, bs: seq<ReportBlock>, k: nat, j: nat)
    requires At(s, i, Blocks(bs)) && k < |bs| && j == i + 24 * k
    ensures BlockLaid(s, j, bs[k])
  {
    var n := |bs| - 1;
    AtConcat(s, i, Blocks(bs[..n]), BlockBytes(bs[n]));
    if k < n {
      KthBlockLaid(s, i, bs[..n], k, j);
    } else {
      OneBlockLaid(s, j, bs[n]);
    }
  }

  lemma AllBlocksLaid(s: seq<byte>, i: nat, bs: seq<ReportBlock>)
    requires At(s, i, Blocks(bs))
    ensures BlocksLaid(s, i, bs)
  {
    forall k, j | 0 <= k < |bs| && j == i + 24 * k ensures BlockLaid(s, j, bs[k]) {
      KthBlockLaid(s, i, bs, k, j);
    }
  }

  /** The body of a sender report: SSRC, the five words of sender information, the blocks, the extension. */
  predicate SrLaid(p: RtcpPacket, s: seq<byte>)
    requires p.Sr?
  {
    && |s| == 24 + 24 * |p.reports| + |p.profileExt| && U32At(s, 0) == p.ssrc
    && U32At(s, 4) == p.info.ntpHigh && U32At(s, 8) == p.info.ntpLow && U32At(s, 12) == p.info.rtpTs
    && U32At(s, 16) == p.info.packetCount && U32At(s, 20) == p.info.octetCount
    && BlocksLaid(s, 24, p.reports) && s[24 + 24 * |p.reports|..] == p.profileExt
  }

  lemma SrBodyLaid(p: RtcpPacket)
    requires p.Sr?
    ensures SrLaid(p, SrBody(p.ssrc, p.info, p.reports, p.profileExt))
  {
    var (a, b, c) := (Be32(p.ssrc), Be32s(InfoWords(p.info)), Blocks(p.reports));
    var s := SrBody(p.ssrc, p.info, p.reports, p.profileExt);
    AtParts(a, b, c + p.profileExt);
    AtConcat(s, 24, c, p.profileExt);
    Be32At(s, 0, p.ssrc);
    InfoDecoded(s, 4, p.info);
    AllBlocksLaid(s, 24, p.reports);
  }

  predicate RrLaid(p: RtcpPacket, s: seq<byte>)
    requires p.Rr?
  {
    && |s| == 4 + 24 * |p.reports| + |p.profileExt| && U32At(s, 0) == p.ssrc
    && BlocksLaid(s, 4, p.reports) && s[4 + 24 * |p.reports|..] == p.profileExt
  }

  lemma RrBodyLaid(p: RtcpPacket)
    requires p.Rr?
    ensures RrLaid(p, RrBody(p.ssrc, p.reports, p.profileExt))
  {
    var s := RrBody(p.ssrc, p.reports, p.profileExt);
    AtParts(Be32(p.ssrc), Blocks(p.reports), p.profileExt);
    Be32At(s, 0, p.ssrc);
    AllBlocksLaid(s, 4, p.reports);
  }

  // ---------- BYE, APP and feedback ----------

  /** The sources, and the reason with its length in front; a reason that is too long has length 0. */
  predicate ByeLaid(p: RtcpPacket, s: seq<byte>)
    requires p.Bye?
  {
    var n := 4 * |p.sources|;
    && n <= |s| && SourcesLaid(s, p.sources)
    && (p.reason.None? ==> |s| == n)
    && (p.reason.Some? ==>
          var text := Utf8.Encode(p.reason.value);
          n < |s| && if |text| <= 255 then s[n] == |text| && n + 1 + |text| <= |s| && s[n + 1..n + 1 + |text|] == text
                     else s[n] == 0)
  }

  predicate SourcesLaid(s: seq<byte>, sources: seq<u32>)
    requires 4 * |sources| <= |s|
  {
    forall k :: 0 <= k < |sources| ==> U32At(s, 4 * k) == sources[k]
  }

  lemma AllSourcesLaid(s: seq<byte>, sources: seq<u32>)
    requires At(s, 0, Be32s(sources))
    ensures SourcesLaid(s, sources)
  {
    Be32sAt(s, 0, sources);
    WordsAt(s, 0, |sources|);
  }

  lemma ByeBodyLaid(p: RtcpPacket)
    requires p.Bye?
    ensures ByeLaid(p, ByeBody(p.sources, p.reason))
  {
    var (a, b) := (Be32s(p.sources), ReasonBytes(p.reason));
    var s := ByeBody(p.sources, p.reason);
    assert At(s, 0, a) && s[4 * |p.sources|..] == b;
    AllSourcesLaid(s, p.sources);
    if p.reason.Some? {
      ReasonLaid(s, 4 * |p.sources|, Utf8.Encode(p.reason.value));
    }
  }

  lemma SliceOfTail(s: seq<byte>, n: nat, a: nat, b: nat)
    requires a <= b && n + b <= |s|
    ensures s[n..][a..b] == s[n + a..n + b]
  {
  }

  lemma ReasonLaid(s: seq<byte>, n: nat, text: seq<byte>)
    requires n <= |s| && s[n..] == Prefixed(text)
    ensures n < |s| && s[n] == if |text| <= 255 then |text| else 0
    ensures |text| <= 255 ==> n + 1 + |text| <= |s| && s[n + 1..n + 1 + |text|] == text
  {
    var tail := s[n..];
    assert s[n] == tail[0] && |s| == n + |tail|;
    if |text| <= 255 {
      SliceOfTail(s, n, 1, 1 + |text|);
    }
  }

  predicate AppLaid(p: RtcpPacket, s: seq<byte>)
    requires p.App?
  {
    |s| == 8 + |p.data| && U32At(s, 0) == p.ssrc && s[4..8] == p.name && s[8..] == p.data
  }

  lemma AppBodyLaid(p: RtcpPacket)
    requires p.App?
    ensures AppLaid(p, AppBody(p.name, p.ssrc, p.data))
  {
    AtParts(Be32(p.ssrc), p.name, p.data);
    Be32At(AppBody(p.name, p.ssrc, p.data), 0, p.ssrc);
  }

  predicate FeedbackLaid(sender: u32, media: u32, entries: seq<NackEntry>, s: seq<byte>) {
    && |s| == 8 + 4 * |entries| && U32At(s, 0) == sender && U32At(s, 4) == media
    && forall k :: 0 <= k < |entries| ==> EntryLaid(s, 8 + 4 * k, entries[k])
  }

  predicate EntryLaid(s: seq<byte>, i: nat, e: NackEntry) {
    i + 4 <= |s| && U16At(s, i) == e.pid && U16At(s, i + 2) == e.blp
  }

  lemma {:induction false} EntriesLaid(s: seq<byte>, i: nat, es: seq<NackEntry>)
    requires At(s, i, Entries(es))
    ensures forall k :: 0 <= k < |es| ==> EntryLaid(s, i + 4 * k, es[k])
  {
    if es != [] {
      var n, e := |es| - 1, es[|es| - 1];
      AtConcat(s, i, Entries(es[..n]), Be16(e.pid) + Be16(e.blp));
      AtConcat(s, i + 4 * n, Be16(e.pid), Be16(e.blp));
      EntriesLaid(s, i, es[..n]);
      Be16At(s, i + 4 * n, e.pid);
      Be16At(s, i + 4 * n + 2, e.blp);
      assert forall k :: 0 <= k < n ==> es[..n][k] == es[k];
    }
  }

  lemma FeedbackBodyLaid(sender: u32, media: u32, entries: seq<NackEntry>)
    ensures FeedbackLaid(sender, media, entries, FeedbackBody(sender, media, entries))
  {
    var s := FeedbackBody(sender, media, entries);
    FeedbackAt(sender, media, entries);
    AtParts(Be32(sender), Be32(media), Entries(entries));
    EntriesLaid(s, 8, entries);
  }

  // ---------- Source descriptions ----------

  /** The type of each item. */
  function ItemNumber(item: SdesItem): byte {
    match item
    case Cname(_) => 1
    case Name(_) => 2
    case Email(_) => 3
    case Phone(_) => 4
    case Loc(_) => 5
    case Tool(_) => 6
    case Note(_) => 7
    case Priv(_) => 8
    case Unknown(code, _) => code
  }

  function ItemText(item: SdesItem): seq<byte> {
    if item.Priv? || item.Unknown? then item.data else Utf8.Encode(item.text)
  }

  function ItemsSize(items: seq<SdesItem>): nat {
    if items == [] then 0 else 2 + |ItemText(items[0])| + ItemsSize(items[1..])
  }

  /** Items one after the other from offset i on: type, length and text. */
  predicate ItemsLaid(s: seq<byte>, i: nat, items: seq<SdesItem>)
    decreases |items|
  {
    if items == [] then true
    else
      ItemLaid(s, i, ItemNumber(items[0]), ItemText(items[0])) &&
      ItemsLaid(s, i + 2 + |ItemText(items[0])|, items[1..])
  }

  predicate ItemLaid(s: seq<byte>, i: nat, code: byte, text: seq<byte>) {
    i + 2 + |text| <= |s| && s[i] == code && s[i + 1] as int == |text| && s[i + 2..i + 2 + |text|] == text
  }

  /** A chunk takes a whole number of words, with room for at least one zero behind the items. */
  function ChunkSize(c: SdesChunk): nat {
    (4 + ItemsSize(c.items) + 4) / 4 * 4
  }

  /** A chunk at offset i: SSRC, items, and zeros. */
  predicate ChunkLaid(s: seq<byte>, i: nat, c: SdesChunk) {
    && i + ChunkSize(c) <= |s| && U32At(s, i) == c.ssrc && ItemsLaid(s, i + 4, c.items)
    && ZeroFrom(s, i + 4 + ItemsSize(c.items), i + ChunkSize(c))
  }

  predicate ZeroFrom(s: seq<byte>, i: nat, j: nat) {
    j <= |s| && forall x :: i <= x < j ==> s[x] == 0
  }

  lemma RawNumbers(item: SdesItem)
    ensures RawOf(item) == Raw(ItemNumber(item), ItemText(item))
  {
  }

  lemma RawsTail(items: seq<SdesItem>)
    requires items != [] && Fits(Raws(items))
    ensures Raws(items)[1..] == Raws(items[1..]) && Fits(Raws(items[1..])) && |ItemText(items[0])| <= 255
    ensures RawsBytes(Raws(items)) ==
      [ItemNumber(items[0]), |ItemText(items[0])|] + ItemText(items[0]) + RawsBytes(Raws(items[1..]))
  {
    assert Raws(items)[1..] == Raws(items[1..]);
    RawNumbers(items[0]);
    assert Raws(items)[0] == RawOf(items[0]);
  }

  /** At offset i stand the encoded items. */
  predicate RawsAt(s: seq<byte>, i: nat, items: seq<SdesItem>) {
    Fits(Raws(items)) && At(s, i, RawsBytes(Raws(items)))
  }

  lemma ItemThenRest(s: seq<byte>, i: nat, code: byte, text: seq<byte>, rest: seq<byte>, j: nat)
    requires |text| <= 255 && At(s, i, [code, |text|] + text + rest) && j == i + 2 + |text|
    ensures ItemLaid(s, i, code, text) && At(s, j, rest)
  {
    AtConcat(s, i, [code, |text|] + text, rest);
    OneItemLaid(s, i, code, text);
  }

  lemma FirstRaw(s: seq<byte>, i: nat, items: seq<SdesItem>, j: nat)
    requires items != [] && RawsAt(s, i, items) && j == i + 2 + |ItemText(items[0])|
    ensures ItemLaid(s, i, ItemNumber(items[0]), ItemText(items[0])) && RawsAt(s, j, items[1..])
  {
    RawsTail(items);
    ItemThenRest(s, i, ItemNumber(items[0]), ItemText(items[0]), RawsBytes(Raws(items[1..])), j);
  }

  lemma {:induction false} RawsLaid(s: seq<byte>, i: nat, items: seq<SdesItem>)
    requires RawsAt(s, i, items)
    ensures ItemsLaid(s, i, items)
    decreases |items|
  {
    if items != [] {
      var j := i + 2 + |ItemText(items[0])|;
      FirstRaw(s, i, items, j);
      RawsLaid(s, j, items[1..]);
      ItemsLaidCons(s, i, items);
    }
  }

  lemma {:induction false} RawsSize(items: seq<SdesItem>)
    requires Fits(Raws(items))
    ensures |RawsBytes(Raws(items))| == ItemsSize(items)
  {
    if items != [] {
      RawsTail(items);
      RawsSize(items[1..]);
    }
  }

  lemma ItemsLaidCons(s: seq<byte>, i: nat, items: seq<SdesItem>)
    requires items != [] && ItemLaid(s, i, ItemNumber(items[0]), ItemText(items[0]))
    requires ItemsLaid(s, i + 2 + |ItemText(items[0])|, items[1..])
    ensures ItemsLaid(s, i, items)
  {
  }

  lemma OneItemLaid(s: seq<byte>, i: nat, code: byte, text: seq<byte>)
    requires |text| <= 255 && At(s, i, [code, |text|] + text)
    ensures ItemLaid(s, i, code, text)
  {
    AtConcat(s, i, [code, |text|], text);
    AtElement(s, i, [code, |text|], 0);
    AtElement(s, i, [code, |text|], 1);
  }

  predicate AllZero(s: seq<byte>) {
    forall x :: 0 <= x < |s| ==> s[x] == 0
  }

  lemma FillerIs(n: nat)
    ensures n + |Filler(n)| == (n + 4) / 4 * 4 && AllZero(Filler(n))
  {
  }

  lemma ChunkParts(c: SdesChunk) returns (raws: seq<byte>, fill: seq<byte>)
    requires Fits(Raws(c.items))
    ensures OneChunk(c) == Be32(c.ssrc) + (raws + fill) && raws == RawsBytes(Raws(c.items)) && AllZero(fill)
    ensures |raws| == ItemsSize(c.items) && 4 + |raws| + |fill| == ChunkSize(c)
  {
    raws := RawsBytes(Raws(c.items));
    fill := Filler(4 + |raws|);
    RawsSize(c.items);
    FillerIs(4 + |raws|);
  }

  lemma PartsStand(s: seq<byte>, i: nat, ssrc: u32, raws: seq<byte>, fill: seq<byte>)
    requires At(s, i, Be32(ssrc) + (raws + fill)) && AllZero(fill)
    ensures i + 4 + |raws| + |fill| <= |s| && U32At(s, i) == ssrc && At(s, i + 4, raws)
    ensures ZeroFrom(s, i + 4 + |raws|, i + 4 + |raws| + |fill|)
  {
    AtConcat(s, i, Be32(ssrc), raws + fill);
    AtConcat(s, i + 4, raws, fill);
    Be32At(s, i, ssrc);
    forall x | i + 4 + |raws| <= x < i + 4 + |raws| + |fill| ensures s[x] == 0 {
      AtElement(s, i + 4 + |raws|, fill, x - (i + 4 + |raws|));
    }
  }

  lemma ChunkFrom(s: seq<byte>, i: nat, c: SdesChunk, n: nat, size: nat)
    requires n == ItemsSize(c.items) && size == ChunkSize(c) && i + size <= |s|
    requires U32At(s, i) == c.ssrc && ItemsLaid(s, i + 4, c.items) && ZeroFrom(s, i + 4 + n, i + size)
    ensures ChunkLaid(s, i, c)
  {
  }

  /** Every chunk that fits is laid out so, wherever it stands. */
  lemma OneChunkLaid(s: seq<byte>, i: nat, c: SdesChunk)
    requires Fits(Raws(c.items)) && At(s, i, OneChunk(c))
    ensures ChunkLaid(s, i, c) && |OneChunk(c)| == ChunkSize(c)
  {
    var raws, fill := ChunkParts(c);
    PartsStand(s, i, c.ssrc, raws, fill);
    RawsLaid(s, i + 4, c.items);
    ChunkFrom(s, i, c, |raws|, 4 + |raws| + |fill|);
  }

  /** Chunks one after the other, from offset i to the end. */
  predicate ChunksLaid(s: seq<byte>, i: nat, chunks: seq<SdesChunk>)
    decreases |chunks|
  {
    if chunks == [] then i == |s|
    else ChunkLaid(s, i, chunks[0]) && ChunksLaid(s, i + ChunkSize(chunks[0]), chunks[1..])
  }

  /** From offset i to the end stand the encoded chunks and nothing else. */
  predicate EndsWith(s: seq<byte>, i: nat, chunks: seq<SdesChunk>) {
    AllFit(chunks) && At(s, i, ChunksBytes(chunks)) && i + |ChunksBytes(chunks)| == |s|
  }

  lemma ChunksTail(chunks: seq<SdesChunk>)
    requires chunks != [] && AllFit(chunks)
    ensures AllFit(chunks[1..]) && Fits(Raws(chunks[0].items))
    ensures ChunksBytes(chunks) == OneChunk(chunks[0]) + ChunksBytes(chunks[1..])
  {
  }

  lemma TailEnds(s: seq<byte>, i: nat, chunks: seq<SdesChunk>, j: nat)
    requires chunks != [] && EndsWith(s, i, chunks) && AllFit(chunks) && j == i + |OneChunk(chunks[0])|
    ensures EndsWith(s, j, chunks[1..]) && At(s, i, OneChunk(chunks[0]))
  {
    ChunksTail(chunks);
    AtConcat(s, i, OneChunk(chunks[0]), ChunksBytes(chunks[1..]));
  }

  lemma FirstChunkLaid(s: seq<byte>, i: nat, chunks: seq<SdesChunk>) returns (j: nat)
    requires chunks != [] && EndsWith(s, i, chunks)
    ensures ChunkLaid(s, i, chunks[0]) && j == i + ChunkSize(chunks[0]) && EndsWith(s, j, chunks[1..])
  {
    ChunksTail(chunks);
    j := i + |OneChunk(chunks[0])|;
    TailEnds(s, i, chunks, j);
    OneChunkLaid(s, i, chunks[0]);
  }

  lemma ChunksLaidCons(s: seq<byte>, i: nat, chunks: seq<SdesChunk>, j: nat)
    requires chunks != [] && ChunkLaid(s, i, chunks[0]) && ChunksLaid(s, j, chunks[1..])
    requires j == i + ChunkSize(chunks[0])
    ensures ChunksLaid(s, i, chunks)
  {
  }

  lemma {:induction false} AllChunksLaid(s: seq<byte>, i: nat, chunks: seq<SdesChunk>)
    requires EndsWith(s, i, chunks)
    ensures ChunksLaid(s, i, chunks)
    decreases |chunks|
  {
    if chunks != [] {
      var j := FirstChunkLaid(s, i, chunks);
      AllChunksLaid(s, j, chunks[1..]);
      ChunksLaidCons(s, i, chunks, j);
    }
  }

  // ---------- All kinds ----------

  predicate BodyLaid(p: RtcpPacket, s: seq<byte>) {
    match p
    case Sr(_, _, _, _) => SrLaid(p, s)
    case Rr(_, _, _) => RrLaid(p, s)
    case Sdes(chunks) => ChunksLaid(s, 0, chunks)
    case Bye(_, _) => ByeLaid(p, s)
    case App(_, _, _, _) => AppLaid(p, s)
    case Nack(sender, media, entries) => FeedbackLaid(sender, media, entries, s)
    case Pli(sender, media) => FeedbackLaid(sender, media, [], s)
  }

  lemma ContentLaid(p: RtcpPacket)
    requires ContentOf(p).Ok?
    ensures BodyLaid(p, ContentOf(p).value.body)
  {
    match p
    case Sr(_, _, _, _) => SrBodyLaid(p);
    case Rr(_, _, _) => RrBodyLaid(p);
    case Sdes(chunks) => AllChunksLaid(ChunksBytes(chunks), 0, chunks);
    case Bye(_, _) => ByeBodyLaid(p);
    case App(_, _, _, _) => AppBodyLaid(p);
    case Nack(sender, media, entries) => FeedbackBodyLaid(sender, media, entries);
    case Pli(sender, media) => FeedbackBodyLaid(sender, media, []);
  }

  /** Every packet that encodes stands on the wire as the standard has it: header, body and zeros, field by field. */
  lemma WireLayout(p: RtcpPacket) returns (body: seq<byte>)
    requires EncodeOne(Packets(), p).Ok?
    ensures Framed(p, EncodeOne(Packets(), p).value, body) && BodyLaid(p, body)
  {
    body := ContentOf(p).value.body;
    EncodedFramed(p);
    ContentLaid(p);
  }

  /** Whoever receives it takes every packet that encodes for media. */
  lemma TakenForMedia(p: RtcpPacket)
    requires EncodeOne(Packets(), p).Ok?
    ensures AppProtocol.Classify(EncodeOne(Packets(), p).value) == AppProtocol.Media
  {
    EncodedFramed(p);
    FirstByteRoutes(p, EncodeOne(Packets(), p).value);
  }

  lemma FirstByteRoutes(p: RtcpPacket, wire: seq<byte>)
    requires HeaderLaid(p, wire)
    ensures AppProtocol.Classify(wire) == AppProtocol.Media
  {
  }
}
