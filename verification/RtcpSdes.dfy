/** Source descriptions: items, chunks that end on a word boundary, and the list of chunks. */
module RtcpSdes {
  import opened Bytes
  import opened RtcpTypes
  import Utf8

  // ---------- Items ----------

  /** An item on the wire: its type code and its bytes. */
  datatype Raw = Raw(code: byte, data: seq<byte>)

  function RawOf(item: SdesItem): Raw {
    match item
    case Cname(text) => Raw(1, Utf8.Encode(text))
    case Name(text) => Raw(2, Utf8.Encode(text))
    case Email(text) => Raw(3, Utf8.Encode(text))
    case Phone(text) => Raw(4, Utf8.Encode(text))
    case Loc(text) => Raw(5, Utf8.Encode(text))
    case Tool(text) => Raw(6, Utf8.Encode(text))
    case Note(text) => Raw(7, Utf8.Encode(text))
    case Priv(data) => Raw(8, data)
    case Unknown(code, data) => Raw(code, data)
  }

  function ItemOf(raw: Raw): SdesItem {
    match raw.code
    case 1 => Cname(Utf8.DecodeLossy(raw.data))
    case 2 => Name(Utf8.DecodeLossy(raw.data))
    case 3 => Email(Utf8.DecodeLossy(raw.data))
    case 4 => Phone(Utf8.DecodeLossy(raw.data))
    case 5 => Loc(Utf8.DecodeLossy(raw.data))
    case 6 => Tool(Utf8.DecodeLossy(raw.data))
    case 7 => Note(Utf8.DecodeLossy(raw.data))
    case 8 => Priv(raw.data)
    case _ => Unknown(raw.code, raw.data)
  }

  function Raws(items: seq<SdesItem>): (raws: seq<Raw>)
    ensures |raws| == |items|
  {
    seq(|items|, k requires 0 <= k < |items| => RawOf(items[k]))
  }

  function Items(raws: seq<Raw>): (items: seq<SdesItem>)
    ensures |items| == |raws|
  {
    seq(|raws|, k requires 0 <= k < |raws| => ItemOf(raws[k]))
  }

  /** Whether every item's type says what it is: an unknown item has neither a known type nor the END mark. */
  predicate Typed(items: seq<SdesItem>) {
    forall k :: 0 <= k < |items| ==> items[k].Unknown? ==> items[k].code > 8
  }

  predicate NoEnd(raws: seq<Raw>) {
    forall k :: 0 <= k < |raws| ==> raws[k].code != 0
  }

  lemma ItemIff(item: SdesItem)
    ensures ItemOf(RawOf(item)) == item <==> (item.Unknown? ==> item.code == 0 || item.code > 8)
  {
    if !item.Priv? && !item.Unknown? {
      Utf8.RoundTrip(item.text);
    }
  }

  lemma TypedIff(items: seq<SdesItem>)
    ensures Typed(items) <==> NoEnd(Raws(items)) && Items(Raws(items)) == items
  {
    forall k | 0 <= k < |items|
      ensures (items[k].Unknown? ==> items[k].code > 8) <==>
        Raws(items)[k].code != 0 && Items(Raws(items))[k] == items[k]
    {
      ItemIff(items[k]);
    }
    if NoEnd(Raws(items)) && Items(Raws(items)) == items {
      assert forall k :: 0 <= k < |items| ==> Raws(items)[k].code != 0 && Items(Raws(items))[k] == items[k];
    }
  }

  predicate Fits(raws: seq<Raw>) {
    forall k :: 0 <= k < |raws| ==> |raws[k].data| <= 255
  }

  function RawBytes(raw: Raw): (s: seq<byte>)
    requires |raw.data| <= 255
    ensures |s| == 2 + |raw.data|
  {
    [raw.code, |raw.data|] + raw.data
  }

  function RawsBytes(raws: seq<Raw>): seq<byte>
    requires Fits(raws)
  {
    if raws == [] then [] else RawBytes(raws[0]) + RawsBytes(raws[1..])
  }

  /** What decoding a list of items yields: the items, and the offset behind them. */
  type Decoded = Result<(seq<Raw>, nat), RtcpError>

  function Prepend(raws: seq<Raw>, r: Decoded): Decoded {
    if r.Err? then r else Ok((raws + r.value.0, r.value.1))
  }

  lemma PrependLaws(raws: seq<Raw>, raw: Raw, r: Decoded)
    ensures Prepend([], r) == r && Prepend(raws, Prepend([raw], r)) == Prepend(raws + [raw], r)
  {
    if r.Ok? {
      assert [] + r.value.0 == r.value.0;
      assert raws + ([raw] + r.value.0) == raws + [raw] + r.value.0;
    }
  }

  /** Items from offset i up to END, and the offset after END and its padding. */
  function DecodeItems(buf: seq<byte>, i: nat): (r: Decoded)
    requires i <= |buf|
    ensures r.Ok? ==> i <= r.value.1 <= |buf|
    decreases |buf| - i
  {
    if i == |buf| then Ok(([], i))
    else if buf[i] == 0 then
      var end := Aligned(i + 1);
      if |buf| < end then Err(Truncated) else Ok(([], end))
    else if |buf| < i + 2 || |buf| < i + 2 + buf[i + 1] then Err(SdesItemTooShort)
    else
      var next := i + 2 + buf[i + 1];
      Prepend([Raw(buf[i], buf[i + 2..next])], DecodeItems(buf, next))
  }

  /** What stands at offset i: the items, an END byte, and room for its padding. */
  predicate RawsAt(buf: seq<byte>, i: nat, raws: seq<Raw>, end: nat)
    requires Fits(raws)
  {
    At(buf, i, RawsBytes(raws)) && end == i + |RawsBytes(raws)| && Aligned(end + 1) <= |buf| && buf[end] == 0
  }

  lemma HeadRaw(buf: seq<byte>, i: nat, raws: seq<Raw>, end: nat)
    requires raws != [] && Fits(raws) && RawsAt(buf, i, raws, end)
    ensures var next := i + 2 + |raws[0].data|;
      && next <= |buf|
      && buf[i] == raws[0].code && buf[i + 1] == |raws[0].data| && buf[i + 2..next] == raws[0].data
      && RawsAt(buf, next, raws[1..], end)
  {
    var raw := raws[0];
    AtConcat(buf, i, RawBytes(raw), RawsBytes(raws[1..]));
    AtConcat(buf, i, [raw.code, |raw.data|], raw.data);
    AtElement(buf, i, [raw.code, |raw.data|], 0);
    AtElement(buf, i, [raw.code, |raw.data|], 1);
  }

  lemma StepItem(buf: seq<byte>, i: nat, raw: Raw, next: nat)
    requires i + 2 + |raw.data| == next <= |buf|
    requires buf[i] == raw.code && buf[i + 1] == |raw.data| && buf[i + 2..next] == raw.data
    ensures if raw.code == 0 then DecodeItems(buf, i).Ok? ==> DecodeItems(buf, i).value.0 == []
            else DecodeItems(buf, i) == Prepend([raw], DecodeItems(buf, next))
  {
  }

  lemma HeadDecoded(buf: seq<byte>, i: nat, raws: seq<Raw>, end: nat) returns (next: nat)
    requires raws != [] && Fits(raws) && RawsAt(buf, i, raws, end)
    ensures next <= |buf| && RawsAt(buf, next, raws[1..], end)
    ensures if raws[0].code == 0 then DecodeItems(buf, i).Ok? ==> DecodeItems(buf, i).value.0 == []
            else DecodeItems(buf, i) == Prepend([raws[0]], DecodeItems(buf, next))
  {
    HeadRaw(buf, i, raws, end);
    next := i + 2 + |raws[0].data|;
    StepItem(buf, i, raws[0], next);
  }

  lemma {:induction false} ItemsDecoded(buf: seq<byte>, i: nat, raws: seq<Raw>, end: nat)
    requires Fits(raws) && RawsAt(buf, i, raws, end) && NoEnd(raws)
    ensures DecodeItems(buf, i) == Ok((raws, Aligned(end + 1)))
    decreases |raws|
  {
    if raws != [] {
      var next := HeadDecoded(buf, i, raws, end);
      ItemsDecoded(buf, next, raws[1..], end);
      assert raws == [raws[0]] + raws[1..];
    }
  }

  /** An END code among the items cuts the list short. */
  lemma {:induction false} ItemsCutShort(buf: seq<byte>, i: nat, raws: seq<Raw>, end: nat)
    requires Fits(raws) && RawsAt(buf, i, raws, end)
    requires DecodeItems(buf, i).Ok? && |DecodeItems(buf, i).value.0| == |raws|
    ensures NoEnd(raws)
    decreases |raws|
  {
    if raws != [] {
      var next := HeadDecoded(buf, i, raws, end);
      ItemsCutShort(buf, next, raws[1..], end);
      assert raws == [raws[0]] + raws[1..];
    }
  }

  // ---------- Chunks ----------

  /** The END byte of a chunk of n bytes so far, and the zeros behind it. */
  function Filler(n: nat): (s: seq<byte>)
    ensures n + |s| == Aligned(n + 1) && s[0] == 0
  {
    Repeat(0, Aligned(n + 1) - n)
  }

  function ChunkBytes(ssrc: u32, raws: seq<Raw>): (s: seq<byte>)
    requires Fits(raws)
    ensures |s| == Aligned(4 + |RawsBytes(raws)| + 1)
  {
    Be32(ssrc) + (RawsBytes(raws) + Filler(4 + |RawsBytes(raws)|))
  }

  function DecodeChunk(buf: seq<byte>): (r: Result<(SdesChunk, nat), RtcpError>)
    ensures r.Ok? ==> 4 <= r.value.1 <= |buf|
  {
    if |buf| < 4 then Err(TooShort)
    else
      var r := DecodeItems(buf, 4);
      if r.Err? then Err(r.error) else Ok((SdesChunk(U32At(buf, 0), Items(r.value.0)), r.value.1))
  }

  predicate AllFit(chunks: seq<SdesChunk>) {
    forall k :: 0 <= k < |chunks| ==> Fits(Raws(chunks[k].items))
  }

  predicate AllTyped(chunks: seq<SdesChunk>) {
    forall k :: 0 <= k < |chunks| ==> Typed(chunks[k].items)
  }

  function ChunksBytes(chunks: seq<SdesChunk>): (s: seq<byte>)
    requires AllFit(chunks)
    ensures |s| % 4 == 0
  {
    if chunks == [] then []
    else
      var (head, tail) := (ChunkBytes(chunks[0].ssrc, Raws(chunks[0].items)), ChunksBytes(chunks[1..]));
      AlignedSum(|head|, |tail|);
      head + tail
  }

  function DecodeChunks(b: seq<byte>): Result<seq<SdesChunk>, RtcpError>
    decreases |b|
  {
    if |b| < 4 then if b == [] then Ok([]) else Err(Truncated)
    else
      var first := DecodeChunk(b);
      if first.Err? then Err(first.error) else Chain([first.value.0], DecodeChunks(b[first.value.1..]))
  }

  function Chain(chunks: seq<SdesChunk>, r: Result<seq<SdesChunk>, RtcpError>): Result<seq<SdesChunk>, RtcpError> {
    if r.Err? then r else Ok(chunks + r.value)
  }

  lemma ChainLaws(chunks: seq<SdesChunk>, c: SdesChunk, r: Result<seq<SdesChunk>, RtcpError>)
    ensures Chain([], r) == r && Chain(chunks, Chain([c], r)) == Chain(chunks + [c], r)
  {
    if r.Ok? {
      assert [] + r.value == r.value;
      assert chunks + ([c] + r.value) == chunks + [c] + r.value;
    }
  }

  lemma ChunkRawsAt(ssrc: u32, raws: seq<Raw>, rest: seq<byte>)
    requires Fits(raws)
    ensures var buf := ChunkBytes(ssrc, raws) + rest;
      |buf| >= 4 && RawsAt(buf, 4, raws, 4 + |RawsBytes(raws)|) && U32At(buf, 0) == ssrc
  {
    var (a, b, d) := (Be32(ssrc), RawsBytes(raws), Filler(4 + |RawsBytes(raws)|));
    var buf := a + (b + (d + rest));
    assert ChunkBytes(ssrc, raws) + rest == buf;
    AtParts(a, b, d + rest);
    AtConcat(buf, 4 + |b|, d, rest);
    AtElement(buf, 4 + |b|, d, 0);
    Be32At(buf, 0, ssrc);
  }

  lemma ChunkDecoded(c: SdesChunk, rest: seq<byte>)
    requires Fits(Raws(c.items)) && Typed(c.items)
    ensures var s := ChunkBytes(c.ssrc, Raws(c.items)); DecodeChunk(s + rest) == Ok((c, |s|))
  {
    var raws := Raws(c.items);
    TypedIff(c.items);
    ChunkRawsAt(c.ssrc, raws, rest);
    ItemsDecoded(ChunkBytes(c.ssrc, raws) + rest, 4, raws, 4 + |RawsBytes(raws)|);
  }

  lemma ChunkDecodedOnlyIf(c: SdesChunk, rest: seq<byte>)
    requires Fits(Raws(c.items))
    requires var r := DecodeChunk(ChunkBytes(c.ssrc, Raws(c.items)) + rest); r.Ok? && r.value.0 == c
    ensures Typed(c.items)
  {
    var raws := Raws(c.items);
    var buf := ChunkBytes(c.ssrc, raws) + rest;
    ChunkRawsAt(c.ssrc, raws, rest);
    var got := DecodeItems(buf, 4).value.0;
    assert Items(got) == c.items;
    ItemsCutShort(buf, 4, raws, 4 + |RawsBytes(raws)|);
    ItemsDecoded(buf, 4, raws, 4 + |RawsBytes(raws)|);
    TypedIff(c.items);
  }

  lemma FirstChunk(head: seq<byte>, tail: seq<byte>, c: SdesChunk)
    requires DecodeChunk(head + tail) == Ok((c, |head|))
    ensures DecodeChunks(head + tail) == Chain([c], DecodeChunks(tail))
  {
    assert (head + tail)[|head|..] == tail;
  }

  lemma {:induction false} ChunksDecoded(chunks: seq<SdesChunk>)
    requires AllFit(chunks) && AllTyped(chunks)
    ensures DecodeChunks(ChunksBytes(chunks)) == Ok(chunks)
  {
    if chunks != [] {
      var (head, tail) := (ChunkBytes(chunks[0].ssrc, Raws(chunks[0].items)), ChunksBytes(chunks[1..]));
      ChunkDecoded(chunks[0], tail);
      FirstChunk(head, tail, chunks[0]);
      ChunksDecoded(chunks[1..]);
      assert chunks == [chunks[0]] + chunks[1..];
    }
  }

  lemma FirstIs(chunks: seq<SdesChunk>, b: seq<byte>)
    requires |b| >= 4 && chunks != [] && DecodeChunks(b) == Ok(chunks)
    ensures DecodeChunk(b).Ok? && DecodeChunk(b).value.0 == chunks[0]
  {
  }

  /** Chunks that come back as they were sent were typed. */
  lemma {:induction false} ChunksDecodedOnlyIf(chunks: seq<SdesChunk>)
    requires AllFit(chunks) && DecodeChunks(ChunksBytes(chunks)) == Ok(chunks)
    ensures AllTyped(chunks)
  {
    if chunks != [] {
      var c, rest := chunks[0], chunks[1..];
      var (head, tail) := (ChunkBytes(c.ssrc, Raws(c.items)), ChunksBytes(rest));
      FirstIs(chunks, head + tail);
      ChunkDecodedOnlyIf(c, tail);
      ChunkDecoded(c, tail);
      FirstChunk(head, tail, c);
      assert chunks == [c] + rest;
      ChunksDecodedOnlyIf(rest);
    }
  }

  // ---------- The loops ----------

  method AppendItem(buf: seq<byte>, raw: Raw) returns (out: seq<byte>)
    requires |raw.data| <= 255
    ensures out == buf + RawBytes(raw)
  {
    out := buf + [raw.code];
    out := out + [|raw.data|];
    out := out + raw.data;
  }

  lemma {:induction false} RawsSnoc(raws: seq<Raw>, raw: Raw)
    requires Fits(raws) && |raw.data| <= 255
    ensures Fits(raws + [raw]) && RawsBytes(raws + [raw]) == RawsBytes(raws) + RawBytes(raw)
  {
    if raws == [] {
      assert [raw][1..] == [];
    } else {
      assert (raws + [raw])[1..] == raws[1..] + [raw];
      RawsSnoc(raws[1..], raw);
    }
  }

  method AppendItems(buf: seq<byte>, items: seq<SdesItem>) returns (r: Result<seq<byte>, RtcpError>)
    ensures var raws := Raws(items); r == if Fits(raws) then Ok(buf + RawsBytes(raws)) else Err(SdesItemTooLong)
  {
    var out := buf;
    ghost var done := [];
    for k := 0 to |items|
      invariant done == Raws(items)[..k] && Fits(done) && out == buf + RawsBytes(done)
    {
      var raw := RawOf(items[k]);
      if |raw.data| > 255 {
        assert Raws(items)[k] == raw;
        return Err(SdesItemTooLong);
      }
      RawsSnoc(done, raw);
      out := AppendItem(out, raw);
      done := done + [raw];
    }
    assert done == Raws(items);
    return Ok(out);
  }

  method AppendChunk(buf: seq<byte>, c: SdesChunk) returns (r: Result<seq<byte>, RtcpError>)
    ensures var raws := Raws(c.items);
      r == if Fits(raws) then Ok(buf + ChunkBytes(c.ssrc, raws)) else Err(SdesItemTooLong)
  {
    var out := buf + Be32(c.ssrc);
    r := AppendItems(out, c.items);
    if r.Ok? {
      ghost var items := RawsBytes(Raws(c.items));
      out := AppendFiller(r.value, |buf|);
      assert out == buf + (Be32(c.ssrc) + (items + Filler(4 + |items|)));
      r := Ok(out);
    }
  }

  /** Appends END and aligns what was appended since start. */
  method AppendFiller(buf: seq<byte>, start: nat) returns (out: seq<byte>)
    requires start <= |buf|
    ensures out == buf + Filler(|buf| - start)
  {
    out := buf + [0];
    var rem := (|out| - start) % 4;
    if rem != 0 {
      out := out + Repeat(0, 4 - rem);
    }
  }

  /** The bytes of one chunk. */
  function OneChunk(c: SdesChunk): seq<byte>
    requires Fits(Raws(c.items))
  {
    ChunkBytes(c.ssrc, Raws(c.items))
  }

  lemma ChunksCons(c: SdesChunk, chunks: seq<SdesChunk>)
    requires Fits(Raws(c.items)) && AllFit(chunks)
    ensures AllFit([c] + chunks) && ChunksBytes([c] + chunks) == OneChunk(c) + ChunksBytes(chunks)
  {
    assert ([c] + chunks)[1..] == chunks;
  }

  lemma {:induction false} ChunksSnoc(chunks: seq<SdesChunk>, c: SdesChunk)
    requires AllFit(chunks) && Fits(Raws(c.items))
    ensures AllFit(chunks + [c]) && ChunksBytes(chunks + [c]) == ChunksBytes(chunks) + OneChunk(c)
  {
    if chunks == [] {
      ChunksCons(c, []);
      assert [c] + [] == [c] && [] + [c] == [c];
    } else {
      var rest := chunks[1..];
      ChunksSnoc(rest, c);
      ChunksCons(chunks[0], rest);
      ChunksCons(chunks[0], rest + [c]);
      assert [chunks[0]] + rest == chunks && [chunks[0]] + (rest + [c]) == chunks + [c];
      Associate(OneChunk(chunks[0]), ChunksBytes(rest), OneChunk(c));
    }
  }

  method AppendChunks(buf: seq<byte>, chunks: seq<SdesChunk>) returns (r: Result<seq<byte>, RtcpError>)
    ensures r == if AllFit(chunks) then Ok(buf + ChunksBytes(chunks)) else Err(SdesItemTooLong)
  {
    var out := buf;
    ghost var done := [];
    for k := 0 to |chunks|
      invariant done == chunks[..k] && AllFit(done) && out == buf + ChunksBytes(done)
    {
      r := AppendChunk(out, chunks[k]);
      if r.Err? {
        return r;
      }
      ChunksSnoc(done, chunks[k]);
      Associate(buf, ChunksBytes(done), OneChunk(chunks[k]));
      out := r.value;
      done := done + [chunks[k]];
    }
    assert done == chunks;
    return Ok(out);
  }

  lemma Associate(a: seq<byte>, b: seq<byte>, c: seq<byte>)
    ensures a + b + c == a + (b + c)
  {
  }

  method ReadChunk(buf: seq<byte>) returns (r: Result<(SdesChunk, nat), RtcpError>)
    ensures r == DecodeChunk(buf)
  {
    if |buf| < 4 {
      return Err(TooShort);
    }
    var ssrc := U32At(buf, 0);
    var idx, items := 4, [];
    ghost var raws := [];
    PrependLaws([], Raw(0, []), DecodeItems(buf, 4));
    while idx < |buf|
      invariant idx <= |buf| && items == Items(raws)
      invariant DecodeItems(buf, 4) == Prepend(raws, DecodeItems(buf, idx))
    {
      var t := buf[idx];
      if t == 0 {
        var end := idx + 1;
        var pad := PadOf(end);
        if |buf| < end + pad {
          return Err(Truncated);
        }
        assert raws + [] == raws;
        return Ok((SdesChunk(ssrc, items), end + pad));
      }
      if |buf| < idx + 2 {
        return Err(SdesItemTooShort);
      }
      var len := buf[idx + 1] as int;
      if |buf| < idx + 2 + len {
        return Err(SdesItemTooShort);
      }
      var raw := Raw(t, buf[idx + 2..idx + 2 + len]);
      PrependLaws(raws, raw, DecodeItems(buf, idx + 2 + len));
      raws := raws + [raw];
      items := items + [ItemOf(raw)];
      idx := idx + 2 + len;
    }
    assert raws + [] == raws;
    return Ok((SdesChunk(ssrc, items), idx));
  }

  method ReadSdes(payload: seq<byte>) returns (r: Result<seq<SdesChunk>, RtcpError>)
    ensures r == DecodeChunks(payload)
  {
    var chunks, idx := [], 0;
    assert payload[0..] == payload;
    ChainLaws([], SdesChunk(0, []), DecodeChunks(payload));
    while idx + 4 <= |payload|
      invariant idx <= |payload|
      invariant DecodeChunks(payload) == Chain(chunks, DecodeChunks(payload[idx..]))
    {
      var first := ReadChunk(payload[idx..]);
      if first.Err? {
        return Err(first.error);
      }
      var (chunk, used) := first.value;
      assert payload[idx..][used..] == payload[idx + used..];
      ChainLaws(chunks, chunk, DecodeChunks(payload[idx + used..]));
      chunks := chunks + [chunk];
      idx := idx + used;
    }
    if idx != |payload| {
      return Err(Truncated);
    }
    assert chunks + [] == chunks;
    return Ok(chunks);
  }
}
