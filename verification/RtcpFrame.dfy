/**
 The common header and the compound datagram, for any way of encoding and decoding what stands behind a
 header (section 6.1 of RFC 3550).
 */
module RtcpFrame {
  import opened Bytes
  import opened RtcpTypes

  /** What an encoder puts behind the common header, and the count and type it puts into it. */
  datatype Content = Content(count: nat, pt: byte, body: seq<byte>)

  /** How packets become contents, and how a type, a count and a payload become a packet. */
  datatype Codec = Codec(
    content: RtcpPacket -> Result<Content, RtcpError>,
    body: (byte, byte, seq<byte>) -> Result<RtcpPacket, RtcpError>)

  /** Zeros that align a body behind the four header bytes. */
  function Zeros(body: seq<byte>): (s: seq<byte>)
    ensures |s| < 4 && (s == [] <==> |body| % 4 == 0) && 4 + |body| + |s| == Aligned(4 + |body|)
  {
    Repeat(0, Aligned(4 + |body|) - (4 + |body|))
  }

  lemma NoZeros(body: seq<byte>)
    requires |body| % 4 == 0
    ensures body + Zeros(body) == body
  {
  }

  lemma Below32(n: nat)
    requires n < 32
    ensures n % 32 == n
  {
  }

  lemma ZerosIff(body: seq<byte>, words: nat, tail: seq<byte>)
    requires |body| == 4 * words + |tail|
    ensures tail + Zeros(body) == tail <==> |tail| % 4 == 0
  {
  }

  /** Length of the packet in words, less one. */
  function LengthWords(body: seq<byte>): nat {
    Aligned(4 + |body|) / 4 - 1
  }

  function Frame(c: Content): (s: seq<byte>)
    ensures |s| == Aligned(4 + |c.body|) == 4 * (LengthWords(c.body) + 1)
  {
    [0x80 + c.count % 32, c.pt] + (Be16(LengthWords(c.body) % 0x1_0000) + (c.body + Zeros(c.body)))
  }

  function EncodeOne(k: Codec, p: RtcpPacket): Result<seq<byte>, RtcpError> {
    var c := k.content(p);
    if c.Err? then Err(c.error) else Ok(Frame(c.value))
  }

  /** The payload without its padding, whose length stands in its last byte. */
  function Unpadded(padding: bool, payload: seq<byte>): Result<seq<byte>, RtcpError> {
    if !padding then Ok(payload)
    else if payload == [] then Err(PaddingTooShort)
    else
      var pad := payload[|payload| - 1];
      if pad == 0 || pad > |payload| then Err(PaddingTooShort) else Ok(payload[..|payload| - pad])
  }

  /** Bytes that the packet at the front of b announces. */
  function Total(b: seq<byte>): nat
    requires |b| >= 4
  {
    (U16At(b, 2) as int + 1) * 4
  }

  /** The packet at the front of b. */
  function DecodeFirst(k: Codec, b: seq<byte>): (r: Result<RtcpPacket, RtcpError>)
    requires |b| >= 4
    ensures r.Ok? ==> Total(b) <= |b|
  {
    if b[0] / 64 != 2 then Err(BadVersion(b[0] / 64))
    else if |b| < Total(b) then Err(TooShort)
    else
      var payload := Unpadded(b[0] / 32 % 2 != 0, b[4..Total(b)]);
      if payload.Err? then Err(payload.error) else k.body(b[1], b[0] % 32, payload.value)
  }

  function Join(ps: seq<RtcpPacket>, r: Result<seq<RtcpPacket>, RtcpError>): Result<seq<RtcpPacket>, RtcpError> {
    if r.Err? then r else Ok(ps + r.value)
  }

  function DecodeAll(k: Codec, b: seq<byte>): Result<seq<RtcpPacket>, RtcpError>
    decreases |b|
  {
    if |b| < 4 then if b == [] then Ok([]) else Err(TooShort)
    else
      var first := DecodeFirst(k, b);
      if first.Err? then Err(first.error) else Join([first.value], DecodeAll(k, b[Total(b)..]))
  }

  function DecodeCompound(k: Codec, b: seq<byte>): Result<seq<RtcpPacket>, RtcpError> {
    if |b| < 4 then Err(TooShort) else DecodeAll(k, b)
  }

  function Append(b: seq<byte>, r: Result<seq<byte>, RtcpError>): Result<seq<byte>, RtcpError> {
    if r.Err? then r else Ok(b + r.value)
  }

  function EncodeCompound(k: Codec, ps: seq<RtcpPacket>): Result<seq<byte>, RtcpError> {
    if ps == [] then Ok([])
    else
      var first := EncodeOne(k, ps[0]);
      if first.Err? then first else Append(first.value, EncodeCompound(k, ps[1..]))
  }

  /** The packet encodes, its body decodes to it, and its length fits the header. */
  predicate Faithful(k: Codec, p: RtcpPacket) {
    var c := k.content(p);
    && c.Ok? && LengthWords(c.value.body) < 0x1_0000
    && k.body(c.value.pt, c.value.count % 32, c.value.body + Zeros(c.value.body)) == Ok(p)
  }

  // ---------- Framing ----------

  lemma FrameHeader(c: Content, rest: seq<byte>)
    ensures var b := Frame(c) + rest;
      && |b| >= 4 && b[0] == 0x80 + c.count % 32 && b[1] == c.pt
      && Total(b) == 4 * (LengthWords(c.body) % 0x1_0000 + 1)
      && b[4..|Frame(c)|] == c.body + Zeros(c.body)
  {
    var (h, n, t) := ([0x80 + c.count % 32, c.pt], Be16(LengthWords(c.body) % 0x1_0000), c.body + Zeros(c.body));
    var b := h + (n + (t + rest));
    assert Frame(c) + rest == b;
    AtParts(h, n, t + rest);
    Be16At(b, 2, LengthWords(c.body) % 0x1_0000);
    assert b[4..4 + |t|] == t;
  }

  /** A frame whose length fits is decoded as the body it carries, whatever follows it. */
  lemma FrameDecoded(k: Codec, c: Content, rest: seq<byte>)
    requires LengthWords(c.body) < 0x1_0000
    ensures var b := Frame(c) + rest;
      |b| >= 4 && Total(b) == |Frame(c)| && DecodeFirst(k, b) == k.body(c.pt, c.count % 32, c.body + Zeros(c.body))
  {
    FrameHeader(c, rest);
    Below64K(LengthWords(c.body));
    HeaderBits(c.count % 32);
    UnpaddedFirst(k, Frame(c) + rest, |Frame(c)|);
  }

  lemma Below64K(n: nat)
    requires n < 0x1_0000
    ensures n % 0x1_0000 == n
  {
  }

  lemma HeaderBits(count: byte)
    requires count < 32
    ensures (0x80 + count) / 64 == 2 && (0x80 + count) / 32 % 2 == 0 && (0x80 + count) % 32 == count
  {
  }

  lemma UnpaddedFirst(k: Codec, b: seq<byte>, total: nat)
    requires 4 <= total <= |b| && Total(b) == total && b[0] / 64 == 2 && b[0] / 32 % 2 == 0
    ensures DecodeFirst(k, b) == k.body(b[1], b[0] % 32, b[4..total])
  {
  }

  lemma OneDecoded(k: Codec, p: RtcpPacket, rest: seq<byte>)
    requires Faithful(k, p)
    ensures EncodeOne(k, p).Ok? && DecodeAll(k, EncodeOne(k, p).value + rest) == Join([p], DecodeAll(k, rest))
  {
    var c := k.content(p).value;
    FrameDecoded(k, c, rest);
    assert (Frame(c) + rest)[|Frame(c)|..] == rest;
  }

  /** A length that does not fit makes the decoder stop early, so that it never sees a single packet. */
  lemma OverlongNotOne(k: Codec, c: Content, p: RtcpPacket)
    requires LengthWords(c.body) >= 0x1_0000
    ensures DecodeAll(k, Frame(c)) != Ok([p])
  {
    var b := Frame(c);
    FrameHeader(c, []);
    assert b + [] == b;
    if DecodeAll(k, b).Ok? {
      var tail := b[Total(b)..];
      assert tail != [];
      assert DecodeAll(k, tail).value != [];
      assert |DecodeAll(k, b).value| >= 2;
    }
  }

  lemma OnePacket(k: Codec, b: seq<byte>)
    requires |b| >= 4 && Total(b) == |b|
    ensures var first := DecodeFirst(k, b);
      DecodeAll(k, b) == if first.Err? then Err(first.error) else Ok([first.value])
  {
    assert b[|b|..] == [];
    assert DecodeAll(k, []) == Ok([]);
    if DecodeFirst(k, b).Ok? {
      assert [DecodeFirst(k, b).value] + [] == [DecodeFirst(k, b).value];
    }
  }

  /** A packet that encodes comes back alone and unchanged exactly if it is faithful. */
  lemma RoundTripIff(k: Codec, p: RtcpPacket)
    requires EncodeOne(k, p).Ok?
    ensures DecodeCompound(k, EncodeOne(k, p).value) == Ok([p]) <==> Faithful(k, p)
  {
    var c := k.content(p).value;
    var b := Frame(c);
    if LengthWords(c.body) >= 0x1_0000 {
      OverlongNotOne(k, c, p);
    } else {
      FrameDecoded(k, c, []);
      assert b + [] == b && b[|b|..] == [];
      OnePacket(k, b);
    }
  }

  /** Encoding then decoding any list of faithful packets gives the list back. */
  lemma {:induction false} CompoundRoundTrip(k: Codec, ps: seq<RtcpPacket>)
    requires forall p <- ps :: Faithful(k, p)
    ensures EncodeCompound(k, ps).Ok? && DecodeAll(k, EncodeCompound(k, ps).value) == Ok(ps)
    ensures ps != [] ==> DecodeCompound(k, EncodeCompound(k, ps).value) == Ok(ps)
  {
    if ps != [] {
      CompoundRoundTrip(k, ps[1..]);
      OneDecoded(k, ps[0], EncodeCompound(k, ps[1..]).value);
      assert ps == [ps[0]] + ps[1..];
    }
  }

  // ---------- Concatenation ----------

  lemma FirstLocal(k: Codec, a: seq<byte>, b: seq<byte>)
    requires |a| >= 4 && DecodeFirst(k, a).Ok?
    ensures Total(a + b) == Total(a) && DecodeFirst(k, a + b) == DecodeFirst(k, a)
  {
    assert (a + b)[4..Total(a)] == a[4..Total(a)];
  }

  lemma {:induction false} AllConcat(k: Codec, a: seq<byte>, b: seq<byte>)
    requires DecodeAll(k, a).Ok?
    ensures DecodeAll(k, a + b) == Join(DecodeAll(k, a).value, DecodeAll(k, b))
    decreases |a|
  {
    if a == [] {
      assert a + b == b;
      JoinNil(DecodeAll(k, b));
    } else {
      var n := Total(a);
      FirstLocal(k, a, b);
      assert (a + b)[n..] == a[n..] + b;
      AllConcat(k, a[n..], b);
      JoinAssoc([DecodeFirst(k, a).value], DecodeAll(k, a[n..]).value, DecodeAll(k, b));
    }
  }

  lemma JoinNil(r: Result<seq<RtcpPacket>, RtcpError>)
    ensures Join([], r) == r
  {
    if r.Ok? {
      assert [] + r.value == r.value;
    }
  }

  lemma JoinAssoc(ps: seq<RtcpPacket>, qs: seq<RtcpPacket>, r: Result<seq<RtcpPacket>, RtcpError>)
    ensures Join(ps, Join(qs, r)) == Join(ps + qs, r)
  {
    if r.Ok? {
      assert ps + (qs + r.value) == ps + qs + r.value;
    }
  }

  /** If two datagrams decode, their concatenation decodes to the packets of both. */
  lemma CompoundConcat(k: Codec, a: seq<byte>, b: seq<byte>)
    requires DecodeCompound(k, a).Ok? && DecodeCompound(k, b).Ok?
    ensures DecodeCompound(k, a + b) == Ok(DecodeCompound(k, a).value + DecodeCompound(k, b).value)
  {
    AllConcat(k, a, b);
  }

  // ---------- Appending a frame ----------

  /** The end of every encoder: aligns what was appended to start and writes its length over the header. */
  method Finish(buf: seq<byte>, start: seq<byte>, ghost c: Content) returns (out: seq<byte>)
    requires buf == start + [0x80 + c.count % 32, c.pt, 0, 0] + c.body
    ensures out == start + Frame(c)
  {
    out := buf;
    var pad := PadOf(|out| - |start|);
    if pad != 0 {
      out := out + Repeat(0, pad);
    }
    var total := |out| - |start|;
    var lenWords := total / 4 - 1;
    assert lenWords == LengthWords(c.body);
    out := out[|start| + 2 := lenWords / 0x100 % 0x100];
    out := out[|start| + 3 := lenWords % 0x100];
    LowBytes(lenWords);
    assert out == start + ([0x80 + c.count % 32, c.pt] + (Be16(lenWords % 0x1_0000) + (c.body + Zeros(c.body))));
  }

  lemma LowBytes(n: nat)
    ensures Be16(n % 0x1_0000) == [n / 0x100 % 0x100, n % 0x100]
  {
    var (k, r) := (n / 0x1_0000, n % 0x1_0000);
    var (hi, lo) := (r / 0x100, r % 0x100);
    assert n == (k * 0x100 + hi) * 0x100 + lo;
    Quotient8(k * 0x100 + hi, lo);
    Quotient8(k, hi);
  }

  // ---------- The decoding loop ----------

  ghost predicate DecodesTo(k: Codec, buf: seq<byte>, r: Result<seq<RtcpPacket>, RtcpError>) {
    DecodeCompound(k, buf) == r
  }

  /** The packets read up to idx are out. */
  ghost predicate UpTo(k: Codec, buf: seq<byte>, out: seq<RtcpPacket>, idx: nat)
    requires idx <= |buf|
  {
    DecodeAll(k, buf) == Join(out, DecodeAll(k, buf[idx..]))
  }

  lemma LoopStarts(k: Codec, buf: seq<byte>)
    ensures UpTo(k, buf, [], 0)
  {
    assert buf[0..] == buf;
    JoinNil(DecodeAll(k, buf));
  }

  /** The result of one round: the packet at the front of rest with the bytes it takes, or the error. */
  ghost predicate RoundIs(k: Codec, rest: seq<byte>, r: Result<(RtcpPacket, nat), RtcpError>)
    requires |rest| >= 4
  {
    r == Located(DecodeFirst(k, rest), Total(rest))
  }

  lemma LoopStep(k: Codec, buf: seq<byte>, idx: nat, out: seq<RtcpPacket>, r: Result<(RtcpPacket, nat), RtcpError>)
    requires idx + 4 <= |buf| && RoundIs(k, buf[idx..], r) && UpTo(k, buf, out, idx)
    ensures if r.Err? then DecodesTo(k, buf, Err(r.error))
            else 0 < r.value.1 && idx + r.value.1 <= |buf| && UpTo(k, buf, out + [r.value.0], idx + r.value.1)
  {
    if r.Ok? {
      LoopTakes(k, buf, idx, out, r.value.0, r.value.1);
    } else {
      LoopFails(k, buf, idx, out, r.error);
    }
  }

  lemma AllSplits(k: Codec, b: seq<byte>, p: RtcpPacket, total: nat)
    requires |b| >= 4 && DecodeFirst(k, b) == Ok(p) && total == Total(b)
    ensures 0 < total <= |b| && DecodeAll(k, b) == Join([p], DecodeAll(k, b[total..]))
  {
  }

  lemma LoopTakes(k: Codec, buf: seq<byte>, idx: nat, out: seq<RtcpPacket>, p: RtcpPacket, total: nat)
    requires idx + 4 <= |buf| && DecodeFirst(k, buf[idx..]) == Ok(p) && total == Total(buf[idx..])
    requires UpTo(k, buf, out, idx)
    ensures 0 < total && idx + total <= |buf| && UpTo(k, buf, out + [p], idx + total)
  {
    AllSplits(k, buf[idx..], p, total);
    assert buf[idx..][total..] == buf[idx + total..];
    JoinAssoc(out, [p], DecodeAll(k, buf[idx + total..]));
  }

  lemma LoopFails(k: Codec, buf: seq<byte>, idx: nat, out: seq<RtcpPacket>, e: RtcpError)
    requires idx + 4 <= |buf| && DecodeFirst(k, buf[idx..]) == Err(e) && UpTo(k, buf, out, idx)
    ensures DecodesTo(k, buf, Err(e))
  {
  }

  lemma LoopEnds(k: Codec, buf: seq<byte>, idx: nat, out: seq<RtcpPacket>)
    requires 4 <= |buf| && idx <= |buf| < idx + 4 && UpTo(k, buf, out, idx)
    ensures DecodesTo(k, buf, if idx == |buf| then Ok(out) else Err(TooShort))
  {
    assert out + [] == out;
  }

  /** A decoded packet with the bytes it takes. */
  function Located(r: Result<RtcpPacket, RtcpError>, total: nat): Result<(RtcpPacket, nat), RtcpError> {
    match r
    case Ok(p) => Ok((p, total))
    case Err(e) => Err(e)
  }

  /** The packets still to be encoded behind what out holds. */
  ghost predicate EncodesTo(k: Codec, ps: seq<RtcpPacket>, out: seq<byte>, i: nat)
    requires i <= |ps|
  {
    EncodeCompound(k, ps) == Append(out, EncodeCompound(k, ps[i..]))
  }

  lemma EncodingStarts(k: Codec, ps: seq<RtcpPacket>)
    ensures EncodesTo(k, ps, [], 0)
  {
    assert ps[0..] == ps;
    AppendNil(EncodeCompound(k, ps));
  }

  lemma EncodingStep(k: Codec, ps: seq<RtcpPacket>, out: seq<byte>, i: nat)
    requires i < |ps| && EncodesTo(k, ps, out, i)
    ensures var next := Append(out, EncodeOne(k, ps[i]));
      if next.Err? then EncodeCompound(k, ps) == next else EncodesTo(k, ps, next.value, i + 1)
  {
    assert ps[i..][1..] == ps[i + 1..];
    if EncodeOne(k, ps[i]).Ok? {
      AppendAssoc(out, EncodeOne(k, ps[i]).value, EncodeCompound(k, ps[i + 1..]));
    }
  }

  lemma EncodingEnds(k: Codec, ps: seq<RtcpPacket>, out: seq<byte>)
    requires EncodesTo(k, ps, out, |ps|)
    ensures EncodeCompound(k, ps) == Ok(out)
  {
    assert out + [] == out;
  }

  lemma AppendNil(r: Result<seq<byte>, RtcpError>)
    ensures Append([], r) == r
  {
    if r.Ok? {
      assert [] + r.value == r.value;
    }
  }

  lemma AppendAssoc(a: seq<byte>, b: seq<byte>, r: Result<seq<byte>, RtcpError>)
    ensures Append(a, Append(b, r)) == Append(a + b, r)
  {
    if r.Ok? {
      assert a + (b + r.value) == a + b + r.value;
    }
  }
}
