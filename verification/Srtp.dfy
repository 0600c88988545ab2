/**
 SRTP packet protection (RFC 3711): rollover counters, initialisation vectors,
 encryption and authentication of RTP packets. The block cipher and the hash are
 parameters of the model.
 */
module Srtp {
  import opened Bytes
  import opened Bits
  import opened Replay
  import Rtp

  const AUTH_TAG_LEN := 10

  type Digest = s: seq<byte> | |s| == 20 witness seq(20, _ => 0)
  type Salt = s: seq<byte> | |s| == 14 witness seq(14, _ => 0)

  /** AES-128 in counter mode, byte by byte, and HMAC-SHA1. */
  datatype Crypto = Crypto(
    stream: (seq<byte>, seq<byte>, nat) -> byte,
    hmac: (seq<byte>, seq<byte>) -> Digest)

  datatype SessionKeys = SessionKeys(encKey: seq<byte>, authKey: seq<byte>, salt: Salt)

  datatype SrtpError = TooShort | HeaderTooShort | ReplayDetected | AuthTagMismatch

  // ---- header length -----------------------------------------------------

  function HeaderLen(packet: seq<byte>): Result<nat, SrtpError> {
    if |packet| < 12 then Err(HeaderTooShort)
    else
      var len := 12 + packet[0] % 16 * 4;
      if packet[0] / 16 % 2 == 0 then
        if |packet| < len then Err(HeaderTooShort) else Ok(len)
      else if |packet| < len + 4 then Err(HeaderTooShort)
      else
        var total := len + 4 + U16At(packet, len + 2) * 4;
        if |packet| < total then Err(HeaderTooShort) else Ok(total)
  }

  method GetRtpHeaderLen(packet: seq<byte>) returns (r: Result<nat, SrtpError>)
    ensures r == HeaderLen(packet)
    ensures r.Ok? ==> 12 <= r.value <= |packet|
  {
    if |packet| < 12 {
      return Err(HeaderTooShort);
    }
    var cc := packet[0] % 16;
    var x := packet[0] / 16 % 2 != 0;
    var len: int := 12 + cc * 4;
    if x {
      if |packet| < len + 4 {
        return Err(HeaderTooShort);
      }
      var extLen: int := U16At(packet, len + 2);
      len := len + 4 + extLen * 4;
    }
    if |packet| < len {
      return Err(HeaderTooShort);
    }
    return Ok(len);
  }

  /** A buffer is a decodable RTP packet exactly if its header length is found, its version is 2
      and its padding count, if announced, fits behind the header. */
  lemma DecodableIff(buf: seq<byte>)
    ensures Rtp.Decode(buf).Ok? <==>
            && HeaderLen(buf).Ok?
            && buf[0] / 64 == Rtp.RTP_VERSION
            && (buf[0] / 32 % 2 == 1 ==> 1 <= buf[|buf| - 1] <= |buf| - HeaderLen(buf).value)
  {
  }

  /** SRTP starts encrypting where the RTP decoder starts the payload. */
  lemma HeaderLenIsPayloadStart(buf: seq<byte>)
    requires Rtp.Decode(buf).Ok?
    ensures HeaderLen(buf) == Ok(Rtp.PayloadStart(Rtp.Decode(buf).value.header))
  {
  }

  /** An RTP packet with the given sequence number and SSRC in its header. */
  predicate Addressed(packet: seq<byte>, seqNo: u16, ssrc: u32) {
    HeaderLen(packet).Ok? && U16At(packet, 2) == seqNo && U32At(packet, 8) == ssrc
  }

  // ---- initialisation vector ----------------------------------------------

  /** Where SSRC and packet index are mixed into the salt. */
  function IvMask(ssrc: u32, index: u64): (m: seq<byte>)
    ensures |m| == 16
  {
    [0, 0, 0, 0] + Be32(ssrc) + Be64(index)[2..] + [0, 0]
  }

  function Iv(salt: Salt, ssrc: u32, index: u64): (iv: seq<byte>)
    ensures |iv| == 16
  {
    XorBytes(salt + [0, 0], IvMask(ssrc, index))
  }

  method ComputeIv(salt: Salt, ssrc: u32, index: u64) returns (r: seq<byte>)
    ensures r == Iv(salt, ssrc, index)
  {
    var iv := new byte[16];
    for i := 0 to 14
      invariant forall k :: 0 <= k < i ==> iv[k] == salt[k]
    {
      iv[i] := salt[i];
    }
    iv[14], iv[15] := 0, 0;
    ghost var padded := salt + [0, 0];
    ghost var mask := IvMask(ssrc, index);
    assert iv[..] == padded;
    var ssrcBytes := Be32(ssrc);
    for i := 0 to 4
      invariant forall k :: 0 <= k < 16 ==> iv[k] == if 4 <= k < 4 + i then XorByte(padded[k], mask[k]) else padded[k]
    {
      assert mask[4 + i] == ssrcBytes[i];
      iv[4 + i] := XorByte(iv[4 + i], ssrcBytes[i]);
    }
    var idxFull := Be64(index);
    for i := 0 to 6
      invariant forall k :: 0 <= k < 16 ==> iv[k] == if 4 <= k < 8 + i then XorByte(padded[k], mask[k]) else padded[k]
    {
      assert mask[8 + i] == idxFull[2 + i];
      iv[8 + i] := XorByte(iv[8 + i], idxFull[2 + i]);
    }
    assert forall k :: 0 <= k < 4 || 14 <= k < 16 ==> mask[k] == 0 && XorByte(padded[k], 0) == padded[k];
    assert iv[..] == Iv(salt, ssrc, index);
    return iv[..];
  }

  /** Under one salt, different (SSRC, 48-bit index) pairs never share an IV, and the two
      low bytes of an IV, where the block counter counts, are always zero. */
  lemma IvInjective(salt: Salt, ssrc: u32, index: u64, ssrc': u32, index': u64)
    requires index < 0x1_0000_0000_0000 && index' < 0x1_0000_0000_0000
    ensures Iv(salt, ssrc, index) == Iv(salt, ssrc', index') ==> ssrc == ssrc' && index == index'
    ensures Iv(salt, ssrc, index)[14..] == [0, 0]
  {
    assert Iv(salt, ssrc, index)[14] == XorByte(0, 0);
    if Iv(salt, ssrc, index) == Iv(salt, ssrc', index') {
      var m, m' := IvMask(ssrc, index), IvMask(ssrc', index');
      XorBytesInjective(salt + [0, 0], m, m');
      assert At(m, 4, Be32(ssrc)) && At(m, 4, Be32(ssrc'));
      Be32At(m, 4, ssrc);
      Be32At(m, 4, ssrc');
      TopBytesZero(index);
      TopBytesZero(index');
      assert Be64(index)[2..] == m[8..14] == Be64(index')[2..];
      assert Be64(index) == [0, 0] + m[8..14] == Be64(index');
      Be64At(Be64(index), 0, index);
      Be64At(Be64(index), 0, index');
    }
  }

  lemma TopBytesZero(index: u64)
    requires index < 0x1_0000_0000_0000
    ensures Be64(index) == [0, 0] + Be64(index)[2..]
  {
    var hi := index / 0x1_0000_0000;
    assert hi < 0x1_0000 && hi / 0x1_0000 == 0;
    assert Be64(index)[0] == 0 && Be64(index)[1] == 0;
  }

  /** The vector byte by byte: the salt, with SSRC and index mixed in from the fifth byte on. */
  lemma IvByByte(salt: Salt, ssrc: u32, index: u64)
    requires index < 0x1_0000_0000_0000
    ensures var (hi, lo) := (index / 0x1_0000_0000, index % 0x1_0000_0000);
            Iv(salt, ssrc, index) ==
            [salt[0], salt[1], salt[2], salt[3],
             XorByte(salt[4], ssrc / 0x100_0000), XorByte(salt[5], ssrc / 0x1_0000 % 0x100),
             XorByte(salt[6], ssrc / 0x100 % 0x100), XorByte(salt[7], ssrc % 0x100),
             XorByte(salt[8], hi / 0x100), XorByte(salt[9], hi % 0x100),
             XorByte(salt[10], lo / 0x100_0000), XorByte(salt[11], lo / 0x1_0000 % 0x100),
             XorByte(salt[12], lo / 0x100 % 0x100), XorByte(salt[13], lo % 0x100), 0, 0]
  {
    var (hi, lo) := (index / 0x1_0000_0000, index % 0x1_0000_0000);
    Be32Bytes(ssrc);
    Be32Bytes(lo);
    assert hi < 0x1_0000 && Be32(hi)[2..] == Be16(hi);
    assert Be64(index)[2..] == Be16(hi) + Be32(lo);
    var (m, iv) := (IvMask(ssrc, index), Iv(salt, ssrc, index));
    assert m == [0, 0, 0, 0] + (Be32(ssrc) + (Be16(hi) + (Be32(lo) + [0, 0])));
    assert forall k :: 0 <= k < 16 ==> iv[k] == XorByte((salt + [0, 0])[k], m[k]);
    assert forall b: byte :: XorByte(b, 0) == b;
  }

  // ---- encryption and authentication ---------------------------------------

  function Keystream(c: Crypto, key: seq<byte>, iv: seq<byte>, n: nat): (s: seq<byte>)
    ensures |s| == n
  {
    seq<byte>(n, (i: nat) => c.stream(key, iv, i))
  }

  /** XOR with the key stream; applied twice it is the identity. */
  function ApplyKeystream(c: Crypto, key: seq<byte>, iv: seq<byte>, data: seq<byte>): (r: seq<byte>)
    ensures |r| == |data|
  {
    XorBytes(data, Keystream(c, key, iv, |data|))
  }

  /** The packet with everything after the header encrypted (or decrypted again). */
  function Crypt(c: Crypto, k: SessionKeys, ssrc: u32, index: u64, packet: seq<byte>, header: nat): (r: seq<byte>)
    requires header <= |packet|
    ensures |r| == |packet|
  {
    packet[..header] + ApplyKeystream(c, k.encKey, Iv(k.salt, ssrc, index), packet[header..])
  }

  function Tag(c: Crypto, k: SessionKeys, content: seq<byte>, roc: u32): (t: seq<byte>)
    ensures |t| == AUTH_TAG_LEN
  {
    c.hmac(k.authKey, content + Be32(roc))[..AUTH_TAG_LEN]
  }

  method ConstantTimeEq(a: seq<byte>, b: seq<byte>) returns (r: bool)
    ensures r <==> a == b
  {
    if |a| != |b| {
      return false;
    }
    var result: nat := 0;
    for i := 0 to |a|
      invariant result == 0 <==> a[..i] == b[..i]
    {
      assert a[..i + 1] == a[..i] + [a[i]] && b[..i + 1] == b[..i] + [b[i]];
      XorZeroIff(a[i], b[i]);
      OrZeroIff(result, Xor(a[i], b[i]));
      result := Or(result, Xor(a[i], b[i]));
    }
    assert a[..|a|] == a && b[..|b|] == b;
    return result == 0;
  }

  lemma XorZeroIff(a: nat, b: nat)
    ensures Xor(a, b) == 0 <==> a == b
  {
    XorSelf(b);
    XorInvolutive(a, b);
  }

  lemma {:induction false} OrZeroIff(a: nat, b: nat)
    ensures Or(a, b) == 0 <==> a == 0 && b == 0
    decreases a + b
  {
    if a != 0 && b != 0 { OrZeroIff(a / 2, b / 2); }
  }

  lemma CryptTwice(c: Crypto, k: SessionKeys, ssrc: u32, index: u64, packet: seq<byte>, header: nat)
    requires header <= |packet|
    ensures Crypt(c, k, ssrc, index, Crypt(c, k, ssrc, index, packet, header), header) == packet
  {
    var iv, data := Iv(k.salt, ssrc, index), packet[header..];
    var once := Crypt(c, k, ssrc, index, packet, header);
    XorBytesInvolutive(data, Keystream(c, k.encKey, iv, |data|));
    assert once[..header] == packet[..header] && once[header..] == ApplyKeystream(c, k.encKey, iv, data);
  }

  // ---- the context ---------------------------------------------------------

  /** Per-SSRC state: rollover counter and sequence number of the last packet, replay window. */
  datatype Ctx = Ctx(rocs: map<u32, u32>, lastSeqs: map<u32, u16>, windows: map<u32, Window>) {

    function RocOf(ssrc: u32): u32 {
      if ssrc in rocs then rocs[ssrc] else 0
    }

    function WindowOf(ssrc: u32): Window {
      if ssrc in windows then windows[ssrc] else EMPTY
    }

    /** The rollover counter a sender uses for its next packet. */
    function NextRoc(ssrc: u32, seqNo: u16): u32 {
      if ssrc !in lastSeqs then 0
      else if seqNo < lastSeqs[ssrc] && lastSeqs[ssrc] - seqNo > 1000 then (RocOf(ssrc) + 1) % 0x1_0000_0000
      else RocOf(ssrc)
    }

    /** The rollover counter a receiver guesses for an incoming packet. */
    function EstimateRoc(ssrc: u32, seqNo: u16): u32 {
      if ssrc !in lastSeqs then 0
      else
        var delta := seqNo as int - lastSeqs[ssrc];
        if delta <= -32768 then (RocOf(ssrc) + 1) % 0x1_0000_0000
        else if delta >= 32768 then (RocOf(ssrc) - 1) % 0x1_0000_0000
        else RocOf(ssrc)
    }

    function Store(ssrc: u32, roc: u32, seqNo: u16): Ctx {
      Ctx(rocs[ssrc := roc], lastSeqs[ssrc := seqNo], windows)
    }
  }

  const FRESH := Ctx(map[], map[], map[])

  function Index(roc: u32, seqNo: u16): (i: u64)
    ensures i < 0x1_0000_0000_0000
  {
    roc * 0x1_0000 + seqNo
  }

  /** A call's effect: the context after it, the packet buffer after it, and the error if it failed. */
  datatype Effect = Effect(ctx: Ctx, packet: seq<byte>, error: Option<SrtpError>)

  function Protect(c: Crypto, k: SessionKeys, ctx: Ctx, ssrc: u32, packet: seq<byte>): Effect {
    if |packet| < 12 then Effect(ctx, packet, Some(TooShort))
    else
      var seqNo := U16At(packet, 2);
      var roc := ctx.NextRoc(ssrc, seqNo);
      var ctx' := ctx.Store(ssrc, roc, seqNo);
      var header := HeaderLen(packet);
      if header.Err? then Effect(ctx', packet, Some(header.error))
      else Effect(ctx', Seal(c, k, ssrc, roc, seqNo, packet), None)
  }

  /** The protected form of a packet: encrypted, with the authentication tag appended. */
  function Seal(c: Crypto, k: SessionKeys, ssrc: u32, roc: u32, seqNo: u16, packet: seq<byte>): seq<byte>
    requires HeaderLen(packet).Ok?
  {
    var content := Crypt(c, k, ssrc, Index(roc, seqNo), packet, HeaderLen(packet).value);
    content + Tag(c, k, content, roc)
  }

  /** Authentication and decryption of a received packet under an assumed rollover counter:
      the buffer afterwards, and the error if there was one. */
  function Open(c: Crypto, k: SessionKeys, roc: u32, packet: seq<byte>): (seq<byte>, Option<SrtpError>)
    requires |packet| >= 12 + AUTH_TAG_LEN
  {
    var content := packet[..|packet| - AUTH_TAG_LEN];
    if Tag(c, k, content, roc) != packet[|packet| - AUTH_TAG_LEN..] then (packet, Some(AuthTagMismatch))
    else
      var header := HeaderLen(content);
      if header.Err? then (content, Some(header.error))
      else (Crypt(c, k, U32At(packet, 8), Index(roc, U16At(packet, 2)), content, header.value), None)
  }

  function Unprotect(c: Crypto, k: SessionKeys, ctx: Ctx, packet: seq<byte>): Effect {
    if |packet| < 12 + AUTH_TAG_LEN then Effect(ctx, packet, Some(TooShort))
    else
      var seqNo, ssrc := U16At(packet, 2), U32At(packet, 8);
      var roc := ctx.EstimateRoc(ssrc, seqNo);
      var index := Index(roc, seqNo);
      var window := ctx.WindowOf(ssrc);
      var touched := ctx.(windows := ctx.windows[ssrc := window]);
      if window.IsReplay(index) then Effect(touched, packet, Some(ReplayDetected))
      else
        var (out, error) := Open(c, k, roc, packet);
        if error.Some? then Effect(touched, out, error)
        else Effect(Ctx(ctx.rocs[ssrc := roc], ctx.lastSeqs[ssrc := seqNo], ctx.windows[ssrc := window.Record(index)]),
                    out, None)
  }

  class SrtpContext {
    const crypto: Crypto
    const keys: SessionKeys
    var rocs: map<u32, u32>
    var lastSeqs: map<u32, u16>
    var windows: map<u32, Window>

    function View(): Ctx
      reads this
    {
      Ctx(rocs, lastSeqs, windows)
    }

    constructor (crypto: Crypto, keys: SessionKeys)
      ensures View() == FRESH && this.keys == keys
    {
      this.crypto, this.keys := crypto, keys;
      rocs, lastSeqs, windows := map[], map[], map[];
    }

    method GetOrCreateRoc(ssrc: u32, seqNo: u16) returns (roc: u32)
      modifies this
      ensures roc == old(View()).NextRoc(ssrc, seqNo)
      ensures View() == old(View()).Store(ssrc, roc, seqNo)
    {
      if ssrc !in lastSeqs {
        lastSeqs := lastSeqs[ssrc := seqNo];
        rocs := rocs[ssrc := 0];
        return 0;
      }
      var lastSeq := lastSeqs[ssrc];
      roc := if ssrc in rocs then rocs[ssrc] else 0;
      if seqNo < lastSeq {
        var diff := lastSeq - seqNo;
        if diff > 1000 {
          roc := (roc + 1) % 0x1_0000_0000;
        }
      }
      lastSeqs := lastSeqs[ssrc := seqNo];
      rocs := rocs[ssrc := roc];
    }

    method CryptBody(ssrc: u32, index: u64, packet: seq<byte>, header: nat) returns (out: seq<byte>)
      requires header <= |packet|
      ensures out == Crypt(crypto, keys, ssrc, index, packet, header)
    {
      var iv := ComputeIv(keys.salt, ssrc, index);
      out := packet[..header] + ApplyKeystream(crypto, keys.encKey, iv, packet[header..]);
    }

    method ProtectPacket(ssrc: u32, packet: seq<byte>) returns (out: seq<byte>, error: Option<SrtpError>)
      modifies this
      ensures Effect(View(), out, error) == Protect(crypto, keys, old(View()), ssrc, packet)
    {
      out := packet;
      if |out| < 12 {
        return out, Some(TooShort);
      }
      var seqNo := U16At(out, 2);
      var roc := GetOrCreateRoc(ssrc, seqNo);
      var index := Index(roc, seqNo);
      var header := GetRtpHeaderLen(out);
      if header.Err? {
        return out, Some(header.error);
      }
      out := CryptBody(ssrc, index, out, header.value);
      var tag := Tag(crypto, keys, out, roc);
      out := out + tag;
      error := None;
    }

    method OpenPacket(roc: u32, packet: seq<byte>) returns (out: seq<byte>, error: Option<SrtpError>)
      requires |packet| >= 12 + AUTH_TAG_LEN
      ensures (out, error) == Open(crypto, keys, roc, packet)
    {
      var tagStart := |packet| - AUTH_TAG_LEN;
      var content, receivedTag := packet[..tagStart], packet[tagStart..];
      var same := ConstantTimeEq(Tag(crypto, keys, content, roc), receivedTag);
      if !same {
        return packet, Some(AuthTagMismatch);
      }
      out := content;
      var header := GetRtpHeaderLen(out);
      if header.Err? {
        return out, Some(header.error);
      }
      out := CryptBody(U32At(packet, 8), Index(roc, U16At(packet, 2)), out, header.value);
      error := None;
    }

    method UnprotectPacket(packet: seq<byte>) returns (out: seq<byte>, error: Option<SrtpError>)
      modifies this
      ensures Effect(View(), out, error) == Unprotect(crypto, keys, old(View()), packet)
    {
      if |packet| < 12 + AUTH_TAG_LEN {
        return packet, Some(TooShort);
      }
      var seqNo, ssrc := U16At(packet, 2), U32At(packet, 8);
      var roc := View().EstimateRoc(ssrc, seqNo);
      var index := Index(roc, seqNo);
      if ssrc !in windows {
        windows := windows[ssrc := EMPTY];
      }
      assert windows == old(windows)[ssrc := old(View()).WindowOf(ssrc)];
      if windows[ssrc].IsReplay(index) {
        return packet, Some(ReplayDetected);
      }
      out, error := OpenPacket(roc, packet);
      if error.None? {
        rocs := rocs[ssrc := roc];
        lastSeqs := lastSeqs[ssrc := seqNo];
        windows := windows[ssrc := windows[ssrc].Record(index)];
        assert windows == old(windows)[ssrc := old(View()).WindowOf(ssrc).Record(index)];
      }
    }
  }

  // ---- what is on the wire ---------------------------------------------------

  /** The bytes after the header are those of the packet, each XORed with the key stream under the given vector. */
  ghost predicate Masked(c: Crypto, key: seq<byte>, iv: seq<byte>, header: nat, plain: seq<byte>, masked: seq<byte>) {
    && |masked| == |plain| && header <= |plain| && masked[..header] == plain[..header]
    && forall j :: header <= j < |plain| ==> masked[j] == XorByte(plain[j], c.stream(key, iv, j - header))
  }

  /** The bytes end in the first ten of the hash over all bytes before them and the four bytes of the counter. */
  ghost predicate Tagged(c: Crypto, key: seq<byte>, roc: u32, wire: seq<byte>) {
    && |wire| >= 10
    && var n := |wire| - 10;
       wire[n..] ==
       c.hmac(key, wire[..n] + [roc / 0x100_0000, roc / 0x1_0000 % 0x100, roc / 0x100 % 0x100, roc % 0x100])[..10]
  }

  lemma CryptMasks(c: Crypto, k: SessionKeys, ssrc: u32, index: u64, packet: seq<byte>, header: nat)
    requires header <= |packet|
    ensures Masked(c, k.encKey, Iv(k.salt, ssrc, index), header, packet, Crypt(c, k, ssrc, index, packet, header))
  {
    var iv, data := Iv(k.salt, ssrc, index), packet[header..];
    var out := Crypt(c, k, ssrc, index, packet, header);
    forall j | header <= j < |packet| ensures out[j] == XorByte(packet[j], c.stream(k.encKey, iv, j - header)) {
      assert out[j] == XorByte(data[j - header], Keystream(c, k.encKey, iv, |data|)[j - header]);
    }
  }

  lemma TagIs(c: Crypto, k: SessionKeys, roc: u32, content: seq<byte>, tag: seq<byte>)
    requires |tag| == 10
    ensures Tag(c, k, content, roc) == tag <==> Tagged(c, k.authKey, roc, content + tag)
  {
    var wire := content + tag;
    Be32Bytes(roc);
    assert wire[..|wire| - 10] == content && wire[|wire| - 10..] == tag;
  }

  /** A protected packet: the header in the clear, the rest XORed with the key stream, and the tag. */
  ghost predicate Sealed(c: Crypto, k: SessionKeys, ssrc: u32, roc: u32, seqNo: u16, packet: seq<byte>, wire: seq<byte>)
    requires HeaderLen(packet).Ok?
  {
    && |wire| == |packet| + 10 && Tagged(c, k.authKey, roc, wire)
    && Masked(c, k.encKey, Iv(k.salt, ssrc, Index(roc, seqNo)), HeaderLen(packet).value, packet, wire[..|packet|])
  }

  lemma SealedBytes(c: Crypto, k: SessionKeys, ssrc: u32, roc: u32, seqNo: u16, packet: seq<byte>)
    requires HeaderLen(packet).Ok?
    ensures Sealed(c, k, ssrc, roc, seqNo, packet, Seal(c, k, ssrc, roc, seqNo, packet))
  {
    var header := HeaderLen(packet).value;
    var content := Crypt(c, k, ssrc, Index(roc, seqNo), packet, header);
    CryptMasks(c, k, ssrc, Index(roc, seqNo), packet, header);
    SealedFrom(c, k, ssrc, roc, seqNo, packet, content, Tag(c, k, content, roc));
  }

  lemma SealedFrom(c: Crypto, k: SessionKeys, ssrc: u32, roc: u32, seqNo: u16, packet: seq<byte>, content: seq<byte>,
                   tag: seq<byte>)
    requires HeaderLen(packet).Ok? && |tag| == 10 && Tag(c, k, content, roc) == tag
    requires Masked(c, k.encKey, Iv(k.salt, ssrc, Index(roc, seqNo)), HeaderLen(packet).value, packet, content)
    ensures Sealed(c, k, ssrc, roc, seqNo, packet, content + tag)
  {
    TagIs(c, k, roc, content, tag);
    assert (content + tag)[..|packet|] == content;
  }

  /** What `protect` answers and puts into the packet, for every packet. */
  lemma ProtectAnswers(c: Crypto, k: SessionKeys, ctx: Ctx, ssrc: u32, packet: seq<byte>)
    ensures var e := Protect(c, k, ctx, ssrc, packet);
            if |packet| < 12 then e.error == Some(TooShort) && e.packet == packet
            else if HeaderLen(packet).Err? then e.error == Some(HeaderTooShort) && e.packet == packet
            else
              var roc := ctx.NextRoc(ssrc, U16At(packet, 2));
              e.error.None? && Sealed(c, k, ssrc, roc, U16At(packet, 2), packet, e.packet)
  {
    if HeaderLen(packet).Ok? {
      SealedBytes(c, k, ssrc, ctx.NextRoc(ssrc, U16At(packet, 2)), U16At(packet, 2), packet);
    }
  }

  /** What an assumed counter makes of a packet: a wrong tag, a header that does not fit, or the packet unmasked. */
  ghost predicate OpenedAs(c: Crypto, k: SessionKeys, roc: u32, packet: seq<byte>, out: seq<byte>,
                           error: Option<SrtpError>)
    requires |packet| >= 22
  {
    var content := packet[..|packet| - 10];
    if !Tagged(c, k.authKey, roc, packet) then error == Some(AuthTagMismatch) && out == packet
    else if HeaderLen(content).Err? then error == Some(HeaderTooShort) && out == content
    else
      && error.None?
      && Masked(c, k.encKey, Iv(k.salt, U32At(packet, 8), Index(roc, U16At(packet, 2))),
                HeaderLen(content).value, content, out)
  }

  lemma OpenAnswers(c: Crypto, k: SessionKeys, roc: u32, packet: seq<byte>)
    requires |packet| >= 22
    ensures OpenedAs(c, k, roc, packet, Open(c, k, roc, packet).0, Open(c, k, roc, packet).1)
  {
    var n := |packet| - 10;
    var content := packet[..n];
    TagMatches(c, k, roc, content, packet[n..], packet);
    if Tagged(c, k.authKey, roc, packet) && HeaderLen(content).Ok? {
      var (ssrc, index, header) := (U32At(packet, 8), Index(roc, U16At(packet, 2)), HeaderLen(content).value);
      CryptMasks(c, k, ssrc, index, content, header);
      Opens(c, k, roc, packet, Crypt(c, k, ssrc, index, content, header));
    }
  }

  lemma Opens(c: Crypto, k: SessionKeys, roc: u32, packet: seq<byte>, out: seq<byte>)
    requires |packet| >= 22 && Tagged(c, k.authKey, roc, packet) && HeaderLen(packet[..|packet| - 10]).Ok?
    requires var content := packet[..|packet| - 10];
             && Tag(c, k, content, roc) == packet[|packet| - 10..]
             && out == Crypt(c, k, U32At(packet, 8), Index(roc, U16At(packet, 2)), content, HeaderLen(content).value)
    ensures Open(c, k, roc, packet) == (out, None)
  {
  }

  lemma TagMatches(c: Crypto, k: SessionKeys, roc: u32, content: seq<byte>, tag: seq<byte>, packet: seq<byte>)
    requires |tag| == 10 && packet == content + tag
    ensures Tag(c, k, content, roc) == tag <==> Tagged(c, k.authKey, roc, packet)
  {
    TagIs(c, k, roc, content, tag);
  }

  /** What `unprotect` answers and leaves in the packet, for every packet: it is too short, a replay, or opened. */
  lemma UnprotectAnswers(c: Crypto, k: SessionKeys, ctx: Ctx, packet: seq<byte>)
    ensures var e := Unprotect(c, k, ctx, packet);
            if |packet| < 22 then e.error == Some(TooShort) && e.packet == packet
            else
              var (seqNo, ssrc) := (U16At(packet, 2), U32At(packet, 8));
              var roc := ctx.EstimateRoc(ssrc, seqNo);
              if ctx.WindowOf(ssrc).IsReplay(Index(roc, seqNo))
              then e.error == Some(ReplayDetected) && e.packet == packet
              else OpenedAs(c, k, roc, packet, e.packet, e.error)
  {
    if |packet| >= 22 {
      var roc := ctx.EstimateRoc(U32At(packet, 8), U16At(packet, 2));
      OpenAnswers(c, k, roc, packet);
      UnprotectOpens(c, k, ctx, packet, roc);
    }
  }

  lemma UnprotectOpens(c: Crypto, k: SessionKeys, ctx: Ctx, packet: seq<byte>, roc: u32)
    requires |packet| >= 22 && roc == ctx.EstimateRoc(U32At(packet, 8), U16At(packet, 2))
    ensures var e := Unprotect(c, k, ctx, packet);
            if ctx.WindowOf(U32At(packet, 8)).IsReplay(Index(roc, U16At(packet, 2)))
            then e.error == Some(ReplayDetected) && e.packet == packet
            else e.packet == Open(c, k, roc, packet).0 && e.error == Open(c, k, roc, packet).1
  {
  }

  // ---- what a single call keeps -------------------------------------------

  /** The receive state of an SSRC, as the next calls see it. */
  ghost predicate SameState(a: Ctx, b: Ctx, ssrc: u32) {
    && (ssrc in a.lastSeqs <==> ssrc in b.lastSeqs)
    && (ssrc in a.lastSeqs ==> a.lastSeqs[ssrc] == b.lastSeqs[ssrc])
    && a.RocOf(ssrc) == b.RocOf(ssrc) && a.WindowOf(ssrc) == b.WindowOf(ssrc)
  }

  /** Opening what was sealed under the same rollover counter restores the packet. */
  lemma OpenSeal(c: Crypto, k: SessionKeys, ssrc: u32, roc: u32, packet: seq<byte>)
    requires HeaderLen(packet).Ok? && U32At(packet, 8) == ssrc
    ensures var wire := Seal(c, k, ssrc, roc, U16At(packet, 2), packet);
            |wire| == |packet| + AUTH_TAG_LEN && U16At(wire, 2) == U16At(packet, 2) && U32At(wire, 8) == ssrc &&
            Open(c, k, roc, wire) == (packet, None)
  {
    var seqNo, header := U16At(packet, 2), HeaderLen(packet).value;
    var content := Crypt(c, k, ssrc, Index(roc, seqNo), packet, header);
    var wire := Seal(c, k, ssrc, roc, seqNo, packet);
    assert wire[..|wire| - AUTH_TAG_LEN] == content && wire[|wire| - AUTH_TAG_LEN..] == Tag(c, k, content, roc);
    HeaderKept(packet, content);
    HeaderKept(packet, wire);
    CryptTwice(c, k, ssrc, Index(roc, seqNo), packet, header);
  }

  /** The effect that `unprotect` has on a packet of an SSRC that opens as `plain` under the guessed counter: it
      is refused as a replay and changes nothing, or its index is recorded. */
  ghost predicate OpenedEffect(ctx: Ctx, e: Effect, ssrc: u32, roc: u32, seqNo: u16, plain: seq<byte>) {
    var w, index := ctx.WindowOf(ssrc), Index(roc, seqNo);
    if w.IsReplay(index) then e.error == Some(ReplayDetected) && SameState(ctx, e.ctx, ssrc)
    else e.error.None? && e.packet == plain &&
         ssrc in e.ctx.lastSeqs && e.ctx.lastSeqs[ssrc] == seqNo && e.ctx.RocOf(ssrc) == roc &&
         e.ctx.WindowOf(ssrc) == w.Record(index)
  }

  lemma UnprotectOpened(c: Crypto, k: SessionKeys, ctx: Ctx, packet: seq<byte>, roc: u32, plain: seq<byte>)
    requires |packet| >= 12 + AUTH_TAG_LEN && Open(c, k, roc, packet) == (plain, None)
    requires ctx.EstimateRoc(U32At(packet, 8), U16At(packet, 2)) == roc
    ensures OpenedEffect(ctx, Unprotect(c, k, ctx, packet), U32At(packet, 8), roc, U16At(packet, 2), plain)
  {
  }

  lemma HeaderKept(a: seq<byte>, b: seq<byte>)
    requires HeaderLen(a).Ok? && |b| >= |a| && b[..HeaderLen(a).value] == a[..HeaderLen(a).value]
    ensures HeaderLen(b) == HeaderLen(a) && U16At(b, 2) == U16At(a, 2) && U32At(b, 8) == U32At(a, 8)
  {
    var n := HeaderLen(a).value;
    assert forall i :: 0 <= i < n ==> a[i] == a[..n][i] && b[i] == b[..n][i];
  }

  /** A rejected packet changes no SSRC's state; an accepted one changes only its own SSRC's. */
  lemma UnprotectFrame(c: Crypto, k: SessionKeys, ctx: Ctx, packet: seq<byte>, ssrc: u32)
    ensures var e := Unprotect(c, k, ctx, packet);
            e.error.Some? || U32At(packet, 8) != ssrc ==> SameState(ctx, e.ctx, ssrc)
  {
  }

  // ---- a call that fails ---------------------------------------------------

  /** Protecting changes no SSRC's state but the one it is called for. */
  lemma ProtectFrame(c: Crypto, k: SessionKeys, ctx: Ctx, ssrc: u32, packet: seq<byte>, other: u32)
    requires other != ssrc
    ensures SameState(ctx, Protect(c, k, ctx, ssrc, packet).ctx, other)
  {
  }

  /** Whether the context already holds the packet's number as the last one of its SSRC. */
  predicate Stored(ctx: Ctx, ssrc: u32, seqNo: u16) {
    ssrc in ctx.rocs && ssrc in ctx.lastSeqs && ctx.lastSeqs[ssrc] == seqNo
  }

  /** A failed call of `protect` leaves the context as it was exactly if the packet is shorter than the fixed
      header, or its number is the last one stored: counter and number are stored before the header is read. */
  lemma FailedProtectKeepsIff(c: Crypto, k: SessionKeys, ctx: Ctx, ssrc: u32, packet: seq<byte>)
    requires Protect(c, k, ctx, ssrc, packet).error.Some?
    ensures Protect(c, k, ctx, ssrc, packet).ctx == ctx <==> |packet| < 12 || Stored(ctx, ssrc, U16At(packet, 2))
  {
    if |packet| >= 12 {
      var seqNo := U16At(packet, 2);
      var e := Protect(c, k, ctx, ssrc, packet);
      assert Stored(e.ctx, ssrc, seqNo);
      if Stored(ctx, ssrc, seqNo) {
        assert ctx.NextRoc(ssrc, seqNo) == ctx.rocs[ssrc];
        assert e.ctx.rocs == ctx.rocs && e.ctx.lastSeqs == ctx.lastSeqs;
      }
    }
  }

  /** A header cut off after twelve bytes fails, and its number is stored all the same. */
  lemma FailedProtectStores(c: Crypto, k: SessionKeys)
    ensures var e := Protect(c, k, FRESH, 5, [0x90, 0, 0, 7, 0, 0, 0, 0, 0, 0, 0, 5]);
            e.error == Some(HeaderTooShort) && e.ctx == Ctx(map[5 := 0], map[5 := 7], map[])
  {
  }

  // ---- the guessed counter ---------------------------------------------------

  /** Less than 2^15 away, or exactly 2^15 away and in the neighbouring rollover period. */
  predicate Near(last: int, index: int) {
    || -32768 < index - last < 32768
    || (-32768 <= index - last <= 32768 && index / 0x1_0000 != last / 0x1_0000)
  }

  /** The guess from the last accepted index `last` is right exactly if the new index is near it, where
      indices are taken modulo 2^48. */
  lemma EstimateExactIff(ctx: Ctx, ssrc: u32, last: nat, index: nat)
    requires last < 0x1_0000_0000_0000 && index < 0x1_0000_0000_0000
    requires ssrc in ctx.lastSeqs && ctx.lastSeqs[ssrc] == last % 0x1_0000 && ctx.RocOf(ssrc) == last / 0x1_0000
    ensures ctx.EstimateRoc(ssrc, index % 0x1_0000) == index / 0x1_0000 <==>
            || Near(last, index)
            || Near(last, index + 0x1_0000_0000_0000)
            || Near(last + 0x1_0000_0000_0000, index)
  {
    var q, r := last / 0x1_0000, last % 0x1_0000;
    var q', r' := index / 0x1_0000, index % 0x1_0000;
    NearIff(q, r, q', r');
    NearIff(q, r, q' + 0x1_0000_0000, r');
    NearIff(q + 0x1_0000_0000, r, q', r');
    GuessIs(ctx, ssrc, q, r, r');
  }

  /** Nearness by rollover periods and sequence numbers. */
  lemma NearIff(q: nat, r: u16, q': nat, r': u16)
    ensures Near(q * 0x1_0000 + r, q' * 0x1_0000 + r') <==>
            q' == (if r' - r <= -32768 then q + 1 else if r' - r >= 32768 then q - 1 else q)
  {
    var d := q' * 0x1_0000 + r' - (q * 0x1_0000 + r);
    assert d == (q' - q) * 0x1_0000 + (r' - r);
    if q' - q >= 2 {
      assert d > 32768;
    } else if q' - q <= -2 {
      assert d < -32768;
    }
  }

  lemma GuessIs(ctx: Ctx, ssrc: u32, q: u32, r: u16, r': u16)
    requires ssrc in ctx.lastSeqs && ctx.lastSeqs[ssrc] == r && ctx.RocOf(ssrc) == q
    ensures ctx.EstimateRoc(ssrc, r') ==
            if r' - r <= -32768 then (if q == 0xFFFF_FFFF then 0 else q + 1)
            else if r' - r >= 32768 then (if q == 0 then 0xFFFF_FFFF else q - 1)
            else q
  {
  }
}
