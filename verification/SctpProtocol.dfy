/** The file-transfer messages carried over SCTP and their wire format (src/sctp/protocol.rs). */
module SctpProtocol {
  import opened Bytes
  import Utf8

  datatype Message =
    | Offer(id: u32, filename: string, fileSize: u64)
    | Accept(id: u32)
    | Reject(id: u32)
    | Cancel(id: u32)
    | Chunk(id: u32, num: u64, payload: seq<byte>)
    | EndFile(id: u32)

  datatype IoError = UnexpectedEof | InvalidData

  const TYPE_OFFER: byte := 1
  const TYPE_ACCEPT: byte := 2
  const TYPE_REJECT: byte := 3
  const TYPE_CANCEL: byte := 4
  const TYPE_CHUNK: byte := 5
  const TYPE_END_FILE: byte := 6

  function OfferBytes(id: u32, name: seq<byte>, fileSize: u64): seq<byte> {
    [TYPE_OFFER] + (Be32(id) + (Be64(fileSize) + (Be16(|name| % 0x1_0000) + name)))
  }

  function ChunkBytes(id: u32, num: u64, payload: seq<byte>): seq<byte> {
    [TYPE_CHUNK] + (Be32(id) + (Be64(num) + (Be32(|payload| % 0x1_0000_0000) + payload)))
  }

  function Serialize(m: Message): seq<byte> {
    match m
    case Offer(id, filename, fileSize) => OfferBytes(id, Utf8.Encode(filename), fileSize)
    case Accept(id) => [TYPE_ACCEPT] + Be32(id)
    case Reject(id) => [TYPE_REJECT] + Be32(id)
    case Cancel(id) => [TYPE_CANCEL] + Be32(id)
    case Chunk(id, num, payload) => ChunkBytes(id, num, payload)
    case EndFile(id) => [TYPE_END_FILE] + Be32(id)
  }

  function ReadOffer(data: seq<byte>): Result<Message, IoError> {
    if |data| < 15 || |data| < 15 + U16At(data, 13) as int then Err(UnexpectedEof)
    else
      var name := Utf8.Decode(data[15..15 + U16At(data, 13) as int]);
      if name.None? then Err(InvalidData) else Ok(Offer(U32At(data, 1), name.value, U64At(data, 5)))
  }

  function ReadChunk(data: seq<byte>): Result<Message, IoError> {
    if |data| < 17 || |data| < 17 + U32At(data, 13) as int then Err(UnexpectedEof)
    else Ok(Chunk(U32At(data, 1), U64At(data, 5), data[17..17 + U32At(data, 13) as int]))
  }

  function Deserialize(data: seq<byte>): Result<Message, IoError> {
    if |data| < 1 then Err(UnexpectedEof)
    else if data[0] == TYPE_OFFER then ReadOffer(data)
    else if data[0] == TYPE_CHUNK then ReadChunk(data)
    else if !(TYPE_ACCEPT <= data[0] <= TYPE_END_FILE) then Err(InvalidData)
    else if |data| < 5 then Err(UnexpectedEof)
    else if data[0] == TYPE_ACCEPT then Ok(Accept(U32At(data, 1)))
    else if data[0] == TYPE_REJECT then Ok(Reject(U32At(data, 1)))
    else if data[0] == TYPE_CANCEL then Ok(Cancel(U32At(data, 1)))
    else Ok(EndFile(U32At(data, 1)))
  }

  /** Whether the lengths a message carries fit their fields. */
  predicate Fits(m: Message) {
    match m
    case Offer(_, filename, _) => |Utf8.Encode(filename)| < 0x1_0000
    case Chunk(_, _, payload) => |payload| < 0x1_0000_0000
    case _ => true
  }

  // ---------- Round trip ----------

  lemma HeadAt(kind: byte, id: u32, num: u64, rest: seq<byte>)
    ensures var data := [kind] + (Be32(id) + (Be64(num) + rest));
      |data| == 13 + |rest| && data[0] == kind && U32At(data, 1) == id && U64At(data, 5) == num && At(data, 13, rest)
  {
    var data := [kind] + (Be32(id) + (Be64(num) + rest));
    AtParts([kind], Be32(id), Be64(num) + rest);
    AtConcat(data, 5, Be64(num), rest);
    Be32At(data, 1, id);
    Be64At(data, 5, num);
  }

  lemma OfferRead(id: u32, name: seq<byte>, fileSize: u64)
    ensures ReadOffer(OfferBytes(id, name, fileSize)) ==
      var r := Utf8.Decode(name[..|name| % 0x1_0000]);
      if r.None? then Err(InvalidData) else Ok(Offer(id, r.value, fileSize))
    ensures OfferBytes(id, name, fileSize)[0] == TYPE_OFFER
  {
    var (data, n) := (OfferBytes(id, name, fileSize), |name| % 0x1_0000);
    HeadAt(TYPE_OFFER, id, fileSize, Be16(n) + name);
    AtConcat(data, 13, Be16(n), name);
    Be16At(data, 13, n);
    assert data[15..15 + n] == data[15..15 + |name|][..n];
  }

  lemma ChunkRead(id: u32, num: u64, payload: seq<byte>)
    ensures ReadChunk(ChunkBytes(id, num, payload)) == Ok(Chunk(id, num, payload[..|payload| % 0x1_0000_0000]))
    ensures ChunkBytes(id, num, payload)[0] == TYPE_CHUNK
  {
    var (data, n) := (ChunkBytes(id, num, payload), |payload| % 0x1_0000_0000);
    HeadAt(TYPE_CHUNK, id, num, Be32(n) + payload);
    AtConcat(data, 13, Be32(n), payload);
    Be32At(data, 13, n);
    assert data[17..17 + n] == data[17..17 + |payload|][..n];
  }

  lemma PlainRead(kind: byte, id: u32)
    ensures var data := [kind] + Be32(id); |data| == 5 && data[0] == kind && U32At(data, 1) == id
  {
    AtConcat([kind] + Be32(id), 0, [kind], Be32(id));
    Be32At([kind] + Be32(id), 1, id);
  }

  /** A name cut off by its length field is not the name any more. */
  lemma CutName(filename: string, n: nat)
    requires n < |Utf8.Encode(filename)|
    ensures Utf8.Decode(Utf8.Encode(filename)[..n]) != Some(filename)
  {
    var cut := Utf8.Encode(filename)[..n];
    if Utf8.Decode(cut).Some? {
      Utf8.EncodeUndoesDecode(cut);
    }
  }

  lemma WholeName(filename: string)
    ensures var name := Utf8.Encode(filename); Utf8.Decode(name[..|name|]) == Some(filename)
  {
    var name := Utf8.Encode(filename);
    assert name[..|name|] == name;
    Utf8.RoundTrip(filename);
  }

  lemma LengthField(n: nat)
    ensures n < 0x1_0000 ==> n % 0x1_0000 == n
    ensures n >= 0x1_0000 ==> n % 0x1_0000 < n
  {
  }

  lemma OfferIff(id: u32, filename: string, fileSize: u64)
    ensures Deserialize(Serialize(Offer(id, filename, fileSize))) == Ok(Offer(id, filename, fileSize)) <==>
            |Utf8.Encode(filename)| < 0x1_0000
  {
    var name := Utf8.Encode(filename);
    OfferRead(id, name, fileSize);
    LengthField(|name|);
    if |name| < 0x1_0000 {
      WholeName(filename);
    } else {
      CutName(filename, |name| % 0x1_0000);
    }
  }

  lemma ChunkIff(id: u32, num: u64, payload: seq<byte>)
    ensures Deserialize(Serialize(Chunk(id, num, payload))) == Ok(Chunk(id, num, payload)) <==>
      |payload| < 0x1_0000_0000
  {
    ChunkRead(id, num, payload);
    if |payload| < 0x1_0000_0000 {
      assert payload[..|payload|] == payload;
    }
  }

  /** A message survives serialization exactly if the lengths it carries fit. */
  lemma {:induction false} RoundTripIff(m: Message)
    ensures Deserialize(Serialize(m)) == Ok(m) <==> Fits(m)
  {
    match m
    case Offer(id, filename, fileSize) => OfferIff(id, filename, fileSize);
    case Accept(id) => PlainRead(TYPE_ACCEPT, id);
    case Reject(id) => PlainRead(TYPE_REJECT, id);
    case Cancel(id) => PlainRead(TYPE_CANCEL, id);
    case Chunk(id, num, payload) => ChunkIff(id, num, payload);
    case EndFile(id) => PlainRead(TYPE_END_FILE, id);
  }

  // ---------- Layout ----------

  /** A 64-bit number at offset i, its high word first. */
  predicate LongLaid(s: seq<byte>, i: nat, x: u64) {
    i + 8 <= |s| && U32At(s, i) == x / 0x1_0000_0000 && U32At(s, i + 4) == x % 0x1_0000_0000
  }

  /** What stands where: the type, the transfer, and for offers and chunks a number, a length and content. */
  predicate Laid(m: Message, s: seq<byte>) {
    && |s| >= 5 && U32At(s, 1) == m.id
    && match m
       case Offer(_, filename, fileSize) =>
         var name := Utf8.Encode(filename);
         && |s| == 15 + |name| && s[0] == 1 && LongLaid(s, 5, fileSize) && U16At(s, 13) == |name| % 65536
         && s[15..] == name
       case Accept(_) => |s| == 5 && s[0] == 2
       case Reject(_) => |s| == 5 && s[0] == 3
       case Cancel(_) => |s| == 5 && s[0] == 4
       case Chunk(_, num, payload) =>
         && |s| == 17 + |payload| && s[0] == 5 && LongLaid(s, 5, num) && U32At(s, 13) == |payload| % 0x1_0000_0000
         && s[17..] == payload
       case EndFile(_) => |s| == 5 && s[0] == 6
  }

  lemma LongAt(s: seq<byte>, i: nat, x: u64)
    requires At(s, i, Be64(x))
    ensures LongLaid(s, i, x)
  {
    AtConcat(s, i, Be32(x / 0x1_0000_0000), Be32(x % 0x1_0000_0000));
    Be32At(s, i, x / 0x1_0000_0000);
    Be32At(s, i + 4, x % 0x1_0000_0000);
  }

  lemma HeadLaid(kind: byte, id: u32, num: u64, rest: seq<byte>)
    ensures var s := [kind] + (Be32(id) + (Be64(num) + rest));
      |s| == 13 + |rest| && s[0] == kind && U32At(s, 1) == id && LongLaid(s, 5, num) && At(s, 13, rest)
  {
    var s := [kind] + (Be32(id) + (Be64(num) + rest));
    HeadAt(kind, id, num, rest);
    AtParts([kind], Be32(id), Be64(num) + rest);
    AtConcat(s, 5, Be64(num), rest);
    LongAt(s, 5, num);
  }

  lemma OfferLaid(id: u32, filename: string, fileSize: u64)
    ensures Laid(Offer(id, filename, fileSize), OfferBytes(id, Utf8.Encode(filename), fileSize))
  {
    var name := Utf8.Encode(filename);
    var (s, n) := (OfferBytes(id, name, fileSize), |name| % 0x1_0000);
    HeadLaid(TYPE_OFFER, id, fileSize, Be16(n) + name);
    AtConcat(s, 13, Be16(n), name);
    Be16At(s, 13, n);
    assert s[15..] == s[15..15 + |name|];
  }

  lemma ChunkLaid(id: u32, num: u64, payload: seq<byte>)
    ensures Laid(Chunk(id, num, payload), ChunkBytes(id, num, payload))
  {
    var (s, n) := (ChunkBytes(id, num, payload), |payload| % 0x1_0000_0000);
    HeadLaid(TYPE_CHUNK, id, num, Be32(n) + payload);
    AtConcat(s, 13, Be32(n), payload);
    Be32At(s, 13, n);
    assert s[17..] == s[17..17 + |payload|];
  }

  /** Every message stands on the wire field by field as the format has it. */
  lemma {:induction false} SerializedLaid(m: Message)
    ensures Laid(m, Serialize(m))
  {
    match m
    case Offer(id, filename, fileSize) => OfferLaid(id, filename, fileSize);
    case Accept(id) => PlainRead(TYPE_ACCEPT, id);
    case Reject(id) => PlainRead(TYPE_REJECT, id);
    case Cancel(id) => PlainRead(TYPE_CANCEL, id);
    case Chunk(id, num, payload) => ChunkLaid(id, num, payload);
    case EndFile(id) => PlainRead(TYPE_END_FILE, id);
  }

  // ---------- The code ----------

  method SerializeMessage(m: Message) returns (buf: seq<byte>)
    ensures buf == Serialize(m)
  {
    match m {
      case Offer(id, filename, fileSize) =>
        buf := [TYPE_OFFER];
        buf := buf + Be32(id);
        buf := buf + Be64(fileSize);
        var name := Utf8.Encode(filename);
        buf := buf + Be16(|name| % 0x1_0000);
        buf := buf + name;
      case Accept(id) =>
        buf := [TYPE_ACCEPT];
        buf := buf + Be32(id);
      case Reject(id) =>
        buf := [TYPE_REJECT];
        buf := buf + Be32(id);
      case Cancel(id) =>
        buf := [TYPE_CANCEL];
        buf := buf + Be32(id);
      case Chunk(id, num, payload) =>
        buf := [TYPE_CHUNK];
        buf := buf + Be32(id);
        buf := buf + Be64(num);
        buf := buf + Be32(|payload| % 0x1_0000_0000);
        buf := buf + payload;
      case EndFile(id) =>
        buf := [TYPE_END_FILE];
        buf := buf + Be32(id);
    }
  }

  /** A reading position in a buffer. */
  class Cursor {
    const data: seq<byte>
    var pos: nat

    constructor (data: seq<byte>)
      ensures this.data == data && pos == 0
    {
      this.data, pos := data, 0;
    }

    /** The next n bytes, or nothing if fewer are left. */
    method Take(n: nat) returns (r: Option<seq<byte>>)
      requires pos <= |data|
      modifies this
      ensures if old(pos) + n <= |data| then r == Some(data[old(pos)..old(pos) + n]) && pos == old(pos) + n
              else r == None && pos == old(pos)
    {
      if |data| - pos < n {
        return None;
      }
      r := Some(data[pos..pos + n]);
      pos := pos + n;
    }
  }

  method DeserializeMessage(data: seq<byte>) returns (r: Result<Message, IoError>)
    ensures r == Deserialize(data)
  {
    var cursor := new Cursor(data);
    var kind := cursor.Take(1);
    if kind.None? {
      return Err(UnexpectedEof);
    }
    var t := kind.value[0];
    if !(TYPE_OFFER <= t <= TYPE_END_FILE) {
      return Err(InvalidData);
    }
    var idBytes := cursor.Take(4);
    if idBytes.None? {
      return Err(UnexpectedEof);
    }
    var id := U32At(idBytes.value, 0);
    if t == TYPE_OFFER || t == TYPE_CHUNK {
      var number := cursor.Take(8);
      if number.None? {
        return Err(UnexpectedEof);
      }
      var len := cursor.Take(if t == TYPE_OFFER then 2 else 4);
      if len.None? {
        return Err(UnexpectedEof);
      }
      var n := if t == TYPE_OFFER then U16At(len.value, 0) else U32At(len.value, 0);
      var body := cursor.Take(n);
      if body.None? {
        return Err(UnexpectedEof);
      }
      if t == TYPE_CHUNK {
        return Ok(Chunk(id, U64At(number.value, 0), body.value));
      }
      var name := Utf8.Decode(body.value);
      return if name.None? then Err(InvalidData) else Ok(Offer(id, name.value, U64At(number.value, 0)));
    }
    return Ok(if t == TYPE_ACCEPT then Accept(id) else if t == TYPE_REJECT then Reject(id)
              else if t == TYPE_CANCEL then Cancel(id) else EndFile(id));
  }
}
