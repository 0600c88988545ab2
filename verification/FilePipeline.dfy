/**
 A file on its way from the reading worker over numbered chunk messages to the writing worker
 (src/file_handler/reader_worker.rs, src/sctp/sender.rs, src/file_handler/writer_worker.rs).
 */
module FilePipeline {
  import opened Bytes
  import opened SctpProtocol
  import Utf8

  const CHUNK_SIZE := 16384

  function Concat(chunks: seq<seq<byte>>): seq<byte> {
    if chunks == [] then [] else Concat(chunks[..|chunks| - 1]) + chunks[|chunks| - 1]
  }

  // ---------- Reader ----------

  /** What the reading worker is told; a read may return fewer bytes than asked for, or fail. */
  datatype ReaderCommand = GetChunk(available: nat) | FailingGetChunk | CancelRead

  datatype Reader = Reader(pos: nat, finished: bool, stopped: bool, chunks: seq<seq<byte>>)

  /** Bytes that one read returns: none at the end of the file, else at least one and at most a chunk. */
  function ReadSize(left: nat, available: nat): (n: nat)
    ensures n <= left && n <= CHUNK_SIZE && (n == 0 <==> left == 0)
  {
    if left == 0 then 0
    else
      var most := if left < CHUNK_SIZE then left else CHUNK_SIZE;
      if available == 0 then 1 else if available < most then available else most
  }

  function ReadStep(file: seq<byte>, r: Reader, c: ReaderCommand): (r': Reader)
    requires r.pos <= |file|
    ensures r'.pos <= |file|
  {
    if r.finished || r.stopped then r
    else
      match c
      case GetChunk(available) =>
        var n := ReadSize(|file| - r.pos, available);
        Reader(r.pos + n, n == 0, false, r.chunks + [file[r.pos..r.pos + n]])
      case FailingGetChunk => r
      case CancelRead => r.(stopped := true)
  }

  function ReadAll(file: seq<byte>, commands: seq<ReaderCommand>): (r: Reader)
    ensures r.pos <= |file|
  {
    if commands == [] then Reader(0, false, false, [])
    else ReadStep(file, ReadAll(file, commands[..|commands| - 1]), commands[|commands| - 1])
  }

  /** The worker's command loop; the events it sends for chunks are collected. */
  method RunReader(file: seq<byte>, commands: seq<ReaderCommand>) returns (chunks: seq<seq<byte>>, finished: bool)
    ensures var r := ReadAll(file, commands); chunks == r.chunks && finished == r.finished
  {
    var pos: nat, stopped := 0, false;
    chunks, finished := [], false;
    var i := 0;
    while i < |commands| && !finished && !stopped
      invariant i <= |commands| && pos <= |file|
      invariant ReadAll(file, commands[..i]) == Reader(pos, finished, stopped, chunks)
    {
      assert commands[..i + 1][..i] == commands[..i];
      match commands[i] {
        case GetChunk(available) =>
          var n := ReadSize(|file| - pos, available);
          chunks := chunks + [file[pos..pos + n]];
          if n == 0 {
            finished := true;
          } else {
            pos := pos + n;
          }
        case FailingGetChunk =>
        case CancelRead =>
          stopped := true;
      }
      i := i + 1;
    }
    ReaderDone(file, commands, i);
    assert commands[..|commands|] == commands;
  }

  lemma {:induction false} ReaderDone(file: seq<byte>, commands: seq<ReaderCommand>, i: nat)
    requires i <= |commands|
    requires i < |commands| ==> ReadAll(file, commands[..i]).finished || ReadAll(file, commands[..i]).stopped
    ensures ReadAll(file, commands) == ReadAll(file, commands[..i])
  {
    if i == |commands| {
      assert commands[..i] == commands;
    } else {
      var before := commands[..|commands| - 1];
      assert before[..i] == commands[..i];
      ReaderDone(file, before, i);
    }
  }

  /** Non-empty pieces of at most CHUNK_SIZE bytes. */
  predicate Pieces(chunks: seq<seq<byte>>) {
    forall i :: 0 <= i < |chunks| ==> 0 < |chunks[i]| <= CHUNK_SIZE
  }

  /** Until it finishes, a reader has sent the file up to its position in pieces; then one empty chunk more. */
  predicate ReaderInv(file: seq<byte>, r: Reader) {
    if r.finished then WholeFile(r.chunks, file)
    else r.pos <= |file| && Pieces(r.chunks) && Concat(r.chunks) == file[..r.pos]
  }

  lemma {:induction false} ReaderCuts(file: seq<byte>, commands: seq<ReaderCommand>)
    ensures ReaderInv(file, ReadAll(file, commands))
  {
    if commands != [] {
      var n := |commands| - 1;
      var r := ReadAll(file, commands[..n]);
      ReaderCuts(file, commands[..n]);
      ReaderStep(file, r, commands[n]);
    }
  }

  lemma ReaderStep(file: seq<byte>, r: Reader, c: ReaderCommand)
    requires r.pos <= |file| && ReaderInv(file, r)
    ensures ReaderInv(file, ReadStep(file, r, c))
  {
    if !r.finished && !r.stopped && c.GetChunk? {
      var n := ReadSize(|file| - r.pos, c.available);
      var piece := file[r.pos..r.pos + n];
      assert (r.chunks + [piece])[..|r.chunks|] == r.chunks;
      assert file[..r.pos] + piece == file[..r.pos + n];
      if n == 0 {
        assert file[..r.pos] == file;
      }
    }
  }

  // ---------- Sender ----------

  /** Requests to the sending thread. The map holds the next chunk number of every open stream. */
  datatype Request =
    | SendOffer(id: u32, filename: string, fileSize: u64)
    | SendAccept(id: u32)
    | PeerAccepted(id: u32)
    | SendReject(id: u32)
    | SendCancel(id: u32)
    | SendChunk(id: u32, payload: seq<byte>)
    | SendEndFile(id: u32)

  type Streams = map<u32, u64>

  function Handle(s: Streams, e: Request): (Streams, seq<Message>) {
    match e
    case SendOffer(id, filename, fileSize) => (s[id := 0], [Offer(id, filename, fileSize)])
    case SendAccept(id) => (s[id := 0], [Accept(id)])
    case PeerAccepted(id) => (s[id := 0], [])
    case SendReject(id) => (s, [Reject(id)])
    case SendCancel(id) => (s - {id}, [Cancel(id)])
    case SendChunk(id, payload) =>
      if id in s then (s[id := (s[id] as int + 1) % 0x1_0000_0000_0000_0000], [Chunk(id, s[id], payload)]) else (s, [])
    case SendEndFile(id) => (s - {id}, [EndFile(id)])
  }

  class SctpSender {
    var streams: Streams

    constructor ()
      ensures streams == map[]
    {
      streams := map[];
    }

    method Process(e: Request) returns (sent: seq<Message>)
      modifies this
      ensures (streams, sent) == Handle(old(streams), e)
    {
      sent := [];
      match e {
        case SendOffer(id, filename, fileSize) =>
          streams := streams[id := 0];
          sent := [Offer(id, filename, fileSize)];
        case SendAccept(id) =>
          streams := streams[id := 0];
          sent := [Accept(id)];
        case PeerAccepted(id) =>
          streams := streams[id := 0];
        case SendReject(id) =>
          sent := [Reject(id)];
        case SendCancel(id) =>
          streams := streams - {id};
          sent := [Cancel(id)];
        case SendChunk(id, payload) =>
          if id in streams {
            var num := streams[id];
            streams := streams[id := (num as int + 1) % 0x1_0000_0000_0000_0000];
            sent := [Chunk(id, num, payload)];
          }
        case SendEndFile(id) =>
          streams := streams - {id};
          sent := [EndFile(id)];
      }
    }
  }

  /** The streams after some requests, and everything sent, oldest first. */
  function SendAll(s: Streams, es: seq<Request>): (Streams, seq<Message>) {
    if es == [] then (s, [])
    else
      var (t, sent) := SendAll(s, es[..|es| - 1]);
      var (u, more) := Handle(t, es[|es| - 1]);
      (u, sent + more)
  }

  /** The request opens or closes the stream, and so restarts or ends its numbering. */
  predicate Resets(e: Request, id: u32) {
    e.id == id && !e.SendChunk? && !e.SendReject?
  }

  /** The payloads that requests ask to send on a stream. */
  function Asked(es: seq<Request>, id: u32): seq<seq<byte>> {
    if es == [] then []
    else
      var e := es[|es| - 1];
      Asked(es[..|es| - 1], id) + if e.SendChunk? && e.id == id then [e.payload] else []
  }

  /** The chunk messages of a stream. */
  function ChunksOf(ms: seq<Message>, id: u32): seq<Message> {
    if ms == [] then []
    else
      var m := ms[|ms| - 1];
      ChunksOf(ms[..|ms| - 1], id) + if m.Chunk? && m.id == id then [m] else []
  }

  /** The payloads as messages numbered from 0 on. */
  function Numbered(id: u32, payloads: seq<seq<byte>>): (ms: seq<Message>)
    ensures |ms| == |payloads|
    ensures forall i :: 0 <= i < |ms| ==> ms[i] == Chunk(id, i % 0x1_0000_0000_0000_0000, payloads[i])
  {
    seq(|payloads|, i requires 0 <= i < |payloads| => Chunk(id, i % 0x1_0000_0000_0000_0000, payloads[i]))
  }

  lemma ChunksOfOne(ms: seq<Message>, more: seq<Message>, id: u32)
    requires |more| <= 1
    ensures ChunksOf(ms + more, id) ==
      ChunksOf(ms, id) + if more != [] && more[0].Chunk? && more[0].id == id then more else []
  {
    if more == [] {
      assert ms + more == ms && ChunksOf(ms, id) + [] == ChunksOf(ms, id);
    } else {
      assert (ms + more)[..|ms|] == ms && more == [more[0]];
    }
  }

  lemma NextNumber(k: nat)
    ensures (k % 0x1_0000_0000_0000_0000 + 1) % 0x1_0000_0000_0000_0000 == (k + 1) % 0x1_0000_0000_0000_0000
  {
  }

  lemma NumberedSnoc(id: u32, ps: seq<seq<byte>>, p: seq<byte>)
    ensures Numbered(id, ps + [p]) == Numbered(id, ps) + [Chunk(id, |ps| % 0x1_0000_0000_0000_0000, p)]
  {
  }

  /** How a stream stands: what it sent is numbered, and the next number is known. */
  predicate InStep(t: Streams, sent: seq<Message>, id: u32, payloads: seq<seq<byte>>) {
    && ChunksOf(sent, id) == Numbered(id, payloads)
    && id in t && t[id] == |payloads| % 0x1_0000_0000_0000_0000
  }

  lemma HandleInStep(t: Streams, sent: seq<Message>, id: u32, payloads: seq<seq<byte>>, e: Request)
    requires InStep(t, sent, id, payloads) && !Resets(e, id)
    ensures var (u, more) := Handle(t, e);
      InStep(u, sent + more, id, payloads + if e.SendChunk? && e.id == id then [e.payload] else [])
  {
    ChunksOfOne(sent, Handle(t, e).1, id);
    if e.SendChunk? && e.id == id {
      NumberedSnoc(id, payloads, e.payload);
      NextNumber(|payloads|);
    } else {
      assert payloads + [] == payloads;
    }
  }

  /** On an open stream, chunks are numbered 0, 1, 2, ... whatever is sent on other streams in between. */
  lemma {:induction false} ChunksNumbered(s: Streams, es: seq<Request>, id: u32)
    requires id in s && s[id] == 0 && forall e <- es :: !Resets(e, id)
    ensures var (t, sent) := SendAll(s, es); InStep(t, sent, id, Asked(es, id))
  {
    if es != [] {
      var n := |es| - 1;
      ChunksNumbered(s, es[..n], id);
      var (t, sent) := SendAll(s, es[..n]);
      HandleInStep(t, sent, id, Asked(es[..n], id), es[n]);
    }
  }

  // ---------- Writer ----------

  /** What the writing worker is told or meets. */
  datatype WriterCommand =
    | WriteChunk(payload: seq<byte>)
    | CancelWrite
    | TimedOut
    | Disconnected
    | WriteFails(payload: seq<byte>)

  datatype Outcome = Writing(bytes: seq<byte>) | Finished(bytes: seq<byte>) | Removed

  function WriteStep(o: Outcome, c: WriterCommand): Outcome {
    if !o.Writing? then o
    else
      match c
      case WriteChunk(payload) => if payload == [] then Finished(o.bytes) else Writing(o.bytes + payload)
      case _ => Removed
  }

  function WriteAll(commands: seq<WriterCommand>): Outcome {
    if commands == [] then Writing([])
    else WriteStep(WriteAll(commands[..|commands| - 1]), commands[|commands| - 1])
  }

  method RunWriter(commands: seq<WriterCommand>) returns (o: Outcome)
    ensures o == WriteAll(commands)
  {
    var written, i := [], 0;
    while i < |commands|
      invariant i <= |commands| && WriteAll(commands[..i]) == Writing(written)
    {
      assert commands[..i + 1][..i] == commands[..i];
      match commands[i] {
        case WriteChunk(payload) =>
          if payload == [] {
            WriterDone(commands, i + 1);
            return Finished(written);
          }
          written := written + payload;
        case _ =>
          WriterDone(commands, i + 1);
          return Removed;
      }
      i := i + 1;
    }
    assert commands[..i] == commands;
    return Writing(written);
  }

  lemma {:induction false} WriterDone(commands: seq<WriterCommand>, i: nat)
    requires i <= |commands| && !WriteAll(commands[..i]).Writing?
    ensures WriteAll(commands) == WriteAll(commands[..i])
  {
    if i == |commands| {
      assert commands[..i] == commands;
    } else {
      var before := commands[..|commands| - 1];
      assert before[..i] == commands[..i];
      WriterDone(before, i);
    }
  }

  function Writes(payloads: seq<seq<byte>>): seq<WriterCommand> {
    seq(|payloads|, i requires 0 <= i < |payloads| => WriteChunk(payloads[i]))
  }

  lemma {:induction false} WritesPieces(payloads: seq<seq<byte>>)
    requires Pieces(payloads)
    ensures WriteAll(Writes(payloads)) == Writing(Concat(payloads))
  {
    if payloads != [] {
      var n := |payloads| - 1;
      WritesPieces(payloads[..n]);
      assert Writes(payloads)[..n] == Writes(payloads[..n]);
      assert payloads[n] != [];
    }
  }

  // ---------- End to end ----------

  /** What an in-order transport delivers: every message serialized, then read back. */
  function Delivered(ms: seq<Message>): seq<Result<Message, IoError>> {
    seq(|ms|, i requires 0 <= i < |ms| => Deserialize(Serialize(ms[i])))
  }

  /** The writer command that a delivery gives rise to on one stream. */
  function CommandFor(d: Result<Message, IoError>, id: u32): seq<WriterCommand> {
    if d.Ok? && d.value.Chunk? && d.value.id == id then [WriteChunk(d.value.payload)] else []
  }

  function CommandsFor(ds: seq<Result<Message, IoError>>, id: u32): seq<WriterCommand> {
    if ds == [] then [] else CommandsFor(ds[..|ds| - 1], id) + CommandFor(ds[|ds| - 1], id)
  }

  /** No message turns into a chunk of a stream on the way unless it was one; a chunk that fits keeps its payload. */
  lemma {:induction false} CommandKept(m: Message, id: u32)
    requires m.Chunk? && m.id == id ==> |m.payload| < 0x1_0000_0000
    ensures CommandFor(Deserialize(Serialize(m)), id) == if m.Chunk? && m.id == id then [WriteChunk(m.payload)] else []
  {
    if m.Offer? {
      OfferRead(m.id, Utf8.Encode(m.filename), m.fileSize);
    } else if m.Chunk? && m.id != id {
      ChunkRead(m.id, m.num, m.payload);
    } else {
      RoundTripIff(m);
    }
  }

  lemma DeliveredSnoc(ms: seq<Message>, m: Message)
    ensures Delivered(ms + [m]) == Delivered(ms) + [Deserialize(Serialize(m))]
  {
  }

  lemma CommandsSnoc(sent: seq<Message>, more: seq<Message>, id: u32)
    requires |more| <= 1 && forall m <- more :: m.Chunk? && m.id == id ==> |m.payload| < 0x1_0000_0000
    ensures CommandsFor(Delivered(sent + more), id) == CommandsFor(Delivered(sent), id) +
      if more != [] && more[0].Chunk? && more[0].id == id then [WriteChunk(more[0].payload)] else []
  {
    if more == [] {
      assert sent + more == sent;
    } else {
      assert more == [more[0]];
      DeliveredSnoc(sent, more[0]);
      var (ds, d) := (Delivered(sent), Deserialize(Serialize(more[0])));
      assert (ds + [d])[..|ds|] == ds;
      CommandKept(more[0], id);
    }
  }

  lemma CommandsStep(t: Streams, sent: seq<Message>, e: Request, id: u32, asked: seq<seq<byte>>)
    requires id in t && CommandsFor(Delivered(sent), id) == Writes(asked)
    requires e.SendChunk? && e.id == id ==> |e.payload| < 0x1_0000_0000
    ensures CommandsFor(Delivered(sent + Handle(t, e).1), id) ==
      Writes(asked + if e.SendChunk? && e.id == id then [e.payload] else [])
  {
    CommandsSnoc(sent, Handle(t, e).1, id);
    if e.SendChunk? && e.id == id {
      assert Writes(asked + [e.payload]) == Writes(asked) + [WriteChunk(e.payload)];
    } else {
      assert asked + [] == asked;
    }
  }

  /** The chunks of a reader that has finished: the file in pieces, then an empty one. */
  predicate WholeFile(chunks: seq<seq<byte>>, file: seq<byte>) {
    chunks != [] && var k := |chunks| - 1; chunks[k] == [] && Pieces(chunks[..k]) && Concat(chunks[..k]) == file
  }

  lemma ChunkSize(chunks: seq<seq<byte>>, payload: seq<byte>)
    requires chunks != [] && chunks[|chunks| - 1] == [] && Pieces(chunks[..|chunks| - 1]) && payload in chunks
    ensures |payload| <= CHUNK_SIZE
  {
    var i :| 0 <= i < |chunks| && chunks[i] == payload;
    if i < |chunks| - 1 {
      assert chunks[..|chunks| - 1][i] == payload;
    }
  }

  lemma WritesFile(chunks: seq<seq<byte>>, file: seq<byte>)
    requires WholeFile(chunks, file)
    ensures WriteAll(Writes(chunks)) == Finished(file)
  {
    var k := |chunks| - 1;
    WritesPieces(chunks[..k]);
    assert Writes(chunks)[..k] == Writes(chunks[..k]);
  }

  // ---------- What the far end is told ----------

  predicate Opens(e: Request) {
    e.SendOffer? || e.SendAccept? || e.PeerAccepted?
  }

  predicate Ends(e: Request) {
    e.SendCancel? || e.SendEndFile?
  }

  /** How many chunks were asked for since the stream was last opened, unless it has ended since. */
  function ChunksSince(es: seq<Request>, id: u32): Option<nat> {
    if es == [] then None
    else
      var (before, e) := (ChunksSince(es[..|es| - 1], id), es[|es| - 1]);
      if e.id != id then before
      else if Opens(e) then Some(0)
      else if Ends(e) then None
      else if e.SendChunk? && before.Some? then Some(before.value + 1)
      else before
  }

  /** The messages that some requests call for, by the requests alone. */
  function CalledFor(es: seq<Request>): seq<Message> {
    if es == [] then []
    else
      var (before, e) := (es[..|es| - 1], es[|es| - 1]);
      CalledFor(before) +
      match e
      case SendOffer(id, filename, fileSize) => [Offer(id, filename, fileSize)]
      case SendAccept(id) => [Accept(id)]
      case PeerAccepted(_) => []
      case SendReject(id) => [Reject(id)]
      case SendCancel(id) => [Cancel(id)]
      case SendEndFile(id) => [EndFile(id)]
      case SendChunk(id, payload) =>
        var n := ChunksSince(before, id);
        if n.Some? then [Chunk(id, n.value % 0x1_0000_0000_0000_0000, payload)] else []
  }

  /** The sender has a stream open exactly if it was opened and not ended since, at the number of chunks since then. */
  lemma {:induction false} StreamsAre(es: seq<Request>, id: u32)
    ensures var (s, n) := (SendAll(map[], es).0, ChunksSince(es, id));
      (id in s <==> n.Some?) && (id in s ==> s[id] == n.value % 0x1_0000_0000_0000_0000)
  {
    if es != [] {
      var n := |es| - 1;
      StreamsAre(es[..n], id);
      if ChunksSince(es[..n], id).Some? {
        NextNumber(ChunksSince(es[..n], id).value);
      }
    }
  }

  lemma {:induction false} SentAsCalled(es: seq<Request>)
    ensures SendAll(map[], es).1 == CalledFor(es)
  {
    if es != [] {
      var n := |es| - 1;
      SentAsCalled(es[..n]);
      StreamsAre(es[..n], es[n].id);
    }
  }

  /** After any requests, the far end reads what they call for, message by message, as far as the lengths fit. */
  lemma ReadAsCalled(es: seq<Request>, i: nat)
    requires i < |CalledFor(es)|
    ensures var read := Delivered(SendAll(map[], es).1);
      |read| == |CalledFor(es)| && (read[i] == Ok(CalledFor(es)[i]) <==> Fits(CalledFor(es)[i]))
  {
    SentAsCalled(es);
    RoundTripIff(CalledFor(es)[i]);
  }
}
