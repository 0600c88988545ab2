/**
 A file transfer as it runs: the channels in a row through which threads pass the chunks from the reading worker
 to the sending thread and, at the other end, from the receiving thread to the writing worker
 (src/file_handler/file_handler.rs, src/core/engine.rs, src/core/session.rs, src/sctp/sctp_session.rs).
 */
module FileRelay {
  import opened Bytes
  import opened SctpProtocol
  import opened FilePipeline

  // ---------- Channels in a row ----------

  /** Channels, the first one first, and what has come out of the last. */
  datatype Chain<T> = Chain(queues: seq<seq<T>>, out: seq<T>)

  /** Everything that waits, oldest first. */
  function Waiting<T>(queues: seq<seq<T>>): seq<T> {
    if queues == [] then [] else Waiting(queues[1..]) + queues[0]
  }

  function Total<T>(c: Chain<T>): seq<T> {
    c.out + Waiting(c.queues)
  }

  /** Some thread puts x into channel i. */
  function Put<T>(c: Chain<T>, i: nat, x: T): Chain<T>
    requires i < |c.queues|
  {
    c.(queues := c.queues[i := c.queues[i] + [x]])
  }

  /** The thread behind channel i takes what came first, if anything, and passes it on. */
  function Pass<T>(c: Chain<T>, i: nat): Chain<T>
    requires i < |c.queues|
  {
    if c.queues[i] == [] then c
    else
      var x, rest := c.queues[i][0], c.queues[i := c.queues[i][1..]];
      if i + 1 == |c.queues| then Chain(rest, c.out + [x]) else Chain(rest[i + 1 := rest[i + 1] + [x]], c.out)
  }

  lemma {:induction false} WaitingPassed<T>(queues: seq<seq<T>>, i: nat)
    requires i + 1 < |queues| && queues[i] != []
    ensures Waiting(queues[i := queues[i][1..]][i + 1 := queues[i + 1] + [queues[i][0]]]) == Waiting(queues)
    decreases i
  {
    var x := queues[i][0];
    var moved := queues[i := queues[i][1..]][i + 1 := queues[i + 1] + [x]];
    if i == 0 {
      assert moved[1..] == queues[1..][0 := queues[1] + [x]];
      WaitingAppended(queues[1..], x);
      assert queues[0] == [x] + queues[0][1..];
    } else {
      assert moved[1..] == queues[1..][i - 1 := queues[i][1..]][i := queues[i + 1] + [x]];
      WaitingPassed(queues[1..], i - 1);
    }
  }

  lemma WaitingAppended<T>(queues: seq<seq<T>>, x: T)
    requires queues != []
    ensures Waiting(queues[0 := queues[0] + [x]]) == Waiting(queues) + [x]
  {
    assert queues[0 := queues[0] + [x]][1..] == queues[1..];
  }

  lemma Associate<T>(a: seq<T>, b: seq<T>, c: seq<T>)
    ensures a + (b + c) == (a + b) + c
  {
  }

  lemma {:induction false} WaitingLeft<T>(queues: seq<seq<T>>, n: nat)
    requires |queues| == n + 1 && queues[n] != []
    ensures Waiting(queues) == [queues[n][0]] + Waiting(queues[n := queues[n][1..]])
    decreases n
  {
    var x, rest := queues[n][0], queues[n := queues[n][1..]];
    assert queues[n] == [x] + queues[n][1..];
    if n > 0 {
      WaitingLeft(queues[1..], n - 1);
      assert rest[1..] == queues[1..][n - 1 := queues[n][1..]] && rest[0] == queues[0];
      Associate([x], Waiting(rest[1..]), queues[0]);
    } else {
      assert Waiting(queues[1..]) == [] && Waiting(rest[1..]) == [];
    }
  }

  /** Passing on keeps everything, in order. */
  lemma PassKeeps<T>(c: Chain<T>, i: nat)
    requires i < |c.queues|
    ensures Total(Pass(c, i)) == Total(c) && |Pass(c, i).queues| == |c.queues|
  {
    if c.queues[i] != [] {
      if i + 1 == |c.queues| {
        WaitingLeft(c.queues, i);
        Associate(c.out, [c.queues[i][0]], Waiting(Pass(c, i).queues));
      } else {
        WaitingPassed(c.queues, i);
      }
    }
  }

  lemma PutFirst<T>(c: Chain<T>, x: T)
    requires c.queues != []
    ensures Total(Put(c, 0, x)) == Total(c) + [x]
  {
    WaitingAppended(c.queues, x);
  }

  // ---------- The part that matters ----------

  function Kept<T>(s: seq<T>, keep: T -> bool): seq<T> {
    if s == [] then []
    else Kept(s[..|s| - 1], keep) + if keep(s[|s| - 1]) then [s[|s| - 1]] else []
  }

  lemma KeptSnoc<T>(s: seq<T>, x: T, keep: T -> bool)
    ensures Kept(s + [x], keep) == Kept(s, keep) + if keep(x) then [x] else []
  {
    assert (s + [x])[..|s|] == s;
  }

  lemma {:induction false} KeptConcat<T>(a: seq<T>, b: seq<T>, keep: T -> bool)
    ensures Kept(a + b, keep) == Kept(a, keep) + Kept(b, keep)
  {
    if b == [] {
      assert a + b == a;
    } else {
      var n := |b| - 1;
      KeptConcat(a, b[..n], keep);
      assert a + b == (a + b[..n]) + [b[n]];
      KeptSnoc(a + b[..n], b[n], keep);
    }
  }

  lemma PutKept<T>(c: Chain<T>, x: T, keep: T -> bool)
    requires c.queues != []
    ensures Kept(Total(Put(c, 0, x)), keep) == Kept(Total(c), keep) + if keep(x) then [x] else []
  {
    PutFirst(c, x);
    KeptSnoc(Total(c), x, keep);
  }

  lemma {:induction false} WaitingPut<T>(queues: seq<seq<T>>, i: nat, x: T, keep: T -> bool)
    requires i < |queues| && !keep(x)
    ensures Kept(Waiting(queues[i := queues[i] + [x]]), keep) == Kept(Waiting(queues), keep)
    decreases i
  {
    var more := queues[i := queues[i] + [x]];
    if i == 0 {
      WaitingAppended(queues, x);
      KeptSnoc(Waiting(queues), x, keep);
    } else {
      assert more[1..] == queues[1..][i - 1 := queues[i] + [x]];
      WaitingPut(queues[1..], i - 1, x, keep);
      KeptConcat(Waiting(more[1..]), queues[0], keep);
      KeptConcat(Waiting(queues[1..]), queues[0], keep);
    }
  }

  /** The next element of a list keeps the chain in step with it. */
  lemma PutNext<T>(c: Chain<T>, s: seq<T>, k: nat, keep: T -> bool)
    requires c.queues != [] && k < |s| && Kept(Total(c), keep) == Kept(s[..k], keep)
    ensures Kept(Total(Put(c, 0, s[k])), keep) == Kept(s[..k + 1], keep)
  {
    PutKept(c, s[k], keep);
    assert s[..k + 1] == s[..k] + [s[k]];
    KeptSnoc(s[..k], s[k], keep);
  }

  /** What does not matter can come in anywhere. */
  lemma PutOther<T>(c: Chain<T>, i: nat, x: T, keep: T -> bool)
    requires i < |c.queues| && !keep(x)
    ensures Kept(Total(Put(c, i, x)), keep) == Kept(Total(c), keep)
  {
    WaitingPut(c.queues, i, x, keep);
    KeptConcat(c.out, Waiting(c.queues), keep);
    KeptConcat(c.out, Waiting(Put(c, i, x).queues), keep);
  }

  // ---------- The transfer ----------

  /** The file, the number of the transfer, and the streams that are open when the transfer starts. */
  datatype Transfer = Transfer(file: seq<byte>, id: u32, streams: Streams) {
    /** The peer has accepted, so the transfer's stream is open. */
    predicate Opened() {
      id in streams && streams[id] == 0
    }
  }

  type Delivery = Result<Message, IoError>

  /** The reading worker, the channels to the sender, how many messages have arrived, and the channels to the writer. */
  datatype State = State(reader: Reader, up: Chain<Request>, arrived: nat, down: Chain<Delivery>)

  datatype Step =
    | Read(command: ReaderCommand)           // the reading worker handles a command
    | OtherRequest(i: nat, request: Request) // a thread puts a request of another transfer into a channel
    | Forward(i: nat)                        // a thread passes a request on; the last one is the sender
    | Arrive                                 // the transport delivers the next message
    | OtherEvent(i: nat, event: Delivery)    // a thread puts something else into a channel of the other end
    | Relay(i: nat)                          // a thread of the other end passes an event on; the last is the writer

  function IsMine(id: u32): Request -> bool {
    (r: Request) => r.id == id
  }

  function IsCommand(id: u32): Delivery -> bool {
    (d: Delivery) => CommandFor(d, id) != []
  }

  /** What a reading worker has handed out: its chunks, and the end of the file when it has finished. */
  function Emitted(r: Reader, id: u32): seq<Request> {
    seq(|r.chunks|, i requires 0 <= i < |r.chunks| => SendChunk(id, r.chunks[i])) +
    if r.finished then [SendEndFile(id)] else []
  }

  /** The channels after the worker went from r to r'. */
  function HandOut(up: Chain<Request>, r: Reader, r': Reader, id: u32): Chain<Request>
    requires up.queues != []
  {
    if |r'.chunks| <= |r.chunks| then up
    else
      var c := Put(up, 0, SendChunk(id, r'.chunks[|r.chunks|]));
      if r'.finished then Put(c, 0, SendEndFile(id)) else c
  }

  /** Everything that the sender has sent. */
  function Sent(t: Transfer, x: State): seq<Message> {
    SendAll(t.streams, x.up.out).1
  }

  predicate Formed(t: Transfer, x: State) {
    x.reader.pos <= |t.file| && x.up.queues != [] && x.down.queues != []
  }

  function Next(t: Transfer, x: State, s: Step): State
    requires Formed(t, x)
  {
    match s
    case Read(c) =>
      var r := ReadStep(t.file, x.reader, c);
      x.(reader := r, up := HandOut(x.up, x.reader, r, t.id))
    case OtherRequest(i, r) => if i < |x.up.queues| && r.id != t.id then x.(up := Put(x.up, i, r)) else x
    case Forward(i) => if i < |x.up.queues| then x.(up := Pass(x.up, i)) else x
    case Arrive =>
      var sent := Sent(t, x);
      if x.arrived < |sent| then x.(arrived := x.arrived + 1, down := Put(x.down, 0, Delivered(sent)[x.arrived])) else x
    case OtherEvent(i, d) => if i < |x.down.queues| && !IsCommand(t.id)(d) then x.(down := Put(x.down, i, d)) else x
    case Relay(i) => if i < |x.down.queues| then x.(down := Pass(x.down, i)) else x
  }

  function Empty<T>(n: nat): (queues: seq<seq<T>>)
    ensures |queues| == n
  {
    if n == 0 then [] else [[]] + Empty(n - 1)
  }

  lemma {:induction false} EmptyWaits<T>(n: nat)
    ensures Waiting<T>(Empty(n)) == []
  {
    if n > 0 {
      assert Empty<T>(n)[1..] == Empty(n - 1);
      EmptyWaits<T>(n - 1);
    }
  }

  function Idle<T>(n: nat): Chain<T> {
    Chain(Empty(n), [])
  }

  /** The state after some steps, with n + 1 channels on the one side and m + 1 on the other. */
  function After(t: Transfer, n: nat, m: nat, steps: seq<Step>): (x: State)
    ensures Formed(t, x)
  {
    if steps == [] then State(Reader(0, false, false, []), Idle(n + 1), 0, Idle(m + 1))
    else
      var x := After(t, n, m, steps[..|steps| - 1]);
      NextFormed(t, x, steps[|steps| - 1]);
      Next(t, x, steps[|steps| - 1])
  }

  lemma NextFormed(t: Transfer, x: State, s: Step)
    requires Formed(t, x)
    ensures Formed(t, Next(t, x, s))
  {
  }

  /** What the writer has done with the chunks that reached it. */
  function Written(t: Transfer, x: State): Outcome {
    WriteAll(CommandsFor(x.down.out, t.id))
  }

  // ---------- Nothing is lost, repeated or reordered on the way ----------

  ghost predicate UpKept(t: Transfer, x: State) {
    ReaderInv(t.file, x.reader) && Kept(Total(x.up), IsMine(t.id)) == Emitted(x.reader, t.id)
  }

  ghost predicate DownKept(t: Transfer, x: State) {
    && x.arrived <= |Sent(t, x)|
    && Kept(Total(x.down), IsCommand(t.id)) == Kept(Delivered(Sent(t, x))[..x.arrived], IsCommand(t.id))
  }

  /** A worker hands out one more chunk, or nothing; after the end of the file it hands out nothing. */
  predicate Advances(r: Reader, r': Reader) {
    if |r'.chunks| == |r.chunks| then r'.chunks == r.chunks && r'.finished == r.finished
    else !r.finished && |r'.chunks| == |r.chunks| + 1 && r'.chunks[..|r.chunks|] == r.chunks
  }

  lemma ReadOnce(file: seq<byte>, r: Reader, c: ReaderCommand)
    requires r.pos <= |file|
    ensures Advances(r, ReadStep(file, r, c))
  {
  }

  lemma HandOutKeeps(up: Chain<Request>, r: Reader, r': Reader, id: u32)
    requires up.queues != [] && Kept(Total(up), IsMine(id)) == Emitted(r, id)
    requires Advances(r, r')
    ensures Kept(Total(HandOut(up, r, r', id)), IsMine(id)) == Emitted(r', id)
  {
    if |r'.chunks| > |r.chunks| {
      var x := SendChunk(id, r'.chunks[|r.chunks|]);
      PutKept(up, x, IsMine(id));
      EmittedMore(r, r', id);
      if r'.finished {
        PutKept(Put(up, 0, x), SendEndFile(id), IsMine(id));
      }
    }
  }

  lemma EmittedMore(r: Reader, r': Reader, id: u32)
    requires Advances(r, r') && |r'.chunks| > |r.chunks|
    ensures var all := Emitted(r, id) + [SendChunk(id, r'.chunks[|r.chunks|])];
      Emitted(r', id) == if r'.finished then all + [SendEndFile(id)] else all
  {
  }

  lemma UpStep(t: Transfer, x: State, s: Step)
    requires Formed(t, x) && UpKept(t, x)
    ensures UpKept(t, Next(t, x, s))
  {
    if s.Read? {
      var r := ReadStep(t.file, x.reader, s.command);
      ReaderStep(t.file, x.reader, s.command);
      ReadOnce(t.file, x.reader, s.command);
      HandOutKeeps(x.up, x.reader, r, t.id);
    } else if s.OtherRequest? && s.i < |x.up.queues| && s.request.id != t.id {
      PutOther(x.up, s.i, s.request, IsMine(t.id));
    } else if s.Forward? && s.i < |x.up.queues| {
      PassKeeps(x.up, s.i);
    }
  }

  lemma PassOut<T>(c: Chain<T>, i: nat)
    requires i < |c.queues|
    ensures c.out <= Pass(c, i).out && |Pass(c, i).out| <= |c.out| + 1
  {
  }

  lemma SentGrows(s: Streams, es: seq<Request>, more: seq<Request>)
    requires es <= more && |more| <= |es| + 1
    ensures SendAll(s, es).1 <= SendAll(s, more).1
  {
    if |more| == |es| + 1 {
      assert more[..|es|] == es;
    } else {
      assert more == es;
    }
  }

  lemma DeliveredGrows(a: seq<Message>, b: seq<Message>)
    requires a <= b
    ensures Delivered(a) <= Delivered(b)
  {
  }

  lemma ForwardKeeps(t: Transfer, x: State, i: nat)
    requires Formed(t, x) && DownKept(t, x) && i < |x.up.queues|
    ensures DownKept(t, x.(up := Pass(x.up, i)))
  {
    var x' := x.(up := Pass(x.up, i));
    PassOut(x.up, i);
    SentGrows(t.streams, x.up.out, x'.up.out);
    DeliveredGrows(Sent(t, x), Sent(t, x'));
    assert Delivered(Sent(t, x'))[..x.arrived] == Delivered(Sent(t, x))[..x.arrived];
  }

  lemma DownStep(t: Transfer, x: State, s: Step)
    requires Formed(t, x) && DownKept(t, x)
    ensures DownKept(t, Next(t, x, s))
  {
    if s.Forward? && s.i < |x.up.queues| {
      ForwardKeeps(t, x, s.i);
    } else if s.Arrive? && x.arrived < |Sent(t, x)| {
      PutNext(x.down, Delivered(Sent(t, x)), x.arrived, IsCommand(t.id));
    } else if s.OtherEvent? && s.i < |x.down.queues| && !IsCommand(t.id)(s.event) {
      PutOther(x.down, s.i, s.event, IsCommand(t.id));
    } else if s.Relay? && s.i < |x.down.queues| {
      PassKeeps(x.down, s.i);
    } else if s.Read? {
      SameOut(x.up, x.reader, ReadStep(t.file, x.reader, s.command), t.id);
    }
  }

  lemma SameOut(up: Chain<Request>, r: Reader, r': Reader, id: u32)
    requires up.queues != []
    ensures HandOut(up, r, r', id).out == up.out
  {
  }

  /** In every run both chains keep what matters. */
  lemma {:induction false} BothKept(t: Transfer, n: nat, m: nat, steps: seq<Step>)
    ensures UpKept(t, After(t, n, m, steps)) && DownKept(t, After(t, n, m, steps))
  {
    if steps == [] {
      EmptyWaits<Request>(n + 1);
      EmptyWaits<Delivery>(m + 1);
    } else {
      var before, last := steps[..|steps| - 1], steps[|steps| - 1];
      BothKept(t, n, m, before);
      UpStep(t, After(t, n, m, before), last);
      DownStep(t, After(t, n, m, before), last);
    }
  }

  // ---------- What the sender makes of it ----------

  lemma {:induction false} KeptIn(es: seq<Request>, id: u32, e: Request)
    requires e in es && e.id == id
    ensures e in Kept(es, IsMine(id))
  {
    var n := |es| - 1;
    if e != es[n] {
      KeptIn(es[..n], id, e);
    }
  }

  /** The requests of the transfer are chunks in order, and then perhaps its end. */
  ghost predicate InOrder(es: seq<Request>, r: Reader, id: u32) {
    Kept(es, IsMine(id)) <= Emitted(r, id)
  }

  lemma InOrderBefore(es: seq<Request>, r: Reader, id: u32, n: nat)
    requires InOrder(es, r, id) && n + 1 == |es|
    ensures InOrder(es[..n], r, id)
    ensures es[n].id == id ==> |Kept(es[..n], IsMine(id))| < |Emitted(r, id)| &&
                               es[n] == Emitted(r, id)[|Kept(es[..n], IsMine(id))|]
  {
  }

  /** Before a chunk there is nothing but chunks. */
  lemma ChunksBefore(es: seq<Request>, r: Reader, id: u32, e: Request)
    requires InOrder(es, r, id) && |Kept(es, IsMine(id))| < |r.chunks| && e in es
    ensures !Resets(e, id)
  {
    if e.id == id {
      KeptIn(es, id, e);
      var k :| 0 <= k < |Kept(es, IsMine(id))| && Kept(es, IsMine(id))[k] == e;
      assert Emitted(r, id)[k] == SendChunk(id, r.chunks[k]);
    }
  }

  lemma CommandsNone(t: Streams, sent: seq<Message>, e: Request, id: u32)
    requires e.id != id || e.SendEndFile?
    ensures CommandsFor(Delivered(sent + Handle(t, e).1), id) == CommandsFor(Delivered(sent), id)
  {
    CommandsSnoc(sent, Handle(t, e).1, id);
  }

  predicate SmallChunks(r: Reader) {
    forall c <- r.chunks :: |c| < 0x1_0000_0000
  }

  /** What the messages tell the writer is what the transfer asked to send. */
  lemma {:induction false} CommandsInOrder(t: Transfer, es: seq<Request>, r: Reader)
    requires t.Opened() && InOrder(es, r, t.id) && SmallChunks(r)
    ensures CommandsFor(Delivered(SendAll(t.streams, es).1), t.id) == Writes(Asked(es, t.id))
  {
    if es != [] {
      var n := |es| - 1;
      var (u, sent) := SendAll(t.streams, es[..n]);
      InOrderBefore(es, r, t.id, n);
      CommandsInOrder(t, es[..n], r);
      if es[n].id == t.id && es[n].SendChunk? {
        StillOpen(t, es, r, n);
        ChunkNext(t, es, r, n);
        CommandsStep(u, sent, es[n], t.id, Asked(es[..n], t.id));
      } else {
        NotChunk(es, r, t.id, n);
        CommandsNone(u, sent, es[n], t.id);
        assert Asked(es[..n], t.id) + [] == Asked(es[..n], t.id);
      }
    }
  }

  lemma NotChunk(es: seq<Request>, r: Reader, id: u32, n: nat)
    requires InOrder(es, r, id) && n + 1 == |es| && !(es[n].id == id && es[n].SendChunk?)
    ensures es[n].id != id || es[n].SendEndFile?
  {
    InOrderBefore(es, r, id, n);
  }

  /** When a chunk is next, the stream is still open, with the number of chunks before it. */
  lemma StillOpen(t: Transfer, es: seq<Request>, r: Reader, n: nat)
    requires t.Opened() && InOrder(es, r, t.id)
    requires n + 1 == |es| && es[n].SendChunk? && es[n].id == t.id
    ensures var u := SendAll(t.streams, es[..n]).0;
      t.id in u && u[t.id] == |Asked(es[..n], t.id)| % 0x1_0000_0000_0000_0000
  {
    InOrderBefore(es, r, t.id, n);
    forall e | e in es[..n] ensures !Resets(e, t.id) {
      ChunksBefore(es[..n], r, t.id, e);
    }
    ChunksNumbered(t.streams, es[..n], t.id);
  }

  lemma ChunkNext(t: Transfer, es: seq<Request>, r: Reader, n: nat)
    requires InOrder(es, r, t.id) && SmallChunks(r) && n + 1 == |es| && es[n].SendChunk? && es[n].id == t.id
    ensures |es[n].payload| < 0x1_0000_0000
  {
    InOrderBefore(es, r, t.id, n);
    var k := |Kept(es[..n], IsMine(t.id))|;
    assert k < |r.chunks| && es[n].payload == r.chunks[k];
  }

  // ---------- What the writer makes of it ----------

  lemma {:induction false} CommandsKept(ds: seq<Delivery>, id: u32)
    ensures CommandsFor(Kept(ds, IsCommand(id)), id) == CommandsFor(ds, id)
  {
    if ds != [] {
      var n := |ds| - 1;
      CommandsKept(ds[..n], id);
      var before := Kept(ds[..n], IsCommand(id));
      if IsCommand(id)(ds[n]) {
        assert (before + [ds[n]])[..|before|] == before;
      } else {
        assert before + [] == before;
      }
    }
  }

  lemma CommandsForSnoc(ds: seq<Delivery>, d: Delivery, id: u32)
    ensures CommandsFor(ds + [d], id) == CommandsFor(ds, id) + CommandFor(d, id)
  {
    assert (ds + [d])[..|ds|] == ds;
  }

  lemma {:induction false} CommandsConcat(a: seq<Delivery>, b: seq<Delivery>, id: u32)
    ensures CommandsFor(a + b, id) == CommandsFor(a, id) + CommandsFor(b, id)
  {
    if b == [] {
      assert a + b == a;
    } else {
      var n := |b| - 1;
      CommandsConcat(a, b[..n], id);
      assert a + b == (a + b[..n]) + [b[n]] && b == b[..n] + [b[n]];
      CommandsForSnoc(a + b[..n], b[n], id);
      CommandsForSnoc(b[..n], b[n], id);
      Associate(CommandsFor(a, id), CommandsFor(b[..n], id), CommandFor(b[n], id));
    }
  }

  /** The chunks that requests of the transfer ask for are chunks that were read, from the first on. */
  lemma {:induction false} AskedPrefix(es: seq<Request>, r: Reader, id: u32)
    requires InOrder(es, r, id)
    ensures Asked(es, id) <= r.chunks
    ensures |Asked(es, id)| == if |Kept(es, IsMine(id))| <= |r.chunks| then |Kept(es, IsMine(id))| else |r.chunks|
  {
    if es != [] {
      var n := |es| - 1;
      InOrderBefore(es, r, id, n);
      AskedPrefix(es[..n], r, id);
    }
  }

  /** The chunks that reached the writer are chunks that were read, from the first on. */
  lemma ReachedPrefix(t: Transfer, x: State) returns (ps: seq<seq<byte>>)
    requires t.Opened() && UpKept(t, x) && DownKept(t, x)
    ensures ps <= x.reader.chunks && CommandsFor(x.down.out, t.id) == Writes(ps)
  {
    var asked := SentCommands(t, x);
    ArrivedCommands(t, x);
    var k := |CommandsFor(x.down.out, t.id)|;
    ps := asked[..k];
    assert Writes(asked)[..k] == Writes(ps);
  }

  lemma SentCommands(t: Transfer, x: State) returns (asked: seq<seq<byte>>)
    requires t.Opened() && UpKept(t, x)
    ensures asked == Asked(x.up.out, t.id) <= x.reader.chunks
    ensures CommandsFor(Delivered(Sent(t, x)), t.id) == Writes(asked)
  {
    KeptConcat(x.up.out, Waiting(x.up.queues), IsMine(t.id));
    SmallRead(t.file, x.reader);
    CommandsInOrder(t, x.up.out, x.reader);
    AskedPrefix(x.up.out, x.reader, t.id);
    asked := Asked(x.up.out, t.id);
  }

  lemma SmallRead(file: seq<byte>, r: Reader)
    requires ReaderInv(file, r)
    ensures SmallChunks(r)
  {
    forall c | c in r.chunks ensures |c| < 0x1_0000_0000 {
      if r.finished {
        ChunkSize(r.chunks, c);
      }
    }
  }

  lemma ArrivedCommands(t: Transfer, x: State)
    requires DownKept(t, x)
    ensures CommandsFor(x.down.out, t.id) <= CommandsFor(Delivered(Sent(t, x)), t.id)
  {
    SomeCommands(x.down, Delivered(Sent(t, x)), x.arrived, t.id);
  }

  lemma SomeCommands(down: Chain<Delivery>, ds: seq<Delivery>, k: nat, id: u32)
    requires k <= |ds| && Kept(Total(down), IsCommand(id)) == Kept(ds[..k], IsCommand(id))
    ensures CommandsFor(down.out, id) <= CommandsFor(ds, id)
    ensures k == |ds| && Kept(Waiting(down.queues), IsCommand(id)) == [] ==>
      CommandsFor(down.out, id) == CommandsFor(ds, id)
  {
    CommandsKept(Total(down), id);
    CommandsKept(ds[..k], id);
    CommandsConcat(down.out, Waiting(down.queues), id);
    CommandsKept(Waiting(down.queues), id);
    assert ds == ds[..k] + ds[k..];
    CommandsConcat(ds[..k], ds[k..], id);
  }

  lemma {:induction false} ConcatPrefix(ps: seq<seq<byte>>, qs: seq<seq<byte>>)
    requires ps <= qs
    ensures Concat(ps) <= Concat(qs)
  {
    if |ps| == |qs| {
      assert ps == qs;
    } else {
      ConcatPrefix(ps, qs[..|qs| - 1]);
    }
  }

  lemma PrefixWritten(file: seq<byte>, r: Reader, ps: seq<seq<byte>>)
    requires ReaderInv(file, r) && ps <= r.chunks
    ensures var o := WriteAll(Writes(ps)); o == Finished(file) || (o.Writing? && o.bytes <= file)
  {
    if r.finished && ps == r.chunks {
      WritesFile(r.chunks, file);
    } else {
      var pieces := if r.finished then r.chunks[..|r.chunks| - 1] else r.chunks;
      assert ps <= pieces;
      WritesPieces(ps);
      ConcatPrefix(ps, pieces);
    }
  }

  // ---------- Main results ----------

  /**
   At every point of every run, however reads come out, threads take turns and other transfers come between: the
   writer has written the beginning of the file and is still writing, or has finished with exactly the file.
   */
  lemma AlwaysPrefix(t: Transfer, n: nat, m: nat, steps: seq<Step>)
    requires t.Opened()
    ensures var o := Written(t, After(t, n, m, steps)); o == Finished(t.file) || (o.Writing? && o.bytes <= t.file)
  {
    var x := After(t, n, m, steps);
    BothKept(t, n, m, steps);
    var ps := ReachedPrefix(t, x);
    PrefixWritten(t.file, x.reader, ps);
  }

  /** The reader has finished, and nothing of the transfer is under way. */
  ghost predicate Drained(t: Transfer, x: State) {
    && x.reader.finished && x.arrived == |Sent(t, x)|
    && Kept(Waiting(x.up.queues), IsMine(t.id)) == [] && Kept(Waiting(x.down.queues), IsCommand(t.id)) == []
  }

  /**
   In every run, once the file has been read to its end and nothing of it is under way, its chunks went out numbered
   from 0 on and the writer has finished with exactly the file.
   */
  lemma FileArrives(t: Transfer, n: nat, m: nat, steps: seq<Step>)
    requires t.Opened() && Drained(t, After(t, n, m, steps))
    ensures var x := After(t, n, m, steps);
      Written(t, x) == Finished(t.file) && ChunksOf(Sent(t, x), t.id) == Numbered(t.id, x.reader.chunks)
  {
    var x := After(t, n, m, steps);
    BothKept(t, n, m, steps);
    Arrived(t, x);
  }

  lemma Arrived(t: Transfer, x: State)
    requires t.Opened() && UpKept(t, x) && DownKept(t, x) && Drained(t, x)
    ensures Written(t, x) == Finished(t.file) && ChunksOf(Sent(t, x), t.id) == Numbered(t.id, x.reader.chunks)
  {
    AllReached(t, x);
    WritesFile(x.reader.chunks, t.file);
    AllNumbered(t, x.up.out, x.reader);
  }

  lemma AllReached(t: Transfer, x: State)
    requires t.Opened() && UpKept(t, x) && DownKept(t, x) && Drained(t, x)
    ensures Kept(x.up.out, IsMine(t.id)) == Emitted(x.reader, t.id)
    ensures Asked(x.up.out, t.id) == x.reader.chunks && CommandsFor(x.down.out, t.id) == Writes(x.reader.chunks)
  {
    KeptConcat(x.up.out, Waiting(x.up.queues), IsMine(t.id));
    AskedPrefix(x.up.out, x.reader, t.id);
    var asked := SentCommands(t, x);
    assert |asked| == |x.reader.chunks|;
    SomeCommands(x.down, Delivered(Sent(t, x)), x.arrived, t.id);
  }

  /** Up to its end, the chunks of a transfer are numbered from 0 on. */
  lemma {:induction false} AllNumbered(t: Transfer, es: seq<Request>, r: Reader)
    requires t.Opened() && InOrder(es, r, t.id)
    ensures ChunksOf(SendAll(t.streams, es).1, t.id) == Numbered(t.id, Asked(es, t.id))
  {
    if es != [] {
      var n := |es| - 1;
      var (u, sent) := SendAll(t.streams, es[..n]);
      InOrderBefore(es, r, t.id, n);
      AllNumbered(t, es[..n], r);
      ChunksOfOne(sent, Handle(u, es[n]).1, t.id);
      if es[n].id == t.id && es[n].SendChunk? {
        StillOpen(t, es, r, n);
        NumberedSnoc(t.id, Asked(es[..n], t.id), es[n].payload);
      } else {
        NotChunk(es, r, t.id, n);
        assert Asked(es[..n], t.id) + [] == Asked(es[..n], t.id);
      }
    }
  }
}
