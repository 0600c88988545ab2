/**
 An SRTP stream from sender to receiver over a network that drops, repeats, reorders,
 damages and mixes packets.
 */
module SrtpStream {
  import opened Bytes
  import opened Replay
  import opened Srtp

  const INDEX_LIMIT := 0x1_0000_0000_0000

  /** The packets a sender numbers consecutively from `start`, before protection. */
  datatype Stream = Stream(c: Crypto, k: SessionKeys, ssrc: u32, start: u16, plain: seq<seq<byte>>) {

    ghost predicate WellFormed() {
      && start + |plain| <= INDEX_LIMIT
      && forall n: nat {:trigger NumberedAt(n)} :: n < |plain| ==> NumberedAt(n)
    }

    /** The n-th packet carries its number and the SSRC. */
    ghost predicate NumberedAt(n: nat)
      requires n < |plain|
    {
      Addressed(plain[n], (start + n) % 0x1_0000, ssrc)
    }

    /** The n-th packet on the wire, protected under index `start + n`. */
    function Wire(n: nat): seq<byte>
      requires n < |plain| && start + n < INDEX_LIMIT && NumberedAt(n)
    {
      Seal(c, k, ssrc, (start + n) / 0x1_0000, (start + n) % 0x1_0000, plain[n])
    }
  }

  /** What the network hands to the receiver: a copy of a packet of the stream, or anything else. */
  datatype Delivery = Genuine(n: nat) | Foreign(packet: seq<byte>)

  function PacketOf(s: Stream, d: Delivery): seq<byte>
    requires s.WellFormed() && (d.Genuine? ==> d.n < |s.plain|)
  {
    if d.Genuine? then s.Wire(d.n) else d.packet
  }

  /** The effect of a delivery on the receiver. */
  function Deliver(s: Stream, ctx: Ctx, d: Delivery): Effect
    requires s.WellFormed() && (d.Genuine? ==> d.n < |s.plain|)
  {
    Unprotect(s.c, s.k, ctx, PacketOf(s, d))
  }

  ghost predicate InStream(s: Stream, ds: seq<Delivery>) {
    forall j :: 0 <= j < |ds| && ds[j].Genuine? ==> ds[j].n < |s.plain|
  }

  /** The receiver's context after the deliveries. */
  ghost function Receiver(s: Stream, ds: seq<Delivery>): Ctx
    requires s.WellFormed() && InStream(s, ds)
  {
    if ds == [] then FRESH else Deliver(s, Receiver(s, ds[..|ds| - 1]), ds[|ds| - 1]).ctx
  }

  // ---- what the receiver should accept ---------------------------------------

  /** Not accepted before, and less than 64 behind everything accepted. */
  predicate Acceptable(accepted: seq<nat>, index: nat) {
    index !in accepted && forall a :: a in accepted ==> a < index + 64
  }

  /** Close enough to the last accepted index for its rollover counter to be guessed. */
  predicate InReach(accepted: seq<nat>, index: nat) {
    if accepted == [] then index < 0x1_0000
    else Near(accepted[|accepted| - 1], index)
  }

  /** The indices accepted in order, from the stream numbers alone. */
  ghost function Accepted(s: Stream, ds: seq<Delivery>): seq<nat> {
    if ds == [] then [] else AcceptedWith(s, Accepted(s, ds[..|ds| - 1]), ds[|ds| - 1])
  }

  ghost function AcceptedWith(s: Stream, accepted: seq<nat>, d: Delivery): seq<nat> {
    if d.Genuine? && Acceptable(accepted, s.start + d.n) then accepted + [s.start + d.n] else accepted
  }

  /** Every copy of a stream packet arrives in reach; other traffic that claims the stream's SSRC
      is refused (it fails authentication). */
  ghost predicate Admissible(s: Stream, ds: seq<Delivery>)
    requires s.WellFormed()
  {
    && InStream(s, ds)
    && forall j {:trigger AdmissibleAt(s, ds, j)} :: 0 <= j < |ds| ==> AdmissibleAt(s, ds, j)
  }

  ghost predicate AdmissibleAt(s: Stream, ds: seq<Delivery>, j: nat)
    requires s.WellFormed() && InStream(s, ds) && j < |ds|
  {
    Arrives(s, Receiver(s, ds[..j]), Accepted(s, ds[..j]), ds[j])
  }

  ghost predicate Arrives(s: Stream, ctx: Ctx, accepted: seq<nat>, d: Delivery)
    requires s.WellFormed() && (d.Genuine? ==> d.n < |s.plain|)
  {
    match d
    case Genuine(n) => InReach(accepted, s.start + n)
    case Foreign(p) => |p| >= 12 && U32At(p, 8) == s.ssrc ==> Unprotect(s.c, s.k, ctx, p).error.Some?
  }

  // ---- the receiver tracks the stream ------------------------------------------

  ghost function Seen(accepted: seq<nat>): set<nat> {
    set a | a in accepted
  }

  ghost predicate Tracking(s: Stream, ctx: Ctx, accepted: seq<nat>) {
    && (forall a :: a in accepted ==> a < INDEX_LIMIT)
    && (if accepted == [] then s.ssrc !in ctx.lastSeqs
        else
          var last := accepted[|accepted| - 1];
          s.ssrc in ctx.lastSeqs && ctx.lastSeqs[s.ssrc] == last % 0x1_0000 && ctx.RocOf(s.ssrc) == last / 0x1_0000)
    && Tracks(ctx.WindowOf(s.ssrc), Seen(accepted))
  }

  lemma RocGuessed(s: Stream, ctx: Ctx, accepted: seq<nat>, index: nat)
    requires Tracking(s, ctx, accepted) && InReach(accepted, index) && index < INDEX_LIMIT
    ensures ctx.EstimateRoc(s.ssrc, index % 0x1_0000) == index / 0x1_0000
  {
    if accepted != [] {
      EstimateExactIff(ctx, s.ssrc, accepted[|accepted| - 1], index);
    }
  }

  lemma ReplayIffNotAcceptable(w: Window, accepted: seq<nat>, index: u64)
    requires forall a :: a in accepted ==> a < INDEX_LIMIT
    requires Tracks(w, Seen(accepted))
    ensures w.IsReplay(index) <==> !Acceptable(accepted, index)
  {
    IsReplayIff(w, Seen(accepted), index);
    assert forall a :: a in accepted <==> a in Seen(accepted);
    if index + 64 <= w.maxIndex { assert w.maxIndex in accepted; }
  }

  lemma AcceptedExtends(w: Window, accepted: seq<nat>, index: nat)
    requires index < INDEX_LIMIT && Tracks(w, Seen(accepted)) && Acceptable(accepted, index)
    ensures Tracks(w.Record(index), Seen(accepted + [index]))
  {
    RecordTracks(w, Seen(accepted), index);
    assert w.maxIndex - index < 64;
    assert Seen(accepted + [index]) == Seen(accepted) + {index};
  }

  /** What a delivery of packet `n` should do to a receiver that accepted `accepted` so far. */
  ghost predicate Correct(s: Stream, e: Effect, accepted: seq<nat>, n: nat)
    requires n < |s.plain|
  {
    var index := s.start + n;
    if Acceptable(accepted, index)
    then e.error.None? && e.packet == s.plain[n] && s.ssrc in e.ctx.lastSeqs &&
         Index(e.ctx.RocOf(s.ssrc), e.ctx.lastSeqs[s.ssrc]) == index
    else e.error == Some(ReplayDetected)
  }

  /** What is on the wire: SSRC and number in the clear, and a packet that opens under its own counter. */
  lemma WireOpens(s: Stream, n: nat)
    requires s.WellFormed() && n < |s.plain|
    ensures var wire, index := s.Wire(n), s.start + n;
            |wire| >= 12 + AUTH_TAG_LEN && U32At(wire, 8) == s.ssrc && U16At(wire, 2) == index % 0x1_0000 &&
            Open(s.c, s.k, index / 0x1_0000, wire) == (s.plain[n], None)
  {
    assert s.NumberedAt(n);
    OpenSeal(s.c, s.k, s.ssrc, (s.start + n) / 0x1_0000, s.plain[n]);
  }

  /** One genuine delivery: accepted exactly when it should be, with the true index and bytes. */
  lemma GenuineStep(s: Stream, ctx: Ctx, accepted: seq<nat>, n: nat)
    requires s.WellFormed() && n < |s.plain|
    requires Tracking(s, ctx, accepted) && InReach(accepted, s.start + n)
    ensures var e := Unprotect(s.c, s.k, ctx, s.Wire(n));
            Correct(s, e, accepted, n) &&
            Tracking(s, e.ctx, if Acceptable(accepted, s.start + n) then accepted + [s.start + n] else accepted)
  {
    var index := s.start + n;
    RocGuessed(s, ctx, accepted, index);
    WireOpens(s, n);
    UnprotectOpened(s.c, s.k, ctx, s.Wire(n), index / 0x1_0000, s.plain[n]);
    OpenedStep(s, ctx, accepted, n, Unprotect(s.c, s.k, ctx, s.Wire(n)));
  }

  lemma OpenedStep(s: Stream, ctx: Ctx, accepted: seq<nat>, n: nat, e: Effect)
    requires n < |s.plain| && s.start + n < INDEX_LIMIT && Tracking(s, ctx, accepted)
    requires OpenedEffect(ctx, e, s.ssrc, (s.start + n) / 0x1_0000, (s.start + n) % 0x1_0000, s.plain[n])
    ensures Correct(s, e, accepted, n)
    ensures Tracking(s, e.ctx, if Acceptable(accepted, s.start + n) then accepted + [s.start + n] else accepted)
  {
    var index := s.start + n;
    ReplayIffNotAcceptable(ctx.WindowOf(s.ssrc), accepted, index);
    if Acceptable(accepted, index) {
      TrackingExtends(s, ctx, e.ctx, accepted, index);
    } else {
      TrackingSame(s, ctx, e.ctx, accepted);
    }
  }

  lemma TrackingExtends(s: Stream, ctx: Ctx, ctx': Ctx, accepted: seq<nat>, index: nat)
    requires Tracking(s, ctx, accepted) && index < INDEX_LIMIT && Acceptable(accepted, index)
    requires s.ssrc in ctx'.lastSeqs && ctx'.lastSeqs[s.ssrc] == index % 0x1_0000
    requires ctx'.RocOf(s.ssrc) == index / 0x1_0000 && ctx'.WindowOf(s.ssrc) == ctx.WindowOf(s.ssrc).Record(index)
    ensures Tracking(s, ctx', accepted + [index])
  {
    AcceptedExtends(ctx.WindowOf(s.ssrc), accepted, index);
  }

  lemma TrackingSame(s: Stream, ctx: Ctx, ctx': Ctx, accepted: seq<nat>)
    requires Tracking(s, ctx, accepted) && SameState(ctx, ctx', s.ssrc)
    ensures Tracking(s, ctx', accepted)
  {
  }

  lemma ForeignStep(s: Stream, ctx: Ctx, accepted: seq<nat>, packet: seq<byte>)
    requires Tracking(s, ctx, accepted)
    requires |packet| >= 12 && U32At(packet, 8) == s.ssrc ==> Unprotect(s.c, s.k, ctx, packet).error.Some?
    ensures Tracking(s, Unprotect(s.c, s.k, ctx, packet).ctx, accepted)
  {
    UnprotectFrame(s.c, s.k, ctx, packet, s.ssrc);
    TrackingSame(s, ctx, Unprotect(s.c, s.k, ctx, packet).ctx, accepted);
  }

  lemma AdmissiblePrefix(s: Stream, ds: seq<Delivery>, j: nat)
    requires s.WellFormed() && Admissible(s, ds) && j <= |ds|
    ensures Admissible(s, ds[..j])
  {
    forall i | 0 <= i < j ensures AdmissibleAt(s, ds[..j], i) {
      assert AdmissibleAt(s, ds, i) && ds[..j][..i] == ds[..i];
    }
  }

  /** A copy of a stream packet is accepted exactly if its index is acceptable. */
  ghost predicate AnswerRight(s: Stream, error: Option<SrtpError>, accepted: seq<nat>, d: Delivery) {
    d.Genuine? ==> (error.None? <==> Acceptable(accepted, s.start + d.n))
  }

  lemma DeliveryTracks(s: Stream, ctx: Ctx, accepted: seq<nat>, d: Delivery)
    requires s.WellFormed() && (d.Genuine? ==> d.n < |s.plain|)
    requires Tracking(s, ctx, accepted) && Arrives(s, ctx, accepted, d)
    ensures Tracking(s, Deliver(s, ctx, d).ctx, AcceptedWith(s, accepted, d))
    ensures AnswerRight(s, Deliver(s, ctx, d).error, accepted, d)
  {
    if d.Genuine? {
      GenuineStep(s, ctx, accepted, d.n);
    } else {
      ForeignStep(s, ctx, accepted, d.packet);
    }
  }

  lemma {:induction false} ReceiverTracks(s: Stream, ds: seq<Delivery>)
    requires s.WellFormed() && Admissible(s, ds)
    ensures Tracking(s, Receiver(s, ds), Accepted(s, ds))
  {
    if ds != [] {
      var j := |ds| - 1;
      AdmissiblePrefix(s, ds, j);
      ReceiverTracks(s, ds[..j]);
      assert AdmissibleAt(s, ds, j);
      DeliveryTracks(s, Receiver(s, ds[..j]), Accepted(s, ds[..j]), ds[j]);
    } else {
      EmptyTracks();
      assert Seen(Accepted(s, ds)) == {};
    }
  }

  /** After any admissible traffic, a packet of the stream that arrives in reach is accepted if and
      only if it was not accepted before and lies less than 64 behind; the receiver then holds its true
      index and returns the sender's bytes. Otherwise it is refused as a replay. */
  lemma EndToEnd(s: Stream, ds: seq<Delivery>, n: nat)
    requires s.WellFormed() && Admissible(s, ds) && n < |s.plain|
    requires InReach(Accepted(s, ds), s.start + n)
    ensures Correct(s, Unprotect(s.c, s.k, Receiver(s, ds), s.Wire(n)), Accepted(s, ds), n)
  {
    ReceiverTracks(s, ds);
    GenuineStep(s, Receiver(s, ds), Accepted(s, ds), n);
  }

  /** What the receiver answered to each delivery. */
  ghost function Answers(s: Stream, ds: seq<Delivery>): (r: seq<Option<SrtpError>>)
    requires s.WellFormed() && InStream(s, ds)
    ensures |r| == |ds|
  {
    if ds == [] then []
    else
      var j := |ds| - 1;
      Answers(s, ds[..j]) + [Deliver(s, Receiver(s, ds[..j]), ds[j]).error]
  }

  /** No copy of a packet was accepted after another one, and what was accepted is in the list. */
  ghost predicate Once(s: Stream, ds: seq<Delivery>, answers: seq<Option<SrtpError>>, accepted: seq<nat>)
    requires |answers| == |ds|
  {
    && (forall j :: 0 <= j < |ds| && ds[j].Genuine? && answers[j].None? ==> s.start + ds[j].n in accepted)
    && (forall j, l :: 0 <= j < l < |ds| && ds[j].Genuine? && ds[l] == ds[j] ==> answers[j].Some? || answers[l].Some?)
  }

  lemma OnceStep(s: Stream, ds: seq<Delivery>, answers: seq<Option<SrtpError>>, accepted: seq<nat>, d: Delivery,
                 error: Option<SrtpError>)
    requires |answers| == |ds| && Once(s, ds, answers, accepted) && AnswerRight(s, error, accepted, d)
    ensures Once(s, ds + [d], answers + [error], AcceptedWith(s, accepted, d))
  {
  }

  lemma {:induction false} RunOnce(s: Stream, ds: seq<Delivery>)
    requires s.WellFormed() && Admissible(s, ds)
    ensures Once(s, ds, Answers(s, ds), Accepted(s, ds))
  {
    if ds != [] {
      var j := |ds| - 1;
      var before, d := ds[..j], ds[j];
      AdmissiblePrefix(s, ds, j);
      ReceiverTracks(s, before);
      RunOnce(s, before);
      assert AdmissibleAt(s, ds, j);
      DeliveryTracks(s, Receiver(s, before), Accepted(s, before), d);
      OnceStep(s, before, Answers(s, before), Accepted(s, before), d, Deliver(s, Receiver(s, before), d).error);
      assert before + [d] == ds;
    }
  }

  /** Whatever the network does in between, the receiver never accepts two copies of one packet. */
  lemma AcceptedOnce(s: Stream, ds: seq<Delivery>, j: nat, l: nat)
    requires s.WellFormed() && Admissible(s, ds) && j < l < |ds| && ds[j].Genuine? && ds[l] == ds[j]
    ensures Answers(s, ds)[j].Some? || Answers(s, ds)[l].Some?
  {
    RunOnce(s, ds);
  }
}
